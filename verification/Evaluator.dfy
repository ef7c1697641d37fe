/** The evaluator as a program over a mutable evaluation state. */
module Evaluator {
  import opened Text
  import opened Expressions
  import opened Operators
  import opened Evaluation

  class EvalState {
    var rootAd: seq<Expr>
    var curAd: seq<Expr>
    var depthRemaining: int

    constructor ()
      ensures rootAd == [] && curAd == [] && depthRemaining == MAX_RECURSION
    {
      rootAd, curAd, depthRemaining := [], [], MAX_RECURSION;
    }

    /** The root is the outermost ad of the chain of parent scopes. */
    method SetScopes(scope: seq<Expr>)
      modifies this
      ensures curAd == scope && depthRemaining == old(depthRemaining)
      ensures rootAd == if scope == [] then [] else [scope[|scope| - 1]]
    {
      curAd := scope;
      if scope == [] {
        rootAd := [];
      } else {
        var prev, cur := scope, scope[1..];
        while cur != []
          invariant prev != [] && cur == prev[1..] && prev[|prev| - 1] == scope[|scope| - 1]
          invariant curAd == scope && depthRemaining == old(depthRemaining)
          decreases |cur|
        {
          prev, cur := cur, cur[1..];
        }
        rootAd := prev;
      }
    }

    /** Walks outwards from `start`, leaving `curAd` at the last ad it looked at. */
    method LookupInScope(name: string, start: seq<Expr>) returns (t: Target)
      modifies this`curAd
      ensures t == Evaluation.LookupInScope(name, start, rootAd)
      ensures t.Bound? ==> curAd == t.scope
      ensures t.NoRoot? ==> rootAd == []
    {
      var current := start;
      while current != []
        invariant Evaluation.LookupInScope(name, current, rootAd) == Evaluation.LookupInScope(name, start, rootAd)
        decreases |current|
      {
        curAd := current;
        var found := Lookup(Attributes(current[0]), name);
        if found.Some? {
          return Bound(found.value, current);
        }
        var superScope := current[1..];
        if Fold(name) == "toplevel" || Fold(name) == "root" {
          return if rootAd == [] then NoRoot else TheAd(rootAd);
        } else if Fold(name) == "self" {
          return TheAd(curAd);
        } else if Fold(name) == "parent" {
          return if superScope == [] then Unbound else TheAd(superScope);
        }
        current := superScope;
      }
      return Unbound;
    }

    /** Evaluation terminates on every ad, cyclic definitions included, computes `Eval`, and leaves
        the state as it found it, whether or not it succeeds. A state with a current ad has a root
        (`SetScopes`), so that the one exit that does not restore the current ad is not taken. */
    method Evaluate(e: Expr) returns (ok: bool, val: Value)
      requires rootAd != [] && curAd != [] && depthRemaining >= 0
      modifies this
      ensures rootAd == old(rootAd) && curAd == old(curAd) && depthRemaining == old(depthRemaining)
      ensures Eval(e, curAd, rootAd, depthRemaining) == if ok then Some(val) else None
      decreases depthRemaining, e, 1
    {
      ok, val := true, Undefined;
      match e {
        case Literal(v) => val := v;
        case Ref(name, absolute) =>
          var saved := curAd;
          var t := LookupInScope(name, if absolute then rootAd else curAd);
          ok, val := EvaluateTarget(t, saved, e);
        case Select(base, attr) =>
          ok, val := Evaluate(base);
          if ok {
            if val.AdValue? {
              var saved := curAd;
              var t := LookupInScope(attr, val.scope);
              ok, val := EvaluateTarget(t, saved, e);
            } else if !val.Undefined? {
              val := Error;
            }
          }
        case Unary(op, arg) =>
          ok, val := Evaluate(arg);
          if ok { val := OperateUnary(op, val); }
        case Binary(op, left, right) => ok, val := EvaluateBinary(e);
        case Ternary(cond, onTrue, onFalse) => ok, val := EvaluateTernary(e);
        case Ad(_) => val := AdValue([e] + curAd);
        case Call(_, _) => ok := false;
        case ExprList(_) => ok := false;
      }
    }

    method EvaluateBinary(e: Expr) returns (ok: bool, val: Value)
      requires e.Binary?
      requires rootAd != [] && curAd != [] && depthRemaining >= 0
      modifies this
      ensures rootAd == old(rootAd) && curAd == old(curAd) && depthRemaining == old(depthRemaining)
      ensures Eval(e, curAd, rootAd, depthRemaining) == if ok then Some(val) else None
      decreases depthRemaining, e, 0
    {
      ok, val := false, Error;
      if e.op.Subscript? { return; }
      var v1, v2;
      ok, v1 := Evaluate(e.left);
      if !ok { return; }
      if ShortCircuits(e.op, v1) { return true, v1; }
      ok, v2 := Evaluate(e.right);
      if !ok { return; }
      val := Operate(e.op, v1, v2);
    }

    /** A boolean selector evaluates one arm. If that arm fails it is evaluated once more before
        the failure is reported; any other selector evaluates both arms. */
    method EvaluateTernary(e: Expr) returns (ok: bool, val: Value)
      requires e.Ternary?
      requires rootAd != [] && curAd != [] && depthRemaining >= 0
      modifies this
      ensures rootAd == old(rootAd) && curAd == old(curAd) && depthRemaining == old(depthRemaining)
      ensures Eval(e, curAd, rootAd, depthRemaining) == if ok then Some(val) else None
      decreases depthRemaining, e, 0
    {
      var v1, v2, v3;
      ok, v1 := Evaluate(e.cond);
      val := Error;
      if !ok { return; }
      if v1.Bool? {
        if v1.b {
          ok, v2 := Evaluate(e.onTrue);
        } else {
          ok, v2 := Evaluate(e.onFalse);
        }
        if ok { return true, v2; }
      }
      ok, v2 := Evaluate(e.onTrue);
      if !ok { return; }
      ok, v3 := Evaluate(e.onFalse);
      if !ok { return; }
      val := if v1.Undefined? then Undefined else if !v1.Bool? then Error else if v1.b then v2 else v3;
    }

    method EvaluateTarget(t: Target, saved: seq<Expr>, ghost e: Expr) returns (ok: bool, val: Value)
      requires (rootAd != [] || t.NoRoot?) && depthRemaining >= 0
      requires t.Bound? ==> curAd == t.scope && t.scope != []
      modifies this
      ensures rootAd == old(rootAd) && depthRemaining == old(depthRemaining)
      ensures curAd == if t.NoRoot? then old(curAd) else saved
      ensures Follow(t, rootAd, depthRemaining, e) == if ok then Some(val) else None
      decreases depthRemaining, e, 0
    {
      ok, val := true, Undefined;
      match t {
        case NoRoot => return false, Undefined;
        case Unbound =>
        case TheAd(scope) =>
          if depthRemaining <= 0 {
            ok := false;
          } else {
            val := AdValue(scope);
          }
        case Bound(target, scope) =>
          if depthRemaining <= 0 {
            ok := false;
          } else {
            depthRemaining := depthRemaining - 1;
            ok, val := Evaluate(target);
            depthRemaining := depthRemaining + 1;
          }
      }
      curAd := saved;
    }
  }

  /** Evaluation in the scope an expression belongs to; an expression without one has no value. */
  method EvaluateIn(e: Expr, scope: seq<Expr>) returns (ok: bool, val: Value)
    ensures ok <==> scope != [] && Eval(e, scope, [scope[|scope| - 1]], 1000).Some?
    ensures ok ==> Eval(e, scope, [scope[|scope| - 1]], 1000) == Some(val)
  {
    var state := new EvalState();
    if scope == [] {
      return false, Error;
    }
    state.SetScopes(scope);
    ok, val := state.Evaluate(e);
  }
}
