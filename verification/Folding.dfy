/** How much flattening computes: what an ad determines is folded, nothing foldable is left inside a tree,
    and the constants of a reassociable operator are gathered into one. */
module Folding {
  import opened Text
  import opened Expressions
  import opened Operators
  import opened Evaluation
  import opened SingleAd
  import opened Flattening

  // ------------------------------------------------------------ what is folded

  /** The value that the ad determines for `e`, following references: an operator needs both operands, but
      a connective may be decided by one of them; a conditional needs a defined condition. */
  function Known(e: Expr, attrs: seq<Attr>, depth: nat): (r: Option<Value>)
    requires Simple(e) && SimpleAd(attrs)
    decreases depth, e
  {
    match e
    case Literal(v) => Some(v)
    case Ref(name, _) =>
      LookupIsSimple(attrs, name);
      var t := Lookup(attrs, name);
      if t.Some? && depth > 0 then Known(t.value, attrs, depth - 1) else None
    case Unary(op, arg) =>
      var k := Known(arg, attrs, depth);
      if k.Some? then Some(OperateUnary(op, k.value)) else None
    case Binary(op, l, r) =>
      var k1, k2 := Known(l, attrs, depth), Known(r, attrs, depth);
      if k1.Some? && k2.Some? then Some(Operate(op, k1.value, k2.value))
      else if IsConnective(op) && (k1 == Some(Bool(op.Or?)) || k2 == Some(Bool(op.Or?))) then Some(Bool(op.Or?))
      else None
    case Ternary(c, t, f) =>
      match Known(c, attrs, depth)
      case None => None
      case Some(Undefined) => None
      case Some(Bool(b)) => Known(if b then t else f, attrs, depth)
      case Some(_) => Some(Error)
  }

  /** Flattening that does not run out of depth gives a value exactly where the ad determines one, and
      gives that value. */
  lemma {:induction false} FoldsExactly(e: Expr, attrs: seq<Attr>, depth: nat)
    requires Simple(e) && SimpleAd(attrs) && Flatten(e, attrs, depth).Some?
    ensures var f := Flatten(e, attrs, depth).value;
            Known(e, attrs, depth) == if f.Folded? then Some(f.v) else None
    decreases depth, e
  {
    match e
    case Literal(_) =>
    case Ref(name, _) =>
      LookupIsSimple(attrs, name);
      if Lookup(attrs, name).Some? {
        FoldsExactly(Lookup(attrs, name).value, attrs, depth - 1);
      }
    case Unary(_, arg) => FoldsExactly(arg, attrs, depth);
    case Binary(op, l, r) =>
      FoldsExactly(l, attrs, depth);
      FoldsExactly(r, attrs, depth);
      CombineFolds(op, Flatten(l, attrs, depth).value, Flatten(r, attrs, depth).value);
    case Ternary(c, t, f) =>
      FoldsExactly(c, attrs, depth);
      var k := Known(c, attrs, depth);
      if k.Some? && k.value.Bool? {
        FoldsExactly(if k.value.b then t else f, attrs, depth);
      }
  }

  lemma CombineFolds(op: BinaryOp, f1: Flat, f2: Flat)
    requires !op.Subscript?
    ensures var decides := Folded(Bool(op.Or?));
            Reassociable(op) ==>
              if f1.Folded? && f2.Folded? then Combine(op, f1, f2) == Folded(Operate(op, f1.v, f2.v))
              else if IsConnective(op) && (f1 == decides || f2 == decides) then Combine(op, f1, f2) == decides
              else !Combine(op, f1, f2).Folded?
  {
  }

  /** Every reference, followed through the attributes, is bound, and no conditional met on the way has an
      undefined condition. */
  predicate Closed(e: Expr, attrs: seq<Attr>, depth: nat)
    requires Simple(e) && SimpleAd(attrs)
    decreases depth, e
  {
    match e
    case Literal(_) => true
    case Ref(name, _) =>
      LookupIsSimple(attrs, name);
      var t := Lookup(attrs, name);
      t.Some? && depth > 0 && Closed(t.value, attrs, depth - 1)
    case Unary(_, arg) => Closed(arg, attrs, depth)
    case Binary(_, l, r) => Closed(l, attrs, depth) && Closed(r, attrs, depth)
    case Ternary(c, t, f) =>
      && Closed(c, attrs, depth) && Known(c, attrs, depth) != Some(Undefined)
      && (Known(c, attrs, depth) == Some(Bool(true)) ==> Closed(t, attrs, depth))
      && (Known(c, attrs, depth) == Some(Bool(false)) ==> Closed(f, attrs, depth))
  }

  /** A closed expression is folded. */
  lemma {:induction false} ClosedFolds(e: Expr, attrs: seq<Attr>, depth: nat)
    requires Simple(e) && SimpleAd(attrs) && Closed(e, attrs, depth)
    ensures Known(e, attrs, depth).Some?
    ensures Flatten(e, attrs, depth) == Some(Folded(Known(e, attrs, depth).value))
    decreases depth, e
  {
    match e
    case Literal(_) =>
    case Ref(name, _) =>
      LookupIsSimple(attrs, name);
      ClosedFolds(Lookup(attrs, name).value, attrs, depth - 1);
    case Unary(_, arg) => ClosedFolds(arg, attrs, depth);
    case Binary(op, l, r) =>
      ClosedFolds(l, attrs, depth);
      ClosedFolds(r, attrs, depth);
      CombineFolds(op, Flatten(l, attrs, depth).value, Flatten(r, attrs, depth).value);
    case Ternary(c, t, f) =>
      ClosedFolds(c, attrs, depth);
      var k := Known(c, attrs, depth);
      if k.value.Bool? {
        ClosedFolds(if k.value.b then t else f, attrs, depth);
      }
  }

  /** What the ad determines is what evaluation gives in every guarded extension. */
  lemma {:induction false} KnownIsRun(e: Expr, a: seq<Attr>, b: seq<Attr>, d: nat, k: nat)
    requires Simple(e) && SimpleAd(a) && SimpleAd(b) && Extends(b, a) && Guarded(e, a, b, k)
    requires Known(e, a, d).Some?
    ensures Run(e, b, k) == Known(e, a, d)
    decreases d, e
  {
    hide Eval;
    match e
    case Literal(v) => RunLiteral(v, b, k);
    case Ref(name, absolute) =>
      LookupIsSimple(a, name);
      RefRuns(name, absolute, b, k);
      KnownIsRun(Lookup(a, name).value, a, b, d - 1, k - 1);
    case Unary(op, arg) =>
      KnownIsRun(arg, a, b, d, k);
      RunUnary(op, arg, b, k);
    case Binary(op, l, r) => KnownBinary(op, l, r, a, b, d, k);
    case Ternary(c, t, f) =>
      KnownIsRun(c, a, b, d, k);
      RunTernary(c, t, f, b, k);
      var v := Known(c, a, d).value;
      if v.Bool? {
        KnownIsRun(if v.b then t else f, a, b, d, k);
      } else {
        GuardedRuns(t, a, b, k);
        GuardedRuns(f, a, b, k);
      }
  }

  lemma {:induction false} KnownBinary(
    op: BinaryOp, l: Expr, r: Expr, a: seq<Attr>, b: seq<Attr>, d: nat, k: nat)
    requires var e := Binary(op, l, r);
             Simple(e) && SimpleAd(a) && SimpleAd(b) && Extends(b, a) && Guarded(e, a, b, k) && Known(e, a, d).Some?
    ensures Run(Binary(op, l, r), b, k) == Known(Binary(op, l, r), a, d)
    decreases d, Binary(op, l, r), 0
  {
    hide Eval;
    hide Run;
    GuardedRuns(l, a, b, k);
    GuardedRuns(r, a, b, k);
    if Known(l, a, d).Some? {
      KnownIsRun(l, a, b, d, k);
    }
    if Known(r, a, d).Some? {
      KnownIsRun(r, a, b, d, k);
    }
    if Reassociable(op) {
      RunNice(op, l, r, b, k);
    } else {
      RunBinary(op, l, r, b, k);
    }
  }

  /** A reference that the ad leaves unbound stays as it is; `false && "s"` shows why values need a guard:
      it folds to an error, and evaluates to false. */
  lemma FreeReference(name: string, absolute: bool, attrs: seq<Attr>, depth: nat)
    requires !Reserved(name) && SimpleAd(attrs) && Lookup(attrs, name).None?
    ensures Flatten(Ref(name, absolute), attrs, depth) == Some(Tree(Ref(name, absolute)))
  {
  }

  lemma FoldedShortCircuit(attrs: seq<Attr>, depth: nat)
    requires SimpleAd(attrs)
    ensures var e := Binary(And, Literal(Bool(false)), Literal(Str("s")));
            Flatten(e, attrs, depth) == Some(Folded(Error)) && Run(e, attrs, depth) == Some(Bool(false))
  {
    var l, r := Literal(Bool(false)), Literal(Str("s"));
    assert Flatten(l, attrs, depth) == Some(Folded(Bool(false)));
    assert Flatten(r, attrs, depth) == Some(Folded(Str("s")));
    RunLiteral(Bool(false), attrs, depth);
  }

  // ----------------------------------------------------------- what is left

  /** Nothing in this tree is determined by the ad, but literals and the undefined condition of a
      conditional. */
  predicate Residual(t: Expr, attrs: seq<Attr>, depth: nat)
    requires SimpleAd(attrs)
    decreases t
  {
    && Simple(t)
    && (t.Literal? || Known(t, attrs, depth).None?)
    && match t
       case Unary(_, arg) => Residual(arg, attrs, depth)
       case Binary(_, l, r) => Residual(l, attrs, depth) && Residual(r, attrs, depth)
       case Ternary(c, x, y) =>
         && (Residual(c, attrs, depth) || Known(c, attrs, depth) == Some(Undefined))
         && Residual(x, attrs, depth) && Residual(y, attrs, depth)
       case _ => true
  }

  predicate Finished(f: Flat, attrs: seq<Attr>, depth: nat)
    requires SimpleAd(attrs)
  {
    match f
    case Folded(v) => !v.AdValue?
    case Tree(t) => Residual(t, attrs, depth) && !t.Literal?
    case Split(op, v, t) =>
      && Reassociable(op) && !v.AdValue? && (IsConnective(op) ==> v != Bool(op.Or?))
      && Residual(t, attrs, depth) && !t.Literal?
  }

  lemma FinishedTree(f: Flat, attrs: seq<Attr>, depth: nat)
    requires SimpleAd(attrs) && Finished(f, attrs, depth)
    ensures Residual(ToExpr(f), attrs, depth) && (ToExpr(f).Literal? <==> f.Folded?)
  {
  }

  /** What flattening leaves as a tree has nothing left in it to compute, and where a constant is split off,
      the rest has not either. */
  lemma {:induction false} NothingLeft(e: Expr, attrs: seq<Attr>, depth: nat)
    requires Simple(e) && SimpleAd(attrs) && Flatten(e, attrs, depth).Some?
    ensures Finished(Flatten(e, attrs, depth).value, attrs, depth)
    ensures Residual(ToExpr(Flatten(e, attrs, depth).value), attrs, depth)
    decreases depth, e
  {
    hide Residual;
    FoldsExactly(e, attrs, depth);
    match e {
      case Literal(_) =>
      case Ref(name, _) =>
        LookupIsSimple(attrs, name);
        RefLeft(e, attrs, depth);
        if Lookup(attrs, name).Some? {
          NothingLeft(Lookup(attrs, name).value, attrs, depth - 1);
        }
      case Unary(op, arg) =>
        NothingLeft(arg, attrs, depth);
        UnaryLeft(op, Flatten(arg, attrs, depth).value, attrs, depth);
      case Binary(op, l, r) =>
        NothingLeft(l, attrs, depth);
        NothingLeft(r, attrs, depth);
        BinaryLeft(op, Flatten(l, attrs, depth).value, Flatten(r, attrs, depth).value, attrs, depth);
      case Ternary(c, t, f) => TernaryLeft(c, t, f, attrs, depth);
    }
    FinishedTree(Flatten(e, attrs, depth).value, attrs, depth);
  }

  lemma RefLeft(e: Expr, attrs: seq<Attr>, depth: nat)
    requires e.Ref? && Simple(e) && SimpleAd(attrs)
    ensures Known(e, attrs, depth).None? ==> Residual(e, attrs, depth)
  {
  }

  lemma UnaryLeft(op: UnaryOp, f: Flat, attrs: seq<Attr>, depth: nat)
    requires SimpleAd(attrs) && Finished(f, attrs, depth)
    ensures if f.Folded? then !OperateUnary(op, f.v).AdValue? else Residual(Unary(op, ToExpr(f)), attrs, depth)
  {
    FinishedTree(f, attrs, depth);
  }

  lemma ValueIsSimple(op: BinaryOp, v1: Value, v2: Value)
    requires !v1.AdValue? && !v2.AdValue?
    ensures !Operate(op, v1, v2).AdValue?
  {
  }

  /** Connectives never come to the deciding value from two that do not decide. */
  lemma StaysUndecided(op: BinaryOp, v1: Value, v2: Value)
    requires IsConnective(op) && v1 != Bool(op.Or?) && v2 != Bool(op.Or?)
    ensures Operate(op, v1, v2) != Bool(op.Or?)
  {
  }

  lemma PairLeft(op: BinaryOp, l: Expr, r: Expr, attrs: seq<Attr>, depth: nat)
    requires SimpleAd(attrs) && Residual(l, attrs, depth) && Residual(r, attrs, depth)
    requires !op.Subscript? && !(l.Literal? && r.Literal?)
    requires IsConnective(op) ==> l != Literal(Bool(op.Or?)) && r != Literal(Bool(op.Or?))
    ensures Residual(Binary(op, l, r), attrs, depth)
  {
  }

  lemma BinaryLeft(op: BinaryOp, f1: Flat, f2: Flat, attrs: seq<Attr>, depth: nat)
    requires SimpleAd(attrs) && Finished(f1, attrs, depth) && Finished(f2, attrs, depth) && !op.Subscript?
    ensures Reassociable(op) ==> Finished(Combine(op, f1, f2), attrs, depth)
    ensures !Reassociable(op) ==>
      if f1.Folded? && f2.Folded? then !Operate(op, f1.v, f2.v).AdValue?
      else Residual(Binary(op, ToExpr(f1), ToExpr(f2)), attrs, depth)
  {
    hide Operate;
    hide Residual;
    FinishedTree(f1, attrs, depth);
    FinishedTree(f2, attrs, depth);
    CombineFolds(op, f1, f2);
    if !f1.Tree? && !f2.Tree? {
      ValueIsSimple(op, f1.v, f2.v);
      if IsConnective(op) && f1.v != Bool(op.Or?) && f2.v != Bool(op.Or?) {
        StaysUndecided(op, f1.v, f2.v);
      }
    }
    if !(f1.Folded? && f2.Folded?)
       && (IsConnective(op) ==> f1 != Folded(Bool(op.Or?)) && f2 != Folded(Bool(op.Or?))) {
      PairLeft(op, ToExpr(f1), ToExpr(f2), attrs, depth);
    }
    if !f1.Folded? && !f2.Folded? {
      PairLeft(op, f1.t, f2.t, attrs, depth);
    }
  }

  lemma {:induction false} TernaryLeft(c: Expr, t: Expr, f: Expr, attrs: seq<Attr>, depth: nat)
    requires Simple(Ternary(c, t, f)) && SimpleAd(attrs) && Flatten(Ternary(c, t, f), attrs, depth).Some?
    ensures Finished(Flatten(Ternary(c, t, f), attrs, depth).value, attrs, depth)
    decreases depth, Ternary(c, t, f), 0
  {
    NothingLeft(c, attrs, depth);
    FoldsExactly(c, attrs, depth);
    var f1 := Flatten(c, attrs, depth).value;
    if f1.Folded? && f1.v.Bool? {
      NothingLeft(if f1.v.b then t else f, attrs, depth);
    } else if !f1.Folded? || f1.v.Undefined? {
      NothingLeft(t, attrs, depth);
      NothingLeft(f, attrs, depth);
    }
  }

  // ------------------------------------------------ constants are gathered

  /** The operands of a nest of one operator, in order. */
  function Operands(op: BinaryOp, e: Expr): (r: seq<Expr>)
    ensures r != []
  {
    if e.Binary? && e.op == op then Operands(op, e.left) + Operands(op, e.right) else [e]
  }

  /** A constant on which the operator is well behaved, and that does not decide a connective. */
  predicate Combinable(op: BinaryOp, c: Value) {
    Nice(op, c) && (IsConnective(op) ==> c != Bool(op.Or?))
  }

  /** What an operand flattens to. */
  function FlatOf(e: Expr, attrs: seq<Attr>, depth: nat): (r: Option<Flat>)
    requires SimpleAd(attrs)
  {
    if Simple(e) then Flatten(e, attrs, depth) else None
  }

  /** The operand flattens to a combinable constant or to a tree. */
  predicate Plain(op: BinaryOp, f: Option<Flat>) {
    f.Some? && !f.value.Split? && (f.value.Folded? ==> Combinable(op, f.value.v))
  }

  predicate AllPlain(op: BinaryOp, es: seq<Expr>, attrs: seq<Attr>, depth: nat)
    requires SimpleAd(attrs)
  {
    forall i :: 0 <= i < |es| ==> Plain(op, FlatOf(es[i], attrs, depth))
  }

  /** The constants among these operands, in order. */
  function Constants(es: seq<Expr>, attrs: seq<Attr>, depth: nat): (r: seq<Value>)
    requires SimpleAd(attrs)
  {
    if es == [] then []
    else
      var f := FlatOf(es[0], attrs, depth);
      (if f.Some? && f.value.Folded? then [f.value.v] else []) + Constants(es[1..], attrs, depth)
  }

  /** The operands of the trees that the other ones flatten to, in order. */
  function Others(op: BinaryOp, es: seq<Expr>, attrs: seq<Attr>, depth: nat): (r: seq<Expr>)
    requires SimpleAd(attrs)
  {
    if es == [] then []
    else
      var f := FlatOf(es[0], attrs, depth);
      (if f.Some? && f.value.Tree? then Operands(op, f.value.t) else []) + Others(op, es[1..], attrs, depth)
  }

  lemma {:induction false} ConstantsCombinable(op: BinaryOp, es: seq<Expr>, attrs: seq<Attr>, depth: nat)
    requires SimpleAd(attrs) && AllPlain(op, es, attrs, depth)
    ensures forall i :: 0 <= i < |Constants(es, attrs, depth)| ==> Combinable(op, Constants(es, attrs, depth)[i])
  {
    hide Combinable;
    hide FlatOf;
    if es != [] {
      assert Plain(op, FlatOf(es[0], attrs, depth));
      ConstantsCombinable(op, es[1..], attrs, depth);
    }
  }

  /** Values combined from left to right. */
  function Total(op: BinaryOp, vs: seq<Value>): (r: Value)
    requires vs != []
    decreases |vs|
  {
    var n := |vs| - 1;
    if n == 0 then vs[0] else Operate(op, Total(op, vs[..n]), vs[n])
  }

  lemma {:induction false} TotalCombinable(op: BinaryOp, vs: seq<Value>)
    requires Reassociable(op) && vs != [] && forall i :: 0 <= i < |vs| ==> Combinable(op, vs[i])
    ensures Combinable(op, Total(op, vs))
    decreases |vs|
  {
    hide Operate;
    hide Nice;
    var n := |vs| - 1;
    if n > 0 {
      TotalCombinable(op, vs[..n]);
      NiceClosed(op, Total(op, vs[..n]), vs[n]);
      if IsConnective(op) {
        StaysUndecided(op, Total(op, vs[..n]), vs[n]);
      }
    }
  }

  lemma {:induction false} TotalOfBoth(op: BinaryOp, a: seq<Value>, b: seq<Value>)
    requires Reassociable(op) && a != [] && b != []
    requires (forall i :: 0 <= i < |a| ==> Combinable(op, a[i])) && forall i :: 0 <= i < |b| ==> Combinable(op, b[i])
    ensures Total(op, a + b) == Operate(op, Total(op, a), Total(op, b))
    decreases |b|
  {
    hide Operate;
    hide Nice;
    var n := |b| - 1;
    assert (a + b)[..|a| + n] == a + b[..n];
    if n > 0 {
      TotalOfBoth(op, a, b[..n]);
      TotalCombinable(op, a);
      TotalCombinable(op, b[..n]);
      OperateAssociates(op, Total(op, a), Total(op, b[..n]), b[n]);
    } else {
      assert a + b[..n] == a;
    }
  }

  lemma {:induction false} OfBoth(op: BinaryOp, a: seq<Expr>, b: seq<Expr>, attrs: seq<Attr>, depth: nat)
    requires SimpleAd(attrs)
    ensures Constants(a + b, attrs, depth) == Constants(a, attrs, depth) + Constants(b, attrs, depth)
    ensures Others(op, a + b, attrs, depth) == Others(op, a, attrs, depth) + Others(op, b, attrs, depth)
  {
    hide FlatOf;
    if a == [] {
      assert a + b == b;
    } else {
      assert (a + b)[1..] == a[1..] + b;
      OfBoth(op, a[1..], b, attrs, depth);
    }
  }

  lemma PlainParts(op: BinaryOp, a: seq<Expr>, b: seq<Expr>, attrs: seq<Attr>, depth: nat)
    requires SimpleAd(attrs) && AllPlain(op, a + b, attrs, depth)
    ensures AllPlain(op, a, attrs, depth) && AllPlain(op, b, attrs, depth)
  {
    hide FlatOf;
    hide Plain;
    assert forall i :: 0 <= i < |a| ==> (a + b)[i] == a[i];
    assert forall i :: 0 <= i < |b| ==> (a + b)[|a| + i] == b[i];
  }

  /** The flattened form has one constant for all the constants, and the other operands in order. */
  predicate Gathered(op: BinaryOp, f: Flat, constants: seq<Value>, others: seq<Expr>)
  {
    match f
    case Folded(c) => constants != [] && others == [] && c == Total(op, constants)
    case Tree(t) => constants == [] && others == Operands(op, t)
    case Split(op', c, t) => op' == op && constants != [] && c == Total(op, constants) && others == Operands(op, t)
  }

  lemma GathersBoth(op: BinaryOp, f1: Flat, f2: Flat,
      cs1: seq<Value>, es1: seq<Expr>, cs2: seq<Value>, es2: seq<Expr>)
    requires Reassociable(op) && Gathered(op, f1, cs1, es1) && Gathered(op, f2, cs2, es2)
    requires forall i :: 0 <= i < |cs1| ==> Combinable(op, cs1[i])
    requires forall i :: 0 <= i < |cs2| ==> Combinable(op, cs2[i])
    ensures Gathered(op, Combine(op, f1, f2), cs1 + cs2, es1 + es2)
  {
    hide Operate;
    hide Nice;
    hide Total;
    CombineFolds(op, f1, f2);
    if cs1 != [] {
      TotalCombinable(op, cs1);
    }
    if cs2 != [] {
      TotalCombinable(op, cs2);
    }
    if cs1 != [] && cs2 != [] {
      TotalOfBoth(op, cs1, cs2);
    } else {
      assert cs1 + [] == cs1 && [] + cs2 == cs2;
    }
    assert es1 + [] == es1 && [] + es2 == es2;
    if !f1.Folded? && !f2.Folded? {
      assert Operands(op, Binary(op, f1.t, f2.t)) == Operands(op, f1.t) + Operands(op, f2.t);
    }
  }

  /** A nest of a reassociable operator is flattened to a single constant and the operands that are not
      constants, however the constants were spread over it. */
  lemma {:induction false} Gathers(op: BinaryOp, e: Expr, attrs: seq<Attr>, depth: nat)
    requires Reassociable(op) && Simple(e) && SimpleAd(attrs) && AllPlain(op, Operands(op, e), attrs, depth)
    ensures var es := Operands(op, e);
            var f := Flatten(e, attrs, depth);
            f.Some? && Gathered(op, f.value, Constants(es, attrs, depth), Others(op, es, attrs, depth))
    decreases e
  {
    var es := Operands(op, e);
    if e.Binary? && e.op == op {
      GathersNest(op, e, attrs, depth);
    } else {
      assert Plain(op, FlatOf(es[0], attrs, depth));
      assert es[1..] == [];
      assert Constants(es[1..], attrs, depth) == [] && Others(op, es[1..], attrs, depth) == [];
    }
  }

  lemma {:induction false} GathersNest(op: BinaryOp, e: Expr, attrs: seq<Attr>, depth: nat)
    requires Reassociable(op) && Simple(e) && SimpleAd(attrs) && AllPlain(op, Operands(op, e), attrs, depth)
    requires e.Binary? && e.op == op
    ensures var es := Operands(op, e);
            var f := Flatten(e, attrs, depth);
            f.Some? && Gathered(op, f.value, Constants(es, attrs, depth), Others(op, es, attrs, depth))
    decreases e, 0
  {
    hide AllPlain;
    hide Constants;
    hide Others;
    hide Gathered;
    hide Combine;
    hide Combinable;
    var es1, es2 := Operands(op, e.left), Operands(op, e.right);
    PlainParts(op, es1, es2, attrs, depth);
    OfBoth(op, es1, es2, attrs, depth);
    Gathers(op, e.left, attrs, depth);
    Gathers(op, e.right, attrs, depth);
    ConstantsCombinable(op, es1, attrs, depth);
    ConstantsCombinable(op, es2, attrs, depth);
    GathersBoth(op, Flatten(e.left, attrs, depth).value, Flatten(e.right, attrs, depth).value,
                Constants(es1, attrs, depth), Others(op, es1, attrs, depth),
                Constants(es2, attrs, depth), Others(op, es2, attrs, depth));
  }
}
