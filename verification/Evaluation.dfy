/** Evaluation of expressions under nested scopes and a recursion limit. */
module Evaluation {
  import opened Text
  import opened Expressions
  import opened Operators

  /** How many attribute references may be open at once. */
  const MAX_RECURSION: nat := 1000

  /** What a reference denotes: an expression to be evaluated in the ad that binds it, or one of
      the ads that the reserved names stand for. A scope lists an ad and the ads enclosing it. */
  datatype Target =
    | Unbound
    | NoRoot
    | Bound(expr: Expr, scope: seq<Expr>)
    | TheAd(scope: seq<Expr>)

  function Attributes(ad: Expr): (r: seq<Attr>) {
    if ad.Ad? then ad.attrs else []
  }

  /** The search for an attribute from the innermost ad outwards. A reserved name stops the search
      at the first ad that does not bind it. */
  function LookupInScope(name: string, scope: seq<Expr>, root: seq<Expr>): (r: Target)
    ensures r.Bound? ==> r.scope != []
    ensures r.NoRoot? ==> root == []
  {
    if scope == [] then Unbound
    else
      match Lookup(Attributes(scope[0]), name)
      case Some(e) => Bound(e, scope)
      case None =>
        if Fold(name) == "toplevel" || Fold(name) == "root" then
          (if root == [] then NoRoot else TheAd(root))
        else if Fold(name) == "self" then TheAd(scope)
        else if Fold(name) == "parent" then
          (if scope[1..] == [] then Unbound else TheAd(scope[1..]))
        else LookupInScope(name, scope[1..], root)
  }

  /** What a reference denotes. An absolute one needs a root ad to start from. */
  function Resolve(name: string, absolute: bool, scope: seq<Expr>, root: seq<Expr>): (r: Target)
    ensures r.Bound? ==> r.scope != []
    ensures r.NoRoot? ==> root == []
  {
    if !absolute then LookupInScope(name, scope, root)
    else if root == [] then NoRoot
    else LookupInScope(name, root, root)
  }

  /** The outcome of evaluating `e` with `depth` references still allowed: a value, or None when
      the recursion limit (or a missing root ad) makes the evaluation itself fail. Calls, lists
      and subscripts are outside the fragment and count as failures. */
  function Eval(e: Expr, scope: seq<Expr>, root: seq<Expr>, depth: nat): (r: Option<Value>)
    decreases depth, e, 1
  {
    match e
    case Literal(v) => Some(v)
    case Ref(name, absolute) => Follow(Resolve(name, absolute, scope, root), root, depth, e)
    case Select(base, attr) =>
      (match Eval(base, scope, root, depth)
       case None => None
       case Some(Undefined) => Some(Undefined)
       case Some(AdValue(inner)) => Follow(LookupInScope(attr, inner, root), root, depth, e)
       case Some(_) => Some(Error))
    case Unary(op, arg) =>
      (match Eval(arg, scope, root, depth)
       case None => None
       case Some(v) => Some(OperateUnary(op, v)))
    case Binary(op, left, right) =>
      if op.Subscript? then None
      else
        (match Eval(left, scope, root, depth)
         case None => None
         case Some(v1) =>
           if ShortCircuits(op, v1) then Some(v1)
           else
             match Eval(right, scope, root, depth)
             case None => None
             case Some(v2) => Some(Operate(op, v1, v2)))
    case Ternary(cond, onTrue, onFalse) =>
      (match Eval(cond, scope, root, depth)
       case None => None
       case Some(Bool(b)) => if b then Eval(onTrue, scope, root, depth) else Eval(onFalse, scope, root, depth)
       case Some(v) =>
         if Eval(onTrue, scope, root, depth).None? || Eval(onFalse, scope, root, depth).None? then None
         else Some(if v.Undefined? then Undefined else Error))
    case Ad(_) => Some(AdValue([e] + scope))
    case Call(_, _) => None
    case ExprList(_) => None
  }

  function Follow(t: Target, root: seq<Expr>, depth: nat, ghost e: Expr): (r: Option<Value>)
    decreases depth, e, 0
  {
    match t
    case Unbound => Some(Undefined)
    case NoRoot => None
    case Bound(target, inner) => if depth == 0 then None else Eval(target, inner, root, depth - 1)
    case TheAd(inner) => if depth == 0 then None else Some(AdValue(inner))
  }

  /** `false && x` and `true || x` do not look at `x`. */
  predicate ShortCircuits(op: BinaryOp, v1: Value) {
    (op.Or? && v1 == Bool(true)) || (op.And? && v1 == Bool(false))
  }

  // ------------------------------------------------- the recursion limit

  /** The recursion limit never changes an answer: a value found with some depth is found with
      every greater depth. */
  lemma {:induction false} DeeperKeepsValue(e: Expr, scope: seq<Expr>, root: seq<Expr>, d: nat, d': nat)
    requires d <= d' && Eval(e, scope, root, d).Some?
    ensures Eval(e, scope, root, d') == Eval(e, scope, root, d)
    decreases d, e, 1
  {
    match e
    case Literal(_) =>
    case Ref(name, absolute) => DeeperKeepsTarget(Resolve(name, absolute, scope, root), root, d, d', e);
    case Select(base, attr) =>
      DeeperKeepsValue(base, scope, root, d, d');
      var v := Eval(base, scope, root, d).value;
      if v.AdValue? {
        DeeperKeepsTarget(LookupInScope(attr, v.scope, root), root, d, d', e);
      }
    case Unary(_, arg) =>
      DeeperKeepsValue(arg, scope, root, d, d');
    case Binary(op, left, right) =>
      DeeperKeepsValue(left, scope, root, d, d');
      if !ShortCircuits(op, Eval(left, scope, root, d).value) {
        DeeperKeepsValue(right, scope, root, d, d');
      }
    case Ternary(cond, onTrue, onFalse) =>
      DeeperKeepsValue(cond, scope, root, d, d');
      var v := Eval(cond, scope, root, d).value;
      if v != Bool(false) {
        DeeperKeepsValue(onTrue, scope, root, d, d');
      }
      if v != Bool(true) {
        DeeperKeepsValue(onFalse, scope, root, d, d');
      }
    case Ad(_) =>
  }

  lemma {:induction false} DeeperKeepsTarget(t: Target, root: seq<Expr>, d: nat, d': nat, e: Expr)
    requires d <= d' && Follow(t, root, d, e).Some?
    ensures Follow(t, root, d', e) == Follow(t, root, d, e)
    decreases d, e, 0
  {
    if t.Bound? {
      DeeperKeepsValue(t.expr, t.scope, root, d - 1, d' - 1);
    }
  }
}
