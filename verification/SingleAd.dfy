/** Expressions over the attributes of one ad: the fragment that partial evaluation works on. */
module SingleAd {
  import opened Text
  import opened Expressions
  import opened Operators
  import opened Evaluation

  predicate Reserved(name: string) {
    Fold(name) == "toplevel" || Fold(name) == "root" || Fold(name) == "self" || Fold(name) == "parent"
  }

  /** The fragment: literals, references to attributes of the one ad, and operators. */
  predicate Simple(e: Expr) {
    match e
    case Literal(v) => !v.AdValue?
    case Ref(name, _) => !Reserved(name)
    case Unary(_, arg) => Simple(arg)
    case Binary(op, l, r) => !op.Subscript? && Simple(l) && Simple(r)
    case Ternary(c, t, f) => Simple(c) && Simple(t) && Simple(f)
    case _ => false
  }

  predicate SimpleAd(attrs: seq<Attr>) {
    forall i :: 0 <= i < |attrs| ==> Simple(attrs[i].expr)
  }

  lemma LookupIsSimple(attrs: seq<Attr>, name: string)
    requires SimpleAd(attrs)
    ensures Lookup(attrs, name).Some? ==> Simple(Lookup(attrs, name).value)
  {
    if attrs != [] && !SameName(attrs[0].name, name) {
      LookupIsSimple(attrs[1..], name);
    }
  }

  /** Evaluation inside a single ad, which is then also the root. */
  function Run(e: Expr, attrs: seq<Attr>, depth: nat): (r: Option<Value>) {
    Eval(e, [Ad(attrs)], [Ad(attrs)], depth)
  }

  /** A simple reference in a single ad: undefined if unbound, else the value of what it names. */
  lemma RefRuns(name: string, absolute: bool, attrs: seq<Attr>, depth: nat)
    requires !Reserved(name)
    ensures Run(Ref(name, absolute), attrs, depth) ==
            match Lookup(attrs, name)
            case None => Some(Undefined)
            case Some(t) => if depth == 0 then None else Run(t, attrs, depth - 1)
  {
    var scope := [Ad(attrs)];
    assert LookupInScope(name, scope[1..], scope) == Unbound;
    assert scope[0] == Ad(attrs);
    var t := LookupInScope(name, scope, scope);
    assert t == match Lookup(attrs, name) case Some(e) => Bound(e, scope) case None => Unbound;
    assert Run(Ref(name, absolute), attrs, depth) == Follow(t, scope, depth, Ref(name, absolute));
  }

  lemma RunLiteral(v: Value, attrs: seq<Attr>, depth: nat)
    ensures Run(Literal(v), attrs, depth) == Some(v)
  {
  }

  lemma RunUnary(op: UnaryOp, arg: Expr, attrs: seq<Attr>, depth: nat)
    ensures Run(Unary(op, arg), attrs, depth) ==
            match Run(arg, attrs, depth) case None => None case Some(v) => Some(OperateUnary(op, v))
  {
  }

  lemma RunBinary(op: BinaryOp, l: Expr, r: Expr, attrs: seq<Attr>, depth: nat)
    requires Run(l, attrs, depth).Some? && Run(r, attrs, depth).Some? && !op.Subscript?
    ensures var v := Run(Binary(op, l, r), attrs, depth);
            v.Some? && (!op.And? && !op.Or? ==>
              v.value == Operate(op, Run(l, attrs, depth).value, Run(r, attrs, depth).value))
  {
  }

  lemma RunTernary(c: Expr, t: Expr, f: Expr, attrs: seq<Attr>, depth: nat)
    requires Run(c, attrs, depth).Some?
    ensures Run(Ternary(c, t, f), attrs, depth) ==
            match Run(c, attrs, depth).value
            case Bool(b) => Run(if b then t else f, attrs, depth)
            case v =>
              if Run(t, attrs, depth).None? || Run(f, attrs, depth).None? then None
              else Some(if v.Undefined? then Undefined else Error)
  {
  }

  // ------------------------------------------------- acyclic ads never fail

  /** Every attribute that `e` mentions and `attrs` binds lies below level `n`. */
  predicate RefsBelow(e: Expr, attrs: seq<Attr>, level: string -> nat, n: nat) {
    match e
    case Ref(name, _) => Lookup(attrs, name).Some? ==> level(Fold(name)) < n
    case Unary(_, arg) => RefsBelow(arg, attrs, level, n)
    case Binary(_, l, r) => RefsBelow(l, attrs, level, n) && RefsBelow(r, attrs, level, n)
    case Ternary(c, t, f) =>
      RefsBelow(c, attrs, level, n) && RefsBelow(t, attrs, level, n) && RefsBelow(f, attrs, level, n)
    case _ => true
  }

  /** The attributes of `binders` mention only attributes of `attrs` on lower levels. */
  predicate Stratified(binders: seq<Attr>, attrs: seq<Attr>, level: string -> nat) {
    forall i :: 0 <= i < |binders| ==>
      RefsBelow(binders[i].expr, attrs, level, level(Fold(binders[i].name)))
  }

  lemma {:induction false} BindingIsLower(binders: seq<Attr>, attrs: seq<Attr>, level: string -> nat, name: string)
    requires Stratified(binders, attrs, level) && Lookup(binders, name).Some?
    ensures RefsBelow(Lookup(binders, name).value, attrs, level, level(Fold(name)))
  {
    if !SameName(binders[0].name, name) {
      BindingIsLower(binders[1..], attrs, level, name);
    }
  }

  /** An ad whose definitions are stratified in `depth` levels evaluates every simple expression:
      the recursion limit is only ever felt by chains of definitions longer than itself, and by
      cycles. */
  lemma {:induction false} AcyclicEvaluates(e: Expr, attrs: seq<Attr>, level: string -> nat, depth: nat)
    requires Simple(e) && SimpleAd(attrs) && Stratified(attrs, attrs, level)
    requires RefsBelow(e, attrs, level, depth)
    ensures Run(e, attrs, depth).Some?
    decreases depth, e
  {
    hide Eval;
    match e
    case Literal(v) => RunLiteral(v, attrs, depth);
    case Ref(name, absolute) =>
      RefRuns(name, absolute, attrs, depth);
      if Lookup(attrs, name).Some? {
        LookupIsSimple(attrs, name);
        BindingIsLower(attrs, attrs, level, name);
        RaiseBound(Lookup(attrs, name).value, attrs, level, level(Fold(name)), depth - 1);
        AcyclicEvaluates(Lookup(attrs, name).value, attrs, level, depth - 1);
      }
    case Unary(op, arg) =>
      AcyclicEvaluates(arg, attrs, level, depth);
      RunUnary(op, arg, attrs, depth);
    case Binary(op, l, r) =>
      AcyclicEvaluates(l, attrs, level, depth);
      AcyclicEvaluates(r, attrs, level, depth);
      RunBinary(op, l, r, attrs, depth);
    case Ternary(c, t, f) =>
      AcyclicEvaluates(c, attrs, level, depth);
      AcyclicEvaluates(t, attrs, level, depth);
      AcyclicEvaluates(f, attrs, level, depth);
      RunTernary(c, t, f, attrs, depth);
  }

  lemma {:induction false} RaiseBound(e: Expr, attrs: seq<Attr>, level: string -> nat, n: nat, m: nat)
    requires RefsBelow(e, attrs, level, n) && n <= m
    ensures RefsBelow(e, attrs, level, m)
  {
    match e
    case Unary(_, arg) => RaiseBound(arg, attrs, level, n, m);
    case Binary(_, l, r) =>
      RaiseBound(l, attrs, level, n, m);
      RaiseBound(r, attrs, level, n, m);
    case Ternary(c, t, f) =>
      RaiseBound(c, attrs, level, n, m);
      RaiseBound(t, attrs, level, n, m);
      RaiseBound(f, attrs, level, n, m);
    case _ =>
  }

  /** A definition that is its own reference has no value at any depth. */
  lemma {:induction false} SelfReferenceFails(attrs: seq<Attr>, name: string, absolute: bool, depth: nat)
    requires !Reserved(name) && Lookup(attrs, name) == Some(Ref(name, absolute))
    ensures Run(Ref(name, absolute), attrs, depth).None?
  {
    RefRuns(name, absolute, attrs, depth);
    if depth > 0 {
      SelfReferenceFails(attrs, name, absolute, depth - 1);
    }
  }
}
