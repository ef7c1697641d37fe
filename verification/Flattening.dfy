/** Partial evaluation: `Flatten` folds what an ad already determines, and moves constants to the
    front of operators it takes to be associative and commutative. */
module Flattening {
  import opened Text
  import opened Expressions
  import opened Operators
  import opened Evaluation
  import opened SingleAd

  /** What flattening a subexpression gives back: a value, a tree, or both, where `Split(op, v, t)`
      stands for the application of `op` to `v` and `t`. */
  datatype Flat =
    | Folded(v: Value)
    | Tree(t: Expr)
    | Split(op: BinaryOp, v: Value, t: Expr)

  function ToExpr(f: Flat): (e: Expr) {
    match f
    case Folded(v) => Literal(v)
    case Tree(t) => t
    case Split(op, v, t) => Binary(op, Literal(v), t)
  }

  /** A caller that does not accept a split gets it as a tree. */
  function Joined(f: Flat): (r: Flat)
    ensures !r.Split? && ToExpr(r) == ToExpr(f)
  {
    if f.Split? then Tree(ToExpr(f)) else f
  }

  /** Merges the flattened operands of a reassociable operator. */
  function Combine(op: BinaryOp, f1: Flat, f2: Flat): (r: Flat) {
    var known1 := if f1.Folded? then f1.v else Undefined;
    var known2 := if f2.Folded? then f2.v else Undefined;
    if (op.Or? || op.And?) && f1.Folded? != f2.Folded? && Operate(op, known1, known2).Bool? then
      Folded(Operate(op, known1, known2))
    else if f1.Folded? && f2.Folded? then Folded(Operate(op, f1.v, f2.v))
    else if f1.Folded? && f2.Tree? then Split(op, f1.v, f2.t)
    else if f2.Folded? && f1.Tree? then Split(op, f2.v, f1.t)
    else if f1.Tree? && f2.Tree? then Tree(Binary(op, f1.t, f2.t))
    else
      var same1, same2 := f1.Split? && f1.op == op, f2.Split? && f2.op == op;
      if !same1 && !same2 then Tree(Binary(op, ToExpr(f1), ToExpr(f2)))
      else if same1 && same2 then Split(op, Operate(op, f1.v, f2.v), Binary(op, f1.t, f2.t))
      else if same1 then
        if f2.Folded? then Split(op, Operate(op, f1.v, f2.v), f1.t)
        else Split(op, f1.v, Binary(op, f1.t, f2.t))
      else
        if f1.Folded? then Split(op, Operate(op, f1.v, f2.v), f2.t)
        else Split(op, f2.v, Binary(op, f1.t, f2.t))
  }

  /** One operand split on the node's own operator while the other split on a different one: the
      value of the latter is then lost. */
  predicate Mixed(op: BinaryOp, f1: Flat, f2: Flat) {
    f1.Split? && f2.Split? && f1.op != f2.op && (f1.op == op || f2.op == op)
  }

  function Flatten(e: Expr, attrs: seq<Attr>, depth: nat): (r: Option<Flat>)
    requires Simple(e) && SimpleAd(attrs)
    ensures r.Some? && r.value.Split? ==> e.Binary? && Reassociable(r.value.op)
    decreases depth, e
  {
    match e
    case Literal(v) => Some(Folded(v))
    case Ref(name, _) =>
      (match Lookup(attrs, name)
       case None => Some(Tree(e))
       case Some(target) =>
         LookupIsSimple(attrs, name);
         if depth == 0 then None
         else
           match Flatten(target, attrs, depth - 1)
           case None => None
           case Some(Folded(v)) => Some(Folded(v))
           case Some(_) => Some(Tree(e)))
    case Unary(op, arg) =>
      (match Flatten(arg, attrs, depth)
       case None => None
       case Some(f) =>
         if f.Folded? then Some(Folded(OperateUnary(op, f.v)))
         else Some(Tree(Unary(op, ToExpr(f)))))
    case Binary(op, l, r) =>
      (match Flatten(l, attrs, depth)
       case None => None
       case Some(f1) =>
         match Flatten(r, attrs, depth)
         case None => None
         case Some(f2) =>
           if Reassociable(op) then Some(Combine(op, f1, f2))
           else if f1.Folded? && f2.Folded? then Some(Folded(Operate(op, f1.v, f2.v)))
           else Some(Tree(Binary(op, ToExpr(f1), ToExpr(f2)))))
    case Ternary(c, t, f) =>
      (match Flatten(c, attrs, depth)
       case None => None
       case Some(f1) =>
         if f1.Folded? && !f1.v.Undefined? then
           if !f1.v.Bool? then Some(Folded(Error))
           else
             match Flatten(if f1.v.b then t else f, attrs, depth)
             case None => None
             case Some(arm) => Some(Joined(arm))
         else
           match Flatten(t, attrs, depth)
           case None => None
           case Some(f2) =>
             match Flatten(f, attrs, depth)
             case None => None
             case Some(f3) =>
               Some(Tree(Ternary(if f1.Folded? then c else ToExpr(f1), ToExpr(f2), ToExpr(f3)))))
  }

  // -------------------------------------------------------- meaning is kept

  /** `b` binds everything `a` binds, in the same way, and possibly more names. */
  ghost predicate Extends(b: seq<Attr>, a: seq<Attr>) {
    forall name :: Lookup(a, name).Some? ==> Lookup(b, name) == Lookup(a, name)
  }

  /** `e` evaluates in `b`, and every reassociable operator that flattening in `a` may touch on the way
      finds operands on which it is associative and commutative. */
  predicate Guarded(e: Expr, a: seq<Attr>, b: seq<Attr>, depth: nat)
    requires Simple(e) && SimpleAd(a) && SimpleAd(b)
    decreases depth, e
  {
    match e
    case Literal(_) => true
    case Ref(name, _) =>
      LookupIsSimple(a, name);
      var t := Lookup(a, name);
      if t.Some? then depth > 0 && Guarded(t.value, a, b, depth - 1) else Run(e, b, depth).Some?
    case Unary(_, arg) => Guarded(arg, a, b, depth)
    case Binary(op, l, r) =>
      && Guarded(l, a, b, depth) && Guarded(r, a, b, depth)
      && (Reassociable(op) ==> Holds(l, b, depth, op) && Holds(r, b, depth, op))
    case Ternary(c, t, f) =>
      && Guarded(c, a, b, depth)
      && (Run(c, b, depth) != Some(Bool(false)) ==> Guarded(t, a, b, depth))
      && (Run(c, b, depth) != Some(Bool(true)) ==> Guarded(f, a, b, depth))
  }

  predicate Holds(e: Expr, attrs: seq<Attr>, depth: nat, op: BinaryOp) {
    var r := Run(e, attrs, depth);
    r.Some? && Nice(op, r.value)
  }

  /** The operator and the constant that a mixed node loses. */
  function Lost(op: BinaryOp, f1: Flat, f2: Flat): (r: Flat)
    requires Mixed(op, f1, f2)
    ensures r.Split? && r.op != op
  {
    if f1.op == op then f2 else f1
  }

  /** No node of `e`, nor of an attribute it refers to, loses a constant that matters. */
  predicate NeverLoses(e: Expr, attrs: seq<Attr>, depth: nat)
    requires Simple(e) && SimpleAd(attrs)
    decreases depth, e
  {
    match e
    case Literal(_) => true
    case Ref(name, _) =>
      LookupIsSimple(attrs, name);
      var t := Lookup(attrs, name);
      t.Some? && depth > 0 ==> NeverLoses(t.value, attrs, depth - 1)
    case Unary(_, arg) => NeverLoses(arg, attrs, depth)
    case Binary(op, l, r) =>
      && NeverLoses(l, attrs, depth) && NeverLoses(r, attrs, depth)
      && var f1, f2 := Flatten(l, attrs, depth), Flatten(r, attrs, depth);
         f1.Some? && f2.Some? ==> LosesNothing(op, f1.value, f2.value)
    case Ternary(c, t, f) =>
      NeverLoses(c, attrs, depth) && NeverLoses(t, attrs, depth) && NeverLoses(f, attrs, depth)
  }

  predicate LosesNothing(op: BinaryOp, f1: Flat, f2: Flat) {
    Mixed(op, f1, f2) ==> var lost := Lost(op, f1, f2); Droppable(op, lost.op, lost.v)
  }

  /** The flattened form `f` means the value `v`. */
  predicate Means(f: Flat, attrs: seq<Attr>, depth: nat, v: Value) {
    match f
    case Folded(w) => w == v
    case Tree(t) => Run(t, attrs, depth) == Some(v)
    case Split(op, c, t) =>
      && Reassociable(op) && Nice(op, c)
      && Holds(t, attrs, depth, op)
      && v == Operate(op, c, Run(t, attrs, depth).value)
  }

  /** On nice operands, short-circuiting never shows. */
  lemma RunNice(op: BinaryOp, l: Expr, r: Expr, attrs: seq<Attr>, depth: nat)
    requires Reassociable(op) && Holds(l, attrs, depth, op) && Holds(r, attrs, depth, op)
    ensures Run(Binary(op, l, r), attrs, depth)
         == Some(Operate(op, Run(l, attrs, depth).value, Run(r, attrs, depth).value))
  {
  }

  lemma MeaningOfExpr(f: Flat, attrs: seq<Attr>, depth: nat, v: Value)
    requires Means(f, attrs, depth, v)
    ensures Run(ToExpr(f), attrs, depth) == Some(v)
  {
    if f.Split? {
      RunNice(f.op, Literal(f.v), f.t, attrs, depth);
    }
  }

  /** Evaluating a guarded expression succeeds. */
  lemma {:induction false} GuardedRuns(e: Expr, a: seq<Attr>, b: seq<Attr>, depth: nat)
    requires Simple(e) && SimpleAd(a) && SimpleAd(b) && Extends(b, a) && Guarded(e, a, b, depth)
    ensures Run(e, b, depth).Some?
    decreases depth, e
  {
    hide Eval;
    match e
    case Literal(v) => RunLiteral(v, b, depth);
    case Ref(name, absolute) =>
      LookupIsSimple(a, name);
      RefRuns(name, absolute, b, depth);
      if Lookup(a, name).Some? {
        GuardedRuns(Lookup(a, name).value, a, b, depth - 1);
      }
    case Unary(op, arg) =>
      GuardedRuns(arg, a, b, depth);
      RunUnary(op, arg, b, depth);
    case Binary(op, l, r) =>
      GuardedRuns(l, a, b, depth);
      GuardedRuns(r, a, b, depth);
      RunBinary(op, l, r, b, depth);
    case Ternary(c, t, f) =>
      GuardedRuns(c, a, b, depth);
      RunTernary(c, t, f, b, depth);
      if Run(c, b, depth) != Some(Bool(false)) {
        GuardedRuns(t, a, b, depth);
      }
      if Run(c, b, depth) != Some(Bool(true)) {
        GuardedRuns(f, a, b, depth);
      }
  }

  /** Merging keeps the meaning, whatever shapes the operands flattened to. */
  lemma CombineKeepsMeaning(op: BinaryOp, f1: Flat, f2: Flat, attrs: seq<Attr>, depth: nat, v1: Value, v2: Value)
    requires Reassociable(op) && Nice(op, v1) && Nice(op, v2)
    requires Means(f1, attrs, depth, v1) && Means(f2, attrs, depth, v2)
    requires LosesNothing(op, f1, f2)
    ensures Means(Combine(op, f1, f2), attrs, depth, Operate(op, v1, v2))
  {
    MeaningOfExpr(f1, attrs, depth, v1);
    MeaningOfExpr(f2, attrs, depth, v2);
    RunNice(op, ToExpr(f1), ToExpr(f2), attrs, depth);
    if Mixed(op, f1, f2) {
      MixedKeepsMeaning(op, f1, f2, attrs, depth, v1, v2);
    } else if f1.Folded? || f2.Folded? {
      CombineWithConstant(op, f1, f2, attrs, depth, v1, v2);
    } else if f1.Split? && f1.op == op {
      CombineFromLeft(op, f1, f2, attrs, depth, v1, v2);
    } else if f2.Split? && f2.op == op {
      CombineFromRight(op, f1, f2, attrs, depth, v1, v2);
    }
  }

  /** A mixed node keeps the meaning if the constant it loses may be dropped. */
  lemma MixedKeepsMeaning(op: BinaryOp, f1: Flat, f2: Flat, attrs: seq<Attr>, depth: nat, v1: Value, v2: Value)
    requires Reassociable(op) && Nice(op, v1) && Nice(op, v2)
    requires Means(f1, attrs, depth, v1) && Means(f2, attrs, depth, v2)
    requires Mixed(op, f1, f2) && LosesNothing(op, f1, f2)
    ensures Means(Combine(op, f1, f2), attrs, depth, Operate(op, v1, v2))
  {
    hide Operate;
    hide Eval;
    hide Droppable;
    var w1, w2 := Run(f1.t, attrs, depth).value, Run(f2.t, attrs, depth).value;
    var lost := Lost(op, f1, f2);
    DroppableExactly(op, lost.op, lost.v);
    if f1.op == op {
      DroppedIsNice(op, f2.op, f2.v, w2);
      RunNice(op, f1.t, f2.t, attrs, depth);
      NiceClosed(op, w1, w2);
      OperateAssociates(op, f1.v, w1, w2);
    } else {
      DroppedIsNice(op, f1.op, f1.v, w1);
      RunNice(op, f1.t, f2.t, attrs, depth);
      NiceClosed(op, w1, w2);
      OperateCommutes(op, v1, v2);
      OperateAssociates(op, f2.v, w2, w1);
      OperateCommutes(op, w1, w2);
      OperateAssociates(op, f2.v, w1, w2);
      OperateCommutes(op, v2, w1);
    }
  }

  lemma CombineWithConstant(op: BinaryOp, f1: Flat, f2: Flat, attrs: seq<Attr>, depth: nat, v1: Value, v2: Value)
    requires Reassociable(op) && Nice(op, v1) && Nice(op, v2)
    requires Means(f1, attrs, depth, v1) && Means(f2, attrs, depth, v2)
    requires Run(ToExpr(f1), attrs, depth) == Some(v1) && Run(ToExpr(f2), attrs, depth) == Some(v2)
    requires Run(Binary(op, ToExpr(f1), ToExpr(f2)), attrs, depth) == Some(Operate(op, v1, v2))
    requires f1.Folded? || f2.Folded?
    ensures Means(Combine(op, f1, f2), attrs, depth, Operate(op, v1, v2))
  {
    hide Operate;
    hide Eval;
    if op.Or? || op.And? {
      AbsorbingConstant(op, v1, v2);
    }
    OperateCommutes(op, v1, v2);
    if f1.Split? && f1.op == op {
      var w := Run(f1.t, attrs, depth).value;
      NiceClosed(op, f1.v, v2);
      OperateCommutes(op, w, v2);
      OperateAssociates(op, f1.v, w, v2);
      OperateAssociates(op, f1.v, v2, w);
    } else if f2.Split? && f2.op == op {
      var w := Run(f2.t, attrs, depth).value;
      NiceClosed(op, v1, f2.v);
      OperateAssociates(op, v1, f2.v, w);
    }
  }

  /** A logical constant that decides the result does so beside every boolean or undefined value. */
  lemma AbsorbingConstant(op: BinaryOp, v1: Value, v2: Value)
    requires (op.Or? || op.And?) && Nice(op, v1) && Nice(op, v2)
    ensures Operate(op, v1, Undefined).Bool? ==> Operate(op, v1, v2) == Operate(op, v1, Undefined)
    ensures Operate(op, Undefined, v2).Bool? ==> Operate(op, v1, v2) == Operate(op, Undefined, v2)
  {
  }

  lemma CombineFromLeft(op: BinaryOp, f1: Flat, f2: Flat, attrs: seq<Attr>, depth: nat, v1: Value, v2: Value)
    requires Reassociable(op) && Nice(op, v1) && Nice(op, v2)
    requires Means(f1, attrs, depth, v1) && Means(f2, attrs, depth, v2)
    requires f1.Split? && f1.op == op && (f2.Tree? || (f2.Split? && f2.op == op))
    ensures Means(Combine(op, f1, f2), attrs, depth, Operate(op, v1, v2))
  {
    var w1 := Run(f1.t, attrs, depth).value;
    var w2 := Run(f2.t, attrs, depth).value;
    RunNice(op, f1.t, f2.t, attrs, depth);
    NiceClosed(op, w1, w2);
    if f2.Tree? {
      OperateAssociates(op, f1.v, w1, w2);
    } else {
      NiceClosed(op, f1.v, f2.v);
      Interchange(op, f1.v, w1, f2.v, w2);
    }
  }

  lemma CombineFromRight(op: BinaryOp, f1: Flat, f2: Flat, attrs: seq<Attr>, depth: nat, v1: Value, v2: Value)
    requires Reassociable(op) && Nice(op, v1) && Nice(op, v2)
    requires Means(f1, attrs, depth, v1) && Means(f2, attrs, depth, v2)
    requires f1.Tree? && f2.Split? && f2.op == op
    ensures Means(Combine(op, f1, f2), attrs, depth, Operate(op, v1, v2))
  {
    var w2 := Run(f2.t, attrs, depth).value;
    RunNice(op, f1.t, f2.t, attrs, depth);
    NiceClosed(op, v1, w2);
    OperateAssociates(op, v1, f2.v, w2);
    OperateCommutes(op, v1, f2.v);
    OperateAssociates(op, f2.v, v1, w2);
  }

  /** (a op b) op (c op d) is (a op c) op (b op d). */
  lemma Interchange(op: BinaryOp, a: Value, b: Value, c: Value, d: Value)
    requires Reassociable(op) && Nice(op, a) && Nice(op, b) && Nice(op, c) && Nice(op, d)
    ensures Operate(op, Operate(op, a, b), Operate(op, c, d))
         == Operate(op, Operate(op, a, c), Operate(op, b, d))
  {
    hide Operate;
    NiceClosed(op, a, b);
    NiceClosed(op, a, c);
    NiceClosed(op, c, d);
    NiceClosed(op, b, d);
    calc {
      Operate(op, Operate(op, a, b), Operate(op, c, d));
      { OperateAssociates(op, Operate(op, a, b), c, d); }
      Operate(op, Operate(op, Operate(op, a, b), c), d);
      { OperateAssociates(op, a, b, c); OperateCommutes(op, b, c); OperateAssociates(op, a, c, b); }
      Operate(op, Operate(op, Operate(op, a, c), b), d);
      { OperateAssociates(op, Operate(op, a, c), b, d); }
      Operate(op, Operate(op, a, c), Operate(op, b, d));
    }
  }

  /** Flattening in `a` keeps the meaning in every ad that extends `a`. */
  lemma {:induction false} FlattenKeepsMeaning(e: Expr, a: seq<Attr>, b: seq<Attr>, d: nat, k: nat)
    requires Simple(e) && SimpleAd(a) && SimpleAd(b) && Extends(b, a)
    requires Guarded(e, a, b, k) && NeverLoses(e, a, d)
    requires Flatten(e, a, d).Some?
    ensures Run(e, b, k).Some?
    ensures Means(Flatten(e, a, d).value, b, k, Run(e, b, k).value)
    decreases k, e
  {
    hide Eval;
    hide Operate;
    hide OperateUnary;
    hide Combine;
    GuardedRuns(e, a, b, k);
    match e
    case Literal(v) => RunLiteral(v, b, k);
    case Ref(name, absolute) =>
      LookupIsSimple(a, name);
      RefRuns(name, absolute, b, k);
      if Lookup(a, name).Some? {
        FlattenKeepsMeaning(Lookup(a, name).value, a, b, d - 1, k - 1);
      }
    case Unary(op, arg) =>
      FlattenKeepsMeaning(arg, a, b, d, k);
      var f := Flatten(arg, a, d).value;
      var v := Run(arg, b, k).value;
      MeaningOfExpr(f, b, k, v);
      RunUnary(op, arg, b, k);
      RunUnary(op, ToExpr(f), b, k);
    case Binary(op, l, r) =>
      FlattenKeepsMeaning(l, a, b, d, k);
      FlattenKeepsMeaning(r, a, b, d, k);
      FlattenBinaryKeepsMeaning(op, l, r, a, b, d, k);
    case Ternary(c, t, f) =>
      FlattenKeepsMeaning(c, a, b, d, k);
      FlattenTernaryKeepsMeaning(e, a, b, d, k);
  }

  lemma FlattenBinaryKeepsMeaning(op: BinaryOp, l: Expr, r: Expr, a: seq<Attr>, b: seq<Attr>, d: nat, k: nat)
    requires Simple(Binary(op, l, r)) && SimpleAd(a) && SimpleAd(b)
    requires Guarded(Binary(op, l, r), a, b, k) && NeverLoses(Binary(op, l, r), a, d)
    requires Flatten(Binary(op, l, r), a, d).Some?
    requires Run(l, b, k).Some? && Run(r, b, k).Some?
    requires Means(Flatten(l, a, d).value, b, k, Run(l, b, k).value)
    requires Means(Flatten(r, a, d).value, b, k, Run(r, b, k).value)
    ensures Run(Binary(op, l, r), b, k).Some?
    ensures Means(Flatten(Binary(op, l, r), a, d).value, b, k, Run(Binary(op, l, r), b, k).value)
  {
    hide Eval;
    hide Operate;
    hide Combine;
    var f1, f2 := Flatten(l, a, d).value, Flatten(r, a, d).value;
    var v1, v2 := Run(l, b, k).value, Run(r, b, k).value;
    if Reassociable(op) {
      RunNice(op, l, r, b, k);
      CombineKeepsMeaning(op, f1, f2, b, k, v1, v2);
    } else {
      MeaningOfExpr(f1, b, k, v1);
      MeaningOfExpr(f2, b, k, v2);
      RunBinary(op, l, r, b, k);
      RunBinary(op, ToExpr(f1), ToExpr(f2), b, k);
    }
  }

  lemma {:induction false} FlattenTernaryKeepsMeaning(e: Expr, a: seq<Attr>, b: seq<Attr>, d: nat, k: nat)
    requires e.Ternary?
    requires Simple(e) && SimpleAd(a) && SimpleAd(b) && Extends(b, a)
    requires Guarded(e, a, b, k) && NeverLoses(e, a, d)
    requires Flatten(e, a, d).Some?
    requires Run(e, b, k).Some? && Run(e.cond, b, k).Some?
    requires Means(Flatten(e.cond, a, d).value, b, k, Run(e.cond, b, k).value)
    ensures Means(Flatten(e, a, d).value, b, k, Run(e, b, k).value)
    decreases k, e, 0
  {
    var v := Run(e.cond, b, k).value;
    var f1 := Flatten(e.cond, a, d).value;
    MeaningOfExpr(f1, b, k, v);
    if v != Bool(false) && Flatten(e.onTrue, a, d).Some? {
      FlattenKeepsMeaning(e.onTrue, a, b, d, k);
      MeaningOfExpr(Flatten(e.onTrue, a, d).value, b, k, Run(e.onTrue, b, k).value);
    }
    if v != Bool(true) && Flatten(e.onFalse, a, d).Some? {
      FlattenKeepsMeaning(e.onFalse, a, b, d, k);
      MeaningOfExpr(Flatten(e.onFalse, a, d).value, b, k, Run(e.onFalse, b, k).value);
    }
  }

  /** The theorem in the terms of a caller: the flattened expression evaluates as the original
      does, in every extension of the ad. */
  lemma FlattenPreservesEvaluation(e: Expr, a: seq<Attr>, b: seq<Attr>, d: nat, k: nat)
    requires Simple(e) && SimpleAd(a) && SimpleAd(b) && Extends(b, a)
    requires Guarded(e, a, b, k) && NeverLoses(e, a, d)
    requires Flatten(e, a, d).Some?
    ensures Run(e, b, k).Some?
    ensures Run(ToExpr(Flatten(e, a, d).value), b, k) == Run(e, b, k)
  {
    FlattenKeepsMeaning(e, a, b, d, k);
    MeaningOfExpr(Flatten(e, a, d).value, b, k, Run(e, b, k).value);
  }

  // ------------------------------------- when each condition is exactly right

  /** Reassociating a constant `b` with the constant `a` of a split, under a strict operator, is right
      for every operand on which the operator is well behaved exactly if one of the constants is an
      error, or the first is undefined, or both are operands on which it is well behaved. */
  lemma ReassociationExactly(op: BinaryOp, a: Value, b: Value)
    requires Reassociable(op) && IsStrict(op)
    ensures (forall x :: Nice(op, x) ==> Regroups(op, x, a, b))
       <==> a.Error? || b.Error? || a.Undefined? || (Nice(op, a) && Nice(op, b))
  {
    if Nice(op, a) && Nice(op, b) {
      forall x | Nice(op, x) ensures Regroups(op, x, a, b) {
        hide Operate;
        NiceClosed(op, a, b);
        OperateAssociates(op, x, a, b);
        OperateCommutes(op, x, Operate(op, a, b));
      }
    } else if a.Error? || b.Error? || a.Undefined? {
      forall x | Nice(op, x) ensures Regroups(op, x, a, b) {
        ExceptionalRegroups(op, x, a, b);
      }
    } else {
      NotRegrouped(op, a, b);
    }
  }

  predicate Regroups(op: BinaryOp, x: Value, a: Value, b: Value) {
    Operate(op, Operate(op, x, a), b) == Operate(op, Operate(op, a, b), x)
  }

  lemma ExceptionalRegroups(op: BinaryOp, x: Value, a: Value, b: Value)
    requires Reassociable(op) && IsStrict(op) && Nice(op, x) && (a.Error? || b.Error? || a.Undefined?)
    ensures Regroups(op, x, a, b)
  {
  }

  lemma NotRegrouped(op: BinaryOp, a: Value, b: Value)
    requires Reassociable(op) && IsStrict(op)
    requires !a.Error? && !b.Error? && !a.Undefined? && !(Nice(op, a) && Nice(op, b))
    ensures exists x :: Nice(op, x) && !Regroups(op, x, a, b)
  {
    if b.Undefined? {
      assert !Regroups(op, Int(0), a, b);
    } else {
      assert !Regroups(op, Undefined, a, b);
    }
  }

  /** Folding `x && false` to false, or `x || true` to true, is right exactly if x is boolean or
      undefined. */
  lemma AbsorptionExactly(op: BinaryOp, x: Value)
    requires op.Or? || op.And?
    ensures Operate(op, x, Bool(op.Or?)) == Bool(op.Or?) <==> Nice(op, x)
  {
  }

  /** What evaluating a connective makes of the values of its operands. */
  function Connected(op: BinaryOp, a: Value, b: Value): (v: Value) {
    if ShortCircuits(op, a) then a else Operate(op, a, b)
  }

  /** Moving the right operand of a connective to the front, as splitting off a constant does, is right
      exactly if neither operand decides while the other is an error or not a truth value. */
  lemma FrontedExactly(op: BinaryOp, x: Value, c: Value)
    requires op.Or? || op.And?
    ensures Connected(op, c, x) == Connected(op, x, c) <==>
            (x == Bool(op.Or?) ==> Nice(op, c)) && (c == Bool(op.Or?) ==> Nice(op, x))
  {
  }

  /** So a constant may go to the front, whatever the truth value or undefined it meets, exactly if it is a
      truth value or undefined itself. */
  lemma FrontedConstant(op: BinaryOp, c: Value)
    requires op.Or? || op.And?
    ensures (forall x :: Nice(op, x) ==> Connected(op, c, x) == Connected(op, x, c)) <==> Nice(op, c)
  {
    hide Operate;
    forall x | Nice(op, x) ensures Nice(op, c) ==> Connected(op, c, x) == Connected(op, x, c) {
      FrontedExactly(op, x, c);
    }
    FrontedExactly(op, Bool(op.Or?), c);
  }


  /** What a mixed node computes instead: the constant split off the other operand is dropped, so
      the node means `op` applied to the first operand and the other's bare tree. `DroppableExactly` says
      when that is the same for all values of the operands. */
  lemma MixedDropsConstant(op: BinaryOp, f1: Flat, f2: Flat, attrs: seq<Attr>, depth: nat, v1: Value, v2: Value)
    requires Reassociable(op) && Mixed(op, f1, f2)
    requires Means(f1, attrs, depth, v1) && Means(f2, attrs, depth, v2)
    requires Holds(f1.t, attrs, depth, op) && Holds(f2.t, attrs, depth, op)
    ensures var w1, w2 := Run(f1.t, attrs, depth).value, Run(f2.t, attrs, depth).value;
            Run(ToExpr(Combine(op, f1, f2)), attrs, depth)
            == Some(if f1.op == op then Operate(op, v1, w2) else Operate(op, w1, v2))
  {
    hide Eval;
    var w1, w2 := Run(f1.t, attrs, depth).value, Run(f2.t, attrs, depth).value;
    var c := if f1.op == op then f1.v else f2.v;
    RunNice(op, f1.t, f2.t, attrs, depth);
    NiceClosed(op, w1, w2);
    RunLiteral(c, attrs, depth);
    RunNice(op, Literal(c), Binary(op, f1.t, f2.t), attrs, depth);
    if f1.op == op {
      OperateAssociates(op, f1.v, w1, w2);
    } else {
      OperateAssociates(op, f2.v, w1, w2);
      OperateCommutes(op, f2.v, w1);
      OperateAssociates(op, w1, f2.v, w2);
    }
  }

  /** `(x + 1) + (y * 2)` flattens to `1 + (x + y)`: with x = 1 and y = 5 that is 7, not 12. */
  lemma MixedCounterexample(x: string, y: string, depth: nat)
    requires !Reserved(x) && !Reserved(y) && !SameName(x, y) && depth > 0
    ensures var e := Binary(Add, PlusOne(x), TimesTwo(y));
            var b := [Attr(x, Literal(Int(1))), Attr(y, Literal(Int(5)))];
            && Simple(e) && SimpleAd(b)
            && Flatten(e, [], 0) == Some(Split(Add, Int(1), Binary(Add, Ref(x, false), Ref(y, false))))
            && Run(e, b, depth) == Some(Int(12))
            && Run(ToExpr(Flatten(e, [], 0).value), b, depth) == Some(Int(7))
  {
    hide Eval;
    hide Flatten;
    hide Operate;
    var rx, ry, one := Ref(x, false), Ref(y, false), Literal(Int(1));
    var b := [Attr(x, one), Attr(y, Literal(Int(5)))];
    FlattenSplits(Add, x, Int(1));
    FlattenSplits(Mul, y, Int(2));
    FlattenBinary(Add, PlusOne(x), TimesTwo(y), [], 0);
    PairRuns(x, y, depth);
    RunBinary(Add, PlusOne(x), TimesTwo(y), b, depth);
    RunBinary(Add, rx, ry, b, depth);
    RunBinary(Add, one, Binary(Add, rx, ry), b, depth);
    SmallSums();
  }

  function PlusOne(x: string): (e: Expr) {
    Binary(Add, Ref(x, false), Literal(Int(1)))
  }

  function TimesTwo(y: string): (e: Expr) {
    Binary(Mul, Ref(y, false), Literal(Int(2)))
  }

  lemma SmallSums()
    ensures Operate(Add, Int(2), Int(10)) == Int(12) && Operate(Add, Int(1), Int(5)) == Int(6)
    ensures Operate(Add, Int(1), Int(6)) == Int(7)
  {
  }

  lemma PairRuns(x: string, y: string, depth: nat)
    requires !Reserved(x) && !Reserved(y) && !SameName(x, y) && depth > 0
    ensures var b := [Attr(x, Literal(Int(1))), Attr(y, Literal(Int(5)))];
            && Run(Ref(x, false), b, depth) == Some(Int(1)) && Run(Ref(y, false), b, depth) == Some(Int(5))
            && Run(Literal(Int(1)), b, depth) == Some(Int(1))
            && Run(PlusOne(x), b, depth) == Some(Int(2)) && Run(TimesTwo(y), b, depth) == Some(Int(10))
  {
    hide Eval;
    var b := [Attr(x, Literal(Int(1))), Attr(y, Literal(Int(5)))];
    LookupInPair(x, y, Literal(Int(1)), Literal(Int(5)));
    RefRuns(x, false, b, depth);
    RefRuns(y, false, b, depth);
    RunLiteral(Int(1), b, depth - 1);
    RunLiteral(Int(5), b, depth - 1);
    RunLiteral(Int(1), b, depth);
    RunLiteral(Int(2), b, depth);
    RunBinary(Add, Ref(x, false), Literal(Int(1)), b, depth);
    RunBinary(Mul, Ref(y, false), Literal(Int(2)), b, depth);
  }

  lemma LookupInPair(x: string, y: string, ex: Expr, ey: Expr)
    requires !SameName(x, y)
    ensures Lookup([Attr(x, ex), Attr(y, ey)], x) == Some(ex)
    ensures Lookup([Attr(x, ex), Attr(y, ey)], y) == Some(ey)
  {
    assert [Attr(x, ex), Attr(y, ey)][1..] == [Attr(y, ey)];
  }

  lemma FlattenBinary(op: BinaryOp, l: Expr, r: Expr, attrs: seq<Attr>, d: nat)
    requires Simple(Binary(op, l, r)) && SimpleAd(attrs) && Reassociable(op)
    requires Flatten(l, attrs, d).Some? && Flatten(r, attrs, d).Some?
    ensures Flatten(Binary(op, l, r), attrs, d)
         == Some(Combine(op, Flatten(l, attrs, d).value, Flatten(r, attrs, d).value))
  {
  }

  /** A constant is moved in front of a free reference. */
  lemma FlattenSplits(op: BinaryOp, x: string, v: Value)
    requires Reassociable(op) && !op.And? && !op.Or?
    requires Simple(Ref(x, false)) && Simple(Literal(v)) && Simple(Binary(op, Ref(x, false), Literal(v)))
    ensures Flatten(Binary(op, Ref(x, false), Literal(v)), [], 0) == Some(Split(op, v, Ref(x, false)))
  {
    assert Flatten(Ref(x, false), [], 0) == Some(Tree(Ref(x, false)));
    assert Flatten(Literal(v), [], 0) == Some(Folded(v));
  }

  /** `(x + "s") + 1` folds `"s" + 1` to an error, though the sum is undefined when x is. */
  lemma StringOperandCounterexample(x: string, depth: nat)
    requires !Reserved(x)
    ensures var e := Binary(Add, Binary(Add, Ref(x, false), Literal(Str("s"))), Literal(Int(1)));
            && Simple(e)
            && Flatten(e, [], 0) == Some(Split(Add, Error, Ref(x, false)))
            && Run(e, [], depth) == Some(Undefined)
            && Run(ToExpr(Flatten(e, [], 0).value), [], depth) == Some(Error)
  {
    hide Eval;
    hide Flatten;
    var rx, s, one := Ref(x, false), Literal(Str("s")), Literal(Int(1));
    RefRuns(x, false, [], depth);
    RunLiteral(Str("s"), [], depth);
    RunLiteral(Int(1), [], depth);
    RunLiteral(Error, [], depth);
    RunBinary(Add, rx, s, [], depth);
    RunBinary(Add, Binary(Add, rx, s), one, [], depth);
    RunBinary(Add, Literal(Error), rx, [], depth);
    FlattenSplits(Add, x, Str("s"));
    FlattenLiteral(Int(1));
    FlattenBinary(Add, Binary(Add, rx, s), one, [], 0);
  }

  lemma FlattenLiteral(v: Value)
    requires !v.AdValue?
    ensures Flatten(Literal(v), [], 0) == Some(Folded(v))
  {
  }

  /** `x && false` folds to false, though it is an error when x is. */
  lemma ErrorOperandCounterexample(x: string, depth: nat)
    requires !Reserved(x) && depth > 0
    ensures var e := Binary(And, Ref(x, false), Literal(Bool(false)));
            var b := [Attr(x, Literal(Error))];
            && Simple(e) && SimpleAd(b)
            && Flatten(e, [], 0) == Some(Folded(Bool(false)))
            && Run(e, b, depth) == Some(Error)
  {
    hide Flatten;
    var rx, no := Ref(x, false), Literal(Bool(false));
    var b := [Attr(x, Literal(Error))];
    RefRuns(x, false, b, depth);
    RunLiteral(Error, b, depth - 1);
    FlattenFree(x);
    FlattenLiteral(Bool(false));
    FlattenBinary(And, rx, no, [], 0);
    assert Lookup(b, x) == Some(Literal(Error));
    assert Run(rx, b, depth) == Some(Error);
    assert Run(no, b, depth) == Some(Bool(false));
  }

  /** `x && error` becomes `error && x`, which is an error when x is false and the first is false. */
  lemma FrontedCounterexample(x: string, depth: nat)
    requires !Reserved(x) && depth > 0
    ensures var e := Binary(And, Ref(x, false), Literal(Error));
            var b := [Attr(x, Literal(Bool(false)))];
            && Simple(e) && SimpleAd(b)
            && Flatten(e, [], 0) == Some(Split(And, Error, Ref(x, false)))
            && Run(e, b, depth) == Some(Bool(false))
            && Run(ToExpr(Flatten(e, [], 0).value), b, depth) == Some(Error)
  {
    hide Flatten;
    var rx, bad := Ref(x, false), Literal(Error);
    var b := [Attr(x, Literal(Bool(false)))];
    RefRuns(x, false, b, depth);
    RunLiteral(Bool(false), b, depth - 1);
    RunLiteral(Error, b, depth);
    FlattenFree(x);
    FlattenLiteral(Error);
    FlattenBinary(And, rx, bad, [], 0);
    assert Lookup(b, x) == Some(Literal(Bool(false)));
    assert Run(rx, b, depth) == Some(Bool(false));
    assert Run(bad, b, depth) == Some(Error);
  }

  lemma FlattenFree(x: string)
    requires !Reserved(x)
    ensures Flatten(Ref(x, false), [], 0) == Some(Tree(Ref(x, false)))
  {
  }
}
