/** What each operator does to the values of its operands. */
module Operators {
  import opened Text
  import opened Expressions

  // ---------------------------------------------------------------- numbers

  predicate IsNumeric(v: Value) {
    v.Bool? || v.Int? || v.Real?
  }

  /** Booleans take part in arithmetic and in comparisons as 0 and 1. */
  function Promote(v: Value): (r: Value)
    requires IsNumeric(v)
    ensures r.Int? || r.Real?
  {
    if v.Bool? then Int(if v.b then 1 else 0) else v
  }

  function ToReal(v: Value): (r: real)
    requires IsNumeric(v)
  {
    if v.Real? then v.r else Promote(v).i as real
  }

  /** Integer division truncates towards zero. */
  function TruncDiv(a: int, b: int): (q: int)
    requires b != 0
  {
    if a >= 0 then a / b else -((-a) / b)
  }

  function TruncMod(a: int, b: int): (m: int)
    requires b != 0
  {
    a - b * TruncDiv(a, b)
  }

  function Arithmetic(op: BinaryOp, v1: Value, v2: Value): (r: Value) {
    if !IsNumeric(v1) || !IsNumeric(v2) then Error
    else
      var a, b := Promote(v1), Promote(v2);
      if a.Int? && b.Int? then
        match op
        case Add => Int(a.i + b.i)
        case Sub => Int(a.i - b.i)
        case Mul => Int(a.i * b.i)
        case Div => if b.i != 0 then Int(TruncDiv(a.i, b.i)) else Error
        case Mod => if b.i != 0 then Int(TruncMod(a.i, b.i)) else Error
        case _ => Error
      else
        var x, y := ToReal(a), ToReal(b);
        match op
        case Add => Real(x + y)
        case Sub => Real(x - y)
        case Mul => Real(x * y)
        case Div => if y != 0.0 then Real(x / y) else Error
        case _ => Error
  }

  // ------------------------------------------------------------------- bits

  /** The distance of an integer from the two numbers whose binary digits are all alike. */
  function Spread(x: int): (r: nat) {
    if x >= 0 then x else -1 - x
  }

  function BitRule(op: BinaryOp, a: bool, b: bool): (r: bool) {
    match op
    case BitOr => a || b
    case BitXor => a != b
    case _ => a && b
  }

  /** `|`, `^` and `&` on two's complement numbers, digit by digit. */
  function Bits(op: BinaryOp, x: int, y: int): (r: int)
    decreases Spread(x) + Spread(y)
  {
    if Spread(x) == 0 && Spread(y) == 0 then
      if BitRule(op, x == -1, y == -1) then -1 else 0
    else
      2 * Bits(op, x / 2, y / 2) + if BitRule(op, x % 2 == 1, y % 2 == 1) then 1 else 0
  }

  function Pow2(n: nat): (r: nat)
    ensures r > 0
  {
    if n == 0 then 1 else 2 * Pow2(n - 1)
  }

  const INT_BITS := 32
  const SIGN_BIT := 0x8000_0000

  /** Shift counts for which the source's behaviour is undefined give Error here. */
  function Shift(op: BinaryOp, x: int, n: int): (r: Value) {
    match op
    case ShiftLeft =>
      if 0 <= n < INT_BITS then Int(x * Pow2(n)) else Error
    case UShiftRight =>
      if x >= 0 then (if 0 <= n < INT_BITS then Int(x / Pow2(n)) else Error)
      else if 1 <= n <= INT_BITS then Int((x / 2 + SIGN_BIT) / Pow2(n - 1))
      else Error
    case _ =>
      if x >= 0 then (if 0 <= n < INT_BITS then Int(x / Pow2(n)) else Error)
      else if n <= 0 then Int(x)
      else Int(x / Pow2(n))
  }

  /** The sign-preserving right shift of a negative number, one position at a time. */
  method ShiftNegativeRight(x: int, n: int) returns (v: int)
    requires x < 0
    ensures Int(v) == Shift(ShiftRight, x, n)
    ensures v < 0
  {
    v := x;
    var i := 0;
    while i < n
      invariant 0 <= i
      invariant i <= n || i == 0
      invariant v < 0 && v == x / Pow2(i)
    {
      DivTwice(x, Pow2(i));
      v := v / 2;
      i := i + 1;
    }
  }

  lemma DivTwice(x: int, p: nat)
    requires p > 0
    ensures x / p / 2 == x / (2 * p)
  {
    var a, r := x / p, x % p;
    var q, s := a / 2, a % 2;
    Regroup(p, q, s);
    QuotientUnique(x, 2 * p, q, if s == 0 then r else p + r);
  }

  lemma Regroup(p: nat, q: int, s: int)
    requires 0 <= s < 2
    ensures p * (2 * q + s) == (2 * p) * q + if s == 0 then 0 else p
  {
  }

  lemma QuotientUnique(x: int, d: nat, q: int, rest: int)
    requires d > 0 && x == d * q + rest && 0 <= rest < d
    ensures x / d == q
  {
    var q', r' := x / d, x % d;
    assert d * (q - q') == r' - rest;
    MultipleInRange(d, q - q');
  }

  lemma MultipleInRange(d: nat, k: int)
    requires d > 0 && 0 - d < d * k < d
    ensures k == 0
  {
  }

  function Bitwise(op: BinaryOp, v1: Value, v2: Value): (r: Value) {
    if !v1.Int? || !v2.Int? then Error
    else if op.ShiftLeft? || op.ShiftRight? || op.UShiftRight? then Shift(op, v1.i, v2.i)
    else Int(Bits(op, v1.i, v2.i))
  }

  // ------------------------------------------------------------ comparisons

  function Ordered(op: BinaryOp, sign: int): (r: bool) {
    match op
    case Less => sign < 0
    case LessEq => sign <= 0
    case NotEqual => sign != 0
    case Equal => sign == 0
    case GreaterEq => sign >= 0
    case _ => sign > 0
  }

  function SignOf(v1: Value, v2: Value): (sign: int)
    requires IsNumeric(v1) && IsNumeric(v2)
  {
    var a, b := Promote(v1), Promote(v2);
    if a.Int? && b.Int? then
      if a.i < b.i then -1 else if a.i == b.i then 0 else 1
    else
      var x, y := ToReal(a), ToReal(b);
      if x < y then -1 else if x == y then 0 else 1
  }

  predicate SameType(v1: Value, v2: Value) {
    || (v1.Undefined? && v2.Undefined?)
    || (v1.Error? && v2.Error?)
    || (IsNumeric(v1) && IsNumeric(v2))
    || (v1.Str? && v2.Str?)
    || (v1.AdValue? && v2.AdValue?)
  }

  /** `=?=` and `=!=` are never exceptional on scalars: values of different types differ, and
      strings are compared exactly. The strict comparisons ignore the case of strings. */
  function Comparison(op: BinaryOp, v1: Value, v2: Value): (r: Value) {
    if (op.Is? || op.Isnt?) && !SameType(v1, v2) then Bool(op.Isnt?)
    else if (op.Is? || op.Isnt?) && (v1.Undefined? || v1.Error?) then Bool(op.Is?)
    else
      var exact := op.Is? || op.Isnt?;
      var op' := if op.Is? then Equal else if op.Isnt? then NotEqual else op;
      if v1.AdValue? || v2.AdValue? then Error
      else if v1.Str? || v2.Str? then
        if v1.Str? && v2.Str? then
          Bool(Ordered(op', if exact then Compare(v1.s, v2.s) else CompareFolded(v1.s, v2.s)))
        else Error
      else if IsNumeric(v1) && IsNumeric(v2) then Bool(Ordered(op', SignOf(v1, v2)))
      else Error
  }

  // ------------------------------------------------------------------ logic

  predicate IsLogical(v: Value) {
    v.Undefined? || v.Error? || v.Bool?
  }

  function Logical(op: BinaryOp, v1: Value, v2: Value): (r: Value) {
    if !IsLogical(v1) || !IsLogical(v2) then Error
    else
      var absorbing := op.Or?;
      if v1 == Bool(absorbing) then v1
      else if v1.Error? then Error
      else if v1.Bool? then v2
      else if !v2.Bool? then v2
      else if v2 == Bool(absorbing) then v2
      else Undefined
  }

  // -------------------------------------------------------------- operators

  predicate IsComparison(op: BinaryOp) {
    op.Less? || op.LessEq? || op.NotEqual? || op.Equal? || op.GreaterEq? || op.Greater?
    || op.Is? || op.Isnt?
  }

  predicate IsArithmetic(op: BinaryOp) {
    op.Add? || op.Sub? || op.Mul? || op.Div? || op.Mod?
  }

  predicate IsStrict(op: BinaryOp) {
    !op.Is? && !op.Isnt? && !op.And? && !op.Or?
  }

  /** A binary operator applied to two values. */
  function Operate(op: BinaryOp, v1: Value, v2: Value): (r: Value) {
    if IsStrict(op) && (v1.Error? || v2.Error?) then Error
    else if IsStrict(op) && (v1.Undefined? || v2.Undefined?) then Undefined
    else if IsComparison(op) then Comparison(op, v1, v2)
    else if IsArithmetic(op) then Arithmetic(op, v1, v2)
    else if op.And? || op.Or? then Logical(op, v1, v2)
    else if op.Subscript? then Error
    else Bitwise(op, v1, v2)
  }

  /** A unary operator applied to a value. Unary minus on a boolean is an error. */
  function OperateUnary(op: UnaryOp, v: Value): (r: Value) {
    match op
    case Parentheses => v
    case UnaryPlus => if v.Bool? || v.Str? || v.AdValue? then Error else v
    case UnaryMinus =>
      if v.Error? || v.Undefined? then v
      else if v.Int? then Int(-v.i)
      else if v.Real? then Real(-v.r)
      else Error
    case LogicalNot =>
      if v.Error? || v.Undefined? then v
      else if v.Bool? then Bool(!v.b)
      else Error
    case BitwiseNot =>
      if v.Error? || v.Undefined? then v
      else if v.Int? then Int(-1 - v.i)
      else Error
  }

  // --------------------------------------- laws behind reassociation

  /** The operators that the partial evaluator treats as associative and commutative. */
  predicate Reassociable(op: BinaryOp) {
    op.Add? || op.Mul? || op.BitOr? || op.BitXor? || op.BitAnd? || op.Or? || op.And?
  }

  /** The operand values on which a reassociable operator really is associative and commutative. */
  predicate Nice(op: BinaryOp, v: Value) {
    match op
    case Add => v.Undefined? || v.Error? || IsNumeric(v)
    case Mul => v.Undefined? || v.Error? || IsNumeric(v)
    case Or => v.Undefined? || v.Bool?
    case And => v.Undefined? || v.Bool?
    case _ => v.Undefined? || v.Error? || v.Int?
  }

  lemma NiceClosed(op: BinaryOp, a: Value, b: Value)
    requires Reassociable(op) && Nice(op, a) && Nice(op, b)
    ensures Nice(op, Operate(op, a, b))
  {
  }

  lemma {:induction false} BitsHalves(op: BinaryOp, x: int, y: int)
    ensures Bits(op, x, y) / 2 == Bits(op, x / 2, y / 2)
    ensures Bits(op, x, y) % 2 == if BitRule(op, x % 2 == 1, y % 2 == 1) then 1 else 0
  {
    if Spread(x) == 0 && Spread(y) == 0 {
      assert x / 2 == x && y / 2 == y;
    }
  }

  lemma {:induction false} BitsCommute(op: BinaryOp, x: int, y: int)
    requires op.BitOr? || op.BitXor? || op.BitAnd?
    ensures Bits(op, x, y) == Bits(op, y, x)
    decreases Spread(x) + Spread(y)
  {
    if Spread(x) != 0 || Spread(y) != 0 {
      BitsCommute(op, x / 2, y / 2);
    }
  }

  lemma {:induction false} BitsAssociate(op: BinaryOp, x: int, y: int, z: int)
    requires op.BitOr? || op.BitXor? || op.BitAnd?
    ensures Bits(op, Bits(op, x, y), z) == Bits(op, x, Bits(op, y, z))
    decreases Spread(x) + Spread(y) + Spread(z)
  {
    if Spread(x) != 0 || Spread(y) != 0 || Spread(z) != 0 {
      hide Bits;
      BitsAssociate(op, x / 2, y / 2, z / 2);
      BitsHalves(op, x, y);
      BitsHalves(op, Bits(op, x, y), z);
      BitsHalves(op, y, z);
      BitsHalves(op, x, Bits(op, y, z));
      SameHalves(Bits(op, Bits(op, x, y), z), Bits(op, x, Bits(op, y, z)));
    }
  }

  lemma SameHalves(l: int, r: int)
    requires l / 2 == r / 2 && l % 2 == r % 2
    ensures l == r
  {
  }

  lemma OperateCommutes(op: BinaryOp, a: Value, b: Value)
    requires Reassociable(op) && Nice(op, a) && Nice(op, b)
    ensures Operate(op, a, b) == Operate(op, b, a)
  {
    if a.Int? && b.Int? && (op.BitOr? || op.BitXor? || op.BitAnd?) {
      BitsCommute(op, a.i, b.i);
    }
  }

  lemma ProductAsReal(x: int, y: int)
    ensures (x * y) as real == x as real * y as real
  {
  }

  lemma IntProduct(a: Value, b: Value)
    requires IsNumeric(a) && IsNumeric(b) && !a.Real? && !b.Real?
    ensures Operate(Mul, a, b) == Int(Promote(a).i * Promote(b).i)
    ensures ToReal(Operate(Mul, a, b)) == ToReal(a) * ToReal(b)
  {
    var x, y := Promote(a).i, Promote(b).i;
    ProductAsReal(x, y);
    IntTimes(a, b);
    hide Operate;
    assert ToReal(a) == x as real && ToReal(b) == y as real;
  }

  lemma IntTimes(a: Value, b: Value)
    requires IsNumeric(a) && IsNumeric(b) && !a.Real? && !b.Real?
    ensures Operate(Mul, a, b) == Int(Promote(a).i * Promote(b).i)
  {
  }

  lemma RealProduct(a: Value, b: Value)
    requires IsNumeric(a) && IsNumeric(b) && (a.Real? || b.Real?)
    ensures Operate(Mul, a, b) == Real(ToReal(a) * ToReal(b))
  {
  }

  lemma TripleProduct(x: real, y: real, z: real, xy: real, yz: real)
    requires xy == x * y && yz == y * z
    ensures xy * z == x * yz
  {
  }

  lemma ProductAssociates(a: Value, b: Value, c: Value)
    requires IsNumeric(a) && IsNumeric(b) && IsNumeric(c)
    ensures Operate(Mul, Operate(Mul, a, b), c) == Operate(Mul, a, Operate(Mul, b, c))
  {
    if a.Real? || b.Real? || c.Real? {
      RealProductAssociates(a, b, c);
    } else {
      hide Operate;
      IntProduct(a, b);
      IntProduct(b, c);
      IntProduct(Operate(Mul, a, b), c);
      IntProduct(a, Operate(Mul, b, c));
      IntProductAssociates(Promote(a).i, Promote(b).i, Promote(c).i);
    }
  }

  lemma IntProductAssociates(i: int, j: int, k: int)
    ensures (i * j) * k == i * (j * k)
  {
  }

  lemma RealProductAssociates(a: Value, b: Value, c: Value)
    requires IsNumeric(a) && IsNumeric(b) && IsNumeric(c) && (a.Real? || b.Real? || c.Real?)
    ensures Operate(Mul, Operate(Mul, a, b), c) == Operate(Mul, a, Operate(Mul, b, c))
  {
    hide Operate;
    var ab, bc := Operate(Mul, a, b), Operate(Mul, b, c);
    if a.Real? || b.Real? {
      RealProduct(a, b);
    } else {
      IntProduct(a, b);
    }
    if b.Real? || c.Real? {
      RealProduct(b, c);
    } else {
      IntProduct(b, c);
    }
    RealProduct(ab, c);
    RealProduct(a, bc);
    TripleProduct(ToReal(a), ToReal(b), ToReal(c), ToReal(ab), ToReal(bc));
  }

  lemma SumShape(a: Value, b: Value)
    requires IsNumeric(a) && IsNumeric(b)
    ensures Operate(Add, a, b) ==
            if a.Real? || b.Real? then Real(ToReal(a) + ToReal(b)) else Int(Promote(a).i + Promote(b).i)
  {
  }

  lemma SumAssociates(a: Value, b: Value, c: Value)
    requires IsNumeric(a) && IsNumeric(b) && IsNumeric(c)
    ensures Operate(Add, Operate(Add, a, b), c) == Operate(Add, a, Operate(Add, b, c))
  {
    hide Operate;
    SumShape(a, b);
    SumShape(b, c);
    SumShape(Operate(Add, a, b), c);
    SumShape(a, Operate(Add, b, c));
  }

  /** On nice operands the partial evaluator may regroup the operands of its seven operators. */
  lemma OperateAssociates(op: BinaryOp, a: Value, b: Value, c: Value)
    requires Reassociable(op) && Nice(op, a) && Nice(op, b) && Nice(op, c)
    ensures Operate(op, Operate(op, a, b), c) == Operate(op, a, Operate(op, b, c))
  {
    if op.Or? || op.And? {
    } else if a.Error? || b.Error? || c.Error? || a.Undefined? || b.Undefined? || c.Undefined? {
      ExceptionalAssociates(op, a, b, c);
    } else if op.Add? {
      SumAssociates(a, b, c);
    } else if op.Mul? {
      ProductAssociates(a, b, c);
    } else {
      BitsAssociate(op, a.i, b.i, c.i);
    }
  }

  lemma ExceptionalAssociates(op: BinaryOp, a: Value, b: Value, c: Value)
    requires Reassociable(op) && IsStrict(op) && Nice(op, a) && Nice(op, b) && Nice(op, c)
    requires a.Error? || b.Error? || c.Error? || a.Undefined? || b.Undefined? || c.Undefined?
    ensures Operate(op, Operate(op, a, b), c) == Operate(op, a, Operate(op, b, c))
  {
    hide Operate;
    var ab, bc := Operate(op, a, b), Operate(op, b, c);
    NiceClosed(op, a, b);
    NiceClosed(op, b, c);
    StrictResult(op, a, b);
    StrictResult(op, b, c);
    StrictResult(op, ab, c);
    StrictResult(op, a, bc);
  }

  lemma StrictResult(op: BinaryOp, a: Value, b: Value)
    requires Reassociable(op) && IsStrict(op) && Nice(op, a) && Nice(op, b)
    ensures Operate(op, a, b).Error? <==> a.Error? || b.Error?
    ensures Operate(op, a, b).Undefined? <==> !a.Error? && !b.Error? && (a.Undefined? || b.Undefined?)
  {
  }

  // ------------------------------------------------------- dropping a constant

  predicate IsSumOrProduct(op: BinaryOp) {
    op.Add? || op.Mul?
  }

  predicate IsConnective(op: BinaryOp) {
    op.Or? || op.And?
  }

  /** The constants that leave the other operand as it is. */
  predicate IsNeutral(op: BinaryOp, c: Value) {
    match op
    case Add => IsNumeric(c) && Promote(c) == Int(0)
    case Mul => IsNumeric(c) && Promote(c) == Int(1)
    case BitAnd => c == Int(-1)
    case Or => c == Bool(false)
    case And => c == Bool(true)
    case _ => c == Int(0)
  }

  /** Leaving out the constant `c` of an inner `op2` under `op` makes no difference, whatever the other
      operands, as long as the operators meet operands on which they are well behaved. */
  ghost predicate Harmless(op: BinaryOp, op2: BinaryOp, c: Value) {
    forall v, w :: Nice(op, v) && Nice(op2, w) && Nice(op, Operate(op2, c, w)) ==>
      Operate(op, v, Operate(op2, c, w)) == Operate(op, v, w)
  }

  /** The constants that may be left out. Under a sum or product, or an operator of the inner one's own
      kind, they are the neutral ones. A connective takes no numbers, so that under it every constant of
      a sum, product or bitwise operator may go that does not make the result undefined; and a bitwise
      operator takes integers only, so that under it boolean constants of a connective and real ones of
      a sum or product may go. */
  predicate Droppable(op: BinaryOp, op2: BinaryOp, c: Value) {
    if IsSumOrProduct(op) || (!IsSumOrProduct(op2) && IsConnective(op) == IsConnective(op2)) then
      IsNeutral(op2, c)
    else if IsConnective(op) then !c.Undefined?
    else if IsConnective(op2) then c.Bool?
    else c.Real?
  }

  lemma {:induction false} NeutralBits(op: BinaryOp, y: int)
    requires op.BitOr? || op.BitXor? || op.BitAnd?
    ensures Bits(op, if op.BitAnd? then -1 else 0, y) == y
    decreases Spread(y)
  {
    if Spread(y) != 0 {
      NeutralBits(op, y / 2);
      assert y == 2 * (y / 2) + y % 2;
    }
  }

  /** A neutral constant gives back the other operand, a boolean under a sum or product as a number. */
  lemma NeutralGivesBack(op: BinaryOp, c: Value, w: Value)
    requires Reassociable(op) && IsNeutral(op, c) && Nice(op, w)
    ensures Operate(op, c, w) == if IsSumOrProduct(op) && w.Bool? then Promote(w) else w
  {
    if w.Int? && (op.BitOr? || op.BitXor? || op.BitAnd?) {
      NeutralBits(op, w.i);
    }
  }

  function Neutral(op: BinaryOp): (c: Value)
    requires Reassociable(op)
    ensures IsNeutral(op, c) && Nice(op, c)
  {
    match op
    case Add => Int(0)
    case Mul => Int(1)
    case BitAnd => Int(-1)
    case Or => Bool(false)
    case And => Bool(true)
    case _ => Int(0)
  }

  /** A constant of an inner operator may be left out exactly in these cases. */
  lemma DroppableExactly(op: BinaryOp, op2: BinaryOp, c: Value)
    requires Reassociable(op) && Reassociable(op2) && op != op2 && Nice(op2, c)
    ensures Harmless(op, op2, c) <==> Droppable(op, op2, c)
  {
    if Droppable(op, op2, c) {
      forall v, w | Nice(op, v) && Nice(op2, w) && Nice(op, Operate(op2, c, w))
        ensures Operate(op, v, Operate(op2, c, w)) == Operate(op, v, w)
      {
        DroppedMakesNoDifference(op, op2, c, v, w);
      }
    } else {
      UndroppableMatters(op, op2, c);
    }
  }

  lemma DroppedMakesNoDifference(op: BinaryOp, op2: BinaryOp, c: Value, v: Value, w: Value)
    requires Reassociable(op) && Reassociable(op2) && op != op2 && Nice(op2, c) && Droppable(op, op2, c)
    requires Nice(op, v) && Nice(op2, w) && Nice(op, Operate(op2, c, w))
    ensures Operate(op, v, Operate(op2, c, w)) == Operate(op, v, w)
  {
    if IsNeutral(op2, c) {
      NeutralGivesBack(op2, c, w);
    }
  }

  /** A neutral constant is not always one of them: `(y + 0) | v` is defined for y = true, where the sum
      is 1, and `y | v` is an error. */
  lemma NeutralIsNotEnough()
    ensures IsNeutral(Add, Int(0)) && !Harmless(BitOr, Add, Int(0))
  {
    UndroppableMatters(BitOr, Add, Int(0));
  }

  /** Such a constant also leaves the outer operator an operand it is well behaved on. */
  lemma DroppedIsNice(op: BinaryOp, op2: BinaryOp, c: Value, w: Value)
    requires Reassociable(op) && Reassociable(op2) && op != op2 && Nice(op2, c) && Droppable(op, op2, c)
    requires Nice(op2, w) && Nice(op, Operate(op2, c, w))
    ensures Nice(op, w)
  {
    if IsNeutral(op2, c) {
      NeutralGivesBack(op2, c, w);
    }
  }

  lemma UndroppableMatters(op: BinaryOp, op2: BinaryOp, c: Value)
    requires Reassociable(op) && Reassociable(op2) && op != op2 && Nice(op2, c) && !Droppable(op, op2, c)
    ensures !Harmless(op, op2, c)
  {
    if IsConnective(op) && !IsConnective(op2) {
      Matters(op, op2, c, Int(1));
    } else if !IsSumOrProduct(op) && IsConnective(op2) && !IsConnective(op) {
      Matters(op, op2, c, Bool(op2.And?));
    } else if !IsSumOrProduct(op) && IsSumOrProduct(op2) && !c.Error? {
      Matters(op, op2, c, Bool(true));
    } else {
      NotNeutralMatters(op, op2, c);
    }
  }

  lemma NotNiceIsError(op: BinaryOp, v: Value, w: Value)
    requires Reassociable(op) && Nice(op, v) && !v.Undefined? && !Nice(op, w)
    requires IsConnective(op) ==> v == Neutral(op)
    ensures Operate(op, v, w) == Error
  {
  }

  /** The neutral element of `op` on the other side shows the difference. */
  lemma Matters(op: BinaryOp, op2: BinaryOp, c: Value, w: Value)
    requires Reassociable(op) && Nice(op2, w) && !Nice(op, w)
    requires Nice(op, Operate(op2, c, w)) && Operate(op2, c, w) != Error
    ensures !Harmless(op, op2, c)
  {
    var r := Operate(op2, c, w);
    NeutralGivesBack(op, Neutral(op), r);
    NotNiceIsError(op, Neutral(op), w);
    assert Operate(op, Neutral(op), r) != Operate(op, Neutral(op), w);
  }

  /** So does the neutral element of `op2` as the operand whose constant is left out. */
  lemma NotNeutralMatters(op: BinaryOp, op2: BinaryOp, c: Value)
    requires Reassociable(op) && Reassociable(op2) && op != op2 && Nice(op2, c) && !IsNeutral(op2, c)
    requires Nice(op, c) && Nice(op, Neutral(op2))
    ensures !Harmless(op, op2, c)
  {
    var v, w := Neutral(op), Neutral(op2);
    var r := Operate(op2, c, w);
    OperateCommutes(op2, c, w);
    NeutralGivesBack(op2, w, c);
    NeutralGivesBack(op, v, r);
    NeutralGivesBack(op, v, w);
    assert Operate(op, v, r) != Operate(op, v, w) by {
      hide Operate;
    }
  }
}
