/** What the operators compute, in terms of numbers, strings and truth values. */
module OperatorMeanings {
  import opened Text
  import opened Expressions
  import opened Operators

  // ------------------------------------------------------------ comparisons

  /** The number that a boolean, an integer or a real stands for. */
  function Number(v: Value): (r: real)
    requires v.Bool? || v.Int? || v.Real?
  {
    match v
    case Bool(b) => if b then 1.0 else 0.0
    case Int(i) => i as real
    case Real(r) => r
  }

  /** Numbers are compared as numbers, whatever their types. */
  lemma NumbersCompare(v1: Value, v2: Value)
    requires (v1.Bool? || v1.Int? || v1.Real?) && (v2.Bool? || v2.Int? || v2.Real?)
    ensures var x, y := Number(v1), Number(v2);
            && Operate(Less, v1, v2) == Bool(x < y) && Operate(LessEq, v1, v2) == Bool(x <= y)
            && Operate(Greater, v1, v2) == Bool(x > y) && Operate(GreaterEq, v1, v2) == Bool(x >= y)
            && Operate(Equal, v1, v2) == Bool(x == y) && Operate(NotEqual, v1, v2) == Bool(x != y)
            && Operate(Is, v1, v2) == Bool(x == y) && Operate(Isnt, v1, v2) == Bool(x != y)
  {
    hide Operate;
    hide SignOf;
    OnNumbers(Less, v1, v2);
    OnNumbers(LessEq, v1, v2);
    OnNumbers(Greater, v1, v2);
    OnNumbers(GreaterEq, v1, v2);
    OnNumbers(Equal, v1, v2);
    OnNumbers(NotEqual, v1, v2);
    OnNumbers(Is, v1, v2);
    OnNumbers(Isnt, v1, v2);
    SignOfNumbers(v1, v2);
  }

  lemma OnNumbers(op: BinaryOp, v1: Value, v2: Value)
    requires IsComparison(op) && IsNumeric(v1) && IsNumeric(v2)
    ensures var op' := if op.Is? then Equal else if op.Isnt? then NotEqual else op;
            Operate(op, v1, v2) == Bool(Ordered(op', SignOf(v1, v2)))
  {
    hide SignOf;
  }

  lemma SignOfNumbers(v1: Value, v2: Value)
    requires IsNumeric(v1) && IsNumeric(v2)
    ensures var x, y := Number(v1), Number(v2);
            && (SignOf(v1, v2) < 0 <==> x < y) && (SignOf(v1, v2) == 0 <==> x == y) && (SignOf(v1, v2) > 0 <==> x > y)
  {
  }

  /** `s` comes before `t` in a dictionary: it is smaller at the first difference, or a proper prefix. */
  ghost predicate InFront(s: string, t: string) {
    exists n :: 0 <= n <= |s| && DiffersAt(s, t, n)
  }

  ghost predicate DiffersAt(s: string, t: string, n: nat)
    requires n <= |s|
  {
    n < |t| && s[..n] == t[..n] && (n < |s| ==> s[n] < t[n])
  }

  lemma {:induction false} LexicographicOrder(s: string, t: string)
    ensures Compare(s, t) < 0 <==> InFront(s, t)
    ensures Compare(s, t) > 0 <==> InFront(t, s)
    ensures Compare(s, t) == 0 <==> s == t
  {
    CompareFlips(s, t);
    CompareZeroMeansEqual(s, t);
    SmallerIsInFront(s, t);
    SmallerIsInFront(t, s);
    InFrontIsSmaller(s, t);
    InFrontIsSmaller(t, s);
  }

  lemma {:induction false} SmallerIsInFront(s: string, t: string)
    ensures Compare(s, t) < 0 ==> InFront(s, t)
  {
    if Compare(s, t) < 0 {
      if s != "" && s[0] == t[0] {
        SmallerIsInFront(s[1..], t[1..]);
        var n :| 0 <= n <= |s[1..]| && DiffersAt(s[1..], t[1..], n);
        assert s[..n + 1] == [s[0]] + s[1..][..n] && t[..n + 1] == [t[0]] + t[1..][..n];
        assert DiffersAt(s, t, n + 1);
      } else {
        assert DiffersAt(s, t, 0);
      }
    }
  }

  lemma {:induction false} InFrontIsSmaller(s: string, t: string)
    ensures InFront(s, t) ==> Compare(s, t) < 0
  {
    if n :| 0 <= n <= |s| && DiffersAt(s, t, n) {
      if n > 0 {
        assert s[..n][0] == t[..n][0];
        assert s[1..][..n - 1] == s[..n][1..] && t[1..][..n - 1] == t[..n][1..];
        assert DiffersAt(s[1..], t[1..], n - 1);
        InFrontIsSmaller(s[1..], t[1..]);
      }
    }
  }

  /** Strings are compared in dictionary order without regard to case, but for `is` and `isnt`, which want
      them the same. */
  lemma StringsCompare(s: string, t: string)
    ensures var a, b := Fold(s), Fold(t);
            && Operate(Less, Str(s), Str(t)) == Bool(InFront(a, b))
            && Operate(LessEq, Str(s), Str(t)) == Bool(InFront(a, b) || a == b)
            && Operate(Greater, Str(s), Str(t)) == Bool(InFront(b, a))
            && Operate(GreaterEq, Str(s), Str(t)) == Bool(InFront(b, a) || a == b)
            && Operate(Equal, Str(s), Str(t)) == Bool(a == b) && Operate(NotEqual, Str(s), Str(t)) == Bool(a != b)
            && Operate(Is, Str(s), Str(t)) == Bool(s == t) && Operate(Isnt, Str(s), Str(t)) == Bool(s != t)
  {
    hide Compare;
    hide InFront;
    hide Operate;
    LexicographicOrder(Fold(s), Fold(t));
    LexicographicOrder(s, t);
    OnStrings(Less, s, t);
    OnStrings(LessEq, s, t);
    OnStrings(Greater, s, t);
    OnStrings(GreaterEq, s, t);
    OnStrings(Equal, s, t);
    OnStrings(NotEqual, s, t);
    OnStrings(Is, s, t);
    OnStrings(Isnt, s, t);
  }

  lemma OnStrings(op: BinaryOp, s: string, t: string)
    requires IsComparison(op)
    ensures Operate(op, Str(s), Str(t)) ==
            if op.Is? then Bool(Compare(s, t) == 0) else if op.Isnt? then Bool(Compare(s, t) != 0)
            else Bool(Ordered(op, Compare(Fold(s), Fold(t))))
  {
    hide Compare;
    hide Fold;
  }

  /** Two names are the same if they have the same length and, place by place, the same letter in either
      case or the same character. */
  lemma {:induction false} SameNameMeans(a: string, b: string)
    ensures SameName(a, b) <==> |a| == |b| && forall i :: 0 <= i < |a| ==> SameLetter(a[i], b[i])
  {
    if |a| == |b| && a != "" {
      SameNameMeans(a[1..], b[1..]);
      FoldedHeads(a, b);
      assert (forall i :: 0 <= i < |a| ==> SameLetter(a[i], b[i]))
        <==> SameLetter(a[0], b[0]) && forall i :: 0 <= i < |a[1..]| ==> SameLetter(a[1..][i], b[1..][i]) by {
        assert forall i :: 0 < i < |a| ==> a[i] == a[1..][i - 1] && b[i] == b[1..][i - 1];
      }
    }
  }

  predicate SameLetter(c: char, d: char) {
    || c == d
    || ('A' <= c <= 'Z' && d as int == c as int - 'A' as int + 'a' as int)
    || ('A' <= d <= 'Z' && c as int == d as int - 'A' as int + 'a' as int)
  }

  lemma FoldedHeads(a: string, b: string)
    requires a != "" && b != ""
    ensures Fold(a) == Fold(b) <==> SameLetter(a[0], b[0]) && Fold(a[1..]) == Fold(b[1..])
  {
    assert Fold(a)[0] == FoldChar(a[0]) && Fold(b)[0] == FoldChar(b[0]);
    assert Fold(a)[1..] == Fold(a[1..]) && Fold(b)[1..] == Fold(b[1..]);
  }

  /** `is` holds of values that are both undefined, both errors, the same number or the same string, and
      `isnt` of the others; neither is ever exceptional on these values. */
  lemma IsMeans(v1: Value, v2: Value)
    requires !v1.AdValue? && !v2.AdValue?
    ensures var same := || (v1.Undefined? && v2.Undefined?) || (v1.Error? && v2.Error?)
                        || (v1.Str? && v2.Str? && v1.s == v2.s)
                        || (IsNumeric(v1) && IsNumeric(v2) && Number(v1) == Number(v2));
            Operate(Is, v1, v2) == Bool(same) && Operate(Isnt, v1, v2) == Bool(!same)
  {
    hide Compare;
    if v1.Str? && v2.Str? {
      StringsCompare(v1.s, v2.s);
    } else if IsNumeric(v1) && IsNumeric(v2) {
      NumbersCompare(v1, v2);
    }
  }

  /** The other comparisons, and arithmetic and bitwise operators, give an error if one operand is, else
      undefined if one operand is; a string compares with strings only, and an ad with nothing. */
  lemma StrictOperators(op: BinaryOp, v1: Value, v2: Value)
    requires !op.Is? && !op.Isnt? && !op.And? && !op.Or?
    ensures v1.Error? || v2.Error? ==> Operate(op, v1, v2) == Error
    ensures !v1.Error? && !v2.Error? && (v1.Undefined? || v2.Undefined?) ==> Operate(op, v1, v2) == Undefined
    ensures IsComparison(op) && ((v1.Str? && IsNumeric(v2)) || (IsNumeric(v1) && v2.Str?)) ==>
      Operate(op, v1, v2) == Error
  {
  }

  // ------------------------------------------------------------- arithmetic

  /** The integer that a boolean or an integer stands for. */
  function Whole(v: Value): (i: int)
    requires v.Bool? || v.Int?
  {
    if v.Int? then v.i else if v.b then 1 else 0
  }

  function Abs(x: int): (r: nat) {
    if x < 0 then -x else x
  }

  /** On integers: a quotient is cut off towards zero, and a remainder has the sign of the dividend. */
  lemma IntegerArithmetic(v1: Value, v2: Value)
    requires (v1.Bool? || v1.Int?) && (v2.Bool? || v2.Int?)
    ensures var x, y := Whole(v1), Whole(v2);
            && Operate(Add, v1, v2) == Int(x + y) && Operate(Sub, v1, v2) == Int(x - y)
            && Operate(Mul, v1, v2) == Int(x * y)
            && (y == 0 ==> Operate(Div, v1, v2) == Error && Operate(Mod, v1, v2) == Error)
            && (y != 0 ==>
                  var q, r := Operate(Div, v1, v2), Operate(Mod, v1, v2);
                  && q.Int? && r.Int? && x == q.i * y + r.i && Abs(r.i) < Abs(y) && (r.i != 0 ==> (r.i < 0 <==> x < 0)))
  {
    hide Operate;
    hide TruncDiv;
    hide TruncMod;
    OnArithmetic(v1, v2);
    var y := Whole(v2);
    assert Promote(v1) == Int(Whole(v1)) && Promote(v2) == Int(y);
    if y != 0 {
      Truncated(Whole(v1), y);
    }
  }

  lemma Truncated(x: int, y: int)
    requires y != 0
    ensures var q, r := TruncDiv(x, y), TruncMod(x, y);
            x == q * y + r && Abs(r) < Abs(y) && (r != 0 ==> (r < 0 <==> x < 0))
  {
    if x >= 0 {
      assert x == y * (x / y) + x % y;
    } else {
      assert -x == y * ((-x) / y) + (-x) % y;
      assert TruncMod(x, y) == -((-x) % y);
    }
  }

  /** As soon as one operand is a real, so is the result; reals have no remainder. */
  lemma RealArithmetic(v1: Value, v2: Value)
    requires IsNumeric(v1) && IsNumeric(v2) && (v1.Real? || v2.Real?)
    ensures var x, y := Number(v1), Number(v2);
            && Operate(Add, v1, v2) == Real(x + y) && Operate(Sub, v1, v2) == Real(x - y)
            && Operate(Mul, v1, v2) == Real(x * y) && Operate(Mod, v1, v2) == Error
            && Operate(Div, v1, v2) == if y == 0.0 then Error else Real(x / y)
  {
    hide Operate;
    OnArithmetic(v1, v2);
    assert ToReal(Promote(v1)) == Number(v1) && ToReal(Promote(v2)) == Number(v2);
  }

  lemma OnArithmetic(v1: Value, v2: Value)
    requires IsNumeric(v1) && IsNumeric(v2)
    ensures Operate(Add, v1, v2) == Arithmetic(Add, v1, v2) && Operate(Sub, v1, v2) == Arithmetic(Sub, v1, v2)
    ensures Operate(Mul, v1, v2) == Arithmetic(Mul, v1, v2) && Operate(Div, v1, v2) == Arithmetic(Div, v1, v2)
    ensures Operate(Mod, v1, v2) == Arithmetic(Mod, v1, v2)
  {
    hide Arithmetic;
  }

  /** The prefix operators. */
  lemma UnaryOperators(v: Value)
    ensures OperateUnary(Parentheses, v) == v
    ensures v.Undefined? || v.Error? ==> forall op :: OperateUnary(op, v) == v
    ensures v.Int? ==>
      && OperateUnary(UnaryMinus, v) == Int(0 - v.i) && OperateUnary(UnaryPlus, v) == v
      && OperateUnary(BitwiseNot, v) == Int(-1 - v.i) && OperateUnary(LogicalNot, v) == Error
    ensures v.Real? ==>
      && OperateUnary(UnaryMinus, v) == Real(0.0 - v.r) && OperateUnary(UnaryPlus, v) == v
      && OperateUnary(BitwiseNot, v) == Error && OperateUnary(LogicalNot, v) == Error
    ensures v.Bool? ==>
      && OperateUnary(LogicalNot, v) == Bool(!v.b) && OperateUnary(UnaryMinus, v) == Error
      && OperateUnary(UnaryPlus, v) == Error && OperateUnary(BitwiseNot, v) == Error
    ensures v.Str? || v.AdValue? ==> forall op :: op != Parentheses ==> OperateUnary(op, v) == Error
  {
  }

  // -------------------------------------------------------------------- bits

  /** The binary digit of a two's complement number at place `i`. */
  function DigitAt(x: int, i: nat): (one: bool)
    decreases i
  {
    if i == 0 then x % 2 == 1 else DigitAt(x / 2, i - 1)
  }

  /** The bitwise operators, place by place. */
  lemma {:induction false} BitwiseDigits(x: int, y: int, i: nat)
    ensures var either, both, one := Bits(BitOr, x, y), Bits(BitAnd, x, y), Bits(BitXor, x, y);
            && Operate(BitOr, Int(x), Int(y)) == Int(either)
            && Operate(BitAnd, Int(x), Int(y)) == Int(both)
            && Operate(BitXor, Int(x), Int(y)) == Int(one)
            && (DigitAt(either, i) <==> DigitAt(x, i) || DigitAt(y, i))
            && (DigitAt(both, i) <==> DigitAt(x, i) && DigitAt(y, i))
            && (DigitAt(one, i) <==> DigitAt(x, i) != DigitAt(y, i))
    decreases i
  {
    BitsHalves(BitOr, x, y);
    BitsHalves(BitAnd, x, y);
    BitsHalves(BitXor, x, y);
    if i > 0 {
      hide Bits;
      BitwiseDigits(x / 2, y / 2, i - 1);
    }
  }

  /** The complement turns every digit over. */
  lemma {:induction false} ComplementDigits(x: int, i: nat)
    ensures DigitAt(-1 - x, i) <==> !DigitAt(x, i)
    decreases i
  {
    if i > 0 {
      assert (-1 - x) / 2 == -1 - x / 2;
      ComplementDigits(x / 2, i - 1);
    }
  }

  /** Shifts by counts that the machine defines: to the left, a multiplication; to the right, a division
      rounded down; and to the right without the sign, the division of the 32-bit pattern read as a number
      without sign. */
  lemma Shifts(x: int, n: nat)
    requires -0x8000_0000 <= x < 0x8000_0000 && 0 < n < 32
    ensures Operate(ShiftLeft, Int(x), Int(n)) == Int(x * Pow2(n))
    ensures Operate(ShiftRight, Int(x), Int(n)) == Int(x / Pow2(n))
    ensures Operate(UShiftRight, Int(x), Int(n)) == Int((if x < 0 then x + 0x1_0000_0000 else x) / Pow2(n))
  {
    if x < 0 {
      var u := x + 0x1_0000_0000;
      assert x / 2 + SIGN_BIT == u / 2;
      HalfFirst(u, Pow2(n - 1));
    }
  }

  lemma HalfFirst(u: int, p: nat)
    requires p > 0
    ensures u / 2 / p == u / (2 * p)
  {
    var a, s := u / 2, u % 2;
    var q, r := a / p, a % p;
    assert u == 2 * (p * q + r) + s;
    Doubled(p, q, r, s);
    QuotientUnique(u, 2 * p, q, 2 * r + s);
  }

  lemma Doubled(p: nat, q: int, r: int, s: int)
    ensures 2 * (p * q + r) + s == (2 * p) * q + (2 * r + s)
  {
  }

  // ------------------------------------------------------------------- logic

  /** Truth values in order: false, undefined, true. */
  function Truth(v: Value): (n: nat)
    requires v.Bool? || v.Undefined?
  {
    if v == Bool(false) then 0 else if v.Undefined? then 1 else 2
  }

  /** `&&` gives the lesser truth value and `||` the greater. An error counts unless the first operand has
      decided, and operands that are neither truth values, undefined nor errors make an error. */
  lemma Connectives(v1: Value, v2: Value)
    ensures (v1.Bool? || v1.Undefined?) && (v2.Bool? || v2.Undefined?) ==>
      var a, o := Operate(And, v1, v2), Operate(Or, v1, v2);
      && (a.Bool? || a.Undefined?) && Truth(a) == (if Truth(v1) < Truth(v2) then Truth(v1) else Truth(v2))
      && (o.Bool? || o.Undefined?) && Truth(o) == (if Truth(v1) > Truth(v2) then Truth(v1) else Truth(v2))
    ensures v1.Error? ==> Operate(And, v1, v2) == Error && Operate(Or, v1, v2) == Error
    ensures v2.Error? ==>
      && Operate(And, v1, v2) == (if v1 == Bool(false) then Bool(false) else Error)
      && Operate(Or, v1, v2) == (if v1 == Bool(true) then Bool(true) else Error)
    ensures v1.Int? || v1.Real? || v1.Str? || v1.AdValue? || v2.Int? || v2.Real? || v2.Str? || v2.AdValue? ==>
      Operate(And, v1, v2) == Error && Operate(Or, v1, v2) == Error
  {
  }
}
