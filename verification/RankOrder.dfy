/** The order of view members, in terms of what their ranks and keys are. */
module RankOrder {
  import opened Text
  import opened Expressions
  import opened Operators
  import opened OperatorMeanings
  import opened Members

  /** Ranks of different kinds: errors come first, then undefined, truth values, numbers, strings and ads. */
  function Kind(v: Value): (n: nat) {
    match v
    case Error => 0
    case Undefined => 1
    case Bool(_) => 2
    case Int(_) => 3
    case Real(_) => 3
    case Str(_) => 4
    case AdValue(_) => 5
  }

  /** `a` is the lower of two ranks: by kind, or as a number, or in the dictionary without regard to case. */
  ghost predicate Lower(a: Value, b: Value) {
    || Kind(a) < Kind(b)
    || (IsNumeric(a) && IsNumeric(b) && Kind(a) == Kind(b) && Number(a) < Number(b))
    || (a.Str? && b.Str? && InFront(Fold(a.s), Fold(b.s)))
  }

  /** Neither rank is lower, and they are of a kind whose ties are broken by key. */
  ghost predicate Level(a: Value, b: Value) {
    || (IsNumeric(a) && IsNumeric(b) && Kind(a) == Kind(b) && Number(a) == Number(b))
    || (a.Str? && b.Str? && Fold(a.s) == Fold(b.s))
  }

  /** One member comes before another if its rank is lower, or the ranks are level and its key is in front. */
  lemma BeforeMeans(m1: Member, m2: Member)
    ensures Before(m1, m2) <==>
      Lower(m1.rank, m2.rank) || (Level(m1.rank, m2.rank) && InFront(m1.key, m2.key))
  {
    hide InFront;
    hide Operate;
    hide Compare;
    var a, b := m1.rank, m2.rank;
    LexicographicOrder(m1.key, m2.key);
    if IsNumeric(a) && IsNumeric(b) {
      NumbersCompare(a, b);
    } else if a.Str? && b.Str? {
      StringsCompare(a.s, b.s);
      NotBoth(Fold(a.s), Fold(b.s));
    } else {
      StrictOperators(Less, a, b);
      StrictOperators(Equal, a, b);
    }
  }

  lemma NotBoth(s: string, t: string)
    ensures !(s == t && InFront(s, t))
  {
    hide Compare;
    hide InFront;
    LexicographicOrder(s, t);
  }

  /** A new member is placed behind all that are not after it, those it ties with included. */
  lemma {:induction false} PlacedBehindTies(ms: seq<Member>, m: Member) returns (i: nat)
    requires Sorted(ms)
    ensures i <= |ms| && Placed(ms, m) == ms[..i] + [m] + ms[i..]
    ensures forall j :: 0 <= j < i ==> !Before(m, ms[j])
    ensures forall j :: i <= j < |ms| ==> Before(m, ms[j])
  {
    hide Before;
    if ms == [] {
      i := 0;
    } else if Before(m, ms[0]) {
      i := 0;
      forall j | 0 <= j < |ms| ensures Before(m, ms[j]) {
        StrictWeakOrder(ms[0], ms[j], m);
      }
    } else {
      var k := PlacedBehindTies(ms[1..], m);
      i := k + 1;
      assert ms == [ms[0]] + ms[1..];
      assert ms[..i] == [ms[0]] + ms[1..][..k] && ms[i..] == ms[1..][k..];
    }
  }
}
