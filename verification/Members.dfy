/** The members of a view: a multiset ordered by rank, and an index from keys into it. */
module Members {
  import opened Text
  import opened Expressions
  import opened Operators

  type Key = string

  datatype Member = Member(rank: Value, key: Key)

  // -------------------------------------------------------------- the order

  /** The type numbers by which values of different types are ordered. */
  function TypeNumber(v: Value): (n: nat) {
    match v
    case Error => 1
    case Undefined => 2
    case Bool(_) => 4
    case Int(_) => 8
    case Real(_) => 16
    case Str(_) => 128
    case AdValue(_) => 256
  }

  predicate IsNumber(v: Value) {
    v.Int? || v.Real?
  }

  /** The comparison of view members: by rank, and by key when the ranks are equal. */
  predicate Before(m1: Member, m2: Member) {
    var v1, v2 := m1.rank, m2.rank;
    if (TypeNumber(v1) == TypeNumber(v2) && !v1.AdValue?) || (IsNumber(v1) && IsNumber(v2)) then
      if Operate(Equal, v1, v2) == Bool(true) then Compare(m1.key, m2.key) < 0
      else Operate(Less, v1, v2) == Bool(true)
    else TypeNumber(v1) < TypeNumber(v2)
  }

  /** Integers and reals share a class; otherwise each type is one. */
  function Class(v: Value): (n: nat) {
    if IsNumber(v) then 8 else TypeNumber(v)
  }

  /** Ranks whose ties are broken by key. */
  predicate Keyed(v: Value) {
    v.Bool? || v.Int? || v.Real? || v.Str?
  }

  /** The sign of the comparison of two ranks. */
  function RankSign(a: Value, b: Value): (sign: int)
    ensures -1 <= sign <= 1
  {
    if Class(a) < Class(b) then -1
    else if Class(a) > Class(b) then 1
    else if a.Str? then CompareFolded(a.s, b.s)
    else if IsNumeric(a) && IsNumeric(b) then SignOf(a, b)
    else 0
  }

  lemma BeforeBySign(m1: Member, m2: Member)
    ensures Before(m1, m2) <==>
      || RankSign(m1.rank, m2.rank) < 0
      || (RankSign(m1.rank, m2.rank) == 0 && Keyed(m1.rank) && Compare(m1.key, m2.key) < 0)
  {
    hide CompareFolded;
    hide Compare;
  }

  lemma RankSignFlips(a: Value, b: Value)
    ensures RankSign(a, b) == -RankSign(b, a)
  {
    if a.Str? && b.Str? {
      CompareFlips(Fold(a.s), Fold(b.s));
    }
  }

  lemma RankSignTransitive(a: Value, b: Value, c: Value)
    requires RankSign(a, b) <= 0 && RankSign(b, c) <= 0
    ensures RankSign(a, c) <= 0
    ensures RankSign(a, b) < 0 || RankSign(b, c) < 0 ==> RankSign(a, c) < 0
  {
    hide Compare;
    if a.Str? && b.Str? && c.Str? {
      CompareZeroMeansEqual(Fold(a.s), Fold(b.s));
      CompareZeroMeansEqual(Fold(b.s), Fold(c.s));
      if CompareFolded(a.s, b.s) < 0 && CompareFolded(b.s, c.s) < 0 {
        CompareTransitive(Fold(a.s), Fold(b.s), Fold(c.s));
      }
    }
  }

  predicate Tied(m1: Member, m2: Member) {
    !Before(m1, m2) && !Before(m2, m1)
  }

  /** The comparison is a strict weak order, whatever the ranks. */
  lemma StrictWeakOrder(m1: Member, m2: Member, m3: Member)
    ensures !Before(m1, m1)
    ensures Before(m1, m2) ==> !Before(m2, m1)
    ensures Before(m1, m2) && Before(m2, m3) ==> Before(m1, m3)
    ensures !Before(m2, m1) && !Before(m3, m2) ==> !Before(m3, m1)
  {
    hide Before;
    hide RankSign;
    hide Compare;
    BySigns(m1, m1);
    BySigns(m1, m2);
    BySigns(m2, m3);
    BySigns(m1, m3);
    Chain(m1, m2, m3);
    Chain(m3, m2, m1);
    CompareZeroMeansEqual(m1.key, m1.key);
  }

  lemma BySigns(m1: Member, m2: Member)
    ensures var s, k := RankSign(m1.rank, m2.rank), Compare(m1.key, m2.key);
            && (Before(m1, m2) <==> s < 0 || (s == 0 && Keyed(m1.rank) && k < 0))
            && (Before(m2, m1) <==> s > 0 || (s == 0 && Keyed(m2.rank) && k > 0))
            && (s == 0 ==> Keyed(m1.rank) == Keyed(m2.rank))
            && RankSign(m2.rank, m1.rank) == -s && Compare(m2.key, m1.key) == -k
  {
    hide Compare;
    hide CompareFolded;
    hide SignOf;
    BeforeBySign(m1, m2);
    BeforeBySign(m2, m1);
    RankSignFlips(m1.rank, m2.rank);
    CompareFlips(m1.key, m2.key);
  }

  lemma Chain(m1: Member, m2: Member, m3: Member)
    ensures RankSign(m1.rank, m2.rank) <= 0 && RankSign(m2.rank, m3.rank) <= 0 ==>
      && RankSign(m1.rank, m3.rank) <= 0
      && (RankSign(m1.rank, m2.rank) < 0 || RankSign(m2.rank, m3.rank) < 0 ==> RankSign(m1.rank, m3.rank) < 0)
    ensures Compare(m1.key, m2.key) <= 0 && Compare(m2.key, m3.key) <= 0 ==>
      && Compare(m1.key, m3.key) <= 0
      && (Compare(m1.key, m2.key) < 0 || Compare(m2.key, m3.key) < 0 ==> Compare(m1.key, m3.key) < 0)
  {
    hide RankSign;
    hide Compare;
    if RankSign(m1.rank, m2.rank) <= 0 && RankSign(m2.rank, m3.rank) <= 0 {
      RankSignTransitive(m1.rank, m2.rank, m3.rank);
    }
    CompareZeroMeansEqual(m1.key, m2.key);
    CompareZeroMeansEqual(m2.key, m3.key);
    if Compare(m1.key, m2.key) < 0 && Compare(m2.key, m3.key) < 0 {
      CompareTransitive(m1.key, m2.key, m3.key);
    }
  }

  /** Members tie exactly when their ranks compare equal and, for boolean, number and string ranks,
      their keys are the same. So on such ranks the order is total; undefined, error and ClassAd
      ranks tie whatever the keys. */
  lemma TiedMeans(m1: Member, m2: Member)
    ensures Tied(m1, m2) <==> RankSign(m1.rank, m2.rank) == 0 && (Keyed(m1.rank) ==> m1.key == m2.key)
  {
    hide Before;
    hide RankSign;
    BySigns(m1, m2);
    CompareZeroMeansEqual(m1.key, m2.key);
  }

  // ------------------------------------------------------ the ordered members

  ghost predicate Sorted(ms: seq<Member>) {
    forall i, j :: 0 <= i < j < |ms| ==> !Before(ms[j], ms[i])
  }

  ghost predicate UniqueKeys(ms: seq<Member>) {
    forall i, j :: 0 <= i < j < |ms| ==> ms[i].key != ms[j].key
  }

  /** The ordered multiset with one more member, placed after the members it ties with. */
  function Placed(ms: seq<Member>, m: Member): (r: seq<Member>)
    ensures forall x :: x in r <==> x == m || x in ms
    ensures |r| == |ms| + 1
  {
    if ms == [] then [m]
    else if Before(m, ms[0]) then
      assert forall x :: x in [m] + ms <==> x == m || x in ms;
      [m] + ms
    else
      assert ms == [ms[0]] + ms[1..];
      [ms[0]] + Placed(ms[1..], m)
  }

  /** The ordered multiset without the members that tie with `m`. */
  function Expelled(ms: seq<Member>, m: Member): (r: seq<Member>)
    ensures forall x :: x in r <==> x in ms && !Tied(x, m)
  {
    if ms == [] then []
    else
      assert ms == [ms[0]] + ms[1..];
      if Tied(ms[0], m) then Expelled(ms[1..], m) else [ms[0]] + Expelled(ms[1..], m)
  }

  /** The ordered multiset without the one member an index entry points to. */
  function Without(ms: seq<Member>, m: Member): (r: seq<Member>) {
    if ms == [] then []
    else if ms[0] == m then ms[1..]
    else [ms[0]] + Without(ms[1..], m)
  }

  lemma {:induction false} PlacedSorted(ms: seq<Member>, m: Member)
    requires Sorted(ms)
    ensures Sorted(Placed(ms, m))
  {
    hide Before;
    if ms != [] {
      if Before(m, ms[0]) {
        forall j | 0 <= j < |ms| ensures !Before(ms[j], m) {
          StrictWeakOrder(m, ms[0], ms[j]);
          StrictWeakOrder(m, ms[j], m);
        }
      } else {
        PlacedSorted(ms[1..], m);
        var rest := Placed(ms[1..], m);
        forall j | 0 <= j < |rest| ensures !Before(rest[j], ms[0]) {
          assert rest[j] in rest;
          if rest[j] != m {
            var i :| 0 <= i < |ms[1..]| && ms[1..][i] == rest[j];
            assert ms[i + 1] == rest[j];
          }
        }
      }
    }
  }

  lemma {:induction false} PlacedUnique(ms: seq<Member>, m: Member)
    requires UniqueKeys(ms) && forall x :: x in ms ==> x.key != m.key
    ensures UniqueKeys(Placed(ms, m))
  {
    hide Before;
    if ms != [] && !Before(m, ms[0]) {
      PlacedUnique(ms[1..], m);
      var rest := Placed(ms[1..], m);
      forall j | 0 <= j < |rest| ensures rest[j].key != ms[0].key {
        assert rest[j] in rest;
        if rest[j] != m {
          var i :| 0 <= i < |ms[1..]| && ms[1..][i] == rest[j];
          assert ms[i + 1] == rest[j];
        }
      }
    }
  }

  lemma {:induction false} ExpelledKeeps(ms: seq<Member>, m: Member)
    ensures Sorted(ms) ==> Sorted(Expelled(ms, m))
    ensures UniqueKeys(ms) ==> UniqueKeys(Expelled(ms, m))
  {
    hide Before;
    if ms != [] {
      ExpelledKeeps(ms[1..], m);
      var rest := Expelled(ms[1..], m);
      forall j | 0 <= j < |rest| ensures exists i :: 0 < i < |ms| && ms[i] == rest[j] {
        assert rest[j] in rest;
        var i :| 0 <= i < |ms[1..]| && ms[1..][i] == rest[j];
        assert ms[i + 1] == rest[j];
      }
    }
  }

  lemma {:induction false} WithoutKeeps(ms: seq<Member>, m: Member)
    requires UniqueKeys(ms)
    ensures Sorted(ms) ==> Sorted(Without(ms, m))
    ensures UniqueKeys(Without(ms, m))
    ensures forall x :: x in Without(ms, m) <==> x in ms && x != m
  {
    hide Before;
    if ms != [] {
      assert ms == [ms[0]] + ms[1..];
      if ms[0] != m {
        WithoutKeeps(ms[1..], m);
        var rest := Without(ms[1..], m);
        forall j | 0 <= j < |rest| ensures rest[j] in ms[1..] {
          assert rest[j] in rest;
        }
        SmallerTail(ms, rest);
      } else {
        forall x | x in ms[1..] ensures x != m {
          var i :| 0 <= i < |ms[1..]| && ms[1..][i] == x;
          assert ms[i + 1] == x;
        }
      }
    }
  }

  /** A first member stays first before fewer of those that followed it. */
  lemma SmallerTail(ms: seq<Member>, rest: seq<Member>)
    requires ms != [] && forall j :: 0 <= j < |rest| ==> rest[j] in ms[1..]
    ensures Sorted(ms) && Sorted(rest) ==> Sorted([ms[0]] + rest)
    ensures UniqueKeys(ms) && UniqueKeys(rest) ==> UniqueKeys([ms[0]] + rest)
  {
    hide Before;
    forall j | 0 <= j < |rest| ensures exists i :: 0 < i < |ms| && ms[i] == rest[j] {
      var i :| 0 <= i < |ms[1..]| && ms[1..][i] == rest[j];
      assert ms[i + 1] == rest[j];
    }
  }
}
