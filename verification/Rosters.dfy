/** A view's ordered members together with its index, kept in step by every operation. */
module Rosters {
  import opened Text
  import opened Expressions
  import opened Operators
  import opened Members

  /** `index` maps a key to the member its iterator points to. */
  datatype Roster = Roster(members: seq<Member>, index: map<Key, Member>)

  const NOBODY := Roster([], map[])

  /** The members and the index hold the same keys, once each. */
  ghost predicate InSync(r: Roster) {
    && UniqueKeys(r.members)
    && (forall k :: k in r.index ==> r.index[k].key == k && r.index[k] in r.members)
    && (forall m :: m in r.members ==> m.key in r.index)
  }

  ghost predicate Sound(r: Roster) {
    InSync(r) && Sorted(r.members)
  }

  function Enrol(r: Roster, key: Key, rank: Value): (r': Roster) {
    var m := Member(rank, key);
    Roster(Placed(r.members, m), r.index[key := m])
  }

  function Dismiss(r: Roster, key: Key): (r': Roster) {
    if key in r.index then Roster(Without(r.members, r.index[key]), r.index - {key}) else r
  }

  /** The numeric promotions that a comparison leaves behind in its operands. */
  function Coerced(v1: Value, v2: Value): (r: (Value, Value)) {
    if !IsNumeric(v1) || !IsNumeric(v2) then (v1, v2)
    else
      var a, b := Promote(v1), Promote(v2);
      if a.Int? && b.Real? then (Real(a.i as real), b)
      else if a.Real? && b.Int? then (a, Real(b.i as real))
      else (a, b)
  }

  /** A member's rank is replaced unless it compares identical to the new one. Everything that ties
      with the old rank and the key, as the comparison left them, is taken out first. */
  function Rerank(r: Roster, key: Key, rank: Value): (r': Roster)
    requires key in r.index
  {
    var was := r.index[key].rank;
    if Operate(Is, rank, was) == Bool(true) then r
    else
      var (rank', was') := Coerced(rank, was);
      Enrol(r.(members := Expelled(r.members, Member(was', key))), key, rank')
  }

  /** Ranks that are the same, up to numeric type. */
  predicate EqualRank(a: Value, b: Value) {
    a == b || Operate(Is, a, b) == Bool(true)
  }

  lemma IndexPointsAt(r: Roster, m: Member)
    requires InSync(r) && m in r.members
    ensures r.index[m.key] == m
  {
    var i :| 0 <= i < |r.members| && r.members[i] == m;
    var j :| 0 <= j < |r.members| && r.members[j] == r.index[m.key];
  }

  lemma EnrolSound(r: Roster, key: Key, rank: Value)
    requires Sound(r) && key !in r.index
    ensures Sound(Enrol(r, key, rank))
  {
    var m := Member(rank, key);
    PlacedSorted(r.members, m);
    PlacedUnique(r.members, m);
  }

  lemma DismissSound(r: Roster, key: Key)
    requires Sound(r)
    ensures Sound(Dismiss(r, key))
  {
    if key in r.index {
      var m := r.index[key];
      WithoutKeeps(r.members, m);
      var r' := Dismiss(r, key);
      forall x | x in r'.members ensures x.key in r'.index {
        IndexPointsAt(r, x);
      }
    }
  }

  /** When replacing the rank of `key` by `rank` takes out just the old member of `key`. Booleans
      replaced by numbers are missed, because the comparison has already turned them into
      integers; undefined, error and ClassAd ranks take others out with them. */
  ghost predicate RankSafe(r: Roster, key: Key, rank: Value)
    requires key in r.index
  {
    var was := r.index[key].rank;
    || Operate(Is, rank, was) == Bool(true)
    || (Keyed(was) && !(was.Bool? && IsNumeric(rank)))
    || (!Keyed(was) && forall m :: m in r.members && m.key != key ==> Class(m.rank) != Class(was))
  }

  /** What the replacement takes out. */
  lemma TiesWithOld(r: Roster, key: Key, rank: Value, m: Member)
    requires InSync(r) && key in r.index && m in r.members
    ensures var was := r.index[key].rank;
            Tied(m, Member(Coerced(rank, was).1, key)) <==>
            if Keyed(was) then m.key == key && !(was.Bool? && IsNumeric(rank)) else Class(m.rank) == Class(was)
  {
    hide Before;
    var was := r.index[key].rank;
    var was' := Coerced(rank, was).1;
    TiedMeans(m, Member(was', key));
    if m.key == key {
      IndexPointsAt(r, m);
      TiedMeans(m, Member(was, key));
      SelfTied(was);
      CoercedSign(rank, was);
    }
  }

  lemma SelfTied(v: Value)
    ensures RankSign(v, v) == 0
  {
    RankSignFlips(v, v);
  }

  /** A promoted rank compares equal to the rank it came from, unless that was a boolean. */
  lemma CoercedSign(rank: Value, was: Value)
    ensures RankSign(was, Coerced(rank, was).1) == 0 <==> !(was.Bool? && IsNumeric(rank))
  {
    SelfTied(was);
  }

  /** What is left when the old rank and the key, as the comparison left them, are taken out. */
  lemma LeftBehind(r: Roster, key: Key, rank: Value, m: Member)
    requires InSync(r) && key in r.index && m in r.members && Operate(Is, rank, r.index[key].rank) != Bool(true)
    ensures var was := r.index[key].rank;
            var rest := Expelled(r.members, Member(Coerced(rank, was).1, key));
            && (RankSafe(r, key, rank) ==> (m in rest <==> m.key != key))
            && (Keyed(was) && !RankSafe(r, key, rank) ==> m in rest)
            && (!Keyed(was) ==> (m in rest <==> Class(m.rank) != Class(was)))
  {
    hide Before;
    hide Operate;
    hide Coerced;
    TiesWithOld(r, key, rank, m);
    if m.key == key {
      IndexPointsAt(r, m);
    }
  }

  /** Replacing a rank keeps members and index in step exactly when it is safe; then the members
      stay sorted and only this key's rank changes. */
  lemma RerankSound(r: Roster, key: Key, rank: Value)
    requires Sound(r) && key in r.index
    ensures InSync(Rerank(r, key, rank)) <==> RankSafe(r, key, rank)
    ensures Sorted(Rerank(r, key, rank).members)
    ensures Rerank(r, key, rank).index.Keys == r.index.Keys
    ensures forall k :: k in r.index && k != key ==> Rerank(r, key, rank).index[k] == r.index[k]
    ensures EqualRank(Rerank(r, key, rank).index[key].rank, rank)
  {
    hide Before;
    hide Operate;
    hide Coerced;
    hide InSync;
    var was := r.index[key].rank;
    if Operate(Is, rank, was) == Bool(true) {
      IsSymmetric(rank, was);
    } else {
      var (rank', was') := Coerced(rank, was);
      var rest := Expelled(r.members, Member(was', key));
      ExpelledKeeps(r.members, Member(was', key));
      PlacedSorted(rest, Member(rank', key));
      CoercedEqual(rank, was);
      RerankInStep(r, key, rank);
    }
  }

  lemma RerankInStep(r: Roster, key: Key, rank: Value)
    requires InSync(r) && key in r.index && Operate(Is, rank, r.index[key].rank) != Bool(true)
    ensures InSync(Rerank(r, key, rank)) <==> RankSafe(r, key, rank)
  {
    hide Before;
    hide Operate;
    hide Coerced;
    var was := r.index[key].rank;
    var (rank', was') := Coerced(rank, was);
    var rest := Expelled(r.members, Member(was', key));
    ExpelledKeeps(r.members, Member(was', key));
    if RankSafe(r, key, rank) {
      forall m ensures m in rest <==> m in r.members && m.key != key {
        if m in r.members {
          LeftBehind(r, key, rank, m);
        }
      }
      RerankInSync(r, key, rank', rest);
    } else if Keyed(was) {
      LeftBehind(r, key, rank, r.index[key]);
      PromotedBoolean(rank, was);
      RerankDoubles(r, key, rank', rest);
    } else {
      var m :| m in r.members && m.key != key && Class(m.rank) == Class(was);
      LeftBehind(r, key, rank, m);
      RerankLoses(r, key, rank', rest, m);
    }
  }

  lemma PromotedBoolean(rank: Value, was: Value)
    requires was.Bool? && IsNumeric(rank)
    ensures !Coerced(rank, was).0.Bool?
  {
  }

  lemma IsSymmetric(a: Value, b: Value)
    requires Operate(Is, a, b) == Bool(true)
    ensures Operate(Is, b, a) == Bool(true)
  {
    if a.Str? && b.Str? {
      CompareFlips(a.s, b.s);
    }
  }

  lemma CoercedEqual(rank: Value, was: Value)
    ensures EqualRank(Coerced(rank, was).0, rank)
  {
  }

  lemma RerankInSync(r: Roster, key: Key, rank: Value, rest: seq<Member>)
    requires InSync(r) && key in r.index && UniqueKeys(rest)
    requires forall m :: m in rest <==> m in r.members && m.key != key
    ensures InSync(Enrol(r.(members := rest), key, rank))
  {
    PlacedUnique(rest, Member(rank, key));
  }

  /** The old member of the key was left behind. */
  lemma RerankDoubles(r: Roster, key: Key, rank: Value, rest: seq<Member>)
    requires InSync(r) && key in r.index && r.index[key] in rest && rank != r.index[key].rank
    ensures !InSync(Enrol(r.(members := rest), key, rank))
  {
    var ms := Placed(rest, Member(rank, key));
    var i :| 0 <= i < |ms| && ms[i] == r.index[key];
    assert Member(rank, key) in ms;
    var j :| 0 <= j < |ms| && ms[j] == Member(rank, key);
  }

  /** The member of another key went with it. */
  lemma RerankLoses(r: Roster, key: Key, rank: Value, rest: seq<Member>, m: Member)
    requires InSync(r) && key in r.index && m in r.members && m !in rest && m.key != key
    ensures !InSync(Enrol(r.(members := rest), key, rank))
  {
    IndexPointsAt(r, m);
  }

  /** A boolean rank that changes leaves its old member behind. */
  lemma BooleanRankCounterexample()
    ensures var r := Roster([Member(Bool(false), "a")], map["a" := Member(Bool(false), "a")]);
            Sound(r) && !InSync(Rerank(r, "a", Bool(true)))
  {
    hide Before;
    hide Rerank;
    var r := Roster([Member(Bool(false), "a")], map["a" := Member(Bool(false), "a")]);
    assert r.members[0].key == "a";
    RerankSound(r, "a", Bool(true));
  }

  /** An undefined rank that becomes defined takes every other undefined member with it. */
  lemma UndefinedRankCounterexample()
    ensures var r := Roster([Member(Undefined, "a"), Member(Undefined, "b")],
                            map["a" := Member(Undefined, "a"), "b" := Member(Undefined, "b")]);
            Sound(r) && !InSync(Rerank(r, "a", Int(1)))
  {
    hide Before;
    hide Rerank;
    var a, b := Member(Undefined, "a"), Member(Undefined, "b");
    var r := Roster([a, b], map["a" := a, "b" := b]);
    TiedMeans(a, b);
    assert "a"[0] != "b"[0];
    assert b in r.members;
    RerankSound(r, "a", Int(1));
  }

  // ------------------------------------------------- numbers and strings

  predicate Tame(v: Value) {
    v.Int? || v.Real? || v.Str?
  }

  /** Two ranks that one ad may have before and after a change: numbers or strings, or else the
      same. */
  predicate SteadyRanks(x: Value, y: Value) {
    (Tame(x) && Tame(y)) || (x == y && !x.AdValue?)
  }

  /** The rank a member carries, against the rank its ad has. */
  predicate Carries(stored: Value, rank: Value) {
    || stored == rank
    || (IsNumber(stored) && IsNumber(rank) && ToReal(stored) == ToReal(rank))
  }

  lemma RerankSteady(r: Roster, key: Key, was: Value, rank: Value)
    requires Sound(r) && key in r.index && Carries(r.index[key].rank, was) && SteadyRanks(was, rank)
    ensures Sound(Rerank(r, key, rank))
    ensures Carries(Rerank(r, key, rank).index[key].rank, rank)
    ensures Rerank(r, key, rank).index.Keys == r.index.Keys
    ensures forall k :: k in r.index && k != key ==> Rerank(r, key, rank).index[k] == r.index[k]
  {
    RerankSound(r, key, rank);
    RankStaysCarried(r.index[key].rank, was, rank);
  }

  lemma RankStaysCarried(stored: Value, was: Value, rank: Value)
    requires Carries(stored, was) && SteadyRanks(was, rank)
    ensures Operate(Is, rank, stored) == Bool(true) ==> Carries(stored, rank)
    ensures Operate(Is, rank, stored) != Bool(true) ==> Tame(stored) && Carries(Coerced(rank, stored).0, rank)
  {
    if rank.Str? && stored.Str? {
      CompareZeroMeansEqual(rank.s, stored.s);
    }
  }
}
