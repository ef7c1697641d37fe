/** Queries over a view. */
module Queries {
  import opened Text
  import opened Expressions
  import opened OperatorMeanings
  import opened Members
  import opened Rosters
  import opened Views
  import opened ViewTheorems
  import opened RankOrder

  /** A query's constraint: an expression the ads must satisfy, or a whole ad, which an ad may also
      have to be satisfied by. */
  datatype Constraint =
    | Everything
    | Expression(accepts: Ad -> bool)
    | Whole(accepts: Ad -> bool, acceptedBy: Ad -> bool)

  predicate Satisfies(c: Constraint, twoWay: bool, ad: Ad) {
    match c
    case Everything => true
    case Expression(accepts) => accepts(ad)
    case Whole(accepts, acceptedBy) => accepts(ad) && (twoWay ==> acceptedBy(ad))
  }

  /** An ad missing from the table satisfies nothing. */
  predicate Keeps(c: Constraint, twoWay: bool, table: map<Key, Ad>, key: Key) {
    c.Everything? || (key in table && Satisfies(c, twoWay, table[key]))
  }

  /** The members a query keeps. */
  function Chosen(c: Constraint, twoWay: bool, table: map<Key, Ad>, ms: seq<Member>): (r: seq<Member>) {
    if ms == [] then []
    else if Keeps(c, twoWay, table, ms[0].key) then [ms[0]] + Chosen(c, twoWay, table, ms[1..])
    else Chosen(c, twoWay, table, ms[1..])
  }

  lemma {:induction false} ChosenMember(c: Constraint, twoWay: bool, table: map<Key, Ad>, ms: seq<Member>, m: Member)
    ensures m in Chosen(c, twoWay, table, ms) <==> m in ms && Keeps(c, twoWay, table, m.key)
  {
    hide Keeps;
    if ms != [] {
      ChosenMember(c, twoWay, table, ms[1..], m);
      assert ms == [ms[0]] + ms[1..];
    }
  }

  function Keys(ms: seq<Member>): (r: seq<Key>)
    ensures |r| == |ms| && forall i :: 0 <= i < |ms| ==> r[i] == ms[i].key
  {
    if ms == [] then [] else [ms[0].key] + Keys(ms[1..])
  }

  lemma {:induction false} ChosenKeepsOrder(c: Constraint, twoWay: bool, table: map<Key, Ad>, ms: seq<Member>)
    ensures Sorted(ms) ==> Sorted(Chosen(c, twoWay, table, ms))
    ensures UniqueKeys(ms) ==> UniqueKeys(Chosen(c, twoWay, table, ms))
  {
    hide Before;
    hide Keeps;
    if ms != [] {
      ChosenKeepsOrder(c, twoWay, table, ms[1..]);
      var rest := Chosen(c, twoWay, table, ms[1..]);
      forall j | 0 <= j < |rest| ensures exists i :: 0 < i < |ms| && ms[i] == rest[j] {
        ChosenMember(c, twoWay, table, ms[1..], rest[j]);
        var i :| 0 <= i < |ms[1..]| && ms[1..][i] == rest[j];
        assert ms[i + 1] == rest[j];
      }
    }
  }

  /** Walks the members in order and collects the keys of those that satisfy the constraint. */
  method Query(c: Constraint, twoWay: bool, table: map<Key, Ad>, viewMembers: seq<Member>) returns (keys: seq<Key>)
    ensures keys == Keys(Chosen(c, twoWay, table, viewMembers))
  {
    hide Chosen;
    hide Keys;
    keys := [];
    var vmi := 0;
    assert viewMembers[0..] == viewMembers;
    while vmi < |viewMembers|
      invariant vmi <= |viewMembers|
      invariant Keys(Chosen(c, twoWay, table, viewMembers)) == keys + Keys(Chosen(c, twoWay, table, viewMembers[vmi..]))
    {
      var key := viewMembers[vmi].key;
      ChosenStep(c, twoWay, table, viewMembers, vmi, keys);
      if c.Everything? {
        keys := keys + [key];
      } else if key in table && c.accepts(table[key]) {
        if !c.Whole? || !twoWay || c.acceptedBy(table[key]) {
          keys := keys + [key];
        }
      }
      vmi := vmi + 1;
    }
    ChosenNone(c, twoWay, table, viewMembers);
  }

  lemma ChosenStep(c: Constraint, twoWay: bool, table: map<Key, Ad>, ms: seq<Member>, vmi: nat, keys: seq<Key>)
    requires vmi < |ms|
    ensures keys + Keys(Chosen(c, twoWay, table, ms[vmi..]))
         == (if Keeps(c, twoWay, table, ms[vmi].key) then keys + [ms[vmi].key] else keys)
            + Keys(Chosen(c, twoWay, table, ms[vmi + 1..]))
  {
    hide Keeps;
    hide Before;
    var rest := Chosen(c, twoWay, table, ms[vmi + 1..]);
    assert Chosen(c, twoWay, table, ms[vmi..])
        == if Keeps(c, twoWay, table, ms[vmi].key) then [ms[vmi]] + rest else rest by {
      assert ms[vmi..][0] == ms[vmi] && ms[vmi..][1..] == ms[vmi + 1..];
    }
    hide Chosen;
    KeysOfMore(ms[vmi], rest, keys);
  }

  lemma KeysOfMore(m: Member, rest: seq<Member>, keys: seq<Key>)
    ensures keys + Keys([m] + rest) == (keys + [m.key]) + Keys(rest)
  {
    assert ([m] + rest)[1..] == rest;
  }

  lemma ChosenNone(c: Constraint, twoWay: bool, table: map<Key, Ad>, ms: seq<Member>)
    ensures Keys(Chosen(c, twoWay, table, ms[|ms|..])) == []
  {
  }

  /** The view at the end of a path is current over part of the content. */
  lemma {:induction false} CurrentBelow(sem: Semantics, v: View, content: map<Key, Ad>, path: seq<nat>)
    returns (part: map<Key, Ad>)
    requires Current(sem, v, content) && At(v, path).Some?
    ensures Current(sem, At(v, path).value, part)
    ensures forall k :: k in part ==> k in content && part[k] == content[k]
    decreases |path|
  {
    hide RosterCurrent;
    hide PartsCurrent;
    if path == [] {
      part := content;
    } else {
      var members := Selected(sem, v.info, content);
      CurrentSub(sem, v.subs, members, path[0]);
      part := CurrentBelow(sem, v.subs[path[0]], members, path[1..]);
    }
  }

  /** The members of a current view carry the ranks of their ads, up to the type of a number. */
  lemma RanksCarried(sem: Semantics, w: View, part: map<Key, Ad>, m: Member)
    requires Current(sem, w, part) && m in w.roster.members
    ensures m.key in part && Carries(m.rank, sem.rank(w.info, part[m.key]))
  {
    hide PartsCurrent;
    hide Carries;
    var members := Selected(sem, w.info, part);
    IndexPointsAt(w.roster, m);
    assert m.key in members;
    assert Carries(w.roster.index[m.key].rank, sem.rank(w.info, members[m.key]));
  }

  /** What is lower or level stays so when a number is carried as another type. */
  lemma CarriedOrder(a: Value, b: Value, a': Value, b': Value)
    requires Carries(a, a') && Carries(b, b')
    ensures Lower(a, b) <==> Lower(a', b')
    ensures Level(a, b) <==> Level(a', b')
  {
    hide InFront;
  }

  /** The members a query returns are in the order of their ads' ranks. */
  lemma AnswerOrder(sem: Semantics, v: View, table: map<Key, Ad>, path: seq<nat>, answer: seq<Member>)
    requires Current(sem, v, table) && At(v, path).Some? && Sorted(answer) && UniqueKeys(answer)
    requires forall m :: m in answer ==> m in At(v, path).value.roster.members
    ensures forall m :: m in answer ==> m.key in table
    ensures var info := At(v, path).value.info;
            forall i, j :: 0 <= i < j < |answer| ==>
              var a, b := sem.rank(info, table[answer[i].key]), sem.rank(info, table[answer[j].key]);
              !Lower(b, a) && (Level(a, b) ==> InFront(answer[i].key, answer[j].key))
  {
    hide Before;
    hide Current;
    hide Lower;
    hide Level;
    hide Carries;
    hide InFront;
    var w := At(v, path).value;
    var part := CurrentBelow(sem, v, table, path);
    forall m | m in answer ensures m.key in table && Carries(m.rank, sem.rank(w.info, table[m.key])) {
      RanksCarried(sem, w, part, m);
    }
    forall i, j | 0 <= i < j < |answer|
      ensures var a, b := sem.rank(w.info, table[answer[i].key]), sem.rank(w.info, table[answer[j].key]);
              !Lower(b, a) && (Level(a, b) ==> InFront(answer[i].key, answer[j].key))
    {
      var a, b := sem.rank(w.info, table[answer[i].key]), sem.rank(w.info, table[answer[j].key]);
      assert answer[i] in answer && answer[j] in answer;
      BeforeMeans(answer[j], answer[i]);
      CarriedOrder(answer[j].rank, answer[i].rank, b, a);
      LevelBothWays(a, b);
      LexicographicOrder(answer[i].key, answer[j].key);
    }
  }

  lemma LevelBothWays(a: Value, b: Value)
    ensures Level(a, b) <==> Level(b, a)
  {
  }

  /** A query on any view of a tree that is up to date returns exactly the keys whose ads satisfy every
      constraint from the root down to the view and the query: its own constraint, and, for a query by a
      whole ad that asks both ways, also the ad's. It returns each once, lower ranks first, and level ones
      by key. */
  lemma QueryAnswers(sem: Semantics, v: View, table: map<Key, Ad>, path: seq<nat>, c: Constraint, twoWay: bool)
    requires Current(sem, v, table) && At(v, path).Some?
    ensures var w := At(v, path).value;
            var answer := Chosen(c, twoWay, table, w.roster.members);
            && UniqueKeys(answer)
            && (forall m :: m in answer ==> m.key in w.roster.index && w.roster.index[m.key] == m)
            && (forall k :: k in Keys(answer) <==>
                  && k in table && Passes(sem, v, path, table[k])
                  && (c.Everything? || c.accepts(table[k]))
                  && (c.Whole? && twoWay ==> c.acceptedBy(table[k])))
            && (forall m :: m in answer ==> m.key in table)
            && forall i, j :: 0 <= i < j < |answer| ==>
                 var a, b := sem.rank(w.info, table[answer[i].key]), sem.rank(w.info, table[answer[j].key]);
                 !Lower(b, a) && (Level(a, b) ==> InFront(answer[i].key, answer[j].key))
  {
    hide Chosen;
    hide Keys;
    hide Passes;
    hide Current;
    hide Lower;
    hide Level;
    hide InFront;
    hide Before;
    var w := At(v, path).value;
    var answer := Chosen(c, twoWay, table, w.roster.members);
    ChosenKeepsOrder(c, twoWay, table, w.roster.members);
    HoldsExactlyTheMatching(sem, v, table, path, "");
    forall m | m in answer
      ensures m in w.roster.members && m.key in w.roster.index && w.roster.index[m.key] == m
    {
      ChosenMember(c, twoWay, table, w.roster.members, m);
      IndexPointsAt(w.roster, m);
    }
    AnswerOrder(sem, v, table, path, answer);
    forall k ensures k in Keys(answer) <==>
      k in table && Passes(sem, v, path, table[k]) && Satisfies(c, twoWay, table[k])
    {
      HoldsExactlyTheMatching(sem, v, table, path, k);
      if k in w.roster.index && Satisfies(c, twoWay, table[k]) {
        ChosenMember(c, twoWay, table, w.roster.members, w.roster.index[k]);
        var i :| 0 <= i < |answer| && answer[i] == w.roster.index[k];
        assert Keys(answer)[i] == k;
      }
      if k in Keys(answer) {
        var i :| 0 <= i < |answer| && Keys(answer)[i] == k;
        ChosenMember(c, twoWay, table, w.roster.members, answer[i]);
      }
    }
  }
}
