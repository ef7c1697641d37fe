/** What a view tree shows of one key. Operations on other keys leave it alone, whether or not they
    succeed, so that each key can be followed on its own. */
module Traces {
  import opened Expressions
  import opened Members
  import opened Rosters
  import opened Views
  import opened ViewTheorems

  /** Whether a view holds the key, in which of its partitions, and the same below. */
  datatype Trace = Trace(info: Ad, member: bool, parts: set<string>, below: seq<Trace>)

  ghost function TraceOf(v: View, k: Key): (t: Trace)
    decreases v
  {
    Trace(v.info, k in v.roster.index, Holding(v.parts, k), TracesOf(v.subs, k))
  }

  ghost function TracesOf(vs: seq<View>, k: Key): (ts: seq<Trace>)
    decreases vs
  {
    if vs == [] then [] else [TraceOf(vs[0], k)] + TracesOf(vs[1..], k)
  }

  ghost function Holding(parts: map<string, Roster>, k: Key): (r: set<string>) {
    set s | s in parts && k in parts[s].index
  }

  /** The trace a key has to leave if the tree is told of this ad, or of none: a view that the ad
      reaches and that selects it holds the key, in the partition of its signature alone. */
  ghost predicate Right(sem: Semantics, t: Trace, held: Option<Ad>)
    decreases t
  {
    var member := held.Some? && sem.matches(t.info, held.value);
    && t.member == member
    && t.parts == (if member then Only(sem.signature(t.info, held.value)) else {})
    && RightAll(sem, t.below, if member then held else None)
  }

  ghost predicate RightAll(sem: Semantics, ts: seq<Trace>, held: Option<Ad>)
    decreases ts
  {
    ts != [] ==> Right(sem, ts[0], held) && RightAll(sem, ts[1..], held)
  }

  function Only(signature: string): (r: set<string>) {
    if signature == "" then {} else {signature}
  }

  // ------------------------------------------------------------ other keys

  lemma {:induction false} InsertedAside(sem: Semantics, v: View, registry: set<string>, key: Key, ad: Ad, k: Key)
    requires k != key
    ensures TraceOf(Inserted(sem, v, registry, key, ad).view, k) == TraceOf(v, k)
    decreases v
  {
    hide Filed;
    hide Placed;
    if sem.matches(v.info, ad) {
      InsertedAllAside(sem, v.subs, registry, key, ad, k);
      var below := InsertedAll(sem, v.subs, registry, key, ad);
      FiledAside(v.(subs := below.views), below.registry, key, sem.signature(v.info, ad), k);
    }
  }

  lemma {:induction false} InsertedAllAside(
    sem: Semantics, vs: seq<View>, registry: set<string>, key: Key, ad: Ad, k: Key)
    requires k != key
    ensures TracesOf(InsertedAll(sem, vs, registry, key, ad).views, k) == TracesOf(vs, k)
    decreases vs
  {
    hide Inserted;
    hide TraceOf;
    if vs != [] {
      InsertedAside(sem, vs[0], registry, key, ad, k);
      InsertedAllAside(sem, vs[1..], Inserted(sem, vs[0], registry, key, ad).registry, key, ad, k);
    }
  }

  lemma FiledAside(v: View, registry: set<string>, key: Key, signature: string, k: Key)
    requires k != key
    ensures var r := Filed(v, registry, key, signature);
            r.view == v.(parts := r.view.parts) && Holding(r.view.parts, k) == Holding(v.parts, k)
  {
    hide Placed;
  }

  lemma UnfiledAside(v: View, key: Key, signature: string, k: Key)
    requires k != key
    ensures var r := Unfiled(v, key, signature);
            r.Some? ==> r.value == v.(parts := r.value.parts) && Holding(r.value.parts, k) == Holding(v.parts, k)
  {
    hide Without;
  }

  lemma {:induction false} DeletedAside(sem: Semantics, v: View, key: Key, ad: Ad, k: Key)
    requires k != key
    ensures var r := Deleted(sem, v, key, ad); r.Some? ==> TraceOf(r.value, k) == TraceOf(v, k)
    decreases v
  {
    hide Unfiled;
    hide Without;
    if key in v.roster.index {
      DeletedAllAside(sem, v.subs, key, ad, k);
      var subs := DeletedAll(sem, v.subs, key, ad);
      if subs.Some? {
        var v1 := v.(subs := subs.value, roster := Dismiss(v.roster, key));
        UnfiledAside(v1, key, sem.signature(v.info, ad), k);
      }
    }
  }

  lemma {:induction false} DeletedAllAside(sem: Semantics, vs: seq<View>, key: Key, ad: Ad, k: Key)
    requires k != key
    ensures var r := DeletedAll(sem, vs, key, ad); r.Some? ==> TracesOf(r.value, k) == TracesOf(vs, k)
    decreases vs
  {
    hide Deleted;
    hide TraceOf;
    if vs != [] {
      DeletedAside(sem, vs[0], key, ad, k);
      DeletedAllAside(sem, vs[1..], key, ad, k);
    }
  }

  lemma {:induction false} PreModifiedTrace(sem: Semantics, v: View, ad: Ad, k: Key)
    ensures TraceOf(PreModified(sem, v, ad), k) == TraceOf(v, k)
    decreases v
  {
    PreModifiedAllTrace(sem, v.subs, ad, k);
  }

  lemma {:induction false} PreModifiedAllTrace(sem: Semantics, vs: seq<View>, ad: Ad, k: Key)
    ensures TracesOf(PreModifiedAll(sem, vs, ad), k) == TracesOf(vs, k)
    decreases vs
  {
    hide PreModified;
    hide TraceOf;
    if vs != [] {
      PreModifiedTrace(sem, vs[0], ad, k);
      PreModifiedAllTrace(sem, vs[1..], ad, k);
    }
  }

  lemma {:induction false} ModifiedAside(sem: Semantics, v: View, registry: set<string>, key: Key, ad: Ad, k: Key)
    requires k != key
    ensures TraceOf(Modified(sem, v, registry, key, ad).view, k) == TraceOf(v, k)
    decreases v
  {
    hide Inserted;
    hide Deleted;
    hide Moved;
    hide Rerank;
    InsertedAside(sem, v, registry, key, ad, k);
    DeletedAside(sem, v, key, ad, k);
    if key in v.roster.index && sem.matches(v.info, ad) {
      RerankAside(v.roster, key, sem.rank(v.info, ad), k);
      var v1 := v.(roster := Rerank(v.roster, key, sem.rank(v.info, ad)));
      MovedAside(v1, registry, key, sem.signature(v.info, ad), k);
      var moved := Moved(v1, registry, key, sem.signature(v.info, ad));
      ModifiedAllAside(sem, v.subs, moved.registry, key, ad, k);
    }
  }

  lemma {:induction false} ModifiedAllAside(
    sem: Semantics, vs: seq<View>, registry: set<string>, key: Key, ad: Ad, k: Key)
    requires k != key
    ensures TracesOf(ModifiedAll(sem, vs, registry, key, ad).views, k) == TracesOf(vs, k)
    decreases vs
  {
    hide Modified;
    hide TraceOf;
    if vs != [] {
      ModifiedAside(sem, vs[0], registry, key, ad, k);
      ModifiedAllAside(sem, vs[1..], Modified(sem, vs[0], registry, key, ad).registry, key, ad, k);
    }
  }

  lemma RerankAside(r: Roster, key: Key, rank: Value, k: Key)
    requires key in r.index
    ensures k in Rerank(r, key, rank).index <==> k in r.index
  {
  }

  lemma MovedAside(v: View, registry: set<string>, key: Key, signature: string, k: Key)
    requires k != key
    ensures var r := Moved(v, registry, key, signature);
            r.view == v.(parts := r.view.parts) && Holding(r.view.parts, k) == Holding(v.parts, k)
  {
    hide Filed;
    hide Unfiled;
    UnfiledAside(v, key, v.oldSignature, k);
    var v' := Unfiled(v, key, v.oldSignature);
    if v'.Some? {
      FiledAside(v'.value, registry, key, signature, k);
    }
  }

  // ------------------------------------------------------- a tree that is current

  /** A current tree is right about every key. */
  lemma {:induction false} CurrentIsRight(sem: Semantics, v: View, content: map<Key, Ad>, k: Key)
    requires Current(sem, v, content)
    ensures Right(sem, TraceOf(v, k), if k in content then Some(content[k]) else None)
    decreases v
  {
    hide Sound;
    hide Steady;
    hide Carries;
    var members := Selected(sem, v.info, content);
    CurrentAllIsRight(sem, v.subs, members, k);
    forall s | s in v.parts ensures k in v.parts[s].index <==> k in members && sem.signature(v.info, members[k]) == s {
      assert PartCurrent(sem, v.info, s, v.parts[s], members);
    }
    assert Holding(v.parts, k) == if k in members then Only(sem.signature(v.info, content[k])) else {};
  }

  lemma {:induction false} CurrentAllIsRight(sem: Semantics, vs: seq<View>, content: map<Key, Ad>, k: Key)
    requires CurrentAll(sem, vs, content)
    ensures RightAll(sem, TracesOf(vs, k), if k in content then Some(content[k]) else None)
    decreases vs
  {
    hide Current;
    hide Right;
    hide TraceOf;
    if vs != [] {
      CurrentIsRight(sem, vs[0], content, k);
      CurrentAllIsRight(sem, vs[1..], content, k);
    }
  }

  /** Every view of the tree has partition expressions or not, whatever the ad. */
  ghost predicate Even(sem: Semantics, v: View)
    decreases v
  {
    && (forall a, b :: sem.signature(v.info, a) == "" ==> sem.signature(v.info, b) == "")
    && EvenAll(sem, v.subs)
  }

  ghost predicate EvenAll(sem: Semantics, vs: seq<View>)
    decreases vs
  {
    vs != [] ==> Even(sem, vs[0]) && EvenAll(sem, vs[1..])
  }

  lemma {:induction false} CurrentIsEven(sem: Semantics, v: View, content: map<Key, Ad>)
    requires Current(sem, v, content)
    ensures Even(sem, v)
    decreases v
  {
    hide RosterCurrent;
    hide PartsCurrent;
    CurrentAllIsEven(sem, v.subs, Selected(sem, v.info, content));
  }

  lemma {:induction false} CurrentAllIsEven(sem: Semantics, vs: seq<View>, content: map<Key, Ad>)
    requires CurrentAll(sem, vs, content)
    ensures EvenAll(sem, vs)
    decreases vs
  {
    hide Current;
    hide Even;
    if vs != [] {
      CurrentIsEven(sem, vs[0], content);
      CurrentAllIsEven(sem, vs[1..], content);
    }
  }

  // -------------------------------------------------------------- deletion

  lemma UnfiledHolding(v: View, key: Key, signature: string)
    ensures var r := Unfiled(v, key, signature);
            && (signature == "" || signature in Holding(v.parts, key) ==> r.Some?)
            && (r.Some? ==> r.value == v.(parts := r.value.parts)
                            && Holding(r.value.parts, key) == Holding(v.parts, key) - Only(signature))
  {
    hide Without;
  }

  /** Nothing is left of a signature exactly if it is the one taken out. */
  lemma NothingLeft(was: string, now: string)
    requires was == "" <==> now == ""
    ensures Only(was) - Only(now) == {} <==> was == now
  {
    if Only(was) - Only(now) == {} && was != "" {
      assert was !in Only(was) - Only(now);
    }
  }

  /** A deletion that does not throw leaves the tree right about the key exactly if it is clean, and a
      clean one does not throw. */
  lemma {:induction false} DeletedRight(sem: Semantics, v: View, key: Key, was: Ad, ad: Ad)
    requires Even(sem, v) && Right(sem, TraceOf(v, key), Some(was))
    ensures var r := Deleted(sem, v, key, ad);
            && (CleanlyDeleted(sem, v, was, ad) ==> r.Some?)
            && (r.Some? ==> (Right(sem, TraceOf(r.value, key), None) <==> CleanlyDeleted(sem, v, was, ad)))
    decreases v
  {
    hide Without;
    hide Unfiled;
    hide Holding;
    hide Only;
    if key in v.roster.index {
      DeletedAllRight(sem, v.subs, key, was, ad);
      var subs := DeletedAll(sem, v.subs, key, ad);
      if subs.Some? {
        var v1 := v.(subs := subs.value, roster := Dismiss(v.roster, key));
        var s := sem.signature(v.info, ad);
        UnfiledHolding(v1, key, s);
        NothingLeft(sem.signature(v.info, was), s);
        assert sem.signature(v.info, was) == s && s != "" ==> s in Holding(v.parts, key) by {
          OnlyHas(s);
        }
        if Unfiled(v1, key, s).Some? {
          assert TraceOf(Unfiled(v1, key, s).value, key)
              == Trace(v.info, false, Holding(v.parts, key) - Only(s), TracesOf(subs.value, key));
        }
      }
    }
  }

  lemma OnlyHas(signature: string)
    ensures signature != "" ==> signature in Only(signature)
  {
  }

  lemma {:induction false} DeletedAllRight(sem: Semantics, vs: seq<View>, key: Key, was: Ad, ad: Ad)
    requires EvenAll(sem, vs) && RightAll(sem, TracesOf(vs, key), Some(was))
    ensures var r := DeletedAll(sem, vs, key, ad);
            && (CleanlyDeletedAll(sem, vs, was, ad) ==> r.Some?)
            && (r.Some? ==> (RightAll(sem, TracesOf(r.value, key), None) <==> CleanlyDeletedAll(sem, vs, was, ad)))
    decreases vs
  {
    hide Deleted;
    hide Right;
    hide TraceOf;
    hide CleanlyDeleted;
    hide Even;
    if vs != [] {
      DeletedRight(sem, vs[0], key, was, ad);
      DeletedAllRight(sem, vs[1..], key, was, ad);
    }
  }

  // ------------------------------------------------------------- insertion

  lemma FiledHolding(v: View, registry: set<string>, key: Key, signature: string)
    ensures var r := Filed(v, registry, key, signature);
            && r.view == v.(parts := r.view.parts) && !r.status.Thrown?
            && Holding(r.view.parts, key) == Holding(v.parts, key) + (if r.status.Done? then Only(signature) else {})
            && (r.status.Refused? <==> Blocked(v, registry, signature))
            && (r.status.Refused? ==> r == Outcome(Refused, v, registry) && signature !in Holding(v.parts, key))
  {
    hide Placed;
    if signature == "" {
      assert Holding(v.parts, key) + {} == Holding(v.parts, key);
    }
  }

  /** The view lacks the partition of this signature and cannot make it, because its name is taken. */
  predicate Blocked(v: View, registry: set<string>, signature: string) {
    signature != "" && signature !in v.parts && PartName(v.name, signature) in registry
  }

  /** An ad inserted for a key that was not there leaves the tree right about it, if it is not refused;
      if it is refused, the tree is not what the ad would make of it. */
  lemma {:induction false} InsertedRight(sem: Semantics, v: View, registry: set<string>, key: Key, ad: Ad)
    requires Right(sem, TraceOf(v, key), None)
    ensures var r := Inserted(sem, v, registry, key, ad);
            && !r.status.Thrown?
            && (r.status.Done? <==> Right(sem, TraceOf(r.view, key), Some(ad)))
    decreases v
  {
    hide Filed;
    hide Placed;
    hide Holding;
    hide Only;
    if sem.matches(v.info, ad) {
      InsertedAllRight(sem, v.subs, registry, key, ad);
      var below := InsertedAll(sem, v.subs, registry, key, ad);
      if below.status.Done? {
        var s := sem.signature(v.info, ad);
        FiledHolding(v.(subs := below.views), below.registry, key, s);
        OnlyHas(s);
        assert {} + Only(s) == Only(s);
      }
    }
  }

  lemma {:induction false} InsertedAllRight(sem: Semantics, vs: seq<View>, registry: set<string>, key: Key, ad: Ad)
    requires RightAll(sem, TracesOf(vs, key), None)
    ensures var r := InsertedAll(sem, vs, registry, key, ad);
            && !r.status.Thrown?
            && (r.status.Done? <==> RightAll(sem, TracesOf(r.views, key), Some(ad)))
    decreases vs
  {
    hide Inserted;
    hide Right;
    hide TraceOf;
    if vs != [] {
      InsertedRight(sem, vs[0], registry, key, ad);
      InsertedAllRight(sem, vs[1..], Inserted(sem, vs[0], registry, key, ad).registry, key, ad);
    }
  }

  // ---------------------------------------------------------- modification

  lemma MovedHolding(v: View, registry: set<string>, key: Key, signature: string)
    requires Holding(v.parts, key) == Only(v.oldSignature)
    ensures var r := Moved(v, registry, key, signature);
            && r.view == v.(parts := r.view.parts) && !r.status.Thrown?
            && (r.status.Done? <==> Holding(r.view.parts, key) == Only(signature))
  {
    hide Filed;
    hide Unfiled;
    hide Holding;
    hide Only;
    if signature != v.oldSignature {
      UnfiledHolding(v, key, v.oldSignature);
      OnlyHas(v.oldSignature);
      OnlyHas(signature);
      var v' := Unfiled(v, key, v.oldSignature).value;
      FiledHolding(v', registry, key, signature);
      assert Only(v.oldSignature) - Only(v.oldSignature) == {};
      assert {} + Only(signature) == Only(signature);
    }
  }

  /** A modification that succeeds leaves the tree right about the key exactly if it is clean; a clean
      one does not throw; and one that is refused does not leave the tree right. */
  lemma {:induction false} ModifiedRight(sem: Semantics, v: View, registry: set<string>, key: Key, was: Ad, ad: Ad)
    requires Even(sem, v) && Right(sem, TraceOf(v, key), Some(was)) && Noted(sem, v, was)
    ensures var r := Modified(sem, v, registry, key, ad);
            var clean := CleanlyModified(sem, v, was, ad);
            && (clean ==> !r.status.Thrown?)
            && (r.status.Done? ==> (Right(sem, TraceOf(r.view, key), Some(ad)) <==> clean))
            && (r.status.Refused? ==> !Right(sem, TraceOf(r.view, key), Some(ad)))
    decreases v
  {
    hide Inserted;
    hide Deleted;
    hide Moved;
    hide Rerank;
    hide Holding;
    hide Only;
    hide CleanlyDeleted;
    if sem.matches(v.info, was) {
      if sem.matches(v.info, ad) {
        StaysRight(sem, v, registry, key, was, ad);
      } else {
        DeletedRight(sem, v, key, was, ad);
        if Deleted(sem, v, key, ad).Some? {
          NotHere(sem, TraceOf(Deleted(sem, v, key, ad).value, key), ad);
        }
      }
    } else {
      NotHere(sem, TraceOf(v, key), was);
      if sem.matches(v.info, ad) {
        InsertedRight(sem, v, registry, key, ad);
      } else {
        NotHere(sem, TraceOf(v, key), ad);
      }
    }
  }

  /** A view that does not select the ad is right about it as it would be about none. */
  lemma NotHere(sem: Semantics, t: Trace, ad: Ad)
    requires !sem.matches(t.info, ad)
    ensures Right(sem, t, Some(ad)) <==> Right(sem, t, None)
  {
  }

  lemma {:induction false} StaysRight(sem: Semantics, v: View, registry: set<string>, key: Key, was: Ad, ad: Ad)
    requires Even(sem, v) && Right(sem, TraceOf(v, key), Some(was)) && Noted(sem, v, was)
    requires sem.matches(v.info, was) && sem.matches(v.info, ad)
    ensures var r := Modified(sem, v, registry, key, ad);
            var clean := CleanlyModified(sem, v, was, ad);
            && (clean ==> !r.status.Thrown?)
            && (r.status.Done? ==> (Right(sem, TraceOf(r.view, key), Some(ad)) <==> clean))
            && (r.status.Refused? ==> !Right(sem, TraceOf(r.view, key), Some(ad)))
    decreases v, 0
  {
    hide Moved;
    hide Rerank;
    hide Holding;
    hide Only;
    RerankAside(v.roster, key, sem.rank(v.info, ad), key);
    var v1 := v.(roster := Rerank(v.roster, key, sem.rank(v.info, ad)));
    MovedHolding(v1, registry, key, sem.signature(v.info, ad));
    var moved := Moved(v1, registry, key, sem.signature(v.info, ad));
    if moved.status.Done? {
      ModifiedAllRight(sem, v.subs, moved.registry, key, was, ad);
    }
  }

  lemma {:induction false} ModifiedAllRight(
    sem: Semantics, vs: seq<View>, registry: set<string>, key: Key, was: Ad, ad: Ad)
    requires EvenAll(sem, vs) && RightAll(sem, TracesOf(vs, key), Some(was)) && NotedAll(sem, vs, was)
    ensures var r := ModifiedAll(sem, vs, registry, key, ad);
            var clean := CleanlyModifiedAll(sem, vs, was, ad);
            && (clean ==> !r.status.Thrown?)
            && (r.status.Done? ==> (RightAll(sem, TracesOf(r.views, key), Some(ad)) <==> clean))
            && (r.status.Refused? ==> !RightAll(sem, TracesOf(r.views, key), Some(ad)))
    decreases vs
  {
    hide Modified;
    hide Right;
    hide TraceOf;
    hide CleanlyModified;
    hide Noted;
    hide Even;
    if vs != [] {
      ModifiedRight(sem, vs[0], registry, key, was, ad);
      ModifiedAllRight(sem, vs[1..], Modified(sem, vs[0], registry, key, ad).registry, key, was, ad);
    }
  }

  // ------------------------------------------------------- refused insertions

  /** The first view to file the ad, views below before the ones above, is blocked. */
  ghost predicate StopsFirst(sem: Semantics, v: View, registry: set<string>, ad: Ad)
    decreases v
  {
    && sem.matches(v.info, ad)
    && if NoneMatches(sem, v.subs, ad) then Blocked(v, registry, sem.signature(v.info, ad))
       else StopsFirstAll(sem, v.subs, registry, ad)
  }

  ghost predicate StopsFirstAll(sem: Semantics, vs: seq<View>, registry: set<string>, ad: Ad)
    decreases vs
  {
    && vs != []
    && if sem.matches(vs[0].info, ad) then StopsFirst(sem, vs[0], registry, ad)
       else StopsFirstAll(sem, vs[1..], registry, ad)
  }

  predicate NoneMatches(sem: Semantics, vs: seq<View>, ad: Ad) {
    vs == [] || (!sem.matches(vs[0].info, ad) && NoneMatches(sem, vs[1..], ad))
  }

  /** A refused insertion leaves no trace of the key exactly if the first view to file the ad refuses;
      then it changes nothing at all. */
  lemma {:induction false} RefusedInsertion(sem: Semantics, v: View, registry: set<string>, key: Key, ad: Ad)
    requires Right(sem, TraceOf(v, key), None)
    ensures var r := Inserted(sem, v, registry, key, ad);
            && (StopsFirst(sem, v, registry, ad) ==> r == Outcome(Refused, v, registry))
            && (r.status.Refused? && Right(sem, TraceOf(r.view, key), None) ==> StopsFirst(sem, v, registry, ad))
    decreases v
  {
    hide Filed;
    hide Placed;
    hide Holding;
    hide Only;
    if sem.matches(v.info, ad) {
      var below := InsertedAll(sem, v.subs, registry, key, ad);
      RefusedInsertions(sem, v.subs, registry, key, ad);
      FiledHolding(v.(subs := below.views), below.registry, key, sem.signature(v.info, ad));
    }
  }

  lemma {:induction false} RefusedInsertions(sem: Semantics, vs: seq<View>, registry: set<string>, key: Key, ad: Ad)
    requires RightAll(sem, TracesOf(vs, key), None)
    ensures var r := InsertedAll(sem, vs, registry, key, ad);
            && (NoneMatches(sem, vs, ad) ==> r == Outcomes(Done, vs, registry))
            && (StopsFirstAll(sem, vs, registry, ad) ==> r == Outcomes(Refused, vs, registry))
            && (!NoneMatches(sem, vs, ad) && RightAll(sem, TracesOf(r.views, key), None) ==>
                  r.status.Refused? && StopsFirstAll(sem, vs, registry, ad))
    decreases vs
  {
    hide Inserted;
    hide Right;
    hide TraceOf;
    hide StopsFirst;
    if vs != [] {
      var first := Inserted(sem, vs[0], registry, key, ad);
      RefusedInsertion(sem, vs[0], registry, key, ad);
      RefusedInsertions(sem, vs[1..], first.registry, key, ad);
      InsertedSeen(sem, vs[0], registry, key, ad);
      assert [vs[0]] + vs[1..] == vs;
    }
  }

  /** An ad that is not selected changes nothing; one that is, and is not refused, leaves its key. */
  lemma InsertedSeen(sem: Semantics, v: View, registry: set<string>, key: Key, ad: Ad)
    ensures var r := Inserted(sem, v, registry, key, ad);
            if !sem.matches(v.info, ad) then r == Outcome(Done, v, registry)
            else !r.status.Thrown? && (r.status.Done? ==> !Right(sem, TraceOf(r.view, key), None))
  {
    hide Placed;
    hide InsertedAll;
    InsertedAllNeverThrows(sem, v.subs, registry, key, ad);
  }
}
