/** What every operation on the view tree keeps. */
module ViewTheorems {
  import opened Expressions
  import opened Members
  import opened Rosters
  import opened Views

  // ------------------------------------------------------------- components

  lemma FiledCurrent(sem: Semantics, v: View, registry: set<string>, key: Key, ad: Ad, members: map<Key, Ad>)
    requires PartsCurrent(sem, v.info, v.parts, members) && key !in members
    requires Filed(v, registry, key, sem.signature(v.info, ad)).status.Done?
    ensures var r := Filed(v, registry, key, sem.signature(v.info, ad));
            && r.view == v.(parts := r.view.parts)
            && PartsCurrent(sem, v.info, r.view.parts, members[key := ad])
  {
    hide Sound;
    hide Placed;
    var s := sem.signature(v.info, ad);
    var r := Filed(v, registry, key, s);
    if s != "" {
      NewPartCurrent(sem, v.info, v.parts, s, members);
      EnrolSound(if s in v.parts then v.parts[s] else NOBODY, key, Undefined);
    }
    forall t | t in r.view.parts ensures PartCurrent(sem, v.info, t, r.view.parts[t], members[key := ad]) {
      if t != s {
        assert PartCurrent(sem, v.info, t, v.parts[t], members);
      }
    }
  }

  /** A partition not yet made would be empty. */
  lemma NewPartCurrent(sem: Semantics, info: Ad, parts: map<string, Roster>, s: string, members: map<Key, Ad>)
    requires PartsCurrent(sem, info, parts, members) && s != ""
    ensures PartCurrent(sem, info, s, if s in parts then parts[s] else NOBODY, members)
  {
  }

  lemma UnfiledCurrent(sem: Semantics, v: View, key: Key, members: map<Key, Ad>)
    requires PartsCurrent(sem, v.info, v.parts, members) && key in members
    ensures var r := Unfiled(v, key, sem.signature(v.info, members[key]));
            && r.Some? && r.value == v.(parts := r.value.parts)
            && PartsCurrent(sem, v.info, r.value.parts, members - {key})
  {
    hide Sound;
    hide Without;
    var s := sem.signature(v.info, members[key]);
    assert HasPart(s, v.parts);
    if s != "" {
      assert PartCurrent(sem, v.info, s, v.parts[s], members);
      DismissSound(v.parts[s], key);
    }
    var parts := Unfiled(v, key, s).value.parts;
    forall t | t in parts ensures PartCurrent(sem, v.info, t, parts[t], members - {key}) {
      assert PartCurrent(sem, v.info, t, v.parts[t], members);
    }
  }

  lemma EnrolCurrent(sem: Semantics, info: Ad, r: Roster, key: Key, ad: Ad, members: map<Key, Ad>)
    requires RosterCurrent(sem, info, r, members) && key !in members
    ensures RosterCurrent(sem, info, Enrol(r, key, sem.rank(info, ad)), members[key := ad])
  {
    hide Sound;
    EnrolSound(r, key, sem.rank(info, ad));
  }

  lemma DismissCurrent(sem: Semantics, info: Ad, r: Roster, key: Key, members: map<Key, Ad>)
    requires RosterCurrent(sem, info, r, members) && key in members
    ensures RosterCurrent(sem, info, Dismiss(r, key), members - {key})
  {
    hide Sound;
    DismissSound(r, key);
  }

  lemma RerankCurrent(sem: Semantics, info: Ad, r: Roster, key: Key, ad: Ad, members: map<Key, Ad>)
    requires RosterCurrent(sem, info, r, members) && key in members && Steady(sem, info)
    ensures RosterCurrent(sem, info, Rerank(r, key, sem.rank(info, ad)), members[key := ad])
  {
    hide Sound;
    hide Rerank;
    hide Carries;
    hide SteadyRanks;
    RerankSteady(r, key, sem.rank(info, members[key]), sem.rank(info, ad));
  }

  lemma SelectedUpdate(sem: Semantics, info: Ad, content: map<Key, Ad>, key: Key, ad: Ad)
    ensures Selected(sem, info, content[key := ad])
         == if sem.matches(info, ad) then Selected(sem, info, content)[key := ad]
            else Selected(sem, info, content) - {key}
  {
  }

  lemma SelectedRemove(sem: Semantics, info: Ad, content: map<Key, Ad>, key: Key)
    ensures Selected(sem, info, content - {key}) == Selected(sem, info, content) - {key}
  {
  }

  // -------------------------------------------------------------- insertion

  lemma {:induction false} InsertedCurrent(
    sem: Semantics, v: View, registry: set<string>, key: Key, ad: Ad, content: map<Key, Ad>)
    requires Current(sem, v, content) && key !in content
    requires Inserted(sem, v, registry, key, ad).status.Done?
    ensures Current(sem, Inserted(sem, v, registry, key, ad).view, content[key := ad])
    decreases v
  {
    SelectedUpdate(sem, v.info, content, key, ad);
    var members := Selected(sem, v.info, content);
    if !sem.matches(v.info, ad) {
      assert members - {key} == members;
    } else {
      InsertedAllCurrent(sem, v.subs, registry, key, ad, members);
      var below := InsertedAll(sem, v.subs, registry, key, ad);
      FiledCurrent(sem, v.(subs := below.views), below.registry, key, ad, members);
      EnrolCurrent(sem, v.info, v.roster, key, ad, members);
    }
  }

  lemma {:induction false} InsertedAllCurrent(
    sem: Semantics, vs: seq<View>, registry: set<string>, key: Key, ad: Ad, content: map<Key, Ad>)
    requires CurrentAll(sem, vs, content) && key !in content
    requires InsertedAll(sem, vs, registry, key, ad).status.Done?
    ensures CurrentAll(sem, InsertedAll(sem, vs, registry, key, ad).views, content[key := ad])
    decreases vs
  {
    if vs != [] {
      var first := Inserted(sem, vs[0], registry, key, ad);
      InsertedCurrent(sem, vs[0], registry, key, ad, content);
      InsertedAllCurrent(sem, vs[1..], first.registry, key, ad, content);
    }
  }

  // --------------------------------------------------------------- deletion

  /** When an ad that was `was` can be taken out of a view under its present form `now`: wherever
      it is a member, its signature must not have changed. */
  ghost predicate CleanlyDeleted(sem: Semantics, v: View, was: Ad, now: Ad)
    decreases v
  {
    sem.matches(v.info, was) ==>
      sem.signature(v.info, was) == sem.signature(v.info, now) && CleanlyDeletedAll(sem, v.subs, was, now)
  }

  ghost predicate CleanlyDeletedAll(sem: Semantics, vs: seq<View>, was: Ad, now: Ad)
    decreases vs
  {
    vs != [] ==> CleanlyDeleted(sem, vs[0], was, now) && CleanlyDeletedAll(sem, vs[1..], was, now)
  }

  /** Taken out under a changed signature, the key stays behind in its partition. */
  lemma UnfiledElsewhere(sem: Semantics, v: View, key: Key, now: Ad, members: map<Key, Ad>)
    requires PartsCurrent(sem, v.info, v.parts, members) && key in members && Steady(sem, v.info)
    requires sem.signature(v.info, now) != sem.signature(v.info, members[key])
    ensures var r := Unfiled(v, key, sem.signature(v.info, now));
            r.Some? ==> !PartsCurrent(sem, v.info, r.value.parts, members - {key})
  {
    hide Sound;
    var s := sem.signature(v.info, members[key]);
    assert HasPart(s, v.parts);
    assert PartCurrent(sem, v.info, s, v.parts[s], members);
    var r := Unfiled(v, key, sem.signature(v.info, now));
    if r.Some? {
      assert r.value.parts[s] == v.parts[s];
      assert !PartCurrent(sem, v.info, s, r.value.parts[s], members - {key});
    }
  }

  /** Deletion leaves a view current exactly when it is clean; a clean one never throws. */
  lemma {:induction false} DeletedCurrent(sem: Semantics, v: View, key: Key, ad: Ad, content: map<Key, Ad>)
    requires Current(sem, v, content) && key in content
    ensures var r := Deleted(sem, v, key, ad);
            && (CleanlyDeleted(sem, v, content[key], ad) ==> r.Some?)
            && (r.Some? ==> (Current(sem, r.value, content - {key}) <==> CleanlyDeleted(sem, v, content[key], ad)))
    decreases v
  {
    hide RosterCurrent;
    hide PartsCurrent;
    hide Steady;
    SelectedRemove(sem, v.info, content, key);
    var members := Selected(sem, v.info, content);
    RosterKeys(sem, v.info, v.roster, members);
    if key in members {
      DeletedAllCurrent(sem, v.subs, key, ad, members);
      DismissCurrent(sem, v.info, v.roster, key, members);
      var below := DeletedAll(sem, v.subs, key, ad);
      if below.Some? {
        var v1 := v.(subs := below.value, roster := Dismiss(v.roster, key));
        if sem.signature(v.info, ad) == sem.signature(v.info, content[key]) {
          UnfiledCurrent(sem, v1, key, members);
        } else {
          UnfiledElsewhere(sem, v1, key, ad, members);
        }
      }
    } else {
      assert members - {key} == members;
    }
  }

  lemma RosterKeys(sem: Semantics, info: Ad, r: Roster, members: map<Key, Ad>)
    requires RosterCurrent(sem, info, r, members)
    ensures r.index.Keys == members.Keys
  {
  }

  lemma {:induction false} DeletedAllCurrent(sem: Semantics, vs: seq<View>, key: Key, ad: Ad, content: map<Key, Ad>)
    requires CurrentAll(sem, vs, content) && key in content
    ensures var r := DeletedAll(sem, vs, key, ad);
            && (CleanlyDeletedAll(sem, vs, content[key], ad) ==> r.Some?)
            && (r.Some? ==>
                  (CurrentAll(sem, r.value, content - {key}) <==> CleanlyDeletedAll(sem, vs, content[key], ad)))
    decreases vs
  {
    hide Current;
    if vs != [] {
      DeletedCurrent(sem, vs[0], key, ad, content);
      DeletedAllCurrent(sem, vs[1..], key, ad, content);
    }
  }

  // ----------------------------------------------------------- modification

  /** Every view has noted the signature of this ad. */
  ghost predicate Noted(sem: Semantics, v: View, ad: Ad)
    decreases v
  {
    v.oldSignature == sem.signature(v.info, ad) && NotedAll(sem, v.subs, ad)
  }

  ghost predicate NotedAll(sem: Semantics, vs: seq<View>, ad: Ad)
    decreases vs
  {
    vs != [] ==> Noted(sem, vs[0], ad) && NotedAll(sem, vs[1..], ad)
  }

  lemma {:induction false} PreModifiedNoted(sem: Semantics, v: View, ad: Ad)
    ensures Noted(sem, PreModified(sem, v, ad), ad)
    decreases v
  {
    PreModifiedAllNoted(sem, v.subs, ad);
  }

  lemma {:induction false} PreModifiedAllNoted(sem: Semantics, vs: seq<View>, ad: Ad)
    ensures NotedAll(sem, PreModifiedAll(sem, vs, ad), ad)
    decreases vs
  {
    hide Noted;
    hide PreModified;
    if vs != [] {
      PreModifiedNoted(sem, vs[0], ad);
      PreModifiedAllNoted(sem, vs[1..], ad);
    }
  }

  lemma {:induction false} PreModifiedCurrent(sem: Semantics, v: View, ad: Ad, content: map<Key, Ad>)
    requires Current(sem, v, content)
    ensures Current(sem, PreModified(sem, v, ad), content)
    decreases v
  {
    hide RosterCurrent;
    hide PartsCurrent;
    PreModifiedAllCurrent(sem, v.subs, ad, Selected(sem, v.info, content));
  }

  lemma {:induction false} PreModifiedAllCurrent(sem: Semantics, vs: seq<View>, ad: Ad, content: map<Key, Ad>)
    requires CurrentAll(sem, vs, content)
    ensures CurrentAll(sem, PreModifiedAll(sem, vs, ad), content)
    decreases vs
  {
    hide Current;
    hide PreModified;
    if vs != [] {
      PreModifiedCurrent(sem, vs[0], ad, content);
      PreModifiedAllCurrent(sem, vs[1..], ad, content);
    }
  }

  /** When a change from `was` to `now` is carried through correctly: a view the ad leaves must
      find the signature unchanged, there and below. */
  ghost predicate CleanlyModified(sem: Semantics, v: View, was: Ad, now: Ad)
    decreases v
  {
    sem.matches(v.info, was) ==>
      if sem.matches(v.info, now) then CleanlyModifiedAll(sem, v.subs, was, now)
      else CleanlyDeleted(sem, v, was, now)
  }

  ghost predicate CleanlyModifiedAll(sem: Semantics, vs: seq<View>, was: Ad, now: Ad)
    decreases vs
  {
    vs != [] ==> CleanlyModified(sem, vs[0], was, now) && CleanlyModifiedAll(sem, vs[1..], was, now)
  }

  lemma MovedCurrent(sem: Semantics, v: View, registry: set<string>, key: Key, ad: Ad, members: map<Key, Ad>)
    requires PartsCurrent(sem, v.info, v.parts, members) && key in members
    requires v.oldSignature == sem.signature(v.info, members[key])
    ensures var r := Moved(v, registry, key, sem.signature(v.info, ad));
            && !r.status.Thrown?
            && (r.status.Done? ==>
                  (r.view == v.(parts := r.view.parts) && PartsCurrent(sem, v.info, r.view.parts, members[key := ad])))
  {
    hide PartsCurrent;
    hide Enrol;
    hide Dismiss;
    var s := sem.signature(v.info, ad);
    if s == v.oldSignature {
      SameSignature(sem, v.info, v.parts, key, ad, members);
    } else {
      UnfiledCurrent(sem, v, key, members);
      var v' := Unfiled(v, key, v.oldSignature).value;
      if Filed(v', registry, key, s).status.Done? {
        FiledCurrent(sem, v', registry, key, ad, members - {key});
        assert (members - {key})[key := ad] == members[key := ad];
      }
    }
  }

  lemma SameSignature(sem: Semantics, info: Ad, parts: map<string, Roster>, key: Key, ad: Ad, members: map<Key, Ad>)
    requires PartsCurrent(sem, info, parts, members) && key in members
    requires sem.signature(info, ad) == sem.signature(info, members[key])
    ensures PartsCurrent(sem, info, parts, members[key := ad])
  {
    hide Sound;
    assert HasPart(sem.signature(info, ad), parts);
    forall s | s in parts ensures PartCurrent(sem, info, s, parts[s], members[key := ad]) {
      assert PartCurrent(sem, info, s, parts[s], members);
    }
  }

  /** Modification leaves a view current exactly when it is clean; a clean one never throws. */
  lemma {:induction false} ModifiedCurrent(
    sem: Semantics, v: View, registry: set<string>, key: Key, ad: Ad, content: map<Key, Ad>)
    requires Current(sem, v, content) && key in content && Noted(sem, v, content[key])
    ensures var r := Modified(sem, v, registry, key, ad);
            && (CleanlyModified(sem, v, content[key], ad) ==> !r.status.Thrown?)
            && (r.status.Done? ==>
                  (Current(sem, r.view, content[key := ad]) <==> CleanlyModified(sem, v, content[key], ad)))
    decreases v
  {
    hide RosterCurrent;
    hide PartsCurrent;
    hide Steady;
    SelectedUpdate(sem, v.info, content, key, ad);
    var members := Selected(sem, v.info, content);
    RosterKeys(sem, v.info, v.roster, members);
    if key in members && sem.matches(v.info, ad) {
      StaysCurrent(sem, v, registry, key, ad, content);
    } else if sem.matches(v.info, ad) {
      SelectedRemove(sem, v.info, content, key);
      assert members - {key} == members;
      if Inserted(sem, v, registry, key, ad).status.Done? {
        InsertedCurrent(sem, v, registry, key, ad, content - {key});
        assert (content - {key})[key := ad] == content[key := ad];
      }
      InsertedNeverThrows(sem, v, registry, key, ad);
    } else if key in members {
      SelectedRemove(sem, v.info, content, key);
      DeletedCurrent(sem, v, key, ad, content);
    } else {
      assert members - {key} == members;
    }
  }

  lemma {:induction false} ModifiedAllCurrent(
    sem: Semantics, vs: seq<View>, registry: set<string>, key: Key, ad: Ad, content: map<Key, Ad>)
    requires CurrentAll(sem, vs, content) && key in content && NotedAll(sem, vs, content[key])
    ensures var r := ModifiedAll(sem, vs, registry, key, ad);
            && (CleanlyModifiedAll(sem, vs, content[key], ad) ==> !r.status.Thrown?)
            && (r.status.Done? ==>
                  (CurrentAll(sem, r.views, content[key := ad]) <==> CleanlyModifiedAll(sem, vs, content[key], ad)))
    decreases vs
  {
    hide Current;
    hide Noted;
    hide Modified;
    if vs != [] {
      ModifiedCurrent(sem, vs[0], registry, key, ad, content);
      var first := Modified(sem, vs[0], registry, key, ad);
      if first.status.Done? {
        ModifiedAllCurrent(sem, vs[1..], first.registry, key, ad, content);
      }
    }
  }

  /** The case of an ad that was a member and still is. */
  lemma {:induction false} StaysCurrent(
    sem: Semantics, v: View, registry: set<string>, key: Key, ad: Ad, content: map<Key, Ad>)
    requires Current(sem, v, content) && key in content && Noted(sem, v, content[key])
    requires sem.matches(v.info, content[key]) && sem.matches(v.info, ad)
    ensures var r := Modified(sem, v, registry, key, ad);
            && (CleanlyModified(sem, v, content[key], ad) ==> !r.status.Thrown?)
            && (r.status.Done? ==>
                  (Current(sem, r.view, content[key := ad]) <==> CleanlyModified(sem, v, content[key], ad)))
    decreases v, 0
  {
    hide RosterCurrent;
    hide PartsCurrent;
    hide Steady;
    hide Moved;
    hide Rerank;
    SelectedUpdate(sem, v.info, content, key, ad);
    var members := Selected(sem, v.info, content);
    RosterKeys(sem, v.info, v.roster, members);
    RerankCurrent(sem, v.info, v.roster, key, ad, members);
    var v1 := v.(roster := Rerank(v.roster, key, sem.rank(v.info, ad)));
    MovedCurrent(sem, v1, registry, key, ad, members);
    var moved := Moved(v1, registry, key, sem.signature(v.info, ad));
    if moved.status.Done? {
      ModifiedAllCurrent(sem, v.subs, moved.registry, key, ad, members);
    }
  }

  lemma {:induction false} InsertedNeverThrows(sem: Semantics, v: View, registry: set<string>, key: Key, ad: Ad)
    ensures !Inserted(sem, v, registry, key, ad).status.Thrown?
    decreases v
  {
    InsertedAllNeverThrows(sem, v.subs, registry, key, ad);
  }

  lemma {:induction false} InsertedAllNeverThrows(
    sem: Semantics, vs: seq<View>, registry: set<string>, key: Key, ad: Ad)
    ensures !InsertedAll(sem, vs, registry, key, ad).status.Thrown?
    decreases vs
  {
    if vs != [] {
      InsertedNeverThrows(sem, vs[0], registry, key, ad);
      InsertedAllNeverThrows(sem, vs[1..], Inserted(sem, vs[0], registry, key, ad).registry, key, ad);
    }
  }

  /** An ad removed as it stands is always removed cleanly. */
  lemma {:induction false} RemovedCleanly(sem: Semantics, v: View, ad: Ad)
    ensures CleanlyDeleted(sem, v, ad, ad)
    decreases v
  {
    RemovedAllCleanly(sem, v.subs, ad);
  }

  lemma {:induction false} RemovedAllCleanly(sem: Semantics, vs: seq<View>, ad: Ad)
    ensures CleanlyDeletedAll(sem, vs, ad, ad)
    decreases vs
  {
    if vs != [] {
      RemovedCleanly(sem, vs[0], ad);
      RemovedAllCleanly(sem, vs[1..], ad);
    }
  }

  // -------------------------------------------------------------- sub-views

  /** `done` with the ads of these members added. */
  function Loaded(done: map<Key, Ad>, ms: seq<Member>, table: map<Key, Ad>): (r: map<Key, Ad>)
    requires forall m :: m in ms ==> m.key in table
    decreases |ms|
  {
    if ms == [] then done else Loaded(done[ms[0].key := table[ms[0].key]], ms[1..], table)
  }

  lemma {:induction false} LoadedMeans(done: map<Key, Ad>, ms: seq<Member>, table: map<Key, Ad>, k: Key)
    requires forall m :: m in ms ==> m.key in table
    requires forall x :: x in done ==> x in table && done[x] == table[x]
    ensures k in Loaded(done, ms, table) <==> k in done || exists m :: m in ms && m.key == k
    ensures k in Loaded(done, ms, table) ==> k in table && Loaded(done, ms, table)[k] == table[k]
    decreases |ms|
  {
    if ms != [] {
      LoadedMeans(done[ms[0].key := table[ms[0].key]], ms[1..], table, k);
      assert ms == [ms[0]] + ms[1..];
    }
  }

  lemma {:induction false} FilledCurrent(
    sem: Semantics, v: View, registry: set<string>, ms: seq<Member>, table: map<Key, Ad>, done: map<Key, Ad>)
    requires Current(sem, v, done) && UniqueKeys(ms)
    requires forall m :: m in ms ==> m.key in table && m.key !in done
    ensures var r := Filled(sem, v, registry, ms, table);
            !r.status.Thrown? && (r.status.Done? ==> Current(sem, r.view, Loaded(done, ms, table)))
    decreases |ms|
  {
    hide Current;
    hide Inserted;
    if ms != [] {
      var m := ms[0];
      assert m in ms;
      InsertedNeverThrows(sem, v, registry, m.key, table[m.key]);
      var r := Inserted(sem, v, registry, m.key, table[m.key]);
      if r.status.Done? {
        InsertedCurrent(sem, v, registry, m.key, table[m.key], done);
        forall x | x in ms[1..] ensures x.key != m.key {
          var i :| 0 <= i < |ms[1..]| && ms[1..][i] == x;
          assert ms[i + 1] == x;
        }
        FilledCurrent(sem, r.view, r.registry, ms[1..], table, done[m.key := table[m.key]]);
      }
    }
  }

  lemma NewViewCurrent(sem: Semantics, info: Ad)
    requires Steady(sem, info)
    ensures Current(sem, NewView(sem, info), map[])
  {
    assert Selected(sem, info, map[]) == map[];
  }

  lemma CreatedCurrent(
    sem: Semantics, v: View, registry: set<string>, info: Ad, table: map<Key, Ad>, content: map<Key, Ad>)
    requires Current(sem, v, content) && Steady(sem, info)
    requires forall k :: k in content ==> k in table && table[k] == content[k]
    ensures var r := Created(sem, v, registry, info, table);
            !r.status.Thrown? && (r.status.Done? ==> Current(sem, r.view, content))
  {
    hide Inserted;
    hide Filled;
    NewViewCurrent(sem, info);
    var ms := v.roster.members;
    var name := sem.viewName(info);
    if name !in registry {
      FilledCurrent(sem, NewView(sem, info), registry + {name}, ms, table, map[]);
      MembersLoaded(sem, v, table, content);
      var r := Created(sem, v, registry, info, table);
      assert r.view.subs[1..] == v.subs;
    }
  }

  /** Loading the members of a current view gives exactly the ads it selects. */
  lemma MembersLoaded(sem: Semantics, v: View, table: map<Key, Ad>, content: map<Key, Ad>)
    requires Current(sem, v, content)
    requires forall k :: k in content ==> k in table && table[k] == content[k]
    ensures forall m :: m in v.roster.members ==> m.key in table
    ensures Loaded(map[], v.roster.members, table) == Selected(sem, v.info, content)
  {
    hide Loaded;
    var members := Selected(sem, v.info, content);
    var ms := v.roster.members;
    forall m | m in ms ensures m.key in members {
      assert m.key in v.roster.index;
    }
    var loaded := Loaded(map[], ms, table);
    forall k ensures (k in loaded <==> k in members) && (k in loaded ==> loaded[k] == members[k]) {
      LoadedMeans(map[], ms, table, k);
      if k in members {
        assert v.roster.index[k] in ms && v.roster.index[k].key == k;
      }
    }
    assert loaded == members;
  }

  /** A view created anywhere in the tree holds what its constraint selects, and nothing else
      changes. */
  lemma {:induction false} CreatedUnderCurrent(sem: Semantics, v: View, registry: set<string>, parent: string,
      info: Ad, table: map<Key, Ad>, content: map<Key, Ad>)
    requires Current(sem, v, content) && Steady(sem, info)
    requires forall k :: k in content ==> k in table && table[k] == content[k]
    ensures var r := CreatedUnder(sem, v, registry, parent, info, table);
            !r.status.Thrown? && (r.status.Done? ==> Current(sem, r.view, content))
    decreases v
  {
    hide RosterCurrent;
    hide PartsCurrent;
    hide Created;
    if v.name == parent {
      CreatedCurrent(sem, v, registry, info, table, content);
    } else {
      CreatedUnderAllCurrent(sem, v.subs, registry, parent, info, table, Selected(sem, v.info, content));
    }
  }

  lemma {:induction false} CreatedUnderAllCurrent(sem: Semantics, vs: seq<View>, registry: set<string>, parent: string,
      info: Ad, table: map<Key, Ad>, content: map<Key, Ad>)
    requires CurrentAll(sem, vs, content) && Steady(sem, info)
    requires forall k :: k in content ==> k in table && table[k] == content[k]
    ensures var r := CreatedUnderAll(sem, vs, registry, parent, info, table);
            !r.status.Thrown? && (r.status.Done? ==> CurrentAll(sem, r.views, content))
    decreases vs
  {
    hide Current;
    hide CreatedUnder;
    if vs != [] {
      if HasView(vs[0], parent) {
        CreatedUnderCurrent(sem, vs[0], registry, parent, info, table, content);
      } else {
        CreatedUnderAllCurrent(sem, vs[1..], registry, parent, info, table, content);
      }
    }
  }

  lemma {:induction false} DroppedCurrent(
    sem: Semantics, vs: seq<View>, registry: set<string>, name: string, content: map<Key, Ad>)
    requires CurrentAll(sem, vs, content)
    ensures var r := Dropped(vs, registry, name);
            r.Some? ==> CurrentAll(sem, r.value.0, content)
    decreases vs
  {
    hide Current;
    if vs != [] {
      DroppedCurrent(sem, vs[1..], registry, name, content);
    }
  }

  lemma {:induction false} DiscardedCurrent(
    sem: Semantics, v: View, registry: set<string>, name: string, content: map<Key, Ad>)
    requires Current(sem, v, content)
    ensures Current(sem, Discarded(v, registry, name).view, content)
    decreases v
  {
    hide RosterCurrent;
    hide PartsCurrent;
    var members := Selected(sem, v.info, content);
    DroppedCurrent(sem, v.subs, registry, name, members);
    DiscardedAllCurrent(sem, v.subs, registry, name, members);
  }

  lemma {:induction false} DiscardedAllCurrent(
    sem: Semantics, vs: seq<View>, registry: set<string>, name: string, content: map<Key, Ad>)
    requires CurrentAll(sem, vs, content)
    ensures CurrentAll(sem, DiscardedAll(vs, registry, name).views, content)
    decreases vs
  {
    hide Current;
    hide Discarded;
    if vs != [] {
      DiscardedCurrent(sem, vs[0], registry, name, content);
      DiscardedAllCurrent(sem, vs[1..], registry, name, content);
    }
  }

  // --------------------------------------------------- from the root downward

  /** The view reached by following sub-view positions down from `v`. */
  function At(v: View, path: seq<nat>): (r: Option<View>) {
    if path == [] then Some(v)
    else if path[0] >= |v.subs| then None
    else At(v.subs[path[0]], path[1..])
  }

  /** The ad satisfies every constraint from `v` down to the end of the path. */
  predicate Passes(sem: Semantics, v: View, path: seq<nat>, ad: Ad) {
    && sem.matches(v.info, ad)
    && (path != [] && path[0] < |v.subs| ==> Passes(sem, v.subs[path[0]], path[1..], ad))
  }

  lemma {:induction false} CurrentSub(sem: Semantics, vs: seq<View>, content: map<Key, Ad>, i: nat)
    requires CurrentAll(sem, vs, content) && i < |vs|
    ensures Current(sem, vs[i], content)
  {
    if i > 0 {
      CurrentSub(sem, vs[1..], content, i - 1);
    }
  }

  /** In a current tree, every view holds exactly the keys whose ads satisfy every constraint from
      the root down to it, in rank order; and each of its members is in exactly the partition of
      its signature. */
  lemma {:induction false} HoldsExactlyTheMatching(
    sem: Semantics, v: View, content: map<Key, Ad>, path: seq<nat>, k: Key)
    requires Current(sem, v, content) && At(v, path).Some?
    ensures var w := At(v, path).value;
            && Sound(w.roster)
            && (k in w.roster.index <==> k in content && Passes(sem, v, path, content[k]))
            && (k in w.roster.index ==> forall s :: s in w.parts ==>
                  (k in w.parts[s].index <==> s == sem.signature(w.info, content[k])))
            && (k in w.roster.index ==> HasPart(sem.signature(w.info, content[k]), w.parts))
    decreases |path|
  {
    hide Sound;
    hide Carries;
    hide Steady;
    var members := Selected(sem, v.info, content);
    if path == [] {
      forall s | s in v.parts
        ensures k in members ==> (k in v.parts[s].index <==> s == sem.signature(v.info, content[k]))
      {
        assert PartCurrent(sem, v.info, s, v.parts[s], members);
      }
    } else {
      CurrentSub(sem, v.subs, members, path[0]);
      HoldsExactlyTheMatching(sem, v.subs[path[0]], members, path[1..], k);
    }
  }

  // ------------------------------------------------- trees without partitions

  /** The description has no partition expressions: no ad has a signature. */
  ghost predicate Unsigned(sem: Semantics, info: Ad) {
    forall ad :: sem.signature(info, ad) == ""
  }

  /** No view of the tree divides its members. */
  ghost predicate Undivided(sem: Semantics, v: View)
    decreases v
  {
    v.parts == map[] && Unsigned(sem, v.info) && UndividedAll(sem, v.subs)
  }

  ghost predicate UndividedAll(sem: Semantics, vs: seq<View>)
    decreases vs
  {
    vs != [] ==> Undivided(sem, vs[0]) && UndividedAll(sem, vs[1..])
  }

  lemma {:induction false} UndividedInserted(sem: Semantics, v: View, registry: set<string>, key: Key, ad: Ad)
    requires Undivided(sem, v)
    ensures Inserted(sem, v, registry, key, ad).status.Done?
    decreases v
  {
    UndividedInsertedAll(sem, v.subs, registry, key, ad);
  }

  lemma {:induction false} UndividedInsertedAll(sem: Semantics, vs: seq<View>, registry: set<string>, key: Key, ad: Ad)
    requires UndividedAll(sem, vs)
    ensures InsertedAll(sem, vs, registry, key, ad).status.Done?
    decreases vs
  {
    if vs != [] {
      UndividedInserted(sem, vs[0], registry, key, ad);
      UndividedInsertedAll(sem, vs[1..], Inserted(sem, vs[0], registry, key, ad).registry, key, ad);
    }
  }

  lemma {:induction false} UndividedClean(sem: Semantics, v: View, was: Ad, now: Ad)
    requires Undivided(sem, v)
    ensures CleanlyDeleted(sem, v, was, now) && CleanlyModified(sem, v, was, now)
    decreases v
  {
    UndividedCleanAll(sem, v.subs, was, now);
  }

  lemma {:induction false} UndividedCleanAll(sem: Semantics, vs: seq<View>, was: Ad, now: Ad)
    requires UndividedAll(sem, vs)
    ensures CleanlyDeletedAll(sem, vs, was, now) && CleanlyModifiedAll(sem, vs, was, now)
    decreases vs
  {
    if vs != [] {
      UndividedClean(sem, vs[0], was, now);
      UndividedCleanAll(sem, vs[1..], was, now);
    }
  }

  lemma {:induction false} UndividedDeleted(sem: Semantics, v: View, key: Key, ad: Ad)
    requires Undivided(sem, v)
    ensures Deleted(sem, v, key, ad).Some?
    decreases v
  {
    UndividedDeletedAll(sem, v.subs, key, ad);
  }

  lemma {:induction false} UndividedDeletedAll(sem: Semantics, vs: seq<View>, key: Key, ad: Ad)
    requires UndividedAll(sem, vs)
    ensures DeletedAll(sem, vs, key, ad).Some?
    decreases vs
  {
    if vs != [] {
      UndividedDeleted(sem, vs[0], key, ad);
      UndividedDeletedAll(sem, vs[1..], key, ad);
    }
  }

  lemma {:induction false} UndividedModified(sem: Semantics, v: View, registry: set<string>, key: Key, was: Ad, ad: Ad)
    requires Undivided(sem, v) && Noted(sem, v, was)
    ensures Modified(sem, v, registry, key, ad).status.Done?
    decreases v
  {
    hide Inserted;
    hide Deleted;
    hide Rerank;
    UndividedInserted(sem, v, registry, key, ad);
    UndividedDeleted(sem, v, key, ad);
    UndividedModifiedAll(sem, v.subs, registry, key, was, ad);
  }

  lemma {:induction false} UndividedModifiedAll(
    sem: Semantics, vs: seq<View>, registry: set<string>, key: Key, was: Ad, ad: Ad)
    requires UndividedAll(sem, vs) && NotedAll(sem, vs, was)
    ensures ModifiedAll(sem, vs, registry, key, ad).status.Done?
    decreases vs
  {
    hide Noted;
    hide Modified;
    if vs != [] {
      UndividedModified(sem, vs[0], registry, key, was, ad);
      UndividedModifiedAll(sem, vs[1..], Modified(sem, vs[0], registry, key, ad).registry, key, was, ad);
    }
  }

  // -------------------------------------------------------- a stale partition

  /** A constraint that empty ads meet, and a partition by whether the ad is empty. */
  function EmptyOnly(): (sem: Semantics) {
    Semantics((info: Ad, ad: Ad) => ad == [], (info: Ad, ad: Ad) => Undefined,
              (info: Ad, ad: Ad) => if ad == [] then "<|true|>" else "<|false|>", (info: Ad) => "view")
  }

  /** An ad that leaves a view while its signature changes is looked for in the wrong partition:
      the internal-error exception is reached from a tree that was in order. */
  lemma LeavingCounterexample()
    ensures var m := Member(Undefined, "k");
            var roster := Roster([m], map["k" := m]);
            var v := View("view", [], roster, "<|true|>", [], map["<|true|>" := roster]);
            var ad := [Attr("a", Literal(Undefined))];
            && Current(EmptyOnly(), v, map["k" := []]) && Noted(EmptyOnly(), v, [])
            && Modified(EmptyOnly(), v, {"view", "view:<|true|>"}, "k", ad).status.Thrown?
  {
    hide Before;
    var sem := EmptyOnly();
    var m := Member(Undefined, "k");
    var roster := Roster([m], map["k" := m]);
    assert roster.members[0].key == "k";
    var content: map<Key, Ad> := map["k" := []];
    assert Selected(sem, [], content) == content;
    assert PartCurrent(sem, [], "<|true|>", roster, content);
    assert "<|true|>"[2] != "<|false|>"[2];
  }
}
