/** View trees with partitions under the operations of a collection: partitions only come into being, and
    a tree that has room for an ad does not refuse it. */
module Partitions {
  import opened Expressions
  import opened Members
  import opened Rosters
  import opened Views
  import opened ViewTheorems
  import opened ViewRegistry
  import opened Transactions
  import opened Collections

  /** The views, partitioned or not, hold what the table makes them hold, and the registry names them. */
  ghost predicate Kept(rules: Rules, st: State) {
    Current(rules.views, st.root, st.table) && Registered(st.root, st.registry, multiset{})
  }

  // ------------------------------------------------- partitions only come into being

  /** The same views by the same descriptions, with at least the same partitions. */
  ghost predicate Grows(v: View, w: View)
    decreases v
  {
    && v.name == w.name && v.info == w.info && v.parts.Keys <= w.parts.Keys
    && GrowsAll(v.subs, w.subs)
  }

  ghost predicate GrowsAll(vs: seq<View>, ws: seq<View>)
    decreases vs
  {
    if vs == [] then ws == []
    else ws != [] && Grows(vs[0], ws[0]) && GrowsAll(vs[1..], ws[1..])
  }

  lemma {:induction false} GrowsSelf(v: View)
    ensures Grows(v, v)
    decreases v
  {
    GrowsAllSelf(v.subs);
  }

  lemma {:induction false} GrowsAllSelf(vs: seq<View>)
    ensures GrowsAll(vs, vs)
    decreases vs
  {
    hide Grows;
    if vs != [] {
      GrowsSelf(vs[0]);
      GrowsAllSelf(vs[1..]);
    }
  }

  lemma {:induction false} GrowsOn(u: View, v: View, w: View)
    requires Grows(u, v) && Grows(v, w)
    ensures Grows(u, w)
    decreases u
  {
    GrowsAllOn(u.subs, v.subs, w.subs);
  }

  lemma {:induction false} GrowsAllOn(us: seq<View>, vs: seq<View>, ws: seq<View>)
    requires GrowsAll(us, vs) && GrowsAll(vs, ws)
    ensures GrowsAll(us, ws)
    decreases us
  {
    hide Grows;
    if us != [] {
      GrowsOn(us[0], vs[0], ws[0]);
      GrowsAllOn(us[1..], vs[1..], ws[1..]);
    }
  }

  lemma {:induction false} InsertedGrows(sem: Semantics, v: View, registry: set<string>, key: Key, ad: Ad)
    ensures Grows(v, Inserted(sem, v, registry, key, ad).view)
    decreases v
  {
    hide Enrol;
    GrowsSelf(v);
    InsertedAllGrows(sem, v.subs, registry, key, ad);
  }

  lemma {:induction false} InsertedAllGrows(sem: Semantics, vs: seq<View>, registry: set<string>, key: Key, ad: Ad)
    ensures GrowsAll(vs, InsertedAll(sem, vs, registry, key, ad).views)
    decreases vs
  {
    hide Grows;
    hide Inserted;
    if vs != [] {
      var first := Inserted(sem, vs[0], registry, key, ad);
      InsertedGrows(sem, vs[0], registry, key, ad);
      InsertedAllGrows(sem, vs[1..], first.registry, key, ad);
      GrowsAllSelf(vs[1..]);
    }
  }

  lemma {:induction false} DeletedGrows(sem: Semantics, v: View, key: Key, ad: Ad)
    ensures var r := Deleted(sem, v, key, ad); r.Some? ==> Grows(v, r.value) && Grows(r.value, v)
    decreases v
  {
    hide Dismiss;
    GrowsSelf(v);
    DeletedAllGrows(sem, v.subs, key, ad);
  }

  lemma {:induction false} DeletedAllGrows(sem: Semantics, vs: seq<View>, key: Key, ad: Ad)
    ensures var r := DeletedAll(sem, vs, key, ad); r.Some? ==> GrowsAll(vs, r.value) && GrowsAll(r.value, vs)
    decreases vs
  {
    hide Grows;
    hide Deleted;
    if vs != [] {
      DeletedGrows(sem, vs[0], key, ad);
      DeletedAllGrows(sem, vs[1..], key, ad);
    }
  }

  lemma {:induction false} PreModifiedGrows(sem: Semantics, v: View, ad: Ad)
    ensures Grows(v, PreModified(sem, v, ad))
    decreases v
  {
    PreModifiedAllGrows(sem, v.subs, ad);
  }

  lemma {:induction false} PreModifiedAllGrows(sem: Semantics, vs: seq<View>, ad: Ad)
    ensures GrowsAll(vs, PreModifiedAll(sem, vs, ad))
    decreases vs
  {
    hide Grows;
    hide PreModified;
    if vs != [] {
      PreModifiedGrows(sem, vs[0], ad);
      PreModifiedAllGrows(sem, vs[1..], ad);
    }
  }

  lemma {:induction false} ModifiedGrows(sem: Semantics, v: View, registry: set<string>, key: Key, ad: Ad)
    ensures Grows(v, Modified(sem, v, registry, key, ad).view)
    decreases v
  {
    hide Inserted;
    hide Deleted;
    hide Rerank;
    hide Moved;
    GrowsSelf(v);
    InsertedGrows(sem, v, registry, key, ad);
    DeletedGrows(sem, v, key, ad);
    if key in v.roster.index && sem.matches(v.info, ad) {
      var v1 := v.(roster := Rerank(v.roster, key, sem.rank(v.info, ad)));
      var moved := Moved(v1, registry, key, sem.signature(v.info, ad));
      MovedParts(v1, registry, key, sem.signature(v.info, ad));
      ModifiedAllGrows(sem, v.subs, moved.registry, key, ad);
      GrowsAllSelf(v.subs);
    }
  }

  lemma MovedParts(v: View, registry: set<string>, key: Key, signature: string)
    ensures var r := Moved(v, registry, key, signature);
            r.view == v.(parts := r.view.parts) && v.parts.Keys <= r.view.parts.Keys
  {
  }

  lemma {:induction false} ModifiedAllGrows(sem: Semantics, vs: seq<View>, registry: set<string>, key: Key, ad: Ad)
    ensures GrowsAll(vs, ModifiedAll(sem, vs, registry, key, ad).views)
    decreases vs
  {
    hide Grows;
    hide Modified;
    if vs != [] {
      var first := Modified(sem, vs[0], registry, key, ad);
      ModifiedGrows(sem, vs[0], registry, key, ad);
      ModifiedAllGrows(sem, vs[1..], first.registry, key, ad);
      GrowsAllSelf(vs[1..]);
    }
  }

  /** Whether a change is clean is a matter of the descriptions alone. */
  lemma {:induction false} CleanStays(sem: Semantics, v: View, w: View, was: Ad, now: Ad)
    requires Grows(v, w)
    ensures CleanlyDeleted(sem, v, was, now) <==> CleanlyDeleted(sem, w, was, now)
    ensures CleanlyModified(sem, v, was, now) <==> CleanlyModified(sem, w, was, now)
    decreases v
  {
    CleanAllStays(sem, v.subs, w.subs, was, now);
  }

  lemma {:induction false} CleanAllStays(sem: Semantics, vs: seq<View>, ws: seq<View>, was: Ad, now: Ad)
    requires GrowsAll(vs, ws)
    ensures CleanlyDeletedAll(sem, vs, was, now) <==> CleanlyDeletedAll(sem, ws, was, now)
    ensures CleanlyModifiedAll(sem, vs, was, now) <==> CleanlyModifiedAll(sem, ws, was, now)
    decreases vs
  {
    hide Grows;
    hide CleanlyDeleted;
    hide CleanlyModified;
    if vs != [] {
      CleanStays(sem, vs[0], ws[0], was, now);
      CleanAllStays(sem, vs[1..], ws[1..], was, now);
    }
  }

  // ----------------------------------------------------- room for an ad

  /** Every view that would take the ad has the partition for it already. */
  ghost predicate HasRoom(sem: Semantics, v: View, ad: Ad)
    decreases v
  {
    sem.matches(v.info, ad) ==> HasPart(sem.signature(v.info, ad), v.parts) && HasRoomAll(sem, v.subs, ad)
  }

  ghost predicate HasRoomAll(sem: Semantics, vs: seq<View>, ad: Ad)
    decreases vs
  {
    vs != [] ==> HasRoom(sem, vs[0], ad) && HasRoomAll(sem, vs[1..], ad)
  }

  lemma {:induction false} RoomStays(sem: Semantics, v: View, w: View, ad: Ad)
    requires Grows(v, w) && HasRoom(sem, v, ad)
    ensures HasRoom(sem, w, ad)
    decreases v
  {
    if sem.matches(v.info, ad) {
      RoomAllStays(sem, v.subs, w.subs, ad);
    }
  }

  lemma {:induction false} RoomAllStays(sem: Semantics, vs: seq<View>, ws: seq<View>, ad: Ad)
    requires GrowsAll(vs, ws) && HasRoomAll(sem, vs, ad)
    ensures HasRoomAll(sem, ws, ad)
    decreases vs
  {
    hide Grows;
    hide HasRoom;
    if vs != [] {
      RoomStays(sem, vs[0], ws[0], ad);
      RoomAllStays(sem, vs[1..], ws[1..], ad);
    }
  }

  /** A current tree has room for the ads it holds. */
  lemma {:induction false} RoomForHeld(sem: Semantics, v: View, content: map<Key, Ad>, key: Key)
    requires Current(sem, v, content) && key in content
    ensures HasRoom(sem, v, content[key])
    decreases v
  {
    hide RosterCurrent;
    hide Steady;
    hide PartCurrent;
    var members := Selected(sem, v.info, content);
    if key in members {
      RoomAllForHeld(sem, v.subs, members, key);
    }
  }

  lemma {:induction false} RoomAllForHeld(sem: Semantics, vs: seq<View>, content: map<Key, Ad>, key: Key)
    requires CurrentAll(sem, vs, content) && key in content
    ensures HasRoomAll(sem, vs, content[key])
    decreases vs
  {
    hide Current;
    hide HasRoom;
    if vs != [] {
      RoomForHeld(sem, vs[0], content, key);
      RoomAllForHeld(sem, vs[1..], content, key);
    }
  }

  /** With room, views never refuse. */
  lemma {:induction false} RoomyInserted(sem: Semantics, v: View, registry: set<string>, key: Key, ad: Ad)
    requires HasRoom(sem, v, ad)
    ensures Inserted(sem, v, registry, key, ad).status.Done?
    decreases v
  {
    if sem.matches(v.info, ad) {
      RoomyInsertedAll(sem, v.subs, registry, key, ad);
    }
  }

  lemma {:induction false} RoomyInsertedAll(sem: Semantics, vs: seq<View>, registry: set<string>, key: Key, ad: Ad)
    requires HasRoomAll(sem, vs, ad)
    ensures InsertedAll(sem, vs, registry, key, ad).status.Done?
    decreases vs
  {
    hide HasRoom;
    hide Inserted;
    if vs != [] {
      RoomyInserted(sem, vs[0], registry, key, ad);
      RoomyInsertedAll(sem, vs[1..], Inserted(sem, vs[0], registry, key, ad).registry, key, ad);
    }
  }

  lemma {:induction false} RoomyModified(sem: Semantics, v: View, registry: set<string>, key: Key, ad: Ad)
    requires HasRoom(sem, v, ad)
    ensures !Modified(sem, v, registry, key, ad).status.Refused?
    decreases v
  {
    hide Inserted;
    hide Deleted;
    hide Rerank;
    RoomyInserted(sem, v, registry, key, ad);
    if key in v.roster.index && sem.matches(v.info, ad) {
      var v1 := v.(roster := Rerank(v.roster, key, sem.rank(v.info, ad)));
      RoomyMoved(v1, registry, key, sem.signature(v.info, ad));
      hide Moved;
      RoomyModifiedAll(sem, v.subs, Moved(v1, registry, key, sem.signature(v.info, ad)).registry, key, ad);
    }
  }

  lemma RoomyMoved(v: View, registry: set<string>, key: Key, signature: string)
    requires HasPart(signature, v.parts)
    ensures !Moved(v, registry, key, signature).status.Refused?
  {
  }

  lemma {:induction false} RoomyModifiedAll(sem: Semantics, vs: seq<View>, registry: set<string>, key: Key, ad: Ad)
    requires HasRoomAll(sem, vs, ad)
    ensures !ModifiedAll(sem, vs, registry, key, ad).status.Refused?
    decreases vs
  {
    hide HasRoom;
    hide Modified;
    if vs != [] {
      RoomyModified(sem, vs[0], registry, key, ad);
      RoomyModifiedAll(sem, vs[1..], Modified(sem, vs[0], registry, key, ad).registry, key, ad);
    }
  }

  // -------------------------------------------------------- pieces of operations

  lemma WithdrawnKept(rules: Rules, st: State, key: Key)
    requires Kept(rules, st) && key in st.table
    ensures var r := Withdrawn(rules, st, key);
            && r.status.Done? && Kept(rules, r.state) && r.state.table == st.table - {key}
            && Grows(st.root, r.state.root) && Grows(r.state.root, st.root) && r.state.registry == st.registry
  {
    hide Deleted;
    hide Current;
    hide Names;
    hide Grows;
    RemovedCleanly(rules.views, st.root, st.table[key]);
    DeletedCurrent(rules.views, st.root, key, st.table[key], st.table);
    DeletedNames(rules.views, st.root, key, st.table[key]);
    DeletedGrows(rules.views, st.root, key, st.table[key]);
  }

  lemma AdmittedKept(rules: Rules, st: State, key: Key, ad: Ad)
    requires Kept(rules, st) && key !in st.table && Admitted(rules, st, key, ad).status.Done?
    ensures var r := Admitted(rules, st, key, ad);
            Kept(rules, r.state) && Grows(st.root, r.state.root) && r.state.table == st.table[key := ad]
  {
    hide Inserted;
    hide Current;
    hide Names;
    hide Grows;
    InsertedCurrent(rules.views, st.root, st.registry, key, ad, st.table);
    InsertedNames(rules.views, st.root, st.registry, key, ad, multiset{});
    InsertedGrows(rules.views, st.root, st.registry, key, ad);
  }

  /** A change keeps the collection exactly if it is clean; a clean one does not throw, and with room it
      is not refused. */
  lemma ChangedKept(rules: Rules, st: State, key: Key, ad: Ad)
    requires Kept(rules, st) && key in st.table
    ensures var r := Changed(rules, st, key, ad);
            var clean := CleanlyModified(rules.views, st.root, st.table[key], ad);
            && (r.status.Done? ==> (Kept(rules, r.state) <==> clean))
            && (clean ==> !r.status.Thrown?)
            && (HasRoom(rules.views, st.root, ad) ==> !r.status.Refused?)
            && Grows(st.root, r.state.root) && r.state.table == st.table[key := ad]
  {
    hide Modified;
    hide PreModified;
    hide Current;
    hide Noted;
    hide Names;
    hide Grows;
    hide HasRoom;
    hide CleanlyModified;
    var was := st.table[key];
    var noted := PreModified(rules.views, st.root, was);
    PreModifiedNoted(rules.views, st.root, was);
    PreModifiedCurrent(rules.views, st.root, was, st.table);
    PreModifiedNames(rules.views, st.root, was);
    PreModifiedGrows(rules.views, st.root, was);
    CleanStays(rules.views, st.root, noted, was, ad);
    ModifiedCurrent(rules.views, noted, st.registry, key, ad, st.table);
    ModifiedNames(rules.views, noted, st.registry, key, ad, multiset{});
    ModifiedGrows(rules.views, noted, st.registry, key, ad);
    GrowsOn(st.root, noted, Changed(rules, st, key, ad).state.root);
    if HasRoom(rules.views, st.root, ad) {
      RoomStays(rules.views, st.root, noted, ad);
      RoomyModified(rules.views, noted, st.registry, key, ad);
    }
  }
}
