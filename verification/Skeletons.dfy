/** The shape of a view tree: names, descriptions and partition signatures, without what the views
    hold. */
module Skeletons {
  import opened Expressions
  import opened Members
  import opened Rosters
  import opened Views
  import opened ViewTheorems

  function Bare(v: View): (r: View)
    decreases v
  {
    View(v.name, v.info, NOBODY, "", BareAll(v.subs), BareParts(v.parts))
  }

  function BareParts(parts: map<string, Roster>): (r: map<string, Roster>) {
    map s | s in parts :: NOBODY
  }

  function BareAll(vs: seq<View>): (r: seq<View>)
    ensures |r| == |vs|
    decreases vs
  {
    if vs == [] then [] else [Bare(vs[0])] + BareAll(vs[1..])
  }

  lemma NoBareParts(parts: map<string, Roster>)
    ensures BareParts(parts) == map[] <==> parts == map[]
  {
    assert BareParts(parts).Keys == parts.Keys;
    assert parts == map[] <==> parts.Keys == {};
    assert BareParts(parts) == map[] <==> BareParts(parts).Keys == {};
  }

  /** Whether a tree is undivided is a matter of its shape. */
  lemma {:induction false} UndividedBare(sem: Semantics, v: View)
    ensures Undivided(sem, Bare(v)) <==> Undivided(sem, v)
    decreases v
  {
    hide Unsigned;
    UndividedAllBare(sem, v.subs);
    NoBareParts(v.parts);
  }

  lemma {:induction false} UndividedAllBare(sem: Semantics, vs: seq<View>)
    ensures UndividedAll(sem, BareAll(vs)) <==> UndividedAll(sem, vs)
    decreases vs
  {
    hide Bare;
    hide Undivided;
    if vs != [] {
      UndividedBare(sem, vs[0]);
      UndividedAllBare(sem, vs[1..]);
    }
  }

  lemma UndividedShape(sem: Semantics, v: View, w: View)
    requires Undivided(sem, v) && Bare(v) == Bare(w)
    ensures Undivided(sem, w)
  {
    hide Bare;
    hide Undivided;
    UndividedBare(sem, v);
    UndividedBare(sem, w);
  }

  /** In an undivided tree no operation on an ad changes the shape. */
  lemma {:induction false} InsertedBare(sem: Semantics, v: View, registry: set<string>, key: Key, ad: Ad)
    requires Undivided(sem, v)
    ensures var r := Inserted(sem, v, registry, key, ad);
            Bare(r.view) == Bare(v) && r.registry == registry
    decreases v
  {
    InsertedAllBare(sem, v.subs, registry, key, ad);
  }

  lemma {:induction false} InsertedAllBare(sem: Semantics, vs: seq<View>, registry: set<string>, key: Key, ad: Ad)
    requires UndividedAll(sem, vs)
    ensures var r := InsertedAll(sem, vs, registry, key, ad);
            BareAll(r.views) == BareAll(vs) && r.registry == registry
    decreases vs
  {
    hide Bare;
    hide Inserted;
    if vs != [] {
      InsertedBare(sem, vs[0], registry, key, ad);
      InsertedAllBare(sem, vs[1..], Inserted(sem, vs[0], registry, key, ad).registry, key, ad);
    }
  }

  lemma {:induction false} DeletedBare(sem: Semantics, v: View, key: Key, ad: Ad)
    ensures var r := Deleted(sem, v, key, ad); r.Some? ==> Bare(r.value) == Bare(v)
    decreases v
  {
    DeletedAllBare(sem, v.subs, key, ad);
    var r := Deleted(sem, v, key, ad);
    if r.Some? {
      assert BareParts(r.value.parts) == BareParts(v.parts);
    }
  }

  lemma {:induction false} DeletedAllBare(sem: Semantics, vs: seq<View>, key: Key, ad: Ad)
    ensures var r := DeletedAll(sem, vs, key, ad); r.Some? ==> BareAll(r.value) == BareAll(vs)
    decreases vs
  {
    hide Bare;
    hide Deleted;
    if vs != [] {
      DeletedBare(sem, vs[0], key, ad);
      DeletedAllBare(sem, vs[1..], key, ad);
    }
  }

  lemma {:induction false} PreModifiedBare(sem: Semantics, v: View, ad: Ad)
    ensures Bare(PreModified(sem, v, ad)) == Bare(v)
    decreases v
  {
    PreModifiedAllBare(sem, v.subs, ad);
  }

  lemma {:induction false} PreModifiedAllBare(sem: Semantics, vs: seq<View>, ad: Ad)
    ensures BareAll(PreModifiedAll(sem, vs, ad)) == BareAll(vs)
    decreases vs
  {
    hide Bare;
    hide PreModified;
    if vs != [] {
      PreModifiedBare(sem, vs[0], ad);
      PreModifiedAllBare(sem, vs[1..], ad);
    }
  }

  lemma {:induction false} ModifiedBare(sem: Semantics, v: View, registry: set<string>, key: Key, ad: Ad)
    requires Undivided(sem, v)
    ensures var r := Modified(sem, v, registry, key, ad);
            Bare(r.view) == Bare(v) && r.registry == registry
    decreases v
  {
    hide Inserted;
    hide Deleted;
    hide Rerank;
    InsertedBare(sem, v, registry, key, ad);
    DeletedBare(sem, v, key, ad);
    if key in v.roster.index && sem.matches(v.info, ad) {
      var v1 := v.(roster := Rerank(v.roster, key, sem.rank(v.info, ad)));
      var moved := Moved(v1, registry, key, sem.signature(v.info, ad));
      MovedBare(v1, registry, key, sem.signature(v.info, ad));
      ModifiedAllBare(sem, v.subs, moved.registry, key, ad);
    }
  }

  lemma MovedBare(v: View, registry: set<string>, key: Key, signature: string)
    ensures var r := Moved(v, registry, key, signature);
            && r.view == v.(parts := r.view.parts)
            && (signature == "" ==> r.registry == registry && BareParts(r.view.parts) == BareParts(v.parts))
  {
  }

  lemma {:induction false} ModifiedAllBare(sem: Semantics, vs: seq<View>, registry: set<string>, key: Key, ad: Ad)
    requires UndividedAll(sem, vs)
    ensures var r := ModifiedAll(sem, vs, registry, key, ad);
            BareAll(r.views) == BareAll(vs) && r.registry == registry
    decreases vs
  {
    hide Bare;
    hide Modified;
    if vs != [] {
      ModifiedBare(sem, vs[0], registry, key, ad);
      ModifiedAllBare(sem, vs[1..], Modified(sem, vs[0], registry, key, ad).registry, key, ad);
    }
  }

  // ------------------------------------------------------------- the shape's own operations

  /** A leaf put first among the sub-views of the view called `parent`. */
  function Grafted(v: View, parent: string, child: View): (r: View)
    decreases v
  {
    if v.name == parent then v.(subs := [child] + v.subs)
    else v.(subs := GraftedAll(v.subs, parent, child))
  }

  function GraftedAll(vs: seq<View>, parent: string, child: View): (r: seq<View>)
    decreases vs
  {
    if vs == [] then []
    else if HasView(vs[0], parent) then [Grafted(vs[0], parent, child)] + vs[1..]
    else [vs[0]] + GraftedAll(vs[1..], parent, child)
  }

  lemma {:induction false} HasViewBare(v: View, name: string)
    ensures HasView(Bare(v), name) == HasView(v, name)
    decreases v
  {
    HasViewAllBare(v.subs, name);
  }

  lemma {:induction false} HasViewAllBare(vs: seq<View>, name: string)
    ensures HasViewAll(BareAll(vs), name) == HasViewAll(vs, name)
    decreases vs
  {
    hide Bare;
    hide HasView;
    if vs != [] {
      HasViewBare(vs[0], name);
      HasViewAllBare(vs[1..], name);
    }
  }

  lemma {:induction false} FilledBare(
    sem: Semantics, v: View, registry: set<string>, ms: seq<Member>, table: map<Key, Ad>)
    requires Undivided(sem, v)
    ensures var r := Filled(sem, v, registry, ms, table);
            Bare(r.view) == Bare(v) && r.registry == registry
    decreases |ms|
  {
    hide Bare;
    hide Inserted;
    hide Undivided;
    if ms != [] && ms[0].key in table {
      InsertedBare(sem, v, registry, ms[0].key, table[ms[0].key]);
      var r := Inserted(sem, v, registry, ms[0].key, table[ms[0].key]);
      UndividedShape(sem, v, r.view);
      FilledBare(sem, r.view, r.registry, ms[1..], table);
    }
  }

  lemma {:induction false} UndividedFilled(
    sem: Semantics, v: View, registry: set<string>, ms: seq<Member>, table: map<Key, Ad>)
    requires Undivided(sem, v) && forall m :: m in ms ==> m.key in table
    ensures Filled(sem, v, registry, ms, table).status.Done?
    decreases |ms|
  {
    hide Inserted;
    hide Undivided;
    hide Bare;
    if ms != [] {
      assert ms[0] in ms;
      UndividedInserted(sem, v, registry, ms[0].key, table[ms[0].key]);
      var r := Inserted(sem, v, registry, ms[0].key, table[ms[0].key]);
      InsertedBare(sem, v, registry, ms[0].key, table[ms[0].key]);
      UndividedShape(sem, v, r.view);
      UndividedFilled(sem, r.view, r.registry, ms[1..], table);
    }
  }

  /** Creating a view without partition expressions succeeds exactly when its name is new and its
      parent is there; the shape then has a new leaf. */
  lemma {:induction false} CreatedUnderBare(sem: Semantics, v: View, registry: set<string>, parent: string,
      info: Ad, table: map<Key, Ad>, content: map<Key, Ad>)
    requires Unsigned(sem, info) && Current(sem, v, content)
    requires forall k :: k in content ==> k in table && table[k] == content[k]
    ensures var r := CreatedUnder(sem, v, registry, parent, info, table);
            var name := sem.viewName(info);
            && (r.status.Done? <==> HasView(v, parent) && name !in registry)
            && (r.status.Done? ==> Bare(r.view) == Grafted(Bare(v), parent, NewView(sem, info)))
            && (r.status.Done? ==> r.registry == registry + {name})
            && (r.status.Refused? ==> r.registry == registry && r.view == v)
    decreases v
  {
    hide Inserted;
    hide Filled;
    if v.name == parent {
      var fresh' := NewView(sem, info);
      var ms := v.roster.members;
      MembersLoaded(sem, v, table, content);
      UndividedFilled(sem, fresh', registry + {sem.viewName(info)}, ms, table);
      FilledBare(sem, fresh', registry + {sem.viewName(info)}, ms, table);
      assert Bare(fresh') == fresh';
      var r := CreatedUnder(sem, v, registry, parent, info, table);
      if r.status.Done? {
        assert r.view.subs[1..] == v.subs;
      }
    } else {
      hide RosterCurrent;
      hide PartsCurrent;
      CreatedUnderAllBare(sem, v.subs, registry, parent, info, table, Selected(sem, v.info, content));
    }
  }

  lemma {:induction false} CreatedUnderAllBare(sem: Semantics, vs: seq<View>, registry: set<string>, parent: string,
      info: Ad, table: map<Key, Ad>, content: map<Key, Ad>)
    requires Unsigned(sem, info) && CurrentAll(sem, vs, content)
    requires forall k :: k in content ==> k in table && table[k] == content[k]
    ensures var r := CreatedUnderAll(sem, vs, registry, parent, info, table);
            var name := sem.viewName(info);
            && (r.status.Done? <==> HasViewAll(vs, parent) && name !in registry)
            && (r.status.Done? ==> BareAll(r.views) == GraftedAll(BareAll(vs), parent, NewView(sem, info)))
            && (r.status.Done? ==> r.registry == registry + {name})
            && (r.status.Refused? ==> r.registry == registry && r.views == vs)
    decreases vs
  {
    hide Current;
    hide Bare;
    hide CreatedUnder;
    hide HasView;
    hide NewView;
    if vs != [] {
      HasViewBare(vs[0], parent);
      if HasView(vs[0], parent) {
        CreatedUnderBare(sem, vs[0], registry, parent, info, table, content);
      } else {
        CreatedUnderAllBare(sem, vs[1..], registry, parent, info, table, content);
      }
    }
  }

  /** Taking a view out does the same to a tree and to its shape. */
  lemma {:induction false} UnregisteredBare(v: View, registry: set<string>)
    ensures Unregistered(Bare(v), registry) == Unregistered(v, registry)
    decreases v
  {
    UnregisteredAllBare(v.subs, registry - {v.name});
  }

  lemma {:induction false} UnregisteredAllBare(vs: seq<View>, registry: set<string>)
    ensures UnregisteredAll(BareAll(vs), registry) == UnregisteredAll(vs, registry)
    decreases vs
  {
    hide Bare;
    hide Unregistered;
    if vs != [] {
      UnregisteredBare(vs[0], registry);
      UnregisteredAllBare(vs[1..], Unregistered(vs[0], registry));
    }
  }

  lemma {:induction false} DroppedBare(vs: seq<View>, registry: set<string>, name: string)
    ensures var r, b := Dropped(vs, registry, name), Dropped(BareAll(vs), registry, name);
            && (r.Some? <==> b.Some?)
            && (r.Some? ==> BareAll(r.value.0) == b.value.0 && r.value.1 == b.value.1)
    decreases vs
  {
    hide Unregistered;
    if vs != [] {
      DroppedBare(vs[1..], registry, name);
      UnregisteredBare(vs[0], registry);
    }
  }

  lemma {:induction false} DiscardedBare(v: View, registry: set<string>, name: string)
    ensures var r, b := Discarded(v, registry, name), Discarded(Bare(v), registry, name);
            r.status == b.status && Bare(r.view) == b.view && r.registry == b.registry
    decreases v
  {
    hide Dropped;
    DroppedBare(v.subs, registry, name);
    DiscardedAllBare(v.subs, registry, name);
  }

  lemma {:induction false} DiscardedAllBare(vs: seq<View>, registry: set<string>, name: string)
    ensures var r, b := DiscardedAll(vs, registry, name), DiscardedAll(BareAll(vs), registry, name);
            r.status == b.status && BareAll(r.views) == b.views && r.registry == b.registry
    decreases vs
  {
    hide Bare;
    hide Discarded;
    if vs != [] {
      DiscardedBare(vs[0], registry, name);
      DiscardedAllBare(vs[1..], registry, name);
    }
  }

  // ---------------------------------------------------------------- membership

  lemma {:induction false} BareSub(vs: seq<View>, i: nat)
    requires i < |vs|
    ensures BareAll(vs)[i] == Bare(vs[i])
  {
    hide Bare;
    if i > 0 {
      BareSub(vs[1..], i - 1);
    }
  }

  lemma {:induction false} AtBare(sem: Semantics, v: View, path: seq<nat>, ad: Ad)
    ensures At(Bare(v), path).Some? <==> At(v, path).Some?
    ensures Passes(sem, Bare(v), path, ad) <==> Passes(sem, v, path, ad)
    decreases |path|
  {
    if path != [] && path[0] < |v.subs| {
      BareSub(v.subs, path[0]);
      AtBare(sem, v.subs[path[0]], path[1..], ad);
    }
  }

  /** Two trees of one shape, both current over the same ads, have the same views holding the same
      keys. */
  lemma SameMembership(sem: Semantics, v: View, w: View, content: map<Key, Ad>, path: seq<nat>, k: Key)
    requires Bare(v) == Bare(w) && Current(sem, v, content) && Current(sem, w, content)
    ensures At(v, path).Some? <==> At(w, path).Some?
    ensures At(v, path).Some? ==> (k in At(v, path).value.roster.index <==> k in At(w, path).value.roster.index)
  {
    hide Bare;
    hide Current;
    hide At;
    hide Passes;
    var ad := if k in content then content[k] else [];
    AtBare(sem, v, path, ad);
    AtBare(sem, w, path, ad);
    if At(v, path).Some? {
      HoldsExactlyTheMatching(sem, v, content, path, k);
      HoldsExactlyTheMatching(sem, w, content, path, k);
    }
  }
}
