/** The registry of view names against the names in the tree. */
module ViewRegistry {
  import opened Expressions
  import opened Members
  import opened Rosters
  import opened Views

  /** The registry holds each name of the view tree once, and otherwise `others`. */
  ghost predicate Registered(v: View, registry: set<string>, others: multiset<string>) {
    Names(v) + others == multiset(registry)
  }

  ghost predicate RegisteredAll(vs: seq<View>, registry: set<string>, others: multiset<string>) {
    NamesAll(vs) + others == multiset(registry)
  }

  ghost function PartNames(v: View): (r: set<string>) {
    set s | s in v.parts :: PartName(v.name, s)
  }

  lemma PartNameUnique(view: string, s: string, t: string)
    requires PartName(view, s) == PartName(view, t)
    ensures s == t
  {
    var n := |view| + 1;
    assert PartName(view, s)[n..] == s && PartName(view, t)[n..] == t;
  }

  lemma FiledNames(v: View, registry: set<string>, key: Key, signature: string, others: multiset<string>)
    requires Registered(v, registry, others)
    ensures var r := Filed(v, registry, key, signature);
            && Registered(r.view, r.registry, others)
            && r.view == v.(parts := r.view.parts)
  {
    hide Enrol;
    hide PartName;
    var r := Filed(v, registry, key, signature);
    if r.view.parts.Keys == v.parts.Keys {
      SamePartNames(v, r.view);
    } else {
      NewPartNamed(v, r.view, signature);
      AddToRegistry(registry, PartName(v.name, signature));
    }
  }

  lemma SamePartNames(v: View, w: View)
    requires v.name == w.name && v.subs == w.subs && v.parts.Keys == w.parts.Keys
    ensures Names(v) == Names(w)
  {
    hide PartName;
    assert PartNames(v) == PartNames(w);
  }

  lemma NewPartNamed(v: View, w: View, signature: string)
    requires v.name == w.name && v.subs == w.subs && signature !in v.parts
    requires w.parts.Keys == v.parts.Keys + {signature}
    ensures Names(w) == Names(v) + multiset{PartName(v.name, signature)}
  {
    hide PartName;
    var name := PartName(v.name, signature);
    NewPartName(v, signature);
    assert PartNames(w) == PartNames(v) + {name};
    AddToRegistry(PartNames(v), name);
  }

  lemma AddToRegistry(registry: set<string>, name: string)
    requires name !in registry
    ensures multiset(registry + {name}) == multiset(registry) + multiset{name}
  {
  }

  lemma NewPartName(v: View, signature: string)
    requires signature !in v.parts
    ensures PartName(v.name, signature) !in PartNames(v)
  {
    hide PartName;
    forall s | s in v.parts ensures PartName(v.name, s) != PartName(v.name, signature) {
      if PartName(v.name, s) == PartName(v.name, signature) {
        PartNameUnique(v.name, s, signature);
      }
    }
  }

  lemma UnfiledNames(v: View, key: Key, signature: string)
    ensures var r := Unfiled(v, key, signature);
            r.Some? ==> Names(r.value) == Names(v) && r.value == v.(parts := r.value.parts)
  {
    var r := Unfiled(v, key, signature);
    if r.Some? {
      assert PartNames(r.value) == PartNames(v);
    }
  }

  lemma {:induction false} InsertedNames(
    sem: Semantics, v: View, registry: set<string>, key: Key, ad: Ad, others: multiset<string>)
    requires Registered(v, registry, others)
    ensures var r := Inserted(sem, v, registry, key, ad); Registered(r.view, r.registry, others)
    decreases v
  {
    hide Filed;
    if sem.matches(v.info, ad) {
      var rest := others + multiset{v.name} + multiset(PartNames(v));
      InsertedAllNames(sem, v.subs, registry, key, ad, rest);
      var below := InsertedAll(sem, v.subs, registry, key, ad);
      var v1 := v.(subs := below.views);
      assert PartNames(v1) == PartNames(v);
      assert Registered(v1, below.registry, others);
      FiledNames(v1, below.registry, key, sem.signature(v.info, ad), others);
    }
  }

  lemma {:induction false} InsertedAllNames(
    sem: Semantics, vs: seq<View>, registry: set<string>, key: Key, ad: Ad, others: multiset<string>)
    requires RegisteredAll(vs, registry, others)
    ensures var r := InsertedAll(sem, vs, registry, key, ad); RegisteredAll(r.views, r.registry, others)
    decreases vs
  {
    hide Names;
    if vs != [] {
      InsertedNames(sem, vs[0], registry, key, ad, NamesAll(vs[1..]) + others);
      var first := Inserted(sem, vs[0], registry, key, ad);
      if first.status.Done? {
        InsertedAllNames(sem, vs[1..], first.registry, key, ad, Names(first.view) + others);
      }
    }
  }

  lemma {:induction false} DeletedNames(sem: Semantics, v: View, key: Key, ad: Ad)
    ensures var r := Deleted(sem, v, key, ad); r.Some? ==> Names(r.value) == Names(v)
    decreases v
  {
    hide Unfiled;
    DeletedAllNames(sem, v.subs, key, ad);
    var below := DeletedAll(sem, v.subs, key, ad);
    if key in v.roster.index && below.Some? {
      var v1 := v.(subs := below.value, roster := Dismiss(v.roster, key));
      assert PartNames(v1) == PartNames(v);
      assert Names(v1) == Names(v);
      UnfiledNames(v1, key, sem.signature(v.info, ad));
    }
  }

  lemma {:induction false} DeletedAllNames(sem: Semantics, vs: seq<View>, key: Key, ad: Ad)
    ensures var r := DeletedAll(sem, vs, key, ad); r.Some? ==> NamesAll(r.value) == NamesAll(vs)
    decreases vs
  {
    hide Names;
    if vs != [] {
      DeletedNames(sem, vs[0], key, ad);
      DeletedAllNames(sem, vs[1..], key, ad);
    }
  }

  lemma {:induction false} PreModifiedNames(sem: Semantics, v: View, ad: Ad)
    ensures Names(PreModified(sem, v, ad)) == Names(v)
    decreases v
  {
    PreModifiedAllNames(sem, v.subs, ad);
    assert PartNames(PreModified(sem, v, ad)) == PartNames(v);
  }

  lemma {:induction false} PreModifiedAllNames(sem: Semantics, vs: seq<View>, ad: Ad)
    ensures NamesAll(PreModifiedAll(sem, vs, ad)) == NamesAll(vs)
    decreases vs
  {
    hide Names;
    if vs != [] {
      PreModifiedNames(sem, vs[0], ad);
      PreModifiedAllNames(sem, vs[1..], ad);
    }
  }

  lemma SameNames(v: View, w: View)
    requires v.name == w.name && v.subs == w.subs && v.parts == w.parts
    ensures Names(v) == Names(w)
  {
  }

  lemma MovedNames(v: View, registry: set<string>, key: Key, signature: string, others: multiset<string>)
    requires Registered(v, registry, others)
    ensures var r := Moved(v, registry, key, signature);
            && Registered(r.view, r.registry, others)
            && r.view == v.(parts := r.view.parts)
  {
    hide Filed;
    hide Unfiled;
    hide Names;
    UnfiledNames(v, key, v.oldSignature);
    var v' := Unfiled(v, key, v.oldSignature);
    if signature != v.oldSignature && v'.Some? {
      FiledNames(v'.value, registry, key, signature, others);
    }
  }

  lemma {:induction false} ModifiedNames(
    sem: Semantics, v: View, registry: set<string>, key: Key, ad: Ad, others: multiset<string>)
    requires Registered(v, registry, others)
    ensures var r := Modified(sem, v, registry, key, ad); Registered(r.view, r.registry, others)
    decreases v
  {
    hide Names;
    hide Inserted;
    hide Deleted;
    hide Moved;
    var wasMember, match' := key in v.roster.index, sem.matches(v.info, ad);
    var r := Modified(sem, v, registry, key, ad);
    if wasMember && match' {
      StaysNames(sem, v, registry, key, ad, others);
    } else if match' {
      InsertedNames(sem, v, registry, key, ad, others);
      SameNames(Inserted(sem, v, registry, key, ad).view, r.view);
    } else if wasMember {
      DeletedNames(sem, v, key, ad);
      var d := Deleted(sem, v, key, ad);
      if d.Some? {
        SameNames(d.value, r.view);
      }
    } else {
      SameNames(v, r.view);
    }
  }

  lemma {:induction false} StaysNames(
    sem: Semantics, v: View, registry: set<string>, key: Key, ad: Ad, others: multiset<string>)
    requires Registered(v, registry, others) && key in v.roster.index && sem.matches(v.info, ad)
    ensures var r := Modified(sem, v, registry, key, ad); Registered(r.view, r.registry, others)
    decreases v, 0
  {
    hide Moved;
    hide Rerank;
    var v1 := v.(roster := Rerank(v.roster, key, sem.rank(v.info, ad)));
    SameNames(v, v1);
    MovedNames(v1, registry, key, sem.signature(v.info, ad), others);
    var moved := Moved(v1, registry, key, sem.signature(v.info, ad));
    if moved.status.Done? {
      var rest := others + multiset{v.name} + multiset(PartNames(moved.view));
      ModifiedAllNames(sem, v.subs, moved.registry, key, ad, rest);
      var below := ModifiedAll(sem, v.subs, moved.registry, key, ad);
      assert PartNames(moved.view.(subs := below.views)) == PartNames(moved.view);
      assert PartNames(moved.view.(subs := below.views, oldSignature := "")) == PartNames(moved.view);
    }
  }

  lemma {:induction false} ModifiedAllNames(
    sem: Semantics, vs: seq<View>, registry: set<string>, key: Key, ad: Ad, others: multiset<string>)
    requires RegisteredAll(vs, registry, others)
    ensures var r := ModifiedAll(sem, vs, registry, key, ad); RegisteredAll(r.views, r.registry, others)
    decreases vs
  {
    hide Names;
    hide Modified;
    if vs != [] {
      ModifiedNames(sem, vs[0], registry, key, ad, NamesAll(vs[1..]) + others);
      var first := Modified(sem, vs[0], registry, key, ad);
      if first.status.Done? {
        ModifiedAllNames(sem, vs[1..], first.registry, key, ad, Names(first.view) + others);
      }
    }
  }

  // -------------------------------------------------------------- sub-views

  lemma {:induction false} FilledNames(
    sem: Semantics, v: View, registry: set<string>, ms: seq<Member>, table: map<Key, Ad>, others: multiset<string>)
    requires Registered(v, registry, others)
    ensures var r := Filled(sem, v, registry, ms, table); Registered(r.view, r.registry, others)
    decreases |ms|
  {
    hide Inserted;
    hide Names;
    if ms != [] && ms[0].key in table {
      InsertedNames(sem, v, registry, ms[0].key, table[ms[0].key], others);
      var r := Inserted(sem, v, registry, ms[0].key, table[ms[0].key]);
      if r.status.Done? {
        FilledNames(sem, r.view, r.registry, ms[1..], table, others);
      }
    }
  }

  lemma CreatedNames(
    sem: Semantics, v: View, registry: set<string>, info: Ad, table: map<Key, Ad>, others: multiset<string>)
    requires Registered(v, registry, others)
    ensures var r := Created(sem, v, registry, info, table); Registered(r.view, r.registry, others)
  {
    hide Filled;
    var name := sem.viewName(info);
    if name !in registry {
      var fresh' := NewView(sem, info);
      assert PartNames(fresh') == {};
      assert Names(fresh') == multiset{name};
      AddToRegistry(registry, name);
      FilledNames(sem, fresh', registry + {name}, v.roster.members, table, Names(v) + others);
      var r := Created(sem, v, registry, info, table);
      OneMoreSub(v, r.view);
    }
  }

  lemma OneMoreSub(v: View, w: View)
    requires w.subs != [] && w.subs[1..] == v.subs && w.name == v.name && w.parts == v.parts
    ensures Names(w) == Names(w.subs[0]) + Names(v)
  {
    assert PartNames(w) == PartNames(v);
    assert NamesAll(w.subs) == Names(w.subs[0]) + NamesAll(v.subs);
  }

  lemma {:induction false} CreatedUnderNames(sem: Semantics, v: View, registry: set<string>, parent: string,
      info: Ad, table: map<Key, Ad>, others: multiset<string>)
    requires Registered(v, registry, others)
    ensures var r := CreatedUnder(sem, v, registry, parent, info, table); Registered(r.view, r.registry, others)
    decreases v
  {
    hide Created;
    if v.name == parent {
      CreatedNames(sem, v, registry, info, table, others);
    } else {
      var rest := others + multiset{v.name} + multiset(PartNames(v));
      CreatedUnderAllNames(sem, v.subs, registry, parent, info, table, rest);
      assert PartNames(CreatedUnder(sem, v, registry, parent, info, table).view) == PartNames(v);
    }
  }

  lemma {:induction false} CreatedUnderAllNames(sem: Semantics, vs: seq<View>, registry: set<string>, parent: string,
      info: Ad, table: map<Key, Ad>, others: multiset<string>)
    requires RegisteredAll(vs, registry, others)
    ensures var r := CreatedUnderAll(sem, vs, registry, parent, info, table); RegisteredAll(r.views, r.registry, others)
    decreases vs
  {
    hide Names;
    hide CreatedUnder;
    if vs != [] {
      if HasView(vs[0], parent) {
        CreatedUnderNames(sem, vs[0], registry, parent, info, table, NamesAll(vs[1..]) + others);
      } else {
        CreatedUnderAllNames(sem, vs[1..], registry, parent, info, table, Names(vs[0]) + others);
      }
    }
  }

  lemma {:induction false} UnregisteredNames(v: View, registry: set<string>, others: multiset<string>)
    requires Registered(v, registry, others)
    ensures multiset(Unregistered(v, registry)) == others
    decreases v
  {
    var parts := multiset(PartNames(v));
    assert v.name in multiset(registry);
    assert multiset(registry - {v.name}) == multiset(registry) - multiset{v.name};
    UnregisteredAllNames(v.subs, registry - {v.name}, parts + others);
    var left := UnregisteredAll(v.subs, registry - {v.name});
    assert PartNames(v) <= left by {
      forall x | x in PartNames(v) ensures x in left {
        assert x in multiset(left);
      }
    }
    assert multiset(left - PartNames(v)) == multiset(left) - multiset(PartNames(v));
  }

  lemma {:induction false} UnregisteredAllNames(vs: seq<View>, registry: set<string>, others: multiset<string>)
    requires RegisteredAll(vs, registry, others)
    ensures multiset(UnregisteredAll(vs, registry)) == others
    decreases vs
  {
    hide Names;
    hide Unregistered;
    if vs != [] {
      UnregisteredNames(vs[0], registry, NamesAll(vs[1..]) + others);
      UnregisteredAllNames(vs[1..], Unregistered(vs[0], registry), others);
    }
  }

  lemma {:induction false} DroppedNames(vs: seq<View>, registry: set<string>, name: string, others: multiset<string>)
    requires RegisteredAll(vs, registry, others)
    ensures var r := Dropped(vs, registry, name); r.Some? ==> RegisteredAll(r.value.0, r.value.1, others)
    decreases vs
  {
    hide Names;
    hide Unregistered;
    if vs != [] {
      if vs[0].name == name {
        UnregisteredNames(vs[0], registry, NamesAll(vs[1..]) + others);
      } else {
        DroppedNames(vs[1..], registry, name, Names(vs[0]) + others);
      }
    }
  }

  lemma {:induction false} DiscardedNames(v: View, registry: set<string>, name: string, others: multiset<string>)
    requires Registered(v, registry, others)
    ensures var r := Discarded(v, registry, name); Registered(r.view, r.registry, others)
    decreases v
  {
    var rest := others + multiset{v.name} + multiset(PartNames(v));
    DroppedNames(v.subs, registry, name, rest);
    DiscardedAllNames(v.subs, registry, name, rest);
    assert PartNames(Discarded(v, registry, name).view) == PartNames(v);
  }

  lemma {:induction false} DiscardedAllNames(
    vs: seq<View>, registry: set<string>, name: string, others: multiset<string>)
    requires RegisteredAll(vs, registry, others)
    ensures var r := DiscardedAll(vs, registry, name); RegisteredAll(r.views, r.registry, others)
    decreases vs
  {
    hide Names;
    hide Discarded;
    if vs != [] {
      DiscardedNames(vs[0], registry, name, NamesAll(vs[1..]) + others);
      DiscardedAllNames(vs[1..], registry, name, Names(vs[0]) + others);
    }
  }
}
