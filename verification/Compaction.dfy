/** The compacted log: one record for each view, parents first, then one for each ad. Since a new view
    goes in front of its siblings, replaying it rebuilds the tree with siblings in reverse order. */
module Compaction {
  import opened Expressions
  import opened Members
  import opened Rosters
  import opened Views
  import opened ViewTheorems
  import opened ViewRegistry
  import opened Skeletons
  import opened Transactions
  import opened Collections
  import opened Orderly
  import opened Runs
  import opened Recovery

  function Mirror(v: View): (r: View)
    decreases v
  {
    View(v.name, v.info, NOBODY, "", MirrorAll(v.subs), map[])
  }

  function MirrorAll(vs: seq<View>): (r: seq<View>)
    decreases vs
  {
    if vs == [] then [] else MirrorAll(vs[1..]) + [Mirror(vs[0])]
  }

  /** Views called what their descriptions say. */
  ghost predicate NamedAll(sem: Semantics, vs: seq<View>)
    decreases vs
  {
    vs != [] ==>
      && vs[0].name == sem.viewName(vs[0].info)
      && NamedAll(sem, vs[0].subs) && NamedAll(sem, vs[1..])
  }

  /** Such views without partitions, of uniform descriptions. */
  ghost predicate PlainAll(sem: Semantics, vs: seq<View>)
    decreases vs
  {
    vs != [] ==>
      && vs[0].parts == map[] && vs[0].name == sem.viewName(vs[0].info) && Uniform(sem, vs[0].info)
      && PlainAll(sem, vs[0].subs) && PlainAll(sem, vs[1..])
  }

  lemma {:induction false} PlainInOrder(sem: Semantics, vs: seq<View>, content: map<Key, Ad>)
    requires NamedAll(sem, vs) && UndividedAll(sem, vs) && CurrentAll(sem, vs, content)
    ensures PlainAll(sem, vs)
    decreases vs
  {
    hide RosterCurrent;
    hide PartsCurrent;
    hide Unsigned;
    hide Steady;
    if vs != [] {
      PlainInOrder(sem, vs[0].subs, Selected(sem, vs[0].info, content));
      PlainInOrder(sem, vs[1..], content);
    }
  }

  // -------------------------------------------------------------- grafting

  ghost predicate Once(names: multiset<string>) {
    forall n :: names[n] <= 1
  }

  lemma {:induction false} HasViewNamed(v: View, name: string)
    requires HasView(v, name)
    ensures Names(v)[name] >= 1
    decreases v
  {
    if v.name != name {
      HasViewAllNamed(v.subs, name);
    }
  }

  lemma {:induction false} HasViewAllNamed(vs: seq<View>, name: string)
    requires HasViewAll(vs, name)
    ensures NamesAll(vs)[name] >= 1
    decreases vs
  {
    hide Names;
    if HasView(vs[0], name) {
      HasViewNamed(vs[0], name);
    } else {
      HasViewAllNamed(vs[1..], name);
    }
  }

  /** Grafting adds exactly the names of what is grafted, and makes its views findable. */
  lemma {:induction false} GraftedNames(v: View, parent: string, child: View)
    requires HasView(v, parent)
    ensures Names(Grafted(v, parent, child)) == Names(v) + Names(child)
    decreases v
  {
    var r := Grafted(v, parent, child);
    assert PartNames(r) == PartNames(v);
    if v.name == parent {
      OneMoreSub(v, r);
    } else {
      GraftedAllNames(v.subs, parent, child);
    }
  }

  lemma {:induction false} GraftedAllNames(vs: seq<View>, parent: string, child: View)
    requires HasViewAll(vs, parent)
    ensures NamesAll(GraftedAll(vs, parent, child)) == NamesAll(vs) + Names(child)
    decreases vs
  {
    hide Names;
    hide HasView;
    hide Grafted;
    if HasView(vs[0], parent) {
      GraftedNames(vs[0], parent, child);
    } else {
      GraftedAllNames(vs[1..], parent, child);
    }
  }

  lemma {:induction false} GraftedHas(v: View, parent: string, child: View, name: string)
    requires HasView(v, parent)
    ensures HasView(Grafted(v, parent, child), name) <==> HasView(v, name) || HasView(child, name)
    decreases v
  {
    if v.name == parent {
      assert Grafted(v, parent, child).subs[1..] == v.subs;
    } else {
      GraftedAllHas(v.subs, parent, child, name);
    }
  }

  lemma {:induction false} GraftedAllHas(vs: seq<View>, parent: string, child: View, name: string)
    requires HasViewAll(vs, parent)
    ensures HasViewAll(GraftedAll(vs, parent, child), name) <==> HasViewAll(vs, name) || HasView(child, name)
    decreases vs
  {
    hide HasView;
    hide Grafted;
    if HasView(vs[0], parent) {
      GraftedHas(vs[0], parent, child, name);
    } else {
      GraftedAllHas(vs[1..], parent, child, name);
    }
  }

  /** Grafting into what was just grafted is grafting it already grown. */
  lemma {:induction false} GraftedInto(v: View, parent: string, child: View, name: string, leaf: View)
    requires HasView(v, parent) && HasView(child, name) && !HasView(v, name)
    ensures Grafted(Grafted(v, parent, child), name, leaf) == Grafted(v, parent, Grafted(child, name, leaf))
    decreases v
  {
    if v.name == parent {
      var r := Grafted(v, parent, child);
      assert r.subs[0] == child && r.subs[1..] == v.subs;
      assert GraftedAll(r.subs, name, leaf) == [Grafted(child, name, leaf)] + v.subs;
    } else {
      GraftedAllInto(v.subs, parent, child, name, leaf);
    }
  }

  lemma {:induction false} GraftedAllInto(vs: seq<View>, parent: string, child: View, name: string, leaf: View)
    requires HasViewAll(vs, parent) && HasView(child, name) && !HasViewAll(vs, name)
    ensures GraftedAll(GraftedAll(vs, parent, child), name, leaf) == GraftedAll(vs, parent, Grafted(child, name, leaf))
    decreases vs
  {
    hide Grafted;
    hide HasView;
    hide Names;
    var r := GraftedAll(vs, parent, child);
    if HasView(vs[0], parent) {
      GraftedInto(vs[0], parent, child, name, leaf);
      GraftedHas(vs[0], parent, child, name);
      assert r[1..] == vs[1..];
    } else {
      GraftedAllInto(vs[1..], parent, child, name, leaf);
      assert r[1..] == GraftedAll(vs[1..], parent, child);
    }
  }

  // ---------------------------------------------------------- what is built

  /** The tree with the mirror images of these views grafted in turn. */
  ghost function Planted(v: View, parent: string, vs: seq<View>): (r: View)
    decreases vs
  {
    if vs == [] then v else Planted(Grafted(v, parent, Mirror(vs[0])), parent, vs[1..])
  }

  lemma {:induction false} PlantedOnRoot(v: View, vs: seq<View>)
    ensures Planted(v, v.name, vs) == v.(subs := MirrorAll(vs) + v.subs)
    decreases vs
  {
    hide Mirror;
    if vs == [] {
      assert MirrorAll(vs) + v.subs == v.subs;
    } else {
      var m := Mirror(vs[0]);
      var v1 := v.(subs := [m] + v.subs);
      PlantedOnRoot(v1, vs[1..]);
      assert MirrorAll(vs[1..]) + ([m] + v.subs) == (MirrorAll(vs[1..]) + [m]) + v.subs;
    }
  }

  lemma {:induction false} PlantedInto(v: View, parent: string, child: View, vs: seq<View>)
    requires HasView(v, parent) && !HasView(v, child.name)
    ensures Planted(Grafted(v, parent, child), child.name, vs) == Grafted(v, parent, Planted(child, child.name, vs))
    decreases vs
  {
    hide Mirror;
    if vs != [] {
      var m := Mirror(vs[0]);
      GraftedInto(v, parent, child, child.name, m);
      PlantedInto(v, parent, Grafted(child, child.name, m), vs[1..]);
    }
  }

  /** Without partitions, the mirror image has the same names. */
  lemma {:induction false} MirrorNames(sem: Semantics, vs: seq<View>)
    requires PlainAll(sem, vs)
    ensures NamesAll(MirrorAll(vs)) == NamesAll(vs)
    decreases vs
  {
    hide Names;
    hide Mirror;
    if vs != [] {
      MirrorNames(sem, vs[0].subs);
      MirrorNames(sem, vs[1..]);
      MirrorName(vs[0]);
      var last := [Mirror(vs[0])];
      NamesAppend(MirrorAll(vs[1..]), last);
      assert NamesAll(last[1..]) == multiset{};
      assert NamesAll(last) == Names(last[0]);
    }
  }

  lemma MirrorName(v: View)
    requires v.parts == map[] && NamesAll(MirrorAll(v.subs)) == NamesAll(v.subs)
    ensures Names(Mirror(v)) == Names(v)
  {
    assert PartNames(Mirror(v)) == PartNames(v);
  }

  lemma {:induction false} NamesAppend(vs: seq<View>, ws: seq<View>)
    ensures NamesAll(vs + ws) == NamesAll(vs) + NamesAll(ws)
    decreases vs
  {
    hide Names;
    if vs == [] {
      assert vs + ws == ws;
    } else {
      assert (vs + ws)[1..] == vs[1..] + ws;
      NamesAppend(vs[1..], ws);
    }
  }

  lemma {:induction false} BareNames(v: View)
    ensures Names(Bare(v)) == Names(v)
    decreases v
  {
    BareAllNames(v.subs);
    assert PartNames(Bare(v)) == PartNames(v);
  }

  lemma {:induction false} BareAllNames(vs: seq<View>)
    ensures NamesAll(BareAll(vs)) == NamesAll(vs)
    decreases vs
  {
    hide Bare;
    hide Names;
    if vs != [] {
      BareNames(vs[0]);
      BareAllNames(vs[1..]);
    }
  }

  // ------------------------------------------------------ replaying the views

  lemma NewName(rules: Rules, st: State, name: string, others: multiset<string>)
    requires InOrder(rules, st) && Once(Names(st.root) + others) && others[name] >= 1
    ensures name !in st.registry && !HasView(Bare(st.root), name)
  {
    hide Names;
    hide Current;
    hide Undivided;
    hide HasView;
    hide Bare;
    assert (Names(st.root) + others)[name] <= 1;
    assert name in multiset(st.registry) <==> name in st.registry;
    if HasView(Bare(st.root), name) {
      HasViewNamed(Bare(st.root), name);
      BareNames(st.root);
    }
  }

  /** The first record makes a leaf. */
  lemma LeafMade(rules: Rules, c: Collection, parent: string, v: View, others: multiset<string>)
    requires InOrder(rules, c.state) && HasView(c.state.root, parent)
    requires v.parts == map[] && v.name == rules.views.viewName(v.info) && Uniform(rules.views, v.info)
    requires Once(Names(c.state.root) + Names(v) + others)
    ensures var r := Replay(rules, c, [CreateRecord(parent, v.info)]);
            && r.Some? && InOrder(rules, r.value.state) && r.value.state.table == c.state.table
            && Bare(r.value.state.root) == Grafted(Bare(c.state.root), parent, NewView(rules.views, v.info))
            && Names(r.value.state.root) == Names(c.state.root) + multiset{v.name}
            && HasView(r.value.state.root, v.name)
  {
    hide InOrder;
    hide ViewCreated;
    hide Replay;
    hide Bare;
    hide Grafted;
    assert Names(v)[v.name] >= 1;
    assert Names(c.state.root) + Names(v) + others == Names(c.state.root) + (Names(v) + others);
    NewName(rules, c.state, v.name, Names(v) + others);
    ReplayOne(rules, c, CreateRecord(parent, v.info));
    ViewCreatedInOrder(rules, c.state, parent, v.info);
    var r := Replay(rules, c, [CreateRecord(parent, v.info)]).value;
    LeafNames(rules, c.state.root, r.state.root, parent, v.info);
  }

  lemma LeafNames(rules: Rules, v: View, w: View, parent: string, info: Ad)
    requires HasView(v, parent) && Bare(w) == Grafted(Bare(v), parent, NewView(rules.views, info))
    ensures Names(w) == Names(v) + multiset{rules.views.viewName(info)}
    ensures HasView(w, rules.views.viewName(info))
  {
    hide Bare;
    hide Grafted;
    var leaf := NewView(rules.views, info);
    HasViewBare(v, parent);
    GraftedNames(Bare(v), parent, leaf);
    GraftedHas(Bare(v), parent, leaf, leaf.name);
    HasViewBare(w, leaf.name);
    BareNames(v);
    BareNames(w);
    assert PartNames(leaf) == {};
    assert Names(leaf) == multiset{leaf.name};
  }

  /** Replaying the records of these views below `parent` plants their mirror images there. */
  lemma {:induction false} ViewsReplayed(rules: Rules, c: Collection, parent: string, vs: seq<View>)
    requires InOrder(rules, c.state) && HasView(c.state.root, parent) && PlainAll(rules.views, vs)
    requires Once(Names(c.state.root) + NamesAll(vs))
    ensures var r := Replay(rules, c, ViewLog(parent, vs));
            && r.Some? && InOrder(rules, r.value.state) && r.value.state.table == c.state.table
            && Bare(r.value.state.root) == Planted(Bare(c.state.root), parent, vs)
    decreases vs
  {
    hide InOrder;
    hide Bare;
    hide Grafted;
    hide HasView;
    if vs != [] {
      var v := vs[0];
      var below, rest := ViewLog(v.name, v.subs), ViewLog(parent, vs[1..]);
      assert Names(c.state.root) + NamesAll(vs) == Names(c.state.root) + Names(v) + NamesAll(vs[1..]);
      LeafMade(rules, c, parent, v, NamesAll(vs[1..]));
      var c1 := Replay(rules, c, [CreateRecord(parent, v.info)]).value;
      hide Replay;
      OnceBelow(c.state.root, c1.state.root, v, NamesAll(vs[1..]));
      ViewsReplayed(rules, c1, v.name, v.subs);
      var c2 := Replay(rules, c1, below).value;
      SubtreePlanted(rules, c.state, c1.state, c2.state, parent, v, NamesAll(vs[1..]));
      ViewsReplayed(rules, c2, parent, vs[1..]);
      ReplayAppend(rules, c, [CreateRecord(parent, v.info)], below);
      ReplayAppend(rules, c, [CreateRecord(parent, v.info)] + below, rest);
    } else {
      NothingReplayed(rules, c);
    }
  }

  lemma OnceBelow(root: View, root1: View, v: View, others: multiset<string>)
    requires Once(Names(root) + Names(v) + others) && Names(root1) == Names(root) + multiset{v.name}
    ensures Once(Names(root1) + NamesAll(v.subs))
  {
    forall n ensures (Names(root1) + NamesAll(v.subs))[n] <= 1 {
      assert (Names(root) + Names(v) + others)[n] <= 1;
    }
  }

  /** With its own sub-views planted, the new leaf is the mirror image of the view it came from. */
  lemma SubtreePlanted(rules: Rules, s: State, s1: State, s2: State, parent: string, v: View, others: multiset<string>)
    requires InOrder(rules, s) && HasView(s.root, parent) && Once(Names(s.root) + Names(v) + others)
    requires v.parts == map[] && v.name == rules.views.viewName(v.info) && PlainAll(rules.views, v.subs)
    requires Bare(s1.root) == Grafted(Bare(s.root), parent, NewView(rules.views, v.info))
    requires Bare(s2.root) == Planted(Bare(s1.root), v.name, v.subs)
    ensures Bare(s2.root) == Grafted(Bare(s.root), parent, Mirror(v))
    ensures HasView(s2.root, parent) && Once(Names(s2.root) + others)
  {
    hide InOrder;
    hide Bare;
    hide Grafted;
    hide HasView;
    hide Planted;
    hide PlainAll;
    var leaf := NewView(rules.views, v.info);
    var b := Bare(s.root);
    assert Names(v)[v.name] >= 1;
    assert Names(s.root) + Names(v) + others == Names(s.root) + (Names(v) + others);
    NewName(rules, s, v.name, Names(v) + others);
    HasViewBare(s.root, parent);
    PlantedInto(b, parent, leaf, v.subs);
    PlantedOnRoot(leaf, v.subs);
    assert MirrorAll(v.subs) + [] == MirrorAll(v.subs);
    MirrorNames(rules.views, v.subs);
    MirrorName(v);
    GraftedNames(b, parent, Mirror(v));
    GraftedHas(b, parent, Mirror(v), parent);
    HasViewBare(s2.root, parent);
    BareNames(s.root);
    BareNames(s2.root);
  }

  // --------------------------------------------------------- replaying the ads

  lemma {:induction false} AdsReplayed(rules: Rules, c: Collection, table: Table, keys: seq<Key>)
    requires InOrder(rules, c.state) && forall k :: k in keys ==> k in table
    ensures var r := Replay(rules, c, AdLog(table, keys));
            && r.Some? && InOrder(rules, r.value.state) && SameShape(r.value.state, c.state)
            && (forall k :: Get(r.value.state.table, k) == if k in keys then Get(table, k) else Get(c.state.table, k))
    decreases |keys|
  {
    hide InOrder;
    hide SameShape;
    ShapeSelf(c.state);
    if keys != [] {
      var op := AddOp(keys[0], table[keys[0]]);
      assert keys[0] in keys && keys == [keys[0]] + keys[1..];
      PlayInOrder(rules, c.state, op);
      ReplayOne(rules, c, AdRecord(None, op));
      var c1 := Replay(rules, c, [AdRecord(None, op)]).value;
      hide Play;
      hide Replay;
      AdsReplayed(rules, c1, table, keys[1..]);
      ReplayAppend(rules, c, [AdRecord(None, op)], AdLog(table, keys[1..]));
      ShapesCompose(Replay(rules, c1, AdLog(table, keys[1..])).value.state, c1.state, c.state);
    }
  }

  /** The compacted log of a collection without partitions replays from empty to the same table, with
      the same views, siblings reversed, all in order over that table. */
  lemma CompactedLogReplays(rules: Rules, st: State, keys: seq<Key>)
    requires InOrder(rules, st) && st.root.name == "root" && NamedAll(rules.views, st.root.subs)
    requires forall k :: k in keys <==> k in st.table
    ensures var r := Replay(rules, Start(st.root.info), ViewLog("root", st.root.subs) + AdLog(st.table, keys));
            && r.Some? && InOrder(rules, r.value.state)
            && r.value.state.table == st.table
            && Bare(r.value.state.root) == Mirror(st.root)
            && r.value.state.registry == st.registry
  {
    hide InOrder;
    hide Replay;
    hide AdLog;
    var c := Start(st.root.info);
    PlainTree(rules, st);
    StartLive(rules, st.root.info);
    assert PartNames(c.state.root) == {};
    assert Names(c.state.root) == multiset{"root"};
    RegisteredOnce(rules, st);
    assert PartNames(st.root) == {};
    assert Names(st.root) == Names(c.state.root) + NamesAll(st.root.subs);
    ViewsReplayed(rules, c, "root", st.root.subs);
    var c1 := Replay(rules, c, ViewLog("root", st.root.subs)).value;
    PlantedOnRoot(Bare(c.state.root), st.root.subs);
    assert MirrorAll(st.root.subs) + [] == MirrorAll(st.root.subs);
    AdsReplayed(rules, c1, st.table, keys);
    ReplayAppend(rules, c, ViewLog("root", st.root.subs), AdLog(st.table, keys));
    var r := Replay(rules, c1, AdLog(st.table, keys)).value;
    SameGets(r.state.table, st.table);
    MirrorRegistry(rules, st, r.state);
  }

  lemma PlainTree(rules: Rules, st: State)
    requires InOrder(rules, st) && NamedAll(rules.views, st.root.subs)
    ensures st.root.parts == map[] && PlainAll(rules.views, st.root.subs) && Uniform(rules.views, st.root.info)
  {
    hide RosterCurrent;
    hide PartsCurrent;
    hide Unsigned;
    hide Steady;
    hide Names;
    PlainInOrder(rules.views, st.root.subs, Selected(rules.views, st.root.info, st.table));
  }

  lemma RegisteredOnce(rules: Rules, st: State)
    requires InOrder(rules, st)
    ensures Once(Names(st.root))
  {
    hide Names;
    assert Names(st.root) + multiset{} == Names(st.root);
    forall n ensures Names(st.root)[n] <= 1 {
      assert multiset(st.registry)[n] <= 1;
    }
  }

  lemma MirrorRegistry(rules: Rules, s: State, t: State)
    requires InOrder(rules, s) && InOrder(rules, t)
    requires s.root.parts == map[] && PlainAll(rules.views, s.root.subs) && Bare(t.root) == Mirror(s.root)
    ensures t.registry == s.registry
  {
    hide Names;
    hide Bare;
    hide Mirror;
    hide Current;
    hide Undivided;
    MirrorNames(rules.views, s.root.subs);
    MirrorName(s.root);
    BareNames(t.root);
    forall n ensures n in t.registry <==> n in s.registry {
      assert n in multiset(t.registry) <==> n in multiset(s.registry);
    }
  }

  // -------------------------------------------------------------- membership

  lemma {:induction false} MirrorSub(vs: seq<View>, i: nat)
    requires i < |vs|
    ensures |MirrorAll(vs)| == |vs| && MirrorAll(vs)[|vs| - 1 - i] == Mirror(vs[i])
  {
    hide Mirror;
    if |vs| > 1 {
      MirrorSub(vs[1..], if i == 0 then 0 else i - 1);
    }
  }

  lemma {:induction false} MirrorLength(vs: seq<View>)
    ensures |MirrorAll(vs)| == |vs|
  {
    if vs != [] {
      MirrorLength(vs[1..]);
    }
  }

  /** Where a view is found in the mirror image. */
  function Flipped(v: View, path: seq<nat>): (r: seq<nat>)
    ensures |r| == |path|
  {
    if path == [] || path[0] >= |v.subs| then path
    else [|v.subs| - 1 - path[0]] + Flipped(v.subs[path[0]], path[1..])
  }

  lemma {:induction false} AtMirror(sem: Semantics, v: View, path: seq<nat>, ad: Ad)
    ensures At(Mirror(v), Flipped(v, path)).Some? <==> At(v, path).Some?
    ensures Passes(sem, Mirror(v), Flipped(v, path), ad) <==> Passes(sem, v, path, ad)
    decreases |path|
  {
    MirrorLength(v.subs);
    if path != [] && path[0] < |v.subs| {
      MirrorSub(v.subs, path[0]);
      AtMirror(sem, v.subs[path[0]], path[1..], ad);
      assert Flipped(v, path)[1..] == Flipped(v.subs[path[0]], path[1..]);
    }
  }

  /** After replaying the compacted log every view, found where the mirror image has it, holds the keys
      it held. */
  lemma CompactedViewsAgree(rules: Rules, st: State, keys: seq<Key>, path: seq<nat>, k: Key)
    requires InOrder(rules, st) && st.root.name == "root" && NamedAll(rules.views, st.root.subs)
    requires forall k :: k in keys <==> k in st.table
    requires At(st.root, path).Some?
    ensures var r := Replay(rules, Start(st.root.info), ViewLog("root", st.root.subs) + AdLog(st.table, keys));
            && r.Some?
            && var w := At(r.value.state.root, Flipped(st.root, path));
               w.Some? && (k in w.value.roster.index <==> k in At(st.root, path).value.roster.index)
  {
    hide Replay;
    hide AdLog;
    hide At;
    hide Passes;
    hide Bare;
    hide Mirror;
    hide Current;
    hide Undivided;
    hide NamedAll;
    CompactedLogReplays(rules, st, keys);
    var r := Replay(rules, Start(st.root.info), ViewLog("root", st.root.subs) + AdLog(st.table, keys)).value;
    var ad := if k in st.table then st.table[k] else [];
    AtMirror(rules.views, st.root, path, ad);
    AtBare(rules.views, r.state.root, Flipped(st.root, path), ad);
    HoldsExactlyTheMatching(rules.views, st.root, st.table, path, k);
    HoldsExactlyTheMatching(rules.views, r.state.root, st.table, Flipped(st.root, path), k);
  }

  // -------------------------------------------------------------- every run

  lemma {:induction false} NamedBare(sem: Semantics, vs: seq<View>)
    ensures NamedAll(sem, BareAll(vs)) <==> NamedAll(sem, vs)
    decreases vs
  {
    if vs != [] {
      NamedBare(sem, vs[0].subs);
      NamedBare(sem, vs[1..]);
    }
  }

  lemma {:induction false} NamedGrafted(sem: Semantics, vs: seq<View>, parent: string, info: Ad)
    requires NamedAll(sem, vs)
    ensures NamedAll(sem, GraftedAll(vs, parent, NewView(sem, info)))
    decreases vs
  {
    if vs != [] {
      var leaf := NewView(sem, info);
      NamedGrafted(sem, vs[1..], parent, info);
      NamedGrafted(sem, vs[0].subs, parent, info);
      assert ([leaf] + vs[0].subs)[1..] == vs[0].subs;
    }
  }

  lemma {:induction false} NamedDropped(sem: Semantics, vs: seq<View>, registry: set<string>, name: string)
    requires NamedAll(sem, vs)
    ensures var r := Dropped(vs, registry, name); r.Some? ==> NamedAll(sem, r.value.0)
    decreases vs
  {
    hide Unregistered;
    if vs != [] {
      NamedDropped(sem, vs[1..], registry, name);
    }
  }

  lemma {:induction false} NamedDiscarded(sem: Semantics, vs: seq<View>, registry: set<string>, name: string)
    requires NamedAll(sem, vs)
    ensures NamedAll(sem, DiscardedAll(vs, registry, name).views)
    decreases vs
  {
    hide Dropped;
    if vs != [] {
      NamedDropped(sem, vs[0].subs, registry, name);
      NamedDiscarded(sem, vs[0].subs, registry, name);
      NamedDiscarded(sem, vs[1..], registry, name);
    }
  }

  /** The root stays the root, and every other view is called what its description says. */
  ghost predicate Named(rules: Rules, rootInfo: Ad, st: State) {
    st.root.name == "root" && st.root.info == rootInfo && NamedAll(rules.views, st.root.subs)
  }

  lemma NamedShape(rules: Rules, rootInfo: Ad, s: State, t: State)
    requires Named(rules, rootInfo, s) && SameShape(s, t)
    ensures Named(rules, rootInfo, t)
  {
    NamedBare(rules.views, s.root.subs);
    NamedBare(rules.views, t.root.subs);
  }

  lemma NamedCreated(rules: Rules, rootInfo: Ad, st: State, parent: string, info: Ad)
    requires InOrder(rules, st) && Named(rules, rootInfo, st) && Uniform(rules.views, info)
    ensures Named(rules, rootInfo, ViewCreated(rules, st, parent, info).state)
  {
    hide InOrder;
    hide ViewCreated;
    hide Uniform;
    ViewCreatedInOrder(rules, st, parent, info);
    var r := ViewCreated(rules, st, parent, info);
    if r.status.Done? {
      NamedBare(rules.views, st.root.subs);
      NamedGrafted(rules.views, BareAll(st.root.subs), parent, info);
      var leaf := NewView(rules.views, info);
      assert ([leaf] + BareAll(st.root.subs))[1..] == BareAll(st.root.subs);
      NamedBare(rules.views, r.state.root.subs);
    }
  }

  lemma NamedDrop(rules: Rules, rootInfo: Ad, st: State, name: string)
    requires Named(rules, rootInfo, st)
    ensures Named(rules, rootInfo, ViewDropped(st, name).state)
  {
    hide Dropped;
    NamedDropped(rules.views, st.root.subs, st.registry, name);
    NamedDiscarded(rules.views, st.root.subs, st.registry, name);
  }

  lemma HandleNamed(rules: Rules, rootInfo: Ad, c: Collection, request: Request)
    requires Live(rules, c) && Admissible(rules, c, request) && Named(rules, rootInfo, c.state)
    ensures Named(rules, rootInfo, Handle(rules, c, request).coll.state)
  {
    hide InOrder;
    hide Named;
    hide SameShape;
    hide Direct;
    hide Commit;
    hide ViewCreated;
    hide ViewDropped;
    hide Succeeds;
    hide DistinctKeys;
    hide Uniform;
    match request
    case Ask(op) =>
      DirectInOrder(rules, c.state, op);
      ShapeFlips(Direct(rules, c.state, op).state, c.state);
      if c.current == "" {
        NamedShape(rules, rootInfo, c.state, Direct(rules, c.state, op).state);
      }
    case Open(_) =>
    case Switch(_) =>
    case Close(name, commit) =>
      if Commits(c, request) {
        CommitInOrder(rules, c.state, c.xactions[name].value);
        ShapeFlips(Commit(rules, c.state, c.xactions[name].value).state, c.state);
        NamedShape(rules, rootInfo, c.state, Commit(rules, c.state, c.xactions[name].value).state);
      }
    case Create(parent, info) => NamedCreated(rules, rootInfo, c.state, parent, info);
    case Drop(name) => NamedDrop(rules, rootInfo, c.state, name);
  }

  lemma ShapeFlips(s: State, t: State)
    ensures SameShape(s, t) <==> SameShape(t, s)
  {
  }

  lemma {:induction false} RunNamed(rules: Rules, rootInfo: Ad, start: Collection, requests: seq<Request>)
    requires Live(rules, start) && Named(rules, rootInfo, start.state) && AllAdmissible(rules, start, requests)
    ensures Run(rules, start, requests).Some? && Named(rules, rootInfo, Run(rules, start, requests).value.state)
    decreases |requests|
  {
    hide Live;
    hide Named;
    hide Admissible;
    hide Handle;
    RunLive(rules, start, requests);
    if requests != [] {
      var n := |requests| - 1;
      RunNamed(rules, rootInfo, start, requests[..n]);
      RunLive(rules, start, requests[..n]);
      HandleNamed(rules, rootInfo, Run(rules, start, requests[..n]).value, requests[n]);
    }
  }

  /** After any run, even one whose own log cannot be replayed, the compacted log can, to the same
      table and the mirror image of the same views. */
  lemma CompactionAfterRun(rules: Rules, rootInfo: Ad, requests: seq<Request>, keys: seq<Key>)
    requires Uniform(rules.views, rootInfo) && AllAdmissible(rules, Start(rootInfo), requests)
    requires Run(rules, Start(rootInfo), requests).Some?
    requires forall k :: k in keys <==> k in Run(rules, Start(rootInfo), requests).value.state.table
    ensures var st := Run(rules, Start(rootInfo), requests).value.state;
            var r := Replay(rules, Start(rootInfo), ViewLog("root", st.root.subs) + AdLog(st.table, keys));
            && r.Some? && InOrder(rules, r.value.state)
            && r.value.state.table == st.table
            && Bare(r.value.state.root) == Mirror(st.root)
            && r.value.state.registry == st.registry
  {
    hide Run;
    hide Replay;
    hide AdLog;
    hide InOrder;
    hide Bare;
    hide Uniform;
    hide AllAdmissible;
    StartLive(rules, rootInfo);
    RunLive(rules, Start(rootInfo), requests);
    RunNamed(rules, rootInfo, Start(rootInfo), requests);
    CompactedLogReplays(rules, Run(rules, Start(rootInfo), requests).value.state, keys);
  }
}
