/** A collection in order: the views are what the table makes them, and the registry names them. */
module Orderly {
  import opened Expressions
  import opened Members
  import opened Rosters
  import opened Views
  import opened ViewTheorems
  import opened ViewRegistry
  import opened Skeletons
  import opened Transactions
  import opened Collections

  /** The description of an unpartitioned view whose ranks are numbers or strings, or do not depend on
      the ad. */
  ghost predicate Uniform(sem: Semantics, info: Ad) {
    Unsigned(sem, info) && Steady(sem, info)
  }

  /** The views of this collection are unpartitioned and hold what the table makes them hold. */
  ghost predicate InOrder(rules: Rules, st: State) {
    && Undivided(rules.views, st.root)
    && Current(rules.views, st.root, st.table)
    && Registered(st.root, st.registry, multiset{})
  }

  /** The same views under the same names, whatever they hold. */
  ghost predicate SameShape(s: State, t: State) {
    Bare(s.root) == Bare(t.root) && s.registry == t.registry
  }

  lemma WithdrawnInOrder(rules: Rules, st: State, key: Key)
    requires InOrder(rules, st) && key in st.table
    ensures var r := Withdrawn(rules, st, key);
            r.status.Done? && InOrder(rules, r.state) && SameShape(r.state, st) && r.state.table == st.table - {key}
  {
    hide Deleted;
    hide Current;
    hide Bare;
    hide Names;
    hide Steady;
    hide Undivided;
    RemovedCleanly(rules.views, st.root, st.table[key]);
    DeletedCurrent(rules.views, st.root, key, st.table[key], st.table);
    DeletedBare(rules.views, st.root, key, st.table[key]);
    DeletedNames(rules.views, st.root, key, st.table[key]);
    UndividedShape(rules.views, st.root, Withdrawn(rules, st, key).state.root);
  }

  lemma AdmittedInOrder(rules: Rules, st: State, key: Key, ad: Ad)
    requires InOrder(rules, st) && key !in st.table
    ensures var r := Admitted(rules, st, key, ad);
            r.status.Done? && InOrder(rules, r.state) && SameShape(r.state, st) && r.state.table == st.table[key := ad]
  {
    hide Inserted;
    hide Current;
    hide Bare;
    hide Names;
    hide Steady;
    hide Undivided;
    UndividedInserted(rules.views, st.root, st.registry, key, ad);
    InsertedCurrent(rules.views, st.root, st.registry, key, ad, st.table);
    InsertedBare(rules.views, st.root, st.registry, key, ad);
    InsertedNames(rules.views, st.root, st.registry, key, ad, multiset{});
    UndividedShape(rules.views, st.root, Admitted(rules, st, key, ad).state.root);
  }

  lemma ChangedInOrder(rules: Rules, st: State, key: Key, ad: Ad)
    requires InOrder(rules, st) && key in st.table
    ensures var r := Changed(rules, st, key, ad);
            r.status.Done? && InOrder(rules, r.state) && SameShape(r.state, st) && r.state.table == st.table[key := ad]
  {
    hide Modified;
    hide PreModified;
    hide Current;
    hide Noted;
    hide Bare;
    hide Names;
    hide Steady;
    hide Undivided;
    var noted := PreModified(rules.views, st.root, st.table[key]);
    PreModifiedNoted(rules.views, st.root, st.table[key]);
    PreModifiedCurrent(rules.views, st.root, st.table[key], st.table);
    PreModifiedBare(rules.views, st.root, st.table[key]);
    UndividedShape(rules.views, st.root, noted);
    PreModifiedNames(rules.views, st.root, st.table[key]);
    UndividedModified(rules.views, noted, st.registry, key, st.table[key], ad);
    UndividedClean(rules.views, noted, st.table[key], ad);
    ModifiedCurrent(rules.views, noted, st.registry, key, ad, st.table);
    ModifiedBare(rules.views, noted, st.registry, key, ad);
    ModifiedNames(rules.views, noted, st.registry, key, ad, multiset{});
    UndividedShape(rules.views, noted, Changed(rules, st, key, ad).state.root);
  }

  /** An operation succeeds exactly when the table has what it needs; then table and views change
      together. */
  lemma PlayInOrder(rules: Rules, st: State, op: Op)
    requires InOrder(rules, st)
    ensures var r := Play(rules, st, op);
            && (Applies(op, st.table) ==>
                  r.status.Done? && InOrder(rules, r.state) && SameShape(r.state, st)
                  && r.state.table == Applied(rules, st.table, op))
            && (!Applies(op, st.table) ==> r == Effect(Refused, st))
  {
    hide InOrder;
    hide SameShape;
    hide Withdrawn;
    hide Admitted;
    hide Changed;
    if Applies(op, st.table) {
      match op
      case AddOp(key, ad) =>
        if key in st.table {
          WithdrawnInOrder(rules, st, key);
          AdmittedInOrder(rules, Withdrawn(rules, st, key).state, key, ad);
          ShapesCompose(Admitted(rules, Withdrawn(rules, st, key).state, key, ad).state,
                        Withdrawn(rules, st, key).state, st);
          assert (st.table - {key})[key := ad] == st.table[key := ad];
        } else {
          AdmittedInOrder(rules, st, key, ad);
        }
      case UpdateOp(key, ad) => ChangedInOrder(rules, st, key, rules.updated(st.table[key], ad));
      case ModifyOp(key, ad) => ChangedInOrder(rules, st, key, rules.modified(st.table[key], ad));
      case RemoveOp(key) => WithdrawnInOrder(rules, st, key);
    }
  }

  lemma ShapesCompose(s: State, t: State, u: State)
    requires SameShape(s, t) && SameShape(t, u)
    ensures SameShape(s, u)
  {
  }

  // ----------------------------------------------------------- transactions

  lemma {:induction false} ForwardInOrder(rules: Rules, st: State, ops: seq<Op>)
    requires InOrder(rules, st)
    ensures var f, p := Forward(rules, st, ops), Played(rules, st.table, ops);
            && f.state.table == p.table && f.backups == p.backups
            && InOrder(rules, f.state) && SameShape(f.state, st)
            && f.status == if |p.backups| == |ops| then Done else Refused
    decreases |ops|
  {
    hide InOrder;
    hide SameShape;
    hide Play;
    hide Applied;
    ShapeSelf(st);
    if ops != [] {
      PlayInOrder(rules, st, ops[0]);
      if Applies(ops[0], st.table) {
        var first := Play(rules, st, ops[0]).state;
        ForwardInOrder(rules, first, ops[1..]);
        ShapesCompose(Forward(rules, first, ops[1..]).state, first, st);
      }
    }
  }

  lemma ShapeSelf(s: State)
    ensures SameShape(s, s)
  {
  }

  /** Undoing keeps the views in step with the table, if removed ads are still absent and all others
      present when their turn comes. */
  lemma {:induction false} UndoInOrder(rules: Rules, st: State, ops: seq<Op>, backups: seq<Option<Ad>>)
    requires InOrder(rules, st) && |ops| == |backups| && DistinctKeys(ops)
    requires forall i :: 0 <= i < |ops| ==> (ops[i].key in st.table <==> !ops[i].RemoveOp?)
    requires forall i :: 0 <= i < |ops| && ops[i].RemoveOp? ==> backups[i].Some?
    ensures var u := Undo(rules, st, ops, backups);
            && u.status.Done? && InOrder(rules, u.state) && SameShape(u.state, st)
            && Undone(st.table, ops, backups) == Some(u.state.table)
    decreases |ops|
  {
    hide InOrder;
    hide SameShape;
    ShapeSelf(st);
    if ops != [] {
      UndoOneInOrder(rules, st, ops[0], backups[0]);
      var first := UndoOne(rules, st, ops[0], backups[0]).state;
      hide UndoOne;
      forall i | 0 <= i < |ops[1..]| ensures ops[1..][i].key in first.table <==> !ops[1..][i].RemoveOp? {
        assert ops[i + 1].key != ops[0].key;
        assert Get(first.table, ops[i + 1].key) == Get(st.table, ops[i + 1].key);
      }
      UndoInOrder(rules, first, ops[1..], backups[1..]);
      ShapesCompose(Undo(rules, first, ops[1..], backups[1..]).state, first, st);
    }
  }

  lemma UndoOneInOrder(rules: Rules, st: State, op: Op, backup: Option<Ad>)
    requires InOrder(rules, st) && (op.key in st.table <==> !op.RemoveOp?) && (op.RemoveOp? ==> backup.Some?)
    ensures var r := UndoOne(rules, st, op, backup);
            && r.status.Done? && InOrder(rules, r.state) && SameShape(r.state, st)
            && r.state.table == Put(st.table, op.key, backup)
            && UndoneOne(st.table, op, backup) == Some(r.state.table)
  {
    hide InOrder;
    hide SameShape;
    hide Withdrawn;
    hide Admitted;
    hide Changed;
    if op.RemoveOp? {
      AdmittedInOrder(rules, st, op.key, backup.value);
    } else if backup.None? {
      WithdrawnInOrder(rules, st, op.key);
    } else {
      ChangedInOrder(rules, st, op.key, backup.value);
    }
  }

  /** A commit succeeds exactly when every operation in turn has what it needs; then table and views
      show all of them. A failed commit of operations on distinct keys leaves the table as it was and
      the views in order over it, so every view holds what it held. */
  lemma CommitInOrder(rules: Rules, st: State, ops: seq<Op>)
    requires InOrder(rules, st)
    ensures var r := Commit(rules, st, ops);
            && (Succeeds(rules, st.table, ops) ==>
                  r.status.Done? && InOrder(rules, r.state) && SameShape(r.state, st)
                  && r.state.table == Played(rules, st.table, ops).table)
            && (!Succeeds(rules, st.table, ops) ==> !r.status.Done?)
            && (!Succeeds(rules, st.table, ops) && DistinctKeys(ops) ==>
                  r.status.Refused? && InOrder(rules, r.state) && SameShape(r.state, st)
                  && r.state.table == st.table)
  {
    hide InOrder;
    hide SameShape;
    hide Forward;
    hide Undo;
    hide Played;
    hide After;
    hide Saved;
    hide Undone;
    ForwardInOrder(rules, st, ops);
    var f, p := Forward(rules, st, ops), Played(rules, st.table, ops);
    if !Succeeds(rules, st.table, ops) && DistinctKeys(ops) {
      var done := ops[..|p.backups|];
      PlayedIsSaved(rules, st.table, ops);
      forall i | 0 <= i < |done| ensures done[i].key in f.state.table <==> !done[i].RemoveOp? {
        TouchedAfter(rules, st.table, done, p.backups, i);
      }
      RemovedWereThere(rules, st.table, done, p.backups);
      UndoInOrder(rules, f.state, done, p.backups);
      DistinctRestored(rules, st.table, done, p.backups);
      ShapesCompose(Undo(rules, f.state, done, p.backups).state, f.state, st);
    }
  }

  /** In an undivided tree the table is undone as if there were no views. */
  lemma {:induction false} UndoTable(rules: Rules, st: State, ops: seq<Op>, backups: seq<Option<Ad>>)
    requires Undivided(rules.views, st.root) && |ops| == |backups|
    ensures var u, t := Undo(rules, st, ops, backups), Undone(st.table, ops, backups);
            && u.status == (if t.None? then Thrown else Done)
            && (t.Some? ==> u.state.table == t.value)
    decreases |ops|
  {
    hide Undivided;
    if ops != [] {
      UndoOneTable(rules, st, ops[0], backups[0]);
      hide UndoOne;
      UndoTable(rules, UndoOne(rules, st, ops[0], backups[0]).state, ops[1..], backups[1..]);
    }
  }

  lemma UndoOneTable(rules: Rules, st: State, op: Op, backup: Option<Ad>)
    requires Undivided(rules.views, st.root)
    ensures var u, t := UndoOne(rules, st, op, backup), UndoneOne(st.table, op, backup);
            && u.status == (if t.None? then Thrown else Done)
            && (t.Some? ==> u.state.table == t.value && Undivided(rules.views, u.state.root))
  {
    hide Inserted;
    hide Deleted;
    hide Modified;
    hide PreModified;
    hide Noted;
    hide Undivided;
    hide Bare;
    if op.key in st.table {
      var was := st.table[op.key];
      UndividedDeleted(rules.views, st.root, op.key, was);
      DeletedBare(rules.views, st.root, op.key, was);
      if backup.Some? {
        UndoneChange(rules, st, op.key, backup.value);
      }
    }
    if backup.Some? {
      UndividedInserted(rules.views, st.root, st.registry, op.key, backup.value);
      InsertedBare(rules.views, st.root, st.registry, op.key, backup.value);
    }
    var u := UndoOne(rules, st, op, backup);
    if u.status.Done? {
      UndividedShape(rules.views, st.root, u.state.root);
    }
  }

  lemma UndoneChange(rules: Rules, st: State, key: Key, ad: Ad)
    requires Undivided(rules.views, st.root) && key in st.table
    ensures var r := Changed(rules, st, key, ad);
            r.status.Done? && r.state.table == st.table[key := ad] && Bare(r.state.root) == Bare(st.root)
  {
    hide Modified;
    hide PreModified;
    hide Noted;
    hide Undivided;
    hide Bare;
    var was := st.table[key];
    var noted := PreModified(rules.views, st.root, was);
    PreModifiedNoted(rules.views, st.root, was);
    PreModifiedBare(rules.views, st.root, was);
    UndividedShape(rules.views, st.root, noted);
    UndividedModified(rules.views, noted, st.registry, key, was, ad);
    ModifiedBare(rules.views, noted, st.registry, key, ad);
  }

  /** A failed commit crashes exactly if one of the operations it had done is doomed; otherwise it
      restores the table exactly if, on every key it had touched, the last operation found what was
      there before the commit. */
  lemma FailedCommitExactly(rules: Rules, st: State, ops: seq<Op>)
    requires InOrder(rules, st) && !Succeeds(rules, st.table, ops)
    ensures var p := Played(rules, st.table, ops);
            var done := ops[..|p.backups|];
            var r := Commit(rules, st, ops);
            && r.status == (if AnyDoomed(done, p.backups) then Thrown else Refused)
            && (r.status.Refused? ==> (r.state.table == st.table <==> LastFoundFirst(st.table, done, p.backups)))
  {
    hide InOrder;
    hide SameShape;
    hide Forward;
    hide Undo;
    hide Played;
    hide After;
    hide Saved;
    hide Undone;
    hide AnyDoomed;
    hide LastFoundFirst;
    ForwardInOrder(rules, st, ops);
    PlayedIsSaved(rules, st.table, ops);
    var f, p := Forward(rules, st, ops), Played(rules, st.table, ops);
    var done := ops[..|p.backups|];
    UndividedIn(rules, f.state);
    UndoTable(rules, f.state, done, p.backups);
    RunsOffExactly(rules, st.table, done, p.backups);
    RestoredExactly(rules, st.table, done, p.backups);
  }

  lemma UndividedIn(rules: Rules, st: State)
    requires InOrder(rules, st)
    ensures Undivided(rules.views, st.root)
  {
  }

  // ------------------------------------------------------------------ views

  /** Creating a view succeeds exactly if its parent is there and its name is new. */
  lemma ViewCreatedInOrder(rules: Rules, st: State, parent: string, info: Ad)
    requires InOrder(rules, st) && Uniform(rules.views, info)
    ensures var r := ViewCreated(rules, st, parent, info);
            && (r.status.Done? <==> Creatable(rules, st, parent, info))
            && (r.status.Done? ==>
                  InOrder(rules, r.state) && r.state.table == st.table
                  && Bare(r.state.root) == Grafted(Bare(st.root), parent, NewView(rules.views, info))
                  && r.state.registry == st.registry + {rules.views.viewName(info)})
            && (!r.status.Done? ==> r == Effect(Refused, st))
  {
    hide CreatedUnder;
    hide Current;
    hide Bare;
    hide Names;
    hide Steady;
    hide Undivided;
    hide Unsigned;
    hide Grafted;
    CreatedUnderCurrent(rules.views, st.root, st.registry, parent, info, st.table, st.table);
    CreatedUnderBare(rules.views, st.root, st.registry, parent, info, st.table, st.table);
    CreatedUnderNames(rules.views, st.root, st.registry, parent, info, st.table, multiset{});
    var r := ViewCreated(rules, st, parent, info);
    if r.status.Done? {
      GraftedUndivided(rules.views, st.root, r.state.root, parent, info);
    }
  }

  predicate Creatable(rules: Rules, st: State, parent: string, info: Ad) {
    HasView(st.root, parent) && rules.views.viewName(info) !in st.registry
  }

  predicate Droppable(st: State, name: string) {
    name in st.registry && name != st.root.name
  }

  lemma GraftedUndivided(sem: Semantics, v: View, w: View, parent: string, info: Ad)
    requires Undivided(sem, v) && Unsigned(sem, info) && Bare(w) == Grafted(Bare(v), parent, NewView(sem, info))
    ensures Undivided(sem, w)
  {
    hide Bare;
    hide Unsigned;
    UndividedBare(sem, v);
    UndividedBare(sem, w);
    UndividedGrafted(sem, Bare(v), parent, NewView(sem, info));
  }

  lemma {:induction false} UndividedGrafted(sem: Semantics, v: View, parent: string, child: View)
    requires Undivided(sem, v) && Undivided(sem, child)
    ensures Undivided(sem, Grafted(v, parent, child))
    decreases v
  {
    hide Unsigned;
    UndividedAllGrafted(sem, v.subs, parent, child);
    assert ([child] + v.subs)[1..] == v.subs;
  }

  lemma {:induction false} UndividedAllGrafted(sem: Semantics, vs: seq<View>, parent: string, child: View)
    requires UndividedAll(sem, vs) && Undivided(sem, child)
    ensures UndividedAll(sem, GraftedAll(vs, parent, child))
    decreases vs
  {
    hide Undivided;
    hide Grafted;
    if vs != [] {
      UndividedGrafted(sem, vs[0], parent, child);
      UndividedAllGrafted(sem, vs[1..], parent, child);
    }
  }

  /** Deleting a view succeeds exactly if there is one of that name other than the root. */
  lemma ViewDroppedInOrder(rules: Rules, st: State, name: string)
    requires InOrder(rules, st)
    ensures var r := ViewDropped(st, name);
            && (r.status.Done? <==> Droppable(st, name))
            && (!r.status.Done? ==> r == Effect(Refused, st))
            && InOrder(rules, r.state) && r.state.table == st.table
  {
    hide Discarded;
    hide Current;
    hide Names;
    hide Undivided;
    DiscardedCurrent(rules.views, st.root, st.registry, name, st.table);
    DiscardedNames(st.root, st.registry, name, multiset{});
    UndividedDiscarded(rules.views, st.root, st.registry, name);
    DiscardedFinds(st.root, st.registry, name);
    SubViewNamed(rules, st, name);
  }

  lemma {:induction false} UndividedDropped(sem: Semantics, vs: seq<View>, registry: set<string>, name: string)
    requires UndividedAll(sem, vs)
    ensures var r := Dropped(vs, registry, name); r.Some? ==> UndividedAll(sem, r.value.0)
    decreases vs
  {
    hide Unregistered;
    hide Undivided;
    if vs != [] {
      UndividedDropped(sem, vs[1..], registry, name);
    }
  }

  lemma {:induction false} UndividedDiscarded(sem: Semantics, v: View, registry: set<string>, name: string)
    requires Undivided(sem, v)
    ensures Undivided(sem, Discarded(v, registry, name).view)
    decreases v
  {
    hide Dropped;
    hide Unsigned;
    UndividedDropped(sem, v.subs, registry, name);
    UndividedAllDiscarded(sem, v.subs, registry, name);
  }

  lemma {:induction false} UndividedAllDiscarded(sem: Semantics, vs: seq<View>, registry: set<string>, name: string)
    requires UndividedAll(sem, vs)
    ensures UndividedAll(sem, DiscardedAll(vs, registry, name).views)
    decreases vs
  {
    hide Undivided;
    hide Discarded;
    if vs != [] {
      UndividedDiscarded(sem, vs[0], registry, name);
      UndividedAllDiscarded(sem, vs[1..], registry, name);
    }
  }

  lemma {:induction false} DroppedFinds(vs: seq<View>, registry: set<string>, name: string)
    ensures Dropped(vs, registry, name).Some? ==> HasViewAll(vs, name)
    ensures Dropped(vs, registry, name).None? ==>
      (HasViewAll(vs, name) <==> exists i :: 0 <= i < |vs| && HasViewAll(vs[i].subs, name))
    decreases vs
  {
    hide Unregistered;
    if vs != [] {
      DroppedFinds(vs[1..], registry, name);
      if i :| 0 <= i < |vs[1..]| && HasViewAll(vs[1..][i].subs, name) {
        assert HasViewAll(vs[i + 1].subs, name);
      }
      if i :| 0 < i < |vs| && HasViewAll(vs[i].subs, name) {
        assert HasViewAll(vs[1..][i - 1].subs, name);
      }
    }
  }

  /** A name is found below a view exactly if there is a view of that name; otherwise nothing changes. */
  lemma {:induction false} DiscardedFinds(v: View, registry: set<string>, name: string)
    ensures var r := Discarded(v, registry, name);
            && (r.status.Done? <==> HasViewAll(v.subs, name))
            && (!r.status.Done? ==> r == Outcome(Refused, v, registry))
    decreases v
  {
    hide Dropped;
    DroppedFinds(v.subs, registry, name);
    DiscardedAllFinds(v.subs, registry, name);
  }

  lemma {:induction false} DiscardedAllFinds(vs: seq<View>, registry: set<string>, name: string)
    ensures var r := DiscardedAll(vs, registry, name);
            && (r.status.Done? <==> exists i :: 0 <= i < |vs| && HasViewAll(vs[i].subs, name))
            && (!r.status.Done? ==> r == Outcomes(Refused, vs, registry))
    decreases vs
  {
    hide Discarded;
    hide HasViewAll;
    if vs != [] {
      DiscardedFinds(vs[0], registry, name);
      DiscardedAllFinds(vs[1..], registry, name);
      if i :| 0 <= i < |vs[1..]| && HasViewAll(vs[1..][i].subs, name) {
        assert HasViewAll(vs[i + 1].subs, name);
      }
      if i :| 0 < i < |vs| && HasViewAll(vs[i].subs, name) {
        assert HasViewAll(vs[1..][i - 1].subs, name);
      }
    }
  }

  /** Without partitions the names of a tree are those of its views. */
  lemma {:induction false} NamedIsView(sem: Semantics, v: View, name: string)
    requires Undivided(sem, v)
    ensures name in Names(v) <==> HasView(v, name)
    decreases v
  {
    NamedIsViewAll(sem, v.subs, name);
    assert PartNames(v) == {};
  }

  lemma {:induction false} NamedIsViewAll(sem: Semantics, vs: seq<View>, name: string)
    requires UndividedAll(sem, vs)
    ensures name in NamesAll(vs) <==> HasViewAll(vs, name)
    decreases vs
  {
    hide Undivided;
    hide Names;
    hide HasView;
    if vs != [] {
      NamedIsView(sem, vs[0], name);
      NamedIsViewAll(sem, vs[1..], name);
    }
  }

  lemma SubViewNamed(rules: Rules, st: State, name: string)
    requires InOrder(rules, st)
    ensures HasViewAll(st.root.subs, name) <==> Droppable(st, name)
  {
    hide Current;
    hide HasViewAll;
    hide NamesAll;
    var v := st.root;
    NamedIsViewAll(rules.views, v.subs, name);
    assert PartNames(v) == {};
    assert Names(v) == multiset{v.name} + NamesAll(v.subs);
    assert multiset(st.registry)[name] == Names(v)[name];
    assert multiset(st.registry)[name] <= 1;
    assert multiset(st.registry)[name] > 0 <==> name in st.registry;
  }

  /** Two states of one shape answer alike to requests about views, and stay of one shape. */
  lemma CreatedAlike(rules: Rules, s: State, t: State, parent: string, info: Ad)
    requires InOrder(rules, s) && InOrder(rules, t) && SameShape(s, t) && Uniform(rules.views, info)
    ensures var a, b := ViewCreated(rules, s, parent, info), ViewCreated(rules, t, parent, info);
            a.status == b.status && SameShape(a.state, b.state)
  {
    hide ViewCreated;
    hide InOrder;
    hide Grafted;
    hide HasView;
    hide Uniform;
    ViewCreatedInOrder(rules, s, parent, info);
    ViewCreatedInOrder(rules, t, parent, info);
    HasViewBare(s.root, parent);
    HasViewBare(t.root, parent);
  }

  lemma DroppedAlike(s: State, t: State, name: string)
    requires SameShape(s, t)
    ensures var a, b := ViewDropped(s, name), ViewDropped(t, name);
            a.status == b.status && SameShape(a.state, b.state)
  {
    hide Discarded;
    DiscardedBare(s.root, s.registry, name);
    DiscardedBare(t.root, t.registry, name);
  }
}
