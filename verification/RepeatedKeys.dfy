/** Failed commits that touch a key more than once: when the views come out of the undo in order. */
module RepeatedKeys {
  import opened Expressions
  import opened Operators
  import opened Members
  import opened Rosters
  import opened Views
  import opened ViewTheorems
  import opened ViewRegistry
  import opened Skeletons
  import opened Transactions
  import opened Collections
  import opened Orderly

  // ------------------------------------------------- members without an index entry

  /** How many members have the key. */
  function Entries(ms: seq<Member>, k: Key): (n: nat) {
    if ms == [] then 0 else (if ms[0].key == k then 1 else 0) + Entries(ms[1..], k)
  }

  /** The key has more members than the index knows of. */
  predicate Stale(r: Roster, k: Key) {
    Entries(r.members, k) > if k in r.index then 1 else 0
  }

  /** The index entries are of their keys, with ranks that the description gives. */
  ghost predicate Fair(sem: Semantics, info: Ad, r: Roster) {
    forall j :: j in r.index ==> r.index[j].key == j && Given(sem, info, r.index[j].rank)
  }

  ghost predicate Given(sem: Semantics, info: Ad, rank: Value) {
    exists ad :: Carries(rank, sem.rank(info, ad))
  }

  lemma {:induction false} EntriesPlaced(ms: seq<Member>, m: Member, k: Key)
    ensures Entries(Placed(ms, m), k) == Entries(ms, k) + if m.key == k then 1 else 0
  {
    hide Before;
    if ms != [] && !Before(m, ms[0]) {
      EntriesPlaced(ms[1..], m, k);
    }
  }

  lemma {:induction false} EntriesWithout(ms: seq<Member>, m: Member, k: Key)
    ensures Entries(ms, k) <= Entries(Without(ms, m), k) + if m.key == k then 1 else 0
  {
    if ms != [] && ms[0] != m {
      EntriesWithout(ms[1..], m, k);
    }
  }

  lemma {:induction false} EntriesExpelled(ms: seq<Member>, m: Member, k: Key)
    requires forall x :: x in ms && Tied(x, m) ==> x.key != k
    ensures Entries(Expelled(ms, m), k) == Entries(ms, k)
  {
    hide Before;
    if ms != [] {
      EntriesExpelled(ms[1..], m, k);
    }
  }

  lemma {:induction false} EntriesFound(ms: seq<Member>, k: Key)
    ensures Entries(ms, k) > 0 <==> exists m :: m in ms && m.key == k
  {
    if ms != [] {
      EntriesFound(ms[1..], k);
      assert ms == [ms[0]] + ms[1..];
    }
  }

  lemma {:induction false} EntriesUnique(ms: seq<Member>, k: Key)
    requires UniqueKeys(ms)
    ensures Entries(ms, k) <= 1
  {
    if ms != [] {
      EntriesUnique(ms[1..], k);
      EntriesFound(ms[1..], k);
      if m :| m in ms[1..] && m.key == k {
        var i :| 0 <= i < |ms[1..]| && ms[1..][i] == m;
        assert ms[i + 1] == m;
      }
    }
  }

  lemma SoundIsNotStale(r: Roster, k: Key)
    requires Sound(r)
    ensures !Stale(r, k)
  {
    EntriesUnique(r.members, k);
    EntriesFound(r.members, k);
  }

  lemma EnrolStale(sem: Semantics, info: Ad, r: Roster, key: Key, ad: Ad, k: Key)
    requires Fair(sem, info, r)
    ensures var r' := Enrol(r, key, sem.rank(info, ad)); Fair(sem, info, r') && (Stale(r, k) ==> Stale(r', k))
  {
    var rank := sem.rank(info, ad);
    assert Carries(rank, sem.rank(info, ad));
    EntriesPlaced(r.members, Member(rank, key), k);
  }

  /** A key enrolled while it is there is enrolled twice. */
  lemma EnrolTwice(r: Roster, key: Key, rank: Value)
    requires Sound(r) && key in r.index
    ensures Stale(Enrol(r, key, rank), key)
  {
    EntriesPlaced(r.members, Member(rank, key), key);
    EntriesFound(r.members, key);
  }

  lemma DismissStale(sem: Semantics, info: Ad, r: Roster, key: Key, k: Key)
    requires Fair(sem, info, r)
    ensures var r' := Dismiss(r, key); Fair(sem, info, r') && (Stale(r, k) ==> Stale(r', k))
  {
    if key in r.index {
      EntriesWithout(r.members, r.index[key], k);
    }
  }

  lemma RerankStale(sem: Semantics, info: Ad, r: Roster, key: Key, ad: Ad, k: Key)
    requires Fair(sem, info, r) && Steady(sem, info) && key in r.index && key != k
    ensures var r' := Rerank(r, key, sem.rank(info, ad)); Fair(sem, info, r') && (Stale(r, k) ==> Stale(r', k))
  {
    hide Before;
    hide Operate;
    hide Coerced;
    var rank, stored := sem.rank(info, ad), r.index[key].rank;
    var ad0 :| Carries(stored, sem.rank(info, ad0));
    RankStaysCarried(stored, sem.rank(info, ad0), rank);
    if Operate(Is, rank, stored) != Bool(true) {
      var (rank', was') := Coerced(rank, stored);
      TameStays(rank, stored);
      forall x | x in r.members && Tied(x, Member(was', key)) ensures x.key != k {
        TiedMeans(Member(was', key), x);
      }
      EntriesExpelled(r.members, Member(was', key), k);
      EntriesPlaced(Expelled(r.members, Member(was', key)), Member(rank', key), k);
    }
  }

  lemma TameStays(rank: Value, stored: Value)
    requires Tame(stored)
    ensures Keyed(Coerced(rank, stored).1)
  {
  }

  // ------------------------------------------------------- the root of the tree

  /** A key of which the root has a member too many, and that the undo is not going to change in place:
      by now it is absent from the table or was absent when the operations to come were done. */
  ghost predicate Spoilt(rules: Rules, fwd: Table, st: State, k: Key) {
    && Undivided(rules.views, st.root) && Steady(rules.views, st.root.info)
    && Fair(rules.views, st.root.info, st.root.roster) && Stale(st.root.roster, k)
    && !(k in st.table && k in fwd)
  }

  lemma InsertedRoot(sem: Semantics, v: View, registry: set<string>, key: Key, ad: Ad)
    requires Undivided(sem, v)
    ensures var r := Inserted(sem, v, registry, key, ad).view;
            && r.info == v.info
            && r.roster == if sem.matches(v.info, ad) then Enrol(v.roster, key, sem.rank(v.info, ad)) else v.roster
  {
    hide InsertedAll;
    hide Enrol;
    UndividedInsertedAll(sem, v.subs, registry, key, ad);
  }

  lemma DeletedRoot(sem: Semantics, v: View, key: Key, ad: Ad)
    requires Undivided(sem, v)
    ensures var r := Deleted(sem, v, key, ad);
            r.Some? && r.value.info == v.info && r.value.roster == Dismiss(v.roster, key)
  {
    hide DeletedAll;
    hide Without;
    UndividedDeleted(sem, v, key, ad);
  }

  /** Changing the ad of another key keeps what is stale. */
  lemma ChangedRoot(rules: Rules, st: State, key: Key, ad: Ad, k: Key)
    requires Undivided(rules.views, st.root) && Steady(rules.views, st.root.info) && key in st.table && key != k
    requires Fair(rules.views, st.root.info, st.root.roster) && Stale(st.root.roster, k)
    ensures var r := Changed(rules, st, key, ad).state.root;
            && r.info == st.root.info
            && Fair(rules.views, r.info, r.roster) && Stale(r.roster, k)
  {
    hide Inserted;
    hide Deleted;
    hide PreModifiedAll;
    hide ModifiedAll;
    hide Moved;
    hide Rerank;
    hide Enrol;
    hide Dismiss;
    hide Fair;
    hide Stale;
    hide Steady;
    hide Undivided;
    var sem, was := rules.views, st.table[key];
    var v := PreModified(sem, st.root, was);
    PreModifiedBare(sem, st.root, was);
    UndividedShape(sem, st.root, v);
    PreModifiedNoted(sem, st.root, was);
    UndividedModified(sem, v, st.registry, key, was, ad);
    InsertedRoot(sem, v, st.registry, key, ad);
    DeletedRoot(sem, v, key, ad);
    EnrolStale(sem, v.info, v.roster, key, ad, k);
    DismissStale(sem, v.info, v.roster, key, k);
    if key in v.roster.index {
      RerankStale(sem, v.info, v.roster, key, ad, k);
      var v1 := v.(roster := Rerank(v.roster, key, sem.rank(v.info, ad)));
      MovedRoster(v1, st.registry, key, sem.signature(v.info, ad));
    }
  }

  lemma MovedRoster(v: View, registry: set<string>, key: Key, signature: string)
    ensures Moved(v, registry, key, signature).view.roster == v.roster
    ensures Moved(v, registry, key, signature).view.info == v.info
  {
  }

  /** Undoing an operation keeps what is stale. */
  lemma SpoiltStep(rules: Rules, fwd: Table, st: State, k: Key, op: Op, backup: Option<Ad>)
    requires Spoilt(rules, fwd, st, k) && Applies(op, fwd) && backup == Get(fwd, op.key)
    requires UndoneOne(st.table, op, backup).Some?
    ensures var r := UndoOne(rules, st, op, backup);
            r.status.Done? && Spoilt(rules, Applied(rules, fwd, op), r.state, k)
  {
    hide Inserted;
    hide Deleted;
    hide Changed;
    hide Enrol;
    hide Dismiss;
    hide Fair;
    hide Stale;
    hide Steady;
    hide Undivided;
    var sem, v := rules.views, st.root;
    UndoOneTable(rules, st, op, backup);
    EnrolOrDismiss(rules, st, op.key, if backup.Some? then backup.value else [], k);
    if !op.RemoveOp? && backup.Some? {
      ChangedRoot(rules, st, op.key, backup.value, k);
    }
  }

  lemma EnrolOrDismiss(rules: Rules, st: State, key: Key, ad: Ad, k: Key)
    requires Undivided(rules.views, st.root)
    requires Fair(rules.views, st.root.info, st.root.roster) && Stale(st.root.roster, k)
    ensures var r := Admitted(rules, st, key, ad).state.root;
            r.info == st.root.info && Fair(rules.views, r.info, r.roster) && Stale(r.roster, k)
    ensures key in st.table ==>
      var r := Withdrawn(rules, st, key).state.root;
      r.info == st.root.info && Fair(rules.views, r.info, r.roster) && Stale(r.roster, k)
  {
    hide Inserted;
    hide Deleted;
    hide Enrol;
    hide Dismiss;
    hide Fair;
    hide Stale;
    hide Undivided;
    var sem, v := rules.views, st.root;
    InsertedRoot(sem, v, st.registry, key, ad);
    EnrolStale(sem, v.info, v.roster, key, ad, k);
    DismissStale(sem, v.info, v.roster, key, k);
    if key in st.table {
      DeletedRoot(sem, v, key, st.table[key]);
    }
  }

  /** What is stale stays so to the end of the undo. */
  lemma {:induction false} SpoiltStays(
    rules: Rules, fwd: Table, st: State, k: Key, ops: seq<Op>, backups: seq<Option<Ad>>)
    requires Spoilt(rules, fwd, st, k) && Saved(rules, fwd, ops, backups) && Undone(st.table, ops, backups).Some?
    ensures !InOrder(rules, Undo(rules, st, ops, backups).state)
    decreases |ops|
  {
    hide Applied;
    if ops == [] {
      NotInOrder(rules, fwd, st, k);
    } else {
      hide Spoilt;
      hide InOrder;
      SpoiltStep(rules, fwd, st, k, ops[0], backups[0]);
      SpoiltTable(rules, fwd, st, k, ops[0], backups[0]);
      var one := UndoOne(rules, st, ops[0], backups[0]);
      hide UndoOne;
      SpoiltStays(rules, Applied(rules, fwd, ops[0]), one.state, k, ops[1..], backups[1..]);
    }
  }

  lemma SpoiltTable(rules: Rules, fwd: Table, st: State, k: Key, op: Op, backup: Option<Ad>)
    requires Spoilt(rules, fwd, st, k)
    ensures var u, t := UndoOne(rules, st, op, backup), UndoneOne(st.table, op, backup);
            t.Some? ==> u.state.table == t.value
  {
    hide Undivided;
    UndoOneTable(rules, st, op, backup);
  }

  lemma NotInOrder(rules: Rules, fwd: Table, st: State, k: Key)
    requires Spoilt(rules, fwd, st, k)
    ensures !InOrder(rules, st)
  {
    hide Sound;
    hide Undivided;
    hide Steady;
    hide Stale;
    hide Fair;
    if InOrder(rules, st) {
      SoundIsNotStale(st.root.roster, k);
    }
  }

  // ------------------------------------------------------------ in order after all

  /** What is in the table for the key of the `i`th operation when its turn to be undone comes. */
  function There(table: Table, ops: seq<Op>, backups: seq<Option<Ad>>, i: nat): (r: Option<Ad>)
    requires |ops| == |backups| && i < |ops|
  {
    var before := LastBackup(ops[..i], backups[..i], ops[i].key);
    if before.Some? then before.value else Get(table, ops[i].key)
  }

  /** A removal whose undo finds the key there, where the root takes both the ad that is there and the
      one that is put back. */
  predicate Clashes(
    rules: Rules, info: Ad, table: Table, ops: seq<Op>, backups: seq<Option<Ad>>, i: nat)
    requires |ops| == |backups| && i < |ops|
  {
    && ops[i].RemoveOp? && backups[i].Some? && rules.views.matches(info, backups[i].value)
    && var there := There(table, ops, backups, i);
       there.Some? && rules.views.matches(info, there.value)
  }

  lemma ClashesLater(rules: Rules, info: Ad, table: Table, ops: seq<Op>, backups: seq<Option<Ad>>, i: nat)
    requires |ops| == |backups| && 0 < i < |ops|
    ensures Clashes(rules, info, table, ops, backups, i)
       <==> Clashes(rules, info, Put(table, ops[0].key, backups[0]), ops[1..], backups[1..], i - 1)
  {
    hide LastBackup;
    LastBackupHead(ops, backups, i, ops[i].key);
    var table' := Put(table, ops[0].key, backups[0]);
    assert Get(table', ops[i].key) == if ops[i].key == ops[0].key then backups[0] else Get(table, ops[i].key);
  }

  /** What the views were told of a key: its ad, unless that is an ad the root does not take, put back for
      an ad that the views still hold. Such a key was absent when the operations to come were done and is
      there at their end, so that one of them is going to take it out. */
  ghost predicate ToldOf(rules: Rules, fwd: Table, end: Table, st: State, told: Table, k: Key) {
    || Get(told, k) == Get(st.table, k)
    || (k in told && k in st.table && !rules.views.matches(st.root.info, st.table[k]) && k !in fwd && k in end)
  }

  /** The views are in order over what they were told. */
  ghost predicate Told(rules: Rules, fwd: Table, end: Table, st: State, told: Table) {
    && InOrder(rules, State(told, st.root, st.registry))
    && (forall k :: ToldOf(rules, fwd, end, st, told, k))
    && (forall k :: k in st.table && k in fwd ==> k in end)
  }

  lemma {:induction false} DeletedAlike(sem: Semantics, v: View, key: Key, a: Ad, b: Ad)
    requires Undivided(sem, v)
    ensures Deleted(sem, v, key, a) == Deleted(sem, v, key, b)
    decreases v
  {
    DeletedAllAlike(sem, v.subs, key, a, b);
  }

  lemma {:induction false} DeletedAllAlike(sem: Semantics, vs: seq<View>, key: Key, a: Ad, b: Ad)
    requires UndividedAll(sem, vs)
    ensures DeletedAll(sem, vs, key, a) == DeletedAll(sem, vs, key, b)
    decreases vs
  {
    hide Undivided;
    hide Deleted;
    if vs != [] {
      DeletedAlike(sem, vs[0], key, a, b);
      DeletedAllAlike(sem, vs[1..], key, a, b);
    }
  }

  /** An ad that the root does not take may as well be absent. */
  lemma NotTaken(rules: Rules, st: State, key: Key)
    requires InOrder(rules, st) && key in st.table && !rules.views.matches(st.root.info, st.table[key])
    ensures InOrder(rules, st.(table := st.table - {key}))
  {
    hide RosterCurrent;
    hide PartsCurrent;
    hide CurrentAll;
    hide Undivided;
    hide Names;
    assert Selected(rules.views, st.root.info, st.table - {key}) == Selected(rules.views, st.root.info, st.table);
  }

  lemma ShapeInfo(s: State, t: State)
    requires SameShape(s, t)
    ensures s.root.info == t.root.info
  {
  }

  /** What the views are told when an operation is undone. */
  function Retold(rules: Rules, st: State, told: Table, op: Op, backup: Option<Ad>): (r: Table) {
    if op.RemoveOp? && op.key in st.table && backup.Some?
       && rules.views.matches(st.root.info, st.table[op.key]) && !rules.views.matches(st.root.info, backup.value)
    then told
    else Put(told, op.key, backup)
  }

  /** The tree over what it was told, when an operation is undone. */
  lemma RetoldInOrder(rules: Rules, fwd: Table, end: Table, st: State, told: Table, op: Op, backup: Option<Ad>)
    requires Told(rules, fwd, end, st, told) && Applies(op, fwd) && backup == Get(fwd, op.key)
    requires UndoneOne(st.table, op, backup).Some?
    requires op.RemoveOp? && op.key in st.table ==>
      !(rules.views.matches(st.root.info, st.table[op.key]) && rules.views.matches(st.root.info, backup.value))
    ensures var r := UndoOne(rules, st, op, backup).state;
            && InOrder(rules, State(Retold(rules, st, told, op, backup), r.root, r.registry))
            && r.root.info == st.root.info
  {
    hide InOrder;
    hide SameShape;
    hide Inserted;
    hide Deleted;
    hide Modified;
    hide PreModified;
    var key := op.key;
    var seen := State(told, st.root, st.registry);
    assert ToldOf(rules, fwd, end, st, told, key);
    UndividedIn(rules, seen);
    if op.RemoveOp? {
      if key !in st.table {
        AdmittedInOrder(rules, seen, key, backup.value);
        ShapeInfo(Admitted(rules, seen, key, backup.value).state, seen);
      } else if rules.views.matches(st.root.info, st.table[key]) {
        Unmoved(rules, st, key, backup.value);
      } else {
        NotTaken(rules, seen, key);
        var without := seen.(table := told - {key});
        AdmittedInOrder(rules, without, key, backup.value);
        ShapeInfo(Admitted(rules, without, key, backup.value).state, without);
        assert (told - {key})[key := backup.value] == told[key := backup.value];
      }
    } else if backup.None? {
      WithdrawnInOrder(rules, seen, key);
      ShapeInfo(Withdrawn(rules, seen, key).state, seen);
      DeletedAlike(rules.views, st.root, key, st.table[key], told[key]);
    } else {
      ChangedInOrder(rules, seen, key, backup.value);
      ShapeInfo(Changed(rules, seen, key, backup.value).state, seen);
    }
  }

  lemma Unmoved(rules: Rules, st: State, key: Key, ad: Ad)
    requires !rules.views.matches(st.root.info, ad)
    ensures Admitted(rules, st, key, ad).state == State(st.table[key := ad], st.root, st.registry)
  {
  }

  lemma ToldStep(rules: Rules, fwd: Table, end: Table, st: State, told: Table, op: Op, backup: Option<Ad>)
    requires Told(rules, fwd, end, st, told) && Applies(op, fwd) && backup == Get(fwd, op.key)
    requires UndoneOne(st.table, op, backup).Some?
    requires op.RemoveOp? && op.key in st.table ==>
      !(rules.views.matches(st.root.info, st.table[op.key]) && rules.views.matches(st.root.info, backup.value))
    ensures var r := UndoOne(rules, st, op, backup);
            && Told(rules, Applied(rules, fwd, op), end, r.state, Retold(rules, st, told, op, backup))
            && r.status.Done? && r.state.table == Put(st.table, op.key, backup)
            && r.state.root.info == st.root.info
  {
    hide InOrder;
    hide UndoOne;
    UndividedIn(rules, State(told, st.root, st.registry));
    UndoOneTable(rules, st, op, backup);
    RetoldInOrder(rules, fwd, end, st, told, op, backup);
    var r := UndoOne(rules, st, op, backup).state;
    var fwd', told' := Applied(rules, fwd, op), Retold(rules, st, told, op, backup);
    forall k ensures ToldOf(rules, fwd', end, r, told', k) {
      assert ToldOf(rules, fwd, end, st, told, k);
      assert ToldOf(rules, fwd, end, st, told, op.key);
      assert Get(fwd', k) == if k == op.key then Result(rules, op, Get(fwd, k)) else Get(fwd, k);
      assert Get(r.table, k) == if k == op.key then backup else Get(st.table, k);
    }
    forall k | k in r.table && k in fwd' ensures k in end {
      assert Get(fwd', k) == if k == op.key then Result(rules, op, Get(fwd, k)) else Get(fwd, k);
      assert Get(r.table, k) == if k == op.key then backup else Get(st.table, k);
    }
  }

  /** The undo leaves the views in order exactly if no removal clashes. */
  lemma {:induction false} UndoTold(
    rules: Rules, fwd: Table, st: State, told: Table, ops: seq<Op>, backups: seq<Option<Ad>>)
    requires Saved(rules, fwd, ops, backups) && Undone(st.table, ops, backups).Some?
    requires Told(rules, fwd, After(rules, fwd, ops), st, told)
    ensures InOrder(rules, Undo(rules, st, ops, backups).state)
       <==> forall i :: 0 <= i < |ops| ==> !Clashes(rules, st.root.info, st.table, ops, backups, i)
    decreases |ops|
  {
    hide InOrder;
    hide Applied;
    hide LastBackup;
    if ops == [] {
      assert told == st.table by {
        forall k ensures Get(told, k) == Get(st.table, k) {
          assert ToldOf(rules, fwd, fwd, st, told, k);
        }
        SameGets(told, st.table);
      }
      assert st == State(told, st.root, st.registry);
    } else {
      var op, backup, info := ops[0], backups[0], st.root.info;
      NoBackupYet(ops, backups, op.key);
      assert There(st.table, ops, backups, 0) == Get(st.table, op.key);
      if Clashes(rules, info, st.table, ops, backups, 0) {
        ClashSpoils(rules, fwd, After(rules, fwd, ops), st, told, op, backup);
        var one := UndoOne(rules, st, op, backup);
        hide UndoOne;
        SpoiltStays(rules, Applied(rules, fwd, op), one.state, op.key, ops[1..], backups[1..]);
      } else {
        ToldStep(rules, fwd, After(rules, fwd, ops), st, told, op, backup);
        var one := UndoOne(rules, st, op, backup);
        hide UndoOne;
        hide Clashes;
        var told' := Retold(rules, st, told, op, backup);
        UndoTold(rules, Applied(rules, fwd, op), one.state, told', ops[1..], backups[1..]);
        forall i | 0 < i < |ops|
          ensures Clashes(rules, info, st.table, ops, backups, i)
             <==> Clashes(rules, info, one.state.table, ops[1..], backups[1..], i - 1)
        {
          ClashesLater(rules, info, st.table, ops, backups, i);
        }
        if j :| 0 <= j < |ops[1..]| && Clashes(rules, info, one.state.table, ops[1..], backups[1..], j) {
          assert Clashes(rules, info, st.table, ops, backups, j + 1);
        }
      }
    }
  }

  lemma ClashSpoils(rules: Rules, fwd: Table, end: Table, st: State, told: Table, op: Op, backup: Option<Ad>)
    requires Told(rules, fwd, end, st, told) && Applies(op, fwd) && backup == Get(fwd, op.key)
    requires op.RemoveOp? && op.key in st.table
    requires rules.views.matches(st.root.info, st.table[op.key]) && rules.views.matches(st.root.info, backup.value)
    ensures var r := UndoOne(rules, st, op, backup);
            && r.status.Done? && UndoneOne(st.table, op, backup) == Some(r.state.table)
            && Spoilt(rules, Applied(rules, fwd, op), r.state, op.key)
  {
    hide Inserted;
    hide Enrol;
    hide Stale;
    hide Fair;
    hide Steady;
    hide Undivided;
    hide Sound;
    hide Names;
    var sem, v, key := rules.views, st.root, op.key;
    assert ToldOf(rules, fwd, end, st, told, key);
    UndoOneTable(rules, st, op, backup);
    InsertedRoot(sem, v, st.registry, key, backup.value);
    RosterKeys(sem, v.info, v.roster, Selected(sem, v.info, told));
    CurrentFair(sem, v, told);
    EnrolTwice(v.roster, key, sem.rank(v.info, backup.value));
    EnrolStale(sem, v.info, v.roster, key, backup.value, key);
  }

  lemma CurrentFair(sem: Semantics, v: View, content: map<Key, Ad>)
    requires Current(sem, v, content)
    ensures Sound(v.roster) && Fair(sem, v.info, v.roster)
  {
    hide Carries;
    hide PartsCurrent;
    var members := Selected(sem, v.info, content);
    forall j | j in v.roster.index ensures Given(sem, v.info, v.roster.index[j].rank) {
      assert Carries(v.roster.index[j].rank, sem.rank(v.info, members[j]));
    }
  }

  /** A failed commit that does not crash leaves the views in order over the table it leaves, whatever
      that is, exactly if no removal clashes. */
  lemma FailedCommitViews(rules: Rules, st: State, ops: seq<Op>)
    requires InOrder(rules, st) && !Succeeds(rules, st.table, ops)
    requires var p := Played(rules, st.table, ops); !AnyDoomed(ops[..|p.backups|], p.backups)
    ensures var p := Played(rules, st.table, ops);
            var done := ops[..|p.backups|];
            var r := Commit(rules, st, ops);
            && r.status.Refused? && Undone(p.table, done, p.backups) == Some(r.state.table)
            && (InOrder(rules, r.state) <==>
                  forall i :: 0 <= i < |done| ==> !Clashes(rules, st.root.info, p.table, done, p.backups, i))
  {
    hide InOrder;
    hide SameShape;
    hide Forward;
    hide Undo;
    hide Played;
    hide After;
    hide Saved;
    hide Undone;
    hide AnyDoomed;
    hide Clashes;
    hide LastFoundFirst;
    FailedCommitExactly(rules, st, ops);
    ForwardInOrder(rules, st, ops);
    PlayedIsSaved(rules, st.table, ops);
    var f, p := Forward(rules, st, ops), Played(rules, st.table, ops);
    var done := ops[..|p.backups|];
    RunsOffExactly(rules, st.table, done, p.backups);
    assert f.state == State(f.state.table, f.state.root, f.state.registry);
    assert Told(rules, st.table, p.table, f.state, f.state.table);
    ShapeInfo(f.state, st);
    UndividedIn(rules, f.state);
    UndoTable(rules, f.state, done, p.backups);
    UndoTold(rules, st.table, f.state, f.state.table, done, p.backups);
  }

  /** An ad removed and added again before the commit fails: the undo of the removal finds the key there and
      enrols it a second time. The undo of the addition then takes one of the two out, and the key is
      neither in the table nor quite gone from the views. */
  lemma EnrolledTwiceCounterexample(rules: Rules, st: State, key: Key, ad: Ad, missing: Key)
    requires InOrder(rules, st) && key in st.table && missing !in st.table
    requires rules.views.matches(st.root.info, st.table[key]) && rules.views.matches(st.root.info, ad)
    ensures var ops := [RemoveOp(key), AddOp(key, ad), RemoveOp(missing)];
            var r := Commit(rules, st, ops);
            r.status.Refused? && r.state.table == st.table - {key} && !InOrder(rules, r.state)
  {
    hide InOrder;
    hide Commit;
    var ops := [RemoveOp(key), AddOp(key, ad), RemoveOp(missing)];
    var table, was := st.table, st.table[key];
    var backups := [Some(was), None];
    RemovedAndAdded(rules, table, key, ad, missing);
    PlayedIsSaved(rules, table, ops);
    RunsOffExactly(rules, table, ops[..2], backups);
    FailedCommitViews(rules, st, ops);
    NoBackupYet(ops[..2], backups, key);
    assert Clashes(rules, st.root.info, table[key := ad], ops[..2], backups, 0);
  }

  lemma RemovedAndAdded(rules: Rules, table: Table, key: Key, ad: Ad, missing: Key)
    requires key in table && missing !in table
    ensures var ops := [RemoveOp(key), AddOp(key, ad), RemoveOp(missing)];
            var backups := [Some(table[key]), None];
            && Played(rules, table, ops) == Progress(table[key := ad], backups)
            && Undone(table[key := ad], ops[..2], backups) == Some(table - {key})
  {
    var ops := [RemoveOp(key), AddOp(key, ad), RemoveOp(missing)];
    var backups := [Some(table[key]), None];
    var t1, t2 := table - {key}, table[key := ad];
    assert t1[key := ad] == t2;
    assert ops[1..] == [ops[1], ops[2]] && ops[1..][1..] == [ops[2]];
    assert Played(rules, t2, [ops[2]]) == Progress(t2, []);
    assert Played(rules, t1, ops[1..]) == Progress(t2, [None]);
    assert ops[..2][1..] == [ops[1]] && backups[1..] == [None];
    assert [ops[1]][1..] == [] && backups[1..][1..] == [];
    assert t2[key := table[key]] == table;
    assert Undone(t1, [ops[1]][1..], backups[1..][1..]) == Some(t1);
    assert Undone(table, [ops[1]], backups[1..]) == Some(t1);
  }
}
