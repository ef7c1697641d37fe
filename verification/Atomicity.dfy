/** Failed commits in collections with partitioned views. */
module Atomicity {
  import opened Expressions
  import opened Members
  import opened Rosters
  import opened Views
  import opened ViewTheorems
  import opened ViewRegistry
  import opened Traces
  import opened Transactions
  import opened Collections
  import opened Partitions

  // ------------------------------------------------------------- operations

  /** What an operation makes of the ad it finds. */
  function MadeOf(rules: Rules, op: Op, was: Ad): (now: Ad)
    requires !op.RemoveOp?
  {
    Result(rules, op, Some(was)).value
  }

  /** A change of an ad that is there is carried through cleanly. Adding replaces the old ad, and is no
      change. */
  ghost predicate CleanForward(rules: Rules, st: State, op: Op) {
    (op.UpdateOp? || op.ModifyOp?) && op.key in st.table ==>
      CleanlyModified(rules.views, st.root, st.table[op.key], MadeOf(rules, op, st.table[op.key]))
  }

  /** An ad that was there is put back cleanly. */
  ghost predicate CleanBack(rules: Rules, st: State, op: Op) {
    !op.RemoveOp? && op.key in st.table ==>
      CleanlyModified(rules.views, st.root, MadeOf(rules, op, st.table[op.key]), st.table[op.key])
  }

  lemma PlayKept(rules: Rules, st: State, op: Op)
    requires Kept(rules, st) && CleanForward(rules, st, op)
    ensures var r := Play(rules, st, op);
            && (r.status.Done? ==> Applies(op, st.table) && r.state.table == Applied(rules, st.table, op)
                                   && Kept(rules, r.state) && Grows(st.root, r.state.root))
            && (!Applies(op, st.table) ==> r == Effect(Refused, st))
  {
    hide Kept;
    hide Grows;
    hide Withdrawn;
    hide Admitted;
    hide Changed;
    hide CleanlyModified;
    if Applies(op, st.table) && Play(rules, st, op).status.Done? {
      match op
      case AddOp(key, ad) =>
        if key in st.table {
          WithdrawnKept(rules, st, key);
          var mid := Withdrawn(rules, st, key).state;
          AdmittedKept(rules, mid, key, ad);
          GrowsOn(st.root, mid.root, Admitted(rules, mid, key, ad).state.root);
          assert (st.table - {key})[key := ad] == st.table[key := ad];
        } else {
          AdmittedKept(rules, st, key, ad);
        }
      case UpdateOp(key, ad) => ChangedKept(rules, st, key, rules.updated(st.table[key], ad));
      case ModifyOp(key, ad) => ChangedKept(rules, st, key, rules.modified(st.table[key], ad));
      case RemoveOp(key) => WithdrawnKept(rules, st, key);
    }
  }

  /** Whether a change is clean is a matter of the descriptions and of the ad of the key. */
  lemma CleanOpStays(rules: Rules, st: State, t: State, op: Op)
    requires Grows(st.root, t.root) && Get(t.table, op.key) == Get(st.table, op.key)
    ensures CleanForward(rules, st, op) <==> CleanForward(rules, t, op)
    ensures CleanBack(rules, st, op) <==> CleanBack(rules, t, op)
  {
    hide Grows;
    hide CleanlyModified;
    if !op.RemoveOp? && op.key in st.table {
      var was := st.table[op.key];
      var now := MadeOf(rules, op, was);
      CleanStays(rules.views, st.root, t.root, now, was);
      CleanStays(rules.views, st.root, t.root, was, now);
    }
  }

  // ------------------------------------------------------------ transactions

  /** The operations that a commit gets done are all carried through cleanly. */
  ghost predicate DoneCleanly(rules: Rules, st: State, ops: seq<Op>) {
    forall i :: 0 <= i < |Forward(rules, st, ops).backups| ==> CleanForward(rules, st, ops[i])
  }

  /** The state in which a commit meets the operation that stops it. */
  function Stopped(rules: Rules, st: State, ops: seq<Op>): (r: State) {
    Forward(rules, st, ops[..|Forward(rules, st, ops).backups|]).state
  }

  /** How far a commit on distinct keys gets, and that it gets there in order. */
  ghost predicate GotThere(rules: Rules, st: State, ops: seq<Op>) {
    var f := Forward(rules, st, ops);
    var n := |f.backups|;
    var mid := Stopped(rules, st, ops);
    && Saved(rules, st.table, ops[..n], f.backups)
    && Kept(rules, mid) && Grows(st.root, mid.root) && mid.table == After(rules, st.table, ops[..n])
    && if f.status.Done? then n == |ops| && f.state == mid
       else n < |ops| && Play(rules, mid, ops[n]) == Effect(f.status, f.state)
  }

  lemma {:induction false} ForwardKept(rules: Rules, st: State, ops: seq<Op>)
    requires Kept(rules, st) && DistinctKeys(ops) && DoneCleanly(rules, st, ops)
    ensures GotThere(rules, st, ops)
    decreases |ops|
  {
    hide Kept;
    hide Grows;
    hide Play;
    hide CleanForward;
    hide Applied;
    GrowsSelf(st.root);
    if ops != [] {
      var first := Play(rules, st, ops[0]);
      if first.status.Done? {
        var g := Forward(rules, first.state, ops[1..]);
        PlayKept(rules, st, ops[0]);
        forall i | 0 <= i < |g.backups| ensures CleanForward(rules, first.state, ops[1..][i]) {
          assert ops[i + 1].key != ops[0].key;
          OtherKey(rules, st.table, ops[0], ops[i + 1].key);
          CleanOpStays(rules, st, first.state, ops[i + 1]);
        }
        ForwardKept(rules, first.state, ops[1..]);
        ForwardStep(rules, st, ops);
      }
    }
  }

  lemma OtherKey(rules: Rules, table: Table, op: Op, key: Key)
    requires key != op.key
    ensures Get(Applied(rules, table, op), key) == Get(table, key)
  {
  }

  lemma ForwardStep(rules: Rules, st: State, ops: seq<Op>)
    requires ops != [] && Play(rules, st, ops[0]).status.Done?
    requires Applies(ops[0], st.table) && Play(rules, st, ops[0]).state.table == Applied(rules, st.table, ops[0])
    requires Grows(st.root, Play(rules, st, ops[0]).state.root)
    requires GotThere(rules, Play(rules, st, ops[0]).state, ops[1..])
    ensures GotThere(rules, st, ops)
  {
    hide Kept;
    hide Grows;
    hide Play;
    hide Applied;
    var first := Play(rules, st, ops[0]).state;
    var g, f := Forward(rules, first, ops[1..]), Forward(rules, st, ops);
    var n := |f.backups|;
    assert ops[..n][1..] == ops[1..][..n - 1] && f.backups[1..] == g.backups;
    var mid := Stopped(rules, st, ops);
    assert mid == Stopped(rules, first, ops[1..]);
    GrowsOn(st.root, first.root, mid.root);
  }

  // -------------------------------------------------------------------- undo

  /** What the undo of one operation needs of the tree it starts from. */
  ghost predicate Undoable(rules: Rules, st: State, op: Op, backup: Option<Ad>) {
    && (op.key in st.table <==> !op.RemoveOp?)
    && (op.RemoveOp? ==> backup.Some?)
    && (backup.Some? ==> HasRoom(rules.views, st.root, backup.value))
  }

  /** The ad that was found is put back cleanly. */
  ghost predicate BackCleanly(rules: Rules, st: State, op: Op, backup: Option<Ad>) {
    backup.Some? && !op.RemoveOp? && op.key in st.table ==>
      CleanlyModified(rules.views, st.root, st.table[op.key], backup.value)
  }

  lemma UndoOneKept(rules: Rules, st: State, op: Op, backup: Option<Ad>)
    requires Kept(rules, st) && Undoable(rules, st, op, backup) && BackCleanly(rules, st, op, backup)
    ensures var r := UndoOne(rules, st, op, backup);
            && r.status.Done? && Kept(rules, r.state) && Grows(st.root, r.state.root)
            && r.state.table == Put(st.table, op.key, backup)
            && UndoneOne(st.table, op, backup) == Some(r.state.table)
  {
    hide Kept;
    hide Grows;
    hide Withdrawn;
    hide Changed;
    hide Inserted;
    hide HasRoom;
    hide CleanlyModified;
    if op.RemoveOp? {
      RoomyInserted(rules.views, st.root, st.registry, op.key, backup.value);
      AdmittedKept(rules, st, op.key, backup.value);
    } else if backup.None? {
      WithdrawnKept(rules, st, op.key);
    } else {
      ChangedKept(rules, st, op.key, backup.value);
    }
  }

  lemma UndoableStays(rules: Rules, st: State, t: State, op: Op, backup: Option<Ad>)
    requires Undoable(rules, st, op, backup) && Grows(st.root, t.root) && Get(t.table, op.key) == Get(st.table, op.key)
    ensures Undoable(rules, t, op, backup)
    ensures BackCleanly(rules, st, op, backup) <==> BackCleanly(rules, t, op, backup)
  {
    hide Grows;
    hide HasRoom;
    hide CleanlyModified;
    if backup.Some? {
      RoomStays(rules.views, st.root, t.root, backup.value);
      if op.key in st.table {
        CleanStays(rules.views, st.root, t.root, st.table[op.key], backup.value);
      }
    }
  }

  lemma {:induction false} UndoKept(rules: Rules, st: State, ops: seq<Op>, backups: seq<Option<Ad>>)
    requires Kept(rules, st) && |ops| == |backups| && DistinctKeys(ops)
    requires forall i :: 0 <= i < |ops| ==>
      Undoable(rules, st, ops[i], backups[i]) && BackCleanly(rules, st, ops[i], backups[i])
    ensures var u := Undo(rules, st, ops, backups);
            && u.status.Done? && Kept(rules, u.state) && Grows(st.root, u.state.root)
            && Undone(st.table, ops, backups) == Some(u.state.table)
    decreases |ops|
  {
    hide Kept;
    hide Grows;
    hide Undoable;
    hide BackCleanly;
    GrowsSelf(st.root);
    if ops != [] {
      UndoOneKept(rules, st, ops[0], backups[0]);
      var first := UndoOne(rules, st, ops[0], backups[0]).state;
      hide UndoOne;
      forall i | 0 <= i < |ops[1..]|
        ensures Undoable(rules, first, ops[1..][i], backups[1..][i])
        ensures BackCleanly(rules, first, ops[1..][i], backups[1..][i])
      {
        assert ops[i + 1].key != ops[0].key;
        assert Get(first.table, ops[i + 1].key) == Get(st.table, ops[i + 1].key);
        UndoableStays(rules, st, first, ops[i + 1], backups[i + 1]);
      }
      UndoKept(rules, first, ops[1..], backups[1..]);
      GrowsOn(st.root, first.root, Undo(rules, first, ops[1..], backups[1..]).state.root);
    }
  }

  // ------------------------------------------------------------ failed commits

  lemma {:induction false} DistinctFound(rules: Rules, table: Table, ops: seq<Op>, backups: seq<Option<Ad>>, i: nat)
    requires Saved(rules, table, ops, backups) && DistinctKeys(ops) && i < |ops|
    ensures |ops| == |backups| && backups[i] == Get(table, ops[i].key)
    ensures Get(After(rules, table, ops), ops[i].key) == Result(rules, ops[i], Get(table, ops[i].key))
    decreases |ops|
  {
    var table' := Applied(rules, table, ops[0]);
    if i == 0 {
      UntouchedAfter(rules, table', ops[1..], ops[0].key);
      assert Get(table', ops[0].key) == Result(rules, ops[0], Get(table, ops[0].key));
    } else {
      hide Result;
      hide Applied;
      DistinctFound(rules, table', ops[1..], backups[1..], i - 1);
      OtherKey(rules, table, ops[0], ops[i].key);
    }
  }

  lemma DoneIsUndoable(rules: Rules, st: State, t: State, ops: seq<Op>, backups: seq<Option<Ad>>, i: nat)
    requires Kept(rules, st) && Grows(st.root, t.root) && Saved(rules, st.table, ops, backups) && DistinctKeys(ops)
    requires i < |ops| && Get(t.table, ops[i].key) == Get(After(rules, st.table, ops), ops[i].key)
    ensures |ops| == |backups| && Undoable(rules, t, ops[i], backups[i])
    ensures BackCleanly(rules, t, ops[i], backups[i]) <==> CleanBack(rules, st, ops[i])
  {
    hide Grows;
    hide After;
    hide Saved;
    hide HasRoom;
    hide Current;
    hide CleanlyModified;
    var op := ops[i];
    DistinctFound(rules, st.table, ops, backups, i);
    TouchedAfter(rules, st.table, ops, backups, i);
    RemovedWereThere(rules, st.table, ops, backups);
    if op.key in st.table {
      RoomForHeld(rules.views, st.root, st.table, op.key);
      RoomStays(rules.views, st.root, t.root, st.table[op.key]);
      if !op.RemoveOp? {
        CleanStays(rules.views, st.root, t.root, MadeOf(rules, op, st.table[op.key]), st.table[op.key]);
      }
    }
  }

  // ------------------------------------------- undoing, one key at a time

  /** The tree is right about a key. */
  ghost predicate RightAbout(rules: Rules, st: State, k: Key) {
    Right(rules.views, TraceOf(st.root, k), Get(st.table, k))
  }

  lemma KeptIsRight(rules: Rules, st: State, k: Key)
    requires Kept(rules, st)
    ensures RightAbout(rules, st, k) && Even(rules.views, st.root)
  {
    hide Current;
    CurrentIsRight(rules.views, st.root, st.table, k);
    CurrentIsEven(rules.views, st.root, st.table);
  }

  lemma {:induction false} EvenStays(sem: Semantics, v: View, w: View)
    requires Grows(v, w) && Even(sem, v)
    ensures Even(sem, w)
    decreases v
  {
    EvenAllStays(sem, v.subs, w.subs);
  }

  lemma {:induction false} EvenAllStays(sem: Semantics, vs: seq<View>, ws: seq<View>)
    requires GrowsAll(vs, ws) && EvenAll(sem, vs)
    ensures EvenAll(sem, ws)
    decreases vs
  {
    hide Grows;
    hide Even;
    if vs != [] {
      EvenStays(sem, vs[0], ws[0]);
      EvenAllStays(sem, vs[1..], ws[1..]);
    }
  }

  lemma WithdrawnRight(rules: Rules, st: State, key: Key)
    requires key in st.table && RightAbout(rules, st, key) && Even(rules.views, st.root)
    ensures var r := Withdrawn(rules, st, key);
            && r.status.Done? && RightAbout(rules, r.state, key) && r.state.table == st.table - {key}
            && Grows(st.root, r.state.root) && forall k :: k != key ==> TraceOf(r.state.root, k) == TraceOf(st.root, k)
  {
    hide Deleted;
    hide Grows;
    hide Right;
    hide TraceOf;
    hide Even;
    RemovedCleanly(rules.views, st.root, st.table[key]);
    DeletedRight(rules.views, st.root, key, st.table[key], st.table[key]);
    DeletedGrows(rules.views, st.root, key, st.table[key]);
    forall k | k != key ensures TraceOf(Withdrawn(rules, st, key).state.root, k) == TraceOf(st.root, k) {
      DeletedAside(rules.views, st.root, key, st.table[key], k);
    }
  }

  lemma AdmittedRight(rules: Rules, st: State, key: Key, ad: Ad)
    requires key !in st.table && RightAbout(rules, st, key)
    ensures var r := Admitted(rules, st, key, ad);
            && !r.status.Thrown?
            && (r.status.Done? ==> RightAbout(rules, r.state, key) && r.state.table == st.table[key := ad])
            && (r.status.Refused? ==> r.state.table == st.table)
            && Grows(st.root, r.state.root) && forall k :: k != key ==> TraceOf(r.state.root, k) == TraceOf(st.root, k)
  {
    hide Inserted;
    hide Grows;
    hide Right;
    hide TraceOf;
    InsertedRight(rules.views, st.root, st.registry, key, ad);
    InsertedGrows(rules.views, st.root, st.registry, key, ad);
    forall k | k != key ensures TraceOf(Admitted(rules, st, key, ad).state.root, k) == TraceOf(st.root, k) {
      InsertedAside(rules.views, st.root, st.registry, key, ad, k);
    }
  }

  lemma ChangedRight(rules: Rules, st: State, key: Key, ad: Ad)
    requires key in st.table && RightAbout(rules, st, key) && Even(rules.views, st.root)
    ensures var r := Changed(rules, st, key, ad);
            var clean := CleanlyModified(rules.views, st.root, st.table[key], ad);
            && (clean ==> !r.status.Thrown?)
            && (r.status.Done? ==> (RightAbout(rules, r.state, key) <==> clean))
            && (r.status.Refused? ==> !RightAbout(rules, r.state, key))
            && (HasRoom(rules.views, st.root, ad) ==> !r.status.Refused?)
            && r.state.table == st.table[key := ad]
            && Grows(st.root, r.state.root) && forall k :: k != key ==> TraceOf(r.state.root, k) == TraceOf(st.root, k)
  {
    hide Modified;
    hide PreModified;
    hide Noted;
    hide Grows;
    hide HasRoom;
    hide CleanlyModified;
    hide Right;
    hide TraceOf;
    hide Even;
    var was := st.table[key];
    var noted := PreModified(rules.views, st.root, was);
    PreModifiedNoted(rules.views, st.root, was);
    PreModifiedGrows(rules.views, st.root, was);
    PreModifiedTrace(rules.views, st.root, was, key);
    EvenStays(rules.views, st.root, noted);
    CleanStays(rules.views, st.root, noted, was, ad);
    ModifiedRight(rules.views, noted, st.registry, key, was, ad);
    ModifiedGrows(rules.views, noted, st.registry, key, ad);
    var r := Changed(rules, st, key, ad);
    GrowsOn(st.root, noted, r.state.root);
    if HasRoom(rules.views, st.root, ad) {
      RoomStays(rules.views, st.root, noted, ad);
      RoomyModified(rules.views, noted, st.registry, key, ad);
    }
    forall k | k != key ensures TraceOf(r.state.root, k) == TraceOf(st.root, k) {
      PreModifiedTrace(rules.views, st.root, was, k);
      ModifiedAside(rules.views, noted, st.registry, key, ad, k);
    }
  }

  /** Undoing one operation, in a tree that need be right about its key only. */
  lemma UndoOneRight(rules: Rules, st: State, op: Op, backup: Option<Ad>)
    requires Undoable(rules, st, op, backup) && RightAbout(rules, st, op.key) && Even(rules.views, st.root)
    ensures var r := UndoOne(rules, st, op, backup);
            var clean := BackCleanly(rules, st, op, backup);
            && !r.status.Refused? && (clean ==> r.status.Done?)
            && (r.status.Done? ==> (RightAbout(rules, r.state, op.key) <==> clean))
            && (r.status.Done? ==> r.state.table == Put(st.table, op.key, backup))
            && (r.status.Done? ==> UndoneOne(st.table, op, backup) == Some(r.state.table))
            && Grows(st.root, r.state.root)
            && forall k :: k != op.key ==> TraceOf(r.state.root, k) == TraceOf(st.root, k)
  {
    hide RightAbout;
    hide Grows;
    hide Withdrawn;
    hide Changed;
    hide Inserted;
    hide HasRoom;
    hide CleanlyModified;
    hide TraceOf;
    hide Even;
    if op.RemoveOp? {
      RoomyInserted(rules.views, st.root, st.registry, op.key, backup.value);
      AdmittedRight(rules, st, op.key, backup.value);
    } else if backup.None? {
      WithdrawnRight(rules, st, op.key);
    } else {
      ChangedRight(rules, st, op.key, backup.value);
    }
  }

  ghost predicate Touches(ops: seq<Op>, k: Key) {
    exists i :: 0 <= i < |ops| && ops[i].key == k
  }

  /** The undo of operations on distinct keys goes through if all of it is clean, and otherwise throws or
      leaves the tree wrong about exactly the keys that were not put back cleanly. */
  lemma {:induction false} UndoRight(rules: Rules, st: State, ops: seq<Op>, backups: seq<Option<Ad>>)
    requires |ops| == |backups| && DistinctKeys(ops) && Even(rules.views, st.root)
    requires forall i :: 0 <= i < |ops| ==>
      Undoable(rules, st, ops[i], backups[i]) && RightAbout(rules, st, ops[i].key)
    ensures var u := Undo(rules, st, ops, backups);
            && !u.status.Refused?
            && ((forall i :: 0 <= i < |ops| ==> BackCleanly(rules, st, ops[i], backups[i])) ==> u.status.Done?)
            && (u.status.Done? ==>
                  && Undone(st.table, ops, backups) == Some(u.state.table)
                  && (forall i :: 0 <= i < |ops| ==>
                        (RightAbout(rules, u.state, ops[i].key) <==> BackCleanly(rules, st, ops[i], backups[i])))
                  && (forall k :: !Touches(ops, k) ==>
                        TraceOf(u.state.root, k) == TraceOf(st.root, k) && Get(u.state.table, k) == Get(st.table, k)))
    decreases |ops|
  {
    hide RightAbout;
    hide Grows;
    hide Undoable;
    hide BackCleanly;
    hide TraceOf;
    hide Even;
    if ops != [] {
      UndoOneRight(rules, st, ops[0], backups[0]);
      var one := UndoOne(rules, st, ops[0], backups[0]);
      hide UndoOne;
      if one.status.Done? {
        UndoRest(rules, st, one.state, ops, backups);
        EvenStays(rules.views, st.root, one.state.root);
        UndoRight(rules, one.state, ops[1..], backups[1..]);
        var u := Undo(rules, one.state, ops[1..], backups[1..]);
        assert !Touches(ops[1..], ops[0].key);
        if u.status.Done? {
          SameTrace(rules, one.state, u.state, ops[0].key);
          forall i | 0 < i < |ops|
            ensures RightAbout(rules, u.state, ops[i].key) <==> BackCleanly(rules, st, ops[i], backups[i])
          {
            assert ops[i] == ops[1..][i - 1] && backups[i] == backups[1..][i - 1];
          }
        }
      }
    }
  }

  lemma SameTrace(rules: Rules, st: State, t: State, k: Key)
    requires TraceOf(t.root, k) == TraceOf(st.root, k) && Get(t.table, k) == Get(st.table, k)
    ensures RightAbout(rules, t, k) <==> RightAbout(rules, st, k)
  {
  }

  lemma UndoRest(rules: Rules, st: State, t: State, ops: seq<Op>, backups: seq<Option<Ad>>)
    requires |ops| == |backups| && DistinctKeys(ops) && ops != []
    requires forall i :: 0 <= i < |ops| ==>
      Undoable(rules, st, ops[i], backups[i]) && RightAbout(rules, st, ops[i].key)
    requires t.table == Put(st.table, ops[0].key, backups[0]) && Grows(st.root, t.root)
    requires forall k :: k != ops[0].key ==> TraceOf(t.root, k) == TraceOf(st.root, k)
    ensures forall i :: 0 < i < |ops| ==>
      && Undoable(rules, t, ops[i], backups[i]) && RightAbout(rules, t, ops[i].key)
      && (BackCleanly(rules, t, ops[i], backups[i]) <==> BackCleanly(rules, st, ops[i], backups[i]))
  {
    hide Grows;
    hide Undoable;
    hide BackCleanly;
    hide Right;
    hide TraceOf;
    forall i | 0 < i < |ops|
      ensures && Undoable(rules, t, ops[i], backups[i]) && RightAbout(rules, t, ops[i].key)
              && (BackCleanly(rules, t, ops[i], backups[i]) <==> BackCleanly(rules, st, ops[i], backups[i]))
    {
      assert ops[i].key != ops[0].key;
      assert Get(t.table, ops[i].key) == Get(st.table, ops[i].key);
      UndoableStays(rules, st, t, ops[i], backups[i]);
    }
  }


  // ------------------------------------------------- an operation that is refused

  /** The table that an operation leaves when it is refused. An ad that was to be replaced has gone, and
      one that was to be changed has been. */
  function LeftBy(rules: Rules, table: Table, op: Op): (r: Table) {
    if !Applies(op, table) || op.RemoveOp? then table
    else if op.AddOp? then table - {op.key}
    else table[op.key := MadeOf(rules, op, table[op.key])]
  }

  /** The views have not taken notice of a refused operation: it wants an ad, or the first view to file
      the ad it adds is blocked. */
  ghost predicate Unnoticed(rules: Rules, st: State, op: Op) {
    !Applies(op, st.table) || (op.AddOp? && StopsFirst(rules.views, st.root, st.registry, op.ad))
  }

  lemma {:induction false} StopsFirstStays(sem: Semantics, v: View, w: View, registry: set<string>, ad: Ad)
    requires Grows(v, w) && Grows(w, v)
    ensures StopsFirst(sem, v, registry, ad) <==> StopsFirst(sem, w, registry, ad)
    decreases v
  {
    StopsFirstAllStays(sem, v.subs, w.subs, registry, ad);
  }

  lemma {:induction false} StopsFirstAllStays(
    sem: Semantics, vs: seq<View>, ws: seq<View>, registry: set<string>, ad: Ad)
    requires GrowsAll(vs, ws) && GrowsAll(ws, vs)
    ensures StopsFirstAll(sem, vs, registry, ad) <==> StopsFirstAll(sem, ws, registry, ad)
    ensures NoneMatches(sem, vs, ad) <==> NoneMatches(sem, ws, ad)
    decreases vs
  {
    hide StopsFirst;
    if vs != [] {
      StopsFirstStays(sem, vs[0], ws[0], registry, ad);
      StopsFirstAllStays(sem, vs[1..], ws[1..], registry, ad);
    }
  }

  /** What a refused operation leaves: the views are right about every other key, and right about its own
      exactly if it went unnoticed; then the collection is as good as before. */
  ghost predicate LeftOver(rules: Rules, st: State, op: Op, r: State) {
    && r.table == LeftBy(rules, st.table, op) && Grows(st.root, r.root)
    && (forall k :: k != op.key ==> TraceOf(r.root, k) == TraceOf(st.root, k))
    && (RightAbout(rules, r, op.key) <==> Unnoticed(rules, st, op))
    && (Unnoticed(rules, st, op) ==> Kept(rules, r))
    && (r.table == st.table <==> !Applies(op, st.table) || (op.AddOp? && op.key !in st.table))
  }

  lemma RefusedPlay(rules: Rules, st: State, op: Op)
    requires Kept(rules, st) && Play(rules, st, op).status.Refused?
    ensures LeftOver(rules, st, op, Play(rules, st, op).state)
  {
    hide Kept;
    hide Grows;
    hide RightAbout;
    hide TraceOf;
    hide StopsFirst;
    hide Withdrawn;
    hide Admitted;
    hide Changed;
    KeptIsRight(rules, st, op.key);
    GrowsSelf(st.root);
    if Applies(op, st.table) {
      match op
      case AddOp(key, ad) =>
        if key in st.table {
          WithdrawnKept(rules, st, key);
          WithdrawnRight(rules, st, key);
          var mid := Withdrawn(rules, st, key).state;
          RefusedAdmission(rules, mid, key, ad);
          StopsFirstStays(rules.views, st.root, mid.root, st.registry, ad);
          GrowsOn(st.root, mid.root, Admitted(rules, mid, key, ad).state.root);
        } else {
          RefusedAdmission(rules, st, key, ad);
          assert st.table - {key} == st.table;
        }
      case UpdateOp(key, ad) => RefusedChange(rules, st, key, rules.updated(st.table[key], ad));
      case ModifyOp(key, ad) => RefusedChange(rules, st, key, rules.modified(st.table[key], ad));
      case RemoveOp(key) => WithdrawnKept(rules, st, key);
    }
  }

  lemma RefusedAdmission(rules: Rules, st: State, key: Key, ad: Ad)
    requires Kept(rules, st) && key !in st.table && Admitted(rules, st, key, ad).status.Refused?
    ensures var r := Admitted(rules, st, key, ad).state;
            var stops := StopsFirst(rules.views, st.root, st.registry, ad);
            && r.table == st.table && Grows(st.root, r.root)
            && (forall k :: k != key ==> TraceOf(r.root, k) == TraceOf(st.root, k))
            && (RightAbout(rules, r, key) <==> stops) && (stops ==> r == st)
  {
    hide Kept;
    hide Grows;
    hide Right;
    hide TraceOf;
    hide StopsFirst;
    hide Inserted;
    KeptIsRight(rules, st, key);
    AdmittedRight(rules, st, key, ad);
    RefusedInsertion(rules.views, st.root, st.registry, key, ad);
  }

  /** A refused change really changed the ad: there is room for an ad that stays as it is. */
  lemma RefusedChange(rules: Rules, st: State, key: Key, ad: Ad)
    requires Kept(rules, st) && key in st.table && Changed(rules, st, key, ad).status.Refused?
    ensures var r := Changed(rules, st, key, ad).state;
            && r.table == st.table[key := ad] != st.table && Grows(st.root, r.root)
            && (forall k :: k != key ==> TraceOf(r.root, k) == TraceOf(st.root, k))
            && !RightAbout(rules, r, key)
  {
    hide Kept;
    hide Grows;
    hide RightAbout;
    hide TraceOf;
    hide Changed;
    hide HasRoom;
    hide CleanlyModified;
    KeptIsRight(rules, st, key);
    ChangedRight(rules, st, key, ad);
    RoomForKept(rules, st, key);
    assert st.table[key := ad][key] == ad;
  }

  lemma RoomForKept(rules: Rules, st: State, key: Key)
    requires Kept(rules, st) && key in st.table
    ensures HasRoom(rules.views, st.root, st.table[key])
  {
    hide Current;
    RoomForHeld(rules.views, st.root, st.table, key);
  }

  /** A refused operation that was made directly, outside a transaction, leaves the collection alone
      exactly if it goes unnoticed and no view has lost an ad that was to be replaced. */
  lemma RefusedDirectExactly(rules: Rules, st: State, op: Op)
    requires Kept(rules, st) && Direct(rules, st, op).status.Refused?
    ensures Direct(rules, st, op).state == st <==>
            Unnoticed(rules, st, op)
            && (op.AddOp? && op.key in st.table ==> !rules.views.matches(st.root.info, st.table[op.key]))
  {
    hide Kept;
    hide Grows;
    hide RightAbout;
    hide TraceOf;
    hide StopsFirst;
    hide Admitted;
    hide Changed;
    KeptIsRight(rules, st, op.key);
    RefusedPlay(rules, st, op);
    if op.AddOp? && op.key in st.table {
      ReplacingRefused(rules, st, op.key, op.ad);
      assert (st.table - {op.key})[op.key := st.table[op.key]] == st.table;
    } else if op.AddOp? {
      RefusedAdmission(rules, st, op.key, op.ad);
    }
  }

  lemma ReplacingRefused(rules: Rules, st: State, key: Key, ad: Ad)
    requires Kept(rules, st) && key in st.table
    requires var mid := Withdrawn(rules, st, key);
             mid.status.Done? && Admitted(rules, mid.state, key, ad).status.Refused?
    ensures var r := Admitted(rules, Withdrawn(rules, st, key).state, key, ad).state;
            (r.root == st.root && r.registry == st.registry) <==>
            StopsFirst(rules.views, st.root, st.registry, ad) && !rules.views.matches(st.root.info, st.table[key])
  {
    hide Kept;
    hide Grows;
    hide StopsFirst;
    hide Admitted;
    hide Withdrawn;
    var mid := Withdrawn(rules, st, key).state;
    WithdrawnKept(rules, st, key);
    RefusedAdmission(rules, mid, key, ad);
    StopsFirstStays(rules.views, st.root, mid.root, st.registry, ad);
    WithdrawnShows(rules, st, key);
    RefusedAbove(rules, mid, key, ad);
    KeptIsRight(rules, mid, key);
    var r := Admitted(rules, mid, key, ad).state;
    if r.root == mid.root {
      SameTrace(rules, mid, r, key);
    }
  }

  /** The root shows whether an ad was taken out of it. */
  lemma WithdrawnShows(rules: Rules, st: State, key: Key)
    requires Kept(rules, st) && key in st.table && Withdrawn(rules, st, key).status.Done?
    ensures var mid := Withdrawn(rules, st, key).state;
            && (rules.views.matches(st.root.info, st.table[key]) <==> key in st.root.roster.index)
            && (key in st.root.roster.index ==> key !in mid.root.roster.index)
            && (key !in st.root.roster.index ==> mid.root == st.root)
  {
    hide Without;
    KeptIsRight(rules, st, key);
  }

  lemma RefusedAbove(rules: Rules, st: State, key: Key, ad: Ad)
    requires Admitted(rules, st, key, ad).status.Refused?
    ensures Admitted(rules, st, key, ad).state.root.roster == st.root.roster
  {
    hide InsertedAll;
    hide Placed;
  }

  // ---------------------------------------------------------- the main theorem

  /** The operations that a commit got done can all be taken back cleanly. */
  ghost predicate BackInOrder(rules: Rules, st: State, ops: seq<Op>) {
    forall i :: 0 <= i < |Forward(rules, st, ops).backups| ==> CleanBack(rules, st, ops[i])
  }

  /** A commit of operations on distinct keys that is stopped, in a collection with any partitions. It
      is refused if what it had done is taken back cleanly, and throws or leaves the views wrong
      otherwise. Refused, it leaves the table that the stopping operation left: the table as it was
      exactly if that operation wanted an ad or added a new one. And the views are current over that
      table exactly if all was taken back cleanly and they took no notice of the stopping operation;
      about the other keys they are right anyway. */
  lemma RefusedCommitExactly(rules: Rules, st: State, ops: seq<Op>)
    requires Kept(rules, st) && DistinctKeys(ops) && DoneCleanly(rules, st, ops)
    requires Forward(rules, st, ops).status.Refused?
    ensures |Forward(rules, st, ops).backups| < |ops|
    ensures var stopping := ops[|Forward(rules, st, ops).backups|];
            var r := Commit(rules, st, ops);
            && !r.status.Done?
            && (BackInOrder(rules, st, ops) ==> r.status.Refused?)
            && (r.status.Refused? ==>
                  && r.state.table == LeftBy(rules, st.table, stopping)
                  && (r.state.table == st.table <==>
                        !Applies(stopping, st.table) || (stopping.AddOp? && stopping.key !in st.table)))
            && (r.status.Refused? && Kept(rules, r.state) <==>
                  BackInOrder(rules, st, ops) && Unnoticed(rules, Stopped(rules, st, ops), stopping))
            && (BackInOrder(rules, st, ops) ==> forall k :: k != stopping.key ==> RightAbout(rules, r.state, k))
  {
    hide Kept;
    hide Grows;
    hide Forward;
    hide Play;
    hide Undo;
    hide Undone;
    hide Saved;
    hide After;
    hide Unnoticed;
    hide RightAbout;
    hide TraceOf;
    hide LeftBy;
    hide Applies;
    ForwardKept(rules, st, ops);
    var f := Forward(rules, st, ops);
    var n := |f.backups|;
    var mid := Stopped(rules, st, ops);
    RefusedPlay(rules, mid, ops[n]);
    Prepared(rules, st, mid, f.state, ops, f.backups);
    var done := ops[..n];
    UndoRight(rules, f.state, done, f.backups);
    var u := Undo(rules, f.state, done, f.backups);
    NotTouched(ops, n);
    if BackInOrder(rules, st, ops) {
      OthersRight(rules, mid, f.state, u.state, done, ops[n]);
      if Unnoticed(rules, mid, ops[n]) {
        UndoKept(rules, f.state, done, f.backups);
      }
    }
    if u.status.Done? && Kept(rules, u.state) {
      forall i | 0 <= i < n ensures CleanBack(rules, st, ops[i]) {
        assert done[i] == ops[i];
        KeptIsRight(rules, u.state, ops[i].key);
      }
      KeptIsRight(rules, u.state, ops[n].key);
      SameTrace(rules, f.state, u.state, ops[n].key);
    }
  }

  lemma NotTouched(ops: seq<Op>, n: nat)
    requires DistinctKeys(ops) && n < |ops|
    ensures DistinctKeys(ops[..n]) && !Touches(ops[..n], ops[n].key)
  {
  }

  /** Before the undo the views are right about the keys it is going to touch, and know their ads. */
  lemma Prepared(rules: Rules, st: State, mid: State, t: State, ops: seq<Op>, backups: seq<Option<Ad>>)
    requires Kept(rules, st) && DistinctKeys(ops) && |backups| < |ops|
    requires var n := |backups|;
             && Saved(rules, st.table, ops[..n], backups)
             && Kept(rules, mid) && Grows(st.root, mid.root) && mid.table == After(rules, st.table, ops[..n])
             && LeftOver(rules, mid, ops[n], t)
    ensures var n := |backups|;
            && Even(rules.views, t.root)
            && (forall i :: 0 <= i < n ==>
                  && Undoable(rules, t, ops[..n][i], backups[i]) && RightAbout(rules, t, ops[..n][i].key)
                  && (BackCleanly(rules, t, ops[..n][i], backups[i]) <==> CleanBack(rules, st, ops[i])))
            && Undone(t.table, ops[..n], backups) == Some(LeftBy(rules, st.table, ops[n]))
            && (Applies(ops[n], mid.table) <==> Applies(ops[n], st.table))
            && (ops[n].key in mid.table <==> ops[n].key in st.table)
            && (LeftBy(rules, st.table, ops[n]) == st.table <==> LeftBy(rules, mid.table, ops[n]) == mid.table)
  {
    hide Kept;
    hide Grows;
    hide Undone;
    hide Saved;
    hide After;
    hide Unnoticed;
    hide RightAbout;
    hide TraceOf;
    hide LeftBy;
    hide Undoable;
    hide BackCleanly;
    hide CleanBack;
    hide Even;
    var n := |backups|;
    var done, op := ops[..n], ops[n];
    NotTouched(ops, n);
    KeptIsRight(rules, mid, op.key);
    EvenStays(rules.views, mid.root, t.root);
    GrowsOn(st.root, mid.root, t.root);
    LeftRestored(rules, st.table, done, backups, op);
    forall i | 0 <= i < n
      ensures && Undoable(rules, t, done[i], backups[i]) && RightAbout(rules, t, done[i].key)
              && (BackCleanly(rules, t, done[i], backups[i]) <==> CleanBack(rules, st, ops[i]))
    {
      assert done[i].key != op.key;
      LeftAlone(rules, mid.table, op, done[i].key);
      DoneIsUndoable(rules, st, t, done, backups, i);
      KeptIsRight(rules, mid, done[i].key);
      SameTrace(rules, mid, t, done[i].key);
    }
  }

  lemma LeftAlone(rules: Rules, table: Table, op: Op, k: Key)
    requires k != op.key
    ensures Get(LeftBy(rules, table, op), k) == Get(table, k)
  {
  }

  /** Undoing operations on other keys turns what a refused operation made of the later table into what
      it would have made of the first one. */
  lemma LeftRestored(rules: Rules, table: Table, ops: seq<Op>, backups: seq<Option<Ad>>, op: Op)
    requires Saved(rules, table, ops, backups) && DistinctKeys(ops) && !Touches(ops, op.key)
    ensures var end := After(rules, table, ops);
            && |ops| == |backups| && Get(end, op.key) == Get(table, op.key)
            && Undone(LeftBy(rules, end, op), ops, backups) == Some(LeftBy(rules, table, op))
            && (LeftBy(rules, table, op) == table <==> LeftBy(rules, end, op) == end)
  {
    hide After;
    hide Undone;
    hide Saved;
    hide LastBackup;
    hide LeftBy;
    var end := After(rules, table, ops);
    var left := LeftBy(rules, end, op);
    SavedLength(rules, table, ops, backups);
    UntouchedAfter(rules, table, ops, op.key);
    LeftOwn(rules, table, end, op);
    DistinctRestored(rules, table, ops, backups);
    forall i | 0 <= i < |ops| && !ops[i].RemoveOp? ensures ops[i].key in left {
      TouchedAfter(rules, table, ops, backups, i);
      LeftAlone(rules, end, op, ops[i].key);
    }
    DistinctUndone(left, ops, backups);
    var r := Undone(left, ops, backups).value;
    forall k ensures Get(r, k) == Get(LeftBy(rules, table, op), k) {
      UndoneValue(rules, table, left, ops, backups, k);
      UndoneValue(rules, table, end, ops, backups, k);
      DistinctLast(rules, table, ops, backups, k);
      if k != op.key {
        LeftAlone(rules, end, op, k);
        LeftAlone(rules, table, op, k);
      }
    }
    SameGets(r, LeftBy(rules, table, op));
  }

  lemma LeftOwn(rules: Rules, table: Table, end: Table, op: Op)
    requires Get(end, op.key) == Get(table, op.key)
    ensures Get(LeftBy(rules, end, op), op.key) == Get(LeftBy(rules, table, op), op.key)
    ensures LeftBy(rules, table, op) == table <==> LeftBy(rules, end, op) == end
  {
    forall t | Get(t, op.key) == Get(table, op.key)
      ensures LeftBy(rules, t, op) == t <==> Get(LeftBy(rules, t, op), op.key) == Get(t, op.key)
    {
      SameGets(LeftBy(rules, t, op), t);
      forall k | k != op.key ensures Get(LeftBy(rules, t, op), k) == Get(t, k) {
        LeftAlone(rules, t, op, k);
      }
    }
  }

  lemma OthersRight(rules: Rules, mid: State, t: State, u: State, ops: seq<Op>, op: Op)
    requires Kept(rules, mid) && LeftOver(rules, mid, op, t)
    requires forall i :: 0 <= i < |ops| ==> RightAbout(rules, u, ops[i].key)
    requires forall k :: !Touches(ops, k) ==>
      TraceOf(u.root, k) == TraceOf(t.root, k) && Get(u.table, k) == Get(t.table, k)
    ensures forall k :: k != op.key ==> RightAbout(rules, u, k)
  {
    hide Kept;
    hide TraceOf;
    hide RightAbout;
    hide LeftBy;
    forall k | k != op.key ensures RightAbout(rules, u, k) {
      if !Touches(ops, k) {
        KeptIsRight(rules, mid, k);
        LeftAlone(rules, mid.table, op, k);
        SameTrace(rules, mid, t, k);
        SameTrace(rules, t, u, k);
      }
    }
  }

  // ------------------------------------------------------------ enough room

  /** The views have a partition for the ad that this operation makes. */
  ghost predicate Roomy(rules: Rules, st: State, op: Op) {
    var made := Result(rules, op, Get(st.table, op.key));
    made.Some? ==> HasRoom(rules.views, st.root, made.value)
  }

  lemma RoomyPlay(rules: Rules, st: State, op: Op)
    requires Kept(rules, st) && CleanForward(rules, st, op) && Roomy(rules, st, op)
    ensures Play(rules, st, op).status == if Applies(op, st.table) then Done else Refused
  {
    hide Kept;
    hide Grows;
    hide Inserted;
    hide Withdrawn;
    hide Changed;
    hide HasRoom;
    hide CleanlyModified;
    if Applies(op, st.table) {
      match op
      case AddOp(key, ad) =>
        RoomyInserted(rules.views, st.root, st.registry, key, ad);
        if key in st.table {
          WithdrawnKept(rules, st, key);
          var mid := Withdrawn(rules, st, key).state;
          RoomStays(rules.views, st.root, mid.root, ad);
          RoomyInserted(rules.views, mid.root, mid.registry, key, ad);
        }
      case UpdateOp(key, ad) => ChangedKept(rules, st, key, rules.updated(st.table[key], ad));
      case ModifyOp(key, ad) => ChangedKept(rules, st, key, rules.modified(st.table[key], ad));
      case RemoveOp(key) => WithdrawnKept(rules, st, key);
    }
  }

  /** Where there is room for every ad it makes, a commit of clean operations on distinct keys does all of
      them or nothing: it succeeds exactly if each finds the ad it needs, and otherwise leaves the table
      as it was and the views current over it. */
  lemma FailedCommitAtomic(rules: Rules, st: State, ops: seq<Op>)
    requires Kept(rules, st) && DistinctKeys(ops)
    requires forall i :: 0 <= i < |ops| ==>
      CleanForward(rules, st, ops[i]) && CleanBack(rules, st, ops[i]) && Roomy(rules, st, ops[i])
    ensures var r := Commit(rules, st, ops);
            && r.status == (if Succeeds(rules, st.table, ops) then Done else Refused) && Kept(rules, r.state)
            && r.state.table == if r.status.Done? then After(rules, st.table, ops) else st.table
  {
    hide Kept;
    hide Grows;
    hide Forward;
    hide Play;
    hide Undo;
    hide Saved;
    hide After;
    hide Applies;
    hide Succeeds;
    hide RightAbout;
    hide HasRoom;
    hide CleanForward;
    hide CleanBack;
    ForwardKept(rules, st, ops);
    var f := Forward(rules, st, ops);
    var n := |f.backups|;
    var mid := Stopped(rules, st, ops);
    if f.status.Done? {
      assert ops[..n] == ops;
      SavedSucceeds(rules, st.table, ops, f.backups);
    } else {
      NotTouched(ops, n);
      UntouchedAfter(rules, st.table, ops[..n], ops[n].key);
      CleanOpStays(rules, st, mid, ops[n]);
      RoomyStays(rules, st, mid, ops[n]);
      RoomyPlay(rules, mid, ops[n]);
      SavedStops(rules, st.table, ops, f.backups);
      RefusedCommitExactly(rules, st, ops);
      NothingLeftBy(rules, st.table, mid, ops[n]);
    }
  }

  lemma RoomyStays(rules: Rules, st: State, t: State, op: Op)
    requires Roomy(rules, st, op) && Grows(st.root, t.root) && Get(t.table, op.key) == Get(st.table, op.key)
    ensures Roomy(rules, t, op)
  {
    hide Grows;
    hide HasRoom;
    var made := Result(rules, op, Get(st.table, op.key));
    if made.Some? {
      RoomStays(rules.views, st.root, t.root, made.value);
    }
  }

  lemma NothingLeftBy(rules: Rules, table: Table, mid: State, op: Op)
    requires !Applies(op, mid.table) && Get(mid.table, op.key) == Get(table, op.key)
    ensures LeftBy(rules, table, op) == table && Unnoticed(rules, mid, op)
  {
  }

  /** One operation done, one refused, and the first undone. */
  lemma TwoOps(rules: Rules, st: State, mid: State, op: Op, failing: Op)
    requires op.key in st.table && Play(rules, st, op) == Effect(Done, mid) && !Applies(failing, mid.table)
    ensures var u := UndoOne(rules, mid, op, Some(st.table[op.key]));
            Commit(rules, st, [op, failing]) == if u.status.Done? then u.(status := Refused) else u
  {
    hide UndoOne;
    hide Changed;
    hide Admitted;
    hide Withdrawn;
    var ops := [op, failing];
    var backups := [Some(st.table[op.key])];
    assert Play(rules, mid, failing) == Effect(Refused, mid);
    assert ops[1..] == [failing];
    assert Forward(rules, mid, [failing]) == Journey(Refused, mid, []);
    assert Forward(rules, st, ops) == Journey(Refused, mid, backups);
    assert ops[..1] == [op];
    var u := UndoOne(rules, mid, op, backups[0]);
    assert [op][1..] == [] && backups[1..] == [];
    assert u.status.Done? ==> Undo(rules, u.state, [op][1..], backups[1..]) == Effect(Done, u.state);
  }

  /** A non-empty ad, which `EmptyOnly` keeps out of its view. */
  const OUTSIDER: Ad := [Attr("a", Literal(Undefined))]

  function BareRoot(): (v: View) {
    View("root", [], NOBODY, "", [], map[])
  }

  lemma EntersView()
    ensures var v := PreModified(EmptyOnly(), BareRoot(), OUTSIDER);
            var r := Modified(EmptyOnly(), v, {"root"}, "k", []);
            && r.status.Done? && "k" in r.view.roster.index && r.view.parts.Keys == {"<|true|>"}
            && r.view.subs == [] && r.view.info == []
  {
    hide Placed;
    hide Before;
    assert |PartName("root", "<|true|>")| != |"root"|;
    var v := PreModified(EmptyOnly(), BareRoot(), OUTSIDER);
    assert PreModifiedAll(EmptyOnly(), [], OUTSIDER) == [];
    assert v.subs == [];
    assert InsertedAll(EmptyOnly(), [], {"root"}, "k", []) == Outcomes(Done, [], {"root"});
    assert Inserted(EmptyOnly(), v, {"root"}, "k", []).status.Done?;
  }

  lemma LeavesView(v: View, registry: set<string>)
    requires v.info == [] && v.subs == [] && "k" in v.roster.index && v.parts.Keys == {"<|true|>"}
    ensures Modified(EmptyOnly(), PreModified(EmptyOnly(), v, []), registry, "k", OUTSIDER).status.Thrown?
  {
  }

  lemma RootKept(rules: Rules)
    requires rules.views == EmptyOnly()
    ensures Kept(rules, State(map["k" := OUTSIDER], BareRoot(), {"root"}))
  {
  }

  /** An update that brings an ad into a partitioned view cannot be taken back: the undo reaches the
      missing-partition exception, though the keys are distinct. */
  lemma PartitionedUndoCounterexample()
    ensures var rules := Rules(EmptyOnly(), (a: Ad, b: Ad) => b, (a: Ad, b: Ad) => b);
            var st := State(map["k" := OUTSIDER], BareRoot(), {"root"});
            var ops := [UpdateOp("k", []), RemoveOp("x")];
            Kept(rules, st) && DistinctKeys(ops) && Commit(rules, st, ops).status.Thrown?
  {
    hide Kept;
    hide Modified;
    hide PreModified;
    hide Commit;
    var rules := Rules(EmptyOnly(), (a: Ad, b: Ad) => b, (a: Ad, b: Ad) => b);
    var st := State(map["k" := OUTSIDER], BareRoot(), {"root"});
    assert "k"[0] != "x"[0];
    RootKept(rules);
    EntersView();
    var mid := Changed(rules, st, "k", []).state;
    LeavesView(mid.root, mid.registry);
    TwoOps(rules, st, mid, UpdateOp("k", []), RemoveOp("x"));
  }
}
