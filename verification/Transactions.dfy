/** The operations of a transaction on the table of ads: committing them one by one, and undoing
    those already done when one fails. */
module Transactions {
  import opened Expressions
  import opened Members
  import opened Views

  type Table = map<Key, Ad>

  /** How a view tree reads ads, and how an ad is updated and modified by another. */
  datatype Rules = Rules(views: Semantics, updated: (Ad, Ad) -> Ad, modified: (Ad, Ad) -> Ad)

  datatype Op =
    | AddOp(key: Key, ad: Ad)
    | UpdateOp(key: Key, ad: Ad)
    | ModifyOp(key: Key, ad: Ad)
    | RemoveOp(key: Key)

  function Get(table: Table, key: Key): (r: Option<Ad>) {
    if key in table then Some(table[key]) else None
  }

  /** None stands for taking the ad out. */
  function Put(table: Table, key: Key, ad: Option<Ad>): (r: Table)
    ensures forall k :: Get(r, k) == if k == key then ad else Get(table, k)
  {
    match ad
    case None => table - {key}
    case Some(a) => table[key := a]
  }

  /** The ad an operation leaves, given the one it finds. */
  function Result(rules: Rules, op: Op, found: Option<Ad>): (r: Option<Ad>) {
    match op
    case AddOp(_, ad) => Some(ad)
    case UpdateOp(_, ad) => if found.Some? then Some(rules.updated(found.value, ad)) else None
    case ModifyOp(_, ad) => if found.Some? then Some(rules.modified(found.value, ad)) else None
    case RemoveOp(_) => None
  }

  /** Everything but adding needs an ad to be there. */
  predicate Applies(op: Op, table: Table) {
    op.AddOp? || op.key in table
  }

  function Applied(rules: Rules, table: Table, op: Op): (r: Table) {
    Put(table, op.key, Result(rules, op, Get(table, op.key)))
  }

  // ------------------------------------------------------------- committing

  /** How far a commit got: the table, and what each operation done found. */
  datatype Progress = Progress(table: Table, backups: seq<Option<Ad>>)

  function Played(rules: Rules, table: Table, ops: seq<Op>): (r: Progress)
    ensures |r.backups| <= |ops|
    ensures |r.backups| < |ops| ==> !Applies(ops[|r.backups|], r.table)
    decreases |ops|
  {
    if ops == [] || !Applies(ops[0], table) then Progress(table, [])
    else
      var rest := Played(rules, Applied(rules, table, ops[0]), ops[1..]);
      Progress(rest.table, [Get(table, ops[0].key)] + rest.backups)
  }

  predicate Succeeds(rules: Rules, table: Table, ops: seq<Op>) {
    |Played(rules, table, ops).backups| == |ops|
  }

  /** Undoing one operation: an ad that was removed is put back, an ad that was added is taken out,
      and any other is restored. None stands for using an iterator that is past the end. */
  function UndoneOne(table: Table, op: Op, backup: Option<Ad>): (r: Option<Table>) {
    if op.RemoveOp? then Some(if backup.None? then table else Put(table, op.key, backup))
    else if op.key !in table then None
    else Some(Put(table, op.key, backup))
  }

  /** The undo runs over the operations in the order they were done. */
  function Undone(table: Table, ops: seq<Op>, backups: seq<Option<Ad>>): (r: Option<Table>)
    requires |ops| == |backups|
    decreases |ops|
  {
    if ops == [] then Some(table)
    else
      match UndoneOne(table, ops[0], backups[0])
      case None => None
      case Some(table') => Undone(table', ops[1..], backups[1..])
  }

  /** What the last of these operations on a key found, if there is one. */
  function LastBackup(ops: seq<Op>, backups: seq<Option<Ad>>, key: Key): (r: Option<Option<Ad>>)
    requires |ops| == |backups|
  {
    if ops == [] then None
    else
      var later := LastBackup(ops[1..], backups[1..], key);
      if later.Some? then later
      else if ops[0].key == key then Some(backups[0])
      else None
  }

  // ----------------------------------------------------- what undoing restores

  /** Operations that were really done, from `table` on, found what they saved. */
  ghost predicate Saved(rules: Rules, table: Table, ops: seq<Op>, backups: seq<Option<Ad>>)
    decreases |ops|
  {
    |ops| == |backups| && (ops != [] ==>
      && Applies(ops[0], table) && backups[0] == Get(table, ops[0].key)
      && Saved(rules, Applied(rules, table, ops[0]), ops[1..], backups[1..]))
  }

  /** The table after those operations. */
  ghost function After(rules: Rules, table: Table, ops: seq<Op>): (r: Table)
    decreases |ops|
  {
    if ops == [] then table else After(rules, Applied(rules, table, ops[0]), ops[1..])
  }

  lemma {:induction false} PlayedIsSaved(rules: Rules, table: Table, ops: seq<Op>)
    ensures var r := Played(rules, table, ops);
            var done := ops[..|r.backups|];
            Saved(rules, table, done, r.backups) && r.table == After(rules, table, done)
    decreases |ops|
  {
    hide Applied;
    if ops != [] && Applies(ops[0], table) {
      PlayedIsSaved(rules, Applied(rules, table, ops[0]), ops[1..]);
      var rest := Played(rules, Applied(rules, table, ops[0]), ops[1..]);
      var r := Played(rules, table, ops);
      var done := ops[..|r.backups|];
      assert r.backups[1..] == rest.backups;
      assert done[1..] == ops[1..][..|rest.backups|];
    }
  }

  /** Whatever undoing leaves, each key has what the last operation on it found, and the other keys
      are untouched. */
  lemma {:induction false} UndoneValue(
    rules: Rules, start: Table, table: Table, ops: seq<Op>, backups: seq<Option<Ad>>, key: Key)
    requires Saved(rules, start, ops, backups) && Undone(table, ops, backups).Some?
    ensures var last := LastBackup(ops, backups, key);
            Get(Undone(table, ops, backups).value, key) == if last.Some? then last.value else Get(table, key)
    decreases |ops|
  {
    if ops != [] {
      var table' := UndoneOne(table, ops[0], backups[0]).value;
      UndoneValue(rules, Applied(rules, start, ops[0]), table', ops[1..], backups[1..], key);
    }
  }

  lemma {:induction false} UntouchedStays(rules: Rules, table: Table, ops: seq<Op>, backups: seq<Option<Ad>>, key: Key)
    requires |ops| == |backups| && LastBackup(ops, backups, key).None?
    ensures Get(After(rules, table, ops), key) == Get(table, key)
    decreases |ops|
  {
    hide Result;
    if ops != [] {
      UntouchedStays(rules, Applied(rules, table, ops[0]), ops[1..], backups[1..], key);
    }
  }

  lemma SameGets(a: Table, b: Table)
    ensures a == b <==> forall k :: Get(a, k) == Get(b, k)
  {
    if forall k :: Get(a, k) == Get(b, k) {
      forall k ensures k in a <==> k in b {
        assert Get(a, k) == Get(b, k);
      }
      forall k | k in a ensures a[k] == b[k] {
        assert Get(a, k) == Get(b, k);
      }
    }
  }

  // ------------------------------------------------ running off the end

  /** Whether the last of these operations on a key removes it. */
  function LastRemoves(ops: seq<Op>, key: Key): (r: bool)
    decreases |ops|
  {
    if ops == [] then false
    else
      var n := |ops| - 1;
      if ops[n].key == key then ops[n].RemoveOp? else LastRemoves(ops[..n], key)
  }

  /** The undo of this operation needs an ad that is not there. Either an earlier operation on the key
      found nothing, so that undoing it has taken the ad out; or there is none, and the last operation
      on the key has removed it. */
  predicate Doomed(ops: seq<Op>, backups: seq<Option<Ad>>, i: nat)
    requires |ops| == |backups| && i < |ops|
  {
    && !ops[i].RemoveOp?
    && var before := LastBackup(ops[..i], backups[..i], ops[i].key);
       if before.Some? then before.value.None? else LastRemoves(ops, ops[i].key)
  }

  ghost predicate AnyDoomed(ops: seq<Op>, backups: seq<Option<Ad>>)
    requires |ops| == |backups|
  {
    exists i :: 0 <= i < |ops| && Doomed(ops, backups, i)
  }

  /** The same, said of the table from which the undo starts. */
  predicate Stranded(table: Table, ops: seq<Op>, backups: seq<Option<Ad>>, i: nat)
    requires |ops| == |backups| && i < |ops|
  {
    && !ops[i].RemoveOp?
    && var before := LastBackup(ops[..i], backups[..i], ops[i].key);
       if before.Some? then before.value.None? else ops[i].key !in table
  }

  lemma LastBackupHead(ops: seq<Op>, backups: seq<Option<Ad>>, i: nat, key: Key)
    requires |ops| == |backups| && 0 < i <= |ops|
    ensures var later := LastBackup(ops[1..][..i - 1], backups[1..][..i - 1], key);
            LastBackup(ops[..i], backups[..i], key)
            == if later.Some? then later else if ops[0].key == key then Some(backups[0]) else None
  {
    assert ops[..i][1..] == ops[1..][..i - 1] && backups[..i][1..] == backups[1..][..i - 1];
  }

  lemma StrandedLater(table: Table, ops: seq<Op>, backups: seq<Option<Ad>>, i: nat)
    requires |ops| == |backups| && 0 < i < |ops| && UndoneOne(table, ops[0], backups[0]).Some?
    requires ops[0].RemoveOp? ==> backups[0].Some?
    ensures Stranded(table, ops, backups, i)
       <==> Stranded(UndoneOne(table, ops[0], backups[0]).value, ops[1..], backups[1..], i - 1)
  {
    hide LastBackup;
    var table' := UndoneOne(table, ops[0], backups[0]).value;
    var key := ops[i].key;
    LastBackupHead(ops, backups, i, key);
    assert table' == Put(table, ops[0].key, backups[0]);
    assert Get(table', key) == if key == ops[0].key then backups[0] else Get(table, key);
  }

  /** The undo runs off the end exactly if some operation is stranded. */
  lemma {:induction false} UndoneRunsOff(table: Table, ops: seq<Op>, backups: seq<Option<Ad>>)
    requires |ops| == |backups| && forall i :: 0 <= i < |ops| && ops[i].RemoveOp? ==> backups[i].Some?
    ensures Undone(table, ops, backups).None? <==> exists i :: 0 <= i < |ops| && Stranded(table, ops, backups, i)
    decreases |ops|
  {
    hide LastBackup;
    if ops != [] {
      NoBackupYet(ops, backups, ops[0].key);
      var one := UndoneOne(table, ops[0], backups[0]);
      if one.None? {
        assert Stranded(table, ops, backups, 0);
      } else {
        UndoneRunsOff(one.value, ops[1..], backups[1..]);
        forall i | 0 < i < |ops|
          ensures Stranded(table, ops, backups, i) <==> Stranded(one.value, ops[1..], backups[1..], i - 1)
        {
          StrandedLater(table, ops, backups, i);
        }
        if i :| 0 <= i < |ops[1..]| && Stranded(one.value, ops[1..], backups[1..], i) {
          assert Stranded(table, ops, backups, i + 1);
        }
      }
    }
  }

  lemma NoBackupYet(ops: seq<Op>, backups: seq<Option<Ad>>, key: Key)
    requires |ops| == |backups|
    ensures LastBackup(ops[..0], backups[..0], key) == None
  {
  }

  lemma {:induction false} AfterUpTo(rules: Rules, table: Table, ops: seq<Op>)
    requires ops != []
    ensures var n := |ops| - 1;
            After(rules, table, ops) == Applied(rules, After(rules, table, ops[..n]), ops[n])
    decreases |ops|
  {
    hide Applied;
    var n := |ops| - 1;
    if n > 0 {
      AfterUpTo(rules, Applied(rules, table, ops[0]), ops[1..]);
      assert ops[1..][..n - 1] == ops[..n][1..];
    }
  }

  lemma {:induction false} SavedUpTo(rules: Rules, table: Table, ops: seq<Op>, backups: seq<Option<Ad>>)
    requires Saved(rules, table, ops, backups) && ops != []
    ensures var n := |ops| - 1;
            && Saved(rules, table, ops[..n], backups[..n])
            && Applies(ops[n], After(rules, table, ops[..n]))
    decreases |ops|
  {
    hide Applied;
    var n := |ops| - 1;
    if n > 0 {
      SavedUpTo(rules, Applied(rules, table, ops[0]), ops[1..], backups[1..]);
      assert ops[1..][..n - 1] == ops[..n][1..] && backups[1..][..n - 1] == backups[..n][1..];
    }
  }

  /** After operations that were done, a key that was touched is absent exactly if the last operation
      on it was a removal. */
  lemma {:induction false} TouchedAbsent(rules: Rules, table: Table, ops: seq<Op>, backups: seq<Option<Ad>>, key: Key)
    requires Saved(rules, table, ops, backups) && exists i :: 0 <= i < |ops| && ops[i].key == key
    ensures key !in After(rules, table, ops) <==> LastRemoves(ops, key)
    decreases |ops|
  {
    var n := |ops| - 1;
    AfterUpTo(rules, table, ops);
    SavedUpTo(rules, table, ops, backups);
    var before := After(rules, table, ops[..n]);
    hide After;
    hide Saved;
    assert Get(Applied(rules, before, ops[n]), key)
        == if key == ops[n].key then Result(rules, ops[n], Get(before, key)) else Get(before, key);
    if ops[n].key != key {
      var i :| 0 <= i < |ops| && ops[i].key == key;
      assert ops[..n][i].key == key;
      TouchedAbsent(rules, table, ops[..n], backups[..n], key);
    }
  }

  lemma DoomedIsStranded(rules: Rules, table: Table, ops: seq<Op>, backups: seq<Option<Ad>>, i: nat)
    requires Saved(rules, table, ops, backups) && |ops| == |backups| && i < |ops|
    ensures Stranded(After(rules, table, ops), ops, backups, i) <==> Doomed(ops, backups, i)
  {
    hide LastBackup;
    hide LastRemoves;
    hide After;
    hide Saved;
    TouchedAbsent(rules, table, ops, backups, ops[i].key);
  }

  lemma {:induction false} RemovedWereThere(rules: Rules, table: Table, ops: seq<Op>, backups: seq<Option<Ad>>)
    requires Saved(rules, table, ops, backups)
    ensures |ops| == |backups| && forall i :: 0 <= i < |ops| && ops[i].RemoveOp? ==> backups[i].Some?
    decreases |ops|
  {
    hide Applied;
    if ops != [] {
      RemovedWereThere(rules, Applied(rules, table, ops[0]), ops[1..], backups[1..]);
      forall i | 0 <= i < |ops| && ops[i].RemoveOp? ensures backups[i].Some? {
        if i > 0 {
          assert ops[1..][i - 1].RemoveOp? && backups[1..][i - 1] == backups[i];
        }
      }
    }
  }

  /** The undo of operations that were done runs off the end of the table exactly if one is doomed. */
  lemma RunsOffExactly(rules: Rules, table: Table, ops: seq<Op>, backups: seq<Option<Ad>>)
    requires Saved(rules, table, ops, backups)
    ensures |ops| == |backups|
    ensures Undone(After(rules, table, ops), ops, backups).None? <==> AnyDoomed(ops, backups)
  {
    hide After;
    hide Saved;
    hide Undone;
    hide Doomed;
    hide Stranded;
    RemovedWereThere(rules, table, ops, backups);
    var end := After(rules, table, ops);
    UndoneRunsOff(end, ops, backups);
    forall i | 0 <= i < |ops| ensures Stranded(end, ops, backups, i) <==> Doomed(ops, backups, i) {
      DoomedIsStranded(rules, table, ops, backups, i);
    }
  }

  /** On every key the last operation found what was there at the start. */
  ghost predicate LastFoundFirst(table: Table, ops: seq<Op>, backups: seq<Option<Ad>>)
    requires |ops| == |backups|
  {
    forall k :: (var last := LastBackup(ops, backups, k); last.Some? ==> last.value == Get(table, k))
  }

  /** Undoing restores the table exactly if no operation is doomed and, on every key, the last
      operation found what was there at the start. */
  lemma RestoredExactly(rules: Rules, table: Table, ops: seq<Op>, backups: seq<Option<Ad>>)
    requires Saved(rules, table, ops, backups)
    ensures |ops| == |backups|
    ensures Undone(After(rules, table, ops), ops, backups) == Some(table)
       <==> !AnyDoomed(ops, backups) && LastFoundFirst(table, ops, backups)
  {
    hide After;
    hide Undone;
    hide LastBackup;
    hide AnyDoomed;
    var end := After(rules, table, ops);
    RunsOffExactly(rules, table, ops, backups);
    var r := Undone(end, ops, backups);
    if r.Some? {
      SameGets(r.value, table);
      forall k ensures Get(r.value, k) == Get(table, k) <==>
        (var last := LastBackup(ops, backups, k); last.Some? ==> last.value == Get(table, k))
      {
        UndoneValue(rules, table, end, ops, backups, k);
        if LastBackup(ops, backups, k).None? {
          UntouchedStays(rules, table, ops, backups, k);
        }
      }
    }
  }

  // ---------------------------------------------------------- distinct keys

  ghost predicate DistinctKeys(ops: seq<Op>) {
    forall i, j :: 0 <= i < j < |ops| ==> ops[i].key != ops[j].key
  }

  lemma {:induction false} UntouchedAfter(rules: Rules, table: Table, ops: seq<Op>, key: Key)
    requires forall i :: 0 <= i < |ops| ==> ops[i].key != key
    ensures Get(After(rules, table, ops), key) == Get(table, key)
    decreases |ops|
  {
    hide Result;
    if ops != [] {
      assert ops[0].key != key;
      UntouchedAfter(rules, Applied(rules, table, ops[0]), ops[1..], key);
    }
  }

  /** After operations on distinct keys, a key is absent exactly if its operation removed it. */
  lemma {:induction false} TouchedAfter(rules: Rules, table: Table, ops: seq<Op>, backups: seq<Option<Ad>>, i: nat)
    requires Saved(rules, table, ops, backups) && DistinctKeys(ops) && i < |ops|
    ensures ops[i].key in After(rules, table, ops) <==> !ops[i].RemoveOp?
    decreases |ops|
  {
    var table' := Applied(rules, table, ops[0]);
    if i == 0 {
      UntouchedAfter(rules, table', ops[1..], ops[0].key);
      assert Get(table', ops[0].key) == Result(rules, ops[0], Get(table, ops[0].key));
      assert Get(After(rules, table, ops), ops[0].key) == Get(table', ops[0].key);
    } else {
      hide Result;
      TouchedAfter(rules, table', ops[1..], backups[1..], i - 1);
    }
  }

  lemma {:induction false} DistinctUndone(table: Table, ops: seq<Op>, backups: seq<Option<Ad>>)
    requires |ops| == |backups| && DistinctKeys(ops)
    requires forall i :: 0 <= i < |ops| && !ops[i].RemoveOp? ==> ops[i].key in table
    ensures Undone(table, ops, backups).Some?
    decreases |ops|
  {
    if ops != [] {
      var table' := UndoneOne(table, ops[0], backups[0]).value;
      forall i | 0 <= i < |ops[1..]| && !ops[1..][i].RemoveOp? ensures ops[1..][i].key in table' {
        assert ops[i + 1].key != ops[0].key && ops[i + 1].key in table;
        assert Get(table', ops[i + 1].key) == Get(table, ops[i + 1].key);
      }
      DistinctUndone(table', ops[1..], backups[1..]);
    }
  }

  lemma {:induction false} DistinctLast(rules: Rules, table: Table, ops: seq<Op>, backups: seq<Option<Ad>>, key: Key)
    requires Saved(rules, table, ops, backups) && DistinctKeys(ops)
    ensures var last := LastBackup(ops, backups, key); last.Some? ==> last.value == Get(table, key)
    ensures LastBackup(ops, backups, key).Some? ==> exists i :: 0 <= i < |ops| && ops[i].key == key
    decreases |ops|
  {
    hide Result;
    if ops != [] {
      DistinctLast(rules, Applied(rules, table, ops[0]), ops[1..], backups[1..], key);
      if LastBackup(ops[1..], backups[1..], key).Some? {
        var i :| 0 <= i < |ops[1..]| && ops[1..][i].key == key;
        assert ops[i + 1].key == key;
      }
    }
  }

  /** Undoing operations on distinct keys always restores the table. */
  lemma DistinctRestored(rules: Rules, table: Table, ops: seq<Op>, backups: seq<Option<Ad>>)
    requires Saved(rules, table, ops, backups) && DistinctKeys(ops)
    ensures Undone(After(rules, table, ops), ops, backups) == Some(table)
  {
    hide After;
    hide Undone;
    hide Saved;
    hide LastBackup;
    hide AnyDoomed;
    var end := After(rules, table, ops);
    forall i | 0 <= i < |ops| && !ops[i].RemoveOp? ensures ops[i].key in end {
      TouchedAfter(rules, table, ops, backups, i);
    }
    SavedLength(rules, table, ops, backups);
    DistinctUndone(end, ops, backups);
    RunsOffExactly(rules, table, ops, backups);
    RestoredExactly(rules, table, ops, backups);
    forall k ensures var last := LastBackup(ops, backups, k); last.Some? ==> last.value == Get(table, k) {
      DistinctLast(rules, table, ops, backups, k);
    }
  }

  lemma SavedLength(rules: Rules, table: Table, ops: seq<Op>, backups: seq<Option<Ad>>)
    requires Saved(rules, table, ops, backups)
    ensures |ops| == |backups|
  {
  }

  lemma {:induction false} SavedSucceeds(rules: Rules, table: Table, ops: seq<Op>, backups: seq<Option<Ad>>)
    requires Saved(rules, table, ops, backups)
    ensures Succeeds(rules, table, ops)
    decreases |ops|
  {
    hide Applied;
    if ops != [] {
      SavedSucceeds(rules, Applied(rules, table, ops[0]), ops[1..], backups[1..]);
    }
  }

  /** Operations that can be done up to one that cannot. */
  lemma {:induction false} SavedStops(rules: Rules, table: Table, ops: seq<Op>, backups: seq<Option<Ad>>)
    requires |backups| < |ops| && Saved(rules, table, ops[..|backups|], backups)
    requires !Applies(ops[|backups|], After(rules, table, ops[..|backups|]))
    ensures !Succeeds(rules, table, ops)
    decreases |ops|
  {
    hide Applied;
    if backups != [] {
      var n := |backups|;
      assert ops[..n][1..] == ops[1..][..n - 1];
      SavedStops(rules, Applied(rules, table, ops[0]), ops[1..], backups[1..]);
    }
  }

  /** With one key touched twice the table may not come back, since the later backup wins... */
  lemma RepeatedKeyCounterexample(rules: Rules, a: Ad, b: Ad, c: Ad)
    requires a != b
    ensures var table := map["k" := a];
            var ops := [AddOp("k", b), AddOp("k", c), RemoveOp("x")];
            var r := Played(rules, table, ops);
            && !Succeeds(rules, table, ops)
            && Undone(r.table, ops[..2], r.backups) == Some(map["k" := b])
  {
    var ops := [AddOp("k", b), AddOp("k", c), RemoveOp("x")];
    var t0, t1, t2 := map["k" := a], map["k" := b], map["k" := c];
    ThirdFails(rules, t0, t1, t2, ops);
    assert Undone(t2, ops[..2], [Some(a), Some(b)]) == Undone(t0, [ops[1]], [Some(b)]) by {
      assert ops[..2][1..] == [ops[1]] && [Some(a), Some(b)][1..] == [Some(b)];
      assert Put(t2, "k", Some(a)) == t0;
    }
    assert Put(t0, "k", Some(b)) == t1;
    assert Undone(t1, [ops[1]][1..], [Some(b)][1..]) == Some(t1);
    assert Undone(t0, [ops[1]], [Some(b)]) == Some(t1);
  }

  /** Two operations on one key, then one that cannot be done. */
  lemma ThirdFails(rules: Rules, t0: Table, t1: Table, t2: Table, ops: seq<Op>)
    requires |ops| == 3 && ops[0].key == ops[1].key == "k" && ops[2] == RemoveOp("x")
    requires Applies(ops[0], t0) && Applied(rules, t0, ops[0]) == t1
    requires Applies(ops[1], t1) && Applied(rules, t1, ops[1]) == t2 && "x" !in t2
    ensures Played(rules, t0, ops) == Progress(t2, [Get(t0, "k"), Get(t1, "k")])
  {
    hide Applied;
    assert ops[1..][1..][0] == ops[2];
    assert Played(rules, t2, ops[1..][1..]) == Progress(t2, []);
    assert Played(rules, t1, ops[1..]) == Progress(t2, [Get(t1, "k")]);
  }

  /** ... and the undo may even run off the end of the table. */
  lemma CrashCounterexample(rules: Rules, a: Ad, b: Ad)
    ensures var ops := [AddOp("k", a), UpdateOp("k", b), RemoveOp("x")];
            var r := Played(rules, map[], ops);
            |r.backups| == 2 && Undone(r.table, ops[..2], r.backups) == None
  {
    var ops := [AddOp("k", a), UpdateOp("k", b), RemoveOp("x")];
    var t0: Table := map[];
    var t1, t2 := map["k" := a], map["k" := rules.updated(a, b)];
    ThirdFails(rules, t0, t1, t2, ops);
    assert Undone(t2, ops[..2], [None, Some(a)]) == Undone(t0, [ops[1]], [Some(a)]) by {
      assert ops[..2][1..] == [ops[1]] && [None, Some(a)][1..] == [Some(a)];
      assert Put(t2, "k", None) == t0;
    }
  }
}
