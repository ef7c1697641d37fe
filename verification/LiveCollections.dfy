/** The collection as an object: its table, its tree of view objects, and its transactions. */
module LiveCollections {
  import opened Expressions
  import opened Members
  import opened Rosters
  import opened Views
  import opened LiveViews
  import opened Transactions
  import opened Collections

  /** What a method did is what the specification says, as far as an exception leaves it. */
  ghost predicate Agrees(status: Status, state: State, e: Effect) {
    && status.Thrown? == e.status.Thrown?
    && (!status.Thrown? ==> Effect(status, state) == e)
  }

  class ClassAdCollection {
    var classadTable: Table
    const viewTree: LiveView
    const viewRegistry: Registry
    var xactionTable: map<string, Option<seq<Op>>>
    var currentXactionName: string
    var log: seq<Record>

    ghost function Parts(): (s: set<object>)
      reads this, viewTree
    {
      viewTree.Repr + {viewRegistry}
    }

    ghost predicate Valid()
      reads this, viewTree, viewTree.Repr
    {
      viewTree.Valid() && viewRegistry !in viewTree.Repr && this !in viewTree.Repr
    }

    ghost function StateNow(): (st: State)
      requires Valid()
      reads this, viewTree, viewTree.Repr, viewRegistry
    {
      State(classadTable, viewTree.Model(), viewRegistry.names)
    }

    ghost function Now(): (c: Collection)
      requires Valid()
      reads this, viewTree, viewTree.Repr, viewRegistry
    {
      Collection(StateNow(), xactionTable, currentXactionName, log)
    }

    constructor (rootInfo: Ad)
      ensures Valid() && fresh(Parts()) && Now() == Start(rootInfo)
    {
      var tree := new LiveView.Root(rootInfo);
      var registry := new Registry();
      var _ := registry.RegisterView("root");
      viewTree, viewRegistry := tree, registry;
      classadTable, xactionTable, currentXactionName, log := map[], map[], "", [];
    }

    // ------------------------------------------------------ pieces of operations

    method Withdraw(rules: Rules, key: Key) returns (status: Status)
      requires Valid() && key in classadTable
      modifies this`classadTable, Parts()
      ensures Valid() && Parts() == old(Parts())
      ensures Agrees(status, StateNow(), Withdrawn(rules, old(StateNow()), key))
    {
      hide Deleted;
      var ok := viewTree.ClassAdDeleted(rules.views, key, classadTable[key]);
      if !ok {
        return Thrown;
      }
      classadTable := classadTable - {key};
      return Done;
    }

    method Admit(rules: Rules, key: Key, ad: Ad) returns (status: Status)
      requires Valid()
      modifies this`classadTable, Parts()
      ensures Valid() && Parts() == old(Parts())
      ensures Effect(status, StateNow()) == Admitted(rules, old(StateNow()), key, ad)
    {
      hide Inserted;
      status := viewTree.ClassAdInserted(rules.views, viewRegistry, key, ad);
      if status.Done? {
        classadTable := classadTable[key := ad];
      }
    }

    method Change(rules: Rules, key: Key, ad: Ad) returns (status: Status)
      requires Valid() && key in classadTable
      modifies this`classadTable, Parts()
      ensures Valid() && Parts() == old(Parts())
      ensures Agrees(status, StateNow(), Changed(rules, old(StateNow()), key, ad))
    {
      hide Modified;
      hide PreModified;
      viewTree.ClassAdPreModify(rules.views, classadTable[key]);
      classadTable := classadTable[key := ad];
      status := viewTree.ClassAdModified(rules.views, viewRegistry, key, ad);
    }

    // ------------------------------------------------------------- operations

    method PlayClassAdOp(rules: Rules, op: Op) returns (status: Status)
      requires Valid()
      modifies this`classadTable, Parts()
      ensures Valid() && Parts() == old(Parts())
      ensures Agrees(status, StateNow(), Play(rules, old(StateNow()), op))
    {
      hide Withdrawn;
      hide Admitted;
      hide Changed;
      match op
      case AddOp(key, ad) =>
        if key in classadTable {
          status := Withdraw(rules, key);
          if !status.Done? {
            return;
          }
        }
        status := Admit(rules, key, ad);
      case UpdateOp(key, ad) =>
        if key !in classadTable {
          return Refused;
        }
        status := Change(rules, key, rules.updated(classadTable[key], ad));
      case ModifyOp(key, ad) =>
        if key !in classadTable {
          return Refused;
        }
        status := Change(rules, key, rules.modified(classadTable[key], ad));
      case RemoveOp(key) =>
        if key !in classadTable {
          return Refused;
        }
        status := Withdraw(rules, key);
    }

    // -------------------------------------------------------- local interface

    method AddClassAd(rules: Rules, key: Key, ad: Ad) returns (status: Status)
      requires Valid()
      modifies this, Parts()
      ensures Valid() && Parts() == old(Parts())
      ensures Answers(status, Now(), HandleAsk(rules, old(Now()), AddOp(key, ad)))
    {
      hide Play;
      if currentXactionName != "" {
        status := AppendRecord(AddOp(key, ad));
        return;
      }
      var oldAd := Get(classadTable, key);
      status := PlayClassAdOp(rules, AddOp(key, ad));
      if status.Refused? && oldAd.Some? {
        classadTable := classadTable[key := oldAd.value];
      } else if status.Done? {
        log := log + [AdRecord(None, AddOp(key, ad))];
      }
    }

    method UpdateClassAd(rules: Rules, key: Key, ad: Ad) returns (status: Status)
      requires Valid()
      modifies this, Parts()
      ensures Valid() && Parts() == old(Parts())
      ensures Answers(status, Now(), HandleAsk(rules, old(Now()), UpdateOp(key, ad)))
    {
      status := PlayAndLog(rules, UpdateOp(key, ad));
    }

    method ModifyClassAd(rules: Rules, key: Key, ad: Ad) returns (status: Status)
      requires Valid()
      modifies this, Parts()
      ensures Valid() && Parts() == old(Parts())
      ensures Answers(status, Now(), HandleAsk(rules, old(Now()), ModifyOp(key, ad)))
    {
      status := PlayAndLog(rules, ModifyOp(key, ad));
    }

    method RemoveClassAd(rules: Rules, key: Key) returns (status: Status)
      requires Valid()
      modifies this, Parts()
      ensures Valid() && Parts() == old(Parts())
      ensures Answers(status, Now(), HandleAsk(rules, old(Now()), RemoveOp(key)))
    {
      if currentXactionName == "" && key !in classadTable {
        return Done;
      }
      status := PlayAndLog(rules, RemoveOp(key));
    }

    method PlayAndLog(rules: Rules, op: Op) returns (status: Status)
      requires Valid() && !op.AddOp?
      requires op.RemoveOp? && currentXactionName == "" ==> op.key in classadTable
      modifies this, Parts()
      ensures Valid() && Parts() == old(Parts())
      ensures Answers(status, Now(), HandleAsk(rules, old(Now()), op))
    {
      hide Play;
      if currentXactionName != "" {
        status := AppendRecord(op);
        return;
      }
      status := PlayClassAdOp(rules, op);
      if status.Done? {
        log := log + [AdRecord(None, op)];
      }
    }

    /** Adds an operation to the current transaction. */
    method AppendRecord(op: Op) returns (status: Status)
      requires Valid() && currentXactionName != ""
      modifies this`xactionTable
      ensures Valid()
      ensures forall rules :: Reply(status, Now()) == HandleAsk(rules, old(Now()), op)
    {
      if currentXactionName !in xactionTable {
        return Refused;
      }
      if xactionTable[currentXactionName].None? {
        return Thrown;
      }
      xactionTable := xactionTable[currentXactionName := Some(xactionTable[currentXactionName].value + [op])];
      return Done;
    }

    method OpenTransaction(name: string) returns (ok: bool)
      requires Valid()
      modifies this`xactionTable, this`currentXactionName
      ensures Valid()
      ensures forall rules :: Reply(if ok then Done else Refused, Now()) == Handle(rules, old(Now()), Open(name))
    {
      if name in xactionTable {
        return false;
      }
      xactionTable := xactionTable[name := Some([])];
      currentXactionName := name;
      return true;
    }

    /** Makes an open transaction current, or none. */
    method SetCurrentTransaction(name: string) returns (ok: bool)
      requires Valid()
      modifies this`currentXactionName
      ensures Valid()
      ensures forall rules :: Reply(if ok then Done else Refused, Now()) == Handle(rules, old(Now()), Switch(name))
    {
      if name == "" || (name in xactionTable && xactionTable[name].Some?) {
        currentXactionName := name;
        return true;
      }
      return false;
    }

    method CloseTransaction(rules: Rules, name: string, commit: bool) returns (status: Status)
      requires Valid()
      modifies this, Parts()
      ensures Valid() && Parts() == old(Parts())
      ensures Answers(status, Now(), HandleClose(rules, old(Now()), name, commit))
    {
      hide Collections.Commit;
      if name !in xactionTable {
        return Refused;
      }
      if !commit {
        xactionTable := xactionTable - {name};
        return Done;
      }
      if xactionTable[name].None? {
        return Thrown;
      }
      var ops := xactionTable[name].value;
      status := CommitOps(rules, ops);
      if status.Done? {
        WriteTransaction(name, ops);
      }
      xactionTable := xactionTable - {name};
    }

    /** Writes a committed transaction to the log. */
    method WriteTransaction(name: string, ops: seq<Op>)
      modifies this`log
      ensures log == old(log) + XactionLog(name, ops)
    {
      log := log + [OpenRecord(name)];
      var itr := 0;
      assert ops[0..] == ops;
      while itr < |ops|
        invariant itr <= |ops|
        invariant old(log) + [OpenRecord(name)] + XactionRecords(name, ops) == log + XactionRecords(name, ops[itr..])
      {
        assert ops[itr..][1..] == ops[itr + 1..];
        log := log + [AdRecord(Some(name), ops[itr])];
        itr := itr + 1;
      }
      assert log + XactionRecords(name, ops[itr..]) == log;
      log := log + [CommitRecord(name)];
      assert old(log) + XactionLog(name, ops)
          == old(log) + [OpenRecord(name)] + XactionRecords(name, ops) + [CommitRecord(name)];
    }

    // ------------------------------------------------------------ committing

    /** Plays the operations in turn, saving what each finds; when one fails, undoes those before. */
    method CommitOps(rules: Rules, ops: seq<Op>) returns (status: Status)
      requires Valid()
      modifies this`classadTable, Parts()
      ensures Valid() && Parts() == old(Parts())
      ensures Agrees(status, StateNow(), Collections.Commit(rules, old(StateNow()), ops))
    {
      hide Forward;
      hide Undo;
      var backups: seq<Option<Ad>>;
      status, backups := PlayAll(rules, ops);
      if status.Refused? {
        status := UndoAll(rules, ops[..|backups|], backups);
        if status.Done? {
          status := Refused;
        }
      }
    }

    method PlayAll(rules: Rules, ops: seq<Op>) returns (status: Status, backups: seq<Option<Ad>>)
      requires Valid()
      modifies this`classadTable, Parts()
      ensures Valid() && Parts() == old(Parts()) && |backups| <= |ops|
      ensures status == Forward(rules, old(StateNow()), ops).status
      ensures !status.Thrown? ==> Journey(status, StateNow(), backups) == Forward(rules, old(StateNow()), ops)
    {
      hide Play;
      hide Forward;
      hide LiveView.Valid;
      backups := [];
      var itr := 0;
      ghost var start := StateNow();
      JourneyBegins(rules, start, ops);
      while itr < |ops|
        invariant itr == |backups| <= |ops| && Valid() && Parts() == old(Parts())
        invariant Forward(rules, start, ops) == Onward(backups, Forward(rules, StateNow(), ops[itr..]))
      {
        JourneyStep(rules, StateNow(), ops, itr, backups);
        var backup := Get(classadTable, ops[itr].key);
        status := PlayClassAdOp(rules, ops[itr]);
        if !status.Done? {
          return;
        }
        backups := backups + [backup];
        itr := itr + 1;
      }
      JourneyEnds(rules, StateNow(), ops, backups);
      return Done, backups;
    }

    method UndoAll(rules: Rules, ops: seq<Op>, backups: seq<Option<Ad>>) returns (status: Status)
      requires Valid() && |ops| == |backups|
      modifies this`classadTable, Parts()
      ensures Valid() && Parts() == old(Parts())
      ensures Agrees(status, StateNow(), Undo(rules, old(StateNow()), ops, backups))
    {
      hide UndoOne;
      hide Undo;
      var uitr := 0;
      ghost var start := StateNow();
      assert ops[0..] == ops && backups[0..] == backups;
      while uitr < |ops|
        invariant uitr <= |ops| && Valid() && Parts() == old(Parts())
        invariant Undo(rules, start, ops, backups) == Undo(rules, StateNow(), ops[uitr..], backups[uitr..])
      {
        UndoStep(rules, StateNow(), ops, backups, uitr);
        status := UndoOp(rules, ops[uitr], backups[uitr]);
        if !status.Done? {
          return;
        }
        uitr := uitr + 1;
      }
      UndoEnds(rules, StateNow(), ops, backups);
      return Done;
    }

    method UndoOp(rules: Rules, op: Op, backup: Option<Ad>) returns (status: Status)
      requires Valid()
      modifies this`classadTable, Parts()
      ensures Valid() && Parts() == old(Parts())
      ensures Agrees(status, StateNow(), UndoOne(rules, old(StateNow()), op, backup))
    {
      hide Withdrawn;
      hide Admitted;
      hide Changed;
      if op.RemoveOp? {
        if backup.None? {
          return Done;
        }
        status := Admit(rules, op.key, backup.value);
      } else if op.key !in classadTable {
        return Thrown;
      } else if backup.None? {
        status := Withdraw(rules, op.key);
      } else {
        status := Change(rules, op.key, backup.value);
        if !status.Thrown? {
          status := Done;
        }
      }
    }
  }

  ghost predicate Answers(status: Status, c: Collection, r: Reply) {
    && status.Thrown? == r.status.Thrown?
    && (!status.Thrown? ==> Reply(status, c) == r)
  }

  ghost function Onward(backups: seq<Option<Ad>>, j: Journey): (r: Journey) {
    j.(backups := backups + j.backups)
  }

  lemma JourneyBegins(rules: Rules, st: State, ops: seq<Op>)
    ensures Forward(rules, st, ops) == Onward([], Forward(rules, st, ops[0..]))
  {
    hide Forward;
    assert ops[0..] == ops;
    var j := Forward(rules, st, ops);
    assert [] + j.backups == j.backups;
  }

  lemma JourneyStep(rules: Rules, st: State, ops: seq<Op>, i: nat, backups: seq<Option<Ad>>)
    requires i < |ops|
    ensures var e := Play(rules, st, ops[i]);
            Onward(backups, Forward(rules, st, ops[i..]))
            == if e.status.Done?
               then Onward(backups + [Get(st.table, ops[i].key)], Forward(rules, e.state, ops[i + 1..]))
               else Journey(e.status, e.state, backups)
  {
    hide Play;
    assert ops[i..][0] == ops[i] && ops[i..][1..] == ops[i + 1..];
    var e := Play(rules, st, ops[i]);
    if e.status.Done? {
      var rest := Forward(rules, e.state, ops[i + 1..]).backups;
      var b := Get(st.table, ops[i].key);
      assert backups + ([b] + rest) == (backups + [b]) + rest;
    } else {
      assert backups + [] == backups;
    }
  }

  lemma JourneyEnds(rules: Rules, st: State, ops: seq<Op>, backups: seq<Option<Ad>>)
    ensures Onward(backups, Forward(rules, st, ops[|ops|..])) == Journey(Done, st, backups)
  {
    assert backups + [] == backups;
  }

  lemma UndoStep(rules: Rules, st: State, ops: seq<Op>, backups: seq<Option<Ad>>, i: nat)
    requires i < |ops| == |backups|
    ensures var e := UndoOne(rules, st, ops[i], backups[i]);
            Undo(rules, st, ops[i..], backups[i..])
            == if e.status.Done? then Undo(rules, e.state, ops[i + 1..], backups[i + 1..]) else e
  {
    hide UndoOne;
    assert ops[i..][1..] == ops[i + 1..] && backups[i..][1..] == backups[i + 1..];
  }

  lemma UndoEnds(rules: Rules, st: State, ops: seq<Op>, backups: seq<Option<Ad>>)
    requires |ops| == |backups|
    ensures Undo(rules, st, ops[|ops|..], backups[|ops|..]) == Effect(Done, st)
  {
  }

  // ----------------------------------------------------------------- the log

  /** Reads a log and plays its records one by one, until one fails. */
  method ReadLogFile(rules: Rules, start: Collection, records: seq<Record>) returns (r: Option<Collection>)
    ensures r == Replay(rules, start, records)
  {
    hide Recover;
    r := Some(start);
    var i := 0;
    assert records[0..] == records;
    while i < |records|
      invariant i <= |records| && r.Some?
      invariant Replay(rules, start, records) == Replay(rules, r.value, records[i..])
    {
      assert records[i..][1..] == records[i + 1..];
      r := Recover(rules, r.value, records[i]);
      if r.None? {
        return;
      }
      i := i + 1;
    }
  }

  /** Writes the records of the views below one, parents first. */
  method LogViews(view: LiveView) returns (records: seq<Record>)
    requires view.Valid()
    ensures records == ViewLog(view.viewName, view.SubModels(0))
    decreases view.Repr
  {
    hide ViewLog;
    records := [];
    ghost var vs := view.SubModels(0);
    assert vs[0..] == vs;
    assert [] + ViewLog(view.viewName, vs) == ViewLog(view.viewName, vs);
    var xi := 0;
    while xi < |view.subordinateViews|
      invariant xi <= |view.subordinateViews|
      invariant ViewLog(view.viewName, vs) == records + ViewLog(view.viewName, vs[xi..])
    {
      var child := view.subordinateViews[xi];
      assert child in view.subordinateViews;
      ViewLogStep(view.viewName, vs, xi, records);
      var below := LogViews(child);
      records := records + [CreateRecord(view.viewName, child.info)] + below;
      xi := xi + 1;
    }
    ViewLogEnds(view.viewName, vs);
  }

  lemma ViewLogStep(parent: string, vs: seq<View>, xi: nat, records: seq<Record>)
    requires xi < |vs|
    ensures records + ViewLog(parent, vs[xi..])
         == (records + [CreateRecord(parent, vs[xi].info)] + ViewLog(vs[xi].name, vs[xi].subs))
            + ViewLog(parent, vs[xi + 1..])
  {
    assert vs[xi..][0] == vs[xi] && vs[xi..][1..] == vs[xi + 1..];
  }

  lemma ViewLogEnds(parent: string, vs: seq<View>)
    ensures ViewLog(parent, vs[|vs|..]) == []
  {
  }

  /** Writes one record for each ad, in whatever order the table is walked. */
  method LogAds(table: Table) returns (records: seq<Record>, keys: seq<Key>)
    ensures forall k :: k in keys <==> k in table
    ensures records == AdLog(table, keys)
  {
    hide AdLog;
    records, keys := [], [];
    var left := table.Keys;
    assert AdLog(table, []) == [] by {
      NoAds(table);
    }
    while left != {}
      invariant left <= table.Keys
      invariant forall k :: k in keys <==> k in table.Keys - left
      invariant records == AdLog(table, keys)
      decreases |left|
    {
      var k :| k in left;
      OneMoreAd(table, keys, k);
      records := records + [AdRecord(None, AddOp(k, table[k]))];
      keys := keys + [k];
      left := left - {k};
    }
  }

  lemma NoAds(table: Table)
    ensures AdLog(table, []) == []
  {
  }

  lemma {:induction false} OneMoreAd(table: Table, keys: seq<Key>, k: Key)
    requires k in table && forall x :: x in keys ==> x in table
    ensures AdLog(table, keys + [k]) == AdLog(table, keys) + [AdRecord(None, AddOp(k, table[k]))]
    decreases |keys|
  {
    if keys == [] {
      assert keys + [k] == [k];
      assert [k][1..] == [];
    } else {
      assert (keys + [k])[1..] == keys[1..] + [k];
      OneMoreAd(table, keys[1..], k);
    }
  }
}
