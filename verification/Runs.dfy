/** Runs of requests on a collection, what they log, and the laws of replaying a log. */
module Runs {
  import opened Expressions
  import opened Members
  import opened Views
  import opened Transactions
  import opened Collections

  /** The collection after a sequence of requests, refused ones included; None after a crash. */
  function Run(rules: Rules, start: Collection, requests: seq<Request>): (r: Option<Collection>)
    decreases |requests|
  {
    if requests == [] then Some(start)
    else
      var n := |requests| - 1;
      match Run(rules, start, requests[..n])
      case None => None
      case Some(c) =>
        var r := Handle(rules, c, requests[n]);
        if r.status.Thrown? then None else Some(r.coll)
  }

  /** The request commits a transaction that is open. */
  predicate Commits(c: Collection, request: Request) {
    request.Close? && request.commit && request.name in c.xactions && c.xactions[request.name].Some?
  }

  /** The names of transactions committed so far. */
  ghost function Committed(log: seq<Record>): (r: set<string>) {
    set i | 0 <= i < |log| && log[i].CommitRecord? :: log[i].name
  }

  /** What a request adds to the log. */
  function Logged(rules: Rules, c: Collection, request: Request): (r: seq<Record>) {
    match request
    case Ask(op) =>
      if c.current == "" && Direct(rules, c.state, op).status.Done? && !(op.RemoveOp? && op.key !in c.state.table)
      then [AdRecord(None, op)] else []
    case Open(_) => []
    case Switch(_) => []
    case Close(name, commit) =>
      if Commits(c, request) && Commit(rules, c.state, c.xactions[name].value).status.Done?
      then XactionLog(name, c.xactions[name].value) else []
    case Create(parent, info) => [CreateRecord(parent, info)]
    case Drop(name) => [DropRecord(name)]
  }

  lemma LogGrows(rules: Rules, c: Collection, request: Request)
    ensures Handle(rules, c, request).coll.log == c.log + Logged(rules, c, request)
  {
    hide Direct;
    hide Commit;
    hide ViewCreated;
    hide ViewDropped;
    hide XactionLog;
    assert c.log + [] == c.log;
  }

  // ------------------------------------------------------------ moments of a run

  /** How many requests had been answered when the log was `n` records long: the last moment whose log
      lies within those records. */
  function Moment(rules: Rules, start: Collection, requests: seq<Request>, n: nat): (j: nat)
    requires Run(rules, start, requests).Some?
    ensures j <= |requests|
    decreases |requests|
  {
    if requests == [] || |Run(rules, start, requests).value.log| <= n then |requests|
    else Moment(rules, start, requests[..|requests| - 1], n)
  }

  lemma {:induction false} RunOfPart(rules: Rules, start: Collection, requests: seq<Request>, j: nat)
    requires Run(rules, start, requests).Some? && j <= |requests|
    ensures Run(rules, start, requests[..j]).Some?
    decreases |requests|
  {
    hide Handle;
    if j < |requests| {
      var m := |requests| - 1;
      RunOfPart(rules, start, requests[..m], j);
      assert requests[..m][..j] == requests[..j];
    } else {
      assert requests[..j] == requests;
    }
  }

  /** More records show a later moment, and all of them the last. */
  lemma {:induction false} MomentMonotone(rules: Rules, start: Collection, requests: seq<Request>, n: nat, n': nat)
    requires Run(rules, start, requests).Some? && n <= n'
    ensures Moment(rules, start, requests, n) <= Moment(rules, start, requests, n')
    ensures Moment(rules, start, requests, |Run(rules, start, requests).value.log|) == |requests|
    decreases |requests|
  {
    hide Handle;
    if requests != [] && |Run(rules, start, requests).value.log| > n {
      MomentMonotone(rules, start, requests[..|requests| - 1], n, n');
    }
  }

  // --------------------------------------------------------- laws of replaying

  lemma NothingReplayed(rules: Rules, r: Collection)
    ensures Replay(rules, r, []) == Some(r)
  {
  }

  lemma NotCommits(rec: Record)
    requires !rec.CommitRecord?
    ensures Committed([rec]) == {}
  {
  }

  lemma NothingCommitted(log: seq<Record>)
    ensures Committed(log + []) == Committed(log)
  {
    assert log + [] == log;
  }

  lemma {:induction false} ReplayAppend(rules: Rules, c: Collection, a: seq<Record>, b: seq<Record>)
    ensures Replay(rules, c, a + b) ==
            match Replay(rules, c, a)
            case None => None
            case Some(c') => Replay(rules, c', b)
    decreases |a|
  {
    hide Recover;
    if a == [] {
      assert a + b == b;
    } else {
      assert (a + b)[0] == a[0] && (a + b)[1..] == a[1..] + b;
      var r := Recover(rules, c, a[0]);
      if r.Some? {
        ReplayAppend(rules, r.value, a[1..], b);
      }
    }
  }

  lemma ReplayOne(rules: Rules, c: Collection, rec: Record)
    ensures Replay(rules, c, [rec]) == Recover(rules, c, rec)
  {
    hide Recover;
    var r := Recover(rules, c, rec);
    if r.Some? {
      assert [rec][1..] == [];
      assert Replay(rules, r.value, []) == r;
    }
  }

  /** Replaying a transaction's records gathers its operations. */
  lemma {:induction false} GatherOps(rules: Rules, r: Collection, name: string, ops: seq<Op>, more: seq<Op>)
    requires name in r.xactions && r.xactions[name] == Some(ops)
    ensures Replay(rules, r, XactionRecords(name, more))
         == Some(r.(xactions := r.xactions[name := Some(ops + more)]))
    decreases |more|
  {
    if more == [] {
      assert ops + more == ops;
      assert r.xactions[name := Some(ops)] == r.xactions;
    } else {
      var r' := r.(xactions := r.xactions[name := Some(ops + [more[0]])]);
      assert Recover(rules, r, AdRecord(Some(name), more[0])) == Some(r');
      GatherOps(rules, r', name, ops + [more[0]], more[1..]);
      assert (ops + [more[0]]) + more[1..] == ops + more;
      assert r'.xactions[name := Some(ops + more)] == r.xactions[name := Some(ops + more)];
    }
  }

  /** Until its commit record a transaction changes nothing but the transaction table; a name that
      is already there stops the recovery. */
  lemma BeforeCommit(rules: Rules, r: Collection, name: string, ops: seq<Op>)
    ensures Replay(rules, r, [OpenRecord(name)] + XactionRecords(name, ops))
         == if name in r.xactions then None else Some(r.(xactions := r.xactions[name := Some(ops)]))
  {
    hide Replay;
    hide XactionRecords;
    ReplayAppend(rules, r, [OpenRecord(name)], XactionRecords(name, ops));
    ReplayOne(rules, r, OpenRecord(name));
    if name !in r.xactions {
      var r' := r.(xactions := r.xactions[name := Some([])]);
      GatherOps(rules, r', name, [], ops);
      assert [] + ops == ops;
      assert r'.xactions[name := Some(ops)] == r.xactions[name := Some(ops)];
    }
  }

  lemma XactionReplayed(rules: Rules, r: Collection, name: string, ops: seq<Op>)
    ensures Replay(rules, r, XactionLog(name, ops)) ==
            if name in r.xactions then None
            else Accepted(r.(xactions := r.xactions[name := None]), Commit(rules, r.state, ops))
  {
    hide Replay;
    hide Commit;
    BeforeCommit(rules, r, name, ops);
    ReplayAppend(rules, r, [OpenRecord(name)] + XactionRecords(name, ops), [CommitRecord(name)]);
    if name !in r.xactions {
      var r' := r.(xactions := r.xactions[name := Some(ops)]);
      ReplayOne(rules, r', CommitRecord(name));
      assert r'.xactions[name := None] == r.xactions[name := None];
    }
  }

  lemma CommittedGrows(log: seq<Record>, more: seq<Record>)
    ensures Committed(log + more) == Committed(log) + Committed(more)
  {
    var all := log + more;
    forall x | x in Committed(log) + Committed(more) ensures x in Committed(all) {
      if x in Committed(log) {
        var i :| 0 <= i < |log| && log[i].CommitRecord? && log[i].name == x;
        assert all[i] == log[i];
      } else {
        var i :| 0 <= i < |more| && more[i].CommitRecord? && more[i].name == x;
        assert all[|log| + i] == more[i];
      }
    }
    forall x | x in Committed(all) ensures x in Committed(log) + Committed(more) {
      var i :| 0 <= i < |all| && all[i].CommitRecord? && all[i].name == x;
      if i < |log| {
        assert log[i] == all[i];
      } else {
        assert more[i - |log|] == all[i];
      }
    }
  }

  lemma {:induction false} XactionCommits(name: string, ops: seq<Op>)
    ensures Committed(XactionLog(name, ops)) == {name}
  {
    var log := XactionLog(name, ops);
    NoCommits(name, ops);
    assert log[|log| - 1] == CommitRecord(name);
    forall i | 0 <= i < |log| - 1 ensures !log[i].CommitRecord? {
      assert i > 0 ==> log[i] == XactionRecords(name, ops)[i - 1];
    }
  }

  lemma {:induction false} NoCommits(name: string, ops: seq<Op>)
    ensures forall i :: 0 <= i < |ops| ==> !XactionRecords(name, ops)[i].CommitRecord?
  {
    if ops != [] {
      NoCommits(name, ops[1..]);
      var rest := XactionRecords(name, ops[1..]);
      assert forall i :: 1 <= i < |ops| ==> XactionRecords(name, ops)[i] == rest[i - 1];
    }
  }

  lemma {:induction false} RecordsPrefix(name: string, ops: seq<Op>, k: nat)
    requires k <= |ops|
    ensures XactionRecords(name, ops)[..k] == XactionRecords(name, ops[..k])
    decreases |ops|
  {
    if k > 0 {
      RecordsPrefix(name, ops[1..], k - 1);
      assert ops[1..][..k - 1] == ops[..k][1..];
      var rest := XactionRecords(name, ops[1..]);
      assert ([AdRecord(Some(name), ops[0])] + rest)[..k] == [AdRecord(Some(name), ops[0])] + rest[..k - 1];
    }
  }

  /** Part of a transaction's records leaves the table and the views alone. */
  lemma XactionPrefix(rules: Rules, r: Collection, name: string, ops: seq<Op>, n: nat)
    requires name !in r.xactions && n < |XactionLog(name, ops)|
    ensures var p := Replay(rules, r, XactionLog(name, ops)[..n]); p.Some? && p.value.state == r.state
  {
    hide Replay;
    if n == 0 {
      NothingReplayed(rules, r);
    } else {
      RecordsPrefix(name, ops, n - 1);
      BeforeCommit(rules, r, name, ops[..n - 1]);
      assert XactionLog(name, ops)[..n] == [OpenRecord(name)] + XactionRecords(name, ops)[..n - 1];
    }
  }

  /** What a request logs, short of its last record, leaves the table and the views alone when replayed
      after the names committed so far. */
  lemma LoggedPrefix(rules: Rules, c: Collection, r: Collection, request: Request, n: nat)
    requires n < |Logged(rules, c, request)|
    requires Commits(c, request) ==> request.name !in r.xactions
    ensures var p := Replay(rules, r, Logged(rules, c, request)[..n]); p.Some? && p.value.state == r.state
  {
    hide Replay;
    hide Commit;
    hide Direct;
    hide XactionLog;
    NothingReplayed(rules, r);
    if request.Close? {
      XactionPrefix(rules, r, request.name, c.xactions[request.name].value, n);
    }
  }
}
