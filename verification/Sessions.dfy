/** Transactions as their callers see them: opened, asked one operation at a time, and closed. */
module Sessions {
  import opened Expressions
  import opened Members
  import opened Views
  import opened Skeletons
  import opened Transactions
  import opened Collections
  import opened Runs
  import opened Orderly

  /** The operations asked for in the course of a run while transaction `t` was current, in order. */
  function AskedIn(rules: Rules, start: Collection, requests: seq<Request>, t: string): (ops: seq<Op>)
    decreases |requests|
  {
    if requests == [] then []
    else
      var n := |requests| - 1;
      var c := Run(rules, start, requests[..n]);
      AskedIn(rules, start, requests[..n], t)
      + if c.Some? && c.value.current == t && requests[n].Ask? then [requests[n].op] else []
  }

  ghost predicate NeverCloses(requests: seq<Request>, t: string) {
    forall i :: 0 <= i < |requests| ==> !(requests[i].Close? && requests[i].name == t)
  }

  /** An open transaction holds exactly the operations asked for while it was current, in the order in which
      they were asked for, whatever else was requested in between. */
  lemma {:induction false} HoldsWhatWasAsked(rules: Rules, start: Collection, requests: seq<Request>, t: string)
    requires t != "" && t in start.xactions && start.xactions[t].Some? && NeverCloses(requests, t)
    requires Run(rules, start, requests).Some?
    ensures var c := Run(rules, start, requests).value;
            && t in c.xactions
            && c.xactions[t] == Some(start.xactions[t].value + AskedIn(rules, start, requests, t))
    decreases |requests|
  {
    if requests != [] {
      var n := |requests| - 1;
      hide Handle;
      HoldsWhatWasAsked(rules, start, requests[..n], t);
      var c := Run(rules, start, requests[..n]).value;
      HandleHolds(rules, c, requests[n], t);
      var earlier := AskedIn(rules, start, requests[..n], t);
      var asked := if c.current == t && requests[n].Ask? then [requests[n].op] else [];
      assert (start.xactions[t].value + earlier) + asked == start.xactions[t].value + (earlier + asked);
    } else {
      assert start.xactions[t].value + [] == start.xactions[t].value;
    }
  }

  lemma HandleHolds(rules: Rules, c: Collection, request: Request, t: string)
    requires t != "" && t in c.xactions && c.xactions[t].Some? && !(request.Close? && request.name == t)
    ensures var r := Handle(rules, c, request).coll;
            var asked := if c.current == t && request.Ask? then [request.op] else [];
            t in r.xactions && r.xactions[t] == Some(c.xactions[t].value + asked)
  {
    hide Direct;
    hide Commit;
    hide ViewCreated;
    hide ViewDropped;
    assert c.xactions[t].value + [] == c.xactions[t].value;
  }

  /** None of the requests touches the state: operations are asked for only inside transactions, nothing is
      committed, and no view is created or deleted. */
  ghost predicate Quiet(rules: Rules, start: Collection, requests: seq<Request>)
    decreases |requests|
  {
    requests == [] ||
    var n := |requests| - 1;
    var c := Run(rules, start, requests[..n]);
    && Quiet(rules, start, requests[..n])
    && !requests[n].Create? && !requests[n].Drop? && !(requests[n].Close? && requests[n].commit)
    && (c.Some? && requests[n].Ask? ==> c.value.current != "")
  }

  lemma {:induction false} QuietLeaves(rules: Rules, start: Collection, requests: seq<Request>)
    requires Quiet(rules, start, requests) && Run(rules, start, requests).Some?
    ensures var c := Run(rules, start, requests).value; c.state == start.state && c.log == start.log
    decreases |requests|
  {
    if requests != [] {
      QuietLeaves(rules, start, requests[..|requests| - 1]);
    }
  }

  /** The collection after opening a transaction. */
  function Opened(c: Collection, t: string): (r: Collection) {
    c.(xactions := c.xactions[t := Some([])], current := t)
  }

  /** A transaction from its opening to its close. Up to the close neither state nor log shows anything of
      it. The close answers, and leaves the state, as committing the operations asked for, in the order of
      the requests; the log gains a success whole and a failure not at all. An abort leaves everything as
      it was. Either way the name is free again. */
  lemma WholeTransaction(rules: Rules, c: Collection, t: string, requests: seq<Request>)
    requires t != "" && t !in c.xactions && NeverCloses(requests, t)
    requires Quiet(rules, Opened(c, t), requests) && Run(rules, Opened(c, t), requests).Some?
    ensures Handle(rules, c, Open(t)) == Reply(Done, Opened(c, t))
    ensures var before := Run(rules, Opened(c, t), requests).value;
            var ops := AskedIn(rules, Opened(c, t), requests, t);
            var commit, abort := Handle(rules, before, Close(t, true)), Handle(rules, before, Close(t, false));
            && before.state == c.state && before.log == c.log
            && Effect(commit.status, commit.coll.state) == Commit(rules, c.state, ops)
            && commit.coll.log == (if commit.status.Done? then c.log + XactionLog(t, ops) else c.log)
            && t !in commit.coll.xactions
            && abort.status.Done? && abort.coll.state == c.state && abort.coll.log == c.log
            && t !in abort.coll.xactions && Handle(rules, abort.coll, Open(t)).status.Done?
  {
    hide Run;
    hide Commit;
    hide Direct;
    HoldsWhatWasAsked(rules, Opened(c, t), requests, t);
    QuietLeaves(rules, Opened(c, t), requests);
    var ops := AskedIn(rules, Opened(c, t), requests, t);
    assert [] + ops == ops;
  }

  /** After a switch the next operation goes to the transaction switched to, and to no other; switching to
      no name makes it a direct one. Only open transactions can be switched to. */
  lemma SwitchSelects(rules: Rules, c: Collection, name: string, op: Op)
    ensures var s := Handle(rules, c, Switch(name));
            var r := Handle(rules, s.coll, Ask(op));
            && (s.status.Done? <==> name == "" || (name in c.xactions && c.xactions[name].Some?))
            && (!s.status.Done? ==> s == Reply(Refused, c))
            && (name == "" ==>
                  Effect(r.status, r.coll.state) == Direct(rules, c.state, op) && r.coll.xactions == c.xactions)
            && (s.status.Done? && name != "" ==>
                  && r.status.Done? && r.coll.state == c.state && r.coll.log == c.log
                  && r.coll.xactions == c.xactions[name := Some(c.xactions[name].value + [op])])
  {
    hide Direct;
  }

  /** After its close a transaction is still the current one by name, so that further operations are refused
      until another is chosen. */
  lemma ClosedIsStillCurrent(rules: Rules, c: Collection, t: string, commit: bool, op: Op)
    requires t != "" && t in c.xactions && c.xactions[t].Some? && c.current == t
    ensures var r := Handle(rules, c, Close(t, commit)); Handle(rules, r.coll, Ask(op)) == Reply(Refused, r.coll)
  {
    hide Commit;
  }

  // ------------------------------------------------------- the plain case

  /** One request for each operation. */
  function Asks(ops: seq<Op>): (r: seq<Request>)
    ensures |r| == |ops| && forall i :: 0 <= i < |ops| ==> r[i] == Ask(ops[i])
  {
    seq(|ops|, i requires 0 <= i < |ops| => Ask(ops[i]))
  }

  lemma {:induction false} AsksInTransaction(rules: Rules, c: Collection, t: string, ops: seq<Op>)
    requires t != "" && t in c.xactions && c.xactions[t].Some? && c.current == t
    ensures Run(rules, c, Asks(ops)).Some? && Run(rules, c, Asks(ops)).value.current == t
    ensures AskedIn(rules, c, Asks(ops), t) == ops && Quiet(rules, c, Asks(ops)) && NeverCloses(Asks(ops), t)
    decreases |ops|
  {
    if ops == [] {
    } else {
      hide Handle;
      hide Run;
      hide AskedIn;
      hide Quiet;
      hide Asks;
      var n := |ops| - 1;
      AsksSnoc(ops);
      AsksInTransaction(rules, c, t, ops[..n]);
      HoldsWhatWasAsked(rules, c, Asks(ops[..n]), t);
      AskedOnce(rules, Run(rules, c, Asks(ops[..n])).value, t, ops[n]);
      OneMore(rules, c, Asks(ops[..n]), Ask(ops[n]), t);
    }
  }

  lemma AsksSnoc(ops: seq<Op>)
    requires ops != []
    ensures var n := |ops| - 1; Asks(ops) == Asks(ops[..n]) + [Ask(ops[n])] && ops == ops[..n] + [ops[n]]
  {
  }

  lemma OneMore(rules: Rules, start: Collection, requests: seq<Request>, request: Request, t: string)
    requires Run(rules, start, requests).Some?
    requires !Handle(rules, Run(rules, start, requests).value, request).status.Thrown?
    requires request.Ask? && Run(rules, start, requests).value.current == t != ""
    ensures var more := requests + [request];
            && Run(rules, start, more) == Some(Handle(rules, Run(rules, start, requests).value, request).coll)
            && AskedIn(rules, start, more, t) == AskedIn(rules, start, requests, t) + [request.op]
            && (Quiet(rules, start, requests) ==> Quiet(rules, start, more))
  {
    hide Handle;
    assert (requests + [request])[..|requests|] == requests;
  }

  lemma AskedOnce(rules: Rules, c: Collection, t: string, op: Op)
    requires t != "" && t in c.xactions && c.xactions[t].Some? && c.current == t
    ensures Handle(rules, c, Ask(op)).status.Done? && Handle(rules, c, Ask(op)).coll.current == t
  {
  }

  /** Opening, asking for operations and committing, in a collection in order and without partitions: the
      commit succeeds exactly if each operation in turn finds what it needs, and then the table is what
      doing them one after another makes of it. */
  lemma CommitsInTurn(rules: Rules, c: Collection, t: string, ops: seq<Op>)
    requires InOrder(rules, c.state) && t != "" && t !in c.xactions
    ensures var before := Run(rules, Opened(c, t), Asks(ops));
            && before.Some?
            && var r := Handle(rules, before.value, Close(t, true));
               && (r.status.Done? <==> Succeeds(rules, c.state.table, ops))
               && (r.status.Done? ==>
                     InOrder(rules, r.coll.state) && r.coll.state.table == After(rules, c.state.table, ops)
                     && r.coll.log == c.log + XactionLog(t, ops))
  {
    hide Run;
    hide Quiet;
    hide AskedIn;
    hide Handle;
    hide Commit;
    hide InOrder;
    hide XactionLog;
    AsksInTransaction(rules, Opened(c, t), t, ops);
    WholeTransaction(rules, c, t, Asks(ops));
    CommitInOrder(rules, c.state, ops);
    if Succeeds(rules, c.state.table, ops) {
      PlayedIsSaved(rules, c.state.table, ops);
      assert ops[..|ops|] == ops;
    }
  }

  // -------------------------------------------- transactions and direct requests

  /** A run is its first request followed by the rest. */
  lemma {:induction false} RunFromFirst(rules: Rules, c: Collection, requests: seq<Request>)
    requires requests != [] && !Handle(rules, c, requests[0]).status.Thrown?
    ensures Run(rules, c, requests) == Run(rules, Handle(rules, c, requests[0]).coll, requests[1..])
    decreases |requests|
  {
    hide Handle;
    var n := |requests| - 1;
    if n == 0 {
      assert requests[..0] == [] && requests[1..] == [];
      assert Run(rules, c, []) == Some(c);
    } else {
      RunFromFirst(rules, c, requests[..n]);
      assert requests[..n][1..] == requests[1..][..n - 1] && requests[1..][n - 1] == requests[n];
    }
  }

  /** What a transaction does when it succeeds, the same operations asked for directly do, in any
      collection. */
  lemma {:induction false} CommitIsDirect(rules: Rules, c: Collection, ops: seq<Op>)
    requires c.current == "" && Commit(rules, c.state, ops).status.Done?
    ensures var d := Run(rules, c, Asks(ops));
            d.Some? && d.value.state == Commit(rules, c.state, ops).state && d.value.current == ""
    decreases |ops|
  {
    hide Play;
    assert Forward(rules, c.state, ops).status.Done?;
    if ops != [] {
      AsksFromFirst(ops);
      var first := Play(rules, c.state, ops[0]);
      assert first.status.Done? && Forward(rules, first.state, ops[1..]).status.Done?;
      DoneDirectly(rules, c, ops[0]);
      var c' := Handle(rules, c, Ask(ops[0])).coll;
      hide Handle;
      CommitIsDirect(rules, c', ops[1..]);
      RunFromFirst(rules, c, Asks(ops));
    }
  }

  lemma DoneDirectly(rules: Rules, c: Collection, op: Op)
    requires c.current == "" && Play(rules, c.state, op).status.Done?
    ensures var r := Handle(rules, c, Ask(op));
            r.status.Done? && r.coll.state == Play(rules, c.state, op).state && r.coll.current == ""
  {
    hide Withdrawn;
    hide Admitted;
    hide Changed;
  }

  lemma AsksFromFirst(ops: seq<Op>)
    requires ops != []
    ensures Asks(ops)[0] == Ask(ops[0]) && Asks(ops)[1..] == Asks(ops[1..])
  {
  }

  /** What each kind of direct request makes of the table, in a collection in order and without partitions: an
      ad is added or replaced, changed as the rules for updates or for modifications say, or removed. What
      is not there cannot be changed, and removing it changes nothing. */
  lemma DirectRequests(rules: Rules, c: Collection, key: Key, ad: Ad)
    requires InOrder(rules, c.state) && c.current == ""
    ensures var table := c.state.table;
            var add, remove := Handle(rules, c, Ask(AddOp(key, ad))), Handle(rules, c, Ask(RemoveOp(key)));
            var update, modify' := Handle(rules, c, Ask(UpdateOp(key, ad))), Handle(rules, c, Ask(ModifyOp(key, ad)));
            && add.status.Done? && add.coll.state.table == table[key := ad]
            && remove.status.Done? && remove.coll.state.table == table - {key}
            && (key in table ==>
                  && update.status.Done? && update.coll.state.table == table[key := rules.updated(table[key], ad)]
                  && modify'.status.Done? && modify'.coll.state.table == table[key := rules.modified(table[key], ad)])
            && (key !in table ==>
                  && update.status.Refused? && update.coll == c && modify'.status.Refused? && modify'.coll == c)
            && add.coll.log == c.log + [AdRecord(None, AddOp(key, ad))]
            && remove.coll.log == (if key in table then c.log + [AdRecord(None, RemoveOp(key))] else c.log)
  {
    hide InOrder;
    hide Play;
    PlayInOrder(rules, c.state, AddOp(key, ad));
    PlayInOrder(rules, c.state, UpdateOp(key, ad));
    PlayInOrder(rules, c.state, ModifyOp(key, ad));
    PlayInOrder(rules, c.state, RemoveOp(key));
    if key !in c.state.table {
      assert c.state.table - {key} == c.state.table;
    }
  }
}
