/** Recovery in any collection, partitioned or not: requests that were answered leave a log from which
    exactly the same state is rebuilt. */
module ExactRecovery {
  import opened Expressions
  import opened Members
  import opened Views
  import opened Transactions
  import opened Collections
  import opened Runs

  /** The request was done, or it was refused and left state and log alone. */
  ghost predicate Answered(rules: Rules, c: Collection, request: Request) {
    var r := Handle(rules, c, request);
    r.status.Done? || (r.status.Refused? && r.coll.state == c.state && Logged(rules, c, request) == [])
  }

  /** The request commits successfully under a name committed before. */
  ghost predicate Reuses(rules: Rules, c: Collection, request: Request) {
    && Commits(c, request) && request.name in Committed(c.log)
    && Commit(rules, c.state, c.xactions[request.name].value).status.Done?
  }

  ghost predicate AllAnswered(rules: Rules, start: Collection, requests: seq<Request>)
    decreases |requests|
  {
    requests == [] ||
    var n := |requests| - 1;
    var c := Run(rules, start, requests[..n]);
    AllAnswered(rules, start, requests[..n]) && c.Some? && Answered(rules, c.value, requests[n])
  }

  ghost predicate NoneReuses(rules: Rules, start: Collection, requests: seq<Request>)
    decreases |requests|
  {
    requests == [] ||
    var n := |requests| - 1;
    var c := Run(rules, start, requests[..n]);
    NoneReuses(rules, start, requests[..n]) && (c.Some? ==> !Reuses(rules, c.value, requests[n]))
  }

  /** A recovered collection has the state of the live one, and knows of transactions only which names
      have been committed. */
  ghost predicate Mirrors(c: Collection, r: Collection) {
    && r.state == c.state
    && r.xactions.Keys == Committed(c.log)
    && forall n :: n in r.xactions ==> r.xactions[n].None?
  }

  /** The log of this collection rebuilds its state. */
  ghost predicate Rebuilds(rules: Rules, origin: Collection, c: Collection) {
    var r := Replay(rules, origin, c.log);
    r.Some? && Mirrors(c, r.value)
  }

  // --------------------------------------------------------------- one step

  /** What a request logs rebuilds exactly the state it left, table, views, partitions and registry, if and
      only if it was answered and reuses no committed name; and what an answered request logs can be
      replayed to nothing else. */
  lemma StepExact(rules: Rules, c: Collection, r: Collection, request: Request)
    requires Mirrors(c, r) && !Handle(rules, c, request).status.Thrown?
    ensures var c' := Handle(rules, c, request).coll;
            var r' := Replay(rules, r, Logged(rules, c, request));
            && (r'.Some? && Mirrors(c', r'.value) <==> Answered(rules, c, request) && !Reuses(rules, c, request))
            && (Answered(rules, c, request) && r'.Some? ==> !Reuses(rules, c, request))
  {
    hide Committed;
    hide Replay;
    hide XactionLog;
    hide Commit;
    hide Play;
    hide ViewCreated;
    hide ViewDropped;
    LogGrows(rules, c, request);
    NothingReplayed(rules, r);
    NothingCommitted(c.log);
    match request
    case Ask(op) =>
      ReplayOne(rules, r, AdRecord(None, op));
      NotCommits(AdRecord(None, op));
      CommittedGrows(c.log, [AdRecord(None, op)]);
    case Open(_) =>
    case Switch(_) =>
    case Close(name, commit) =>
      if Commits(c, request) {
        var ops := c.xactions[name].value;
        XactionReplayed(rules, r, name, ops);
        XactionCommits(name, ops);
        CommittedGrows(c.log, XactionLog(name, ops));
      }
    case Create(parent, info) =>
      ReplayOne(rules, r, CreateRecord(parent, info));
      NotCommits(CreateRecord(parent, info));
      CommittedGrows(c.log, [CreateRecord(parent, info)]);
    case Drop(name) =>
      ReplayOne(rules, r, DropRecord(name));
      NotCommits(DropRecord(name));
      CommittedGrows(c.log, [DropRecord(name)]);
  }

  // -------------------------------------------------------------- whole runs

  /** The log of a run of answered requests replays exactly if no committed name was reused, and then
      rebuilds exactly the state at its end. */
  lemma {:induction false} AnsweredRunRebuilds(
    rules: Rules, origin: Collection, start: Collection, requests: seq<Request>)
    requires Rebuilds(rules, origin, start) && AllAnswered(rules, start, requests)
    ensures Run(rules, start, requests).Some?
    ensures var c := Run(rules, start, requests).value;
            && (Replay(rules, origin, c.log).Some? <==> NoneReuses(rules, start, requests))
            && (NoneReuses(rules, start, requests) ==> Rebuilds(rules, origin, c))
    decreases |requests|
  {
    hide Mirrors;
    hide Reuses;
    hide Recover;
    if requests != [] {
      var n := |requests| - 1;
      AnsweredRunRebuilds(rules, origin, start, requests[..n]);
      var c := Run(rules, start, requests[..n]).value;
      AnsweredGoesOn(rules, c, requests[n]);
      hide Answered;
      hide Handle;
      LogGrows(rules, c, requests[n]);
      ReplayAppend(rules, origin, c.log, Logged(rules, c, requests[n]));
      var r := Replay(rules, origin, c.log);
      if r.Some? {
        StepExact(rules, c, r.value, requests[n]);
      }
    }
  }

  /** The log rebuilds the state of the collection after every request. */
  ghost predicate RebuiltThroughout(rules: Rules, origin: Collection, start: Collection, requests: seq<Request>)
    decreases |requests|
  {
    var c := Run(rules, start, requests);
    && c.Some? && Rebuilds(rules, origin, c.value)
    && (requests != [] ==> RebuiltThroughout(rules, origin, start, requests[..|requests| - 1]))
  }

  /** For a run that does not crash, the log rebuilds the state throughout exactly if every request was
      answered and no committed name was reused. */
  lemma {:induction false} RebuiltExactly(rules: Rules, origin: Collection, start: Collection, requests: seq<Request>)
    requires Rebuilds(rules, origin, start) && Run(rules, start, requests).Some?
    ensures RebuiltThroughout(rules, origin, start, requests)
       <==> AllAnswered(rules, start, requests) && NoneReuses(rules, start, requests)
    decreases |requests|
  {
    hide Mirrors;
    hide Reuses;
    hide Answered;
    hide Recover;
    hide Handle;
    if requests != [] {
      var n := |requests| - 1;
      RebuiltExactly(rules, origin, start, requests[..n]);
      var c := Run(rules, start, requests[..n]).value;
      LogGrows(rules, c, requests[n]);
      ReplayAppend(rules, origin, c.log, Logged(rules, c, requests[n]));
      var r := Replay(rules, origin, c.log);
      if r.Some? && Mirrors(c, r.value) {
        StepExact(rules, c, r.value, requests[n]);
      }
    }
  }

  lemma AnsweredGoesOn(rules: Rules, c: Collection, request: Request)
    requires Answered(rules, c, request)
    ensures !Handle(rules, c, request).status.Thrown?
  {
  }

  /** Whatever part of the log survives a crash, replaying it gives exactly the state in which the
      collection was at that moment, between two requests: never part of a transaction. */
  lemma {:induction false} PrefixRebuilds(
    rules: Rules, origin: Collection, start: Collection, requests: seq<Request>, n: nat)
    requires Rebuilds(rules, origin, start)
    requires AllAnswered(rules, start, requests) && NoneReuses(rules, start, requests)
    requires Run(rules, start, requests).Some?
    requires |start.log| <= n <= |Run(rules, start, requests).value.log|
    ensures var j := Moment(rules, start, requests, n);
            var then' := Run(rules, start, requests[..j]);
            var r := Replay(rules, origin, Run(rules, start, requests).value.log[..n]);
            then'.Some? && r.Some? && r.value.state == then'.value.state
    decreases |requests|
  {
    hide Answered;
    hide Reuses;
    hide Recover;
    hide Handle;
    hide Logged;
    var c := Run(rules, start, requests).value;
    AnsweredRunRebuilds(rules, origin, start, requests);
    if n == |c.log| {
      assert c.log[..n] == c.log && requests[..|requests|] == requests;
    } else {
      var m := |requests| - 1;
      var before := Run(rules, start, requests[..m]).value;
      LogGrows(rules, before, requests[m]);
      var j := Moment(rules, start, requests[..m], n);
      assert requests[..m][..j] == requests[..j];
      if n <= |before.log| {
        PrefixRebuilds(rules, origin, start, requests[..m], n);
        assert c.log[..n] == before.log[..n];
      } else {
        MidRequest(rules, origin, start, requests[..m], requests[m], n - |before.log|);
        assert requests[..m][..m] == requests[..m];
        assert c.log[..n] == before.log + Logged(rules, before, requests[m])[..n - |before.log|];
      }
    }
  }

  /** The case of a prefix that ends within what one request logged. */
  lemma MidRequest(rules: Rules, origin: Collection, start: Collection, earlier: seq<Request>, request: Request, k: nat)
    requires Rebuilds(rules, origin, start) && AllAnswered(rules, start, earlier) && NoneReuses(rules, start, earlier)
    requires Run(rules, start, earlier).Some? && !Reuses(rules, Run(rules, start, earlier).value, request)
    requires k < |Logged(rules, Run(rules, start, earlier).value, request)|
    ensures var c := Run(rules, start, earlier).value;
            var p := Replay(rules, origin, c.log + Logged(rules, c, request)[..k]);
            p.Some? && p.value.state == c.state
  {
    hide Recover;
    hide Run;
    hide AllAnswered;
    hide NoneReuses;
    hide Replay;
    hide Commit;
    AnsweredRunRebuilds(rules, origin, start, earlier);
    var c := Run(rules, start, earlier).value;
    var r := Replay(rules, origin, c.log).value;
    ReplayAppend(rules, origin, c.log, Logged(rules, c, request)[..k]);
    LoggedPrefix(rules, c, r, request, k);
  }

  // -------------------------------------------------------- where runs start

  lemma FreshRebuilds(rules: Rules, rootInfo: Ad)
    ensures Rebuilds(rules, Start(rootInfo), Start(rootInfo))
  {
    NothingReplayed(rules, Start(rootInfo));
  }

  /** The collection that a recovery leaves: it keeps the log it was recovered from, and can go on. */
  function Recovered(r: Collection, log: seq<Record>): (c: Collection) {
    r.(log := log, current := "")
  }

  lemma RecoveredRebuilds(rules: Rules, origin: Collection, c: Collection)
    requires Rebuilds(rules, origin, c)
    ensures Rebuilds(rules, origin, Recovered(Replay(rules, origin, c.log).value, c.log))
  {
  }

  /** Recovering and going on: the log written after a recovery, appended to the one before, rebuilds
      the state at the end. */
  lemma RecoverThenContinue(
    rules: Rules, rootInfo: Ad, requests: seq<Request>, more: seq<Request>)
    requires AllAnswered(rules, Start(rootInfo), requests) && NoneReuses(rules, Start(rootInfo), requests)
    requires Run(rules, Start(rootInfo), requests).Some?
    requires var log := Run(rules, Start(rootInfo), requests).value.log;
             var r := Replay(rules, Start(rootInfo), log);
             && r.Some? && AllAnswered(rules, Recovered(r.value, log), more)
             && NoneReuses(rules, Recovered(r.value, log), more)
    ensures var c := Run(rules, Start(rootInfo), requests).value;
            var again := Recovered(Replay(rules, Start(rootInfo), c.log).value, c.log);
            var d := Run(rules, again, more);
            again.state == c.state && d.Some? && Rebuilds(rules, Start(rootInfo), d.value)
  {
    hide Run;
    hide AllAnswered;
    hide NoneReuses;
    hide Replay;
    var origin := Start(rootInfo);
    FreshRebuilds(rules, rootInfo);
    AnsweredRunRebuilds(rules, origin, origin, requests);
    var c := Run(rules, origin, requests).value;
    RecoveredRebuilds(rules, origin, c);
    AnsweredRunRebuilds(rules, origin, Recovered(Replay(rules, origin, c.log).value, c.log), more);
  }
}
