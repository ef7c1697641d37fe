/** Recovery in collections without partitions, whatever requests were refused on the way. */
module Recovery {
  import opened Expressions
  import opened Members
  import opened Rosters
  import opened Views
  import opened ViewTheorems
  import opened ViewRegistry
  import opened Skeletons
  import opened Transactions
  import opened Collections
  import opened Orderly
  import opened Runs
  import ExactRecovery

  // ---------------------------------------------------------- requests and runs

  /** A commit that fails is of operations on distinct keys. */
  ghost predicate FailsWell(rules: Rules, c: Collection, request: Request) {
    Commits(c, request) ==>
      var ops := c.xactions[request.name].value;
      Succeeds(rules, c.state.table, ops) || DistinctKeys(ops)
  }

  /** What is asked of a request: commits fail well, views are created with uniform descriptions, and no
      transaction that a recovery knows only to be committed is committed again. */
  ghost predicate Admissible(rules: Rules, c: Collection, request: Request) {
    && FailsWell(rules, c, request)
    && (request.Create? ==> Uniform(rules.views, request.info))
    && (request.Close? && request.commit && request.name in c.xactions ==> c.xactions[request.name].Some?)
  }

  /** A commit that succeeds does not use a name committed before, and a request about views names a
      parent that is there and a new view, or a view that is there. */
  ghost predicate Loggable(rules: Rules, c: Collection, request: Request) {
    && (Commits(c, request) && Succeeds(rules, c.state.table, c.xactions[request.name].value) ==>
          request.name !in Committed(c.log))
    && (request.Create? ==> Creatable(rules, c.state, request.parent, request.info))
    && (request.Drop? ==> Droppable(c.state, request.name))
  }

  ghost predicate AllAdmissible(rules: Rules, start: Collection, requests: seq<Request>)
    decreases |requests|
  {
    requests == [] ||
    var n := |requests| - 1;
    var c := Run(rules, start, requests[..n]);
    AllAdmissible(rules, start, requests[..n]) && (c.Some? ==> Admissible(rules, c.value, requests[n]))
  }

  ghost predicate AllLoggable(rules: Rules, start: Collection, requests: seq<Request>)
    decreases |requests|
  {
    requests == [] ||
    var n := |requests| - 1;
    var c := Run(rules, start, requests[..n]);
    AllLoggable(rules, start, requests[..n]) && (c.Some? ==> Loggable(rules, c.value, requests[n]))
  }

  // ------------------------------------------------------- a live collection

  /** The collection is in order, and the current transaction is not one known only to be committed. */
  ghost predicate Live(rules: Rules, c: Collection) {
    && InOrder(rules, c.state)
    && (c.current != "" && c.current in c.xactions ==> c.xactions[c.current].Some?)
  }

  lemma DirectInOrder(rules: Rules, st: State, op: Op)
    requires InOrder(rules, st)
    ensures var r := Direct(rules, st, op);
            var idle := op.RemoveOp? && op.key !in st.table;
            && InOrder(rules, r.state) && SameShape(r.state, st)
            && r.status == (if Applies(op, st.table) || idle then Done else Refused)
            && r.state.table == (if Applies(op, st.table) then Applied(rules, st.table, op) else st.table)
  {
    hide InOrder;
    hide SameShape;
    hide Play;
    hide Applied;
    PlayInOrder(rules, st, op);
    ShapeSelf(st);
  }

  /** Every admissible request keeps the collection in order, and none makes it crash. */
  lemma HandleLive(rules: Rules, c: Collection, request: Request)
    requires Live(rules, c) && Admissible(rules, c, request)
    ensures var r := Handle(rules, c, request); !r.status.Thrown? && Live(rules, r.coll)
  {
    hide InOrder;
    hide Direct;
    hide Commit;
    hide ViewCreated;
    hide ViewDropped;
    hide XactionLog;
    hide Succeeds;
    hide DistinctKeys;
    hide Uniform;
    match request
    case Ask(op) => DirectInOrder(rules, c.state, op);
    case Open(_) =>
    case Switch(_) =>
    case Close(name, commit) =>
      if Commits(c, request) {
        CommitInOrder(rules, c.state, c.xactions[name].value);
      }
    case Create(parent, info) => ViewCreatedInOrder(rules, c.state, parent, info);
    case Drop(name) => ViewDroppedInOrder(rules, c.state, name);
  }

  lemma StartLive(rules: Rules, rootInfo: Ad)
    requires Uniform(rules.views, rootInfo)
    ensures Live(rules, Start(rootInfo))
  {
    hide Unsigned;
    var root := Start(rootInfo).state.root;
    var none: Table := map[];
    assert Undivided(rules.views, root);
    hide Undivided;
    assert Selected(rules.views, rootInfo, none) == none;
    assert Current(rules.views, root, none);
    assert PartNames(root) == {};
    assert Names(root) == multiset{"root"};
    assert Registered(root, {"root"}, multiset{});
  }

  lemma {:induction false} RunLive(rules: Rules, start: Collection, requests: seq<Request>)
    requires Live(rules, start) && AllAdmissible(rules, start, requests)
    ensures Run(rules, start, requests).Some? && Live(rules, Run(rules, start, requests).value)
    decreases |requests|
  {
    hide Live;
    hide Admissible;
    hide Handle;
    if requests != [] {
      var n := |requests| - 1;
      RunLive(rules, start, requests[..n]);
      HandleLive(rules, Run(rules, start, requests[..n]).value, requests[n]);
    }
  }

  /** After any run of admissible requests, every view holds exactly the keys whose ads satisfy every
      constraint from the root down to it, and the registry names exactly the views. */
  lemma RunHolds(rules: Rules, start: Collection, requests: seq<Request>, path: seq<nat>, k: Key)
    requires Live(rules, start) && AllAdmissible(rules, start, requests)
    ensures Run(rules, start, requests).Some?
    ensures var st := Run(rules, start, requests).value.state;
            && Registered(st.root, st.registry, multiset{})
            && (At(st.root, path).Some? ==>
                  (k in At(st.root, path).value.roster.index
                   <==> k in st.table && Passes(rules.views, st.root, path, st.table[k])))
  {
    hide Run;
    hide At;
    hide Passes;
    hide Current;
    hide Undivided;
    RunLive(rules, start, requests);
    var st := Run(rules, start, requests).value.state;
    if At(st.root, path).Some? {
      HoldsExactlyTheMatching(rules.views, st.root, st.table, path, k);
    }
  }

  // --------------------------------------------------------------- the link

  /** A recovered collection against the live one whose log it was recovered from. */
  ghost predicate Linked(rules: Rules, c: Collection, r: Collection) {
    && InOrder(rules, c.state) && InOrder(rules, r.state) && SameShape(c.state, r.state)
    && r.state.table == c.state.table
    && r.xactions.Keys == Committed(c.log)
    && forall n :: n in r.xactions ==> r.xactions[n].None?
  }

  /** The log of this live collection replays to one that agrees with it. */
  ghost predicate Recovers(rules: Rules, origin: Collection, c: Collection) {
    && Live(rules, c)
    && var r := Replay(rules, origin, c.log);
       r.Some? && Linked(rules, c, r.value)
  }

  /** What an admissible request logs replays exactly if it is loggable; then live and recovered
      collections agree again. */
  lemma StepLinked(rules: Rules, c: Collection, r: Collection, request: Request)
    requires Live(rules, c) && Linked(rules, c, r) && Admissible(rules, c, request)
    ensures var c' := Handle(rules, c, request).coll;
            var r' := Replay(rules, r, Logged(rules, c, request));
            && (r'.Some? <==> Loggable(rules, c, request))
            && (r'.Some? ==> Linked(rules, c', r'.value))
  {
    hide InOrder;
    hide SameShape;
    hide Committed;
    hide Replay;
    hide Logged;
    hide Handle;
    hide Creatable;
    hide Droppable;
    hide Uniform;
    hide FailsWell;
    match request
    case Ask(op) => AskLinked(rules, c, r, op);
    case Open(name) => NothingLinked(rules, c, r, request);
    case Switch(name) => NothingLinked(rules, c, r, request);
    case Close(name, commit) => CloseLinked(rules, c, r, name, commit);
    case Create(parent, info) => CreateLinked(rules, c, r, parent, info);
    case Drop(name) => DropLinked(rules, c, r, name);
  }

  lemma AskLinked(rules: Rules, c: Collection, r: Collection, op: Op)
    requires Linked(rules, c, r)
    ensures var c' := Handle(rules, c, Ask(op)).coll;
            var r' := Replay(rules, r, Logged(rules, c, Ask(op)));
            r'.Some? && Linked(rules, c', r'.value)
  {
    hide InOrder;
    hide SameShape;
    hide Committed;
    hide Replay;
    hide Direct;
    hide Play;
    hide Applied;
    NothingReplayed(rules, r);
    if c.current == "" {
      DirectInOrder(rules, c.state, op);
      PlayInOrder(rules, r.state, op);
      ReplayOne(rules, r, AdRecord(None, op));
      NotCommits(AdRecord(None, op));
      CommittedGrows(c.log, [AdRecord(None, op)]);
      ShapesMeet(Direct(rules, c.state, op).state, c.state, r.state, Play(rules, r.state, op).state);
      ShapesMeet(Direct(rules, c.state, op).state, c.state, r.state, r.state);
    }
  }

  lemma ShapesMeet(s': State, s: State, t: State, t': State)
    ensures SameShape(s', s) && SameShape(s, t) && SameShape(t', t) ==> SameShape(s', t')
    ensures SameShape(s', s) && SameShape(s, t) ==> SameShape(s', t)
  {
  }

  lemma NothingLinked(rules: Rules, c: Collection, r: Collection, request: Request)
    requires Linked(rules, c, r) && (request.Open? || request.Switch?)
    ensures var c' := Handle(rules, c, request).coll;
            Replay(rules, r, Logged(rules, c, request)) == Some(r) && Linked(rules, c', r)
  {
    hide InOrder;
    hide SameShape;
    hide Committed;
  }

  lemma CloseLinked(rules: Rules, c: Collection, r: Collection, name: string, commit: bool)
    requires Linked(rules, c, r) && FailsWell(rules, c, Close(name, commit))
    ensures var request := Close(name, commit);
            var c' := Handle(rules, c, request).coll;
            var r' := Replay(rules, r, Logged(rules, c, request));
            && (r'.Some? <==> Loggable(rules, c, request))
            && (r'.Some? ==> Linked(rules, c', r'.value))
  {
    hide InOrder;
    hide SameShape;
    hide Committed;
    hide Replay;
    hide Commit;
    hide Succeeds;
    hide Played;
    hide XactionLog;
    hide DistinctKeys;
    NothingReplayed(rules, r);
    if Commits(c, Close(name, commit)) {
      var ops := c.xactions[name].value;
      CommitInOrder(rules, c.state, ops);
      CommitInOrder(rules, r.state, ops);
      XactionReplayed(rules, r, name, ops);
      XactionCommits(name, ops);
      CommittedGrows(c.log, XactionLog(name, ops));
      ShapesMeet(Commit(rules, c.state, ops).state, c.state, r.state, Commit(rules, r.state, ops).state);
    }
  }

  lemma CreateLinked(rules: Rules, c: Collection, r: Collection, parent: string, info: Ad)
    requires Linked(rules, c, r) && Uniform(rules.views, info)
    ensures var request := Create(parent, info);
            var c' := Handle(rules, c, request).coll;
            var r' := Replay(rules, r, Logged(rules, c, request));
            && (r'.Some? <==> Creatable(rules, c.state, parent, info))
            && (r'.Some? ==> Linked(rules, c', r'.value))
  {
    hide InOrder;
    hide SameShape;
    hide Committed;
    hide Replay;
    hide ViewCreated;
    hide Uniform;
    hide Creatable;
    ReplayOne(rules, r, CreateRecord(parent, info));
    NotCommits(CreateRecord(parent, info));
    CommittedGrows(c.log, [CreateRecord(parent, info)]);
    ViewCreatedInOrder(rules, c.state, parent, info);
    ViewCreatedInOrder(rules, r.state, parent, info);
    CreatedAlike(rules, c.state, r.state, parent, info);
  }

  lemma DropLinked(rules: Rules, c: Collection, r: Collection, name: string)
    requires Linked(rules, c, r)
    ensures var request := Drop(name);
            var c' := Handle(rules, c, request).coll;
            var r' := Replay(rules, r, Logged(rules, c, request));
            && (r'.Some? <==> Droppable(c.state, name))
            && (r'.Some? ==> Linked(rules, c', r'.value))
  {
    hide InOrder;
    hide SameShape;
    hide Committed;
    hide Replay;
    hide ViewDropped;
    hide Droppable;
    ReplayOne(rules, r, DropRecord(name));
    NotCommits(DropRecord(name));
    CommittedGrows(c.log, [DropRecord(name)]);
    ViewDroppedInOrder(rules, c.state, name);
    ViewDroppedInOrder(rules, r.state, name);
    DroppedAlike(c.state, r.state, name);
  }

  // -------------------------------------------------------------- whole runs

  /** Replaying the log of a run succeeds exactly if no committed name was used again and no request
      about views named a missing parent, a view that is there already, or a view that is not. Then it
      rebuilds the table and the views: the same tree of views, each holding what the live one holds. */
  lemma {:induction false} RecoveryExactly(
    rules: Rules, origin: Collection, start: Collection, requests: seq<Request>)
    requires Recovers(rules, origin, start) && AllAdmissible(rules, start, requests)
    ensures Run(rules, start, requests).Some?
    ensures var c := Run(rules, start, requests).value;
            && (Replay(rules, origin, c.log).Some? <==> AllLoggable(rules, start, requests))
            && (AllLoggable(rules, start, requests) ==> Recovers(rules, origin, c))
    decreases |requests|
  {
    hide Live;
    hide Linked;
    hide Admissible;
    hide Loggable;
    hide Handle;
    hide Recover;
    RunLive(rules, start, requests);
    if requests != [] {
      var n := |requests| - 1;
      RecoveryExactly(rules, origin, start, requests[..n]);
      RunLive(rules, start, requests[..n]);
      var c := Run(rules, start, requests[..n]).value;
      LogGrows(rules, c, requests[n]);
      ReplayAppend(rules, origin, c.log, Logged(rules, c, requests[n]));
      var r := Replay(rules, origin, c.log);
      if r.Some? {
        StepLinked(rules, c, r.value, requests[n]);
      }
    }
  }

  /** A collection starts from nothing... */
  lemma FreshRecovers(rules: Rules, rootInfo: Ad)
    requires Uniform(rules.views, rootInfo)
    ensures Recovers(rules, Start(rootInfo), Start(rootInfo))
  {
    hide InOrder;
    StartLive(rules, rootInfo);
    NothingReplayed(rules, Start(rootInfo));
  }

  /** ... or from a recovery. */
  lemma RecoveredRecovers(rules: Rules, origin: Collection, c: Collection)
    requires Recovers(rules, origin, c)
    ensures Recovers(rules, origin, ExactRecovery.Recovered(Replay(rules, origin, c.log).value, c.log))
  {
    hide InOrder;
    var r := Replay(rules, origin, c.log).value;
    ShapeSelf(r.state);
  }

  /** After recovery every view holds the keys it held. */
  lemma RecoveredViewsAgree(rules: Rules, origin: Collection, c: Collection, path: seq<nat>, k: Key)
    requires Recovers(rules, origin, c)
    ensures var r := Replay(rules, origin, c.log).value;
            && (At(c.state.root, path).Some? <==> At(r.state.root, path).Some?)
            && (At(c.state.root, path).Some? ==>
                  (k in At(c.state.root, path).value.roster.index
                   <==> k in At(r.state.root, path).value.roster.index))
  {
    hide Replay;
    hide At;
    hide Bare;
    hide Current;
    hide Undivided;
    var r := Replay(rules, origin, c.log).value;
    SameMembership(rules.views, c.state.root, r.state.root, c.state.table, path, k);
  }

  // ---------------------------------------------------------- crash prefixes

  /** Two states with the same table and the same views, each in order. */
  ghost predicate SameContents(rules: Rules, s: State, t: State) {
    s.table == t.table && SameShape(s, t) && InOrder(rules, s) && InOrder(rules, t)
  }

  /** Whatever part of the log survives a crash, replaying it gives the table and the views as they were
      at that moment, between two requests: never part of a transaction. */
  lemma {:induction false} EveryPrefixRecovers(
    rules: Rules, origin: Collection, start: Collection, requests: seq<Request>, n: nat)
    requires Recovers(rules, origin, start)
    requires AllAdmissible(rules, start, requests) && AllLoggable(rules, start, requests)
    requires Run(rules, start, requests).Some?
    requires |start.log| <= n <= |Run(rules, start, requests).value.log|
    ensures var j := Moment(rules, start, requests, n);
            var then' := Run(rules, start, requests[..j]);
            var p := Replay(rules, origin, Run(rules, start, requests).value.log[..n]);
            then'.Some? && p.Some? && SameContents(rules, then'.value.state, p.value.state)
    decreases |requests|
  {
    hide Admissible;
    hide Loggable;
    hide Live;
    hide Recover;
    hide Handle;
    hide Logged;
    hide InOrder;
    hide SameShape;
    var c := Run(rules, start, requests).value;
    RecoveryExactly(rules, origin, start, requests);
    if n == |c.log| {
      assert c.log[..n] == c.log && requests[..|requests|] == requests;
    } else {
      var m := |requests| - 1;
      var before := Run(rules, start, requests[..m]).value;
      LogGrows(rules, before, requests[m]);
      var j := Moment(rules, start, requests[..m], n);
      assert requests[..m][..j] == requests[..j];
      if n <= |before.log| {
        EveryPrefixRecovers(rules, origin, start, requests[..m], n);
        assert c.log[..n] == before.log[..n];
      } else {
        MidRequest(rules, origin, start, requests[..m], requests[m], n - |before.log|);
        assert requests[..m][..m] == requests[..m];
        assert c.log[..n] == before.log + Logged(rules, before, requests[m])[..n - |before.log|];
      }
    }
  }

  /** The case of a prefix that ends within what one request logged. */
  lemma MidRequest(rules: Rules, origin: Collection, start: Collection, earlier: seq<Request>, request: Request, k: nat)
    requires Recovers(rules, origin, start)
    requires AllAdmissible(rules, start, earlier) && AllLoggable(rules, start, earlier)
    requires Run(rules, start, earlier).Some? && Loggable(rules, Run(rules, start, earlier).value, request)
    requires k < |Logged(rules, Run(rules, start, earlier).value, request)|
    ensures var c := Run(rules, start, earlier).value;
            var p := Replay(rules, origin, c.log + Logged(rules, c, request)[..k]);
            p.Some? && SameContents(rules, c.state, p.value.state)
  {
    hide Recover;
    hide Run;
    hide AllAdmissible;
    hide AllLoggable;
    hide Replay;
    hide Commit;
    hide InOrder;
    hide SameShape;
    hide Succeeds;
    hide Creatable;
    hide Droppable;
    RecoveryExactly(rules, origin, start, earlier);
    var c := Run(rules, start, earlier).value;
    var r := Replay(rules, origin, c.log).value;
    ReplayAppend(rules, origin, c.log, Logged(rules, c, request)[..k]);
    if Commits(c, request) {
      CommitInOrder(rules, c.state, c.xactions[request.name].value);
    }
    LoggedPrefix(rules, c, r, request, k);
  }

  // --------------------------------------------------------- unreadable logs

  /** A request about a view that is not there is refused, and its record cannot be replayed. */
  lemma RefusedDropCounterexample(rules: Rules, rootInfo: Ad)
    ensures var requests := [Drop("x")];
            var c := Run(rules, Start(rootInfo), requests);
            && c.Some? && c.value.state == Start(rootInfo).state && c.value.log == [DropRecord("x")]
            && Replay(rules, Start(rootInfo), c.value.log) == None
  {
    var q := [Drop("x")];
    assert q[..0] == [];
    assert "x" != "root" by {
      assert |"x"| != |"root"|;
    }
    assert Run(rules, Start(rootInfo), q[..0]) == Some(Start(rootInfo));
    ReplayOne(rules, Start(rootInfo), DropRecord("x"));
  }

  /** A transaction name used twice: both commits succeed, and the log cannot be replayed. */
  lemma ReusedNameCounterexample(rules: Rules, rootInfo: Ad)
    ensures var requests := [Open("t"), Close("t", true), Open("t"), Close("t", true)];
            var c := Run(rules, Start(rootInfo), requests);
            && c.Some? && c.value.log == XactionLog("t", []) + XactionLog("t", [])
            && Replay(rules, Start(rootInfo), c.value.log) == None
  {
    hide Replay;
    var q := [Open("t"), Close("t", true), Open("t"), Close("t", true)];
    var c0 := Start(rootInfo);
    var open := c0.(xactions := map["t" := Some([])], current := "t");
    var closed := c0.(current := "t", log := XactionLog("t", []));
    var open2 := closed.(xactions := map["t" := Some([])]);
    var closed2 := closed.(log := XactionLog("t", []) + XactionLog("t", []));
    assert Run(rules, Start(rootInfo), q[..1]) == Some(open) by {
      assert q[..1][..0] == [] && q[..1][0] == q[0];
    }
    assert Run(rules, Start(rootInfo), q[..2]) == Some(closed) by {
      assert q[..2][..1] == q[..1] && q[..2][1] == q[1];
      EmptyCommit(rules, open);
      assert [] + XactionLog("t", []) == XactionLog("t", []);
      assert Handle(rules, open, q[1]) == Reply(Done, closed);
    }
    assert Run(rules, Start(rootInfo), q[..3]) == Some(open2) by {
      assert q[..3][..2] == q[..2] && q[..3][2] == q[2];
    }
    assert Run(rules, Start(rootInfo), q) == Some(closed2) by {
      assert q[..4] == q;
      EmptyCommit(rules, open2);
    }
    XactionReplayed(rules, c0, "t", []);
    ReplayAppend(rules, c0, XactionLog("t", []), XactionLog("t", []));
    var e := Commit(rules, c0.state, []);
    assert e.status.Done?;
    XactionReplayed(rules, c0.(xactions := map["t" := None], state := e.state), "t", []);
  }

  lemma EmptyCommit(rules: Rules, c: Collection)
    requires c.xactions == map["t" := Some([])]
    ensures Handle(rules, c, Close("t", true))
         == Reply(Done, c.(xactions := map[], log := c.log + XactionLog("t", [])))
  {
    assert c.xactions - {"t"} == map[];
  }
}
