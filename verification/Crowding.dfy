/** A partition that cannot be made because its name is taken: what a refused update then leaves. */
module Crowding {
  import opened Expressions
  import opened Members
  import opened Rosters
  import opened Views
  import opened ViewTheorems
  import opened ViewRegistry
  import opened Transactions
  import opened Collections
  import opened Partitions
  import opened Atomicity
  import opened Runs
  import opened ExactRecovery

  /** The view with the empty description is divided by whether an ad is empty; no other view is divided,
      and all of them are called what the partition of the other ads would be called. */
  function ByEmptiness(): (sem: Semantics) {
    Semantics((info: Ad, ad: Ad) => true, (info: Ad, ad: Ad) => Undefined,
              (info: Ad, ad: Ad) => if info != [] then "" else if ad == [] then "<|a|>" else "<|b|>",
              (info: Ad) => "root:<|b|>")
  }

  function Replacing(): (rules: Rules) {
    Rules(ByEmptiness(), (a: Ad, b: Ad) => b, (a: Ad, b: Ad) => b)
  }

  function JustK(): (r: Roster) {
    Roster([Member(Undefined, "k")], map["k" := Member(Undefined, "k")])
  }

  function SubView(roster: Roster): (v: View) {
    View("root:<|b|>", OUTSIDER, roster, "", [], map[])
  }

  /** One empty ad, in the root and its partition "root:<|a|>" and in the sub-view "root:<|b|>". */
  function Crowded(): (st: State) {
    State(map["k" := []],
          View("root", [], JustK(), "", [SubView(JustK())], map["<|a|>" := JustK()]),
          {"root", "root:<|b|>", "root:<|a|>"})
  }

  /** The root with an empty sub-view. */
  function Waiting(): (st: State) {
    State(map[], View("root", [], NOBODY, "", [SubView(NOBODY)], map[]), {"root", "root:<|b|>"})
  }

  lemma EnrolsK()
    ensures Enrol(NOBODY, "k", Undefined) == JustK()
  {
    assert Placed([], Member(Undefined, "k")) == [Member(Undefined, "k")];
  }

  lemma SubViewCreated()
    ensures ViewCreated(Replacing(), Start([]).state, "root", OUTSIDER) == Effect(Done, Waiting())
  {
    var sem := ByEmptiness();
    assert |"root:<|b|>"| != |"root"|;
    assert Filled(sem, NewView(sem, OUTSIDER), {"root", "root:<|b|>"}, [], map[]).status.Done?;
    assert {"root"} + {"root:<|b|>"} == {"root", "root:<|b|>"};
  }

  lemma KAdded()
    ensures Admitted(Replacing(), Waiting(), "k", []) == Effect(Done, Crowded())
  {
    hide Enrol;
    EnrolsK();
    var sem, reg := ByEmptiness(), {"root", "root:<|b|>"};
    assert InsertedAll(sem, [], reg, "k", []) == Outcomes(Done, [], reg);
    assert Inserted(sem, SubView(NOBODY), reg, "k", []) == Outcome(Done, SubView(JustK()), reg);
    assert [SubView(NOBODY)][1..] == [];
    assert InsertedAll(sem, [SubView(NOBODY)], reg, "k", []) == Outcomes(Done, [SubView(JustK())], reg);
    assert PartName("root", "<|a|>") == "root:<|a|>";
    assert "root:<|a|>"[7] != "root:<|b|>"[7] && |"root:<|a|>"| != |"root"|;
    assert reg + {"root:<|a|>"} == {"root", "root:<|b|>", "root:<|a|>"};
  }

  /** The update makes the ad belong to a partition whose name the sub-view has. */
  lemma UpdateRefused()
    ensures var r := Play(Replacing(), Crowded(), UpdateOp("k", OUTSIDER));
            r.status.Refused? && r.state.table == map["k" := OUTSIDER]
  {
    hide Without;
    var sem, st := ByEmptiness(), Crowded();
    var noted := PreModified(sem, st.root, []);
    assert noted.oldSignature == "<|a|>";
    assert Rerank(JustK(), "k", Undefined) == JustK();
    assert "<|a|>"[2] != "<|b|>"[2];
    assert PartName("root", "<|b|>") == "root:<|b|>";
    assert Moved(noted, st.registry, "k", "<|b|>").status.Refused?;
  }

  lemma CrowdedKept()
    ensures Kept(Replacing(), Crowded())
  {
    var rules := Replacing();
    var st := Start([]).state;
    assert Kept(rules, st) by {
      assert Selected(rules.views, [], map[]) == map[];
      assert PartNames(st.root) == {};
      assert Names(st.root) == multiset{"root"};
    }
    CreatedUnderCurrent(rules.views, st.root, st.registry, "root", OUTSIDER, st.table, st.table);
    CreatedUnderNames(rules.views, st.root, st.registry, "root", OUTSIDER, st.table, multiset{});
    hide Kept;
    SubViewCreated();
    KAdded();
    AdmittedKept(rules, Waiting(), "k", []);
  }

  lemma UpdateClean()
    ensures CleanForward(Replacing(), Crowded(), UpdateOp("k", OUTSIDER))
    ensures CleanBack(Replacing(), Crowded(), UpdateOp("k", OUTSIDER))
  {
    var sem, subs := ByEmptiness(), Crowded().root.subs;
    assert subs[1..] == [];
    assert CleanlyModified(sem, subs[0], [], OUTSIDER) && CleanlyModified(sem, subs[0], OUTSIDER, []);
  }

  /** A commit can be refused by the views, though its one change is clean in both directions; the table
      then stays changed. */
  lemma ViewsRefuseCounterexample()
    ensures var ops := [UpdateOp("k", OUTSIDER)];
            var r := Commit(Replacing(), Crowded(), ops);
            && Kept(Replacing(), Crowded()) && DistinctKeys(ops)
            && CleanForward(Replacing(), Crowded(), ops[0]) && CleanBack(Replacing(), Crowded(), ops[0])
            && r.status.Refused? && r.state.table == map["k" := OUTSIDER] != Crowded().table
  {
    hide Kept;
    hide Play;
    hide CleanForward;
    hide CleanBack;
    var ops := [UpdateOp("k", OUTSIDER)];
    CrowdedKept();
    UpdateClean();
    UpdateRefused();
    assert Forward(Replacing(), Crowded(), ops).backups == [];
    assert ops[..0] == [];
    assert Crowded().table["k"] == [];
  }

  function FirstRequests(): (rs: seq<Request>) {
    [Create("root", OUTSIDER), Ask(AddOp("k", []))]
  }

  /** The crowded collection and its log. */
  function CrowdedCollection(): (c: Collection) {
    Collection(Crowded(), map[], "", [CreateRecord("root", OUTSIDER), AdRecord(None, AddOp("k", []))])
  }

  lemma OneRequest(rules: Rules, start: Collection, rs: seq<Request>, c: Collection)
    requires |rs| == 1 && rs[0].Create? && Handle(rules, start, rs[0]) == Reply(Done, c)
    ensures Run(rules, start, rs) == Some(c) && AllAnswered(rules, start, rs) && NoneReuses(rules, start, rs)
  {
    hide Handle;
    assert rs[..0] == [];
    assert Run(rules, start, []) == Some(start);
    assert AllAnswered(rules, start, []) && NoneReuses(rules, start, []);
  }

  lemma CrowdedRun()
    ensures var rs := FirstRequests();
            && AllAnswered(Replacing(), Start([]), rs) && NoneReuses(Replacing(), Start([]), rs)
            && Run(Replacing(), Start([]), rs) == Some(CrowdedCollection())
  {
    hide ViewCreated;
    hide Admitted;
    SubViewCreated();
    KAdded();
    var rules, rs := Replacing(), FirstRequests();
    var c1 := Collection(Waiting(), map[], "", [CreateRecord("root", OUTSIDER)]);
    assert Handle(rules, Start([]), rs[0]) == Reply(Done, c1);
    OneRequest(rules, Start([]), rs[..1], c1);
    assert Handle(rules, c1, rs[1]) == Reply(Done, CrowdedCollection());
  }

  /** The same update made directly, after two requests on an empty collection: it is refused, nothing is
      logged, and the log no longer rebuilds the table. */
  lemma RefusedUpdateCounterexample()
    ensures var c := CrowdedCollection();
            var r := Handle(Replacing(), c, Ask(UpdateOp("k", OUTSIDER)));
            && Run(Replacing(), Start([]), FirstRequests()) == Some(c) && Rebuilds(Replacing(), Start([]), c)
            && r.status.Refused? && r.coll.log == c.log && r.coll.state.table != c.state.table
            && !Rebuilds(Replacing(), Start([]), r.coll)
  {
    hide Run;
    hide AllAnswered;
    hide NoneReuses;
    hide Replay;
    hide Play;
    CrowdedRun();
    FreshRebuilds(Replacing(), []);
    AnsweredRunRebuilds(Replacing(), Start([]), Start([]), FirstRequests());
    UpdateRefused();
    assert Crowded().table["k"] == [];
  }
}
