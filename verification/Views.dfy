/** The view tree of a collection. Each view keeps the ads of its parent that satisfy its
    constraint, in rank order, and divides them into partitions by signature. */
module Views {
  import opened Expressions
  import opened Members
  import opened Rosters

  type Ad = seq<Attr>

  /** What a view's description says about an ad: whether it meets the constraint, its rank, its
      partition signature (empty in an unpartitioned view), and what the view is called. */
  datatype Semantics = Semantics(
    matches: (Ad, Ad) -> bool,
    rank: (Ad, Ad) -> Value,
    signature: (Ad, Ad) -> string,
    viewName: Ad -> string)

  /** Partitions made by the view itself accept every ad with undefined rank and have no children,
      so each is just a roster. */
  datatype View = View(
    name: string,
    info: Ad,
    roster: Roster,
    oldSignature: string,
    subs: seq<View>,
    parts: map<string, Roster>)

  /** Refused is the return value false. Thrown is an internal-error exception. */
  datatype Status = Done | Refused | Thrown

  datatype Outcome = Outcome(status: Status, view: View, registry: set<string>)

  datatype Outcomes = Outcomes(status: Status, views: seq<View>, registry: set<string>)

  function PartName(view: string, signature: string): (name: string) {
    view + ":" + signature
  }

  // -------------------------------------------------------------- insertion

  function Inserted(sem: Semantics, v: View, registry: set<string>, key: Key, ad: Ad): (r: Outcome)
    decreases v
  {
    if !sem.matches(v.info, ad) then Outcome(Done, v, registry)
    else
      var below := InsertedAll(sem, v.subs, registry, key, ad);
      var v1 := v.(subs := below.views);
      if !below.status.Done? then Outcome(below.status, v1, below.registry)
      else
        var filed := Filed(v1, below.registry, key, sem.signature(v.info, ad));
        if !filed.status.Done? then filed
        else filed.(view := filed.view.(roster := Enrol(v.roster, key, sem.rank(v.info, ad))))
  }

  function InsertedAll(sem: Semantics, vs: seq<View>, registry: set<string>, key: Key, ad: Ad): (r: Outcomes)
    decreases vs
  {
    if vs == [] then Outcomes(Done, [], registry)
    else
      var first := Inserted(sem, vs[0], registry, key, ad);
      if !first.status.Done? then Outcomes(first.status, [first.view] + vs[1..], first.registry)
      else
        var rest := InsertedAll(sem, vs[1..], first.registry, key, ad);
        rest.(views := [first.view] + rest.views)
  }

  /** The ad goes into the partition of its signature, which is made and registered if need be. */
  function Filed(v: View, registry: set<string>, key: Key, signature: string): (r: Outcome) {
    if signature == "" then Outcome(Done, v, registry)
    else if signature in v.parts then
      Outcome(Done, v.(parts := v.parts[signature := Enrol(v.parts[signature], key, Undefined)]), registry)
    else if PartName(v.name, signature) in registry then Outcome(Refused, v, registry)
    else
      Outcome(Done, v.(parts := v.parts[signature := Enrol(NOBODY, key, Undefined)]),
              registry + {PartName(v.name, signature)})
  }

  // --------------------------------------------------------------- deletion

  /** None is the internal-error exception for a missing partition. */
  function Deleted(sem: Semantics, v: View, key: Key, ad: Ad): (r: Option<View>)
    ensures r.Some? ==> r.value.info == v.info && r.value.name == v.name
    decreases v
  {
    if key !in v.roster.index then Some(v)
    else
      match DeletedAll(sem, v.subs, key, ad)
      case None => None
      case Some(subs) =>
        var v1 := v.(subs := subs, roster := Dismiss(v.roster, key));
        Unfiled(v1, key, sem.signature(v.info, ad))
  }

  function DeletedAll(sem: Semantics, vs: seq<View>, key: Key, ad: Ad): (r: Option<seq<View>>)
    decreases vs
  {
    if vs == [] then Some([])
    else
      match Deleted(sem, vs[0], key, ad)
      case None => None
      case Some(first) =>
        match DeletedAll(sem, vs[1..], key, ad)
        case None => None
        case Some(rest) => Some([first] + rest)
  }

  function Unfiled(v: View, key: Key, signature: string): (r: Option<View>) {
    if signature == "" then Some(v)
    else if signature !in v.parts then None
    else Some(v.(parts := v.parts[signature := Dismiss(v.parts[signature], key)]))
  }

  // ----------------------------------------------------------- modification

  /** Every view notes the signature the ad has before it is changed. */
  function PreModified(sem: Semantics, v: View, ad: Ad): (r: View)
    decreases v
  {
    v.(oldSignature := sem.signature(v.info, ad), subs := PreModifiedAll(sem, v.subs, ad))
  }

  function PreModifiedAll(sem: Semantics, vs: seq<View>, ad: Ad): (r: seq<View>)
    decreases vs
  {
    if vs == [] then [] else [PreModified(sem, vs[0], ad)] + PreModifiedAll(sem, vs[1..], ad)
  }

  function Modified(sem: Semantics, v: View, registry: set<string>, key: Key, ad: Ad): (r: Outcome)
    decreases v
  {
    var wasMember, match' := key in v.roster.index, sem.matches(v.info, ad);
    if wasMember && match' then
      var v1 := v.(roster := Rerank(v.roster, key, sem.rank(v.info, ad)));
      var moved := Moved(v1, registry, key, sem.signature(v.info, ad));
      if !moved.status.Done? then moved
      else
        var below := ModifiedAll(sem, v.subs, moved.registry, key, ad);
        var v2 := moved.view.(subs := below.views);
        Outcome(below.status, if below.status.Done? then v2.(oldSignature := "") else v2, below.registry)
    else if match' then
      var r := Inserted(sem, v, registry, key, ad);
      r.(view := r.view.(oldSignature := ""))
    else if wasMember then
      match Deleted(sem, v, key, ad)
      case None => Outcome(Thrown, v, registry)
      case Some(v') => Outcome(Done, v'.(oldSignature := ""), registry)
    else Outcome(Done, v.(oldSignature := ""), registry)
  }

  function ModifiedAll(sem: Semantics, vs: seq<View>, registry: set<string>, key: Key, ad: Ad): (r: Outcomes)
    decreases vs
  {
    if vs == [] then Outcomes(Done, [], registry)
    else
      var first := Modified(sem, vs[0], registry, key, ad);
      if !first.status.Done? then Outcomes(first.status, [first.view] + vs[1..], first.registry)
      else
        var rest := ModifiedAll(sem, vs[1..], first.registry, key, ad);
        rest.(views := [first.view] + rest.views)
  }

  /** An ad whose signature has changed moves from the noted partition to the new one. */
  function Moved(v: View, registry: set<string>, key: Key, signature: string): (r: Outcome) {
    if signature == v.oldSignature then Outcome(Done, v, registry)
    else
      match Unfiled(v, key, v.oldSignature)
      case None => Outcome(Thrown, v, registry)
      case Some(v') => Filed(v', registry, key, signature)
  }

  // -------------------------------------------------------------- sub-views

  /** The members of a view are put one by one into a new view below it. */
  function Filled(sem: Semantics, v: View, registry: set<string>, ms: seq<Member>, table: map<Key, Ad>): (r: Outcome)
    decreases |ms|
  {
    if ms == [] then Outcome(Done, v, registry)
    else if ms[0].key !in table then Outcome(Thrown, v, registry)
    else
      var r := Inserted(sem, v, registry, ms[0].key, table[ms[0].key]);
      if !r.status.Done? then r else Filled(sem, r.view, r.registry, ms[1..], table)
  }

  function NewView(sem: Semantics, info: Ad): (v: View) {
    View(sem.viewName(info), info, NOBODY, "", [], map[])
  }

  /** A new view becomes the first of its parent's sub-views. */
  function Created(sem: Semantics, v: View, registry: set<string>, info: Ad, table: map<Key, Ad>): (r: Outcome) {
    var name := sem.viewName(info);
    if name in registry then Outcome(Refused, v, registry)
    else
      var filled := Filled(sem, NewView(sem, info), registry + {name}, v.roster.members, table);
      filled.(view := v.(subs := [filled.view] + v.subs))
  }

  /** The names of a view and everything below it leave the registry. */
  function Unregistered(v: View, registry: set<string>): (r: set<string>)
    decreases v
  {
    UnregisteredAll(v.subs, registry - {v.name}) - set s | s in v.parts :: PartName(v.name, s)
  }

  function UnregisteredAll(vs: seq<View>, registry: set<string>): (r: set<string>)
    decreases vs
  {
    if vs == [] then registry else UnregisteredAll(vs[1..], Unregistered(vs[0], registry))
  }

  /** The first sub-view of that name is taken out, or None if there is none. */
  function Dropped(vs: seq<View>, registry: set<string>, name: string): (r: Option<(seq<View>, set<string>)>) {
    if vs == [] then None
    else if vs[0].name == name then Some((vs[1..], Unregistered(vs[0], registry)))
    else
      match Dropped(vs[1..], registry, name)
      case None => None
      case Some((rest, registry')) => Some(([vs[0]] + rest, registry'))
  }

  predicate HasView(v: View, name: string)
    decreases v
  {
    v.name == name || HasViewAll(v.subs, name)
  }

  predicate HasViewAll(vs: seq<View>, name: string)
    decreases vs
  {
    vs != [] && (HasView(vs[0], name) || HasViewAll(vs[1..], name))
  }

  /** A view is created below the view called `parent`; refused if there is none. */
  function CreatedUnder(
    sem: Semantics, v: View, registry: set<string>, parent: string, info: Ad, table: map<Key, Ad>): (r: Outcome)
    decreases v
  {
    if v.name == parent then Created(sem, v, registry, info, table)
    else
      var below := CreatedUnderAll(sem, v.subs, registry, parent, info, table);
      Outcome(below.status, v.(subs := below.views), below.registry)
  }

  function CreatedUnderAll(
    sem: Semantics, vs: seq<View>, registry: set<string>, parent: string, info: Ad, table: map<Key, Ad>): (r: Outcomes)
    decreases vs
  {
    if vs == [] then Outcomes(Refused, [], registry)
    else if HasView(vs[0], parent) then
      var first := CreatedUnder(sem, vs[0], registry, parent, info, table);
      Outcomes(first.status, [first.view] + vs[1..], first.registry)
    else
      var rest := CreatedUnderAll(sem, vs[1..], registry, parent, info, table);
      rest.(views := [vs[0]] + rest.views)
  }

  /** The sub-view of that name is taken out, wherever it is; refused if there is none. */
  function Discarded(v: View, registry: set<string>, name: string): (r: Outcome)
    decreases v
  {
    match Dropped(v.subs, registry, name)
    case Some((subs, registry')) => Outcome(Done, v.(subs := subs), registry')
    case None =>
      var below := DiscardedAll(v.subs, registry, name);
      Outcome(below.status, v.(subs := below.views), below.registry)
  }

  function DiscardedAll(vs: seq<View>, registry: set<string>, name: string): (r: Outcomes)
    decreases vs
  {
    if vs == [] then Outcomes(Refused, [], registry)
    else
      var first := Discarded(vs[0], registry, name);
      if first.status.Done? then Outcomes(Done, [first.view] + vs[1..], first.registry)
      else
        var rest := DiscardedAll(vs[1..], registry, name);
        rest.(views := [vs[0]] + rest.views)
  }

  // ------------------------------------------------------------ being current

  /** The ads that satisfy a view's constraint. */
  function Selected(sem: Semantics, info: Ad, content: map<Key, Ad>): (r: map<Key, Ad>) {
    map k | k in content && sem.matches(info, content[k]) :: content[k]
  }

  /** The ranks this view gives are numbers or strings, or do not depend on the ad; and it has
      partition expressions or not, whatever the ad. */
  ghost predicate Steady(sem: Semantics, info: Ad) {
    && (forall a, b :: SteadyRanks(sem.rank(info, a), sem.rank(info, b)))
    && (forall a, b :: sem.signature(info, a) == "" ==> sem.signature(info, b) == "")
  }

  /** The roster holds exactly these ads, in rank order, with the ranks they have now. */
  ghost predicate RosterCurrent(sem: Semantics, info: Ad, r: Roster, members: map<Key, Ad>) {
    && Sound(r)
    && r.index.Keys == members.Keys
    && forall k :: k in members ==> Carries(r.index[k].rank, sem.rank(info, members[k]))
  }

  /** The partition holds exactly the members of that signature, all with undefined rank. */
  ghost predicate PartCurrent(sem: Semantics, info: Ad, signature: string, r: Roster, members: map<Key, Ad>) {
    && Sound(r)
    && (forall k :: k in r.index <==> k in members && sem.signature(info, members[k]) == signature)
    && (forall k :: k in r.index ==> r.index[k].rank.Undefined?)
  }

  /** Every member is in the partition of its signature and in no other. */
  ghost predicate PartsCurrent(sem: Semantics, info: Ad, parts: map<string, Roster>, members: map<Key, Ad>) {
    && "" !in parts
    && (forall s :: s in parts ==> PartCurrent(sem, info, s, parts[s], members))
    && (forall k :: k in members ==> HasPart(sem.signature(info, members[k]), parts))
  }

  predicate HasPart(signature: string, parts: map<string, Roster>) {
    signature != "" ==> signature in parts
  }

  /** A view, its partitions and the views below it are what a plain filter of the content gives. */
  ghost predicate Current(sem: Semantics, v: View, content: map<Key, Ad>)
    decreases v
  {
    var members := Selected(sem, v.info, content);
    && Steady(sem, v.info)
    && RosterCurrent(sem, v.info, v.roster, members)
    && PartsCurrent(sem, v.info, v.parts, members)
    && CurrentAll(sem, v.subs, members)
  }

  ghost predicate CurrentAll(sem: Semantics, vs: seq<View>, content: map<Key, Ad>)
    decreases vs
  {
    vs != [] ==> Current(sem, vs[0], content) && CurrentAll(sem, vs[1..], content)
  }

  /** The names of a view, its sub-views and its partitions. */
  ghost function Names(v: View): (r: multiset<string>)
    decreases v
  {
    multiset{v.name} + NamesAll(v.subs) + multiset(set s | s in v.parts :: PartName(v.name, s))
  }

  ghost function NamesAll(vs: seq<View>): (r: multiset<string>)
    decreases vs
  {
    if vs == [] then multiset{} else Names(vs[0]) + NamesAll(vs[1..])
  }
}
