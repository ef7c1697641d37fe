/** A collection: the table of ads, the view tree over it, open transactions and the log; its local
    interface, and the recovery of a collection from a log. The cache is off. */
module Collections {
  import opened Expressions
  import opened Members
  import opened Rosters
  import opened Views
  import opened Transactions

  datatype State = State(table: Table, root: View, registry: set<string>)

  /** Refused is the return value false; Thrown is an exception or a bad pointer. */
  datatype Effect = Effect(status: Status, state: State)

  // --------------------------------------------------------- one operation

  /** The views drop the ad of a key; the table still has to. */
  function Withdrawn(rules: Rules, st: State, key: Key): (r: Effect)
    requires key in st.table
  {
    match Deleted(rules.views, st.root, key, st.table[key])
    case None => Effect(Thrown, st)
    case Some(root) => Effect(Done, st.(table := st.table - {key}, root := root))
  }

  /** The views take in the ad of a key that is not in the table. */
  function Admitted(rules: Rules, st: State, key: Key, ad: Ad): (r: Effect) {
    var r := Inserted(rules.views, st.root, st.registry, key, ad);
    var table := if r.status.Done? then st.table[key := ad] else st.table;
    Effect(r.status, State(table, r.view, r.registry))
  }

  /** An ad is changed in place, and the views are told before and after. */
  function Changed(rules: Rules, st: State, key: Key, ad: Ad): (r: Effect)
    requires key in st.table
  {
    var noted := PreModified(rules.views, st.root, st.table[key]);
    var r := Modified(rules.views, noted, st.registry, key, ad);
    Effect(r.status, State(st.table[key := ad], r.view, r.registry))
  }

  /** One operation as a transaction or a recovery plays it. */
  function Play(rules: Rules, st: State, op: Op): (r: Effect) {
    if !Applies(op, st.table) then Effect(Refused, st)
    else
      match op
      case AddOp(key, ad) =>
        if key !in st.table then Admitted(rules, st, key, ad)
        else
          var r := Withdrawn(rules, st, key);
          if r.status.Done? then Admitted(rules, r.state, key, ad) else r
      case UpdateOp(key, ad) => Changed(rules, st, key, rules.updated(st.table[key], ad))
      case ModifyOp(key, ad) => Changed(rules, st, key, rules.modified(st.table[key], ad))
      case RemoveOp(key) => Withdrawn(rules, st, key)
  }

  /** One operation made directly. It differs from playing it in two ways: removing what is not there
      succeeds, and when the views refuse an ad that was to replace another, the old one goes back
      into the table, though not into the views. */
  function Direct(rules: Rules, st: State, op: Op): (r: Effect) {
    if op.RemoveOp? && op.key !in st.table then Effect(Done, st)
    else
      var r := Play(rules, st, op);
      if op.AddOp? && r.status.Refused? && op.key in st.table then
        r.(state := r.state.(table := r.state.table[op.key := st.table[op.key]]))
      else r
  }

  // ----------------------------------------------------------- transactions

  datatype Journey = Journey(status: Status, state: State, backups: seq<Option<Ad>>)

  function Forward(rules: Rules, st: State, ops: seq<Op>): (r: Journey)
    ensures |r.backups| <= |ops|
    decreases |ops|
  {
    if ops == [] then Journey(Done, st, [])
    else
      var first := Play(rules, st, ops[0]);
      if !first.status.Done? then Journey(first.status, first.state, [])
      else
        var rest := Forward(rules, first.state, ops[1..]);
        rest.(backups := [Get(st.table, ops[0].key)] + rest.backups)
  }

  /** Undoing one operation in the table and the views. What the views answer when an ad is put back
      to its old form is not looked at. */
  function UndoOne(rules: Rules, st: State, op: Op, backup: Option<Ad>): (r: Effect) {
    if op.RemoveOp? then
      if backup.None? then Effect(Done, st) else Admitted(rules, st, op.key, backup.value)
    else if op.key !in st.table then Effect(Thrown, st)
    else if backup.None? then Withdrawn(rules, st, op.key)
    else
      var r := Changed(rules, st, op.key, backup.value);
      if r.status.Thrown? then r else r.(status := Done)
  }

  function Undo(rules: Rules, st: State, ops: seq<Op>, backups: seq<Option<Ad>>): (r: Effect)
    requires |ops| == |backups|
    decreases |ops|
  {
    if ops == [] then Effect(Done, st)
    else
      var first := UndoOne(rules, st, ops[0], backups[0]);
      if first.status.Done? then Undo(rules, first.state, ops[1..], backups[1..]) else first
  }

  /** All the operations, or, when one fails, those before it undone. */
  function Commit(rules: Rules, st: State, ops: seq<Op>): (r: Effect) {
    var f := Forward(rules, st, ops);
    if !f.status.Refused? then Effect(f.status, f.state)
    else
      var u := Undo(rules, f.state, ops[..|f.backups|], f.backups);
      if u.status.Done? then u.(status := Refused) else u
  }

  // --------------------------------------------------------- local interface

  datatype Record =
    | AdRecord(xaction: Option<string>, op: Op)
    | OpenRecord(name: string)
    | CommitRecord(name: string)
    | CreateRecord(parent: string, info: Ad)
    | DropRecord(name: string)

  /** A transaction table entry is a transaction, or None once it is known only to be committed. */
  datatype Collection = Collection(
    state: State,
    xactions: map<string, Option<seq<Op>>>,
    current: string,
    log: seq<Record>)

  datatype Request =
    | Ask(op: Op)
    | Open(name: string)
    | Switch(name: string)
    | Close(name: string, commit: bool)
    | Create(parent: string, info: Ad)
    | Drop(name: string)

  datatype Reply = Reply(status: Status, coll: Collection)

  function Start(rootInfo: Ad): (c: Collection) {
    Collection(State(map[], View("root", rootInfo, NOBODY, "", [], map[]), {"root"}), map[], "", [])
  }

  function ViewCreated(rules: Rules, st: State, parent: string, info: Ad): (r: Effect) {
    var r := CreatedUnder(rules.views, st.root, st.registry, parent, info, st.table);
    Effect(r.status, State(st.table, r.view, r.registry))
  }

  function ViewDropped(st: State, name: string): (r: Effect) {
    if name !in st.registry || name == st.root.name then Effect(Refused, st)
    else
      var r := Discarded(st.root, st.registry, name);
      Effect(r.status, State(st.table, r.view, r.registry))
  }

  function XactionRecords(name: string, ops: seq<Op>): (r: seq<Record>)
    ensures |r| == |ops|
  {
    if ops == [] then [] else [AdRecord(Some(name), ops[0])] + XactionRecords(name, ops[1..])
  }

  /** What a committed transaction writes. */
  function XactionLog(name: string, ops: seq<Op>): (r: seq<Record>) {
    [OpenRecord(name)] + XactionRecords(name, ops) + [CommitRecord(name)]
  }

  function HandleAsk(rules: Rules, c: Collection, op: Op): (r: Reply) {
    if c.current != "" then
      if c.current !in c.xactions then Reply(Refused, c)
      else if c.xactions[c.current].None? then Reply(Thrown, c)
      else Reply(Done, c.(xactions := c.xactions[c.current := Some(c.xactions[c.current].value + [op])]))
    else
      var e := Direct(rules, c.state, op);
      var idle := op.RemoveOp? && op.key !in c.state.table;
      Reply(e.status, c.(state := e.state,
                         log := if e.status.Done? && !idle then c.log + [AdRecord(None, op)] else c.log))
  }

  /** Closing does not make another transaction current: the closed one stays so by name. */
  function HandleClose(rules: Rules, c: Collection, name: string, commit: bool): (r: Reply) {
    if name !in c.xactions then Reply(Refused, c)
    else
      var left := c.xactions - {name};
      if !commit then Reply(Done, c.(xactions := left))
      else if c.xactions[name].None? then Reply(Thrown, c)
      else
        var ops := c.xactions[name].value;
        var e := Commit(rules, c.state, ops);
        Reply(e.status, c.(state := e.state, xactions := left,
                           log := if e.status.Done? then c.log + XactionLog(name, ops) else c.log))
  }

  /** Requests about views are logged before they are tried. */
  function Handle(rules: Rules, c: Collection, request: Request): (r: Reply) {
    match request
    case Ask(op) => HandleAsk(rules, c, op)
    case Open(name) =>
      if name in c.xactions then Reply(Refused, c)
      else Reply(Done, c.(xactions := c.xactions[name := Some([])], current := name))
    case Switch(name) =>
      if name == "" || (name in c.xactions && c.xactions[name].Some?) then Reply(Done, c.(current := name))
      else Reply(Refused, c)
    case Close(name, commit) => HandleClose(rules, c, name, commit)
    case Create(parent, info) =>
      var e := ViewCreated(rules, c.state, parent, info);
      Reply(e.status, c.(state := e.state, log := c.log + [CreateRecord(parent, info)]))
    case Drop(name) =>
      var e := ViewDropped(c.state, name);
      Reply(e.status, c.(state := e.state, log := c.log + [DropRecord(name)]))
  }

  // --------------------------------------------------------------- recovery

  function Accepted(c: Collection, e: Effect): (r: Option<Collection>) {
    if e.status.Done? then Some(c.(state := e.state)) else None
  }

  /** One log record played; None if recovery fails on it. A committed transaction leaves its name
      behind in the transaction table. */
  function Recover(rules: Rules, c: Collection, rec: Record): (r: Option<Collection>) {
    match rec
    case OpenRecord(name) => if name in c.xactions then None else Some(c.(xactions := c.xactions[name := Some([])]))
    case CommitRecord(name) =>
      if name !in c.xactions || c.xactions[name].None? then None
      else
        var e := Commit(rules, c.state, c.xactions[name].value);
        Accepted(c.(xactions := c.xactions[name := None]), e)
    case AdRecord(Some(name), op) =>
      if name !in c.xactions || c.xactions[name].None? then None
      else Some(c.(xactions := c.xactions[name := Some(c.xactions[name].value + [op])]))
    case AdRecord(None, op) => Accepted(c, Play(rules, c.state, op))
    case CreateRecord(parent, info) => Accepted(c, ViewCreated(rules, c.state, parent, info))
    case DropRecord(name) => Accepted(c, ViewDropped(c.state, name))
  }

  function Replay(rules: Rules, c: Collection, log: seq<Record>): (r: Option<Collection>)
    decreases |log|
  {
    if log == [] then Some(c)
    else
      match Recover(rules, c, log[0])
      case None => None
      case Some(c') => Replay(rules, c', log[1..])
  }

  // ------------------------------------------------------------- compaction

  /** The descriptions of the views below one, parents first. */
  function ViewLog(parent: string, vs: seq<View>): (r: seq<Record>)
    decreases vs
  {
    if vs == [] then []
    else [CreateRecord(parent, vs[0].info)] + ViewLog(vs[0].name, vs[0].subs) + ViewLog(parent, vs[1..])
  }

  /** One record for each of these ads. */
  function AdLog(table: Table, keys: seq<Key>): (r: seq<Record>)
    requires forall k :: k in keys ==> k in table
  {
    if keys == [] then [] else [AdRecord(None, AddOp(keys[0], table[keys[0]]))] + AdLog(table, keys[1..])
  }
}
