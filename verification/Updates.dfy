/** Updating one ad by another: the rule that the library has for update requests. */
module Updates {
  import opened Text
  import opened Expressions
  import opened Members
  import opened Views
  import opened Grammar
  import opened Printing
  import opened Spellings
  import opened Transactions
  import opened Collections
  import opened Orderly
  import opened Sessions

  /** Every attribute of `upd` is inserted into `ad`. */
  function Updated(ad: Ad, upd: Ad): (r: Ad)
    decreases |upd|
  {
    if upd == [] then ad else Updated(Insert(ad, upd[0].name, upd[0].expr), upd[1..])
  }

  /** The loop over the attributes of the other ad. */
  method Update(ad: Ad, upd: Ad) returns (r: Ad)
    ensures r == Updated(ad, upd)
  {
    hide Insert;
    r := ad;
    assert upd[0..] == upd;
    for i := 0 to |upd|
      invariant Updated(ad, upd) == Updated(r, upd[i..])
    {
      assert upd[i..][0] == upd[i] && upd[i..][1..] == upd[i + 1..];
      r := Insert(r, upd[i].name, upd[i].expr);
    }
  }

  /** After the update each attribute has what the other ad says, or, where that says nothing, what it had. */
  lemma {:induction false} UpdatedMeans(ad: Ad, upd: Ad, name: string)
    requires Distinct(upd)
    ensures Lookup(Updated(ad, upd), name) == if Lookup(upd, name).Some? then Lookup(upd, name) else Lookup(ad, name)
    decreases |upd|
  {
    if upd != [] {
      hide Insert;
      hide Fold;
      var a := upd[0];
      DistinctAfter(upd);
      UpdatedMeans(Insert(ad, a.name, a.expr), upd[1..], name);
      InsertMeans(ad, a.name, a.expr, name);
      FirstIsOnly(upd, name);
    }
  }

  lemma DistinctAfter(upd: Ad)
    requires Distinct(upd) && upd != []
    ensures Distinct(upd[1..])
  {
    hide SameName;
  }

  lemma FirstIsOnly(upd: Ad, name: string)
    requires Distinct(upd) && upd != []
    ensures SameName(upd[0].name, name) ==> Lookup(upd[1..], name).None?
  {
    hide Lookup;
    hide Fold;
    if SameName(upd[0].name, name) && Lookup(upd[1..], name).Some? {
      EarlierName(upd[1..], name);
      assert false;
    }
  }

  lemma {:induction false} EarlierName(attrs: seq<Attr>, name: string)
    requires Lookup(attrs, name).Some?
    ensures exists i :: 0 <= i < |attrs| && SameName(attrs[i].name, name)
  {
    if !SameName(attrs[0].name, name) {
      EarlierName(attrs[1..], name);
      var i :| 0 <= i < |attrs[1..]| && SameName(attrs[1..][i].name, name);
      assert SameName(attrs[i + 1].name, name);
    }
  }

  /** An update request under this rule changes exactly the attributes it names, of exactly the ad it names. */
  lemma UpdateRequest(rules: Rules, c: Collection, key: Key, upd: Ad, name: string, other: Key)
    requires InOrder(rules, c.state) && c.current == "" && key in c.state.table && Distinct(upd)
    requires rules.updated == Updated
    ensures var r := Handle(rules, c, Ask(UpdateOp(key, upd)));
            && r.status.Done? && key in r.coll.state.table
            && Lookup(r.coll.state.table[key], name)
               == (if Lookup(upd, name).Some? then Lookup(upd, name) else Lookup(c.state.table[key], name))
            && (other != key ==> Get(r.coll.state.table, other) == Get(c.state.table, other))
  {
    hide InOrder;
    hide Handle;
    DirectRequests(rules, c, key, upd);
    UpdatedMeans(c.state.table[key], upd, name);
  }
}
