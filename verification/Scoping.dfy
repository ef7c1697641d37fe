/** Which ad a name is looked up in: attributes are found in the nearest enclosing ad that binds them. */
module Scoping {
  import opened Text
  import opened Expressions
  import opened Operators
  import opened Evaluation
  import opened SingleAd

  /** The `i`th ad of the chain binds the name, and no ad inside it does. */
  ghost predicate BindsFirst(scope: seq<Expr>, name: string, i: nat) {
    && i < |scope| && Lookup(Attributes(scope[i]), name).Some?
    && forall j :: 0 <= j < i ==> Lookup(Attributes(scope[j]), name).None?
  }

  /** No ad of the chain binds the name. */
  ghost predicate BindsNowhere(scope: seq<Expr>, name: string) {
    forall j :: 0 <= j < |scope| ==> Lookup(Attributes(scope[j]), name).None?
  }

  /** The value of an attribute found in the `i`th ad of a chain: its expression, evaluated where the ad
      stands. */
  function Found(scope: seq<Expr>, name: string, i: nat, root: seq<Expr>, depth: nat): (r: Option<Value>)
    requires i < |scope| && Lookup(Attributes(scope[i]), name).Some?
  {
    if depth == 0 then None else Eval(Lookup(Attributes(scope[i]), name).value, scope[i..], root, depth - 1)
  }

  lemma {:induction false} NearestBinds(name: string, scope: seq<Expr>, root: seq<Expr>, i: nat)
    requires !Reserved(name) && BindsFirst(scope, name, i)
    ensures LookupInScope(name, scope, root) == Bound(Lookup(Attributes(scope[i]), name).value, scope[i..])
  {
    if i == 0 {
      assert scope[0..] == scope;
    } else {
      assert Lookup(Attributes(scope[0]), name).None?;
      NearestBinds(name, scope[1..], root, i - 1);
      assert scope[1..][i - 1..] == scope[i..];
    }
  }

  lemma {:induction false} NowhereBinds(name: string, scope: seq<Expr>, root: seq<Expr>)
    requires !Reserved(name) && BindsNowhere(scope, name)
    ensures LookupInScope(name, scope, root) == Unbound
  {
    if scope != [] {
      assert Lookup(Attributes(scope[0]), name).None?;
      NowhereBinds(name, scope[1..], root);
    }
  }

  /** A plain reference has the value its nearest binding has where that stands, whatever the root; without
      a binding it is undefined. */
  lemma PlainReference(name: string, scope: seq<Expr>, root: seq<Expr>, depth: nat)
    requires !Reserved(name)
    ensures forall i :: BindsFirst(scope, name, i) ==>
      Eval(Ref(name, false), scope, root, depth) == Found(scope, name, i, root, depth)
    ensures BindsNowhere(scope, name) ==> Eval(Ref(name, false), scope, root, depth) == Some(Undefined)
  {
    var e := Ref(name, false);
    assert Eval(e, scope, root, depth) == Follow(Resolve(name, false, scope, root), root, depth, e);
    forall i | BindsFirst(scope, name, i) ensures Eval(e, scope, root, depth) == Found(scope, name, i, root, depth) {
      NearestBinds(name, scope, root, i);
    }
    if BindsNowhere(scope, name) {
      NowhereBinds(name, scope, root);
    }
  }

  /** An absolute reference is looked up from the root, whatever the scope; without a root it fails. */
  lemma AbsoluteReference(name: string, scope: seq<Expr>, root: seq<Expr>, depth: nat)
    requires !Reserved(name)
    ensures root == [] ==> Eval(Ref(name, true), scope, root, depth) == None
    ensures forall i :: BindsFirst(root, name, i) ==>
      Eval(Ref(name, true), scope, root, depth) == Found(root, name, i, root, depth)
    ensures root != [] && BindsNowhere(root, name) ==> Eval(Ref(name, true), scope, root, depth) == Some(Undefined)
  {
    var e := Ref(name, true);
    assert Eval(e, scope, root, depth) == Follow(Resolve(name, true, scope, root), root, depth, e);
    forall i | BindsFirst(root, name, i) ensures Eval(e, scope, root, depth) == Found(root, name, i, root, depth) {
      NearestBinds(name, root, root, i);
    }
    if BindsNowhere(root, name) {
      NowhereBinds(name, root, root);
    }
  }

  /** The reserved names, where the ad itself does not bind them: `self` is the ad, `parent` the one around
      it, and `root` and `toplevel` the root ad. They use up depth like any reference. */
  lemma ReservedNames(name: string, scope: seq<Expr>, root: seq<Expr>, depth: nat)
    requires scope != [] && Lookup(Attributes(scope[0]), name).None? && depth > 0
    ensures var v := Eval(Ref(name, false), scope, root, depth);
            && (Fold(name) == "self" ==> v == Some(AdValue(scope)))
            && (Fold(name) == "parent" ==> v == Some(if |scope| == 1 then Undefined else AdValue(scope[1..])))
            && (Fold(name) == "root" || Fold(name) == "toplevel" ==>
                  v == if root == [] then None else Some(AdValue(root)))
  {
    assert "self"[0] != "parent"[0] && "self"[0] != "root"[0] && "self"[0] != "toplevel"[0];
    assert "parent"[0] != "root"[0] && "parent"[0] != "toplevel"[0];
    assert |scope| == 1 <==> scope[1..] == [];
  }

  /** A reserved name that the ad binds is an attribute like any other. */
  lemma BoundReservedName(name: string, scope: seq<Expr>, root: seq<Expr>, depth: nat)
    requires scope != [] && Lookup(Attributes(scope[0]), name).Some?
    ensures Eval(Ref(name, false), scope, root, depth) == Found(scope, name, 0, root, depth)
  {
    assert scope[0..] == scope;
    var e := Ref(name, false);
    assert Eval(e, scope, root, depth) == Follow(Resolve(name, false, scope, root), root, depth, e);
  }

  /** A selection looks its attribute up from the selected ad outwards, as a plain reference inside that ad
      would; a selection from undefined is undefined, and from any other value an error. */
  lemma Selection(base: Expr, attr: string, scope: seq<Expr>, root: seq<Expr>, depth: nat)
    ensures var v := Eval(base, scope, root, depth);
            Eval(Select(base, attr), scope, root, depth) ==
            if v.None? then None
            else if v.value.AdValue? then Eval(Ref(attr, false), v.value.scope, root, depth)
            else if v.value.Undefined? then Some(Undefined)
            else Some(Error)
  {
    var v := Eval(base, scope, root, depth);
    if v.Some? && v.value.AdValue? {
      var inner := v.value.scope;
      var t := Resolve(attr, false, inner, root);
      assert Eval(Ref(attr, false), inner, root, depth) == Follow(t, root, depth, Ref(attr, false));
      assert Eval(Select(base, attr), scope, root, depth) == Follow(t, root, depth, Select(base, attr));
    }
  }

  /** An attribute selected from a nested ad: found there, it is evaluated with that ad as the innermost
      scope; otherwise the enclosing ads are asked. */
  lemma NestedAd(attrs: seq<Attr>, attr: string, scope: seq<Expr>, root: seq<Expr>, depth: nat)
    requires !Reserved(attr)
    ensures Eval(Select(Ad(attrs), attr), scope, root, depth) ==
            match Lookup(attrs, attr)
            case Some(e) => if depth == 0 then None else Eval(e, [Ad(attrs)] + scope, root, depth - 1)
            case None => Eval(Ref(attr, false), scope, root, depth)
  {
    var inner := [Ad(attrs)] + scope;
    Selection(Ad(attrs), attr, scope, root, depth);
    assert Eval(Ad(attrs), scope, root, depth) == Some(AdValue(inner));
    var e := Ref(attr, false);
    assert inner[1..] == scope && inner[0] == Ad(attrs);
    assert Eval(e, inner, root, depth) == Follow(Resolve(attr, false, inner, root), root, depth, e);
    if Lookup(attrs, attr).None? {
      assert LookupInScope(attr, inner, root) == LookupInScope(attr, scope, root);
      assert Eval(e, scope, root, depth) == Follow(Resolve(attr, false, scope, root), root, depth, e);
    }
  }

  /** The first definition of a name in an ad counts, and case does not. */
  lemma {:induction false} LookupFirst(attrs: seq<Attr>, name: string)
    ensures Lookup(attrs, name).None? <==> forall i :: 0 <= i < |attrs| ==> Fold(attrs[i].name) != Fold(name)
    ensures forall i :: 0 <= i < |attrs| && Fold(attrs[i].name) == Fold(name)
              && (forall j :: 0 <= j < i ==> Fold(attrs[j].name) != Fold(name))
              ==> Lookup(attrs, name) == Some(attrs[i].expr)
  {
    if attrs != [] && Fold(attrs[0].name) != Fold(name) {
      LookupFirst(attrs[1..], name);
      assert forall i :: 0 < i < |attrs| ==> attrs[i] == attrs[1..][i - 1];
    }
  }
}
