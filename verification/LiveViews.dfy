/** The view tree as objects that update themselves in place. */
module LiveViews {
  import opened Expressions
  import Operators
  import opened Members
  import opened Rosters
  import opened Views

  /** The names under which a collection can find its views. */
  class Registry {
    var names: set<string>

    constructor ()
      ensures names == {}
    {
      names := {};
    }

    method RegisterView(name: string) returns (ok: bool)
      modifies this
      ensures ok == (name !in old(names)) && names == old(names) + {name}
    {
      ok := name !in names;
      names := names + {name};
    }

    method UnregisterView(name: string)
      modifies this
      ensures names == old(names) - {name}
    {
      names := names - {name};
    }
  }

  class LiveView {
    var viewName: string
    var info: Ad
    var viewMembers: seq<Member>
    var memberIndex: map<Key, Member>
    var oldAdSignature: string
    var subordinateViews: seq<LiveView>
    var partitionedViews: map<string, Roster>
    ghost var Repr: set<object>

    /** The sub-views are separate trees. */
    ghost predicate Valid()
      reads this, Repr
      ensures Valid() ==> this in Repr
      decreases Repr
    {
      && this in Repr
      && (forall v :: v in subordinateViews ==> v in Repr && v.Repr < Repr && this !in v.Repr && v.Valid())
      && (forall i, j :: 0 <= i < j < |subordinateViews| ==> subordinateViews[i].Repr !! subordinateViews[j].Repr)
    }

    /** The tree as a value. */
    ghost function Model(): (v: View)
      requires Valid()
      reads this, Repr
      decreases Repr, 1
    {
      View(viewName, info, Roster(viewMembers, memberIndex), oldAdSignature, SubModels(0), partitionedViews)
    }

    ghost function SubModels(from: nat): (vs: seq<View>)
      requires Valid() && from <= |subordinateViews|
      reads this, Repr
      ensures |vs| == |subordinateViews| - from
      ensures forall i :: 0 <= i < |vs| ==>
        subordinateViews[from + i] in subordinateViews && vs[i] == subordinateViews[from + i].Model()
      decreases Repr, 0, |subordinateViews| - from
    {
      if from == |subordinateViews| then []
      else
        assert subordinateViews[from] in subordinateViews;
        [subordinateViews[from].Model()] + SubModels(from + 1)
    }

    /** If only what one sub-view owns has changed, the rest of the tree is as it was. */
    twostate lemma OnlyChild(xi: nat)
      requires old(Valid()) && xi < |subordinateViews| && unchanged(this)
      requires unchanged(Repr - {this} - old(subordinateViews[xi].Repr))
      requires subordinateViews[xi].Valid() && subordinateViews[xi].Repr == old(subordinateViews[xi].Repr)
      ensures Valid()
      ensures SubModels(0) == old(SubModels(0))[xi := subordinateViews[xi].Model()]
    {
      var child := subordinateViews[xi];
      assert child in subordinateViews;
      forall v | v in subordinateViews ensures v.Valid() && v.Repr == old(v.Repr) {
        var j :| 0 <= j < |subordinateViews| && subordinateViews[j] == v;
      }
    }

    /** If only this view's own fields have changed, the views below are as they were. */
    twostate lemma OnlyThis()
      requires old(Valid()) && unchanged(this`subordinateViews, this`Repr) && unchanged(Repr - {this})
      ensures Valid()
      ensures SubModels(0) == old(SubModels(0))
    {
    }

    // ------------------------------------------------------------ insertion

    /** Puts an ad into this view and the views below it, if it meets the constraint. */
    method ClassAdInserted(sem: Semantics, registry: Registry, key: Key, ad: Ad) returns (status: Status)
      requires Valid() && registry !in Repr
      modifies Repr, registry
      ensures Valid() && Repr == old(Repr)
      ensures Outcome(status, Model(), registry.names) == Inserted(sem, old(Model()), old(registry.names), key, ad)
      decreases Repr
    {
      hide Filed;
      hide InsertedAll;
      if !sem.matches(info, ad) {
        return Done;
      }
      var rankValue := sem.rank(info, ad);
      status := InsertBelow(sem, registry, key, ad);
      if !status.Done? {
        return;
      }
      status := File(registry, key, sem.signature(info, ad));
      if !status.Done? {
        return;
      }
      AddMember(key, rankValue);
    }

    /** Adds a member and points the index at it. */
    method AddMember(key: Key, rankValue: Value)
      requires Valid()
      modifies this`viewMembers, this`memberIndex
      ensures Valid()
      ensures Model() == old(Model()).(roster := Enrol(old(Model()).roster, key, rankValue))
    {
      var vm := Member(rankValue, key);
      viewMembers := Placed(viewMembers, vm);
      memberIndex := memberIndex[key := vm];
      OnlyThis();
    }

    /** Finds or makes the partition of the signature and puts the ad into it. */
    method File(registry: Registry, key: Key, signature: string) returns (status: Status)
      requires Valid() && registry !in Repr
      modifies this`partitionedViews, registry
      ensures Valid()
      ensures Outcome(status, Model(), registry.names) == Filed(old(Model()), old(registry.names), key, signature)
    {
      if signature == "" {
        return Done;
      }
      var partition := NOBODY;
      if signature in partitionedViews {
        partition := partitionedViews[signature];
      } else {
        var name := PartName(viewName, signature);
        if name in registry.names {
          return Refused;
        }
        var _ := registry.RegisterView(name);
      }
      partitionedViews := partitionedViews[signature := Enrol(partition, key, Undefined)];
      OnlyThis();
      return Done;
    }

    method InsertBelow(sem: Semantics, registry: Registry, key: Key, ad: Ad) returns (status: Status)
      requires Valid() && registry !in Repr
      modifies Repr - {this}, registry
      ensures Valid() && Repr == old(Repr)
      ensures Outcomes(status, SubModels(0), registry.names)
           == InsertedAll(sem, old(SubModels(0)), old(registry.names), key, ad)
      decreases Repr, 1
    {
      hide Inserted;
      hide InsertedAll;
      hide Valid;
      hide SubModels;
      ghost var before, now := SubModels(0), SubModels(0);
      AllAhead(before, InsertedAll(sem, before, registry.names, key, ad));
      var xi := 0;
      while xi < |subordinateViews|
        invariant xi <= |subordinateViews| == |before|
        invariant Valid() && now == SubModels(0) && |now| == |before|
        invariant InsertedAll(sem, before, old(registry.names), key, ad)
               == Behind(now[..xi], InsertedAll(sem, now[xi..], registry.names, key, ad))
      {
        InsertedStep(sem, now, xi, registry.names, key, ad);
        status := InsertChild(sem, registry, xi, key, ad);
        now := SubModels(0);
        if !status.Done? {
          return;
        }
        xi := xi + 1;
      }
      AllBehind(now, registry.names);
      InsertedNone(sem, now, registry.names, key, ad);
      return Done;
    }

    method InsertChild(sem: Semantics, registry: Registry, xi: nat, key: Key, ad: Ad) returns (status: Status)
      requires Valid() && registry !in Repr && xi < |subordinateViews|
      modifies Repr - {this}, registry
      ensures Valid() && Repr == old(Repr)
      ensures var r := Inserted(sem, old(SubModels(0))[xi], old(registry.names), key, ad);
              status == r.status && registry.names == r.registry && SubModels(0) == old(SubModels(0))[xi := r.view]
      decreases Repr, 0
    {
      hide Inserted;
      var child := subordinateViews[xi];
      assert child in subordinateViews;
      status := child.ClassAdInserted(sem, registry, key, ad);
      OnlyChild(xi);
    }

    // ------------------------------------------------------------- deletion

    /** Takes a key out of this view and the views below it. False stands for the exception. */
    method ClassAdDeleted(sem: Semantics, key: Key, ad: Ad) returns (ok: bool)
      requires Valid()
      modifies Repr
      ensures Valid() && Repr == old(Repr)
      ensures Deleted(sem, old(Model()), key, ad) == if ok then Some(Model()) else None
      decreases Repr
    {
      hide DeletedAll;
      hide Unfiled;
      if key !in memberIndex {
        return true;
      }
      DropMember(key);
      ok := DeleteBelow(sem, key, ad);
      if ok {
        ok := Unfile(key, sem.signature(info, ad));
      }
    }

    method DropMember(key: Key)
      requires Valid() && key in memberIndex
      modifies this`viewMembers, this`memberIndex
      ensures Valid()
      ensures Model() == old(Model()).(roster := Dismiss(old(Model()).roster, key))
    {
      var vmi := memberIndex[key];
      memberIndex := memberIndex - {key};
      viewMembers := Without(viewMembers, vmi);
      OnlyThis();
    }

    method Unfile(key: Key, signature: string) returns (ok: bool)
      requires Valid()
      modifies this`partitionedViews
      ensures Valid()
      ensures Unfiled(old(Model()), key, signature) == if ok then Some(Model()) else None
    {
      if signature == "" {
        return true;
      }
      if signature !in partitionedViews {
        return false;
      }
      partitionedViews := partitionedViews[signature := Dismiss(partitionedViews[signature], key)];
      OnlyThis();
      return true;
    }

    method DeleteBelow(sem: Semantics, key: Key, ad: Ad) returns (ok: bool)
      requires Valid()
      modifies Repr - {this}
      ensures Valid() && Repr == old(Repr)
      ensures DeletedAll(sem, old(SubModels(0)), key, ad) == if ok then Some(SubModels(0)) else None
      decreases Repr, 1
    {
      hide Deleted;
      hide DeletedAll;
      hide Valid;
      hide SubModels;
      ghost var before, now := SubModels(0), SubModels(0);
      DeletedFirst(sem, before, key, ad);
      var xi := 0;
      while xi < |subordinateViews|
        invariant xi <= |subordinateViews| == |before|
        invariant Valid() && now == SubModels(0) && |now| == |before|
        invariant DeletedAll(sem, before, key, ad) == OptionBehind(now[..xi], DeletedAll(sem, now[xi..], key, ad))
      {
        DeletedStep(sem, now, xi, key, ad);
        ok := DeleteChild(sem, xi, key, ad);
        if !ok {
          return;
        }
        now := SubModels(0);
        xi := xi + 1;
      }
      DeletedLast(sem, now, key, ad);
      return true;
    }

    method DeleteChild(sem: Semantics, xi: nat, key: Key, ad: Ad) returns (ok: bool)
      requires Valid() && xi < |subordinateViews|
      modifies Repr - {this}
      ensures Valid() && Repr == old(Repr)
      ensures var r := Deleted(sem, old(SubModels(0))[xi], key, ad);
              if ok then r.Some? && SubModels(0) == old(SubModels(0))[xi := r.value] else r.None?
      decreases Repr, 0
    {
      hide Deleted;
      var child := subordinateViews[xi];
      assert child in subordinateViews;
      ok := child.ClassAdDeleted(sem, key, ad);
      OnlyChild(xi);
    }

    // --------------------------------------------------------- modification

    /** Notes the signature of an ad about to change, here and below. */
    method ClassAdPreModify(sem: Semantics, ad: Ad)
      requires Valid()
      modifies Repr
      ensures Valid() && Repr == old(Repr)
      ensures Model() == PreModified(sem, old(Model()), ad)
      decreases Repr
    {
      hide PreModifiedAll;
      oldAdSignature := sem.signature(info, ad);
      OnlyThis();
      PreModifyBelow(sem, ad);
    }

    method PreModifyBelow(sem: Semantics, ad: Ad)
      requires Valid()
      modifies Repr - {this}
      ensures Valid() && Repr == old(Repr)
      ensures SubModels(0) == PreModifiedAll(sem, old(SubModels(0)), ad)
      decreases Repr, 1
    {
      hide PreModifiedAll;
      hide Valid;
      hide SubModels;
      ghost var before, now := SubModels(0), SubModels(0);
      assert now[0..] == now && now[..0] + PreModifiedAll(sem, now, ad) == PreModifiedAll(sem, now, ad);
      var xi := 0;
      while xi < |subordinateViews|
        invariant xi <= |subordinateViews| == |before|
        invariant Valid() && Repr == old(Repr) && now == SubModels(0) && |now| == |before|
        invariant PreModifiedAll(sem, before, ad) == now[..xi] + PreModifiedAll(sem, now[xi..], ad)
      {
        PreModifiedStep(sem, now, xi, ad);
        PreModifyChild(sem, xi, ad);
        now := SubModels(0);
        xi := xi + 1;
      }
      PreModifiedLast(sem, now, ad);
    }

    method PreModifyChild(sem: Semantics, xi: nat, ad: Ad)
      requires Valid() && xi < |subordinateViews|
      modifies Repr - {this}
      ensures Valid() && Repr == old(Repr)
      ensures SubModels(0) == old(SubModels(0))[xi := PreModified(sem, old(SubModels(0))[xi], ad)]
      decreases Repr, 0
    {
      hide PreModified;
      var child := subordinateViews[xi];
      assert child in subordinateViews;
      child.ClassAdPreModify(sem, ad);
      OnlyChild(xi);
    }

    /** Carries a change of an ad through this view and the views below it. */
    method ClassAdModified(sem: Semantics, registry: Registry, key: Key, ad: Ad) returns (status: Status)
      requires Valid() && registry !in Repr
      modifies Repr, registry
      ensures Valid() && Repr == old(Repr)
      ensures status.Thrown? == Modified(sem, old(Model()), old(registry.names), key, ad).status.Thrown?
      ensures !status.Thrown? ==>
        Outcome(status, Model(), registry.names) == Modified(sem, old(Model()), old(registry.names), key, ad)
      decreases Repr
    {
      hide Inserted;
      hide Deleted;
      hide ModifiedAll;
      hide Moved;
      hide Rerank;
      var wasMember, isMatch := key in memberIndex, sem.matches(info, ad);
      if wasMember && isMatch {
        status := ModifyMember(sem, registry, key, ad);
        return;
      } else if isMatch {
        status := ClassAdInserted(sem, registry, key, ad);
      } else if wasMember {
        var ok := ClassAdDeleted(sem, key, ad);
        if !ok {
          return Thrown;
        }
        status := Done;
      } else {
        status := Done;
      }
      ForgetSignature();
    }

    /** The case of an ad that was a member and still is. */
    method ModifyMember(sem: Semantics, registry: Registry, key: Key, ad: Ad) returns (status: Status)
      requires Valid() && registry !in Repr && key in memberIndex && sem.matches(info, ad)
      modifies Repr, registry
      ensures Valid() && Repr == old(Repr)
      ensures status.Thrown? == Modified(sem, old(Model()), old(registry.names), key, ad).status.Thrown?
      ensures !status.Thrown? ==>
        Outcome(status, Model(), registry.names) == Modified(sem, old(Model()), old(registry.names), key, ad)
      decreases Repr, 2
    {
      hide ModifiedAll;
      hide Moved;
      hide Rerank;
      ReplaceRank(key, sem.rank(info, ad));
      MovedKeepsSubs(Model(), registry.names, key, sem.signature(info, ad));
      status := Move(registry, key, sem.signature(info, ad));
      if !status.Done? {
        return;
      }
      status := ModifyBelow(sem, registry, key, ad);
      if !status.Done? {
        return;
      }
      ForgetSignature();
    }

    method ForgetSignature()
      requires Valid()
      modifies this`oldAdSignature
      ensures Valid() && Model() == old(Model()).(oldSignature := "")
    {
      oldAdSignature := "";
      OnlyThis();
    }

    /** Re-orders a member whose rank has changed. */
    method ReplaceRank(key: Key, rankValue: Value)
      requires Valid() && key in memberIndex
      modifies this`viewMembers, this`memberIndex
      ensures Valid()
      ensures Model() == old(Model()).(roster := Rerank(old(Model()).roster, key, rankValue))
    {
      var oldAdRank := memberIndex[key].rank;
      if Operators.Operate(Is, rankValue, oldAdRank) != Bool(true) {
        var (newRank, erased) := Coerced(rankValue, oldAdRank);
        viewMembers := Expelled(viewMembers, Member(erased, key));
        var vm := Member(newRank, key);
        viewMembers := Placed(viewMembers, vm);
        memberIndex := memberIndex[key := vm];
        OnlyThis();
      }
    }

    /** Moves an ad whose signature has changed to its new partition. */
    method Move(registry: Registry, key: Key, signature: string) returns (status: Status)
      requires Valid() && registry !in Repr
      modifies this`partitionedViews, registry
      ensures Valid()
      ensures status.Thrown? == Moved(old(Model()), old(registry.names), key, signature).status.Thrown?
      ensures !status.Thrown? ==>
        Outcome(status, Model(), registry.names) == Moved(old(Model()), old(registry.names), key, signature)
    {
      hide Filed;
      hide Unfiled;
      if signature == oldAdSignature {
        return Done;
      }
      var ok := Unfile(key, oldAdSignature);
      if !ok {
        return Thrown;
      }
      status := File(registry, key, signature);
    }

    method ModifyBelow(sem: Semantics, registry: Registry, key: Key, ad: Ad) returns (status: Status)
      requires Valid() && registry !in Repr
      modifies Repr - {this}, registry
      ensures Valid() && Repr == old(Repr)
      ensures status.Thrown? == ModifiedAll(sem, old(SubModels(0)), old(registry.names), key, ad).status.Thrown?
      ensures !status.Thrown? ==>
        Outcomes(status, SubModels(0), registry.names)
        == ModifiedAll(sem, old(SubModels(0)), old(registry.names), key, ad)
      decreases Repr, 1
    {
      hide Modified;
      hide ModifiedAll;
      hide Valid;
      hide SubModels;
      ghost var before, now := SubModels(0), SubModels(0);
      AllAhead(before, ModifiedAll(sem, before, registry.names, key, ad));
      var xi := 0;
      while xi < |subordinateViews|
        invariant xi <= |subordinateViews| == |before|
        invariant Valid() && now == SubModels(0) && |now| == |before|
        invariant ModifiedAll(sem, before, old(registry.names), key, ad)
               == Behind(now[..xi], ModifiedAll(sem, now[xi..], registry.names, key, ad))
      {
        ModifiedStep(sem, now, xi, registry.names, key, ad);
        status := ModifyChild(sem, registry, xi, key, ad);
        now := SubModels(0);
        if !status.Done? {
          return;
        }
        xi := xi + 1;
      }
      AllBehind(now, registry.names);
      ModifiedNone(sem, now, registry.names, key, ad);
      return Done;
    }

    method ModifyChild(sem: Semantics, registry: Registry, xi: nat, key: Key, ad: Ad) returns (status: Status)
      requires Valid() && registry !in Repr && xi < |subordinateViews|
      modifies Repr - {this}, registry
      ensures Valid() && Repr == old(Repr)
      ensures var r := Modified(sem, old(SubModels(0))[xi], old(registry.names), key, ad);
              && status == r.status
              && (!status.Thrown? ==>
                    registry.names == r.registry && SubModels(0) == old(SubModels(0))[xi := r.view])
      decreases Repr, 0
    {
      hide Modified;
      var child := subordinateViews[xi];
      assert child in subordinateViews;
      status := child.ClassAdModified(sem, registry, key, ad);
      OnlyChild(xi);
    }

    // ------------------------------------------------------------ sub-views

    constructor (sem: Semantics, viewInfo: Ad)
      ensures Valid() && fresh(Repr) && Model() == NewView(sem, viewInfo)
    {
      viewName, info := sem.viewName(viewInfo), viewInfo;
      viewMembers, memberIndex, oldAdSignature := [], map[], "";
      subordinateViews, partitionedViews := [], map[];
      Repr := {this};
    }

    constructor Root(rootInfo: Ad)
      ensures Valid() && fresh(Repr) && Model() == View("root", rootInfo, NOBODY, "", [], map[])
    {
      viewName, info := "root", rootInfo;
      viewMembers, memberIndex, oldAdSignature := [], map[], "";
      subordinateViews, partitionedViews := [], map[];
      Repr := {this};
    }

    /** Makes a new first sub-view and puts the members of this view into it. */
    method InsertSubordinateView(sem: Semantics, registry: Registry, viewInfo: Ad, table: map<Key, Ad>)
      returns (status: Status)
      requires Valid() && registry !in Repr
      modifies Repr, registry
      ensures Valid() && fresh(Repr - old(Repr))
      ensures Outcome(status, Model(), registry.names)
           == Created(sem, old(Model()), old(registry.names), viewInfo, table)
    {
      hide Filled;
      hide Valid;
      hide SubModels;
      var newView := new LiveView(sem, viewInfo);
      var registered := registry.RegisterView(newView.viewName);
      if !registered {
        return Refused;
      }
      status := Attach(newView, sem, registry, table);
    }

    method Attach(newView: LiveView, sem: Semantics, registry: Registry, table: map<Key, Ad>) returns (status: Status)
      requires Valid() && newView.Valid() && newView.Repr !! Repr && registry !in Repr && registry !in newView.Repr
      modifies Repr, newView.Repr, registry
      ensures Valid() && Repr == old(Repr) + old(newView.Repr)
      ensures var r := Filled(sem, old(newView.Model()), old(registry.names), old(viewMembers), table);
              && status == r.status && registry.names == r.registry
              && Model() == old(Model()).(subs := [r.view] + old(Model()).subs)
    {
      hide Filled;
      hide Valid;
      hide SubModels;
      PushFront(newView);
      ghost var vs := SubModels(0);
      status := FillFirst(sem, registry, table);
      assert SubModels(0)[1..] == vs[1..];
    }

    method PushFront(newView: LiveView)
      requires Valid() && newView.Valid() && newView.Repr !! Repr
      modifies this`subordinateViews, this`Repr
      ensures Valid() && Repr == old(Repr) + newView.Repr
      ensures Model() == old(Model()).(subs := [newView.Model()] + old(Model()).subs)
    {
      hide Valid;
      hide SubModels;
      subordinateViews := [newView] + subordinateViews;
      Repr := Repr + newView.Repr;
      OneMore(newView);
    }

    /** If only a view has been put before the others, the others are as they were. */
    twostate lemma OneMore(newView: LiveView)
      requires old(Valid()) && old(newView.Valid()) && old(newView.Repr !! Repr)
      requires subordinateViews == [newView] + old(subordinateViews) && Repr == old(Repr) + old(newView.Repr)
      requires unchanged(old(Repr) - {this}) && unchanged(old(newView.Repr))
      ensures Valid() && newView.Valid()
      ensures SubModels(0) == [newView.Model()] + old(SubModels(0)) && newView.Model() == old(newView.Model())
    {
      OneMoreValid(newView);
      hide Valid;
      var vs := old(SubModels(0));
      forall k | 0 <= k < |vs| ensures SubModels(0)[k + 1] == vs[k] {
        assert subordinateViews[k + 1] == old(subordinateViews)[k];
      }
      assert subordinateViews[0] == newView;
      assert SubModels(0) == [newView.Model()] + vs;
    }

    twostate lemma OneMoreValid(newView: LiveView)
      requires old(Valid()) && old(newView.Valid()) && old(newView.Repr !! Repr)
      requires subordinateViews == [newView] + old(subordinateViews) && Repr == old(Repr) + old(newView.Repr)
      requires unchanged(old(Repr) - {this}) && unchanged(old(newView.Repr))
      ensures Valid() && newView.Valid() && newView.Model() == old(newView.Model())
      ensures forall v :: v in old(subordinateViews) ==> v.Valid() && v.Model() == old(v.Model())
    {
      hide SubModels;
      forall v | v in old(subordinateViews) ensures v.Valid() && v.Repr == old(v.Repr) && v.Repr < Repr && v in Repr {
      }
      assert this in Repr && this !in newView.Repr && newView.Repr < Repr;
      forall i, j | 0 <= i < j < |subordinateViews| ensures subordinateViews[i].Repr !! subordinateViews[j].Repr {
        if i > 0 {
          assert subordinateViews[i] == old(subordinateViews)[i - 1];
        }
        assert subordinateViews[j] == old(subordinateViews)[j - 1];
      }
    }

    /** Puts the members of this view into its first sub-view. */
    method FillFirst(sem: Semantics, registry: Registry, table: map<Key, Ad>) returns (status: Status)
      requires Valid() && registry !in Repr && subordinateViews != []
      modifies Repr - {this}, registry
      ensures Valid() && Repr == old(Repr)
      ensures var r := Filled(sem, old(SubModels(0))[0], old(registry.names), viewMembers, table);
              status == r.status && registry.names == r.registry && SubModels(0) == old(SubModels(0))[0 := r.view]
    {
      hide Filled;
      assert subordinateViews[0] in subordinateViews;
      status := subordinateViews[0].Fill(sem, registry, viewMembers, table);
      OnlyChild(0);
    }

    method Fill(sem: Semantics, registry: Registry, ms: seq<Member>, table: map<Key, Ad>) returns (status: Status)
      requires Valid() && registry !in Repr
      modifies Repr, registry
      ensures Valid() && Repr == old(Repr)
      ensures Outcome(status, Model(), registry.names)
           == Filled(sem, old(Model()), old(registry.names), ms, table)
    {
      hide Inserted;
      hide Valid;
      hide Model;
      var vmi := 0;
      assert ms[0..] == ms;
      while vmi < |ms|
        invariant vmi <= |ms| && Valid() && Repr == old(Repr)
        invariant Filled(sem, old(Model()), old(registry.names), ms, table)
               == Filled(sem, Model(), registry.names, ms[vmi..], table)
      {
        var key := ms[vmi].key;
        assert ms[vmi..][0] == ms[vmi] && ms[vmi..][1..] == ms[vmi + 1..];
        if key !in table {
          return Thrown;
        }
        status := ClassAdInserted(sem, registry, key, table[key]);
        if !status.Done? {
          return;
        }
        vmi := vmi + 1;
      }
      return Done;
    }

    /** Takes the names of this view and all below it out of the registry. */
    method DeleteView(registry: Registry)
      requires Valid() && registry !in Repr
      modifies registry
      ensures registry.names == Unregistered(Model(), old(registry.names))
      decreases Repr
    {
      hide Unregistered;
      hide UnregisteredAll;
      hide SubModels;
      UnregisteredMeans(Model(), registry.names);
      registry.UnregisterView(viewName);
      DeleteSubNames(registry);
      DeletePartitionNames(registry);
    }

    method DeleteSubNames(registry: Registry)
      requires Valid() && registry !in Repr
      modifies registry
      ensures registry.names == UnregisteredAll(SubModels(0), old(registry.names))
      decreases Repr, 0
    {
      hide Unregistered;
      hide UnregisteredAll;
      ghost var vs := SubModels(0);
      var si := 0;
      assert vs[0..] == vs;
      while si < |subordinateViews|
        invariant si <= |subordinateViews|
        invariant UnregisteredAll(vs, old(registry.names)) == UnregisteredAll(vs[si..], registry.names)
      {
        assert subordinateViews[si] in subordinateViews;
        UnregisteredStep(vs, si, registry.names);
        subordinateViews[si].DeleteView(registry);
        si := si + 1;
      }
      UnregisteredNone(vs, registry.names);
    }

    method DeletePartitionNames(registry: Registry)
      modifies registry
      ensures registry.names == old(registry.names) - set s | s in partitionedViews :: PartName(viewName, s)
    {
      hide PartName;
      var left := partitionedViews.Keys;
      while left != {}
        invariant left <= partitionedViews.Keys
        invariant registry.names
               == old(registry.names) - set s | s in partitionedViews.Keys - left :: PartName(viewName, s)
        decreases |left|
      {
        var s :| s in left;
        registry.UnregisterView(PartName(viewName, s));
        left := left - {s};
      }
    }

    /** Removes the first sub-view of that name. */
    method DeleteSubordinateView(registry: Registry, name: string) returns (found: bool)
      requires Valid() && registry !in Repr
      modifies this`subordinateViews, registry
      ensures Valid()
      ensures match Dropped(old(SubModels(0)), old(registry.names), name)
              case None => !found && registry.names == old(registry.names) && SubModels(0) == old(SubModels(0))
              case Some((subs, names)) => found && registry.names == names && SubModels(0) == subs
    {
      hide Dropped;
      hide Unregistered;
      hide Valid;
      ghost var vs := SubModels(0);
      var xi := FindSub(name);
      assert SubModels(0) == vs && |vs| == |subordinateViews|;
      if xi == |subordinateViews| {
        DroppedNowhere(vs, registry.names, name);
        return false;
      }
      DroppedAt(vs, registry.names, name, xi);
      DeleteSubName(registry, xi);
      Erase(xi);
      return true;
    }

    method FindSub(name: string) returns (xi: nat)
      requires Valid()
      ensures xi <= |subordinateViews| && forall j :: 0 <= j < xi ==> SubModels(0)[j].name != name
      ensures xi < |subordinateViews| ==> SubModels(0)[xi].name == name
    {
      xi := 0;
      while xi < |subordinateViews|
        invariant xi <= |subordinateViews| && forall j :: 0 <= j < xi ==> SubModels(0)[j].name != name
      {
        assert subordinateViews[xi] in subordinateViews;
        if subordinateViews[xi].viewName == name {
          return;
        }
        xi := xi + 1;
      }
    }

    method DeleteSubName(registry: Registry, xi: nat)
      requires Valid() && registry !in Repr && xi < |subordinateViews|
      modifies registry
      ensures registry.names == Unregistered(SubModels(0)[xi], old(registry.names))
    {
      hide Unregistered;
      assert subordinateViews[xi] in subordinateViews;
      subordinateViews[xi].DeleteView(registry);
    }

    method Erase(xi: nat)
      requires Valid() && xi < |subordinateViews|
      modifies this`subordinateViews
      ensures Valid()
      ensures SubModels(0) == old(SubModels(0))[..xi] + old(SubModels(0))[xi + 1..]
    {
      hide Valid;
      hide SubModels;
      CutAt(subordinateViews, xi);
      subordinateViews := subordinateViews[..xi] + subordinateViews[xi + 1..];
      OneFewer(xi);
    }

    /** If only the list of sub-views has changed, by losing one, the others are as they were. */
    twostate lemma OneFewer(xi: nat)
      requires old(Valid()) && xi < |old(subordinateViews)| && unchanged(this`Repr) && unchanged(Repr - {this})
      requires |subordinateViews| == |old(subordinateViews)| - 1
      requires forall k :: 0 <= k < |subordinateViews| ==>
        subordinateViews[k] == old(subordinateViews)[if k < xi then k else k + 1]
      ensures Valid()
      ensures SubModels(0) == old(SubModels(0))[..xi] + old(SubModels(0))[xi + 1..]
    {
      OneFewerValid(xi);
      hide Valid;
      var vs := old(SubModels(0));
      forall k | 0 <= k < |subordinateViews| ensures SubModels(0)[k] == vs[if k < xi then k else k + 1] {
        assert subordinateViews[k] in subordinateViews;
      }
      CutAt(vs, xi);
      assert SubModels(0) == vs[..xi] + vs[xi + 1..];
    }

    twostate lemma OneFewerValid(xi: nat)
      requires old(Valid()) && xi < |old(subordinateViews)| && unchanged(this`Repr) && unchanged(Repr - {this})
      requires |subordinateViews| == |old(subordinateViews)| - 1
      requires forall k :: 0 <= k < |subordinateViews| ==>
        subordinateViews[k] == old(subordinateViews)[if k < xi then k else k + 1]
      ensures Valid()
      ensures forall v :: v in subordinateViews ==> v.Valid() && v.Model() == old(v.Model())
    {
      hide SubModels;
      forall v | v in subordinateViews ensures v in old(subordinateViews) {
        var k :| 0 <= k < |subordinateViews| && subordinateViews[k] == v;
      }
    }
  }

  lemma CutAt<T>(s: seq<T>, xi: nat)
    requires xi < |s|
    ensures var t := s[..xi] + s[xi + 1..];
            |t| == |s| - 1 && forall k :: 0 <= k < |t| ==> t[k] == s[if k < xi then k else k + 1]
  {
  }

  lemma UnregisteredStep(vs: seq<View>, si: nat, registry: set<string>)
    requires si < |vs|
    ensures UnregisteredAll(vs[si..], registry) == UnregisteredAll(vs[si + 1..], Unregistered(vs[si], registry))
  {
    hide Unregistered;
    assert vs[si..][0] == vs[si] && vs[si..][1..] == vs[si + 1..];
  }

  lemma UnregisteredNone(vs: seq<View>, registry: set<string>)
    ensures UnregisteredAll(vs[|vs|..], registry) == registry
  {
  }

  lemma UnregisteredMeans(v: View, registry: set<string>)
    ensures Unregistered(v, registry)
         == UnregisteredAll(v.subs, registry - {v.name}) - set s | s in v.parts :: PartName(v.name, s)
  {
  }

  lemma {:induction false} DroppedAt(vs: seq<View>, registry: set<string>, name: string, at: nat)
    requires at < |vs| && vs[at].name == name && forall j :: 0 <= j < at ==> vs[j].name != name
    ensures Dropped(vs, registry, name) == Some((vs[..at] + vs[at + 1..], Unregistered(vs[at], registry)))
  {
    hide Unregistered;
    if at > 0 {
      DroppedAt(vs[1..], registry, name, at - 1);
      assert vs[..at] + vs[at + 1..] == [vs[0]] + (vs[1..][..at - 1] + vs[1..][at..]);
    } else {
      assert vs[..0] + vs[1..] == vs[1..];
    }
  }

  lemma {:induction false} DroppedNowhere(vs: seq<View>, registry: set<string>, name: string)
    requires forall j :: 0 <= j < |vs| ==> vs[j].name != name
    ensures Dropped(vs, registry, name) == None
  {
    if vs != [] {
      DroppedNowhere(vs[1..], registry, name);
    }
  }

  ghost function OptionBehind(done: seq<View>, r: Option<seq<View>>): (r': Option<seq<View>>) {
    match r
    case None => None
    case Some(vs) => Some(done + vs)
  }

  lemma MovedKeepsSubs(v: View, registry: set<string>, key: Key, signature: string)
    ensures var r := Moved(v, registry, key, signature); r.view == v.(parts := r.view.parts)
  {
  }

  lemma DeletedFirst(sem: Semantics, vs: seq<View>, key: Key, ad: Ad)
    ensures DeletedAll(sem, vs, key, ad) == OptionBehind(vs[..0], DeletedAll(sem, vs[0..], key, ad))
  {
    hide DeletedAll;
    assert vs[0..] == vs;
    var r := DeletedAll(sem, vs, key, ad);
    if r.Some? {
      assert vs[..0] + r.value == r.value;
    }
  }

  lemma DeletedLast(sem: Semantics, vs: seq<View>, key: Key, ad: Ad)
    ensures OptionBehind(vs[..|vs|], DeletedAll(sem, vs[|vs|..], key, ad)) == Some(vs)
  {
    assert vs[..|vs|] + [] == vs;
  }

  lemma DeletedStep(sem: Semantics, vs: seq<View>, xi: nat, key: Key, ad: Ad)
    requires xi < |vs|
    ensures var r := Deleted(sem, vs[xi], key, ad);
            OptionBehind(vs[..xi], DeletedAll(sem, vs[xi..], key, ad))
            == if r.None? then None
               else var vs' := vs[xi := r.value]; OptionBehind(vs'[..xi + 1], DeletedAll(sem, vs'[xi + 1..], key, ad))
  {
    hide Deleted;
    assert vs[xi..][0] == vs[xi];
    var r := Deleted(sem, vs[xi], key, ad);
    if r.Some? {
      var vs' := vs[xi := r.value];
      assert vs[xi..][1..] == vs[xi + 1..] == vs'[xi + 1..];
      assert vs'[..xi + 1] == vs[..xi] + [r.value];
      var rest := DeletedAll(sem, vs[xi + 1..], key, ad);
      if rest.Some? {
        assert vs[..xi] + ([r.value] + rest.value) == (vs[..xi] + [r.value]) + rest.value;
      }
    }
  }

  lemma PreModifiedStep(sem: Semantics, vs: seq<View>, xi: nat, ad: Ad)
    requires xi < |vs|
    ensures var vs' := vs[xi := PreModified(sem, vs[xi], ad)];
            vs[..xi] + PreModifiedAll(sem, vs[xi..], ad) == vs'[..xi + 1] + PreModifiedAll(sem, vs'[xi + 1..], ad)
  {
    hide PreModified;
    var first := PreModified(sem, vs[xi], ad);
    var vs' := vs[xi := first];
    assert vs[xi..][0] == vs[xi];
    assert vs[xi..][1..] == vs[xi + 1..] == vs'[xi + 1..];
    assert vs'[..xi + 1] == vs[..xi] + [first];
    var rest := PreModifiedAll(sem, vs[xi + 1..], ad);
    assert vs[..xi] + ([first] + rest) == (vs[..xi] + [first]) + rest;
  }

  lemma PreModifiedLast(sem: Semantics, vs: seq<View>, ad: Ad)
    ensures vs[..|vs|] + PreModifiedAll(sem, vs[|vs|..], ad) == vs
  {
  }

  lemma ModifiedStep(sem: Semantics, vs: seq<View>, xi: nat, names: set<string>, key: Key, ad: Ad)
    requires xi < |vs|
    ensures var r := Modified(sem, vs[xi], names, key, ad);
            var vs' := vs[xi := r.view];
            Behind(vs[..xi], ModifiedAll(sem, vs[xi..], names, key, ad))
            == if r.status.Done? then Behind(vs'[..xi + 1], ModifiedAll(sem, vs'[xi + 1..], r.registry, key, ad))
               else Outcomes(r.status, vs', r.registry)
  {
    hide Modified;
    var r := Modified(sem, vs[xi], names, key, ad);
    var vs' := vs[xi := r.view];
    assert vs[xi..][0] == vs[xi];
    assert vs[xi..][1..] == vs[xi + 1..] == vs'[xi + 1..];
    assert vs'[..xi + 1] == vs[..xi] + [r.view];
    if r.status.Done? {
      var rest := ModifiedAll(sem, vs[xi + 1..], r.registry, key, ad).views;
      assert vs[..xi] + ([r.view] + rest) == (vs[..xi] + [r.view]) + rest;
    } else {
      assert vs' == vs[..xi] + ([r.view] + vs[xi + 1..]);
    }
  }

  lemma ModifiedNone(sem: Semantics, vs: seq<View>, names: set<string>, key: Key, ad: Ad)
    ensures ModifiedAll(sem, vs[|vs|..], names, key, ad) == Outcomes(Done, [], names)
  {
  }

  lemma InsertedStep(sem: Semantics, vs: seq<View>, xi: nat, names: set<string>, key: Key, ad: Ad)
    requires xi < |vs|
    ensures var r := Inserted(sem, vs[xi], names, key, ad);
            var vs' := vs[xi := r.view];
            Behind(vs[..xi], InsertedAll(sem, vs[xi..], names, key, ad))
            == if r.status.Done? then Behind(vs'[..xi + 1], InsertedAll(sem, vs'[xi + 1..], r.registry, key, ad))
               else Outcomes(r.status, vs', r.registry)
  {
    hide Inserted;
    var r := Inserted(sem, vs[xi], names, key, ad);
    var vs' := vs[xi := r.view];
    assert vs[xi..][0] == vs[xi];
    assert vs[xi..][1..] == vs[xi + 1..] == vs'[xi + 1..];
    assert vs'[..xi + 1] == vs[..xi] + [r.view];
    if r.status.Done? {
      var rest := InsertedAll(sem, vs[xi + 1..], r.registry, key, ad).views;
      assert vs[..xi] + ([r.view] + rest) == (vs[..xi] + [r.view]) + rest;
    } else {
      assert vs' == vs[..xi] + ([r.view] + vs[xi + 1..]);
    }
  }

  lemma InsertedNone(sem: Semantics, vs: seq<View>, names: set<string>, key: Key, ad: Ad)
    ensures InsertedAll(sem, vs[|vs|..], names, key, ad) == Outcomes(Done, [], names)
  {
  }

  lemma AllAhead(vs: seq<View>, r: Outcomes)
    ensures Behind(vs[..0], r) == r && vs[0..] == vs
  {
    assert vs[..0] + r.views == r.views;
  }

  lemma AllBehind(vs: seq<View>, names: set<string>)
    ensures Behind(vs[..|vs|], Outcomes(Done, [], names)) == Outcomes(Done, vs, names)
  {
    assert vs[..|vs|] + [] == vs;
  }

  ghost function Behind(done: seq<View>, r: Outcomes): (r': Outcomes) {
    r.(views := done + r.views)
  }
}
