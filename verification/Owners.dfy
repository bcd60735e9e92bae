/**
  Recalculating a directory's owner from its children, and how much the unspecified
  iteration order of the map of children matters.
*/
module Owners {
  import opened Announcements
  import opened FileTree

  /** The children have different owners. */
  ghost predicate Mixed(kids: map<string, Tree>) {
    exists k, k' :: k in kids && k' in kids && kids[k].stat.owner != kids[k'].stat.owner
  }

  /** The intended owner of a directory: the one its children have in common, if any. */
  ghost predicate IsCommonOwner(kids: map<string, Tree>, owner: string) {
    && kids != map[]
    && if Mixed(kids) then owner == MULTIPLE_OWNERS
       else forall k :: k in kids ==> kids[k].stat.owner == owner
  }

  ghost predicate AllOwned(kids: map<string, Tree>) {
    forall k :: k in kids ==> kids[k].stat.owner != ""
  }

  ghost predicate SoleOwner(kids: map<string, Tree>, owner: string) {
    && owner != "" && owner != MULTIPLE_OWNERS
    && forall k :: k in kids ==> kids[k].stat.owner == "" || kids[k].stat.owner == owner
  }

  /** Some child has no owner, and those that have one have the same, single one. */
  ghost predicate Ambiguous(kids: map<string, Tree>) {
    && (exists k :: k in kids && kids[k].stat.owner == "")
    && (exists s :: s in kids && SoleOwner(kids, kids[s].stat.owner))
  }

  /** The loop keeps the first non-empty owner unless a later one differs. */
  lemma {:induction false} FoldFromFirst(owners: seq<string>, i: nat)
    requires i < |owners| && owners[i] != "" && forall j :: 0 <= j < i ==> owners[j] == ""
    ensures FoldOwners(owners) ==
            if forall j :: i <= j < |owners| ==> owners[j] == owners[i] then owners[i] else "(multiple)"
    decreases |owners|
  {
    var front := owners[..|owners| - 1];
    if i == |front| {
      FoldOfEmpty(front);
    } else {
      FoldFromFirst(front, i);
      if forall j :: i <= j < |owners| ==> owners[j] == owners[i] {
        assert forall j :: i <= j < |front| ==> front[j] == front[i];
      } else if forall j :: i <= j < |front| ==> front[j] == front[i] {
        assert owners[|front|] != owners[i];
      }
    }
  }

  lemma {:induction false} FoldOfEmpty(owners: seq<string>)
    requires forall j :: 0 <= j < |owners| ==> owners[j] == ""
    ensures FoldOwners(owners) == ""
  {
    if owners != [] {
      FoldOfEmpty(owners[..|owners| - 1]);
    }
  }

  lemma FirstOwner(owners: seq<string>) returns (i: nat)
    ensures i <= |owners| && forall j :: 0 <= j < i ==> owners[j] == ""
    ensures i < |owners| ==> owners[i] != ""
  {
    i := 0;
    while i < |owners| && owners[i] == ""
      invariant i <= |owners| && forall j :: 0 <= j < i ==> owners[j] == ""
    {
      i := i + 1;
    }
  }

  lemma {:induction false} EnumerationExists(keys: set<string>) returns (order: seq<string>)
    ensures Enumerates(order, keys)
    decreases keys
  {
    if keys == {} {
      order := [];
    } else {
      var k :| k in keys;
      order := EnumerationExists(keys - {k});
      order := [k] + order;
    }
  }

  /** The recalculation has a result. */
  lemma SomeOwner(kids: map<string, Tree>) returns (owner: string)
    ensures MayOwn(kids, owner)
  {
    var order := EnumerationExists(kids.Keys);
    owner := FoldOwners(OwnersOf(kids, order));
  }

  /** Every result of the loop, in terms of some child it kept. */
  lemma OwnerKept(kids: map<string, Tree>, order: seq<string>) returns (first: string)
    requires Enumerates(order, kids.Keys)
    requires exists k :: k in kids && kids[k].stat.owner != ""
    ensures first in kids && kids[first].stat.owner != ""
    ensures
      var owner := FoldOwners(OwnersOf(kids, order));
      && (owner == kids[first].stat.owner || owner == MULTIPLE_OWNERS)
      && ((forall k :: k in kids ==> kids[k].stat.owner == kids[first].stat.owner) ==> owner == kids[first].stat.owner)
      && ((exists k :: k in kids && kids[k].stat.owner != "" && kids[k].stat.owner != kids[first].stat.owner)
            ==> owner == MULTIPLE_OWNERS)
      && (AllOwned(kids) && Mixed(kids) ==> owner == MULTIPLE_OWNERS)
  {
    var owners := OwnersOf(kids, order);
    var i := FirstOwner(owners);
    var k0 :| k0 in kids && kids[k0].stat.owner != "";
    var j0 :| 0 <= j0 < |order| && order[j0] == k0;
    assert owners[j0] != "";
    first := order[i];
    assert first in order;
    FoldFromFirst(owners, i);
    forall k | k in kids ensures exists j :: 0 <= j < |order| && order[j] == k && owners[j] == kids[k].stat.owner {
      assert k in order;
      var j :| 0 <= j < |order| && order[j] == k;
      assert owners[j] == kids[k].stat.owner;
    }
    assert forall j :: 0 <= j < |order| ==> order[j] in order && owners[j] == kids[order[j]].stat.owner;
  }

  /** If every child has an owner, the result is the children's common owner, whatever the
      iteration order. */
  lemma OwnedRecalculation(kids: map<string, Tree>, owner: string)
    requires kids != map[] && AllOwned(kids)
    ensures MayOwn(kids, owner) <==> IsCommonOwner(kids, owner)
  {
    var k0 :| k0 in kids;
    if MayOwn(kids, owner) {
      var order :| Enumerates(order, kids.Keys) && FoldOwners(OwnersOf(kids, order)) == owner;
      var first := OwnerKept(kids, order);
    }
    if IsCommonOwner(kids, owner) {
      var order := EnumerationExists(kids.Keys);
      var first := OwnerKept(kids, order);
    }
  }

  /** The result depends on the iteration order exactly for ambiguous children. */
  lemma OrderIndependentIff(kids: map<string, Tree>)
    ensures (forall o, o' :: MayOwn(kids, o) && MayOwn(kids, o') ==> o == o') <==> !Ambiguous(kids)
  {
    if Ambiguous(kids) {
      var o, o' := AmbiguousOrders(kids);
    } else {
      forall o, o' | MayOwn(kids, o) && MayOwn(kids, o') ensures o == o' {
        UnambiguousResult(kids, o, o');
      }
    }
  }

  lemma UnambiguousResult(kids: map<string, Tree>, o: string, o': string)
    requires !Ambiguous(kids) && MayOwn(kids, o) && MayOwn(kids, o')
    ensures o == o'
  {
    var r :| Enumerates(r, kids.Keys) && FoldOwners(OwnersOf(kids, r)) == o;
    var r' :| Enumerates(r', kids.Keys) && FoldOwners(OwnersOf(kids, r')) == o';
    if exists k :: k in kids && kids[k].stat.owner != "" {
      var f := OwnerKept(kids, r);
      var f' := OwnerKept(kids, r');
    } else {
      assert forall k :: k in r || k in r' ==> k in kids;
      FoldOfEmpty(OwnersOf(kids, r));
      FoldOfEmpty(OwnersOf(kids, r'));
    }
  }

  lemma EnumerationConcat(a: seq<string>, keys: set<string>, b: seq<string>, keys': set<string>)
    requires Enumerates(a, keys) && Enumerates(b, keys') && keys !! keys'
    ensures Enumerates(a + b, keys + keys')
  {
    assert forall i :: 0 <= i < |a| ==> a[i] in a;
    assert forall i :: 0 <= i < |b| ==> b[i] in b;
  }

  /** The children in `keys` first, then the others. */
  lemma EnumerationStartingWith(kids: map<string, Tree>, keys: set<string>)
      returns (order: seq<string>, n: nat)
    requires keys <= kids.Keys
    ensures Enumerates(order, kids.Keys) && n <= |order|
    ensures forall i :: 0 <= i < n ==> order[i] in keys
    ensures forall i :: n <= i < |order| ==> order[i] in kids && order[i] !in keys
    ensures n == |order| ==> keys == kids.Keys
    ensures keys != {} ==> n > 0
  {
    var front := EnumerationExists(keys);
    var back := EnumerationExists(kids.Keys - keys);
    EnumerationConcat(front, keys, back, kids.Keys - keys);
    assert keys + (kids.Keys - keys) == kids.Keys;
    order, n := front + back, |front|;
    assert forall i :: 0 <= i < |front| ==> front[i] in front;
    assert forall i :: 0 <= i < |back| ==> back[i] in back;
    if keys != {} {
      var k :| k in keys;
      assert k in front;
    }
  }

  /** Ownerless children first: the single owner survives. */
  lemma OwnerlessFirst(kids: map<string, Tree>, s: string)
    requires s in kids && SoleOwner(kids, kids[s].stat.owner)
    ensures MayOwn(kids, kids[s].stat.owner)
  {
    var empties := set k | k in kids && kids[k].stat.owner == "";
    var order, n := EnumerationStartingWith(kids, empties);
    var owners := OwnersOf(kids, order);
    assert forall i :: 0 <= i < n ==> owners[i] == "";
    assert forall i :: n <= i < |owners| ==> owners[i] == kids[s].stat.owner;
    FoldFromFirst(owners, n);
  }

  /** Owned children first: the next ownerless one spoils it. */
  lemma OwnedFirst(kids: map<string, Tree>, s: string, k0: string)
    requires s in kids && SoleOwner(kids, kids[s].stat.owner) && k0 in kids && kids[k0].stat.owner == ""
    ensures MayOwn(kids, MULTIPLE_OWNERS)
  {
    var owned := set k | k in kids && kids[k].stat.owner != "";
    assert s in owned && k0 !in owned;
    var order, n := EnumerationStartingWith(kids, owned);
    var owners := OwnersOf(kids, order);
    assert owners[0] != "" && owners[n] == "";
    FoldFromFirst(owners, 0);
  }

  lemma AmbiguousOrders(kids: map<string, Tree>) returns (o: string, o': string)
    requires Ambiguous(kids)
    ensures MayOwn(kids, o) && MayOwn(kids, o') && o != o'
  {
    var s :| s in kids && SoleOwner(kids, kids[s].stat.owner);
    var k0 :| k0 in kids && kids[k0].stat.owner == "";
    OwnerlessFirst(kids, s);
    OwnedFirst(kids, s, k0);
    o, o' := kids[s].stat.owner, MULTIPLE_OWNERS;
  }
}
