/**
  The protocol and the trees together: when all tasks have ended, the nodes of a connected
  group have applied the same file lists, and so show the same files.
*/
module FileLists {
  import opened Agreement
  import opened Announcements
  import opened Convergence
  import opened FileTree
  import opened Mesh
  import opened MeshSteps
  import opened Ownership
  import opened Protocol
  import opened Safety

  /** Each node's list of its own files. */
  type Lists = Name -> seq<Announcement>

  /** i's tree has been updated with m's list: with its own after scanning, with another's
      when that was pushed. */
  predicate Applied(s: State, i: Name, m: Name) {
    m == i || (i, m) in s.applied
  }

  /** `batches` are the lists i has applied, in some order, each at least once. */
  ghost predicate AppliedLists(s: State, lists: Lists, i: Name, batches: seq<seq<Announcement>>) {
    && (forall b :: b in batches ==> exists m :: Applied(s, i, m) && b == lists(m))
    && (forall m :: Applied(s, i, m) ==> lists(m) in batches)
  }

  ghost predicate ListsTieFree(lists: Lists, group: set<Name>) {
    forall m, n, a, b ::
      (m in group && n in group && a in lists(m) && b in lists(n)
       && a.Path() == b.Path() && a.stat.lastInfoUpdated == b.stat.lastInfoUpdated)
      ==> a.stat == b.stat
  }

  ghost predicate ListsTypeConsistent(lists: Lists, group: set<Name>) {
    forall m, n, a, b ::
      (m in group && n in group && a in lists(m) && b in lists(n) && a.Path() < b.Path())
      ==> a.stat.dir && a.stat.size == 0
  }

  // ---- which lists nodes have applied ----

  /** No node of the group knows one outside. */
  ghost predicate Closed(s: State, group: set<Name>) {
    forall i, j :: i in group && Knows(s, i, j) ==> j in group
  }

  /** Every node of the group has had its list applied by all nodes it knows. */
  ghost predicate AllApplied(s: State, group: set<Name>) {
    forall i, j :: i in group && Knows(s, i, j) ==> (j, i) in s.applied
  }

  ghost predicate SameLists(s: State, i: Name, j: Name) {
    forall m :: Applied(s, i, m) <==> Applied(s, j, m)
  }

  /** At rest, a group of nodes with no pending greets among them: nodes that know each other
      have applied the same lists exactly if every list has been applied by all nodes that
      its owner knows. */
  lemma SameListsIff(nodes: set<Name>, states: seq<State>, events: seq<Event>, k: nat, group: set<Name>)
    requires IsRun(nodes, states, events) && k <= |events| && Quiescent(states[k])
    requires Closed(states[k], group) && NonePending(states[k], group)
    ensures (forall i, j :: i in group && Knows(states[k], i, j) ==> SameLists(states[k], i, j))
            <==> AllApplied(states[k], group)
  {
    var s := states[k];
    if AllApplied(s, group) {
      forall i, j | i in group && Knows(s, i, j) ensures SameLists(s, i, j) {
        FullMesh(nodes, states, events, k, group);
        forall m ensures Applied(s, i, m) <==> Applied(s, j, m) {
          if Applied(s, i, m) {
            PassedOn(nodes, states, events, k, group, i, j, m);
          }
          if Applied(s, j, m) {
            PassedOn(nodes, states, events, k, group, j, i, m);
          }
        }
      }
    }
    if forall i, j :: i in group && Knows(s, i, j) ==> SameLists(s, i, j) {
      forall i, j | i in group && Knows(s, i, j) ensures (j, i) in s.applied {
        RunInv(nodes, states, events, k);
        assert SameLists(s, i, j) && Applied(s, i, i);
        assert Applied(s, j, i) && i != j;
      }
    }
  }

  lemma PassedOn(nodes: set<Name>, states: seq<State>, events: seq<Event>, k: nat, group: set<Name>,
                 i: Name, j: Name, m: Name)
    requires IsRun(nodes, states, events) && k <= |events| && Quiescent(states[k])
    requires Closed(states[k], group) && NonePending(states[k], group) && AllApplied(states[k], group)
    requires i in group && Knows(states[k], i, j) && Applied(states[k], i, m)
    ensures Applied(states[k], j, m)
  {
    var s := states[k];
    FullMesh(nodes, states, events, k, group);
    if m != i && m != j {
      AppliedIsKnown(nodes, states, events, k, i, m);
      assert m in group && Knows(s, m, i) && Knows(s, m, j);
    }
  }

  lemma FlattenApplied(s: State, lists: Lists, i: Name, h: seq<seq<Announcement>>, a: Announcement)
    requires AppliedLists(s, lists, i, h)
    ensures a in Flatten(h) <==> exists m :: Applied(s, i, m) && a in lists(m)
  {
    FlattenMembers(h, a);
    if m :| Applied(s, i, m) && a in lists(m) {
      assert lists(m) in h;
    }
  }

  lemma SameFlattened(s: State, lists: Lists, i: Name, h: seq<seq<Announcement>>, j: Name, h': seq<seq<Announcement>>)
    requires AppliedLists(s, lists, i, h) && AppliedLists(s, lists, j, h') && SameLists(s, i, j)
    ensures SameAnnouncements(Flatten(h), Flatten(h'))
  {
    forall a ensures a in Flatten(h) <==> a in Flatten(h') {
      FlattenApplied(s, lists, i, h, a);
      FlattenApplied(s, lists, j, h', a);
    }
  }

  // ---- what they show ----

  /** The whole system. When all tasks have ended, take a group of nodes that know none outside
      it, whose greets of each other are not pending, and whose lists have been applied by
      those they know, whatever happened before or elsewhere. Then any two of them linked
      within the group show the same paths, and the same stats up to the owners of
      directories; and these too, if no list leaves a directory other than by descending
      through it. */
  lemma GroupsAgree(nodes: set<Name>, states: seq<State>, events: seq<Event>, k: nat,
                    group: set<Name>, path: seq<Name>, lists: Lists,
                    h: seq<seq<Announcement>>, u: Tree, h': seq<seq<Announcement>>, v: Tree, p: seq<string>)
    requires IsRun(nodes, states, events) && k <= |events| && Quiescent(states[k])
    requires Closed(states[k], group) && NonePending(states[k], group) && AllApplied(states[k], group)
    requires Connected(states[k], path) && forall n :: n in path ==> n in group
    requires ListsTieFree(lists, group) && ListsTypeConsistent(lists, group)
    requires AppliedLists(states[k], lists, path[0], h) && History(NewRoot(), h, u)
    requires AppliedLists(states[k], lists, path[|path| - 1], h') && History(NewRoot(), h', v)
    ensures Lookup(u, p).Some? <==> Lookup(v, p).Some?
    ensures Lookup(u, p).Some? ==>
              var s, s' := Lookup(u, p).value, Lookup(v, p).value;
              SameButOwner(s, s') && (!s.dir ==> s == s')
    ensures (forall m :: m in group ==> Owned(lists(m)) && Aggregates(lists(m))) ==> Lookup(u, p) == Lookup(v, p)
  {
    var s, i, l := states[k], path[0], path[|path| - 1];
    if i != l {
      ConnectedComplete(nodes, states, events, k, group, path);
      assert i in path;
      SameListsIff(nodes, states, events, k, group);
    }
    SameFlattened(s, lists, i, h, l, h');
    assert i in path && l in path;
    AppliedInGroup(nodes, states, events, k, group, i);
    AppliedInGroup(nodes, states, events, k, group, l);
    ListsConsistent(s, lists, group, i, h);
    EventuallyConsistent(NewRoot(), h, u, h', v, p);
    if forall m :: m in group ==> Owned(lists(m)) && Aggregates(lists(m)) {
      NewRootAggregated(Flatten(h));
      FullAgreement(NewRoot(), h, u, h', v, p);
    }
  }

  lemma AppliedInGroup(nodes: set<Name>, states: seq<State>, events: seq<Event>, k: nat, group: set<Name>, i: Name)
    requires IsRun(nodes, states, events) && k <= |events| && Closed(states[k], group) && i in group
    ensures forall m :: Applied(states[k], i, m) ==> m in group
  {
    forall m | Applied(states[k], i, m) && m != i ensures m in group {
      AppliedIsKnown(nodes, states, events, k, i, m);
    }
  }

  lemma ListsConsistent(s: State, lists: Lists, group: set<Name>, i: Name, h: seq<seq<Announcement>>)
    requires AppliedLists(s, lists, i, h) && forall m :: Applied(s, i, m) ==> m in group
    requires ListsTieFree(lists, group) && ListsTypeConsistent(lists, group)
    ensures TieFree(Flatten(h)) && TypeConsistent(Flatten(h))
  {
    forall a ensures a in Flatten(h) <==> exists m :: Applied(s, i, m) && a in lists(m) {
      FlattenApplied(s, lists, i, h, a);
    }
  }
}
