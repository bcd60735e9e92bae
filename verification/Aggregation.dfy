/**
  After a batch, every directory whose last touching run descends through it shows exactly
  its children's common owner; and if that goes for all directories passed through, as in a
  contiguous batch, applying the same batch again changes nothing.
*/
module Aggregation {
  import opened Announcements
  import opened Convergence
  import opened FileTree
  import opened Meaning
  import opened Owners
  import opened Ownership
  import opened Wrappers

  /** At every level, announcements sharing a component are adjacent. */
  ghost predicate Contiguous(anns: seq<Announcement>)
    decreases Depth(anns), |anns|
  {
    anns != [] ==>
      var n := LastRun(anns);
      DepthOfPart(anns, n);
      && (forall a :: a in anns[..n] ==> a.first != anns[n].first)
      && Contiguous(anns[..n])
      && (NestedDepth(anns[n..]); Contiguous(Nested(anns[n..])))
  }

  /** The last run that touches `p` also descends through it. */
  ghost predicate DescendsLast(anns: seq<Announcement>, p: seq<string>)
    requires p != []
    decreases |p|, |anns|
  {
    anns != [] &&
    var n := LastRun(anns);
    if !Touched(anns[n..], p) then DescendsLast(anns[..n], p)
    else if |p| == 1 then Nested(anns[n..]) != []
    else DescendsLast(Nested(anns[n..]), p[1..])
  }

  lemma {:induction false} DescendsIsThrough(anns: seq<Announcement>, p: seq<string>)
    requires p != [] && DescendsLast(anns, p)
    ensures Through(anns, p)
    decreases |p|, |anns|
  {
    var n := LastRun(anns);
    var front, run := anns[..n], anns[n..];
    assert anns == front + run;
    TouchedConcat(front, run, p);
    var x, q := Uncons(p);
    if !Touched(run, p) {
      DescendsIsThrough(front, p);
    } else if x != run[0].first {
      OtherFirst(run, x, q);
    } else {
      TouchedByRun(run, x, q);
      if q == [] {
        assert p == [x];
      } else {
        DescendsIsThrough(Nested(run), q);
      }
    }
  }

  /** In a contiguous batch, a directory passed through is touched by one run only. */
  lemma {:induction false} ContiguousDescends(anns: seq<Announcement>, p: seq<string>)
    requires p != [] && Contiguous(anns) && Through(anns, p)
    ensures DescendsLast(anns, p)
    decreases |p|, |anns|
  {
    var n := LastRun(anns);
    var front, run := anns[..n], anns[n..];
    assert anns == front + run;
    TouchedConcat(front, run, p);
    var x, q := Uncons(p);
    if !Touched(run, p) {
      ContiguousDescends(front, p);
    } else if x != run[0].first {
      OtherFirst(run, x, q);
    } else {
      FirstsElsewhere(front, x, q);
      TouchedByRun(run, x, q);
      if q == [] {
        assert p == [x];
      } else {
        ContiguousDescends(Nested(run), q);
      }
    }
  }

  lemma FirstsElsewhere(anns: seq<Announcement>, x: string, q: seq<string>)
    requires forall a :: a in anns ==> a.first != x
    ensures !Touched(anns, [x] + q)
  {
    forall a | a in anns ensures !([x] + q <= a.Path()) {
      PathAfter(a, x, q);
    }
  }

  // ---- owners after a batch ----

  /** Every non-root node has an owner. */
  ghost predicate HasOwners(t: Tree) {
    forall k :: k in t.kids ==> t.kids[k].stat.owner != "" && HasOwners(t.kids[k])
  }

  lemma KidHasOwners(m: Tree, name: string, e: Tree)
    requires HasOwners(m) && HasOwners(e) && e.stat.owner != ""
    ensures HasOwners(Tree(m.stat, m.kids[name := e]))
  {
  }

  lemma {:induction false} UpdateHasOwners(t: Tree, anns: seq<Announcement>, t': Tree)
    requires Updates(t, anns, t') && HasOwners(t) && Owned(anns)
    ensures HasOwners(t')
    decreases Depth(anns), |anns|, 1
  {
    if anns != [] {
      var front, m, run := LastRunOf(t, anns, t');
      assert forall a :: a in front || a in run ==> a in anns;
      UpdateHasOwners(t, front, m);
      var name := run[0].first;
      EntryHasOwners(Entry(m, name), run, t'.kids[name]);
      KidHasOwners(m, name, t'.kids[name]);
    }
  }

  lemma {:induction false} EntryHasOwners(e: Tree, run: seq<Announcement>, e': Tree)
    requires run != [] && RunEffect(e, run, e') && HasOwners(e) && Owned(run)
    requires e.stat.owner == "" ==> e.stat.lastInfoUpdated == 0
    ensures e'.stat.owner != "" && HasOwners(e')
    decreases Depth(run), |run|, 0
  {
    NestedOwned(run);
    LeavesSound(e.stat, map[], Leaves(run));
    NestedDepth(run);
    if Nested(run) != [] {
      var dir := SetAsDir(AbsorbAll(e.stat, Leaves(run)));
      UpdateHasOwners(Tree(dir, e.kids), Nested(run), Tree(dir, e'.kids));
      UpdateAddsKid(Tree(dir, e.kids), Nested(run), Tree(dir, e'.kids));
      OwnedRecalculation(e'.kids, e'.stat.owner);
    }
  }

  // ---- exact aggregation ----

  /** A directory whose owner is exactly its children's common one. */
  ghost predicate Exact(e: Option<Tree>) {
    && e.Some?
    && e.value.stat.dir && e.value.stat.size == 0
    && AllOwned(e.value.kids)
    && IsCommonOwner(e.value.kids, e.value.stat.owner)
  }

  /** What is not touched stays as it is, with all that lies below. */
  lemma {:induction false} UntouchedAt(t: Tree, anns: seq<Announcement>, t': Tree, p: seq<string>)
    requires p != [] && Updates(t, anns, t') && !Touched(anns, p)
    ensures At(t', p) == At(t, p)
    decreases |p|, |anns|, 1
  {
    if anns != [] {
      var front, m, run := LastRunOf(t, anns, t');
      TouchedConcat(front, run, p);
      UntouchedAt(t, front, m, p);
      UntouchedByRun(m, run, t', p);
    }
  }

  lemma {:induction false} UntouchedByRun(t: Tree, run: seq<Announcement>, t': Tree, p: seq<string>)
    requires p != [] && SameFirst(run) && AppliesRun(t, run, t') && !Touched(run, p)
    ensures At(t', p) == At(t, p)
    decreases |p|, |run|, 0
  {
    var x, q := Uncons(p);
    if x == run[0].first {
      var e, e' := Entry(t, x), t'.kids[x];
      TouchedByRun(run, x, q);
      assert q == [] ==> p == [x];
      NestedDepth(run);
      if Nested(run) != [] {
        var dir := SetAsDir(AbsorbAll(e.stat, Leaves(run)));
        UntouchedAt(Tree(dir, e.kids), Nested(run), Tree(dir, e'.kids), q);
      }
      assert At(e', q) == At(e, q);
    }
  }

  /** After an owned batch on a tree whose nodes have owners, a directory whose last touching
      run descends through it has as owner exactly its children's common one. */
  lemma {:induction false} ExactAggregation(t: Tree, anns: seq<Announcement>, t': Tree, p: seq<string>)
    requires Updates(t, anns, t') && HasOwners(t) && Owned(anns)
    requires p != [] && DescendsLast(anns, p)
    ensures Exact(At(t', p))
    decreases |p|, |anns|
  {
    var front, m, run := LastRunOf(t, anns, t');
    assert forall a :: a in front || a in run ==> a in anns;
    UpdateHasOwners(t, front, m);
    if !Touched(run, p) {
      ExactAggregation(t, front, m, p);
      UntouchedByRun(m, run, t', p);
    } else {
      var x, q := Uncons(p);
      if x != run[0].first {
        OtherFirst(run, x, q);
      } else {
        ExactEntry(Entry(m, x), run, t'.kids[x], q);
      }
    }
  }

  lemma {:induction false} ExactEntry(e: Tree, run: seq<Announcement>, e': Tree, q: seq<string>)
    requires run != [] && RunEffect(e, run, e') && HasOwners(e) && Owned(run)
    requires if q == [] then Nested(run) != [] else DescendsLast(Nested(run), q)
    ensures Exact(At(e', q))
    decreases |q| + 1, 0
  {
    NestedOwned(run);
    var dir := SetAsDir(AbsorbAll(e.stat, Leaves(run)));
    var d, d' := Tree(dir, e.kids), Tree(dir, e'.kids);
    if q == [] {
      UpdateHasOwners(d, Nested(run), d');
      UpdateAddsKid(d, Nested(run), d');
      OwnedRecalculation(e'.kids, e'.stat.owner);
    } else {
      ExactAggregation(d, Nested(run), d', q);
      assert At(e', q) == At(d', q);
    }
  }

  // ---- idempotence ----

  /** All directories passed through are left by descending through them. */
  ghost predicate AllDescend(anns: seq<Announcement>) {
    forall p :: p != [] && Through(anns, p) ==> DescendsLast(anns, p)
  }

  /** The tree already reflects the batch. */
  ghost predicate Settled(t: Tree, anns: seq<Announcement>) {
    && (forall a :: a in anns ==>
          Lookup(t, a.Path()).Some? && a.stat.lastInfoUpdated <= Lookup(t, a.Path()).value.lastInfoUpdated)
    && forall p :: p != [] && Through(anns, p) ==> Exact(At(t, p))
  }

  lemma {:induction false} FoldKeepsNewest(s: FileStat, news: seq<FileStat>)
    ensures AbsorbAll(s, news).lastInfoUpdated >= s.lastInfoUpdated
    ensures forall a :: a in news ==> a.lastInfoUpdated <= AbsorbAll(s, news).lastInfoUpdated
  {
    if news != [] {
      FoldKeepsNewest(s, news[..|news| - 1]);
      assert forall a :: a in news ==> a in news[..|news| - 1] || a == news[|news| - 1];
    }
  }

  lemma UpdateSettles(t: Tree, anns: seq<Announcement>, t': Tree)
    requires Updates(t, anns, t') && HasOwners(t) && Owned(anns) && AllDescend(anns)
    ensures Settled(t', anns)
  {
    forall p | p != [] && Through(anns, p) ensures Exact(At(t', p)) {
      ExactAggregation(t, anns, t', p);
    }
    forall a | a in anns
      ensures Lookup(t', a.Path()).Some?
      ensures a.stat.lastInfoUpdated <= Lookup(t', a.Path()).value.lastInfoUpdated
    {
      var p := a.Path();
      UpdateMeans(t, anns, t', p);
      OwnMembers(anns, p);
      FoldKeepsNewest(Base(Lookup(t, p), p), Own(anns, p));
    }
  }

  lemma {:induction false} SettledIsFixed(t: Tree, anns: seq<Announcement>, t': Tree)
    requires Settled(t, anns) && Updates(t, anns, t')
    ensures t' == t
    decreases Depth(anns), |anns|, 1
  {
    if anns != [] {
      var front, m, run := LastRunOf(t, anns, t');
      SettledPart(t, anns, front);
      SettledPart(t, anns, run);
      SettledIsFixed(t, front, m);
      SettledRunIsFixed(t, run, t');
    }
  }

  lemma SettledPart(t: Tree, anns: seq<Announcement>, part: seq<Announcement>)
    requires Settled(t, anns) && forall a :: a in part ==> a in anns
    ensures Settled(t, part)
  {
    assert forall p :: Through(part, p) ==> Through(anns, p);
  }

  lemma {:induction false} SettledRunIsFixed(t: Tree, run: seq<Announcement>, t': Tree)
    requires SameFirst(run) && Settled(t, run) && AppliesRun(t, run, t')
    ensures t' == t
    decreases Depth(run), |run|, 0
  {
    var x := run[0].first;
    SettledEntry(t, run, x);
    SettledNested(t, run, x);
    var e, e' := t.kids[x], t'.kids[x];
    var _ := FoldIsNewest(e.stat, Leaves(run));
    NestedDepth(run);
    if Nested(run) != [] {
      assert SetAsDir(e.stat) == e.stat && Tree(e.stat, e.kids) == e;
      SettledIsFixed(e, Nested(run), Tree(e.stat, e'.kids));
      OwnedRecalculation(e.kids, e'.stat.owner);
    }
  }

  lemma KidLookup(t: Tree, x: string, q: seq<string>)
    ensures Lookup(t, [x] + q).Some? ==> x in t.kids
    ensures x in t.kids ==> Lookup(t, [x] + q) == Lookup(t.kids[x], q) && At(t, [x] + q) == At(t.kids[x], q)
  {
    assert ([x] + q)[0] == x && ([x] + q)[1..] == q;
  }

  /** What it means for the run's entry that the run is reflected. */
  lemma SettledEntry(t: Tree, run: seq<Announcement>, x: string)
    requires SameFirst(run) && run[0].first == x && Settled(t, run)
    ensures x in t.kids
    ensures forall s :: s in Leaves(run) ==> s.lastInfoUpdated <= t.kids[x].stat.lastInfoUpdated
    ensures Nested(run) != [] ==> Exact(Some(t.kids[x]))
  {
    assert run[0] in run;
    KidLookup(t, x, run[0].rest);
    KidLookup(t, x, []);
    assert [x] + [] == [x];
    TouchedByRun(run, x, []);
    LeavesMembers(run);
    forall s | s in Leaves(run) ensures s.lastInfoUpdated <= t.kids[x].stat.lastInfoUpdated {
      var a :| a in run && a.IsLeaf() && a.stat == s;
      assert a.Path() == [x];
    }
  }

  /** And for what lies below the entry. */
  lemma SettledNested(t: Tree, run: seq<Announcement>, x: string)
    requires SameFirst(run) && run[0].first == x && Settled(t, run) && x in t.kids
    ensures Settled(t.kids[x], Nested(run))
  {
    var e := t.kids[x];
    NestedMembers(run);
    forall b | b in Nested(run)
      ensures Lookup(e, b.Path()).Some? && b.stat.lastInfoUpdated <= Lookup(e, b.Path()).value.lastInfoUpdated
    {
      var a :| a in run && !a.IsLeaf() && a.Shift() == b;
      PathAfter(a, x, a.rest);
      KidLookup(t, x, b.Path());
    }
    forall q | q != [] && Through(Nested(run), q) ensures Exact(At(e, q)) {
      TouchedByRun(run, x, q);
      KidLookup(t, x, q);
      assert [x] + q != [];
    }
  }

  /** Applying a batch again leaves the tree as it is. */
  lemma UpdateIdempotent(t: Tree, anns: seq<Announcement>, t': Tree, t'': Tree)
    requires HasOwners(t) && Owned(anns) && AllDescend(anns)
    requires Updates(t, anns, t') && Updates(t', anns, t'')
    ensures t'' == t'
  {
    UpdateSettles(t, anns, t');
    SettledIsFixed(t', anns, t'');
  }

  lemma ContiguousAllDescend(anns: seq<Announcement>)
    requires Contiguous(anns)
    ensures AllDescend(anns)
  {
    forall p | p != [] && Through(anns, p) ensures DescendsLast(anns, p) {
      ContiguousDescends(anns, p);
    }
  }
}
