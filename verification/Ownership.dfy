/**
  Updates always have a result, and over any history every single-owner directory holds
  only that owner's files.
*/
module Ownership {
  import opened Announcements
  import opened Convergence
  import opened FileTree
  import opened Meaning
  import opened Owners
  import opened Wrappers

  // ---- every update has a result ----

  lemma {:induction false} UpdateTotal(t: Tree, anns: seq<Announcement>) returns (t': Tree)
    ensures Updates(t, anns, t')
    decreases Depth(anns), |anns|, 1
  {
    if anns == [] {
      t' := t;
    } else {
      var n := LastRun(anns);
      DepthOfPart(anns, n);
      var m := UpdateTotal(t, anns[..n]);
      var e' := RunTotal(Entry(m, anns[n].first), anns[n..]);
      t' := Tree(m.stat, m.kids[anns[n].first := e']);
      assert AppliesRun(m, anns[n..], t');
    }
  }

  lemma {:induction false} RunTotal(e: Tree, run: seq<Announcement>) returns (e': Tree)
    ensures RunEffect(e, run, e')
    decreases Depth(run), |run|, 0
  {
    var stat := AbsorbAll(e.stat, Leaves(run));
    NestedDepth(run);
    if Nested(run) == [] {
      e' := Tree(stat, e.kids);
    } else {
      var dir := SetAsDir(stat);
      var d := UpdateTotal(Tree(dir, e.kids), Nested(run));
      UpdateMeans(Tree(dir, e.kids), Nested(run), d, [""]);
      var owner := SomeOwner(d.kids);
      e' := Tree(dir.(owner := owner), d.kids);
      assert d == Tree(dir, e'.kids);
    }
  }

  // ---- single-owner soundness ----

  /** Announcements as nodes send them: with a real owner and a real time. */
  predicate Owned(anns: seq<Announcement>) {
    forall a :: a in anns ==> OwnedStat(a.stat)
  }

  predicate OwnedStat(s: FileStat) {
    s.owner != "" && s.owner != MULTIPLE_OWNERS && s.lastInfoUpdated > 0
  }

  /** No announcement makes a file of a node that has children. */
  ghost predicate Compatible(t: Tree, anns: seq<Announcement>) {
    forall a, x :: a in anns && !a.stat.dir ==> Lookup(t, a.Path() + [x]) == None
  }

  /** The invariant of a non-root node: it has an owner, it is a directory if it has
      children, and these share its owner unless that is "(multiple)". */
  ghost predicate Sound(e: Tree)
    decreases e, 1
  {
    && e.stat.owner != ""
    && SoundStat(e.stat, e.kids)
    && SoundKids(e)
  }

  ghost predicate SoundKids(t: Tree)
    decreases t, 0
  {
    forall k :: k in t.kids ==> Sound(t.kids[k])
  }

  ghost predicate SoundStat(s: FileStat, kids: map<string, Tree>) {
    kids != map[] ==>
      && s.dir
      && s.owner != ""
      && (s.owner != MULTIPLE_OWNERS ==> forall k :: k in kids ==> kids[k].stat.owner == s.owner)
  }

  lemma {:induction false} LeavesSound(s: FileStat, kids: map<string, Tree>, news: seq<FileStat>)
    requires SoundStat(s, kids) && (s.owner == "" ==> s.lastInfoUpdated == 0)
    requires forall a :: a in news ==> OwnedStat(a) && (a.dir || kids == map[])
    ensures SoundStat(AbsorbAll(s, news), kids)
    ensures AbsorbAll(s, news).owner == "" ==> news == [] && s.owner == ""
  {
    if news != [] {
      LeavesSound(s, kids, news[..|news| - 1]);
    }
  }

  lemma {:induction false} LeavesMembers(run: seq<Announcement>)
    ensures forall s :: s in Leaves(run) <==> exists a :: a in run && a.IsLeaf() && a.stat == s
  {
    if run != [] {
      var front, last := run[..|run| - 1], run[|run| - 1];
      LeavesMembers(front);
      forall s ensures s in Leaves(run) <==> exists a :: a in run && a.IsLeaf() && a.stat == s {
        if s in Leaves(front) {
          var a :| a in front && a.IsLeaf() && a.stat == s;
          assert a in run;
        }
        if a :| a in run && a.IsLeaf() && a.stat == s {
          assert a in front || a == last;
        }
      }
    }
  }

  // What the hypotheses on a run say about its parts, one level down.

  lemma NestedConsistent(run: seq<Announcement>, x: string)
    requires (forall a :: a in run ==> a.first == x) && TypeConsistent(run)
    ensures TypeConsistent(Nested(run))
  {
    NestedMembers(run);
    forall a, b | a in Nested(run) && b in Nested(run) && a.Path() < b.Path()
      ensures a.stat.dir && a.stat.size == 0
    {
      var a' :| a' in run && !a'.IsLeaf() && a'.Shift() == a;
      var b' :| b' in run && !b'.IsLeaf() && b'.Shift() == b;
      PathAfter(a', x, a'.rest);
      PathAfter(b', x, a'.rest);
      assert a'.Path() < b'.Path();
    }
  }

  lemma NestedOwned(run: seq<Announcement>)
    requires Owned(run)
    ensures Owned(Nested(run)) && forall s :: s in Leaves(run) ==> OwnedStat(s)
  {
    NestedMembers(run);
    LeavesMembers(run);
  }

  lemma NestedCompatible(t: Tree, run: seq<Announcement>, x: string, dir: FileStat)
    requires (forall a :: a in run ==> a.first == x) && Compatible(t, run)
    ensures Compatible(Tree(dir, Entry(t, x).kids), Nested(run))
  {
    var e := Entry(t, x);
    NestedMembers(run);
    forall a, y | a in Nested(run) && !a.stat.dir ensures Lookup(Tree(dir, e.kids), a.Path() + [y]) == None {
      var a' :| a' in run && !a'.IsLeaf() && a'.Shift() == a;
      PathAfter(a', x, a'.rest);
      var q := a.Path() + [y];
      assert a'.Path() + [y] == [x] + q;
      LookupBelow(t, x, q);
      assert Lookup(Tree(dir, e.kids), q) == Lookup(e, q);
    }
  }

  lemma FileLeafHasNoKids(t: Tree, run: seq<Announcement>, x: string)
    requires (forall a :: a in run ==> a.first == x) && Compatible(t, run)
    ensures forall s :: s in Leaves(run) && !s.dir ==> Entry(t, x).kids == map[]
  {
    var e := Entry(t, x);
    LeavesMembers(run);
    forall s | s in Leaves(run) && !s.dir ensures e.kids == map[] {
      var a :| a in run && a.IsLeaf() && a.stat == s;
      assert a.Path() == [x];
      forall y ensures y !in e.kids {
        assert Lookup(t, a.Path() + [y]) == None;
        LookupBelow(t, x, [y]);
      }
    }
  }

  lemma CompatibleAfter(t: Tree, front: seq<Announcement>, m: Tree, rest: seq<Announcement>)
    requires forall p :: p != [] ==> Means(Lookup(t, p), front, p, Lookup(m, p))
    requires Compatible(t, front + rest) && TypeConsistent(front + rest)
    ensures Compatible(m, rest)
  {
    forall a, x | a in rest && !a.stat.dir ensures Lookup(m, a.Path() + [x]) == None {
      assert a in front + rest;
      TouchedConcat(front, rest, a.Path() + [x]);
    }
  }

  lemma {:induction false} UpdateSound(t: Tree, anns: seq<Announcement>, t': Tree)
    requires Updates(t, anns, t') && SoundKids(t)
    requires Owned(anns) && TypeConsistent(anns) && Compatible(t, anns)
    ensures SoundKids(t')
    decreases Depth(anns), |anns|, 2
  {
    if anns != [] {
      var front, m, run := LastRunOf(t, anns, t');
      assert forall a :: a in front || a in run ==> a in anns;
      UpdateSound(t, front, m);
      forall p | p != [] ensures Means(Lookup(t, p), front, p, Lookup(m, p)) {
        UpdateMeans(t, front, m, p);
      }
      CompatibleAfter(t, front, m, run);
      RunSound(m, run, t');
    }
  }

  lemma {:induction false} RunSound(t: Tree, run: seq<Announcement>, t': Tree)
    requires SameFirst(run) && AppliesRun(t, run, t') && SoundKids(t)
    requires Owned(run) && TypeConsistent(run) && Compatible(t, run)
    ensures SoundKids(t')
    decreases Depth(run), |run|, 1
  {
    var x := run[0].first;
    NestedOwned(run);
    FileLeafHasNoKids(t, run, x);
    NestedConsistent(run, x);
    NestedCompatible(t, run, x, SetAsDir(AbsorbAll(Entry(t, x).stat, Leaves(run))));
    EntrySound(Entry(t, x), run, t'.kids[x]);
  }

  lemma {:induction false} EntrySound(e: Tree, run: seq<Announcement>, e': Tree)
    requires run != [] && RunEffect(e, run, e')
    requires SoundKids(e) && SoundStat(e.stat, e.kids) && (e.stat.owner == "" ==> e.stat.lastInfoUpdated == 0)
    requires forall s :: s in Leaves(run) ==> OwnedStat(s) && (s.dir || e.kids == map[])
    requires Owned(Nested(run)) && TypeConsistent(Nested(run))
    requires Compatible(Tree(SetAsDir(AbsorbAll(e.stat, Leaves(run))), e.kids), Nested(run))
    ensures Sound(e')
    decreases Depth(run), |run|, 0
  {
    LeavesSound(e.stat, e.kids, Leaves(run));
    NestedDepth(run);
    if Nested(run) != [] {
      var dir := SetAsDir(AbsorbAll(e.stat, Leaves(run)));
      DirectorySound(Tree(dir, e.kids), Nested(run), e');
    }
  }

  lemma {:induction false} DirectorySound(d: Tree, nested: seq<Announcement>, e': Tree)
    requires nested != [] && Updates(d, nested, Tree(d.stat, e'.kids)) && MayOwn(e'.kids, e'.stat.owner)
    requires e'.stat.dir && SoundKids(d)
    requires Owned(nested) && TypeConsistent(nested) && Compatible(d, nested)
    ensures Sound(e')
    decreases Depth(nested), |nested|, 3
  {
    UpdateSound(d, nested, Tree(d.stat, e'.kids));
    UpdateAddsKid(d, nested, Tree(d.stat, e'.kids));
    OwnedRecalculation(e'.kids, e'.stat.owner);
  }

  lemma UpdateAddsKid(t: Tree, anns: seq<Announcement>, t': Tree)
    requires Updates(t, anns, t') && anns != []
    ensures t'.kids != map[]
  {
    var front, m, run := LastRunOf(t, anns, t');
  }

  lemma {:induction false} HistorySound(t: Tree, batches: seq<seq<Announcement>>, t': Tree)
    requires History(t, batches, t') && SoundKids(t)
    requires Owned(Flatten(batches)) && TypeConsistent(Flatten(batches)) && Compatible(t, Flatten(batches))
    ensures SoundKids(t')
    decreases |batches|
  {
    if batches != [] {
      var front, last := batches[..|batches| - 1], batches[|batches| - 1];
      var m :| History(t, front, m) && Updates(m, last, t');
      var anns := Flatten(batches);
      assert forall a :: a in Flatten(front) || a in last ==> a in anns;
      HistorySound(t, front, m);
      forall p | p != [] ensures Means(Lookup(t, p), Flatten(front), p, Lookup(m, p)) {
        HistoryMeans(t, front, m, p);
      }
      CompatibleAfter(t, Flatten(front), m, last);
      UpdateSound(m, last, t');
    }
  }

  /** A tree as it is before the first update. */
  function NewRoot(): Tree {
    Tree(BlankStat("").(dir := true), map[])
  }

  /** Single-owner soundness and directory shape. Whatever owned, type-consistent batches a
      new root has been through: every non-root node has an owner; every node with children
      is a directory; and if a node's owner is a single node, everything below it belongs
      to that node. */
  lemma SingleOwnerSoundness(batches: seq<seq<Announcement>>, t: Tree, p: seq<string>, q: seq<string>)
    requires History(NewRoot(), batches, t) && Owned(Flatten(batches)) && TypeConsistent(Flatten(batches))
    requires p != [] && Lookup(t, p).Some?
    ensures
      var s := Lookup(t, p).value;
      && s.owner != ""
      && (Lookup(t, p + q).Some? && q != [] ==> s.dir)
      && (Lookup(t, p + q).Some? && s.owner != MULTIPLE_OWNERS ==> Lookup(t, p + q).value.owner == s.owner)
  {
    HistorySound(NewRoot(), batches, t);
    LookupSound(t, p, q);
  }

  lemma {:induction false} LookupSound(t: Tree, p: seq<string>, q: seq<string>)
    requires SoundKids(t) && p != [] && Lookup(t, p).Some?
    ensures
      var s := Lookup(t, p).value;
      && s.owner != ""
      && (Lookup(t, p + q).Some? && q != [] ==> s.dir)
      && (Lookup(t, p + q).Some? && s.owner != MULTIPLE_OWNERS ==> Lookup(t, p + q).value.owner == s.owner)
    decreases |p|
  {
    var e := t.kids[p[0]];
    assert (p + q)[1..] == p[1..] + q && (p + q)[0] == p[0];
    if |p| == 1 {
      assert p[1..] + q == q;
      assert p == [p[0]];
      if Lookup(e, q).Some? {
        DescendantsShareOwner(e, q);
      }
    } else {
      LookupSound(e, p[1..], q);
    }
  }

  lemma {:induction false} DescendantsShareOwner(e: Tree, q: seq<string>)
    requires Sound(e) && Lookup(e, q).Some?
    ensures q != [] ==> e.stat.dir
    ensures e.stat.owner != MULTIPLE_OWNERS ==> Lookup(e, q).value.owner == e.stat.owner
    decreases |q|
  {
    if q != [] {
      DescendantsShareOwner(e.kids[q[0]], q[1..]);
    }
  }
}
