/**
  Grouping, batching, order and repetition of announcements: what they can and cannot
  change in the resulting tree.
*/
module Convergence {
  import opened Announcements
  import opened FileTree
  import opened Meaning

  predicate SameButOwner(s: FileStat, s': FileStat) {
    s' == s.(owner := s'.owner)
  }

  /** Announced paths are directories of size 0 wherever another announcement lies below. */
  ghost predicate TypeConsistent(anns: seq<Announcement>) {
    forall a, b :: a in anns && b in anns && a.Path() < b.Path() ==> a.stat.dir && a.stat.size == 0
  }

  /** Equal timestamps on one path occur only with equal stats. */
  ghost predicate TieFree(anns: seq<Announcement>) {
    forall a, b ::
      (a in anns && b in anns && a.Path() == b.Path() && a.stat.lastInfoUpdated == b.stat.lastInfoUpdated)
      ==> a.stat == b.stat
  }

  ghost predicate SameAnnouncements(anns: seq<Announcement>, anns': seq<Announcement>) {
    forall a :: a in anns <==> a in anns'
  }

  /** A run of any number of batches means what their concatenation means. */
  lemma {:induction false} HistoryMeans(t: Tree, batches: seq<seq<Announcement>>, t': Tree, p: seq<string>)
    requires History(t, batches, t') && p != []
    ensures t'.stat == t.stat
    ensures Means(Lookup(t, p), Flatten(batches), p, Lookup(t', p))
    decreases |batches|
  {
    if batches != [] {
      var front, last := batches[..|batches| - 1], batches[|batches| - 1];
      var m :| History(t, front, m) && Updates(m, last, t');
      HistoryMeans(t, front, m, p);
      UpdateMeans(m, last, t', p);
      MeansConcat(Lookup(t, p), Flatten(front), Lookup(m, p), last, Lookup(t', p), p);
    }
  }

  lemma {:induction false} OwnMembers(anns: seq<Announcement>, p: seq<string>)
    ensures forall s :: s in Own(anns, p) <==> exists a :: a in anns && a.Path() == p && a.stat == s
  {
    if anns != [] {
      var front, last := anns[..|anns| - 1], anns[|anns| - 1];
      OwnMembers(front, p);
      forall s ensures s in Own(anns, p) <==> exists a :: a in anns && a.Path() == p && a.stat == s {
        if s in Own(front, p) {
          var a :| a in front && a.Path() == p && a.stat == s;
          assert a in anns;
        }
        if a :| a in anns && a.Path() == p && a.stat == s {
          assert a in front || a == last;
        }
      }
    }
  }

  lemma PassedOnlyAsDir(anns: seq<Announcement>, p: seq<string>)
    requires TypeConsistent(anns) && Through(anns, p)
    ensures OnlyAsDir(Own(anns, p))
  {
    OwnMembers(anns, p);
  }

  // ---- kind and size, exactly ----

  /** What the runs of a batch make of the stat at `p`, as far as owners do not matter: each
      run that reaches `p` absorbs its announcements for `p`, and if it goes on below makes
      it a directory of size 0. */
  function Traverse(s: FileStat, anns: seq<Announcement>, p: seq<string>): FileStat
    requires p != []
    decreases |p|, |anns|, 1
  {
    if anns == [] then s
    else
      var n := LastRun(anns);
      TraverseRun(Traverse(s, anns[..n], p), anns[n..], p)
  }

  function TraverseRun(s: FileStat, run: seq<Announcement>, p: seq<string>): FileStat
    requires p != [] && run != []
    decreases |p|, |run|, 0
  {
    if run[0].first != p[0] then s
    else if |p| > 1 then Traverse(s, Nested(run), p[1..])
    else if Nested(run) == [] then AbsorbAll(s, Leaves(run))
    else SetAsDir(AbsorbAll(s, Leaves(run)))
  }

  lemma {:induction false} AbsorbAllButOwner(s: FileStat, s': FileStat, news: seq<FileStat>)
    requires SameButOwner(s, s')
    ensures SameButOwner(AbsorbAll(s, news), AbsorbAll(s', news))
  {
    if news != [] {
      AbsorbAllButOwner(s, s', news[..|news| - 1]);
    }
  }

  lemma {:induction false} TraverseButOwner(s: FileStat, s': FileStat, anns: seq<Announcement>, p: seq<string>)
    requires p != [] && SameButOwner(s, s')
    ensures SameButOwner(Traverse(s, anns, p), Traverse(s', anns, p))
    decreases |p|, |anns|, 1
  {
    if anns != [] {
      var n := LastRun(anns);
      TraverseButOwner(s, s', anns[..n], p);
      TraverseRunButOwner(Traverse(s, anns[..n], p), Traverse(s', anns[..n], p), anns[n..], p);
    }
  }

  lemma {:induction false} TraverseRunButOwner(s: FileStat, s': FileStat, run: seq<Announcement>, p: seq<string>)
    requires p != [] && run != [] && SameButOwner(s, s')
    ensures SameButOwner(TraverseRun(s, run, p), TraverseRun(s', run, p))
    decreases |p|, |run|, 0
  {
    if run[0].first == p[0] {
      if |p| > 1 {
        TraverseButOwner(s, s', Nested(run), p[1..]);
      } else {
        AbsorbAllButOwner(s, s', Leaves(run));
      }
    }
  }

  /** The stat at a path after an update, up to its owner, for whatever tree and batch: also
      where announcements pass through what others announce as a file. */
  lemma {:induction false} UpdateTraverses(t: Tree, anns: seq<Announcement>, t': Tree, p: seq<string>)
    requires Updates(t, anns, t') && p != []
    ensures SameButOwner(Base(Lookup(t', p), p), Traverse(Base(Lookup(t, p), p), anns, p))
    decreases |p|, |anns|, 1
  {
    if anns != [] {
      var front, m, run := LastRunOf(t, anns, t');
      UpdateTraverses(t, front, m, p);
      RunTraverses(m, run, t', p);
      hide Updates, AppliesRun, TraverseRun;
      TraverseRunButOwner(Base(Lookup(m, p), p), Traverse(Base(Lookup(t, p), p), front, p), run, p);
    }
  }

  lemma {:induction false} RunTraverses(t: Tree, run: seq<Announcement>, t': Tree, p: seq<string>)
    requires run != [] && AppliesRun(t, run, t') && p != []
    ensures SameButOwner(Base(Lookup(t', p), p), TraverseRun(Base(Lookup(t, p), p), run, p))
    decreases |p|, |run|, 0
  {
    var x, q := Uncons(p);
    if x == run[0].first {
      EntryTraverses(Entry(t, x), run, t'.kids[x], q);
    }
  }

  /** A run at its entry and below. */
  lemma {:induction false} EntryTraverses(e: Tree, run: seq<Announcement>, e': Tree, q: seq<string>)
    requires run != [] && RunEffect(e, run, e')
    ensures
      if q != [] then SameButOwner(Base(Lookup(e', q), q), Traverse(Base(Lookup(e, q), q), Nested(run), q))
      else
        var stat := AbsorbAll(e.stat, Leaves(run));
        SameButOwner(e'.stat, if Nested(run) == [] then stat else SetAsDir(stat))
    decreases |q| + 1, 0, 0
  {
    if q != [] {
      if Nested(run) == [] {
        assert Lookup(e', q) == Lookup(e, q);
      } else {
        var dir := SetAsDir(AbsorbAll(e.stat, Leaves(run)));
        UpdateTraverses(Tree(dir, e.kids), Nested(run), Tree(dir, e'.kids), q);
        assert Lookup(Tree(dir, e.kids), q) == Lookup(e, q) && Lookup(Tree(dir, e'.kids), q) == Lookup(e', q);
      }
    }
  }

  // ---- refinement: grouping and batching ----

  /** Where the same announcements arrive in the same order, cutting them into batches
      differently -- one by one, say -- cannot show, except in the kind, size and owner of
      directories that announcements pass through; nor in kind and size if those are
      announced as directories only. */
  lemma BatchingIrrelevant(t: Tree, h: seq<seq<Announcement>>, u: Tree,
                           h': seq<seq<Announcement>>, v: Tree, p: seq<string>)
    requires History(t, h, u) && History(t, h', v) && Flatten(h) == Flatten(h')
    ensures Lookup(u, p).Some? <==> Lookup(v, p).Some?
    ensures !Through(Flatten(h), p) || p == [] ==> Lookup(u, p) == Lookup(v, p)
    ensures Lookup(u, p).Some? ==> SameCore(Lookup(u, p).value, Lookup(v, p).value)
    ensures Lookup(u, p).Some? && TypeConsistent(Flatten(h)) ==> SameButOwner(Lookup(u, p).value, Lookup(v, p).value)
  {
    if p == [] {
      HistoryMeans(t, h, u, [""]);
      HistoryMeans(t, h', v, [""]);
    } else {
      HistoryMeans(t, h, u, p);
      HistoryMeans(t, h', v, p);
      if TypeConsistent(Flatten(h)) && Through(Flatten(h), p) {
        PassedOnlyAsDir(Flatten(h), p);
      }
    }
  }

  /** The batches that apply `anns` one at a time. */
  function OneByOne(anns: seq<Announcement>): (h: seq<seq<Announcement>>)
    ensures Flatten(h) == anns
  {
    if anns == [] then []
    else
      var h := OneByOne(anns[..|anns| - 1]) + [[anns[|anns| - 1]]];
      assert h[..|h| - 1] == OneByOne(anns[..|anns| - 1]);
      h
  }

  /** The grouped, recursive update refines one-at-a-time application. */
  lemma UpdateRefinesOneByOne(t: Tree, anns: seq<Announcement>, u: Tree, v: Tree, p: seq<string>)
    requires Updates(t, anns, u) && History(t, OneByOne(anns), v)
    ensures Lookup(u, p).Some? <==> Lookup(v, p).Some?
    ensures !Through(anns, p) || p == [] ==> Lookup(u, p) == Lookup(v, p)
    ensures Lookup(u, p).Some? ==> SameCore(Lookup(u, p).value, Lookup(v, p).value)
    ensures Lookup(u, p).Some? && TypeConsistent(anns) ==> SameButOwner(Lookup(u, p).value, Lookup(v, p).value)
  {
    SingleBatch(t, anns, u);
    BatchingIrrelevant(t, [anns], u, OneByOne(anns), v, p);
  }

  lemma SingleBatch(t: Tree, anns: seq<Announcement>, u: Tree)
    requires Updates(t, anns, u)
    ensures History(t, [anns], u) && Flatten([anns]) == anns
  {
    assert [anns][..0] == [];
    assert Flatten([anns]) == Flatten([anns][..0]) + anns;
  }

  // ---- eventual consistency ----

  ghost predicate Newest(x: FileStat, news: seq<FileStat>) {
    x in news && forall a :: a in news ==> a.lastInfoUpdated <= x.lastInfoUpdated
  }

  /** The fold keeps the old stat, or ends with a newest one; only the owner of a directory
      depends on what was absorbed before. */
  lemma {:induction false} FoldIsNewest(s: FileStat, news: seq<FileStat>) returns (x: FileStat)
    ensures
      var r := AbsorbAll(s, news);
      if forall a :: a in news ==> a.lastInfoUpdated <= s.lastInfoUpdated then r == s && x == s
      else Newest(x, news) && x.lastInfoUpdated > s.lastInfoUpdated && SameButOwner(x, r) && (!x.dir ==> r == x)
  {
    x := s;
    if news != [] {
      var front, last := news[..|news| - 1], news[|news| - 1];
      assert forall a :: a in news <==> a in front || a == last;
      x := FoldIsNewest(s, front);
      if last.lastInfoUpdated > AbsorbAll(s, front).lastInfoUpdated {
        x := last;
      }
    }
  }

  /** Order and repetition of the announcements for one path do not matter. */
  lemma FoldOrderIrrelevant(s: FileStat, news: seq<FileStat>, news': seq<FileStat>)
    requires forall a :: a in news <==> a in news'
    requires forall a, b :: a in news && b in news && a.lastInfoUpdated == b.lastInfoUpdated ==> a == b
    ensures SameButOwner(AbsorbAll(s, news), AbsorbAll(s, news'))
    ensures !AbsorbAll(s, news).dir ==> AbsorbAll(s, news) == AbsorbAll(s, news')
  {
    var x := FoldIsNewest(s, news);
    var x' := FoldIsNewest(s, news');
  }

  /** The newest stats agree, or none is newer than `s`. */
  ghost predicate NewestAgree(s: FileStat, news: seq<FileStat>) {
    || (forall a, b :: Newest(a, news) && Newest(b, news) ==> a == b)
    || (forall a :: a in news ==> a.lastInfoUpdated <= s.lastInfoUpdated)
  }

  /** Then order and repetition do not matter for the fold of files at all. */
  lemma NewestFold(s: FileStat, news: seq<FileStat>, news': seq<FileStat>)
    requires forall a :: a in news <==> a in news'
    requires forall a :: a in news ==> !a.dir
    requires NewestAgree(s, news)
    ensures AbsorbAll(s, news) == AbsorbAll(s, news')
  {
    var x := FoldIsNewest(s, news);
    var y := FoldIsNewest(s, news');
    assert Newest(y, news') ==> Newest(y, news);
  }

  /** Eventual consistency. From equal trees, any two histories that deliver the same
      announcements -- in whatever order and batches, and however often -- end with the same
      paths; the stats agree except for the owners of directories wherever no announcement
      passes through, and everywhere if paths passed through are announced as directories
      only. In particular every file has the same full stat. */
  lemma EventuallyConsistent(t: Tree, h: seq<seq<Announcement>>, u: Tree,
                             h': seq<seq<Announcement>>, v: Tree, p: seq<string>)
    requires History(t, h, u) && History(t, h', v)
    requires SameAnnouncements(Flatten(h), Flatten(h')) && TieFree(Flatten(h))
    ensures Lookup(u, p).Some? <==> Lookup(v, p).Some?
    ensures Lookup(u, p).Some? ==>
              var s, s' := Lookup(u, p).value, Lookup(v, p).value;
              && SameCore(s, s')
              && (TypeConsistent(Flatten(h)) || !Through(Flatten(h), p) ==>
                    SameButOwner(s, s') && (!s.dir ==> s == s'))
  {
    var a, b := Flatten(h), Flatten(h');
    if p == [] {
      HistoryMeans(t, h, u, [""]);
      HistoryMeans(t, h', v, [""]);
    } else {
      HistoryMeans(t, h, u, p);
      HistoryMeans(t, h', v, p);
      assert (Touched(a, p) <==> Touched(b, p)) && (Through(a, p) <==> Through(b, p));
      OwnMembers(a, p);
      OwnMembers(b, p);
      FoldOrderIrrelevant(Base(Lookup(t, p), p), Own(a, p), Own(b, p));
      if TypeConsistent(a) && Through(a, p) {
        PassedOnlyAsDir(a, p);
        PassedOnlyAsDir(b, p);
      }
    }
  }

  // ---- the shape of directories ----

  /** What a tree grown from one without children has below p was announced below p; so p is
      a directory, if paths passed through are announced as directories only. */
  lemma ParentIsDirectory(t: Tree, h: seq<seq<Announcement>>, u: Tree, p: seq<string>, q: seq<string>)
    requires History(t, h, u) && t.kids == map[] && TypeConsistent(Flatten(h))
    requires p != [] && q != [] && Lookup(u, p + q).Some?
    ensures Lookup(u, p).Some? && Lookup(u, p).value.dir && Lookup(u, p).value.size == 0
  {
    var anns := Flatten(h);
    HistoryMeans(t, h, u, p);
    HistoryMeans(t, h, u, p + q);
    var a :| a in anns && p + q <= a.Path();
    assert p < a.Path();
    PassedOnlyAsDir(anns, p);
  }
}
