/**
  What an update does to each path, independent of how it groups and recurses.
*/
module Meaning {
  import opened Announcements
  import opened FileTree
  import opened Wrappers

  /** What announcements for `p` are absorbed into. */
  function Base(before: Option<FileStat>, p: seq<string>): FileStat
    requires p != []
  {
    if before.Some? then before.value else BlankStat(p[|p| - 1])
  }

  /** The meaning of a batch at the path `p`, given the stats announced for exactly that
      path and whether the batch reaches `p` (`touched`) or descends below it (`through`):
      a path that is not touched keeps its stat, or stays absent; a touched path exists,
      its stat being the in-order last-writer-wins fold of its own announcements, except
      that passing through a directory may overwrite its kind, size and owner; and it is
      then a directory of size 0, unless it was itself announced otherwise. */
  ghost predicate Outcome(before: Option<FileStat>, base: FileStat, own: seq<FileStat>,
                          touched: bool, through: bool, after: Option<FileStat>)
  {
    if !touched then
      after == before
    else
      && after.Some?
      && SameCore(AbsorbAll(base, own), after.value)
      && (!through ==> after.value == AbsorbAll(base, own))
      && (through && OnlyAsDir(own) ==> after.value.dir && after.value.size == 0)
  }

  predicate OnlyAsDir(own: seq<FileStat>) {
    forall s :: s in own ==> s.dir && s.size == 0
  }

  ghost predicate Means(before: Option<FileStat>, anns: seq<Announcement>, p: seq<string>, after: Option<FileStat>)
    requires p != []
  {
    Outcome(before, Base(before, p), Own(anns, p), Touched(anns, p), Through(anns, p), after)
  }

  /** Functional meaning of an update: at every path, for every tree and batch. */
  lemma {:induction false} UpdateMeans(t: Tree, anns: seq<Announcement>, t': Tree, p: seq<string>)
    requires Updates(t, anns, t') && p != []
    ensures t'.stat == t.stat
    ensures Means(Lookup(t, p), anns, p, Lookup(t', p))
    decreases |p|, |anns|, 0
  {
    if anns != [] {
      var front, m, run := LastRunOf(t, anns, t');
      UpdateMeans(t, front, m, p);
      var x, q := Uncons(p);
      RunMeans(m, run, t', x, q);
      MeansConcat(Lookup(t, p), front, Lookup(m, p), run, Lookup(t', p), p);
    }
  }

  lemma {:induction false} RunMeans(t: Tree, run: seq<Announcement>, t': Tree, x: string, q: seq<string>)
    requires SameFirst(run) && AppliesRun(t, run, t')
    ensures Means(Lookup(t, [x] + q), run, [x] + q, Lookup(t', [x] + q))
    decreases |q|, |run|, 2
  {
    if x != run[0].first {
    } else if q == [] {
      assert [x] + q == [x];
      RunMeansHere(t, run, t', x);
    } else {
      RunMeansBelow(Entry(t, x), run, t'.kids[x], x, q);
      LookupBelow(t, x, q);
      LookupBelow(t', x, q);
    }
  }

  lemma Uncons(p: seq<string>) returns (x: string, q: seq<string>)
    requires p != []
    ensures p == [x] + q && x == p[0] && q == p[1..] && |q| < |p|
  {
    x, q := p[0], p[1..];
  }

  lemma LookupBelow(t: Tree, x: string, q: seq<string>)
    requires q != []
    ensures Lookup(t, [x] + q) == Lookup(Entry(t, x), q)
  {
    assert ([x] + q)[1..] == q;
  }

  lemma OtherFirst(run: seq<Announcement>, x: string, q: seq<string>)
    requires SameFirst(run) && run[0].first != x
    ensures !Touched(run, [x] + q)
  {
    forall a | a in run ensures !([x] + q <= a.Path()) {
      PathAfter(a, x, q);
    }
  }

  /** A run's effect on its own entry. */
  lemma RunMeansHere(t: Tree, run: seq<Announcement>, t': Tree, x: string)
    requires SameFirst(run) && AppliesRun(t, run, t') && run[0].first == x
    ensures Means(Lookup(t, [x]), run, [x], Lookup(t', [x]))
  {
    TouchedByRun(run, x, []);
    OwnOfRun(run, x, []);
    assert Base(Lookup(t, [x]), [x]) == Entry(t, x).stat;
    assert Lookup(t', [x]) == Some(t'.kids[x].stat);
  }

  /** A run's effect below its entry. */
  lemma {:induction false} RunMeansBelow(e: Tree, run: seq<Announcement>, e': Tree, x: string, q: seq<string>)
    requires SameFirst(run) && run[0].first == x && RunEffect(e, run, e') && q != []
    ensures Means(Lookup(e, q), run, [x] + q, Lookup(e', q))
    decreases |q|, |run|, 1
  {
    var nested := Nested(run);
    NestedDepth(run);
    if nested == [] {
      TouchedByRun(run, x, q);
      assert Lookup(e', q) == Lookup(e, q);
    } else {
      var dir := SetAsDir(AbsorbAll(e.stat, Leaves(run)));
      var d, d' := Tree(dir, e.kids), Tree(dir, e'.kids);
      UpdateMeans(d, nested, d', q);
      assert Lookup(d, q) == Lookup(e, q) && Lookup(d', q) == Lookup(e', q);
      MeansShift(Lookup(e, q), run, x, q, Lookup(e', q));
    }
  }

  lemma MeansShift(before: Option<FileStat>, run: seq<Announcement>, x: string, q: seq<string>, after: Option<FileStat>)
    requires SameFirst(run) && run[0].first == x && q != []
    requires Means(before, Nested(run), q, after)
    ensures Means(before, run, [x] + q, after)
  {
    TouchedByRun(run, x, q);
    OwnOfRun(run, x, q);
    assert Base(before, q) == Base(before, [x] + q);
  }

  /** Meanings compose: this is why neither grouping nor batching matters. */
  lemma MeansConcat(before: Option<FileStat>, a: seq<Announcement>, mid: Option<FileStat>,
                    b: seq<Announcement>, after: Option<FileStat>, p: seq<string>)
    requires p != []
    requires Means(before, a, p, mid) && Means(mid, b, p, after)
    ensures Means(before, a + b, p, after)
  {
    TouchedConcat(a, b, p);
    OwnConcat(a, b, p);
    var base := Base(before, p);
    AbsorbAllConcat(base, Own(a, p), Own(b, p));
    UntouchedHasNoOwn(a, p);
    UntouchedHasNoOwn(b, p);
    AbsorbAllCore(AbsorbAll(base, Own(a, p)), Base(mid, p), Own(b, p));
    if OnlyAsDir(Own(a + b, p)) {
      assert forall s :: s in Own(a, p) || s in Own(b, p) ==> s in Own(a + b, p);
      if mid.Some? && mid.value.dir && mid.value.size == 0 {
        AbsorbDirs(mid.value, Own(b, p));
      }
    }
  }

  lemma {:induction false} UntouchedHasNoOwn(anns: seq<Announcement>, p: seq<string>)
    ensures !Touched(anns, p) ==> Own(anns, p) == []
  {
    if anns != [] {
      var last := anns[|anns| - 1];
      assert last.Path() == p ==> last in anns && p <= last.Path();
      assert forall a :: a in anns[..|anns| - 1] ==> a in anns;
      UntouchedHasNoOwn(anns[..|anns| - 1], p);
    }
  }

  lemma {:induction false} AbsorbDirs(s: FileStat, news: seq<FileStat>)
    requires s.dir && s.size == 0
    requires forall a :: a in news ==> a.dir && a.size == 0
    ensures AbsorbAll(s, news).dir && AbsorbAll(s, news).size == 0
  {
    if news != [] {
      AbsorbDirs(s, news[..|news| - 1]);
    }
  }
}
