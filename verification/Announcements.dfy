/**
  File announcements and the rule by which one of them overwrites a stat.

  Lists are taken apart from the back throughout: the loops of the update algorithm
  extend them on the right, so a loop invariant is then one unfolding of a definition.
*/
module Announcements {

  /** The owner shown for a directory whose contents belong to more than one node. */
  const MULTIPLE_OWNERS := "(multiple)"

  datatype FileStat = FileStat(
    basename: string,
    dir: bool,
    lastModified: int,
    lastInfoUpdated: int,
    size: int,
    mode: int,
    owner: string)

  /** What a tree node created on the fly starts from. */
  function BlankStat(name: string): FileStat {
    FileStat(name, false, 0, 0, 0, 0, "")
  }

  /** An announcement as the tree sees it: a path of at least one component, and a stat.
      The path is the one the update works with; see `FileAnnouncement.Value`. */
  datatype Announcement = Announcement(first: string, rest: seq<string>, stat: FileStat) {
    function Path(): seq<string> {
      [first] + rest
    }

    predicate IsLeaf() {
      rest == []
    }

    function Shift(): Announcement
      requires !IsLeaf()
    {
      Announcement(rest[0], rest[1..], stat)
    }
  }

  /** Strict last-writer-wins: a tie keeps what is there. A directory that changes hands
      becomes shared. */
  function Absorb(s: FileStat, a: FileStat): FileStat {
    if a.lastInfoUpdated > s.lastInfoUpdated then
      if a.dir && s.owner != "" && s.owner != a.owner then a.(owner := MULTIPLE_OWNERS) else a
    else
      s
  }

  function AbsorbAll(s: FileStat, news: seq<FileStat>): FileStat {
    if |news| == 0 then s
    else Absorb(AbsorbAll(s, news[..|news| - 1]), news[|news| - 1])
  }

  function SetAsDir(s: FileStat): FileStat {
    s.(dir := true, size := 0)
  }

  /** The stats announced for exactly the path `p`, in order. */
  function Own(anns: seq<Announcement>, p: seq<string>): seq<FileStat> {
    if |anns| == 0 then []
    else
      var last := anns[|anns| - 1];
      Own(anns[..|anns| - 1], p) + if last.Path() == p then [last.stat] else []
  }

  /** The stats of a run's leaf announcements, in order. */
  function Leaves(run: seq<Announcement>): seq<FileStat> {
    if |run| == 0 then []
    else
      var last := run[|run| - 1];
      Leaves(run[..|run| - 1]) + if last.IsLeaf() then [last.stat] else []
  }

  /** A run's remaining announcements, each without its first component, in order. */
  function Nested(run: seq<Announcement>): seq<Announcement> {
    if |run| == 0 then []
    else
      var last := run[|run| - 1];
      var front := Nested(run[..|run| - 1]);
      if last.IsLeaf() then front else front + [last.Shift()]
  }

  /** The number of components of the longest path. */
  function Depth(anns: seq<Announcement>): nat {
    DepthUpTo(anns, |anns|)
  }

  function DepthUpTo(anns: seq<Announcement>, i: nat): nat
    requires i <= |anns|
  {
    if i == 0 then 0
    else
      var front, last := DepthUpTo(anns, i - 1), 1 + |anns[i - 1].rest|;
      if last > front then last else front
  }

  lemma {:induction false} DepthCovers(anns: seq<Announcement>, i: nat, j: nat)
    requires j < i <= |anns|
    ensures |anns[j].rest| < DepthUpTo(anns, i)
    decreases i
  {
    if j < i - 1 {
      DepthCovers(anns, i - 1, j);
    }
  }

  lemma {:induction false} DepthReached(anns: seq<Announcement>, i: nat) returns (j: nat)
    requires 0 < i <= |anns|
    ensures j < i && 1 + |anns[j].rest| == DepthUpTo(anns, i)
  {
    j := i - 1;
    if i > 1 {
      var k := DepthReached(anns, i - 1);
      if 1 + |anns[j].rest| < DepthUpTo(anns, i - 1) {
        j := k;
      }
    }
  }

  lemma NestedDepth(run: seq<Announcement>)
    ensures Nested(run) != [] ==> Depth(Nested(run)) < Depth(run)
    ensures |Nested(run)| <= |run|
  {
    NestedMembers(run);
    var nested := Nested(run);
    if nested != [] {
      var j := DepthReached(nested, |nested|);
      assert nested[j] in nested;
      var a :| a in run && !a.IsLeaf() && a.Shift() == nested[j];
      var k :| 0 <= k < |run| && run[k] == a;
      DepthCovers(run, |run|, k);
    }
  }

  predicate SameFirst(run: seq<Announcement>) {
    run != [] && forall a :: a in run ==> a.first == run[0].first
  }

  /** Where the last maximal run of announcements with equal first components begins. */
  function LastRun(anns: seq<Announcement>): (n: nat)
    requires anns != []
    ensures n < |anns|
    ensures forall i :: n <= i < |anns| ==> anns[i].first == anns[|anns| - 1].first
    ensures n > 0 ==> anns[n - 1].first != anns[|anns| - 1].first
  {
    var k := |anns| - 1;
    if k > 0 && anns[k - 1].first == anns[k].first then LastRun(anns[..k]) else k
  }

  /** The last run is the only one with its properties. */
  lemma LastRunIs(anns: seq<Announcement>, n: nat)
    requires n < |anns| && forall i :: n <= i < |anns| ==> anns[i].first == anns[|anns| - 1].first
    requires n > 0 ==> anns[n - 1].first != anns[|anns| - 1].first
    ensures LastRun(anns) == n
  {
    // both are where the runs of equal first components end
    assert n > 0 ==> !(LastRun(anns) <= n - 1);
  }

  lemma DepthOfPart(anns: seq<Announcement>, n: nat)
    requires n <= |anns|
    ensures Depth(anns[..n]) <= Depth(anns) && Depth(anns[n..]) <= Depth(anns)
  {
    DepthOfSome(anns[..n], anns);
    DepthOfSome(anns[n..], anns);
  }

  lemma DepthOfSome(part: seq<Announcement>, anns: seq<Announcement>)
    requires forall a :: a in part ==> a in anns
    ensures Depth(part) <= Depth(anns)
  {
    if |part| > 0 {
      var j := DepthReached(part, |part|);
      assert part[j] in part;
      var k :| 0 <= k < |anns| && anns[k] == part[j];
      DepthCovers(anns, |anns|, k);
    }
  }

  /** Some announcement lies at or below `p`: the update passes `p` or ends there. */
  ghost predicate Touched(anns: seq<Announcement>, p: seq<string>) {
    exists a :: a in anns && p <= a.Path()
  }

  /** Some announcement lies strictly below `p`: the update descends through `p`. */
  ghost predicate Through(anns: seq<Announcement>, p: seq<string>) {
    exists a :: a in anns && p < a.Path()
  }

  /** Everything except what `SetAsDir` and the owner recalculation overwrite. */
  predicate SameCore(s: FileStat, s': FileStat) {
    s' == s.(dir := s'.dir, size := s'.size, owner := s'.owner)
  }

  lemma {:induction false} AbsorbAllConcat(s: FileStat, a: seq<FileStat>, b: seq<FileStat>)
    ensures AbsorbAll(s, a + b) == AbsorbAll(AbsorbAll(s, a), b)
    decreases |b|
  {
    if b == [] {
      assert a + b == a;
    } else {
      assert (a + b)[..|a + b| - 1] == a + b[..|b| - 1];
      AbsorbAllConcat(s, a, b[..|b| - 1]);
    }
  }

  lemma {:induction false} AbsorbAllCore(s: FileStat, s': FileStat, news: seq<FileStat>)
    requires SameCore(s, s')
    ensures SameCore(AbsorbAll(s, news), AbsorbAll(s', news))
  {
    if news != [] {
      AbsorbAllCore(s, s', news[..|news| - 1]);
    }
  }

  lemma {:induction false} OwnConcat(a: seq<Announcement>, b: seq<Announcement>, p: seq<string>)
    ensures Own(a + b, p) == Own(a, p) + Own(b, p)
    decreases |b|
  {
    if b == [] {
      assert a + b == a;
    } else {
      assert (a + b)[..|a + b| - 1] == a + b[..|b| - 1];
      OwnConcat(a, b[..|b| - 1], p);
    }
  }

  /** What a run says about a path starting with its own first component. */
  lemma {:induction false} OwnOfRun(run: seq<Announcement>, x: string, q: seq<string>)
    requires forall a :: a in run ==> a.first == x
    ensures q == [] ==> Own(run, [x]) == Leaves(run)
    ensures q != [] ==> Own(run, [x] + q) == Own(Nested(run), q)
  {
    if run != [] {
      var front, last := run[..|run| - 1], run[|run| - 1];
      OwnOfRun(front, x, q);
      PathAfter(last, x, q);
      if !last.IsLeaf() {
        var nested := Nested(front) + [last.Shift()];
        assert Nested(run) == nested && nested[..|nested| - 1] == Nested(front);
      }
    }
  }

  lemma PathAfter(a: Announcement, x: string, q: seq<string>)
    ensures (a.Path() == [x] + q) <==> (a.first == x && a.rest == q)
    ensures ([x] + q <= a.Path()) <==> (a.first == x && q <= a.rest)
    ensures ([x] + q < a.Path()) <==> (a.first == x && q < a.rest)
    ensures !a.IsLeaf() ==> a.Shift().Path() == a.rest
  {
    PrefixAfter(x, q, a.first, a.rest);
    assert a.Path()[1..] == a.rest && ([x] + q)[1..] == q;
    if !a.IsLeaf() {
      assert a.Shift().Path() == a.rest;
    }
  }

  lemma PrefixAfter(x: string, q: seq<string>, y: string, r: seq<string>)
    ensures ([x] + q <= [y] + r) <==> (x == y && q <= r)
  {
    var p, s := [x] + q, [y] + r;
    assert q == p[1..] && r == s[1..];
    if p <= s {
      assert p[0] == s[0];
      assert r[..|q|] == s[..|p|][1..] == q;
    }
    if x == y && q <= r {
      assert s[..|p|] == [y] + r[..|q|] == p;
    }
  }

  lemma {:induction false} NestedMembers(run: seq<Announcement>)
    ensures forall b :: b in Nested(run) <==> exists a :: a in run && !a.IsLeaf() && a.Shift() == b
  {
    if run != [] {
      var front, last := run[..|run| - 1], run[|run| - 1];
      NestedMembers(front);
      forall b ensures b in Nested(run) <==> exists a :: a in run && !a.IsLeaf() && a.Shift() == b {
        if b in Nested(front) {
          var a :| a in front && !a.IsLeaf() && a.Shift() == b;
          assert a in run;
        }
        if a :| a in run && !a.IsLeaf() && a.Shift() == b {
          assert a in front || a == last;
        }
      }
    }
  }

  /** What a run touches, in terms of what its shifted part touches. */
  lemma TouchedByRun(run: seq<Announcement>, x: string, q: seq<string>)
    requires SameFirst(run) && run[0].first == x
    ensures q == [] ==> Touched(run, [x]) && (Through(run, [x]) <==> Nested(run) != [])
    ensures q != [] ==> (Touched(run, [x] + q) <==> Touched(Nested(run), q))
    ensures q != [] ==> (Through(run, [x] + q) <==> Through(Nested(run), q))
  {
    NestedMembers(run);
    var p := [x] + q;
    assert q == [] ==> p == [x];
    forall a: Announcement | a in run
      ensures (p <= a.Path() <==> q <= a.rest) && (p < a.Path() <==> q < a.rest)
      ensures !a.IsLeaf() ==> a.Shift() in Nested(run) && a.Shift().Path() == a.rest
    {
      PathAfter(a, x, q);
    }
    assert run[0] in run;
    if Nested(run) != [] {
      assert Nested(run)[0] in Nested(run);
    }
  }

  lemma TouchedConcat(a: seq<Announcement>, b: seq<Announcement>, p: seq<string>)
    ensures Touched(a + b, p) <==> Touched(a, p) || Touched(b, p)
    ensures Through(a + b, p) <==> Through(a, p) || Through(b, p)
  {
    forall x | x in a + b ensures x in a || x in b {}
    forall x | x in a || x in b ensures x in a + b {}
  }
}
