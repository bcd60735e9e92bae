/**
  What the update never does, and where it does not do what one might expect of it.
*/
module Consequences {
  import opened Aggregation
  import opened Announcements
  import opened Convergence
  import opened FileTree
  import opened Meaning
  import opened Ownership
  import opened Owners
  import opened Paths
  import opened Scans
  import opened TreeNodes
  import opened Wrappers

  /** No update removes a path, or replaces what is known there by older information. */
  lemma NeverOlder(t: Tree, anns: seq<Announcement>, t': Tree, p: seq<string>)
    requires Updates(t, anns, t') && Lookup(t, p).Some?
    ensures Lookup(t', p).Some?
    ensures Lookup(t, p).value.lastInfoUpdated <= Lookup(t', p).value.lastInfoUpdated
  {
    if p == [] {
      UpdateMeans(t, anns, t', [""]);
    } else {
      UpdateMeans(t, anns, t', p);
      FoldKeepsNewest(Lookup(t, p).value, Own(anns, p));
    }
  }

  // ---- names ----

  lemma {:induction false} CleanNamesByPath(t: Tree)
    requires forall p :: Lookup(t, p).Some? ==> AllProper(p)
    ensures CleanNames(t)
    decreases t
  {
    forall k | k in t.kids ensures Proper(k) && CleanNames(t.kids[k]) {
      assert [k][1..] == [] && Lookup(t, [k]).Some? && [k][0] in [k];
      forall q | Lookup(t.kids[k], q).Some? ensures AllProper(q) {
        assert ([k] + q)[1..] == q && Lookup(t, [k] + q).Some?;
        assert forall c :: c in q ==> c in [k] + q;
      }
      CleanNamesByPath(t.kids[k]);
    }
  }

  lemma {:induction false} CleanNamesAt(t: Tree, p: seq<string>)
    requires CleanNames(t) && Lookup(t, p).Some?
    ensures AllProper(p)
    decreases |p|
  {
    if p != [] {
      CleanNamesAt(t.kids[p[0]], p[1..]);
      assert p == [p[0]] + p[1..];
    }
  }

  /** If all announced names are ordinary path components, so are all names in the tree, as
      walking it expects. */
  lemma NamesStayClean(t: Tree, h: seq<seq<Announcement>>, t': Tree)
    requires History(t, h, t') && CleanNames(t) && forall a :: a in Flatten(h) ==> AllProper(a.Path())
    ensures CleanNames(t')
  {
    forall p | Lookup(t', p).Some? ensures AllProper(p) {
      if p != [] {
        HistoryMeans(t, h, t', p);
        if Touched(Flatten(h), p) {
          var a :| a in Flatten(h) && p <= a.Path();
          assert forall c :: c in p ==> c in a.Path();
        } else {
          CleanNamesAt(t, p);
        }
      }
    }
    CleanNamesByPath(t');
  }

  /** Every node below the root is called by the last component of its path. */
  ghost predicate CalledByPath(t: Tree) {
    forall p :: p != [] && Lookup(t, p).Some? ==> Lookup(t, p).value.basename == p[|p| - 1]
  }

  lemma {:induction false} FoldName(s: FileStat, news: seq<FileStat>, name: string)
    requires s.basename == name && forall a :: a in news ==> a.basename == name
    ensures AbsorbAll(s, news).basename == name
  {
    if news != [] {
      assert news[|news| - 1] in news;
      FoldName(s, news[..|news| - 1], name);
    }
  }

  /** If announcements carry the last component of their path as base name, so does every
      node, those created on the fly included. */
  lemma NodesCalledByPath(t: Tree, h: seq<seq<Announcement>>, t': Tree)
    requires History(t, h, t') && CalledByPath(t)
    requires forall a :: a in Flatten(h) ==> a.stat.basename == a.Path()[|a.Path()| - 1]
    ensures CalledByPath(t')
  {
    forall p | p != [] && Lookup(t', p).Some? ensures Lookup(t', p).value.basename == p[|p| - 1] {
      HistoryMeans(t, h, t', p);
      OwnMembers(Flatten(h), p);
      FoldName(Base(Lookup(t, p), p), Own(Flatten(h), p), p[|p| - 1]);
    }
  }

  /** The tree of a new node has a root without name, owner or times, a directory, whatever
      it is updated with; and all its nodes are called by their paths, if announcements are. */
  lemma GrownFromNewRoot(h: seq<seq<Announcement>>, t: Tree)
    requires History(NewRoot(), h, t)
    ensures t.stat == FileStat("", true, 0, 0, 0, 0, "")
    ensures (forall a :: a in Flatten(h) ==> a.stat.basename == a.Path()[|a.Path()| - 1]) ==> CalledByPath(t)
  {
    HistoryMeans(NewRoot(), h, t, [""]);
    if forall a :: a in Flatten(h) ==> a.stat.basename == a.Path()[|a.Path()| - 1] {
      NodesCalledByPath(NewRoot(), h, t);
    }
  }

  /** A path that did not exist, is passed through and never announced itself: a directory of
      its name is there, of size 0, mode 0 and all times 0. */
  lemma CreatedOnTheFly(t: Tree, h: seq<seq<Announcement>>, t': Tree, p: seq<string>)
    requires History(t, h, t') && p != [] && Lookup(t, p).None?
    requires Through(Flatten(h), p) && forall a :: a in Flatten(h) ==> a.Path() != p
    ensures Lookup(t', p).Some?
    ensures
      var s := Lookup(t', p).value;
      && s.basename == p[|p| - 1] && s.dir && s.size == 0 && s.mode == 0
      && s.lastModified == 0 && s.lastInfoUpdated == 0
  {
    hide History, Flatten, Through, Touched, Lookup, Own;
    HistoryMeans(t, h, t', p);
    NoOwn(Flatten(h), p);
    assert Touched(Flatten(h), p) by { PassedIsTouched(Flatten(h), p); }
  }

  lemma PassedIsTouched(anns: seq<Announcement>, p: seq<string>)
    ensures Through(anns, p) ==> Touched(anns, p)
  {
  }

  // ---- deletions ----

  predicate IsDeleted(s: FileStat) {
    s.size < 0
  }

  lemma OwnOfSingle(a: Announcement, p: seq<string>)
    ensures Own([a], p) == if a.Path() == p then [a.stat] else []
    ensures Touched([a], p) <==> p <= a.Path()
    ensures Through([a], p) <==> p < a.Path()
  {
    assert [a][..0] == [];
    assert a in [a];
  }

  lemma AbsorbOne(s: FileStat, a: FileStat)
    ensures AbsorbAll(s, [a]) == Absorb(s, a)
  {
    assert [a][..0] == [];
  }

  /** An update with a single announcement, at its own path and away from it. */
  lemma SingleUpdate(t: Tree, a: Announcement, t': Tree, p: seq<string>)
    requires Updates(t, [a], t') && p != []
    ensures p == a.Path() ==> Lookup(t', p) == Some(Absorb(Base(Lookup(t, p), p), a.stat))
    ensures !(p <= a.Path()) ==> Lookup(t', p) == Lookup(t, p)
  {
    UpdateMeans(t, [a], t', p);
    OwnOfSingle(a, p);
    AbsorbOne(Base(Lookup(t, p), p), a.stat);
  }

  /** A deletion, newer than what is known of an existing file, marks that file deleted
      exactly if its name has a single component. Otherwise it overwrites the entry of the
      first component instead, and leaves the file as it is. */
  lemma DeletionOfNamedFile(t: Tree, fullName: string, stat: FileStat, t': Tree)
    requires Updates(t, [Parse(NameParts(fullName), stat, true)], t')
    requires
      var p := NameParts(fullName);
      && Lookup(t, p).Some?
      && !IsDeleted(Lookup(t, p).value)
      && Lookup(t, p).value.lastInfoUpdated < stat.lastInfoUpdated
    ensures
      var p := NameParts(fullName);
      && Lookup(t', p).Some?
      && (IsDeleted(Lookup(t', p).value) <==> |p| == 1)
      && (|p| > 1 ==>
            && Lookup(t', p) == Lookup(t, p)
            && Lookup(t, [p[0]]).Some?
            && Lookup(t', [p[0]]) == Some(Absorb(Lookup(t, [p[0]]).value, stat.(size := -1))))
  {
    var p := NameParts(fullName);
    var a := Parse(p, stat, true);
    assert a.Path() == [p[0]];
    SingleUpdate(t, a, t', p);
    SingleUpdate(t, a, t', [p[0]]);
    if |p| == 1 {
      assert p == [p[0]];
    } else {
      LookupPrefix(t, [p[0]], p);
      assert !(p <= [p[0]]);
    }
  }

  lemma {:induction false} LookupPrefix(t: Tree, p: seq<string>, q: seq<string>)
    requires p <= q && Lookup(t, q).Some?
    ensures Lookup(t, p).Some?
    decreases |p|
  {
    if p != [] {
      assert p[1..] == q[1..][..|p| - 1];
      LookupPrefix(t.kids[p[0]], p[1..], q[1..]);
    }
  }

  // ---- ties ----

  /** Two announcements of one file path, both newer than what is known there, converge in
      either order exactly if their timestamps differ or they say the same: a tie keeps
      whichever came first. */
  lemma TwoFilesConvergeIff(t: Tree, a: Announcement, b: Announcement, u: Tree, v: Tree)
    requires a.Path() == b.Path() && !a.stat.dir && !b.stat.dir
    requires
      var s := Base(Lookup(t, a.Path()), a.Path());
      s.lastInfoUpdated < a.stat.lastInfoUpdated && s.lastInfoUpdated < b.stat.lastInfoUpdated
    requires History(t, [[a], [b]], u) && History(t, [[b], [a]], v)
    ensures Lookup(u, a.Path()) == Lookup(v, a.Path()) <==>
            a.stat.lastInfoUpdated != b.stat.lastInfoUpdated || a.stat == b.stat
  {
    var p := a.Path();
    var s := Base(Lookup(t, p), p);
    TwoInOrder(t, a, b, u);
    TwoInOrder(t, b, a, v);
  }

  /** Whatever the order and repetition of the announcements, the path ends the same. */
  ghost predicate Converges(t: Tree, anns: seq<Announcement>, p: seq<string>) {
    forall anns', u, v :: SameAnnouncements(anns, anns') && Updates(t, anns, u) && Updates(t, anns', v)
      ==> Lookup(u, p) == Lookup(v, p)
  }

  /** Any number of announcements of one file, together with whatever else does not pass
      through it, in any order and however often each: they converge exactly if the newest
      ones agree, or none is newer than what is known. */
  lemma FilesConvergeIff(t: Tree, anns: seq<Announcement>, p: seq<string>)
    requires p != [] && !Through(anns, p) && forall s :: s in Own(anns, p) ==> !s.dir
    ensures Converges(t, anns, p) <==> NewestAgree(Base(Lookup(t, p), p), Own(anns, p))
  {
    hide Updates, Through, Touched, Own, NewestAgree;
    var s, news := Base(Lookup(t, p), p), Own(anns, p);
    if NewestAgree(s, news) {
      forall anns', u, v | SameAnnouncements(anns, anns') && Updates(t, anns, u) && Updates(t, anns', v)
        ensures Lookup(u, p) == Lookup(v, p)
      {
        NewestDecide(t, anns, u, anns', v, p);
      }
    } else {
      var x, y := NewestDiffer(s, anns, p);
      var u := UpdateTotal(t, anns);
      var v := FirstsDecide(t, anns, [x], p, x);
      var w := FirstsDecide(t, anns, [y], p, y);
      FileStays(s, x, p);
      FileStays(s, y, p);
      assert Lookup(v, p) == Some(x.stat) && Lookup(w, p) == Some(y.stat);
      assert Updates(t, anns, u) && Updates(t, [x] + anns, v) && Updates(t, [y] + anns, w);
    }
  }

  lemma FileStays(s: FileStat, x: Announcement, p: seq<string>)
    requires x.Path() == p && !x.stat.dir && s.lastInfoUpdated < x.stat.lastInfoUpdated
    ensures AbsorbAll(s, Own([x], p)) == x.stat
  {
    OwnOfSingle(x, p);
    AbsorbOne(s, x.stat);
  }

  lemma NewestDiffer(s: FileStat, anns: seq<Announcement>, p: seq<string>) returns (x: Announcement, y: Announcement)
    requires !NewestAgree(s, Own(anns, p))
    ensures x in anns && x.Path() == p && Newest(x.stat, Own(anns, p)) && x.stat.lastInfoUpdated > s.lastInfoUpdated
    ensures y in anns && y.Path() == p && Newest(y.stat, Own(anns, p)) && y.stat.lastInfoUpdated > s.lastInfoUpdated
    ensures x.stat != y.stat
  {
    OwnMembers(anns, p);
    var a, b :| Newest(a, Own(anns, p)) && Newest(b, Own(anns, p)) && a != b;
    x :| x in anns && x.Path() == p && x.stat == a;
    y :| y in anns && y.Path() == p && y.stat == b;
  }

  lemma NewestDecide(t: Tree, anns: seq<Announcement>, u: Tree, anns': seq<Announcement>, v: Tree, p: seq<string>)
    requires p != [] && !Through(anns, p) && forall s :: s in Own(anns, p) ==> !s.dir
    requires SameAnnouncements(anns, anns') && Updates(t, anns, u) && Updates(t, anns', v)
    requires NewestAgree(Base(Lookup(t, p), p), Own(anns, p))
    ensures Lookup(u, p) == Lookup(v, p)
  {
    UpdateMeans(t, anns, u, p);
    UpdateMeans(t, anns', v, p);
    assert (Touched(anns, p) <==> Touched(anns', p)) && !Through(anns', p);
    OwnSame(anns, anns', p);
    hide Updates, Through, Touched, Own;
    NewestFold(Base(Lookup(t, p), p), Own(anns, p), Own(anns', p));
  }

  lemma OwnSame(anns: seq<Announcement>, anns': seq<Announcement>, p: seq<string>)
    requires SameAnnouncements(anns, anns')
    ensures forall s :: s in Own(anns, p) <==> s in Own(anns', p)
  {
    OwnMembers(anns, p);
    OwnMembers(anns', p);
  }

  /** For directories the order shows even without a tie. Two announcements of one directory,
      one newer than the other and both newer than what is known there, converge exactly if
      they have the same owner, or the directory already has another owner than the newer
      announcement's. */
  lemma DirectoryOwnersConvergeIff(t: Tree, a: Announcement, b: Announcement, u: Tree, v: Tree)
    requires a.Path() == b.Path() && a.stat.dir && b.stat.dir && OwnedStat(a.stat) && OwnedStat(b.stat)
    requires
      var s := Base(Lookup(t, a.Path()), a.Path());
      s.lastInfoUpdated < a.stat.lastInfoUpdated < b.stat.lastInfoUpdated
    requires History(t, [[a], [b]], u) && History(t, [[b], [a]], v)
    ensures
      var owner := Base(Lookup(t, a.Path()), a.Path()).owner;
      Lookup(u, a.Path()) == Lookup(v, a.Path()) <==>
        a.stat.owner == b.stat.owner || (owner != "" && owner != b.stat.owner)
  {
    TwoInOrder(t, a, b, u);
    TwoInOrder(t, b, a, v);
  }

  /** Among owned directories newer than `s`: the newest agree up to their owner; and either
      `s` has an owner that is none of the newest ones', or all that are newer than `s` have
      the newest ones' owner. */
  ghost predicate DirectoriesAgree(s: FileStat, news: seq<FileStat>) {
    || (forall a :: a in news ==> a.lastInfoUpdated <= s.lastInfoUpdated)
    || (&& (forall a, b :: Newest(a, news) && Newest(b, news) ==> SameButOwner(a, b))
        && (|| OtherOwner(s, news)
            || forall a, b :: Newest(a, news) && b in news && b.lastInfoUpdated > s.lastInfoUpdated
                 ==> a.owner == b.owner))
  }

  ghost predicate OtherOwner(s: FileStat, news: seq<FileStat>) {
    s.owner != "" && forall a :: Newest(a, news) ==> a.owner != s.owner
  }

  ghost predicate OwnedDirectories(news: seq<FileStat>) {
    forall a :: a in news ==> a.dir && OwnedStat(a)
  }

  /** Any number of announcements of one directory, together with whatever else does not pass
      through it, in any order and however often each, ties included: they converge exactly
      if nothing is newer than what is known; or the newest agree up to their owner and
      either what is known has another owner than any of them, or everything newer has
      theirs. */
  lemma DirectoriesConvergeIff(t: Tree, anns: seq<Announcement>, p: seq<string>)
    requires p != [] && !Through(anns, p) && OwnedDirectories(Own(anns, p))
    ensures Converges(t, anns, p) <==> DirectoriesAgree(Base(Lookup(t, p), p), Own(anns, p))
  {
    hide Updates, Through, Touched, Own, DirectoriesAgree, OwnedDirectories;
    var s, news := Base(Lookup(t, p), p), Own(anns, p);
    if DirectoriesAgree(s, news) {
      forall anns', u, v | SameAnnouncements(anns, anns') && Updates(t, anns, u) && Updates(t, anns', v)
        ensures Lookup(u, p) == Lookup(v, p)
      {
        DirectoriesDecide(t, anns, u, anns', v, p);
      }
    } else {
      DirectoriesDiverge(t, anns, p);
    }
  }

  lemma DirectoriesDecide(t: Tree, anns: seq<Announcement>, u: Tree, anns': seq<Announcement>, v: Tree, p: seq<string>)
    requires p != [] && !Through(anns, p) && OwnedDirectories(Own(anns, p))
    requires SameAnnouncements(anns, anns') && Updates(t, anns, u) && Updates(t, anns', v)
    requires DirectoriesAgree(Base(Lookup(t, p), p), Own(anns, p))
    ensures Lookup(u, p) == Lookup(v, p)
  {
    UpdateMeans(t, anns, u, p);
    UpdateMeans(t, anns', v, p);
    assert (Touched(anns, p) <==> Touched(anns', p)) && !Through(anns', p);
    OwnSame(anns, anns', p);
    hide Updates, Through, Touched, Own;
    DirectoriesFold(Base(Lookup(t, p), p), Own(anns, p), Own(anns', p));
  }

  lemma DirectoriesFold(s: FileStat, news: seq<FileStat>, news': seq<FileStat>)
    requires forall a :: a in news <==> a in news'
    requires OwnedDirectories(news) && DirectoriesAgree(s, news)
    ensures AbsorbAll(s, news) == AbsorbAll(s, news')
  {
    var x := FoldIsNewest(s, news);
    var y := FoldIsNewest(s, news');
    if exists a :: a in news && a.lastInfoUpdated > s.lastInfoUpdated {
      SameNewest(news, news');
      assert SameButOwner(x, y);
      hide AbsorbAll, Newest;
      assert OtherOwner(s, news) <==> OtherOwner(s, news');
      FoldOwner(s, news, x);
      FoldOwner(s, news', y);
    }
  }

  lemma SameNewest(news: seq<FileStat>, news': seq<FileStat>)
    requires forall a :: a in news <==> a in news'
    ensures forall a :: Newest(a, news) <==> Newest(a, news')
  {
  }

  /** The owner that such announcements lead to. */
  lemma FoldOwner(s: FileStat, news: seq<FileStat>, x: FileStat)
    requires OwnedDirectories(news) && DirectoriesAgree(s, news)
    requires Newest(x, news) && x.lastInfoUpdated > s.lastInfoUpdated
    ensures AbsorbAll(s, news).owner == if OtherOwner(s, news) then MULTIPLE_OWNERS else x.owner
  {
    FoldKeepsNewest(s, news);
    if OtherOwner(s, news) {
      assert forall a :: a in news && a.lastInfoUpdated == x.lastInfoUpdated ==> Newest(a, news);
      OwnerGetsMixed(s, news, x.lastInfoUpdated);
    } else {
      OwnerIsOne(s, news, x.owner);
    }
  }

  /** An owner that none of the newest directories has ends as "(multiple)". */
  lemma {:induction false} OwnerGetsMixed(s: FileStat, news: seq<FileStat>, newest: int)
    requires s.owner != "" && s.lastInfoUpdated < newest
    requires forall a :: a in news ==> a.dir && OwnedStat(a) && a.lastInfoUpdated <= newest
    requires forall a :: a in news && a.lastInfoUpdated == newest ==> a.owner != s.owner
    ensures
      var r := AbsorbAll(s, news);
      && r.lastInfoUpdated <= newest
      && (r.owner == MULTIPLE_OWNERS || (r.owner == s.owner && r.lastInfoUpdated < newest))
  {
    if news != [] {
      var front, last := news[..|news| - 1], news[|news| - 1];
      assert last in news && forall a :: a in front ==> a in news;
      OwnerGetsMixed(s, front, newest);
    }
  }

  /** If all that is newer has one owner, and what is known no other, it keeps that owner. */
  lemma {:induction false} OwnerIsOne(s: FileStat, news: seq<FileStat>, owner: string)
    requires s.owner == "" || s.owner == owner
    requires forall a :: a in news && a.lastInfoUpdated > s.lastInfoUpdated ==> a.owner == owner
    ensures
      var r := AbsorbAll(s, news);
      r.lastInfoUpdated >= s.lastInfoUpdated && (r == s || r.owner == owner)
  {
    if news != [] {
      var front, last := news[..|news| - 1], news[|news| - 1];
      assert last in news && forall a :: a in front ==> a in news;
      OwnerIsOne(s, front, owner);
    }
  }

  /** Otherwise there are two orders that end differently. */
  lemma DirectoriesDiverge(t: Tree, anns: seq<Announcement>, p: seq<string>)
    requires p != [] && !Through(anns, p) && OwnedDirectories(Own(anns, p))
    requires !DirectoriesAgree(Base(Lookup(t, p), p), Own(anns, p))
    ensures !Converges(t, anns, p)
  {
    hide Updates, Own, Through, DirectoriesAgree, OwnedDirectories, AbsorbAll, SameAnnouncements;
    var s := Base(Lookup(t, p), p);
    var w, z := DivergingPair(s, anns, p);
    var u := UpdateTotal(t, anns);
    var v := FirstsDecide(t, anns, [w], p, w);
    var v' := FirstsDecide(t, anns, [z, w], p, w);
    FirstsFold(s, w.stat, z.stat);
    OwnOfPair(z, w, p);
    OwnOfSingle(w, p);
    assert Lookup(v, p) != Lookup(v', p);
    assert Updates(t, anns, u) && Updates(t, [w] + anns, v) && Updates(t, [z, w] + anns, v');
  }

  lemma OwnOfPair(a: Announcement, b: Announcement, p: seq<string>)
    requires a.Path() == p && b.Path() == p
    ensures Own([a, b], p) == [a.stat, b.stat]
  {
    assert [a, b] == [a] + [b];
    OwnConcat([a], [b], p);
    OwnOfSingle(a, p);
    OwnOfSingle(b, p);
  }

  /** A newest announcement w, and a newer one z after which w ends differently. */
  ghost predicate Diverge(s: FileStat, w: FileStat, z: FileStat) {
    && s.lastInfoUpdated < z.lastInfoUpdated <= w.lastInfoUpdated
    && if z.lastInfoUpdated == w.lastInfoUpdated then
         !SameButOwner(w, z) || ((s.owner == "" || s.owner == w.owner) && z.owner != w.owner)
       else
         (s.owner == "" || s.owner == w.owner) && z.owner != w.owner
  }

  lemma FirstsFold(s: FileStat, w: FileStat, z: FileStat)
    requires Diverge(s, w, z) && w.dir && z.dir && OwnedStat(w) && OwnedStat(z)
    ensures AbsorbAll(s, [w]) != AbsorbAll(s, [z, w])
  {
    AbsorbOne(s, w);
    AbsorbOne(s, z);
    AbsorbOne(Absorb(s, z), w);
    assert [z, w] == [z] + [w];
    AbsorbAllConcat(s, [z], [w]);
  }

  lemma DivergingPair(s: FileStat, anns: seq<Announcement>, p: seq<string>) returns (w: Announcement, z: Announcement)
    requires OwnedDirectories(Own(anns, p)) && !DirectoriesAgree(s, Own(anns, p))
    ensures w in anns && w.Path() == p && Newest(w.stat, Own(anns, p)) && w.stat.dir && OwnedStat(w.stat)
    ensures z in anns && z.Path() == p && z.stat.dir && OwnedStat(z.stat)
    ensures Diverge(s, w.stat, z.stat)
  {
    var news := Own(anns, p);
    OwnMembers(anns, p);
    var a, b := DivergingStats(s, news);
    w :| w in anns && w.Path() == p && w.stat == a;
    z :| z in anns && z.Path() == p && z.stat == b;
  }

  lemma DivergingStats(s: FileStat, news: seq<FileStat>) returns (w: FileStat, z: FileStat)
    requires OwnedDirectories(news) && !DirectoriesAgree(s, news)
    ensures Newest(w, news) && z in news && Diverge(s, w, z)
  {
    var x := FoldIsNewest(s, news);
    if a, b :| Newest(a, news) && Newest(b, news) && !SameButOwner(a, b) {
      w, z := a, b;
    } else {
      w := x;
      if s.owner != "" {
        w :| Newest(w, news) && w.owner == s.owner;
      }
      var a, b :| Newest(a, news) && b in news && b.lastInfoUpdated > s.lastInfoUpdated && a.owner != b.owner;
      z := if b.owner != w.owner then b else a;
    }
  }

  /** What comes first, if it ends with a newest announcement, decides. */
  lemma FirstsDecide(t: Tree, anns: seq<Announcement>, firsts: seq<Announcement>, p: seq<string>, w: Announcement)
      returns (v: Tree)
    requires p != [] && !Through(anns, p) && w in anns && w.Path() == p && Newest(w.stat, Own(anns, p))
    requires forall a :: a in firsts ==> a in anns && a.Path() == p
    requires firsts != [] && firsts[|firsts| - 1] == w
    ensures Updates(t, firsts + anns, v) && SameAnnouncements(anns, firsts + anns)
    ensures Lookup(v, p) == Some(AbsorbAll(Base(Lookup(t, p), p), Own(firsts, p)))
  {
    var s := Base(Lookup(t, p), p);
    v := UpdateTotal(t, firsts + anns);
    UpdateMeans(t, firsts + anns, v, p);
    TouchedConcat(firsts, anns, p);
    OwnConcat(firsts, anns, p);
    AbsorbAllConcat(s, Own(firsts, p), Own(anns, p));
    var r := AbsorbAll(s, Own(firsts, p));
    assert w in firsts && w.stat in Own(firsts, p) by { OwnMembers(firsts, p); }
    FoldKeepsNewest(s, Own(firsts, p));
    var y := FoldIsNewest(r, Own(anns, p));
  }

  lemma TwoInOrder(t: Tree, a: Announcement, b: Announcement, u: Tree)
    requires a.Path() == b.Path() && History(t, [[a], [b]], u)
    ensures Lookup(u, a.Path()) == Some(Absorb(Absorb(Base(Lookup(t, a.Path()), a.Path()), a.stat), b.stat))
  {
    assert [[a], [b]][..1] == [[a]] && [[a]][..0] == [];
    var m :| History(t, [[a], [b]][..1], m) && Updates(m, [[a], [b]][1], u);
    var t0 :| History(t, [[a]][..0], t0) && Updates(t0, [[a]][0], m);
    SingleUpdate(t, a, m, a.Path());
    SingleUpdate(m, b, u, a.Path());
  }

  // ---- batches that are not contiguous ----

  function FileStatOf(name: string, owner: string): FileStat {
    FileStat(name, false, 0, 1, 0, 0, owner)
  }

  /** A file of s1 in the directory a, another of its files, and then a itself, by s2. */
  function Front(a: string, b: string, c: string, s1: string): seq<Announcement> {
    [Announcement(a, [b], FileStatOf(b, s1)), Announcement(c, [], FileStatOf(c, s1))]
  }

  function Late(a: string, s2: string): Announcement {
    Announcement(a, [], FileStatOf(a, s2).(dir := true))
  }

  lemma FrontContiguous(a: string, b: string, c: string, s1: string)
    requires a != c
    ensures Contiguous(Front(a, b, c, s1))
  {
    var x, y := Announcement(a, [b], FileStatOf(b, s1)), Announcement(c, [], FileStatOf(c, s1));
    NestedOfOne(x);
    NestedOfOne(y);
    NestedOfOne(x.Shift());
    ContiguousRun([x.Shift()]);
    ContiguousRun([x]);
    ContiguousRun([y]);
    ContiguousConcat([x], [y]);
    assert [x] + [y] == Front(a, b, c, s1);
  }

  /** What the first two announcements say about a path. */
  lemma FrontAt(a: string, b: string, c: string, s1: string, p: seq<string>)
    ensures
      var front := Front(a, b, c, s1);
      && (Touched(front, p) <==> p <= [a, b] || p <= [c])
      && (Through(front, p) <==> p < [a, b] || p < [c])
      && Own(front, p) ==
           (if p == [a, b] then [FileStatOf(b, s1)] else []) + (if p == [c] then [FileStatOf(c, s1)] else [])
  {
    var x, y := Announcement(a, [b], FileStatOf(b, s1)), Announcement(c, [], FileStatOf(c, s1));
    assert [x] + [y] == Front(a, b, c, s1);
    assert x.Path() == [a, b] && y.Path() == [c];
    OwnConcat([x], [y], p);
    TouchedConcat([x], [y], p);
    OwnOfSingle(x, p);
    OwnOfSingle(y, p);
  }

  /** What they say about a and below it. */
  lemma FrontReach(a: string, b: string, c: string, s1: string, k: string)
    requires a != c
    ensures
      var front := Front(a, b, c, s1);
      && Through(front, [a]) && Own(front, [a]) == []
      && (Touched(front, [a, k]) <==> k == b) && !Through(front, [a, k])
      && Own(front, [a, b]) == [FileStatOf(b, s1)]
  {
    hide Own, Touched, Through;
    FrontAt(a, b, c, s1, [a]);
    FrontAt(a, b, c, s1, [a, k]);
    FrontAt(a, b, c, s1, [a, b]);
    assert [a][0] == [a, k][0] == [a, b][0] != [c][0];
    assert [a, k] <= [a, b] ==> [a, k][1] == [a, b][1];
  }

  lemma SplitLate(t: Tree, front: seq<Announcement>, late: Announcement, t': Tree) returns (m: Tree)
    requires front != [] && late.IsLeaf() && front[|front| - 1].first != late.first
    requires Updates(t, front + [late], t')
    ensures Updates(t, front, m)
    ensures
      var e := Entry(m, late.first);
      t' == Tree(m.stat, m.kids[late.first := Tree(Absorb(e.stat, late.stat), e.kids)])
  {
    var anns := front + [late];
    LastRunIs(anns, |front|);
    assert anns[..|front|] == front && anns[|front|..] == [late];
    m :| Updates(t, front, m) && AppliesRun(m, [late], t');
    NestedOfOne(late);
    LeafOfOne(late);
    AbsorbOne(Entry(m, late.first).stat, late.stat);
    assert [late][0] == late && Nested([late]) == [];
    assert RunEffect(Entry(m, late.first), [late], t'.kids[late.first]);
    assert t'.kids[late.first] == Tree(Absorb(Entry(m, late.first).stat, late.stat), Entry(m, late.first).kids);
  }

  lemma LeafOfOne(a: Announcement)
    ensures Leaves([a]) == if a.IsLeaf() then [a.stat] else []
  {
    assert [a][..0] == [];
  }

  /** The directory a holds b alone, with what the front says of it. */
  ghost predicate HoldsOnly(t: Tree, a: string, b: string, s1: string) {
    && a in t.kids
    && t.kids[a].kids.Keys == {b}
    && t.kids[a].kids[b].stat == FileStatOf(b, s1)
  }

  lemma KidsByPath(t: Tree, a: string, k: string)
    ensures Lookup(t, [a]) == if a in t.kids then Some(t.kids[a].stat) else None
    ensures Lookup(t, [a, k]) ==
            if a in t.kids && k in t.kids[a].kids then Some(t.kids[a].kids[k].stat) else None
    ensures At(t, [a]) == if a in t.kids then Some(t.kids[a]) else None
  {
    assert [a, k][1..] == [k] && [k][1..] == [] && [a][1..] == [];
    if a in t.kids {
      assert Lookup(t, [a, k]) == Lookup(t.kids[a], [k]);
    }
  }

  lemma FrontHolds(t: Tree, a: string, b: string, c: string, s1: string, m: Tree)
    requires a != c && Updates(t, Front(a, b, c, s1), m)
    requires a !in t.kids || HoldsOnly(t, a, b, s1)
    ensures HoldsOnly(m, a, b, s1)
    ensures m.kids[a].stat.lastInfoUpdated == Entry(t, a).stat.lastInfoUpdated
  {
    forall k ensures Lookup(m, [a, k]).Some? <==> k == b {
      FrontReach(a, b, c, s1, k);
      UpdateMeans(t, Front(a, b, c, s1), m, [a, k]);
      KidsByPath(t, a, k);
    }
    FrontReach(a, b, c, s1, b);
    UpdateMeans(t, Front(a, b, c, s1), m, [a, b]);
    AbsorbOne(Base(Lookup(t, [a, b]), [a, b]), FileStatOf(b, s1));
    UpdateMeans(t, Front(a, b, c, s1), m, [a]);
    KidsByPath(m, a, b);
    assert Base(Lookup(t, [a]), [a]) == Entry(t, a).stat;
    forall k ensures a in m.kids && (k in m.kids[a].kids <==> k == b) {
      KidsByPath(m, a, k);
      KidsByPath(m, a, b);
    }
    KidsByPath(t, a, b);
    KidsByPath(m, a, b);
  }

  lemma FrontOwner(t: Tree, a: string, b: string, c: string, s1: string, m: Tree)
    requires a != c && Updates(t, Front(a, b, c, s1), m) && HasOwners(t)
    requires s1 != "" && s1 != MULTIPLE_OWNERS && HoldsOnly(m, a, b, s1)
    ensures m.kids[a].stat.owner == s1 && HasOwners(m)
  {
    hide Updates, Through, Touched, Contiguous, Own;
    FrontContiguous(a, b, c, s1);
    FrontReach(a, b, c, s1, b);
    ContiguousDescends(Front(a, b, c, s1), [a]);
    UpdateHasOwners(t, Front(a, b, c, s1), m);
    ExactAggregation(t, Front(a, b, c, s1), m, [a]);
    KidsByPath(m, a, b);
  }

  /** Contiguity is needed. Whatever the names and the two owners, this batch leaves a
      directory "(multiple)" all of whose children belong to s1, and applying it again
      changes the tree. */
  lemma SplitRunNotIdempotent(a: string, b: string, c: string, s1: string, s2: string, t': Tree, t'': Tree)
    requires a != c && s1 != s2 && s1 != "" && s1 != MULTIPLE_OWNERS && s2 != "" && s2 != MULTIPLE_OWNERS
    requires Updates(NewRoot(), Front(a, b, c, s1) + [Late(a, s2)], t')
    requires Updates(t', Front(a, b, c, s1) + [Late(a, s2)], t'')
    ensures At(t', [a]).Some? && !IsCommonOwner(At(t', [a]).value.kids, At(t', [a]).value.stat.owner)
    ensures t'' != t'
  {
    var front, late := Front(a, b, c, s1), Late(a, s2);
    var m := SplitLate(NewRoot(), front, late, t');
    FrontHolds(NewRoot(), a, b, c, s1, m);
    FrontOwner(NewRoot(), a, b, c, s1, m);
    KidsByPath(t', a, b);
    KidHasOwners(m, a, t'.kids[a]);
    var m' := SplitLate(t', front, late, t'');
    FrontHolds(t', a, b, c, s1, m');
    FrontOwner(t', a, b, c, s1, m');
    assert t'.kids[a].stat.owner == MULTIPLE_OWNERS;
    assert t''.kids[a].stat.owner == s1;
  }
}
