/**
  When nodes that have received the same announcements show the same tree in full, owners of
  directories included.
*/
module Agreement {
  import opened Aggregation
  import opened Announcements
  import opened Convergence
  import opened FileTree
  import opened Meaning
  import opened Owners
  import opened Ownership
  import opened Wrappers

  ghost predicate AnnouncesDirectory(anns: seq<Announcement>, p: seq<string>) {
    exists a :: a in anns && a.Path() == p && a.stat.dir
  }

  /** The batch leaves every directory it announces or passes through by descending. */
  ghost predicate Aggregates(anns: seq<Announcement>) {
    forall p :: p != [] && (Through(anns, p) || AnnouncesDirectory(anns, p)) ==> DescendsLast(anns, p)
  }

  /** No directory is announced without something in it. */
  ghost predicate NoEmptyDirectory(anns: seq<Announcement>) {
    forall a :: a in anns && a.stat.dir ==> Through(anns, a.Path())
  }

  lemma ContiguousAggregates(anns: seq<Announcement>)
    requires Contiguous(anns)
    ensures Aggregates(anns) <==> NoEmptyDirectory(anns)
  {
    if NoEmptyDirectory(anns) {
      forall p | p != [] && (Through(anns, p) || AnnouncesDirectory(anns, p)) ensures DescendsLast(anns, p) {
        ContiguousDescends(anns, p);
      }
    }
    if Aggregates(anns) {
      forall a | a in anns && a.stat.dir ensures Through(anns, a.Path()) {
        assert AnnouncesDirectory(anns, a.Path());
        DescendsIsThrough(anns, a.Path());
      }
    }
  }

  // ---- every directory with children shows their common owner ----

  /** Nodes have owners, and those with children exactly these children's common one. */
  ghost predicate Aggregated(t: Tree) {
    && HasOwners(t)
    && forall p :: p != [] ==> Shared(At(t, p))
  }

  ghost predicate Shared(e: Option<Tree>) {
    e.Some? && e.value.kids != map[] ==>
      AllOwned(e.value.kids) && IsCommonOwner(e.value.kids, e.value.stat.owner)
  }

  lemma {:induction false} AtSnoc(t: Tree, p: seq<string>, k: string)
    ensures At(t, p + [k]) ==
            if At(t, p).Some? && k in At(t, p).value.kids then Some(At(t, p).value.kids[k]) else None
    ensures Lookup(t, p) == match At(t, p) case None => None case Some(e) => Some(e.stat)
    decreases |p|
  {
    AtLookup(t, p);
    if p == [] {
      assert p + [k] == [k] && [k][1..] == [];
    } else {
      assert (p + [k])[1..] == p[1..] + [k];
      if p[0] in t.kids {
        AtSnoc(t.kids[p[0]], p[1..], k);
      }
    }
  }

  lemma UpdateAggregated(t: Tree, anns: seq<Announcement>, t': Tree)
    requires Aggregated(t) && Updates(t, anns, t')
    requires Owned(anns) && Aggregates(anns) && Compatible(t, anns)
    ensures Aggregated(t')
  {
    UpdateHasOwners(t, anns, t');
    forall p | p != [] ensures Shared(At(t', p)) {
      if Through(anns, p) || AnnouncesDirectory(anns, p) {
        ExactAggregation(t, anns, t', p);
      } else if At(t', p).Some? && At(t', p).value.kids != map[] {
        var k :| k in At(t', p).value.kids;
        AtSnoc(t', p, k);
        UntouchedAt(t, anns, t', p + [k]);
        AtSnoc(t, p, k);
        AtSnoc(t, p + [k], k);
        NotTouchedByFile(t, anns, p, k);
        UntouchedAt(t, anns, t', p);
      }
    }
  }

  /** A node with children is not announced as a file. */
  lemma NotTouchedByFile(t: Tree, anns: seq<Announcement>, p: seq<string>, k: string)
    requires Compatible(t, anns) && Lookup(t, p + [k]).Some?
    requires !Through(anns, p) && !AnnouncesDirectory(anns, p)
    ensures !Touched(anns, p)
  {
    forall a | a in anns ensures !(p <= a.Path()) {
      assert p <= a.Path() ==> p == a.Path();
    }
  }

  /** Batches as nodes send them, none of which leaves a directory other than by descending. */
  ghost predicate Aggregating(batches: seq<seq<Announcement>>) {
    forall b :: b in batches ==> Owned(b) && Aggregates(b)
  }

  lemma {:induction false} HistoryAggregated(t: Tree, batches: seq<seq<Announcement>>, t': Tree)
    requires History(t, batches, t') && Aggregated(t) && Aggregating(batches)
    requires TypeConsistent(Flatten(batches)) && Compatible(t, Flatten(batches))
    ensures Aggregated(t')
    decreases |batches|
  {
    if batches != [] {
      var front, last := batches[..|batches| - 1], batches[|batches| - 1];
      var m :| History(t, front, m) && Updates(m, last, t');
      assert forall a :: a in Flatten(front) || a in last ==> a in Flatten(batches);
      assert last in batches && forall b :: b in front ==> b in batches;
      HistoryAggregated(t, front, m);
      forall p | p != [] ensures Means(Lookup(t, p), Flatten(front), p, Lookup(m, p)) {
        HistoryMeans(t, front, m, p);
      }
      CompatibleAfter(t, Flatten(front), m, last);
      UpdateAggregated(m, last, t');
    }
  }

  // ---- agreement ----

  lemma {:induction false} FlattenMembers(batches: seq<seq<Announcement>>, a: Announcement)
    ensures a in Flatten(batches) <==> exists b :: b in batches && a in b
  {
    if batches != [] {
      var front, last := batches[..|batches| - 1], batches[|batches| - 1];
      FlattenMembers(front, a);
      assert last in batches && forall b :: b in batches <==> b in front || b == last;
    }
  }

  /** A node without children was not announced as a directory. */
  lemma LeafIsFile(t: Tree, h: seq<seq<Announcement>>, u: Tree, p: seq<string>)
    requires History(t, h, u) && Aggregating(h) && p != [] && At(u, p).Some? && At(u, p).value.kids == map[]
    ensures !Through(Flatten(h), p)
    ensures forall s :: s in Own(Flatten(h), p) ==> !s.dir
  {
    var anns := Flatten(h);
    if Through(anns, p) {
      var a :| a in anns && p < a.Path();
      var k := a.Path()[|p|];
      assert p + [k] <= a.Path();
      HistoryMeans(t, h, u, p + [k]);
      AtSnoc(u, p, k);
      AtSnoc(u, p + [k], k);
    }
    OwnMembers(anns, p);
    forall s | s in Own(anns, p) ensures !s.dir {
      var a :| a in anns && a.Path() == p && a.stat == s;
      FlattenMembers(h, a);
      var b :| b in h && a in b;
      if s.dir {
        assert AnnouncesDirectory(b, p);
        DescendsIsThrough(b, p);
        var c :| c in b && p < c.Path();
        FlattenMembers(h, c);
      }
    }
  }

  lemma LeavesAgree(t: Tree, h: seq<seq<Announcement>>, u: Tree, h': seq<seq<Announcement>>, v: Tree, p: seq<string>)
    requires History(t, h, u) && History(t, h', v) && Aggregating(h)
    requires SameAnnouncements(Flatten(h), Flatten(h')) && TieFree(Flatten(h))
    requires p != [] && At(u, p).Some? && At(u, p).value.kids == map[]
    ensures Lookup(u, p) == Lookup(v, p)
  {
    var a, b := Flatten(h), Flatten(h');
    LeafIsFile(t, h, u, p);
    HistoryMeans(t, h, u, p);
    HistoryMeans(t, h', v, p);
    assert (Touched(a, p) <==> Touched(b, p)) && (Through(a, p) <==> Through(b, p));
    OwnMembers(a, p);
    OwnMembers(b, p);
    NewestFold(Base(Lookup(t, p), p), Own(a, p), Own(b, p));
  }

  /** The trees have the same paths and stats, up to owners of nodes with children. */
  ghost predicate AlikeAt(u: Tree, v: Tree, p: seq<string>) {
    && (Lookup(u, p).Some? <==> Lookup(v, p).Some?)
    && (Lookup(u, p).Some? ==> SameButOwner(Lookup(u, p).value, Lookup(v, p).value))
    && (At(u, p).Some? && At(u, p).value.kids == map[] ==> Lookup(u, p) == Lookup(v, p))
  }

  /** Then the owners above follow from those below. */
  lemma {:induction false} AgreeAt(u: Tree, v: Tree, p: seq<string>, e: Tree)
    requires Aggregated(u) && Aggregated(v) && forall q :: q != [] ==> AlikeAt(u, v, q)
    requires p != [] && At(u, p) == Some(e)
    ensures Lookup(u, p) == Lookup(v, p)
    decreases e
  {
    assert AlikeAt(u, v, p);
    AtSnoc(u, p, "");
    AtSnoc(v, p, "");
    if e.kids != map[] {
      var kids := At(v, p).value.kids;
      forall k ensures k in e.kids <==> k in kids
               ensures k in e.kids ==> e.kids[k].stat == kids[k].stat
      {
        assert AlikeAt(u, v, p + [k]);
        AtSnoc(u, p, k);
        AtSnoc(v, p, k);
        AtSnoc(u, p + [k], k);
        AtSnoc(v, p + [k], k);
        if k in e.kids {
          AgreeAt(u, v, p + [k], e.kids[k]);
        }
      }
    }
  }

  /** Full agreement. From equal trees whose directories show their children's owners, two
      histories that deliver the same announcements, in whatever order, batches and number
      of repetitions, end with the same stat at every path, owners of directories included,
      if no batch leaves a directory other than by descending through it. */
  lemma FullAgreement(t: Tree, h: seq<seq<Announcement>>, u: Tree,
                      h': seq<seq<Announcement>>, v: Tree, p: seq<string>)
    requires History(t, h, u) && History(t, h', v) && Aggregating(h) && Aggregating(h')
    requires SameAnnouncements(Flatten(h), Flatten(h')) && TieFree(Flatten(h)) && TypeConsistent(Flatten(h))
    requires Aggregated(t) && Compatible(t, Flatten(h))
    ensures Lookup(u, p) == Lookup(v, p)
  {
    HistoryAggregated(t, h, u);
    HistoryAggregated(t, h', v);
    forall q | q != [] ensures AlikeAt(u, v, q) {
      EventuallyConsistent(t, h, u, h', v, q);
      if At(u, q).Some? && At(u, q).value.kids == map[] {
        LeavesAgree(t, h, u, h', v, q);
      }
    }
    AtLookup(u, p);
    if p == [] {
      HistoryMeans(t, h, u, [""]);
      HistoryMeans(t, h', v, [""]);
    } else if At(u, p).Some? {
      AgreeAt(u, v, p, At(u, p).value);
    } else {
      assert AlikeAt(u, v, p);
    }
  }

  lemma NewRootAggregated(anns: seq<Announcement>)
    ensures Aggregated(NewRoot()) && Compatible(NewRoot(), anns)
  {
  }
}
