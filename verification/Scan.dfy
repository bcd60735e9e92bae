/**
  What a local scan announces: the local tree in preorder, below the mount point; and the
  tree an update makes of it.
*/
module Scans {
  import opened Aggregation
  import opened Agreement
  import opened Announcements
  import opened Convergence
  import opened FileTree
  import opened Meaning
  import opened Owners
  import opened Ownership
  import opened Paths
  import opened Wrappers

  /** A local directory tree, the entries of a directory in the order they are walked. */
  datatype Local =
    | File(size: int, modTime: int, mode: int)
    | Dir(modTime: int, mode: int, entries: Entries)

  datatype Entries = NoEntries | Item(name: string, node: Local, rest: Entries)

  /** Names are ordinary path components, and distinct within a directory. */
  ghost predicate LocalOk(t: Local) {
    t.Dir? ==> EntriesOk(t.entries)
  }

  ghost predicate EntriesOk(es: Entries) {
    es.Item? ==> Proper(es.name) && LocalOk(es.node) && EntriesOk(es.rest) && Find(es.rest, es.name) == None
  }

  function Find(es: Entries, name: string): Option<Local> {
    if es.NoEntries? then None
    else if es.name == name then Some(es.node)
    else Find(es.rest, name)
  }

  /** The local file or directory at a relative path. */
  function LocalAt(t: Local, r: seq<string>): Option<Local> {
    if r == [] then Some(t)
    else if t.File? then None
    else
      var e := Find(t.entries, r[0]);
      if e.None? then None else FindSmaller(t.entries, r[0]); LocalAt(e.value, r[1..])
  }

  lemma FindSmaller(es: Entries, name: string)
    ensures Find(es, name).Some? ==> Find(es, name).value < es
  {
  }

  function StatOf(t: Local, name: string, me: string, scanT: int): FileStat {
    FileStat(name, t.Dir?, t.modTime, scanT, if t.Dir? then 0 else t.size, t.mode, me)
  }

  /** The announcements for the tree `t`, called `name`, at the path `p` below the DFS root;
      the root itself is not announced. */
  function Listing(t: Local, name: string, p: seq<string>, me: string, scanT: int): seq<Announcement>
    decreases t, 1
  {
    (if p == [] then [] else [Announcement(p[0], p[1..], StatOf(t, name, me, scanT))])
    + if t.File? then [] else EntriesListing(t.entries, p, me, scanT)
  }

  function EntriesListing(es: Entries, p: seq<string>, me: string, scanT: int): seq<Announcement>
    decreases es, 0
  {
    if es.NoEntries? then []
    else Listing(es.node, es.name, p + [es.name], me, scanT) + EntriesListing(es.rest, p, me, scanT)
  }

  // ---- what the listing says about each path ----

  /** The name a node is listed under: its own, or `name` for the listed tree itself. */
  function NameAt(name: string, r: seq<string>): string {
    if r == [] then name else r[|r| - 1]
  }

  /** Every announced path lies below `p`, at a node of the tree, whose stat it carries. */
  lemma {:induction false} ListingMembers(t: Local, name: string, p: seq<string>, me: string, scanT: int,
                                          a: Announcement)
    requires LocalOk(t) && a in Listing(t, name, p, me, scanT)
    ensures p <= a.Path() && LocalAt(t, a.Path()[|p|..]).Some?
    ensures a.stat == StatOf(LocalAt(t, a.Path()[|p|..]).value, NameAt(name, a.Path()[|p|..]), me, scanT)
    decreases t, 1
  {
    if p != [] && a == Announcement(p[0], p[1..], StatOf(t, name, me, scanT)) {
      assert a.Path() == p;
    } else {
      EntriesMembers(t.entries, p, me, scanT, a);
    }
  }

  lemma {:induction false} EntriesMembers(es: Entries, p: seq<string>, me: string, scanT: int, a: Announcement)
    requires EntriesOk(es) && a in EntriesListing(es, p, me, scanT)
    ensures p < a.Path() && Find(es, a.Path()[|p|]).Some?
    ensures
      var node, r := Find(es, a.Path()[|p|]).value, a.Path()[|p| + 1..];
      && LocalAt(node, r).Some?
      && a.stat == StatOf(LocalAt(node, r).value, NameAt(a.Path()[|p|], r), me, scanT)
    decreases es, 0
  {
    var q := p + [es.name];
    if a in Listing(es.node, es.name, q, me, scanT) {
      ListingMembers(es.node, es.name, q, me, scanT, a);
      assert a.Path()[..|q|] == q;
    } else {
      EntriesMembers(es.rest, p, me, scanT, a);
    }
  }

  /** The stats listed for exactly `x`: one if the tree has a node there, else none. */
  function OwnStats(t: Option<Local>, name: string, me: string, scanT: int): seq<FileStat> {
    if t.None? then [] else [StatOf(t.value, name, me, scanT)]
  }

  lemma {:induction false} ListingOwn(t: Local, name: string, p: seq<string>, me: string, scanT: int, r: seq<string>)
    requires LocalOk(t) && p + r != []
    ensures Own(Listing(t, name, p, me, scanT), p + r) == OwnStats(LocalAt(t, r), NameAt(name, r), me, scanT)
    decreases t, 1
  {
    hide Own, StatOf;
    var head := if p == [] then [] else [Announcement(p[0], p[1..], StatOf(t, name, me, scanT))];
    var tail := if t.File? then [] else EntriesListing(t.entries, p, me, scanT);
    OwnConcat(head, tail, p + r);
    OwnOfOne(head, p + r);
    if p != [] {
      assert head[0].Path() == p;
      assert r == [] <==> p == p + r;
    }
    if r == [] {
      assert p + r == p;
      forall a | a in tail ensures a.Path() != p {
        EntriesMembers(t.entries, p, me, scanT, a);
      }
      NoOwn(tail, p);
    } else if t.Dir? {
      EntriesOwn(t.entries, p, me, scanT, r);
    } else {
      NoOwn([], p + r);
    }
  }

  lemma {:induction false} NoOwn(anns: seq<Announcement>, x: seq<string>)
    requires forall a :: a in anns ==> a.Path() != x
    ensures Own(anns, x) == []
  {
    if |anns| > 0 {
      NoOwn(anns[..|anns| - 1], x);
    }
  }

  lemma OwnOfOne(anns: seq<Announcement>, x: seq<string>)
    requires |anns| <= 1
    ensures Own(anns, x) == if |anns| == 1 && anns[0].Path() == x then [anns[0].stat] else []
  {
  }

  lemma {:induction false} EntriesOwn(es: Entries, p: seq<string>, me: string, scanT: int, r: seq<string>)
    requires EntriesOk(es) && r != []
    ensures
      var node := Find(es, r[0]);
      Own(EntriesListing(es, p, me, scanT), p + r)
      == if node.None? then [] else OwnStats(LocalAt(node.value, r[1..]), NameAt(r[0], r[1..]), me, scanT)
    decreases es, 0
  {
    hide Own, LocalAt, StatOf, OwnStats;
    if es.NoEntries? {
      NoOwn([], p + r);
    } else {
      var q := p + [es.name];
      OwnConcat(Listing(es.node, es.name, q, me, scanT), EntriesListing(es.rest, p, me, scanT), p + r);
      EntriesOwn(es.rest, p, me, scanT, r);
      if r[0] == es.name {
        assert q + r[1..] == p + r;
        ListingOwn(es.node, es.name, q, me, scanT, r[1..]);
      } else {
        forall a | a in Listing(es.node, es.name, q, me, scanT) ensures a.Path() != p + r {
          ListingMembers(es.node, es.name, q, me, scanT, a);
          assert a.Path()[..|q|] == q && q[|p|] == es.name;
          assert (p + r)[|p|] == r[0];
        }
        NoOwn(Listing(es.node, es.name, q, me, scanT), p + r);
      }
    }
  }

  // ---- the order of the listing ----

  /** `a` and `b` are entries, `a` before `b`. */
  ghost predicate Precedes(es: Entries, a: string, b: string) {
    es.Item? && if es.name == a then Find(es.rest, b).Some? else Precedes(es.rest, a, b)
  }

  /** A walk of `t` comes by the path `r` before the path `s`: by directories before what they
      contain, and by the entries of a directory in their order. */
  ghost predicate WalkedBefore(t: Local, r: seq<string>, s: seq<string>)
    decreases |r|
  {
    s != [] && (r == [] || (t.Dir? && EntryBefore(t.entries, r, s)))
  }

  ghost predicate EntryBefore(es: Entries, r: seq<string>, s: seq<string>)
    requires r != [] && s != []
    decreases |r|, 0
  {
    if r[0] == s[0] then Find(es, r[0]).Some? && WalkedBefore(Find(es, r[0]).value, r[1..], s[1..])
    else Precedes(es, r[0], s[0])
  }

  /** The announcements come in the order of the walk. */
  lemma {:induction false} ListingOrder(t: Local, name: string, p: seq<string>, me: string, scanT: int, i: nat, j: nat)
    requires LocalOk(t) && i < j < |Listing(t, name, p, me, scanT)|
    ensures
      var l := Listing(t, name, p, me, scanT);
      p <= l[i].Path() && p <= l[j].Path() && WalkedBefore(t, l[i].Path()[|p|..], l[j].Path()[|p|..])
    decreases t, 1
  {
    hide StatOf, EntryBefore, EntriesListing, LocalAt;
    var l := Listing(t, name, p, me, scanT);
    var n := if p == [] then 0 else 1;
    assert l[j] == EntriesListing(t.entries, p, me, scanT)[j - n];
    if i < n {
      EntriesMembers(t.entries, p, me, scanT, l[j]);
      assert l[i].Path() == p;
    } else {
      EntriesOrder(t.entries, p, me, scanT, i - n, j - n);
    }
  }

  lemma {:induction false} EntriesOrder(es: Entries, p: seq<string>, me: string, scanT: int, i: nat, j: nat)
    requires EntriesOk(es) && i < j < |EntriesListing(es, p, me, scanT)|
    ensures
      var l := EntriesListing(es, p, me, scanT);
      p < l[i].Path() && p < l[j].Path() && EntryBefore(es, l[i].Path()[|p|..], l[j].Path()[|p|..])
    decreases es, 0
  {
    var q := p + [es.name];
    var here, rest := Listing(es.node, es.name, q, me, scanT), EntriesListing(es.rest, p, me, scanT);
    var n := |here|;
    assert EntriesListing(es, p, me, scanT) == here + rest;
    assert LocalOk(es.node) && EntriesOk(es.rest);
    hide Listing, EntriesListing, EntryBefore, WalkedBefore, LocalAt, StatOf, LocalOk, EntriesOk, Find;
    if j < n {
      ListingOrder(es.node, es.name, q, me, scanT, i, j);
      OrderedHere(es, p, here[i].Path(), here[j].Path());
    } else {
      EntriesMembers(es.rest, p, me, scanT, rest[j - n]);
      if i < n {
        ListingMembers(es.node, es.name, q, me, scanT, here[i]);
        OrderedAcross(es, p, here[i].Path(), rest[j - n].Path());
      } else {
        EntriesOrder(es.rest, p, me, scanT, i - n, j - n);
        EntriesMembers(es.rest, p, me, scanT, rest[i - n]);
        OrderedAfter(es, p, rest[i - n].Path(), rest[j - n].Path());
      }
    }
  }

  lemma OrderedHere(es: Entries, p: seq<string>, x: seq<string>, y: seq<string>)
    requires es.Item? && EntriesOk(es) && p + [es.name] <= x && p + [es.name] <= y
    requires WalkedBefore(es.node, x[|p + [es.name]|..], y[|p + [es.name]|..])
    ensures p < x && p < y && EntryBefore(es, x[|p|..], y[|p|..])
  {
    BelowEntry(p, es.name, x);
    BelowEntry(p, es.name, y);
  }

  lemma OrderedAcross(es: Entries, p: seq<string>, x: seq<string>, y: seq<string>)
    requires es.Item? && EntriesOk(es) && p + [es.name] <= x && p < y && Find(es.rest, y[|p|]).Some?
    ensures p < x && EntryBefore(es, x[|p|..], y[|p|..])
  {
    BelowEntry(p, es.name, x);
  }

  lemma OrderedAfter(es: Entries, p: seq<string>, x: seq<string>, y: seq<string>)
    requires es.Item? && EntriesOk(es) && p < x && p < y
    requires Find(es.rest, x[|p|]).Some? && Find(es.rest, y[|p|]).Some?
    requires EntryBefore(es.rest, x[|p|..], y[|p|..])
    ensures EntryBefore(es, x[|p|..], y[|p|..])
  {
  }

  lemma BelowEntry(p: seq<string>, name: string, path: seq<string>)
    requires p + [name] <= path
    ensures p < path && path[|p|..][0] == name && path[|p|..][1..] == path[|p + [name]|..]
  {
  }

  // ---- where the listing reaches ----

  /** Every node of the tree is announced, except the DFS root. */
  lemma {:induction false} ListingTouches(t: Local, name: string, p: seq<string>, me: string, scanT: int,
                                          r: seq<string>)
    requires LocalOk(t) && p + r != [] && LocalAt(t, r).Some?
    ensures exists a :: a in Listing(t, name, p, me, scanT) && a.Path() == p + r
  {
    ListingOwn(t, name, p, me, scanT, r);
    OwnMembers(Listing(t, name, p, me, scanT), p + r);
    var s := Own(Listing(t, name, p, me, scanT), p + r)[0];
    assert s in Own(Listing(t, name, p, me, scanT), p + r);
  }

  lemma {:induction false} LocalAtFile(t: Local, r: seq<string>, q: seq<string>)
    requires LocalAt(t, r).Some? && LocalAt(t, r).value.File? && q != []
    ensures LocalAt(t, r + q) == None
    decreases |r|
  {
    if r == [] {
      assert r + q == q;
    } else {
      assert (r + q)[1..] == r[1..] + q;
      FindSmaller(t.entries, r[0]);
      LocalAtFile(Find(t.entries, r[0]).value, r[1..], q);
    }
  }

  lemma {:induction false} LocalAtPrefix(t: Local, r: seq<string>, q: seq<string>)
    requires LocalAt(t, r + q).Some?
    ensures LocalAt(t, r).Some?
    decreases |r|
  {
    if r != [] {
      assert (r + q)[1..] == r[1..] + q;
      FindSmaller(t.entries, r[0]);
      LocalAtPrefix(Find(t.entries, r[0]).value, r[1..], q);
    }
  }

  /** Which paths a listing touches and passes through. */
  lemma ListingReach(t: Local, name: string, p: seq<string>, me: string, scanT: int, x: seq<string>)
    requires LocalOk(t) && x != []
    ensures
      var l := Listing(t, name, p, me, scanT);
      if p <= x then
        var node := LocalAt(t, x[|p|..]);
        && (Touched(l, x) <==> node.Some?)
        && (Through(l, x) ==> node.Some? && node.value.Dir?)
      else if x < p then Touched(l, x) && Through(l, x)
      else !Touched(l, x)
  {
    var l := Listing(t, name, p, me, scanT);
    if p <= x {
      var r := x[|p|..];
      assert p + r == x;
      if LocalAt(t, r).Some? {
        ListingTouches(t, name, p, me, scanT, r);
      }
      forall a | a in l && x <= a.Path() ensures LocalAt(t, r).Some? && (x < a.Path() ==> LocalAt(t, r).value.Dir?) {
        ListingMembers(t, name, p, me, scanT, a);
        var q := a.Path()[|x|..];
        assert a.Path()[|p|..] == r + q;
        LocalAtPrefix(t, r, q);
        if q != [] && LocalAt(t, r).value.File? {
          LocalAtFile(t, r, q);
        }
      }
    } else if x < p {
      assert p + [] == p;
      ListingTouches(t, name, p, me, scanT, []);
      var a :| a in l && a.Path() == p;
    } else {
      forall a | a in l ensures !(x <= a.Path()) {
        ListingMembers(t, name, p, me, scanT, a);
      }
    }
  }

  // ---- updates by a single node ----

  ghost predicate OwnedBy(t: Tree, me: string) {
    forall k :: k in t.kids ==> t.kids[k].stat.owner == me && OwnedBy(t.kids[k], me)
  }

  predicate AnnouncedBy(anns: seq<Announcement>, me: string) {
    forall a :: a in anns ==> a.stat.owner == me && a.stat.lastInfoUpdated > 0
  }

  lemma KidOwnedBy(m: Tree, name: string, e: Tree, me: string)
    requires OwnedBy(m, me) && OwnedBy(e, me) && e.stat.owner == me
    ensures OwnedBy(Tree(m.stat, m.kids[name := e]), me)
  {
  }

  lemma {:induction false} UpdateOwnedBy(t: Tree, anns: seq<Announcement>, t': Tree, me: string)
    requires Updates(t, anns, t') && OwnedBy(t, me) && AnnouncedBy(anns, me) && me != ""
    ensures OwnedBy(t', me)
    decreases Depth(anns), |anns|, 1
  {
    if anns != [] {
      var front, m, run := LastRunOf(t, anns, t');
      assert forall a :: a in front || a in run ==> a in anns;
      UpdateOwnedBy(t, front, m, me);
      EntryOwnedBy(Entry(m, run[0].first), run, t'.kids[run[0].first], me);
      KidOwnedBy(m, run[0].first, t'.kids[run[0].first], me);
    }
  }

  lemma {:induction false} EntryOwnedBy(e: Tree, run: seq<Announcement>, e': Tree, me: string)
    requires run != [] && RunEffect(e, run, e') && OwnedBy(e, me) && AnnouncedBy(run, me) && me != ""
    requires e.stat.owner == me || (e.stat.owner == "" && e.stat.lastInfoUpdated == 0)
    ensures e'.stat.owner == me && OwnedBy(e', me)
    decreases Depth(run), |run|, 0
  {
    var s, nested := AbsorbAll(e.stat, Leaves(run)), Nested(run);
    NestedDepth(run);
    NestedMembers(run);
    LeavesMembers(run);
    if nested == [] {
      LeavesOwnedBy(e.stat, Leaves(run), me);
    } else {
      var dir := SetAsDir(s);
      UpdateOwnedBy(Tree(dir, e.kids), nested, Tree(dir, e'.kids), me);
      UpdateAddsKid(Tree(dir, e.kids), nested, Tree(dir, e'.kids));
      OwnedRecalculation(e'.kids, e'.stat.owner);
    }
  }

  lemma {:induction false} LeavesOwnedBy(s: FileStat, news: seq<FileStat>, me: string)
    requires forall a :: a in news ==> a.owner == me && a.lastInfoUpdated > 0
    requires s.owner == me || (s.owner == "" && s.lastInfoUpdated == 0)
    ensures news != [] ==> AbsorbAll(s, news).owner == me
    ensures news == [] ==> AbsorbAll(s, news) == s
  {
    if news != [] {
      LeavesOwnedBy(s, news[..|news| - 1], me);
    }
  }

  lemma {:induction false} OwnedByAt(t: Tree, me: string, p: seq<string>)
    requires OwnedBy(t, me) && p != [] && Lookup(t, p).Some?
    ensures Lookup(t, p).value.owner == me
    decreases |p|
  {
    if |p| > 1 {
      OwnedByAt(t.kids[p[0]], me, p[1..]);
    }
  }

  // ---- scan and update ----

  /** The stat a path shows after the scan of `t` is applied to a new root; below the mount
      point, exactly what the local tree has there; above it, a directory of this node. */
  function Rebuilt(t: Local, name: string, mount: seq<string>, me: string, scanT: int, x: seq<string>): Option<FileStat>
    requires x != []
  {
    if mount <= x then
      var node := LocalAt(t, x[|mount|..]);
      if node.None? then None else Some(StatOf(node.value, NameAt(name, x[|mount|..]), me, scanT))
    else if x < mount then
      Some(SetAsDir(BlankStat(x[|x| - 1])).(owner := me))
    else
      None
  }

  /** Scan then update rebuilds the local tree below the mount point: exactly its nodes are
      there, with their kind, times, mode, and files with their size. Above the mount point
      there are directories, with nothing but their names; and there is nothing else. All
      nodes are owned by this one. */
  lemma ScanRebuilds(t: Local, name: string, mount: seq<string>, me: string, scanT: int, t': Tree, x: seq<string>)
    requires LocalOk(t) && me != "" && scanT > 0 && x != []
    requires Updates(NewRoot(), Listing(t, name, mount, me, scanT), t')
    ensures Lookup(t', x).Some? <==> x < mount || (mount <= x && LocalAt(t, x[|mount|..]).Some?)
    ensures Lookup(t', x).Some? ==> Lookup(t', x).value.owner == me
    ensures Lookup(t', x).Some? && x < mount ==>
              Lookup(t', x).value == FileStat(x[|x| - 1], true, 0, 0, 0, 0, me)
    ensures Lookup(t', x).Some? && mount <= x ==>
              var s, node := Lookup(t', x).value, LocalAt(t, x[|mount|..]).value;
              && s.basename == (if x == mount then name else x[|x| - 1])
              && s.dir == node.Dir?
              && s.size == (if node.Dir? then 0 else node.size)
              && s.lastModified == node.modTime
              && s.mode == node.mode
              && s.lastInfoUpdated == scanT
  {
    ScanShows(t, name, mount, me, scanT, t', x);
    hide Listing, LocalAt, Updates, LocalOk, Lookup;
    if mount <= x {
      LastBelow(mount, x, name);
    }
  }

  lemma LastBelow(mount: seq<string>, x: seq<string>, name: string)
    requires mount <= x && x != []
    ensures NameAt(name, x[|mount|..]) == if x == mount then name else x[|x| - 1]
  {
  }

  lemma ScanShows(t: Local, name: string, mount: seq<string>, me: string, scanT: int, t': Tree, x: seq<string>)
    requires LocalOk(t) && me != "" && scanT > 0 && x != []
    requires Updates(NewRoot(), Listing(t, name, mount, me, scanT), t')
    ensures Lookup(t', x) == Rebuilt(t, name, mount, me, scanT, x)
  {
    hide Listing, Own, LocalAt, OwnedBy, Updates, LocalOk, Touched, Through;
    var l := Listing(t, name, mount, me, scanT);
    UpdateMeans(NewRoot(), l, t', x);
    ListingReach(t, name, mount, me, scanT, x);
    ListingByMe(t, name, mount, me, scanT);
    UpdateOwnedBy(NewRoot(), l, t', me);
    if Lookup(t', x).Some? {
      OwnedByAt(t', me, x);
    }
    if mount <= x {
      if LocalAt(t, x[|mount|..]).Some? {
        BelowMountRebuilt(t, name, mount, me, scanT, x);
      }
    } else if x < mount {
      AboveMountUnlisted(t, name, mount, me, scanT, x);
    }
  }

  /** Below the mount point, the listing's own stat prevails over a blank one. */
  lemma BelowMountRebuilt(t: Local, name: string, mount: seq<string>, me: string, scanT: int, x: seq<string>)
    requires LocalOk(t) && scanT > 0 && x != [] && mount <= x && LocalAt(t, x[|mount|..]).Some?
    ensures
      var r := x[|mount|..];
      AbsorbAll(BlankStat(x[|x| - 1]), Own(Listing(t, name, mount, me, scanT), x))
      == StatOf(LocalAt(t, r).value, NameAt(name, r), me, scanT)
    ensures OnlyAsDir(Own(Listing(t, name, mount, me, scanT), x)) <==> LocalAt(t, x[|mount|..]).value.Dir?
  {
    hide LocalAt, Listing, Own, LocalOk, AbsorbAll;
    var r := x[|mount|..];
    assert mount + r == x;
    ListingOwn(t, name, mount, me, scanT, r);
    AbsorbFirst(BlankStat(x[|x| - 1]), StatOf(LocalAt(t, r).value, NameAt(name, r), me, scanT));
  }

  lemma AboveMountUnlisted(t: Local, name: string, mount: seq<string>, me: string, scanT: int, x: seq<string>)
    requires LocalOk(t) && x < mount
    ensures Own(Listing(t, name, mount, me, scanT), x) == []
  {
    forall a | a in Listing(t, name, mount, me, scanT) ensures a.Path() != x {
      ListingMembers(t, name, mount, me, scanT, a);
    }
    NoOwn(Listing(t, name, mount, me, scanT), x);
  }

  lemma AbsorbFirst(s: FileStat, a: FileStat)
    requires s.owner == "" && a.lastInfoUpdated > s.lastInfoUpdated
    ensures AbsorbAll(s, [a]) == a
  {
    assert [a][..0] == [];
  }

  lemma ListingByMe(t: Local, name: string, p: seq<string>, me: string, scanT: int)
    requires LocalOk(t) && scanT > 0
    ensures AnnouncedBy(Listing(t, name, p, me, scanT), me)
  {
    forall a | a in Listing(t, name, p, me, scanT) ensures a.stat.owner == me && a.stat.lastInfoUpdated > 0 {
      ListingMembers(t, name, p, me, scanT, a);
    }
  }

  // ---- a listing is contiguous ----

  lemma {:induction false} NestedConcat(a: seq<Announcement>, b: seq<Announcement>)
    ensures Nested(a + b) == Nested(a) + Nested(b)
    decreases |b|
  {
    if b == [] {
      assert a + b == a;
    } else {
      assert (a + b)[..|a + b| - 1] == a + b[..|b| - 1];
      NestedConcat(a, b[..|b| - 1]);
    }
  }

  /** One level down, a listing below x :: p is a listing below p. */
  lemma {:induction false} NestedListing(t: Local, name: string, x: string, p: seq<string>, me: string, scanT: int)
    ensures Nested(Listing(t, name, [x] + p, me, scanT)) == Listing(t, name, p, me, scanT)
    decreases t, 1
  {
    var a := Announcement(x, p, StatOf(t, name, me, scanT));
    assert ([x] + p)[1..] == p;
    NestedOfOne(a);
    if t.File? {
      assert [a] + [] == [a];
    } else {
      NestedConcat([a], EntriesListing(t.entries, [x] + p, me, scanT));
      NestedEntries(t.entries, x, p, me, scanT);
    }
  }

  lemma NestedOfOne(a: Announcement)
    ensures Nested([a]) == if a.rest == [] then [] else [a.Shift()]
  {
    assert [a][..0] == [];
  }

  lemma {:induction false} NestedEntries(es: Entries, x: string, p: seq<string>, me: string, scanT: int)
    ensures Nested(EntriesListing(es, [x] + p, me, scanT)) == EntriesListing(es, p, me, scanT)
    decreases es, 0
  {
    if es.Item? {
      var q := p + [es.name];
      assert [x] + p + [es.name] == [x] + q;
      NestedConcat(Listing(es.node, es.name, [x] + q, me, scanT), EntriesListing(es.rest, [x] + p, me, scanT));
      NestedListing(es.node, es.name, x, q, me, scanT);
      NestedEntries(es.rest, x, p, me, scanT);
    }
  }

  lemma ContiguousRun(run: seq<Announcement>)
    requires SameFirst(run) && Contiguous(Nested(run))
    ensures Contiguous(run)
  {
    LastRunIs(run, 0);
    assert run[0..] == run && run[..0] == [];
  }

  lemma LastOfContiguous(anns: seq<Announcement>) returns (front: seq<Announcement>, run: seq<Announcement>)
    requires Contiguous(anns) && anns != []
    ensures anns == front + run && Contiguous(front) && Contiguous(Nested(run)) && SameFirst(run)
    ensures forall a :: a in front ==> a.first != run[0].first
  {
    var n := LastRun(anns);
    front, run := anns[..n], anns[n..];
  }

  /** Contiguous batches about different entries. */
  lemma {:induction false} ContiguousConcat(a: seq<Announcement>, b: seq<Announcement>)
    requires Contiguous(a) && Contiguous(b)
    requires forall x, y :: x in a && y in b ==> x.first != y.first
    ensures Contiguous(a + b)
    decreases |b|
  {
    if b == [] {
      assert a + b == a;
    } else {
      var front, run := LastOfContiguous(b);
      ContiguousConcat(a, front);
      ContiguousSnoc(a + front, run);
      ConcatAssoc(a, front, run);
    }
  }

  lemma ConcatAssoc(a: seq<Announcement>, b: seq<Announcement>, c: seq<Announcement>)
    ensures a + (b + c) == a + b + c
  {
  }

  lemma ContiguousSnoc(front: seq<Announcement>, run: seq<Announcement>)
    requires Contiguous(front) && SameFirst(run) && Contiguous(Nested(run))
    requires forall a :: a in front ==> a.first != run[0].first
    ensures Contiguous(front + run)
  {
    var anns, n := front + run, |front|;
    assert anns[n..] == run && anns[..n] == front;
    forall i | n <= i < |anns| ensures anns[i].first == anns[|anns| - 1].first {
      assert anns[i] in run && anns[|anns| - 1] in run;
    }
    if n > 0 {
      assert anns[n - 1] in front && anns[|anns| - 1] in run;
    }
    LastRunIs(anns, n);
  }

  /** A scan announces a contiguous batch. */
  lemma {:induction false} ListingContiguous(t: Local, name: string, p: seq<string>, me: string, scanT: int)
    requires LocalOk(t)
    ensures Contiguous(Listing(t, name, p, me, scanT))
    decreases t, 1, |p|
  {
    var l := Listing(t, name, p, me, scanT);
    if p == [] {
      if t.Dir? {
        EntriesContiguous(t.entries, me, scanT);
        assert l == EntriesListing(t.entries, [], me, scanT);
      }
    } else {
      var x, q := Uncons(p);
      NestedListing(t, name, x, q, me, scanT);
      ListingContiguous(t, name, q, me, scanT);
      forall a | a in l ensures a.first == x {
        ListingMembers(t, name, p, me, scanT, a);
        assert a.Path()[0] == p[0];
      }
      ContiguousRun(l);
    }
  }

  lemma {:induction false} EntriesContiguous(es: Entries, me: string, scanT: int)
    requires EntriesOk(es)
    ensures Contiguous(EntriesListing(es, [], me, scanT))
    decreases es, 0, 0
  {
    if es.Item? {
      var a, b := Listing(es.node, es.name, [es.name], me, scanT), EntriesListing(es.rest, [], me, scanT);
      assert [] + [es.name] == [es.name];
      ListingContiguous(es.node, es.name, [es.name], me, scanT);
      EntriesContiguous(es.rest, me, scanT);
      forall x, y | x in a && y in b ensures x.first != y.first {
        ListingMembers(es.node, es.name, [es.name], me, scanT, x);
        EntriesMembers(es.rest, [], me, scanT, y);
        assert x.Path()[0] == es.name && y.Path()[0] == y.first;
      }
      ContiguousConcat(a, b);
    }
  }

  // ---- empty directories ----

  /** Every directory of the tree that is announced has something in it. */
  ghost predicate NoEmptyDir(t: Local, p: seq<string>) {
    forall r :: p + r != [] && LocalAt(t, r).Some? && LocalAt(t, r).value.Dir? ==> LocalAt(t, r).value.entries.Item?
  }

  lemma {:induction false} LocalAtConcat(t: Local, r: seq<string>, q: seq<string>)
    requires LocalAt(t, r).Some?
    ensures LocalAt(t, r + q) == LocalAt(LocalAt(t, r).value, q)
    decreases |r|
  {
    if r == [] {
      assert r + q == q;
    } else {
      assert (r + q)[1..] == r[1..] + q;
      LocalAtConcat(Find(t.entries, r[0]).value, r[1..], q);
    }
  }

  /** The scan of a local tree leaves every directory by descending through it exactly if
      there are no empty ones. */
  lemma ListingAggregates(t: Local, name: string, p: seq<string>, me: string, scanT: int)
    requires LocalOk(t)
    ensures Aggregates(Listing(t, name, p, me, scanT)) <==> NoEmptyDir(t, p)
  {
    var l := Listing(t, name, p, me, scanT);
    ListingContiguous(t, name, p, me, scanT);
    ContiguousAggregates(l);
    if NoEmptyDir(t, p) {
      forall a | a in l && a.stat.dir ensures Through(l, a.Path()) {
        AnnouncedIsNotEmpty(t, name, p, me, scanT, a);
      }
    }
    if NoEmptyDirectory(l) {
      forall r | p + r != [] && LocalAt(t, r).Some? && LocalAt(t, r).value.Dir?
        ensures LocalAt(t, r).value.entries.Item?
      {
        PassedIsNotEmpty(t, name, p, me, scanT, r);
      }
    }
  }

  lemma AnnouncedIsNotEmpty(t: Local, name: string, p: seq<string>, me: string, scanT: int, a: Announcement)
    requires LocalOk(t) && NoEmptyDir(t, p) && a in Listing(t, name, p, me, scanT) && a.stat.dir
    ensures Through(Listing(t, name, p, me, scanT), a.Path())
  {
    ListingMembers(t, name, p, me, scanT, a);
    var r := a.Path()[|p|..];
    assert p + r == a.Path();
    var d := LocalAt(t, r).value;
    LocalAtConcat(t, r, [d.entries.name]);
    ListingTouches(t, name, p, me, scanT, r + [d.entries.name]);
    assert a.Path() < p + (r + [d.entries.name]);
  }

  lemma PassedIsNotEmpty(t: Local, name: string, p: seq<string>, me: string, scanT: int, r: seq<string>)
    requires LocalOk(t) && NoEmptyDirectory(Listing(t, name, p, me, scanT))
    requires p + r != [] && LocalAt(t, r).Some? && LocalAt(t, r).value.Dir?
    ensures LocalAt(t, r).value.entries.Item?
  {
    hide Listing, LocalOk, LocalAt, StatOf;
    var l := Listing(t, name, p, me, scanT);
    var a := ListedAt(t, name, p, me, scanT, r);
    var b :| b in l && a.Path() < b.Path();
    ListingMembers(t, name, p, me, scanT, b);
    var q := Beyond(p, r, b.Path());
    LocalAtConcat(t, r, q);
    HoldsSomething(LocalAt(t, r).value, q);
  }

  lemma ListedAt(t: Local, name: string, p: seq<string>, me: string, scanT: int, r: seq<string>)
      returns (a: Announcement)
    requires LocalOk(t) && p + r != [] && LocalAt(t, r).Some?
    ensures a in Listing(t, name, p, me, scanT) && a.Path() == p + r && a.stat.dir == LocalAt(t, r).value.Dir?
  {
    hide Listing, LocalOk, LocalAt;
    ListingTouches(t, name, p, me, scanT, r);
    a :| a in Listing(t, name, p, me, scanT) && a.Path() == p + r;
    ListingMembers(t, name, p, me, scanT, a);
    assert a.Path()[|p|..] == r;
  }

  lemma Beyond(p: seq<string>, r: seq<string>, x: seq<string>) returns (q: seq<string>)
    requires p + r < x
    ensures x[|p|..] == r + q && q != []
  {
    q := x[|p + r|..];
  }

  lemma HoldsSomething(d: Local, q: seq<string>)
    requires d.Dir? && q != [] && LocalAt(d, q).Some?
    ensures d.entries.Item?
  {
  }

  /** Receiving the list of a scan again changes nothing, in whatever tree of owned nodes. */
  lemma RepeatedListChangesNothing(t: Local, name: string, mount: seq<string>, me: string, scanT: int,
                                   tree: Tree, tree': Tree, tree'': Tree)
    requires LocalOk(t) && HasOwners(tree) && scanT > 0 && me != "" && me != MULTIPLE_OWNERS
    requires Updates(tree, Listing(t, name, mount, me, scanT), tree')
    requires Updates(tree', Listing(t, name, mount, me, scanT), tree'')
    ensures tree'' == tree'
  {
    ListingContiguous(t, name, mount, me, scanT);
    ListingByMe(t, name, mount, me, scanT);
    ContiguousAllDescend(Listing(t, name, mount, me, scanT));
    UpdateIdempotent(tree, Listing(t, name, mount, me, scanT), tree', tree'');
  }
}
