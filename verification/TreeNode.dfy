/**
  The tree of nodes and the announcements as objects, updated in place.
*/
module TreeNodes {
  import opened Announcements
  import opened FileTree
  import opened Paths
  import opened Wrappers

  /** The components of a full name, with or without a leading slash. */
  function NameParts(fullName: string): (parts: seq<string>)
    ensures parts != []
  {
    Split(TrimPrefix(fullName, "/"))
  }

  /** What the update makes of an announcement. A deletion is never shifted, so it acts on
      the entry of its first component, whatever follows; it is marked by the size -1. */
  function Parse(parts: seq<string>, stat: FileStat, deletion: bool): Announcement
    requires parts != []
  {
    Announcement(parts[0], if deletion then [] else parts[1..], if deletion then stat.(size := -1) else stat)
  }

  /** An announcement as it is scanned or received. */
  class FileAnnouncement {
    var fullName: string
    var stat: FileStat
    /** [] stands for the nil slice of an announcement not yet split. */
    var fullNameParts: seq<string>
    var deletion: bool

    constructor (fullName: string, stat: FileStat, deletion: bool)
      ensures this.fullName == fullName && this.stat == stat && this.deletion == deletion
      ensures fullNameParts == []
    {
      this.fullName, this.stat, this.deletion := fullName, stat, deletion;
      fullNameParts := [];
    }

    /** The announcement as a value, once it is initialised. */
    ghost function Value(): Announcement
      requires fullNameParts != []
      reads this
    {
      Announcement(fullNameParts[0], if deletion then [] else fullNameParts[1..], stat)
    }

    /** The value it will have once it is initialised. */
    ghost function Parsed(): Announcement
      reads this
    {
      Parse(if fullNameParts == [] then NameParts(fullName) else fullNameParts, stat, deletion)
    }

    method EnsureInit()
      modifies this`fullNameParts, this`stat
      ensures fullNameParts != [] && Value() == old(Parsed())
      ensures old(fullNameParts) != [] ==> fullNameParts == old(fullNameParts)
      ensures old(fullNameParts) == [] ==>
                (forall c :: c in fullNameParts ==> '/' !in c)
                && (if "/" <= fullName then fullName == "/" + Concat(fullNameParts)
                    else fullName == Concat(fullNameParts))
      ensures stat == if deletion then old(stat).(size := -1) else old(stat)
    {
      if fullNameParts == [] {
        fullNameParts := NameParts(fullName);
        SplitParts(TrimPrefix(fullName, "/"));
        ConcatSplit(TrimPrefix(fullName, "/"));
        assert "/" <= fullName ==> fullName == "/" + fullName[1..];
      }
      if deletion {
        stat := stat.(size := -1);
      }
    }

    function NamePart(): string
      requires fullNameParts != []
      reads this
    {
      fullNameParts[0]
    }

    predicate IsLeaf()
      reads this
    {
      |fullNameParts| == 1
    }

    method NameShift()
      requires |fullNameParts| > 1 && !deletion
      modifies this`fullNameParts
      ensures fullNameParts == old(fullNameParts[1..])
      ensures Value() == old(Value()).Shift()
    {
      fullNameParts := fullNameParts[1..];
    }
  }

  /** The announcements are split, and stand for the values `vs`. */
  ghost predicate Represents(files: seq<FileAnnouncement>, vs: seq<Announcement>)
    reads files
  {
    && |files| == |vs|
    && forall i :: 0 <= i < |files| ==> files[i].fullNameParts != [] && files[i].Value() == vs[i]
  }

  ghost predicate Distinct(files: seq<FileAnnouncement>) {
    forall i, j :: 0 <= i < j < |files| ==> files[i] != files[j]
  }

  /** Once initialised, the announcements will stand for the values `vs`. */
  ghost predicate Announce(files: seq<FileAnnouncement>, vs: seq<Announcement>)
    reads files
  {
    && |files| == |vs|
    && forall i :: 0 <= i < |files| ==> files[i].Parsed() == vs[i]
  }

  method InitAll(files: seq<FileAnnouncement>, ghost vs: seq<Announcement>)
    requires Distinct(files) && Announce(files, vs)
    modifies (set f | f in files)`fullNameParts, (set f | f in files)`stat
    ensures Represents(files, vs)
    ensures forall f :: f in files && !f.deletion ==> f.stat == old(f.stat)
  {
    for i := 0 to |files|
      invariant forall f :: f in files && !f.deletion ==> f.stat == old(f.stat)
      invariant forall j :: 0 <= j < i ==> files[j].fullNameParts != [] && files[j].Value() == vs[j]
      invariant forall j :: i <= j < |files| ==> files[j].Parsed() == vs[j]
    {
      files[i].EnsureInit();
    }
  }

  datatype FileGroup = FileGroup(name: string, files: seq<FileAnnouncement>)

  /** The groups are the maximal runs of `files`, whose values are `vs`, in order. */
  ghost predicate AreRuns(groups: seq<FileGroup>, files: seq<FileAnnouncement>, vs: seq<Announcement>)
    requires |files| == |vs|
  {
    if groups == [] then
      files == []
    else
      var last := groups[|groups| - 1];
      var n := |files| - |last.files|;
      && 0 <= n < |files|
      && last.files == files[n..]
      && (forall j :: n <= j < |vs| ==> vs[j].first == last.name)
      && (n > 0 ==> vs[n - 1].first != last.name)
      && AreRuns(groups[..|groups| - 1], files[..n], vs[..n])
  }

  ghost function Total(groups: seq<FileGroup>): nat {
    if groups == [] then 0 else Total(groups[..|groups| - 1]) + |groups[|groups| - 1].files|
  }

  lemma {:induction false} RunsTotal(groups: seq<FileGroup>, files: seq<FileAnnouncement>, vs: seq<Announcement>)
    requires |files| == |vs| && AreRuns(groups, files, vs)
    ensures |files| == Total(groups)
    decreases |groups|
  {
    if groups != [] {
      var n := |files| - |groups[|groups| - 1].files|;
      RunsTotal(groups[..|groups| - 1], files[..n], vs[..n]);
    }
  }

  lemma {:induction false} RunsPrefix(groups: seq<FileGroup>, files: seq<FileAnnouncement>, vs: seq<Announcement>,
                                      i: nat)
    requires |files| == |vs| && AreRuns(groups, files, vs) && i <= |groups|
    ensures Total(groups[..i]) <= |files|
    ensures AreRuns(groups[..i], files[..Total(groups[..i])], vs[..Total(groups[..i])])
    decreases |groups|
  {
    if i == |groups| {
      assert groups[..i] == groups;
      RunsTotal(groups, files, vs);
      assert files[..|files|] == files && vs[..|vs|] == vs;
    } else {
      var front := groups[..|groups| - 1];
      var n := |files| - |groups[|groups| - 1].files|;
      RunsPrefix(front, files[..n], vs[..n], i);
      hide AreRuns, Total;
      var c := Total(groups[..i]);
      assert front[..i] == groups[..i];
      assert files[..n][..c] == files[..c] && vs[..n][..c] == vs[..c];
    }
  }

  /** The first `i` announcements are grouped, those from `n` on in the group still open. */
  ghost predicate Grouping(groups: seq<FileGroup>, open: FileGroup, files: seq<FileAnnouncement>,
                           vs: seq<Announcement>, n: nat, i: nat)
    requires |files| == |vs| && n <= i <= |files|
  {
    && AreRuns(groups, files[..n], vs[..n])
    && open.files == files[n..i]
    && (forall j :: n <= j < i ==> vs[j].first == open.name)
    && (0 < n < i ==> vs[n - 1].first != open.name)
  }

  lemma GroupMore(groups: seq<FileGroup>, open: FileGroup, files: seq<FileAnnouncement>,
                  vs: seq<Announcement>, n: nat, i: nat)
    requires |files| == |vs| && n <= i < |files|
    requires Grouping(groups, open, files, vs, n, i)
    requires n == i || vs[i].first == open.name
    requires n == i > 0 ==> vs[i].first != vs[i - 1].first
    ensures Grouping(groups, FileGroup(vs[i].first, open.files + [files[i]]), files, vs, n, i + 1)
  {
    assert files[n..i + 1] == files[n..i] + [files[i]];
  }

  lemma CloseGroup(groups: seq<FileGroup>, open: FileGroup, all: seq<FileGroup>, files: seq<FileAnnouncement>,
                   vs: seq<Announcement>, n: nat, i: nat)
    requires |files| == |vs| && n < i <= |files| && all == groups + [open]
    requires Grouping(groups, open, files, vs, n, i)
    ensures Grouping(all, FileGroup("", []), files, vs, i, i)
  {
    assert all[..|all| - 1] == groups;
    assert files[..i][n..] == files[n..i];
    assert files[..i][..n] == files[..n] && vs[..i][..n] == vs[..n];
  }

  lemma CloseLast(groups: seq<FileGroup>, open: FileGroup, files: seq<FileAnnouncement>,
                  vs: seq<Announcement>, n: nat)
    requires |files| == |vs| && n < |files|
    requires Grouping(groups, open, files, vs, n, |files|)
    ensures AreRuns(groups + [open], files, vs)
  {
    CloseGroup(groups, open, groups + [open], files, vs, n, |files|);
    assert files[..|files|] == files && vs[..|vs|] == vs;
  }

  lemma NothingGrouped(groups: seq<FileGroup>, open: FileGroup, files: seq<FileAnnouncement>,
                       vs: seq<Announcement>, n: nat)
    requires |files| == |vs| && files == [] && n == 0
    requires Grouping(groups, open, files, vs, n, 0)
    ensures AreRuns(groups, files, vs)
  {
    assert files[..0] == files && vs[..0] == vs;
  }

  lemma OpenGroup(groups: seq<FileGroup>, open: FileGroup, files: seq<FileAnnouncement>,
                  vs: seq<Announcement>, n: nat, i: nat)
    requires |files| == |vs| && n <= i <= |files| && Grouping(groups, open, files, vs, n, i)
    ensures |open.files| == i - n && (n < i ==> vs[i - 1].first == open.name)
  {
  }

  lemma NoGroups(files: seq<FileAnnouncement>, vs: seq<Announcement>)
    requires |files| == |vs|
    ensures Grouping([], FileGroup("", []), files, vs, 0, 0)
  {
  }

  method GroupAnnouncementsByFilepart(files: seq<FileAnnouncement>, ghost vs: seq<Announcement>)
      returns (groups: seq<FileGroup>)
    requires Represents(files, vs)
    ensures AreRuns(groups, files, vs)
  {
    hide AreRuns, Grouping;
    ghost var n := 0;
    groups := [];
    var prevName, prevGroup := "", FileGroup("", []);
    NoGroups(files, vs);
    for i := 0 to |files|
      invariant n <= i && Grouping(groups, prevGroup, files, vs, n, i)
      invariant i > 0 ==> n < i && prevName == prevGroup.name
    {
      OpenGroup(groups, prevGroup, files, vs, n, i);
      var fa := files[i];
      var curName := fa.NamePart();
      if curName != prevName && |prevGroup.files| > 0 {
        CloseGroup(groups, prevGroup, groups + [prevGroup], files, vs, n, i);
        groups, n := groups + [prevGroup], i;
        prevGroup := FileGroup("", []);
      }
      GroupMore(groups, prevGroup, files, vs, n, i);
      prevGroup := FileGroup(curName, prevGroup.files + [fa]);
      prevName := curName;
    }
    OpenGroup(groups, prevGroup, files, vs, n, |files|);
    if |prevGroup.files| > 0 {
      CloseLast(groups, prevGroup, files, vs, n);
      groups := groups + [prevGroup];
    } else {
      NothingGrouped(groups, prevGroup, files, vs, n);
    }
  }

  /** All names in the tree are ordinary path components. */
  ghost predicate CleanNames(t: Tree) {
    forall k :: k in t.kids ==> Proper(k) && CleanNames(t.kids[k])
  }

  /** `q` exists, and the callback asked to skip no directory above it; the tree itself lies
      at `base`, and the callback is not asked about the root. */
  ghost predicate Shown(t: Tree, callback: (string, FileStat) -> bool, base: seq<string>, q: seq<string>) {
    q != [] ==>
      && q[0] in t.kids
      && (base == [] || !callback(Concat(base), t.stat))
      && Shown(t.kids[q[0]], callback, base + [q[0]], q[1..])
  }

  lemma {:induction false} ShownIsClean(t: Tree, callback: (string, FileStat) -> bool, base: seq<string>,
                                        q: seq<string>)
    requires CleanNames(t) && Shown(t, callback, base, q)
    ensures AllProper(q)
    decreases |q|
  {
    if q != [] {
      ShownIsClean(t.kids[q[0]], callback, base + [q[0]], q[1..]);
    }
  }

  /** The paths `qs` below the child `name`. */
  ghost function Under(name: string, qs: seq<seq<string>>): seq<seq<string>> {
    seq(|qs|, i requires 0 <= i < |qs| => [name] + qs[i])
  }

  ghost predicate ShownSoFar(t: Tree, callback: (string, FileStat) -> bool, base: seq<string>,
                             todo: set<string>, shown: seq<seq<string>>)
  {
    forall q :: q in shown <==>
      if q == [] then base != [] else q[0] !in todo && Shown(t, callback, base, q)
  }

  lemma ShownMore(t: Tree, callback: (string, FileStat) -> bool, base: seq<string>, todo: set<string>,
                  shown: seq<seq<string>>, name: string, s: seq<seq<string>>)
    requires name in todo && todo <= t.kids.Keys && (base != [] ==> !callback(Concat(base), t.stat))
    requires ShownSoFar(t, callback, base, todo, shown)
    requires ShownSoFar(t.kids[name], callback, base + [name], {}, s)
    ensures ShownSoFar(t, callback, base, todo - {name}, shown + Under(name, s))
  {
    forall q ensures q in shown + Under(name, s) <==>
        if q == [] then base != [] else q[0] !in todo - {name} && Shown(t, callback, base, q)
    {
      UnderMembers(name, s, q);
      assert base + [name] != [];
      assert q != [] && q[0] == name ==> (q[1..] in s <==> Shown(t.kids[name], callback, base + [name], q[1..]));
    }
  }

  /** No path is listed twice, and none after a path below it. */
  ghost predicate NoneAbove(qs: seq<seq<string>>) {
    forall i, j :: 0 <= i < j < |qs| ==> !(qs[j] <= qs[i])
  }

  lemma UnderMembers(name: string, qs: seq<seq<string>>, q: seq<string>)
    ensures q in Under(name, qs) <==> q != [] && q[0] == name && q[1..] in qs
  {
    if q in Under(name, qs) {
      var i :| 0 <= i < |qs| && [name] + qs[i] == q;
      assert q[1..] == qs[i];
    }
    if q != [] && q[0] == name && q[1..] in qs {
      var i :| 0 <= i < |qs| && qs[i] == q[1..];
      assert Under(name, qs)[i] == q;
    }
  }

  lemma NoneAboveConcat(name: string, above: seq<seq<string>>, qs: seq<seq<string>>)
    requires NoneAbove(above) && NoneAbove(qs)
    requires forall q :: q in above && q != [] ==> q[0] != name
    ensures NoneAbove(above + Under(name, qs))
  {
    var under := Under(name, qs);
    forall i, j | 0 <= i < j < |qs| ensures !(under[j] <= under[i]) {
      PrefixAfter(name, qs[j], name, qs[i]);
    }
    forall i, j | 0 <= i < |above| && 0 <= j < |under| ensures !(under[j] <= above[i]) {
      assert above[i] in above && under[j][0] == name;
    }
  }

  /** No node loses or replaces a child. */
  twostate predicate KeepsChildren(nodes: set<TreeNode>)
    reads nodes
  {
    forall n, k :: n in nodes && k in old(n.childNodes) ==> k in n.childNodes && n.childNodes[k] == old(n.childNodes[k])
  }

  /** A node of the tree. `Model` is the value the subtree stands for, `Repr` its nodes. */
  class TreeNode {
    var fileStat: FileStat
    var childNodes: map<string, TreeNode>
    ghost var Repr: set<TreeNode>
    ghost var Model: Tree

    /** The nodes below form a finite tree with pairwise disjoint subtrees. */
    ghost predicate Valid()
      reads this, Repr
      ensures Valid() ==> this in Repr
      decreases Repr, 1
    {
      && this in Repr
      && Model.stat == fileStat
      && Model.kids.Keys == childNodes.Keys
      && (forall k :: k in childNodes ==> childNodes[k] in Repr && childNodes[k].Repr <= Repr && Linked(k))
      && Separate()
    }

    ghost predicate Linked(k: string)
      requires k in childNodes
      reads this, childNodes[k], childNodes[k].Repr
      decreases Repr, 0
    {
      && k in Model.kids
      && this in Repr && childNodes[k] in Repr && childNodes[k].Repr <= Repr && this !in childNodes[k].Repr
      && childNodes[k].Valid() && childNodes[k].Model == Model.kids[k]
    }

    ghost predicate Separate()
      reads this, childNodes.Values
    {
      forall k, k' :: k in childNodes && k' in childNodes && k != k' ==> childNodes[k].Repr !! childNodes[k'].Repr
    }

    /** The node at a path of components. */
    function SeekParts(path: seq<string>): TreeNode?
      requires Valid() && path != []
      reads this, Repr
      decreases |path|
    {
      if path[0] !in childNodes then null
      else if |path| == 1 then childNodes[path[0]]
      else assert Linked(path[0]);
           childNodes[path[0]].SeekParts(path[1..])
    }

    function Seek(path: string): TreeNode?
      requires Valid()
      reads this, Repr
    {
      if path == "" then this
      else SeekParts(Split(TrimSuffix(TrimPrefix(path, "/"), "/")))
    }

    /** The node at any path of components, the root's own included. */
    ghost function NodeAt(path: seq<string>): TreeNode?
      requires Valid()
      reads this, Repr
    {
      if path == [] then this else SeekParts(path)
    }

    /** Seeking finds exactly the paths of the value, and the subtree there. */
    lemma {:induction false} SeekFinds(path: seq<string>)
      requires Valid()
      ensures NodeAt(path) == null <==> At(Model, path) == None
      ensures
        var n := NodeAt(path);
        n != null ==> n in Repr && n.Repr <= Repr && n.Valid() && At(Model, path) == Some(n.Model)
      decreases |path|
    {
      if path != [] && path[0] in childNodes {
        assert Linked(path[0]);
        childNodes[path[0]].SeekFinds(path[1..]);
      }
    }

    /** Seeking a path by its spelling, slashes at the ends or not. */
    lemma SeekSpelled(path: string, parts: seq<string>)
      requires Valid() && parts != [] && AllProper(parts) && Spells(path, parts)
      ensures Seek(path) == NodeAt(parts)
    {
      SpelledParts(path, parts);
    }

    /** Visits the tree, children in an arbitrary order, and lists the paths passed to
        `callback` with the nodes they were passed for; `shown` has them as components.
        The callback's answer says whether to skip a directory. */
    method Walk(callback: (string, FileStat) -> bool)
        returns (reported: seq<string>, nodes: seq<TreeNode>, ghost shown: seq<seq<string>>)
      requires Valid() && CleanNames(Model)
      ensures |reported| == |nodes| == |shown|
      ensures forall i :: 0 <= i < |shown| ==> shown[i] != [] && AllProper(shown[i]) && reported[i] == Concat(shown[i])
      ensures forall i :: 0 <= i < |shown| ==> nodes[i] == NodeAt(shown[i]) == Seek(reported[i])
      ensures forall q :: q in shown <==> q != [] && Shown(Model, callback, [], q)
      ensures NoneAbove(shown)
    {
      reported, nodes, shown := WalkFrom(callback, "", []);
      forall i | 0 <= i < |shown|
        ensures shown[i] != [] && AllProper(shown[i]) && reported[i] == Concat(shown[i])
        ensures nodes[i] == NodeAt(shown[i]) == Seek(reported[i])
      {
        assert shown[i] in shown;
        ShownIsClean(Model, callback, [], shown[i]);
        assert [] + shown[i] == shown[i];
        SeekSpelled(reported[i], shown[i]);
      }
    }

    /** What has been listed when the children in `todo` are still to be visited. */
    ghost predicate Listed(callback: (string, FileStat) -> bool, base: seq<string>, todo: set<string>,
                           reported: seq<string>, nodes: seq<TreeNode>, shown: seq<seq<string>>)
      requires Valid()
      reads this, Repr
    {
      && Items(base, reported, nodes, shown)
      && ShownSoFar(Model, callback, base, todo, shown)
      && NoneAbove(shown)
    }

    ghost predicate Items(base: seq<string>, reported: seq<string>, nodes: seq<TreeNode>, shown: seq<seq<string>>)
      requires Valid()
      reads this, Repr
    {
      && |reported| == |nodes| == |shown|
      && forall i :: 0 <= i < |shown| ==> reported[i] == Concat(base + shown[i]) && nodes[i] == NodeAt(shown[i])
    }

    method WalkFrom(callback: (string, FileStat) -> bool, basepath: string, ghost base: seq<string>)
        returns (reported: seq<string>, nodes: seq<TreeNode>, ghost shown: seq<seq<string>>)
      requires Valid() && CleanNames(Model) && AllProper(base) && basepath == Concat(base)
      ensures Listed(callback, base, {}, reported, nodes, shown)
      decreases Repr
    {
      reported, nodes, shown := [], [], [];
      if base != [] {
        ConcatStart(base);
      }
      if basepath != "" {
        reported, nodes, shown := [basepath], [this], [[]];
        assert base + [] == base;
        if callback(basepath, fileStat) {
          return;
        }
      }
      var todo := childNodes.Keys;
      while todo != {}
        invariant todo <= childNodes.Keys
        invariant Listed(callback, base, todo, reported, nodes, shown)
      {
        var name :| name in todo;
        assert Linked(name);
        JoinName(base, name);
        var r, n;
        ghost var s;
        r, n, s := childNodes[name].WalkFrom(callback, Join(basepath, name), base + [name]);
        ListMore(callback, base, todo, reported, nodes, shown, name, r, n, s);
        reported, nodes, shown := reported + r, nodes + n, shown + Under(name, s);
        todo := todo - {name};
      }
    }

    lemma ListMore(callback: (string, FileStat) -> bool, base: seq<string>, todo: set<string>,
                   reported: seq<string>, nodes: seq<TreeNode>, shown: seq<seq<string>>, name: string,
                   r: seq<string>, n: seq<TreeNode>, s: seq<seq<string>>)
      requires Valid() && name in todo && todo <= childNodes.Keys && childNodes[name].Valid()
      requires base != [] ==> !callback(Concat(base), Model.stat)
      requires Listed(callback, base, todo, reported, nodes, shown)
      requires childNodes[name].Listed(callback, base + [name], {}, r, n, s)
      ensures Listed(callback, base, todo - {name}, reported + r, nodes + n, shown + Under(name, s))
    {
      hide Shown, CleanNames, NoneAbove, Items;
      assert Linked(name);
      ItemsMore(base, reported, nodes, shown, name, r, n, s);
      ShownMore(Model, callback, base, todo, shown, name, s);
      NoneAboveConcat(name, shown, s);
    }

    lemma ItemsMore(base: seq<string>, reported: seq<string>, nodes: seq<TreeNode>, shown: seq<seq<string>>,
                    name: string, r: seq<string>, n: seq<TreeNode>, s: seq<seq<string>>)
      requires Valid() && name in childNodes && childNodes[name].Valid()
      requires Items(base, reported, nodes, shown) && childNodes[name].Items(base + [name], r, n, s)
      ensures Items(base, reported + r, nodes + n, shown + Under(name, s))
    {
      hide Valid, Concat, NodeAt;
      var under := Under(name, s);
      forall i | 0 <= i < |s| ensures r[i] == Concat(base + under[i]) && n[i] == NodeAt(under[i]) {
        assert base + [name] + s[i] == base + under[i];
        NodeBelow(name, s[i]);
      }
    }

    lemma NodeBelow(name: string, q: seq<string>)
      requires Valid() && name in childNodes && childNodes[name].Valid()
      ensures NodeAt([name] + q) == childNodes[name].NodeAt(q)
    {
      assert ([name] + q)[1..] == q;
    }

    /** Restores validity after the child `name` has changed. */
    ghost method Relink(name: string)
      requires this in Repr && Model.stat == fileStat && Model.kids.Keys == childNodes.Keys
      requires name in childNodes && childNodes[name].Valid() && this !in childNodes[name].Repr
      requires forall k | k in childNodes && k != name :: Linked(k)
      requires Separate()
      modifies this`Repr, this`Model
      ensures Valid() && Repr == old(Repr) + childNodes[name].Repr
      ensures Model == Tree(old(Model).stat, old(Model).kids[name := childNodes[name].Model])
    {
      Repr := Repr + childNodes[name].Repr;
      Model := Tree(Model.stat, Model.kids[name := childNodes[name].Model]);
    }

    constructor (stat: FileStat)
      ensures Valid() && Repr == {this} && Model == Tree(stat, map[])
    {
      fileStat, childNodes := stat, map[];
      Repr, Model := {this}, Tree(stat, map[]);
    }

    method SetAsDir()
      requires Valid()
      modifies this`fileStat, this`Model
      ensures Valid() && Model == old(Tree(Announcements.SetAsDir(Model.stat), Model.kids))
    {
      fileStat := fileStat.(dir := true, size := 0);
      Model := Tree(fileStat, Model.kids);
    }

    /** The map of children is enumerated in an arbitrary order. */
    method RecalculateOwner()
      requires Valid()
      modifies this`fileStat, this`Model
      ensures Valid() && Model == old(Model).(stat := old(Model.stat).(owner := Model.stat.owner))
      ensures if old(Model.stat.dir) then MayOwn(Model.kids, Model.stat.owner) else Model == old(Model)
    {
      if !fileStat.dir {
        return;
      }
      var owner := OwnerOfChildren();
      hide MayOwn;
      fileStat := fileStat.(owner := owner);
      Model := Tree(fileStat, Model.kids);
    }

    lemma ChildStats()
      requires Valid()
      ensures Model.kids.Keys == childNodes.Keys
      ensures forall k :: k in childNodes ==> k in Model.kids && childNodes[k].fileStat == Model.kids[k].stat
    {
      forall k | k in childNodes ensures k in Model.kids && childNodes[k].fileStat == Model.kids[k].stat {
        assert Linked(k) && childNodes[k].Valid();
      }
    }

    /** The loop over the children, in an arbitrary order. */
    method OwnerOfChildren() returns (owner: string)
      requires Valid()
      ensures MayOwn(Model.kids, owner)
    {
      ChildStats();
      hide Valid, Linked, Separate, Enumerates, FoldOwners, MayOwn;
      owner := "";
      var todo := childNodes.Keys;
      NoOwners(todo);
      ghost var order: seq<string>, owners: seq<string> := [], [];
      while todo != {}
        invariant todo <= childNodes.Keys
        invariant Enumerates(order, childNodes.Keys - todo)
        invariant |owners| == |order|
        invariant forall i :: 0 <= i < |order| ==>
                    order[i] in childNodes && owners[i] == childNodes[order[i]].fileStat.owner
        invariant owner == FoldOwners(owners)
      {
        var k :| k in todo;
        var e := childNodes[k];
        NextOwner(order, childNodes.Keys, todo, k, owners, e.fileStat.owner);
        if owner == "" {
          owner := e.fileStat.owner;
        } else if owner != e.fileStat.owner {
          owner := MULTIPLE_OWNERS;
        }
        todo, order, owners := todo - {k}, order + [k], owners + [e.fileStat.owner];
      }
      OwnersAre(order, owners, Model.kids);
    }

    /** The child called `name`, created if there is none, with nothing but its name. */
    method EntryFor(name: string) returns (entry: TreeNode)
      requires Valid()
      modifies this`childNodes, this`Repr, this`Model
      ensures Valid() && fresh(Repr - old(Repr)) && old(Repr) <= Repr
      ensures name in childNodes && entry == childNodes[name]
      ensures childNodes == old(childNodes)[name := entry]
      ensures name in old(childNodes) ==> entry == old(childNodes[name])
      ensures name !in old(childNodes) ==>
                fresh(entry) && entry.childNodes == map[] && entry.fileStat == FileStat(name, false, 0, 0, 0, 0, "")
      ensures Model == old(Tree(Model.stat, Model.kids[name := Entry(Model, name)]))
    {
      if name in childNodes {
        entry := childNodes[name];
      } else {
        entry := new TreeNode(BlankStat(name));
        childNodes := childNodes[name := entry];
        Repr := Repr + {entry};
        Model := Tree(Model.stat, Model.kids[name := Blank(name)]);
      }
    }
  
    /** The second half of a run: what lies below the entry. */
    method Descend(nestedFiles: seq<FileAnnouncement>, ghost vs: seq<Announcement>)
      requires Valid() && Represents(nestedFiles, vs) && Distinct(nestedFiles)
      modifies Repr, (set f | f in nestedFiles)`fullNameParts
      ensures Valid() && fresh(Repr - old(Repr)) && old(Repr) <= Repr
      ensures KeepsChildren(old(Repr))
      ensures
        var dir := Announcements.SetAsDir(old(Model).stat);
        && Updates(Tree(dir, old(Model).kids), vs, Tree(dir, Model.kids))
        && MayOwn(Model.kids, Model.stat.owner)
        && Model.stat == dir.(owner := Model.stat.owner)
      decreases Depth(vs), |vs|, 5
    {
      SetAsDir();
      UpdateRuns(nestedFiles, vs);
      RecalculateOwner();
    }

    /** The first half of a run: leaf announcements are applied, the others shifted. */
    method ApplyLeaves(files: seq<FileAnnouncement>, ghost vs: seq<Announcement>)
        returns (nestedFiles: seq<FileAnnouncement>)
      requires Represents(files, vs) && Distinct(files)
      modifies this`fileStat, (set f | f in files)`fullNameParts
      ensures fileStat == AbsorbAll(old(fileStat), Leaves(vs))
      ensures Represents(nestedFiles, Nested(vs)) && Distinct(nestedFiles)
      ensures forall f :: f in nestedFiles ==> f in files
    {
      hide Leaves, Nested, AbsorbAll;
      nestedFiles := [];
      ghost var nested: seq<Announcement> := [];
      RunNil(vs, fileStat);
      for i := 0 to |files|
        invariant fileStat == AbsorbAll(old(fileStat), Leaves(vs[..i]))
        invariant forall j :: i <= j < |files| ==> files[j].fullNameParts == old(files[j].fullNameParts)
        invariant nested == Nested(vs[..i]) && Represents(nestedFiles, nested)
        invariant forall k :: 0 <= k < |nestedFiles| ==> nestedFiles[k] in files[..i]
        invariant Distinct(nestedFiles)
      {
        var fa := files[i];
        RunSnoc(vs, i);
        if !fa.IsLeaf() && !fa.deletion {
          fa.NameShift();
          nestedFiles, nested := nestedFiles + [fa], nested + [vs[i].Shift()];
        } else {
          ApplyLeaf(fa);
        }
      }
      assert vs[..|files|] == vs;
    }

    method ApplyLeaf(fa: FileAnnouncement)
      modifies this`fileStat
      ensures fileStat == Absorb(old(fileStat), fa.stat)
    {
      if fa.stat.lastInfoUpdated > fileStat.lastInfoUpdated {
        var prevOwner := fileStat.owner;
        fileStat := fa.stat;
        if fa.stat.dir && prevOwner != "" && prevOwner != fa.stat.owner {
          fileStat := fileStat.(owner := MULTIPLE_OWNERS);
        }
      }
    }

    /** One run, applied to its entry. */
    method ApplyGroup(files: seq<FileAnnouncement>, ghost vs: seq<Announcement>)
      requires Valid() && Represents(files, vs) && Distinct(files) && files != []
      modifies Repr, (set f | f in files)`fullNameParts
      ensures Valid() && fresh(Repr - old(Repr)) && old(Repr) <= Repr
      ensures KeepsChildren(old(Repr))
      ensures RunEffect(old(Model), vs, Model)
      decreases Depth(vs), |vs|, 0
    {
      hide RunEffect, Updates, MayOwn, Nested, Leaves, AbsorbAll, Depth;
      var nestedFiles := ApplyLeaves(files, vs);
      Model := Tree(fileStat, Model.kids);
      NestedDepth(vs);
      if |nestedFiles| > 0 {
        Descend(nestedFiles, Nested(vs));
      }
      RunEffectHolds(old(Model), vs, Model);
    }

    /** One run: its entry is found or created, and updated. */
    method UpdateEntry(g: FileGroup, ghost vs: seq<Announcement>)
      requires Valid() && Represents(g.files, vs) && Distinct(g.files)
      requires vs != [] && vs[0].first == g.name
      modifies Repr, (set f | f in g.files)`fullNameParts
      ensures Valid() && fresh(Repr - old(Repr)) && old(Repr) <= Repr
      ensures KeepsChildren(old(Repr))
      ensures fileStat == old(fileStat)
      ensures AppliesRun(old(Model), vs, Model)
      decreases Depth(vs), |vs|, 2
    {
      hide RunEffect, Depth, Valid;
      var entry := EntryFor(g.name);
      UpdateChild(g, entry, vs);
    }

    method UpdateChild(g: FileGroup, entry: TreeNode, ghost vs: seq<Announcement>)
      requires Valid() && Represents(g.files, vs) && Distinct(g.files) && g.files != []
      requires g.name in childNodes && childNodes[g.name] == entry && g.name in Model.kids
      modifies Repr, (set f | f in g.files)`fullNameParts
      ensures Valid() && fresh(Repr - old(Repr)) && old(Repr) <= Repr
      ensures KeepsChildren(old(Repr))
      ensures fileStat == old(fileStat) && Model.stat == old(Model).stat
      ensures g.name in Model.kids && Model.kids == old(Model).kids[g.name := Model.kids[g.name]]
      ensures RunEffect(old(Model).kids[g.name], vs, Model.kids[g.name])
      decreases Depth(vs), |vs|, 1
    {
      hide RunEffect, Depth;
      entry.ApplyGroup(g.files, vs);
      Relink(g.name);
    }

    /** Applies announcements, `vs` being what they say once they are split. */
    method Update(files: seq<FileAnnouncement>, ghost vs: seq<Announcement>)
      requires Valid() && Distinct(files) && Announce(files, vs)
      modifies Repr, (set f | f in files)`fullNameParts, (set f | f in files)`stat
      ensures Valid() && fresh(Repr - old(Repr)) && old(Repr) <= Repr
      ensures KeepsChildren(old(Repr))
      ensures Updates(old(Model), vs, Model)
      ensures forall f :: f in files && !f.deletion ==> f.stat == old(f.stat)
    {
      InitAll(files, vs);
      UpdateRuns(files, vs);
    }

    /** One round of the loop over the groups: `c` announcements are done, of those that made
        `start` into the present tree. */
    method UpdateRun(groups: seq<FileGroup>, i: nat, ghost files: seq<FileAnnouncement>, ghost vs: seq<Announcement>,
                     ghost c: nat, ghost start: Tree)
        returns (ghost c': nat)
      requires Valid() && |files| == |vs| && Distinct(files) && AreRuns(groups, files, vs) && i < |groups|
      requires c == Total(groups[..i]) <= |files| && Updates(start, vs[..c], Model)
      requires forall j :: c <= j < |files| ==> files[j].fullNameParts != [] && files[j].Value() == vs[j]
      modifies Repr, (set f | f in files)`fullNameParts
      ensures Valid() && fresh(Repr - old(Repr)) && old(Repr) <= Repr
      ensures fileStat == old(fileStat)
      ensures KeepsChildren(old(Repr))
      ensures c < c' == Total(groups[..i + 1]) <= |files| && Updates(start, vs[..c'], Model)
      ensures forall j :: c' <= j < |files| ==> files[j].fullNameParts == old(files[j].fullNameParts)
      decreases Depth(vs), |vs|, 3
    {
      hide Updates, LastRun, AreRuns, AppliesRun, Total, Distinct, Valid, Linked, Separate, Depth;
      c' := NextRun(groups, files, vs, i);
      RepresentsPart(files, vs, c, c');
      ghost var m := Model;
      UpdateEntry(groups[i], vs[c..c']);
      UpdatesMore(start, vs, c, c', m, Model);
    }

    method UpdateRuns(files: seq<FileAnnouncement>, ghost vs: seq<Announcement>)
      requires Valid() && Represents(files, vs) && Distinct(files)
      modifies Repr, (set f | f in files)`fullNameParts
      ensures Valid() && fresh(Repr - old(Repr)) && old(Repr) <= Repr
      ensures fileStat == old(fileStat)
      ensures KeepsChildren(old(Repr))
      ensures Updates(old(Model), vs, Model)
      decreases Depth(vs), |vs|, 4
    {
      hide Updates, LastRun, AreRuns, AppliesRun, Total, Distinct, Valid, Linked, Separate, Depth;
      var groups := GroupAnnouncementsByFilepart(files, vs);
      NoRuns(Model, vs, groups);
      ghost var c := 0;
      for i := 0 to |groups|
        invariant Valid() && fresh(Repr - old(Repr)) && old(Repr) <= Repr
        invariant KeepsChildren(old(Repr))
        invariant fileStat == old(fileStat)
        invariant c == Total(groups[..i]) <= |files|
        invariant Updates(old(Model), vs[..c], Model)
        invariant forall j :: c <= j < |files| ==> files[j].fullNameParts == old(files[j].fullNameParts)
      {
        c := UpdateRun(groups, i, files, vs, c, old(Model));
      }
      RunsTotal(groups, files, vs);
      assert groups[..|groups|] == groups && vs[..|vs|] == vs;
    }
  }

  lemma RepresentsPart(files: seq<FileAnnouncement>, vs: seq<Announcement>, c: nat, c': nat)
    requires c < c' <= |files| == |vs| && Distinct(files)
    requires forall j :: c <= j < |files| ==> files[j].fullNameParts != [] && files[j].Value() == vs[j]
    ensures Represents(files[c..c'], vs[c..c']) && Distinct(files[c..c'])
    ensures forall j :: c' <= j < |files| ==> files[j] !in files[c..c']
  {
  }

  lemma RunEffectHolds(e: Tree, run: seq<Announcement>, e': Tree)
    requires Nested(run) == [] ==> e' == Tree(AbsorbAll(e.stat, Leaves(run)), e.kids)
    requires
      var dir := Announcements.SetAsDir(AbsorbAll(e.stat, Leaves(run)));
      Nested(run) != [] ==>
        && Updates(Tree(dir, e.kids), Nested(run), Tree(dir, e'.kids))
        && MayOwn(e'.kids, e'.stat.owner)
        && e'.stat == dir.(owner := e'.stat.owner)
    ensures RunEffect(e, run, e')
  {
  }

  lemma RunNil(vs: seq<Announcement>, s: FileStat)
    ensures Nested(vs[..0]) == [] && AbsorbAll(s, Leaves(vs[..0])) == s
  {
  }

  lemma NoRuns(t: Tree, vs: seq<Announcement>, groups: seq<FileGroup>)
    ensures Total(groups[..0]) == 0 && Updates(t, vs[..0], t)
  {
  }

  lemma RunSnoc(vs: seq<Announcement>, i: nat)
    requires i < |vs|
    ensures Nested(vs[..i + 1]) == Nested(vs[..i]) + if vs[i].IsLeaf() then [] else [vs[i].Shift()]
    ensures vs[i].IsLeaf() ==>
              forall s :: AbsorbAll(s, Leaves(vs[..i + 1])) == Absorb(AbsorbAll(s, Leaves(vs[..i])), vs[i].stat)
    ensures !vs[i].IsLeaf() ==> Leaves(vs[..i + 1]) == Leaves(vs[..i])
  {
    assert vs[..i + 1][..i] == vs[..i];
    var leaves := Leaves(vs[..i]) + [vs[i].stat];
    assert leaves[..|leaves| - 1] == Leaves(vs[..i]);
  }

  lemma NextRun(groups: seq<FileGroup>, files: seq<FileAnnouncement>, vs: seq<Announcement>, i: nat) returns (c': nat)
    requires |files| == |vs| && AreRuns(groups, files, vs) && i < |groups|
    ensures var c := Total(groups[..i]);
      && c < c' == Total(groups[..i + 1]) <= |files|
      && groups[i].files == files[c..c'] && vs[c].first == groups[i].name
      && LastRun(vs[..c']) == c
      && Depth(vs[c..c']) <= Depth(vs)
  {
    c' := Total(groups[..i + 1]);
    var c := Total(groups[..i]);
    RunsPrefix(groups, files, vs, i + 1);
    assert groups[..i + 1][..i] == groups[..i];
    assert files[..c'][c..] == files[c..c'];
    assert vs[..c'][c] == vs[c];
    var n := LastRun(vs[..c']);
    assert vs[..c'][c..] == vs[c..c'];
    DepthOfPart(vs, c');
    DepthOfPart(vs[..c'], c);
  }

  lemma UpdatesMore(t: Tree, vs: seq<Announcement>, c: nat, c': nat, m: Tree, t': Tree)
    requires c < c' <= |vs| && LastRun(vs[..c']) == c
    requires Updates(t, vs[..c], m) && AppliesRun(m, vs[c..c'], t')
    ensures Updates(t, vs[..c'], t')
  {
    assert vs[..c'][..c] == vs[..c] && vs[..c'][c..] == vs[c..c'];
  }

  lemma NoOwners(keys: set<string>)
    ensures Enumerates([], keys - keys) && FoldOwners([]) == ""
  {
  }

  lemma OwnersAre(order: seq<string>, owners: seq<string>, kids: map<string, Tree>)
    requires Enumerates(order, kids.Keys) && |owners| == |order|
    requires forall i :: 0 <= i < |order| ==> order[i] in kids && owners[i] == kids[order[i]].stat.owner
    ensures MayOwn(kids, FoldOwners(owners))
  {
    assert owners == OwnersOf(kids, order);
  }

  lemma NextOwner(order: seq<string>, keys: set<string>, todo: set<string>, k: string,
                  owners: seq<string>, next: string)
    requires Enumerates(order, keys - todo) && k in todo && todo <= keys
    ensures Enumerates(order + [k], keys - (todo - {k}))
    ensures
      var owner := FoldOwners(owners);
      FoldOwners(owners + [next]) == if owner == "" then next else if owner != next then MULTIPLE_OWNERS else owner
  {
    assert (owners + [next])[..|owners|] == owners;
    assert forall i :: 0 <= i < |order| ==> order[i] in order;
  }

  /** Whatever path led to a node before an update leads to the same node afterwards. */
  twostate lemma SeekStable(n: TreeNode, path: seq<string>)
    requires old(n.Valid()) && n.Valid() && KeepsChildren(old(n.Repr))
    ensures old(n.NodeAt(path)) != null ==> n.NodeAt(path) == old(n.NodeAt(path))
  {
    var c, rest := n, path;
    while rest != [] && rest[0] in old(c.childNodes)
      invariant old(allocated(c)) && old(c.Valid()) && c.Valid() && old(c.Repr) <= old(n.Repr)
      invariant old(n.NodeAt(path)) == old(c.NodeAt(rest)) && n.NodeAt(path) == c.NodeAt(rest)
      decreases |rest|
    {
      var next := old(c.childNodes[rest[0]]);
      assert old(c.Linked(rest[0]));
      assert c.Linked(rest[0]);
      c, rest := next, rest[1..];
    }
  }
}
