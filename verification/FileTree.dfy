/**
  The distributed file system tree as a value, and what applying a batch of
  announcements may turn it into.

  `Updates` is a relation, not a function: the owner of a directory is recalculated by
  looping over a map whose iteration order is not fixed, and with ownerless children
  that order can show in the result (see `Owners`).
*/
module FileTree {
  import opened Announcements
  import opened Wrappers

  datatype Tree = Tree(stat: FileStat, kids: map<string, Tree>)

  /** The subtree at a path. */
  function At(t: Tree, p: seq<string>): Option<Tree> {
    if p == [] then Some(t)
    else if p[0] in t.kids then At(t.kids[p[0]], p[1..])
    else None
  }

  /** The stat at a path. */
  function Lookup(t: Tree, p: seq<string>): Option<FileStat> {
    if p == [] then Some(t.stat)
    else if p[0] in t.kids then Lookup(t.kids[p[0]], p[1..])
    else None
  }

  lemma {:induction false} AtLookup(t: Tree, p: seq<string>)
    ensures Lookup(t, p) == match At(t, p) case None => None case Some(e) => Some(e.stat)
    decreases |p|
  {
    if p != [] && p[0] in t.kids {
      AtLookup(t.kids[p[0]], p[1..]);
    }
  }

  function Blank(name: string): Tree {
    Tree(BlankStat(name), map[])
  }

  /** The entry a run is applied to: the existing one, or one created on the fly. */
  function Entry(t: Tree, name: string): Tree {
    if name in t.kids then t.kids[name] else Blank(name)
  }

  // ---- owner recalculation ----

  /** The accumulator loop over the children's owners, in the order of `owners`. */
  function FoldOwners(owners: seq<string>): string {
    if owners == [] then ""
    else
      var owner, next := FoldOwners(owners[..|owners| - 1]), owners[|owners| - 1];
      if owner == "" then next else if owner != next then MULTIPLE_OWNERS else owner
  }

  /** `order` enumerates `keys`, each once. */
  ghost predicate Enumerates(order: seq<string>, keys: set<string>) {
    && (forall k :: k in order <==> k in keys)
    && (forall i, j :: 0 <= i < j < |order| ==> order[i] != order[j])
  }

  function OwnersOf(kids: map<string, Tree>, order: seq<string>): seq<string>
    requires forall k :: k in order ==> k in kids
  {
    seq(|order|, i requires 0 <= i < |order| => assert order[i] in order; kids[order[i]].stat.owner)
  }

  /** `owner` is what the recalculation yields in some iteration order. */
  ghost predicate MayOwn(kids: map<string, Tree>, owner: string) {
    exists order :: Enumerates(order, kids.Keys) && FoldOwners(OwnersOf(kids, order)) == owner
  }

  // ---- update ----

  /** A run's effect on its entry `e`. Leaf announcements come first; what is left makes
      the entry a directory, is applied below it, and has its owner recalculated. */
  ghost predicate RunEffect(e: Tree, run: seq<Announcement>, e': Tree)
    decreases Depth(run), |run|, 0
  {
    var stat := AbsorbAll(e.stat, Leaves(run));
    var nested := Nested(run);
    NestedDepth(run);
    if nested == [] then
      e' == Tree(stat, e.kids)
    else
      var dir := SetAsDir(stat);
      && Updates(Tree(dir, e.kids), nested, Tree(dir, e'.kids))
      && MayOwn(e'.kids, e'.stat.owner)
      && e'.stat == dir.(owner := e'.stat.owner)
  }

  ghost predicate AppliesRun(t: Tree, run: seq<Announcement>, t': Tree)
    requires run != []
    decreases Depth(run), |run|, 1
  {
    var name := run[0].first;
    && name in t'.kids
    && t' == Tree(t.stat, t.kids[name := t'.kids[name]])
    && RunEffect(Entry(t, name), run, t'.kids[name])
  }

  /** Applying `anns` to `t`, run after run, may result in `t'`. */
  ghost predicate Updates(t: Tree, anns: seq<Announcement>, t': Tree)
    decreases Depth(anns), |anns|, 2
  {
    if anns == [] then
      t' == t
    else
      var n := LastRun(anns);
      DepthOfPart(anns, n);
      exists m :: Updates(t, anns[..n], m) && AppliesRun(m, anns[n..], t')
  }

  /** Applying the batches one after the other may result in `t'`. */
  ghost predicate History(t: Tree, batches: seq<seq<Announcement>>, t': Tree) {
    if batches == [] then
      t' == t
    else
      exists m {:trigger Updates(m, batches[|batches| - 1], t')} ::
        History(t, batches[..|batches| - 1], m) && Updates(m, batches[|batches| - 1], t')
  }

  function Flatten(batches: seq<seq<Announcement>>): seq<Announcement> {
    if batches == [] then [] else Flatten(batches[..|batches| - 1]) + batches[|batches| - 1]
  }

  /** Splits an update at its last run. */
  lemma LastRunOf(t: Tree, anns: seq<Announcement>, t': Tree)
      returns (front: seq<Announcement>, m: Tree, run: seq<Announcement>)
    requires anns != [] && Updates(t, anns, t')
    ensures anns == front + run && front == anns[..LastRun(anns)] && run == anns[LastRun(anns)..]
    ensures SameFirst(run)
    ensures |front| < |anns| && Depth(front) <= Depth(anns) && Depth(run) <= Depth(anns) && |run| <= |anns|
    ensures Updates(t, front, m) && AppliesRun(m, run, t')
  {
    var n := LastRun(anns);
    DepthOfPart(anns, n);
    front, run := anns[..n], anns[n..];
    m :| Updates(t, front, m) && AppliesRun(m, run, t');
  }
}
