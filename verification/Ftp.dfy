/**
  The working directory of an FTP session (CWD and CDUP, section 4.1.1 of RFC 959) over a
  tree that updates keep changing.
*/
module Ftp {
  import opened Announcements
  import opened Convergence
  import opened FileTree
  import opened Meaning
  import opened Ownership
  import opened Paths
  import opened TreeNodes
  import opened Wrappers

  /** strings.Replace(s, "//", "/", -1) */
  function ReplaceDoubleSlashes(s: string): string {
    if s == "" then ""
    else if |s| > 1 && s[0] == '/' && s[1] == '/' then "/" + ReplaceDoubleSlashes(s[2..])
    else [s[0]] + ReplaceDoubleSlashes(s[1..])
  }

  function BuildPath(namePrefix: string, filename: string): string {
    ReplaceDoubleSlashes(
      if filename != "" && filename[0] == '/' then Clean(filename)
      else if filename != "" && filename != "-a" then Clean(namePrefix + "/" + filename)
      else Clean(namePrefix))
  }

  /** What the tree has at a path, as the FTP driver looks it up. */
  function Resolve(t: Tree, path: string): Option<Tree> {
    var trimmed := TrimPrefix(TrimSuffix(path, "/"), "/");
    if trimmed == "" then Some(t) else At(t, Split(TrimSuffix(TrimPrefix(trimmed, "/"), "/")))
  }

  predicate CanChangeDir(t: Tree, path: string) {
    var e := Resolve(t, path);
    e.Some? && e.value.stat.dir
  }

  function Cwd(t: Tree, namePrefix: string, param: string): string {
    var path := BuildPath(namePrefix, param);
    if CanChangeDir(t, path) then path else namePrefix
  }

  function Cdup(t: Tree, namePrefix: string): string {
    Cwd(t, namePrefix, "..")
  }

  // ---- paths ----

  ghost predicate NoDoubleSlash(s: string) {
    forall i, j :: 0 <= i < j < |s| && j == i + 1 ==> s[i] != '/' || s[j] != '/'
  }

  lemma {:induction false} NothingToReplace(s: string)
    requires NoDoubleSlash(s)
    ensures ReplaceDoubleSlashes(s) == s
  {
    if s != "" {
      NothingToReplace(s[1..]);
      assert [s[0]] + s[1..] == s;
    }
  }

  lemma {:induction false} SpelledNoDoubleSlash(parts: seq<string>)
    requires AllProper(parts)
    ensures NoDoubleSlash(Concat(parts)) && NoDoubleSlash("/" + Concat(parts))
  {
    if parts != [] {
      assert parts[0] in parts;
      assert forall i :: 0 <= i < |parts[0]| ==> parts[0][i] in parts[0];
      if |parts| > 1 {
        SpelledNoDoubleSlash(parts[1..]);
        ConcatStart(parts[1..]);
      }
    }
  }

  /** Whatever the client asks for, the path built is "/" and ordinary components: those of
      an absolute name, cleaned; of a relative one, after the working directory's, cleaned;
      and just the working directory's without a name or with "-a". */
  lemma BuiltPath(parts: seq<string>, filename: string) returns (built: seq<string>)
    requires AllProper(parts)
    ensures AllProper(built) && BuildPath(Spell(true, parts), filename) == Spell(true, built)
    ensures filename == "" || filename == "-a" ==> built == parts
    ensures Rooted(filename) ==> built == Walked([], Split(filename))
    ensures filename != "" && filename != "-a" && !Rooted(filename) ==> built == Walked(parts, Split(filename))
    ensures filename == "/" ==> built == []
    ensures filename == ".." ==> built == if parts == [] then [] else parts[..|parts| - 1]
    ensures forall q :: AllProper(q) && q != [] && filename == "/" + Concat(q) ==> built == q
    ensures forall q :: AllProper(q) && q != [] && filename == Concat(q) && filename != "-a" ==> built == parts + q
  {
    var prefix := Spell(true, parts);
    var path := if Rooted(filename) then filename
                else if filename != "" && filename != "-a" then prefix + "/" + filename
                else prefix;
    SplitParts(path);
    built := CleanParts(true, Split(path));
    RootedKeepsPlace(Split(path));
    ProperIsClean(true, parts);
    SpellLeads(true, parts);
    CleanBuilt(prefix, filename, built);
    if path == prefix + "/" + filename {
      BelowPrefix(prefix, parts, filename);
    }
    hide BuildPath, CleanParts, LeadsTo, IsClean, Spell, Proper;
    SimpleNames(parts, filename);
  }

  /** Nothing is left to replace in a cleaned path. */
  lemma CleanBuilt(prefix: string, filename: string, built: seq<string>)
    requires Rooted(prefix) && AllProper(built)
    requires
      var path := if Rooted(filename) then filename
                  else if filename != "" && filename != "-a" then prefix + "/" + filename
                  else prefix;
      built == CleanParts(true, Split(path))
    ensures BuildPath(prefix, filename) == Spell(true, built)
  {
    SpelledNoDoubleSlash(built);
    NothingToReplace(Spell(true, built));
  }

  lemma BelowPrefix(prefix: string, parts: seq<string>, filename: string)
    requires LeadsTo(prefix, true, parts) && AllProper(parts)
    ensures CleanParts(true, Split(prefix + "/" + filename)) == Walked(parts, Split(filename))
  {
    SplitAppend(prefix, filename);
    SplitParts(prefix);
    SplitParts(filename);
    RootedKeepsPlace(Split(prefix));
    RootedKeepsPlace(Split(prefix) + Split(filename));
    WalkedOn([], Split(prefix), Split(filename));
  }

  /** Where names of ordinary components, "/" and ".." lead. */
  lemma SimpleNames(parts: seq<string>, filename: string)
    ensures filename == "/" ==> Walked([], Split(filename)) == []
    ensures filename == ".." ==> Walked(parts, Split(filename)) == if parts == [] then [] else parts[..|parts| - 1]
    ensures forall q :: AllProper(q) && q != [] && filename == "/" + Concat(q) ==> Walked([], Split(filename)) == q
    ensures forall q :: AllProper(q) && q != [] && filename == Concat(q) ==> LeadsBelow(parts, filename, q)
  {
    assert Split("/") == ["", ""] && ["", ""][..1] == [""] && [""][..0] == [];
    SplitNoSlash("..");
    assert [".."][..0] == [];
    hide Walked, Split, Concat, LeadsBelow;
    forall q | AllProper(q) && q != [] && filename == "/" + Concat(q) ensures Walked([], Split(filename)) == q {
      FromRoot(q);
    }
    forall q | AllProper(q) && q != [] && filename == Concat(q) ensures LeadsBelow(parts, filename, q) {
      FromDirectory(parts, q);
    }
  }

  predicate LeadsBelow(parts: seq<string>, filename: string, q: seq<string>) {
    filename != "" && !Rooted(filename) && Walked(parts, Split(filename)) == parts + q
  }

  lemma FromRoot(q: seq<string>)
    requires AllProper(q) && q != []
    ensures Walked([], Split("/" + Concat(q))) == q
  {
    SplitConcat(q);
    SplitAppend("", Concat(q));
    assert "" + "/" + Concat(q) == "/" + Concat(q);
    WalkedProper([], [""], q);
    assert [""][..0] == [] && [] + q == q;
  }

  lemma FromDirectory(parts: seq<string>, q: seq<string>)
    requires AllProper(q) && q != []
    ensures LeadsBelow(parts, Concat(q), q)
  {
    ConcatStart(q);
    SplitConcat(q);
    WalkedProper(parts, [], q);
    assert [] + q == q;
  }

  lemma ResolveSpelled(t: Tree, parts: seq<string>)
    requires AllProper(parts)
    ensures Resolve(t, Spell(true, parts)) == At(t, parts)
  {
    if parts == [] {
      assert TrimSuffix("/", "/") == "";
    } else {
      var path := Spell(true, parts);
      ConcatStart(parts);
      ConcatEnd(parts);
      SplitConcat(parts);
      assert path == "/" + Concat(parts) && path[|path| - 1] == Concat(parts)[|Concat(parts)| - 1];
      assert path[1..] == Concat(parts);
    }
  }

  // ---- one session ----

  ghost predicate IsDir(t: Tree, parts: seq<string>) {
    Lookup(t, parts).Some? && Lookup(t, parts).value.dir
  }

  /** The working directory is spelled with ordinary components, and is a directory. */
  ghost predicate InDir(t: Tree, namePrefix: string, parts: seq<string>) {
    AllProper(parts) && namePrefix == Spell(true, parts) && IsDir(t, parts)
  }

  /** CWD, for any parameter: the working directory becomes the one that an absolute
      parameter names from the root, and a relative one from the working directory, if it is
      an existing directory; else it stays as it is. */
  lemma CwdLeads(t: Tree, namePrefix: string, parts: seq<string>, param: string) returns (parts': seq<string>)
    requires InDir(t, namePrefix, parts)
    ensures InDir(t, Cwd(t, namePrefix, param), parts')
    ensures param == "" || param == "-a" ==> parts' == parts
    ensures Rooted(param) ==>
              var q := Walked([], Split(param));
              parts' == if IsDir(t, q) then q else parts
    ensures param != "" && param != "-a" && !Rooted(param) ==>
              var q := Walked(parts, Split(param));
              parts' == if IsDir(t, q) then q else parts
    ensures param == "/" && IsDir(t, []) ==> parts' == []
    ensures param == ".." && parts != [] ==>
              parts' == if IsDir(t, parts[..|parts| - 1]) then parts[..|parts| - 1] else parts
    ensures param == ".." && parts == [] ==> parts' == parts
    ensures forall q :: AllProper(q) && q != [] && param == "/" + Concat(q) ==>
              parts' == if IsDir(t, q) then q else parts
    ensures forall q :: AllProper(q) && q != [] && param == Concat(q) && param != "-a" ==>
              parts' == if IsDir(t, parts + q) then parts + q else parts
  {
    hide BuildPath, Walked, Split, Spell, Concat, IsDir, Lookup;
    var built := BuiltPath(parts, param);
    CwdToBuilt(t, namePrefix, parts, param, built);
    parts' := if IsDir(t, built) then built else parts;
  }

  lemma CwdToBuilt(t: Tree, namePrefix: string, parts: seq<string>, param: string, built: seq<string>)
    requires InDir(t, namePrefix, parts) && AllProper(built) && BuildPath(namePrefix, param) == Spell(true, built)
    ensures Cwd(t, namePrefix, param) == Spell(true, if IsDir(t, built) then built else parts)
  {
    ResolveSpelled(t, built);
    AtLookup(t, built);
  }

  /** With one ordinary component. */
  lemma CwdBelow(t: Tree, namePrefix: string, parts: seq<string>, x: string) returns (parts': seq<string>)
    requires InDir(t, namePrefix, parts) && Proper(x)
    ensures InDir(t, Cwd(t, namePrefix, x), parts')
    ensures parts' == if x != "-a" && IsDir(t, parts + [x]) then parts + [x] else parts
  {
    hide Cwd, IsDir;
    parts' := CwdLeads(t, namePrefix, parts, x);
    assert AllProper([x]) && Concat([x]) == x;
  }

  /** CWD with names of ordinary components, absolute ones from whatever working directory. */
  lemma CwdNamed(t: Tree, namePrefix: string, param: string)
    ensures forall q :: AllProper(q) && q != [] && param == "/" + Concat(q) ==>
              Cwd(t, namePrefix, param) == if IsDir(t, q) then param else namePrefix
    ensures forall parts, q ::
              (AllProper(parts) && AllProper(q) && q != [] && param == Concat(q) && param != "-a"
                && namePrefix == "/" + Concat(parts))
              ==> Cwd(t, namePrefix, param) == if IsDir(t, parts + q) then "/" + Concat(parts + q) else namePrefix
  {
    hide Walked, Split, Concat, IsDir, Lookup, Clean, ReplaceDoubleSlashes, Resolve, Proper;
    forall q | AllProper(q) && q != [] && param == "/" + Concat(q)
      ensures Cwd(t, namePrefix, param) == if IsDir(t, q) then param else namePrefix
    {
      var built := BuiltPath([], param);
      assert BuildPath(namePrefix, param) == BuildPath(Spell(true, []), param);
      ResolveSpelled(t, q);
      AtLookup(t, q);
      DirThere(t, param, q);
    }
    hide BuildPath, Cwd;
    forall parts, q | AllProper(parts) && AllProper(q) && q != [] && param == Concat(q) && param != "-a"
                      && namePrefix == "/" + Concat(parts)
      ensures Cwd(t, namePrefix, param) == if IsDir(t, parts + q) then "/" + Concat(parts + q) else namePrefix
    {
      var built := BuiltPath(parts, param);
      ResolveSpelled(t, parts + q);
      AtLookup(t, parts + q);
      DirThere(t, "/" + Concat(parts + q), parts + q);
      BuiltCwd(t, namePrefix, param, "/" + Concat(parts + q));
    }
  }

  lemma DirThere(t: Tree, path: string, q: seq<string>)
    requires Resolve(t, path) == At(t, q)
    ensures CanChangeDir(t, path) <==> IsDir(t, q)
  {
    AtLookup(t, q);
  }

  lemma BuiltCwd(t: Tree, namePrefix: string, param: string, path: string)
    requires BuildPath(namePrefix, param) == path
    ensures Cwd(t, namePrefix, param) == if CanChangeDir(t, path) then path else namePrefix
  {
  }

  /** CWD into an ordinary subdirectory, then CDUP, restores the working directory -- exactly
      unless the name is "-a", which CWD takes for an option, below the root. The tree is
      any that consistent updates make of a new root. */
  lemma CwdThenCdup(h: seq<seq<Announcement>>, t: Tree, namePrefix: string, parts: seq<string>, x: string)
    requires History(NewRoot(), h, t) && TypeConsistent(Flatten(h))
    requires InDir(t, namePrefix, parts) && Proper(x) && IsDir(t, parts + [x])
    ensures Cdup(t, Cwd(t, namePrefix, x)) == namePrefix <==> x != "-a" || parts == []
  {
    var below := CwdBelow(t, namePrefix, parts, x);
    var back := CwdLeads(t, Cwd(t, namePrefix, x), below, "..");
    if x != "-a" {
      assert (parts + [x])[..|parts|] == parts;
    } else if parts != [] {
      ParentDir(h, t, parts);
      SpellDiffers(parts[..|parts| - 1], parts);
    }
  }

  lemma ParentDir(h: seq<seq<Announcement>>, t: Tree, parts: seq<string>)
    requires History(NewRoot(), h, t) && TypeConsistent(Flatten(h)) && parts != [] && IsDir(t, parts)
    ensures IsDir(t, parts[..|parts| - 1])
  {
    var p, last := parts[..|parts| - 1], parts[|parts| - 1..];
    assert p + last == parts;
    if p == [] {
      HistoryMeans(NewRoot(), h, t, [""]);
    } else {
      ParentIsDirectory(NewRoot(), h, t, p, last);
    }
  }

  lemma SpellDiffers(a: seq<string>, b: seq<string>)
    requires AllProper(a) && AllProper(b) && a != b
    ensures Spell(true, a) != Spell(true, b)
  {
    ProperIsClean(true, a);
    SpellLeads(true, a);
    ProperIsClean(true, b);
    SpellLeads(true, b);
  }

  // ---- a session while the tree is updated ----

  /** Each path is always announced as a directory or always as a file, and as a directory of
      size 0 if other announcements lie below. */
  ghost predicate KindConsistent(anns: seq<Announcement>) {
    && TypeConsistent(anns)
    && forall a, b :: a in anns && b in anns && a.Path() == b.Path() ==> a.stat.dir == b.stat.dir
  }

  lemma {:induction false} FoldKind(s: FileStat, news: seq<FileStat>)
    ensures AbsorbAll(s, news) == s || exists a :: a in news && a.dir == AbsorbAll(s, news).dir
    ensures s.dir && (forall a :: a in news ==> a.dir) ==> AbsorbAll(s, news).dir
  {
    if news != [] {
      FoldKind(s, news[..|news| - 1]);
      assert news[|news| - 1] in news;
    }
  }

  /** A directory grown from a new root was announced as one, or passed through. */
  lemma DirReason(h: seq<seq<Announcement>>, t: Tree, p: seq<string>)
    requires History(NewRoot(), h, t) && p != [] && IsDir(t, p)
    ensures Through(Flatten(h), p) || exists a :: a in Flatten(h) && a.Path() == p && a.stat.dir
  {
    HistoryMeans(NewRoot(), h, t, p);
    FoldKind(BlankStat(p[|p| - 1]), Own(Flatten(h), p));
    OwnMembers(Flatten(h), p);
  }

  /** Once a directory, always a directory, as long as announcements are consistent. */
  lemma StaysDirectory(h: seq<seq<Announcement>>, t: Tree, batch: seq<Announcement>, t': Tree, p: seq<string>)
    requires History(NewRoot(), h, t) && Updates(t, batch, t') && KindConsistent(Flatten(h) + batch)
    requires IsDir(t, p)
    ensures IsDir(t', p)
  {
    if p == [] {
      UpdateMeans(t, batch, t', [""]);
    } else {
      var all := Flatten(h) + batch;
      DirReason(h, t, p);
      UpdateMeans(t, batch, t', p);
      OwnMembers(batch, p);
      forall s | s in Own(batch, p) ensures s.dir && (Through(batch, p) ==> s.size == 0) {
        var a :| a in batch && a.Path() == p && a.stat == s;
        assert a in all;
        TouchedConcat(Flatten(h), batch, p);
      }
      FoldKind(Lookup(t, p).value, Own(batch, p));
    }
  }

  datatype Op = ChangeDir(param: string) | ChangeToParent | Update(batch: seq<Announcement>)

  function Batches(ops: seq<Op>): seq<seq<Announcement>> {
    if ops == [] then []
    else Batches(ops[..|ops| - 1]) + (if ops[|ops| - 1].Update? then [ops[|ops| - 1].batch] else [])
  }

  /** Commands and updates in any order, from "/" and a new root. */
  ghost predicate Session(ops: seq<Op>, prefixes: seq<string>, trees: seq<Tree>) {
    && |prefixes| == |trees| == |ops| + 1
    && prefixes[0] == "/" && trees[0] == NewRoot()
    && forall k :: 0 <= k < |ops| ==> SessionStep(ops[k], prefixes[k], trees[k], prefixes[k + 1], trees[k + 1])
  }

  ghost predicate SessionStep(op: Op, prefix: string, t: Tree, prefix': string, t': Tree) {
    match op
    case ChangeDir(param) => t' == t && prefix' == Cwd(t, prefix, param)
    case ChangeToParent => t' == t && prefix' == Cdup(t, prefix)
    case Update(batch) => prefix' == prefix && Updates(t, batch, t')
  }

  lemma {:induction false} SessionHistory(ops: seq<Op>, prefixes: seq<string>, trees: seq<Tree>, k: nat)
    requires Session(ops, prefixes, trees) && k <= |ops|
    ensures History(NewRoot(), Batches(ops[..k]), trees[k])
  {
    if k > 0 {
      SessionHistory(ops, prefixes, trees, k - 1);
      assert ops[..k][..k - 1] == ops[..k - 1];
      assert SessionStep(ops[k - 1], prefixes[k - 1], trees[k - 1], prefixes[k], trees[k]);
      var h := Batches(ops[..k - 1]);
      if ops[k - 1].Update? {
        var batches := h + [ops[k - 1].batch];
        assert batches[..|batches| - 1] == h && Batches(ops[..k]) == batches;
        assert Updates(trees[k - 1], batches[|batches| - 1], trees[k]);
      } else {
        assert Batches(ops[..k]) == h + [] == h;
      }
    } else {
      assert ops[..0] == [];
    }
  }

  /** Throughout a session, with consistent updates, the working directory stays a rooted,
      clean path and a directory of the tree. */
  lemma {:induction false} WorkingDirectory(ops: seq<Op>, prefixes: seq<string>, trees: seq<Tree>, k: nat)
      returns (parts: seq<string>)
    requires Session(ops, prefixes, trees) && k <= |ops| && KindConsistent(Flatten(Batches(ops[..k])))
    ensures InDir(trees[k], prefixes[k], parts)
  {
    if k == 0 {
      parts := [];
    } else {
      var front, op := ops[..k - 1], ops[k - 1];
      assert ops[..k][..k - 1] == front && ops[..k][k - 1] == op;
      var h := Batches(front);
      if op.Update? {
        assert (h + [op.batch])[..|h|] == h;
        assert Flatten(h + [op.batch]) == Flatten(h) + op.batch;
      } else {
        assert Batches(ops[..k]) == h + [] == h;
      }
      parts := WorkingDirectory(ops, prefixes, trees, k - 1);
      assert SessionStep(op, prefixes[k - 1], trees[k - 1], prefixes[k], trees[k]);
      match op
      case ChangeDir(param) => parts := CwdLeads(trees[k], prefixes[k - 1], parts, param);
      case ChangeToParent => parts := CwdLeads(trees[k], prefixes[k - 1], parts, "..");
      case Update(batch) =>
        SessionHistory(ops, prefixes, trees, k - 1);
        StaysDirectory(h, trees[k - 1], batch, trees[k], parts);
    }
  }

  // ---- the connection ----

  class Conn {
    var namePrefix: string
    const dfsRoot: TreeNode

    constructor (dfsRoot: TreeNode)
      ensures namePrefix == "/" && this.dfsRoot == dfsRoot
    {
      namePrefix, this.dfsRoot := "/", dfsRoot;
    }

    /** The driver's ChangeDir: None is "not found", Some(false) "not a directory". */
    method DriverChangeDir(path: string) returns (isDir: Option<bool>)
      requires dfsRoot.Valid()
      ensures isDir == match Resolve(dfsRoot.Model, path) case None => None case Some(e) => Some(e.stat.dir)
    {
      var normalized := TrimPrefix(TrimSuffix(path, "/"), "/");
      var entry := dfsRoot.Seek(normalized);
      if normalized != "" {
        dfsRoot.SeekFinds(Split(TrimSuffix(TrimPrefix(normalized, "/"), "/")));
      }
      if entry == null {
        return None;
      }
      return Some(entry.fileStat.dir);
    }

    method ExecuteCwd(param: string)
      requires dfsRoot.Valid()
      modifies this`namePrefix
      ensures namePrefix == Cwd(dfsRoot.Model, old(namePrefix), param)
      ensures forall q :: AllProper(q) && q != [] && param == "/" + Concat(q) ==>
                namePrefix == if IsDir(dfsRoot.Model, q) then param else old(namePrefix)
      ensures forall parts, q ::
                (AllProper(parts) && AllProper(q) && q != [] && param == Concat(q) && param != "-a"
                  && old(namePrefix) == "/" + Concat(parts))
                ==> namePrefix == if IsDir(dfsRoot.Model, parts + q) then "/" + Concat(parts + q) else old(namePrefix)
    {
      var path := BuildPath(namePrefix, param);
      CwdNamed(dfsRoot.Model, namePrefix, param);
      var found := DriverChangeDir(path);
      if found == Some(true) {
        namePrefix := path;
      }
    }

    method ExecuteCdup()
      requires dfsRoot.Valid()
      modifies this`namePrefix
      ensures namePrefix == Cdup(dfsRoot.Model, old(namePrefix))
    {
      ExecuteCwd("..");
    }
  }
}
