/**
  Scanning local files into the tree, and opening them by their names in it.
*/
module LocalFiles {
  import opened Announcements
  import opened FileTree
  import opened Ownership
  import opened Paths
  import opened Scans
  import opened TreeNodes
  import opened Wrappers

  // ---- names ----

  /** The path the walk reaches a file by: entries are joined to their directory's path. */
  function WalkedPath(localRoot: string, r: seq<string>): string {
    if r == [] then localRoot else Join(localRoot, Concat(r))
  }

  /** The DFS name the scanner makes of a local path. */
  function DfsName(localRoot: string, mountPoint: string, path: string): string {
    Join(mountPoint, TrimPrefix(path, localRoot))
  }

  /** The local name a DFS name is opened by; None is "local file not found". */
  function OpenName(localRoot: string, mountPoint: string, dfsPath: string): Option<string> {
    if mountPoint != "" && !HasPrefix(dfsPath, mountPoint) then None
    else
      Some(Join(localRoot, if mountPoint != "" then TrimPrefix(dfsPath, mountPoint) else dfsPath))
  }

  /** Walked paths start with the local root as it is spelled. */
  predicate Stripped(localRoot: string) {
    localRoot == "/" || (Parts(localRoot) != [] && localRoot == Clean(localRoot) + "/")
  }

  /** Where in the DFS the scan puts the files below the local root: at the mount point, if
      walked paths start with the root's spelling, else below it by the root's whole path. */
  function Where(localRoot: string, mountPoint: string): seq<string> {
    if Stripped(localRoot) then Parts(mountPoint)
    else Parts(if mountPoint == "" then Clean(localRoot) else mountPoint + "/" + Clean(localRoot))
  }

  function NameRooted(localRoot: string, mountPoint: string): bool {
    if mountPoint != "" then Rooted(mountPoint) else !Stripped(localRoot) && Rooted(localRoot)
  }

  lemma WalkedIs(localRoot: string, r: seq<string>)
    requires localRoot != "" && AllProper(r) && r != []
    ensures WalkedPath(localRoot, r) == Spell(Rooted(localRoot), Parts(localRoot) + r)
    ensures LeadsTo(WalkedPath(localRoot, r), Rooted(localRoot), Parts(localRoot) + r)
  {
    PartsClean(localRoot);
    JoinBelow(localRoot, Rooted(localRoot), Parts(localRoot), Concat(r), r);
    BelowIsClean(Rooted(localRoot), Parts(localRoot), r);
    SpellLeads(Rooted(localRoot), Parts(localRoot) + r);
  }

  /** The walk names a child by joining its name to the directory's path. */
  lemma WalkStep(localRoot: string, r: seq<string>, name: string)
    requires localRoot != "" && AllProper(r) && Proper(name)
    ensures Join(WalkedPath(localRoot, r), name) == WalkedPath(localRoot, r + [name])
  {
    assert Concat([name]) == name;
    if r == [] {
      assert r + [name] == [name];
    } else {
      WalkedIs(localRoot, r);
      WalkedIs(localRoot, r + [name]);
      JoinBelow(WalkedPath(localRoot, r), Rooted(localRoot), Parts(localRoot) + r, name, [name]);
      assert Parts(localRoot) + r + [name] == Parts(localRoot) + (r + [name]);
    }
  }

  lemma SpellBelow(rooted: bool, base: seq<string>, r: seq<string>)
    requires base != [] && r != []
    ensures Spell(rooted, base + r) == Spell(rooted, base) + "/" + Concat(r)
  {
    ConcatAppend(base, r);
  }

  /** A prefix of a spelled path that ends with a slash spells a prefix of its components. */
  lemma {:induction false} SlashPrefix(parts: seq<string>, s: string) returns (n: nat)
    requires Components(parts) && parts != [] && HasSuffix(s, "/") && HasPrefix(Concat(parts), s)
    ensures 0 < n < |parts| && s == Concat(parts[..n]) + "/"
    decreases |parts|
  {
    var x, rest := parts[0], parts[1..];
    assert x in parts && forall p :: p in rest ==> p in parts;
    LastIn(s, x);
    if |s| == |x| + 1 {
      n := 1;
      assert parts[..1] == [x];
      assert s == (x + "/" + Concat(rest))[..|x| + 1] == x + "/";
    } else {
      var s' := s[|x| + 1..];
      assert s == x + "/" + s';
      ConcatStart(rest);
      var m := SlashPrefix(rest, s');
      n := m + 1;
      assert parts[..n][1..] == rest[..m] && parts[..n][0] == x;
    }
  }

  /** A name has no slash in it. */
  lemma LastIn(s: string, x: string)
    requires HasSuffix(s, "/") && '/' !in x
    ensures !HasPrefix(x, s)
    ensures forall t :: HasPrefix(x + t, s) ==> |s| > |x|
  {
    var n := |s| - 1;
    assert s[n..][0] == s[n];
    forall t ensures HasPrefix(x + t, s) ==> |s| > |x| {
      if n < |x| {
        assert x[n] in x && (x + t)[n] == x[n];
      }
    }
    assert x + "" == x;
  }

  /** Only then do walked paths start with the local root. */
  lemma StrippedIff(localRoot: string, r: seq<string>)
    requires HasSuffix(localRoot, "/") && AllProper(r) && r != []
    ensures HasPrefix(WalkedPath(localRoot, r), localRoot) <==> Stripped(localRoot)
    ensures Stripped(localRoot) ==> WalkedPath(localRoot, r) == localRoot + Concat(r)
  {
    var rooted, base := Rooted(localRoot), Parts(localRoot);
    WalkedIs(localRoot, r);
    CleanSpells(localRoot);
    if Stripped(localRoot) {
      if localRoot == "/" {
        RootLeads();
        assert base + r == r;
      } else {
        SpellBelow(rooted, base, r);
      }
      PrefixOfConcat(localRoot, Concat(r));
    } else if HasPrefix(WalkedPath(localRoot, r), localRoot) {
      PrefixIsStripped(localRoot, r);
    }
  }

  lemma PrefixIsStripped(localRoot: string, r: seq<string>)
    requires HasSuffix(localRoot, "/") && AllProper(r) && r != []
    requires HasPrefix(WalkedPath(localRoot, r), localRoot)
    ensures Stripped(localRoot)
  {
    assert localRoot != "";
    hide WalkedPath, HasSuffix, Concat, LeadsTo, Clean, IsClean;
    var rooted, base := Rooted(localRoot), Parts(localRoot);
    var all := base + r;
    WalkedIs(localRoot, r);
    PartsClean(localRoot);
    BelowIsClean(rooted, base, r);
    if localRoot != "/" {
      var rest := WithoutSlash(localRoot, Concat(all));
      hide Components, Parts, Rooted, Spell;
      var n := SlashPrefix(all, rest);
      assert localRoot == Spell(rooted, all[..n]) + "/";
      AnyPrefixClean(rooted, all, n);
      SpellLeads(rooted, all[..n]);
      SlashLeads(Spell(rooted, all[..n]), rooted, all[..n]);
      CleanLeads(localRoot, rooted, all[..n]);
    }
  }

  lemma WithoutSlash(path: string, c: string) returns (rest: string)
    requires HasSuffix(path, "/") && path != "/"
    requires HasPrefix((if Rooted(path) then "/" else "") + c, path)
    ensures path == (if Rooted(path) then "/" else "") + rest && HasPrefix(c, rest) && HasSuffix(rest, "/")
  {
    if Rooted(path) {
      rest := path[1..];
      assert ("/" + c)[..|path|] == path;
    } else {
      rest := path;
      assert "" + c == c;
    }
  }

  /** Cleaning a path first changes nothing below it. */
  lemma JoinCleaned(mountPoint: string, path: string, r: seq<string>)
    requires mountPoint != "" && path != "" && AllProper(r) && r != [] && Parts(path) != []
    ensures Join(mountPoint, Spell(Rooted(path), Parts(path) + r))
      == Spell(Rooted(mountPoint), Parts(mountPoint + "/" + Clean(path)) + r)
  {
    var rooted, base := Rooted(mountPoint), Parts(path);
    var below := mountPoint + "/" + Clean(path);
    PartsClean(below);
    CleanSpells(path);
    SpellBelow(Rooted(path), base, r);
    assert Rooted(below) == rooted;
    hide Parts, LeadsTo, IsClean, Spell, Concat;
    JoinLeads(below, mountPoint, Clean(path), r);
  }

  lemma JoinLeads(below: string, mountPoint: string, path: string, r: seq<string>)
    requires mountPoint != "" && below == mountPoint + "/" + path && AllProper(r) && r != []
    ensures Join(mountPoint, path + "/" + Concat(r)) == Spell(Rooted(below), Parts(below) + r)
  {
    hide Parts, Spell, LeadsTo, IsClean, Clean, Concat, AllProper, Rooted;
    PartsClean(below);
    BelowLeads(below, Rooted(below), Parts(below), r);
    CleanLeads(below + "/" + Concat(r), Rooted(below), Parts(below) + r);
    SlashedConcat(mountPoint, path, Concat(r));
  }

  lemma SlashedConcat(a: string, b: string, c: string)
    ensures a + "/" + (b + "/" + c) == a + "/" + b + "/" + c
  {
  }

  /** The root directory and the current one lead nowhere. */
  lemma JoinNowhere(mountPoint: string, path: string, r: seq<string>)
    requires mountPoint != "" && path != "" && AllProper(r) && r != [] && Parts(path) == []
    ensures Join(mountPoint, Spell(Rooted(path), r)) == Spell(Rooted(mountPoint), Parts(mountPoint) + r)
    ensures Parts(mountPoint + "/" + Clean(path)) == Parts(mountPoint)
  {
    var rooted := Rooted(mountPoint);
    PartsClean(mountPoint);
    CleanSpells(path);
    JoinBelow(mountPoint, rooted, Parts(mountPoint), Spell(Rooted(path), r), r);
    if Rooted(path) {
      SlashLeads(mountPoint, rooted, Parts(mountPoint));
      SlashLeads(mountPoint + "/", rooted, Parts(mountPoint));
      assert mountPoint + "/" + Clean(path) == mountPoint + "/" + "/";
    } else {
      DotBelow(mountPoint);
    }
  }

  lemma DotBelow(path: string)
    requires path != ""
    ensures Parts(path + "/" + ".") == Parts(path)
  {
    SplitAppend(path, ".");
    SplitNoSlash(".");
    assert (Split(path) + ["."])[..|Split(path)|] == Split(path);
  }

  /** The DFS name of a scanned file, whatever the configuration. */
  lemma DfsNameIs(localRoot: string, mountPoint: string, r: seq<string>)
    requires HasSuffix(localRoot, "/") && AllProper(r) && r != []
    ensures
      var name := DfsName(localRoot, mountPoint, WalkedPath(localRoot, r));
      && name == Spell(NameRooted(localRoot, mountPoint), Where(localRoot, mountPoint) + r)
      && name != "" && NameParts(name) == Where(localRoot, mountPoint) + r
    ensures IsClean(NameRooted(localRoot, mountPoint), Where(localRoot, mountPoint))
  {
    var rooted, where := NameRooted(localRoot, mountPoint), Where(localRoot, mountPoint);
    StrippedIff(localRoot, r);
    WalkedIs(localRoot, r);
    if mountPoint == "" {
      UnmountedName(localRoot, r);
    } else {
      PartsClean(mountPoint);
      if Stripped(localRoot) {
        PrefixOfConcat(localRoot, Concat(r));
        JoinBelow(mountPoint, rooted, Parts(mountPoint), Concat(r), r);
      } else {
        PartsClean(mountPoint + "/" + Clean(localRoot));
        if Parts(localRoot) == [] {
          assert [] + r == r;
          JoinNowhere(mountPoint, localRoot, r);
        } else {
          JoinCleaned(mountPoint, localRoot, r);
        }
      }
    }
    BelowIsClean(rooted, where, r);
    SpelledName(rooted, where + r);
  }

  lemma UnmountedName(localRoot: string, r: seq<string>)
    requires HasSuffix(localRoot, "/") && AllProper(r) && r != []
    ensures DfsName(localRoot, "", WalkedPath(localRoot, r))
      == Spell(NameRooted(localRoot, ""), Where(localRoot, "") + r)
    ensures IsClean(NameRooted(localRoot, ""), Where(localRoot, ""))
  {
    StrippedIff(localRoot, r);
    if Stripped(localRoot) {
      PrefixOfConcat(localRoot, Concat(r));
      assert [] + r == r;
      JustName(r);
    } else {
      WalkedIs(localRoot, r);
      PartsClean(localRoot);
      CleanSpells(localRoot);
    }
  }

  lemma JustName(r: seq<string>)
    requires AllProper(r) && r != []
    ensures Join("", Concat(r)) == Spell(false, r)
  {
    ConcatStart(r);
    CleanConcat(r);
    RelativeSpell(r);
  }

  lemma SpelledName(rooted: bool, parts: seq<string>)
    requires Components(parts) && parts != []
    ensures Spell(rooted, parts) != "" && NameParts(Spell(rooted, parts)) == parts
  {
    ConcatStart(parts);
    SplitConcat(parts);
    PrefixOfConcat("/", Concat(parts));
    RelativeSpell(parts);
    assert !HasPrefix(Concat(parts), "/");
  }

  lemma RelativeSpell(parts: seq<string>)
    ensures Spell(false, parts) == Concat(parts)
  {
  }

  /** Distinct local files below the root get distinct DFS names, whatever the configuration. */
  lemma DfsNamesDistinct(localRoot: string, mountPoint: string, r: seq<string>, r': seq<string>)
    requires HasSuffix(localRoot, "/") && AllProper(r) && AllProper(r') && r != [] && r' != [] && r != r'
    ensures DfsName(localRoot, mountPoint, WalkedPath(localRoot, r))
      != DfsName(localRoot, mountPoint, WalkedPath(localRoot, r'))
  {
    DfsNameIs(localRoot, mountPoint, r);
    DfsNameIs(localRoot, mountPoint, r');
    var where := Where(localRoot, mountPoint);
    assert (where + r)[|where|..] == r && (where + r')[|where|..] == r';
    assert where + r != where + r';
  }

  // ---- opening inverts scanning ----

  /** Every file below the local root gets the name of its path below the mount point, and
      is opened by that name. */
  ghost predicate OpensWhatItScans(localRoot: string, mountPoint: string) {
    forall r :: AllProper(r) && r != [] ==> NamedAndOpened(localRoot, mountPoint, r)
  }

  predicate NamedAndOpened(localRoot: string, mountPoint: string, r: seq<string>) {
    var path := WalkedPath(localRoot, r);
    var name := DfsName(localRoot, mountPoint, path);
    && NameParts(name) == Parts(mountPoint) + r
    && OpenName(localRoot, mountPoint, name) == Some(path)
  }

  /** The root is spelled as it is cleaned, with a slash; or it is the current or the root
      directory; or the mount point makes up for what its path would add. */
  predicate RootFits(localRoot: string, mountPoint: string) {
    || localRoot == Clean(localRoot) + "/"
    || Clean(localRoot) in {".", "/"}
    || Clean(Join(mountPoint, Clean(localRoot))) == Clean(mountPoint)
  }

  /** The mount point, if any, is spelled as it is cleaned, with or without a slash, and is
      not the current directory. */
  predicate MountFits(mountPoint: string) {
    || mountPoint in {"", "/"}
    || (Clean(mountPoint) !in {".", "/"} && mountPoint in {Clean(mountPoint), Clean(mountPoint) + "/"})
  }

  lemma RootFitsIff(localRoot: string, mountPoint: string)
    requires HasSuffix(localRoot, "/")
    ensures RootFits(localRoot, mountPoint) <==> Where(localRoot, mountPoint) == Parts(mountPoint)
  {
    CleanSpells(localRoot);
    if Parts(localRoot) == [] {
      RootNowhere(localRoot, mountPoint);
    } else if !Stripped(localRoot) {
      if mountPoint == "" {
        assert Clean("") == "." by { assert Split("") == [""] && [""][..0] == []; }
        CleanSpells(Clean(localRoot));
        assert Parts("") == [];
      } else {
        var below := mountPoint + "/" + Clean(localRoot);
        CleanSpells(below);
        CleanSpells(Clean(below));
        CleanInjective(Clean(below), mountPoint);
      }
    }
  }

  lemma RootNowhere(localRoot: string, mountPoint: string)
    requires HasSuffix(localRoot, "/") && Parts(localRoot) == []
    ensures Where(localRoot, mountPoint) == Parts(mountPoint)
    ensures Clean(localRoot) in {".", "/"}
  {
    CleanSpells(localRoot);
    assert Proper("x");
    if mountPoint == "" {
      assert Parts("") == [];
    } else {
      JoinNowhere(mountPoint, localRoot, ["x"]);
    }
  }

  /** With a fitting root and mount point, names open what they were given to. */
  lemma FittingOpens(localRoot: string, mountPoint: string, r: seq<string>)
    requires HasSuffix(localRoot, "/") && AllProper(r) && r != []
    requires Where(localRoot, mountPoint) == Parts(mountPoint) && MountFits(mountPoint)
    ensures NamedAndOpened(localRoot, mountPoint, r)
  {
    var rooted, mount := NameRooted(localRoot, mountPoint), Parts(mountPoint);
    DfsNameIs(localRoot, mountPoint, r);
    WalkedIs(localRoot, r);
    PartsClean(localRoot);
    if mountPoint == "" {
      assert Parts("") == [];
      assert [] + r == r;
      JoinBelow(localRoot, Rooted(localRoot), Parts(localRoot), Spell(rooted, r), r);
    } else {
      BelowMountOpens(mountPoint, r);
      var rest := TrimPrefix(Spell(rooted, mount + r), mountPoint);
      JoinBelow(localRoot, Rooted(localRoot), Parts(localRoot), rest, r);
    }
  }

  lemma BelowMountOpens(mountPoint: string, r: seq<string>)
    requires mountPoint != "" && MountFits(mountPoint) && AllProper(r) && r != []
    ensures
      var name := Spell(Rooted(mountPoint), Parts(mountPoint) + r);
      HasPrefix(name, mountPoint) && TrimPrefix(name, mountPoint) in {Concat(r), "/" + Concat(r)}
  {
    var rooted, mount := Rooted(mountPoint), Parts(mountPoint);
    if mountPoint == "/" {
      RootLeads();
      assert mount + r == r;
      PrefixOfConcat("/", Concat(r));
    } else {
      CleanSpells(mountPoint);
      SpellBelow(rooted, mount, r);
      hide Parts, Clean, Spell, Concat;
      MountedName(Clean(mountPoint), mountPoint, Concat(r));
    }
  }

  lemma MountedName(clean: string, mountPoint: string, rest: string)
    requires mountPoint in {clean, clean + "/"}
    ensures
      var name := clean + "/" + rest;
      HasPrefix(name, mountPoint) && TrimPrefix(name, mountPoint) in {rest, "/" + rest}
  {
    assert clean + "/" + rest == clean + ("/" + rest);
    PrefixOfConcat(clean, "/" + rest);
    PrefixOfConcat(clean + "/", rest);
  }

  /** If the names of two files a and b start with the mount point, it fits. */
  lemma PrefixedFits(mountPoint: string)
    requires mountPoint != ""
    requires HasPrefix(Spell(Rooted(mountPoint), Parts(mountPoint) + ["a"]), mountPoint)
    requires HasPrefix(Spell(Rooted(mountPoint), Parts(mountPoint) + ["b"]), mountPoint)
    ensures MountFits(mountPoint)
  {
    var rooted, mount := Rooted(mountPoint), Parts(mountPoint);
    CleanShorter(mountPoint);
    CleanSpells(mountPoint);
    if mount == [] {
      assert mount + ["a"] == ["a"] && mount + ["b"] == ["b"];
      var slash := if rooted then "/" else "";
      assert Spell(rooted, ["a"]) == slash + "a" && Spell(rooted, ["b"]) == slash + "b";
      CommonPrefix(slash, mountPoint);
      assert "" + "/" == "/";
      NearPrefix("", mountPoint);
    } else {
      SpellBelow(rooted, mount, ["a"]);
      SpellBelow(rooted, mount, ["b"]);
      assert Concat(["a"]) == "a" && Concat(["b"]) == "b";
      CommonPrefix(Spell(rooted, mount) + "/", mountPoint);
      NearPrefix(Spell(rooted, mount), mountPoint);
    }
  }

  lemma NearPrefix(s: string, p: string)
    ensures HasPrefix(s + "/", p) && |p| >= |s| ==> p == s || p == s + "/"
  {
    if HasPrefix(s + "/", p) {
      assert p == (s + "/")[..|p|];
      assert |p| == |s| ==> p == s;
      assert |p| == |s| + 1 ==> p == s + "/";
    }
  }

  lemma CommonPrefix(s: string, p: string)
    ensures HasPrefix(s + "a", p) && HasPrefix(s + "b", p) ==> HasPrefix(s, p)
  {
    assert (s + "a")[|s|] == 'a' && (s + "b")[|s|] == 'b';
    if |p| <= |s| {
      assert (s + "a")[..|p|] == s[..|p|];
    }
  }

  /** Opening inverts scanning, for every file, exactly if the spellings of the local root
      and the mount point fit. */
  lemma OpenInvertsScan(localRoot: string, mountPoint: string)
    requires HasSuffix(localRoot, "/")
    ensures OpensWhatItScans(localRoot, mountPoint) <==> RootFits(localRoot, mountPoint) && MountFits(mountPoint)
  {
    RootFitsIff(localRoot, mountPoint);
    if Where(localRoot, mountPoint) == Parts(mountPoint) && MountFits(mountPoint) {
      forall r | AllProper(r) && r != [] ensures NamedAndOpened(localRoot, mountPoint, r) {
        FittingOpens(localRoot, mountPoint, r);
      }
    }
    if OpensWhatItScans(localRoot, mountPoint) {
      OpeningFits(localRoot, mountPoint);
    }
  }

  /** If they fit, the local root gets another name than any file below it. */
  lemma RootNameDistinct(localRoot: string, mountPoint: string, r: seq<string>)
    requires HasSuffix(localRoot, "/") && RootFits(localRoot, mountPoint) && MountFits(mountPoint)
    requires AllProper(r) && r != []
    ensures DfsName(localRoot, mountPoint, localRoot) != DfsName(localRoot, mountPoint, WalkedPath(localRoot, r))
  {
    RootFitsIff(localRoot, mountPoint);
    DfsNameIs(localRoot, mountPoint, r);
    assert TrimPrefix(localRoot, localRoot) == "";
    if mountPoint != "" {
      var rooted, mount := Rooted(mountPoint), Parts(mountPoint);
      MountIsSpelled(mountPoint);
      assert DfsName(localRoot, mountPoint, localRoot) == Spell(rooted, mount);
      PartsClean(mountPoint);
      BelowIsClean(rooted, mount, r);
      hide Parts, Clean, Spell, Where, DfsName, RootFits, MountFits;
      assert mount != mount + r;
      if Spell(rooted, mount) == Spell(rooted, mount + r) {
        SpellInjective(rooted, mount, mount + r);
      }
    }
  }

  lemma MountIsSpelled(mountPoint: string)
    requires mountPoint != "" && MountFits(mountPoint)
    ensures Join(mountPoint, "") == Spell(Rooted(mountPoint), Parts(mountPoint))
  {
    var rooted, mount := Rooted(mountPoint), Parts(mountPoint);
    PartsClean(mountPoint);
    SlashLeads(mountPoint, rooted, mount);
    assert mountPoint + "/" + "" == mountPoint + "/";
    CleanSpells(mountPoint);
    hide Parts, IsClean;
    CleanLeads(mountPoint + "/", rooted, mount);
  }

  lemma OpeningFits(localRoot: string, mountPoint: string)
    requires HasSuffix(localRoot, "/") && OpensWhatItScans(localRoot, mountPoint)
    ensures Where(localRoot, mountPoint) == Parts(mountPoint) && MountFits(mountPoint)
  {
    var where := Where(localRoot, mountPoint);
    assert Proper("a") && Proper("b");
    assert NamedAndOpened(localRoot, mountPoint, ["a"]) && NamedAndOpened(localRoot, mountPoint, ["b"]);
    DfsNameIs(localRoot, mountPoint, ["a"]);
    DfsNameIs(localRoot, mountPoint, ["b"]);
    assert (where + ["a"])[..|where|] == where;
    assert (Parts(mountPoint) + ["a"])[..|Parts(mountPoint)|] == Parts(mountPoint);
    if mountPoint != "" {
      PrefixedFits(mountPoint);
    }
  }

  // ---- opening alone ----

  /** What the names of all scanned files have in common. */
  function SharedPrefix(localRoot: string, mountPoint: string): string {
    var rooted, where := NameRooted(localRoot, mountPoint), Where(localRoot, mountPoint);
    if where == [] then (if rooted then "/" else "") else Spell(rooted, where) + "/"
  }

  ghost predicate OpensAll(localRoot: string, mountPoint: string) {
    forall r :: AllProper(r) && r != [] ==> Opens(localRoot, mountPoint, r)
  }

  predicate Opens(localRoot: string, mountPoint: string, r: seq<string>) {
    var path := WalkedPath(localRoot, r);
    OpenName(localRoot, mountPoint, DfsName(localRoot, mountPoint, path)) == Some(path)
  }

  lemma NameIsPrefixed(localRoot: string, mountPoint: string, r: seq<string>)
    requires HasSuffix(localRoot, "/") && AllProper(r) && r != []
    ensures DfsName(localRoot, mountPoint, WalkedPath(localRoot, r)) == SharedPrefix(localRoot, mountPoint) + Concat(r)
  {
    var rooted, where := NameRooted(localRoot, mountPoint), Where(localRoot, mountPoint);
    DfsNameIs(localRoot, mountPoint, r);
    if where == [] {
      assert where + r == r;
    } else {
      SpellBelow(rooted, where, r);
    }
  }

  /** What is opened below what the mount point leaves of the common part. */
  lemma OpensBelow(localRoot: string, rest: string, r: seq<string>)
    requires HasSuffix(localRoot, "/") && (rest == "" || HasSuffix(rest, "/")) && AllProper(r) && r != []
    ensures Join(localRoot, rest + Concat(r)) == WalkedPath(localRoot, r)
      <==> Clean(Join(localRoot, rest)) == Clean(localRoot)
  {
    hide Parts, Spell, Concat, Clean, IsClean, Components, AllProper, HasSuffix, WalkedPath, LeadsTo, Join;
    var below, rooted := localRoot + "/" + rest, Rooted(localRoot);
    NotEmpty(localRoot, "/");
    WalkedIs(localRoot, r);
    JoinedBelow(localRoot, rest, r);
    PartsClean(localRoot);
    PartsClean(below);
    BelowIsClean(rooted, Parts(localRoot), r);
    BelowIsClean(rooted, Parts(below), r);
    SameBelow(rooted, Parts(below), Parts(localRoot), r);
    CleanJoined(localRoot, rest);
  }

  lemma NotEmpty(s: string, suffix: string)
    requires HasSuffix(s, suffix) && suffix != ""
    ensures s != ""
  {
  }

  lemma JoinedBelow(localRoot: string, rest: string, r: seq<string>)
    requires HasSuffix(localRoot, "/") && (rest == "" || HasSuffix(rest, "/")) && AllProper(r) && r != []
    ensures
      var below := localRoot + "/" + rest;
      && Rooted(below) == Rooted(localRoot)
      && Join(localRoot, rest + Concat(r)) == Spell(Rooted(localRoot), Parts(below) + r)
  {
    hide Parts, Spell, Concat, Clean, AllProper;
    var below := localRoot + "/" + rest;
    assert HasSuffix(below, "/");
    BelowSlash(below, r);
    ConcatThree(localRoot + "/", rest, Concat(r));
  }

  lemma ConcatThree(a: string, b: string, c: string)
    ensures a + (b + c) == a + b + c
  {
  }

  lemma CleanJoined(localRoot: string, rest: string)
    requires localRoot != ""
    ensures Clean(Join(localRoot, rest)) == Clean(localRoot)
      <==> Parts(localRoot + "/" + rest) == Parts(localRoot)
  {
    var below := localRoot + "/" + rest;
    assert Rooted(below) == Rooted(localRoot);
    CleanSpells(below);
    CleanInjective(Clean(below), localRoot);
  }

  lemma SameBelow(rooted: bool, a: seq<string>, b: seq<string>, r: seq<string>)
    requires Components(a + r) && Components(b + r)
    ensures Spell(rooted, a + r) == Spell(rooted, b + r) <==> a == b
  {
    if Spell(rooted, a + r) == Spell(rooted, b + r) {
      SpellInjective(rooted, a + r, b + r);
      assert |a| == |b| && a == (a + r)[..|a|] && b == (b + r)[..|b|];
    }
  }

  lemma BelowSlash(path: string, r: seq<string>)
    requires HasSuffix(path, "/") && AllProper(r) && r != []
    ensures Clean(path + Concat(r)) == Spell(Rooted(path), Parts(path) + r)
  {
    var front := path[..|path| - 1];
    assert path == front + "/";
    SplitAppend(front, "");
    SplitAppend(front, Concat(r));
    assert front + "/" + "" == path && front + "/" + Concat(r) == path + Concat(r);
    SplitConcat(r);
    CleanEmptyParts(Rooted(path), Split(front));
    CleanPartsConcat(Rooted(path), Split(front), r);
    ConcatStart(r);
  }

  /** Opening alone, by whatever names: every scanned file is opened by the name it was given
      exactly if the mount point, as a string, starts all names, and what it leaves of their
      common part leads nowhere from the local root. */
  lemma OpensAllIff(localRoot: string, mountPoint: string)
    requires HasSuffix(localRoot, "/")
    ensures
      var prefix := SharedPrefix(localRoot, mountPoint);
      OpensAll(localRoot, mountPoint) <==>
        && HasPrefix(prefix, mountPoint)
        && Clean(Join(localRoot, TrimPrefix(prefix, mountPoint))) == Clean(localRoot)
  {
    var prefix := SharedPrefix(localRoot, mountPoint);
    assert AllProper(["a"]) && AllProper(["b"]) by { assert Proper("a") && Proper("b"); }
    assert Concat(["a"]) == "a" && Concat(["b"]) == "b";
    NameIsPrefixed(localRoot, mountPoint, ["a"]);
    NameIsPrefixed(localRoot, mountPoint, ["b"]);
    CommonPrefix(prefix, mountPoint);
    if HasPrefix(prefix, mountPoint) {
      forall r | AllProper(r) && r != []
        ensures Opens(localRoot, mountPoint, r)
          <==> Clean(Join(localRoot, TrimPrefix(prefix, mountPoint))) == Clean(localRoot)
      {
        OpensIff(localRoot, mountPoint, r);
      }
      assert OpensAll(localRoot, mountPoint) ==> Opens(localRoot, mountPoint, ["a"]);
    } else {
      assert OpensAll(localRoot, mountPoint) ==>
          Opens(localRoot, mountPoint, ["a"]) && Opens(localRoot, mountPoint, ["b"]);
    }
  }

  lemma OpensIff(localRoot: string, mountPoint: string, r: seq<string>)
    requires HasSuffix(localRoot, "/") && AllProper(r) && r != []
    requires HasPrefix(SharedPrefix(localRoot, mountPoint), mountPoint)
    ensures Opens(localRoot, mountPoint, r)
      <==> Clean(Join(localRoot, TrimPrefix(SharedPrefix(localRoot, mountPoint), mountPoint))) == Clean(localRoot)
  {
    var prefix := SharedPrefix(localRoot, mountPoint);
    NameIsPrefixed(localRoot, mountPoint, r);
    hide SharedPrefix, WalkedPath, DfsName, Join, Clean, Concat, AllProper;
    var rest := AfterPrefix(prefix, mountPoint, Concat(r));
    OpensBelow(localRoot, rest, r);
  }

  lemma AfterPrefix(prefix: string, p: string, c: string) returns (rest: string)
    requires HasPrefix(prefix, p) && (prefix == "" || HasSuffix(prefix, "/"))
    ensures rest == TrimPrefix(prefix, p) && (rest == "" || HasSuffix(rest, "/"))
    ensures HasPrefix(prefix + c, p) && TrimPrefix(prefix + c, p) == rest + c
    ensures p == "" ==> rest == prefix
  {
    rest := prefix[|p|..];
    assert prefix == p + rest;
    ConcatThree(p, rest, c);
    PrefixOfConcat(p, rest + c);
  }

  /** A root spelled as it is cleaned, rooted or with any number of ".." in front: its files
      are walked below it, named by their paths below the mount point, and opened again by
      these names. */
  lemma CleanRootOpens(rooted: bool, ups: nat, root: seq<string>, mount: seq<string>, r: seq<string>)
    requires (rooted ==> ups == 0) && AllProper(root) && Ups(ups) + root != []
    requires AllProper(mount) && AllProper(r) && r != []
    ensures
      var localRoot := Spell(rooted, Ups(ups) + root) + "/";
      var path := Spell(rooted, Ups(ups) + root + r);
      && WalkedPath(localRoot, r) == path
      && DfsName(localRoot, Concat(mount), path) == Concat(mount + r)
      && OpenName(localRoot, Concat(mount), Concat(mount + r)) == Some(path)
  {
    hide OpenName, DfsName, WalkedPath, Join, NameParts;
    var base := Ups(ups) + root;
    var localRoot := Spell(rooted, base) + "/";
    CleanRootLeads(rooted, ups, root);
    WalkedIs(localRoot, r);
    MountWhere(localRoot, mount);
    FittingOpens(localRoot, Concat(mount), r);
    DfsNameIs(localRoot, Concat(mount), r);
    RelativeSpell(mount + r);
  }

  lemma CleanRootLeads(rooted: bool, ups: nat, root: seq<string>)
    requires (rooted ==> ups == 0) && AllProper(root) && Ups(ups) + root != []
    ensures
      var base := Ups(ups) + root;
      var localRoot := Spell(rooted, base) + "/";
      && Rooted(localRoot) == rooted && Parts(localRoot) == base
      && HasSuffix(localRoot, "/") && Stripped(localRoot)
  {
    hide Parts, Clean;
    var base := Ups(ups) + root;
    UpsStay(ups, root);
    assert Ups(0) + root == root;
    assert Components(base);
    SpellLeads(rooted, base);
    SlashLeads(Spell(rooted, base), rooted, base);
    CleanLeads(Spell(rooted, base) + "/", rooted, base);
    PartsOf(Spell(rooted, base) + "/", rooted, base);
  }

  lemma PartsOf(path: string, rooted: bool, parts: seq<string>)
    requires LeadsTo(path, rooted, parts)
    ensures Parts(path) == parts && Rooted(path) == rooted
  {
  }

  lemma MountWhere(localRoot: string, mount: seq<string>)
    requires Stripped(localRoot) && AllProper(mount)
    ensures Where(localRoot, Concat(mount)) == Parts(Concat(mount)) == mount && MountFits(Concat(mount))
    ensures !NameRooted(localRoot, Concat(mount))
  {
    if mount != [] {
      ConcatStart(mount);
      SplitConcat(mount);
      CleanProper(false, mount);
      CleanSpells(Concat(mount));
      assert Spell(false, mount) == Concat(mount);
    }
  }

  /** So with a root in the parent directory. */
  lemma ParentRootOpens(root: seq<string>, x: string)
    requires AllProper(root) && root != [] && Proper(x)
    ensures
      var localRoot := "../" + Concat(root) + "/";
      && WalkedPath(localRoot, [x]) == "../" + Concat(root) + "/" + x
      && DfsName(localRoot, "", "../" + Concat(root) + "/" + x) == x
      && OpenName(localRoot, "", x) == Some("../" + Concat(root) + "/" + x)
  {
    hide OpenName, DfsName, WalkedPath;
    CleanRootOpens(false, 1, root, [], [x]);
    ParentSpelled(root);
    ParentSpelled(root + [x]);
    ConcatSnoc(root, x);
    assert Ups(1) + root + [x] == Ups(1) + (root + [x]) && [] + [x] == [x];
    assert Concat([x]) == x;
  }

  lemma ParentSpelled(root: seq<string>)
    requires root != []
    ensures Spell(false, Ups(1) + root) == "../" + Concat(root)
  {
    assert Ups(1) == [".."] && ([".."] + root)[1..] == root;
    assert ".." + "/" == "../";
  }

  /** A root spelled with a needless "./" in front does not fit, without a mount point: its
      files are named by the root's path, and opened twice below it. */
  lemma DottedRootFails(root: seq<string>, x: string)
    requires AllProper(root) && root != [] && Proper(x)
    ensures
      var localRoot := "./" + Concat(root) + "/";
      && WalkedPath(localRoot, [x]) == Concat(root + [x])
      && DfsName(localRoot, "", Concat(root + [x])) == Concat(root + [x])
      && OpenName(localRoot, "", Concat(root + [x])) == Some(Concat(root + root + [x]))
  {
    hide Concat, LeadsTo, Join, Clean;
    var localRoot := "./" + Concat(root) + "/";
    var all := root + [x];
    DottedLeads(root);
    WalkedIs(localRoot, [x]);
    UncleanName(all, localRoot);
    JoinBelow(localRoot, false, root, Concat(all), all);
    assert root + all == root + root + [x];
    RelativeSpell(root + all);
    RelativeSpell(all);
  }

  lemma DottedLeads(root: seq<string>)
    requires AllProper(root) && root != []
    ensures LeadsTo("./" + Concat(root) + "/", false, root)
  {
    DotLeads();
    BelowLeads(".", false, [], root);
    assert [] + root == root;
    SlashLeads("." + "/" + Concat(root), false, root);
    assert "./" + Concat(root) + "/" == "." + "/" + Concat(root) + "/";
  }

  lemma UncleanName(parts: seq<string>, localRoot: string)
    requires AllProper(parts) && parts != [] && "./" <= localRoot
    ensures DfsName(localRoot, "", Concat(parts)) == Concat(parts)
  {
    NotDotted(parts, localRoot);
    CleanConcat(parts);
    ConcatStart(parts);
  }

  lemma NotDotted(parts: seq<string>, s: string)
    requires AllProper(parts) && parts != [] && "./" <= s
    ensures !HasPrefix(Concat(parts), s)
  {
    var x, c := parts[0], Concat(parts);
    assert x in parts && x[0] in x && s[0] == '.' && s[1] == '/';
    if |x| > 1 {
      assert x[1] in x && c[1] == x[1];
    } else {
      assert x == [x[0]] && c[0] == x[0];
    }
  }

  // ---- names beside the mount point ----

  lemma {:induction false} ConcatExtend(front: seq<string>, m: string, x: string, r: seq<string>)
    ensures Concat(front + ([m + x] + r)) == Concat(front + [m]) + Concat([x] + r)
  {
    assert ([m + x] + r)[1..] == r && ([x] + r)[1..] == r;
    if front == [] {
      assert front + ([m + x] + r) == [m + x] + r && front + [m] == [m];
    } else {
      ConcatAppend(front, [m + x] + r);
      ConcatAppend(front, [m]);
    }
  }

  /** The mount point is compared as a string, not by components: a name outside it is
      opened too, as a file it does not stand for, if its spelling starts with the mount
      point's. */
  lemma OpensOutsideMount(localRoot: string, mount: seq<string>, x: string, r: seq<string>)
    requires localRoot != "" && AllProper(mount) && mount != [] && Proper(x) && AllProper(r)
    ensures
      var beside := mount[..|mount| - 1] + ([mount[|mount| - 1] + x] + r);
      && !(mount <= beside)
      && OpenName(localRoot, Concat(mount), Concat(beside)) == Some(WalkedPath(localRoot, [x] + r))
  {
    var front, m := mount[..|mount| - 1], mount[|mount| - 1];
    var beside := front + ([m + x] + r);
    assert front + [m] == mount;
    ConcatExtend(front, m, x, r);
    PrefixOfConcat(Concat(mount), Concat([x] + r));
    ConcatStart(mount);
    assert beside[|front|] == m + x != mount[|front|];
  }

  /** `q` lies beside the mount point, in a directory whose name extends the mount point's. */
  predicate BesideMount(mount: seq<string>, q: seq<string>) {
    && 0 < |mount| <= |q|
    && q[..|mount| - 1] == mount[..|mount| - 1]
    && mount[|mount| - 1] < q[|mount| - 1]
  }

  /** A DFS name is refused exactly if it lies neither below the mount point nor beside it. */
  lemma RefusedIff(localRoot: string, mount: seq<string>, q: seq<string>)
    requires AllProper(mount) && AllProper(q) && q != []
    ensures OpenName(localRoot, Concat(mount), Concat(q)) == None <==> !(mount <= q) && !BesideMount(mount, q)
  {
    if mount != [] {
      ConcatStart(mount);
      SpelledPrefix(mount, q);
    }
  }

  lemma {:induction false} SpelledPrefix(mount: seq<string>, q: seq<string>)
    requires mount != [] && q != [] && AllProper(mount) && AllProper(q)
    ensures HasPrefix(Concat(q), Concat(mount)) <==> mount <= q || BesideMount(mount, q)
    decreases |mount|
  {
    var m, x := mount[0], q[0];
    assert m in mount && x in q;
    var ms, xs := mount[1..], q[1..];
    assert mount == [m] + ms && q == [x] + xs;
    PrefixAfterName(m, ms, x, xs);
    if ms == [] {
      assert m <= x <==> m == x || m < x;
    } else if m == x && xs != [] {
      SpelledPrefix(ms, xs);
      PrefixAfter(m, ms, x, xs);
      assert mount[..|mount| - 1] == [m] + ms[..|ms| - 1];
      if |mount| <= |q| {
        assert q[..|mount| - 1] == [x] + xs[..|ms| - 1];
        assert ([m] + ms[..|ms| - 1])[1..] == ms[..|ms| - 1];
        assert ([x] + xs[..|ms| - 1])[1..] == xs[..|ms| - 1];
      }
    } else {
      PrefixAfter(m, ms, x, xs);
    }
  }

  /** The first component decides, and a slash ends it. */
  lemma PrefixAfterName(m: string, ms: seq<string>, x: string, xs: seq<string>)
    requires Proper(m) && Proper(x)
    ensures
      var spelled := HasPrefix(Concat([x] + xs), Concat([m] + ms));
      spelled <==> if ms == [] then m <= x else m == x && xs != [] && HasPrefix(Concat(xs), Concat(ms))
  {
    assert ([m] + ms)[1..] == ms && ([x] + xs)[1..] == xs;
    NamePrefix(m, x, Concat(xs));
    SlashedPrefix(m, Concat(ms), x, Concat(xs));
  }

  lemma NamePrefix(m: string, x: string, t: string)
    requires '/' !in m
    ensures HasPrefix(x + "/" + t, m) <==> m <= x
  {
    var b := x + "/" + t;
    assert b[|x|] == '/' && b[..|x|] == x;
    PrefixChar(m, b, |x|);
    assert m <= b ==> m == b[..|m|];
    if m <= x {
      assert m == b[..|x|][..|m|];
    }
  }

  lemma PrefixChar(a: string, b: string, i: nat)
    ensures a <= b && i < |a| ==> i < |b| && a[i] == b[i] && b[i] in a
  {
  }

  lemma SlashedPrefix(m: string, s: string, x: string, t: string)
    requires '/' !in m && '/' !in x
    ensures !HasPrefix(x, m + "/" + s)
    ensures HasPrefix(x + "/" + t, m + "/" + s) <==> m == x && s <= t
  {
    var a, b := m + ("/" + s), x + ("/" + t);
    assert a == m + "/" + s && b == x + "/" + t;
    assert a[|m|] == '/' && b[|x|] == '/';
    PrefixChar(a, x, |m|);
    PrefixChar(a, b, |m|);
    PrefixChar(a, b, |x|);
    if a <= b {
      assert |m| == |x|;
      assert m == a[..|m|] == b[..|m|] == x;
      assert s == a[|m| + 1..] && t == b[|m| + 1..];
      assert t[..|s|] == b[..|a|][|m| + 1..];
    }
    if m == x && s <= t {
      assert b[..|a|] == m + ("/" + t[..|s|]);
    }
  }

  // ---- scanning ----

  /** What the local root itself is announced as: the mount point, if there is one. */
  function MountName(mountPoint: string): seq<string> {
    if mountPoint == "" then [] else NameParts(Join(mountPoint, ""))
  }

  /** What the walk of `t`, called `name` and reached at `r` below the root, announces. */
  function Scanned(t: Local, name: string, localRoot: string, mountPoint: string, r: seq<string>,
                   me: string, scanT: int): seq<Announcement>
  {
    Visited(t, name, localRoot, mountPoint, r, me, scanT)
    + if t.File? then [] else EntriesListing(t.entries, Where(localRoot, mountPoint) + r, me, scanT)
  }

  /** What the node at `r` itself is announced as. */
  function Visited(t: Local, name: string, localRoot: string, mountPoint: string, r: seq<string>,
                   me: string, scanT: int): seq<Announcement>
  {
    var p := NameOf(localRoot, mountPoint, r);
    if p == [] then [] else [Announcement(p[0], p[1..], StatOf(t, name, me, scanT))]
  }

  function NameOf(localRoot: string, mountPoint: string, r: seq<string>): seq<string> {
    if r == [] then MountName(mountPoint) else Where(localRoot, mountPoint) + r
  }

  lemma VisitedName(localRoot: string, mountPoint: string, r: seq<string>)
    requires HasSuffix(localRoot, "/") && AllProper(r)
    ensures
      var name, p := DfsName(localRoot, mountPoint, WalkedPath(localRoot, r)), NameOf(localRoot, mountPoint, r);
      if name == "" then p == [] else NameParts(name) == p
  {
    if r != [] {
      DfsNameIs(localRoot, mountPoint, r);
    } else {
      assert TrimPrefix(localRoot, localRoot) == "";
      if mountPoint != "" {
        CleanSpells(mountPoint + "/" + "");
      }
    }
  }

  /** With a fitting root and an ordinary mount point, a scan announces the listing of the
      local tree below the mount point. */
  lemma ScanIsListing(t: Local, name: string, localRoot: string, mount: seq<string>, me: string, scanT: int)
    requires HasSuffix(localRoot, "/") && RootFits(localRoot, Concat(mount)) && AllProper(mount)
    ensures Scanned(t, name, localRoot, Concat(mount), [], me, scanT) == Listing(t, name, mount, me, scanT)
    ensures Parts(Concat(mount)) == mount && Where(localRoot, Concat(mount)) == mount && MountFits(Concat(mount))
  {
    RootFitsIff(localRoot, Concat(mount));
    if mount == [] {
      assert Parts("") == [];
    } else {
      var mountPoint := Concat(mount);
      ConcatStart(mount);
      ProperIsClean(false, mount);
      SpellLeads(false, mount);
      assert Spell(false, mount) == mountPoint;
      CleanSpells(mountPoint);
      SlashLeads(mountPoint, false, mount);
      CleanLeads(mountPoint + "/", false, mount);
      assert mountPoint + "/" + "" == mountPoint + "/";
      SpelledName(false, mount);
    }
    assert mount + [] == mount;
  }

  /** Distinct new announcements with full names, that say `vs`. */
  ghost predicate Listed(files: seq<FileAnnouncement>, vs: seq<Announcement>)
    reads files
  {
    && Distinct(files)
    && Announce(files, vs)
    && forall i :: 0 <= i < |files| ==> NameParts(files[i].fullName) == vs[i].Path() && !files[i].deletion
  }

  lemma ListedConcat(a: seq<FileAnnouncement>, vs: seq<Announcement>, b: seq<FileAnnouncement>, ws: seq<Announcement>)
    requires Listed(a, vs) && Listed(b, ws) && forall f :: f in a ==> f !in b
    ensures Listed(a + b, vs + ws)
  {
    forall i, j | 0 <= i < j < |a + b| ensures (a + b)[i] != (a + b)[j] {
      if i < |a| <= j {
        assert a[i] in a && b[j - |a|] in b;
      }
    }
  }

  class LocalFs {
    var localRoot: string
    var dfsMountPoint: string
    const dfsRoot: TreeNode
    const me: string
    var lastFullScan: seq<FileAnnouncement>
    var lastFullScanTime: int

    constructor (localRoot: string, mountPoint: string, dfsRoot: TreeNode, me: string)
      ensures this.dfsRoot == dfsRoot && this.me == me && lastFullScan == []
      ensures this.localRoot == if HasSuffix(localRoot, "/") then localRoot else localRoot + "/"
      ensures HasSuffix(this.localRoot, "/")
      ensures if HasPrefix(mountPoint, "/") then "/" + dfsMountPoint == mountPoint else dfsMountPoint == mountPoint
    {
      this.dfsRoot, this.me := dfsRoot, me;
      lastFullScan, lastFullScanTime := [], 0;
      dfsMountPoint := if HasPrefix(mountPoint, "/") then TrimPrefix(mountPoint, "/") else mountPoint;
      this.localRoot := if HasSuffix(localRoot, "/") then localRoot else localRoot + "/";
    }

    /** Opening a file of this node by its DFS name. */
    function OpenRead(dfsPath: string): Option<string>
      reads this
    {
      OpenName(localRoot, dfsMountPoint, dfsPath)
    }

    ghost function ScannedHere(t: Local, name: string, r: seq<string>, scanT: int): seq<Announcement>
      reads this
    {
      Scanned(t, name, localRoot, dfsMountPoint, r, me, scanT)
    }

    /** What the walk does at each node: announces it, unless its DFS name is empty. */
    method Visit(t: Local, path: string, name: string, scanT: int, ghost r: seq<string>)
        returns (files: seq<FileAnnouncement>)
      requires HasSuffix(localRoot, "/") && AllProper(r) && path == WalkedPath(localRoot, r)
      ensures forall f :: f in files ==> fresh(f)
      ensures Listed(files, Visited(t, name, localRoot, dfsMountPoint, r, me, scanT))
      ensures files != [] ==>
                var s := files[0].stat;
                && s.basename == name
                && s.dir == t.Dir?
                && s.size == (if t.Dir? then 0 else t.size)
                && s.lastModified == t.modTime
                && s.mode == t.mode
                && s.lastInfoUpdated == scanT
                && s.owner == me
    {
      VisitedName(localRoot, dfsMountPoint, r);
      hide NameOf, WalkedPath, Join, NameParts, TrimPrefix, HasSuffix, AllProper;
      var fullName := Join(dfsMountPoint, TrimPrefix(path, localRoot));
      if fullName == "" {
        files := [];
      } else {
        var stat := FileStat(name, t.Dir?, t.modTime, scanT, if t.Dir? then 0 else t.size, t.mode, me);
        var fa := new FileAnnouncement(fullName, stat, false);
        files := [fa];
        ghost var p := NameParts(fullName);
        ghost var visited := Announcement(p[0], p[1..], stat);
        assert Visited(t, name, localRoot, dfsMountPoint, r, me, scanT) == [visited];
        hide Visited, StatOf, DfsName;
        assert fa.Parsed() == visited && visited.Path() == p;
      }
    }

    /** Announces the local tree `t`, walked from `path`, at `r` below the root. */
    method WalkLocal(t: Local, path: string, name: string, scanT: int, ghost r: seq<string>)
        returns (files: seq<FileAnnouncement>)
      requires HasSuffix(localRoot, "/") && AllProper(r) && LocalOk(t)
      requires path == WalkedPath(localRoot, r)
      ensures forall f :: f in files ==> fresh(f)
      ensures Listed(files, ScannedHere(t, name, r, scanT))
      decreases t, 1
    {
      hide Visited, WalkedPath;
      files := Visit(t, path, name, scanT, r);
      if t.Dir? {
        label walked:
        var sub := WalkEntries(t.entries, path, scanT, r);
        assert forall f :: f in files ==> old@walked(allocated(f));
        ListedConcat(files, Visited(t, name, localRoot, dfsMountPoint, r, me, scanT),
                     sub, EntriesListing(t.entries, Where(localRoot, dfsMountPoint) + r, me, scanT));
        files := files + sub;
      }
    }

    method WalkEntries(es: Entries, path: string, scanT: int, ghost r: seq<string>)
        returns (files: seq<FileAnnouncement>)
      requires HasSuffix(localRoot, "/") && AllProper(r) && EntriesOk(es)
      requires path == WalkedPath(localRoot, r)
      ensures forall f :: f in files ==> fresh(f)
      ensures Listed(files, EntriesListing(es, Where(localRoot, dfsMountPoint) + r, me, scanT))
      decreases es, 0
    {
      files := [];
      if es.Item? {
        ghost var where := Where(localRoot, dfsMountPoint);
        WalkStep(localRoot, r, es.name);
        assert where + (r + [es.name]) == where + r + [es.name];
        var first := WalkLocal(es.node, Join(path, es.name), es.name, scanT, r + [es.name]);
        label walked:
        var rest := WalkEntries(es.rest, path, scanT, r);
        assert forall f :: f in first ==> old@walked(allocated(f));
        ListedConcat(first, Listing(es.node, es.name, where + r + [es.name], me, scanT),
                     rest, EntriesListing(es.rest, where + r, me, scanT));
        files := first + rest;
      }
    }

    /** One scan: remembers the list for pushing it to peers, and updates the tree. */
    method ScanOnce(t: Local, rootName: string, scanT: int)
      requires dfsRoot.Valid() && HasSuffix(localRoot, "/") && LocalOk(t)
      modifies this`lastFullScan, this`lastFullScanTime, dfsRoot.Repr
      ensures dfsRoot.Valid() && lastFullScanTime == scanT
      ensures Updates(old(dfsRoot.Model), ScannedHere(t, rootName, [], scanT), dfsRoot.Model)
      ensures
        var scanned := ScannedHere(t, rootName, [], scanT);
        && |lastFullScan| == |scanned|
        && forall i :: 0 <= i < |scanned| ==>
             && NameParts(lastFullScan[i].fullName) == scanned[i].Path()
             && lastFullScan[i].stat == scanned[i].stat && !lastFullScan[i].deletion
    {
      hide Updates, Scanned, TreeNode.Valid, Where, NameParts, LocalOk;
      var files := WalkLocal(t, localRoot, rootName, scanT, []);
      lastFullScan, lastFullScanTime := files, scanT;
      ghost var scanned := ScannedHere(t, rootName, [], scanT);
      assert forall i :: 0 <= i < |files| ==> files[i].stat == scanned[i].stat;
      dfsRoot.Update(files, scanned);
    }
  }

  // ---- scanned, found and opened ----

  lemma {:induction false} LocalNamesProper(t: Local, r: seq<string>)
    requires LocalOk(t) && LocalAt(t, r).Some?
    ensures AllProper(r)
    decreases |r|
  {
    if r != [] {
      FoundIsOk(t.entries, r[0]);
      LocalNamesProper(Find(t.entries, r[0]).value, r[1..]);
      assert r == [r[0]] + r[1..];
    }
  }

  lemma {:induction false} FoundIsOk(es: Entries, name: string)
    requires EntriesOk(es) && Find(es, name).Some?
    ensures Proper(name) && LocalOk(Find(es, name).value)
  {
    if es.name != name {
      FoundIsOk(es.rest, name);
    }
  }

  /** A node whose tree, when new, was updated with the scan of its local files has every one
      of them, and every directory: seeking the DFS name finds a node with the local kind,
      size, mode and times, owned by this node; and opening that name opens the local file. */
  lemma ScannedFoundOpened(t: Local, rootName: string, fs: LocalFs, mount: seq<string>, scanT: int, r: seq<string>)
    requires LocalOk(t) && fs.me != "" && scanT > 0
    requires HasSuffix(fs.localRoot, "/") && RootFits(fs.localRoot, Concat(mount)) && AllProper(mount)
    requires fs.dfsMountPoint == Concat(mount) && fs.dfsRoot.Valid()
    requires Updates(NewRoot(), fs.ScannedHere(t, rootName, [], scanT), fs.dfsRoot.Model)
    requires r != [] && LocalAt(t, r).Some?
    ensures
      var path := WalkedPath(fs.localRoot, r);
      var name := DfsName(fs.localRoot, fs.dfsMountPoint, path);
      && fs.OpenRead(name) == Some(path)
      && fs.dfsRoot.Seek(name) != null
      && var s, node := fs.dfsRoot.Seek(name).fileStat, LocalAt(t, r).value;
         && s.basename == r[|r| - 1]
         && s.dir == node.Dir?
         && s.size == (if node.Dir? then 0 else node.size)
         && s.lastModified == node.modTime
         && s.mode == node.mode
         && s.lastInfoUpdated == scanT
         && s.owner == fs.me
  {
    LocalNamesProper(t, r);
    NamedAsListed(t, rootName, fs.localRoot, mount, fs.me, scanT, r);
    hide Updates, Scanned, Listing, LocalOk, WalkedPath, DfsName, LocalAt, Spell;
    var x := mount + r;
    ScanRebuilds(t, rootName, mount, fs.me, scanT, fs.dfsRoot.Model, x);
    assert x[|mount|..] == r && x != mount;
    fs.dfsRoot.SeekFinds(x);
    AtLookup(fs.dfsRoot.Model, x);
    fs.dfsRoot.SeekSpelled(DfsName(fs.localRoot, fs.dfsMountPoint, WalkedPath(fs.localRoot, r)), x);
  }

  /** With a fitting root, what a scan announces is a listing, and a file's name spells its
      path in it, and opens the file. */
  lemma NamedAsListed(t: Local, rootName: string, localRoot: string, mount: seq<string>, me: string, scanT: int,
                      r: seq<string>)
    requires HasSuffix(localRoot, "/") && RootFits(localRoot, Concat(mount)) && AllProper(mount)
    requires AllProper(r) && r != []
    ensures Scanned(t, rootName, localRoot, Concat(mount), [], me, scanT) == Listing(t, rootName, mount, me, scanT)
    ensures
      var path := WalkedPath(localRoot, r);
      var name := DfsName(localRoot, Concat(mount), path);
      Spells(name, mount + r) && OpenName(localRoot, Concat(mount), name) == Some(path)
  {
    hide Scanned, Listing, LocalOk, RootFits, WalkedPath, DfsName, OpenName, Concat;
    ScanIsListing(t, rootName, localRoot, mount, me, scanT);
    FittingOpens(localRoot, Concat(mount), r);
    DfsNameIs(localRoot, Concat(mount), r);
    SpellSpells(NameRooted(localRoot, Concat(mount)), mount + r);
  }
}
