/**
  The string and path functions of Go's standard library that the program relies on
  (packages strings and path/filepath, on a system whose separator is '/').
*/
module Paths {

  // ---- package strings ----

  predicate HasPrefix(s: string, prefix: string) {
    prefix <= s
  }

  function TrimPrefix(s: string, prefix: string): string {
    if prefix <= s then s[|prefix|..] else s
  }

  predicate HasSuffix(s: string, suffix: string) {
    |suffix| <= |s| && s[|s| - |suffix|..] == suffix
  }

  function TrimSuffix(s: string, suffix: string): string {
    if HasSuffix(s, suffix) then s[..|s| - |suffix|] else s
  }

  /** strings.Split(s, "/") */
  function Split(s: string): (parts: seq<string>)
    ensures parts != []
  {
    if s == "" then [""]
    else
      var rest := Split(s[1..]);
      if s[0] == '/' then [""] + rest else [[s[0]] + rest[0]] + rest[1..]
  }

  /** strings.Join(parts, "/") */
  function Concat(parts: seq<string>): string {
    if parts == [] then ""
    else if |parts| == 1 then parts[0]
    else parts[0] + "/" + Concat(parts[1..])
  }

  // ---- package path/filepath ----

  /** One component read while cleaning a path, with `done` the cleaned components so far. */
  function CleanStep(rooted: bool, done: seq<string>, part: string): seq<string> {
    if part == "" || part == "." then done
    else if part != ".." then done + [part]
    else if done != [] && done[|done| - 1] != ".." then done[..|done| - 1]
    else if rooted then done
    else done + [".."]
  }

  function CleanParts(rooted: bool, parts: seq<string>): seq<string> {
    if parts == [] then []
    else CleanStep(rooted, CleanParts(rooted, parts[..|parts| - 1]), parts[|parts| - 1])
  }

  predicate Rooted(path: string) {
    path != "" && path[0] == '/'
  }

  function Clean(path: string): string {
    var parts := CleanParts(Rooted(path), Split(path));
    if Rooted(path) then "/" + Concat(parts)
    else if parts == [] then "."
    else Concat(parts)
  }

  function Join(a: string, b: string): string {
    if a != "" then Clean(a + "/" + b)
    else if b != "" then Clean(b)
    else ""
  }

  // ---- what the program relies on ----

  /** An ordinary path component. */
  predicate Proper(part: string) {
    part != "" && part != "." && part != ".." && '/' !in part
  }

  predicate AllProper(parts: seq<string>) {
    forall p :: p in parts ==> Proper(p)
  }

  lemma PrefixOfConcat(a: string, b: string)
    ensures HasPrefix(a + b, a) && TrimPrefix(a + b, a) == b
  {
  }

  /** Components of some path, ordinary or not. */
  predicate Components(parts: seq<string>) {
    forall p :: p in parts ==> p != "" && '/' !in p
  }

  lemma {:induction false} SplitNoSlash(s: string)
    requires '/' !in s
    ensures Split(s) == [s]
  {
    if s != "" {
      SplitNoSlash(s[1..]);
      assert [s[0]] + s[1..] == s;
    }
  }

  lemma {:induction false} SplitAppend(s: string, t: string)
    ensures Split(s + "/" + t) == Split(s) + Split(t)
  {
    var u := s + "/" + t;
    if s == "" {
      assert u[1..] == t;
    } else {
      assert u[1..] == s[1..] + "/" + t;
      SplitAppend(s[1..], t);
    }
  }

  lemma {:induction false} SplitParts(s: string)
    ensures forall p :: p in Split(s) ==> '/' !in p
  {
    if s != "" {
      SplitParts(s[1..]);
    }
  }

  lemma {:induction false} SplitConcat(parts: seq<string>)
    requires parts != [] && forall p :: p in parts ==> '/' !in p
    ensures Split(Concat(parts)) == parts
  {
    SplitNoSlash(parts[0]);
    if |parts| > 1 {
      SplitConcat(parts[1..]);
      SplitAppend(parts[0], Concat(parts[1..]));
    }
  }

  lemma {:induction false} ConcatSplit(s: string)
    ensures Concat(Split(s)) == s
  {
    if s != "" {
      ConcatSplit(s[1..]);
      var rest := Split(s[1..]);
      if s[0] == '/' {
        assert ([""] + rest)[1..] == rest;
      } else {
        assert ([[s[0]] + rest[0]] + rest[1..])[1..] == rest[1..];
        assert s == [s[0]] + s[1..];
      }
    }
  }

  lemma {:induction false} ConcatSnoc(parts: seq<string>, part: string)
    requires parts != []
    ensures Concat(parts + [part]) == Concat(parts) + "/" + part
  {
    assert (parts + [part])[1..] == parts[1..] + [part];
    if |parts| > 1 {
      ConcatSnoc(parts[1..], part);
    }
  }

  lemma {:induction false} ConcatAppend(a: seq<string>, b: seq<string>)
    requires a != [] && b != []
    ensures Concat(a + b) == Concat(a) + "/" + Concat(b)
  {
    assert (a + b)[1..] == a[1..] + b;
    if |a| > 1 {
      ConcatAppend(a[1..], b);
    }
  }

  lemma ConcatStart(parts: seq<string>)
    requires parts != [] && Components(parts)
    ensures Concat(parts) != "" && Concat(parts)[0] != '/'
  {
    assert parts[0] in parts;
    assert parts[0][0] in parts[0];
  }

  lemma {:induction false} CleanProper(rooted: bool, parts: seq<string>)
    requires AllProper(parts)
    ensures CleanParts(rooted, parts) == parts
  {
    if parts != [] {
      assert parts[|parts| - 1] in parts;
      CleanProper(rooted, parts[..|parts| - 1]);
    }
  }

  /** Extending a clean path. */
  lemma {:induction false} CleanPartsConcat(rooted: bool, a: seq<string>, b: seq<string>)
    requires AllProper(b)
    ensures CleanParts(rooted, a + b) == CleanParts(rooted, a) + b
    decreases |b|
  {
    if b == [] {
      assert a + b == a;
    } else {
      assert b[|b| - 1] in b;
      assert (a + b)[..|a + b| - 1] == a + b[..|b| - 1];
      CleanPartsConcat(rooted, a, b[..|b| - 1]);
    }
  }

  lemma CleanConcat(parts: seq<string>)
    requires parts != [] && AllProper(parts)
    ensures Clean(Concat(parts)) == Concat(parts)
  {
    ConcatStart(parts);
    SplitConcat(parts);
    CleanProper(false, parts);
  }

  /** Joining a name to a clean relative path appends a component. */
  lemma JoinName(base: seq<string>, name: string)
    requires AllProper(base) && Proper(name)
    ensures Join(Concat(base), name) == Concat(base + [name])
  {
    if base == [] {
      assert base + [name] == [name];
      CleanConcat([name]);
    } else {
      ConcatStart(base);
      ConcatSnoc(base, name);
      assert base + [name] != [];
      CleanConcat(base + [name]);
    }
  }

  lemma {:induction false} ConcatEnd(parts: seq<string>)
    requires parts != [] && Components(parts)
    ensures Concat(parts) != "" && Concat(parts)[|Concat(parts)| - 1] != '/'
  {
    if |parts| == 1 {
      assert parts[0] in parts;
      assert parts[0][|parts[0]| - 1] in parts[0];
    } else {
      assert forall p :: p in parts[1..] ==> p in parts;
      ConcatEnd(parts[1..]);
    }
  }

  /** `path` spells the components `parts`, with or without a slash at either end. */
  predicate Spells(path: string, parts: seq<string>) {
    path in {Concat(parts), "/" + Concat(parts), Concat(parts) + "/", "/" + Concat(parts) + "/"}
  }

  lemma TrimsSlashes(path: string, s: string)
    requires s != "" && s[0] != '/' && s[|s| - 1] != '/'
    requires path in {s, "/" + s, s + "/", "/" + s + "/"}
    ensures TrimSuffix(TrimPrefix(path, "/"), "/") == s
    ensures TrimPrefix(TrimSuffix(path, "/"), "/") == s
  {
    if path == "/" + s + "/" {
      assert path[1..] == s + "/" && path[..|s| + 1] == "/" + s;
    }
  }

  lemma SpelledParts(path: string, parts: seq<string>)
    requires parts != [] && AllProper(parts) && Spells(path, parts)
    ensures path != "" && Split(TrimSuffix(TrimPrefix(path, "/"), "/")) == parts
    ensures Split(TrimPrefix(TrimSuffix(path, "/"), "/")) == parts
  {
    ConcatStart(parts);
    ConcatEnd(parts);
    SplitConcat(parts);
    TrimsSlashes(path, Concat(parts));
  }

  // ---- clean paths, rooted or relative ----

  /** The clean path with these components. */
  function Spell(rooted: bool, parts: seq<string>): string {
    (if rooted then "/" else "") + Concat(parts)
  }

  lemma SpellSpells(rooted: bool, parts: seq<string>)
    ensures Spells(Spell(rooted, parts), parts)
  {
    assert Spell(false, parts) == Concat(parts);
  }

  /** `path` leads where the clean path with these components does. */
  predicate LeadsTo(path: string, rooted: bool, parts: seq<string>) {
    path != "" && Rooted(path) == rooted && CleanParts(rooted, Split(path)) == parts
  }

  lemma CleanEmptyParts(rooted: bool, parts: seq<string>)
    ensures CleanParts(rooted, parts + [""]) == CleanParts(rooted, parts)
  {
    assert (parts + [""])[..|parts|] == parts;
  }

  /** Components as cleaning leaves them: ordinary ones, after any number of ".." if the path
      is relative. */
  predicate IsClean(rooted: bool, parts: seq<string>) {
    Components(parts) && CleanParts(rooted, parts) == parts
  }

  lemma SpellLeads(rooted: bool, parts: seq<string>)
    requires IsClean(rooted, parts) && (rooted || parts != [])
    ensures LeadsTo(Spell(rooted, parts), rooted, parts)
  {
    if parts == [] {
      RootLeads();
    } else {
      ConcatStart(parts);
      SplitConcat(parts);
      if rooted {
        SplitAppend("", Concat(parts));
        assert "" + "/" + Concat(parts) == "/" + Concat(parts);
        EmptyFirst(true, parts);
      } else {
        assert Spell(false, parts) == Concat(parts);
      }
    }
  }

  lemma ProperIsClean(rooted: bool, parts: seq<string>)
    requires AllProper(parts)
    ensures IsClean(rooted, parts)
  {
    CleanProper(rooted, parts);
  }

  lemma RootLeads()
    ensures LeadsTo("/", true, [])
  {
    assert Split("/") == [""] + [""];
    CleanEmptyParts(true, [""]);
    CleanEmptyParts(true, []);
    assert [] + [""] == [""];
  }

  /** A slash at the end changes nothing. */
  lemma SlashLeads(path: string, rooted: bool, parts: seq<string>)
    requires LeadsTo(path, rooted, parts)
    ensures LeadsTo(path + "/", rooted, parts)
  {
    SplitAppend(path, "");
    assert path + "/" + "" == path + "/";
    CleanEmptyParts(rooted, Split(path));
  }

  lemma BelowLeads(path: string, rooted: bool, base: seq<string>, parts: seq<string>)
    requires LeadsTo(path, rooted, base) && AllProper(parts) && parts != []
    ensures LeadsTo(path + "/" + Concat(parts), rooted, base + parts)
  {
    SplitAppend(path, Concat(parts));
    SplitConcat(parts);
    CleanPartsConcat(rooted, Split(path), parts);
  }

  lemma CleanLeads(path: string, rooted: bool, parts: seq<string>)
    requires LeadsTo(path, rooted, parts) && (rooted || parts != [])
    ensures Clean(path) == Spell(rooted, parts)
  {
  }

  /** Joining components to a path, with or without a slash before them. */
  lemma JoinBelow(path: string, rooted: bool, base: seq<string>, rest: string, parts: seq<string>)
    requires LeadsTo(path, rooted, base) && AllProper(parts) && parts != []
    requires rest == Concat(parts) || rest == "/" + Concat(parts)
    ensures Join(path, rest) == Spell(rooted, base + parts)
  {
    if rest == Concat(parts) {
      BelowLeads(path, rooted, base, parts);
    } else {
      SlashLeads(path, rooted, base);
      BelowLeads(path + "/", rooted, base, parts);
      assert path + "/" + rest == path + "/" + "/" + Concat(parts);
    }
    CleanLeads(path + "/" + rest, rooted, base + parts);
  }

  // ---- what cleaning keeps ----

  /** Where a component leads from a directory. */
  function WalkedStep(dir: seq<string>, part: string): seq<string> {
    if part == "" || part == "." || (part == ".." && dir == []) then dir
    else if part == ".." then dir[..|dir| - 1]
    else dir + [part]
  }

  /** Where the components lead from the directory `base`. */
  function Walked(base: seq<string>, parts: seq<string>): seq<string> {
    if parts == [] then base else WalkedStep(Walked(base, parts[..|parts| - 1]), parts[|parts| - 1])
  }

  /** `n` times "..". */
  function Ups(n: nat): seq<string> {
    seq(n, _ => "..")
  }

  /** Cleaning leaves a relative path where it leads, from any directory: it becomes some
      number of ".." and ordinary components. */
  lemma {:induction false} CleanKeepsPlace(parts: seq<string>, base: seq<string>) returns (n: nat, rest: seq<string>)
    requires forall p :: p in parts ==> '/' !in p
    ensures CleanParts(false, parts) == Ups(n) + rest && AllProper(rest)
    ensures Walked(base, CleanParts(false, parts)) == Walked(base, parts)
  {
    if parts == [] {
      n, rest := 0, [];
    } else {
      var front, part := parts[..|parts| - 1], parts[|parts| - 1];
      assert part in parts;
      n, rest := CleanKeepsPlace(front, base);
      hide AllProper, Ups, WalkedStep, CleanStep;
      n, rest := StepKeepsPlace(CleanParts(false, front), n, rest, part, base);
    }
  }

  /** And a rooted path where it leads from the root, of ordinary components only. */
  lemma {:induction false} RootedKeepsPlace(parts: seq<string>)
    requires forall p :: p in parts ==> '/' !in p
    ensures CleanParts(true, parts) == Walked([], parts) && AllProper(CleanParts(true, parts))
  {
    RootedParts(parts);
    if parts != [] {
      var front := parts[..|parts| - 1];
      RootedKeepsPlace(front);
      var done := CleanParts(true, front);
      assert done != [] ==> done[|done| - 1] in done;
    }
  }

  lemma StepKeepsPlace(done: seq<string>, n: nat, rest: seq<string>, part: string, base: seq<string>)
      returns (n': nat, rest': seq<string>)
    requires done == Ups(n) + rest && AllProper(rest) && '/' !in part
    ensures CleanStep(false, done, part) == Ups(n') + rest' && AllProper(rest')
    ensures Walked(base, CleanStep(false, done, part)) == WalkedStep(Walked(base, done), part)
  {
    assert (done + [part])[..|done|] == done;
    n', rest' := n, rest;
    if part == "" || part == "." {
    } else if part != ".." {
      rest' := rest + [part];
    } else if rest != [] {
      var last := rest[|rest| - 1];
      assert last in rest && done[|done| - 1] == last;
      rest' := rest[..|rest| - 1];
      assert done[..|done| - 1] == Ups(n) + rest';
      var dir := Walked(base, done[..|done| - 1]);
      assert (dir + [last])[..|dir|] == dir;
    } else {
      n' := n + 1;
      assert Ups(n) + [".."] == Ups(n + 1);
    }
  }

  lemma {:induction false} WalkedUps(base: seq<string>, n: nat)
    requires n <= |base|
    ensures Walked(base, Ups(n)) == base[..|base| - n]
    decreases n
  {
    if n > 0 {
      assert Ups(n)[..n - 1] == Ups(n - 1);
      WalkedUps(base, n - 1);
    }
  }

  lemma {:induction false} WalkedProper(base: seq<string>, a: seq<string>, b: seq<string>)
    requires AllProper(b)
    ensures Walked(base, a + b) == Walked(base, a) + b
    decreases |b|
  {
    if b == [] {
      assert a + b == a;
    } else {
      assert b[|b| - 1] in b;
      assert (a + b)[..|a + b| - 1] == a + b[..|b| - 1];
      WalkedProper(base, a, b[..|b| - 1]);
    }
  }

  lemma {:induction false} WalkedOn(base: seq<string>, a: seq<string>, b: seq<string>)
    ensures Walked(base, a + b) == Walked(Walked(base, a), b)
    decreases |b|
  {
    if b == [] {
      assert a + b == a;
    } else {
      assert (a + b)[..|a + b| - 1] == a + b[..|b| - 1];
      WalkedOn(base, a, b[..|b| - 1]);
    }
  }

  /** Relative paths are cleaned alike exactly if they lead to the same place from every
      directory. */
  lemma CleanSameIff(a: seq<string>, b: seq<string>)
    requires (forall p :: p in a ==> '/' !in p) && (forall p :: p in b ==> '/' !in p)
    ensures CleanParts(false, a) == CleanParts(false, b)
      <==> forall base :: AllProper(base) ==> Walked(base, a) == Walked(base, b)
  {
    assert Proper("x") && Proper("y");
    hide CleanParts, Walked, Proper;
    forall base ensures Walked(base, CleanParts(false, a)) == Walked(base, a)
                     && Walked(base, CleanParts(false, b)) == Walked(base, b) {
      var _, _ := CleanKeepsPlace(a, base);
      var _, _ := CleanKeepsPlace(b, base);
    }
    if forall base :: AllProper(base) ==> Walked(base, a) == Walked(base, b) {
      var n, r := CleanKeepsPlace(a, []);
      var m, s := CleanKeepsPlace(b, []);
      var k := if n < m then m else n;
      SomewhereElse(n, r, m, s, k);
    }
  }

  function Deep(name: string, k: nat): (base: seq<string>)
    ensures |base| == k && forall i :: 0 <= i < k ==> base[i] == name
    ensures Proper(name) ==> AllProper(base)
  {
    seq(k, _ => name)
  }

  /** Two deep directories tell clean paths apart. */
  lemma SomewhereElse(n: nat, r: seq<string>, m: nat, s: seq<string>, k: nat)
    requires AllProper(r) && AllProper(s) && n <= k && m <= k
    requires
      var xs, ys := Deep("x", k), Deep("y", k);
      Walked(xs, Ups(n) + r) == Walked(xs, Ups(m) + s) && Walked(ys, Ups(n) + r) == Walked(ys, Ups(m) + s)
    ensures n == m && r == s
  {
    hide Walked, Ups, AllProper;
    var xs, ys := Deep("x", k), Deep("y", k);
    UpsAndDown(xs, n, r);
    UpsAndDown(xs, m, s);
    UpsAndDown(ys, n, r);
    UpsAndDown(ys, m, s);
    if n < m {
      FirstOfRest(xs[..k - m], s, xs[..k - n], r);
      FirstOfRest(ys[..k - m], s, ys[..k - n], r);
    } else if m < n {
      FirstOfRest(xs[..k - n], r, xs[..k - m], s);
      FirstOfRest(ys[..k - n], r, ys[..k - m], s);
    } else {
      SameFront(xs[..k - n], r, s);
    }
  }

  lemma SameFront(a: seq<string>, r: seq<string>, s: seq<string>)
    requires a + r == a + s
    ensures r == s
  {
    assert (a + r)[|a|..] == r && (a + s)[|a|..] == s;
  }

  lemma UpsAndDown(base: seq<string>, n: nat, rest: seq<string>)
    requires n <= |base| && AllProper(rest)
    ensures Walked(base, Ups(n) + rest) == base[..|base| - n] + rest
  {
    WalkedUps(base, n);
    WalkedProper(base, Ups(n), rest);
  }

  lemma FirstOfRest(a: seq<string>, r: seq<string>, b: seq<string>, s: seq<string>)
    requires a + r == b + s
    ensures |a| < |b| ==> r != [] && r[0] == b[|a|]
  {
    if |a| < |b| {
      assert (b + s)[|a|] == b[|a|] && (a + r)[|a|] == r[0];
    }
  }

  /** What cleaning removes, component by component. */
  lemma CleanRemoves(rooted: bool, a: seq<string>, x: string)
    ensures CleanParts(rooted, a + [""]) == CleanParts(rooted, a)
    ensures CleanParts(rooted, a + ["."]) == CleanParts(rooted, a)
    ensures Proper(x) ==> CleanParts(rooted, a + [x, ".."]) == CleanParts(rooted, a)
  {
    assert (a + [""])[..|a|] == a && (a + ["."])[..|a|] == a;
    if Proper(x) {
      assert (a + [x, ".."])[..|a| + 1] == a + [x] && (a + [x])[..|a|] == a;
      var done := CleanParts(rooted, a);
      assert (done + [x])[..|done|] == done;
    }
  }

  /** Leading ".." of a relative path stay; those of a rooted one lead nowhere. */
  lemma {:induction false} UpsStay(n: nat, parts: seq<string>)
    requires AllProper(parts)
    ensures CleanParts(false, Ups(n) + parts) == Ups(n) + parts
    ensures CleanParts(true, Ups(n) + parts) == parts
    decreases n
  {
    if n > 0 {
      assert Ups(n)[..n - 1] == Ups(n - 1);
      UpsStay(n - 1, []);
      assert Ups(n - 1) + [] == Ups(n - 1);
      assert Ups(n - 1) + [".."] == Ups(n);
    }
    assert CleanParts(false, Ups(n)) == Ups(n) && CleanParts(true, Ups(n)) == [];
    CleanPartsConcat(false, Ups(n), parts);
    CleanPartsConcat(true, Ups(n), parts);
    assert [] + parts == parts;
  }

  /** Components that are cleaned alike still are with others after them. */
  lemma {:induction false} CleanCongruent(rooted: bool, a: seq<string>, b: seq<string>, c: seq<string>)
    requires CleanParts(rooted, a) == CleanParts(rooted, b)
    ensures CleanParts(rooted, a + c) == CleanParts(rooted, b + c)
    decreases |c|
  {
    if c == [] {
      assert a + c == a && b + c == b;
    } else {
      assert (a + c)[..|a + c| - 1] == a + c[..|c| - 1];
      assert (b + c)[..|b + c| - 1] == b + c[..|c| - 1];
      CleanCongruent(rooted, a, b, c[..|c| - 1]);
    }
  }

  /** Cleaning a rooted path leaves ordinary components only. */
  lemma {:induction false} RootedParts(parts: seq<string>)
    requires forall p :: p in parts ==> '/' !in p
    ensures AllProper(CleanParts(true, parts))
  {
    if parts != [] {
      var front := parts[..|parts| - 1];
      assert parts[|parts| - 1] in parts;
      RootedParts(front);
      var done := CleanParts(true, front);
      if done != [] {
        assert forall p :: p in done[..|done| - 1] ==> p in done;
        assert done[|done| - 1] in done;
      }
    }
  }

  // ---- cleaning never makes a path longer ----

  /** The components' lengths, a slash counted for each. */
  function Weight(parts: seq<string>): nat {
    if parts == [] then 0 else Weight(parts[..|parts| - 1]) + |parts[|parts| - 1]| + 1
  }

  lemma {:induction false} WeightConcat(a: seq<string>, b: seq<string>)
    ensures Weight(a + b) == Weight(a) + Weight(b)
    decreases |b|
  {
    if b == [] {
      assert a + b == a;
    } else {
      assert (a + b)[..|a + b| - 1] == a + b[..|b| - 1];
      WeightConcat(a, b[..|b| - 1]);
    }
  }

  lemma {:induction false} SpelledLength(parts: seq<string>)
    requires parts != []
    ensures |Concat(parts)| == Weight(parts) - 1
  {
    var front, part := parts[..|parts| - 1], parts[|parts| - 1];
    assert parts == front + [part];
    if front != [] {
      SpelledLength(front);
      ConcatSnoc(front, part);
    }
  }

  lemma {:induction false} CleanWeight(rooted: bool, parts: seq<string>)
    ensures Weight(CleanParts(rooted, parts)) <= Weight(parts)
  {
    if parts != [] {
      CleanWeight(rooted, parts[..|parts| - 1]);
      var done, part := CleanParts(rooted, parts[..|parts| - 1]), parts[|parts| - 1];
      WeightConcat(done, [part]);
      WeightConcat(done, [".."]);
    }
  }

  lemma {:induction false} EmptyFirst(rooted: bool, parts: seq<string>)
    ensures CleanParts(rooted, [""] + parts) == CleanParts(rooted, parts)
    decreases |parts|
  {
    if parts == [] {
      assert [""] + parts == [""];
      CleanEmptyParts(rooted, []);
      assert [] + [""] == [""];
    } else {
      assert ([""] + parts)[..|parts|] == [""] + parts[..|parts| - 1];
      EmptyFirst(rooted, parts[..|parts| - 1]);
    }
  }

  /** The components of a path, cleaned. */
  function Parts(path: string): seq<string> {
    CleanParts(Rooted(path), Split(path))
  }

  lemma CleanShorter(path: string)
    requires path != ""
    ensures |Spell(Rooted(path), Parts(path))| <= |path|
  {
    ConcatSplit(path);
    SpelledLength(Split(path));
    var parts := Parts(path);
    if Rooted(path) {
      var rest := Split(path[1..]);
      assert Split(path) == [""] + rest;
      EmptyFirst(true, rest);
      CleanWeight(true, rest);
      WeightConcat([""], rest);
    } else {
      CleanWeight(false, Split(path));
    }
    if parts != [] {
      SpelledLength(parts);
    }
  }

  // ---- clean components ----

  lemma {:induction false} CleanMembers(rooted: bool, parts: seq<string>)
    requires forall p :: p in parts ==> '/' !in p
    ensures Components(CleanParts(rooted, parts)) && "." !in CleanParts(rooted, parts)
    ensures |CleanParts(rooted, parts)| <= |parts|
  {
    if parts != [] {
      var front := parts[..|parts| - 1];
      assert parts[|parts| - 1] in parts;
      CleanMembers(rooted, front);
      var done := CleanParts(rooted, front);
      if done != [] {
        assert forall p :: p in done[..|done| - 1] ==> p in done;
      }
    }
  }

  lemma PrefixClean(rooted: bool, parts: seq<string>)
    requires parts != [] && IsClean(rooted, parts)
    ensures IsClean(rooted, parts[..|parts| - 1])
  {
    var front := parts[..|parts| - 1];
    assert forall p :: p in front ==> p in parts;
    CleanMembers(rooted, front);
    var done := CleanParts(rooted, front);
    assert parts == CleanStep(rooted, done, parts[|parts| - 1]);
    assert |done| == |front| ==> done == parts[..|parts| - 1];
  }

  lemma {:induction false} AnyPrefixClean(rooted: bool, parts: seq<string>, n: nat)
    requires n <= |parts| && IsClean(rooted, parts)
    ensures IsClean(rooted, parts[..n])
    decreases |parts|
  {
    if n == |parts| {
      assert parts[..n] == parts;
    } else {
      PrefixClean(rooted, parts);
      AnyPrefixClean(rooted, parts[..|parts| - 1], n);
      assert parts[..|parts| - 1][..n] == parts[..n];
    }
  }

  lemma {:induction false} CleanIsClean(rooted: bool, parts: seq<string>)
    requires forall p :: p in parts ==> '/' !in p
    ensures IsClean(rooted, CleanParts(rooted, parts))
  {
    CleanMembers(rooted, parts);
    if parts != [] {
      var front, part := parts[..|parts| - 1], parts[|parts| - 1];
      CleanIsClean(rooted, front);
      var done := CleanParts(rooted, front);
      if part == ".." && done != [] && done[|done| - 1] != ".." {
        PrefixClean(rooted, done);
      } else {
        assert (done + [part])[..|done|] == done;
      }
    }
  }

  lemma PartsClean(path: string)
    ensures IsClean(Rooted(path), Parts(path)) && "." !in Parts(path)
    ensures path != "" ==> LeadsTo(path, Rooted(path), Parts(path))
  {
    SplitParts(path);
    CleanIsClean(Rooted(path), Split(path));
    CleanMembers(Rooted(path), Split(path));
  }

  lemma BelowIsClean(rooted: bool, base: seq<string>, parts: seq<string>)
    requires IsClean(rooted, base) && AllProper(parts)
    ensures IsClean(rooted, base + parts)
  {
    CleanPartsConcat(rooted, base, parts);
  }

  /** Clean components are determined by their spelling. */
  lemma SpellInjective(rooted: bool, a: seq<string>, b: seq<string>)
    requires Components(a) && Components(b) && Spell(rooted, a) == Spell(rooted, b)
    ensures a == b
  {
    PrefixOfConcat(if rooted then "/" else "", Concat(a));
    PrefixOfConcat(if rooted then "/" else "", Concat(b));
    if a != [] {
      ConcatStart(a);
      SplitConcat(a);
    }
    if b != [] {
      ConcatStart(b);
      SplitConcat(b);
    }
  }

  /** What cleaning makes of a path, in components. */
  lemma CleanSpells(path: string)
    requires path != ""
    ensures Clean(path) == if !Rooted(path) && Parts(path) == [] then "." else Spell(Rooted(path), Parts(path))
    ensures Clean(path) != "" && Rooted(Clean(path)) == Rooted(path) && Parts(Clean(path)) == Parts(path)
    ensures Clean(path) == "." <==> !Rooted(path) && Parts(path) == []
    ensures Clean(path) == "/" <==> Rooted(path) && Parts(path) == []
  {
    PartsClean(path);
    var parts := Parts(path);
    if parts != [] {
      ConcatStart(parts);
      SpellLeads(Rooted(path), parts);
      SplitConcat(parts);
      assert Spell(false, parts) == Concat(parts);
      DotLeads();
      assert Concat(parts) == "." ==> parts == ["."];
      assert ["."][0] in ["."];
    } else {
      RootLeads();
      DotLeads();
    }
  }

  lemma DotLeads()
    ensures Split(".") == ["."] && LeadsTo(".", false, [])
  {
    SplitNoSlash(".");
    assert ["."][..0] == [];
  }

  lemma CleanInjective(path: string, path': string)
    requires path != "" && path' != "" && Rooted(path) == Rooted(path')
    ensures Clean(path) == Clean(path') <==> Parts(path) == Parts(path')
  {
    CleanSpells(path);
    CleanSpells(path');
  }
}
