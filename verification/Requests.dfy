/**
  The request for a file that one node sends to another: how it is spelled as a URL, and
  what the receiver makes of it. The file's name goes into the URL as it is, so a receiver
  may be asked for something else.
*/
module Requests {
  import opened Paths
  import opened Wrappers

  /** Redirect counts are 64-bit integers. */
  type Count = n: int | -0x8000_0000_0000_0000 <= n < 0x8000_0000_0000_0000

  // ---- package strconv ----

  function DigitChar(d: nat): char
    requires d < 10
  {
    ('0' as int + d) as char
  }

  predicate IsDigit(c: char) {
    '0' <= c <= '9'
  }

  function Digits(n: nat): string {
    if n < 10 then [DigitChar(n)] else Digits(n / 10) + [DigitChar(n % 10)]
  }

  /** The verb %d. */
  function Decimal(n: int): string {
    if n < 0 then "-" + Digits(-n) else Digits(n)
  }

  function DigitValue(c: char): nat
    requires IsDigit(c)
  {
    c as int - '0' as int
  }

  function Number(s: string): nat
    requires forall c :: c in s ==> IsDigit(c)
  {
    if s == "" then 0
    else
      assert s[|s| - 1] in s;
      10 * Number(s[..|s| - 1]) + DigitValue(s[|s| - 1])
  }

  /** strconv.Atoi; None is an error. */
  function Atoi(s: string): Option<Count> {
    var signed := s != "" && (s[0] == '-' || s[0] == '+');
    var digits := if signed then s[1..] else s;
    if digits == "" || exists c :: c in digits && !IsDigit(c) then None
    else
      var n: int := if signed && s[0] == '-' then 0 - Number(digits) else Number(digits);
      if -0x8000_0000_0000_0000 <= n < 0x8000_0000_0000_0000 then Some(n) else None
  }

  lemma {:induction false} NumberOfDigits(n: nat)
    ensures Digits(n) != "" && (forall c :: c in Digits(n) ==> IsDigit(c)) && Number(Digits(n)) == n
  {
    if n >= 10 {
      NumberOfDigits(n / 10);
      var d := Digits(n);
      assert d[..|d| - 1] == Digits(n / 10);
    }
  }

  lemma AtoiDigits(s: string)
    requires s != "" && forall c :: c in s ==> IsDigit(c)
    ensures Number(s) < 0x8000_0000_0000_0000 ==> Atoi(s) == Some(Number(s))
    ensures Number(s) <= 0x8000_0000_0000_0000 ==> Atoi("-" + s) == Some(0 - Number(s))
  {
    hide Number;
    assert s[0] in s && ("-" + s)[1..] == s;
  }

  lemma AtoiDecimal(n: Count)
    ensures Atoi(Decimal(n)) == Some(n)
    ensures forall c :: c in Decimal(n) ==> IsDigit(c) || c == '-'
  {
    hide Atoi;
    var m: int := n;
    var abs := if m < 0 then 0 - m else m;
    NumberOfDigits(abs);
    AtoiDigits(Digits(abs));
  }

  // ---- package net/url ----

  /** What comes before and after the first of the separators; the latter is empty if there
      is none. */
  function Cut(s: string, separators: set<char>): (string, string) {
    if s == "" then ("", "")
    else if s[0] in separators then ("", s[1..])
    else
      var (a, b) := Cut(s[1..], separators);
      ([s[0]] + a, b)
  }

  function HexValue(c: char): Option<nat> {
    if '0' <= c <= '9' then Some(c as int - '0' as int)
    else if 'a' <= c <= 'f' then Some(c as int - 'a' as int + 10)
    else if 'A' <= c <= 'F' then Some(c as int - 'A' as int + 10)
    else None
  }

  /** Decodes %XX, and in a query '+'; None is an error. */
  function Unescape(s: string, query: bool): Option<string> {
    if s == "" then Some("")
    else if s[0] == '%' then
      if |s| < 3 || HexValue(s[1]).None? || HexValue(s[2]).None? then None
      else
        var rest := Unescape(s[3..], query);
        if rest.None? then None
        else Some([(16 * HexValue(s[1]).value + HexValue(s[2]).value) as char] + rest.value)
    else
      var rest := Unescape(s[1..], query);
      if rest.None? then None
      else Some([if query && s[0] == '+' then ' ' else s[0]] + rest.value)
  }

  /** The first value of a parameter; pairs that cannot be decoded are passed over. */
  function Param(query: string, key: string): string
    decreases |query|
  {
    if query == "" then ""
    else
      var (pair, rest) := Cut(query, {'&', ';'});
      var (k, v) := Cut(pair, {'='});
      CutShorter(query, {'&', ';'});
      if pair != "" && Unescape(k, true) == Some(key) && Unescape(v, true).Some? then Unescape(v, true).value
      else Param(rest, key)
  }

  lemma {:induction false} CutShorter(s: string, separators: set<char>)
    ensures |Cut(s, separators).0| <= |s|
    ensures s != "" ==> |Cut(s, separators).1| < |s|
    ensures (exists c :: c in s && c in separators) ==> |Cut(s, separators).0| < |s|
  {
    if s != "" {
      CutShorter(s[1..], separators);
    }
  }

  // ---- a request ----

  /** What asking a node for a file comes to: a request for some path with some redirect
      count; a page that is no file; a request the server refuses; or no valid URL. */
  datatype Request =
    | Ask(path: string, redirects: Count)
    | Page
    | Refused
    | Invalid

  /** The URL after "http://" and the address, with its redirect count. */
  function Url(path: string, redirects: Count): string {
    "/fs/" + path + "?redirN=" + Decimal(redirects)
  }

  /** The receiver takes the URL apart, its server cleans the path, and the handler of files
      takes what follows "/fs/" for the path, and 0 for a missing or bad count. */
  function Receive(url: string): Request {
    var (located, fragment) := Cut(url, {'#'});
    var (escaped, query) := Cut(located, {'?'});
    var path := Unescape(escaped, false);
    if path.None? || Unescape(fragment, false).None? then Invalid
    else if exists c :: c in query && c <= ' ' then Refused
    else
      var parts := CleanParts(true, Split(path.value));
      if parts == [] || parts[0] != "fs" then Page
      else
        var count := Atoi(Param(query, "redirN"));
        Ask(Concat(parts[1..]), if count.None? then 0 else count.value)
  }

  predicate Plain(path: string) {
    '#' !in path && '?' !in path && '%' !in path
  }

  predicate Lacks(s: string, chars: set<char>) {
    forall c :: c in s ==> c !in chars
  }

  lemma LacksConcat(a: string, b: string, chars: set<char>)
    ensures Lacks(a + b, chars) <==> Lacks(a, chars) && Lacks(b, chars)
  {
    assert forall c :: c in a + b <==> c in a || c in b;
  }

  lemma {:induction false} CutAt(a: string, separators: set<char>, separator: string, b: string)
    requires Lacks(a, separators) && |separator| == 1 && separator[0] in separators
    ensures Cut(a + separator + b, separators) == (a, b)
  {
    var s := a + separator + b;
    if a == "" {
      assert s[1..] == b;
    } else {
      assert a[0] in a && s[1..] == a[1..] + separator + b;
      CutAt(a[1..], separators, separator, b);
      assert [a[0]] + a[1..] == a;
    }
  }

  lemma {:induction false} CutNowhere(s: string, separators: set<char>)
    requires Lacks(s, separators)
    ensures Cut(s, separators) == (s, "")
  {
    if s != "" {
      assert s[0] in s;
      CutNowhere(s[1..], separators);
      assert [s[0]] + s[1..] == s;
    }
  }

  lemma {:induction false} NothingEscaped(s: string, query: bool)
    requires '%' !in s && (query ==> '+' !in s)
    ensures Unescape(s, query) == Some(s)
  {
    if s != "" {
      assert s[0] in s;
      NothingEscaped(s[1..], query);
      assert [s[0]] + s[1..] == s;
    }
  }

  lemma {:induction false} UnescapedShorter(s: string, query: bool)
    requires Unescape(s, query).Some?
    ensures |Unescape(s, query).value| <= |s|
    ensures '%' in s ==> |Unescape(s, query).value| < |s|
  {
    if s != "" {
      if s[0] == '%' {
        UnescapedShorter(s[3..], query);
      } else {
        UnescapedShorter(s[1..], query);
      }
    }
  }

  /** The query that carries the redirect count. */
  function CountQuery(n: Count): string {
    "redirN=" + Decimal(n)
  }

  lemma CountArrives(n: Count)
    ensures Atoi(Param(CountQuery(n), "redirN")) == Some(n)
    ensures forall c :: c in CountQuery(n) ==> c > ' ' && c != '#' && c != '?' && c != '%'
  {
    AtoiDecimal(n);
    hide Cut, Unescape, Param, Atoi, Decimal;
    var key, d := "redirN", Decimal(n);
    assert forall c :: c in key ==> 'N' <= c <= 'r';
    assert forall c :: c in d ==> '-' <= c <= '9' && c != ';';
    assert forall c :: c in CountQuery(n) ==> c in key || c == '=' || c in d;
    NothingEscaped(key, true);
    NothingEscaped(d, true);
    OnePair(key, d);
    assert CountQuery(n) == key + "=" + d;
  }

  lemma OnePair(key: string, value: string)
    requires Lacks(key, {'&', ';', '='}) && Lacks(value, {'&', ';'}) && key != ""
    requires Unescape(key, true) == Some(key) && Unescape(value, true) == Some(value)
    ensures Param(key + "=" + value, key) == value
  {
    hide Cut, Unescape;
    var pair := key + "=" + value;
    assert forall c :: c in pair ==> c in key || c == '=' || c in value;
    CutNowhere(pair, {'&', ';'});
    CutAt(key, {'='}, "=", value);
  }

  lemma UrlSplit(path: string, n: Count)
    ensures Url(path, n) == "/fs/" + path + "?" + CountQuery(n)
  {
  }

  /** How a URL whose path has no '#' or '?' is taken apart. */
  lemma UrlParts(path: string, n: Count)
    requires Lacks(path, {'#', '?'})
    ensures Cut(Url(path, n), {'#'}) == (Url(path, n), "")
    ensures Cut(Url(path, n), {'?'}) == ("/fs/" + path, CountQuery(n))
  {
    UrlSplit(path, n);
    CountArrives(n);
    hide Cut, Url, CountQuery;
    LacksConcat("/fs/", path, {'#'});
    LacksConcat("/fs/", path, {'?'});
    LacksConcat("/fs/" + path, "?", {'#'});
    LacksConcat("/fs/" + path + "?", CountQuery(n), {'#'});
    CutNowhere(Url(path, n), {'#'});
    CutAt("/fs/" + path, {'?'}, "?", CountQuery(n));
  }

  lemma PlainArrives(parts: seq<string>, n: Count)
    requires AllProper(parts) && parts != [] && Plain(Concat(parts))
    ensures Receive(Url(Concat(parts), n)) == Ask(Concat(parts), n)
  {
    hide Cut, Unescape, Url, CountQuery, Param, Atoi;
    var path := Concat(parts);
    UrlParts(path, n);
    NothingEscaped("/fs/" + path, false);
    NothingEscaped("", false);
    CountArrives(n);
    FilePath(parts);
  }

  /** The server leaves a path of ordinary components as it is. */
  lemma FilePath(parts: seq<string>)
    requires AllProper(parts) && parts != []
    ensures CleanParts(true, Split("/fs/" + Concat(parts))) == ["fs"] + parts
    ensures (["fs"] + parts)[1..] == parts
  {
    assert Concat(["fs"]) == "fs" && Spell(true, ["fs"]) == "/fs";
    ProperIsClean(true, ["fs"]);
    SpellLeads(true, ["fs"]);
    BelowLeads("/fs", true, ["fs"], parts);
    assert "/fs" + "/" + Concat(parts) == "/fs/" + Concat(parts);
  }

  /** Otherwise the path asked for is shorter. */
  lemma ReceivedShorter(path: string, n: Count)
    requires Receive(Url(path, n)).Ask?
    ensures
      var r := Receive(Url(path, n));
      && |r.path| <= |path|
      && (!Plain(path) ==> |r.path| < |path|)
      && (Lacks(path, {'#', '?'}) ==> r.redirects == n)
  {
    hide Cut, Url, CountQuery, Param, Atoi;
    var escaped := EscapedPart(path, n);
    UnescapedShorter(escaped, false);
    FilesLonger(Unescape(escaped, false).value);
    if Lacks(path, {'#', '?'}) {
      UrlParts(path, n);
      CountArrives(n);
    }
  }

  lemma FilesLonger(received: string)
    requires received != "" && received[0] == '/'
    ensures
      var parts := CleanParts(true, Split(received));
      parts != [] && parts[0] == "fs" ==> |Concat(parts[1..])| <= if |received| < 4 then 0 else |received| - 4
  {
    CleanShorter(received);
    var parts := CleanParts(true, Split(received));
    if parts != [] && parts[0] == "fs" && |parts| > 1 {
      assert Concat(parts) == "fs" + "/" + Concat(parts[1..]);
    }
  }

  /** The part of the URL that is decoded into a path. */
  lemma EscapedPart(path: string, n: Count) returns (escaped: string)
    ensures escaped == Cut(Cut(Url(path, n), {'#'}).0, {'?'}).0
    ensures "/fs/" <= escaped && |escaped| <= |path| + 4
    ensures !Plain(path) ==> |escaped| < |path| + 4 || '%' in escaped
  {
    UrlSplit(path, n);
    hide Url, CountQuery, Cut, SplitAtFirst;
    escaped := Cut(Cut(Url(path, n), {'#'}).0, {'?'}).0;
    if '#' in path {
      var (a, b) := SplitAtFirst(path, '#');
      CutHere(Url(path, n), a, '#', b + "?" + CountQuery(n));
      CutAfterFs(a);
    } else if '?' in path {
      var (a, b) := SplitAtFirst(path, '?');
      CountArrives(n);
      assert Lacks(Url(path, n), {'#'});
      CutNowhere(Url(path, n), {'#'});
      CutHere(Url(path, n), a, '?', b + "?" + CountQuery(n));
    } else {
      UrlParts(path, n);
    }
  }

  lemma CutHere(url: string, a: string, c: char, b: string)
    requires url == "/fs/" + a + [c] + b && c !in a && c != '/' && c != 'f' && c != 's'
    ensures Cut(url, {c}) == ("/fs/" + a, b)
  {
    assert Lacks("/fs/" + a, {c});
    CutAt("/fs/" + a, {c}, [c], b);
  }

  lemma CutAfterFs(a: string)
    ensures "/fs/" <= Cut("/fs/" + a, {'?'}).0
    ensures |Cut("/fs/" + a, {'?'}).0| <= |a| + 4
  {
    CutShorter("/fs/" + a, {'?'});
    CutKeeps("/fs/", a, {'?'});
  }

  lemma {:induction false} CutKeeps(a: string, b: string, separators: set<char>)
    requires Lacks(a, separators)
    ensures a <= Cut(a + b, separators).0
  {
    if a != "" {
      assert a[0] in a && (a + b)[1..] == a[1..] + b;
      CutKeeps(a[1..], b, separators);
      assert [a[0]] + a[1..] == a;
    }
  }

  function SplitAtFirst(s: string, c: char): (r: (string, string))
    requires c in s
    ensures s == r.0 + [c] + r.1 && c !in r.0
    ensures |r.0| < |s|
  {
    if s[0] == c then ("", s[1..])
    else
      var (a, b) := SplitAtFirst(s[1..], c);
      ([s[0]] + a, b)
  }

  /** A request for a file arrives as it was meant, with its path and redirect count,
      exactly if the path has none of '#', '?' and '%'. */
  lemma ArrivesIff(parts: seq<string>, n: Count)
    requires AllProper(parts) && parts != []
    ensures Receive(Url(Concat(parts), n)) == Ask(Concat(parts), n) <==> Plain(Concat(parts))
  {
    var path := Concat(parts);
    if Plain(path) {
      PlainArrives(parts, n);
    } else if Receive(Url(path, n)).Ask? {
      ReceivedShorter(path, n);
    }
  }

  /** What follows a '#' is cut off, and the redirect count with it. */
  lemma FragmentCut(parts: seq<string>, tail: string, n: Count)
    requires AllProper(parts) && parts != [] && Plain(Concat(parts)) && '%' !in tail
    ensures Receive(Url(Concat(parts) + "#" + tail, n)) == Ask(Concat(parts), 0)
  {
    hide Cut, Unescape, Url, CountQuery, Param, Atoi;
    var path := Concat(parts);
    var fragment := tail + "?" + CountQuery(n);
    UrlSplit(path + "#" + tail, n);
    CountArrives(n);
    NothingEscaped(fragment, false);
    NothingEscaped("/fs/" + path, false);
    CutNowhere("/fs/" + path, {'?'});
    CutHere(Url(path + "#" + tail, n), path, '#', fragment);
    FilePath(parts);
    NoCount();
  }

  lemma NoCount()
    ensures Atoi(Param("", "redirN")) == None
  {
  }

  // ---- names that would arrive, and names that do not ----

  predicate IsHex(c: char) {
    '0' <= c <= '9' || 'a' <= c <= 'f' || 'A' <= c <= 'F'
  }

  /** Some '%' is not followed by two hexadecimal digits. */
  predicate BadPercent(s: string) {
    exists i :: 0 <= i < |s| && s[i] == '%' && (i + 2 >= |s| || !IsHex(s[i + 1]) || !IsHex(s[i + 2]))
  }

  lemma {:induction false} UndecodableIff(s: string, query: bool)
    ensures Unescape(s, query).None? <==> BadPercent(s)
  {
    if s != "" {
      var n := if s[0] == '%' then 3 else 1;
      if |s| >= n && (n == 3 ==> IsHex(s[1]) && IsHex(s[2])) {
        UndecodableIff(s[n..], query);
        BadPercentAfter(s, n);
      } else {
        assert s[0] == '%';
      }
    }
  }

  lemma BadPercentAfter(s: string, n: nat)
    requires n <= |s| && forall i :: 0 <= i < n && s[i] == '%' ==> i + 2 < |s| && IsHex(s[i + 1]) && IsHex(s[i + 2])
    ensures BadPercent(s) <==> BadPercent(s[n..])
  {
    if BadPercent(s) {
      var i :| 0 <= i < |s| && s[i] == '%' && (i + 2 >= |s| || !IsHex(s[i + 1]) || !IsHex(s[i + 2]));
      assert s[n..][i - n] == '%';
    }
    if BadPercent(s[n..]) {
      var i :| 0 <= i < |s| - n && s[n..][i] == '%'
               && (i + 2 >= |s| - n || !IsHex(s[n..][i + 1]) || !IsHex(s[n..][i + 2]));
      assert s[i + n] == '%';
    }
  }

  /** A path without '#' and '?' makes no valid URL exactly if a '%' in it is not followed by
      two hexadecimal digits. */
  lemma InvalidIff(path: string, n: Count)
    requires Lacks(path, {'#', '?'})
    ensures Receive(Url(path, n)) == Invalid <==> BadPercent(path)
  {
    hide Cut, Unescape, Url, CountQuery, Param, Atoi;
    UrlParts(path, n);
    CountArrives(n);
    NothingEscaped("", false);
    UndecodableIff("/fs/" + path, false);
    BadPercentAfter("/fs/" + path, 4);
    assert ("/fs/" + path)[4..] == path;
  }

  function HexChar(d: nat, upper: bool): char
    requires d < 16
  {
    if d < 10 then ('0' as int + d) as char
    else if upper then ('A' as int + d - 10) as char
    else ('a' as int + d - 10) as char
  }

  /** The name with every special character spelled '%' and its code in two digits. */
  function Escape(s: string, special: set<char>, upper: bool): string
    requires forall c :: c in special ==> c as int < 256
  {
    if s == "" then ""
    else if s[0] in special then
      ['%', HexChar(s[0] as int / 16, upper), HexChar(s[0] as int % 16, upper)] + Escape(s[1..], special, upper)
    else [s[0]] + Escape(s[1..], special, upper)
  }

  lemma HexPair(c: char, upper: bool)
    requires c as int < 256
    ensures
      var h, l := HexChar(c as int / 16, upper), HexChar(c as int % 16, upper);
      && IsHex(h) && IsHex(l) && HexValue(h) == Some(c as int / 16) && HexValue(l) == Some(c as int % 16)
      && (16 * HexValue(h).value + HexValue(l).value) as char == c
  {
  }

  /** Decoding undoes escaping, in capital or small digits. */
  lemma {:induction false} UnescapeEscaped(s: string, special: set<char>, upper: bool, query: bool)
    requires (forall c :: c in special ==> c as int < 256) && '%' in special && (query ==> '+' in special)
    ensures Unescape(Escape(s, special, upper), query) == Some(s)
  {
    if s != "" {
      UnescapeEscaped(s[1..], special, upper, query);
      assert [s[0]] + s[1..] == s;
      var e, rest := Escape(s, special, upper), Escape(s[1..], special, upper);
      if s[0] in special {
        HexPair(s[0], upper);
        hide HexValue, HexChar;
        assert e[3..] == rest;
      } else {
        assert e[1..] == rest;
      }
    }
  }

  lemma {:induction false} EscapedLacks(s: string, special: set<char>, upper: bool, c: char)
    requires (forall x :: x in special ==> x as int < 256) && c in special && c != '%' && !IsHex(c)
    ensures c !in Escape(s, special, upper)
  {
    if s != "" {
      EscapedLacks(s[1..], special, upper, c);
      if s[0] in special {
        HexPair(s[0], upper);
      }
    }
  }

  lemma {:induction false} UnescapeAfter(a: string, s: string, t: string)
    requires '%' !in a && Unescape(s, false) == Some(t)
    ensures Unescape(a + s, false) == Some(a + t)
  {
    if a == "" {
      assert a + s == s && a + t == t;
    } else {
      assert a[0] in a && (a + s)[1..] == a[1..] + s;
      UnescapeAfter(a[1..], s, t);
      assert [a[0]] + (a[1..] + t) == a + t;
    }
  }

  /** Any name arrives, with its redirect count, if it is escaped first. */
  lemma EscapedArrives(parts: seq<string>, special: set<char>, upper: bool, n: Count)
    requires AllProper(parts) && parts != []
    requires (forall c :: c in special ==> c as int < 256) && {'#', '?', '%'} <= special
    ensures Receive(Url(Escape(Concat(parts), special, upper), n)) == Ask(Concat(parts), n)
  {
    hide Cut, Unescape, Url, CountQuery, Param, Atoi, Escape;
    var path := Escape(Concat(parts), special, upper);
    EscapedLacks(Concat(parts), special, upper, '#');
    EscapedLacks(Concat(parts), special, upper, '?');
    UrlParts(path, n);
    UnescapeEscaped(Concat(parts), special, upper, false);
    UnescapeAfter("/fs/", path, Concat(parts));
    NothingEscaped("", false);
    CountArrives(n);
    FilePath(parts);
  }

  /** So "a%20b" asks for "a b". */
  lemma SpaceArrives(n: Count)
    ensures Receive(Url("a%20b", n)) == Ask("a b", n)
  {
    var special := {'#', '?', '%', ' '};
    assert Escape("b", special, true) == "b";
    assert Escape(" b", special, true) == "%20b" by { assert " b"[1..] == "b"; }
    assert Escape("a b", special, true) == "a%20b" by { assert "a b"[1..] == " b"; }
    hide Receive, Url, Escape;
    assert Proper("a b") && Concat(["a b"]) == "a b";
    EscapedArrives(["a b"], special, true, n);
  }

  // ---- names with a '?' ----

  /** How a URL with a '?' in the path is taken apart. */
  lemma QueryParts(path: string, tail: string, n: Count)
    requires Plain(path) && '#' !in tail
    ensures Cut(Url(path + "?" + tail, n), {'#'}) == (Url(path + "?" + tail, n), "")
    ensures Cut(Url(path + "?" + tail, n), {'?'}) == ("/fs/" + path, tail + "?" + CountQuery(n))
  {
    var url := Url(path + "?" + tail, n);
    UrlSplit(path + "?" + tail, n);
    CountArrives(n);
    hide Cut, Url, CountQuery;
    assert url == "/fs/" + path + ['?'] + (tail + "?" + CountQuery(n));
    assert Lacks(url, {'#'});
    CutNowhere(url, {'#'});
    CutHere(url, path, '?', tail + "?" + CountQuery(n));
  }

  /** A name with a '?' and, after it, a blank or a control character is refused. */
  lemma BlankRefused(path: string, tail: string, n: Count)
    requires Plain(path) && '#' !in tail && exists c :: c in tail && c <= ' '
    ensures Receive(Url(path + "?" + tail, n)) == Refused
  {
    hide Cut, Unescape, Url, CountQuery, Param, Atoi;
    QueryParts(path, tail, n);
    NothingEscaped("/fs/" + path, false);
    NothingEscaped("", false);
    var c :| c in tail && c <= ' ';
    assert c in tail + "?" + CountQuery(n);
  }

  predicate Visible(s: string) {
    forall c :: c in s ==> c > ' ' && c != '#'
  }

  /** The first redirect count in a name is taken for the request's, once decoded; 0 if it is
      no number. The path is what comes before the '?'. */
  lemma NameSetsCount(parts: seq<string>, value: string, tail: string, n: Count)
    requires AllProper(parts) && parts != [] && Plain(Concat(parts))
    requires Visible(value) && Visible(tail) && Lacks(value, {'&', ';'})
    requires Unescape(value, true).Some?
    ensures Receive(Url(Concat(parts) + "?redirN=" + value + "&" + tail, n))
      == Ask(Concat(parts), match Atoi(Unescape(value, true).value) case None => 0 case Some(c) => c)
  {
    hide *;
    var path, asked := Concat(parts), "redirN=" + value + "&" + tail;
    SameName(path, value, tail);
    AskedVisible(value, tail, n);
    QueryParts(path, asked, n);
    AskedCount(value, tail, n);
    AskedFor(parts, Url(path + "?" + asked, n), asked + "?" + CountQuery(n));
  }

  lemma SameName(path: string, value: string, tail: string)
    ensures path + "?redirN=" + value + "&" + tail == path + "?" + ("redirN=" + value + "&" + tail)
  {
  }

  /** What the parts of a URL come to, if there is no blank in the query. */
  lemma AskedFor(parts: seq<string>, url: string, query: string)
    requires AllProper(parts) && parts != [] && Plain(Concat(parts))
    requires Cut(url, {'#'}) == (url, "") && Cut(url, {'?'}) == ("/fs/" + Concat(parts), query)
    requires forall c :: c in query ==> c > ' '
    ensures Receive(url)
      == Ask(Concat(parts), match Atoi(Param(query, "redirN")) case None => 0 case Some(c) => c)
  {
    hide Cut, Unescape, Param, Atoi;
    NothingEscaped("/fs/" + Concat(parts), false);
    NothingEscaped("", false);
    FilePath(parts);
  }

  lemma AskedVisible(value: string, tail: string, n: Count)
    requires Visible(value) && Visible(tail)
    ensures
      var asked := "redirN=" + value + "&" + tail;
      && '#' !in asked
      && forall c :: c in asked + "?" + CountQuery(n) ==> c > ' '
  {
    CountArrives(n);
    hide CountQuery;
    assert forall c :: c in "redirN=" ==> '=' <= c <= 'r';
    assert forall c :: c in "redirN=" + value + "&" + tail ==> c in "redirN=" || c in value || c in tail || c == '&';
  }

  lemma AskedCount(value: string, tail: string, n: Count)
    requires Lacks(value, {'&', ';'}) && Unescape(value, true).Some?
    ensures Param("redirN=" + value + "&" + tail + "?" + CountQuery(n), "redirN") == Unescape(value, true).value
  {
    assert Lacks("redirN", {'&', ';', '=', '%', '+'});
    hide Unescape, CountQuery, Param, Lacks;
    FirstParam("redirN", value, tail + "?" + CountQuery(n));
    assert "redirN" + "=" + value + "&" + (tail + "?" + CountQuery(n))
      == "redirN=" + value + "&" + tail + "?" + CountQuery(n);
  }

  lemma FirstParam(key: string, value: string, rest: string)
    requires Lacks(key, {'&', ';', '=', '%', '+'}) && Lacks(value, {'&', ';'}) && key != ""
    requires Unescape(value, true).Some?
    ensures Param(key + "=" + value + "&" + rest, key) == Unescape(value, true).value
  {
    hide Cut, Unescape;
    var pair := key + "=" + value;
    assert forall c :: c in pair ==> c in key || c == '=' || c in value;
    CutAt(pair, {'&', ';'}, "&", rest);
    CutAt(key, {'='}, "=", value);
    NothingEscaped(key, true);
  }

  /** So with a number. */
  lemma NumberSetsCount(parts: seq<string>, m: Count, tail: string, n: Count)
    requires AllProper(parts) && parts != [] && Plain(Concat(parts)) && Visible(tail)
    ensures Receive(Url(Concat(parts) + "?redirN=" + Decimal(m) + "&" + tail, n)) == Ask(Concat(parts), m)
  {
    DecimalVisible(m);
    AtoiDecimal(m);
    NothingEscaped(Decimal(m), true);
    hide Receive, Url, Unescape, Decimal, Atoi, Visible, Lacks;
    NameSetsCount(parts, Decimal(m), tail, n);
  }

  /** And with a '+' in front it is none. */
  lemma PlusSetsNoCount(parts: seq<string>, m: Count, tail: string, n: Count)
    requires AllProper(parts) && parts != [] && Plain(Concat(parts)) && Visible(tail)
    ensures Receive(Url(Concat(parts) + "?redirN=" + ("+" + Decimal(m)) + "&" + tail, n)) == Ask(Concat(parts), 0)
  {
    DecimalVisible(m);
    NothingEscaped(Decimal(m), true);
    PlusIsBlank(Decimal(m));
    hide Receive, Url, Unescape, Decimal, Atoi, Visible, Lacks;
    NameSetsCount(parts, "+" + Decimal(m), tail, n);
  }

  lemma DecimalVisible(m: Count)
    ensures Visible(Decimal(m)) && Lacks(Decimal(m), {'&', ';'}) && '%' !in Decimal(m) && '+' !in Decimal(m)
    ensures Visible("+" + Decimal(m)) && Lacks("+" + Decimal(m), {'&', ';'})
  {
    AtoiDecimal(m);
    hide Decimal, Atoi;
    assert forall c :: c in Decimal(m) ==> '-' <= c <= '9';
    assert forall c :: c in "+" + Decimal(m) ==> c == '+' || c in Decimal(m);
  }

  lemma PlusIsBlank(s: string)
    requires Unescape(s, true) == Some(s)
    ensures Unescape("+" + s, true) == Some(" " + s) && Atoi(" " + s) == None
  {
    assert ("+" + s)[1..] == s;
    var c := (" " + s)[0];
    assert c in " " + s && !IsDigit(c);
  }
}
