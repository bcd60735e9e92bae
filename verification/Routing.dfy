/**
  Reading a file through the cluster: the node asked opens the file if it owns it, and asks
  the owner it knows of otherwise, which does the same.
*/
module Routing {
  import opened Paths
  import opened Requests
  import opened Wrappers

  type Name = string

  const MAX_REDIRECT_DEPTH: Count := 2

  /** What a node's tree has at a path. */
  datatype Found = Directory | FileOf(owner: Name)

  datatype Node = Node(tree: map<string, Found>, peers: set<Name>)

  /** Peers' addresses lead to nodes of this network; a name it does not have stands for a
      node that does not answer. */
  type Network = map<Name, Node>

  datatype Outcome =
    | Opened(node: Name, path: string, hops: nat)   // this node opens its local file of this name
    | TooManyRedirects(hops: nat)
    | UnknownOwner(hops: nat)
    | NotFound(hops: nat)
    | Listed(hops: nat)                             // a listing or another page is served instead
    | Unreachable(hops: nat)
    | Failed(hops: nat)                             // no valid URL, or a request refused

  function Left(redirects: Count): nat {
    if redirects < MAX_REDIRECT_DEPTH then MAX_REDIRECT_DEPTH as int - redirects as int else 0
  }

  function FoundAt(node: Node, path: string): Option<Found> {
    if path == "" then Some(Directory)
    else if path in node.tree then Some(node.tree[path])
    else None
  }

  /** OpenRead at a node whose tree gives `owner`, and, for a remote owner, the request it
      answers; `redirects` is the request's redirect count. */
  function OpenRead(net: Network, at: Name, path: string, owner: Name, redirects: Count, hops: nat): Outcome
    requires at in net
    decreases |path|, Left(redirects), 0
  {
    if owner == at then Opened(at, path, hops)
    else if redirects >= MAX_REDIRECT_DEPTH then TooManyRedirects(hops)
    else if owner !in net[at].peers then UnknownOwner(hops)
    else if owner !in net then Unreachable(hops)
    else
      match Receive(Url(path, redirects + 1))
      case Ask(path', redirects') =>
        ReceivedShorter(path, redirects + 1);
        Serve(net, owner, path', redirects', hops + 1)
      case Page => Listed(hops + 1)
      case Refused => Failed(hops + 1)
      case Invalid => Failed(hops)
  }

  /** A node answering a request for the path. */
  function Serve(net: Network, at: Name, path: string, redirects: Count, hops: nat): Outcome
    requires at in net
    decreases |path|, Left(redirects), 1
  {
    match FoundAt(net[at], path)
    case None => NotFound(hops)
    case Some(Directory) => Listed(hops)
    case Some(FileOf(owner)) => OpenRead(net, at, path, owner, redirects, hops)
  }

  /** The node reached from `at` by n times asking the owner, each one known to the last. */
  function Chain(net: Network, at: Name, path: string, n: nat): Option<Name>
    decreases n
  {
    if at !in net then None
    else if n == 0 then Some(at)
    else
      match FoundAt(net[at], path)
      case Some(FileOf(owner)) => if owner in net[at].peers then Chain(net, owner, path, n - 1) else None
      case _ => None
  }

  predicate OwnsFile(net: Network, at: Name, path: string) {
    at in net && FoundAt(net[at], path) == Some(FileOf(at))
  }

  predicate Reaches(net: Network, at: Name, path: string, n: nat) {
    Chain(net, at, path, n).Some? && OwnsFile(net, Chain(net, at, path, n).value, path)
  }

  /** For a path that arrives as it is sent, whatever trees and peer tables say, a read that
      starts with redirect count `redirects` takes at most 2 - redirects remote hops; and it
      opens a file exactly where the chain of owners first reaches a node that takes itself
      for the owner, if it does so within that many hops. */
  lemma {:induction false} ServeRoutes(net: Network, at: Name, parts: seq<string>, redirects: Count, hops: nat)
    requires at in net && AllProper(parts) && parts != [] && Plain(Concat(parts))
    ensures
      var path := Concat(parts);
      var r := Serve(net, at, path, redirects, hops);
      && hops <= r.hops <= hops + (if redirects < 2 then 2 - redirects else 0)
      && (r.Opened? ==>
            && r.path == path
            && Chain(net, at, path, r.hops - hops) == Some(r.node)
            && OwnsFile(net, r.node, path))
      && (r.Opened? <==>
            exists n: nat :: n <= (if redirects < 2 then 2 - redirects else 0) && Reaches(net, at, path, n))
    decreases Left(redirects)
  {
    hide Receive, Url;
    var path := Concat(parts);
    ConcatStart(parts);
    var r := Serve(net, at, path, redirects, hops);
    assert Reaches(net, at, path, 0) <==> OwnsFile(net, at, path);
    if FoundAt(net[at], path).Some? && FoundAt(net[at], path).value.FileOf? {
      var owner := FoundAt(net[at], path).value.owner;
      if owner != at {
        ChainStep(net, at, path, owner);
        if owner in net[at].peers && owner in net && redirects < MAX_REDIRECT_DEPTH {
          PlainArrives(parts, redirects + 1);
          assert r == OpenRead(net, at, path, owner, redirects, hops);
          assert r == Serve(net, owner, path, redirects + 1, hops + 1);
          ServeRoutes(net, owner, parts, redirects + 1, hops + 1);
          if r.Opened? {
            assert Reaches(net, owner, path, r.hops - hops - 1);
            assert Reaches(net, at, path, r.hops - hops);
          }
          if n: nat :| n <= 2 - redirects && Reaches(net, at, path, n) {
            assert Reaches(net, owner, path, n - 1);
          }
        }
      }
    }
  }

  lemma ChainStep(net: Network, at: Name, path: string, owner: Name)
    requires at in net && FoundAt(net[at], path) == Some(FileOf(owner)) && owner != at
    ensures !Reaches(net, at, path, 0)
    ensures forall n: nat :: n > 0 ==>
              (Reaches(net, at, path, n) <==>
                 owner in net[at].peers && owner in net && Reaches(net, owner, path, n - 1))
  {
    forall n: nat | n > 0
      ensures Reaches(net, at, path, n) <==> owner in net[at].peers && owner in net && Reaches(net, owner, path, n - 1)
    {
      assert Chain(net, at, path, n) == if owner in net[at].peers then Chain(net, owner, path, n - 1) else None;
    }
  }

  /** How a read of such a path ends, at the node the chain of owners leads to: it is not
      found, or a directory, there; the node opens its own file; or it is the owner of another
      that ends it, because 2 redirects are used up, it is not known, or it does not answer. */
  lemma {:induction false} ServeEnds(net: Network, at: Name, parts: seq<string>, redirects: Count, hops: nat)
    requires at in net && AllProper(parts) && parts != [] && Plain(Concat(parts))
    ensures
      var path := Concat(parts);
      var r := Serve(net, at, path, redirects, hops);
      && r.hops >= hops
      && Chain(net, at, path, r.hops - hops).Some?
      && var n := Chain(net, at, path, r.hops - hops).value;
         && n in net
         && match FoundAt(net[n], path)
            case None => r == NotFound(r.hops)
            case Some(Directory) => r == Listed(r.hops)
            case Some(FileOf(owner)) =>
              if owner == n then r == Opened(n, path, r.hops)
              else if redirects + (r.hops - hops) >= 2 then r == TooManyRedirects(r.hops)
              else if owner !in net[n].peers then r == UnknownOwner(r.hops)
              else r == Unreachable(r.hops) && owner !in net
    decreases Left(redirects)
  {
    hide Receive, Url;
    var path := Concat(parts);
    ConcatStart(parts);
    if FoundAt(net[at], path).Some? && FoundAt(net[at], path).value.FileOf? {
      var owner := FoundAt(net[at], path).value.owner;
      if owner != at && owner in net[at].peers && owner in net && redirects < MAX_REDIRECT_DEPTH {
        PlainArrives(parts, redirects + 1);
        assert Serve(net, at, path, redirects, hops) == Serve(net, owner, path, redirects + 1, hops + 1);
        ServeEnds(net, owner, parts, redirects + 1, hops + 1);
      }
    }
  }

  /** Two hops are allowed, and three are not. */
  lemma TwoHopsAllowed(net: Network, parts: seq<string>, n0: Name, n1: Name, n2: Name, n3: Name)
    requires AllProper(parts) && parts != [] && Plain(Concat(parts))
    requires n0 != n1 && n1 != n2 && {n0, n1, n2} <= net.Keys
    requires n1 in net[n0].peers && n2 in net[n1].peers
    requires FoundAt(net[n0], Concat(parts)) == Some(FileOf(n1))
    requires FoundAt(net[n1], Concat(parts)) == Some(FileOf(n2))
    requires FoundAt(net[n2], Concat(parts)) == Some(FileOf(n3))
    ensures Serve(net, n0, Concat(parts), 0, 0)
      == if n3 == n2 then Opened(n2, Concat(parts), 2) else TooManyRedirects(2)
  {
    hide Receive, Url;
    var path := Concat(parts);
    PlainArrives(parts, 1);
    PlainArrives(parts, 2);
    ConcatStart(parts);
    hide Concat;
    assert Serve(net, n2, path, 2, 2) == OpenRead(net, n2, path, n3, 2, 2);
    assert Serve(net, n1, path, 1, 1) == Serve(net, n2, path, 2, 2);
    assert Serve(net, n0, path, 0, 0) == Serve(net, n1, path, 1, 1);
  }

  /** At the owner's door: a name that makes no valid URL fails where it is asked for, and one
      whose request is refused fails one hop on. */
  lemma RequestFails(net: Network, at: Name, owner: Name, path: string, redirects: Count, hops: nat)
    requires at in net && owner in net && owner != at && owner in net[at].peers && redirects < 2
    requires FoundAt(net[at], path) == Some(FileOf(owner))
    ensures Lacks(path, {'#', '?'}) && BadPercent(path) ==> Serve(net, at, path, redirects, hops) == Failed(hops)
    ensures (exists a, b :: path == a + "?" + b && Plain(a) && '#' !in b && exists c :: c in b && c <= ' ')
              ==> Serve(net, at, path, redirects, hops) == Failed(hops + 1)
  {
    hide Receive, Url, BadPercent;
    if Lacks(path, {'#', '?'}) {
      InvalidIff(path, redirects + 1);
    }
    if a, b :| path == a + "?" + b && Plain(a) && '#' !in b && exists c :: c in b && c <= ' ' {
      BlankRefused(a, b, redirects + 1);
    }
  }

  // ---- how many hops a read may take ----

  /** Following the requests for a path, by the strings alone, one gets further than n hops,
      if nodes know the paths asked for and send the reader on. */
  predicate Exceeds(path: string, redirects: Count, n: nat)
    decreases n
  {
    && path != ""
    && redirects < MAX_REDIRECT_DEPTH
    && match Receive(Url(path, redirects + 1))
       case Ask(path', redirects') => n == 0 || Exceeds(path', redirects', n - 1)
       case Invalid => false
       case _ => n == 0
  }

  /** No tree or peer table makes a read of the path take more than n hops. */
  ghost predicate Bounded(path: string, redirects: Count, n: nat) {
    forall net: Network, at :: at in net ==> Serve(net, at, path, redirects, 0).hops <= n
  }

  lemma {:induction false} HopsAtMost(net: Network, at: Name, path: string, redirects: Count, hops: nat, n: nat)
    requires at in net && !Exceeds(path, redirects, n)
    ensures Serve(net, at, path, redirects, hops).hops <= hops + n
    decreases n
  {
    hide Receive, Url;
    if FoundAt(net[at], path).Some? && FoundAt(net[at], path).value.FileOf? {
      var owner := FoundAt(net[at], path).value.owner;
      if owner != at && redirects < MAX_REDIRECT_DEPTH && owner in net[at].peers && owner in net {
        var request := Receive(Url(path, redirects + 1));
        if request.Ask? && n > 0 {
          HopsAtMost(net, owner, request.path, request.redirects, hops + 1, n - 1);
        }
      }
    }
  }

  lemma {:induction false} HopsAtLeast(net: Network, at: Name, path: string, redirects: Count, hops: nat)
    requires at in net
    ensures Serve(net, at, path, redirects, hops).hops >= hops
    decreases |path|, Left(redirects)
  {
    hide Receive, Url;
    if FoundAt(net[at], path).Some? && FoundAt(net[at], path).value.FileOf? {
      var owner := FoundAt(net[at], path).value.owner;
      if owner != at && redirects < MAX_REDIRECT_DEPTH && owner in net[at].peers && owner in net {
        var request := Receive(Url(path, redirects + 1));
        if request.Ask? {
          ReceivedShorter(path, redirects + 1);
          HopsAtLeast(net, owner, request.path, request.redirects, hops + 1);
        }
      }
    }
  }

  /** Nodes that know none but each other do not see the rest of the network. */
  ghost predicate PartOf(part: Network, net: Network) {
    forall x :: x in part ==> x in net && net[x] == part[x] && part[x].peers <= part.Keys
  }

  lemma {:induction false} ServeInPart(part: Network, net: Network, at: Name, path: string, redirects: Count, hops: nat)
    requires PartOf(part, net) && at in part
    ensures Serve(net, at, path, redirects, hops) == Serve(part, at, path, redirects, hops)
    decreases |path|, Left(redirects)
  {
    hide Receive, Url;
    if FoundAt(net[at], path).Some? && FoundAt(net[at], path).value.FileOf? {
      var owner := FoundAt(net[at], path).value.owner;
      if owner != at && redirects < MAX_REDIRECT_DEPTH && owner in net[at].peers {
        var request := Receive(Url(path, redirects + 1));
        if request.Ask? {
          ReceivedShorter(path, redirects + 1);
          ServeInPart(part, net, owner, request.path, request.redirects, hops + 1);
        }
      }
    }
  }

  function NameOf(i: nat): Name {
    seq(i, _ => 'x')
  }

  /** A node that takes the next one for the owner of the path. */
  function Sender(path: string, i: nat): Node {
    Node(map[path := FileOf(NameOf(i + 1))], {NameOf(i + 1)})
  }

  /** A chain of nodes along which a read takes more than n hops. */
  lemma {:induction false} ChainOfNodes(path: string, redirects: Count, n: nat, i: nat) returns (net: Network)
    requires Exceeds(path, redirects, n)
    ensures NameOf(i) in net && PartOf(net, net)
    ensures forall x :: x in net ==> |x| >= i
    ensures forall hops: nat :: Serve(net, NameOf(i), path, redirects, hops).hops > hops + n
    decreases n
  {
    hide Receive, Url;
    var at, owner := NameOf(i), NameOf(i + 1);
    var request := Receive(Url(path, redirects + 1));
    var rest: Network := map[owner := Node(map[], {})];
    if n > 0 {
      rest := ChainOfNodes(request.path, request.redirects, n - 1, i + 1);
    }
    assert |at| == i && |owner| == i + 1;
    net := rest[at := Sender(path, i)];
    assert PartOf(rest, net);
    forall hops: nat ensures Serve(net, at, path, redirects, hops).hops > hops + n {
      assert FoundAt(net[at], path) == Some(FileOf(owner));
      assert Serve(net, at, path, redirects, hops) == OpenRead(net, at, path, owner, redirects, hops);
      if request.Ask? {
        ServeInPart(rest, net, owner, request.path, request.redirects, hops + 1);
        HopsAtLeast(rest, owner, request.path, request.redirects, hops + 1);
      }
    }
  }

  /** For any path and redirect count: a read takes at most n hops, whatever trees and peer
      tables say, exactly if following its requests gets no further. */
  lemma BoundedIff(path: string, redirects: Count, n: nat)
    ensures Bounded(path, redirects, n) <==> !Exceeds(path, redirects, n)
  {
    if Exceeds(path, redirects, n) {
      var net := ChainOfNodes(path, redirects, n, 0);
      assert Serve(net, NameOf(0), path, redirects, 0).hops > n;
    } else {
      forall net: Network, at | at in net ensures Serve(net, at, path, redirects, 0).hops <= n {
        HopsAtMost(net, at, path, redirects, 0, n);
      }
    }
  }

  /** None of the paths asked for, up to the limit, has a '#' or a '?'. */
  predicate Counted(path: string, redirects: Count)
    decreases Left(redirects)
  {
    redirects < MAX_REDIRECT_DEPTH ==>
      && Lacks(path, {'#', '?'})
      && var request := Receive(Url(path, redirects + 1));
         request.Ask? ==> Counted(request.path, redirects + 1)
  }

  /** A path without '#' and '?', now and as it is received, keeps the limit. */
  lemma CountedKeepsLimit(path: string, redirects: Count)
    requires Counted(path, redirects)
    ensures !Exceeds(path, redirects, if redirects < 2 then 2 - redirects else 0)
    decreases Left(redirects)
  {
    hide Receive, Url;
    if redirects < MAX_REDIRECT_DEPTH && Receive(Url(path, redirects + 1)).Ask? {
      ReceivedShorter(path, redirects + 1);
      CountedKeepsLimit(Receive(Url(path, redirects + 1)).path, redirects + 1);
    }
  }

  /** No read opens a file with a longer name than asked for. */
  lemma {:induction false} OpenedShorter(net: Network, at: Name, path: string, redirects: Count, hops: nat)
    requires at in net
    ensures
      var r := Serve(net, at, path, redirects, hops);
      r.Opened? ==> |r.path| <= |path|
    decreases |path|, Left(redirects)
  {
    hide Receive, Url;
    if FoundAt(net[at], path).Some? && FoundAt(net[at], path).value.FileOf? {
      var owner := FoundAt(net[at], path).value.owner;
      if owner != at && redirects < MAX_REDIRECT_DEPTH && owner in net[at].peers && owner in net {
        var request := Receive(Url(path, redirects + 1));
        if request.Ask? {
          ReceivedShorter(path, redirects + 1);
          OpenedShorter(net, owner, request.path, request.redirects, hops + 1);
        }
      }
    }
  }

  /** If the node asked and another, the owner and a known peer, agree on the owner, its local
      file is opened after one hop -- exactly if the path arrives as it is sent. */
  lemma AgreedOwner(net: Network, at: Name, owner: Name, parts: seq<string>)
    requires at in net && owner in net && AllProper(parts) && parts != []
    requires FoundAt(net[at], Concat(parts)) == FoundAt(net[owner], Concat(parts)) == Some(FileOf(owner))
    requires owner != at && owner in net[at].peers
    ensures Serve(net, at, Concat(parts), 0, 0) == Opened(owner, Concat(parts), 1) <==> Plain(Concat(parts))
  {
    hide Receive, Url;
    var path := Concat(parts);
    var request := Receive(Url(path, 1));
    if Plain(path) {
      PlainArrives(parts, 1);
      ConcatStart(parts);
      OwnFile(net, owner, path, 1, 1);
    } else if request.Ask? {
      ReceivedShorter(path, 1);
      OpenedShorter(net, owner, request.path, request.redirects, 1);
    }
  }

  /** A node's own files are opened without asking. */
  lemma OwnFile(net: Network, at: Name, path: string, redirects: Count, hops: nat)
    requires OwnsFile(net, at, path)
    ensures Serve(net, at, path, redirects, hops) == Opened(at, path, hops)
  {
  }

  /** Of a path with a '#', only what comes before it arrives, and the redirects are counted
      anew: a read can take more hops than allowed, and ends with another file. */
  lemma RedirectsRestart(parts: seq<string>, tail: string, net: Network, n0: Name, n1: Name, n2: Name, n3: Name)
    requires AllProper(parts) && parts != [] && Plain(Concat(parts)) && '%' !in tail
    requires |{n0, n1, n2, n3}| == 4 && {n0, n1, n2, n3} <= net.Keys
    requires n1 in net[n0].peers && n2 in net[n1].peers && n3 in net[n2].peers
    requires FoundAt(net[n0], Concat(parts) + "#" + tail) == Some(FileOf(n1))
    requires FoundAt(net[n1], Concat(parts)) == Some(FileOf(n2))
    requires FoundAt(net[n2], Concat(parts)) == FoundAt(net[n3], Concat(parts)) == Some(FileOf(n3))
    ensures Serve(net, n0, Concat(parts) + "#" + tail, 0, 0) == Opened(n3, Concat(parts), 3)
  {
    hide Receive, Url;
    var path := Concat(parts);
    assert n0 != n1 && n1 != n2 && n2 != n3;
    FragmentCut(parts, tail, 1);
    PlainArrives(parts, 1);
    PlainArrives(parts, 2);
    assert Serve(net, n3, path, 2, 3) == Opened(n3, path, 3);
    assert Serve(net, n2, path, 1, 2) == Serve(net, n3, path, 2, 3);
    assert Serve(net, n1, path, 0, 1) == Serve(net, n2, path, 1, 2);
  }

  /** Any such path exceeds the limit. */
  lemma FragmentExceeds(parts: seq<string>, tail: string)
    requires AllProper(parts) && parts != [] && Plain(Concat(parts)) && '%' !in tail
    ensures Exceeds(Concat(parts) + "#" + tail, 0, 2)
  {
    hide Receive, Url;
    ConcatStart(parts);
    FragmentCut(parts, tail, 1);
    PlainArrives(parts, 1);
    PlainArrives(parts, 2);
  }
}
