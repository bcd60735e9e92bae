/**
  One node as an object: its peer records, updated in place, and the goroutines it starts.
  Every method is one locked section of the program, or runs its sections in order; each
  is tied to the function the transition system uses for that section.
*/
module Clusters {
  import opened Announcements
  import opened FileTree
  import opened Protocol
  import opened TreeNodes
  import opened Wrappers

  class NodeInfo {
    const name: Name
    var greetState: Phase
    var pushState: Phase

    constructor (name: Name)
      ensures this.name == name && greetState == Never && pushState == Never
    {
      this.name, greetState, pushState := name, Never, Never;
    }
  }

  /** All sections of one `UpdateNode`, with nothing in between: the record it leaves for p. */
  function Met(peers: Peers, p: Name, done: bool): Peer {
    var r := RecordOf(peers, p);
    Peer(if done then Done else if r.greet == Never then Pending else r.greet,
         if r.push == Never then Pending else r.push)
  }

  /** The sections of one `UpdateNode` in order, and the tasks they start. */
  function UpdateAlone(me: Name, peers: Peers, p: Name, done: bool): (Peers, multiset<Task>) {
    var merged := MergeInfo(InsertPeer(peers, p), p, done);
    var (greeted, g) := if merged[p].greet == Never then ScheduleGreet(merged, p) else (merged, NoTask);
    var (pushed, q) := if greeted[p].push == Never then SchedulePush(greeted, p) else (greeted, NoTask);
    (pushed, SpawnedTasks(me, p, g) + SpawnedTasks(me, p, q))
  }

  function GreetStarted(me: Name, p: Name, r: Peer, done: bool): multiset<Task> {
    if !done && r.greet == Never then multiset{Greeting(me, p)} else multiset{}
  }

  function PushStarted(me: Name, p: Name, r: Peer): multiset<Task> {
    if r.push == Never then multiset{Pushing(me, p)} else multiset{}
  }

  function RecordOf(peers: Peers, p: Name): Peer {
    if p in peers then peers[p] else Peer(Never, Never)
  }

  /** What an undisturbed `UpdateNode` does: the peer ends up greeted and pushed to, or about
      to be, and exactly the missing greet and push are started. */
  lemma UndisturbedUpdate(me: Name, peers: Peers, p: Name, done: bool)
    ensures
      var r := RecordOf(peers, p);
      UpdateAlone(me, peers, p, done)
      == (peers[p := Met(peers, p, done)], GreetStarted(me, p, r, done) + PushStarted(me, p, r))
  {
    var merged := MergeInfo(InsertPeer(peers, p), p, done);
    var r := RecordOf(peers, p);
    assert merged == peers[p := Peer(if done then Done else r.greet, r.push)];
    var (greeted, g) := if merged[p].greet == Never then ScheduleGreet(merged, p) else (merged, NoTask);
    assert greeted == peers[p := Peer(Met(peers, p, done).greet, r.push)];
    assert SpawnedTasks(me, p, g) == GreetStarted(me, p, r, done);
    if r.push == Never {
      assert SchedulePush(greeted, p).0 == peers[p := Met(peers, p, done)];
    } else {
      assert greeted == peers[p := Met(peers, p, done)];
    }
  }

  /** The entries of j's answer: the names it lists, and j itself. */
  function Entries(names: set<Name>, j: Name, me: Name): set<Name> {
    names + {j} - {me}
  }

  /** All of an answer processed, in whatever order. */
  function AfterAnswer(peers: Peers, entries: set<Name>, j: Name): Peers {
    map n | n in peers.Keys + entries :: if n in entries then Met(peers, n, n == j) else peers[n]
  }

  lemma AnswerMore(peers: Peers, entries: set<Name>, j: Name, p: Name)
    requires p !in entries
    ensures AfterAnswer(peers, entries + {p}, j)
            == AfterAnswer(peers, entries, j)[p := Met(AfterAnswer(peers, entries, j), p, p == j)]
    ensures RecordOf(AfterAnswer(peers, entries, j), p) == RecordOf(peers, p)
  {
  }

  /** One greet for each listed node that was never greeted, except j itself. */
  function NewGreets(peers: Peers, entries: set<Name>, j: Name, n: Name): nat {
    if n in entries && n != j && RecordOf(peers, n).greet == Never then 1 else 0
  }

  /** One push for each listed node, and j, that was never pushed to. */
  function NewPushes(peers: Peers, entries: set<Name>, n: Name): nat {
    if n in entries && RecordOf(peers, n).push == Never then 1 else 0
  }

  lemma NewMore(me: Name, peers: Peers, entries: set<Name>, j: Name, p: Name)
    requires p !in entries
    ensures
      var r := RecordOf(peers, p);
      var tasks := GreetStarted(me, p, r, p == j) + PushStarted(me, p, r);
      && (forall n :: NewGreets(peers, entries + {p}, j, n) == NewGreets(peers, entries, j, n) + tasks[Greeting(me, n)])
      && (forall n :: NewPushes(peers, entries + {p}, n) == NewPushes(peers, entries, n) + tasks[Pushing(me, n)])
  {
  }

  lemma AnswerNone(peers: Peers, j: Name)
    ensures AfterAnswer(peers, {}, j) == peers
    ensures forall n :: NewGreets(peers, {}, j, n) == 0 && NewPushes(peers, {}, n) == 0
  {
  }

  class Cluster {
    const me: Name
    var peers: map<Name, NodeInfo>
    /** The goroutines started so far. */
    ghost var started: multiset<Task>
    var dfsRoot: TreeNode

    constructor (me: Name, dfsRoot: TreeNode)
      ensures Valid() && View() == map[] && started == multiset{} && this.me == me && this.dfsRoot == dfsRoot
    {
      this.me, this.dfsRoot := me, dfsRoot;
      peers, started := map[], multiset{};
    }

    ghost predicate Valid()
      reads this, peers.Values
    {
      me !in peers && forall n :: n in peers ==> peers[n].name == n
    }

    /** The peer table as a value. */
    ghost function View(): Peers
      reads this, peers.Values
    {
      map n | n in peers :: Peer(peers[n].greetState, peers[n].pushState)
    }

    method InsertNode(p: Name) returns (node: NodeInfo)
      requires Valid() && p != me
      modifies this`peers
      ensures Valid() && View() == InsertPeer(old(View()), p)
      ensures p in peers && peers[p] == node
      ensures forall n :: n in old(peers) ==> n in peers && peers[n] == old(peers[n])
      ensures forall n :: n in peers ==> peers[n] in old(peers.Values) || fresh(peers[n])
    {
      if p in peers {
        node := peers[p];
      } else {
        node := new NodeInfo(p);
        peers := peers[p := node];
      }
    }

    method ScheduleGreet(node: NodeInfo)
      requires Valid() && node.name in peers && peers[node.name] == node
      modifies node`greetState, this`started
      ensures Valid()
      ensures
        var (view, spawned) := Protocol.ScheduleGreet(old(View()), node.name);
        View() == view && started == old(started) + SpawnedTasks(me, node.name, spawned)
    {
      if node.greetState != Never {
        return;
      }
      node.greetState := Pending;
      started := started + multiset{Greeting(me, node.name)};
    }

    method SchedulePush(node: NodeInfo)
      requires Valid() && node.name in peers && peers[node.name] == node
      modifies node`pushState, this`started
      ensures Valid()
      ensures
        var (view, spawned) := Protocol.SchedulePush(old(View()), node.name);
        View() == view && started == old(started) + SpawnedTasks(me, node.name, spawned)
    {
      if node.pushState == Pending {
        return;
      }
      node.pushState := Pending;
      started := started + multiset{Pushing(me, node.name)};
    }

    /** The end of `PushFullUpdate`. */
    method FinishPush(node: NodeInfo, ok: bool)
      requires Valid() && node.name in peers && peers[node.name] == node
      modifies node`pushState
      ensures Valid() && View() == Protocol.FinishPush(old(View()), node.name, ok)
    {
      node.pushState := if ok then Done else Never;
    }

    method UpdateNode(p: Name, done: bool)
      requires Valid()
      modifies this`peers, this`started, peers.Values
      ensures Valid()
      ensures forall n :: n in peers ==> peers[n] in old(peers.Values) || fresh(peers[n])
      ensures p == me ==> View() == old(View()) && started == old(started)
      ensures p != me ==>
                && View() == UpdateAlone(me, old(View()), p, done).0
                && started == old(started) + UpdateAlone(me, old(View()), p, done).1
    {
      hide Protocol.ScheduleGreet, Protocol.SchedulePush, InsertPeer;
      if p == me {
        return;
      }
      var node := InsertNode(p);
      if done {
        node.greetState := Done;
      }
      assert View() == MergeInfo(InsertPeer(old(View()), p), p, done);
      if node.greetState == Never {
        ScheduleGreet(node);
      }
      if node.pushState == Never {
        SchedulePush(node);
      }
    }

    /** The loop of `GreetNode` over j's answer, in any order: every listed node, and j, ends
        up known, greeted -- j's greet is done -- and pushed to. */
    method ReadAnswer(names: set<Name>, j: Name)
      requires Valid()
      modifies this`peers, this`started, peers.Values
      ensures Valid() && View() == AfterAnswer(old(View()), Entries(names, j, me), j)
      ensures forall n :: started[Greeting(me, n)] == old(started)[Greeting(me, n)]
                + NewGreets(old(View()), Entries(names, j, me), j, n)
      ensures forall n :: started[Pushing(me, n)] == old(started)[Pushing(me, n)]
                + NewPushes(old(View()), Entries(names, j, me), n)
    {
      hide UpdateAlone, Met, AfterAnswer, RecordOf, NewGreets, NewPushes, GreetStarted, PushStarted, View;
      AnswerNone(View(), j);
      var todo := names + {j};
      ghost var done: set<Name> := {};
      while todo != {}
        invariant Valid() && todo <= names + {j} && done == names + {j} - todo - {me}
        invariant forall n :: n in peers ==> peers[n] in old(peers.Values) || fresh(peers[n])
        invariant View() == AfterAnswer(old(View()), done, j)
        invariant forall n ::
                    started[Greeting(me, n)] == old(started)[Greeting(me, n)] + NewGreets(old(View()), done, j, n)
        invariant forall n :: started[Pushing(me, n)] == old(started)[Pushing(me, n)] + NewPushes(old(View()), done, n)
      {
        var p :| p in todo;
        UndisturbedUpdate(me, View(), p, p == j);
        if p != me {
          AnswerMore(old(View()), done, j, p);
          NewMore(me, old(View()), done, j, p);
          done := done + {p};
        }
        UpdateNode(p, p == j);
        todo := todo - {p};
      }
      assert done == Entries(names, j, me);
    }

    /** POST /cluster/ from p; None is the answer "bad request". */
    method Serve(p: Name, publicAddr: string, mgmtAddr: string, requestFullUpdate: bool)
        returns (answer: Option<set<Name>>)
      requires Valid()
      modifies this`peers, this`started, peers.Values
      ensures Valid()
      ensures p == "" || publicAddr == "" || mgmtAddr == "" ==>
                answer == None && View() == old(View()) && started == old(started)
      ensures p != "" && publicAddr != "" && mgmtAddr != "" ==>
                answer == Some(View().Keys)
      ensures answer.Some? && p == me ==> View() == old(View()) && started == old(started)
      ensures answer.Some? && p != me ==>
                var r := RecordOf(old(View()), p);
                started == old(started) + (GreetStarted(me, p, r, false) + PushStarted(me, p, r))
                  + if requestFullUpdate && r.push == Done then multiset{Pushing(me, p)} else multiset{}
      ensures answer.Some? && p != me ==>
                var r := Met(old(View()), p, false);
                View() == old(View())[p := if requestFullUpdate then r.(push := Pending) else r]
    {
      hide UpdateAlone, GreetStarted, PushStarted;
      if p == "" || publicAddr == "" || mgmtAddr == "" {
        return None;
      }
      UndisturbedUpdate(me, View(), p, false);
      UpdateNode(p, false);
      ghost var r := Met(old(View()), p, false);
      assert p != me ==> View() == old(View())[p := r];
      if requestFullUpdate && p in peers {
        SchedulePush(peers[p]);
      }
      assert View().Keys == peers.Keys;
      return Some(peers.Keys);
    }

    /** An update is applied if its sender is known, and dropped otherwise. */
    method ReceiveUpdate(files: seq<FileAnnouncement>, sender: Name, ghost vs: seq<Announcement>)
      requires Valid() && dfsRoot.Valid() && Distinct(files) && Announce(files, vs)
      modifies dfsRoot.Repr, (set f | f in files)`fullNameParts, (set f | f in files)`stat
      ensures dfsRoot.Valid()
      ensures sender in View() ==> Updates(old(dfsRoot.Model), vs, dfsRoot.Model)
      ensures sender !in View() ==> dfsRoot.Model == old(dfsRoot.Model)
    {
      if sender !in peers {
        return;
      }
      dfsRoot.Update(files, vs);
    }
  }
}
