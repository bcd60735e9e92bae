/**
  A run of two nodes in which nothing is lost, no push fails and the mesh is complete in the
  end, but one node never applies the other's file list: it arrived before its sender was
  known, and was dropped; the sender counts it as pushed, and does not send it again.
*/
module DroppedUpdate {
  import opened Clusters
  import opened Mesh
  import opened Protocol
  import opened Undisturbed

  /** The table of a node that knows one other. */
  function Sole(p: Name, greet: Phase, push: Phase): Peers {
    map[p := Peer(greet, push)]
  }

  /** A state of the nodes a and b in which nothing was lost and no push failed. */
  function Two(a: Name, pa: Peers, b: Name, pb: Peers, tasks: multiset<Task>, answered: set<(Name, Name)>,
               applied: set<(Name, Name)>, discarded: set<(Name, Name)>): State
  {
    State(map[a := pa, b := pb], tasks, answered, false, false, applied, discarded)
  }

  lemma SoleUpdate(me: Name, peers: Peers, p: Name, done: bool, greet: Phase)
    requires peers == map[] || peers == Sole(p, Pending, Done) || peers == Sole(p, Done, Done)
    requires greet == if done || (peers != map[] && peers[p].greet == Done) then Done else Pending
    ensures
      UpdateAlone(me, peers, p, done)
      == (Sole(p, greet, if peers == map[] then Pending else Done),
          if peers != map[] then multiset{}
          else if done then multiset{Pushing(me, p)} else multiset{Greeting(me, p), Pushing(me, p)})
  {
    UndisturbedUpdate(me, peers, p, done);
    var r := RecordOf(peers, p);
    assert GreetStarted(me, p, r, done) + PushStarted(me, p, r)
        == if peers != map[] then multiset{}
           else if done then multiset{Pushing(me, p)} else multiset{Greeting(me, p), Pushing(me, p)};
    assert peers[p := Met(peers, p, done)] == Sole(p, greet, if peers == map[] then Pending else Done);
  }

  lemma SoleSchedules(p: Name, greet: Phase)
    ensures Sole(p, greet, Pending) != map[] && Sole(p, greet, Done) != map[]
    ensures SchedulePush(Sole(p, greet, Pending), p) == (Sole(p, greet, Pending), NoTask)
    ensures SchedulePush(Sole(p, greet, Done), p) == (Sole(p, greet, Pending), PushTask)
    ensures FinishPush(Sole(p, greet, Pending), p, true) == Sole(p, greet, Done)
    ensures Sole(p, greet, Pending).Keys == Sole(p, greet, Done).Keys == {p}
  {
    var done, pending := Sole(p, greet, Done), Sole(p, greet, Pending);
    assert p in done && p in pending;
    assert done[p := Peer(greet, Pending)] == pending && pending[p := Peer(greet, Done)] == done;
  }

  lemma Tables(a: Name, pa: Peers, b: Name, pb: Peers, p: Peers)
    requires a != b
    ensures map[a := pa, b := pb][a := p] == map[a := p, b := pb]
    ensures map[a := pa, b := pb][b := p] == map[a := pa, b := p]
  {
  }

  /** b handles a's greeting: it greets back and pushes its list, which arrives before the
      answer, and is dropped. */
  lemma ListDropped(a: Name, b: Name)
    requires a != b
    ensures Reachable({a, b},
      Two(a, map[], b, Sole(a, Pending, Done), multiset{Serving(b, a, Answer), Greeting(b, a)}, {}, {}, {(a, b)}))
  {
    var nodes := {a, b};
    InitReachable(nodes);
    StepReachable(nodes, Init(nodes), Join(a, b));
    var s := Two(a, map[], b, map[], multiset{Greeting(a, b)}, {}, {}, {});
    assert Apply(Init(nodes), Join(a, b)) == s;
    assert multiset{Greeting(a, b)} + multiset{} == multiset{Greeting(a, b)};
    Dropped(nodes, s, a, b);
  }

  lemma Dropped(nodes: set<Name>, s: State, a: Name, b: Name)
    requires a != b && Reachable(nodes, s) && s == Two(a, map[], b, map[], multiset{Greeting(a, b)}, {}, {}, {})
    ensures Reachable(nodes,
      Two(a, map[], b, Sole(a, Pending, Done), multiset{Serving(b, a, Answer), Greeting(b, a)}, {}, {}, {(a, b)}))
  {
    hide Reachable, UpdateAlone;
    assert s.tasks == multiset{Greeting(a, b)} + multiset{};
    ServeGreeting(nodes, s, a, b, multiset{});
    assert s.peers[b] == map[];
    SoleUpdate(b, map[], a, false, Pending);
    SoleSchedules(a, Pending);
    var rest := multiset{Serving(b, a, Answer), Greeting(b, a)};
    var served := Two(a, map[], b, Sole(a, Pending, Pending), multiset{Pushing(b, a)} + rest, {}, {}, {});
    assert multiset{Serving(b, a, Answer)} + (multiset{} + (multiset{Greeting(b, a), Pushing(b, a)} + multiset{}))
        == multiset{Pushing(b, a)} + rest;
    Tables(a, map[], b, map[], Sole(a, Pending, Pending));
    DeliverPush(nodes, served, b, a, rest);
    Tables(a, map[], b, Sole(a, Pending, Pending), Sole(a, Pending, Done));
    assert {} + {(a, b)} == {(a, b)} && b !in served.peers[a];
  }

  /** a reads the answer, and pushes its own list. */
  lemma AnswerRead(nodes: set<Name>, a: Name, b: Name)
    requires a != b && Reachable(nodes,
      Two(a, map[], b, Sole(a, Pending, Done), multiset{Serving(b, a, Answer), Greeting(b, a)}, {}, {}, {(a, b)}))
    ensures Reachable(nodes,
      Two(a, Sole(b, Done, Done), b, Sole(a, Pending, Done), multiset{Greeting(b, a)}, {(a, b)}, {(b, a)}, {(a, b)}))
  {
    hide Reachable, UpdateAlone;
    var pb, rest := Sole(a, Pending, Done), multiset{Greeting(b, a)};
    var s := Two(a, map[], b, pb, multiset{Serving(b, a, Answer), Greeting(b, a)}, {}, {}, {(a, b)});
    assert s.tasks == multiset{Serving(b, a, Answer)} + rest;
    SoleSchedules(a, Pending);
    SoleSchedules(b, Done);
    assert s.peers[b].Keys == {a} && s.peers[a] == map[];
    AnswerAndRead(nodes, s, a, b, rest);
    SoleUpdate(a, map[], b, true, Done);
    Tables(a, map[], b, pb, Sole(b, Done, Pending));
    var s1 := Two(a, Sole(b, Done, Pending), b, pb, multiset{Pushing(a, b)} + rest, {(a, b)}, {}, {(a, b)});
    assert {} + {(a, b)} == {(a, b)};
    DeliverPush(nodes, s1, a, b, rest);
    Tables(a, Sole(b, Done, Pending), b, pb, Sole(b, Done, Done));
    assert {} + {(b, a)} == {(b, a)};
  }

  /** b's greeting is handled: a pushes its list again, and b reads that all is done. */
  lemma GreetedBack(nodes: set<Name>, a: Name, b: Name)
    requires a != b && Reachable(nodes,
      Two(a, Sole(b, Done, Done), b, Sole(a, Pending, Done), multiset{Greeting(b, a)}, {(a, b)}, {(b, a)}, {(a, b)}))
    ensures Reachable(nodes,
      Two(a, Sole(b, Done, Done), b, Sole(a, Done, Done), multiset{}, {(a, b), (b, a)}, {(b, a)}, {(a, b)}))
  {
    hide Reachable, UpdateAlone;
    var pa, pb := Sole(b, Done, Done), Sole(a, Pending, Done);
    var s := Two(a, pa, b, pb, multiset{Greeting(b, a)}, {(a, b)}, {(b, a)}, {(a, b)});
    assert s.tasks == multiset{Greeting(b, a)} + multiset{};
    SoleSchedules(b, Done);
    assert s.peers[a] == pa;
    ServeGreeting(nodes, s, b, a, multiset{});
    SoleUpdate(a, pa, b, false, Done);
    Tables(a, pa, b, pb, Sole(b, Done, Pending));
    var push := multiset{Pushing(a, b)};
    assert multiset{Serving(a, b, Answer)} + (push + (multiset{} + multiset{}))
        == multiset{Serving(a, b, Answer)} + push;
    var s1 := Two(a, Sole(b, Done, Pending), b, pb, multiset{Serving(a, b, Answer)} + push,
                  {(a, b)}, {(b, a)}, {(a, b)});
    AllDone(nodes, s1, a, b);
  }

  lemma AllDone(nodes: set<Name>, s: State, a: Name, b: Name)
    requires a != b && Reachable(nodes, s)
    requires s == Two(a, Sole(b, Done, Pending), b, Sole(a, Pending, Done),
      multiset{Serving(a, b, Answer)} + multiset{Pushing(a, b)}, {(a, b)}, {(b, a)}, {(a, b)})
    ensures Reachable(nodes,
      Two(a, Sole(b, Done, Done), b, Sole(a, Done, Done), multiset{}, {(a, b), (b, a)}, {(b, a)}, {(a, b)}))
  {
    hide Reachable, UpdateAlone;
    var pa, pb := Sole(b, Done, Pending), Sole(a, Pending, Done);
    SoleSchedules(b, Done);
    SoleSchedules(a, Pending);
    assert s.peers[a].Keys == {b} && s.peers[b] == pb;
    AnswerAndRead(nodes, s, b, a, multiset{Pushing(a, b)});
    SoleUpdate(b, pb, a, true, Done);
    Tables(a, pa, b, pb, Sole(a, Done, Done));
    assert multiset{} + multiset{Pushing(a, b)} == multiset{Pushing(a, b)} + multiset{};
    var s1 := Two(a, pa, b, Sole(a, Done, Done), multiset{Pushing(a, b)} + multiset{},
                  {(a, b), (b, a)}, {(b, a)}, {(a, b)});
    assert {(a, b)} + {(b, a)} == {(a, b), (b, a)};
    DeliverPush(nodes, s1, a, b, multiset{});
    Tables(a, pa, b, Sole(a, Done, Done), Sole(b, Done, Done));
    assert {(b, a)} + {(b, a)} == {(b, a)};
  }

  /** Whatever two nodes: a can greet b, all tasks end, nothing is lost and no push fails,
      both know each other, greeted and pushed to -- and a has never applied b's list. */
  lemma ListNeverApplied(a: Name, b: Name) returns (s: State)
    requires a != b
    ensures exists states, events :: IsRun({a, b}, states, events) && states[|events|] == s
    ensures Quiescent(s) && !s.lost && !s.pushFailed
    ensures Knows(s, a, b) && Knows(s, b, a) && s.peers[b][a] == Peer(Done, Done)
    ensures (a, b) !in s.applied && (a, b) in s.discarded
  {
    ListDropped(a, b);
    AnswerRead({a, b}, a, b);
    GreetedBack({a, b}, a, b);
    s := Two(a, Sole(b, Done, Done), b, Sole(a, Done, Done), multiset{}, {(a, b), (b, a)}, {(b, a)}, {(a, b)});
  }
}
