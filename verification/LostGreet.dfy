/**
  What a lost greeting or answer does. The greet it belongs to stays pending in every
  continuation, until the node is told to greet that peer again; so the mesh may stay
  incomplete for good.
*/
module LostGreet {
  import opened DroppedUpdate
  import opened Mesh
  import opened MeshSteps
  import opened Protocol
  import opened Safety
  import opened Undisturbed

  /** The task belongs to a greet of j by i: the greeting, its handling, or the answer. */
  predicate OfGreet(t: Task, i: Name, j: Name) {
    OnItsWay(t, i, j) || Answers(t, i, j)
  }

  /** i waits for an answer of j that nothing will bring. */
  ghost predicate Stuck(s: State, i: Name, j: Name) {
    && Knows(s, i, j)
    && s.peers[i][j].greet == Pending
    && forall t :: t in s.tasks ==> !OfGreet(t, i, j)
  }

  /** Tasks of a greet follow tasks of the same greet, or are newly scheduled. */
  lemma Descends(peers: map<Name, Peers>, t: Task, u: Task, i: Name, j: Name)
    requires TaskOk(peers, t) && (t.Reading? ==> t.todo == {})
    requires u in TaskEffect(peers, t).next && OfGreet(u, i, j)
    ensures OfGreet(t, i, j) || u == Greeting(i, j)
  {
    hide TaskEffect, UpdateSection;
    if t.Updating? {
      UpdateNext(peers, t, t.name, u);
    } else if t.Serving? && t.stage.InUpdate? {
      UpdateNext(peers, t, t.source, u);
    } else if t.Serving? {
      ServedNext(peers, t, u);
    } else {
      OtherNext(peers, t, u);
    }
  }

  lemma NoNewTask(s: State, e: Event, u: Task, i: Name, j: Name)
    requires Typed(s) && Enabled(s, e) && Stuck(s, i, j) && e != Join(i, j) && u in Apply(s, e).tasks
    ensures !OfGreet(u, i, j)
  {
    if OfGreet(u, i, j) && e.Advance? {
      OthersStay(s, e);
      Descends(s.peers, e.task, u, i, j);
      SchedulingUsesNever(s, e, i, j);
    }
  }

  lemma StillPending(peers: map<Name, Peers>, t: Task, i: Name, j: Name)
    requires TaskOk(peers, t) && UpdatesPeer(t, i, j) && !Answers(t, i, j)
    requires j in peers[i] && peers[i][j].greet == Pending
    ensures j in OutcomeOf(peers, t).peers && OutcomeOf(peers, t).peers[j].greet == Pending
  {
  }

  lemma StepStuck(s: State, e: Event, i: Name, j: Name)
    requires Typed(s) && Enabled(s, e) && Stuck(s, i, j) && e != Join(i, j)
    ensures Stuck(Apply(s, e), i, j)
  {
    forall u | u in Apply(s, e).tasks ensures !OfGreet(u, i, j) {
      NoNewTask(s, e, u, i, j);
    }
    if e.Advance? && UpdatesPeer(e.task, i, j) {
      UpdateMoves(s.peers, e.task, i, j);
      StillPending(s.peers, e.task, i, j);
    } else {
      GreetUntouched(s, e, i, j);
    }
  }

  lemma {:induction false} StaysStuck(nodes: set<Name>, states: seq<State>, events: seq<Event>, a: nat, b: nat,
                                      i: Name, j: Name)
    requires IsRun(nodes, states, events) && a <= b <= |events|
    requires Stuck(states[a], i, j) && Join(i, j) !in events[a..b]
    ensures Stuck(states[b], i, j)
    decreases b
  {
    if a < b {
      assert events[a..b] == events[a..b - 1] + [events[b - 1]];
      StaysStuck(nodes, states, events, a, b - 1, i, j);
      RunSafe(nodes, states, events, b - 1);
      StepStuck(states[b - 1], events[b - 1], i, j);
    }
  }

  /** When all tasks have ended, lost messages or not, each known peer's greet is done or
      pending; and one still pending stays so, whatever happens, unless the node is told to
      greet that peer again. */
  lemma PendingForever(nodes: set<Name>, states: seq<State>, events: seq<Event>, a: nat, b: nat, i: Name, j: Name)
    requires IsRun(nodes, states, events) && a <= b <= |events|
    requires Quiescent(states[a]) && Knows(states[a], i, j) && Join(i, j) !in events[a..b]
    ensures states[a].peers[i][j].greet != Never
    ensures Knows(states[b], i, j) && states[b].peers[i][j].greet == states[a].peers[i][j].greet
  {
    RunInv(nodes, states, events, a);
    assert GreetInv(states[a], i, j);
    if states[a].peers[i][j].greet == Pending {
      StaysStuck(nodes, states, events, a, b, i, j);
    } else {
      GreetMovesForward(nodes, states, events, a, b);
    }
  }

  lemma LoseTask(nodes: set<Name>, s: State, t: Task, rest: multiset<Task>)
    requires Reachable(nodes, s) && s.tasks == multiset{t} + rest && (t.Greeting? || t.Reply?)
    ensures Reachable(nodes, s.(tasks := rest, lost := true))
  {
    assert t in s.tasks;
    StepReachable(nodes, s, Lose(t));
    assert multiset{t} + rest - multiset{t} == rest;
  }

  /** Losses can leave a greet pending, and the mesh incomplete. Whatever two nodes: a can
      greet b, and if the answer and b's own greeting are lost, all tasks end with b knowing
      a, but not a b. */
  lemma LossBreaksMesh(a: Name, b: Name) returns (s: State)
    requires a != b
    ensures exists states, events :: IsRun({a, b}, states, events) && states[|events|] == s
    ensures Quiescent(s) && Knows(s, b, a) && !Knows(s, a, b) && s.peers[b][a].greet == Pending
  {
    ListDropped(a, b);
    var nodes, pb, t := {a, b}, Sole(a, Pending, Done), Serving(b, a, Answer);
    s := Two(a, map[], b, pb, multiset{t, Greeting(b, a)}, {}, {}, {(a, b)});
    StepReachable(nodes, s, Advance(t));
    var reply := Reply(b, a, s.peers[b].Keys);
    s := Apply(s, Advance(t));
    assert s.tasks == multiset{reply} + multiset{Greeting(b, a)};
    LoseTask(nodes, s, reply, multiset{Greeting(b, a)});
    s := s.(tasks := multiset{Greeting(b, a)} + multiset{}, lost := true);
    LoseTask(nodes, s, Greeting(b, a), multiset{});
    s := s.(tasks := multiset{});
  }
}
