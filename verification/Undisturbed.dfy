/**
  Calls that run undisturbed, as paths of the transition system.
*/
module Undisturbed {
  import opened Clusters
  import opened Mesh
  import opened MeshSteps
  import opened Protocol
  import opened Safety
  import opened Wrappers

  /** A state of a run, with the invariants every such state has. */
  ghost predicate Reachable(nodes: set<Name>, s: State) {
    && Typed(s)
    && exists states, events :: IsRun(nodes, states, events) && states[|events|] == s
  }

  lemma InitReachable(nodes: set<Name>)
    ensures Reachable(nodes, Init(nodes))
  {
    assert IsRun(nodes, [Init(nodes)], []);
  }

  lemma StepReachable(nodes: set<Name>, s: State, e: Event)
    requires Reachable(nodes, s) && Enabled(s, e)
    ensures Reachable(nodes, Apply(s, e))
  {
    var states, events :| IsRun(nodes, states, events) && states[|events|] == s;
    assert IsRun(nodes, states + [Apply(s, e)], events + [e]);
    StepTyped(s, e);
  }

  /** The state `s` with another table at one node, and other tasks. */
  function With(s: State, at: Name, peers: Peers, tasks: multiset<Task>): State {
    s.(peers := s.peers[at := peers], tasks := tasks)
  }

  lemma WithAgain(s: State, at: Name, peers: Peers, tasks: multiset<Task>, peers': Peers, tasks': multiset<Task>)
    ensures With(With(s, at, peers, tasks), at, peers', tasks') == With(s, at, peers', tasks')
    ensures With(s, at, peers, tasks).tasks == tasks
    ensures at in With(s, at, peers, tasks).peers && With(s, at, peers, tasks).peers[at] == peers
  {
    assert s.peers[at := peers][at := peers'] == s.peers[at := peers'];
  }

  /** A step of a task that leaves no trace in the history. */
  lemma Silent(nodes: set<Name>, s: State, t: Task, rest: multiset<Task>)
    requires Reachable(nodes, s) && s.tasks == multiset{t} + rest && !t.Receiving? && !(t.Serving? && t.stage == Answer)
    requires t.Reading? ==> t.todo == {}
    ensures TaskOk(s.peers, t)
    ensures
      var f := TaskEffect(s.peers, t);
      Reachable(nodes, With(s, f.at, f.peers, f.next + rest))
  {
    assert t in s.tasks;
    StepReachable(nodes, s, Advance(t));
    var f := TaskEffect(s.peers, t);
    assert multiset{t} + rest - multiset{t} + f.next == f.next + rest;
  }

  // ---- an UpdateNode that runs undisturbed ----

  /** One section of an `UpdateNode` for p at i. */
  lemma OneSection(nodes: set<Name>, s: State, u: Task, rest: multiset<Task>, i: Name, p: Name)
      returns (s': State, u': Task, rest': multiset<Task>)
    requires Reachable(nodes, s) && s.tasks == multiset{u} + rest && UpdatesPeer(u, i, p)
    ensures TaskOk(s.peers, u)
    ensures
      var o := OutcomeOf(s.peers, u);
      && u' == Moved(u, o.next)
      && rest' == SpawnedTasks(i, p, o.spawned) + rest
      && s' == With(s, i, o.peers, multiset{u'} + rest')
      && (o.next.Some? ==> UpdatesPeer(u', i, p) && SectionOf(u') == o.next.value)
    ensures Reachable(nodes, s')
  {
    Silent(nodes, s, u, rest);
    UpdateMoves(s.peers, u, i, p);
    var o := OutcomeOf(s.peers, u);
    u', rest' := Moved(u, o.next), SpawnedTasks(i, p, o.spawned) + rest;
    s' := With(s, i, o.peers, multiset{u'} + rest');
    assert multiset{u'} + SpawnedTasks(i, p, o.spawned) + rest == multiset{u'} + rest';
  }

  /** Inserting and merging. */
  lemma MeetSections(nodes: set<Name>, s: State, t: Task, rest: multiset<Task>, i: Name, p: Name)
      returns (s': State, u: Task)
    requires Reachable(nodes, s) && s.tasks == multiset{t} + rest && UpdatesPeer(t, i, p) && SectionOf(t) == Insert
    ensures
      var done := t.Updating? && p == t.source;
      && i in s.peers
      && u == Moved(t, Some(CheckGreet))
      && s' == With(s, i, MergeInfo(InsertPeer(s.peers[i], p), p, done), multiset{u} + rest)
    ensures Reachable(nodes, s')
  {
    hide Reachable, TaskOk, Typed;
    var s1, u1, rest1 := OneSection(nodes, s, t, rest, i, p);
    assert rest1 == rest;
    var s2, u2, rest2 := OneSection(nodes, s1, u1, rest1, i, p);
    assert rest2 == rest;
    s', u := s2, u2;
  }

  /** Reading the greet state, and scheduling a greet if need be. */
  lemma GreetSections(nodes: set<Name>, s: State, t: Task, rest: multiset<Task>, i: Name, p: Name)
      returns (s': State, u: Task, rest': multiset<Task>)
    requires Reachable(nodes, s) && s.tasks == multiset{t} + rest && UpdatesPeer(t, i, p) && SectionOf(t) == CheckGreet
    ensures i in s.peers && p in s.peers[i]
    ensures
      var (peers, g) := if s.peers[i][p].greet == Never then ScheduleGreet(s.peers[i], p) else (s.peers[i], NoTask);
      && u == Moved(t, Some(CheckPush))
      && rest' == SpawnedTasks(i, p, g) + rest
      && s' == With(s, i, peers, multiset{u} + rest')
    ensures Reachable(nodes, s')
  {
    hide Reachable, TaskOk, Typed;
    s', u, rest' := OneSection(nodes, s, t, rest, i, p);
    assert rest' == rest;
    if s.peers[i][p].greet == Never {
      s', u, rest' := OneSection(nodes, s', u, rest', i, p);
    }
  }

  /** Reading the push state, and scheduling a push if need be. */
  lemma PushSections(nodes: set<Name>, s: State, t: Task, rest: multiset<Task>, i: Name, p: Name)
      returns (s': State, u: Task, rest': multiset<Task>)
    requires Reachable(nodes, s) && s.tasks == multiset{t} + rest && UpdatesPeer(t, i, p) && SectionOf(t) == CheckPush
    ensures i in s.peers && p in s.peers[i]
    ensures
      var (peers, q) := if s.peers[i][p].push == Never then SchedulePush(s.peers[i], p) else (s.peers[i], NoTask);
      && u == Moved(t, None)
      && rest' == SpawnedTasks(i, p, q) + rest
      && s' == With(s, i, peers, multiset{u} + rest')
    ensures Reachable(nodes, s')
  {
    hide Reachable, TaskOk, Typed;
    s', u := PushChecked(nodes, s, t, rest, i, p);
    rest' := rest;
    if s.peers[i][p].push == Never {
      s', u, rest' := PushLocked(nodes, s', u, rest, i, p);
    }
  }

  lemma PushChecked(nodes: set<Name>, s: State, t: Task, rest: multiset<Task>, i: Name, p: Name)
      returns (s': State, u: Task)
    requires Reachable(nodes, s) && s.tasks == multiset{t} + rest && UpdatesPeer(t, i, p) && SectionOf(t) == CheckPush
    ensures i in s.peers && p in s.peers[i]
    ensures
      var next := if s.peers[i][p].push == Never then Some(LockPush) else None;
      && u == Moved(t, next)
      && s' == With(s, i, s.peers[i], multiset{u} + rest)
      && (next.Some? ==> UpdatesPeer(u, i, p) && SectionOf(u) == LockPush)
    ensures Reachable(nodes, s')
  {
    hide Reachable, Typed;
    var rest';
    s', u, rest' := OneSection(nodes, s, t, rest, i, p);
    assert rest' == rest;
  }

  lemma PushLocked(nodes: set<Name>, s: State, t: Task, rest: multiset<Task>, i: Name, p: Name)
      returns (s': State, u: Task, rest': multiset<Task>)
    requires Reachable(nodes, s) && s.tasks == multiset{t} + rest && UpdatesPeer(t, i, p) && SectionOf(t) == LockPush
    ensures i in s.peers && p in s.peers[i]
    ensures
      var (peers, q) := SchedulePush(s.peers[i], p);
      && u == Moved(t, None)
      && rest' == SpawnedTasks(i, p, q) + rest
      && s' == With(s, i, peers, multiset{u} + rest')
    ensures Reachable(nodes, s')
  {
    hide Reachable, Typed;
    s', u, rest' := OneSection(nodes, s, t, rest, i, p);
  }

  lemma Reorder(a: multiset<Task>, b: multiset<Task>, rest: multiset<Task>)
    ensures b + (a + rest) == a + b + rest
  {
  }

  /** From reading the greet state to the end. */
  lemma GreetAndPush(nodes: set<Name>, s: State, t: Task, rest: multiset<Task>, i: Name, p: Name)
    requires Reachable(nodes, s) && s.tasks == multiset{t} + rest && UpdatesPeer(t, i, p) && SectionOf(t) == CheckGreet
    ensures i in s.peers && p in s.peers[i]
    ensures
      var (greeted, g) := if s.peers[i][p].greet == Never then ScheduleGreet(s.peers[i], p) else (s.peers[i], NoTask);
      var (pushed, q) := if greeted[p].push == Never then SchedulePush(greeted, p) else (greeted, NoTask);
      Reachable(nodes, With(s, i, pushed,
        multiset{Moved(t, None)} + (SpawnedTasks(i, p, g) + SpawnedTasks(i, p, q) + rest)))
  {
    hide Reachable, SpawnedTasks, TaskOk, Typed, With, Protocol.ScheduleGreet, Protocol.SchedulePush;
    var s1, u1, rest1 := GreetSections(nodes, s, t, rest, i, p);
    var (greeted, g) := if s.peers[i][p].greet == Never then ScheduleGreet(s.peers[i], p) else (s.peers[i], NoTask);
    WithAgain(s, i, greeted, multiset{u1} + rest1, greeted, multiset{u1} + rest1);
    var s2, u2, rest2 := PushSections(nodes, s1, u1, rest1, i, p);
    var (pushed, q) := if greeted[p].push == Never then SchedulePush(greeted, p) else (greeted, NoTask);
    WithAgain(s, i, greeted, multiset{u1} + rest1, pushed, multiset{u2} + rest2);
    Reorder(SpawnedTasks(i, p, g), SpawnedTasks(i, p, q), rest);
  }

  /** An undisturbed `UpdateNode` is a path of the transition system, with the same effect. */
  lemma UndisturbedPath(nodes: set<Name>, s: State, t: Task, rest: multiset<Task>, i: Name, p: Name)
    requires Reachable(nodes, s) && s.tasks == multiset{t} + rest && UpdatesPeer(t, i, p) && SectionOf(t) == Insert
    ensures i in s.peers
    ensures
      var (peers, started) := UpdateAlone(i, s.peers[i], p, t.Updating? && p == t.source);
      Reachable(nodes, With(s, i, peers, multiset{Moved(t, None)} + (started + rest)))
  {
    hide Reachable, SpawnedTasks, TaskOk, Typed, Protocol.SchedulePush, Protocol.ScheduleGreet;
    var s1, u1 := MeetSections(nodes, s, t, rest, i, p);
    GreetAndPush(nodes, s1, u1, rest, i, p);
    var (peers, started) := UpdateAlone(i, s.peers[i], p, t.Updating? && p == t.source);
    assert s1.peers[i := peers] == s.peers[i := peers];
  }

  // ---- undisturbed handlers, pushes and readers ----

  /** Handling a greeting of j by i, up to the answer. */
  lemma ServeGreeting(nodes: set<Name>, s: State, i: Name, j: Name, rest: multiset<Task>)
    requires Reachable(nodes, s) && s.tasks == multiset{Greeting(i, j)} + rest && i != j
    ensures j in s.peers
    ensures
      var (peers, started) := UpdateAlone(j, s.peers[j], i, false);
      var (peers', q) := SchedulePush(peers, i);
      Reachable(nodes, With(s, j, peers', multiset{Serving(j, i, Answer)} + (SpawnedTasks(j, i, q) + (started + rest))))
  {
    hide Reachable, UpdateAlone, TaskOk, Typed;
    Silent(nodes, s, Greeting(i, j), rest);
    var t := Serving(j, i, InUpdate(Insert));
    var s1 := With(s, j, s.peers[j], multiset{t} + rest);
    UndisturbedPath(nodes, s1, t, rest, j, i);
    var (peers, started) := UpdateAlone(j, s.peers[j], i, false);
    assert s.peers[j := s.peers[j]][j := peers] == s.peers[j := peers];
    var s2 := With(s, j, peers, multiset{Serving(j, i, LookUp)} + (started + rest));
    assert Moved(t, None) == Serving(j, i, LookUp);
    UndisturbedUpdate(j, s.peers[j], i, false);
    Requested(nodes, s2, i, j, started + rest);
    assert s.peers[j := peers][j := SchedulePush(peers, i).0] == s.peers[j := SchedulePush(peers, i).0];
  }

  lemma Requested(nodes: set<Name>, s: State, i: Name, j: Name, rest: multiset<Task>)
    requires Reachable(nodes, s) && s.tasks == multiset{Serving(j, i, LookUp)} + rest
    requires j in s.peers && i in s.peers[j]
    ensures
      var (peers', q) := SchedulePush(s.peers[j], i);
      Reachable(nodes, With(s, j, peers', multiset{Serving(j, i, Answer)} + (SpawnedTasks(j, i, q) + rest)))
  {
    Silent(nodes, s, Serving(j, i, LookUp), rest);
    var s1 := With(s, j, s.peers[j], multiset{Serving(j, i, Request)} + rest);
    Silent(nodes, s1, Serving(j, i, Request), rest);
    var (peers', q) := SchedulePush(s.peers[j], i);
    assert s.peers[j := s.peers[j]][j := peers'] == s.peers[j := peers'];
    assert multiset{Serving(j, i, Answer)} + SpawnedTasks(j, i, q) + rest
        == multiset{Serving(j, i, Answer)} + (SpawnedTasks(j, i, q) + rest);
  }

  /** A push that arrives before its sender is known is discarded; else it is applied. */
  lemma DeliverPush(nodes: set<Name>, s: State, c: Name, p: Name, rest: multiset<Task>)
    requires Reachable(nodes, s) && s.tasks == multiset{Pushing(c, p)} + rest
    ensures c in s.peers && p in s.peers[c] && p in s.peers
    ensures
      Reachable(nodes, With(s, c, FinishPush(s.peers[c], p, true), rest).(
        applied := if c in s.peers[p] then s.applied + {(p, c)} else s.applied,
        discarded := if c in s.peers[p] then s.discarded else s.discarded + {(p, c)}))
  {
    hide Reachable;
    Silent(nodes, s, Pushing(c, p), rest);
    var r := Receiving(p, c);
    var s1 := s.(tasks := multiset{Pushed(c, p), r} + rest);
    assert With(s, c, s.peers[c], s1.tasks) == s1;
    Received(nodes, s1, p, c, multiset{Pushed(c, p)} + rest);
    var s2 := s1.(tasks := multiset{Pushed(c, p)} + rest,
                  applied := if c in s.peers[p] then s.applied + {(p, c)} else s.applied,
                  discarded := if c in s.peers[p] then s.discarded else s.discarded + {(p, c)});
    Silent(nodes, s2, Pushed(c, p), rest);
    assert multiset{} + rest == rest;
  }

  lemma Received(nodes: set<Name>, s: State, p: Name, c: Name, rest: multiset<Task>)
    requires Reachable(nodes, s) && s.tasks == multiset{Receiving(p, c)} + rest
    ensures p in s.peers
    ensures
      Reachable(nodes, s.(tasks := rest,
        applied := if c in s.peers[p] then s.applied + {(p, c)} else s.applied,
        discarded := if c in s.peers[p] then s.discarded else s.discarded + {(p, c)}))
  {
    var r := Receiving(p, c);
    assert r in s.tasks;
    StepReachable(nodes, s, Advance(r));
    assert multiset{r} + rest - multiset{r} + multiset{} == rest;
    assert s.peers[p := s.peers[p]] == s.peers;
  }

  /** j answers i, the only node it knows. */
  lemma AnswerSent(nodes: set<Name>, s: State, i: Name, j: Name, rest: multiset<Task>)
    requires Reachable(nodes, s) && s.tasks == multiset{Serving(j, i, Answer)} + rest && i != j
    requires j in s.peers && s.peers[j].Keys == {i}
    ensures Reachable(nodes, s.(tasks := multiset{Reply(j, i, {i})} + rest, answered := s.answered + {(i, j)}))
  {
    var t := Serving(j, i, Answer);
    assert t in s.tasks;
    StepReachable(nodes, s, Advance(t));
    hide Reachable, Typed;
    assert s.peers[j := s.peers[j]] == s.peers;
    assert multiset{t} + rest - multiset{t} + multiset{Reply(j, i, {i})} == multiset{Reply(j, i, {i})} + rest;
  }

  /** j answers i, the only node it knows, and i reads the answer. */
  lemma AnswerAndRead(nodes: set<Name>, s: State, i: Name, j: Name, rest: multiset<Task>)
    requires Reachable(nodes, s) && s.tasks == multiset{Serving(j, i, Answer)} + rest && i != j
    requires j in s.peers && s.peers[j].Keys == {i}
    ensures i in s.peers
    ensures
      var (peers, started) := UpdateAlone(i, s.peers[i], j, true);
      Reachable(nodes, With(s, i, peers, started + rest).(answered := s.answered + {(i, j)}))
  {
    hide Reachable, UpdateAlone, Typed;
    AnswerSent(nodes, s, i, j, rest);
    var s1 := s.(tasks := multiset{Reply(j, i, {i})} + rest, answered := s.answered + {(i, j)});
    Silent(nodes, s1, Reply(j, i, {i}), rest);
    var s2 := s1.(tasks := multiset{Reading(i, j, {i} + {j})} + rest);
    assert s1.peers[i := s1.peers[i]] == s1.peers;
    assert {i} + {j} == {i, j};
    ReadBoth(nodes, s2, i, j, rest);
  }

  /** Picking an entry of an answer. */
  lemma PickEntry(nodes: set<Name>, s: State, i: Name, j: Name, todo: set<Name>, name: Name, rest: multiset<Task>)
    requires Reachable(nodes, s) && s.tasks == multiset{Reading(i, j, todo)} + rest && name in todo
    ensures
      var next := if name == i then Reading(i, j, todo - {name}) else Updating(i, j, todo - {name}, name, Insert);
      Reachable(nodes, s.(tasks := multiset{next} + rest))
  {
    var t := Reading(i, j, todo);
    var next := if name == i then Reading(i, j, todo - {name}) else Updating(i, j, todo - {name}, name, Insert);
    assert t in s.tasks;
    StepReachable(nodes, s, Pick(t, name));
    assert multiset{t} + rest - multiset{t} + multiset{next} == multiset{next} + rest;
  }

  lemma ReadBoth(nodes: set<Name>, s: State, i: Name, j: Name, rest: multiset<Task>)
    requires Reachable(nodes, s) && s.tasks == multiset{Reading(i, j, {i, j})} + rest && i != j
    ensures i in s.peers
    ensures
      var (peers, started) := UpdateAlone(i, s.peers[i], j, true);
      Reachable(nodes, With(s, i, peers, started + rest))
  {
    hide Reachable, UpdateAlone, TaskOk, Typed;
    PickEntry(nodes, s, i, j, {i, j}, i, rest);
    assert {i, j} - {i} == {j};
    var s1 := s.(tasks := multiset{Reading(i, j, {j})} + rest);
    PickEntry(nodes, s1, i, j, {j}, j, rest);
    assert {j} - {j} == {};
    var t := Updating(i, j, {}, j, Insert);
    var s2 := s.(tasks := multiset{t} + rest);
    UndisturbedPath(nodes, s2, t, rest, i, j);
    var (peers, started) := UpdateAlone(i, s.peers[i], j, true);
    var s3 := With(s, i, peers, multiset{Reading(i, j, {})} + (started + rest));
    assert Moved(t, None) == Reading(i, j, {});
    Silent(nodes, s3, Reading(i, j, {}), started + rest);
    assert multiset{} + (started + rest) == started + rest;
    assert s3.peers[i := s3.peers[i]] == s3.peers;
  }
}
