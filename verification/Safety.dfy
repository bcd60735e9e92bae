/**
  What every step of the protocol keeps: well-formed tasks, exclusive pushes, and greet
  states that only move forward.
*/
module Safety {
  import opened Protocol

  ghost predicate PeersOk(peers: map<Name, Peers>) {
    forall i, j :: i in peers && j in peers[i] ==> j in peers && j != i
  }

  ghost predicate Typed(s: State) {
    && PeersOk(s.peers)
    && forall t :: t in s.tasks ==> TaskOk(s.peers, t)
  }

  function Rank(p: Phase): nat {
    match p case Never => 0 case Pending => 1 case Done => 2
  }

  /** Peers are never forgotten, and greet states only move Never, Pending, Done, or jump. */
  ghost predicate Grown(a: map<Name, Peers>, b: map<Name, Peers>) {
    && a.Keys == b.Keys
    && forall i, j :: i in a && j in a[i] ==> j in b[i] && Rank(a[i][j].greet) <= Rank(b[i][j].greet)
  }

  lemma TaskOkGrows(a: map<Name, Peers>, b: map<Name, Peers>, t: Task)
    requires Grown(a, b) && TaskOk(a, t)
    ensures TaskOk(b, t)
  {
  }

  /** A section changes nothing but the record of its peer. */
  lemma SectionLocal(peers: Peers, p: Name, done: bool, section: Section)
    requires section != Insert ==> p in peers
    ensures
      var o := UpdateSection(peers, p, done, section);
      && p in o.peers
      && o.peers == peers[p := o.peers[p]]
      && (p in peers ==> Rank(peers[p].greet) <= Rank(o.peers[p].greet))
      && (o.next.Some? ==> o.next.value != Insert)
  {
  }

  lemma RecordGrows(peers: map<Name, Peers>, c: Name, p: Name, r: Peer)
    requires PeersOk(peers) && c in peers && p in peers && p != c
    requires p in peers[c] ==> Rank(peers[c][p].greet) <= Rank(r.greet)
    ensures
      var peers' := peers[c := peers[c][p := r]];
      PeersOk(peers') && Grown(peers, peers')
  {
  }

  lemma SameGrows(peers: map<Name, Peers>, c: Name)
    requires PeersOk(peers) && c in peers
    ensures peers[c := peers[c]] == peers && Grown(peers, peers)
  {
  }

  ghost predicate EffectTyped(peers: map<Name, Peers>, f: Effect) {
    && f.at in peers
    && Grown(peers, peers[f.at := f.peers])
    && PeersOk(peers[f.at := f.peers])
    && forall u :: u in f.next ==> TaskOk(peers[f.at := f.peers], u)
  }

  lemma AdvanceTyped(peers: map<Name, Peers>, t: Task)
    requires PeersOk(peers) && TaskOk(peers, t) && (t.Reading? ==> t.todo == {})
    ensures EffectTyped(peers, TaskEffect(peers, t))
  {
    match t
    case Updating(c, f, todo, p, section) => UpdatingTyped(peers, t);
    case Serving(c, p, stage) => ServingTyped(peers, t);
    case Pushed(c, p) => RecordGrows(peers, c, p, peers[c][p].(push := Done));
    case Greeting(i, j) => SameGrows(peers, j);
    case Reply(c, p, names) => SameGrows(peers, p);
    case Reading(c, f, todo) => SameGrows(peers, c);
    case Pushing(c, p) => SameGrows(peers, c);
    case Receiving(c, p) => SameGrows(peers, c);
  }

  lemma UpdatingTyped(peers: map<Name, Peers>, t: Task)
    requires PeersOk(peers) && TaskOk(peers, t) && t.Updating?
    ensures EffectTyped(peers, TaskEffect(peers, t))
  {
    var o := UpdateSection(peers[t.at], t.name, t.name == t.source, t.section);
    SectionLocal(peers[t.at], t.name, t.name == t.source, t.section);
    RecordGrows(peers, t.at, t.name, o.peers[t.name]);
  }

  lemma ServingTyped(peers: map<Name, Peers>, t: Task)
    requires PeersOk(peers) && TaskOk(peers, t) && t.Serving?
    ensures EffectTyped(peers, TaskEffect(peers, t))
  {
    match t.stage
    case InUpdate(section) => ServingUpdateTyped(peers, t);
    case Request => RequestTyped(peers, t);
    case LookUp => SameGrows(peers, t.at);
    case Answer => SameGrows(peers, t.at);
  }

  lemma RequestTyped(peers: map<Name, Peers>, t: Task)
    requires PeersOk(peers) && TaskOk(peers, t) && t.Serving? && t.stage == Request
    ensures EffectTyped(peers, TaskEffect(peers, t))
  {
    RecordGrows(peers, t.at, t.source, SchedulePush(peers[t.at], t.source).0[t.source]);
    hide PeersOk, Grown;
  }

  lemma ServingUpdateTyped(peers: map<Name, Peers>, t: Task)
    requires PeersOk(peers) && TaskOk(peers, t) && t.Serving? && t.stage.InUpdate?
    ensures EffectTyped(peers, TaskEffect(peers, t))
  {
    var o := UpdateSection(peers[t.at], t.source, false, t.stage.section);
    SectionLocal(peers[t.at], t.source, false, t.stage.section);
    RecordGrows(peers, t.at, t.source, o.peers[t.source]);
  }

  lemma StepTyped(s: State, e: Event)
    requires Typed(s) && Enabled(s, e)
    ensures Typed(Apply(s, e)) && Grown(s.peers, Apply(s, e).peers)
  {
    var s' := Apply(s, e);
    if e.Advance? {
      AdvanceTyped(s.peers, e.task);
    }
    forall t | t in s'.tasks ensures TaskOk(s'.peers, t) {
      if t in s.tasks {
        TaskOkGrows(s.peers, s'.peers, t);
      }
    }
  }

  // ---- pushes are exclusive ----

  /** Live `PushFullUpdate` tasks of node i for peer j. */
  function LivePushes(s: State, i: Name, j: Name): nat {
    s.tasks[Pushing(i, j)] + s.tasks[Pushed(i, j)]
  }

  function PendingPushes(peers: map<Name, Peers>, i: Name, j: Name): nat {
    if i in peers && j in peers[i] && peers[i][j].push == Pending then 1 else 0
  }

  ghost predicate PushesExclusive(s: State) {
    forall i, j :: LivePushes(s, i, j) == PendingPushes(s.peers, i, j)
  }

  function Is(b: bool): nat {
    if b then 1 else 0
  }

  ghost predicate PushBalance(peers: map<Name, Peers>, t: Task, f: Effect, i: Name, j: Name)
    requires f.at in peers
  {
    f.next[Pushing(i, j)] + f.next[Pushed(i, j)] + PendingPushes(peers, i, j)
    == Is(t == Pushing(i, j) || t == Pushed(i, j)) + PendingPushes(peers[f.at := f.peers], i, j)
  }

  lemma SectionBalance(peers: map<Name, Peers>, c: Name, p: Name, done: bool, section: Section, i: Name, j: Name)
    requires c in peers && (section != Insert ==> p in peers[c])
    ensures
      var o := UpdateSection(peers[c], p, done, section);
      SpawnedTasks(c, p, o.spawned)[Pushing(i, j)] + PendingPushes(peers, i, j)
      == PendingPushes(peers[c := o.peers], i, j)
  {
  }

  lemma UpdatingBalance(peers: map<Name, Peers>, t: Task, i: Name, j: Name)
    requires TaskOk(peers, t) && t.Updating?
    ensures PushBalance(peers, t, TaskEffect(peers, t), i, j)
  {
    SectionBalance(peers, t.at, t.name, t.name == t.source, t.section, i, j);
  }

  lemma ServingBalance(peers: map<Name, Peers>, t: Task, i: Name, j: Name)
    requires TaskOk(peers, t) && t.Serving? && t.stage.InUpdate?
    ensures PushBalance(peers, t, TaskEffect(peers, t), i, j)
  {
    SectionBalance(peers, t.at, t.source, false, t.stage.section, i, j);
  }

  lemma AdvanceBalance(peers: map<Name, Peers>, t: Task, i: Name, j: Name)
    requires TaskOk(peers, t) && (t.Reading? ==> t.todo == {})
    requires t == Pushing(i, j) || t == Pushed(i, j) ==> PendingPushes(peers, i, j) == 1
    ensures PushBalance(peers, t, TaskEffect(peers, t), i, j)
  {
    if t.Updating? {
      UpdatingBalance(peers, t, i, j);
    } else if t.Serving? && t.stage.InUpdate? {
      ServingBalance(peers, t, i, j);
    } else {
      OtherBalance(peers, t, i, j);
    }
  }

  lemma OtherBalance(peers: map<Name, Peers>, t: Task, i: Name, j: Name)
    requires TaskOk(peers, t) && (t.Reading? ==> t.todo == {})
    requires !t.Updating? && !(t.Serving? && t.stage.InUpdate?)
    requires t == Pushing(i, j) || t == Pushed(i, j) ==> PendingPushes(peers, i, j) == 1
    ensures PushBalance(peers, t, TaskEffect(peers, t), i, j)
  {
    if t.Serving? {
      ServedBalance(peers, t, i, j);
    } else if !t.Pushed? {
      var f := TaskEffect(peers, t);
      assert peers[f.at := f.peers] == peers;
    }
  }

  lemma ServedBalance(peers: map<Name, Peers>, t: Task, i: Name, j: Name)
    requires TaskOk(peers, t) && t.Serving? && !t.stage.InUpdate?
    ensures PushBalance(peers, t, TaskEffect(peers, t), i, j)
  {
    var f := TaskEffect(peers, t);
    if t.stage == Request {
      var (peers', spawned) := SchedulePush(peers[t.at], t.source);
      assert f.next == multiset{Serving(t.at, t.source, Answer)} + SpawnedTasks(t.at, t.source, spawned);
    } else {
      assert peers[f.at := f.peers] == peers;
    }
  }

  lemma AdvancePushes(s: State, t: Task, i: Name, j: Name)
    requires Enabled(s, Advance(t)) && LivePushes(s, i, j) == PendingPushes(s.peers, i, j)
    ensures
      var s' := Apply(s, Advance(t));
      LivePushes(s', i, j) == PendingPushes(s'.peers, i, j)
  {
    AdvanceBalance(s.peers, t, i, j);
    hide TaskEffect, TaskOk, PendingPushes;
  }

  lemma StepPushes(s: State, e: Event)
    requires Typed(s) && Enabled(s, e) && PushesExclusive(s)
    ensures PushesExclusive(Apply(s, e))
  {
    var s' := Apply(s, e);
    forall i, j ensures LivePushes(s', i, j) == PendingPushes(s'.peers, i, j) {
      assert LivePushes(s, i, j) == PendingPushes(s.peers, i, j);
      hide PushesExclusive, Typed;
      if e.Advance? {
        AdvancePushes(s, e.task, i, j);
      }
    }
  }

  // ---- greets are scheduled once ----

  /** The step schedules a greet of j by i. */
  predicate SchedulesGreet(s: State, e: Event, i: Name, j: Name)
    requires Enabled(s, e)
  {
    e.Advance? && Greeting(i, j) in TaskEffect(s.peers, e.task).next
  }

  lemma SectionSchedules(peers: Peers, c: Name, p: Name, done: bool, section: Section, i: Name, j: Name)
    requires section != Insert ==> p in peers
    requires Greeting(i, j) in SpawnedTasks(c, p, UpdateSection(peers, p, done, section).spawned)
    ensures i == c && j == p && p in peers && peers[p].greet == Never
    ensures UpdateSection(peers, p, done, section).peers == peers[p := peers[p].(greet := Pending)]
  {
  }

  lemma SchedulingUsesNever(s: State, e: Event, i: Name, j: Name)
    requires Enabled(s, e) && SchedulesGreet(s, e, i, j)
    ensures i in s.peers && j in s.peers[i] && s.peers[i][j].greet == Never
    ensures j in Apply(s, e).peers[i] && Apply(s, e).peers[i][j].greet == Pending
  {
    hide UpdateSection;
    var t := e.task;
    if t.Updating? {
      SectionSchedules(s.peers[t.at], t.at, t.name, t.name == t.source, t.section, i, j);
    } else {
      assert t.Serving? && t.stage.InUpdate?;
      SectionSchedules(s.peers[t.at], t.at, t.source, false, t.stage.section, i, j);
    }
  }

  // ---- runs ----

  lemma {:induction false} RunSafe(nodes: set<Name>, states: seq<State>, events: seq<Event>, k: nat)
    requires IsRun(nodes, states, events) && k <= |events|
    ensures Typed(states[k]) && PushesExclusive(states[k])
  {
    if k > 0 {
      RunSafe(nodes, states, events, k - 1);
      StepTyped(states[k - 1], events[k - 1]);
      StepPushes(states[k - 1], events[k - 1]);
    }
  }

  /** Push exclusivity, over every run: a peer has exactly one live push task while its push
      is pending, and none otherwise. */
  lemma PushExclusivity(nodes: set<Name>, states: seq<State>, events: seq<Event>, k: nat, i: Name, j: Name)
    requires IsRun(nodes, states, events) && k <= |events|
    ensures LivePushes(states[k], i, j) ==
            if i in states[k].peers && j in states[k].peers[i] && states[k].peers[i][j].push == Pending then 1 else 0
  {
    RunSafe(nodes, states, events, k);
  }

  /** Over every run, greet states never move back. */
  lemma {:induction false} GreetMovesForward(nodes: set<Name>, states: seq<State>, events: seq<Event>, a: nat, b: nat)
    requires IsRun(nodes, states, events) && a <= b <= |events|
    ensures Grown(states[a].peers, states[b].peers)
    decreases b
  {
    if a < b {
      GreetMovesForward(nodes, states, events, a, b - 1);
      RunSafe(nodes, states, events, b - 1);
      StepTyped(states[b - 1], events[b - 1]);
    }
  }

  /** Over every run, a node schedules at most one greet per peer. */
  lemma GreetScheduledOnce(nodes: set<Name>, states: seq<State>, events: seq<Event>, a: nat, b: nat, i: Name, j: Name)
    requires IsRun(nodes, states, events) && a < b < |events|
    ensures !(SchedulesGreet(states[a], events[a], i, j) && SchedulesGreet(states[b], events[b], i, j))
  {
    if SchedulesGreet(states[a], events[a], i, j) && SchedulesGreet(states[b], events[b], i, j) {
      RunSafe(nodes, states, events, a);
      RunSafe(nodes, states, events, b);
      SchedulingUsesNever(states[a], events[a], i, j);
      SchedulingUsesNever(states[b], events[b], i, j);
      GreetMovesForward(nodes, states, events, a + 1, b);
    }
  }
}
