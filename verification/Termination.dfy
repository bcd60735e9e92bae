/**
  Greeting comes to rest: a run with finitely many joins is finite, and only a state
  without tasks cannot go on.
*/
module Termination {
  import opened Mesh
  import opened Protocol
  import opened Safety

  // ---- a measure ----

  function SectionWeight(section: Section): nat {
    match section
    case Insert => 9
    case Merge => 8
    case CheckGreet => 7
    case LockGreet => 6
    case CheckPush => 5
    case LockPush => 4
  }

  function StageWeight(stage: Stage): nat {
    match stage
    case InUpdate(section) => 5 + SectionWeight(section)
    case LookUp => 5
    case Request => 4
    case Answer => 0
  }

  /** The most that may still follow from a task among n nodes, apart from greets it will
      schedule. */
  function TaskWeight(t: Task, n: nat): nat {
    match t
    case Greeting(_, _) => GreetWeight(n)
    case Serving(_, _, stage) => AnswerWeight(n) + StageWeight(stage)
    case Reply(_, _, names) => 10 * (|names| + 1) + 2
    case Reading(_, _, todo) => 10 * |todo| + 1
    case Updating(_, _, todo, _, section) => 10 * |todo| + 1 + SectionWeight(section)
    case Pushing(_, _) => 3
    case Pushed(_, _) => 1
    case Receiving(_, _) => 1
  }

  function AnswerWeight(n: nat): nat {
    10 * (n + 1) + 3
  }

  function GreetWeight(n: nat): nat {
    AnswerWeight(n) + 15
  }

  ghost function Weight(tasks: multiset<Task>, n: nat): nat
    decreases |tasks|
  {
    if tasks == multiset{} then 0
    else
      var t :| t in tasks;
      TaskWeight(t, n) + Weight(tasks - multiset{t}, n)
  }

  lemma {:induction false} WeightWithout(tasks: multiset<Task>, t: Task, n: nat)
    requires t in tasks
    ensures Weight(tasks, n) == TaskWeight(t, n) + Weight(tasks - multiset{t}, n)
    decreases |tasks|
  {
    hide TaskWeight;
    var u :| u in tasks && Weight(tasks, n) == TaskWeight(u, n) + Weight(tasks - multiset{u}, n);
    hide Weight;
    if u != t {
      TwoOut(tasks, t, u);
      WeightWithout(tasks - multiset{u}, t, n);
      WeightWithout(tasks - multiset{t}, u, n);
    }
  }

  lemma TwoOut(tasks: multiset<Task>, t: Task, u: Task)
    requires t in tasks && u in tasks && t != u
    ensures t in tasks - multiset{u} && u in tasks - multiset{t}
    ensures tasks - multiset{u} - multiset{t} == tasks - multiset{t} - multiset{u}
    ensures |tasks - multiset{u}| < |tasks| && |tasks - multiset{t}| < |tasks|
  {
  }

  lemma {:induction false} WeightSum(a: multiset<Task>, b: multiset<Task>, n: nat)
    ensures Weight(a + b, n) == Weight(a, n) + Weight(b, n)
    decreases |b|
  {
    if b == multiset{} {
      assert a + b == a;
    } else {
      var t :| t in b;
      WeightWithout(b, t, n);
      WeightWithout(a + b, t, n);
      assert a + b - multiset{t} == a + (b - multiset{t});
      WeightSum(a, b - multiset{t}, n);
    }
  }

  lemma WeightOne(t: Task, n: nat)
    ensures Weight(multiset{t}, n) == TaskWeight(t, n)
  {
    WeightWithout(multiset{t}, t, n);
    assert multiset{t} - multiset{t} == multiset{};
  }

  /** Pairs of nodes with no greet scheduled from the first to the second. */
  function Unscheduled(peers: map<Name, Peers>): set<(Name, Name)> {
    set i, j | i in peers && j in peers && !(j in peers[i] && peers[i][j].greet != Never) :: (i, j)
  }

  ghost function Measure(s: State): nat {
    Weight(s.tasks, |s.peers|) + GreetWeight(|s.peers|) * |Unscheduled(s.peers)|
  }

  lemma UnscheduledShrinks(a: map<Name, Peers>, b: map<Name, Peers>)
    requires Grown(a, b)
    ensures Unscheduled(b) <= Unscheduled(a) && |Unscheduled(b)| <= |Unscheduled(a)|
  {
    SubsetSize(Unscheduled(b), Unscheduled(a));
  }

  lemma SubsetSize<T>(a: set<T>, b: set<T>)
    requires a <= b
    ensures |a| <= |b| && (a != b ==> |a| < |b|)
  {
    assert b == a + (b - a);
  }

  // ---- every step but a join lowers it ----

  lemma NextWeight(t: Task, at: Name, p: Name, spawned: Spawned, n: nat)
    ensures Weight(multiset{t} + SpawnedTasks(at, p, spawned), n)
            == TaskWeight(t, n) + (match spawned case NoTask => 0 case GreetTask => GreetWeight(n) case PushTask => 3)
  {
    WeightSum(multiset{t}, SpawnedTasks(at, p, spawned), n);
    WeightOne(t, n);
  }

  lemma SectionCosts(peers: Peers, p: Name, done: bool, section: Section)
    requires section != Insert ==> p in peers
    ensures
      var o := UpdateSection(peers, p, done, section);
      var next := if o.next.Some? then SectionWeight(o.next.value) else 0;
      && next + (if o.spawned == PushTask then 3 else 0) < SectionWeight(section)
      && (o.spawned == GreetTask ==> p in peers && peers[p].greet == Never && o.peers[p].greet == Pending)
  {
  }

  lemma NamesSize(names: set<Name>, peers: map<Name, Peers>)
    requires names <= peers.Keys
    ensures |names| <= |peers|
  {
    SubsetSize(names, peers.Keys);
  }

  /** What an effect may cost: a greet it schedules is paid for by the pair it schedules. */
  ghost predicate Cheaper(peers: map<Name, Peers>, t: Task, f: Effect)
    requires f.at in peers
  {
    var n := |peers|;
    Weight(f.next, n) + GreetWeight(n) * |Unscheduled(peers[f.at := f.peers])|
      < TaskWeight(t, n) + GreetWeight(n) * |Unscheduled(peers)|
  }

  lemma UpdateCheaper(peers: map<Name, Peers>, c: Name, p: Name, done: bool, section: Section)
    requires PeersOk(peers) && c in peers && p in peers && p != c && (section != Insert ==> p in peers[c])
    ensures
      var n, o := |peers|, UpdateSection(peers[c], p, done, section);
      (if o.spawned == GreetTask then GreetWeight(n) else 0)
      + GreetWeight(n) * |Unscheduled(peers[c := o.peers])| <= GreetWeight(n) * |Unscheduled(peers)|
  {
    var n, o := |peers|, UpdateSection(peers[c], p, done, section);
    SectionLocal(peers[c], p, done, section);
    RecordGrows(peers, c, p, o.peers[p]);
    UnscheduledShrinks(peers, peers[c := o.peers]);
    SectionCosts(peers[c], p, done, section);
    hide UpdateSection, Unscheduled, PeersOk, Grown;
    if o.spawned == GreetTask {
      GreetUnscheduled(peers, c, p, done, section);
      Times(GreetWeight(n), |Unscheduled(peers[c := o.peers])| + 1, |Unscheduled(peers)|);
    } else {
      Times(GreetWeight(n), |Unscheduled(peers[c := o.peers])|, |Unscheduled(peers)|);
    }
  }

  /** Scheduling a greet takes its pair out. */
  lemma GreetUnscheduled(peers: map<Name, Peers>, c: Name, p: Name, done: bool, section: Section)
    requires PeersOk(peers) && c in peers && p in peers && p != c && (section != Insert ==> p in peers[c])
    requires UpdateSection(peers[c], p, done, section).spawned == GreetTask
    ensures
      var peers' := peers[c := UpdateSection(peers[c], p, done, section).peers];
      |Unscheduled(peers')| + 1 <= |Unscheduled(peers)|
  {
    var o := UpdateSection(peers[c], p, done, section);
    SectionLocal(peers[c], p, done, section);
    RecordGrows(peers, c, p, o.peers[p]);
    UnscheduledShrinks(peers, peers[c := o.peers]);
    assert (c, p) in Unscheduled(peers) && (c, p) !in Unscheduled(peers[c := o.peers]);
    SubsetSize(Unscheduled(peers[c := o.peers]), Unscheduled(peers));
  }

  lemma Times(g: nat, b: nat, a: nat)
    requires b <= a
    ensures g * b <= g * a
  {
  }

  lemma UpdatingCheaper(peers: map<Name, Peers>, t: Task)
    requires PeersOk(peers) && TaskOk(peers, t) && t.Updating?
    ensures Cheaper(peers, t, TaskEffect(peers, t))
  {
    var done := t.name == t.source;
    var o := UpdateSection(peers[t.at], t.name, done, t.section);
    var next := if o.next.Some? then t.(section := o.next.value) else Reading(t.at, t.source, t.todo);
    NextWeight(next, t.at, t.name, o.spawned, |peers|);
    SectionCosts(peers[t.at], t.name, done, t.section);
    UpdateCheaper(peers, t.at, t.name, done, t.section);
  }

  lemma ServingCheaper(peers: map<Name, Peers>, t: Task)
    requires PeersOk(peers) && TaskOk(peers, t) && t.Serving? && t.stage.InUpdate?
    ensures Cheaper(peers, t, TaskEffect(peers, t))
  {
    var o := UpdateSection(peers[t.at], t.source, false, t.stage.section);
    var next := t.(stage := if o.next.Some? then InUpdate(o.next.value) else LookUp);
    NextWeight(next, t.at, t.source, o.spawned, |peers|);
    SectionCosts(peers[t.at], t.source, false, t.stage.section);
    UpdateCheaper(peers, t.at, t.source, false, t.stage.section);
  }

  lemma RequestCheaper(peers: map<Name, Peers>, t: Task)
    requires PeersOk(peers) && TaskOk(peers, t) && t.Serving? && t.stage == Request
    ensures Cheaper(peers, t, TaskEffect(peers, t))
  {
    var (peers', spawned) := SchedulePush(peers[t.at], t.source);
    NextWeight(Serving(t.at, t.source, Answer), t.at, t.source, spawned, |peers|);
    hide Weight;
    RequestUnscheduled(peers, t.at, t.source);
  }

  lemma RequestUnscheduled(peers: map<Name, Peers>, c: Name, p: Name)
    requires c in peers && p in peers[c]
    ensures Unscheduled(peers[c := SchedulePush(peers[c], p).0]) == Unscheduled(peers)
  {
  }

  lemma OtherCheaper(peers: map<Name, Peers>, t: Task)
    requires PeersOk(peers) && TaskOk(peers, t) && (t.Reading? ==> t.todo == {})
    requires !t.Updating? && (t.Serving? ==> !t.stage.InUpdate? && t.stage != Request)
    ensures Cheaper(peers, t, TaskEffect(peers, t))
  {
    SameUnscheduled(peers, t);
    NextLighter(peers, t);
  }

  lemma SameUnscheduled(peers: map<Name, Peers>, t: Task)
    requires TaskOk(peers, t) && (t.Reading? ==> t.todo == {})
    requires !t.Updating? && (t.Serving? ==> !t.stage.InUpdate? && t.stage != Request)
    ensures
      var f := TaskEffect(peers, t);
      f.at in peers && Unscheduled(peers[f.at := f.peers]) == Unscheduled(peers)
  {
    var f := TaskEffect(peers, t);
    if !t.Pushed? {
      assert peers[f.at := f.peers] == peers;
    } else {
      assert Unscheduled(peers[f.at := f.peers]) == Unscheduled(peers);
    }
  }

  lemma ReplyLighter(c: Name, p: Name, names: set<Name>, n: nat)
    ensures Weight(multiset{Reading(p, c, names + {c})}, n) < TaskWeight(Reply(c, p, names), n)
  {
    WeightOne(Reading(p, c, names + {c}), n);
    SubsetSize(names + {c} - names, {c});
    assert names + {c} == names + (names + {c} - names);
  }

  lemma NextLighter(peers: map<Name, Peers>, t: Task)
    requires PeersOk(peers) && TaskOk(peers, t) && (t.Reading? ==> t.todo == {})
    requires !t.Updating? && (t.Serving? ==> !t.stage.InUpdate? && t.stage != Request)
    ensures Weight(TaskEffect(peers, t).next, |peers|) < TaskWeight(t, |peers|)
  {
    hide PeersOk;
    var n := |peers|;
    match t
    case Greeting(i, j) => WeightOne(Serving(j, i, if i == j then LookUp else InUpdate(Insert)), n);
    case Serving(c, p, stage) => ServedLighter(peers, t);
    case Reply(c, p, names) => ReplyLighter(c, p, names, n);
    case Pushing(c, p) => PushedWeight(c, p, n);
    case Pushed(c, p) =>
    case Reading(c, f, todo) =>
    case Receiving(c, p) =>
  }

  lemma ServedLighter(peers: map<Name, Peers>, t: Task)
    requires TaskOk(peers, t) && t.Serving? && !t.stage.InUpdate? && t.stage != Request
    requires PeersOk(peers)
    ensures Weight(TaskEffect(peers, t).next, |peers|) < TaskWeight(t, |peers|)
  {
    var n := |peers|;
    if t.stage == Answer {
      WeightOne(Reply(t.at, t.source, peers[t.at].Keys), n);
      NamesSize(peers[t.at].Keys, peers);
    } else {
      WeightOne(Serving(t.at, t.source, if t.source in peers[t.at] then Request else Answer), n);
    }
  }

  lemma PushedWeight(c: Name, p: Name, n: nat)
    ensures Weight(multiset{Pushed(c, p), Receiving(p, c)}, n) == 2
  {
    WeightSum(multiset{Pushed(c, p)}, multiset{Receiving(p, c)}, n);
    assert multiset{Pushed(c, p), Receiving(p, c)} == multiset{Pushed(c, p)} + multiset{Receiving(p, c)};
    WeightOne(Pushed(c, p), n);
    WeightOne(Receiving(p, c), n);
  }

  lemma AdvanceCheaper(peers: map<Name, Peers>, t: Task)
    requires PeersOk(peers) && TaskOk(peers, t) && (t.Reading? ==> t.todo == {})
    ensures Cheaper(peers, t, TaskEffect(peers, t))
  {
    if t.Updating? {
      UpdatingCheaper(peers, t);
    } else if t.Serving? && t.stage.InUpdate? {
      ServingCheaper(peers, t);
    } else if t.Serving? && t.stage == Request {
      RequestCheaper(peers, t);
    } else {
      OtherCheaper(peers, t);
    }
  }

  /** Replacing a task by lighter ones. */
  lemma ReplaceTask(tasks: multiset<Task>, t: Task, next: multiset<Task>, n: nat)
    requires t in tasks
    ensures Weight(tasks - multiset{t} + next, n) == Weight(tasks, n) - TaskWeight(t, n) + Weight(next, n)
  {
    WeightWithout(tasks, t, n);
    WeightSum(tasks - multiset{t}, next, n);
  }

  lemma PickLighter(t: Task, name: Name, next: Task, n: nat)
    requires t.Reading? && name in t.todo
    requires next in {Reading(t.at, t.source, t.todo - {name}), Updating(t.at, t.source, t.todo - {name}, name, Insert)}
    ensures Weight(multiset{next}, n) < TaskWeight(t, n)
  {
    WeightOne(next, n);
    assert |t.todo| == |t.todo - {name}| + 1;
  }

  /** Every step lowers the measure, except that a join raises it by a constant. */
  lemma StepMeasure(s: State, e: Event)
    requires Typed(s) && Enabled(s, e)
    ensures
      if e.Join? then Measure(Apply(s, e)) == Measure(s) + GreetWeight(|s.peers|)
      else Measure(Apply(s, e)) < Measure(s)
  {
    if e.Join? {
      WeightSum(s.tasks, multiset{Greeting(e.source, e.target)}, |s.peers|);
      WeightOne(Greeting(e.source, e.target), |s.peers|);
    } else if e.Advance? {
      AdvanceMeasure(s, e.task);
    } else {
      OtherMeasure(s, e);
    }
  }

  lemma AdvanceMeasure(s: State, t: Task)
    requires Typed(s) && Enabled(s, Advance(t))
    ensures Measure(Apply(s, Advance(t))) < Measure(s)
  {
    var s' := Apply(s, Advance(t));
    StepTyped(s, Advance(t));
    ReplaceTask(s.tasks, t, TaskEffect(s.peers, t).next, |s.peers|);
    AdvanceCheaper(s.peers, t);
  }

  lemma OtherMeasure(s: State, e: Event)
    requires Typed(s) && Enabled(s, e) && !e.Join? && !e.Advance?
    ensures Measure(Apply(s, e)) < Measure(s)
  {
    var t, n, s' := e.task, |s.peers|, Apply(s, e);
    StepTyped(s, e);
    assert Unscheduled(s'.peers) == Unscheduled(s.peers);
    WeightWithout(s.tasks, t, n);
    if e.Pick? {
      var todo := t.todo - {e.name};
      var next :=
        if e.name == t.at then Reading(t.at, t.source, todo) else Updating(t.at, t.source, todo, e.name, Insert);
      ReplaceTask(s.tasks, t, multiset{next}, n);
      PickLighter(t, e.name, next, n);
    }
  }

  // ---- runs ----

  function Joins(events: seq<Event>): nat {
    if events == [] then 0 else Joins(events[..|events| - 1]) + (if events[|events| - 1].Join? then 1 else 0)
  }

  lemma {:induction false} RunMeasure(nodes: set<Name>, states: seq<State>, events: seq<Event>, k: nat)
    requires IsRun(nodes, states, events) && k <= |events|
    ensures states[k].peers.Keys == nodes
    ensures Measure(states[k]) + k <= Measure(Init(nodes)) + JoinCost(|nodes|, Joins(events[..k]))
  {
    hide Measure, JoinCost, Typed, PushesExclusive, Enabled, Apply;
    if k > 0 {
      RunMeasure(nodes, states, events, k - 1);
      RunSafe(nodes, states, events, k - 1);
      StepCost(states[k - 1], events[k - 1]);
      assert events[..k][..k - 1] == events[..k - 1];
      assert |states[k - 1].peers| == |states[k - 1].peers.Keys|;
      JoinCosts(|nodes|, Joins(events[..k - 1]));
    }
  }

  function JoinCost(n: nat, joins: nat): nat {
    (GreetWeight(n) + 1) * joins
  }

  lemma JoinCosts(n: nat, joins: nat)
    ensures JoinCost(n, joins + 1) == JoinCost(n, joins) + GreetWeight(n) + 1
  {
  }

  lemma StepCost(s: State, e: Event)
    requires Typed(s) && Enabled(s, e)
    ensures Apply(s, e).peers.Keys == s.peers.Keys
    ensures Measure(Apply(s, e)) + 1 <= Measure(s) + if e.Join? then GreetWeight(|s.peers|) + 1 else 0
  {
    StepMeasure(s, e);
    StepTyped(s, e);
  }

  lemma {:induction false} SquareSize(a: set<Name>, b: set<Name>, pairs: set<(Name, Name)>)
    requires forall q :: q in pairs ==> q.0 in a && q.1 in b
    ensures |pairs| <= |a| * |b|
    decreases |a|
  {
    if a == {} {
      assert pairs == {};
    } else {
      var x :| x in a;
      var row := set q | q in pairs && q.0 == x;
      var ys := set q | q in row :: q.1;
      SquareSize(a - {x}, b, pairs - row);
      RowSize(row, x, b);
      assert pairs == (pairs - row) + row;
      assert |a| == |a - {x}| + 1;
      assert |a| * |b| == |a - {x}| * |b| + |b|;
    }
  }

  lemma {:induction false} RowSize(row: set<(Name, Name)>, x: Name, b: set<Name>)
    requires forall q :: q in row ==> q.0 == x && q.1 in b
    ensures |row| <= |b|
    decreases |row|
  {
    if row != {} {
      var q :| q in row;
      RowSize(row - {q}, x, b - {q.1});
    }
  }

  /** Greeting terminates: with n nodes, a run with j joins has at most
      (10 n + 28) n^2 + (10 n + 29) j steps, however its tasks interleave and whatever is lost. */
  lemma RunsAreFinite(nodes: set<Name>, states: seq<State>, events: seq<Event>)
    requires IsRun(nodes, states, events)
    ensures
      var n := |nodes|;
      |events| <= (10 * n + 28) * (n * n) + (10 * n + 29) * Joins(events)
  {
    hide Measure, IsRun;
    RunMeasure(nodes, states, events, |events|);
    assert events[..|events|] == events;
    InitMeasure(nodes);
  }

  lemma InitMeasure(nodes: set<Name>)
    ensures Measure(Init(nodes)) <= GreetWeight(|nodes|) * (|nodes| * |nodes|)
  {
    var s := Init(nodes);
    assert s.peers.Keys == nodes && |s.peers| == |s.peers.Keys|;
    SquareSize(nodes, nodes, Unscheduled(s.peers));
    Times(GreetWeight(|nodes|), |Unscheduled(s.peers)|, |nodes| * |nodes|);
  }

  /** Only a state without tasks cannot go on: some task can always take a step, without
      anything being lost. */
  lemma Progress(nodes: set<Name>, states: seq<State>, events: seq<Event>, k: nat) returns (e: Event)
    requires IsRun(nodes, states, events) && k <= |events| && !Quiescent(states[k])
    ensures Enabled(states[k], e) && (e.Advance? || e.Pick?)
  {
    RunSafe(nodes, states, events, k);
    var t :| t in states[k].tasks;
    if t.Reading? && t.todo != {} {
      var name :| name in t.todo;
      e := Pick(t, name);
    } else {
      e := Advance(t);
    }
  }
}
