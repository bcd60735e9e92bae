/**
  The peer greeting and push protocol as a transition system of named nodes.

  A task is a goroutine or a message, with the place it has reached; every step of a task
  is one locked section or one unlocked read of the program, so tasks interleave freely
  between them. Messages are delivered to the right node, at any time, or are lost.
*/
module Protocol {
  import opened Wrappers

  type Name = string

  /** Greet and push states. */
  datatype Phase = Never | Pending | Done

  datatype Peer = Peer(greet: Phase, push: Phase)

  type Peers = map<Name, Peer>

  // ---- one node: the sections of UpdateNode ----

  /** The next section of an `UpdateNode` call: insert the peer if it is new; merge the
      information into it; read its greet state; schedule a greet; read its push state;
      schedule a push. */
  datatype Section = Insert | Merge | CheckGreet | LockGreet | CheckPush | LockPush

  datatype Spawned = NoTask | GreetTask | PushTask

  datatype Outcome = Outcome(peers: Peers, next: Option<Section>, spawned: Spawned)

  function InsertPeer(peers: Peers, p: Name): Peers {
    if p in peers then peers else peers[p := Peer(Never, Never)]
  }

  function MergeInfo(peers: Peers, p: Name, done: bool): Peers
    requires p in peers
  {
    if done then peers[p := peers[p].(greet := Done)] else peers
  }

  function ScheduleGreet(peers: Peers, p: Name): (Peers, Spawned)
    requires p in peers
  {
    if peers[p].greet != Never then (peers, NoTask)
    else (peers[p := peers[p].(greet := Pending)], GreetTask)
  }

  function SchedulePush(peers: Peers, p: Name): (Peers, Spawned)
    requires p in peers
  {
    if peers[p].push == Pending then (peers, NoTask)
    else (peers[p := peers[p].(push := Pending)], PushTask)
  }

  function FinishPush(peers: Peers, p: Name, ok: bool): Peers
    requires p in peers
  {
    peers[p := peers[p].(push := if ok then Done else Never)]
  }

  /** One section of `UpdateNode` for `p`; `done` says that the information is the greeted
      node's own, so that the greet is done. */
  function UpdateSection(peers: Peers, p: Name, done: bool, section: Section): Outcome
    requires section != Insert ==> p in peers
  {
    match section
    case Insert => Outcome(InsertPeer(peers, p), Some(Merge), NoTask)
    case Merge => Outcome(MergeInfo(peers, p, done), Some(CheckGreet), NoTask)
    case CheckGreet => Outcome(peers, Some(if peers[p].greet == Never then LockGreet else CheckPush), NoTask)
    case LockGreet =>
      var (peers', spawned) := ScheduleGreet(peers, p);
      Outcome(peers', Some(CheckPush), spawned)
    case CheckPush => Outcome(peers, if peers[p].push == Never then Some(LockPush) else None, NoTask)
    case LockPush =>
      var (peers', spawned) := SchedulePush(peers, p);
      Outcome(peers', None, spawned)
  }

  // ---- all nodes ----

  /** Where the handler of a greeting is: inside `UpdateNode`, looking the greeter up,
      scheduling the full update it asked for, or about to answer. */
  datatype Stage = InUpdate(section: Section) | LookUp | Request | Answer

  datatype Task =
    | Greeting(source: Name, target: Name)
    | Serving(at: Name, source: Name, stage: Stage)
    | Reply(source: Name, target: Name, names: set<Name>)
    | Reading(at: Name, source: Name, todo: set<Name>)
    | Updating(at: Name, source: Name, todo: set<Name>, name: Name, section: Section)
    | Pushing(at: Name, target: Name)
    | Pushed(at: Name, target: Name)
    | Receiving(at: Name, source: Name)

  /** `peers` and `tasks` are the system's state; the rest is history: which greetings
      (source, target) have been answered, whether a greeting or an answer was ever lost or
      a push ever failed, and which updates (receiver, sender) were applied or discarded. */
  datatype State = State(
    peers: map<Name, Peers>,
    tasks: multiset<Task>,
    answered: set<(Name, Name)>,
    lost: bool,
    pushFailed: bool,
    applied: set<(Name, Name)>,
    discarded: set<(Name, Name)>)

  /** Nodes are told to greet others (`Join`); a task takes its next step, or picks the next
      entry of an answer it is reading; a greeting or an answer is lost; a push fails. */
  datatype Event =
    | Join(source: Name, target: Name)
    | Advance(task: Task)
    | Pick(task: Task, name: Name)
    | Lose(task: Task)
    | FailPush(task: Task)

  function Init(nodes: set<Name>): State {
    State(map i | i in nodes :: map[], multiset{}, {}, false, false, {}, {})
  }

  /** The task refers to nodes and peers that exist. */
  predicate TaskOk(peers: map<Name, Peers>, t: Task) {
    match t
    case Greeting(i, j) => i in peers && j in peers
    case Serving(c, p, stage) =>
      && c in peers && p in peers
      && (stage.InUpdate? ==> p != c && (stage.section != Insert ==> p in peers[c]))
      && (stage == Request ==> p in peers[c])
      && (!stage.InUpdate? && p != c ==> p in peers[c])
    case Reply(c, p, names) => c in peers && p in peers && names <= peers.Keys
    case Reading(c, f, todo) => c in peers && f in peers && todo <= peers.Keys
    case Updating(c, f, todo, p, section) =>
      && c in peers && f in peers && todo <= peers.Keys && p in peers && p != c
      && (section != Insert ==> p in peers[c])
    case Pushing(c, p) => c in peers && p in peers[c]
    case Pushed(c, p) => c in peers && p in peers[c]
    case Receiving(c, p) => c in peers && p in peers
  }

  predicate Enabled(s: State, e: Event) {
    match e
    case Join(i, j) => i in s.peers && j in s.peers
    case Advance(t) => t in s.tasks && TaskOk(s.peers, t) && (t.Reading? ==> t.todo == {})
    case Pick(t, name) => t in s.tasks && TaskOk(s.peers, t) && t.Reading? && name in t.todo
    case Lose(t) => t in s.tasks && (t.Greeting? || t.Reply?)
    case FailPush(t) => t in s.tasks && TaskOk(s.peers, t) && (t.Pushing? || t.Pushed?)
  }

  function SpawnedTasks(at: Name, p: Name, spawned: Spawned): multiset<Task> {
    match spawned
    case NoTask => multiset{}
    case GreetTask => multiset{Greeting(at, p)}
    case PushTask => multiset{Pushing(at, p)}
  }

  /** What a task leaves behind: the peers of its node, and the tasks that follow it. */
  datatype Effect = Effect(at: Name, peers: Peers, next: multiset<Task>)

  function TaskEffect(peers: map<Name, Peers>, t: Task): Effect
    requires TaskOk(peers, t) && (t.Reading? ==> t.todo == {})
  {
    match t
    case Greeting(i, j) =>
      Effect(j, peers[j], multiset{Serving(j, i, if i == j then LookUp else InUpdate(Insert))})
    case Serving(c, p, stage) =>
      (match stage
       case InUpdate(section) =>
         var o := UpdateSection(peers[c], p, false, section);
         var stage' := if o.next.Some? then InUpdate(o.next.value) else LookUp;
         Effect(c, o.peers, multiset{Serving(c, p, stage')} + SpawnedTasks(c, p, o.spawned))
       case LookUp =>
         Effect(c, peers[c], multiset{Serving(c, p, if p in peers[c] then Request else Answer)})
       case Request =>
         var (peers', spawned) := SchedulePush(peers[c], p);
         Effect(c, peers', multiset{Serving(c, p, Answer)} + SpawnedTasks(c, p, spawned))
       case Answer =>
         Effect(c, peers[c], multiset{Reply(c, p, peers[c].Keys)}))
    case Reply(c, p, names) =>
      Effect(p, peers[p], multiset{Reading(p, c, names + {c})})
    case Reading(c, f, todo) =>
      Effect(c, peers[c], multiset{})
    case Updating(c, f, todo, p, section) =>
      var o := UpdateSection(peers[c], p, p == f, section);
      var next := if o.next.Some? then Updating(c, f, todo, p, o.next.value) else Reading(c, f, todo);
      Effect(c, o.peers, multiset{next} + SpawnedTasks(c, p, o.spawned))
    case Pushing(c, p) =>
      // p is in peers[c], so it is one of the nodes; see Inv
      Effect(c, peers[c], multiset{Pushed(c, p), Receiving(p, c)})
    case Pushed(c, p) =>
      Effect(c, FinishPush(peers[c], p, true), multiset{})
    case Receiving(c, p) =>
      Effect(c, peers[c], multiset{})
  }

  function Apply(s: State, e: Event): State
    requires Enabled(s, e)
  {
    match e
    case Join(i, j) =>
      s.(tasks := s.tasks + multiset{Greeting(i, j)})
    case Advance(t) =>
      var f := TaskEffect(s.peers, t);
      s.(peers := s.peers[f.at := f.peers],
         tasks := s.tasks - multiset{t} + f.next,
         answered := if t.Serving? && t.stage == Answer then s.answered + {(t.source, t.at)} else s.answered,
         applied := if t.Receiving? && t.source in s.peers[t.at] then s.applied + {(t.at, t.source)} else s.applied,
         discarded :=
           if t.Receiving? && t.source !in s.peers[t.at] then s.discarded + {(t.at, t.source)} else s.discarded)
    case Pick(t, name) =>
      var todo := t.todo - {name};
      var next := if name == t.at then Reading(t.at, t.source, todo) else Updating(t.at, t.source, todo, name, Insert);
      s.(tasks := s.tasks - multiset{t} + multiset{next})
    case Lose(t) =>
      s.(tasks := s.tasks - multiset{t}, lost := true)
    case FailPush(t) =>
      s.(peers := s.peers[t.at := FinishPush(s.peers[t.at], t.target, false)],
         tasks := s.tasks - multiset{t}, pushFailed := true)
  }

  /** `states` is a run of the nodes under `events`. */
  ghost predicate IsRun(nodes: set<Name>, states: seq<State>, events: seq<Event>) {
    && |states| == |events| + 1
    && states[0] == Init(nodes)
    && forall k :: 0 <= k < |events| ==> Enabled(states[k], events[k]) && states[k + 1] == Apply(states[k], events[k])
  }
}
