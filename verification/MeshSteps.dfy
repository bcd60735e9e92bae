/**
  Every step of the protocol keeps the invariant behind the full mesh.
*/
module MeshSteps {
  import opened Mesh
  import opened Protocol
  import opened Safety
  import opened Wrappers

  /** A step replaces at most one task. */
  predicate Replaces(e: Event, t: Task) {
    !e.Join? && e.task == t
  }

  lemma OthersStay(s: State, e: Event)
    requires Enabled(s, e)
    ensures forall w :: w in s.tasks && !Replaces(e, w) ==> w in Apply(s, e).tasks
    ensures e.Advance? ==> forall w :: w in TaskEffect(s.peers, e.task).next ==> w in Apply(s, e).tasks
    ensures e.Advance? ==>
              forall w :: w in Apply(s, e).tasks ==> w in s.tasks || w in TaskEffect(s.peers, e.task).next
  {
  }

  // ---- how one section of an UpdateNode moves on ----

  /** The task an `UpdateNode` becomes after its section. */
  function Moved(t: Task, next: Option<Section>): Task
    requires t.Updating? || (t.Serving? && t.stage.InUpdate?)
  {
    if t.Updating? then
      if next.Some? then t.(section := next.value) else Reading(t.at, t.source, t.todo)
    else
      t.(stage := if next.Some? then InUpdate(next.value) else LookUp)
  }

  function OutcomeOf(peers: map<Name, Peers>, t: Task): Outcome
    requires TaskOk(peers, t) && (t.Updating? || (t.Serving? && t.stage.InUpdate?))
  {
    if t.Updating? then UpdateSection(peers[t.at], t.name, t.name == t.source, t.section)
    else UpdateSection(peers[t.at], t.source, false, t.stage.section)
  }

  lemma UpdateMoves(peers: map<Name, Peers>, t: Task, i: Name, j: Name)
    requires TaskOk(peers, t) && UpdatesPeer(t, i, j)
    ensures
      var o, f := OutcomeOf(peers, t), TaskEffect(peers, t);
      && f.at == i && f.peers == o.peers
      && f.next == multiset{Moved(t, o.next)} + SpawnedTasks(i, j, o.spawned)
      && (o.next.Some? ==> UpdatesPeer(Moved(t, o.next), i, j) && SectionOf(Moved(t, o.next)) == o.next.value)
  {
  }

  /** What may follow a section of an `UpdateNode` for p. */
  lemma UpdateNext(peers: map<Name, Peers>, t: Task, p: Name, u: Task)
    requires TaskOk(peers, t) && (t.Serving? || t.Updating?) && UpdatesPeer(t, t.at, p)
    requires u in TaskEffect(peers, t).next
    ensures u == Moved(t, OutcomeOf(peers, t).next) || u == Greeting(t.at, p) || u == Pushing(t.at, p)
  {
    UpdateMoves(peers, t, t.at, p);
    hide TaskEffect, TaskOk, UpdateSection, Moved;
    var o := OutcomeOf(peers, t);
    assert u == Moved(t, o.next) || u in SpawnedTasks(t.at, p, o.spawned);
  }

  /** What may follow the other steps of handling a greeting. */
  lemma ServedNext(peers: map<Name, Peers>, t: Task, u: Task)
    requires TaskOk(peers, t) && t.Serving? && !t.stage.InUpdate?
    requires u in TaskEffect(peers, t).next
    ensures
      if t.stage == Answer then u == Reply(t.at, t.source, peers[t.at].Keys)
      else u == Pushing(t.at, t.source) || (u == Serving(t.at, t.source, u.stage) && !u.stage.InUpdate?)
  {
    if t.stage == Request {
      var o := SchedulePush(peers[t.at], t.source);
      assert u == Serving(t.at, t.source, Answer) || u in SpawnedTasks(t.at, t.source, o.1);
    }
  }

  /** What may follow any other task. */
  lemma OtherNext(peers: map<Name, Peers>, t: Task, u: Task)
    requires TaskOk(peers, t) && (t.Reading? ==> t.todo == {}) && !t.Updating? && !t.Serving?
    requires u in TaskEffect(peers, t).next
    ensures t.Greeting? ==> u == Serving(t.target, t.source, if t.source == t.target then LookUp else InUpdate(Insert))
    ensures t.Reply? ==> u == Reading(t.target, t.source, t.names + {t.source})
    ensures t.Pushing? ==> u == Pushed(t.at, t.target) || u == Receiving(t.target, t.at)
    ensures t.Greeting? || t.Reply? || t.Pushing?
  {
  }

  lemma UpdateElsewhere(peers: map<Name, Peers>, t: Task, p: Name, i: Name, j: Name)
    requires TaskOk(peers, t) && (t.Serving? || t.Updating?) && UpdatesPeer(t, t.at, p) && !(t.at == i && p == j)
    ensures SameGreet(peers, peers[TaskEffect(peers, t).at := TaskEffect(peers, t).peers], i, j)
  {
    UpdateMoves(peers, t, t.at, p);
    SectionLocal(peers[t.at], p, t.Updating? && p == t.source, SectionOf(t));
  }

  predicate SameGreet(a: map<Name, Peers>, b: map<Name, Peers>, i: Name, j: Name) {
    && (i in a && j in a[i] <==> i in b && j in b[i])
    && (i in a && j in a[i] ==> a[i][j].greet == b[i][j].greet)
  }

  lemma PushElsewhere(peers: map<Name, Peers>, c: Name, p: Name, push: Phase, i: Name, j: Name)
    requires c in peers && p in peers[c]
    ensures SameGreet(peers, peers[c := peers[c][p := peers[c][p].(push := push)]], i, j)
  {
  }

  lemma AdvanceElsewhere(peers: map<Name, Peers>, t: Task, i: Name, j: Name)
    requires TaskOk(peers, t) && (t.Reading? ==> t.todo == {}) && !UpdatesPeer(t, i, j)
    ensures SameGreet(peers, peers[TaskEffect(peers, t).at := TaskEffect(peers, t).peers], i, j)
  {
    if t.Updating? {
      UpdateElsewhere(peers, t, t.name, i, j);
    } else if t.Serving? && t.stage.InUpdate? {
      UpdateElsewhere(peers, t, t.source, i, j);
    } else {
      NoUpdateElsewhere(peers, t, i, j);
    }
  }

  lemma NoUpdateElsewhere(peers: map<Name, Peers>, t: Task, i: Name, j: Name)
    requires TaskOk(peers, t) && (t.Reading? ==> t.todo == {})
    requires !t.Updating? && !(t.Serving? && t.stage.InUpdate?)
    ensures SameGreet(peers, peers[TaskEffect(peers, t).at := TaskEffect(peers, t).peers], i, j)
  {
    if t.Pushed? {
      PushElsewhere(peers, t.at, t.target, Done, i, j);
    } else if t.Serving? && t.stage == Request {
      PushElsewhere(peers, t.at, t.source, SchedulePush(peers[t.at], t.source).0[t.source].push, i, j);
      assert SchedulePush(peers[t.at], t.source).0
        == peers[t.at][t.source :=
             peers[t.at][t.source].(push := SchedulePush(peers[t.at], t.source).0[t.source].push)];
    } else {
      var f := TaskEffect(peers, t);
      assert f.peers == peers[f.at];
    }
  }

  /** Only an `UpdateNode` for j at i changes the greet state i has recorded for j. */
  lemma GreetUntouched(s: State, e: Event, i: Name, j: Name)
    requires Typed(s) && Enabled(s, e) && !(e.Advance? && UpdatesPeer(e.task, i, j))
    ensures SameGreet(s.peers, Apply(s, e).peers, i, j)
  {
    if e.FailPush? {
      PushElsewhere(s.peers, e.task.at, e.task.target, Never, i, j);
    } else if e.Advance? {
      AdvanceElsewhere(s.peers, e.task, i, j);
    }
  }

  // ---- greets ----

  lemma StepGreet(s: State, e: Event, i: Name, j: Name)
    requires Inv(s) && Enabled(s, e) && Knows(Apply(s, e), i, j)
    ensures GreetInv(Apply(s, e), i, j)
  {
    if e.Advance? && UpdatesPeer(e.task, i, j) {
      GreetUpdated(s, e.task, i, j);
    } else {
      GreetUntouched(s, e, i, j);
      hide TaskEffect, TaskOk, Typed, AnsweredInv, PushInv, IntroducedInv, TaskInv;
      assert GreetInv(s, i, j);
      GreetAccounted(s, e, i, j);
    }
  }

  /** A greet state that a step leaves alone stays accounted for. */
  lemma GreetAccounted(s: State, e: Event, i: Name, j: Name)
    requires Typed(s) && Enabled(s, e) && Knows(s, i, j) && GreetInv(s, i, j)
    requires !(e.Advance? && UpdatesPeer(e.task, i, j))
    ensures
      var s', greet := Apply(s, e), s.peers[i][j].greet;
      && (greet == Never ==> exists w :: w in s'.tasks && BeforeGreet(w, i, j))
      && (greet == Pending ==> s'.lost || (i, j) in s'.answered || exists w :: w in s'.tasks && OnItsWay(w, i, j))
      && (greet == Done ==> (i, j) in s'.answered)
  {
    OthersStay(s, e);
    var s' := Apply(s, e);
    if s.peers[i][j].greet == Never {
      var w :| w in s.tasks && BeforeGreet(w, i, j);
      hide TaskEffect, Typed;
      assert !Replaces(e, w);
      assert w in s'.tasks;
    } else if s.peers[i][j].greet == Pending && !s.lost && (i, j) !in s.answered {
      var w :| w in s.tasks && OnItsWay(w, i, j);
      if Replaces(e, w) {
        GreetingMoves(s, e, i, j);
      } else {
        assert w in s'.tasks;
      }
    }
  }

  lemma GreetUpdated(s: State, t: Task, i: Name, j: Name)
    requires Inv(s) && Enabled(s, Advance(t)) && UpdatesPeer(t, i, j) && Knows(Apply(s, Advance(t)), i, j)
    ensures GreetInv(Apply(s, Advance(t)), i, j)
  {
    assert TaskInv(s, t);
    GreetSection(s, t, i, j);
    hide TaskEffect, UpdateSection, TaskOk, AnsweredInv, PushInv, IntroducedInv, Typed, BeforeGreet, OnItsWay, Apply;
    var s' := Apply(s, Advance(t));
    if Knows(s, i, j) {
      assert GreetInv(s, i, j);
      if s.peers[i][j].greet != Never || !BeforeGreet(t, i, j) {
        GreetStays(s, t, i, j);
      }
    }
  }

  /** What a section does to the greet state, and which tasks account for that. */
  lemma GreetSection(s: State, t: Task, i: Name, j: Name)
    requires Enabled(s, Advance(t)) && UpdatesPeer(t, i, j)
    ensures
      var s' := Apply(s, Advance(t));
      && Knows(s', i, j)
      && s.answered <= s'.answered
      && var known, greet := Knows(s, i, j), s'.peers[i][j].greet;
         && (greet == Never ==>
               || (known && s.peers[i][j].greet == Never && !BeforeGreet(t, i, j))
               || exists u :: u in s'.tasks && BeforeGreet(u, i, j))
         && (greet == Pending ==>
               || (known && s.peers[i][j].greet != Never)
               || exists u :: u in s'.tasks && OnItsWay(u, i, j))
         && (greet == Done ==> (known && s.peers[i][j].greet == Done) || (t.Updating? && t.source == j && t.at == i))
  {
    var s' := Apply(s, Advance(t));
    UpdateMoves(s.peers, t, i, j);
    SectionGreets(s.peers, t, i, j);
    OthersStay(s, Advance(t));
    var o := OutcomeOf(s.peers, t);
    var u := Moved(t, o.next);
    assert u in s'.tasks;
    hide TaskEffect, UpdateSection, TaskOk, OutcomeOf, Moved;
    if o.spawned == GreetTask {
      assert Greeting(i, j) in SpawnedTasks(i, j, o.spawned);
      assert Greeting(i, j) in s'.tasks && OnItsWay(Greeting(i, j), i, j);
    }
  }

  /** Other tasks keep accounting for a greet state. */
  lemma GreetStays(s: State, t: Task, i: Name, j: Name)
    requires Inv(s) && Enabled(s, Advance(t)) && UpdatesPeer(t, i, j) && Knows(s, i, j)
    requires s.peers[i][j].greet == Never ==> !BeforeGreet(t, i, j)
    ensures
      var s' := Apply(s, Advance(t));
      if s.peers[i][j].greet == Never then exists w :: w in s'.tasks && BeforeGreet(w, i, j)
      else s'.lost || (i, j) in s'.answered || exists w :: w in s'.tasks && OnItsWay(w, i, j)
  {
    assert GreetInv(s, i, j);
    var s' := Apply(s, Advance(t));
    OthersStay(s, Advance(t));
    if s.peers[i][j].greet == Never {
      var w :| w in s.tasks && BeforeGreet(w, i, j);
      assert w in s'.tasks;
    } else if !s.lost && (i, j) !in s.answered {
      var w :| w in s.tasks && OnItsWay(w, i, j);
      assert w in s'.tasks;
    }
  }

  /** The greet state after a section of `UpdateNode`: still `Never` only on the way to
      scheduling; otherwise scheduled by this section, or done by merging an answer. */
  lemma SectionGreets(peers: map<Name, Peers>, t: Task, i: Name, j: Name)
    requires TaskOk(peers, t) && UpdatesPeer(t, i, j)
    ensures
      var o := OutcomeOf(peers, t);
      var u, greet := Moved(t, o.next), o.peers[j].greet;
      var known := j in peers[i];
      && j in o.peers
      && (!known ==> greet == Never && BeforeGreet(u, i, j))
      && (known && BeforeGreet(t, i, j) && greet == Never ==> BeforeGreet(u, i, j))
      && (known && peers[i][j].greet == Never && greet != Never ==>
            (o.spawned == GreetTask && greet == Pending) || (t.Updating? && t.source == j && greet == Done))
      && (known && peers[i][j].greet != Never ==> greet != Never)
      && (greet == Done ==> (known && peers[i][j].greet == Done) || (t.Updating? && t.source == j))
  {
  }

  /** A greeting on its way arrives, is handled, and is answered -- or is lost. */
  lemma GreetingMoves(s: State, e: Event, i: Name, j: Name)
    requires Typed(s) && Enabled(s, e) && !e.Join? && OnItsWay(e.task, i, j)
    ensures
      var s' := Apply(s, e);
      s'.lost || (i, j) in s'.answered || exists t :: t in s'.tasks && OnItsWay(t, i, j)
  {
    var t := e.task;
    OthersStay(s, e);
    if e.Advance? {
      var f := TaskEffect(s.peers, t);
      if t.Greeting? {
        var u := Serving(j, i, if i == j then LookUp else InUpdate(Insert));
        assert u in f.next && OnItsWay(u, i, j);
      } else if t.stage.InUpdate? {
        UpdateMoves(s.peers, t, t.at, t.source);
        assert Moved(t, OutcomeOf(s.peers, t).next) in f.next;
      } else if t.stage != Answer {
        var u := Serving(j, i, if t.stage == Request || i !in s.peers[j] then Answer else Request);
        assert u in f.next && OnItsWay(u, i, j);
      }
    }
  }

  // ---- answers ----

  /** What an answer becomes as it is read; an `UpdateNode` also changes peers. */
  lemma AnswerMoves(s: State, e: Event, i: Name, j: Name) returns (u: Task)
    requires Typed(s) && Enabled(s, e) && !e.Join? && !e.Lose? && Answers(e.task, i, j)
    requires e.task.Reading? ==> e.task.todo != {}
    ensures u in Apply(s, e).tasks && !u.Reply? && Answers(u, i, j)
    ensures forall x :: x != i && Carries(e.task, i, x) ==>
              || Carries(u, i, x)
              || (e.task.Updating? && e.task.section == Insert && e.task.name == x && Knows(Apply(s, e), i, x))
    ensures e.task.Updating? && e.task.section == Insert ==>
              u == e.task.(section := Merge)
    ensures e.task.Updating? && e.task.section == Merge && e.task.name == j ==>
              Knows(Apply(s, e), i, j) && Apply(s, e).peers[i][j].greet == Done
  {
    if e.task.Updating? {
      u := UpdatingMoves(s, e.task);
    } else if e.task.Reply? {
      u := ReplyMoves(s, e.task);
    } else {
      u := ReadingMoves(s, e);
    }
  }

  /** An answer's names are what its reader has to act on. */
  lemma ReplyMoves(s: State, t: Task) returns (u: Task)
    requires Enabled(s, Advance(t)) && t.Reply?
    ensures u in Apply(s, Advance(t)).tasks && u == Reading(t.target, t.source, t.names + {t.source})
    ensures forall x :: Carries(t, t.target, x) ==> Carries(u, t.target, x)
  {
    OthersStay(s, Advance(t));
    u := Reading(t.target, t.source, t.names + {t.source});
    assert u in TaskEffect(s.peers, t).next;
  }

  /** A picked name is still to be acted on, unless it is the reader's own. */
  lemma ReadingMoves(s: State, e: Event) returns (u: Task)
    requires Enabled(s, e) && e.Pick?
    ensures u in Apply(s, e).tasks && !u.Reply? && Answers(u, e.task.at, e.task.source)
    ensures forall x :: x != e.task.at && Carries(e.task, e.task.at, x) ==> Carries(u, e.task.at, x)
  {
    var t := e.task;
    var todo := t.todo - {e.name};
    u := if e.name == t.at then Reading(t.at, t.source, todo) else Updating(t.at, t.source, todo, e.name, Insert);
  }

  lemma UpdatingMoves(s: State, t: Task) returns (u: Task)
    requires Typed(s) && Enabled(s, Advance(t)) && t.Updating?
    ensures
      var s', o := Apply(s, Advance(t)), OutcomeOf(s.peers, t);
      && u == Moved(t, o.next) && u in s'.tasks
      && Knows(s', t.at, t.name)
      && (t.section == Merge && t.name == t.source ==> s'.peers[t.at][t.name].greet == Done)
  {
    u := Moved(t, OutcomeOf(s.peers, t).next);
    OthersStay(s, Advance(t));
    UpdateMoves(s.peers, t, t.at, t.name);
    SectionLocal(s.peers[t.at], t.name, t.name == t.source, t.section);
  }

  lemma StepTold(s: State, e: Event, i: Name, x: Name)
    requires Typed(s) && Enabled(s, e) && Told(s, i, x) && x != i
    ensures Told(Apply(s, e), i, x)
  {
    if Knows(s, i, x) {
      StepTyped(s, e);
    } else {
      OthersStay(s, e);
      var w :| w in s.tasks && !w.Reply? && Carries(w, i, x);
      if Replaces(e, w) {
        ToldMoves(s, e, i, x);
      } else {
        hide Enabled, Carries;
        assert w in Apply(s, e).tasks;
      }
    }
  }

  lemma ToldMoves(s: State, e: Event, i: Name, x: Name)
    requires Typed(s) && Enabled(s, e) && !e.Join? && !e.task.Reply? && Carries(e.task, i, x) && x != i
    ensures Told(Apply(s, e), i, x)
  {
    var u := AnswerMoves(s, e, i, e.task.source);
  }

  /** The step by which j answers i. */
  predicate AnswersNow(e: Event, i: Name, j: Name) {
    e.Advance? && e.task == Serving(j, i, Answer)
  }

  lemma StepAnswered(s: State, e: Event, i: Name, j: Name)
    requires Inv(s) && Enabled(s, e) && (i, j) in Apply(s, e).answered
    ensures AnsweredInv(Apply(s, e), i, j)
  {
    StepTyped(s, e);
    if i != j {
      if AnswersNow(e, i, j) {
        assert Finishes(Reply(j, i, s.peers[j].Keys), i, j);
        assert TaskOk(s.peers, e.task);
      } else {
        assert AnsweredInv(s, i, j);
        StepFinishing(s, e, i, j);
      }
    }
  }

  lemma StepFinishing(s: State, e: Event, i: Name, j: Name)
    requires Typed(s) && Enabled(s, e) && i != j
    requires
      || s.lost
      || Greeted(s, i, j)
      || exists t :: t in s.tasks && Finishes(t, i, j)
    ensures
      var s' := Apply(s, e);
      || s'.lost
      || Greeted(s', i, j)
      || exists t :: t in s'.tasks && Finishes(t, i, j)
  {
    var s' := Apply(s, e);
    if !s'.lost {
      if Greeted(s, i, j) {
        StepTyped(s, e);
      } else {
        OthersStay(s, e);
        var w :| w in s.tasks && Finishes(w, i, j);
        hide Finishes, TaskEffect, TaskOk, Enabled;
        if Replaces(e, w) {
          AnswerFinishes(s, e, i, j);
        } else {
          assert w in s'.tasks;
        }
      }
    }
  }

  lemma AnswerFinishes(s: State, e: Event, i: Name, j: Name)
    requires Typed(s) && Enabled(s, e) && !e.Join? && !e.Lose? && i != j && Finishes(e.task, i, j)
    ensures
      var s' := Apply(s, e);
      Greeted(s', i, j) || exists t :: t in s'.tasks && Finishes(t, i, j)
  {
    var u := AnswerMoves(s, e, i, j);
    var t := e.task;
    if !Carries(u, i, j) {
      assert t.Updating? && t.name == j && t.section in {Insert, Merge};
      assert t.section == Insert ==> Finishes(u, i, j);
    }
  }

  // ---- introductions ----

  /** Whose answer is read, or on its way, is known to the answerer. */
  lemma ReaderIsKnown(s: State, k: Name, j: Name)
    requires Inv(s) && k != j
    requires HasRead(s, k, j) || exists u :: u in s.tasks && IsReply(u, k, j)
    ensures Knows(s, j, k)
  {
    if Greeted(s, k, j) {
      assert GreetInv(s, k, j);
    } else {
      var u :| u in s.tasks && Answers(u, k, j);
      assert TaskInv(s, u);
    }
    assert AnsweredInv(s, k, j);
  }

  /** Answers come from answering; reading one starts with its arrival. */
  lemma NewReply(s: State, e: Event, t: Task, i: Name, j: Name)
    requires Enabled(s, e) && t in Apply(s, e).tasks && t !in s.tasks && IsReply(t, i, j)
    ensures AnswersNow(e, i, j) && j in s.peers && t.names == s.peers[j].Keys
  {
    if e.Advance? {
      OthersStay(s, e);
      ReplyFollows(s.peers, e.task, t, i, j);
    }
  }

  lemma ReplyFollows(peers: map<Name, Peers>, t: Task, u: Task, i: Name, j: Name)
    requires TaskOk(peers, t) && (t.Reading? ==> t.todo == {})
    requires u in TaskEffect(peers, t).next && IsReply(u, i, j)
    ensures t == Serving(j, i, Answer) && u.names == peers[j].Keys
  {
    hide TaskEffect, UpdateSection;
    if t.Updating? {
      UpdateNext(peers, t, t.name, u);
    } else if t.Serving? && t.stage.InUpdate? {
      UpdateNext(peers, t, t.source, u);
    } else if t.Serving? {
      ServedNext(peers, t, u);
    } else {
      OtherNext(peers, t, u);
    }
  }

  lemma NewReader(s: State, e: Event, i: Name, j: Name)
    requires Typed(s) && Enabled(s, e) && HasRead(Apply(s, e), i, j)
    ensures HasRead(s, i, j) || (e.Advance? && IsReply(e.task, i, j))
  {
    var s' := Apply(s, e);
    if Greeted(s', i, j) {
      if e.Advance? && UpdatesPeer(e.task, i, j) {
        UpdateMoves(s.peers, e.task, i, j);
        SectionGreets(s.peers, e.task, i, j);
      } else {
        GreetUntouched(s, e, i, j);
      }
    } else {
      var t :| t in s'.tasks && !t.Reply? && Answers(t, i, j);
      if t !in s.tasks && e.Advance? {
        OthersStay(s, e);
        ReadingFollows(s.peers, e.task, t, i, j);
      }
    }
  }

  lemma ReadingFollows(peers: map<Name, Peers>, t: Task, u: Task, i: Name, j: Name)
    requires TaskOk(peers, t) && (t.Reading? ==> t.todo == {})
    requires u in TaskEffect(peers, t).next && !u.Reply? && Answers(u, i, j)
    ensures Answers(t, i, j)
  {
    hide TaskEffect, UpdateSection;
    if t.Updating? {
      UpdateNext(peers, t, t.name, u);
    } else if t.Serving? && t.stage.InUpdate? {
      UpdateNext(peers, t, t.source, u);
    } else if t.Serving? {
      ServedNext(peers, t, u);
    } else {
      OtherNext(peers, t, u);
    }
  }

  lemma ArrivedReply(s: State, e: Event, i: Name, j: Name, x: Name)
    requires Enabled(s, e) && e.Advance? && IsReply(e.task, i, j) && x in e.task.names
    ensures Told(Apply(s, e), i, x)
  {
    OthersStay(s, e);
    var u := Reading(i, j, e.task.names + {j});
    assert u in TaskEffect(s.peers, e.task).next && Carries(u, i, x);
  }

  lemma StepReplies(s: State, e: Event, t: Task, u: Task, i: Name, j: Name, k: Name)
    requires Inv(s) && Enabled(s, e) && i != j && j != k && i != k
    requires t in Apply(s, e).tasks && u in Apply(s, e).tasks && IsReply(t, i, j) && IsReply(u, k, j)
    ensures k in t.names || i in u.names
  {
    if t !in s.tasks {
      NewReply(s, e, t, i, j);
      assert u in s.tasks by {
        if u !in s.tasks {
          NewReply(s, e, u, k, j);
        }
      }
      ReaderIsKnown(s, k, j);
    } else if u !in s.tasks {
      NewReply(s, e, u, k, j);
      ReaderIsKnown(s, i, j);
    } else {
      assert IntroducedInv(s, i, j, k);
    }
  }

  lemma StepReplyRead(s: State, e: Event, t: Task, i: Name, j: Name, k: Name)
    requires Inv(s) && Enabled(s, e) && i != j && j != k && i != k
    requires t in Apply(s, e).tasks && IsReply(t, i, j) && HasRead(Apply(s, e), k, j)
    ensures k in t.names || Told(Apply(s, e), k, i)
  {
    NewReader(s, e, k, j);
    assert IntroducedInv(s, i, j, k);
    if t !in s.tasks {
      NewReply(s, e, t, i, j);
      ReaderIsKnown(s, k, j);
    } else if HasRead(s, k, j) {
      if Told(s, k, i) {
        StepTold(s, e, k, i);
      }
    } else if i in e.task.names {
      ArrivedReply(s, e, k, j, i);
    }
  }

  lemma StepReaders(s: State, e: Event, i: Name, j: Name, k: Name)
    requires Inv(s) && Enabled(s, e) && i != j && j != k && i != k
    requires HasRead(Apply(s, e), i, j) && HasRead(Apply(s, e), k, j)
    ensures Told(Apply(s, e), i, k) || Told(Apply(s, e), k, i)
  {
    NewReader(s, e, i, j);
    NewReader(s, e, k, j);
    assert IntroducedInv(s, i, j, k) && IntroducedInv(s, k, j, i);
    if Told(s, i, k) {
      StepTold(s, e, i, k);
    } else if Told(s, k, i) {
      StepTold(s, e, k, i);
    } else if !HasRead(s, i, j) {
      ArrivedReply(s, e, i, j, k);
    } else {
      ArrivedReply(s, e, k, j, i);
    }
  }

  lemma StepIntroduced(s: State, e: Event, i: Name, j: Name, k: Name)
    requires Inv(s) && Enabled(s, e) && i != j && j != k && i != k
    ensures IntroducedInv(Apply(s, e), i, j, k)
  {
    var s' := Apply(s, e);
    forall t, u | t in s'.tasks && u in s'.tasks && IsReply(t, i, j) && IsReply(u, k, j)
      ensures k in t.names || i in u.names
    {
      StepReplies(s, e, t, u, i, j, k);
    }
    forall t | t in s'.tasks && IsReply(t, i, j) && HasRead(s', k, j) ensures k in t.names || Told(s', k, i) {
      StepReplyRead(s, e, t, i, j, k);
    }
    if HasRead(s', i, j) && HasRead(s', k, j) {
      StepReaders(s, e, i, j, k);
    }
  }

  // ---- pushes ----

  lemma StepDelivered(s: State, e: Event, i: Name, j: Name)
    requires Enabled(s, e) && Delivered(s, i, j)
    ensures Delivered(Apply(s, e), i, j)
  {
    OthersStay(s, e);
  }

  lemma StepTask(s: State, e: Event, t: Task)
    requires Inv(s) && Enabled(s, e) && t in Apply(s, e).tasks
    ensures TaskInv(Apply(s, e), t)
  {
    if t in s.tasks {
      assert TaskInv(s, t);
      if t.Pushed? {
        StepDelivered(s, e, t.at, t.target);
      }
    } else if e.Advance? {
      OthersStay(s, e);
      NewTask(s, e.task, t);
    } else if e.Pick? {
      assert TaskInv(s, e.task);
    }
  }

  lemma NewTask(s: State, from: Task, t: Task)
    requires Inv(s) && Enabled(s, Advance(from)) && t in TaskEffect(s.peers, from).next
    ensures TaskInv(Apply(s, Advance(from)), t)
  {
    assert TaskInv(s, from);
    if from.Updating? {
      NextOfUpdate(s, from, from.name, t);
    } else if from.Serving? && from.stage.InUpdate? {
      NextOfUpdate(s, from, from.source, t);
    } else {
      NextOfOther(s, from, t);
    }
  }

  lemma NextOfOther(s: State, from: Task, t: Task)
    requires Inv(s) && Enabled(s, Advance(from)) && t in TaskEffect(s.peers, from).next
    requires !from.Updating? && !(from.Serving? && from.stage.InUpdate?)
    requires TaskInv(s, from)
    ensures TaskInv(Apply(s, Advance(from)), t)
  {
    OthersStay(s, Advance(from));
    match from
    case Serving(c, p, stage) => NextOfServing(s, from, t);
    case Reply(c, p, names) => assert t == Reading(p, c, names + {c});
    case Pushing(c, p) => assert t.Pushed? ==> t == Pushed(c, p) && Receiving(p, c) in TaskEffect(s.peers, from).next;
    case _ =>
  }

  lemma NextOfServing(s: State, from: Task, t: Task)
    requires Inv(s) && Enabled(s, Advance(from)) && t in TaskEffect(s.peers, from).next
    requires from.Serving? && !from.stage.InUpdate?
    ensures TaskInv(Apply(s, Advance(from)), t)
  {
    ServedNext(s.peers, from, t);
  }

  lemma NextOfUpdate(s: State, from: Task, p: Name, t: Task)
    requires TaskInv(s, from) && Enabled(s, Advance(from)) && t in TaskEffect(s.peers, from).next
    requires (from.Updating? && p == from.name) || (from.Serving? && from.stage.InUpdate? && p == from.source)
    ensures TaskInv(Apply(s, Advance(from)), t)
  {
    UpdateNext(s.peers, from, p, t);
    hide TaskEffect, UpdateSection, TaskOk;
  }

  predicate SamePush(a: map<Name, Peers>, b: map<Name, Peers>, i: Name, j: Name) {
    && (i in a && j in a[i] <==> i in b && j in b[i])
    && (i in a && j in a[i] ==> a[i][j].push == b[i][j].push)
  }

  /** The steps that may change the push state i has recorded for j. */
  predicate TouchesPush(e: Event, i: Name, j: Name) {
    || (e.Advance? && (UpdatesPeer(e.task, i, j) || e.task == Serving(i, j, Request) || e.task == Pushed(i, j)))
    || (e.FailPush? && e.task in {Pushing(i, j), Pushed(i, j)})
  }

  lemma UpdatePushElsewhere(peers: map<Name, Peers>, t: Task, p: Name, i: Name, j: Name)
    requires TaskOk(peers, t) && (t.Serving? || t.Updating?) && UpdatesPeer(t, t.at, p) && !(t.at == i && p == j)
    ensures SamePush(peers, peers[TaskEffect(peers, t).at := TaskEffect(peers, t).peers], i, j)
  {
    UpdateMoves(peers, t, t.at, p);
    SectionLocal(peers[t.at], p, t.Updating? && p == t.source, SectionOf(t));
  }

  lemma OtherPushElsewhere(peers: map<Name, Peers>, t: Task, i: Name, j: Name)
    requires TaskOk(peers, t) && (t.Reading? ==> t.todo == {}) && !TouchesPush(Advance(t), i, j)
    requires !t.Updating? && !(t.Serving? && t.stage.InUpdate?)
    ensures SamePush(peers, peers[TaskEffect(peers, t).at := TaskEffect(peers, t).peers], i, j)
  {
    if t.Serving? {
      ServedPushElsewhere(peers, t, i, j);
    } else if !t.Pushed? {
      var f := TaskEffect(peers, t);
      assert peers[f.at := f.peers] == peers;
    }
  }

  lemma ServedPushElsewhere(peers: map<Name, Peers>, t: Task, i: Name, j: Name)
    requires TaskOk(peers, t) && t.Serving? && !t.stage.InUpdate? && t != Serving(i, j, Request)
    ensures SamePush(peers, peers[TaskEffect(peers, t).at := TaskEffect(peers, t).peers], i, j)
  {
    if t.stage != Request {
      var f := TaskEffect(peers, t);
      assert peers[f.at := f.peers] == peers;
    }
  }

  lemma PushUntouched(s: State, e: Event, i: Name, j: Name)
    requires Typed(s) && Enabled(s, e) && !TouchesPush(e, i, j)
    ensures SamePush(s.peers, Apply(s, e).peers, i, j)
  {
    if e.Advance? {
      var t := e.task;
      if t.Updating? {
        UpdatePushElsewhere(s.peers, t, t.name, i, j);
      } else if t.Serving? && t.stage.InUpdate? {
        UpdatePushElsewhere(s.peers, t, t.source, i, j);
      } else {
        OtherPushElsewhere(s.peers, t, i, j);
      }
    }
  }

  /** The push state after a section of `UpdateNode`. */
  lemma SectionPushes(peers: map<Name, Peers>, t: Task, i: Name, j: Name)
    requires TaskOk(peers, t) && UpdatesPeer(t, i, j)
    ensures
      var o := OutcomeOf(peers, t);
      var u, push := Moved(t, o.next), o.peers[j].push;
      var known := j in peers[i];
      && j in o.peers
      && (!known ==> push == Never && BeforePush(u, i, j))
      && (known && BeforePush(t, i, j) && push == Never ==> BeforePush(u, i, j))
      && (known ==> push == peers[i][j].push || push == Pending)
  {
  }

  lemma PushUpdated(s: State, t: Task, i: Name, j: Name)
    requires Inv(s) && Enabled(s, Advance(t)) && UpdatesPeer(t, i, j) && Knows(Apply(s, Advance(t)), i, j)
    ensures PushInv(Apply(s, Advance(t)), i, j)
  {
    var s' := Apply(s, Advance(t));
    UpdateMoves(s.peers, t, i, j);
    SectionPushes(s.peers, t, i, j);
    var u := Moved(t, OutcomeOf(s.peers, t).next);
    OthersStay(s, Advance(t));
    assert u in s'.tasks;
    if s'.peers[i][j].push == Done || (s'.peers[i][j].push == Never && !BeforePush(u, i, j)) {
      PushSame(s, t, i, j);
    }
  }

  /** An `UpdateNode` for j that has left j's push state alone. */
  lemma PushSame(s: State, t: Task, i: Name, j: Name)
    requires Inv(s) && Enabled(s, Advance(t)) && UpdatesPeer(t, i, j) && Knows(s, i, j)
    requires var s' := Apply(s, Advance(t));
      Knows(s', i, j) && s'.peers[i][j].push == s.peers[i][j].push
    requires s.peers[i][j].push == Never ==> !BeforePush(t, i, j)
    ensures PushInv(Apply(s, Advance(t)), i, j)
  {
    assert PushInv(s, i, j);
    if s.peers[i][j].push == Done {
      StepDelivered(s, Advance(t), i, j);
    } else if s.peers[i][j].push == Never && !s.pushFailed {
      var w :| w in s.tasks && BeforePush(w, i, j);
      OthersStay(s, Advance(t));
      assert w in Apply(s, Advance(t)).tasks;
    }
  }

  lemma PushKept(s: State, e: Event, i: Name, j: Name)
    requires Inv(s) && Enabled(s, e) && !TouchesPush(e, i, j) && Knows(Apply(s, e), i, j)
    ensures PushInv(Apply(s, e), i, j)
  {
    PushUntouched(s, e, i, j);
    assert PushInv(s, i, j);
    if s.peers[i][j].push == Done {
      StepDelivered(s, e, i, j);
    } else if s.peers[i][j].push == Never && !s.pushFailed {
      var w :| w in s.tasks && BeforePush(w, i, j);
      OthersStay(s, e);
      assert w in Apply(s, e).tasks;
    }
  }

  lemma StepPush(s: State, e: Event, i: Name, j: Name)
    requires Inv(s) && Enabled(s, e) && Knows(Apply(s, e), i, j)
    ensures PushInv(Apply(s, e), i, j)
  {
    if !TouchesPush(e, i, j) {
      PushKept(s, e, i, j);
    } else if e.Advance? && UpdatesPeer(e.task, i, j) {
      PushUpdated(s, e.task, i, j);
    } else if e.Advance? && e.task == Pushed(i, j) {
      assert TaskInv(s, e.task);
      StepDelivered(s, e, i, j);
    }
  }

  // ---- all together ----

  lemma StepInv(s: State, e: Event)
    requires Inv(s) && Enabled(s, e)
    ensures Inv(Apply(s, e))
  {
    var s' := Apply(s, e);
    StepTyped(s, e);
    forall i, j | Knows(s', i, j) ensures GreetInv(s', i, j) && PushInv(s', i, j) {
      StepGreet(s, e, i, j);
      StepPush(s, e, i, j);
    }
    forall i, j | (i, j) in s'.answered ensures AnsweredInv(s', i, j) {
      StepAnswered(s, e, i, j);
    }
    forall t | t in s'.tasks ensures TaskInv(s', t) {
      StepTask(s, e, t);
    }
    forall i, j, k | i != j && j != k && i != k ensures IntroducedInv(s', i, j, k) {
      StepIntroduced(s, e, i, j, k);
    }
  }

  lemma {:induction false} RunInv(nodes: set<Name>, states: seq<State>, events: seq<Event>, k: nat)
    requires IsRun(nodes, states, events) && k <= |events|
    ensures Inv(states[k])
  {
    if k > 0 {
      RunInv(nodes, states, events, k - 1);
      StepInv(states[k - 1], events[k - 1]);
    }
  }

  ghost predicate NonePending(s: State, group: set<Name>) {
    forall i, j :: i in group && j in group ==> !Pends(s, i, j)
  }

  /** Among these nodes, whoever is known has been greeted and knows back, and who knows
      someone knows all that one knows. */
  ghost predicate Meshed(s: State, group: set<Name>) {
    && (forall i, j :: i in group && j in group && Knows(s, i, j) ==> Greeted(s, i, j) && Knows(s, j, i))
    && (forall i, j, l :: i in group && j in group && l in group && Knows(s, i, j) && Knows(s, j, l) && i != l
          ==> Knows(s, i, l))
  }

  /** Full mesh. In every reachable state where all tasks have ended, whatever was lost, any
      group of nodes is meshed exactly if none of them has a greet of another pending; which
      none has if no greeting or answer was lost. */
  lemma FullMesh(nodes: set<Name>, states: seq<State>, events: seq<Event>, k: nat, group: set<Name>)
    requires IsRun(nodes, states, events) && k <= |events| && Quiescent(states[k])
    ensures Meshed(states[k], group) <==> NonePending(states[k], group)
    ensures !states[k].lost ==> NonePending(states[k], group)
  {
    RunInv(nodes, states, events, k);
    var s := states[k];
    forall i, j | Knows(s, i, j)
      ensures !Pends(s, i, j) ==> Greeted(s, i, j) && Knows(s, j, i)
      ensures !s.lost ==> !Pends(s, i, j)
    {
      QuiescentLink(s, i, j);
    }
    if NonePending(s, group) {
      forall i, j, l | i in group && j in group && l in group && Knows(s, i, j) && Knows(s, j, l) && i != l
        ensures Knows(s, i, l)
      {
        QuiescentMesh(s, i, j, l);
      }
    }
  }

  /** At rest, an answered greeter is known to the answerer; and knows it, unless the
      answerer's own greet is pending. */
  lemma AnsweredKnow(nodes: set<Name>, states: seq<State>, events: seq<Event>, k: nat, i: Name, j: Name)
    requires IsRun(nodes, states, events) && k <= |events| && Quiescent(states[k])
    requires (i, j) in states[k].answered && i != j
    ensures Knows(states[k], j, i)
    ensures !Pends(states[k], j, i) ==> Knows(states[k], i, j)
    ensures !states[k].lost ==> Knows(states[k], i, j)
  {
    RunInv(nodes, states, events, k);
    assert AnsweredInv(states[k], i, j);
    QuiescentLink(states[k], j, i);
  }

  /** A greeting stays on its way until it is answered. */
  lemma {:induction false} JoinAnswered(nodes: set<Name>, states: seq<State>, events: seq<Event>, a: nat, k: nat,
                                        i: Name, j: Name)
    requires IsRun(nodes, states, events) && a < k <= |events| && events[a] == Join(i, j)
    ensures states[k].lost || (i, j) in states[k].answered || exists t :: t in states[k].tasks && OnItsWay(t, i, j)
    decreases k
  {
    if a == k - 1 {
      assert Greeting(i, j) in states[k].tasks && OnItsWay(Greeting(i, j), i, j);
    } else {
      JoinAnswered(nodes, states, events, a, k - 1, i, j);
      RunSafe(nodes, states, events, k - 1);
      StepOnItsWay(states[k - 1], events[k - 1], i, j);
    }
  }

  lemma StepOnItsWay(s: State, e: Event, i: Name, j: Name)
    requires Typed(s) && Enabled(s, e)
    requires s.lost || (i, j) in s.answered || exists t :: t in s.tasks && OnItsWay(t, i, j)
    ensures
      var s' := Apply(s, e);
      s'.lost || (i, j) in s'.answered || exists t :: t in s'.tasks && OnItsWay(t, i, j)
  {
    if !s.lost && (i, j) !in s.answered {
      var w :| w in s.tasks && OnItsWay(w, i, j);
      if Replaces(e, w) {
        GreetingMoves(s, e, i, j);
      } else {
        OthersStay(s, e);
        assert w in Apply(s, e).tasks;
      }
    }
  }

  /** Once all tasks have ended, a node that was told to greet another is known to it if the
      greeting was answered, and knows it unless the other's own greet is pending. If nothing
      was lost, they know each other. */
  lemma JoinedKnow(nodes: set<Name>, states: seq<State>, events: seq<Event>, a: nat, k: nat, i: Name, j: Name)
    requires IsRun(nodes, states, events) && a < k <= |events| && events[a] == Join(i, j) && i != j
    requires Quiescent(states[k])
    ensures
      var s := states[k];
      && ((i, j) in s.answered ==> Knows(s, j, i))
      && ((i, j) in s.answered && !Pends(s, j, i) ==> Knows(s, i, j))
      && (!s.lost ==> Knows(s, i, j) && Knows(s, j, i))
  {
    JoinAnswered(nodes, states, events, a, k, i, j);
    if (i, j) in states[k].answered {
      AnsweredKnow(nodes, states, events, k, i, j);
    }
  }

  /** `path` goes from node to node along "knows", either way round. */
  ghost predicate Connected(s: State, path: seq<Name>) {
    && path != []
    && forall n :: 0 < n < |path| ==> Knows(s, path[n - 1], path[n]) || Knows(s, path[n], path[n - 1])
  }

  /** Every connected group of nodes with no greets pending is complete. */
  lemma {:induction false} ConnectedComplete(nodes: set<Name>, states: seq<State>, events: seq<Event>, k: nat,
                                             group: set<Name>, path: seq<Name>)
    requires IsRun(nodes, states, events) && k <= |events|
    requires Quiescent(states[k]) && NonePending(states[k], group)
    requires Connected(states[k], path) && path[0] != path[|path| - 1] && forall n :: n in path ==> n in group
    ensures Knows(states[k], path[0], path[|path| - 1])
    decreases |path|
  {
    var s, i, l := states[k], path[0], path[|path| - 1];
    var j, front := path[|path| - 2], path[..|path| - 1];
    FullMesh(nodes, states, events, k, group);
    assert i in path && j in path && l in path;
    if i != j {
      assert forall n :: n in front ==> n in path;
      ConnectedComplete(nodes, states, events, k, group, front);
    }
  }

  // ---- which lists are applied ----

  /** Only lists of known peers are applied. */
  lemma {:induction false} AppliedIsKnown(nodes: set<Name>, states: seq<State>, events: seq<Event>, k: nat,
                                          j: Name, i: Name)
    requires IsRun(nodes, states, events) && k <= |events| && (j, i) in states[k].applied
    ensures Knows(states[k], j, i)
  {
    if k > 0 {
      RunSafe(nodes, states, events, k - 1);
      StepTyped(states[k - 1], events[k - 1]);
      if (j, i) in states[k - 1].applied {
        AppliedIsKnown(nodes, states, events, k - 1, j, i);
      }
    }
  }

  /** The last of the first k steps by which j receives a list from i is the one at d. */
  ghost predicate LastReceived(events: seq<Event>, k: nat, j: Name, i: Name, d: nat) {
    && d < k <= |events|
    && events[d] == Advance(Receiving(j, i))
    && forall e :: d < e < k ==> events[e] != Advance(Receiving(j, i))
  }

  lemma {:induction false} ReceivedOnce(nodes: set<Name>, states: seq<State>, events: seq<Event>, k: nat,
                                        j: Name, i: Name) returns (d: nat)
    requires IsRun(nodes, states, events) && k <= |events|
    requires (j, i) in states[k].applied || (j, i) in states[k].discarded
    ensures LastReceived(events, k, j, i, d)
  {
    if events[k - 1] == Advance(Receiving(j, i)) {
      d := k - 1;
    } else {
      d := ReceivedOnce(nodes, states, events, k - 1, j, i);
    }
  }

  /** A list has been applied exactly if its sender was known when it was last received. */
  lemma {:induction false} AppliedIff(nodes: set<Name>, states: seq<State>, events: seq<Event>, k: nat,
                                      j: Name, i: Name, d: nat)
    requires IsRun(nodes, states, events) && LastReceived(events, k, j, i, d)
    ensures (j, i) in states[k].applied <==> Knows(states[d], j, i)
  {
    if d == k - 1 {
      if (j, i) in states[d].applied {
        AppliedIsKnown(nodes, states, events, d, j, i);
      }
    } else {
      AppliedIff(nodes, states, events, k - 1, j, i, d);
    }
  }

  /** In every reachable state where all tasks have ended, whatever was lost or failed, no push
      is pending, and none is undone unless one failed. If i's push to j is done, j has
      received i's list, and has applied it exactly if it knew i when it last received it. */
  lemma ListsDelivered(nodes: set<Name>, states: seq<State>, events: seq<Event>, k: nat, i: Name, j: Name)
      returns (d: nat)
    requires IsRun(nodes, states, events) && k <= |events|
    requires Quiescent(states[k]) && Knows(states[k], i, j)
    ensures
      var push := states[k].peers[i][j].push;
      && push != Pending
      && (!states[k].pushFailed ==> push == Done)
      && (push == Done ==>
            && LastReceived(events, k, j, i, d)
            && ((j, i) in states[k].applied <==> Knows(states[d], j, i)))
  {
    RunInv(nodes, states, events, k);
    RunSafe(nodes, states, events, k);
    QuiescentPushes(states[k], i, j);
    d := 0;
    if states[k].peers[i][j].push == Done {
      d := ReceivedOnce(nodes, states, events, k, j, i);
      AppliedIff(nodes, states, events, k, j, i, d);
    }
  }
}
