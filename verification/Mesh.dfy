/**
  Greeting builds a full mesh: when all tasks have ended, "knows" is symmetric and
  transitive, with all greets done, exactly if no greet is left pending.
*/
module Mesh {
  import opened Protocol
  import opened Safety

  predicate Knows(s: State, i: Name, j: Name) {
    i in s.peers && j in s.peers[i]
  }

  // ---- what tasks stand for ----

  /** An `UpdateNode` for j at i that has yet to read j's greet state, or to act on it. */
  predicate BeforeGreet(t: Task, i: Name, j: Name) {
    && UpdatesPeer(t, i, j)
    && SectionOf(t) in {Merge, CheckGreet, LockGreet}
  }

  /** The same for j's push state. */
  predicate BeforePush(t: Task, i: Name, j: Name) {
    UpdatesPeer(t, i, j) && SectionOf(t) != Insert
  }

  predicate UpdatesPeer(t: Task, i: Name, j: Name) {
    || (t.Serving? && t.at == i && t.source == j && t.stage.InUpdate?)
    || (t.Updating? && t.at == i && t.name == j)
  }

  function SectionOf(t: Task): Section
    requires t.Updating? || (t.Serving? && t.stage.InUpdate?)
  {
    if t.Updating? then t.section else t.stage.section
  }

  /** i's greeting of j is on its way, or j is handling it. */
  predicate OnItsWay(t: Task, i: Name, j: Name) {
    t == Greeting(i, j) || (t.Serving? && t.at == j && t.source == i)
  }

  /** j's answer to i. */
  predicate Answers(t: Task, i: Name, j: Name) {
    || (t.Reply? && t.target == i && t.source == j)
    || (t.Reading? && t.at == i && t.source == j)
    || (t.Updating? && t.at == i && t.source == j)
  }

  /** The name x that i has been told and has yet to act on. */
  predicate Carries(t: Task, i: Name, x: Name) {
    || (t.Reply? && t.target == i && (x in t.names || x == t.source))
    || (t.Reading? && t.at == i && x in t.todo)
    || (t.Updating? && t.at == i && (x in t.todo || (x == t.name && t.section == Insert)))
  }

  /** j's answer to i, with j's own entry still to be merged. */
  predicate Finishes(t: Task, i: Name, j: Name) {
    && Answers(t, i, j)
    && (Carries(t, i, j) || (t.Updating? && t.name == j && t.section == Merge))
  }

  predicate IsReply(t: Task, i: Name, j: Name) {
    t.Reply? && t.target == i && t.source == j
  }

  /** i knows x, or will act on having been told of it. An answer still on its way does not
      count: it may be lost. */
  ghost predicate Told(s: State, i: Name, x: Name) {
    Knows(s, i, x) || exists t :: t in s.tasks && !t.Reply? && Carries(t, i, x)
  }

  predicate Greeted(s: State, i: Name, j: Name) {
    Knows(s, i, j) && s.peers[i][j].greet == Done
  }

  /** i has read an answer of j, or is reading one. */
  ghost predicate HasRead(s: State, i: Name, j: Name) {
    Greeted(s, i, j) || exists t :: t in s.tasks && !t.Reply? && Answers(t, i, j)
  }

  // ---- the invariant ----

  ghost predicate Inv(s: State) {
    && Typed(s)
    && (forall i, j :: Knows(s, i, j) ==> GreetInv(s, i, j) && PushInv(s, i, j))
    && (forall i, j :: (i, j) in s.answered ==> AnsweredInv(s, i, j))
    && (forall t :: t in s.tasks ==> TaskInv(s, t))
    && (forall i, j, k :: i != j && j != k && i != k ==> IntroducedInv(s, i, j, k))
  }

  /** Whoever is known is, or will be, greeted. */
  ghost predicate GreetInv(s: State, i: Name, j: Name)
    requires Knows(s, i, j)
  {
    match s.peers[i][j].greet
    case Never => exists t :: t in s.tasks && BeforeGreet(t, i, j)
    case Pending => s.lost || (i, j) in s.answered || exists t :: t in s.tasks && OnItsWay(t, i, j)
    case Done => (i, j) in s.answered
  }

  /** Whoever is known has been, or will be, sent this node's file list. */
  ghost predicate PushInv(s: State, i: Name, j: Name)
    requires Knows(s, i, j)
  {
    match s.peers[i][j].push
    case Never => s.pushFailed || exists t :: t in s.tasks && BeforePush(t, i, j)
    case Pending => true
    case Done => Delivered(s, i, j)
  }

  predicate Delivered(s: State, i: Name, j: Name) {
    Receiving(j, i) in s.tasks || (j, i) in s.applied || (j, i) in s.discarded
  }

  /** Whoever has been answered is known to the answerer, and knows it, or will. */
  ghost predicate AnsweredInv(s: State, i: Name, j: Name) {
    i != j ==>
      && Knows(s, j, i)
      && (s.lost
          || Greeted(s, i, j)
          || exists t :: t in s.tasks && Finishes(t, i, j))
  }

  ghost predicate TaskInv(s: State, t: Task) {
    && (t.Reply? ==> (t.target, t.source) in s.answered)
    && (t.Reading? || t.Updating? ==> (t.at, t.source) in s.answered)
    && (t.Pushed? ==> Delivered(s, t.at, t.target))
  }

  /** Two nodes i and k that a third, j, answers are introduced to each other: of two answers
      on their way, one names the other's reader; an answer on its way to i names k, if k
      has read one, or k has been told of i; and of two readers, one has been told of the
      other. */
  ghost predicate IntroducedInv(s: State, i: Name, j: Name, k: Name) {
    && (forall t, u :: t in s.tasks && u in s.tasks && IsReply(t, i, j) && IsReply(u, k, j) ==>
          k in t.names || i in u.names)
    && (forall t :: t in s.tasks && IsReply(t, i, j) && HasRead(s, k, j) ==> k in t.names || Told(s, k, i))
    && (HasRead(s, i, j) && HasRead(s, k, j) ==> Told(s, i, k) || Told(s, k, i))
  }

  // ---- quiescence ----

  predicate Quiescent(s: State) {
    s.tasks == multiset{}
  }

  predicate Pends(s: State, i: Name, j: Name) {
    Knows(s, i, j) && s.peers[i][j].greet == Pending
  }

  /** A known peer whose greet is not pending has been greeted, and knows the greeter. */
  lemma QuiescentLink(s: State, i: Name, j: Name)
    requires Inv(s) && Quiescent(s) && Knows(s, i, j)
    ensures !Pends(s, i, j) ==> Greeted(s, i, j) && Knows(s, j, i) && i != j
    ensures !s.lost ==> !Pends(s, i, j)
  {
    assert GreetInv(s, i, j);
    if (i, j) in s.answered {
      assert AnsweredInv(s, i, j);
    }
  }

  lemma QuiescentMesh(s: State, i: Name, j: Name, k: Name)
    requires Inv(s) && Quiescent(s) && Knows(s, i, j) && Knows(s, j, k) && i != k
    requires !Pends(s, i, j) && !Pends(s, j, k) && !Pends(s, k, j) && !Pends(s, k, i)
    ensures Knows(s, i, k)
  {
    QuiescentLink(s, i, j);
    QuiescentLink(s, j, k);
    QuiescentLink(s, k, j);
    assert IntroducedInv(s, i, j, k);
    if Knows(s, k, i) {
      QuiescentLink(s, k, i);
    }
  }

  lemma QuiescentPushes(s: State, i: Name, j: Name)
    requires Inv(s) && PushesExclusive(s) && Quiescent(s) && Knows(s, i, j)
    ensures
      var push := s.peers[i][j].push;
      && push != Pending
      && (!s.pushFailed ==> push == Done)
      && (push == Done ==> (j, i) in s.applied || (j, i) in s.discarded)
  {
    assert PushInv(s, i, j);
    assert LivePushes(s, i, j) == PendingPushes(s.peers, i, j);
  }
}
