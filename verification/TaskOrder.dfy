/** The order in which tasks of one priority start. */
module TaskOrder {
  import opened Prelude
  import opened TaskProtocol

  function Ids(q: seq<Task>): seq<Id> {
    seq(|q|, i requires 0 <= i < |q| => q[i].id)
  }

  /** The list without the first occurrence of `id`. */
  function Drop(ids: seq<Id>, id: Id): seq<Id> {
    if ids == [] then [] else if ids[0] == id then ids[1..] else [ids[0]] + Drop(ids[1..], id)
  }

  ghost function NextLine(s: State, e: Event, p: Priority, line: seq<Id>): seq<Id> {
    if e.Enqueue? && e.priority == p && Enabled(s, e) then line + [e.id]
    else if e.CancelQueued? && e.priority == p && Enabled(s, e) then Drop(line, e.id)
    else line
  }

  /** The tasks that have entered this queue and have not been cancelled in it, in the order of submission. */
  ghost function Line(max: nat, events: seq<Event>, p: Priority): seq<Id> {
    if events == [] then
      []
    else
      var front, e := events[..|events| - 1], events[|events| - 1];
      NextLine(Run(max, front), e, p, Line(max, front, p))
  }

  ghost function NextBegan(s: State, e: Event, p: Priority, began: seq<Id>): seq<Id> {
    if e.Start? && Enabled(s, e) && s.hands[e.id].priority == p then began + [e.id] else began
  }

  /** The tasks of this queue that have started, in that order. */
  ghost function Began(max: nat, events: seq<Event>, p: Priority): seq<Id> {
    if events == [] then
      []
    else
      var front, e := events[..|events| - 1], events[|events| - 1];
      NextBegan(Run(max, front), e, p, Began(max, front, p))
  }

  ghost predicate SerialAt(s: State, e: Event) {
    e.Pop? && Enabled(s, e) ==> s.hands == map[]
  }

  /** A scheduling call takes a task off a queue only when no other call holds one. */
  ghost predicate Serial(max: nat, events: seq<Event>) {
    forall i :: 0 <= i < |events| ==> SerialAt(Run(max, events[..i]), events[i])
  }

  lemma SerialFront(max: nat, events: seq<Event>)
    requires events != [] && Serial(max, events)
    ensures Serial(max, events[..|events| - 1])
    ensures SerialAt(Run(max, events[..|events| - 1]), events[|events| - 1])
  {
    var front := events[..|events| - 1];
    forall i | 0 <= i < |front| ensures SerialAt(Run(max, front[..i]), front[i]) {
      assert front[..i] == events[..i] && SerialAt(Run(max, events[..i]), events[i]);
    }
  }

  /** The task of this priority that is in a call's hand, if there is one. */
  ghost function Held(s: State, p: Priority): seq<Id> {
    if id :| id in s.hands && s.hands[id].priority == p then [id] else []
  }

  ghost predicate OneHand(s: State) {
    forall a, b :: a in s.hands && b in s.hands ==> a == b
  }

  /** Every task of the line has started, is in hand or waits in the queue, in this order. */
  ghost predicate InOrder(s: State, p: Priority, line: seq<Id>, began: seq<Id>) {
    line == began + Held(s, p) + Ids(Queue(s.queues, p))
  }

  lemma HeldIs(s: State, id: Id, p: Priority)
    requires OneHand(s) && id in s.hands
    ensures Held(s, p) == if s.hands[id].priority == p then [id] else []
  {
  }

  // ---- no task that has started is queued ----

  lemma {:induction false} BeganIsStarted(max: nat, events: seq<Event>, p: Priority, id: Id)
    requires id in Began(max, events, p)
    ensures Started(max, events, id)
  {
    var front, e := events[..|events| - 1], events[|events| - 1];
    if id in Began(max, front, p) {
      BeganIsStarted(max, front, p, id);
    }
  }

  lemma StartedIsGone(max: nat, events: seq<Event>, id: Id)
    requires Started(max, events, id)
    ensures var s := Run(max, events); id !in s.unqueued && Queued(s.queues, id) == 0 && id !in s.hands
  {
    RunningIff(max, events, id);
    FirstVerdictIsFinal(max, events, id);
    EachTaskInOnePlace(max, events);
    assert Places(Run(max, events), id) <= 1;
  }

  lemma {:induction false} QueuedIsCounted(q: seq<Task>, id: Id)
    ensures id in Ids(q) <==> Count(q, id) >= 1
  {
    if q != [] {
      QueuedIsCounted(q[1..], id);
      assert Ids(q) == [q[0].id] + Ids(q[1..]);
    }
  }

  // ---- one step ----

  lemma HandsAfter(max: nat, s: State, e: Event)
    requires Enabled(s, e) && OneHand(s) && (e.Pop? ==> s.hands == map[])
    ensures OneHand(Apply(max, s, e))
  {
  }

  /** Sections other than these leave the queues and what is in hand as they are. */
  predicate MovesQueue(e: Event) {
    e.Enqueue? || e.Pop? || e.Requeue? || e.Start? || e.CancelQueued?
  }

  lemma OthersKeepQueues(max: nat, s: State, e: Event)
    requires Enabled(s, e) && !MovesQueue(e)
    ensures Apply(max, s, e).queues == s.queues && Apply(max, s, e).hands.Keys == s.hands.Keys
    ensures forall id | id in s.hands :: Apply(max, s, e).hands[id].priority == s.hands[id].priority
  {
  }

  lemma SameHands(s: State, t: State, p: Priority)
    requires OneHand(s) && s.hands.Keys == t.hands.Keys
    requires forall id | id in s.hands :: t.hands[id].priority == s.hands[id].priority
    ensures Held(t, p) == Held(s, p)
  {
    if id :| id in s.hands {
      assert id in t.hands;
      HeldIs(s, id, p);
      HeldIs(t, id, p);
    }
  }

  lemma OtherKeepsOrder(max: nat, s: State, e: Event, p: Priority, line: seq<Id>, began: seq<Id>)
    requires Enabled(s, e) && !MovesQueue(e) && OneHand(s) && InOrder(s, p, line, began)
    ensures InOrder(Apply(max, s, e), p, line, began)
  {
    OthersKeepQueues(max, s, e);
    SameHands(s, Apply(max, s, e), p);
  }

  lemma EnqueueKeepsOrder(max: nat, s: State, id: Id, q: Priority, p: Priority, line: seq<Id>, began: seq<Id>)
    requires Enabled(s, Enqueue(id, q)) && OneHand(s) && InOrder(s, p, line, began)
    ensures InOrder(Apply(max, s, Enqueue(id, q)), p, if q == p then line + [id] else line, began)
  {
    var next := Apply(max, s, Enqueue(id, q));
    SameHands(s, next, p);
    if q == p {
      assert Ids(Queue(next.queues, p)) == Ids(Queue(s.queues, p)) + [id];
    }
  }

  lemma PopKeepsOrder(max: nat, s: State, q: Priority, p: Priority, line: seq<Id>, began: seq<Id>)
    requires Enabled(s, Pop(q)) && s.hands == map[] && InOrder(s, p, line, began)
    ensures InOrder(Apply(max, s, Pop(q)), p, line, began)
  {
    var next, queue := Apply(max, s, Pop(q)), Queue(s.queues, q);
    assert Held(s, p) == [];
    HeldIs(next, queue[0].id, p);
    if q == p {
      assert Ids(queue) == [queue[0].id] + Ids(queue[1..]);
    }
  }

  lemma RequeueKeepsOrder(max: nat, s: State, id: Id, sendersExist: bool, p: Priority, line: seq<Id>, began: seq<Id>)
    requires Enabled(s, Requeue(id, sendersExist)) && OneHand(s) && InOrder(s, p, line, began)
    requires s.hands[id].task.id == id
    ensures InOrder(Apply(max, s, Requeue(id, sendersExist)), p, line, began)
  {
    var next, hand := Apply(max, s, Requeue(id, sendersExist)), s.hands[id];
    HeldIs(s, id, p);
    assert next.hands == map[];
    assert Held(next, p) == [];
    if hand.priority == p {
      assert Ids(Queue(next.queues, p)) == [id] + Ids(Queue(s.queues, p));
    }
  }

  lemma StartKeepsOrder(max: nat, s: State, id: Id, deadline: int, p: Priority, line: seq<Id>, began: seq<Id>)
    requires Enabled(s, Start(id, deadline)) && OneHand(s) && InOrder(s, p, line, began)
    ensures InOrder(Apply(max, s, Start(id, deadline)), p, line, NextBegan(s, Start(id, deadline), p, began))
  {
    HeldIs(s, id, p);
    assert Apply(max, s, Start(id, deadline)).hands == map[];
    assert Held(Apply(max, s, Start(id, deadline)), p) == [];
  }

  lemma {:induction false} DropLater(a: seq<Id>, b: seq<Id>, id: Id)
    requires id !in a
    ensures Drop(a + b, id) == a + Drop(b, id)
  {
    if a == [] {
      assert a + b == b && a + Drop(b, id) == Drop(b, id);
    } else {
      assert (a + b)[1..] == a[1..] + b;
      DropLater(a[1..], b, id);
      assert a == [a[0]] + a[1..];
    }
  }

  lemma {:induction false} DropFromQueue(q: seq<Task>, id: Id)
    requires Position(q, id) < |q|
    ensures Drop(Ids(q), id) == Ids(RemoveAt(q, Position(q, id)))
  {
    assert Ids(q) == [q[0].id] + Ids(q[1..]);
    if q[0].id == id {
      assert RemoveAt(q, 0) == q[1..];
    } else {
      DropFromQueue(q[1..], id);
      assert RemoveAt(q, Position(q, id)) == [q[0]] + RemoveAt(q[1..], Position(q[1..], id));
    }
  }

  lemma CancelKeepsOrder(max: nat, s: State, id: Id, q: Priority, at: int, p: Priority, line: seq<Id>, began: seq<Id>)
    requires Enabled(s, CancelQueued(id, q, at)) && OneHand(s) && InOrder(s, p, line, began)
    requires id !in began && id !in s.hands
    ensures InOrder(Apply(max, s, CancelQueued(id, q, at)), p, if q == p then Drop(line, id) else line, began)
  {
    var next := Apply(max, s, CancelQueued(id, q, at));
    SameHands(s, next, p);
    if q == p {
      DropLater(began + Held(s, p), Ids(Queue(s.queues, p)), id);
      DropFromQueue(Queue(s.queues, p), id);
    }
  }

  lemma StepKeepsOrder(max: nat, s: State, e: Event, p: Priority, line: seq<Id>, began: seq<Id>)
    requires Enabled(s, e) && OneHand(s) && InOrder(s, p, line, began)
    requires e.Pop? ==> s.hands == map[]
    requires e.Requeue? ==> s.hands[e.id].task.id == e.id
    requires e.CancelQueued? ==> e.id !in began && e.id !in s.hands
    ensures InOrder(Apply(max, s, e), p, NextLine(s, e, p, line), NextBegan(s, e, p, began))
  {
    match e
    case Enqueue(id, q) => EnqueueKeepsOrder(max, s, id, q, p, line, began);
    case Pop(q) => PopKeepsOrder(max, s, q, p, line, began);
    case Requeue(id, sendersExist) => RequeueKeepsOrder(max, s, id, sendersExist, p, line, began);
    case Start(id, deadline) => StartKeepsOrder(max, s, id, deadline, p, line, began);
    case CancelQueued(id, q, at) => CancelKeepsOrder(max, s, id, q, at, p, line, began);
    case _ => OtherKeepsOrder(max, s, e, p, line, began);
  }

  // ---- whole runs ----

  lemma CancelledIsWaiting(max: nat, events: seq<Event>, e: Event, p: Priority)
    requires e.CancelQueued? && Enabled(Run(max, events), e)
    ensures e.id !in Began(max, events, p) && e.id !in Run(max, events).hands
  {
    var s := Run(max, events);
    FoundIsQueued(s, e.id, e.priority, e.at);
    EachTaskInOnePlace(max, events);
    assert Places(s, e.id) <= 1;
    if e.id in Began(max, events, p) {
      BeganIsStarted(max, events, p, e.id);
      StartedIsGone(max, events, e.id);
    }
  }

  /** While scheduling calls do not overlap, the line of a queue is what has started, then what is in hand, then
      what waits: tasks of one priority start in the order of their submission. */
  lemma {:induction false} FirstInFirstOut(max: nat, events: seq<Event>, p: Priority)
    requires Serial(max, events)
    ensures InOrder(Run(max, events), p, Line(max, events, p), Began(max, events, p)) && OneHand(Run(max, events))
    ensures Began(max, events, p) <= Line(max, events, p)
  {
    if events != [] {
      var front, e := events[..|events| - 1], events[|events| - 1];
      var s := Run(max, front);
      SerialFront(max, events);
      FirstInFirstOut(max, front, p);
      if Enabled(s, e) {
        EachTaskInOnePlace(max, front);
        HandsAfter(max, s, e);
        if e.CancelQueued? {
          CancelledIsWaiting(max, front, e, p);
        }
        StepKeepsOrder(max, s, e, p, Line(max, front, p), Began(max, front, p));
      }
    }
  }

  /** Whatever is in the line has entered the queue. */
  lemma LinedUpHasEntered(max: nat, events: seq<Event>, p: Priority, id: Id)
    requires Serial(max, events) && id in Line(max, events, p)
    ensures id !in Run(max, events).unqueued
  {
    var s := Run(max, events);
    FirstInFirstOut(max, events, p);
    EachTaskInOnePlace(max, events);
    assert Places(s, id) <= 1;
    if id in Began(max, events, p) {
      BeganIsStarted(max, events, p, id);
      StartedIsGone(max, events, id);
    } else if id !in Held(s, p) {
      assert id in Ids(Queue(s.queues, p));
      QueuedIsCounted(Queue(s.queues, p), id);
      QueuedAtLeast(s.queues, p, id);
    }
  }

  lemma {:induction false} DropKeepsDistinct(ids: seq<Id>, id: Id)
    requires Distinct(ids)
    ensures Distinct(Drop(ids, id)) && forall x :: x in Drop(ids, id) ==> x in ids
  {
    if ids != [] && ids[0] != id {
      var rest := Drop(ids[1..], id);
      DropKeepsDistinct(ids[1..], id);
      assert forall i :: 0 <= i < |ids[1..]| ==> ids[1..][i] == ids[i + 1];
      assert ids[0] !in rest;
    }
  }

  lemma {:induction false} LineIsDistinct(max: nat, events: seq<Event>, p: Priority)
    requires Serial(max, events)
    ensures Distinct(Line(max, events, p))
  {
    if events != [] {
      var front, e := events[..|events| - 1], events[|events| - 1];
      SerialFront(max, events);
      LineIsDistinct(max, front, p);
      if e.Enqueue? && Enabled(Run(max, front), e) && e.id in Line(max, front, p) {
        LinedUpHasEntered(max, front, p, e.id);
      } else if e.CancelQueued? {
        DropKeepsDistinct(Line(max, front, p), e.id);
      }
    }
  }

  lemma PrefixStops(began: seq<Id>, line: seq<Id>, i: nat, j: nat)
    requires began <= line && Distinct(line) && i <= j < |line| && line[i] !in began
    ensures line[j] !in began
  {
  }

  /** A task that never starts, because every call that takes it puts it back, keeps all later ones of its
      priority from starting. */
  lemma UnstartedBlocksTheRest(max: nat, events: seq<Event>, p: Priority, i: nat, j: nat)
    requires Serial(max, events)
    requires i <= j < |Line(max, events, p)| && Line(max, events, p)[i] !in Began(max, events, p)
    ensures Line(max, events, p)[j] !in Began(max, events, p)
  {
    FirstInFirstOut(max, events, p);
    LineIsDistinct(max, events, p);
    PrefixStops(Began(max, events, p), Line(max, events, p), i, j);
  }

  // ---- scheduling calls that overlap ----

  const FIRST := Task(0, 0)
  const SECOND := Task(1, 0)
  const ONE_QUEUED := START.(counter := 1, queues := map[Normal := [FIRST]])
  const BOTH_QUEUED := START.(counter := 2, queues := map[Normal := [FIRST, SECOND]])
  const ONE_HELD :=
    BOTH_QUEUED.(queues := map[Normal := [SECOND]], hands := map[0 := Hand(FIRST, Normal, false)])
  const BOTH_HELD :=
    ONE_HELD.(queues := map[Normal := []],
              hands := map[0 := Hand(FIRST, Normal, false), 1 := Hand(SECOND, Normal, false)])

  lemma Queueing(max: nat)
    ensures Step(max, START.(counter := 1, unqueued := {0}), Enqueue(0, Normal)) == ONE_QUEUED
    ensures Step(max, ONE_QUEUED.(counter := 2, unqueued := {1}), Enqueue(1, Normal)) == BOTH_QUEUED
  {
    assert [] + [FIRST] == [FIRST] && [FIRST] + [SECOND] == [FIRST, SECOND];
    assert {0} - {0} == {} && {1} - {1} == {};
  }

  lemma TakingBoth(max: nat)
    ensures Step(max, BOTH_QUEUED, Pop(Normal)) == ONE_HELD
    ensures Step(max, ONE_HELD, Pop(Normal)) == BOTH_HELD
  {
    assert [FIRST, SECOND][1..] == [SECOND] && [SECOND][1..] == [];
  }

  const SUBMITTED_IN_ORDER := [Mint, Enqueue(0, Normal), Mint, Enqueue(1, Normal)]

  lemma SubmittingBoth(max: nat)
    ensures Run(max, SUBMITTED_IN_ORDER) == BOTH_QUEUED
  {
    Queueing(max);
    assert Step(max, START, Mint) == START.(counter := 1, unqueued := {0});
    assert Step(max, ONE_QUEUED, Mint) == ONE_QUEUED.(counter := 2, unqueued := {1});
    RunIsFold(max, SUBMITTED_IN_ORDER);
    FoldFour(Machine(max), START, Mint, Enqueue(0, Normal), Mint, Enqueue(1, Normal));
  }

  /** When two calls overlap, the task submitted second can be running while the first is still in hand. */
  lemma LaterCanStartFirst(max: nat, deadline: int)
    ensures var s := Run(max, SUBMITTED_IN_ORDER + [Pop(Normal), Pop(Normal), Send(1), Start(1, deadline)]);
            s.running == map[1 := deadline] && 0 in s.hands
  {
    var sent := Step(max, BOTH_HELD, Send(1));
    SubmittingBoth(max);
    TakingBoth(max);
    assert 1 in sent.hands && sent.hands[1].sent && 0 in sent.hands && sent.running == map[];
    var after := [Pop(Normal), Pop(Normal), Send(1), Start(1, deadline)];
    RunOn(max, SUBMITTED_IN_ORDER, after);
    FoldFour(Machine(max), BOTH_QUEUED, Pop(Normal), Pop(Normal), Send(1), Start(1, deadline));
  }
}
