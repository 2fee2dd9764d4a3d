/** The retry counter that travels with a task. */
module TaskRetries {
  import opened Prelude
  import opened TaskProtocol

  ghost function MorePutBack(s: State, e: Event, id: Id): nat {
    if e.Requeue? && e.id == id && e.sendersExist && Enabled(s, e) then 1 else 0
  }

  /** How often the task has been put back while some node was connected. */
  ghost function PutBack(max: nat, events: seq<Event>, id: Id): nat {
    if events == [] then
      0
    else
      var front, e := events[..|events| - 1], events[|events| - 1];
      PutBack(max, front, id) + MorePutBack(Run(max, front), e, id)
  }

  /** The counter is the number of times, up to the limit. */
  ghost predicate Counted(max: nat, t: Task, times: nat) {
    t.retries == if times < max then times else max
  }

  /** Nothing that has not entered a queue has been put back, and every task in hand or queued is counted. */
  ghost predicate AllCounted(max: nat, s: State, times: Id -> nat) {
    && (forall id :: id in s.unqueued || id >= s.counter ==> times(id) == 0)
    && (forall id :: id in s.hands ==> s.hands[id].task.id == id && Counted(max, s.hands[id].task, times(id)))
    && forall p, i :: 0 <= i < |Queue(s.queues, p)| ==>
         Counted(max, Queue(s.queues, p)[i], times(Queue(s.queues, p)[i].id))
  }

  lemma {:induction false} QueuedIsCounted(q: seq<Task>, i: nat)
    requires i < |q|
    ensures Count(q, q[i].id) >= 1
  {
    if i > 0 {
      QueuedIsCounted(q[1..], i - 1);
    }
  }

  lemma QueuedIsPlaced(s: State, p: Priority, i: nat)
    requires Placed(s) && i < |Queue(s.queues, p)|
    ensures var id := Queue(s.queues, p)[i].id; id !in s.unqueued && id < s.counter && id !in s.hands
  {
    var id := Queue(s.queues, p)[i].id;
    QueuedIsCounted(Queue(s.queues, p), i);
    QueuedAtLeast(s.queues, p, id);
    assert Places(s, id) == Once(id < s.counter);
  }

  /** Sections that touch neither queues nor hands. */
  predicate LeavesTasks(e: Event) {
    e.Mint? || TakesRunning(e) || e.Store? || e.Announce?
  }

  lemma LeavingStaysCounted(max: nat, s: State, e: Event, times: Id -> nat)
    requires Enabled(s, e) && LeavesTasks(e) && AllCounted(max, s, times)
    ensures AllCounted(max, Apply(max, s, e), times)
  {
    assert Apply(max, s, e).queues == s.queues && Apply(max, s, e).hands == s.hands;
  }

  lemma EnqueueStaysCounted(max: nat, s: State, id: Id, p: Priority, times: Id -> nat)
    requires Enabled(s, Enqueue(id, p)) && AllCounted(max, s, times)
    ensures AllCounted(max, Apply(max, s, Enqueue(id, p)), times)
  {
    var next := Apply(max, s, Enqueue(id, p));
    forall r, i | 0 <= i < |Queue(next.queues, r)|
      ensures Counted(max, Queue(next.queues, r)[i], times(Queue(next.queues, r)[i].id))
    {
      if i < |Queue(s.queues, r)| {
        assert Queue(next.queues, r)[i] == Queue(s.queues, r)[i];
      }
    }
  }

  lemma PopStaysCounted(max: nat, s: State, p: Priority, times: Id -> nat)
    requires Enabled(s, Pop(p)) && AllCounted(max, s, times)
    ensures AllCounted(max, Apply(max, s, Pop(p)), times)
  {
    var next, q := Apply(max, s, Pop(p)), Queue(s.queues, p);
    assert Counted(max, q[0], times(q[0].id));
    forall r, i | 0 <= i < |Queue(next.queues, r)|
      ensures Counted(max, Queue(next.queues, r)[i], times(Queue(next.queues, r)[i].id))
    {
      assert Queue(next.queues, r)[i] == Queue(s.queues, r)[if r == p then i + 1 else i];
    }
  }

  lemma CancelStaysCounted(max: nat, s: State, id: Id, p: Priority, at: int, times: Id -> nat)
    requires Enabled(s, CancelQueued(id, p, at)) && AllCounted(max, s, times)
    ensures AllCounted(max, Apply(max, s, CancelQueued(id, p, at)), times)
  {
    var next, pos := Apply(max, s, CancelQueued(id, p, at)), Position(Queue(s.queues, p), id);
    forall r, i | 0 <= i < |Queue(next.queues, r)|
      ensures Counted(max, Queue(next.queues, r)[i], times(Queue(next.queues, r)[i].id))
    {
      assert Queue(next.queues, r)[i] == Queue(s.queues, r)[if r == p && i >= pos then i + 1 else i];
    }
  }

  lemma SendStaysCounted(max: nat, s: State, id: Id, times: Id -> nat)
    requires Enabled(s, Send(id)) && AllCounted(max, s, times)
    ensures AllCounted(max, Apply(max, s, Send(id)), times)
  {
    assert Apply(max, s, Send(id)).queues == s.queues;
  }

  lemma StartStaysCounted(max: nat, s: State, id: Id, deadline: int, times: Id -> nat)
    requires Enabled(s, Start(id, deadline)) && AllCounted(max, s, times)
    ensures AllCounted(max, Apply(max, s, Start(id, deadline)), times)
  {
    assert Apply(max, s, Start(id, deadline)).queues == s.queues;
  }

  lemma RequeueStaysCounted(max: nat, s: State, id: Id, sendersExist: bool, times: Id -> nat, after: Id -> nat)
    requires Enabled(s, Requeue(id, sendersExist)) && AllCounted(max, s, times) && Placed(s)
    requires forall other :: after(other) == times(other) + if other == id && sendersExist then 1 else 0
    ensures AllCounted(max, Apply(max, s, Requeue(id, sendersExist)), after)
  {
    var next, hand := Apply(max, s, Requeue(id, sendersExist)), s.hands[id];
    assert Places(s, id) == Once(id < s.counter);
    assert Counted(max, Retried(max, hand.task, sendersExist), after(id));
    forall r, i | 0 <= i < |Queue(next.queues, r)|
      ensures Counted(max, Queue(next.queues, r)[i], after(Queue(next.queues, r)[i].id))
    {
      if r != hand.priority {
        QueuedIsPlaced(s, r, i);
        assert Queue(next.queues, r)[i] == Queue(s.queues, r)[i];
      } else if i > 0 {
        QueuedIsPlaced(s, r, i - 1);
        assert Queue(next.queues, r)[i] == Queue(s.queues, r)[i - 1];
      }
    }
  }

  lemma OtherStaysCounted(max: nat, s: State, e: Event, times: Id -> nat)
    requires Enabled(s, e) && !e.Requeue? && AllCounted(max, s, times)
    ensures AllCounted(max, Apply(max, s, e), times)
  {
    match e
    case Enqueue(id, p) => EnqueueStaysCounted(max, s, id, p, times);
    case Pop(p) => PopStaysCounted(max, s, p, times);
    case Send(id) => SendStaysCounted(max, s, id, times);
    case Start(id, deadline) => StartStaysCounted(max, s, id, deadline, times);
    case CancelQueued(id, p, at) => CancelStaysCounted(max, s, id, p, at, times);
    case _ => LeavingStaysCounted(max, s, e, times);
  }

  lemma SameTimesStayCounted(max: nat, s: State, times: Id -> nat, after: Id -> nat)
    requires AllCounted(max, s, times) && forall id :: after(id) == times(id)
    ensures AllCounted(max, s, after)
  {
  }

  lemma StepStaysCounted(max: nat, s: State, e: Event, times: Id -> nat, after: Id -> nat)
    requires Enabled(s, e) && AllCounted(max, s, times) && Placed(s)
    requires forall id :: after(id) == times(id) + MorePutBack(s, e, id)
    ensures AllCounted(max, Apply(max, s, e), after)
  {
    if e.Requeue? {
      RequeueStaysCounted(max, s, e.id, e.sendersExist, times, after);
    } else {
      OtherStaysCounted(max, s, e, times);
      SameTimesStayCounted(max, Apply(max, s, e), times, after);
    }
  }

  ghost function TimesPutBack(max: nat, events: seq<Event>): Id -> nat {
    id => PutBack(max, events, id)
  }

  /** Under every interleaving a queued task or one in hand carries the number of times it has been put back
      while nodes were connected, up to the limit; none carries more. */
  lemma {:induction false} RetriesCountPutBacks(max: nat, events: seq<Event>)
    ensures AllCounted(max, Run(max, events), TimesPutBack(max, events))
  {
    if events != [] {
      var front, e := events[..|events| - 1], events[|events| - 1];
      RetriesCountPutBacks(max, front);
      EachTaskInOnePlace(max, front);
      var times, after := TimesPutBack(max, front), TimesPutBack(max, events);
      forall id ensures after(id) == times(id) + MorePutBack(Run(max, front), e, id) {
      }
      if Enabled(Run(max, front), e) {
        StepStaysCounted(max, Run(max, front), e, times, after);
      }
    }
  }
}
