/** The hub's task scheduler: what becomes of every submitted task when the critical sections of
    submitting, scheduling, answering, cancelling and timing out interleave in any order. */
module TaskProtocol {
  import opened Prelude
  import Sorting

  datatype Priority = Critical | Urgent | High | Normal | Low | Background

  /** The four ways in which a task can end. */
  datatype Status = Completed | Failed | Cancelled | Timeout

  /** The number in `task-N`. */
  type Id = nat

  datatype Task = Task(id: Id, retries: nat)

  /** A task that a scheduling call has taken off its queue; `sent` once a node has been given it. */
  datatype Hand = Hand(task: Task, priority: Priority, sent: bool)

  datatype Done = Done(status: Status, at: int)

  /** The three maps behind the three locks, and what the calls in flight hold between their sections. */
  datatype State = State(
    counter: nat,                      // numbers handed out so far
    unqueued: set<Id>,                 // submitted, not yet in a queue
    queues: map<Priority, seq<Task>>,
    hands: map<Id, Hand>,              // taken off a queue by a scheduling call
    running: map<Id, int>,             // with the time after which the task has timed out
    closing: map<Id, Done>,            // ended, not yet stored
    completed: map<Id, Done>,
    evicted: set<Id>,                  // dropped from `completed` to make room
    unsent: map<Id, Status>,           // stored, result not yet sent
    results: seq<(Id, Status)>)        // results sent, in order

  const START := State(0, {}, map[], map[], map[], map[], map[], {}, map[], [])

  const KEPT_AT_MOST: nat := 500
  const EVICTED_AT_ONCE: nat := 250

  function Queue(queues: map<Priority, seq<Task>>, p: Priority): seq<Task> {
    if p in queues then queues[p] else []
  }

  /** Position of the task with this id, or the length of the queue. */
  function Position(q: seq<Task>, id: Id): (i: nat)
    ensures i <= |q|
    ensures i < |q| ==> q[i].id == id
  {
    if q == [] || q[0].id == id then 0 else 1 + Position(q[1..], id)
  }

  /** The critical sections. Each call is a sequence of them:
      submit = Mint, Enqueue; schedule = Pop, then Requeue or Send, Start; a node's answer, a cancellation and
      a timeout = the section that takes the task, then Store and Announce. */
  datatype Event =
    | Mint
    | Enqueue(id: Id, priority: Priority)
    | Pop(priority: Priority)
    | Requeue(id: Id, sendersExist: bool)
    | Send(id: Id)
    | Start(id: Id, deadline: int)
    | Answer(id: Id, success: bool, at: int)
    | CancelQueued(id: Id, priority: Priority, at: int)
    | CancelRunning(id: Id, at: int)
    | Expire(id: Id, at: int)
    | Store(id: Id, victims: set<Id>)
    | Announce(id: Id)

  /** Beyond 500 stored tasks the 250 oldest are dropped, ties in any order. */
  ghost predicate MayEvict(all: map<Id, Done>, victims: set<Id>) {
    if |all| > KEPT_AT_MOST then
      && victims <= all.Keys && |victims| == EVICTED_AT_ONCE
      && forall v, k | v in victims && k in all.Keys - victims :: all[v].at <= all[k].at
    else
      victims == {}
  }

  /** Whether the section finds what it needs; one that does not has no effect. */
  ghost predicate Enabled(s: State, e: Event) {
    match e
    case Mint => true
    case Enqueue(id, _) => id in s.unqueued
    case Pop(p) => Queue(s.queues, p) != []
    case Requeue(id, _) => id in s.hands && !s.hands[id].sent
    case Send(id) => id in s.hands && !s.hands[id].sent
    case Start(id, _) => id in s.hands && s.hands[id].sent
    case Answer(id, _, _) => id in s.running
    case CancelQueued(id, p, _) => Position(Queue(s.queues, p), id) < |Queue(s.queues, p)|
    case CancelRunning(id, _) => id in s.running
    case Expire(id, at) => id in s.running && at > s.running[id]
    case Store(id, victims) => id in s.closing && MayEvict(s.completed[id := s.closing[id]], victims)
    case Announce(id) => id in s.unsent
  }

  /** The end that a section gives to the task it takes. */
  function EndOf(e: Event): Option<Done> {
    match e
    case Answer(_, success, at) => Some(Done(if success then Completed else Failed, at))
    case CancelQueued(_, _, at) => Some(Done(Cancelled, at))
    case CancelRunning(_, at) => Some(Done(Cancelled, at))
    case Expire(_, at) => Some(Done(Timeout, at))
    case _ => None
  }

  /** The retry counter goes up while it is below the limit and some node is connected. */
  function Retried(max: nat, t: Task, sendersExist: bool): Task {
    if t.retries < max && sendersExist then t.(retries := t.retries + 1) else t
  }

  ghost function Apply(max: nat, s: State, e: Event): State
    requires Enabled(s, e)
  {
    match e
    case Mint => s.(counter := s.counter + 1, unqueued := s.unqueued + {s.counter})
    case Enqueue(id, p) =>
      s.(unqueued := s.unqueued - {id}, queues := s.queues[p := Queue(s.queues, p) + [Task(id, 0)]])
    case Pop(p) =>
      var q := Queue(s.queues, p);
      s.(queues := s.queues[p := q[1..]], hands := s.hands[q[0].id := Hand(q[0], p, false)])
    case Requeue(id, sendersExist) =>
      var hand := s.hands[id];
      s.(hands := s.hands - {id},
         queues := s.queues[hand.priority := [Retried(max, hand.task, sendersExist)] + Queue(s.queues, hand.priority)])
    case Send(id) => s.(hands := s.hands[id := s.hands[id].(sent := true)])
    case Start(id, deadline) => s.(hands := s.hands - {id}, running := s.running[id := deadline])
    case CancelQueued(id, p, _) =>
      var q := Queue(s.queues, p);
      s.(queues := s.queues[p := RemoveAt(q, Position(q, id))], closing := s.closing[id := EndOf(e).value])
    case Store(id, victims) =>
      s.(closing := s.closing - {id}, unsent := s.unsent[id := s.closing[id].status],
         completed := s.completed[id := s.closing[id]] - victims, evicted := s.evicted + victims)
    case Announce(id) => s.(unsent := s.unsent - {id}, results := s.results + [(id, s.unsent[id])])
    case _ => s.(running := s.running - {e.id}, closing := s.closing[e.id := EndOf(e).value])
  }

  /** The sections that take a running task: a node's answer, a cancellation, a timeout. */
  predicate TakesRunning(e: Event) {
    e.Answer? || e.CancelRunning? || e.Expire?
  }

  ghost function Step(max: nat, s: State, e: Event): State {
    if Enabled(s, e) then Apply(max, s, e) else s
  }

  /** The state after an interleaving. */
  ghost function Run(max: nat, events: seq<Event>): State {
    if events == [] then START else Step(max, Run(max, events[..|events| - 1]), events[|events| - 1])
  }

  // ---- where a task is ----

  function Count(q: seq<Task>, id: Id): nat {
    if q == [] then 0 else (if q[0].id == id then 1 else 0) + Count(q[1..], id)
  }

  function CountIn(queues: map<Priority, seq<Task>>, p: Priority, id: Id): nat {
    Count(Queue(queues, p), id)
  }

  function Queued(queues: map<Priority, seq<Task>>, id: Id): nat {
    CountIn(queues, Critical, id) + CountIn(queues, Urgent, id) + CountIn(queues, High, id)
    + CountIn(queues, Normal, id) + CountIn(queues, Low, id) + CountIn(queues, Background, id)
  }

  function Once(b: bool): nat {
    if b then 1 else 0
  }

  /** In how many places a task is. */
  function Places(s: State, id: Id): nat {
    Once(id in s.unqueued) + Queued(s.queues, id) + Once(id in s.hands) + Once(id in s.running)
    + Once(id in s.closing) + Once(id in s.completed) + Once(id in s.evicted)
  }

  /** Hands hold the task they are filed under, and every number handed out is in exactly one place. */
  ghost predicate Placed(s: State) {
    && (forall id | id in s.hands :: s.hands[id].task.id == id)
    && forall id: Id :: Places(s, id) == Once(id < s.counter)
  }

  lemma {:induction false} CountConcat(a: seq<Task>, b: seq<Task>, id: Id)
    ensures Count(a + b, id) == Count(a, id) + Count(b, id)
  {
    if a == [] {
      assert a + b == b;
    } else {
      CountConcat(a[1..], b, id);
      assert (a + b)[1..] == a[1..] + b;
    }
  }

  lemma CountOne(t: Task, id: Id)
    ensures Count([t], id) == Once(t.id == id)
  {
    assert [t][1..] == [];
  }

  lemma CountRemoveAt(q: seq<Task>, i: nat, id: Id)
    requires i < |q|
    ensures Count(q, id) == Count(RemoveAt(q, i), id) + Once(q[i].id == id)
  {
    assert q == q[..i] + ([q[i]] + q[i + 1..]);
    CountConcat(q[..i], [q[i]] + q[i + 1..], id);
    CountConcat([q[i]], q[i + 1..], id);
    CountConcat(q[..i], q[i + 1..], id);
    CountOne(q[i], id);
  }

  lemma CountInUpdate(queues: map<Priority, seq<Task>>, p: Priority, q: seq<Task>, r: Priority, id: Id)
    ensures CountIn(queues[p := q], r, id) == if r == p then Count(q, id) else CountIn(queues, r, id)
  {
  }

  lemma QueuedUpdate(queues: map<Priority, seq<Task>>, p: Priority, q: seq<Task>, id: Id)
    ensures Queued(queues[p := q], id) + CountIn(queues, p, id) == Queued(queues, id) + Count(q, id)
  {
    CountInUpdate(queues, p, q, Critical, id);
    CountInUpdate(queues, p, q, Urgent, id);
    CountInUpdate(queues, p, q, High, id);
    CountInUpdate(queues, p, q, Normal, id);
    CountInUpdate(queues, p, q, Low, id);
    CountInUpdate(queues, p, q, Background, id);
  }

  lemma QueuedAtLeast(queues: map<Priority, seq<Task>>, p: Priority, id: Id)
    ensures CountIn(queues, p, id) <= Queued(queues, id)
  {
    QueuedUpdate(queues, p, [], id);
  }

  lemma EnqueueKeepsPlaces(max: nat, s: State, i: Id, p: Priority, id: Id)
    requires Enabled(s, Enqueue(i, p))
    ensures Places(Apply(max, s, Enqueue(i, p)), id) == Places(s, id)
  {
    QueuedUpdate(s.queues, p, Queue(s.queues, p) + [Task(i, 0)], id);
    CountConcat(Queue(s.queues, p), [Task(i, 0)], id);
    CountOne(Task(i, 0), id);
  }

  lemma PopRemovesHead(queues: map<Priority, seq<Task>>, p: Priority, id: Id)
    requires Queue(queues, p) != []
    ensures Queued(queues[p := Queue(queues, p)[1..]], id) + Once(Queue(queues, p)[0].id == id) == Queued(queues, id)
  {
    QueuedUpdate(queues, p, Queue(queues, p)[1..], id);
  }

  lemma PopKeepsPlaces(max: nat, s: State, p: Priority, id: Id)
    requires Enabled(s, Pop(p)) && Places(s, Queue(s.queues, p)[0].id) <= 1
    ensures Places(Apply(max, s, Pop(p)), id) == Places(s, id)
  {
    PopRemovesHead(s.queues, p, id);
    PopRemovesHead(s.queues, p, Queue(s.queues, p)[0].id);
  }

  lemma RequeueKeepsPlaces(max: nat, s: State, i: Id, sendersExist: bool, id: Id)
    requires Enabled(s, Requeue(i, sendersExist)) && s.hands[i].task.id == i
    ensures Places(Apply(max, s, Requeue(i, sendersExist)), id) == Places(s, id)
  {
    var hand := s.hands[i];
    var t, q := Retried(max, hand.task, sendersExist), Queue(s.queues, hand.priority);
    QueuedUpdate(s.queues, hand.priority, [t] + q, id);
    CountConcat([t], q, id);
    CountOne(t, id);
  }

  lemma StartKeepsPlaces(max: nat, s: State, i: Id, deadline: int, id: Id)
    requires Enabled(s, Start(i, deadline)) && Places(s, i) <= 1
    ensures Places(Apply(max, s, Start(i, deadline)), id) == Places(s, id)
  {
  }

  lemma FoundIsQueued(s: State, i: Id, p: Priority, at: int)
    requires Enabled(s, CancelQueued(i, p, at))
    ensures 1 <= CountIn(s.queues, p, i) <= Queued(s.queues, i)
  {
    CountRemoveAt(Queue(s.queues, p), Position(Queue(s.queues, p), i), i);
    QueuedAtLeast(s.queues, p, i);
  }

  lemma CancelQueuedKeepsPlaces(max: nat, s: State, i: Id, p: Priority, at: int, id: Id)
    requires Enabled(s, CancelQueued(i, p, at)) && Places(s, i) <= 1
    ensures Places(Apply(max, s, CancelQueued(i, p, at)), id) == Places(s, id)
  {
    var q := Queue(s.queues, p);
    var pos := Position(q, i);
    CountRemoveAt(q, pos, id);
    QueuedUpdate(s.queues, p, RemoveAt(q, pos), id);
    FoundIsQueued(s, i, p, at);
  }

  lemma TakeKeepsPlaces(max: nat, s: State, e: Event, id: Id)
    requires TakesRunning(e) && Enabled(s, e) && Places(s, e.id) <= 1
    ensures Places(Apply(max, s, e), id) == Places(s, id)
  {
    assert Apply(max, s, e) == s.(running := s.running - {e.id}, closing := s.closing[e.id := EndOf(e).value]);
  }

  lemma StoreKeepsPlaces(max: nat, s: State, i: Id, victims: set<Id>, id: Id)
    requires Enabled(s, Store(i, victims)) && Places(s, i) <= 1 && Places(s, id) <= 1
    ensures Places(Apply(max, s, Store(i, victims)), id) == Places(s, id)
  {
    assert id in victims ==> id in s.completed || id == i;
  }

  /** The task that a section is about. */
  function Subject(s: State, e: Event): Id
    requires e.Pop? ==> Queue(s.queues, e.priority) != []
  {
    match e
    case Mint => s.counter
    case Pop(p) => Queue(s.queues, p)[0].id
    case _ => e.id
  }

  /** What a section does to the number of places of each task: nothing, but for a new number. */
  lemma PlacesKept(max: nat, s: State, e: Event, id: Id)
    requires Enabled(s, e) && Places(s, Subject(s, e)) <= Once(!e.Mint?) && Places(s, id) <= 1
    requires e.Requeue? ==> s.hands[e.id].task.id == e.id
    ensures Places(Apply(max, s, e), id) == Places(s, id) + Once(e == Mint && id == s.counter)
  {
    match e
    case Mint =>
    case Enqueue(i, p) => EnqueueKeepsPlaces(max, s, i, p, id);
    case Pop(p) => PopKeepsPlaces(max, s, p, id);
    case Requeue(i, sendersExist) => RequeueKeepsPlaces(max, s, i, sendersExist, id);
    case Send(_) =>
    case Start(i, deadline) => StartKeepsPlaces(max, s, i, deadline, id);
    case CancelQueued(i, p, at) => CancelQueuedKeepsPlaces(max, s, i, p, at, id);
    case Store(i, victims) => StoreKeepsPlaces(max, s, i, victims, id);
    case Announce(_) =>
    case _ => TakeKeepsPlaces(max, s, e, id);
  }

  lemma HandsStayFiled(max: nat, s: State, e: Event)
    requires Enabled(s, e)
    requires forall id | id in s.hands :: s.hands[id].task.id == id
    ensures var next := Apply(max, s, e); forall id | id in next.hands :: next.hands[id].task.id == id
  {
  }

  lemma StepKeepsPlaced(max: nat, s: State, e: Event)
    requires Placed(s) && Enabled(s, e)
    ensures Placed(Apply(max, s, e))
  {
    var next := Apply(max, s, e);
    HandsStayFiled(max, s, e);
    assert next.counter == s.counter + Once(e == Mint);
    assert Places(s, Subject(s, e)) == Once(Subject(s, e) < s.counter);
    forall id: Id ensures Places(next, id) == Once(id < next.counter) {
      assert Places(s, id) == Once(id < s.counter);
      PlacesKept(max, s, e, id);
    }
  }

  lemma NothingAtFirst(id: Id)
    ensures Places(START, id) == 0
  {
  }

  /** Under every interleaving each submitted task is in exactly one place: not yet queued, queued,
      in a scheduling call's hand, running, ended, stored or evicted. */
  lemma {:induction false} EachTaskInOnePlace(max: nat, events: seq<Event>)
    ensures Placed(Run(max, events))
  {
    if events == [] {
      forall id: Id ensures Places(START, id) == 0 {
        NothingAtFirst(id);
      }
    } else {
      var s, e := Run(max, events[..|events| - 1]), events[|events| - 1];
      EachTaskInOnePlace(max, events[..|events| - 1]);
      if Enabled(s, e) {
        StepKeepsPlaced(max, s, e);
      }
    }
  }

  lemma StoredAtMost(completed: map<Id, Done>, id: Id, done: Done, victims: set<Id>)
    requires |completed| <= KEPT_AT_MOST && MayEvict(completed[id := done], victims)
    ensures |completed[id := done] - victims| <= KEPT_AT_MOST
  {
    var all := completed[id := done];
    assert all.Keys == completed.Keys + {id};
    assert (all - victims).Keys == all.Keys - victims;
  }

  lemma OnlyStoringStores(max: nat, s: State, e: Event)
    requires Enabled(s, e) && !e.Store?
    ensures Apply(max, s, e).completed == s.completed
  {
  }

  /** At most 500 ended tasks are stored at any time. */
  lemma {:induction false} StoreIsBounded(max: nat, events: seq<Event>)
    ensures |Run(max, events).completed| <= 500
  {
    if events != [] {
      var s, e := Run(max, events[..|events| - 1]), events[|events| - 1];
      StoreIsBounded(max, events[..|events| - 1]);
      if Enabled(s, e) {
        if e.Store? {
          StoredAtMost(s.completed, e.id, s.closing[e.id], e.victims);
        } else {
          OnlyStoringStores(max, s, e);
        }
      }
    }
  }

  function EndTime(all: map<Id, Done>, id: Id): int {
    if id in all then all[id].at else 0
  }

  lemma FirstSortedAreOldest(all: map<Id, Done>, ids: seq<Id>, n: nat, first: set<Id>)
    requires Enumerates(ids, all.Keys) && n <= |ids|
    requires Sorting.Sorted(ids, (a, b) => EndTime(all, a) <= EndTime(all, b))
    requires forall id :: id in first <==> id in ids[..n]
    ensures forall v, k | v in first && k in all.Keys - first :: all[v].at <= all[k].at
  {
    forall v, k | v in first && k in all.Keys - first ensures all[v].at <= all[k].at {
      assert v in ids[..n] && k in ids && k !in ids[..n];
      var i :| 0 <= i < n && ids[i] == v;
      var j :| 0 <= j < |ids| && ids[j] == k;
      assert forall m :: 0 <= m < n ==> ids[m] == ids[..n][m];
      assert i < j;
    }
  }

  function Elements(ids: seq<Id>): (all: set<Id>)
    ensures forall id :: id in all <==> id in ids
  {
    set id: Id | id in ids
  }

  lemma {:induction false} ElementsCount(ids: seq<Id>)
    requires Distinct(ids)
    ensures |Elements(ids)| == |ids|
  {
    if ids != [] {
      var front, last := ids[..|ids| - 1], ids[|ids| - 1];
      ElementsCount(front);
      assert ids == front + [last];
      assert last !in Elements(front);
      assert Elements(ids) == Elements(front) + {last};
    }
  }

  /** The ids of the stored tasks, collected in hash-map order and sorted by the time of their end. */
  method OldestFirst(all: map<Id, Done>) returns (ids: seq<Id>)
    ensures Enumerates(ids, all.Keys) && |ids| == |all.Keys|
    ensures Sorting.Sorted(ids, (a, b) => EndTime(all, a) <= EndTime(all, b))
  {
    var keys := CollectKeys(all.Keys);
    var older := (a, b) => EndTime(all, a) <= EndTime(all, b);
    Sorting.SortBySorts(keys, older);
    Sorting.SortByPermutes(keys, older);
    Sorting.SortByKeepsDistinct(keys, older);
    ids := Sorting.SortBy(keys, older);
    ElementsCount(ids);
    assert Elements(ids) == all.Keys;
  }

  method RemoveFirst(all: map<Id, Done>, ids: seq<Id>, n: nat) returns (stored: map<Id, Done>)
    requires n <= |ids|
    ensures stored == all - Elements(ids[..n])
  {
    stored := all;
    for i := 0 to n
      invariant stored == all - Elements(ids[..i])
    {
      assert ids[..i + 1] == ids[..i] + [ids[i]];
      stored := stored - {ids[i]};
    }
  }

  lemma FirstMayGo(all: map<Id, Done>, ids: seq<Id>, victims: set<Id>)
    requires Enumerates(ids, all.Keys) && |ids| == |all.Keys| > KEPT_AT_MOST
    requires Sorting.Sorted(ids, (a, b) => EndTime(all, a) <= EndTime(all, b))
    requires victims == Elements(ids[..EVICTED_AT_ONCE])
    ensures MayEvict(all, victims)
  {
    ElementsCount(ids[..EVICTED_AT_ONCE]);
    FirstSortedAreOldest(all, ids, EVICTED_AT_ONCE, victims);
  }

  /** Inserts an ended task; beyond the limit the 250 that ended first are removed one by one. */
  method StoreCompleted(completed: map<Id, Done>, id: Id, done: Done) returns (stored: map<Id, Done>)
    ensures var all := completed[id := done];
            && stored == all - (all.Keys - stored.Keys)
            && |stored| == (if |all| > 500 then |all| - 250 else |all|)
            && forall v, k | v in all.Keys - stored.Keys && k in stored :: all[v].at <= all[k].at
    ensures MayEvict(completed[id := done], completed[id := done].Keys - stored.Keys)
  {
    stored := completed[id := done];
    if |stored| > KEPT_AT_MOST {
      var all := stored;
      var ids := OldestFirst(all);
      ghost var victims := Elements(ids[..EVICTED_AT_ONCE]);
      FirstMayGo(all, ids, victims);
      stored := RemoveFirst(all, ids, EVICTED_AT_ONCE);
      assert all.Keys - stored.Keys == victims;
    }
  }

  // ---- how a task ends ----

  ghost function NextVerdict(s: State, e: Event, id: Id, before: Option<Done>): Option<Done> {
    if before.Some? then before
    else if EndOf(e).Some? && e.id == id && Enabled(s, e) then EndOf(e)
    else None
  }

  /** The first end that the history gives to the task. */
  ghost function Verdict(max: nat, events: seq<Event>, id: Id): Option<Done> {
    if events == [] then
      None
    else
      var front, e := events[..|events| - 1], events[|events| - 1];
      NextVerdict(Run(max, front), e, id, Verdict(max, front, id))
  }

  /** Whether the task was entered as running. */
  ghost predicate Started(max: nat, events: seq<Event>, id: Id) {
    events != [] &&
    var front, e := events[..|events| - 1], events[|events| - 1];
    Started(max, front, id) || (e.Start? && e.id == id && Enabled(Run(max, front), e))
  }

  /** The results sent for the task, in order. */
  function Sent(results: seq<(Id, Status)>, id: Id): seq<Status> {
    if results == [] then []
    else
      Sent(results[..|results| - 1], id)
      + if results[|results| - 1].0 == id then [results[|results| - 1].1] else []
  }

  /** What is stored about the task is this verdict, and it is what has been sent once the
      announcement is done; without a verdict nothing is stored or sent. */
  ghost predicate Follows(s: State, id: Id, verdict: Option<Done>) {
    && (verdict.Some? <==> id in s.closing || id in s.completed || id in s.evicted)
    && (id in s.closing ==> Some(s.closing[id]) == verdict)
    && (id in s.completed ==> Some(s.completed[id]) == verdict)
    && (id in s.unsent ==> verdict.Some? && s.unsent[id] == verdict.value.status && id !in s.closing)
    && Sent(s.results, id) == if verdict.None? || id in s.closing || id in s.unsent then []
       else [verdict.value.status]
  }

  lemma SentAppend(results: seq<(Id, Status)>, r: (Id, Status), id: Id)
    ensures Sent(results + [r], id) == Sent(results, id) + if r.0 == id then [r.1] else []
  {
    assert (results + [r])[..|results|] == results;
  }

  lemma TakeFollows(max: nat, s: State, e: Event, id: Id, verdict: Option<Done>)
    requires Placed(s) && Follows(s, id, verdict) && TakesRunning(e) && Enabled(s, e)
    ensures Follows(Apply(max, s, e), id, NextVerdict(s, e, id, verdict))
  {
    assert Places(s, id) <= 1;
    var next := s.(running := s.running - {e.id}, closing := s.closing[e.id := EndOf(e).value]);
    assert Apply(max, s, e) == next;
  }

  lemma CancelQueuedFollows(max: nat, s: State, i: Id, p: Priority, at: int, id: Id, verdict: Option<Done>)
    requires Placed(s) && Follows(s, id, verdict) && Enabled(s, CancelQueued(i, p, at))
    ensures Follows(Apply(max, s, CancelQueued(i, p, at)), id, NextVerdict(s, CancelQueued(i, p, at), id, verdict))
  {
    FoundIsQueued(s, i, p, at);
    assert Places(s, i) <= 1;
  }

  lemma StoreFollows(max: nat, s: State, i: Id, victims: set<Id>, id: Id, verdict: Option<Done>)
    requires Placed(s) && Follows(s, id, verdict) && Enabled(s, Store(i, victims))
    ensures Follows(Apply(max, s, Store(i, victims)), id, verdict)
  {
    assert Places(s, i) <= 1 && Places(s, id) <= 1;
    assert id in victims ==> id in s.completed || id == i;
  }

  lemma AnnounceFollows(max: nat, s: State, i: Id, id: Id, verdict: Option<Done>)
    requires Follows(s, id, verdict) && Enabled(s, Announce(i))
    ensures Follows(Apply(max, s, Announce(i)), id, verdict)
  {
    SentAppend(s.results, (i, s.unsent[i]), id);
  }

  lemma StepFollows(max: nat, s: State, e: Event, id: Id, verdict: Option<Done>)
    requires Placed(s) && Follows(s, id, verdict)
    ensures Follows(Step(max, s, e), id, NextVerdict(s, e, id, verdict))
  {
    if Enabled(s, e) {
      match e
      case Mint =>
      case Enqueue(_, _) =>
      case Pop(_) =>
      case Requeue(_, _) =>
      case Send(_) =>
      case Start(_, _) =>
      case CancelQueued(i, p, at) => CancelQueuedFollows(max, s, i, p, at, id, verdict);
      case Store(i, victims) => StoreFollows(max, s, i, victims, id, verdict);
      case Announce(i) => AnnounceFollows(max, s, i, id, verdict);
      case Answer(_, _, _) => TakeFollows(max, s, e, id, verdict);
      case CancelRunning(_, _) => TakeFollows(max, s, e, id, verdict);
      case Expire(_, _) => TakeFollows(max, s, e, id, verdict);
    }
  }

  /** The first section that takes the task decides: whatever is stored or sent about it at any later time
      is that verdict, it is never overwritten, and its result is sent exactly once. */
  lemma {:induction false} FirstVerdictIsFinal(max: nat, events: seq<Event>, id: Id)
    ensures Follows(Run(max, events), id, Verdict(max, events, id))
  {
    if events != [] {
      var front := events[..|events| - 1];
      FirstVerdictIsFinal(max, front, id);
      EachTaskInOnePlace(max, front);
      StepFollows(max, Run(max, front), events[|events| - 1], id, Verdict(max, front, id));
    }
  }

  /** Nothing is waiting, in hand, running or still to be stored or sent. */
  ghost predicate AtRest(s: State) {
    && s.unqueued == {} && (forall id: Id :: Queued(s.queues, id) == 0) && s.hands == map[]
    && s.running == map[] && s.closing == map[] && s.unsent == map[]
  }

  /** When all calls are done and nothing is queued or running, exactly one result has been sent for every
      task ever submitted, and none for any other. */
  lemma OneResultEach(max: nat, events: seq<Event>, id: Id)
    requires AtRest(Run(max, events))
    ensures |Sent(Run(max, events).results, id)| == Once(id < Run(max, events).counter)
  {
    EachTaskInOnePlace(max, events);
    FirstVerdictIsFinal(max, events, id);
    assert Places(Run(max, events), id) == Once(id < Run(max, events).counter);
  }

  lemma RunningAfter(max: nat, s: State, e: Event, id: Id)
    requires Enabled(s, e)
    ensures id in Apply(max, s, e).running
       <==> (e.Start? && e.id == id) || (id in s.running && !(TakesRunning(e) && e.id == id))
  {
  }

  lemma EndedIsNotWaiting(s: State, id: Id, verdict: Option<Done>)
    requires Places(s, id) <= 1 && Follows(s, id, verdict)
    ensures id in s.hands ==> verdict.None? && id !in s.running
    ensures Queued(s.queues, id) >= 1 ==> id !in s.running
  {
  }

  lemma EndsIff(e: Event)
    ensures EndOf(e).Some? <==> TakesRunning(e) || e.CancelQueued?
  {
  }

  lemma RunningStep(s: State, e: Event, id: Id, started: bool, verdict: Option<Done>, after: bool)
    requires id in s.hands ==> verdict.None? && id !in s.running
    requires Queued(s.queues, id) >= 1 ==> id !in s.running
    requires Enabled(s, e) && (id in s.running <==> started && verdict.None?)
    requires after <==> (e.Start? && e.id == id) || (id in s.running && !(TakesRunning(e) && e.id == id))
    ensures after <==> (started || (e.Start? && e.id == id)) && NextVerdict(s, e, id, verdict).None?
  {
    EndsIff(e);
    if e.CancelQueued? {
      FoundIsQueued(s, e.id, e.priority, e.at);
    }
  }

  /** A task is running exactly between its entry into the running map and its verdict. */
  lemma {:induction false} RunningIff(max: nat, events: seq<Event>, id: Id)
    ensures id in Run(max, events).running <==> Started(max, events, id) && Verdict(max, events, id).None?
  {
    if events != [] {
      var front, e := events[..|events| - 1], events[|events| - 1];
      RunningIff(max, front, id);
      FirstVerdictIsFinal(max, front, id);
      EachTaskInOnePlace(max, front);
      assert Places(Run(max, front), id) <= 1;
      EndedIsNotWaiting(Run(max, front), id, Verdict(max, front, id));
      if Enabled(Run(max, front), e) {
        RunningAfter(max, Run(max, front), e, id);
        RunningStep(Run(max, front), e, id, Started(max, front, id), Verdict(max, front, id),
                    id in Run(max, events).running);
      }
    }
  }

  /** The time limit given to the task at its entry as running. */
  ghost function Deadline(max: nat, events: seq<Event>, id: Id): Option<int> {
    if events == [] then
      None
    else
      var front, e := events[..|events| - 1], events[|events| - 1];
      if e.Start? && e.id == id && Enabled(Run(max, front), e) then Some(e.deadline) else Deadline(max, front, id)
  }

  lemma DeadlineStep(max: nat, s: State, e: Event, id: Id)
    requires Enabled(s, e) && id in Apply(max, s, e).running
    ensures if e.Start? && e.id == id then Apply(max, s, e).running[id] == e.deadline
            else id in s.running && Apply(max, s, e).running[id] == s.running[id]
  {
  }

  lemma {:induction false} RunningHasItsDeadline(max: nat, events: seq<Event>, id: Id)
    ensures Started(max, events, id) <==> Deadline(max, events, id).Some?
    ensures id in Run(max, events).running ==> Deadline(max, events, id) == Some(Run(max, events).running[id])
  {
    if events != [] {
      var front, e := events[..|events| - 1], events[|events| - 1];
      RunningHasItsDeadline(max, front, id);
      if Enabled(Run(max, front), e) && id in Run(max, events).running {
        DeadlineStep(max, Run(max, front), e, id);
      }
    }
  }

  /** Event `i` is the first to end the task: an answer, a cancellation or a timeout while it is running, the
      timeout after the limit given at its start, or a cancellation that finds it in a queue. */
  ghost predicate Ends(max: nat, events: seq<Event>, i: nat, id: Id, done: Done) {
    && i < |events| && Verdict(max, events[..i], id).None?
    && match events[i]
       case Answer(task, success, at) =>
         task == id && Started(max, events[..i], id) && done == Done(if success then Completed else Failed, at)
       case CancelRunning(task, at) =>
         task == id && Started(max, events[..i], id) && done == Done(Cancelled, at)
       case Expire(task, at) =>
         && task == id && done == Done(Timeout, at)
         && Deadline(max, events[..i], id).Some? && at > Deadline(max, events[..i], id).value
       case CancelQueued(task, p, at) =>
         && task == id && done == Done(Cancelled, at)
         && exists j :: 0 <= j < |Queue(Run(max, events[..i]).queues, p)|
                        && Queue(Run(max, events[..i]).queues, p)[j].id == id
       case _ => false
  }

  lemma {:induction false} FoundIff(q: seq<Task>, id: Id)
    ensures Position(q, id) < |q| <==> exists j :: 0 <= j < |q| && q[j].id == id
  {
    if q != [] && q[0].id != id {
      FoundIff(q[1..], id);
      if j :| 0 <= j < |q| && q[j].id == id {
        assert q[1..][j - 1].id == id;
      }
      if j :| 0 <= j < |q[1..]| && q[1..][j].id == id {
        assert q[j + 1].id == id;
      }
    }
  }

  lemma EndsInFront(max: nat, events: seq<Event>, e: Event, i: nat, id: Id, done: Done)
    requires i < |events|
    ensures Ends(max, events + [e], i, id, done) <==> Ends(max, events, i, id, done)
  {
    assert (events + [e])[..i] == events[..i];
  }

  lemma EndsAtLast(max: nat, events: seq<Event>, e: Event, id: Id, done: Done)
    ensures Ends(max, events + [e], |events|, id, done)
       <==> Verdict(max, events, id).None? && EndOf(e) == Some(done) && e.id == id && Enabled(Run(max, events), e)
  {
    assert (events + [e])[..|events|] == events;
    RunningIff(max, events, id);
    RunningHasItsDeadline(max, events, id);
    if e.CancelQueued? {
      FoundIff(Queue(Run(max, events).queues, e.priority), id);
    }
  }

  /** How and when a task ends is told by the first event that ends it. */
  lemma {:induction false} VerdictIff(max: nat, events: seq<Event>, id: Id, done: Done)
    ensures Verdict(max, events, id) == Some(done) <==> exists i :: Ends(max, events, i, id, done)
  {
    if events != [] {
      var n := |events| - 1;
      var front, e := events[..n], events[n];
      assert events == front + [e];
      VerdictIff(max, front, id, done);
      forall i: nat | i < n ensures Ends(max, events, i, id, done) <==> Ends(max, front, i, id, done) {
        EndsInFront(max, front, e, i, id, done);
      }
      EndsAtLast(max, front, e, id, done);
      assert Verdict(max, events, id) == NextVerdict(Run(max, front), e, id, Verdict(max, front, id));
      if i: nat :| Ends(max, front, i, id, done) {
        assert Ends(max, events, i, id, done);
      }
    }
  }

  /** Event `i` is an answer for the task that arrives after its entry as running and before any verdict. */
  ghost predicate TimelyAnswer(max: nat, events: seq<Event>, i: nat, id: Id, success: bool) {
    && i < |events| && events[i].Answer? && events[i].id == id && events[i].success == success
    && Started(max, events[..i], id) && Verdict(max, events[..i], id).None?
  }

  /** A task ends as completed, or as failed, exactly if a timely answer says so. An answer that overtakes the
      entry as running is dropped like a late one: when every answer does, the task times out or is cancelled. */
  lemma AnsweredIff(max: nat, events: seq<Event>, id: Id, success: bool)
    ensures (Verdict(max, events, id).Some?
             && Verdict(max, events, id).value.status == if success then Completed else Failed)
       <==> exists i :: TimelyAnswer(max, events, i, id, success)
  {
    if Verdict(max, events, id).Some? {
      VerdictIff(max, events, id, Verdict(max, events, id).value);
      if i: nat :| Ends(max, events, i, id, Verdict(max, events, id).value) {
        assert events[i].Answer? ==> TimelyAnswer(max, events, i, id, events[i].success);
      }
    }
    if i: nat :| TimelyAnswer(max, events, i, id, success) {
      var done := Done(if success then Completed else Failed, events[i].at);
      assert Ends(max, events, i, id, done);
      VerdictIff(max, events, id, done);
    }
  }

  ghost function Machine(max: nat): (State, Event) -> State {
    (s: State, e: Event) => Step(max, s, e)
  }

  lemma {:induction false} RunIsFold(max: nat, events: seq<Event>)
    ensures Run(max, events) == Fold(Machine(max), START, events)
  {
    if events != [] {
      var front, e := events[..|events| - 1], events[|events| - 1];
      RunIsFold(max, front);
      FoldConcat(Machine(max), START, front, [e]);
      FoldOne(Machine(max), Run(max, front), e);
      assert events == front + [e];
    }
  }

  lemma RunOn(max: nat, before: seq<Event>, events: seq<Event>)
    ensures Run(max, before + events) == Fold(Machine(max), Run(max, before), events)
  {
    RunIsFold(max, before);
    RunIsFold(max, before + events);
    FoldConcat(Machine(max), START, before, events);
  }

  const NEW := Task(0, 0)
  const MINTED := START.(counter := 1, unqueued := {0})
  const SUBMITTED := START.(counter := 1, queues := map[Normal := [NEW]])
  const HELD := SUBMITTED.(queues := map[Normal := []], hands := map[0 := Hand(NEW, Normal, false)])
  const SENT := HELD.(hands := map[0 := Hand(NEW, Normal, true)])
  const ENTERED := SENT.(hands := map[], running := map[0 := 10])
  const EXPIRED := ENTERED.(running := map[], closing := map[0 := Done(Timeout, 11)])
  const STORED := EXPIRED.(closing := map[], completed := map[0 := Done(Timeout, 11)], unsent := map[0 := Timeout])

  lemma Submitting(max: nat)
    ensures Step(max, START, Mint) == MINTED
    ensures Step(max, MINTED, Enqueue(0, Normal)) == SUBMITTED
  {
    assert {0} - {0} == {};
    assert [] + [NEW] == [NEW];
  }

  lemma Sending(max: nat)
    ensures Step(max, SUBMITTED, Pop(Normal)) == HELD
    ensures Step(max, HELD, Send(0)) == SENT
  {
    assert [NEW][1..] == [];
  }

  lemma Dropping(max: nat)
    ensures Step(max, SENT, Answer(0, true, 1)) == SENT
  {
  }

  lemma Expiring(max: nat)
    ensures Step(max, SENT, Start(0, 10)) == ENTERED
    ensures Step(max, ENTERED, Expire(0, 11)) == EXPIRED
  {
    assert SENT.hands - {0} == map[];
    assert ENTERED.running - {0} == map[];
  }

  lemma Storing(max: nat)
    ensures Step(max, EXPIRED, Store(0, {})) == STORED
  {
    var done := Done(Timeout, 11);
    var all := map[0 := done];
    assert EXPIRED.completed[0 := done] == all && all.Keys == {0} && all - {} == all;
    assert EXPIRED.closing - {0} == map[];
    assert Enabled(EXPIRED, Store(0, {}));
  }

  lemma Announcing(max: nat)
    ensures Step(max, STORED, Announce(0)).results == [(0, Timeout)]
  {
  }

  /** A task has been submitted and its assignment has gone out to a node. */
  const HANDED_OVER := [Mint, Enqueue(0, Normal), Pop(Normal), Send(0)]

  lemma HandingOver(max: nat)
    ensures Run(max, HANDED_OVER) == SENT
  {
    Submitting(max);
    Sending(max);
    RunIsFold(max, HANDED_OVER);
    FoldFour(Machine(max), START, Mint, Enqueue(0, Normal), Pop(Normal), Send(0));
  }

  /** The node's answer arrives between the sending of the assignment and the entry as running. It is dropped,
      the task runs into its deadline, and a timeout is what the submitter gets. */
  lemma AnswerCanBeLost(max: nat)
    ensures var after := [Answer(0, true, 1), Start(0, 10), Expire(0, 11), Store(0, {}), Announce(0)];
            Run(max, HANDED_OVER + after).results == [(0, Timeout)]
  {
    HandingOver(max);
    Dropping(max);
    Expiring(max);
    Storing(max);
    Announcing(max);
    var after := [Start(0, 10), Expire(0, 11), Store(0, {}), Announce(0)];
    RunOn(max, HANDED_OVER, [Answer(0, true, 1)] + after);
    FoldConcat(Machine(max), SENT, [Answer(0, true, 1)], after);
    FoldOne(Machine(max), SENT, Answer(0, true, 1));
    FoldFour(Machine(max), SENT, Start(0, 10), Expire(0, 11), Store(0, {}), Announce(0));
    assert [Answer(0, true, 1)] + after
        == [Answer(0, true, 1), Start(0, 10), Expire(0, 11), Store(0, {}), Announce(0)];
  }
}
