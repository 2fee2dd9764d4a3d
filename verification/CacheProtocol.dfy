/** Overlapping calls on a two-level session cache. The program locks L1 only while it touches it, so a lookup
    that misses, a set and a delete are each two steps, and other calls' steps may come in between. */
module CacheProtocol {
  import opened Prelude
  import opened SessionCache

  /** A session that a lookup has read from the shared store and not yet put into L1. */
  datatype Pending = Pending(id: string, session: SessionData)

  /** Both levels, and what the calls in flight hold: fetched sessions, and writes whose shared half is to come. */
  datatype Shared = Shared(local: seq<Entry>, l2: map<string, SessionData>,
                           fetched: map<nat, Pending>, writing: map<nat, Op>)

  const NEW := Shared([], map[], map[], map[])

  /** A lookup is `Hit`, or after a local miss `Fetch` and `Fill`; a set or delete is `Begin`, which changes L1,
      and `Finish`, which changes the shared store. */
  datatype Event =
    | Hit(id: string, now: int)
    | Fetch(call: nat, id: string)
    | Fill(call: nat, now: int)
    | Begin(call: nat, op: Op)
    | Finish(call: nat)

  function Cache(s: Shared): State {
    State(s.local, Some(s.l2))
  }

  function IdOf(op: Op): string {
    match op
    case Set(session) => session.sessionId
    case Get(id, _) => id
    case Delete(id) => id
  }

  function LocalHalf(cap: Capacity, local: seq<Entry>, op: Op): seq<Entry> {
    match op
    case Set(session) => Put(local, cap, session.sessionId, session)
    case Get(_, _) => local
    case Delete(id) => Without(local, id)
  }

  function SharedHalf(l2: map<string, SessionData>, op: Op): map<string, SessionData> {
    match op
    case Set(session) => l2[L2Key(session.sessionId) := session]
    case Get(_, _) => l2
    case Delete(id) => l2 - {L2Key(id)}
  }

  /** A step that does not find what it needs has no effect. */
  function Advance(cap: Capacity, s: Shared, e: Event): Shared {
    match e
    case Hit(id, now) =>
      var hit := Lookup(s.local, id);
      if hit.Some? then s.(local := Put(s.local, cap, id, hit.value.Touch(now))) else s
    case Fetch(call, id) =>
      if L2Key(id) in s.l2 then s.(fetched := s.fetched[call := Pending(id, s.l2[L2Key(id)])])
      else s.(fetched := s.fetched - {call})
    case Fill(call, now) =>
      if call in s.fetched then
        var p := s.fetched[call];
        s.(local := Put(s.local, cap, p.id, p.session.Touch(now)), fetched := s.fetched - {call})
      else
        s
    case Begin(call, op) =>
      if call in s.writing || op.Get? then s
      else s.(local := LocalHalf(cap, s.local, op), writing := s.writing[call := op])
    case Finish(call) =>
      if call in s.writing then s.(l2 := SharedHalf(s.l2, s.writing[call]), writing := s.writing - {call}) else s
  }

  /** The state after an interleaving. */
  function Reached(cap: Capacity, events: seq<Event>): Shared {
    if events == [] then NEW
    else Advance(cap, Reached(cap, events[..|events| - 1]), events[|events| - 1])
  }

  /** The writes that have reached the shared store, in that order. */
  function Finished(cap: Capacity, events: seq<Event>): seq<Op> {
    if events == [] then
      []
    else
      var front, e := events[..|events| - 1], events[|events| - 1];
      var s := Reached(cap, front);
      Finished(cap, front) + if e.Finish? && e.call in s.writing then [s.writing[e.call]] else []
  }

  // ---- a call that nothing interrupts ----

  /** Two steps in a row do what the operation does in one. */
  lemma UninterruptedWrite(cap: Capacity, s: Shared, call: nat, op: Op)
    requires call !in s.writing && !op.Get?
    ensures var after := Advance(cap, Advance(cap, s, Begin(call, op)), Finish(call));
            Cache(after) == Step(cap, Cache(s), op) && after.fetched == s.fetched && after.writing == s.writing
  {
    assert s.writing[call := op] - {call} == s.writing;
  }

  lemma UninterruptedLookup(cap: Capacity, s: Shared, call: nat, id: string, now: int)
    requires call !in s.fetched
    ensures var after := if Lookup(s.local, id).Some? then Advance(cap, s, Hit(id, now))
                         else Advance(cap, Advance(cap, s, Fetch(call, id)), Fill(call, now));
            Cache(after) == Step(cap, Cache(s), Get(id, now)) && after.fetched == s.fetched
            && after.writing == s.writing
  {
    if L2Key(id) in s.l2 {
      assert s.fetched[call := Pending(id, s.l2[L2Key(id)])] - {call} == s.fetched;
    } else {
      assert s.fetched - {call} == s.fetched;
    }
  }

  // ---- the shared store tells the history of finished writes ----

  lemma SharedHalfIsStep(cap: Capacity, s: Shared, op: Op)
    requires !op.Get?
    ensures Some(SharedHalf(s.l2, op)) == Step(cap, Cache(s), op).l2
  {
  }

  ghost predicate WritesOnly(s: Shared) {
    forall call | call in s.writing :: !s.writing[call].Get?
  }

  lemma {:induction false} SharedTellsFinished(cap: Capacity, events: seq<Event>)
    ensures WritesOnly(Reached(cap, events))
    ensures SharedAgrees(Cache(Reached(cap, events)), Finished(cap, events))
  {
    if events != [] {
      var front, e := events[..|events| - 1], events[|events| - 1];
      var s, ops := Reached(cap, front), Finished(cap, front);
      SharedTellsFinished(cap, front);
      if e.Finish? && e.call in s.writing {
        var op := s.writing[e.call];
        SharedHalfIsStep(cap, s, op);
        StepSharedAgrees(cap, Cache(s), ops, op);
      } else {
        assert ops + [] == ops && Reached(cap, events).l2 == s.l2;
      }
    }
  }

  // ---- when lookups agree with the shared store ----

  /** Some write of this id has changed L1 and not yet the shared store. */
  ghost predicate Busy(s: Shared, id: string) {
    exists call :: call in s.writing && IdOf(s.writing[call]) == id
  }

  /** Some other call's write of this id is unfinished. */
  ghost predicate OthersBusy(s: Shared, call: nat, id: string) {
    exists other :: other in s.writing && other != call && IdOf(s.writing[other]) == id
  }

  /** The shared store has the session under this id, apart from the time of access. */
  ghost predicate IsShared(l2: map<string, SessionData>, id: string, session: SessionData) {
    L2Key(id) in l2 && SameSession(session, l2[L2Key(id)])
  }

  /** L1 has nothing under the id, or what the shared store has. */
  ghost predicate Matches(local: seq<Entry>, l2: map<string, SessionData>, id: string) {
    Lookup(local, id).Some? ==> IsShared(l2, id, Lookup(local, id).value)
  }

  ghost predicate Coherent(s: Shared) {
    forall id :: !Busy(s, id) ==> Matches(s.local, s.l2, id)
  }

  /** L1 has nothing under the written id, or what the write leaves there. */
  ghost predicate LocalFits(local: seq<Entry>, op: Op) {
    var hit := Lookup(local, IdOf(op));
    hit.Some? ==> op.Set? && SameSession(hit.value, op.session)
  }

  /** What a step must find: a session put into L1 is the shared one, and the last unfinished write of an id
      finds L1 empty there or holding what it writes. */
  ghost predicate Guard(s: Shared, e: Event) {
    match e
    case Fill(call, _) =>
      call in s.fetched && !Busy(s, s.fetched[call].id) ==>
        IsShared(s.l2, s.fetched[call].id, s.fetched[call].session)
    case Finish(call) =>
      call in s.writing && !OthersBusy(s, call, IdOf(s.writing[call])) ==> LocalFits(s.local, s.writing[call])
    case _ => true
  }

  /** L1 is a list of distinct keys within its capacity. */
  ghost predicate IsLru(cap: Capacity, local: seq<Entry>) {
    DistinctKeys(local) && cap.Holds(|local|) && (cap.Bounded? ==> cap.n > 0)
  }

  lemma {:induction false} LookupOfMember(l: seq<Entry>, e: Entry)
    requires DistinctKeys(l) && e in l
    ensures Lookup(l, e.key) == Some(e.session)
  {
    if l[0].key == e.key {
      var i :| 0 <= i < |l| && l[i] == e;
      assert i == 0;
    } else {
      assert l == [l[0]] + l[1..];
      LookupOfMember(l[1..], e);
    }
  }

  lemma LookupInSmaller(small: seq<Entry>, large: seq<Entry>, id: string)
    requires DistinctKeys(small) && DistinctKeys(large)
    requires forall e :: e in small && e.key == id ==> e in large
    ensures Lookup(small, id).Some? ==> Lookup(large, id) == Lookup(small, id)
  {
    LookupFinds(small, id);
    if Lookup(small, id).Some? {
      LookupOfMember(large, Entry(id, Lookup(small, id).value));
    }
  }

  /** After a put the key has its session; any other key has what it had, or has been evicted. */
  lemma LookupAfterPut(cap: Capacity, l: seq<Entry>, key: string, session: SessionData, id: string)
    requires IsLru(cap, l)
    ensures IsLru(cap, Put(l, cap, key, session))
    ensures Lookup(Put(l, cap, key, session), key) == Some(session)
    ensures id != key && Lookup(Put(l, cap, key, session), id).Some? ==>
              Lookup(Put(l, cap, key, session), id) == Lookup(l, id)
  {
    PutIsTruncation(l, cap, key, session);
    WithoutRemoves(l, key);
    if id != key {
      var all := [Entry(key, session)] + Without(l, key);
      assert forall e :: e in Put(l, cap, key, session) ==> e in all;
      LookupInSmaller(Put(l, cap, key, session), l, id);
    }
  }

  lemma LookupAfterWithout(cap: Capacity, l: seq<Entry>, key: string, id: string)
    requires IsLru(cap, l)
    ensures IsLru(cap, Without(l, key)) && Lookup(Without(l, key), key) == None
    ensures id != key && Lookup(Without(l, key), id).Some? ==> Lookup(Without(l, key), id) == Lookup(l, id)
  {
    WithoutRemoves(l, key);
    LookupFinds(Without(l, key), key);
    if id != key {
      LookupInSmaller(Without(l, key), l, id);
    }
  }

  /** The local half of a write leaves what it writes, and of other ids nothing new. */
  lemma LookupAfterWrite(cap: Capacity, l: seq<Entry>, op: Op, id: string)
    requires IsLru(cap, l) && !op.Get?
    ensures IsLru(cap, LocalHalf(cap, l, op)) && LocalFits(LocalHalf(cap, l, op), op)
    ensures id != IdOf(op) && Lookup(LocalHalf(cap, l, op), id).Some? ==>
              Lookup(LocalHalf(cap, l, op), id) == Lookup(l, id)
  {
    match op
    case Set(session) => LookupAfterPut(cap, l, session.sessionId, session, id);
    case Delete(other) => LookupAfterWithout(cap, l, other, id);
  }

  lemma OtherSharedKeys(l2: map<string, SessionData>, op: Op, id: string, session: SessionData)
    requires !op.Get?
    ensures id != IdOf(op) ==> (IsShared(SharedHalf(l2, op), id, session) <==> IsShared(l2, id, session))
    ensures IsShared(SharedHalf(l2, op), IdOf(op), session) <==> op.Set? && SameSession(session, op.session)
  {
    L2KeyInjective(id, IdOf(op));
  }

  // ---- one step ----

  lemma HitKeepsCoherent(cap: Capacity, s: Shared, id: string, now: int)
    requires IsLru(cap, s.local) && Coherent(s)
    ensures Coherent(Advance(cap, s, Hit(id, now)))
  {
    var hit, after := Lookup(s.local, id), Advance(cap, s, Hit(id, now));
    forall other | !Busy(after, other) ensures Matches(after.local, s.l2, other) {
      assert !Busy(s, other);
      if hit.Some? {
        LookupAfterPut(cap, s.local, id, hit.value.Touch(now), other);
      }
    }
  }

  lemma FillCoherentIff(cap: Capacity, s: Shared, call: nat, now: int)
    requires IsLru(cap, s.local) && Coherent(s) && call in s.fetched
    ensures Coherent(Advance(cap, s, Fill(call, now))) <==> Guard(s, Fill(call, now))
  {
    var p, after := s.fetched[call], Advance(cap, s, Fill(call, now));
    assert forall id :: Busy(after, id) <==> Busy(s, id);
    LookupAfterPut(cap, s.local, p.id, p.session.Touch(now), p.id);
    assert Matches(after.local, s.l2, p.id) <==> IsShared(s.l2, p.id, p.session);
    forall id | !Busy(s, id) && id != p.id ensures Matches(after.local, s.l2, id) {
      LookupAfterPut(cap, s.local, p.id, p.session.Touch(now), id);
    }
  }

  lemma BusyAfterBegin(cap: Capacity, s: Shared, call: nat, op: Op, id: string)
    requires call !in s.writing && !op.Get?
    ensures Busy(Advance(cap, s, Begin(call, op)), id) <==> id == IdOf(op) || Busy(s, id)
  {
    var after := Advance(cap, s, Begin(call, op));
    assert after.writing[call] == op;
    assert forall other :: other in s.writing ==> other in after.writing && after.writing[other] == s.writing[other];
  }

  lemma BeginKeepsCoherent(cap: Capacity, s: Shared, call: nat, op: Op)
    requires IsLru(cap, s.local) && Coherent(s)
    ensures Coherent(Advance(cap, s, Begin(call, op)))
  {
    var after := Advance(cap, s, Begin(call, op));
    if call !in s.writing && !op.Get? {
      forall id | !Busy(after, id) ensures Matches(after.local, s.l2, id) {
        BusyAfterBegin(cap, s, call, op, id);
        LookupAfterWrite(cap, s.local, op, id);
      }
    }
  }

  lemma BusyAfterFinish(cap: Capacity, s: Shared, call: nat, id: string)
    requires call in s.writing
    ensures Busy(Advance(cap, s, Finish(call)), id) <==> OthersBusy(s, call, id)
    ensures id != IdOf(s.writing[call]) ==> (OthersBusy(s, call, id) <==> Busy(s, id))
  {
    var after := Advance(cap, s, Finish(call));
    if other :| other in s.writing && other != call && IdOf(s.writing[other]) == id {
      assert other in after.writing;
    }
  }

  lemma FinishCoherentIff(cap: Capacity, s: Shared, call: nat)
    requires Coherent(s) && call in s.writing && !s.writing[call].Get?
    ensures Coherent(Advance(cap, s, Finish(call))) <==> Guard(s, Finish(call))
  {
    var op, after := s.writing[call], Advance(cap, s, Finish(call));
    var id := IdOf(op);
    BusyAfterFinish(cap, s, call, id);
    assert Matches(s.local, after.l2, id) <==> LocalFits(s.local, op) by {
      if Lookup(s.local, id).Some? {
        OtherSharedKeys(s.l2, op, id, Lookup(s.local, id).value);
      }
    }
    forall other | !Busy(after, other) && other != id ensures Matches(s.local, after.l2, other) {
      BusyAfterFinish(cap, s, call, other);
      if Lookup(s.local, other).Some? {
        OtherSharedKeys(s.l2, op, other, Lookup(s.local, other).value);
      }
    }
  }

  /** A coherent state stays coherent exactly if the step finds what it must. */
  lemma CoherentIffGuard(cap: Capacity, s: Shared, e: Event)
    requires IsLru(cap, s.local) && WritesOnly(s) && Coherent(s)
    ensures Coherent(Advance(cap, s, e)) <==> Guard(s, e)
  {
    match e
    case Hit(id, now) => HitKeepsCoherent(cap, s, id, now);
    case Fetch(_, _) =>
      assert forall id :: Busy(Advance(cap, s, e), id) <==> Busy(s, id);
    case Fill(call, now) =>
      if call in s.fetched {
        FillCoherentIff(cap, s, call, now);
      }
    case Begin(call, op) => BeginKeepsCoherent(cap, s, call, op);
    case Finish(call) =>
      if call in s.writing {
        FinishCoherentIff(cap, s, call);
      }
  }

  lemma AdvanceKeepsLru(cap: Capacity, s: Shared, e: Event)
    requires IsLru(cap, s.local)
    ensures IsLru(cap, Advance(cap, s, e).local)
  {
    match e
    case Hit(id, now) =>
      if Lookup(s.local, id).Some? {
        LookupAfterPut(cap, s.local, id, Lookup(s.local, id).value.Touch(now), id);
      }
    case Fetch(_, _) =>
    case Fill(call, now) =>
      if call in s.fetched {
        LookupAfterPut(cap, s.local, s.fetched[call].id, s.fetched[call].session.Touch(now), "");
      }
    case Begin(_, op) =>
      if !op.Get? {
        LookupAfterWrite(cap, s.local, op, "");
      }
    case Finish(_) =>
  }

  lemma {:induction false} ReachedIsLru(cap: Capacity, events: seq<Event>)
    requires cap.Bounded? ==> cap.n > 0
    ensures IsLru(cap, Reached(cap, events).local)
  {
    if events != [] {
      ReachedIsLru(cap, events[..|events| - 1]);
      AdvanceKeepsLru(cap, Reached(cap, events[..|events| - 1]), events[|events| - 1]);
    }
  }
}
