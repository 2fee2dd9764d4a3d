/** Interleavings of calls on the session cache: when L1 stays invisible, and what overlapping calls can
    leave behind. */
module CacheOverlaps {
  import opened Prelude
  import opened SessionCache
  import opened CacheProtocol

  // ---- whole interleavings ----

  /** Whenever it is looked up, this id's answer is what the history of finished writes says. */
  ghost predicate TellsHistory(cap: Capacity, events: seq<Event>, id: string) {
    forall now ::
      GetAnswer(Cache(Reached(cap, events)), id, now) == HistoryAnswer(Finished(cap, events), id, now)
  }

  /** Lookups of every id without an unfinished write tell the history of finished writes. */
  ghost predicate Truthful(cap: Capacity, events: seq<Event>) {
    forall id :: !Busy(Reached(cap, events), id) ==> TellsHistory(cap, events, id)
  }

  lemma TellsHistoryIff(cap: Capacity, events: seq<Event>, id: string)
    ensures TellsHistory(cap, events, id) <==> Matches(Reached(cap, events).local, Reached(cap, events).l2, id)
  {
    var s, ops := Reached(cap, events), Finished(cap, events);
    SharedTellsFinished(cap, events);
    assert LastSet(ops, id) == if L2Key(id) in s.l2 then Some(s.l2[L2Key(id)]) else None;
    if TellsHistory(cap, events, id) {
      assert GetAnswer(Cache(s), id, 0) == HistoryAnswer(ops, id, 0);
    }
  }

  lemma TruthfulIffCoherent(cap: Capacity, events: seq<Event>)
    ensures Truthful(cap, events) <==> Coherent(Reached(cap, events))
  {
    forall id {
      TellsHistoryIff(cap, events, id);
    }
  }

  /** Event `i` finds what it must. */
  ghost predicate GuardAt(cap: Capacity, events: seq<Event>, i: nat)
    requires i < |events|
  {
    Guard(Reached(cap, events[..i]), events[i])
  }

  lemma TruthfulStepIff(cap: Capacity, events: seq<Event>, i: nat)
    requires i < |events| && (cap.Bounded? ==> cap.n > 0) && Truthful(cap, events[..i])
    ensures Truthful(cap, events[..i + 1]) <==> GuardAt(cap, events, i)
  {
    var s := Reached(cap, events[..i]);
    assert events[..i + 1][..i] == events[..i];
    ReachedIsLru(cap, events[..i]);
    SharedTellsFinished(cap, events[..i]);
    TruthfulIffCoherent(cap, events[..i]);
    TruthfulIffCoherent(cap, events[..i + 1]);
    CoherentIffGuard(cap, s, events[i]);
  }

  lemma {:induction false} GuardedIsTruthful(cap: Capacity, events: seq<Event>, i: nat)
    requires i <= |events| && (cap.Bounded? ==> cap.n > 0)
    requires forall j :: 0 <= j < i ==> GuardAt(cap, events, j)
    ensures Truthful(cap, events[..i])
  {
    if i == 0 {
      TruthfulIffCoherent(cap, events[..0]);
    } else {
      GuardedIsTruthful(cap, events, i - 1);
      TruthfulStepIff(cap, events, i - 1);
    }
  }

  /** L1 is invisible throughout an interleaving exactly if every session is put into L1 while the shared store
      holds it, and every write that leaves its id without unfinished ones finds L1 empty there or holding
      what it writes; ids with unfinished writes are exempt. */
  lemma InvisibleIff(cap: Capacity, events: seq<Event>)
    requires cap.Bounded? ==> cap.n > 0
    ensures (forall i :: 0 <= i <= |events| ==> Truthful(cap, events[..i]))
       <==> (forall i :: 0 <= i < |events| ==> GuardAt(cap, events, i))
  {
    if forall i :: 0 <= i <= |events| ==> Truthful(cap, events[..i]) {
      forall i | 0 <= i < |events| ensures GuardAt(cap, events, i) {
        assert Truthful(cap, events[..i]) && Truthful(cap, events[..i + 1]);
        TruthfulStepIff(cap, events, i);
      }
    } else if forall i :: 0 <= i < |events| ==> GuardAt(cap, events, i) {
      forall i | 0 <= i <= |events| ensures Truthful(cap, events[..i]) {
        GuardedIsTruthful(cap, events, i);
      }
    }
  }

  // ---- writes that exclude other calls ----

  /** No write of an id begins while another is unfinished or a fetched session of it waits to be put into L1,
      and no lookup fetches an id with an unfinished write. */
  ghost predicate Excludes(s: Shared, e: Event) {
    match e
    case Begin(_, op) => !Busy(s, IdOf(op)) && forall call | call in s.fetched :: s.fetched[call].id != IdOf(op)
    case Fetch(_, id) => !Busy(s, id)
    case _ => true
  }

  /** Sessions on their way into L1 are the shared ones, and L1 fits every unfinished write. */
  ghost predicate Orderly(s: Shared) {
    && (forall call | call in s.fetched ::
          !Busy(s, s.fetched[call].id) && IsShared(s.l2, s.fetched[call].id, s.fetched[call].session))
    && forall call | call in s.writing :: LocalFits(s.local, s.writing[call])
  }

  lemma OrderlyMeansGuarded(s: Shared, e: Event)
    requires Orderly(s)
    ensures Guard(s, e)
  {
  }

  lemma HitStaysOrderly(cap: Capacity, s: Shared, id: string, now: int)
    requires IsLru(cap, s.local) && Orderly(s) && Lookup(s.local, id).Some?
    ensures Orderly(Advance(cap, s, Hit(id, now)))
  {
    var after := Advance(cap, s, Hit(id, now));
    forall call | call in s.writing ensures LocalFits(after.local, s.writing[call]) {
      assert LocalFits(s.local, s.writing[call]);
      LookupAfterPut(cap, s.local, id, Lookup(s.local, id).value.Touch(now), IdOf(s.writing[call]));
    }
    assert forall other :: Busy(after, other) <==> Busy(s, other);
  }

  lemma FillStaysOrderly(cap: Capacity, s: Shared, call: nat, now: int)
    requires IsLru(cap, s.local) && Orderly(s) && call in s.fetched
    ensures Orderly(Advance(cap, s, Fill(call, now)))
  {
    var p, after := s.fetched[call], Advance(cap, s, Fill(call, now));
    forall c | c in s.writing ensures LocalFits(after.local, s.writing[c]) {
      assert LocalFits(s.local, s.writing[c]) && IdOf(s.writing[c]) != p.id;
      LookupAfterPut(cap, s.local, p.id, p.session.Touch(now), IdOf(s.writing[c]));
    }
    assert forall id :: Busy(after, id) <==> Busy(s, id);
  }

  lemma BeginStaysOrderly(cap: Capacity, s: Shared, call: nat, op: Op)
    requires IsLru(cap, s.local) && Orderly(s) && Excludes(s, Begin(call, op)) && call !in s.writing && !op.Get?
    ensures Orderly(Advance(cap, s, Begin(call, op)))
  {
    var after := Advance(cap, s, Begin(call, op));
    forall c | c in after.writing ensures LocalFits(after.local, after.writing[c]) {
      LookupAfterWrite(cap, s.local, op, IdOf(after.writing[c]));
      if c != call {
        assert LocalFits(s.local, s.writing[c]) && IdOf(s.writing[c]) != IdOf(op);
      }
    }
    forall c | c in s.fetched ensures !Busy(after, s.fetched[c].id) {
      BusyAfterBegin(cap, s, call, op, s.fetched[c].id);
    }
  }

  lemma FinishStaysOrderly(cap: Capacity, s: Shared, call: nat)
    requires Orderly(s) && WritesOnly(s) && call in s.writing
    ensures Orderly(Advance(cap, s, Finish(call)))
  {
    var after := Advance(cap, s, Finish(call));
    forall c | c in s.fetched
      ensures !Busy(after, s.fetched[c].id) && IsShared(after.l2, s.fetched[c].id, s.fetched[c].session)
    {
      var p := s.fetched[c];
      assert !Busy(s, p.id) && IdOf(s.writing[call]) != p.id;
      OtherSharedKeys(s.l2, s.writing[call], p.id, p.session);
      BusyAfterFinish(cap, s, call, p.id);
    }
    forall c | c in after.writing ensures LocalFits(after.local, after.writing[c]) {
      assert LocalFits(s.local, s.writing[c]);
    }
  }

  lemma StaysOrderly(cap: Capacity, s: Shared, e: Event)
    requires IsLru(cap, s.local) && WritesOnly(s) && Orderly(s) && Excludes(s, e)
    ensures Orderly(Advance(cap, s, e))
  {
    match e
    case Hit(id, now) =>
      if Lookup(s.local, id).Some? {
        HitStaysOrderly(cap, s, id, now);
      }
    case Fetch(_, _) =>
      assert forall id :: Busy(Advance(cap, s, e), id) <==> Busy(s, id);
    case Fill(call, now) =>
      if call in s.fetched {
        FillStaysOrderly(cap, s, call, now);
      }
    case Begin(call, op) =>
      if call !in s.writing && !op.Get? {
        BeginStaysOrderly(cap, s, call, op);
      }
    case Finish(call) =>
      if call in s.writing {
        FinishStaysOrderly(cap, s, call);
      }
  }

  lemma {:induction false} ExclusionIsOrderly(cap: Capacity, events: seq<Event>, i: nat)
    requires i <= |events| && (cap.Bounded? ==> cap.n > 0)
    requires forall j :: 0 <= j < |events| ==> Excludes(Reached(cap, events[..j]), events[j])
    ensures Orderly(Reached(cap, events[..i]))
  {
    if i > 0 {
      ExclusionIsOrderly(cap, events, i - 1);
      assert events[..i][..i - 1] == events[..i - 1];
      ReachedIsLru(cap, events[..i - 1]);
      SharedTellsFinished(cap, events[..i - 1]);
      StaysOrderly(cap, Reached(cap, events[..i - 1]), events[i - 1]);
    }
  }

  /** If every write of an id excludes other writes of it and lookups that fetch it, L1 is invisible throughout. */
  lemma ExclusiveWritesAreInvisible(cap: Capacity, events: seq<Event>, i: nat)
    requires i <= |events| && (cap.Bounded? ==> cap.n > 0)
    requires forall j :: 0 <= j < |events| ==> Excludes(Reached(cap, events[..j]), events[j])
    ensures Truthful(cap, events[..i])
  {
    forall j | 0 <= j < i ensures GuardAt(cap, events, j) {
      ExclusionIsOrderly(cap, events, j);
      OrderlyMeansGuarded(Reached(cap, events[..j]), events[j]);
    }
    GuardedIsTruthful(cap, events, i);
  }

  // ---- what overlapping calls can leave behind ----

  ghost function Machine(cap: Capacity): (Shared, Event) -> Shared {
    (s: Shared, e: Event) => Advance(cap, s, e)
  }

  lemma {:induction false} ReachedIsFold(cap: Capacity, events: seq<Event>)
    ensures Reached(cap, events) == Fold(Machine(cap), NEW, events)
  {
    if events != [] {
      var front, e := events[..|events| - 1], events[|events| - 1];
      ReachedIsFold(cap, front);
      FoldConcat(Machine(cap), NEW, front, [e]);
      FoldOne(Machine(cap), Reached(cap, front), e);
      assert events == front + [e];
    }
  }

  lemma ReachedOn(cap: Capacity, before: seq<Event>, events: seq<Event>)
    ensures Reached(cap, before + events) == Fold(Machine(cap), Reached(cap, before), events)
  {
    ReachedIsFold(cap, before);
    ReachedIsFold(cap, before + events);
    FoldConcat(Machine(cap), NEW, before, events);
  }

  lemma OneEntry(cap: Capacity, key: string, session: SessionData, next: SessionData)
    requires cap.Bounded? ==> cap.n > 0
    ensures Put([], cap, key, session) == [Entry(key, session)]
    ensures Put([Entry(key, session)], cap, key, next) == [Entry(key, next)]
    ensures Without([Entry(key, session)], key) == []
  {
    assert [Entry(key, session)][1..] == [];
    assert [Entry(key, next)] + [] == [Entry(key, next)];
  }

  /** What such a state answers, and what the history says. */
  lemma AnswerAndHistory(cap: Capacity, events: seq<Event>, id: string, session: SessionData, now: int)
    requires Reached(cap, events).local == [Entry(id, session)]
    ensures GetAnswer(Cache(Reached(cap, events)), id, now) == Some(session.Touch(now))
    ensures HistoryAnswer(Finished(cap, events), id, now)
         == var l2 := Reached(cap, events).l2; if L2Key(id) in l2 then Some(l2[L2Key(id)].Touch(now)) else None
  {
    var s, ops := Reached(cap, events), Finished(cap, events);
    SharedTellsFinished(cap, events);
    assert LastSet(ops, id) == if L2Key(id) in s.l2 then Some(s.l2[L2Key(id)]) else None;
  }

  /** A session has been set, a delete has taken it out of L1, and a lookup has then missed it there
      and fetched it from the shared store. */
  function HalfDeleted(x: SessionData): seq<Event> {
    [Begin(0, Set(x)), Finish(0), Begin(1, Delete(x.sessionId)), Fetch(2, x.sessionId)]
  }

  function HalfDeletedState(x: SessionData): Shared {
    Shared([], map[L2Key(x.sessionId) := x], map[2 := Pending(x.sessionId, x)], map[1 := Delete(x.sessionId)])
  }

  lemma DeletingHalfway(cap: Capacity, x: SessionData)
    requires cap.Bounded? ==> cap.n > 0
    ensures Reached(cap, HalfDeleted(x)) == HalfDeletedState(x)
  {
    var id, l2 := x.sessionId, map[L2Key(x.sessionId) := x];
    var s1, s2 := Shared([Entry(id, x)], map[], map[], map[0 := Set(x)]), Shared([Entry(id, x)], l2, map[], map[]);
    var s3 := Shared([], l2, map[], map[1 := Delete(id)]);
    OneEntry(cap, id, x, x);
    assert s1.writing - {0} == map[];
    assert Advance(cap, NEW, Begin(0, Set(x))) == s1 && Advance(cap, s1, Finish(0)) == s2;
    assert Advance(cap, s2, Begin(1, Delete(id))) == s3 && Advance(cap, s3, Fetch(2, id)) == HalfDeletedState(x);
    ReachedIsFold(cap, HalfDeleted(x));
    FoldFour(Machine(cap), NEW, Begin(0, Set(x)), Finish(0), Begin(1, Delete(id)), Fetch(2, id));
  }

  /** The lookup fills L1 after the delete has reached the shared store, or before. */
  function Endings(at: int, late: bool): seq<Event> {
    if late then [Finish(1), Fill(2, at)] else [Fill(2, at), Finish(1)]
  }

  /** Whether the lookup puts the session into L1 before or after the delete reaches the shared store: nothing is
      in flight then, the session is deleted, and lookups go on finding it. */
  lemma DeletedSessionReturns(cap: Capacity, x: SessionData, at: int, late: bool, now: int)
    requires cap.Bounded? ==> cap.n > 0
    ensures var events := HalfDeleted(x) + Endings(at, late);
            var s := Reached(cap, events);
            && s.writing == map[] && s.fetched == map[]
            && GetAnswer(Cache(s), x.sessionId, now) == Some(x.Touch(now))
            && HistoryAnswer(Finished(cap, events), x.sessionId, now) == None
  {
    var id, half := x.sessionId, HalfDeletedState(x);
    var last := Shared([Entry(id, x.Touch(at))], map[], map[], map[]);
    DeletingHalfway(cap, x);
    ReachedOn(cap, HalfDeleted(x), Endings(at, late));
    OneEntry(cap, id, x.Touch(at), x);
    assert half.l2 - {L2Key(id)} == map[] && half.writing - {1} == map[] && half.fetched - {2} == map[];
    if late {
      assert Advance(cap, half, Finish(1)) == half.(l2 := map[], writing := map[]);
      assert Advance(cap, half.(l2 := map[], writing := map[]), Fill(2, at)) == last;
      FoldTwo(Machine(cap), half, Finish(1), Fill(2, at));
    } else {
      assert Advance(cap, half, Fill(2, at)) == half.(local := last.local, fetched := map[]);
      assert Advance(cap, half.(local := last.local, fetched := map[]), Finish(1)) == last;
      FoldTwo(Machine(cap), half, Fill(2, at), Finish(1));
    }
    AnswerAndHistory(cap, HalfDeleted(x) + Endings(at, late),
                     id, x.Touch(at), now);
  }

  /** Two sets of one id that overlap can leave L1 with one session and the shared store with the other. */
  lemma SetsCanCross(cap: Capacity, a: SessionData, b: SessionData, now: int)
    requires a.sessionId == b.sessionId && (cap.Bounded? ==> cap.n > 0)
    ensures var events := [Begin(0, Set(a)), Begin(1, Set(b)), Finish(1), Finish(0)];
            var s := Reached(cap, events);
            && s.writing == map[] && s.fetched == map[]
            && GetAnswer(Cache(s), a.sessionId, now) == Some(b.Touch(now))
            && HistoryAnswer(Finished(cap, events), a.sessionId, now) == Some(a.Touch(now))
  {
    var id, k := a.sessionId, L2Key(a.sessionId);
    var events := [Begin(0, Set(a)), Begin(1, Set(b)), Finish(1), Finish(0)];
    var s1 := Shared([Entry(id, a)], map[], map[], map[0 := Set(a)]);
    var s2 := Shared([Entry(id, b)], map[], map[], map[0 := Set(a), 1 := Set(b)]);
    var s3 := s2.(l2 := map[k := b], writing := map[0 := Set(a)]);
    var s4 := Shared([Entry(id, b)], map[k := a], map[], map[]);
    OneEntry(cap, id, a, b);
    assert s2.writing - {1} == s3.writing && s3.writing - {0} == map[];
    assert Advance(cap, NEW, Begin(0, Set(a))) == s1 && Advance(cap, s1, Begin(1, Set(b))) == s2;
    assert Advance(cap, s2, Finish(1)) == s3 && Advance(cap, s3, Finish(0)) == s4;
    ReachedIsFold(cap, events);
    FoldFour(Machine(cap), NEW, Begin(0, Set(a)), Begin(1, Set(b)), Finish(1), Finish(0));
    AnswerAndHistory(cap, events, id, b, now);
  }
}
