/** The two-level session cache: a bounded LRU list (L1) in front of an optional shared store (L2). */
module SessionCache {
  import opened Prelude

  datatype SessionData = SessionData(sessionId: string, tenantId: string, metadata: string,
                                     createdAt: int, lastAccessedAt: int) {
    function Touch(now: int): SessionData {
      this.(lastAccessedAt := now)
    }
  }

  /** Equal in every field but the time of last access. */
  predicate SameSession(a: SessionData, b: SessionData) {
    a.Touch(b.lastAccessedAt) == b
  }

  datatype Entry = Entry(key: string, session: SessionData)

  /** How many entries L1 may hold. The program always has a bound; `Unbounded` is the ideal
      that the bounded cache is compared with. */
  datatype Capacity = Bounded(n: nat) | Unbounded {
    predicate Holds(size: nat) {
      Bounded? ==> size <= n
    }

    predicate AtMost(other: Capacity) {
      other.Bounded? ==> Bounded? && n <= other.n
    }
  }

  /** The constructors' rule: a policy of 0 items means 1000. */
  function CapacityFor(maxItems: nat): (c: Capacity)
    ensures c.Bounded? && c.n == if maxItems > 0 then maxItems else 1000
    ensures c.n > 0
  {
    Bounded(if maxItems == 0 then 1000 else maxItems)
  }

  // ---- the LRU list: most recently used entry first ----

  function Lookup(l: seq<Entry>, key: string): Option<SessionData> {
    if l == [] then None else if l[0].key == key then Some(l[0].session) else Lookup(l[1..], key)
  }

  /** `pop` */
  function Without(l: seq<Entry>, key: string): seq<Entry> {
    if l == [] then [] else if l[0].key == key then l[1..] else [l[0]] + Without(l[1..], key)
  }

  /** `put`: a present key moves to the front with its new value; a new key first evicts
      the least recently used entry if the list is full. */
  function Put(l: seq<Entry>, cap: Capacity, key: string, session: SessionData): seq<Entry> {
    if Lookup(l, key).Some? then [Entry(key, session)] + Without(l, key)
    else if cap.Bounded? && |l| >= cap.n && l != [] then [Entry(key, session)] + l[..|l| - 1]
    else [Entry(key, session)] + l
  }

  // ---- the cache as a state machine ----

  /** `l2` is `None` when the cache was built without a shared store. */
  datatype State = State(local: seq<Entry>, l2: Option<map<string, SessionData>>)

  /** `now` is the clock's value when a lookup touches the session. */
  datatype Op = Set(session: SessionData) | Get(id: string, now: int) | Delete(id: string)

  function L2Key(id: string): string {
    "session:" + id
  }

  function SetStep(cap: Capacity, s: State, session: SessionData): State {
    State(Put(s.local, cap, session.sessionId, session),
          if s.l2.Some? then Some(s.l2.value[L2Key(session.sessionId) := session]) else None)
  }

  /** What a lookup answers: the local entry if there is one, else the shared one, touched. */
  function GetAnswer(s: State, id: string, now: int): Option<SessionData> {
    var hit := Lookup(s.local, id);
    if hit.Some? then Some(hit.value.Touch(now))
    else if s.l2.Some? && L2Key(id) in s.l2.value then Some(s.l2.value[L2Key(id)].Touch(now))
    else None
  }

  /** A lookup that answers leaves the touched session at the front of L1 and L2 as it was. */
  function GetStep(cap: Capacity, s: State, id: string, now: int): State {
    var answer := GetAnswer(s, id, now);
    if answer.Some? then s.(local := Put(s.local, cap, id, answer.value)) else s
  }

  function DeleteStep(s: State, id: string): State {
    State(Without(s.local, id), if s.l2.Some? then Some(s.l2.value - {L2Key(id)}) else None)
  }

  function Step(cap: Capacity, s: State, op: Op): State {
    match op
    case Set(session) => SetStep(cap, s, session)
    case Get(id, now) => GetStep(cap, s, id, now)
    case Delete(id) => DeleteStep(s, id)
  }

  /** A new cache, with or without a shared store. */
  function Init(twoLayer: bool): State {
    State([], if twoLayer then Some(map[]) else None)
  }

  function Run(cap: Capacity, twoLayer: bool, ops: seq<Op>): State {
    if ops == [] then Init(twoLayer)
    else Step(cap, Run(cap, twoLayer, ops[..|ops| - 1]), ops[|ops| - 1])
  }

  /** Whether the operation writes the session with this id. */
  predicate Writes(op: Op, id: string) {
    (op.Set? && op.session.sessionId == id) || (op.Delete? && op.id == id)
  }

  /** The session last set under `id` and not deleted since: what the history alone says. */
  function LastSet(ops: seq<Op>, id: string): Option<SessionData> {
    if ops == [] then
      None
    else
      var op := ops[|ops| - 1];
      if op.Set? && op.session.sessionId == id then Some(op.session)
      else if op.Delete? && op.id == id then None
      else LastSet(ops[..|ops| - 1], id)
  }

  // ---- facts about the list ----

  ghost predicate DistinctKeys(l: seq<Entry>) {
    forall i, j :: 0 <= i < j < |l| ==> l[i].key != l[j].key
  }

  ghost predicate HasKey(l: seq<Entry>, key: string) {
    exists i :: 0 <= i < |l| && l[i].key == key
  }

  lemma {:induction false} LookupFinds(l: seq<Entry>, key: string)
    ensures Lookup(l, key).Some? <==> HasKey(l, key)
    ensures Lookup(l, key).Some? ==> Entry(key, Lookup(l, key).value) in l
  {
    if l != [] {
      LookupFinds(l[1..], key);
      if HasKey(l, key) && l[0].key != key {
        var i :| 0 <= i < |l| && l[i].key == key;
        assert l[1..][i - 1].key == key;
      }
    }
  }

  lemma HasKeyTail(l: seq<Entry>, key: string)
    requires l != []
    ensures HasKey(l, key) <==> l[0].key == key || HasKey(l[1..], key)
  {
    if HasKey(l, key) && l[0].key != key {
      var i :| 0 <= i < |l| && l[i].key == key;
      assert l[1..][i - 1].key == key;
    }
  }

  /** Removing a key leaves the other entries. */
  lemma {:induction false} WithoutKeepsOthers(l: seq<Entry>, key: string)
    requires DistinctKeys(l)
    ensures |Without(l, key)| == if HasKey(l, key) then |l| - 1 else |l|
    ensures forall e :: e in Without(l, key) <==> e in l && e.key != key
  {
    if l != [] {
      HasKeyTail(l, key);
      WithoutKeepsOthers(l[1..], key);
      assert l == [l[0]] + l[1..];
      if l[0].key == key {
        forall e | e in l[1..] ensures e.key != key {
        }
        assert !HasKey(l[1..], key);
      }
    }
  }

  lemma {:induction false} WithoutStaysDistinct(l: seq<Entry>, key: string)
    requires DistinctKeys(l)
    ensures DistinctKeys(Without(l, key))
    ensures !HasKey(l, key) ==> Without(l, key) == l
  {
    if l != [] {
      HasKeyTail(l, key);
      WithoutStaysDistinct(l[1..], key);
      if l[0].key != key {
        var rest := Without(l[1..], key);
        WithoutKeepsOthers(l[1..], key);
        forall j | 0 <= j < |rest| ensures rest[j].key != l[0].key {
          assert rest[j] in l[1..];
        }
      }
    }
  }

  lemma WithoutRemoves(l: seq<Entry>, key: string)
    requires DistinctKeys(l)
    ensures DistinctKeys(Without(l, key))
    ensures |Without(l, key)| == if HasKey(l, key) then |l| - 1 else |l|
    ensures !HasKey(l, key) ==> Without(l, key) == l
    ensures forall e :: e in Without(l, key) <==> e in l && e.key != key
  {
    WithoutKeepsOthers(l, key);
    WithoutStaysDistinct(l, key);
  }

  lemma InFrontIsDistinct(l: seq<Entry>, key: string, session: SessionData)
    requires DistinctKeys(l)
    ensures DistinctKeys([Entry(key, session)] + Without(l, key))
  {
    WithoutRemoves(l, key);
    var rest := Without(l, key);
    var all := [Entry(key, session)] + rest;
    forall i, j | 0 <= i < j < |all| ensures all[i].key != all[j].key {
      assert all[j] == rest[j - 1] && rest[j - 1] in rest;
      assert i > 0 ==> all[i] == rest[i - 1];
    }
  }

  /** Putting a key puts its entry in front of the others; only the oldest can be missing. */
  lemma PutIsTruncation(l: seq<Entry>, cap: Capacity, key: string, session: SessionData)
    requires DistinctKeys(l) && cap.Holds(|l|) && (cap.Bounded? ==> cap.n > 0)
    ensures var all := [Entry(key, session)] + Without(l, key);
            Put(l, cap, key, session) == if cap.Holds(|all|) then all else all[..cap.n]
    ensures cap.Holds(|Put(l, cap, key, session)|)
    ensures DistinctKeys(Put(l, cap, key, session))
  {
    LookupFinds(l, key);
    WithoutRemoves(l, key);
    InFrontIsDistinct(l, key, session);
    var all := [Entry(key, session)] + Without(l, key);
    if !HasKey(l, key) && cap.Bounded? && |l| >= cap.n {
      assert all == [Entry(key, session)] + l && all[..cap.n] == [Entry(key, session)] + l[..|l| - 1];
    }
  }

  lemma {:induction false} WithoutKeepsPrefix(short: seq<Entry>, long: seq<Entry>, key: string)
    requires short <= long && DistinctKeys(long)
    ensures Without(short, key) <= Without(long, key)
    ensures |Without(short, key)| <= |Without(long, key)|
  {
    if short != [] && short[0].key != key {
      WithoutKeepsPrefix(short[1..], long[1..], key);
    } else if short == [] {
      assert Without(short, key) == [];
    }
  }

  lemma PutKeepsPrefix(short: seq<Entry>, c1: Capacity, long: seq<Entry>, c2: Capacity,
                       key: string, session: SessionData)
    requires short <= long && DistinctKeys(long) && DistinctKeys(short)
    requires c1.Holds(|short|) && c2.Holds(|long|) && c1.AtMost(c2)
    requires (c1.Bounded? ==> c1.n > 0) && (c2.Bounded? ==> c2.n > 0)
    ensures Put(short, c1, key, session) <= Put(long, c2, key, session)
  {
    PutIsTruncation(short, c1, key, session);
    PutIsTruncation(long, c2, key, session);
    WithoutKeepsPrefix(short, long, key);
  }

  // ---- invariants of every run ----

  /** The entry is its key's session as it was last set, apart from the access time. */
  ghost predicate EntryAgrees(e: Entry, ops: seq<Op>) {
    LastSet(ops, e.key).Some? && SameSession(e.session, LastSet(ops, e.key).value) && e.session.sessionId == e.key
  }

  /** L1 holds distinct keys within its capacity, and only agreeing entries. */
  ghost predicate LocalAgrees(cap: Capacity, s: State, ops: seq<Op>) {
    && DistinctKeys(s.local) && cap.Holds(|s.local|)
    && forall e | e in s.local :: EntryAgrees(e, ops)
  }

  /** L2, if there is one, holds exactly the live sessions. */
  ghost predicate SharedAgrees(s: State, ops: seq<Op>) {
    s.l2.Some? ==>
      forall id :: LastSet(ops, id) == if L2Key(id) in s.l2.value then Some(s.l2.value[L2Key(id)]) else None
  }

  ghost predicate Agrees(cap: Capacity, s: State, ops: seq<Op>) {
    LocalAgrees(cap, s, ops) && SharedAgrees(s, ops)
  }

  lemma {:induction false} LastSetKeepsId(ops: seq<Op>, id: string)
    ensures LastSet(ops, id).Some? ==> LastSet(ops, id).value.sessionId == id
  {
    if ops != [] {
      LastSetKeepsId(ops[..|ops| - 1], id);
    }
  }

  lemma L2KeyInjective(a: string, b: string)
    ensures L2Key(a) == L2Key(b) ==> a == b
  {
    var n := |"session:"|;
    assert L2Key(a)[n..] == a && L2Key(b)[n..] == b;
  }

  lemma LastSetAppend(ops: seq<Op>, op: Op, id: string)
    ensures LastSet(ops + [op], id)
         == if op.Set? && op.session.sessionId == id then Some(op.session)
            else if op.Delete? && op.id == id then None
            else LastSet(ops, id)
  {
    assert (ops + [op])[..|ops|] == ops;
  }

  lemma StepSharedAgrees(cap: Capacity, s: State, ops: seq<Op>, op: Op)
    requires SharedAgrees(s, ops)
    ensures SharedAgrees(Step(cap, s, op), ops + [op])
  {
    var after := Step(cap, s, op);
    if s.l2.Some? {
      forall id
        ensures LastSet(ops + [op], id)
             == if L2Key(id) in after.l2.value then Some(after.l2.value[L2Key(id)]) else None
      {
        LastSetAppend(ops, op, id);
        match op
        case Set(session) => L2KeyInjective(id, session.sessionId);
        case Get(_, _) =>
        case Delete(other) => L2KeyInjective(id, other);
      }
    }
  }

  /** Putting an agreeing entry keeps the list's agreement if no other key's history has changed. */
  lemma PutAgrees(cap: Capacity, l: seq<Entry>, ops: seq<Op>, next: seq<Op>, e: Entry)
    requires DistinctKeys(l) && cap.Holds(|l|) && (cap.Bounded? ==> cap.n > 0)
    requires forall x | x in l :: EntryAgrees(x, ops)
    requires EntryAgrees(e, next) && forall id :: id != e.key ==> LastSet(next, id) == LastSet(ops, id)
    ensures forall x | x in Put(l, cap, e.key, e.session) :: EntryAgrees(x, next)
  {
    PutIsTruncation(l, cap, e.key, e.session);
    WithoutRemoves(l, e.key);
    var all := [e] + Without(l, e.key);
    assert forall x :: x in all ==> EntryAgrees(x, next);
    assert forall x :: x in Put(l, cap, e.key, e.session) ==> x in all;
  }

  lemma SetLocalAgrees(cap: Capacity, s: State, ops: seq<Op>, session: SessionData)
    requires LocalAgrees(cap, s, ops) && (cap.Bounded? ==> cap.n > 0)
    ensures LocalAgrees(cap, Step(cap, s, Set(session)), ops + [Set(session)])
  {
    var next := ops + [Set(session)];
    forall id ensures LastSet(next, id) == if session.sessionId == id then Some(session) else LastSet(ops, id) {
      LastSetAppend(ops, Set(session), id);
    }
    PutIsTruncation(s.local, cap, session.sessionId, session);
    PutAgrees(cap, s.local, ops, next, Entry(session.sessionId, session));
  }

  lemma GetLocalAgrees(cap: Capacity, s: State, ops: seq<Op>, id: string, now: int)
    requires Agrees(cap, s, ops) && (cap.Bounded? ==> cap.n > 0)
    ensures LocalAgrees(cap, Step(cap, s, Get(id, now)), ops + [Get(id, now)])
  {
    var next := ops + [Get(id, now)];
    forall other ensures LastSet(next, other) == LastSet(ops, other) {
      LastSetAppend(ops, Get(id, now), other);
    }
    var answer := GetAnswer(s, id, now);
    if answer.Some? {
      LastSetKeepsId(ops, id);
      LookupFinds(s.local, id);
      PutIsTruncation(s.local, cap, id, answer.value);
      PutAgrees(cap, s.local, ops, next, Entry(id, answer.value));
    }
  }

  lemma DeleteLocalAgrees(cap: Capacity, s: State, ops: seq<Op>, id: string)
    requires LocalAgrees(cap, s, ops)
    ensures LocalAgrees(cap, Step(cap, s, Delete(id)), ops + [Delete(id)])
  {
    WithoutRemoves(s.local, id);
    forall e | e in Without(s.local, id) ensures EntryAgrees(e, ops + [Delete(id)]) {
      LastSetAppend(ops, Delete(id), e.key);
    }
  }

  lemma StepLocalAgrees(cap: Capacity, s: State, ops: seq<Op>, op: Op)
    requires Agrees(cap, s, ops) && (cap.Bounded? ==> cap.n > 0)
    ensures LocalAgrees(cap, Step(cap, s, op), ops + [op])
  {
    match op
    case Set(session) => SetLocalAgrees(cap, s, ops, session);
    case Get(id, now) => GetLocalAgrees(cap, s, ops, id, now);
    case Delete(id) => DeleteLocalAgrees(cap, s, ops, id);
  }

  /** Over every run L1 and L2 agree with the history. */
  lemma {:induction false} RunAgrees(cap: Capacity, twoLayer: bool, ops: seq<Op>)
    requires cap.Bounded? ==> cap.n > 0
    ensures Agrees(cap, Run(cap, twoLayer, ops), ops)
    ensures Run(cap, twoLayer, ops).l2.Some? == twoLayer
  {
    if ops != [] {
      var front := ops[..|ops| - 1];
      RunAgrees(cap, twoLayer, front);
      StepSharedAgrees(cap, Run(cap, twoLayer, front), front, ops[|ops| - 1]);
      StepLocalAgrees(cap, Run(cap, twoLayer, front), front, ops[|ops| - 1]);
      assert ops == front + [ops[|ops| - 1]];
    }
  }

  /** What a lookup should answer. */
  ghost function HistoryAnswer(ops: seq<Op>, id: string, now: int): Option<SessionData> {
    if LastSet(ops, id).Some? then Some(LastSet(ops, id).value.(lastAccessedAt := now)) else None
  }

  lemma AgreementAnswers(cap: Capacity, s: State, ops: seq<Op>, id: string, now: int)
    requires Agrees(cap, s, ops) && s.l2.Some?
    ensures GetAnswer(s, id, now) == HistoryAnswer(ops, id, now)
  {
    LookupFinds(s.local, id);
  }

  /** L1 is invisible to readers: with a shared store, a lookup answers the session last set and not
      deleted since, touched, and nothing otherwise, whatever was evicted in between. */
  lemma LookupsSeeOnlyTheHistory(cap: Capacity, ops: seq<Op>, id: string, now: int)
    requires cap.Bounded? ==> cap.n > 0
    ensures GetAnswer(Run(cap, true, ops), id, now) == HistoryAnswer(ops, id, now)
  {
    RunAgrees(cap, true, ops);
    AgreementAnswers(cap, Run(cap, true, ops), ops, id, now);
  }

  /** Without a shared store a lookup never answers anything stale or deleted. */
  lemma LocalAnswersAreTrue(cap: Capacity, ops: seq<Op>, id: string, now: int)
    requires cap.Bounded? ==> cap.n > 0
    ensures var answer := GetAnswer(Run(cap, false, ops), id, now);
            answer.Some? ==> LastSet(ops, id).Some? && answer == HistoryAnswer(ops, id, now)
  {
    RunAgrees(cap, false, ops);
    LookupFinds(Run(cap, false, ops).local, id);
  }

  // ---- without a shared store ----

  /** The ids that were set and not deleted since. */
  ghost function LiveIds(ops: seq<Op>): set<string> {
    if ops == [] then
      {}
    else
      var before, op := LiveIds(ops[..|ops| - 1]), ops[|ops| - 1];
      match op
      case Set(session) => before + {session.sessionId}
      case Get(_, _) => before
      case Delete(id) => before - {id}
  }

  lemma {:induction false} LiveIdsAreLive(ops: seq<Op>, id: string)
    ensures id in LiveIds(ops) <==> LastSet(ops, id).Some?
  {
    if ops != [] {
      LiveIdsAreLive(ops[..|ops| - 1], id);
    }
  }

  ghost function Keys(l: seq<Entry>): set<string> {
    set e | e in l :: e.key
  }

  lemma {:induction false} KeysCount(l: seq<Entry>)
    requires DistinctKeys(l)
    ensures |Keys(l)| == |l|
    ensures forall key :: key in Keys(l) <==> HasKey(l, key)
  {
    forall key ensures key in Keys(l) <==> HasKey(l, key) {
      if HasKey(l, key) {
        var i :| 0 <= i < |l| && l[i].key == key;
        assert l[i] in l;
      }
    }
    if l != [] {
      KeysCount(l[1..]);
      assert l == [l[0]] + l[1..];
      assert Keys(l) == {l[0].key} + Keys(l[1..]);
      forall e | e in l[1..] ensures e.key != l[0].key {
      }
    }
  }

  /** Every lookup answers what the history says. */
  ghost predicate Faithful(cap: Capacity, ops: seq<Op>) {
    forall id, now :: GetAnswer(Run(cap, false, ops), id, now) == HistoryAnswer(ops, id, now)
  }

  lemma FaithfulIffAllLivePresent(cap: Capacity, ops: seq<Op>)
    requires cap.Bounded? ==> cap.n > 0
    ensures Faithful(cap, ops) <==> Keys(Run(cap, false, ops).local) == LiveIds(ops)
  {
    var state := Run(cap, false, ops);
    RunAgrees(cap, false, ops);
    KeysCount(state.local);
    forall id ensures Lookup(state.local, id).Some? <==> id in Keys(state.local) {
      LookupFinds(state.local, id);
    }
    forall id ensures id in LiveIds(ops) <==> LastSet(ops, id).Some? {
      LiveIdsAreLive(ops, id);
    }
    if Faithful(cap, ops) {
      forall id ensures id in Keys(state.local) <==> id in LiveIds(ops) {
        assert GetAnswer(state, id, 0).Some? <==> LastSet(ops, id).Some?;
      }
    }
    if Keys(state.local) == LiveIds(ops) {
      forall id, now ensures GetAnswer(state, id, now) == HistoryAnswer(ops, id, now) {
        LocalAnswersAreTrue(cap, ops, id, now);
        assert id in Keys(state.local) <==> id in LiveIds(ops);
      }
    }
  }

  lemma KeysOfPut(l: seq<Entry>, key: string, session: SessionData)
    requires DistinctKeys(l)
    ensures Keys([Entry(key, session)] + Without(l, key)) == Keys(l) + {key}
  {
    WithoutRemoves(l, key);
    var all := [Entry(key, session)] + Without(l, key);
    forall k ensures k in Keys(all) <==> k in Keys(l) + {key} {
      assert all[0].key == key;
      if k in Keys(l) && k != key {
        var e :| e in l && e.key == k;
        assert e in all;
      }
    }
  }

  lemma SetKeepsAll(cap: Capacity, l: seq<Entry>, session: SessionData)
    requires DistinctKeys(l) && cap.Holds(|l|) && (cap.Bounded? ==> cap.n > 0)
    requires cap.Holds(|Keys(l) + {session.sessionId}|)
    ensures Keys(Put(l, cap, session.sessionId, session)) == Keys(l) + {session.sessionId}
  {
    KeysCount(l);
    WithoutRemoves(l, session.sessionId);
    PutIsTruncation(l, cap, session.sessionId, session);
    KeysOfPut(l, session.sessionId, session);
  }

  lemma HitKeepsAll(cap: Capacity, l: seq<Entry>, id: string, session: SessionData)
    requires DistinctKeys(l) && Lookup(l, id).Some?
    ensures Keys(Put(l, cap, id, session)) == Keys(l)
  {
    KeysCount(l);
    LookupFinds(l, id);
    KeysOfPut(l, id, session);
  }

  lemma PopRemovesOne(l: seq<Entry>, id: string)
    requires DistinctKeys(l)
    ensures Keys(Without(l, id)) == Keys(l) - {id}
  {
    WithoutRemoves(l, id);
    forall k ensures k in Keys(Without(l, id)) <==> k in Keys(l) - {id} {
      if k in Keys(l) && k != id {
        var e :| e in l && e.key == k;
        assert e in Without(l, id);
      }
    }
  }

  lemma LocalStepKeepsAll(cap: Capacity, ops: seq<Op>, op: Op)
    requires (cap.Bounded? ==> cap.n > 0) && cap.Holds(|LiveIds(ops + [op])|)
    requires Keys(Run(cap, false, ops).local) == LiveIds(ops)
    ensures Keys(Run(cap, false, ops + [op]).local) == LiveIds(ops + [op])
  {
    var s := Run(cap, false, ops);
    assert (ops + [op])[..|ops|] == ops;
    RunAgrees(cap, false, ops);
    match op
    case Set(session) => SetKeepsAll(cap, s.local, session);
    case Get(id, now) =>
      if Lookup(s.local, id).Some? {
        HitKeepsAll(cap, s.local, id, Lookup(s.local, id).value.Touch(now));
      }
    case Delete(id) => PopRemovesOne(s.local, id);
  }

  /** After the first `i` operations no more sessions are live than L1 can hold. */
  ghost predicate FitsAt(cap: Capacity, ops: seq<Op>, i: nat)
    requires i <= |ops|
  {
    cap.Holds(|LiveIds(ops[..i])|)
  }

  lemma {:induction false} AllLivePresent(cap: Capacity, ops: seq<Op>, i: nat)
    requires (cap.Bounded? ==> cap.n > 0) && i <= |ops|
    requires forall j :: 0 <= j <= |ops| ==> FitsAt(cap, ops, j)
    ensures Keys(Run(cap, false, ops[..i]).local) == LiveIds(ops[..i])
  {
    if i > 0 {
      AllLivePresent(cap, ops, i - 1);
      assert FitsAt(cap, ops, i);
      assert ops[..i] == ops[..i - 1] + [ops[i - 1]];
      LocalStepKeepsAll(cap, ops[..i - 1], ops[i - 1]);
    }
  }

  /** Without a shared store, lookups tell the history throughout a run exactly if at no
      point more sessions are live than L1 can hold. */
  lemma {:induction false} LocalOnlyFaithfulIff(cap: Capacity, ops: seq<Op>)
    requires cap.Bounded? ==> cap.n > 0
    ensures (forall i :: 0 <= i <= |ops| ==> Faithful(cap, ops[..i]))
       <==> (forall i :: 0 <= i <= |ops| ==> FitsAt(cap, ops, i))
  {
    if forall i :: 0 <= i <= |ops| ==> Faithful(cap, ops[..i]) {
      forall i | 0 <= i <= |ops| ensures FitsAt(cap, ops, i) {
        FaithfulIffAllLivePresent(cap, ops[..i]);
        RunAgrees(cap, false, ops[..i]);
        KeysCount(Run(cap, false, ops[..i]).local);
      }
    } else if forall i :: 0 <= i <= |ops| ==> FitsAt(cap, ops, i) {
      forall i | 0 <= i <= |ops| ensures Faithful(cap, ops[..i]) {
        AllLivePresent(cap, ops, i);
        FaithfulIffAllLivePresent(cap, ops[..i]);
      }
    }
  }

  lemma RunOfTwo(cap: Capacity, twoLayer: bool, first: Op, second: Op)
    ensures Run(cap, twoLayer, [first, second]) == Step(cap, Step(cap, Init(twoLayer), first), second)
    ensures forall id :: LastSet([first, second], id) == if Writes(second, id) then LastSet([second], id)
                                                         else LastSet([first], id)
  {
    assert [first, second][..1] == [first] && [first][..0] == [] && [second][..0] == [];
    assert Run(cap, twoLayer, [first]) == Step(cap, Init(twoLayer), first);
  }

  lemma PutReplacesOnly(e: Entry, key: string, session: SessionData)
    requires e.key != key
    ensures Put([e], Bounded(1), key, session) == [Entry(key, session)]
  {
    assert [e][1..] == [] && Lookup([e], key) == None;
    assert [e][..|[e]| - 1] == [] && [Entry(key, session)] + [] == [Entry(key, session)];
  }

  /** Room for one session and two live ones: the first is forgotten. */
  lemma LocalOnlyCanForget(a: SessionData, b: SessionData)
    requires a.sessionId != b.sessionId
    ensures !Faithful(Bounded(1), [Set(a), Set(b)])
  {
    RunOfTwo(Bounded(1), false, Set(a), Set(b));
    PutReplacesOnly(Entry(a.sessionId, a), b.sessionId, b);
    assert Put([], Bounded(1), a.sessionId, a) == [Entry(a.sessionId, a)];
    assert HistoryAnswer([Set(a), Set(b)], a.sessionId, 0).Some?;
  }

  // ---- stack inclusion ----

  /** What relates a smaller cache to a larger one over the same shared store. */
  ghost predicate Included(small: State, large: State) {
    small.l2 == large.l2 && small.local <= large.local
  }

  lemma StepKeepsInclusion(c1: Capacity, small: State, c2: Capacity, large: State, ops: seq<Op>, op: Op)
    requires c1.AtMost(c2) && (c1.Bounded? ==> c1.n > 0) && (c2.Bounded? ==> c2.n > 0)
    requires Included(small, large) && small.l2.Some?
    requires Agrees(c1, small, ops) && Agrees(c2, large, ops)
    ensures Included(Step(c1, small, op), Step(c2, large, op))
  {
    match op
    case Set(session) =>
      PutKeepsPrefix(small.local, c1, large.local, c2, session.sessionId, session);
    case Get(id, now) =>
      LookupFinds(small.local, id);
      LookupFinds(large.local, id);
      assert GetAnswer(small, id, now) == GetAnswer(large, id, now);
      var answer := GetAnswer(small, id, now);
      if answer.Some? {
        PutKeepsPrefix(small.local, c1, large.local, c2, id, answer.value);
      }
    case Delete(id) =>
      WithoutKeepsPrefix(small.local, large.local, id);
  }

  /** Stack inclusion: over any run, the L1 of a two-layer cache is a prefix, entry by entry, of the L1
      that any larger capacity, or none, would hold; and it never exceeds its own capacity. */
  lemma {:induction false} StackInclusion(c1: Capacity, c2: Capacity, ops: seq<Op>)
    requires c1.AtMost(c2) && (c1.Bounded? ==> c1.n > 0) && (c2.Bounded? ==> c2.n > 0)
    ensures Run(c1, true, ops).local <= Run(c2, true, ops).local
    ensures c1.Holds(|Run(c1, true, ops).local|)
    ensures Included(Run(c1, true, ops), Run(c2, true, ops))
  {
    RunAgrees(c1, true, ops);
    if ops != [] {
      var front := ops[..|ops| - 1];
      StackInclusion(c1, c2, front);
      RunAgrees(c1, true, front);
      RunAgrees(c2, true, front);
      StepKeepsInclusion(c1, Run(c1, true, front), c2, Run(c2, true, front), front, ops[|ops| - 1]);
    }
  }

  lemma PutKeepsOthers(l: seq<Entry>, key: string, session: SessionData, id: string)
    requires DistinctKeys(l)
    ensures HasKey(Put(l, Unbounded, key, session), id) <== id == key || HasKey(l, id)
  {
    PutIsTruncation(l, Unbounded, key, session);
    WithoutRemoves(l, key);
    var result := Put(l, Unbounded, key, session);
    assert result[0].key == key;
    if id != key && HasKey(l, id) {
      var i :| 0 <= i < |l| && l[i].key == id;
      assert l[i] in Without(l, key);
      assert l[i] in result;
    }
  }

  /** The unbounded list is the list of all live sessions. */
  lemma {:induction false} UnboundedHoldsAllLive(ops: seq<Op>, id: string)
    ensures HasKey(Run(Unbounded, true, ops).local, id) <==> LastSet(ops, id).Some?
  {
    RunAgrees(Unbounded, true, ops);
    if HasKey(Run(Unbounded, true, ops).local, id) {
      var i :| 0 <= i < |Run(Unbounded, true, ops).local| && Run(Unbounded, true, ops).local[i].key == id;
      assert Run(Unbounded, true, ops).local[i] in Run(Unbounded, true, ops).local;
    }
    if ops != [] && LastSet(ops, id).Some? {
      var front, op := ops[..|ops| - 1], ops[|ops| - 1];
      var before := Run(Unbounded, true, front);
      UnboundedHoldsAllLive(front, id);
      RunAgrees(Unbounded, true, front);
      if op.Set? {
        PutKeepsOthers(before.local, op.session.sessionId, op.session, id);
      } else if op.Get? {
        var answer := GetAnswer(before, op.id, op.now);
        if answer.Some? {
          PutKeepsOthers(before.local, op.id, answer.value, id);
        }
      } else {
        WithoutRemoves(before.local, op.id);
        var i :| 0 <= i < |before.local| && before.local[i].key == id;
        assert before.local[i] in Without(before.local, op.id);
      }
    }
  }

  class SessionCache {
    const capacity: Capacity
    var local: seq<Entry>
    var redis: Option<map<string, SessionData>>

    function Abs(): State
      reads this
    {
      State(local, redis)
    }

    constructor NewLocal(maxItems: nat)
      ensures capacity == CapacityFor(maxItems) && Abs() == Init(false)
    {
      capacity, local, redis := CapacityFor(maxItems), [], None;
    }

    constructor NewWithRedis(maxItems: nat)
      ensures capacity == CapacityFor(maxItems) && Abs() == Init(true)
    {
      capacity, local, redis := CapacityFor(maxItems), [], Some(map[]);
    }

    method Set(session: SessionData)
      modifies this
      ensures Abs() == Step(capacity, old(Abs()), Op.Set(session))
      ensures redis == if old(redis).Some? then Some(old(redis).value["session:" + session.sessionId := session])
                       else None
    {
      local := Put(local, capacity, session.sessionId, session);
      if redis.Some? {
        redis := Some(redis.value[L2Key(session.sessionId) := session]);
      }
    }

    method Get(id: string, now: int) returns (session: Option<SessionData>)
      modifies this
      ensures session == GetAnswer(old(Abs()), id, now)
      ensures Abs() == Step(capacity, old(Abs()), Op.Get(id, now))
    {
      var hit := Lookup(local, id);
      if hit.Some? {
        var touched := hit.value.Touch(now);
        local := [Entry(id, touched)] + Without(local, id);
        return Some(touched);
      }
      if redis.Some? && L2Key(id) in redis.value {
        var loaded := redis.value[L2Key(id)].Touch(now);
        local := Put(local, capacity, id, loaded);
        return Some(loaded);
      }
      session := None;
    }

    method Delete(id: string) returns (done: bool)
      modifies this
      ensures done && Abs() == Step(capacity, old(Abs()), Op.Delete(id))
      ensures redis == if old(redis).Some? then Some(old(redis).value - {"session:" + id}) else None
    {
      local := Without(local, id);
      if redis.Some? {
        redis := Some(redis.value - {L2Key(id)});
      }
      done := true;
    }

    /** Answers whether a lookup would answer; it does not count as a use. */
    method Exists(id: string) returns (found: bool)
      ensures forall now :: found <==> GetAnswer(Abs(), id, now).Some?
    {
      if Lookup(local, id).Some? {
        return true;
      }
      if redis.Some? {
        return L2Key(id) in redis.value;
      }
      found := false;
    }
  }
}
