/** Concurrent `record` calls: each takes its number in one critical section and publishes its entry
    in another, and anything may happen in between. */
module RecordProtocol {
  import opened Prelude
  import Sorting
  import Versioning

  /** One key, as the interleaved calls see it: the counter, the deque's version numbers (oldest first),
      the numbers trimmed off it so far, and the numbers taken by calls that have not published yet. */
  datatype KeyState = KeyState(current: nat, retained: seq<nat>, evicted: seq<nat>, pending: multiset<nat>)

  const UNTOUCHED := KeyState(0, [], [], multiset{})

  type State = map<string, KeyState>

  function Of(s: State, key: string): KeyState {
    if key in s then s[key] else UNTOUCHED
  }

  /** The atomic steps: the first and the second half of a `record`, and a whole `clear_history`
      (which holds both locks at once). */
  datatype Event = Allocate(key: string) | Publish(key: string, version: nat) | Clear(key: string)

  /** A publication can happen only for a number that some call has taken and not yet published. */
  predicate Enabled(ks: KeyState, e: Event) {
    e.Publish? ==> e.version in ks.pending
  }

  function KeyStep(max: nat, ks: KeyState, e: Event): KeyState {
    if !Enabled(ks, e) then ks else
    match e
    case Allocate(_) => ks.(current := ks.current + 1, pending := ks.pending + multiset{ks.current + 1})
    case Publish(_, v) =>
      var all := ks.retained + [v];
      var over := if |all| > max then |all| - max else 0;
      ks.(retained := all[over..], evicted := ks.evicted + all[..over], pending := ks.pending - multiset{v})
    case Clear(_) => ks.(current := 0, retained := [], evicted := [])
  }

  function Step(max: nat, s: State, e: Event): State {
    s[e.key := KeyStep(max, Of(s, e.key), e)]
  }

  /** The state after an interleaving; events that are not enabled have no effect. */
  function Run(max: nat, events: seq<Event>): State {
    if events == [] then map[] else Step(max, Run(max, events[..|events| - 1]), events[|events| - 1])
  }

  lemma RunAppend(max: nat, events: seq<Event>, e: Event, key: string)
    ensures Of(Run(max, events + [e]), key)
         == if e.key == key then KeyStep(max, Of(Run(max, events), key), e) else Of(Run(max, events), key)
  {
    assert (events + [e])[..|events|] == events;
  }

  /** How often a number is taken, retained or trimmed. */
  ghost function Copies(ks: KeyState, v: nat): nat {
    ks.pending[v] + multiset(ks.retained)[v] + multiset(ks.evicted)[v]
  }

  /** Taken, retained and trimmed numbers are disjoint and without repetition,
      and together they are exactly 1 to `current`. */
  ghost predicate Conserved(ks: KeyState) {
    forall v: nat :: Copies(ks, v) == if 1 <= v <= ks.current then 1 else 0
  }

  lemma PublishingMovesACopy(max: nat, ks: KeyState, key: string, v: nat, w: nat)
    requires v in ks.pending
    ensures Copies(KeyStep(max, ks, Publish(key, v)), w) == Copies(ks, w)
  {
    var all := ks.retained + [v];
    var over := if |all| > max then |all| - max else 0;
    assert all == all[..over] + all[over..];
    assert multiset(all)[w] == multiset(all[..over])[w] + multiset(all[over..])[w];
  }

  lemma AllocatingAddsANumber(max: nat, ks: KeyState, key: string, v: nat)
    ensures Copies(KeyStep(max, ks, Allocate(key)), v) == Copies(ks, v) + if v == ks.current + 1 then 1 else 0
  {
  }

  lemma ClearingKeepsOnlyTaken(max: nat, ks: KeyState, key: string, v: nat)
    ensures Copies(KeyStep(max, ks, Clear(key)), v) == ks.pending[v]
  {
  }

  lemma StepConserves(max: nat, ks: KeyState, e: Event)
    requires Conserved(ks) && Enabled(ks, e)
    ensures Conserved(KeyStep(max, ks, e)) <==> (e.Clear? ==> ks.pending == multiset{})
  {
    var next := KeyStep(max, ks, e);
    match e
    case Allocate(key) =>
      forall v: nat ensures Copies(next, v) == if 1 <= v <= next.current then 1 else 0 {
        AllocatingAddsANumber(max, ks, key, v);
        assert Copies(ks, v) == if 1 <= v <= ks.current then 1 else 0;
      }
    case Publish(key, v) =>
      forall w: nat ensures Copies(next, w) == if 1 <= w <= next.current then 1 else 0 {
        PublishingMovesACopy(max, ks, key, v, w);
        assert Copies(ks, w) == if 1 <= w <= ks.current then 1 else 0;
      }
    case Clear(key) =>
      forall v: nat ensures Copies(next, v) == ks.pending[v] {
        ClearingKeepsOnlyTaken(max, ks, key, v);
      }
      if ks.pending != multiset{} {
        var v :| v in ks.pending;
        assert Copies(next, v) > 0 && next.current == 0;
      }
  }

  /** Whenever the key is cleared, no `record` on it is between its two steps. */
  ghost predicate QuietClears(max: nat, events: seq<Event>, key: string) {
    forall i :: 0 <= i < |events| && events[i] == Clear(key) ==>
      Of(Run(max, events[..i]), key).pending == multiset{}
  }

  lemma QuietClearsAppend(max: nat, events: seq<Event>, e: Event, key: string)
    ensures QuietClears(max, events + [e], key)
       <==> QuietClears(max, events, key) && (e == Clear(key) ==> Of(Run(max, events), key).pending == multiset{})
  {
    var longer := events + [e];
    assert longer[..|events|] == events && longer[|events|] == e;
    assert forall i :: 0 <= i < |events| ==> longer[..i] == events[..i] && longer[i] == events[i];
    if QuietClears(max, longer, key) {
      forall i | 0 <= i < |events| && events[i] == Clear(key)
        ensures Of(Run(max, events[..i]), key).pending == multiset{}
      {
        assert longer[i] == Clear(key);
      }
    }
  }

  /** The numbers are conserved after the interleaving and after each of its beginnings. */
  ghost predicate ConservedThroughout(max: nat, events: seq<Event>, key: string) {
    && Conserved(Of(Run(max, events), key))
    && (events != [] ==> ConservedThroughout(max, events[..|events| - 1], key))
  }

  /** Version numbers are conserved throughout an interleaving exactly if the key is only cleared
      while no `record` on it is in flight; in particular in every interleaving without clears. */
  lemma {:induction false} NumbersConservedIff(max: nat, events: seq<Event>, key: string)
    ensures ConservedThroughout(max, events, key) <==> QuietClears(max, events, key)
  {
    if events != [] {
      var front, e := events[..|events| - 1], events[|events| - 1];
      assert events == front + [e];
      NumbersConservedIff(max, front, key);
      QuietClearsAppend(max, front, e, key);
      RunAppend(max, front, e, key);
      var ks := Of(Run(max, front), key);
      if Conserved(ks) && e.key == key && Enabled(ks, e) {
        StepConserves(max, ks, e);
      }
    }
  }

  lemma SingleCopiesAreDistinct(s: seq<nat>)
    requires forall v: nat :: multiset(s)[v] <= 1
    ensures Distinct(s)
  {
    forall i, j | 0 <= i < j < |s| ensures s[i] != s[j] {
      if s[i] == s[j] {
        Sorting.OccursTwice(s, i, j);
      }
    }
  }

  /** In a run without clears of the key, no number is ever handed out or kept twice. */
  lemma NoNumberTwice(max: nat, events: seq<Event>, key: string, v: nat)
    requires forall i :: 0 <= i < |events| ==> events[i] != Clear(key)
    ensures var ks := Of(Run(max, events), key);
            && (1 <= v <= ks.current <==> v in ks.pending || v in ks.retained || v in ks.evicted)
            && ks.pending[v] <= 1
            && !(v in ks.pending && v in ks.retained) && !(v in ks.pending && v in ks.evicted)
            && !(v in ks.retained && v in ks.evicted)
            && Distinct(ks.retained)
  {
    NumbersConservedIff(max, events, key);
    assert events[..|events|] == events;
    var ks := Of(Run(max, events), key);
    assert Conserved(ks);
    assert Copies(ks, v) == if 1 <= v <= ks.current then 1 else 0;
    assert v in ks.retained <==> multiset(ks.retained)[v] > 0;
    assert v in ks.evicted <==> multiset(ks.evicted)[v] > 0;
    forall w: nat ensures multiset(ks.retained)[w] <= 1 {
      assert Copies(ks, w) <= 1;
    }
    SingleCopiesAreDistinct(ks.retained);
  }

  lemma OneInFlight(max: nat, key: string)
    ensures Of(Run(max, [Allocate(key)]), key) == KeyState(1, [], [], multiset{1})
  {
    RunAppend(max, [], Allocate(key), key);
    assert [] + [Allocate(key)] == [Allocate(key)];
    assert multiset{} + multiset{1} == multiset{1};
  }

  lemma ClearedInFlight(max: nat, key: string)
    ensures Of(Run(max, [Allocate(key), Clear(key), Allocate(key)]), key) == KeyState(1, [], [], multiset{1, 1})
  {
    var e1, e2 := [Allocate(key)], [Allocate(key), Clear(key)];
    OneInFlight(max, key);
    RunAppend(max, e1, Clear(key), key);
    assert e1 + [Clear(key)] == e2;
    assert Of(Run(max, e2), key) == KeyState(0, [], [], multiset{1});
    RunAppend(max, e2, Allocate(key), key);
    assert e2 + [Allocate(key)] == [Allocate(key), Clear(key), Allocate(key)];
    assert multiset{1} + multiset{1} == multiset{1, 1};
  }

  lemma FirstOfTwins(max: nat, key: string)
    requires max >= 2
    ensures KeyStep(max, KeyState(1, [], [], multiset{1, 1}), Publish(key, 1)) == KeyState(1, [1], [], multiset{1})
  {
    assert multiset{1, 1} - multiset{1} == multiset{1};
    assert [] + [1] == [1] && [1][0..] == [1];
  }

  lemma SecondOfTwins(max: nat, key: string)
    requires max >= 2
    ensures KeyStep(max, KeyState(1, [1], [], multiset{1}), Publish(key, 1)) == KeyState(1, [1, 1], [], multiset{})
  {
    var all: seq<nat> := [1] + [1];
    assert multiset{1} - multiset{1} == multiset{};
    assert all == [1, 1] && all[0..] == all && all[..0] == [];
  }

  lemma TwinPublished(max: nat, key: string)
    requires max >= 2
    ensures Of(Run(max, [Allocate(key), Clear(key), Allocate(key)] + [Publish(key, 1)]), key)
         == KeyState(1, [1], [], multiset{1})
  {
    ClearedInFlight(max, key);
    RunAppend(max, [Allocate(key), Clear(key), Allocate(key)], Publish(key, 1), key);
    FirstOfTwins(max, key);
  }

  lemma OtherTwinPublished(max: nat, events: seq<Event>, key: string)
    requires max >= 2 && Of(Run(max, events), key) == KeyState(1, [1], [], multiset{1})
    ensures Of(Run(max, events + [Publish(key, 1)]), key) == KeyState(1, [1, 1], [], multiset{})
  {
    RunAppend(max, events, Publish(key, 1), key);
    SecondOfTwins(max, key);
  }

  /** A `record` caught between its steps by a clear: the next call gets the same number again. */
  lemma ClearCanRepeatANumber(max: nat, key: string)
    requires max >= 2
    ensures Of(Run(max, [Allocate(key), Clear(key), Allocate(key), Publish(key, 1), Publish(key, 1)]), key)
         == KeyState(1, [1, 1], [], multiset{})
  {
    var four := [Allocate(key), Clear(key), Allocate(key)] + [Publish(key, 1)];
    TwinPublished(max, key);
    OtherTwinPublished(max, four, key);
    assert [Allocate(key), Clear(key), Allocate(key), Publish(key, 1), Publish(key, 1)] == four + [Publish(key, 1)];
  }

  ghost function Numbers(l: seq<Versioning.ConfigVersion>): seq<nat> {
    seq(|l|, i requires 0 <= i < |l| => l[i].version)
  }

  lemma NumbersOfTrimmed(l: seq<Versioning.ConfigVersion>, max: nat)
    ensures Numbers(Versioning.Trim(l, max)) == Versioning.Trim(Numbers(l), max)
  {
  }

  lemma RecordedNumbers(max: nat, s: Versioning.State, key: string, c: Versioning.Change)
    ensures var after := Versioning.RecordStep(max, s, key, c);
            && Versioning.Current(after, key) == Versioning.Current(s, key) + 1
            && Numbers(Versioning.Deque(after, key))
            == Versioning.Trim(Numbers(Versioning.Deque(s, key)) + [Versioning.Current(s, key) + 1], max)
  {
    var before := Versioning.Deque(s, key);
    var entry := Versioning.Numbered(Versioning.Current(s, key) + 1, key, c);
    assert Numbers(before + [entry]) == Numbers(before) + [entry.version];
    NumbersOfTrimmed(before + [entry], max);
  }

  lemma TakenAndPublished(max: nat, ks: KeyState, key: string)
    ensures var after := KeyStep(max, KeyStep(max, ks, Allocate(key)), Publish(key, ks.current + 1));
            && after.current == ks.current + 1 && after.pending == ks.pending
            && after.retained == Versioning.Trim(ks.retained + [ks.current + 1], max)
  {
    var v := ks.current + 1;
    var taken := KeyStep(max, ks, Allocate(key));
    assert taken == ks.(current := v, pending := ks.pending + multiset{v});
    assert Enabled(taken, Publish(key, v));
    assert taken.pending - multiset{v} == ks.pending;
  }

  /** A call whose two steps are not interrupted does what the sequential `record` does. */
  lemma UninterruptedRecord(max: nat, ks: KeyState, s: Versioning.State, key: string, c: Versioning.Change)
    requires ks.current == Versioning.Current(s, key) && ks.retained == Numbers(Versioning.Deque(s, key))
    ensures var after := KeyStep(max, KeyStep(max, ks, Allocate(key)), Publish(key, ks.current + 1));
            var sequential := Versioning.RecordStep(max, s, key, c);
            && after.current == Versioning.Current(sequential, key)
            && after.retained == Numbers(Versioning.Deque(sequential, key))
            && after.pending == ks.pending
  {
    TakenAndPublished(max, ks, key);
    RecordedNumbers(max, s, key, c);
  }

  // ---- the order of publication ----

  /** The numbers published since the last clear, in order of publication. */
  ghost function Published(max: nat, events: seq<Event>, key: string): seq<nat> {
    if events == [] then
      []
    else
      var front, e := events[..|events| - 1], events[|events| - 1];
      var before := Published(max, front, key);
      if e.key != key || !Enabled(Of(Run(max, front), key), e) || e.Allocate? then before
      else if e.Clear? then []
      else before + [e.version]
  }

  ghost predicate DequeOf(max: nat, ks: KeyState, published: seq<nat>) {
    ks.evicted + ks.retained == published && ks.retained == Versioning.Trim(published, max)
  }

  lemma PublishExtendsDeque(max: nat, ks: KeyState, published: seq<nat>, key: string, v: nat)
    requires DequeOf(max, ks, published) && v in ks.pending
    ensures DequeOf(max, KeyStep(max, ks, Publish(key, v)), published + [v])
  {
    var all := ks.retained + [v];
    var over := if |all| > max then |all| - max else 0;
    assert ks.evicted + all == published + [v];
    assert (ks.evicted + all[..over]) + all[over..] == ks.evicted + all;
    Versioning.TrimAppend(published, max, v);
  }

  lemma PublishedAppend(max: nat, front: seq<Event>, e: Event, key: string)
    ensures Published(max, front + [e], key)
         == if e.key != key || !Enabled(Of(Run(max, front), key), e) || e.Allocate? then Published(max, front, key)
            else if e.Clear? then []
            else Published(max, front, key) + [e.version]
  {
    assert (front + [e])[..|front|] == front;
  }

  /** The deque is the last min(n, max) publications, in publication order, whatever their numbers. */
  lemma {:induction false} DequeIsLastPublications(max: nat, events: seq<Event>, key: string)
    ensures DequeOf(max, Of(Run(max, events), key), Published(max, events, key))
  {
    if events != [] {
      var front, e := events[..|events| - 1], events[|events| - 1];
      assert events == front + [e];
      DequeIsLastPublications(max, front, key);
      RunAppend(max, front, e, key);
      PublishedAppend(max, front, e, key);
      var ks := Of(Run(max, front), key);
      if e.key == key && e.Publish? && Enabled(ks, e) {
        PublishExtendsDeque(max, ks, Published(max, front, key), key, e.version);
      }
    }
  }

  /** Every publication is that of the lowest number still outstanding. */
  ghost predicate InOrder(max: nat, events: seq<Event>, key: string) {
    events != [] ==>
      var front, e := events[..|events| - 1], events[|events| - 1];
      var pending := Of(Run(max, front), key).pending;
      InOrder(max, front, key)
      && (e.key == key && e.Publish? && e.version in pending ==> forall v :: v in pending ==> e.version <= v)
  }

  ghost predicate IsCount(s: seq<nat>) {
    forall i :: 0 <= i < |s| ==> s[i] == i + 1
  }

  lemma {:induction false} CountContains(s: seq<nat>, v: nat)
    requires IsCount(s)
    ensures multiset(s)[v] == if 1 <= v <= |s| then 1 else 0
  {
    if s != [] {
      CountContains(s[..|s| - 1], v);
      assert s == s[..|s| - 1] + [s[|s| - 1]];
    }
  }

  /** With the numbers 1 to n published, the lowest outstanding number is n + 1. */
  lemma LowestOutstanding(ks: KeyState, published: seq<nat>, v: nat)
    requires Conserved(ks) && ks.evicted + ks.retained == published && IsCount(published)
    requires v in ks.pending
    ensures (forall w :: w in ks.pending ==> v <= w) <==> v == |published| + 1
  {
    forall w: nat ensures ks.pending[w] > 0 <==> |published| < w <= ks.current {
      CountContains(published, w);
      CountContains(published, |published|);
      assert multiset(published)[w] == multiset(ks.evicted)[w] + multiset(ks.retained)[w];
      assert Copies(ks, w) == if 1 <= w <= ks.current then 1 else 0;
      assert Copies(ks, |published|) == if 1 <= |published| <= ks.current then 1 else 0;
    }
    var n: nat := |published| + 1;
    assert ks.pending[v] > 0;
    assert ks.pending[n] > 0;
  }

  lemma CountAppend(published: seq<nat>, v: nat)
    ensures IsCount(published + [v]) <==> IsCount(published) && v == |published| + 1
  {
    var longer := published + [v];
    assert longer[|published|] == v;
    if IsCount(longer) {
      forall i | 0 <= i < |published| ensures published[i] == i + 1 {
        assert longer[i] == published[i];
      }
    }
  }

  /** The history comes out in version order exactly if the calls publish in the order
      in which they took their numbers; the protocol itself does not see to that. */
  lemma {:induction false} VersionOrderIff(max: nat, events: seq<Event>, key: string)
    requires forall i :: 0 <= i < |events| ==> events[i] != Clear(key)
    ensures IsCount(Published(max, events, key)) <==> InOrder(max, events, key)
  {
    if events != [] {
      var front, e := events[..|events| - 1], events[|events| - 1];
      assert events == front + [e];
      VersionOrderIff(max, front, key);
      PublishedAppend(max, front, e, key);
      var ks, published := Of(Run(max, front), key), Published(max, front, key);
      if e.key == key && e.Publish? && e.version in ks.pending {
        CountAppend(published, e.version);
        if IsCount(published) {
          NumbersConservedIff(max, front, key);
          assert front[..|front|] == front;
          DequeIsLastPublications(max, front, key);
          LowestOutstanding(ks, published, e.version);
        }
      } else {
        assert e != Clear(key) by { assert events[|events| - 1] == e; }
      }
    }
  }

  lemma TwoInFlight(max: nat, key: string)
    ensures Of(Run(max, [Allocate(key), Allocate(key)]), key) == KeyState(2, [], [], multiset{1, 2})
  {
    OneInFlight(max, key);
    RunAppend(max, [Allocate(key)], Allocate(key), key);
    assert [Allocate(key)] + [Allocate(key)] == [Allocate(key), Allocate(key)];
    assert multiset{1} + multiset{2} == multiset{1, 2};
  }

  lemma SecondFirst(max: nat, key: string)
    requires max >= 1
    ensures KeyStep(max, KeyState(2, [], [], multiset{1, 2}), Publish(key, 2)) == KeyState(2, [2], [], multiset{1})
  {
    assert multiset{1, 2} - multiset{2} == multiset{1};
    assert [] + [2] == [2] && [2][0..] == [2];
  }

  lemma ThenFirst(max: nat, key: string)
    requires max >= 1
    ensures KeyStep(max, KeyState(2, [2], [], multiset{1}), Publish(key, 1))
         == if max == 1 then KeyState(2, [1], [2], multiset{}) else KeyState(2, [2, 1], [], multiset{})
  {
    var all: seq<nat> := [2] + [1];
    assert multiset{1} - multiset{1} == multiset{};
    assert all == [2, 1] && all[1..] == [1] && all[..1] == [2] && all[0..] == all && all[..0] == [];
  }

  lemma SecondPublished(max: nat, key: string)
    requires max >= 1
    ensures Of(Run(max, [Allocate(key), Allocate(key)] + [Publish(key, 2)]), key) == KeyState(2, [2], [], multiset{1})
  {
    TwoInFlight(max, key);
    RunAppend(max, [Allocate(key), Allocate(key)], Publish(key, 2), key);
    SecondFirst(max, key);
  }

  lemma FirstPublishedLast(max: nat, events: seq<Event>, key: string)
    requires max >= 1 && Of(Run(max, events), key) == KeyState(2, [2], [], multiset{1})
    ensures Of(Run(max, events + [Publish(key, 1)]), key)
         == if max == 1 then KeyState(2, [1], [2], multiset{}) else KeyState(2, [2, 1], [], multiset{})
  {
    RunAppend(max, events, Publish(key, 1), key);
    ThenFirst(max, key);
  }

  /** Two overlapping calls can publish the other way round: the last entry is then not the current
      version, and with room for one entry the current version is lost although nothing is outstanding. */
  lemma PublicationCanOvertake(max: nat, key: string)
    requires max >= 1
    ensures Of(Run(max, [Allocate(key), Allocate(key), Publish(key, 2), Publish(key, 1)]), key)
         == if max == 1 then KeyState(2, [1], [2], multiset{}) else KeyState(2, [2, 1], [], multiset{})
  {
    var three := [Allocate(key), Allocate(key)] + [Publish(key, 2)];
    SecondPublished(max, key);
    FirstPublishedLast(max, three, key);
    assert [Allocate(key), Allocate(key), Publish(key, 2), Publish(key, 1)] == three + [Publish(key, 1)];
  }
}
