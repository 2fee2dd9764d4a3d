/** Bounded, versioned configuration history with rollback. */
module Versioning {
  import opened Prelude

  datatype ConfigVersion = ConfigVersion(version: nat, key: string, value: string, timestamp: int,
                                         changedBy: Option<string>, description: Option<string>)

  const MAX_HISTORY_SIZE: nat := 100

  /** The two maps behind the two locks. */
  datatype State = State(history: map<string, seq<ConfigVersion>>, current: map<string, nat>)

  const EMPTY := State(map[], map[])

  function Deque(s: State, key: string): seq<ConfigVersion> {
    if key in s.history then s.history[key] else []
  }

  function Current(s: State, key: string): nat {
    if key in s.current then s.current[key] else 0
  }

  /** The last `max` entries. */
  function Trim<T>(l: seq<T>, max: nat): seq<T> {
    if |l| > max then l[|l| - max..] else l
  }

  /** The newest entry with this number. */
  function FindVersion(l: seq<ConfigVersion>, version: nat): Option<ConfigVersion> {
    if l == [] then None
    else if l[|l| - 1].version == version then Some(l[|l| - 1])
    else FindVersion(l[..|l| - 1], version)
  }

  function Reversed<T>(l: seq<T>): seq<T> {
    if l == [] then [] else [l[|l| - 1]] + Reversed(l[..|l| - 1])
  }

  function Digits(n: nat): string {
    if n < 10 then [('0' as int + n) as char] else Digits(n / 10) + [('0' as int + n % 10) as char]
  }

  // ---- the operations on values ----

  /** What a caller hands to `record`, and the clock's value then. */
  datatype Change = Change(value: string, changedBy: Option<string>, description: Option<string>, now: int)

  function Numbered(version: nat, key: string, c: Change): ConfigVersion {
    ConfigVersion(version, key, c.value, c.now, c.changedBy, c.description)
  }

  /** The entry holds what the caller handed to `record`, and the time of the call. */
  ghost predicate Carries(entry: ConfigVersion, c: Change) {
    && entry.value == c.value && entry.timestamp == c.now
    && entry.changedBy == c.changedBy && entry.description == c.description
  }

  function RecordStep(max: nat, s: State, key: string, c: Change): State {
    var version := Current(s, key) + 1;
    State(s.history[key := Trim(Deque(s, key) + [Numbered(version, key, c)], max)], s.current[key := version])
  }

  function ClearStep(s: State, key: string): State {
    State(s.history - {key}, s.current - {key})
  }

  /** The change that a rollback to this entry records. */
  function RollbackChange(entry: ConfigVersion, now: int): Change {
    Change(entry.value, entry.changedBy, Some("Rollback to version " + Digits(entry.version)), now)
  }

  function RollbackStep(max: nat, s: State, key: string, version: nat, now: int): State {
    var found := FindVersion(Deque(s, key), version);
    if found.Some? then RecordStep(max, s, key, RollbackChange(found.value, now)) else s
  }

  datatype Op =
    | Record(key: string, change: Change)
    | RollbackTo(key: string, version: nat, now: int)
    | RollbackPrevious(key: string, now: int)
    | Clear(key: string)

  function Step(max: nat, s: State, op: Op): State {
    match op
    case Record(key, change) => RecordStep(max, s, key, change)
    case RollbackTo(key, version, now) => RollbackStep(max, s, key, version, now)
    case RollbackPrevious(key, now) =>
      if Current(s, key) <= 1 then s else RollbackStep(max, s, key, Current(s, key) - 1, now)
    case Clear(key) => ClearStep(s, key)
  }

  function Run(max: nat, ops: seq<Op>): State {
    if ops == [] then EMPTY else Step(max, Run(max, ops[..|ops| - 1]), ops[|ops| - 1])
  }

  // ---- the unbounded log of one key, told without deques and counters ----

  /** Entry `v` of the log is still within reach of a rollback. */
  predicate Reachable(max: nat, length: nat, v: nat) {
    1 <= v <= length && length - max < v
  }

  function LogRollback(max: nat, key: string, log: seq<ConfigVersion>, v: nat, now: int): seq<ConfigVersion> {
    if Reachable(max, |log|, v) then log + [Numbered(|log| + 1, key, RollbackChange(log[v - 1], now))] else log
  }

  function LogStep(max: nat, key: string, log: seq<ConfigVersion>, op: Op): seq<ConfigVersion> {
    if op.key != key then log else
    match op
    case Record(_, change) => log + [Numbered(|log| + 1, key, change)]
    case RollbackTo(_, version, now) => LogRollback(max, key, log, version, now)
    case RollbackPrevious(_, now) => if |log| <= 1 then log else LogRollback(max, key, log, |log| - 1, now)
    case Clear(_) => []
  }

  /** Everything recorded under `key` since it was last cleared. */
  function Log(max: nat, ops: seq<Op>, key: string): seq<ConfigVersion> {
    if ops == [] then [] else LogStep(max, key, Log(max, ops[..|ops| - 1], key), ops[|ops| - 1])
  }

  /** The entries are numbered 1, 2, 3, ... and belong to `key`. */
  ghost predicate CountsFromOne(log: seq<ConfigVersion>, key: string) {
    forall i :: 0 <= i < |log| ==> log[i].version == i + 1 && log[i].key == key
  }

  lemma {:induction false} LogCountsFromOne(max: nat, ops: seq<Op>, key: string)
    ensures CountsFromOne(Log(max, ops, key), key)
  {
    if ops != [] {
      LogCountsFromOne(max, ops[..|ops| - 1], key);
      var log := Log(max, ops[..|ops| - 1], key);
      assert CountsFromOne(LogStep(max, key, log, ops[|ops| - 1]), key);
    }
  }

  lemma {:induction false} FindInNumbered(l: seq<ConfigVersion>, first: nat, v: nat)
    requires forall i :: 0 <= i < |l| ==> l[i].version == first + i
    ensures FindVersion(l, v) == if first <= v < first + |l| then Some(l[v - first]) else None
  {
    if l != [] {
      FindInNumbered(l[..|l| - 1], first, v);
    }
  }

  /** The deque holds the trimmed log, the counter its length. */
  ghost predicate Follows(max: nat, s: State, key: string, log: seq<ConfigVersion>) {
    && Deque(s, key) == Trim(log, max) && Current(s, key) == |log|
    && (key in s.history <==> log != []) && (key in s.current <==> log != [])
  }

  /** Looking a version up in the trimmed deque is looking it up in the log, within reach. */
  lemma FindInTrimmed(max: nat, log: seq<ConfigVersion>, key: string, v: nat)
    requires CountsFromOne(log, key)
    ensures FindVersion(Trim(log, max), v) == if Reachable(max, |log|, v) then Some(log[v - 1]) else None
  {
    FindInNumbered(Trim(log, max), if |log| > max then |log| - max + 1 else 1, v);
  }

  lemma TrimAppend<T>(log: seq<T>, max: nat, x: T)
    ensures Trim(Trim(log, max) + [x], max) == Trim(log + [x], max)
  {
  }

  lemma RecordFollows(max: nat, s: State, key: string, log: seq<ConfigVersion>, c: Change)
    requires Follows(max, s, key, log)
    ensures Follows(max, RecordStep(max, s, key, c), key, log + [Numbered(|log| + 1, key, c)])
  {
    TrimAppend(log, max, Numbered(|log| + 1, key, c));
  }

  lemma RollbackFollows(max: nat, s: State, key: string, log: seq<ConfigVersion>, v: nat, now: int)
    requires Follows(max, s, key, log) && CountsFromOne(log, key)
    ensures Follows(max, RollbackStep(max, s, key, v, now), key, LogRollback(max, key, log, v, now))
  {
    FindInTrimmed(max, log, key, v);
    if Reachable(max, |log|, v) {
      RecordFollows(max, s, key, log, RollbackChange(log[v - 1], now));
    }
  }

  lemma OtherKeysStay(max: nat, s: State, op: Op, key: string, log: seq<ConfigVersion>)
    requires Follows(max, s, key, log) && op.key != key
    ensures Follows(max, Step(max, s, op), key, log)
  {
  }

  /** Over every run of records, rollbacks and clears, each key's deque is exactly the last
      min(n, max) entries of its log, and its counter is n. */
  lemma {:induction false} HistoryIsTheTrimmedLog(max: nat, ops: seq<Op>, key: string)
    ensures Follows(max, Run(max, ops), key, Log(max, ops, key))
  {
    if ops != [] {
      var front, op := ops[..|ops| - 1], ops[|ops| - 1];
      var s, log := Run(max, front), Log(max, front, key);
      HistoryIsTheTrimmedLog(max, front, key);
      LogCountsFromOne(max, front, key);
      if op.key != key {
        OtherKeysStay(max, s, op, key, log);
      } else {
        match op
        case Record(_, change) => RecordFollows(max, s, key, log, change);
        case RollbackTo(_, version, now) => RollbackFollows(max, s, key, log, version, now);
        case RollbackPrevious(_, now) =>
          if |log| > 1 {
            RollbackFollows(max, s, key, log, |log| - 1, now);
          }
        case Clear(_) =>
      }
    }
  }

  /** A version can be fetched exactly if it is one of the last `max` up to the current one,
      and it is then the value recorded under that number. */
  lemma VersionsWithinReach(max: nat, ops: seq<Op>, key: string, v: nat)
    ensures Current(Run(max, ops), key) == |Log(max, ops, key)|
    ensures FindVersion(Deque(Run(max, ops), key), v)
         == (var log, current := Log(max, ops, key), Current(Run(max, ops), key);
             if 1 <= v && current - max < v <= current then Some(log[v - 1]) else None)
  {
    HistoryIsTheTrimmedLog(max, ops, key);
    LogCountsFromOne(max, ops, key);
    FindInTrimmed(max, Log(max, ops, key), key, v);
  }

  lemma RollbackCounts(max: nat, s: State, key: string, version: nat, now: int)
    ensures Current(RollbackStep(max, s, key, version, now), key)
         == if FindVersion(Deque(s, key), version).Some? then Current(s, key) + 1 else Current(s, key)
  {
  }

  /** Rolling back to the previous version records something exactly if there is a previous
      version and the bound leaves room for it. */
  lemma RollbackPreviousWorksIff(max: nat, ops: seq<Op>, key: string, now: int)
    ensures Current(Step(max, Run(max, ops), RollbackPrevious(key, now)), key)
         == (var current := Current(Run(max, ops), key);
             if current >= 2 && max >= 2 then current + 1 else current)
  {
    var s, current := Run(max, ops), Current(Run(max, ops), key);
    if current > 1 {
      VersionsWithinReach(max, ops, key, current - 1);
      RollbackCounts(max, s, key, current - 1, now);
    }
  }

  lemma LogAppend(max: nat, ops: seq<Op>, op: Op, key: string)
    ensures Log(max, ops + [op], key) == LogStep(max, key, Log(max, ops, key), op)
  {
    assert (ops + [op])[..|ops|] == ops;
  }

  /** A rollback to the previous version appends that version's value to the log. */
  lemma RollbackPreviousLog(max: nat, ops: seq<Op>, key: string, now: int)
    requires max >= 2 && |Log(max, ops, key)| >= 2
    ensures var log, longer := Log(max, ops, key), Log(max, ops + [RollbackPrevious(key, now)], key);
            |longer| == |log| + 1 && log <= longer && longer[|log|].value == log[|log| - 2].value
  {
    LogAppend(max, ops, RollbackPrevious(key, now), key);
  }

  /** The value under the current number, if it is retained. */
  function LatestValue(s: State, key: string): Option<string> {
    var entry := FindVersion(Deque(s, key), Current(s, key));
    if entry.Some? then Some(entry.value.value) else None
  }

  lemma LatestIsLastOfLog(max: nat, ops: seq<Op>, key: string)
    requires max >= 1 && Log(max, ops, key) != []
    ensures var log := Log(max, ops, key);
            LatestValue(Run(max, ops), key) == Some(log[|log| - 1].value)
  {
    HistoryIsTheTrimmedLog(max, ops, key);
    VersionsWithinReach(max, ops, key, |Log(max, ops, key)|);
  }

  lemma CounterIsLogLength(max: nat, ops: seq<Op>, key: string)
    ensures Current(Run(max, ops), key) == |Log(max, ops, key)|
  {
    HistoryIsTheTrimmedLog(max, ops, key);
  }

  lemma TwoRollbacksLog(max: nat, ops: seq<Op>, key: string, t1: int, t2: int)
    requires max >= 2 && |Log(max, ops, key)| >= 2
    ensures var log := Log(max, ops, key);
            var after := Log(max, (ops + [RollbackPrevious(key, t1)]) + [RollbackPrevious(key, t2)], key);
            |after| == |log| + 2 && after[|log| + 1].value == log[|log| - 1].value
  {
    RollbackPreviousLog(max, ops, key, t1);
    RollbackPreviousLog(max, ops + [RollbackPrevious(key, t1)], key, t2);
  }

  /** Two rollbacks to the previous version in a row give back the value from before them,
      two version numbers later. */
  lemma RollbackTwiceRestores(max: nat, ops: seq<Op>, key: string, t1: int, t2: int)
    requires max >= 2 && Current(Run(max, ops), key) >= 2
    ensures var after := Run(max, (ops + [RollbackPrevious(key, t1)]) + [RollbackPrevious(key, t2)]);
            && Current(after, key) == Current(Run(max, ops), key) + 2
            && LatestValue(after, key).Some?
            && LatestValue(after, key) == LatestValue(Run(max, ops), key)
  {
    var twice := (ops + [RollbackPrevious(key, t1)]) + [RollbackPrevious(key, t2)];
    CounterIsLogLength(max, ops, key);
    CounterIsLogLength(max, twice, key);
    TwoRollbacksLog(max, ops, key, t1, t2);
    LatestIsLastOfLog(max, ops, key);
    LatestIsLastOfLog(max, twice, key);
  }

  /** The operations on one key, in order. */
  function Own(ops: seq<Op>, key: string): seq<Op> {
    if ops == [] then []
    else Own(ops[..|ops| - 1], key) + if ops[|ops| - 1].key == key then [ops[|ops| - 1]] else []
  }

  lemma {:induction false} LogOfOwn(max: nat, ops: seq<Op>, key: string)
    ensures Log(max, Own(ops, key), key) == Log(max, ops, key)
  {
    if ops != [] {
      var front, op := ops[..|ops| - 1], ops[|ops| - 1];
      LogOfOwn(max, front, key);
      if op.key == key {
        LogAppend(max, Own(front, key), op, key);
      } else {
        assert Own(front, key) + [] == Own(front, key);
      }
    }
  }

  /** Keys do not disturb each other: a key's deque and counter after any run are those after its own
      operations alone. */
  lemma KeysAreIndependent(max: nat, ops: seq<Op>, key: string)
    ensures Deque(Run(max, ops), key) == Deque(Run(max, Own(ops, key)), key)
    ensures Current(Run(max, ops), key) == Current(Run(max, Own(ops, key)), key)
  {
    HistoryIsTheTrimmedLog(max, ops, key);
    HistoryIsTheTrimmedLog(max, Own(ops, key), key);
    LogOfOwn(max, ops, key);
  }

  lemma {:induction false} FindReturnsVersion(l: seq<ConfigVersion>, version: nat)
    ensures FindVersion(l, version).Some? ==> FindVersion(l, version).value.version == version
  {
    if l != [] {
      FindReturnsVersion(l[..|l| - 1], version);
    }
  }

  lemma {:induction false} ReversedAt<T>(l: seq<T>, i: nat)
    requires i < |l|
    ensures |Reversed(l)| == |l| && Reversed(l)[i] == l[|l| - 1 - i]
  {
    if i > 0 {
      ReversedAt(l[..|l| - 1], i - 1);
    } else if |l| > 1 {
      ReversedAt(l[..|l| - 1], 0);
    }
  }

  lemma TrimmedListedDownwards(log: seq<ConfigVersion>, max: nat, i: nat)
    requires i < |Trim(log, max)|
    ensures var listed := Reversed(Trim(log, max));
            |listed| == (if |log| < max then |log| else max) && i < |log| && listed[i] == log[|log| - 1 - i]
  {
    ReversedAt(Trim(log, max), i);
  }

  /** `get_history` lists min(n, max) entries, newest first, from the current version
      downwards without a gap. */
  lemma HistoryListsDownwards(max: nat, ops: seq<Op>, key: string, i: nat)
    requires i < |Deque(Run(max, ops), key)|
    ensures var listed, current := Reversed(Deque(Run(max, ops), key)), Current(Run(max, ops), key);
            && |listed| == (if current < max then current else max)
            && i < |listed| && listed[i].version == current - i
  {
    HistoryIsTheTrimmedLog(max, ops, key);
    LogCountsFromOne(max, ops, key);
    TrimmedListedDownwards(Log(max, ops, key), max, i);
  }

  // ---- what is found is what was recorded ----

  lemma {:induction false} LogGrows(max: nat, ops: seq<Op>, rest: seq<Op>, key: string)
    requires forall i :: 0 <= i < |rest| ==> rest[i] != Clear(key)
    ensures Log(max, ops, key) <= Log(max, ops + rest, key)
  {
    if rest == [] {
      assert ops + rest == ops;
    } else {
      var front := rest[..|rest| - 1];
      LogGrows(max, ops, front, key);
      assert ops + rest == (ops + front) + [rest[|rest| - 1]];
      LogAppend(max, ops + front, rest[|rest| - 1], key);
    }
  }

  lemma RecordedInLog(max: nat, ops: seq<Op>, key: string, c: Change, rest: seq<Op>)
    requires forall i :: 0 <= i < |rest| ==> rest[i] != Clear(key)
    ensures var log, n := Log(max, ops + [Record(key, c)] + rest, key), |Log(max, ops, key)|;
            n < |log| && log[n] == Numbered(n + 1, key, c)
  {
    LogAppend(max, ops, Record(key, c), key);
    LogGrows(max, ops + [Record(key, c)], rest, key);
  }

  /** A recorded change is found under the next number, with everything that was handed over, for as long as
      the key is not cleared and at most `max - 1` later changes of it have been recorded. */
  lemma RecordedIsFound(max: nat, ops: seq<Op>, key: string, c: Change, rest: seq<Op>)
    requires forall i :: 0 <= i < |rest| ==> rest[i] != Clear(key)
    ensures var s := Run(max, ops + [Record(key, c)] + rest);
            var version := Current(Run(max, ops), key) + 1;
            var found := FindVersion(Deque(s, key), version);
            && version <= Current(s, key)
            && (found.Some? <==> Current(s, key) - max < version)
            && (found.Some? ==> found.value.version == version && found.value.key == key && Carries(found.value, c))
  {
    var all := ops + [Record(key, c)] + rest;
    CounterIsLogLength(max, ops, key);
    RecordedInLog(max, ops, key, c, rest);
    VersionsWithinReach(max, all, key, |Log(max, ops, key)| + 1);
  }

  /** A clear forgets the key's history and starts its numbers anew. */
  lemma ClearForgets(max: nat, ops: seq<Op>, key: string)
    ensures var s := Run(max, ops + [Clear(key)]); Deque(s, key) == [] && Current(s, key) == 0
  {
    LogAppend(max, ops, Clear(key), key);
    HistoryIsTheTrimmedLog(max, ops + [Clear(key)], key);
  }

  /** A rollback to a retained version records under the next number that version's value and author, at the
      time of the call, with a description that names the version. */
  lemma RollbackRecords(max: nat, ops: seq<Op>, key: string, version: nat, now: int)
    requires max >= 1 && FindVersion(Deque(Run(max, ops), key), version).Some?
    ensures var before, s := Run(max, ops), Run(max, ops + [RollbackTo(key, version, now)]);
            var source := FindVersion(Deque(before, key), version).value;
            var found := FindVersion(Deque(s, key), Current(before, key) + 1);
            && Current(s, key) == Current(before, key) + 1
            && found.Some? && found.value.value == source.value && found.value.changedBy == source.changedBy
            && found.value.timestamp == now
            && found.value.description == Some("Rollback to version " + Digits(version))
  {
    var log, rolling := Log(max, ops, key), ops + [RollbackTo(key, version, now)];
    LogAppend(max, ops, RollbackTo(key, version, now), key);
    VersionsWithinReach(max, ops, key, version);
    CounterIsLogLength(max, rolling, key);
    LogCountsFromOne(max, ops, key);
    VersionsWithinReach(max, rolling, key, |log| + 1);
  }

  /** The number that decimal digits stand for. */
  ghost function Number(digits: string): int {
    if digits == "" then 0
    else Number(digits[..|digits| - 1]) * 10 + (digits[|digits| - 1] as int - '0' as int)
  }

  /** `Digits` writes the number in decimal, without leading zeros. */
  lemma {:induction false} DigitsSpellTheNumber(n: nat)
    ensures Number(Digits(n)) == n && Digits(n) != ""
    ensures forall i :: 0 <= i < |Digits(n)| ==> '0' <= Digits(n)[i] <= '9'
    ensures n > 0 ==> Digits(n)[0] != '0'
  {
    var d := Digits(n);
    if n < 10 {
      assert d[..0] == "";
    } else {
      DigitsSpellTheNumber(n / 10);
      assert d[..|d| - 1] == Digits(n / 10);
    }
  }

  // ---- the program's objects ----

  class ConfigHistory {
    const maxHistory: nat
    var history: map<string, seq<ConfigVersion>>
    var currentVersions: map<string, nat>

    function Abs(): State
      reads this
    {
      State(history, currentVersions)
    }

    constructor WithMaxHistory(max: nat)
      ensures maxHistory == max && Abs() == State(map[], map[])
    {
      maxHistory, history, currentVersions := max, map[], map[];
    }

    constructor ()
      ensures maxHistory == 100 && Abs() == State(map[], map[])
    {
      maxHistory, history, currentVersions := MAX_HISTORY_SIZE, map[], map[];
    }

    /** Takes entries off the front while there are too many. */
    static method TrimOld(all: seq<ConfigVersion>, max: nat) returns (entries: seq<ConfigVersion>)
      ensures entries == Trim(all, max)
    {
      entries := all;
      while |entries| > max
        invariant Trim(entries, max) == Trim(all, max)
      {
        entries := entries[1..];
      }
    }

    method RecordChange(key: string, c: Change) returns (entry: ConfigVersion)
      modifies this
      ensures entry.version == Current(old(Abs()), key) + 1 && entry.key == key && Carries(entry, c)
      ensures Abs() == Step(maxHistory, old(Abs()), Record(key, c))
    {
      // the counter's critical section
      if key !in currentVersions {
        currentVersions := currentVersions[key := 0];
      }
      currentVersions := currentVersions[key := currentVersions[key] + 1];
      entry := Numbered(currentVersions[key], key, c);
      // the history's critical section
      var entries := TrimOld(Deque(Abs(), key) + [entry], maxHistory);
      history := history[key := entries];
      assert currentVersions == RecordStep(maxHistory, old(Abs()), key, c).current;
    }

    /** The retained entries, newest first. */
    method GetHistory(key: string) returns (entries: seq<ConfigVersion>)
      ensures entries == Reversed(Deque(Abs(), key))
    {
      var l := Deque(Abs(), key);
      entries := [];
      for i := 0 to |l|
        invariant entries == Reversed(l[..i])
      {
        assert l[..i + 1][..i] == l[..i];
        entries := [l[i]] + entries;
      }
      assert l[..|l|] == l;
    }

    method GetVersion(key: string, version: nat) returns (found: Option<ConfigVersion>)
      ensures found == FindVersion(Deque(Abs(), key), version)
    {
      var l := Deque(Abs(), key);
      var i := |l|;
      assert l[..i] == l;
      while i > 0
        invariant 0 <= i <= |l|
        invariant FindVersion(l, version) == FindVersion(l[..i], version)
      {
        i := i - 1;
        assert l[..i + 1][..i] == l[..i];
        if l[i].version == version {
          return Some(l[i]);
        }
      }
      found := None;
    }

    method CurrentVersion(key: string) returns (version: nat)
      ensures version == Current(Abs(), key)
    {
      version := if key in currentVersions then currentVersions[key] else 0;
    }

    method ClearHistory(key: string)
      modifies this
      ensures Abs() == Step(maxHistory, old(Abs()), Clear(key))
      ensures history == old(history) - {key} && currentVersions == old(currentVersions) - {key}
    {
      history := history - {key};
      currentVersions := currentVersions - {key};
    }
  }

  class ConfigRollback {
    const history: ConfigHistory

    constructor (h: ConfigHistory)
      ensures history == h
    {
      history := h;
    }

    method RollTo(key: string, version: nat, now: int) returns (value: Result<string, string>)
      modifies history
      ensures history.Abs() == Step(history.maxHistory, old(history.Abs()), RollbackTo(key, version, now))
      ensures var found := FindVersion(Deque(old(history.Abs()), key), version);
              if found.Some? then value == Ok(found.value.value) else value.Err?
    {
      var entry := history.GetVersion(key, version);
      if entry.None? {
        return Err("Version not found");
      }
      FindReturnsVersion(Deque(history.Abs(), key), version);
      var _ := history.RecordChange(key, Change(entry.value.value, entry.value.changedBy,
                                                Some("Rollback to version " + Digits(version)), now));
      value := Ok(entry.value.value);
    }

    method RollPrevious(key: string, now: int) returns (value: Result<string, string>)
      modifies history
      ensures history.Abs() == Step(history.maxHistory, old(history.Abs()), RollbackPrevious(key, now))
      ensures var s := old(history.Abs());
              var previous := if Current(s, key) > 1 then FindVersion(Deque(s, key), Current(s, key) - 1) else None;
              if previous.Some? then value == Ok(previous.value.value) else value.Err?
    {
      var current := history.CurrentVersion(key);
      if current <= 1 {
        return Err("No previous version to rollback to");
      }
      value := RollTo(key, current - 1, now);
    }
  }
}
