/** Retention clean-up: sort the backup records newest first, then take out by id all beyond the limit. */
module BackupCleanup {
  import opened Prelude
  import Sorting

  /** A backup record; what the clean-up does not look at is in `details`. */
  datatype BackupRecord = BackupRecord(id: string, startedAt: int, storagePath: string, details: string)

  predicate NewestFirst(a: BackupRecord, b: BackupRecord) {
    b.startedAt <= a.startedAt
  }

  function Ids(records: seq<BackupRecord>): seq<string> {
    seq(|records|, i requires 0 <= i < |records| => records[i].id)
  }

  /** The position of the first record with this id at or after `from`, or the length of the list. */
  function FirstFrom(records: seq<BackupRecord>, id: string, from: nat): (i: nat)
    requires from <= |records|
    ensures from <= i <= |records|
    ensures forall j :: from <= j < i ==> records[j].id != id
    ensures i < |records| ==> records[i].id == id
    decreases |records| - from
  {
    if from == |records| || records[from].id == id then from else FirstFrom(records, id, from + 1)
  }

  function FirstWith(records: seq<BackupRecord>, id: string): (i: nat)
    ensures i <= |records|
    ensures forall j :: 0 <= j < i ==> records[j].id != id
    ensures i < |records| ==> records[i].id == id
  {
    FirstFrom(records, id, 0)
  }

  /** What is left after taking out, for each id in turn, the first record that carries it. */
  function Kept(records: seq<BackupRecord>, ids: seq<string>): seq<BackupRecord>
    decreases |ids|
  {
    if ids == [] then records
    else
      var i := FirstWith(records, ids[0]);
      Kept(if i < |records| then RemoveAt(records, i) else records, ids[1..])
  }

  /** What was taken out, in the order of removal. */
  function Removed(records: seq<BackupRecord>, ids: seq<string>): seq<BackupRecord>
    decreases |ids|
  {
    if ids == [] then []
    else
      var i := FirstWith(records, ids[0]);
      if i < |records| then [records[i]] + Removed(RemoveAt(records, i), ids[1..]) else Removed(records, ids[1..])
  }

  function Min(a: nat, b: nat): nat {
    if a <= b then a else b
  }

  function SortedRecords(records: seq<BackupRecord>): seq<BackupRecord> {
    Sorting.SortBy(records, NewestFirst)
  }

  /** The ids beyond the retention limit. */
  function ExpiredIds(sorted: seq<BackupRecord>, retention: nat): seq<string> {
    Ids(sorted[Min(retention, |sorted|)..])
  }

  // ---- what holds for all records ----

  lemma WithoutOne(records: seq<BackupRecord>, i: nat)
    requires i < |records|
    ensures multiset(records) == multiset(RemoveAt(records, i)) + multiset{records[i]}
    ensures multiset(Ids(records)) == multiset(Ids(RemoveAt(records, i))) + multiset{records[i].id}
    ensures Sorting.Sorted(records, NewestFirst) ==> Sorting.Sorted(RemoveAt(records, i), NewestFirst)
  {
    assert records == records[..i] + [records[i]] + records[i + 1..];
    var ids := Ids(records);
    assert Ids(RemoveAt(records, i)) == ids[..i] + ids[i + 1..];
    assert ids == ids[..i] + [records[i].id] + ids[i + 1..];
  }

  lemma IdIsThere(records: seq<BackupRecord>, id: string)
    requires id in multiset(Ids(records))
    ensures FirstWith(records, id) < |records|
  {
    assert id in Ids(records);
    var j :| 0 <= j < |records| && Ids(records)[j] == id;
    assert records[j].id == id;
  }

  lemma OneLessOnBothSides(a: multiset<string>, b: multiset<string>, x: string)
    requires multiset{x} + a <= b + multiset{x}
    ensures a <= b
  {
    forall y ensures a[y] <= b[y] {
      assert (multiset{x} + a)[y] <= (b + multiset{x})[y];
    }
  }

  lemma OneIdTaken(records: seq<BackupRecord>, ids: seq<string>)
    requires ids != [] && multiset(ids) <= multiset(Ids(records))
    ensures FirstWith(records, ids[0]) < |records|
    ensures multiset(ids[1..]) <= multiset(Ids(RemoveAt(records, FirstWith(records, ids[0]))))
    ensures multiset(ids) == multiset{ids[0]} + multiset(ids[1..])
  {
    assert ids == [ids[0]] + ids[1..];
    var all := multiset(Ids(records));
    assert multiset(ids)[ids[0]] <= all[ids[0]];
    IdIsThere(records, ids[0]);
    var i := FirstWith(records, ids[0]);
    WithoutOne(records, i);
    OneLessOnBothSides(multiset(ids[1..]), multiset(Ids(RemoveAt(records, i))), ids[0]);
  }

  /** If the ids are among those of the records, repetitions counted, each takes out one record. */
  lemma {:induction false} EachIdTakesOne(records: seq<BackupRecord>, ids: seq<string>)
    requires multiset(ids) <= multiset(Ids(records))
    ensures multiset(Kept(records, ids)) + multiset(Removed(records, ids)) == multiset(records)
    ensures multiset(Ids(Kept(records, ids))) + multiset(ids) == multiset(Ids(records))
    ensures |Removed(records, ids)| == |ids|
    decreases |ids|
  {
    if ids != [] {
      OneIdTaken(records, ids);
      var i := FirstWith(records, ids[0]);
      var rest := RemoveAt(records, i);
      WithoutOne(records, i);
      EachIdTakesOne(rest, ids[1..]);
      assert Kept(records, ids) == Kept(rest, ids[1..]);
      assert Removed(records, ids) == [records[i]] + Removed(rest, ids[1..]);
    }
  }

  lemma {:induction false} RemovedCarryTheIds(records: seq<BackupRecord>, ids: seq<string>)
    ensures forall r :: r in Removed(records, ids) ==> r.id in ids && r in records
    ensures forall r :: r in Kept(records, ids) ==> r in records
    decreases |ids|
  {
    if ids != [] {
      var i := FirstWith(records, ids[0]);
      RemovedCarryTheIds(if i < |records| then RemoveAt(records, i) else records, ids[1..]);
    }
  }

  lemma {:induction false} KeptStaysSorted(records: seq<BackupRecord>, ids: seq<string>)
    requires Sorting.Sorted(records, NewestFirst)
    ensures Sorting.Sorted(Kept(records, ids), NewestFirst)
    decreases |ids|
  {
    if ids != [] {
      var i := FirstWith(records, ids[0]);
      if i < |records| {
        WithoutOne(records, i);
      }
      KeptStaysSorted(if i < |records| then RemoveAt(records, i) else records, ids[1..]);
    }
  }

  lemma SplitIds(sorted: seq<BackupRecord>, k: nat)
    requires k <= |sorted|
    ensures multiset(Ids(sorted)) == multiset(Ids(sorted[..k])) + multiset(Ids(sorted[k..]))
  {
    assert Ids(sorted) == Ids(sorted[..k]) + Ids(sorted[k..]);
  }

  /** The records a clean-up keeps and the ones it removes. */
  function CleanKept(records: seq<BackupRecord>, retention: nat): seq<BackupRecord> {
    Kept(SortedRecords(records), ExpiredIds(SortedRecords(records), retention))
  }

  function CleanRemoved(records: seq<BackupRecord>, retention: nat): seq<BackupRecord> {
    Removed(SortedRecords(records), ExpiredIds(SortedRecords(records), retention))
  }

  lemma SortingFacts(records: seq<BackupRecord>)
    ensures Sorting.Sorted(SortedRecords(records), NewestFirst)
    ensures multiset(SortedRecords(records)) == multiset(records) && |SortedRecords(records)| == |records|
  {
    Sorting.SortBySorts(records, NewestFirst);
    Sorting.SortByPermutes(records, NewestFirst);
  }

  /** Whatever the ids: min(n, retention) records stay, newest first, and with
      the removed ones they are the records there were. */
  lemma CleanupConserves(records: seq<BackupRecord>, retention: nat)
    ensures var kept, removed := CleanKept(records, retention), CleanRemoved(records, retention);
            && |kept| == (if |records| < retention then |records| else retention)
            && |removed| == |records| - |kept|
            && multiset(kept) + multiset(removed) == multiset(records)
            && forall i, j :: 0 <= i < j < |kept| ==> kept[i].startedAt >= kept[j].startedAt
  {
    var sorted := SortedRecords(records);
    var ids := ExpiredIds(sorted, retention);
    SortingFacts(records);
    SplitIds(sorted, Min(retention, |sorted|));
    EachIdTakesOne(sorted, ids);
    KeptStaysSorted(sorted, ids);
    var kept, removed := Kept(sorted, ids), Removed(sorted, ids);
    assert |multiset(kept) + multiset(removed)| == |kept| + |removed|;
  }

  // ---- unique ids ----

  ghost predicate UniqueIds(records: seq<BackupRecord>) {
    Distinct(Ids(records))
  }

  lemma UniqueIdsByRecord(records: seq<BackupRecord>)
    ensures UniqueIds(records) <==> forall i, j :: 0 <= i < j < |records| ==> records[i].id != records[j].id
  {
    var ids := Ids(records);
    if UniqueIds(records) {
      forall i, j | 0 <= i < j < |records| ensures records[i].id != records[j].id {
        assert ids[i] != ids[j];
      }
    }
  }

  lemma UniqueIdsWithout(records: seq<BackupRecord>, k: nat)
    requires UniqueIds(records) && k < |records|
    ensures var rest := RemoveAt(records, k);
            UniqueIds(rest) && rest[..k] == records[..k] && rest[k..] == records[k + 1..]
    ensures FirstWith(records, records[k].id) == k
  {
    var rest := RemoveAt(records, k);
    UniqueIdsByRecord(records);
    UniqueIdsByRecord(rest);
    forall i, j | 0 <= i < j < |rest| ensures rest[i].id != rest[j].id {
      assert rest[i] == records[if i < k then i else i + 1] && rest[j] == records[if j < k then j else j + 1];
    }
  }

  lemma IdsOfTail(records: seq<BackupRecord>, k: nat)
    requires k < |records|
    ensures Ids(records[k..]) == [records[k].id] + Ids(records[k + 1..])
    ensures records[k..] == [records[k]] + records[k + 1..]
  {
  }

  lemma TakeFirst(records: seq<BackupRecord>, id: string, ids: seq<string>)
    requires FirstWith(records, id) < |records|
    ensures var i := FirstWith(records, id);
            && Kept(records, [id] + ids) == Kept(RemoveAt(records, i), ids)
            && Removed(records, [id] + ids) == [records[i]] + Removed(RemoveAt(records, i), ids)
  {
    assert ([id] + ids)[1..] == ids;
  }

  lemma {:induction false} UniqueTailGoes(records: seq<BackupRecord>, k: nat)
    requires UniqueIds(records) && k <= |records|
    ensures Kept(records, Ids(records[k..])) == records[..k] && Removed(records, Ids(records[k..])) == records[k..]
    decreases |records| - k
  {
    if k < |records| {
      var rest := RemoveAt(records, k);
      UniqueIdsWithout(records, k);
      IdsOfTail(records, k);
      TakeFirst(records, records[k].id, Ids(records[k + 1..]));
      UniqueTailGoes(rest, k);
    } else {
      assert records[..k] == records;
    }
  }

  lemma {:induction false} UniqueIdsSurviveSorting(records: seq<BackupRecord>)
    requires UniqueIds(records)
    ensures UniqueIds(SortedRecords(records))
  {
    var sorted := SortedRecords(records);
    SortingFacts(records);
    UniqueIdsByRecord(records);
    UniqueIdsByRecord(sorted);
    forall i, j | 0 <= i < j < |sorted| ensures sorted[i].id != sorted[j].id {
      assert sorted[i] in multiset(records) && sorted[j] in multiset(records);
      if sorted[i].id == sorted[j].id {
        assert sorted[i] == sorted[j];
        Sorting.OccursTwice(sorted, i, j);
        Sorting.OccursOnce(records, sorted[i]);
      }
    }
  }

  /** With unique ids exactly the newest records stay and exactly the others go. */
  lemma UniqueIdsKeepTheNewest(records: seq<BackupRecord>, retention: nat)
    requires UniqueIds(records)
    ensures var sorted, k := SortedRecords(records), Min(retention, |records|);
            && |sorted| == |records|
            && CleanKept(records, retention) == sorted[..k] && CleanRemoved(records, retention) == sorted[k..]
  {
    SortingFacts(records);
    UniqueIdsSurviveSorting(records);
    UniqueTailGoes(SortedRecords(records), Min(retention, |records|));
  }

  // ---- repeated ids ----

  /** Every kept record is at least as new as every removed one. */
  ghost predicate NewestKept(kept: seq<BackupRecord>, removed: seq<BackupRecord>) {
    forall a, b :: a in kept && b in removed ==> a.startedAt >= b.startedAt
  }

  /** Records on the two sides of the retention limit that share an id were started at the same time. */
  ghost predicate LimitSeparatesIds(sorted: seq<BackupRecord>, k: nat) {
    forall i, j :: 0 <= i < k <= j < |sorted| && sorted[i].id == sorted[j].id ==>
      sorted[i].startedAt == sorted[j].startedAt
  }

  lemma FirstWithAfter(records: seq<BackupRecord>, i: nat, id: string)
    requires i < |records| && records[i].id != id && FirstWith(records, id) < |records|
    ensures var rest := RemoveAt(records, i);
            FirstWith(rest, id) < |rest| && rest[FirstWith(rest, id)] == records[FirstWith(records, id)]
  {
    var f, rest := FirstWith(records, id), RemoveAt(records, i);
    var g := if f < i then f else f - 1;
    assert rest[g] == records[f];
    forall j | 0 <= j < g ensures rest[j].id != id {
      assert rest[j] == records[if j < i then j else j + 1];
    }
  }

  /** The first record of an id that is taken out at all is taken out. */
  lemma {:induction false} FirstGoes(records: seq<BackupRecord>, ids: seq<string>, id: string)
    requires id in ids && FirstWith(records, id) < |records|
    ensures records[FirstWith(records, id)] in Removed(records, ids)
    decreases |ids|
  {
    if ids[0] != id {
      assert id in ids[1..];
      var i := FirstWith(records, ids[0]);
      if i < |records| {
        FirstWithAfter(records, i, id);
        FirstGoes(RemoveAt(records, i), ids[1..], id);
      } else {
        FirstGoes(records, ids[1..], id);
      }
    }
  }

  lemma LastWithAfter(records: seq<BackupRecord>, i: nat, last: nat)
    requires i < |records| && last < |records| && i != last
    requires forall j :: last < j < |records| ==> records[j].id != records[last].id
    ensures var rest, l := RemoveAt(records, i), if last < i then last else last - 1;
            l < |rest| && rest[l] == records[last] && forall j :: l < j < |rest| ==> rest[j].id != rest[l].id
  {
    var rest, l := RemoveAt(records, i), if last < i then last else last - 1;
    forall j | l < j < |rest| ensures rest[j].id != records[last].id {
      assert rest[j] == records[if j < i then j else j + 1];
    }
  }

  lemma FewerOnBothSides(records: seq<BackupRecord>, ids: seq<string>, id: string)
    requires ids != [] && FirstWith(records, ids[0]) < |records|
    requires multiset(ids)[id] < multiset(Ids(records))[id]
    ensures multiset(ids[1..])[id] < multiset(Ids(RemoveAt(records, FirstWith(records, ids[0]))))[id]
  {
    assert ids == [ids[0]] + ids[1..];
    WithoutOne(records, FirstWith(records, ids[0]));
  }

  lemma OnlyOne(records: seq<BackupRecord>, i: nat)
    requires i < |records| && forall j :: 0 <= j < |records| && j != i ==> records[j].id != records[i].id
    ensures multiset(Ids(records))[records[i].id] == 1
  {
    var ids := Ids(records);
    assert ids == ids[..i] + [ids[i]] + ids[i + 1..];
    assert records[i].id !in ids[..i] && records[i].id !in ids[i + 1..];
  }

  /** The last record of an id stays if there are more records of it than removals. */
  lemma {:induction false} LastStays(records: seq<BackupRecord>, ids: seq<string>, last: nat)
    requires last < |records| && forall j :: last < j < |records| ==> records[j].id != records[last].id
    requires multiset(ids)[records[last].id] < multiset(Ids(records))[records[last].id]
    ensures records[last] in Kept(records, ids)
    decreases |ids|
  {
    if ids != [] {
      var i := FirstWith(records, ids[0]);
      assert multiset(ids)[ids[0]] >= 1;
      if i < |records| {
        if i == last {
          OnlyOne(records, last);
        }
        LastWithAfter(records, i, last);
        FewerOnBothSides(records, ids, records[last].id);
        LastStays(RemoveAt(records, i), ids[1..], if last < i then last else last - 1);
      } else {
        assert ids == [ids[0]] + ids[1..];
        LastStays(records, ids[1..], last);
      }
    }
  }

  /** The last position that carries this id. */
  lemma LastWith(records: seq<BackupRecord>, from: nat) returns (last: nat)
    requires from < |records|
    ensures from <= last < |records| && records[last].id == records[from].id
    ensures forall j :: last < j < |records| ==> records[j].id != records[from].id
  {
    last := |records| - 1;
    while records[last].id != records[from].id
      invariant from <= last < |records|
      invariant forall j :: last < j < |records| ==> records[j].id != records[from].id
      decreases last
    {
      last := last - 1;
    }
  }

  lemma IdOf(records: seq<BackupRecord>, a: BackupRecord)
    requires a in records
    ensures a.id in multiset(Ids(records))
  {
    var m :| 0 <= m < |records| && records[m] == a;
    assert Ids(records)[m] == a.id;
  }

  lemma IdInTail(sorted: seq<BackupRecord>, k: nat, j: nat)
    requires k <= j < |sorted|
    ensures sorted[j].id in Ids(sorted[k..])
  {
    assert Ids(sorted[k..])[j - k] == sorted[j].id;
  }

  lemma FirstIsNoOlder(sorted: seq<BackupRecord>, i: nat)
    requires Sorting.Sorted(sorted, NewestFirst) && i < |sorted|
    ensures var first := FirstWith(sorted, sorted[i].id);
            first < |sorted| && sorted[first].startedAt >= sorted[i].startedAt
  {
    var first := FirstWith(sorted, sorted[i].id);
    assert first <= i;
    assert first < i ==> NewestFirst(sorted[first], sorted[i]);
  }

  lemma FewerInTail(sorted: seq<BackupRecord>, k: nat, i: nat)
    requires i < k <= |sorted|
    ensures multiset(Ids(sorted[k..]))[sorted[i].id] < multiset(Ids(sorted))[sorted[i].id]
  {
    SplitIds(sorted, k);
    assert sorted[..k][i] == sorted[i];
    IdOf(sorted[..k], sorted[i]);
  }

  lemma LastOfHeadIdStays(sorted: seq<BackupRecord>, k: nat, i: nat, j: nat) returns (last: nat)
    requires i < k <= j < |sorted| && sorted[i].id == sorted[j].id
    ensures j <= last < |sorted| && sorted[last] in Kept(sorted, Ids(sorted[k..]))
  {
    last := LastWith(sorted, j);
    FewerInTail(sorted, k, i);
    LastStays(sorted, Ids(sorted[k..]), last);
  }

  lemma SomeRemovedIsNoOlder(sorted: seq<BackupRecord>, ids: seq<string>, i: nat) returns (b: BackupRecord)
    requires Sorting.Sorted(sorted, NewestFirst) && i < |sorted| && sorted[i].id in ids
    ensures b in Removed(sorted, ids) && b.startedAt >= sorted[i].startedAt
  {
    FirstIsNoOlder(sorted, i);
    FirstGoes(sorted, ids, sorted[i].id);
    b := sorted[FirstWith(sorted, sorted[i].id)];
  }

  lemma LaterIsNoNewer(sorted: seq<BackupRecord>, j: nat, last: nat)
    requires Sorting.Sorted(sorted, NewestFirst) && j <= last < |sorted|
    ensures sorted[last].startedAt <= sorted[j].startedAt
  {
    assert j < last ==> NewestFirst(sorted[j], sorted[last]);
  }

  lemma SomeKeptIsNoNewer(sorted: seq<BackupRecord>, k: nat, i: nat, j: nat) returns (a: BackupRecord)
    requires Sorting.Sorted(sorted, NewestFirst) && i < k <= j < |sorted| && sorted[i].id == sorted[j].id
    ensures a in Kept(sorted, Ids(sorted[k..])) && a.startedAt <= sorted[j].startedAt
  {
    var last := LastOfHeadIdStays(sorted, k, i, j);
    LaterIsNoNewer(sorted, j, last);
    a := sorted[last];
  }

  lemma SharesIdWithTail(sorted: seq<BackupRecord>, k: nat, b: BackupRecord, t: nat)
    requires Sorting.Sorted(sorted, NewestFirst) && LimitSeparatesIds(sorted, k)
    requires b in sorted && k <= t < |sorted| && sorted[t].id == b.id
    ensures b.startedAt <= sorted[k].startedAt
  {
    var i :| 0 <= i < |sorted| && sorted[i] == b;
  }

  lemma SharesIdWithHead(sorted: seq<BackupRecord>, k: nat, a: BackupRecord, h: nat)
    requires Sorting.Sorted(sorted, NewestFirst) && LimitSeparatesIds(sorted, k)
    requires a in sorted && h < k < |sorted| && sorted[h].id == a.id
    ensures a.startedAt >= sorted[k].startedAt
  {
    var i :| 0 <= i < |sorted| && sorted[i] == a;
  }

  lemma TailIdsLeaveHeadIds(sorted: seq<BackupRecord>, k: nat)
    requires k <= |sorted|
    ensures multiset(Ids(Kept(sorted, Ids(sorted[k..])))) == multiset(Ids(sorted[..k]))
  {
    var ids := Ids(sorted[k..]);
    SplitIds(sorted, k);
    EachIdTakesOne(sorted, ids);
    var kept := multiset(Ids(Kept(sorted, ids)));
    assert kept == (kept + multiset(ids)) - multiset(ids);
    assert multiset(Ids(sorted[..k])) == (multiset(Ids(sorted[..k])) + multiset(ids)) - multiset(ids);
  }

  /** A record that stays shares its id with a record before the limit. */
  lemma KeptIdIsInHead(sorted: seq<BackupRecord>, k: nat, a: BackupRecord) returns (h: nat)
    requires k <= |sorted| && a in Kept(sorted, Ids(sorted[k..]))
    ensures h < k && sorted[h].id == a.id
  {
    TailIdsLeaveHeadIds(sorted, k);
    IdOf(Kept(sorted, Ids(sorted[k..])), a);
    h := FirstWith(sorted[..k], a.id);
    IdIsThere(sorted[..k], a.id);
  }

  lemma TailIdAt(sorted: seq<BackupRecord>, k: nat, id: string) returns (t: nat)
    requires k <= |sorted| && id in Ids(sorted[k..])
    ensures k <= t < |sorted| && sorted[t].id == id
  {
    var n :| 0 <= n < |sorted[k..]| && Ids(sorted[k..])[n] == id;
    t := k + n;
  }

  lemma AcrossTheLimit(sorted: seq<BackupRecord>, k: nat, a: BackupRecord, b: BackupRecord)
    requires Sorting.Sorted(sorted, NewestFirst) && k <= |sorted| && LimitSeparatesIds(sorted, k)
    requires a in sorted && a in Kept(sorted, Ids(sorted[k..]))
    requires b in sorted && b.id in Ids(sorted[k..])
    ensures NewestFirst(a, b)
  {
    var t := TailIdAt(sorted, k, b.id);
    var h := KeptIdIsInHead(sorted, k, a);
    SharesIdWithTail(sorted, k, b, t);
    SharesIdWithHead(sorted, k, a, h);
  }

  lemma KeptIsNoOlder(sorted: seq<BackupRecord>, k: nat, a: BackupRecord, b: BackupRecord)
    requires Sorting.Sorted(sorted, NewestFirst) && k <= |sorted| && LimitSeparatesIds(sorted, k)
    requires a in Kept(sorted, Ids(sorted[k..])) && b in Removed(sorted, Ids(sorted[k..]))
    ensures a.startedAt >= b.startedAt
  {
    RemovedCarryTheIds(sorted, Ids(sorted[k..]));
    AcrossTheLimit(sorted, k, a, b);
  }

  lemma SeparatedMeansNewest(sorted: seq<BackupRecord>, k: nat)
    requires Sorting.Sorted(sorted, NewestFirst) && k <= |sorted| && LimitSeparatesIds(sorted, k)
    ensures NewestKept(Kept(sorted, Ids(sorted[k..])), Removed(sorted, Ids(sorted[k..])))
  {
    var kept, removed := Kept(sorted, Ids(sorted[k..])), Removed(sorted, Ids(sorted[k..]));
    forall a, b | a in kept && b in removed ensures a.startedAt >= b.startedAt {
      KeptIsNoOlder(sorted, k, a, b);
    }
  }

  lemma NewestIffSeparated(sorted: seq<BackupRecord>, k: nat)
    requires Sorting.Sorted(sorted, NewestFirst) && k <= |sorted|
    ensures NewestKept(Kept(sorted, Ids(sorted[k..])), Removed(sorted, Ids(sorted[k..])))
       <==> LimitSeparatesIds(sorted, k)
  {
    if LimitSeparatesIds(sorted, k) {
      SeparatedMeansNewest(sorted, k);
    } else {
      var i, j :| 0 <= i < k <= j < |sorted| && sorted[i].id == sorted[j].id
                  && sorted[i].startedAt != sorted[j].startedAt;
      assert NewestFirst(sorted[i], sorted[j]);
      IdInTail(sorted, k, j);
      var a := SomeKeptIsNoNewer(sorted, k, i, j);
      var b := SomeRemovedIsNoOlder(sorted, Ids(sorted[k..]), i);
      assert !NewestFirst(a, b);
    }
  }

  function StartedAt(time: int): BackupRecord -> bool {
    (r: BackupRecord) => r.startedAt == time
  }

  lemma {:induction false} SameSelection(records: seq<BackupRecord>, time: int)
    ensures var e := BackupRecord("", time, "", "");
            Sorting.Selected(records, StartedAt(time)) == Sorting.Selected(records, Sorting.Tied(NewestFirst, e))
  {
    if records != [] {
      var e := BackupRecord("", time, "", "");
      SameSelection(records[1..], time);
      assert Sorting.Tied(NewestFirst, e)(records[0]) == (NewestFirst(records[0], e) && NewestFirst(e, records[0]));
    }
  }

  /** In the sorted list newer records come first, and records of one time keep their order. */
  lemma SortedNewestFirst(records: seq<BackupRecord>, i: nat, j: nat, time: int)
    ensures multiset(SortedRecords(records)) == multiset(records) && |SortedRecords(records)| == |records|
    ensures i < j < |records| ==> SortedRecords(records)[i].startedAt >= SortedRecords(records)[j].startedAt
    ensures Sorting.Selected(SortedRecords(records), StartedAt(time)) == Sorting.Selected(records, StartedAt(time))
  {
    SortingFacts(records);
    assert i < j < |records| ==> NewestFirst(SortedRecords(records)[i], SortedRecords(records)[j]);
    var e := BackupRecord("", time, "", "");
    Sorting.SortByIsStable(records, NewestFirst, e);
    SameSelection(SortedRecords(records), time);
    SameSelection(records, time);
  }

  /** The newest records are kept exactly if no id with different start times lies
      on both sides of the limit; unique ids are one such case. */
  lemma NewestKeptIff(records: seq<BackupRecord>, retention: nat)
    ensures NewestKept(CleanKept(records, retention), CleanRemoved(records, retention))
       <==> LimitSeparatesIds(SortedRecords(records), Min(retention, |records|))
  {
    SortingFacts(records);
    NewestIffSeparated(SortedRecords(records), Min(retention, |records|));
  }

  /** One backup that failed, was started anew and then completed: `start_backup` gives the record a new time and
      both ends push a copy of it. Room for one record keeps the failure and removes the completed backup. */
  lemma RestartedBackupCanGo(failed: BackupRecord, completed: BackupRecord)
    requires failed.id == completed.id && failed.startedAt < completed.startedAt
    ensures CleanKept([failed, completed], 1) == [failed]
    ensures CleanRemoved([failed, completed], 1) == [completed]
  {
    var sorted := [completed, failed];
    assert [failed, completed][1..] == [completed] && [completed][1..] == [];
    assert Sorting.SortBy([completed], NewestFirst) == [completed];
    assert Sorting.Insert(failed, [completed], NewestFirst) == sorted;
    assert ExpiredIds(sorted, 1) == [failed.id] + [];
    assert RemoveAt(sorted, 0) == [failed];
    TakeFirst(sorted, failed.id, []);
  }

  /** After `n` ids, `list` is left and `removed` has been taken out. */
  ghost predicate Underway(before: seq<BackupRecord>, ids: seq<string>, n: nat,
                           list: seq<BackupRecord>, removed: seq<BackupRecord>)
  {
    && n <= |ids|
    && Kept(before, ids) == Kept(list, ids[n..])
    && Removed(before, ids) == removed + Removed(list, ids[n..])
  }

  lemma NextId(before: seq<BackupRecord>, ids: seq<string>, n: nat, list: seq<BackupRecord>, removed: seq<BackupRecord>)
    requires n < |ids| && Underway(before, ids, n, list, removed)
    ensures var i := FirstWith(list, ids[n]);
            if i < |list| then Underway(before, ids, n + 1, RemoveAt(list, i), removed + [list[i]])
            else Underway(before, ids, n + 1, list, removed)
  {
    assert ids[n..][1..] == ids[n + 1..];
  }

  lemma AllTaken(before: seq<BackupRecord>, ids: seq<string>, list: seq<BackupRecord>, removed: seq<BackupRecord>)
    requires Underway(before, ids, |ids|, list, removed)
    ensures list == Kept(before, ids) && removed == Removed(before, ids)
  {
    assert ids[|ids|..] == [];
  }

  function Paths(records: seq<BackupRecord>): seq<string> {
    seq(|records|, i requires 0 <= i < |records| => records[i].storagePath)
  }

  lemma PathsAppend(files: seq<string>, removed: seq<BackupRecord>, record: BackupRecord)
    ensures files + Paths(removed + [record]) == files + Paths(removed) + [record.storagePath]
  {
    assert Paths(removed + [record]) == Paths(removed) + [record.storagePath];
  }

  /** After the files deleted before come those of the removed records, in order. */
  ghost predicate DeletesAll(before: seq<string>, removed: seq<BackupRecord>, after: seq<string>) {
    && |after| == |before| + |removed| && before <= after
    && forall i :: 0 <= i < |removed| ==> after[|before| + i] == removed[i].storagePath
  }

  lemma PathsDeleteAll(before: seq<string>, removed: seq<BackupRecord>)
    ensures DeletesAll(before, removed, before + Paths(removed))
  {
  }

  class BackupScheduler {
    const retentionCount: nat
    var records: seq<BackupRecord>
    /** The files the clean-up has asked the file system to delete. */
    var deletedFiles: seq<string>

    constructor (retention: nat)
      ensures retentionCount == retention && records == [] && deletedFiles == []
    {
      retentionCount, records, deletedFiles := retention, [], [];
    }

    /** What completing or failing a backup does to the list. */
    method Push(record: BackupRecord)
      modifies this`records
      ensures records == old(records) + [record]
    {
      records := records + [record];
    }

    /** The position of the first record with this id. */
    static method Position(records: seq<BackupRecord>, id: string) returns (pos: nat)
      ensures pos == FirstWith(records, id)
    {
      pos := 0;
      while pos < |records| && records[pos].id != id
        invariant pos <= |records|
        invariant forall j :: 0 <= j < pos ==> records[j].id != id
      {
        pos := pos + 1;
      }
    }

    /** Takes out the first record of each id in turn and deletes its file. */
    method RemoveAll(toRemove: seq<string>) returns (cleaned: nat)
      modifies this
      ensures records == Kept(old(records), toRemove)
      ensures deletedFiles == old(deletedFiles) + Paths(Removed(old(records), toRemove))
      ensures cleaned == |Removed(old(records), toRemove)|
    {
      var list, files := records, deletedFiles;
      ghost var before := records;
      ghost var removed: seq<BackupRecord> := [];
      cleaned := 0;
      assert toRemove[0..] == toRemove;
      for n := 0 to |toRemove|
        invariant records == before && deletedFiles == old(deletedFiles)
        invariant Underway(before, toRemove, n, list, removed)
        invariant files == deletedFiles + Paths(removed)
        invariant cleaned == |removed|
      {
        NextId(before, toRemove, n, list, removed);
        var pos := Position(list, toRemove[n]);
        if pos < |list| {
          var record := list[pos];
          PathsAppend(deletedFiles, removed, record);
          list := RemoveAt(list, pos);
          files := files + [record.storagePath];
          removed := removed + [record];
          cleaned := cleaned + 1;
        }
      }
      AllTaken(before, toRemove, list, removed);
      records, deletedFiles := list, files;
    }

    method CleanupOldBackups() returns (cleaned: nat)
      modifies this
      ensures records == CleanKept(old(records), retentionCount)
      ensures deletedFiles == old(deletedFiles) + Paths(CleanRemoved(old(records), retentionCount))
      ensures DeletesAll(old(deletedFiles), CleanRemoved(old(records), retentionCount), deletedFiles)
      ensures cleaned == |old(records)| - |records|
    {
      CleanupConserves(records, retentionCount);
      records := SortedRecords(records);
      var toRemove := ExpiredIds(records, retentionCount);
      cleaned := RemoveAll(toRemove);
      PathsDeleteAll(old(deletedFiles), CleanRemoved(old(records), retentionCount));
    }
  }
}
