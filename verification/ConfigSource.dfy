/** Configuration sources: trees built from dotted keys and from environment variables. */
module ConfigSource {
  import opened Prelude
  import opened JsonTree
  import Text

  type Fields = map<string, Value>

  /** The object stored under `key`; a missing key or a non-object counts as the empty one. */
  function ObjectBelow(fields: Fields, key: string): Fields {
    if key in fields && fields[key].Obj? then fields[key].fields else map[]
  }

  /** Puts `value` at `path`, replacing whatever non-object stands on the way. */
  function InsertNested(fields: Fields, path: Path, value: Value): Fields
    requires path != []
    decreases |path|
  {
    if |path| == 1 then
      fields[path[0] := value]
    else
      var nested := ObjectBelow(fields, path[0]);
      (fields - {path[0]})[path[0] := Obj(InsertNested(nested, path[1..], value))]
  }

  lemma MergeIntoEmpty(v: Value)
    ensures Merge(Obj(map[]), v) == v
  {
    if v.Obj? {
      assert Merge(Obj(map[]), v).fields == v.fields;
    }
  }

  /** Inserting at a path is overlaying the one-branch tree, except when an object is inserted
      over an object that it does not cover: insertion replaces it, overlaying merges into it. */
  lemma {:induction false} InsertIsMergeIff(fields: Fields, path: Path, value: Value)
    requires path != []
    ensures Obj(InsertNested(fields, path, value)) == Merge(Obj(fields), Branch(path, value))
       <==> (var here := At(Obj(fields), path);
             here.Some? && here.value.Obj? && value.Obj? ==> CoveredBy(here.value, value))
    decreases |path|
  {
    var key := path[0];
    var inserted := InsertNested(fields, path, value);
    var merged := Merge(Obj(fields), Branch(path, value)).fields;
    var below := Branch(path[1..], value);
    assert inserted.Keys == merged.Keys;
    assert forall k | k in fields && k != key :: inserted[k] == fields[k] && merged[k] == fields[k];
    assert inserted == merged <==> inserted[key] == merged[key];
    assert key in fields ==> merged[key] == Merge(fields[key], below);
    if |path| == 1 {
      assert below == value;
      if key in fields && fields[key].Obj? && value.Obj? {
        OverlayWinsIffCovering(fields[key], value);
      }
    } else if key in fields && fields[key].Obj? {
      InsertIsMergeIff(fields[key].fields, path[1..], value);
    } else {
      InsertIsMergeIff(map[], path[1..], value);
      MergeIntoEmpty(below);
    }
  }

  /** After an insertion the tree has the new leaf, and of the old leaves those whose
      paths neither run through the new one nor lie on the way to it. */
  lemma InsertLookup(fields: Fields, path: Path, leaf: Value, q: Path, x: Value)
    requires path != [] && !leaf.Obj?
    ensures HasLeaf(Obj(InsertNested(fields, path, leaf)), q, x)
       <==> (q == path && x == leaf) || (HasLeaf(Obj(fields), q, x) && !Comparable(path, q))
  {
    InsertIsMergeIff(fields, path, leaf);
    BranchLookup(path, leaf, q, x);
    if !x.Obj? {
      MergeLookup(Obj(fields), Branch(path, leaf), q, x);
    }
  }

  /** Nothing lies below a leaf. */
  lemma {:induction false} LeafEndsTheWalk(v: Value, p: Path, leaf: Value, q: Path)
    requires HasLeaf(v, p, leaf) && p < q
    ensures At(v, q) == None
    decreases |p|
  {
    if p != [] {
      assert p == [p[0]] + p[1..] && q == [q[0]] + q[1..];
      LeafEndsTheWalk(v.fields[p[0]], p[1..], leaf, q[1..]);
    }
  }

  /** An insertion changes only the first key of its path. */
  function ChildAfterInsert(fields: Fields, path: Path, value: Value): Value
    requires path != []
  {
    if |path| == 1 then value else Obj(InsertNested(ObjectBelow(fields, path[0]), path[1..], value))
  }

  lemma InsertSetsOneKey(fields: Fields, path: Path, value: Value)
    requires path != []
    ensures InsertNested(fields, path, value) == fields[path[0] := ChildAfterInsert(fields, path, value)]
  {
  }

  lemma UpdatesCommute(fields: Fields, k: string, v: Value, l: string, w: Value)
    requires k != l
    ensures fields[k := v][l := w] == fields[l := w][k := v]
  {
  }

  lemma InsertsUnderDifferentKeys(fields: Fields, p: Path, v: Value, q: Path, w: Value)
    requires p != [] && q != [] && p[0] != q[0]
    ensures InsertNested(InsertNested(fields, p, v), q, w) == InsertNested(InsertNested(fields, q, w), p, v)
  {
    var newP, newQ := ChildAfterInsert(fields, p, v), ChildAfterInsert(fields, q, w);
    InsertSetsOneKey(fields, p, v);
    InsertSetsOneKey(fields, q, w);
    InsertSetsOneKey(fields[p[0] := newP], q, w);
    InsertSetsOneKey(fields[q[0] := newQ], p, v);
    UpdatesCommute(fields, p[0], newP, q[0], newQ);
  }

  lemma InsertsUnderOneKey(fields: Fields, p: Path, v: Value, q: Path, w: Value)
    requires |p| > 1 && |q| > 1 && p[0] == q[0]
    ensures InsertNested(InsertNested(fields, p, v), q, w)
         == fields[p[0] := Obj(InsertNested(InsertNested(ObjectBelow(fields, p[0]), p[1..], v), q[1..], w))]
  {
    var newP := ChildAfterInsert(fields, p, v);
    InsertSetsOneKey(fields, p, v);
    InsertSetsOneKey(fields[p[0] := newP], q, w);
    assert ObjectBelow(fields[p[0] := newP], q[0]) == newP.fields;
  }

  lemma {:induction false} IncomparableInsertsCommute(fields: Fields, p: Path, v: Value, q: Path, w: Value)
    requires p != [] && q != [] && !Comparable(p, q)
    ensures InsertNested(InsertNested(fields, p, v), q, w) == InsertNested(InsertNested(fields, q, w), p, v)
    decreases |p|
  {
    ComparableTails(p, q);
    if p[0] == q[0] {
      assert |p| > 1 && |q| > 1;
      InsertsUnderOneKey(fields, p, v, q, w);
      InsertsUnderOneKey(fields, q, w, p, v);
      IncomparableInsertsCommute(ObjectBelow(fields, p[0]), p[1..], v, q[1..], w);
    } else {
      InsertsUnderDifferentKeys(fields, p, v, q, w);
    }
  }

  /** Two insertions commute, on every starting tree, exactly when neither path begins with
      the other, or when they are one and the same insertion. */
  lemma {:induction false} InsertsCommuteIff(fields: Fields, p: Path, v: Value, q: Path, w: Value)
    requires p != [] && q != [] && !v.Obj? && !w.Obj?
    ensures InsertNested(InsertNested(fields, p, v), q, w) == InsertNested(InsertNested(fields, q, w), p, v)
       <==> !Comparable(p, q) || (p == q && v == w)
  {
    var pFirst := InsertNested(InsertNested(fields, p, v), q, w);
    var qFirst := InsertNested(InsertNested(fields, q, w), p, v);
    if !Comparable(p, q) {
      IncomparableInsertsCommute(fields, p, v, q, w);
    } else if pFirst == qFirst {
      InsertLookup(InsertNested(fields, p, v), q, w, q, w);
      InsertLookup(InsertNested(fields, q, w), p, v, p, v);
      assert HasLeaf(Obj(pFirst), p, v) && HasLeaf(Obj(pFirst), q, w);
      if p < q {
        LeafEndsTheWalk(Obj(pFirst), p, v, q);
      } else if q < p {
        LeafEndsTheWalk(Obj(pFirst), q, w, p);
      } else {
        assert p == q;
      }
    }
  }

  /** One stored setting, with its key taken apart. */
  datatype Entry = Entry(path: Path, text: string)

  ghost predicate Insertable(entries: seq<Entry>) {
    forall i :: 0 <= i < |entries| ==> entries[i].path != []
  }

  /** The tree after inserting `entries` one by one into the empty tree. */
  ghost function NestAll(entries: seq<Entry>): Fields
    requires Insertable(entries)
  {
    if entries == [] then
      map[]
    else
      var last := entries[|entries| - 1];
      InsertNested(NestAll(entries[..|entries| - 1]), last.path, Str(last.text))
  }

  lemma NestAllAppend(entries: seq<Entry>, e: Entry)
    requires Insertable(entries) && e.path != []
    ensures NestAll(entries + [e]) == InsertNested(NestAll(entries), e.path, Str(e.text))
  {
    assert (entries + [e])[..|entries|] == entries;
  }

  /** Entry `i` has the text `x` for `p`, and no later entry touches `p`. */
  ghost predicate LastWord(entries: seq<Entry>, i: nat, p: Path, x: Value) {
    && i < |entries| && entries[i].path == p && x == Str(entries[i].text)
    && forall j :: i < j < |entries| ==> !Comparable(entries[j].path, p)
  }

  lemma LastWordAppend(entries: seq<Entry>, last: Entry, p: Path, x: Value)
    ensures (exists i :: LastWord(entries + [last], i, p, x))
       <==> (last.path == p && x == Str(last.text))
            || ((exists i :: LastWord(entries, i, p, x)) && !Comparable(last.path, p))
  {
    var longer := entries + [last];
    if i: nat :| LastWord(longer, i, p, x) {
      if i < |entries| {
        assert longer[|entries|] == last;
        assert forall j :: i < j < |entries| ==> longer[j] == entries[j];
        assert LastWord(entries, i, p, x);
      }
    }
    if i: nat :| LastWord(entries, i, p, x) && !Comparable(last.path, p) {
      assert LastWord(longer, i, p, x);
    }
    if last.path == p && x == Str(last.text) {
      assert LastWord(longer, |entries|, p, x);
    }
  }

  /** The leaves of the built tree are the entries that no later entry overwrites. */
  lemma {:induction false} NestAllLookup(entries: seq<Entry>, p: Path, x: Value)
    requires Insertable(entries)
    ensures HasLeaf(Obj(NestAll(entries)), p, x) <==> exists i :: LastWord(entries, i, p, x)
  {
    if entries == [] {
      assert NestAll(entries) == map[];
    } else {
      var front, last := entries[..|entries| - 1], entries[|entries| - 1];
      assert entries == front + [last];
      NestAllLookup(front, p, x);
      LastWordAppend(front, last, p, x);
      InsertLookup(NestAll(front), last.path, Str(last.text), p, x);
    }
  }

  lemma SwapLastTwo(entries: seq<Entry>, e: Entry, f: Entry)
    requires Insertable(entries) && e.path != [] && f.path != [] && !Comparable(e.path, f.path)
    ensures NestAll(entries + [e] + [f]) == NestAll(entries + [f] + [e])
  {
    NestAllAppend(entries, e);
    NestAllAppend(entries + [e], f);
    NestAllAppend(entries, f);
    NestAllAppend(entries + [f], e);
    IncomparableInsertsCommute(NestAll(entries), e.path, Str(e.text), f.path, Str(f.text));
  }

  lemma AppendToEqual(xs: seq<Entry>, ys: seq<Entry>, e: Entry)
    requires Insertable(xs) && Insertable(ys) && e.path != []
    requires NestAll(xs) == NestAll(ys)
    ensures NestAll(xs + [e]) == NestAll(ys + [e])
  {
    NestAllAppend(xs, e);
    NestAllAppend(ys, e);
  }

  lemma LastOfThree(before: seq<Entry>, front: seq<Entry>, last: Entry)
    ensures before + (front + [last]) == before + front + [last]
  {
  }

  /** An entry can be inserted later if every entry it passes is incomparable to it. */
  lemma {:induction false} MoveToEnd(before: seq<Entry>, e: Entry, after: seq<Entry>)
    requires Insertable(before) && e.path != [] && Insertable(after)
    requires forall j :: 0 <= j < |after| ==> !Comparable(e.path, after[j].path)
    ensures NestAll(before + [e] + after) == NestAll(before + after + [e])
  {
    if after == [] {
      assert before + [e] + after == before + after + [e];
    } else {
      var front, last := after[..|after| - 1], after[|after| - 1];
      assert after == front + [last];
      var passed, others := before + [e] + front, before + front;
      LastOfThree(before + [e], front, last);
      LastOfThree(before, front, last);
      MoveToEnd(before, e, front);
      AppendToEqual(passed, others + [e], last);
      SwapLastTwo(others, e, last);
    }
  }

  // ---- in-memory source ----

  function KeyPath(key: string): (path: Path)
    ensures path != []
  {
    Text.Split(key, '.')
  }

  /** A key's path spells the key: its parts hold no dot and, joined by dots, are the key. */
  lemma KeyPathSpellsTheKey(key: string, path: Path)
    ensures KeyPath(key) == path
       <==> path != [] && Text.Join(path, '.') == key && forall i :: 0 <= i < |path| ==> '.' !in path[i]
  {
    Text.JoinUndoesSplit(key, '.');
    if path != [] && Text.Join(path, '.') == key && forall i :: 0 <= i < |path| ==> '.' !in path[i] {
      Text.SplitUndoesJoin(path, '.');
    }
  }

  lemma KeyPathInjective(k: string, l: string)
    requires KeyPath(k) == KeyPath(l)
    ensures k == l
  {
    Text.JoinUndoesSplit(k, '.');
    Text.JoinUndoesSplit(l, '.');
  }

  ghost function EntriesInOrder(data: map<string, string>, order: seq<string>): (entries: seq<Entry>)
    requires forall key :: key in order ==> key in data
    ensures Insertable(entries)
  {
    seq(|order|, i requires 0 <= i < |order| => Entry(KeyPath(order[i]), data[order[i]]))
  }

  /** The tree that `load` builds when the hash map hands out its keys in this order. */
  ghost function TreeFor(data: map<string, string>, order: seq<string>): Value
    requires Enumerates(order, data.Keys)
  {
    Obj(NestAll(EntriesInOrder(data, order)))
  }

  /** No key's dotted path begins with the whole path of another key. */
  ghost predicate PrefixFree(data: map<string, string>) {
    forall k, l | k in data && l in data && k != l :: !Comparable(KeyPath(k), KeyPath(l))
  }

  /** Taking one key out of an enumeration leaves an enumeration of the other keys. */
  lemma EnumerationWithout(keys: set<string>, before: seq<string>, k: string, after: seq<string>)
    requires Enumerates(before + [k] + after, keys)
    ensures Enumerates(before + after, keys - {k})
  {
    var o := before + [k] + after;
    assert o[|before|] == k;
    forall j | 0 <= j < |before + after| ensures (before + after)[j] != k && (before + after)[j] in keys {
      var at := if j < |before| then j else j + 1;
      assert (before + after)[j] == o[at];
    }
    forall x | x in keys - {k} ensures x in before + after {
      assert x in o;
    }
    forall i, j | 0 <= i < j < |before + after| ensures (before + after)[i] != (before + after)[j] {
      assert (before + after)[i] == o[if i < |before| then i else i + 1];
      assert (before + after)[j] == o[if j < |before| then j else j + 1];
    }
  }

  lemma SplitAtKey(o: seq<string>, keys: set<string>, k: string) returns (before: seq<string>, after: seq<string>)
    requires Enumerates(o, keys) && k in keys
    ensures o == before + [k] + after && k !in after
    ensures Enumerates(before + after, keys - {k})
  {
    var i :| 0 <= i < |o| && o[i] == k;
    before, after := o[..i], o[i + 1..];
    assert o == before + [k] + after;
    EnumerationWithout(keys, before, k, after);
    assert k !in before + after;
  }

  lemma EntriesSplit(data: map<string, string>, before: seq<string>, after: seq<string>)
    requires forall key :: key in before + after ==> key in data
    ensures (forall key :: key in before ==> key in data) && (forall key :: key in after ==> key in data)
    ensures EntriesInOrder(data, before + after) == EntriesInOrder(data, before) + EntriesInOrder(data, after)
  {
    assert forall key :: key in before ==> key in before + after;
    assert forall key :: key in after ==> key in before + after;
  }

  lemma AppendKeyToEqual(data: map<string, string>, o1: seq<string>, o2: seq<string>, k: string)
    requires k in data && (forall key :: key in o1 ==> key in data) && (forall key :: key in o2 ==> key in data)
    requires NestAll(EntriesInOrder(data, o1)) == NestAll(EntriesInOrder(data, o2))
    ensures forall key :: key in o1 + [k] || key in o2 + [k] ==> key in data
    ensures NestAll(EntriesInOrder(data, o1 + [k])) == NestAll(EntriesInOrder(data, o2 + [k]))
  {
    EntriesSplit(data, o1, [k]);
    EntriesSplit(data, o2, [k]);
    assert EntriesInOrder(data, [k]) == [Entry(KeyPath(k), data[k])];
    AppendToEqual(EntriesInOrder(data, o1), EntriesInOrder(data, o2), Entry(KeyPath(k), data[k]));
  }

  lemma MoveKeyToEnd(data: map<string, string>, before: seq<string>, k: string, after: seq<string>)
    requires PrefixFree(data)
    requires forall key :: key in before + [k] + after ==> key in data
    requires k !in after
    ensures k in data && forall key :: key in before + after + [k] ==> key in data
    ensures NestAll(EntriesInOrder(data, before + [k] + after)) == NestAll(EntriesInOrder(data, before + after + [k]))
  {
    assert k in before + [k] + after;
    assert forall key :: key in before + after + [k] ==> key in before + [k] + after;
    var e := Entry(KeyPath(k), data[k]);
    EntriesSplit(data, before + [k], after);
    EntriesSplit(data, before, [k]);
    EntriesSplit(data, before + after, [k]);
    EntriesSplit(data, before, after);
    assert EntriesInOrder(data, [k]) == [e];
    var later := EntriesInOrder(data, after);
    forall j | 0 <= j < |later| ensures !Comparable(e.path, later[j].path) {
      assert after[j] in after;
    }
    MoveToEnd(EntriesInOrder(data, before), e, later);
  }

  lemma {:induction false} PrefixFreeOrders(data: map<string, string>, keys: set<string>,
                                            o1: seq<string>, o2: seq<string>)
    requires PrefixFree(data) && keys <= data.Keys
    requires Enumerates(o1, keys) && Enumerates(o2, keys)
    ensures NestAll(EntriesInOrder(data, o1)) == NestAll(EntriesInOrder(data, o2))
    decreases |o1|
  {
    assert o2 != [] ==> o2[0] in o1;
    if o1 != [] {
      var front, k := o1[..|o1| - 1], o1[|o1| - 1];
      assert o1 == front + [k] && o1 == front + [k] + [] && front == front + [];
      assert k in o1;
      EnumerationWithout(keys, front, k, []);
      var before, after := SplitAtKey(o2, keys, k);
      PrefixFreeOrders(data, keys - {k}, front, before + after);
      MoveKeyToEnd(data, before, k, after);
      AppendKeyToEqual(data, front, before + after, k);
    }
  }

  lemma OrderEndingWith(data: map<string, string>, k: string) returns (o: seq<string>)
    requires k in data
    ensures Enumerates(o, data.Keys)
    ensures HasLeaf(TreeFor(data, o), KeyPath(k), Str(data[k]))
  {
    var rest := EnumerationExists(data.Keys - {k});
    o := rest + [k];
    assert LastWord(EntriesInOrder(data, o), |rest|, KeyPath(k), Str(data[k]));
    NestAllLookup(EntriesInOrder(data, o), KeyPath(k), Str(data[k]));
  }

  /** When one key's path begins another's, whichever comes last wins. */
  lemma OrdersThatDiffer(data: map<string, string>, k: string, l: string) returns (o1: seq<string>, o2: seq<string>)
    requires k in data && l in data && k != l && KeyPath(k) <= KeyPath(l)
    ensures Enumerates(o1, data.Keys) && Enumerates(o2, data.Keys)
    ensures TreeFor(data, o1) != TreeFor(data, o2)
  {
    if KeyPath(k) == KeyPath(l) { KeyPathInjective(k, l); }
    o1 := OrderEndingWith(data, k);
    o2 := OrderEndingWith(data, l);
    var t := TreeFor(data, o1);
    if t == TreeFor(data, o2) {
      LeafEndsTheWalk(t, KeyPath(k), Str(data[k]), KeyPath(l));
    }
  }

  /** The loaded tree is the same for every iteration order of the hash map
      exactly when the keys are prefix-free. */
  lemma OrderIrrelevantIffPrefixFree(data: map<string, string>)
    ensures (forall o1, o2 | Enumerates(o1, data.Keys) && Enumerates(o2, data.Keys) ::
               TreeFor(data, o1) == TreeFor(data, o2))
       <==> PrefixFree(data)
  {
    if PrefixFree(data) {
      forall o1, o2 | Enumerates(o1, data.Keys) && Enumerates(o2, data.Keys)
        ensures TreeFor(data, o1) == TreeFor(data, o2)
      {
        PrefixFreeOrders(data, data.Keys, o1, o2);
      }
    } else {
      var k, l :| k in data && l in data && k != l && KeyPath(k) <= KeyPath(l);
      var o1, o2 := OrdersThatDiffer(data, k, l);
    }
  }

  /** With prefix-free keys the leaves of the loaded tree are exactly the stored pairs. */
  lemma LoadedLeavesAreTheStoredPairs(data: map<string, string>, order: seq<string>, p: Path, x: Value)
    requires PrefixFree(data) && Enumerates(order, data.Keys)
    ensures HasLeaf(TreeFor(data, order), p, x) <==> exists k | k in data :: KeyPath(k) == p && x == Str(data[k])
  {
    var entries := EntriesInOrder(data, order);
    NestAllLookup(entries, p, x);
    if i: nat :| LastWord(entries, i, p, x) {
      assert order[i] in data && KeyPath(order[i]) == p;
    }
    if k :| k in data && KeyPath(k) == p && x == Str(data[k]) {
      assert k in order;
      var i :| 0 <= i < |order| && order[i] == k;
      assert LastWord(entries, i, p, x);
    }
  }

  class MemorySource {
    var data: map<string, string>

    constructor ()
      ensures data == map[]
    {
      data := map[];
    }

    method Set(key: string, value: string)
      modifies this
      ensures data == old(data)[key := value]
    {
      data := data[key := value];
    }

    /** Inserts the pairs in whatever order the hash map yields them. */
    method Load() returns (tree: Value)
      ensures exists order :: Enumerates(order, data.Keys) && tree == TreeFor(data, order)
    {
      var fields: Fields := map[];
      var remaining := data.Keys;
      ghost var order: seq<string> := [];
      while remaining != {}
        invariant remaining <= data.Keys
        invariant Enumerates(order, data.Keys - remaining)
        invariant fields == NestAll(EntriesInOrder(data, order))
        decreases |remaining|
      {
        var key :| key in remaining;
        ghost var e := Entry(KeyPath(key), data[key]);
        EntriesSplit(data, order, [key]);
        assert EntriesInOrder(data, [key]) == [e];
        NestAllAppend(EntriesInOrder(data, order), e);
        fields := InsertNested(fields, KeyPath(key), Str(data[key]));
        order := order + [key];
        remaining := remaining - {key};
      }
      assert data.Keys - remaining == data.Keys;
      tree := Obj(fields);
      assert tree == TreeFor(data, order);
    }
  }

  // ---- environment source ----

  function LoweredAll(lower: string -> string, parts: seq<string>): seq<string> {
    seq(|parts|, i requires 0 <= i < |parts| => lower(parts[i]))
  }

  /** The path a variable name stands for; `None` when it lacks the prefix. `lower` is the standard
      library's mapping to lower case. */
  function EnvToPath(lower: string -> string, prefix: string, key: string): (path: Option<Path>)
    ensures path.Some? ==> path.value != []
  {
    if !Text.StartsWith(key, prefix) then
      None
    else
      Some(LoweredAll(lower, Text.Split(key[|prefix|..], '_')))
  }

  /** The name is the prefix and then these parts, none with an underscore, joined by underscores. */
  ghost predicate Spells(prefix: string, parts: seq<string>, key: string) {
    && parts != [] && (forall i :: 0 <= i < |parts| ==> '_' !in parts[i])
    && key == prefix + Text.Join(parts, '_')
  }

  /** Key by key, the path has the lower-case forms of these parts. */
  ghost predicate IsLowered(lower: string -> string, parts: seq<string>, path: Path) {
    |path| == |parts| && forall i :: 0 <= i < |parts| ==> path[i] == lower(parts[i])
  }

  /** A name stands for a path exactly if it spells parts whose lower-case forms are that path. */
  lemma EnvPathSpellsTheName(lower: string -> string, prefix: string, key: string, path: Path)
    ensures EnvToPath(lower, prefix, key) == Some(path)
       <==> exists parts :: Spells(prefix, parts, key) && IsLowered(lower, parts, path)
  {
    if EnvToPath(lower, prefix, key) == Some(path) {
      var parts := Text.Split(key[|prefix|..], '_');
      Text.JoinUndoesSplit(key[|prefix|..], '_');
      assert Spells(prefix, parts, key) && IsLowered(lower, parts, path);
    }
    if parts :| Spells(prefix, parts, key) && IsLowered(lower, parts, path) {
      Text.SplitUndoesJoin(parts, '_');
      assert key[|prefix|..] == Text.Join(parts, '_');
      assert path == LoweredAll(lower, parts);
    }
  }

  /** The variables with the prefix, in order, as entries. */
  ghost function EnvEntries(lower: string -> string, prefix: string, vars: seq<(string, string)>): (entries: seq<Entry>)
    ensures Insertable(entries)
  {
    if vars == [] then
      []
    else
      var front, last := EnvEntries(lower, prefix, vars[..|vars| - 1]), vars[|vars| - 1];
      var path := EnvToPath(lower, prefix, last.0);
      if path.Some? then front + [Entry(path.value, last.1)] else front
  }

  /** Variable `i` stands for `p` and holds `x`, and no later variable's path is comparable to `p`. */
  ghost predicate EnvLastWord(lower: string -> string, prefix: string, vars: seq<(string, string)>, i: nat,
                              p: Path, x: Value)
  {
    && i < |vars| && EnvToPath(lower, prefix, vars[i].0) == Some(p) && x == Str(vars[i].1)
    && forall j :: i < j < |vars| ==>
         var path := EnvToPath(lower, prefix, vars[j].0);
         path == None || !Comparable(path.value, p)
  }

  lemma EnvLastWordAppend(lower: string -> string, prefix: string, vars: seq<(string, string)>, last: (string, string),
                          p: Path, x: Value)
    ensures (exists i :: EnvLastWord(lower, prefix, vars + [last], i, p, x))
       <==> (var path := EnvToPath(lower, prefix, last.0);
             (path == Some(p) && x == Str(last.1))
             || ((exists i :: EnvLastWord(lower, prefix, vars, i, p, x))
                 && (path == None || !Comparable(path.value, p))))
  {
    var longer, path := vars + [last], EnvToPath(lower, prefix, last.0);
    if i: nat :| EnvLastWord(lower, prefix, longer, i, p, x) {
      if i < |vars| {
        assert longer[|vars|] == last;
        assert forall j :: i < j < |vars| ==> longer[j] == vars[j];
        assert EnvLastWord(lower, prefix, vars, i, p, x);
      }
    }
    if i: nat :| EnvLastWord(lower, prefix, vars, i, p, x) && (path == None || !Comparable(path.value, p)) {
      assert EnvLastWord(lower, prefix, longer, i, p, x);
    }
    if path == Some(p) && x == Str(last.1) {
      assert EnvLastWord(lower, prefix, longer, |vars|, p, x);
    }
  }

  lemma EnvEntriesAppend(lower: string -> string, prefix: string, vars: seq<(string, string)>, last: (string, string))
    ensures EnvEntries(lower, prefix, vars + [last])
         == EnvEntries(lower, prefix, vars) + (var path := EnvToPath(lower, prefix, last.0);
                                        if path.Some? then [Entry(path.value, last.1)] else [])
  {
    assert (vars + [last])[..|vars|] == vars;
  }

  /** The leaves that the environment contributes: the last variable to touch a path decides. */
  lemma {:induction false} EnvLookup(lower: string -> string, prefix: string, vars: seq<(string, string)>,
                                     p: Path, x: Value)
    ensures HasLeaf(Obj(NestAll(EnvEntries(lower, prefix, vars))), p, x)
       <==> exists i :: EnvLastWord(lower, prefix, vars, i, p, x)
  {
    if vars == [] {
      assert NestAll(EnvEntries(lower, prefix, vars)) == map[];
    } else {
      var front, last := vars[..|vars| - 1], vars[|vars| - 1];
      assert vars == front + [last];
      var entries, path := EnvEntries(lower, prefix, front), EnvToPath(lower, prefix, last.0);
      EnvLookup(lower, prefix, front, p, x);
      EnvLastWordAppend(lower, prefix, front, last, p, x);
      EnvEntriesAppend(lower, prefix, front, last);
      if path.Some? {
        NestAllAppend(entries, Entry(path.value, last.1));
        InsertLookup(NestAll(entries), path.value, Str(last.1), p, x);
      }
    }
  }

  class EnvSource {
    var prefix: string

    constructor ()
      ensures prefix == "OPENCLAW_"
    {
      prefix := "OPENCLAW_";
    }

    method WithPrefix(p: string)
      modifies this
      ensures prefix == p
    {
      prefix := p;
    }

    /** `vars` is the process environment, in the order the system lists it. */
    method Load(lower: string -> string, vars: seq<(string, string)>) returns (tree: Value)
      ensures tree == Obj(NestAll(EnvEntries(lower, prefix, vars)))
    {
      var fields: Fields := map[];
      for i := 0 to |vars|
        invariant fields == NestAll(EnvEntries(lower, prefix, vars[..i]))
      {
        var path := EnvToPath(lower, prefix, vars[i].0);
        assert vars[..i + 1] == vars[..i] + [vars[i]];
        EnvEntriesAppend(lower, prefix, vars[..i], vars[i]);
        if path.Some? {
          NestAllAppend(EnvEntries(lower, prefix, vars[..i]), Entry(path.value, vars[i].1));
          fields := InsertNested(fields, path.value, Str(vars[i].1));
        }
      }
      assert vars[..|vars|] == vars;
      tree := Obj(fields);
    }
  }
}
