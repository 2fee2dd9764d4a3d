/** JSON values as trees, the recursive overlay of one tree on another, and its algebra. */
module JsonTree {
  import opened Prelude

  /** A JSON value. An object's entries are an unordered map; a number is kept as its literal. */
  datatype Value =
    | Null
    | Bool(b: bool)
    | Number(literal: string)
    | Str(s: string)
    | Arr(items: seq<Value>)
    | Obj(fields: map<string, Value>)

  type Path = seq<string>

  /** The value found by following `path` through nested objects. */
  function At(v: Value, path: Path): Option<Value>
    decreases |path|
  {
    if path == [] then Some(v)
    else if v.Obj? && path[0] in v.fields then At(v.fields[path[0]], path[1..])
    else None
  }

  /** `v` says nothing about `path`: the walk reaches an object that lacks the next key.
      (A walk that is stopped by a non-object is not silent: that value hides what is below it.) */
  predicate Silent(v: Value, path: Path)
    decreases |path|
  {
    path != [] && v.Obj? && (path[0] !in v.fields || Silent(v.fields[path[0]], path[1..]))
  }

  /** `v` has the non-object value `leaf` at `path`. */
  predicate HasLeaf(v: Value, path: Path, leaf: Value) {
    !leaf.Obj? && At(v, path) == Some(leaf)
  }

  /** The recursive overlay: objects are merged key by key, anything else is replaced. */
  function Merge(base: Value, overlay: Value): Value {
    if base.Obj? && overlay.Obj? then
      Obj(map k | k in base.fields.Keys + overlay.fields.Keys ::
            if k !in overlay.fields then base.fields[k]
            else if k !in base.fields then overlay.fields[k]
            else Merge(base.fields[k], overlay.fields[k]))
    else
      overlay
  }

  /** A merged tree has a leaf exactly where the overlay has it, or where the base has it
      and the overlay is silent. */
  lemma {:induction false} MergeLookup(base: Value, overlay: Value, path: Path, leaf: Value)
    requires !leaf.Obj?
    ensures HasLeaf(Merge(base, overlay), path, leaf)
       <==> HasLeaf(overlay, path, leaf) || (HasLeaf(base, path, leaf) && Silent(overlay, path))
    decreases |path|
  {
    if path != [] && base.Obj? && overlay.Obj? && path[0] in base.fields && path[0] in overlay.fields {
      MergeLookup(base.fields[path[0]], overlay.fields[path[0]], path[1..], leaf);
    }
  }

  lemma {:induction false} MergeSelf(v: Value)
    ensures Merge(v, v) == v
  {
    if v.Obj? {
      forall k | k in v.fields ensures Merge(v.fields[k], v.fields[k]) == v.fields[k] {
        MergeSelf(v.fields[k]);
      }
      assert Merge(v, v).fields == v.fields;
    }
  }

  /** `v` has an object at `path`. */
  predicate HasObject(v: Value, path: Path) {
    At(v, path).Some? && At(v, path).value.Obj?
  }

  /** It has an object exactly where the overlay has one, or where the base has one and the overlay is silent. */
  lemma {:induction false} MergeObjects(base: Value, overlay: Value, path: Path)
    ensures HasObject(Merge(base, overlay), path)
       <==> HasObject(overlay, path) || (HasObject(base, path) && Silent(overlay, path))
    decreases |path|
  {
    if path != [] && base.Obj? && overlay.Obj? && path[0] in base.fields && path[0] in overlay.fields {
      MergeObjects(base.fields[path[0]], overlay.fields[path[0]], path[1..]);
    }
  }

  /** Merging the same overlay a second time changes nothing. */
  lemma {:induction false} MergeIdempotent(base: Value, overlay: Value)
    ensures Merge(Merge(base, overlay), overlay) == Merge(base, overlay)
    decreases overlay
  {
    if overlay.Obj? {
      if base.Obj? {
        var once := Merge(base, overlay);
        forall k | k in overlay.fields
          ensures Merge(once.fields[k], overlay.fields[k]) == once.fields[k]
        {
          if k in base.fields {
            MergeIdempotent(base.fields[k], overlay.fields[k]);
          } else {
            MergeSelf(overlay.fields[k]);
          }
        }
        assert Merge(once, overlay).fields == once.fields;
      } else {
        MergeSelf(overlay);
      }
    }
  }

  /** Every key of the object `a` is also in the object `c`, and so on where both hold objects. */
  predicate CoveredBy(a: Value, c: Value)
    requires a.Obj? && c.Obj?
  {
    forall k | k in a.fields ::
      k in c.fields && (a.fields[k].Obj? && c.fields[k].Obj? ==> CoveredBy(a.fields[k], c.fields[k]))
  }

  /** An overlay wipes out the whole base exactly when it covers it. */
  lemma {:induction false} OverlayWinsIffCovering(a: Value, c: Value)
    requires a.Obj? && c.Obj?
    ensures Merge(a, c) == c <==> CoveredBy(a, c)
  {
    var m := Merge(a, c);
    forall k | k in a.fields && k in c.fields && a.fields[k].Obj? && c.fields[k].Obj?
      ensures Merge(a.fields[k], c.fields[k]) == c.fields[k] <==> CoveredBy(a.fields[k], c.fields[k])
    {
      OverlayWinsIffCovering(a.fields[k], c.fields[k]);
    }
    if m == c {
      forall k | k in a.fields ensures k in c.fields && m.fields[k] == c.fields[k] {
        assert k in m.fields;
      }
    }
    if CoveredBy(a, c) {
      forall k | k in c.fields ensures m.fields[k] == c.fields[k] {
        if k in a.fields && !(a.fields[k].Obj? && c.fields[k].Obj?) {
          assert Merge(a.fields[k], c.fields[k]) == c.fields[k];
        }
      }
      assert m.fields == c.fields;
    }
  }

  /** When the grouping of three layers does not matter: wherever the first and the last hold
      objects, the middle one holds an object too, or the last covers the first there. */
  predicate GroupingIsFree(a: Value, b: Value, c: Value) {
    a.Obj? && c.Obj? ==>
      if b.Obj? then
        forall k | k in a.fields && k in b.fields && k in c.fields ::
          GroupingIsFree(a.fields[k], b.fields[k], c.fields[k])
      else
        CoveredBy(a, c)
  }

  /** Merging is associative on exactly those triples. */
  lemma {:induction false} MergeAssociativeIff(a: Value, b: Value, c: Value)
    ensures Merge(Merge(a, b), c) == Merge(a, Merge(b, c)) <==> GroupingIsFree(a, b, c)
    decreases a
  {
    if a.Obj? && c.Obj? {
      if b.Obj? {
        var left, right := Merge(Merge(a, b), c), Merge(a, Merge(b, c));
        var shared := a.fields.Keys * b.fields.Keys * c.fields.Keys;
        forall k | k in shared
          ensures left.fields[k] == right.fields[k]
             <==> GroupingIsFree(a.fields[k], b.fields[k], c.fields[k])
        {
          MergeAssociativeIff(a.fields[k], b.fields[k], c.fields[k]);
        }
        assert left.fields.Keys == right.fields.Keys;
        assert forall k | k in left.fields && k !in shared :: left.fields[k] == right.fields[k];
        if GroupingIsFree(a, b, c) {
          assert left.fields == right.fields;
        }
        if left == right {
          forall k | k in shared ensures left.fields[k] == right.fields[k] {
          }
        }
      } else {
        OverlayWinsIffCovering(a, c);
      }
    }
  }

  /** A null between two objects: merged from the left the first object is gone, from the right it shows. */
  lemma GroupingCanMatter(key: string, v: Value)
    ensures var a, b, c := Obj(map[key := v]), Null, Obj(map[]);
            Merge(Merge(a, b), c) == c && Merge(a, Merge(b, c)) == a && a != c
  {
    var a := Obj(map[key := v]);
    assert key in a.fields;
    assert Merge(a, Obj(map[])).fields == a.fields;
  }

  /** The tree that holds `leaf` at `path` and nothing else. */
  function Branch(path: Path, leaf: Value): Value
    decreases |path|
  {
    if path == [] then leaf else Obj(map[path[0] := Branch(path[1..], leaf)])
  }

  /** One of the two paths begins with the other. */
  predicate Comparable(p: Path, q: Path) {
    p <= q || q <= p
  }

  lemma ComparableTails(p: Path, q: Path)
    requires p != [] && q != []
    ensures Comparable(p, q) <==> p[0] == q[0] && Comparable(p[1..], q[1..])
  {
    assert p == [p[0]] + p[1..] && q == [q[0]] + q[1..];
  }

  /** A branch has one leaf, and is silent exactly at the paths that leave its own. */
  lemma {:induction false} BranchLookup(path: Path, leaf: Value, q: Path, x: Value)
    requires !leaf.Obj?
    ensures HasLeaf(Branch(path, leaf), q, x) <==> q == path && x == leaf
    ensures Silent(Branch(path, leaf), q) <==> !Comparable(path, q)
    decreases |path|
  {
    if path != [] && q != [] {
      BranchLookup(path[1..], leaf, q[1..], x);
      ComparableTails(path, q);
      assert path == [path[0]] + path[1..] && q == [q[0]] + q[1..];
    }
  }
}
