/** The two result shapes the repository's code returns everywhere: Rust's `Option` and `Result`. */
module Prelude {

  datatype Option<+T> = None | Some(value: T)

  datatype Result<+T, +E> = Ok(value: T) | Err(error: E)

  /** No element occurs twice. */
  ghost predicate Distinct<T>(xs: seq<T>) {
    forall i, j :: 0 <= i < j < |xs| ==> xs[i] != xs[j]
  }

  /** The list without the element at position `i`. */
  function RemoveAt<T>(xs: seq<T>, i: nat): seq<T>
    requires i < |xs|
  {
    xs[..i] + xs[i + 1..]
  }

  /** `r` lists each element of `s` exactly once: one of the orders in which an unordered
      hash map may hand out its keys. */
  ghost predicate Enumerates<T(!new)>(r: seq<T>, s: set<T>) {
    (forall x :: x in r <==> x in s) && Distinct(r)
  }

  /** Every finite set has an enumeration. */
  lemma {:induction false} EnumerationExists<T(!new)>(s: set<T>) returns (r: seq<T>)
    ensures Enumerates(r, s)
    decreases |s|
  {
    if s == {} {
      r := [];
    } else {
      var x :| x in s;
      var rest := EnumerationExists(s - {x});
      r := rest + [x];
    }
  }

  /** The keys of a hash map, in the order it happens to hand them out. */
  method CollectKeys<T(==, !new)>(keys: set<T>) returns (r: seq<T>)
    ensures Enumerates(r, keys)
  {
    r := [];
    var remaining := keys;
    while remaining != {}
      invariant remaining <= keys
      invariant Enumerates(r, keys - remaining)
      decreases remaining
    {
      var k :| k in remaining;
      r := r + [k];
      remaining := remaining - {k};
    }
    assert keys - remaining == keys;
  }

  // ---- runs of a machine ----

  /** The state after these events. */
  ghost function Fold<S, E>(step: (S, E) -> S, s: S, events: seq<E>): S
    decreases |events|
  {
    if events == [] then s else Fold(step, step(s, events[0]), events[1..])
  }

  lemma {:induction false} FoldConcat<S, E>(step: (S, E) -> S, s: S, a: seq<E>, b: seq<E>)
    ensures Fold(step, s, a + b) == Fold(step, Fold(step, s, a), b)
    decreases |a|
  {
    if a == [] {
      assert a + b == b;
    } else {
      FoldConcat(step, step(s, a[0]), a[1..], b);
      assert (a + b)[1..] == a[1..] + b;
    }
  }

  lemma FoldOne<S, E>(step: (S, E) -> S, s: S, e: E)
    ensures Fold(step, s, [e]) == step(s, e)
  {
    assert [e][1..] == [];
  }

  lemma FoldTwo<S, E>(step: (S, E) -> S, s: S, e: E, f: E)
    ensures Fold(step, s, [e, f]) == step(step(s, e), f)
  {
    FoldConcat(step, s, [e], [f]);
    FoldOne(step, s, e);
    FoldOne(step, step(s, e), f);
    assert [e] + [f] == [e, f];
  }

  lemma FoldFour<S, E>(step: (S, E) -> S, s: S, e: E, f: E, g: E, h: E)
    ensures Fold(step, s, [e, f, g, h]) == step(step(step(step(s, e), f), g), h)
  {
    FoldConcat(step, s, [e, f], [g, h]);
    FoldTwo(step, s, e, f);
    FoldTwo(step, step(step(s, e), f), g, h);
    assert [e, f] + [g, h] == [e, f, g, h];
  }
}
