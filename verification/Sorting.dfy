/** Rust's `sort` and `sort_by` (stable), and `dedup`, with the facts that make their results unique. */
module Sorting {
  import opened Prelude

  /** A comparison that every two elements pass one way or the other, and that chains. */
  ghost predicate IsPreorder<T(!new)>(leq: (T, T) -> bool) {
    && (forall a, b :: leq(a, b) || leq(b, a))
    && (forall a, b, c :: leq(a, b) && leq(b, c) ==> leq(a, c))
  }

  ghost predicate Sorted<T>(xs: seq<T>, leq: (T, T) -> bool) {
    forall i, j :: 0 <= i < j < |xs| ==> leq(xs[i], xs[j])
  }

  ghost predicate StrictlySorted<T>(xs: seq<T>, leq: (T, T) -> bool) {
    forall i, j :: 0 <= i < j < |xs| ==> leq(xs[i], xs[j]) && !leq(xs[j], xs[i])
  }

  function Insert<T>(x: T, xs: seq<T>, leq: (T, T) -> bool): seq<T> {
    if xs == [] || leq(x, xs[0]) then [x] + xs else [xs[0]] + Insert(x, xs[1..], leq)
  }

  /** The stable sort of `xs`: elements that compare equal keep their order. */
  function SortBy<T>(xs: seq<T>, leq: (T, T) -> bool): seq<T> {
    if xs == [] then [] else Insert(xs[0], SortBy(xs[1..], leq), leq)
  }

  lemma {:induction false} InsertPermutes<T>(x: T, xs: seq<T>, leq: (T, T) -> bool)
    ensures multiset(Insert(x, xs, leq)) == multiset{x} + multiset(xs)
  {
    if xs != [] && !leq(x, xs[0]) {
      InsertPermutes(x, xs[1..], leq);
      assert xs == [xs[0]] + xs[1..];
    }
  }

  lemma {:induction false} InsertSorts<T(!new)>(x: T, xs: seq<T>, leq: (T, T) -> bool)
    requires IsPreorder(leq) && Sorted(xs, leq)
    ensures Sorted(Insert(x, xs, leq), leq)
  {
    if xs != [] && !leq(x, xs[0]) {
      var rest := Insert(x, xs[1..], leq);
      InsertSorts(x, xs[1..], leq);
      forall j | 0 <= j < |rest| ensures leq(xs[0], rest[j]) {
        InsertPermutes(x, xs[1..], leq);
        assert rest[j] in multiset(rest);
        assert rest[j] == x || rest[j] in xs[1..];
      }
    }
  }

  lemma {:induction false} SortByPermutes<T>(xs: seq<T>, leq: (T, T) -> bool)
    ensures multiset(SortBy(xs, leq)) == multiset(xs)
    ensures |SortBy(xs, leq)| == |xs|
    ensures forall x :: x in SortBy(xs, leq) <==> x in xs
  {
    if xs != [] {
      SortByPermutes(xs[1..], leq);
      InsertPermutes(xs[0], SortBy(xs[1..], leq), leq);
      assert xs == [xs[0]] + xs[1..];
    }
    assert |multiset(SortBy(xs, leq))| == |multiset(xs)|;
    forall x ensures x in SortBy(xs, leq) <==> x in xs {
      assert x in multiset(SortBy(xs, leq)) <==> x in multiset(xs);
    }
  }

  lemma {:induction false} SortBySorts<T(!new)>(xs: seq<T>, leq: (T, T) -> bool)
    requires IsPreorder(leq)
    ensures Sorted(SortBy(xs, leq), leq)
  {
    if xs != [] {
      SortBySorts(xs[1..], leq);
      InsertSorts(xs[0], SortBy(xs[1..], leq), leq);
    }
  }

  function Selected<T>(xs: seq<T>, p: T -> bool): seq<T> {
    if xs == [] then [] else (if p(xs[0]) then [xs[0]] else []) + Selected(xs[1..], p)
  }

  function Tied<T>(leq: (T, T) -> bool, e: T): T -> bool {
    y => leq(y, e) && leq(e, y)
  }

  lemma {:induction false} InsertIsStable<T(!new)>(x: T, xs: seq<T>, leq: (T, T) -> bool, e: T)
    requires IsPreorder(leq)
    ensures Selected(Insert(x, xs, leq), Tied(leq, e)) == Selected([x] + xs, Tied(leq, e))
  {
    var tied := Tied(leq, e);
    assert ([x] + xs)[1..] == xs;
    if xs != [] && !leq(x, xs[0]) {
      InsertIsStable(x, xs[1..], leq, e);
      assert ([x] + xs[1..])[1..] == xs[1..];
      assert ([xs[0]] + Insert(x, xs[1..], leq))[1..] == Insert(x, xs[1..], leq);
      assert !(tied(x) && tied(xs[0]));
    }
  }

  /** Elements that tie with any given one keep their order. */
  lemma {:induction false} SortByIsStable<T(!new)>(xs: seq<T>, leq: (T, T) -> bool, e: T)
    requires IsPreorder(leq)
    ensures Selected(SortBy(xs, leq), Tied(leq, e)) == Selected(xs, Tied(leq, e))
  {
    if xs != [] {
      SortByIsStable(xs[1..], leq, e);
      InsertIsStable(xs[0], SortBy(xs[1..], leq), leq, e);
      assert ([xs[0]] + SortBy(xs[1..], leq))[1..] == SortBy(xs[1..], leq);
    }
  }

  lemma HeadIsNotInTail<T>(xs: seq<T>, leq: (T, T) -> bool)
    requires StrictlySorted(xs, leq) && xs != []
    ensures xs[0] !in xs[1..]
  {
    forall j | 0 <= j < |xs[1..]| ensures xs[1..][j] != xs[0] {
      assert xs[1..][j] == xs[j + 1];
    }
  }

  /** There is only one strictly sorted list of given elements. */
  lemma {:induction false} StrictlySortedIsUnique<T>(xs: seq<T>, ys: seq<T>, leq: (T, T) -> bool)
    requires StrictlySorted(xs, leq) && StrictlySorted(ys, leq)
    requires forall x :: x in xs <==> x in ys
    ensures xs == ys
  {
    assert ys != [] ==> ys[0] in xs;
    if xs != [] {
      assert xs[0] in ys && ys != [];
      assert xs[0] == ys[0];
      HeadIsNotInTail(xs, leq);
      HeadIsNotInTail(ys, leq);
      forall x ensures x in xs[1..] <==> x in ys[1..] {
        assert x in xs <==> x == xs[0] || x in xs[1..];
        assert x in ys <==> x == ys[0] || x in ys[1..];
        assert xs[0] !in xs[1..] && ys[0] !in ys[1..];
      }
      StrictlySortedIsUnique(xs[1..], ys[1..], leq);
      assert xs == [xs[0]] + xs[1..] && ys == [ys[0]] + ys[1..];
    }
  }

  /** `Vec::dedup`: of equal neighbours only the first stays. */
  function Dedup<T(==)>(xs: seq<T>): seq<T> {
    if |xs| < 2 then xs
    else if xs[0] == xs[1] then Dedup(xs[1..])
    else [xs[0]] + Dedup(xs[1..])
  }

  lemma {:induction false} DedupKeepsElements<T>(xs: seq<T>)
    ensures forall x :: x in Dedup(xs) <==> x in xs
    ensures xs != [] ==> Dedup(xs) != [] && Dedup(xs)[0] == xs[0]
  {
    if |xs| >= 2 {
      DedupKeepsElements(xs[1..]);
      forall x ensures x in xs <==> x == xs[0] || x in xs[1..] {
        assert xs == [xs[0]] + xs[1..];
      }
      assert xs[1] in xs[1..];
    }
  }

  /** After sorting, removing equal neighbours removes all duplicates. */
  lemma {:induction false} DedupOfSorted<T(!new)>(xs: seq<T>, leq: (T, T) -> bool)
    requires IsPreorder(leq) && Sorted(xs, leq)
    requires forall a, b :: leq(a, b) && leq(b, a) ==> a == b
    ensures StrictlySorted(Dedup(xs), leq)
  {
    if |xs| >= 2 {
      DedupOfSorted(xs[1..], leq);
      DedupKeepsElements(xs[1..]);
      if xs[0] != xs[1] {
        var rest := Dedup(xs[1..]);
        forall j | 0 <= j < |rest| ensures leq(xs[0], rest[j]) && !leq(rest[j], xs[0]) {
          assert rest[j] in xs[1..];
          assert leq(xs[1], rest[j]);
          assert leq(xs[0], xs[1]);
        }
      }
    }
  }

  lemma OccursTwice<T>(xs: seq<T>, i: nat, j: nat)
    requires i < j < |xs| && xs[i] == xs[j]
    ensures multiset(xs)[xs[i]] >= 2
  {
    assert xs == xs[..i] + [xs[i]] + xs[i + 1..j] + [xs[j]] + xs[j + 1..];
  }

  lemma {:induction false} OccursOnce<T>(xs: seq<T>, x: T)
    requires Distinct(xs)
    ensures multiset(xs)[x] <= 1
  {
    if xs != [] {
      OccursOnce(xs[1..], x);
      assert xs == [xs[0]] + xs[1..];
      if x == xs[0] {
        assert x !in xs[1..];
      }
    }
  }

  lemma SortByKeepsDistinct<T(!new)>(xs: seq<T>, leq: (T, T) -> bool)
    requires Distinct(xs)
    ensures |SortBy(xs, leq)| == |xs|
    ensures Distinct(SortBy(xs, leq))
  {
    var ys := SortBy(xs, leq);
    SortByPermutes(xs, leq);
    forall i, j | 0 <= i < j < |ys| ensures ys[i] != ys[j] {
      if ys[i] == ys[j] {
        OccursTwice(ys, i, j);
        OccursOnce(xs, ys[i]);
      }
    }
  }

  /** Sorting elements that differ pairwise leaves no ties. */
  lemma {:induction false} SortByOfDistinct<T(!new)>(xs: seq<T>, leq: (T, T) -> bool)
    requires IsPreorder(leq)
    requires Distinct(xs)
    requires forall a, b :: a in xs && b in xs && leq(a, b) && leq(b, a) ==> a == b
    ensures StrictlySorted(SortBy(xs, leq), leq)
  {
    SortBySorts(xs, leq);
    SortByPermutes(xs, leq);
    SortByKeepsDistinct(xs, leq);
  }
}
