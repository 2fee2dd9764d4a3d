/** The line-by-line difference of two configuration values. */
module LineDiff {
  import Text

  datatype DiffLine = Unchanged(line: string) | Added(line: string) | Removed(line: string)

  /** Line by line from the top: equal lines are kept, unequal ones are removed and added. */
  function Diff(before: seq<string>, after: seq<string>): seq<DiffLine> {
    if before != [] && after != [] then
      if before[0] == after[0] then [Unchanged(before[0])] + Diff(before[1..], after[1..])
      else [Removed(before[0]), Added(after[0])] + Diff(before[1..], after[1..])
    else if before != [] then [Removed(before[0])] + Diff(before[1..], after)
    else if after != [] then [Added(after[0])] + Diff(before, after[1..])
    else []
  }

  /** The lines that the difference shows as having been there before. */
  function OldSide(d: seq<DiffLine>): seq<string> {
    if d == [] then [] else (if d[0].Added? then [] else [d[0].line]) + OldSide(d[1..])
  }

  /** The lines that the difference shows as being there now. */
  function NewSide(d: seq<DiffLine>): seq<string> {
    if d == [] then [] else (if d[0].Removed? then [] else [d[0].line]) + NewSide(d[1..])
  }

  /** The number of positions at which the two agree. */
  function Agreements(before: seq<string>, after: seq<string>): nat {
    if before == [] || after == [] then 0
    else (if before[0] == after[0] then 1 else 0) + Agreements(before[1..], after[1..])
  }

  /** Where the difference shows the lines at position `i` of the two texts. */
  function ShownAt(before: seq<string>, after: seq<string>, i: nat): int
    requires i <= |before| && i <= |after|
  {
    2 * i - Agreements(before[..i], after[..i])
  }

  lemma {:induction false} AgreementsOfPrefix(before: seq<string>, after: seq<string>, i: nat)
    requires 0 < i <= |before| && i <= |after|
    ensures ShownAt(before, after, i)
         == ShownAt(before[1..], after[1..], i - 1) + if before[0] == after[0] then 1 else 2
  {
    assert before[..i][1..] == before[1..][..i - 1] && after[..i][1..] == after[1..][..i - 1];
  }

  /** The lines stand in order, position by position: where the texts agree, the line once; where they differ,
      the removed line right before the added one. */
  lemma {:induction false} ShownInPlace(before: seq<string>, after: seq<string>, i: nat)
    requires i < |before| && i < |after|
    ensures var d, at := Diff(before, after), ShownAt(before, after, i);
            && 0 <= at < |d|
            && (before[i] == after[i] ==> d[at] == Unchanged(before[i]))
            && (before[i] != after[i] ==>
                  at + 1 < |d| && d[at] == Removed(before[i]) && d[at + 1] == Added(after[i]))
  {
    if i > 0 {
      ShownInPlace(before[1..], after[1..], i - 1);
      AgreementsOfPrefix(before, after, i);
    }
  }

  lemma {:induction false} RemovedRestInPlace(before: seq<string>, after: seq<string>, i: nat)
    requires |after| <= i < |before|
    ensures var d, at := Diff(before, after), ShownAt(before, after, |after|) + i - |after|;
            0 <= at < |d| && d[at] == Removed(before[i])
  {
    if after != [] {
      RemovedRestInPlace(before[1..], after[1..], i - 1);
      AgreementsOfPrefix(before, after, |after|);
    } else if i > 0 {
      RemovedRestInPlace(before[1..], after, i - 1);
    }
  }

  lemma {:induction false} AddedRestInPlace(before: seq<string>, after: seq<string>, i: nat)
    requires |before| <= i < |after|
    ensures var d, at := Diff(before, after), ShownAt(before, after, |before|) + i - |before|;
            0 <= at < |d| && d[at] == Added(after[i])
  {
    if before != [] {
      AddedRestInPlace(before[1..], after[1..], i - 1);
      AgreementsOfPrefix(before, after, |before|);
    } else if i > 0 {
      AddedRestInPlace(before, after[1..], i - 1);
    }
  }

  /** The lines that only one text has come last, in order. */
  lemma RestInPlace(before: seq<string>, after: seq<string>, i: nat)
    ensures |after| <= i < |before| ==>
              var d, at := Diff(before, after), ShownAt(before, after, |after|) + i - |after|;
              0 <= at < |d| && d[at] == Removed(before[i])
    ensures |before| <= i < |after| ==>
              var d, at := Diff(before, after), ShownAt(before, after, |before|) + i - |before|;
              0 <= at < |d| && d[at] == Added(after[i])
  {
    if |after| <= i < |before| {
      RemovedRestInPlace(before, after, i);
    } else if |before| <= i < |after| {
      AddedRestInPlace(before, after, i);
    }
  }

  lemma SidesOfCons(first: DiffLine, rest: seq<DiffLine>)
    ensures OldSide([first] + rest) == (if first.Added? then [] else [first.line]) + OldSide(rest)
    ensures NewSide([first] + rest) == (if first.Removed? then [] else [first.line]) + NewSide(rest)
  {
    assert ([first] + rest)[1..] == rest;
  }

  /** Both sides of what is emitted for one line of each text. */
  lemma SidesOfPair(before: string, after: string, rest: seq<DiffLine>)
    ensures var first := if before == after then [Unchanged(before)] else [Removed(before), Added(after)];
            OldSide(first + rest) == [before] + OldSide(rest) && NewSide(first + rest) == [after] + NewSide(rest)
  {
    if before == after {
      SidesOfCons(Unchanged(before), rest);
    } else {
      assert [Removed(before), Added(after)] + rest == [Removed(before)] + ([Added(after)] + rest);
      SidesOfCons(Removed(before), [Added(after)] + rest);
      SidesOfCons(Added(after), rest);
    }
  }

  /** Nothing is lost: the difference can be read as the old text or as the new one. */
  lemma {:induction false} DiffHasBothSides(before: seq<string>, after: seq<string>)
    ensures OldSide(Diff(before, after)) == before && NewSide(Diff(before, after)) == after
    ensures |Diff(before, after)| == |before| + |after| - Agreements(before, after)
  {
    if before != [] && after != [] {
      DiffHasBothSides(before[1..], after[1..]);
      SidesOfPair(before[0], after[0], Diff(before[1..], after[1..]));
      assert before == [before[0]] + before[1..] && after == [after[0]] + after[1..];
    } else if before != [] {
      DiffHasBothSides(before[1..], after);
      SidesOfCons(Removed(before[0]), Diff(before[1..], after));
    } else if after != [] {
      DiffHasBothSides(before, after[1..]);
      SidesOfCons(Added(after[0]), Diff(before, after[1..]));
    }
  }

  lemma {:induction false} SidesOfUnchanged(d: seq<DiffLine>)
    requires forall i :: 0 <= i < |d| ==> d[i].Unchanged?
    ensures OldSide(d) == NewSide(d)
  {
    if d != [] {
      SidesOfUnchanged(d[1..]);
    }
  }

  lemma {:induction false} DiffOfEqual(lines: seq<string>)
    ensures forall i :: 0 <= i < |Diff(lines, lines)| ==> Diff(lines, lines)[i].Unchanged?
  {
    if lines != [] {
      DiffOfEqual(lines[1..]);
    }
  }

  /** The difference shows no change exactly if the two texts have the same lines. */
  lemma NoChangeIffSameLines(before: seq<string>, after: seq<string>)
    ensures (forall i :: 0 <= i < |Diff(before, after)| ==> Diff(before, after)[i].Unchanged?) <==> before == after
  {
    DiffHasBothSides(before, after);
    if forall i :: 0 <= i < |Diff(before, after)| ==> Diff(before, after)[i].Unchanged? {
      SidesOfUnchanged(Diff(before, after));
    } else if before == after {
      DiffOfEqual(before);
    }
  }

  /** The lines that the walk emits at positions `i` and `j`. */
  function Emitted(before: seq<string>, after: seq<string>, i: nat, j: nat): seq<DiffLine>
    requires i < |before| || j < |after|
  {
    if i < |before| && j < |after| then
      if before[i] == after[j] then [Unchanged(before[i])] else [Removed(before[i]), Added(after[j])]
    else if i < |before| then [Removed(before[i])]
    else [Added(after[j])]
  }

  lemma OneStepOfDiff(before: seq<string>, after: seq<string>, i: nat, j: nat, result: seq<DiffLine>)
    requires i <= |before| && j <= |after| && (i < |before| || j < |after|)
    ensures result + Diff(before[i..], after[j..])
         == result + Emitted(before, after, i, j)
            + Diff(before[if i < |before| then i + 1 else i..], after[if j < |after| then j + 1 else j..])
  {
    assert i < |before| ==> before[i..][1..] == before[i + 1..];
    assert j < |after| ==> after[j..][1..] == after[j + 1..];
    var i', j' := if i < |before| then i + 1 else i, if j < |after| then j + 1 else j;
    assert Diff(before[i..], after[j..]) == Emitted(before, after, i, j) + Diff(before[i'..], after[j'..]);
  }

  class ConfigDiff {
    const key: string
    const oldValue: string
    const newValue: string

    constructor (k: string, before: string, after: string)
      ensures key == k && oldValue == before && newValue == after
    {
      key, oldValue, newValue := k, before, after;
    }

    static method Walk(oldLines: seq<string>, newLines: seq<string>) returns (result: seq<DiffLine>)
      ensures result == Diff(oldLines, newLines)
    {
      result := [];
      var i, j := 0, 0;
      while i < |oldLines| || j < |newLines|
        invariant i <= |oldLines| && j <= |newLines|
        invariant result + Diff(oldLines[i..], newLines[j..]) == Diff(oldLines, newLines)
        decreases |oldLines| - i + |newLines| - j
      {
        ghost var shown := result;
        OneStepOfDiff(oldLines, newLines, i, j, shown);
        if i < |oldLines| && j < |newLines| {
          if oldLines[i] == newLines[j] {
            result := result + [Unchanged(oldLines[i])];
          } else {
            result := result + [Removed(oldLines[i])];
            result := result + [Added(newLines[j])];
          }
          assert result == shown + Emitted(oldLines, newLines, i, j);
          i, j := i + 1, j + 1;
        } else if i < |oldLines| {
          result := result + [Removed(oldLines[i])];
          i := i + 1;
        } else {
          result := result + [Added(newLines[j])];
          j := j + 1;
        }
      }
    }

    /** Walks both values' lines with two iterators until both are exhausted. */
    method LineByLine() returns (result: seq<DiffLine>)
      ensures result == Diff(Text.Lines(oldValue), Text.Lines(newValue))
      ensures OldSide(result) == Text.Lines(oldValue) && NewSide(result) == Text.Lines(newValue)
      ensures |result| == |Text.Lines(oldValue)| + |Text.Lines(newValue)|
                          - Agreements(Text.Lines(oldValue), Text.Lines(newValue))
    {
      var oldLines, newLines := Text.Lines(oldValue), Text.Lines(newValue);
      result := Walk(oldLines, newLines);
      DiffHasBothSides(oldLines, newLines);
    }
  }
}
