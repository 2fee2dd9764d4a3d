/** The string operations of Rust's standard library that the modelled code relies on. */
module Text {

  /** `str::split` on one character: never empty, and a trailing separator yields a last empty part. */
  function Split(s: string, sep: char): (parts: seq<string>)
    ensures |parts| >= 1
    ensures forall i :: 0 <= i < |parts| ==> sep !in parts[i]
  {
    if s == "" then
      [""]
    else
      var rest := Split(s[1..], sep);
      if s[0] == sep then [""] + rest else [[s[0]] + rest[0]] + rest[1..]
  }

  /** The parts with one separator between each two of them. */
  function Join(parts: seq<string>, sep: char): string
    requires |parts| >= 1
  {
    if |parts| == 1 then parts[0] else parts[0] + [sep] + Join(parts[1..], sep)
  }

  /** Splitting loses nothing. */
  lemma {:induction false} JoinUndoesSplit(s: string, sep: char)
    ensures Join(Split(s, sep), sep) == s
  {
    if s != "" {
      JoinUndoesSplit(s[1..], sep);
      var rest := Split(s[1..], sep);
      if s[0] == sep {
        assert ([""] + rest)[1..] == rest;
      } else {
        var parts := [[s[0]] + rest[0]] + rest[1..];
        assert parts[1..] == rest[1..];
      }
    }
  }

  lemma {:induction false} SplitOfJoin(parts: seq<string>, sep: char)
    requires |parts| >= 1
    requires forall i :: 0 <= i < |parts| ==> sep !in parts[i]
    ensures Split(Join(parts, sep), sep) == parts
    decreases |parts|, |parts[0]|
  {
    var s := Join(parts, sep);
    if parts[0] == "" {
      if |parts| > 1 {
        assert s[1..] == Join(parts[1..], sep);
        SplitOfJoin(parts[1..], sep);
      }
    } else {
      var shorter := [parts[0][1..]] + parts[1..];
      assert s[0] == parts[0][0];
      assert s[1..] == Join(shorter, sep) by {
        assert shorter[1..] == parts[1..];
      }
      SplitOfJoin(shorter, sep);
      assert [s[0]] + shorter[0] == parts[0];
      assert [parts[0]] + shorter[1..] == parts;
    }
  }

  /** Splitting undoes joining exactly when no part contains the separator. */
  lemma {:induction false} SplitUndoesJoin(parts: seq<string>, sep: char)
    requires |parts| >= 1
    ensures Split(Join(parts, sep), sep) == parts <==> forall i :: 0 <= i < |parts| ==> sep !in parts[i]
  {
    if forall i :: 0 <= i < |parts| ==> sep !in parts[i] {
      SplitOfJoin(parts, sep);
    }
  }

  /** `str::starts_with` */
  predicate StartsWith(s: string, prefix: string) {
    prefix <= s
  }

  /** The position of the first `c` in `s`, or the length of `s`. */
  function Find(s: string, c: char): (i: nat)
    ensures i <= |s|
    ensures forall j :: 0 <= j < i ==> s[j] != c
    ensures i < |s| ==> s[i] == c
  {
    if s == "" || s[0] == c then 0 else 1 + Find(s[1..], c)
  }

  function StripCr(line: string): string {
    if line != "" && line[|line| - 1] == '\r' then line[..|line| - 1] else line
  }

  /** `str::lines`: a line ends with LF or CR LF, and the last line need not have an ending. */
  function Lines(s: string): seq<string> {
    if s == "" then
      []
    else
      var i := Find(s, '\n');
      if i == |s| then [s] else [StripCr(s[..i])] + Lines(s[i + 1..])
  }

  predicate EndsWith(s: string, c: char) {
    s != "" && s[|s| - 1] == c
  }

  function WithoutFinalLf(s: string): string {
    if EndsWith(s, '\n') then s[..|s| - 1] else s
  }

  lemma JoinCons(head: string, rest: seq<string>, sep: char)
    requires rest != []
    ensures Join([head] + rest, sep) == head + [sep] + Join(rest, sep)
  {
    assert ([head] + rest)[1..] == rest;
  }

  lemma FinalLfOfTail(head: string, tail: string)
    requires tail != ""
    ensures WithoutFinalLf(head + tail) == head + WithoutFinalLf(tail)
  {
  }

  /** A line without line ends, followed by LF, is the first of the lines. */
  lemma FirstLine(line: string, rest: string)
    requires '\n' !in line && '\r' !in line
    ensures Lines(line + ['\n'] + rest) == [line] + Lines(rest)
  {
    var s := line + ['\n'] + rest;
    assert forall j :: 0 <= j < |line| ==> s[j] == line[j];
    assert s[|line|] == '\n';
    assert Find(s, '\n') == |line| && s[..|line|] == line && s[|line| + 1..] == rest;
  }

  lemma CutAtLf(s: string) returns (line: string, rest: string)
    requires '\r' !in s && Find(s, '\n') < |s|
    ensures s == line + ['\n'] + rest && '\n' !in line && '\r' !in line && '\r' !in rest
  {
    var i := Find(s, '\n');
    line, rest := s[..i], s[i + 1..];
    assert forall c :: c in line ==> c in s;
    assert forall c :: c in rest ==> c in s;
  }

  lemma OneLineOnly(s: string)
    requires s != "" && Find(s, '\n') == |s|
    ensures Lines(s) == [s] && WithoutFinalLf(s) == s && '\n' !in s
  {
  }

  lemma LastLine(line: string)
    ensures [line] + Lines("") == [line] && WithoutFinalLf(line + ['\n'] + "") == line
  {
    assert line + ['\n'] + "" == line + ['\n'];
  }

  /** On CR-free text, `lines` loses only a final line ending. */
  lemma {:induction false} LinesLoseOnlyAFinalLf(s: string)
    requires '\r' !in s && s != ""
    ensures Lines(s) != [] && Join(Lines(s), '\n') == WithoutFinalLf(s)
    decreases |s|
  {
    if Find(s, '\n') == |s| {
      OneLineOnly(s);
    } else {
      var line, rest := CutAtLf(s);
      FirstLine(line, rest);
      if rest == "" {
        LastLine(line);
      } else {
        LinesLoseOnlyAFinalLf(rest);
        JoinCons(line, Lines(rest), '\n');
        FinalLfOfTail(line + ['\n'], rest);
      }
    }
  }

  lemma {:induction false} LinesHaveNoEndings(s: string)
    requires '\r' !in s
    ensures forall i :: 0 <= i < |Lines(s)| ==> '\n' !in Lines(s)[i] && '\r' !in Lines(s)[i]
    decreases |s|
  {
    if s != "" {
      if Find(s, '\n') == |s| {
        OneLineOnly(s);
      } else {
        var line, rest := CutAtLf(s);
        FirstLine(line, rest);
        LinesHaveNoEndings(rest);
      }
    }
  }

  /** Each line followed by this line end. */
  function WithEndings(lines: seq<string>, ending: string): string {
    if lines == [] then "" else lines[0] + ending + WithEndings(lines[1..], ending)
  }

  lemma FirstLfLine(line: string, rest: string)
    requires '\n' !in line
    ensures Lines(line + "\n" + rest) == [StripCr(line)] + Lines(rest)
  {
    var s := line + "\n" + rest;
    assert forall j :: 0 <= j < |line| ==> s[j] == line[j];
    assert s[|line|] == '\n';
    assert Find(s, '\n') == |line| && s[..|line|] == line && s[|line| + 1..] == rest;
  }

  lemma FirstCrLfLine(line: string, rest: string)
    requires '\n' !in line
    ensures Lines(line + "\r\n" + rest) == [line] + Lines(rest)
  {
    var ended := line + "\r";
    assert line + "\r\n" + rest == ended + "\n" + rest;
    FirstLfLine(ended, rest);
    assert ended[..|line|] == line;
  }

  /** The last line, unless there is nothing left. */
  function LastIfAny(last: string): seq<string> {
    if last == "" then [] else [last]
  }

  lemma NoLfOneLine(last: string)
    requires '\n' !in last
    ensures Lines(last) == LastIfAny(last)
  {
    assert last != "" ==> Find(last, '\n') == |last|;
  }

  lemma WithEndingsSplit(lines: seq<string>, ending: string, last: string)
    requires lines != []
    ensures WithEndings(lines, ending) + last == lines[0] + ending + (WithEndings(lines[1..], ending) + last)
  {
  }

  lemma FirstAndOthers(lines: seq<string>, last: seq<string>)
    requires lines != []
    ensures lines + last == [lines[0]] + (lines[1..] + last)
  {
  }

  /** A CR LF line end is taken off whole, and only there: any lines without LF, ended by CR LF, are read back,
      also lines that end in CR themselves, and a last line without LF is kept as it is. */
  lemma {:induction false} CrLfLinesAreReadBack(lines: seq<string>, last: string)
    requires (forall i :: 0 <= i < |lines| ==> '\n' !in lines[i]) && '\n' !in last
    ensures Lines(WithEndings(lines, "\r\n") + last) == lines + LastIfAny(last)
  {
    if lines == [] {
      assert WithEndings(lines, "\r\n") + last == last;
      assert lines + LastIfAny(last) == LastIfAny(last);
      NoLfOneLine(last);
    } else {
      WithEndingsSplit(lines, "\r\n", last);
      FirstCrLfLine(lines[0], WithEndings(lines[1..], "\r\n") + last);
      CrLfLinesAreReadBack(lines[1..], last);
      FirstAndOthers(lines, LastIfAny(last));
    }
  }

  lemma StripsCrIff(line: string)
    ensures StripCr(line) == line <==> !EndsWith(line, '\r')
  {
  }

  lemma ConsEqualIff(x: string, xs: seq<string>, ys: seq<string>)
    requires ys != []
    ensures [x] + xs == ys <==> x == ys[0] && xs == ys[1..]
  {
    assert ([x] + xs)[1..] == xs && ys == [ys[0]] + ys[1..];
  }

  /** Lines ended by LF are read back exactly if none of them ends in CR. */
  lemma {:induction false} LfLinesAreReadBackIff(lines: seq<string>)
    requires forall i :: 0 <= i < |lines| ==> '\n' !in lines[i]
    ensures Lines(WithEndings(lines, "\n")) == lines <==> forall i :: 0 <= i < |lines| ==> !EndsWith(lines[i], '\r')
  {
    if lines != [] {
      var rest := WithEndings(lines[1..], "\n");
      FirstLfLine(lines[0], rest);
      LfLinesAreReadBackIff(lines[1..]);
      StripsCrIff(lines[0]);
      ConsEqualIff(StripCr(lines[0]), Lines(rest), lines);
      assert (forall i :: 0 <= i < |lines| ==> !EndsWith(lines[i], '\r'))
        <==> !EndsWith(lines[0], '\r') && forall i :: 0 <= i < |lines[1..]| ==> !EndsWith(lines[1..][i], '\r') by {
        assert forall i :: 1 <= i < |lines| ==> lines[i] == lines[1..][i - 1];
      }
    }
  }

  /** The characters with the Unicode property White_Space, which `str::trim` removes. */
  predicate IsWhiteSpace(c: char) {
    var n := c as int;
    || 0x09 <= n <= 0x0D || n == 0x20 || n == 0x85 || n == 0xA0 || n == 0x1680
    || 0x2000 <= n <= 0x200A || n == 0x2028 || n == 0x2029 || n == 0x202F || n == 0x205F || n == 0x3000
  }

  /** They are tab, LF, vertical tab, form feed, CR, space, next line, no-break space, and the spaces and
      separators of the blocks for Ogham, general punctuation and CJK. */
  lemma WhiteSpaceIs(c: char)
    ensures IsWhiteSpace(c)
       <==> c in "\t\n\U{000B}\U{000C}\r \U{0085}\U{00A0}\U{1680}\U{2028}\U{2029}\U{202F}\U{205F}\U{3000}"
            || '\U{2000}' <= c <= '\U{200A}'
  {
    var listed := "\t\n\U{000B}\U{000C}\r \U{0085}\U{00A0}\U{1680}\U{2028}\U{2029}\U{202F}\U{205F}\U{3000}";
    if IsWhiteSpace(c) {
      assert c as int < 0x2000 || c as int > 0x200A ==>
          exists i :: 0 <= i < |listed| && listed[i] == c by {
        assert listed[0] == '\t' && listed[1] == '\n' && listed[2] == '\U{000B}' && listed[3] == '\U{000C}';
        assert listed[4] == '\r' && listed[5] == ' ' && listed[6] == '\U{0085}' && listed[7] == '\U{00A0}';
        assert listed[8] == '\U{1680}' && listed[9] == '\U{2028}' && listed[10] == '\U{2029}';
        assert listed[11] == '\U{202F}' && listed[12] == '\U{205F}' && listed[13] == '\U{3000}';
      }
    }
  }

  function TrimStart(s: string): (t: string)
    ensures t != "" ==> !IsWhiteSpace(t[0])
  {
    if s != "" && IsWhiteSpace(s[0]) then TrimStart(s[1..]) else s
  }

  function TrimEnd(s: string): (t: string)
    ensures t <= s
    ensures t != "" ==> !IsWhiteSpace(t[|t| - 1])
  {
    if s != "" && IsWhiteSpace(s[|s| - 1]) then TrimEnd(s[..|s| - 1]) else s
  }

  /** `str::trim` */
  function Trim(s: string): string {
    TrimEnd(TrimStart(s))
  }

  ghost predicate Blank(s: string) {
    forall i :: 0 <= i < |s| ==> IsWhiteSpace(s[i])
  }

  lemma {:induction false} TrimStartCuts(s: string) returns (left: string)
    ensures s == left + TrimStart(s) && Blank(left)
  {
    left := "";
    if s != "" && IsWhiteSpace(s[0]) {
      var more := TrimStartCuts(s[1..]);
      left := [s[0]] + more;
    }
  }

  lemma {:induction false} TrimEndCuts(s: string) returns (right: string)
    ensures s == TrimEnd(s) + right && Blank(right)
  {
    right := "";
    if s != "" && IsWhiteSpace(s[|s| - 1]) {
      var more := TrimEndCuts(s[..|s| - 1]);
      right := more + [s[|s| - 1]];
    }
  }

  /** Trimming takes white space off both ends, all of it and nothing else. */
  lemma TrimCutsPadding(s: string) returns (left: string, right: string)
    ensures s == left + Trim(s) + right && Blank(left) && Blank(right)
    ensures Trim(s) != "" ==> !IsWhiteSpace(Trim(s)[0]) && !IsWhiteSpace(Trim(s)[|Trim(s)| - 1])
  {
    left := TrimStartCuts(s);
    right := TrimEndCuts(TrimStart(s));
    assert Trim(s) != "" ==> Trim(s)[0] == TrimStart(s)[0];
  }

  /** `a <= b` in the order of Rust strings: by code points, a prefix before its extensions. */
  predicate Leq(a: string, b: string) {
    a == "" || (b != "" && (a[0] < b[0] || (a[0] == b[0] && Leq(a[1..], b[1..]))))
  }

  lemma {:induction false} LeqTotal(a: string, b: string)
    ensures Leq(a, b) || Leq(b, a)
  {
    if a != "" && b != "" {
      LeqTotal(a[1..], b[1..]);
    }
  }

  lemma {:induction false} LeqTransitive(a: string, b: string, c: string)
    requires Leq(a, b) && Leq(b, c)
    ensures Leq(a, c)
  {
    if a != "" && a[0] == b[0] && b[0] == c[0] {
      LeqTransitive(a[1..], b[1..], c[1..]);
    }
  }

  lemma {:induction false} LeqAntisymmetric(a: string, b: string)
    requires Leq(a, b) && Leq(b, a)
    ensures a == b
  {
    if a != "" {
      LeqAntisymmetric(a[1..], b[1..]);
      assert a == [a[0]] + a[1..] && b == [b[0]] + b[1..];
    }
  }

  /** Position `i` is the first at which the texts differ, and `a` has the smaller character there. */
  ghost predicate SmallerAt(a: string, b: string, i: nat) {
    i < |a| && i < |b| && a[..i] == b[..i] && a[i] < b[i]
  }

  lemma SmallerInTail(a: string, b: string, i: nat)
    requires a != "" && b != ""
    ensures SmallerAt(a, b, i + 1) <==> a[0] == b[0] && SmallerAt(a[1..], b[1..], i)
  {
    if i + 1 < |a| && i + 1 < |b| {
      assert a[..i + 1] == [a[0]] + a[1..][..i] && b[..i + 1] == [b[0]] + b[1..][..i];
    }
  }

  /** Before the other stands the text that is a proper or improper prefix of it, or whose first
      differing character is the smaller one. */
  lemma {:induction false} LeqIff(a: string, b: string)
    ensures Leq(a, b) <==> a <= b || exists i :: SmallerAt(a, b, i)
  {
    if a != "" && b != "" {
      LeqIff(a[1..], b[1..]);
      assert a == [a[0]] + a[1..] && b == [b[0]] + b[1..];
      assert SmallerAt(a, b, 0) <==> a[0] < b[0];
      if i: nat :| SmallerAt(a, b, i) && i > 0 {
        SmallerInTail(a, b, i - 1);
      }
      if i: nat :| SmallerAt(a[1..], b[1..], i) {
        SmallerInTail(a, b, i);
      }
    }
  }
}
