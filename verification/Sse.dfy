/** Server-sent events: the gateway's printer against the event-stream parser of the WHATWG HTML Standard. */
module Sse {
  import opened Prelude
  import Text

  // ---- the printer ----

  datatype SseEvent = SseEvent(event: string, data: string, id: Option<string>)

  function DataLines(lines: seq<string>): seq<string> {
    seq(|lines|, i requires 0 <= i < |lines| => "data: " + lines[i])
  }

  /** The lines an event is printed as, without their line ends. */
  function PrintedLines(e: SseEvent): seq<string> {
    ["event: " + e.event] + DataLines(Text.Lines(e.data)) + (if e.id.Some? then ["id: " + e.id.value] else []) + [""]
  }

  function Terminated(lines: seq<string>): string {
    if lines == [] then "" else lines[0] + "\n" + Terminated(lines[1..])
  }

  lemma Regroup<T>(a: seq<T>, b: seq<T>, c: seq<T>)
    ensures (a + b) + c == a + (b + c)
  {
  }

  lemma {:induction false} TerminatedAppend(xs: seq<string>, ys: seq<string>)
    ensures Terminated(xs + ys) == Terminated(xs) + Terminated(ys)
  {
    if xs == [] {
      assert xs + ys == ys;
    } else {
      TerminatedAppend(xs[1..], ys);
      assert (xs + ys)[1..] == xs[1..] + ys;
      Regroup(xs[0] + "\n", Terminated(xs[1..]), Terminated(ys));
    }
  }

  lemma OneTerminated(line: string)
    ensures Terminated([line]) == line + "\n"
  {
    assert Terminated([line][1..]) == "";
  }

  function PrintedData(lines: seq<string>): string {
    if lines == [] then "" else "data: " + lines[0] + "\n" + PrintedData(lines[1..])
  }

  lemma {:induction false} DataIsPrinted(lines: seq<string>)
    ensures Terminated(DataLines(lines)) == PrintedData(lines)
  {
    if lines != [] {
      DataIsPrinted(lines[1..]);
      assert DataLines(lines)[1..] == DataLines(lines[1..]);
    }
  }

  lemma PrintedText(e: SseEvent)
    ensures Terminated(PrintedLines(e))
         == "event: " + e.event + "\n" + PrintedData(Text.Lines(e.data))
            + (if e.id.Some? then "id: " + e.id.value + "\n" else "") + "\n"
  {
    var name, data := ["event: " + e.event], DataLines(Text.Lines(e.data));
    var id := if e.id.Some? then ["id: " + e.id.value] else [];
    TerminatedAppend(name + data + id, [""]);
    TerminatedAppend(name + data, id);
    TerminatedAppend(name, data);
    OneTerminated("event: " + e.event);
    OneTerminated("");
    DataIsPrinted(Text.Lines(e.data));
    if e.id.Some? {
      OneTerminated("id: " + e.id.value);
    }
    assert PrintedLines(e) == name + data + id + [""];
  }

  /** `format_sse`, appending field by field. */
  method FormatSse(e: SseEvent) returns (result: string)
    ensures result == Terminated(PrintedLines(e))
    ensures result == "event: " + e.event + "\n" + PrintedData(Text.Lines(e.data))
                      + (if e.id.Some? then "id: " + e.id.value + "\n" else "") + "\n"
  {
    var lines := Text.Lines(e.data);
    ghost var printed := ["event: " + e.event];
    result := "event: " + e.event + "\n";
    OneTerminated("event: " + e.event);
    for i := 0 to |lines|
      invariant printed == ["event: " + e.event] + DataLines(lines[..i])
      invariant result == Terminated(printed)
    {
      TerminatedAppend(printed, ["data: " + lines[i]]);
      OneTerminated("data: " + lines[i]);
      assert DataLines(lines[..i + 1]) == DataLines(lines[..i]) + ["data: " + lines[i]];
      printed := printed + ["data: " + lines[i]];
      result := result + ("data: " + lines[i] + "\n");
    }
    assert lines[..|lines|] == lines;
    if e.id.Some? {
      TerminatedAppend(printed, ["id: " + e.id.value]);
      OneTerminated("id: " + e.id.value);
      printed := printed + ["id: " + e.id.value];
      result := result + ("id: " + e.id.value + "\n");
    }
    TerminatedAppend(printed, [""]);
    OneTerminated("");
    result := result + ['\n'];
    assert printed + [""] == PrintedLines(e);
    PrintedText(e);
  }

  /** A stream of events, one after the other. */
  function Stream(events: seq<SseEvent>): string {
    if events == [] then "" else Terminated(PrintedLines(events[0])) + Stream(events[1..])
  }

  // ---- the standard's parser (sections 9.2.5 and 9.2.6) ----

  datatype Message = Message(eventType: string, data: string, lastEventId: string)

  /** The three buffers and the events dispatched so far. */
  datatype Parser = Parser(data: string, eventType: string, id: string, dispatched: seq<Message>)

  const INITIAL := Parser("", "", "", [])

  predicate IsLineEnd(c: char) {
    c == '\n' || c == '\r'
  }

  function LineLength(s: string): (i: nat)
    ensures i <= |s|
    ensures forall j :: 0 <= j < i ==> !IsLineEnd(s[j])
    ensures i < |s| ==> IsLineEnd(s[i])
  {
    if s == "" || IsLineEnd(s[0]) then 0 else 1 + LineLength(s[1..])
  }

  /** The complete lines; CR LF, LF and CR each end one, and an incomplete line is discarded. */
  function StreamLines(s: string): seq<string> {
    var i := LineLength(s);
    if i == |s| then []
    else if s[i] == '\r' && i + 1 < |s| && s[i + 1] == '\n' then [s[..i]] + StreamLines(s[i + 2..])
    else [s[..i]] + StreamLines(s[i + 1..])
  }

  /** One leading byte order mark is dropped. */
  function WithoutBom(s: string): string {
    if s != "" && s[0] == '\U{FEFF}' then s[1..] else s
  }

  function Dispatch(p: Parser): Parser {
    if p.data == "" then
      p.(eventType := "")
    else
      var message := Message(if p.eventType == "" then "message" else p.eventType, Text.WithoutFinalLf(p.data), p.id);
      p.(data := "", eventType := "", dispatched := p.dispatched + [message])
  }

  /** Unknown fields are ignored; `retry` sets only the reconnection time, which no event shows. */
  function ProcessField(p: Parser, field: string, value: string): Parser {
    if field == "event" then p.(eventType := value)
    else if field == "data" then p.(data := p.data + value + "\n")
    else if field == "id" then if '\0' in value then p else p.(id := value)
    else p
  }

  function WithoutLeadingSpace(value: string): string {
    if value != "" && value[0] == ' ' then value[1..] else value
  }

  function ProcessLine(p: Parser, line: string): Parser {
    if line == "" then Dispatch(p)
    else if line[0] == ':' then p
    else
      var i := Text.Find(line, ':');
      if i < |line| then ProcessField(p, line[..i], WithoutLeadingSpace(line[i + 1..]))
      else ProcessField(p, line, "")
  }

  function Feed(p: Parser, lines: seq<string>): Parser
    decreases |lines|
  {
    if lines == [] then p else Feed(ProcessLine(p, lines[0]), lines[1..])
  }

  function Parse(s: string): seq<Message> {
    Feed(INITIAL, StreamLines(WithoutBom(s))).dispatched
  }

  lemma {:induction false} FeedAppend(p: Parser, xs: seq<string>, ys: seq<string>)
    ensures Feed(p, xs + ys) == Feed(Feed(p, xs), ys)
    decreases |xs|
  {
    if xs == [] {
      assert xs + ys == ys;
    } else {
      FeedAppend(ProcessLine(p, xs[0]), xs[1..], ys);
      assert (xs + ys)[1..] == xs[1..] + ys;
    }
  }

  // ---- the lines of a printed event ----

  predicate OneLine(s: string) {
    '\n' !in s && '\r' !in s
  }

  /** Nothing in the event can break its lines apart or be refused as an id. */
  predicate Clean(e: SseEvent) {
    OneLine(e.event) && '\r' !in e.data && (e.id.Some? ==> OneLine(e.id.value) && '\0' !in e.id.value)
  }

  lemma LineComesFirst(line: string, rest: string)
    requires OneLine(line)
    ensures StreamLines(line + "\n" + rest) == [line] + StreamLines(rest)
  {
    var s := line + "\n" + rest;
    assert s[|line|] == '\n';
    assert forall j :: 0 <= j < |line| ==> s[j] == line[j] && !IsLineEnd(line[j]);
    assert LineLength(s) == |line|;
    assert s[..|line|] == line && s[|line| + 1..] == rest;
  }

  lemma {:induction false} LinesComeFirst(lines: seq<string>, rest: string)
    requires forall i :: 0 <= i < |lines| ==> OneLine(lines[i])
    ensures StreamLines(Terminated(lines) + rest) == lines + StreamLines(rest)
  {
    if lines == [] {
      assert Terminated(lines) + rest == rest;
    } else {
      var line, others := lines[0], lines[1..];
      assert lines == [line] + others;
      LinesComeFirst(others, rest);
      LineComesFirst(line, Terminated(others) + rest);
      Regroup(line + "\n", Terminated(others), rest);
      Regroup([line], others, StreamLines(rest));
      assert Terminated(lines) + rest == line + "\n" + (Terminated(others) + rest);
    }
  }

  lemma PrintedLinesAreLines(e: SseEvent)
    requires Clean(e)
    ensures forall i :: 0 <= i < |PrintedLines(e)| ==> OneLine(PrintedLines(e)[i])
  {
    Text.LinesHaveNoEndings(e.data);
    var data := DataLines(Text.Lines(e.data));
    forall i | 0 <= i < |data| ensures OneLine(data[i]) {
      assert OneLine("data: ");
    }
    assert OneLine("event: " + e.event) && OneLine("");
    assert e.id.Some? ==> OneLine("id: " + e.id.value);
  }

  // ---- feeding the lines of one event ----

  lemma FieldLine(p: Parser, field: string, value: string)
    requires field != "" && ':' !in field
    ensures ProcessLine(p, field + ": " + value) == ProcessField(p, field, value)
  {
    var line := field + ": " + value;
    assert line[|field|] == ':';
    assert forall j :: 0 <= j < |field| ==> line[j] == field[j] && field[j] != ':';
    assert Text.Find(line, ':') == |field|;
    assert line[..|field|] == field && line[|field| + 1..] == [' '] + value;
  }

  lemma DataLine(p: Parser, line: string)
    ensures ProcessLine(p, "data: " + line) == p.(data := p.data + line + "\n")
  {
    FieldLine(p, "data", line);
    assert "data" + ": " + line == "data: " + line;
  }

  lemma FeedCons(p: Parser, line: string, rest: seq<string>)
    ensures Feed(p, [line] + rest) == Feed(ProcessLine(p, line), rest)
  {
    assert ([line] + rest)[1..] == rest;
  }

  lemma {:induction false} FeedData(p: Parser, lines: seq<string>)
    ensures Feed(p, DataLines(lines)) == p.(data := p.data + Terminated(lines))
    decreases |lines|
  {
    if lines == [] {
      assert p.data + "" == p.data;
    } else {
      var first, rest := lines[0], lines[1..];
      assert DataLines(lines) == ["data: " + first] + DataLines(rest);
      FeedCons(p, "data: " + first, DataLines(rest));
      DataLine(p, first);
      FeedData(p.(data := p.data + first + "\n"), rest);
      Regroup(p.data, first + "\n", Terminated(rest));
      Regroup(p.data, first, "\n");
    }
  }

  lemma {:induction false} TerminatedIsJoined(lines: seq<string>)
    requires lines != []
    ensures Terminated(lines) == Text.Join(lines, '\n') + "\n"
  {
    if |lines| > 1 {
      TerminatedIsJoined(lines[1..]);
    } else {
      OneTerminated(lines[0]);
      assert lines == [lines[0]];
    }
  }

  function IdAfter(e: SseEvent, id: string): string {
    if e.id.Some? then e.id.value else id
  }

  /** What the standard makes of one event: nothing if it has no data, else its data
      without a final line end, under its name or `message`. */
  function Received(e: SseEvent, id: string): seq<Message> {
    if e.data == "" then []
    else [Message(if e.event == "" then "message" else e.event, Text.WithoutFinalLf(e.data), IdAfter(e, id))]
  }

  lemma FeedFour(p: Parser, a: seq<string>, b: seq<string>, c: seq<string>, d: seq<string>)
    ensures Feed(p, a + b + c + d) == Feed(Feed(Feed(Feed(p, a), b), c), d)
  {
    FeedAppend(p, a, b);
    FeedAppend(p, a + b, c);
    FeedAppend(p, a + b + c, d);
  }

  lemma FeedOne(p: Parser, line: string)
    ensures Feed(p, [line]) == ProcessLine(p, line)
  {
    assert [line][1..] == [];
  }

  lemma FeedName(p: Parser, e: SseEvent)
    ensures Feed(p, ["event: " + e.event]) == p.(eventType := e.event)
  {
    FeedOne(p, "event: " + e.event);
    FieldLine(p, "event", e.event);
    assert "event" + ": " + e.event == "event: " + e.event;
  }

  lemma FeedId(p: Parser, e: SseEvent)
    requires Clean(e)
    ensures Feed(p, if e.id.Some? then ["id: " + e.id.value] else []) == p.(id := IdAfter(e, p.id))
  {
    if e.id.Some? {
      FeedOne(p, "id: " + e.id.value);
      FieldLine(p, "id", e.id.value);
      assert "id" + ": " + e.id.value == "id: " + e.id.value;
    }
  }

  lemma DispatchReceives(p: Parser, e: SseEvent, id: string)
    requires Clean(e) && p.data == Terminated(Text.Lines(e.data)) && p.eventType == e.event && p.id == IdAfter(e, id)
    ensures Dispatch(p) == Parser("", "", p.id, p.dispatched + Received(e, id))
  {
    if e.data == "" {
      assert p.dispatched + [] == p.dispatched;
    } else {
      Text.LinesLoseOnlyAFinalLf(e.data);
      TerminatedIsJoined(Text.Lines(e.data));
      assert Text.WithoutFinalLf(p.data) == Text.WithoutFinalLf(e.data);
    }
  }

  lemma FeedEvent(p: Parser, e: SseEvent)
    requires p.data == "" && p.eventType == "" && Clean(e)
    ensures Feed(p, PrintedLines(e)) == Parser("", "", IdAfter(e, p.id), p.dispatched + Received(e, p.id))
  {
    var lines := Text.Lines(e.data);
    var named := p.(eventType := e.event);
    var filled := named.(data := named.data + Terminated(lines));
    var tagged := filled.(id := IdAfter(e, filled.id));
    FeedFour(p, ["event: " + e.event], DataLines(lines), if e.id.Some? then ["id: " + e.id.value] else [], [""]);
    FeedName(p, e);
    FeedData(named, lines);
    FeedId(filled, e);
    FeedOne(tagged, "");
    assert tagged.data == Terminated(lines);
    DispatchReceives(tagged, e, p.id);
  }

  // ---- whole streams ----

  /** What the standard makes of a list of events; an id stays in force until the next one. */
  function AllReceived(events: seq<SseEvent>, id: string): seq<Message> {
    if events == [] then [] else Received(events[0], id) + AllReceived(events[1..], IdAfter(events[0], id))
  }

  function AllLines(events: seq<SseEvent>): seq<string> {
    if events == [] then [] else PrintedLines(events[0]) + AllLines(events[1..])
  }

  lemma {:induction false} StreamIsItsLines(events: seq<SseEvent>)
    requires forall i :: 0 <= i < |events| ==> Clean(events[i])
    ensures StreamLines(Stream(events)) == AllLines(events)
  {
    if events != [] {
      PrintedLinesAreLines(events[0]);
      LinesComeFirst(PrintedLines(events[0]), Stream(events[1..]));
      StreamIsItsLines(events[1..]);
    }
  }

  lemma {:induction false} FeedEvents(p: Parser, events: seq<SseEvent>)
    requires p.data == "" && p.eventType == "" && forall i :: 0 <= i < |events| ==> Clean(events[i])
    ensures Feed(p, AllLines(events)).dispatched == p.dispatched + AllReceived(events, p.id)
    decreases |events|
  {
    if events == [] {
      assert p.dispatched + [] == p.dispatched;
    } else {
      var e, rest := events[0], events[1..];
      var next := Parser("", "", IdAfter(e, p.id), p.dispatched + Received(e, p.id));
      FeedAppend(p, PrintedLines(e), AllLines(rest));
      FeedEvent(p, e);
      FeedEvents(next, rest);
      Regroup(p.dispatched, Received(e, p.id), AllReceived(rest, next.id));
    }
  }

  lemma NoBom(events: seq<SseEvent>)
    ensures WithoutBom(Stream(events)) == Stream(events)
  {
    if events != [] {
      assert Stream(events)[0] == PrintedLines(events[0])[0][0] == 'e';
    }
  }

  /** What a receiver gets from any stream of clean events. */
  lemma CleanStreamsAreReceived(events: seq<SseEvent>)
    requires forall i :: 0 <= i < |events| ==> Clean(events[i])
    ensures Parse(Stream(events)) == AllReceived(events, "")
  {
    NoBom(events);
    StreamIsItsLines(events);
    FeedEvents(INITIAL, events);
    assert INITIAL.dispatched + AllReceived(events, "") == AllReceived(events, "");
  }

  /** The events as they were sent, each with the id in force. */
  function AsSent(events: seq<SseEvent>, id: string): seq<Message> {
    if events == [] then []
    else
      var after := IdAfter(events[0], id);
      [Message(events[0].event, events[0].data, after)] + AsSent(events[1..], after)
  }

  /** An event that the format can carry. */
  predicate Transmissible(e: SseEvent) {
    Clean(e) && e.event != "" && e.data != "" && !Text.EndsWith(e.data, '\n')
  }

  /** What any parser output looks like. */
  predicate Wellformed(m: Message) {
    m.eventType != "" && OneLine(m.eventType) && '\r' !in m.data && OneLine(m.lastEventId) && '\0' !in m.lastEventId
  }

  ghost predicate ParserClean(p: Parser) {
    && OneLine(p.eventType) && '\r' !in p.data && OneLine(p.id) && '\0' !in p.id
    && forall i :: 0 <= i < |p.dispatched| ==> Wellformed(p.dispatched[i])
  }

  lemma DispatchStaysClean(p: Parser)
    requires ParserClean(p)
    ensures ParserClean(Dispatch(p))
  {
    assert forall c :: c in Text.WithoutFinalLf(p.data) ==> c in p.data;
    assert OneLine("message");
  }

  lemma FieldStaysClean(p: Parser, field: string, value: string)
    requires ParserClean(p) && OneLine(value)
    ensures ParserClean(ProcessField(p, field, value))
  {
  }

  lemma LineStaysClean(p: Parser, line: string)
    requires ParserClean(p) && OneLine(line)
    ensures ParserClean(ProcessLine(p, line))
  {
    var i := Text.Find(line, ':');
    if line == "" {
      DispatchStaysClean(p);
    } else if i < |line| {
      var after := line[i + 1..];
      assert forall c :: c in after ==> c in line;
      assert forall c :: c in WithoutLeadingSpace(after) ==> c in after;
      FieldStaysClean(p, line[..i], WithoutLeadingSpace(after));
    } else {
      FieldStaysClean(p, line, "");
    }
  }

  lemma {:induction false} FeedStaysClean(p: Parser, lines: seq<string>)
    requires ParserClean(p) && forall i :: 0 <= i < |lines| ==> OneLine(lines[i])
    ensures ParserClean(Feed(p, lines))
    decreases |lines|
  {
    if lines != [] {
      LineStaysClean(p, lines[0]);
      FeedStaysClean(ProcessLine(p, lines[0]), lines[1..]);
    }
  }

  lemma FirstIsOneLine(s: string)
    ensures OneLine(s[..LineLength(s)])
  {
  }

  lemma {:induction false} StreamLinesAreLines(s: string)
    ensures forall i :: 0 <= i < |StreamLines(s)| ==> OneLine(StreamLines(s)[i])
    decreases |s|
  {
    var i := LineLength(s);
    if i < |s| {
      FirstIsOneLine(s);
      StreamLinesAreLines(s[if s[i] == '\r' && i + 1 < |s| && s[i + 1] == '\n' then i + 2 else i + 1..]);
    }
  }

  lemma ParsedIsWellformed(s: string)
    ensures forall i :: 0 <= i < |Parse(s)| ==> Wellformed(Parse(s)[i])
  {
    StreamLinesAreLines(WithoutBom(s));
    FeedStaysClean(INITIAL, StreamLines(WithoutBom(s)));
  }

  lemma {:induction false} SentMessageShowsItsEvent(events: seq<SseEvent>, id: string)
    requires forall i :: 0 <= i < |AsSent(events, id)| ==> Wellformed(AsSent(events, id)[i])
    ensures forall i :: 0 <= i < |events| ==> Clean(events[i]) && events[i].event != ""
  {
    if events != [] {
      var sent := AsSent(events, id);
      assert sent[0] == Message(events[0].event, events[0].data, IdAfter(events[0], id));
      assert Wellformed(sent[0]);
      var rest := AsSent(events[1..], IdAfter(events[0], id));
      forall i | 0 <= i < |rest| ensures Wellformed(rest[i]) {
        assert sent[i + 1] == rest[i];
      }
      SentMessageShowsItsEvent(events[1..], IdAfter(events[0], id));
    }
  }

  lemma {:induction false} ReceivedAtMostOnce(events: seq<SseEvent>, id: string)
    ensures |AllReceived(events, id)| <= |events| == |AsSent(events, id)|
  {
    if events != [] {
      ReceivedAtMostOnce(events[1..], IdAfter(events[0], id));
    }
  }

  lemma {:induction false} ReceivedAsSentIff(events: seq<SseEvent>, id: string)
    requires forall i :: 0 <= i < |events| ==> Clean(events[i]) && events[i].event != ""
    ensures AllReceived(events, id) == AsSent(events, id)
       <==> forall i :: 0 <= i < |events| ==> Transmissible(events[i])
  {
    if events != [] {
      var e, next := events[0], IdAfter(events[0], id);
      ReceivedAsSentIff(events[1..], next);
      ReceivedAtMostOnce(events[1..], next);
      var received, sent := AllReceived(events, id), AsSent(events, id);
      assert sent[1..] == AsSent(events[1..], next);
      assert forall i :: 1 <= i < |events| ==> events[i] == events[1..][i - 1];
      if e.data == "" {
        assert |received| < |sent|;
        assert !Transmissible(events[0]);
      } else {
        assert received[1..] == AllReceived(events[1..], next);
        assert received == sent <==> received[0] == sent[0] && received[1..] == sent[1..] by {
          assert received == [received[0]] + received[1..] && sent == [sent[0]] + sent[1..];
        }
        assert received[0] == sent[0] <==> Transmissible(e);
      }
    }
  }

  /** A stream is received exactly as it was sent, event by event with name, data and id, if and only
      if every event has a non-empty name without line ends, non-empty CR-free data that does not end
      in LF, and an id, if any, without line ends and NUL. */
  lemma StreamSurvivesIff(events: seq<SseEvent>)
    ensures Parse(Stream(events)) == AsSent(events, "") <==> forall i :: 0 <= i < |events| ==> Transmissible(events[i])
  {
    if forall i :: 0 <= i < |events| ==> Transmissible(events[i]) {
      CleanStreamsAreReceived(events);
      ReceivedAsSentIff(events, "");
    } else if Parse(Stream(events)) == AsSent(events, "") {
      ParsedIsWellformed(Stream(events));
      SentMessageShowsItsEvent(events, "");
      CleanStreamsAreReceived(events);
      ReceivedAsSentIff(events, "");
    }
  }
}
