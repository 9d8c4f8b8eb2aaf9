/**
 Server-sent events: the server's printer and the browser's incremental parser, which
 receives the text cut at arbitrary read boundaries.
 */
module Sse {
  import opened Support

  datatype Frame = Frame(event: string, data: string)

  // ------------------------------------------------------------- printer

  /** `_format_sse`; an empty event name prints no event line. */
  function Print(f: Frame): string {
    (if f.event == "" then "" else "event: " + f.event + "\n") + "data: " + f.data + "\n\n"
  }

  lemma JoinTwo(line: string)
    ensures Join([line, ""], "\n") + "\n" == line + "\n\n"
  {
    assert [line, ""][1..] == [""];
  }

  method FormatSse(data: string, event: Option<string>) returns (text: string)
    ensures text == Print(Frame(Or(event, ""), data))
    ensures text == (if Or(event, "") == "" then "" else "event: " + event.value + "\n") + "data: " + data + "\n\n"
  {
    var lines: seq<string> := [];
    if event.Some? && event.value != "" {
      lines := lines + ["event: " + event.value];
    }
    lines := lines + ["data: " + data];
    lines := lines + [""];
    text := Join(lines, "\n") + "\n";
    JoinTwo("data: " + data);
    if event.Some? && event.value != "" {
      assert lines[1..] == ["data: " + data, ""];
    }
  }

  function PrintAll(fs: seq<Frame>): string {
    if fs == [] then "" else Print(fs[0]) + PrintAll(fs[1..])
  }

  // -------------------------------------------------------------- parser

  predicate BreakAt(s: string, i: nat) {
    i + 1 < |s| && s[i] == '\n' && s[i + 1] == '\n'
  }

  /** `indexOf("\n\n")` */
  function FirstBreak(s: string): (r: Option<nat>)
    ensures r.Some? ==> BreakAt(s, r.value)
  {
    BreakFrom(s, 0)
  }

  function BreakFrom(s: string, i: nat): (r: Option<nat>)
    requires i <= |s|
    ensures r.Some? ==> BreakAt(s, r.value)
    decreases |s| - i
  {
    if i == |s| then None else if BreakAt(s, i) then Some(i) else BreakFrom(s, i + 1)
  }

  lemma {:induction false} BreakFromIsFirst(s: string, i: nat)
    requires i <= |s|
    ensures var r := BreakFrom(s, i);
      && (r.Some? ==> i <= r.value && forall j | i <= j < r.value :: !BreakAt(s, j))
      && (r.None? ==> forall j: nat | i <= j :: !BreakAt(s, j))
    decreases |s| - i
  {
    if i < |s| && !BreakAt(s, i) { BreakFromIsFirst(s, i + 1); }
  }

  lemma FirstBreakIs(s: string, i: nat)
    requires BreakAt(s, i) && forall j | 0 <= j < i :: !BreakAt(s, j)
    ensures FirstBreak(s) == Some(i)
  {
    BreakFromIsFirst(s, 0);
  }

  function FirstNewline(s: string): (r: Option<nat>)
    ensures r.Some? ==> r.value < |s| && s[r.value] == '\n' && '\n' !in s[..r.value]
    ensures r.None? ==> '\n' !in s
  {
    if s == "" then None
    else if s[0] == '\n' then Some(0)
    else
      var r := FirstNewline(s[1..]);
      assert s == [s[0]] + s[1..];
      if r.None? then None
      else
        assert s[..r.value + 1] == [s[0]] + s[1..][..r.value];
        Some(r.value + 1)
  }

  /** `split("\n")` */
  function SplitLines(s: string): (lines: seq<string>)
    ensures lines != []
  {
    var i := FirstNewline(s);
    if i.None? then [s] else [s[..i.value]] + SplitLines(s[i.value + 1..])
  }

  predicate StartsWith(s: string, prefix: string) {
    |prefix| <= |s| && s[..|prefix|] == prefix
  }

  predicate IsEventLine(line: string) {
    StartsWith(line, "event:")
  }

  predicate IsDataLine(line: string) {
    !IsEventLine(line) && StartsWith(line, "data:")
  }

  /** The last event line names the event. */
  function EventOf(lines: seq<string>): string {
    if lines == [] then "message"
    else if IsEventLine(lines[|lines| - 1]) then Trim(lines[|lines| - 1][6..], IsJsSpace)
    else EventOf(lines[..|lines| - 1])
  }

  lemma {:induction false} EventOfLast(lines: seq<string>, i: nat)
    requires i < |lines| && IsEventLine(lines[i]) && forall j | i < j < |lines| :: !IsEventLine(lines[j])
    ensures EventOf(lines) == Trim(lines[i][6..], IsJsSpace)
  {
    hide IsEventLine, Trim;
    if i < |lines| - 1 { EventOfLast(lines[..|lines| - 1], i); }
  }

  lemma {:induction false} EventOfNone(lines: seq<string>)
    requires forall line | line in lines :: !IsEventLine(line)
    ensures EventOf(lines) == "message"
  {
    hide IsEventLine;
    if lines != [] {
      assert lines[|lines| - 1] in lines;
      EventOfNone(lines[..|lines| - 1]);
    }
  }

  function DataLines(lines: seq<string>): seq<string> {
    if lines == [] then []
    else DataLines(lines[..|lines| - 1])
         + if IsDataLine(lines[|lines| - 1]) then [TrimStart(lines[|lines| - 1][5..], IsJsSpace)] else []
  }

  function ParseFrame(raw: string): Frame {
    Frame(EventOf(SplitLines(raw)), Join(DataLines(SplitLines(raw)), "\n"))
  }

  method ParseFrameLines(raw: string) returns (f: Frame)
    ensures f == ParseFrame(raw)
  {
    var event, dataLines := "message", [];
    var lines := SplitLines(raw);
    for i := 0 to |lines|
      invariant event == EventOf(lines[..i]) && dataLines == DataLines(lines[..i])
    {
      assert lines[..i + 1][..i] == lines[..i];
      if StartsWith(lines[i], "event:") {
        event := Trim(lines[i][6..], IsJsSpace);
      } else if StartsWith(lines[i], "data:") {
        dataLines := dataLines + [TrimStart(lines[i][5..], IsJsSpace)];
      }
    }
    assert lines[..|lines|] == lines;
    f := Frame(event, Join(dataLines, "\n"));
  }

  /** Frames that carry neither data nor a name are dropped. */
  function Kept(f: Frame): seq<Frame> {
    if f.data != "" || f.event != "message" then [f] else []
  }

  /** The complete frames at the front of a buffer. */
  function Drained(buffer: string): seq<Frame>
    decreases |buffer|
  {
    var sep := FirstBreak(buffer);
    if sep.None? then [] else Kept(ParseFrame(buffer[..sep.value])) + Drained(buffer[sep.value + 2..])
  }

  /** What stays in the buffer after the complete frames. */
  function Rest(buffer: string): string
    decreases |buffer|
  {
    var sep := FirstBreak(buffer);
    if sep.None? then buffer else Rest(buffer[sep.value + 2..])
  }

  /** The unterminated last frame. */
  function Leftover(buffer: string): seq<Frame> {
    if Trim(buffer, IsJsSpace) != "" && ParseFrame(buffer).data != "" then [ParseFrame(buffer)] else []
  }

  /** The events of a whole text. */
  function Consume(text: string): seq<Frame> {
    Drained(text) + Leftover(Rest(text))
  }

  /** Draining early loses nothing: what remains meets the next read. */
  lemma {:induction false} DrainAppend(a: string, b: string)
    ensures Drained(a + b) == Drained(a) + Drained(Rest(a) + b)
    ensures Rest(a + b) == Rest(Rest(a) + b)
    decreases |a|
  {
    hide Kept, ParseFrame, BreakFrom;
    var sep := FirstBreak(a);
    if sep.Some? {
      var i := sep.value;
      assert forall j | 0 <= j <= i :: BreakAt(a + b, j) == BreakAt(a, j);
      BreakFromIsFirst(a, 0);
      FirstBreakIs(a + b, i);
      assert (a + b)[..i] == a[..i];
      assert (a + b)[i + 2..] == a[i + 2..] + b;
      DrainAppend(a[i + 2..], b);
    }
  }

  /** Delivering the first frame `kept` and going on with `more` drains the same frames. */
  ghost predicate DrainsTo(buffer: string, frames: seq<Frame>, rest: string) {
    frames + Drained(rest) == Drained(buffer) && Rest(rest) == Rest(buffer)
  }

  lemma DrainStep(buffer: string, frames: seq<Frame>, rest: string, i: nat, kept: seq<Frame>)
    requires DrainsTo(buffer, frames, rest) && FirstBreak(rest) == Some(i)
    requires kept == Kept(ParseFrame(rest[..i]))
    ensures DrainsTo(buffer, frames + kept, rest[i + 2..])
  {
    assert frames + (kept + Drained(rest[i + 2..])) == frames + kept + Drained(rest[i + 2..]);
  }

  /** The inner loop of `_consumeSSE`: deliver every complete frame of the buffer. */
  method DrainBuffer(buffer: string) returns (frames: seq<Frame>, rest: string)
    ensures frames == Drained(buffer) && rest == Rest(buffer)
  {
    frames, rest := [], buffer;
    var sep := FirstBreak(rest);
    while sep.Some?
      invariant sep == FirstBreak(rest) && DrainsTo(buffer, frames, rest)
      decreases |rest|
    {
      var frame := ParseFrameLines(rest[..sep.value]);
      var kept := if frame.data != "" || frame.event != "message" then [frame] else [];
      DrainStep(buffer, frames, rest, sep.value, kept);
      frames, rest := frames + kept, rest[sep.value + 2..];
      sep := FirstBreak(rest);
    }
  }

  /** `_consumeSSE`: the events depend on the text alone, not on how it was cut into reads. */
  method ConsumeSse(pieces: seq<string>) returns (events: seq<Frame>)
    ensures events == Consume(Flatten(pieces))
  {
    events := [];
    var buffer := "";
    for i := 0 to |pieces|
      invariant events == Drained(Flatten(pieces[..i])) && buffer == Rest(Flatten(pieces[..i]))
    {
      FlattenSnoc(pieces[..i], pieces[i]);
      assert pieces[..i + 1] == pieces[..i] + [pieces[i]];
      DrainAppend(Flatten(pieces[..i]), pieces[i]);
      var frames, rest := DrainBuffer(buffer + pieces[i]);
      events, buffer := events + frames, rest;
    }
    assert pieces[..|pieces|] == pieces;
    if Trim(buffer, IsJsSpace) != "" {
      var frame := ParseFrameLines(buffer);
      if frame.data != "" {
        events := events + [frame];
      }
    }
  }

  // ---------------------------------------------------------- round trip

  /** Data that survives: one line, no leading white space. */
  predicate CleanData(data: string) {
    '\n' !in data && TrimStart(data, IsJsSpace) == data
  }

  predicate CleanEvent(event: string) {
    event != "" && '\n' !in event && TrimStart(event, IsJsSpace) == event && TrimEnd(event, IsJsSpace) == event
  }

  predicate Clean(f: Frame) {
    CleanEvent(f.event) && CleanData(f.data) && (f.data != "" || f.event != "message")
  }

  /** The text of a frame before its two terminating newlines. */
  function Raw(f: Frame): string {
    "event: " + f.event + "\n" + "data: " + f.data
  }

  lemma FirstNewlineAfter(a: string, more: string)
    requires '\n' !in a
    ensures FirstNewline(a + "\n" + more) == Some(|a|)
  {
    var s := a + "\n" + more;
    assert s[|a|] == '\n' && s[|a|] in s;
    assert forall k | 0 <= k < |a| :: s[k] == a[k] && a[k] in a;
  }

  lemma SplitCons(a: string, more: string)
    requires '\n' !in a
    ensures SplitLines(a + "\n" + more) == [a] + SplitLines(more)
  {
    hide FirstNewline;
    var s := a + "\n" + more;
    FirstNewlineAfter(a, more);
    assert s[..|a|] == a && s[|a| + 1..] == more;
  }

  lemma EventLineOf(event: string)
    requires TrimStart(event, IsJsSpace) == event && TrimEnd(event, IsJsSpace) == event
    ensures var line := "event: " + event;
      IsEventLine(line) && Trim(line[6..], IsJsSpace) == event
  {
    var line := "event: " + event;
    assert line[..6] == "event:" && line[6..] == " " + event && (" " + event)[1..] == event;
  }

  lemma DataLineOf(data: string)
    ensures var line := "data: " + data;
      !IsEventLine(line) && IsDataLine(line) && TrimStart(line[5..], IsJsSpace) == TrimStart(data, IsJsSpace)
  {
    var line := "data: " + data;
    assert line[..5] == "data:" && line[5..] == " " + data && (" " + data)[1..] == data;
    assert line[0] == 'd' && "event:"[0] == 'e';
    if |line| >= 6 { assert line[..6][0] == 'd'; }
  }

  lemma ParseOfRaw(f: Frame)
    requires CleanEvent(f.event) && '\n' !in f.data
    ensures ParseFrame(Raw(f)) == Frame(f.event, TrimStart(f.data, IsJsSpace))
  {
    var e, d := "event: " + f.event, "data: " + f.data;
    hide IsEventLine, Trim, TrimStart;
    EventLineOf(f.event);
    DataLineOf(f.data);
    SplitCons(e, d);
    assert Raw(f) == e + "\n" + d;
    var lines := [e, d];
    assert '\n' !in d;
    assert SplitLines(d) == [d];
    assert lines[..1] == [e];
    assert EventOf([e]) == f.event && DataLines([e]) == DataLines([e][..0]);
    assert EventOf(lines) == EventOf([e]);
    assert DataLines(lines) == [TrimStart(f.data, IsJsSpace)];
  }

  lemma BreakOfPrint(f: Frame, more: string)
    requires CleanEvent(f.event) && '\n' !in f.data
    ensures FirstBreak(Print(f) + more) == Some(|Raw(f)|)
    ensures (Print(f) + more)[..|Raw(f)|] == Raw(f)
    ensures (Print(f) + more)[|Raw(f)| + 2..] == more
  {
    var raw, s := Raw(f), Print(f) + more;
    assert s == raw + "\n\n" + more;
    assert BreakAt(s, |raw|);
    forall j | 0 <= j < |raw| ensures !BreakAt(s, j) {
      assert s[j] == raw[j];
      var n := 7 + |f.event|;
      if j < 7 {
      } else if j < n {
        assert raw[j] == f.event[j - 7] && f.event[j - 7] in f.event;
      } else if j == n {
        assert s[j + 1] == 'd';
      } else if j >= n + 7 {
        assert raw[j] == f.data[j - n - 7] && f.data[j - n - 7] in f.data;
      }
    }
    FirstBreakIs(s, |raw|);
  }

  /** A printed clean frame is delivered as itself, whatever follows. */
  lemma DeliveredAsItself(f: Frame, more: string)
    requires Clean(f)
    ensures Consume(Print(f) + more) == [f] + Consume(more)
  {
    hide ParseFrame, FirstBreak, Print, Leftover;
    BreakOfPrint(f, more);
    ParseOfRaw(f);
  }

  /** The text of an unnamed frame up to its break. */
  lemma BreakOfUnnamed(data: string, more: string)
    requires '\n' !in data
    ensures var s, raw := Print(Frame("", data)) + more, "data: " + data;
      FirstBreak(s) == Some(|raw|) && s[..|raw|] == raw && s[|raw| + 2..] == more
  {
    var s, raw := Print(Frame("", data)) + more, "data: " + data;
    assert s == raw + "\n\n" + more;
    assert BreakAt(s, |raw|);
    forall j | 0 <= j < |raw| ensures !BreakAt(s, j) {
      assert s[j] == raw[j];
      if j >= 6 { assert raw[j] == data[j - 6] && data[j - 6] in data; }
    }
    FirstBreakIs(s, |raw|);
  }

  /** Without an event line a frame is a "message", and an empty one is dropped. */
  lemma UnnamedIsMessage(data: string, more: string)
    requires CleanData(data)
    ensures Consume(Print(Frame("", data)) + more)
      == (if data == "" then [] else [Frame("message", data)]) + Consume(more)
  {
    var raw := "data: " + data;
    BreakOfUnnamed(data, more);
    assert ParseFrame(raw) == Frame("message", data) by {
      hide IsEventLine, Trim, TrimStart;
      DataLineOf(data);
      assert raw[0] == 'd' && raw[1] == 'a' && raw[5] == ' ';
      assert '\n' !in raw;
      assert SplitLines(raw) == [raw];
      assert EventOf([raw][..0]) == "message" && DataLines([raw][..0]) == [];
    }
    hide ParseFrame, FirstBreak, Print, Leftover;
  }

  lemma RawHasNoBreak(f: Frame)
    requires CleanEvent(f.event) && '\n' !in f.data
    ensures FirstBreak(Raw(f)) == None
  {
    var raw := Raw(f);
    BreakOfPrint(f, "");
    assert Print(f) + "" == raw + "\n\n";
    BreakFromIsFirst(raw + "\n\n", 0);
    BreakFromIsFirst(raw, 0);
    forall j: nat | j < |raw| ensures !BreakAt(raw, j) {
      assert !BreakAt(raw + "\n\n", j);
      assert raw[j] == (raw + "\n\n")[j];
      if j + 1 < |raw| { assert raw[j + 1] == (raw + "\n\n")[j + 1]; }
    }
  }

  lemma NotAllBlank(s: string)
    requires s != "" && !IsJsSpace(s[0])
    ensures Trim(s, IsJsSpace) != ""
  {
    var before, after := TrimIs(s, IsJsSpace);
  }

  /** A last frame without its blank line is delivered when it has data. */
  lemma UnterminatedIsDelivered(f: Frame)
    requires Clean(f)
    ensures Consume(Raw(f)) == if f.data != "" then [f] else []
  {
    hide Trim, ParseFrame, FirstBreak;
    RawHasNoBreak(f);
    assert Raw(f)[0] == 'e';
    NotAllBlank(Raw(f));
    ParseOfRaw(f);
  }

  lemma {:induction false} UnterminatedTail(fs: seq<Frame>, f: Frame)
    requires (forall g | g in fs :: Clean(g)) && Clean(f) && f.data != ""
    ensures Consume(PrintAll(fs) + Raw(f)) == fs + [f]
  {
    hide Consume, Print, Clean, Raw;
    var raw := Raw(f);
    if fs == [] {
      UnterminatedIsDelivered(f);
      assert PrintAll(fs) + raw == raw && fs + [f] == [f];
    } else {
      var first, rest := fs[0], PrintAll(fs[1..]) + raw;
      assert first in fs;
      UnterminatedTail(fs[1..], f);
      assert PrintAll(fs) + raw == Print(first) + rest;
      DeliveredAsItself(first, rest);
      assert fs + [f] == [first] + (fs[1..] + [f]);
    }
  }

  /**
   Round trip: for every list of clean frames, the parser delivers exactly that list.
   With `ConsumeSse` this holds for every way of cutting the text into reads.
   */
  lemma {:induction false} RoundTrip(fs: seq<Frame>)
    requires forall f | f in fs :: Clean(f)
    ensures Consume(PrintAll(fs)) == fs
  {
    if fs != [] {
      var f, rest := fs[0], PrintAll(fs[1..]);
      hide Consume, Print, Clean;
      assert f in fs;
      RoundTrip(fs[1..]);
      DeliveredAsItself(f, rest);
      assert fs == [f] + fs[1..];
    }
  }
}
