/**
 Exactly which events survive the transport.  Every data line loses at least its label
 in parsing, so the delivered data can never be longer than what was sent, and it is
 shorter as soon as one datum has a newline or leading white space.
 */
module SseExact {
  import opened Support
  import opened Sse

  function LineTotal(lines: seq<string>): nat {
    if lines == [] then 0 else LineTotal(lines[..|lines| - 1]) + |lines[|lines| - 1]| + 1
  }

  lemma {:induction false} LineTotalAppend(a: seq<string>, b: seq<string>)
    ensures LineTotal(a + b) == LineTotal(a) + LineTotal(b)
  {
    if b == [] {
      assert a + b == a;
    } else {
      assert (a + b)[..|a + b| - 1] == a + b[..|b| - 1];
      LineTotalAppend(a, b[..|b| - 1]);
    }
  }

  lemma LineTotalOne(line: string)
    ensures LineTotal([line]) == |line| + 1
  {
    assert [line][..|[line]| - 1] == [];
  }

  lemma {:induction false} SplitTotal(s: string)
    ensures LineTotal(SplitLines(s)) == |s| + 1
    decreases |s|
  {
    var i := FirstNewline(s);
    if i.None? {
      LineTotalOne(s);
    } else {
      SplitTotal(s[i.value + 1..]);
      LineTotalOne(s[..i.value]);
      LineTotalAppend([s[..i.value]], SplitLines(s[i.value + 1..]));
    }
  }

  lemma {:induction false} JoinTotal(lines: seq<string>)
    requires lines != []
    ensures |Join(lines, "\n")| + 1 == LineTotal(lines)
    decreases |lines|
  {
    LineTotalOne(lines[0]);
    if |lines| == 1 {
      assert lines == [lines[0]];
    } else {
      JoinTotal(lines[1..]);
      assert lines == [lines[0]] + lines[1..];
      LineTotalAppend([lines[0]], lines[1..]);
    }
  }

  lemma {:induction false} DataTotal(lines: seq<string>)
    ensures LineTotal(DataLines(lines)) + 5 * |DataLines(lines)| <= LineTotal(lines)
  {
    if lines != [] {
      var init, last := lines[..|lines| - 1], lines[|lines| - 1];
      DataTotal(init);
      if IsDataLine(last) {
        LineTotalOne(TrimStart(last[5..], IsJsSpace));
        LineTotalAppend(DataLines(init), [TrimStart(last[5..], IsJsSpace)]);
      } else {
        assert DataLines(lines) == DataLines(init);
      }
    }
  }

  lemma {:induction false} DataLinesAppend(a: seq<string>, b: seq<string>)
    ensures DataLines(a + b) == DataLines(a) + DataLines(b)
  {
    if b == [] {
      assert a + b == a;
    } else {
      assert (a + b)[..|a + b| - 1] == a + b[..|b| - 1];
      DataLinesAppend(a, b[..|b| - 1]);
    }
  }

  /** A raw frame's data is empty or at least five characters shorter. */
  lemma RawCap(raw: string)
    ensures var d := ParseFrame(raw).data; d == "" || |d| + 5 <= |raw|
  {
    var lines := SplitLines(raw);
    SplitTotal(raw);
    DataTotal(lines);
    if DataLines(lines) != [] { JoinTotal(DataLines(lines)); }
  }

  /** The front of a printed frame, possibly after a newline left over from the frame before. */
  function Front(y: string, event: string): string {
    y + "event: " + event + "\n" + "data: "
  }

  predicate Carry(y: string) {
    y == "" || y == "\n"
  }

  lemma DataLinesOne(line: string)
    ensures DataLines([line]) == if IsDataLine(line) then [TrimStart(line[5..], IsJsSpace)] else []
  {
    assert [line][..|[line]| - 1] == [];
  }

  /** The data lines of a raw text. */
  function DataOf(raw: string): seq<string> {
    DataLines(SplitLines(raw))
  }

  lemma DataOfCons(line: string, more: string)
    requires '\n' !in line
    ensures DataOf(line + "\n" + more) ==
      (if IsDataLine(line) then [TrimStart(line[5..], IsJsSpace)] else []) + DataOf(more)
  {
    SplitCons(line, more);
    DataLinesOne(line);
    DataLinesAppend([line], SplitLines(more));
  }

  lemma NotData(line: string)
    requires line == "" || line[0] == 'e'
    ensures !IsDataLine(line)
  {
    assert "data:"[0] == 'd';
    if |line| >= 5 { assert line[..5][0] == line[0]; }
  }

  lemma FrontLines(y: string, event: string, rest: string)
    requires Carry(y) && '\n' !in event
    ensures DataOf(Front(y, event) + rest) == DataOf("data: " + rest)
  {
    hide DataOf, IsDataLine;
    var e, d := "event: " + event, "data: " + rest;
    DataOfCons(e, d);
    NotData(e);
    if y == "" {
      assert Front(y, event) + rest == e + "\n" + d;
    } else {
      DataOfCons("", e + "\n" + d);
      NotData("");
      assert Front(y, event) + rest == "" + "\n" + (e + "\n" + d);
    }
  }

  lemma OneLabelledLine(rest: string)
    requires '\n' !in rest
    ensures DataOf("data: " + rest) == [TrimStart(rest, IsJsSpace)]
  {
    DataLineOf(rest);
    DataLinesOne("data: " + rest);
  }

  lemma LabelledLines(first: string, more: string)
    requires '\n' !in first
    ensures DataOf("data: " + (first + "\n" + more)) == [TrimStart(first, IsJsSpace)] + DataOf(more)
  {
    hide DataOf, IsDataLine, TrimStart;
    DataLineOf(first);
    DataOfCons("data: " + first, more);
    assert "data: " + (first + "\n" + more) == ("data: " + first) + "\n" + more;
  }

  lemma SeveralLinesCap(first: string, more: string)
    ensures |Join([first] + DataOf(more), "\n")| <= |first| + |more|
  {
    var lines := SplitLines(more);
    JoinTotal([first] + DataOf(more));
    LineTotalOne(first);
    LineTotalAppend([first], DataOf(more));
    SplitTotal(more);
    DataTotal(lines);
  }

  /** The first raw frame of a printed one delivers all of `rest` only if `rest` is clean. */
  lemma FrontCap(y: string, event: string, rest: string)
    requires Carry(y) && '\n' !in event
    ensures var d := ParseFrame(Front(y, event) + rest).data;
      |d| <= |rest| && (|d| == |rest| ==> CleanData(rest))
  {
    FrontLines(y, event, rest);
    var i := FirstNewline(rest);
    if i.None? {
      OneLabelledLine(rest);
    } else {
      var first, more := rest[..i.value], rest[i.value + 1..];
      assert rest == first + "\n" + more;
      LabelledLines(first, more);
      SeveralLinesCap(TrimStart(first, IsJsSpace), more);
    }
  }

  // ---------------------------------------------------------------- sums

  function DataSum(fs: seq<Frame>): nat {
    if fs == [] then 0 else |fs[0].data| + DataSum(fs[1..])
  }

  lemma {:induction false} DataSumAppend(a: seq<Frame>, b: seq<Frame>)
    ensures DataSum(a + b) == DataSum(a) + DataSum(b)
  {
    if a == [] {
      assert a + b == b;
    } else {
      assert (a + b)[1..] == a[1..] + b;
      DataSumAppend(a[1..], b);
    }
  }

  lemma KeptSum(f: Frame)
    ensures DataSum(Kept(f)) == |f.data|
  {
  }

  /** The text's frames, then those of the remaining text. */
  ghost predicate LeadsTo(s: string, fs: seq<Frame>, t: string) {
    Drained(s) == fs + Drained(t) && Rest(s) == Rest(t)
  }

  lemma DrainFirst(s: string, b: nat)
    requires FirstBreak(s) == Some(b)
    ensures LeadsTo(s, Kept(ParseFrame(s[..b])), s[b + 2..])
  {
  }

  lemma LeadsOn(s: string, a: seq<Frame>, t: string, b: seq<Frame>, u: string)
    requires LeadsTo(s, a, t) && LeadsTo(t, b, u)
    ensures LeadsTo(s, a + b, u)
  {
    hide Drained, Rest;
    assert a + (b + Drained(u)) == a + b + Drained(u);
  }

  lemma BreakExists(s: string, i: nat)
    requires BreakAt(s, i)
    ensures FirstBreak(s).Some? && FirstBreak(s).value <= i
  {
    BreakFromIsFirst(s, 0);
  }

  /** The frames cut out of arbitrary text that a frame end follows. */
  lemma {:induction false} TextCap(t: string, more: string) returns (fs: seq<Frame>, y: string)
    ensures LeadsTo(t + "\n\n" + more, fs, y + more)
    ensures Carry(y) && (DataSum(fs) == 0 || DataSum(fs) + 5 <= |t|)
    decreases |t|
  {
    hide Drained, Rest, ParseFrame, FirstBreak, DataSum, Kept, LeadsTo;
    var s := t + "\n\n" + more;
    BreakExists(s, |t|);
    var b := FirstBreak(s).value;
    DrainFirst(s, b);
    RawCap(s[..b]);
    KeptSum(ParseFrame(s[..b]));
    fs := Kept(ParseFrame(s[..b]));
    if b + 2 <= |t| {
      assert s[b + 2..] == t[b + 2..] + "\n\n" + more;
      var fs';
      fs', y := TextCap(t[b + 2..], more);
      LeadsOn(s, fs, s[b + 2..], fs', y + more);
      DataSumAppend(fs, fs');
      fs := fs + fs';
    } else {
      y := if b == |t| then "" else "\n";
      assert s[b + 2..] == y + more;
    }
  }

  lemma FrontBreak(y: string, f: Frame, more: string) returns (q: nat)
    requires Carry(y) && '\n' !in f.event
    ensures FirstBreak(Front(y, f.event) + f.data + "\n\n" + more) == Some(|Front(y, f.event)| + q)
    ensures q <= |f.data|
  {
    var front := Front(y, f.event);
    var s := front + f.data + "\n\n" + more;
    BreakExists(s, |front| + |f.data|);
    var b := FirstBreak(s).value;
    var n := |y| + 7 + |f.event|;
    assert forall k | |y| + 7 <= k < n :: s[k] == f.event[k - |y| - 7] && f.event[k - |y| - 7] in f.event;
    assert s[n] == '\n' && s[n + 1] == 'd' && s[|y|] == 'e';
    q := b - |front|;
  }

  /** One printed frame: what is delivered from it, and what it leaves in front of the next. */
  lemma FrameCap(y: string, f: Frame, more: string) returns (fs: seq<Frame>, y': string)
    requires Carry(y) && '\n' !in f.event
    ensures LeadsTo(Front(y, f.event) + f.data + "\n\n" + more, fs, y' + more)
    ensures Carry(y') && DataSum(fs) <= |f.data| && (DataSum(fs) == |f.data| ==> CleanData(f.data))
  {
    hide Drained, Rest, ParseFrame, FirstBreak, DataSum, Kept, LeadsTo, CleanData;
    var front := Front(y, f.event);
    var s := front + f.data + "\n\n" + more;
    var q := FrontBreak(y, f, more);
    var b := |front| + q;
    assert s[..b] == front + f.data[..q];
    DrainFirst(s, b);
    FrontCap(y, f.event, f.data[..q]);
    KeptSum(ParseFrame(s[..b]));
    fs := Kept(ParseFrame(s[..b]));
    if q + 2 <= |f.data| {
      assert s[b + 2..] == f.data[q + 2..] + "\n\n" + more;
      var fs1;
      fs1, y' := TextCap(f.data[q + 2..], more);
      LeadsOn(s, fs, s[b + 2..], fs1, y' + more);
      DataSumAppend(fs, fs1);
      fs := fs + fs1;
    } else {
      y' := if q == |f.data| then "" else "\n";
      assert s[b + 2..] == y' + more;
      assert q == |f.data| ==> f.data[..q] == f.data;
    }
  }

  lemma ConsumeLeads(s: string, fs: seq<Frame>, t: string)
    requires LeadsTo(s, fs, t)
    ensures DataSum(Consume(s)) == DataSum(fs) + DataSum(Consume(t))
  {
    hide Drained, Rest, Leftover;
    assert Consume(s) == fs + Consume(t);
    DataSumAppend(fs, Consume(t));
  }

  lemma CarryDeliversNothing(y: string)
    requires Carry(y)
    ensures Consume(y) == []
  {
    RawCap(y);
    BreakFromIsFirst(y, 0);
  }

  ghost predicate Named(fs: seq<Frame>) {
    forall f | f in fs :: CleanEvent(f.event) && f.event != "message"
  }

  lemma PrintedFront(y: string, f: Frame, more: string)
    requires f.event != ""
    ensures y + (Print(f) + more) == Front(y, f.event) + f.data + "\n\n" + more
  {
  }

  lemma {:induction false} ListCap(y: string, fs: seq<Frame>)
    requires Carry(y) && Named(fs)
    ensures DataSum(Consume(y + PrintAll(fs))) <= DataSum(fs)
    ensures DataSum(Consume(y + PrintAll(fs))) == DataSum(fs) ==> forall f | f in fs :: CleanData(f.data)
    decreases |fs|
  {
    hide Consume, LeadsTo, CleanData;
    if fs == [] {
      CarryDeliversNothing(y);
      assert y + PrintAll(fs) == y;
    } else {
      var f, more := fs[0], PrintAll(fs[1..]);
      assert f in fs;
      var first, y' := FrameCap(y, f, more);
      PrintedFront(y, f, more);
      assert y + PrintAll(fs) == y + (Print(f) + more);
      ListCap(y', fs[1..]);
      ConsumeLeads(y + PrintAll(fs), first, y' + more);
    }
  }

  /** A list of named events is delivered unchanged exactly when every datum is clean. */
  lemma DeliveredIff(fs: seq<Frame>)
    requires Named(fs)
    ensures Consume(PrintAll(fs)) == fs <==> forall f | f in fs :: CleanData(f.data)
  {
    if forall f | f in fs :: CleanData(f.data) {
      RoundTrip(fs);
    } else {
      ListCap("", fs);
      assert "" + PrintAll(fs) == PrintAll(fs);
    }
  }
}
