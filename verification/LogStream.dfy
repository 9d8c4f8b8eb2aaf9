/**
 The ingestion stream end to end: a cursor over the run's append-only log prints each
 line once, one closing event follows, and the browser parses the text back.
 */
module LogStream {
  import opened Support
  import opened Sse
  import opened SseExact
  import opened Catalogue
  import opened IngestionGraph

  /** How `graph.astream` ends; then whether the checkpoint holds a pending interrupt, None when it cannot be read. */
  datatype Outcome = GraphInterrupt | GraphError | StreamEnded(pending: Option<bool>)

  function ClosingName(o: Outcome): string {
    match o
    case GraphInterrupt => "interrupt"
    case GraphError => "error"
    case StreamEnded(pending) => if pending == Some(true) then "interrupt" else "done"
  }

  /** How the stream of a run that can go no further may end. */
  predicate EndsAs(node: Node, o: Outcome) {
    match node
    case Crashed => o.GraphError?
    case Approval => o.GraphInterrupt? || (o.StreamEnded? && o.pending != Some(false))
    case Finished => o.StreamEnded? && o.pending != Some(true)
    case _ => false
  }

  function Events(snapshots: seq<seq<string>>, outcome: Outcome, payload: string): seq<Frame> {
    LogFrames(Emitted(snapshots, |snapshots|)) + [Frame(ClosingName(outcome), payload)]
  }

  function LogFrames(lines: seq<string>): seq<Frame> {
    seq(|lines|, i requires 0 <= i < |lines| => Frame("log", lines[i]))
  }

  /** The lines a cursor has emitted after the first `n` snapshots of the log. */
  function Emitted(snapshots: seq<seq<string>>, n: nat): seq<string>
    requires n <= |snapshots|
  {
    if n == 0 then []
    else
      var before, all := Emitted(snapshots, n - 1), snapshots[n - 1];
      before + if |before| <= |all| then all[|before|..] else []
  }

  /** The loop of `_ingest_sse_generator` and its closing event. */
  method IngestEvents(snapshots: seq<seq<string>>, outcome: Outcome, payload: string) returns (events: seq<Frame>)
    ensures events == Events(snapshots, outcome, payload)
    ensures events != [] && forall i | 0 <= i < |events| - 1 :: events[i].event == "log"
    ensures events[|events| - 1] == Frame(
      if outcome.GraphError? then "error"
      else if outcome.GraphInterrupt? || outcome.pending == Some(true) then "interrupt"
      else "done", payload)
  {
    events := [];
    var emittedLogCount := 0;
    for i := 0 to |snapshots|
      invariant emittedLogCount == |Emitted(snapshots, i)|
      invariant events == LogFrames(Emitted(snapshots, i))
    {
      var newLogs := if emittedLogCount <= |snapshots[i]| then snapshots[i][emittedLogCount..] else [];
      for j := 0 to |newLogs|
        invariant events == LogFrames(Emitted(snapshots, i) + newLogs[..j])
      {
        events := events + [Frame("log", newLogs[j])];
      }
      assert newLogs[..|newLogs|] == newLogs;
      emittedLogCount := emittedLogCount + |newLogs|;
    }
    match outcome {
      case GraphInterrupt => events := events + [Frame("interrupt", payload)];
      case GraphError => events := events + [Frame("error", payload)];
      case StreamEnded(pending) =>
        if pending == Some(true) {
          events := events + [Frame("interrupt", payload)];
        } else {
          events := events + [Frame("done", payload)];
        }
    }
  }

  ghost predicate Growing(snapshots: seq<seq<string>>) {
    forall i | 0 <= i < |snapshots| - 1 :: snapshots[i] <= snapshots[i + 1]
  }

  /** Over a log that only grows, the cursor emits every line once and in order. */
  lemma {:induction false} EmittedIsLastLog(snapshots: seq<seq<string>>, n: nat)
    requires Growing(snapshots) && n <= |snapshots|
    ensures Emitted(snapshots, n) == if n == 0 then [] else snapshots[n - 1]
  {
    if n > 1 {
      EmittedIsLastLog(snapshots, n - 1);
      assert snapshots[n - 2] <= snapshots[n - 1];
    }
  }

  /** The log at the start of a run and after each of its steps. */
  ghost function Snapshots(c: Setup, s: State, acts: seq<Action>): seq<seq<string>>
    requires ValidSetup(c) && Exec(c, s, acts).Some?
    decreases |acts|
  {
    [s.logs] + if acts == [] then [] else Snapshots(c, Act(c, s, acts[0]).value, acts[1..])
  }

  lemma {:induction false} RunLogsGrow(c: Setup, t: Table, s: State, acts: seq<Action>)
    requires ValidSetup(c) && Inv(c, t, s) && Exec(c, s, acts).Some?
    ensures var ss := Snapshots(c, s, acts);
      Growing(ss) && ss != [] && ss[0] == s.logs && ss[|ss| - 1] == Exec(c, s, acts).value.logs
    decreases |acts|
  {
    if acts != [] {
      var s' := Act(c, s, acts[0]).value;
      StepKeepsInv(c, t, s, acts[0]);
      RunLogsGrow(c, t, s', acts[1..]);
      var ss := Snapshots(c, s', acts[1..]);
      assert Snapshots(c, s, acts) == [s.logs] + ss;
      forall i | 0 <= i < |ss| ensures ([s.logs] + ss)[i] <= ([s.logs] + ss)[i + 1] {
        if i > 0 { assert ss[i - 1] <= ss[i]; }
      }
    }
  }

  lemma NameIsClean(name: string)
    requires name != "" && !IsJsSpace(name[0]) && !IsJsSpace(name[|name| - 1])
    requires '\n' !in name && name[0] != 'm'
    ensures CleanEvent(name) && name != "message"
  {
    assert "message"[0] == 'm';
  }

  lemma NamesAreClean(o: Outcome)
    ensures CleanEvent("log") && CleanEvent(ClosingName(o))
    ensures "log" != "message" && ClosingName(o) != "message"
  {
    hide CleanEvent;
    NameIsClean("log");
    NameIsClean(ClosingName(o));
  }

  lemma ClosingTells(node: Node, o: Outcome)
    requires EndsAs(node, o)
    ensures ClosingName(o) == "error" <==> node == Crashed
    ensures ClosingName(o) == "interrupt" <==> node == Approval && o != StreamEnded(None)
    ensures ClosingName(o) == "done" <==> node == Finished || o == StreamEnded(None)
  {
    assert |"error"| == 5 && |"interrupt"| == 9 && |"done"| == 4;
    if o.StreamEnded? && o.pending.Some? {
      if o.pending.value { assert o.pending == Some(true); } else { assert o.pending == Some(false); }
    }
  }

  /**
   What the browser sees of a run, however the text is cut into reads: the run's log
   lines once each and in order, then exactly one closing event that tells how the run
   stands, if and only if every line and the payload are free of newlines and of leading
   white space.  An interrupted run whose checkpoint cannot be read is reported as done.
   */
  lemma RunDeliveredIff(c: Setup, t: Table, acts: seq<Action>, outcome: Outcome, payload: string)
    requires ValidSetup(c) && Exec(c, Initial(t), acts).Some?
    requires EndsAs(Exec(c, Initial(t), acts).value.node, outcome)
    ensures var sent := Events(Snapshots(c, Initial(t), acts), outcome, payload);
      var end := Exec(c, Initial(t), acts).value;
      var closing := sent[|sent| - 1];
      && |sent| == |end.logs| + 1
      && (forall i | 0 <= i < |end.logs| :: sent[i] == Frame("log", end.logs[i]))
      && closing.data == payload
      && (closing.event == "error" <==> end.node == Crashed)
      && (closing.event == "interrupt" <==> end.node == Approval && outcome != StreamEnded(None))
      && (closing.event == "done" <==> end.node == Finished || outcome == StreamEnded(None))
      && (Consume(PrintAll(sent)) == sent <==>
            (forall line | line in end.logs :: CleanData(line)) && CleanData(payload))
  {
    hide Consume, PrintAll, CleanData, ClosingName, EndsAs, Emitted;
    InitialInv(c, t);
    RunLogsGrow(c, t, Initial(t), acts);
    var ss := Snapshots(c, Initial(t), acts);
    EmittedIsLastLog(ss, |ss|);
    ClosingTells(Exec(c, Initial(t), acts).value.node, outcome);
    SentDeliveredIff(ss[|ss| - 1], outcome, payload);
  }

  lemma SentDeliveredIff(log: seq<string>, outcome: Outcome, payload: string)
    ensures var sent := LogFrames(log) + [Frame(ClosingName(outcome), payload)];
      Consume(PrintAll(sent)) == sent <==> (forall line | line in log :: CleanData(line)) && CleanData(payload)
  {
    hide Consume, PrintAll, CleanData, CleanEvent;
    var sent := LogFrames(log) + [Frame(ClosingName(outcome), payload)];
    NamesAreClean(outcome);
    DeliveredIff(sent);
    forall line | line in log ensures Frame("log", line) in sent {
      var i :| 0 <= i < |log| && log[i] == line;
      assert sent[i] == Frame("log", line);
    }
    assert sent[|log|] == Frame(ClosingName(outcome), payload);
  }
}
