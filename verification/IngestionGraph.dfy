/**
 The ingestion state machine: chunker, normalizer loop, validator, human approval and
 finalizer.  The file, the model's answers, the operator's decision, the embedding
 service and the text of the log lines are arbitrary inputs of each step.
 */
module IngestionGraph {
  import opened Support
  import opened Rounding
  import opened Pricing
  import opened Catalogue
  import opened ServiceItems
  import opened IngestionNodes
  import CatalogueStore

  datatype Node = Chunker | Normalizer | Validator | Approval | Finalizer | Finished | Crashed

  /**
   An element of the parsed file: a dictionary, with whether `json.dumps` takes it (a date
   cell of a workbook is refused), or whatever else the list of a JSON file may hold.
   */
  datatype SourceRow = Record(fields: Dict, dumps: bool) | Scalar

  /** A normalizer call fails, answers something unreadable, or answers a list. */
  datatype Answer = CallFailed | Unreadable | Decoded(entries: seq<Entry>)

  /** The run's fixed inputs: the owner and `ingestion_chunk_size`. */
  datatype Setup = Setup(tenant: string, size: nat)

  ghost predicate ValidSetup(c: Setup) {
    c.tenant != "" && c.size > 0
  }

  /** `answers` is the history of normalizer calls, in call order. */
  datatype State = State(
    node: Node,
    chunks: seq<seq<SourceRow>>,
    index: nat,
    items: seq<ServiceItem>,
    errors: seq<(string, seq<Rule>)>,
    flagged: seq<ServiceItem>,
    confidence: real,
    approved: Option<bool>,
    failed: bool,
    logs: seq<string>,
    table: Table,
    answers: seq<Answer>)

  datatype Action =
    | ReadFile(rows: Option<seq<SourceRow>>, lines: seq<string>)
    | Normalize(answer: Answer, lines: seq<string>)
    | Validate(lines: seq<string>)
    | Decide(approve: bool, lines: seq<string>)
    | Finalize(available: bool, lines: seq<string>)

  function Initial(t: Table): State {
    State(Chunker, [], 0, [], [], [], 0.0, None, false, [], t, [])
  }

  /** The dictionaries of a chunk; an entry that meets anything else crashes the node instead. */
  function Dicts(chunk: seq<SourceRow>): seq<Dict> {
    seq(|chunk|, i requires 0 <= i < |chunk| => if chunk[i].Record? then chunk[i].fields else [])
  }

  /** `json.dumps(chunk)` raises, before the `try` around the model call. */
  predicate PromptFails(chunk: seq<SourceRow>) {
    exists r | r in chunk :: r.Record? && !r.dumps
  }

  /** `raw_row.items()` raises: an object of the answer stands where the chunk has no dictionary. */
  predicate ParseFails(chunk: seq<SourceRow>, answer: Answer) {
    answer.Decoded?
    && exists i | 0 <= i < |chunk| && i < |answer.entries| :: answer.entries[i].Object? && chunk[i].Scalar?
  }

  function ChunkItems(tenant: string, answer: Answer, chunk: seq<SourceRow>): seq<ServiceItem>
    requires tenant != ""
  {
    if answer.Decoded? then ParsedItems(tenant, Dicts(chunk), answer.entries, |answer.entries|) else []
  }

  /** `finalizer_node`'s effect on the table; None is its error report. */
  ghost function Finalized(t: Table, tenant: string, items: seq<ServiceItem>, available: bool): Option<Table> {
    var ws := WritesOf(FirstById(items));
    if ws == [] then Some(t)
    else if !available || exists w | w in ws :: !WriteAdmitted(w) then None
    else Some(UpsertAll(t, tenant, ws))
  }

  /** One node of the graph with its outgoing edge; None when the node is not the current one. */
  ghost function Act(c: Setup, s: State, a: Action): Option<State>
    requires ValidSetup(c)
  {
    match (s.node, a)
    case (Chunker, ReadFile(rows, lines)) =>
      Some(match rows
           case None => s.(node := Normalizer, chunks := [], failed := true, logs := s.logs + lines)
           case Some(rs) =>
             s.(node := Normalizer, chunks := SplitChunks(rs, c.size), index := 0, flagged := [],
                confidence := 0.0, approved := None, failed := false, logs := s.logs + lines))
    case (Normalizer, Normalize(answer, lines)) =>
      var next := if s.index + 1 < |s.chunks| then Normalizer else Validator;
      if s.index >= |s.chunks| then
        Some(s.(node := next, index := s.index + 1, logs := s.logs + lines))
      else if PromptFails(s.chunks[s.index]) || ParseFails(s.chunks[s.index], answer) then
        Some(s.(node := Crashed))
      else
        Some(s.(node := next, index := s.index + 1,
                items := s.items + ChunkItems(c.tenant, answer, s.chunks[s.index]),
                failed := answer.CallFailed?, logs := s.logs + lines, answers := s.answers + [answer]))
    case (Validator, Validate(lines)) =>
      var flagged, confidence := DoubtfulItems(s.items), Round4(MeanConfidence(s.items));
      Some(s.(node := if SkipsReview(flagged, confidence) then Finalizer else Approval,
              errors := s.errors + ErrorsOf(s.items), flagged := flagged, confidence := confidence,
              failed := false, logs := s.logs + lines))
    case (Approval, Decide(approve, lines)) =>
      Some(s.(node := if approve then Finalizer else Finished, approved := Some(approve),
              failed := false, logs := s.logs + lines))
    case (Finalizer, Finalize(available, lines)) =>
      var t := Finalized(s.table, c.tenant, s.items, available);
      Some(s.(node := Finished, table := if t.Some? then t.value else s.table,
              failed := t.None?, logs := s.logs + lines))
    case _ => None
  }

  ghost function Exec(c: Setup, s: State, acts: seq<Action>): Option<State>
    requires ValidSetup(c)
    decreases |acts|
  {
    if acts == [] then Some(s)
    else var s' := Act(c, s, acts[0]); if s'.None? then None else Exec(c, s'.value, acts[1..])
  }

  // ---------------------------------------------------------- invariants

  /** The per-chunk outputs: the i-th call was about the i-th chunk. */
  function Outputs(tenant: string, answers: seq<Answer>, chunks: seq<seq<SourceRow>>): seq<seq<ServiceItem>>
    requires tenant != "" && |answers| <= |chunks|
  {
    seq(|answers|, i requires 0 <= i < |answers| => ChunkItems(tenant, answers[i], chunks[i]))
  }

  ghost predicate LoopInv(c: Setup, s: State)
    requires ValidSetup(c)
  {
    && |s.answers| <= |s.chunks|
    && s.items == Flatten(Outputs(c.tenant, s.answers, s.chunks))
    && (forall item | item in s.items :: Sound(item) && item.tenant == c.tenant)
    && (s.node == Chunker ==> s.chunks == [] && s.index == 0)
    && (s.node == Normalizer ==> |s.answers| == s.index && (s.index < |s.chunks| || (s.index == 0 && s.chunks == [])))
    && (s.node == Crashed ==> |s.answers| == s.index < |s.chunks|)
    && (s.node !in {Chunker, Normalizer, Crashed} ==> |s.answers| == |s.chunks|)
  }

  ghost predicate ReviewInv(c: Setup, t: Table, s: State)
    requires ValidSetup(c)
  {
    && (s.node != Finished ==> s.table == t)
    && s.errors == (if s.node in {Approval, Finalizer, Finished} then ErrorsOf(s.items) else [])
    && (s.node in {Approval, Finalizer, Finished} ==>
          s.flagged == DoubtfulItems(s.items) && s.confidence == Round4(MeanConfidence(s.items)))
    && (s.node !in {Finalizer, Finished} ==> s.approved == None)
    && (s.node in {Finalizer, Finished} ==> s.approved.Some? || SkipsReview(s.flagged, s.confidence))
    && (s.node == Finalizer ==> s.approved != Some(false))
    && (s.node == Finished ==>
          if s.approved == Some(false) then s.table == t
          else if s.failed then s.table == t
          else Finalized(t, c.tenant, s.items, true) == Some(s.table))
  }

  ghost predicate Inv(c: Setup, t: Table, s: State)
    requires ValidSetup(c)
  {
    LoopInv(c, s) && ReviewInv(c, t, s)
  }

  lemma ChunkItemsSound(tenant: string, answer: Answer, chunk: seq<SourceRow>)
    requires tenant != ""
    ensures forall item | item in ChunkItems(tenant, answer, chunk) :: Sound(item) && item.tenant == tenant
  {
    if answer.Decoded? { EntriesConserved(tenant, Dicts(chunk), answer.entries, |answer.entries|); }
  }

  lemma NormalizeLoop(c: Setup, s: State, a: Action)
    requires ValidSetup(c) && LoopInv(c, s) && s.node == Normalizer && a.Normalize?
    ensures LoopInv(c, Act(c, s, a).value)
  {
    var s' := Act(c, s, a).value;
    if s.index < |s.chunks| && s'.node != Crashed {
      var output := ChunkItems(c.tenant, a.answer, s.chunks[s.index]);
      ChunkItemsSound(c.tenant, a.answer, s.chunks[s.index]);
      assert Outputs(c.tenant, s'.answers, s'.chunks) == Outputs(c.tenant, s.answers, s.chunks) + [output];
      FlattenSnoc(Outputs(c.tenant, s.answers, s.chunks), output);
    }
  }

  /** A write that went through did not depend on an absent service. */
  lemma FinalizedAvailable(t: Table, tenant: string, items: seq<ServiceItem>, available: bool)
    ensures var r := Finalized(t, tenant, items, available); r.Some? ==> Finalized(t, tenant, items, true) == r
  {
    hide FirstById, WritesOf, UpsertAll;
  }

  lemma LoopStep(c: Setup, s: State, a: Action)
    requires ValidSetup(c) && LoopInv(c, s) && Act(c, s, a).Some?
    ensures LoopInv(c, Act(c, s, a).value)
  {
    hide DoubtfulItems, MeanConfidence, ErrorsOf, Finalized, SkipsReview, ChunkItems;
    if a.Normalize? {
      NormalizeLoop(c, s, a);
    } else if a.ReadFile? {
      var s' := Act(c, s, a).value;
      assert Outputs(c.tenant, s'.answers, s'.chunks) == Outputs(c.tenant, s.answers, s.chunks) == [];
    }
  }

  lemma ReviewStep(c: Setup, t: Table, s: State, a: Action)
    requires ValidSetup(c) && ReviewInv(c, t, s) && Act(c, s, a).Some?
    ensures ReviewInv(c, t, Act(c, s, a).value)
    ensures s.logs <= Act(c, s, a).value.logs
  {
    hide DoubtfulItems, MeanConfidence, ErrorsOf, Finalized, SkipsReview, ChunkItems, PromptFails, ParseFails;
    if a.Finalize? { FinalizedAvailable(s.table, c.tenant, s.items, a.available); }
  }

  lemma StepKeepsInv(c: Setup, t: Table, s: State, a: Action)
    requires ValidSetup(c) && Inv(c, t, s) && Act(c, s, a).Some?
    ensures Inv(c, t, Act(c, s, a).value)
    ensures s.logs <= Act(c, s, a).value.logs
  {
    hide LoopInv, ReviewInv, Act;
    LoopStep(c, s, a);
    ReviewStep(c, t, s, a);
  }

  lemma InitialInv(c: Setup, t: Table)
    requires ValidSetup(c)
    ensures Inv(c, t, Initial(t))
  {
  }

  lemma {:induction false} RunKeepsInv(c: Setup, t: Table, s: State, acts: seq<Action>)
    requires ValidSetup(c) && Inv(c, t, s) && Exec(c, s, acts).Some?
    ensures Inv(c, t, Exec(c, s, acts).value)
    ensures s.logs <= Exec(c, s, acts).value.logs
    decreases |acts|
  {
    if acts != [] {
      StepKeepsInv(c, t, s, acts[0]);
      RunKeepsInv(c, t, Act(c, s, acts[0]).value, acts[1..]);
    }
  }

  /** The operator's decision among the actions. */
  function Decision(acts: seq<Action>): Option<bool> {
    if acts == [] then None
    else if acts[|acts| - 1].Decide? then Some(acts[|acts| - 1].approve)
    else Decision(acts[..|acts| - 1])
  }

  /** The log lines of the actions. */
  function Written(acts: seq<Action>): seq<string> {
    if acts == [] then [] else Written(acts[..|acts| - 1]) + acts[|acts| - 1].lines
  }

  lemma {:induction false} ExecAppend(c: Setup, s: State, a: seq<Action>, b: seq<Action>)
    requires ValidSetup(c)
    ensures Exec(c, s, a + b) == var mid := Exec(c, s, a); if mid.None? then None else Exec(c, mid.value, b)
    decreases |a|
  {
    if a == [] {
      assert a + b == b;
    } else {
      assert (a + b)[1..] == a[1..] + b;
      if Act(c, s, a[0]).Some? { ExecAppend(c, Act(c, s, a[0]).value, a[1..], b); }
    }
  }

  /** The last step of a run. */
  lemma LastStep(c: Setup, s: State, acts: seq<Action>)
    requires ValidSetup(c) && acts != [] && Exec(c, s, acts).Some?
    ensures var before := Exec(c, s, acts[..|acts| - 1]);
      before.Some? && Act(c, before.value, acts[|acts| - 1]) == Exec(c, s, acts)
  {
    var last := acts[|acts| - 1];
    assert acts == acts[..|acts| - 1] + [last];
    ExecAppend(c, s, acts[..|acts| - 1], [last]);
    assert [last][1..] == [];
  }

  /** The decision and the log of a run are what its actions brought; a crash writes no line. */
  lemma {:induction false} RunRecords(c: Setup, t: Table, acts: seq<Action>)
    requires ValidSetup(c) && Exec(c, Initial(t), acts).Some?
    ensures var s := Exec(c, Initial(t), acts).value;
      && s.approved == Decision(acts)
      && s.logs == Written(if s.node == Crashed then acts[..|acts| - 1] else acts)
      && (s.node == Chunker ==> acts == [])
      && (s.node == Crashed ==> acts != [])
    decreases |acts|
  {
    if acts != [] {
      var init := acts[..|acts| - 1];
      LastStep(c, Initial(t), acts);
      RunRecords(c, t, init);
      RecordStep(c, Exec(c, Initial(t), init).value, acts[|acts| - 1]);
    }
  }

  lemma RecordStep(c: Setup, s: State, a: Action)
    requires ValidSetup(c) && Act(c, s, a).Some?
    ensures var s' := Act(c, s, a).value;
      && s.node != Crashed && s'.node != Chunker
      && s'.approved ==
         (if a.Decide? then Some(a.approve) else if a.ReadFile? && a.rows.Some? then None else s.approved)
      && s'.logs == s.logs + (if s'.node == Crashed then [] else a.lines)
      && (a.ReadFile? ==> s.node == Chunker)
  {
    hide DoubtfulItems, MeanConfidence, ErrorsOf, Finalized, SkipsReview, ChunkItems, PromptFails, ParseFails;
  }

  // -------------------------------------------------------- main results

  /**
   From the validator on, the items are the outputs of every chunk, once each and in
   order; a crash leaves those of the chunks before it and the table as it was.
   */
  lemma ItemsAreAllOutputs(c: Setup, t: Table, acts: seq<Action>)
    requires ValidSetup(c) && Exec(c, Initial(t), acts).Some?
    ensures var s := Exec(c, Initial(t), acts).value;
      && |s.answers| <= |s.chunks|
      && (s.node !in {Chunker, Normalizer} ==> s.items == Flatten(Outputs(c.tenant, s.answers, s.chunks)))
      && (s.node !in {Chunker, Normalizer, Crashed} ==> |s.answers| == |s.chunks|)
      && (s.node == Crashed ==> |s.answers| == s.index < |s.chunks| && s.table == t)
  {
    RunKeepsInv(c, t, Initial(t), acts);
  }

  function ObjectsIn(answer: Answer): nat {
    if answer.Decoded? then Objects(answer.entries, |answer.entries|) else 0
  }

  /** The number of objects in the first `n` answers. */
  function Offset(answers: seq<Answer>, n: nat): nat
    requires n <= |answers|
  {
    if n == 0 then 0 else Offset(answers, n - 1) + ObjectsIn(answers[n - 1])
  }

  /** The row that the k-th entry of an answer is read with. */
  function RowFor(chunk: seq<SourceRow>, k: nat): Dict {
    if k < |chunk| && chunk[k].Record? then chunk[k].fields else []
  }

  /** Of the first `n` answers, every object has its item at its place, and there is no other. */
  ghost predicate Conserved(
      tenant: string, answers: seq<Answer>, chunks: seq<seq<SourceRow>>, n: nat, items: seq<ServiceItem>)
    requires n <= |answers| <= |chunks|
  {
    && |items| == Offset(answers, n)
    && forall i, k | 0 <= i < n && answers[i].Decoded? && 0 <= k < |answers[i].entries|
                     && answers[i].entries[k].Object? ::
         var pos := Offset(answers, i) + Objects(answers[i].entries, k);
         pos < |items| && Represents(items[pos], tenant, RowFor(chunks[i], k), answers[i].entries[k], k)
  }

  lemma ConservedNext(
      tenant: string, answers: seq<Answer>, chunks: seq<seq<SourceRow>>, n: nat, items: seq<ServiceItem>)
    requires tenant != "" && n < |answers| <= |chunks| && Conserved(tenant, answers, chunks, n, items)
    ensures Conserved(tenant, answers, chunks, n + 1, items + ChunkItems(tenant, answers[n], chunks[n]))
  {
    hide Represents, Objects, ParsedItems;
    var output := ChunkItems(tenant, answers[n], chunks[n]);
    if answers[n].Decoded? {
      EntriesConserved(tenant, Dicts(chunks[n]), answers[n].entries, |answers[n].entries|);
    }
    assert |output| == ObjectsIn(answers[n]);
    forall i, k | 0 <= i < n + 1 && answers[i].Decoded? && 0 <= k < |answers[i].entries|
                  && answers[i].entries[k].Object?
      ensures var pos := Offset(answers, i) + Objects(answers[i].entries, k);
        pos < |items + output|
        && Represents((items + output)[pos], tenant, RowFor(chunks[i], k), answers[i].entries[k], k)
    {
      if i == n {
        assert (items + output)[|items| + Objects(answers[n].entries, k)] == output[Objects(answers[n].entries, k)];
      }
    }
  }

  lemma {:induction false} OutputsConserved(tenant: string, answers: seq<Answer>, chunks: seq<seq<SourceRow>>, n: nat)
    requires tenant != "" && n <= |answers| <= |chunks|
    ensures Conserved(tenant, answers, chunks, n, Flatten(Outputs(tenant, answers, chunks)[..n]))
  {
    var outputs := Outputs(tenant, answers, chunks);
    if n > 0 {
      hide Conserved, ChunkItems;
      OutputsConserved(tenant, answers, chunks, n - 1);
      assert outputs[..n] == outputs[..n - 1] + [outputs[n - 1]];
      FlattenSnoc(outputs[..n - 1], outputs[n - 1]);
      ConservedNext(tenant, answers, chunks, n - 1, Flatten(outputs[..n - 1]));
    }
  }

  lemma ItemsAreConserved(c: Setup, s: State)
    requires ValidSetup(c) && LoopInv(c, s)
    ensures Conserved(c.tenant, s.answers, s.chunks, |s.answers|, s.items)
  {
    hide Conserved, ChunkItems;
    OutputsConserved(c.tenant, s.answers, s.chunks, |s.answers|);
    assert Outputs(c.tenant, s.answers, s.chunks)[..|s.answers|] == Outputs(c.tenant, s.answers, s.chunks);
  }

  /** The answers of the normalizer calls among the actions. */
  function Calls(acts: seq<Action>): seq<Answer> {
    if acts == [] then []
    else (if acts[0].Normalize? then [acts[0].answer] else []) + Calls(acts[1..])
  }

  /** A pass over a chunk records its answer; one that crashes, or finds no chunk, records none. */
  lemma AnswerStep(c: Setup, s: State, a: Action)
    requires ValidSetup(c) && s.node != Chunker && LoopInv(c, s) && Act(c, s, a).Some?
    ensures var s' := Act(c, s, a).value;
      && s'.node != Chunker && s'.chunks == s.chunks && LoopInv(c, s')
      && s'.answers == s.answers + (if s'.node == Crashed || s.chunks == [] then [] else Calls([a]))
      && (s'.node == Crashed ==> forall b :: Act(c, s', b).None?)
  {
    LoopStep(c, s, a);
    hide LoopInv, DoubtfulItems, MeanConfidence, ErrorsOf, Finalized, SkipsReview, ChunkItems, PromptFails, ParseFails;
    assert [a][1..] == [] && s.answers + [] == s.answers;
    if a.Normalize? { IndexInRange(c, s); }
  }

  lemma IndexInRange(c: Setup, s: State)
    requires ValidSetup(c) && s.node == Normalizer && LoopInv(c, s)
    ensures s.chunks != [] ==> s.index < |s.chunks|
  {
  }

  lemma CallsCons(a: Action, acts: seq<Action>)
    ensures Calls([a] + acts) == Calls([a]) + Calls(acts)
  {
    assert ([a] + acts)[1..] == acts && [a][1..] == [];
  }

  lemma {:induction false} AnswersAreCalls(c: Setup, s: State, acts: seq<Action>)
    requires ValidSetup(c) && s.node != Chunker && LoopInv(c, s) && Exec(c, s, acts).Some?
    ensures var s' := Exec(c, s, acts).value;
      && s'.answers <= s.answers + Calls(acts)
      && (s'.node != Crashed && s.chunks != [] ==> s'.answers == s.answers + Calls(acts))
    decreases |acts|
  {
    hide Act, LoopInv;
    if acts == [] {
      assert Calls(acts) == [] && s.answers + [] == s.answers;
    } else {
      var s' := Act(c, s, acts[0]).value;
      AnswerStep(c, s, acts[0]);
      assert acts == [acts[0]] + acts[1..];
      CallsCons(acts[0], acts[1..]);
      AnswersAreCalls(c, s', acts[1..]);
      hide Calls;
      if s'.node == Crashed {
        assert acts[1..] == [];
      } else if s.chunks == [] {
        NoChunksNoAnswers(c, s', acts[1..]);
      } else {
        assert s'.answers + Calls(acts[1..]) == s.answers + Calls(acts);
      }
    }
  }

  lemma {:induction false} NoChunksNoAnswers(c: Setup, s: State, acts: seq<Action>)
    requires ValidSetup(c) && s.node != Chunker && LoopInv(c, s) && s.chunks == [] && Exec(c, s, acts).Some?
    ensures Exec(c, s, acts).value.answers == s.answers
    decreases |acts|
  {
    if acts != [] {
      AnswerStep(c, s, acts[0]);
      hide Act, LoopInv, Calls;
      NoChunksNoAnswers(c, Act(c, s, acts[0]).value, acts[1..]);
    }
  }

  /**
   Conservation over whole runs: the chunks are the file's rows, the i-th recorded answer
   is that of the i-th call and about the i-th chunk, and the items are, in order, one
   for every object of those answers, each representing its entry and its row.
   */
  lemma ItemsConserved(c: Setup, t: Table, rows: seq<SourceRow>, lines: seq<string>, acts: seq<Action>)
    requires ValidSetup(c) && Exec(c, Initial(t), [ReadFile(Some(rows), lines)] + acts).Some?
    ensures var s := Exec(c, Initial(t), [ReadFile(Some(rows), lines)] + acts).value;
      && Flatten(s.chunks) == rows && |s.answers| <= |s.chunks|
      && s.answers <= Calls(acts)
      && (s.node != Crashed && rows != [] ==> s.answers == Calls(acts))
      && Conserved(c.tenant, s.answers, s.chunks, |s.answers|, s.items)
  {
    var first := ReadFile(Some(rows), lines);
    var s1 := Act(c, Initial(t), first).value;
    assert ([first] + acts)[1..] == acts;
    ReadStep(c, t, rows, lines);
    hide Act, Conserved, SplitChunks, Calls, Flatten, ReviewInv;
    InitialInv(c, t);
    RunKeepsInv(c, t, Initial(t), [first] + acts);
    AnswersAreCalls(c, s1, acts);
    ChunksStay(c, s1, acts);
    ItemsAreConserved(c, Exec(c, s1, acts).value);
    assert [] + Calls(acts) == Calls(acts);
  }

  lemma ReadStep(c: Setup, t: Table, rows: seq<SourceRow>, lines: seq<string>)
    requires ValidSetup(c)
    ensures var s := Act(c, Initial(t), ReadFile(Some(rows), lines)).value;
      && s.node == Normalizer && s.answers == [] && LoopInv(c, s)
      && Flatten(s.chunks) == rows && (rows != [] ==> s.chunks != [])
  {
    LoopStep(c, Initial(t), ReadFile(Some(rows), lines));
    ChunksAreRows(rows, c.size);
    ChunksAreFull(rows, c.size);
  }

  /** The chunks of a run are those of the file that was read. */
  lemma {:induction false} ChunksStay(c: Setup, s: State, acts: seq<Action>)
    requires ValidSetup(c) && s.node != Chunker && Exec(c, s, acts).Some?
    ensures Exec(c, s, acts).value.chunks == s.chunks && Exec(c, s, acts).value.node != Chunker
    decreases |acts|
  {
    if acts != [] { ChunksStay(c, Act(c, s, acts[0]).value, acts[1..]); }
  }

  /** An upper bound on the steps still to come once the file has been read. */
  function StepsLeft(s: State): nat {
    match s.node
    case Chunker => 0
    case Normalizer => (if s.index < |s.chunks| then |s.chunks| - s.index else 1) + 3
    case Validator => 3
    case Approval => 2
    case Finalizer => 1
    case _ => 0
  }

  lemma {:induction false} RunIsShort(c: Setup, s: State, acts: seq<Action>)
    requires ValidSetup(c) && s.node != Chunker && Exec(c, s, acts).Some?
    ensures |acts| + StepsLeft(Exec(c, s, acts).value) <= StepsLeft(s)
    decreases |acts|
  {
    if acts != [] { RunIsShort(c, Act(c, s, acts[0]).value, acts[1..]); }
  }

  /** Every run ends within four steps more than it has chunks, and none gets stuck before its end or a crash. */
  lemma IngestionTerminates(c: Setup, t: Table, rows: Option<seq<SourceRow>>, lines: seq<string>, acts: seq<Action>)
    requires ValidSetup(c) && Exec(c, Initial(t), [ReadFile(rows, lines)] + acts).Some?
    ensures var s := Exec(c, Initial(t), [ReadFile(rows, lines)] + acts).value;
      var n := if rows.None? then 0 else |SplitChunks(rows.value, c.size)|;
      && |s.chunks| == n
      && 1 + |acts| <= 4 + (if n == 0 then 1 else n)
      && (s.node in {Finished, Crashed} <==> forall a :: Act(c, s, a).None?)
  {
    var s1 := Act(c, Initial(t), ReadFile(rows, lines)).value;
    assert ([ReadFile(rows, lines)] + acts)[1..] == acts;
    RunIsShort(c, s1, acts);
    ChunksStay(c, s1, acts);
    var s := Exec(c, s1, acts).value;
    match s.node {
      case Normalizer => assert Act(c, s, Normalize(CallFailed, [])).Some?;
      case Validator => assert Act(c, s, Validate([])).Some?;
      case Approval => assert Act(c, s, Decide(true, [])).Some?;
      case Finalizer => assert Act(c, s, Finalize(true, [])).Some?;
      case _ =>
    }
  }

  // ------------------------------------------------- when a file can crash it

  /**
   Where a pass of the normalizer leads: it crashes on a chunk that cannot be dumped or on
   an object that meets no dictionary; otherwise the next chunk is next, or the validator.
   */
  lemma NormalizerLeadsTo(c: Setup, s: State, answer: Answer, lines: seq<string>)
    requires ValidSetup(c) && LoopInv(c, s) && s.node == Normalizer
    ensures var s' := Act(c, s, Normalize(answer, lines)).value;
      && (s'.node == Crashed <==>
            && s.chunks != []
            && var chunk := s.chunks[s.index];
               || (exists r | r in chunk :: r.Record? && !r.dumps)
               || (answer.Decoded? && exists k | 0 <= k < |answer.entries| && k < |chunk| ::
                     answer.entries[k].Object? && chunk[k].Scalar?))
      && (s'.node == Crashed ==> s' == s.(node := Crashed))
      && (s'.node != Crashed ==>
            && s'.index == s.index + 1 && s'.node == (if s'.index < |s.chunks| then Normalizer else Validator)
            && s'.failed == (if s.chunks == [] then s.failed else answer.CallFailed?))
  {
    hide ChunkItems;
  }

  predicate Clean(r: SourceRow) {
    r.Record? && r.dumps
  }

  predicate CleanChunks(chunks: seq<seq<SourceRow>>, from: nat) {
    forall j | from <= j < |chunks| :: forall r | r in chunks[j] :: Clean(r)
  }

  lemma {:induction false} CleanChunksNeverCrash(c: Setup, s: State, acts: seq<Action>)
    requires ValidSetup(c) && s.node !in {Chunker, Crashed} && CleanChunks(s.chunks, 0) && Exec(c, s, acts).Some?
    ensures Exec(c, s, acts).value.node != Crashed
    decreases |acts|
  {
    if acts != [] {
      var s' := Act(c, s, acts[0]).value;
      if acts[0].Normalize? && s.index < |s.chunks| {
        var chunk := s.chunks[s.index];
        assert forall k | 0 <= k < |chunk| :: chunk[k] in chunk;
        assert !PromptFails(chunk) && !ParseFails(chunk, acts[0].answer);
      }
      CleanChunksNeverCrash(c, s', acts[1..]);
    }
  }

  /** Answers that bring a run to its first unclean chunk, and there to a crash. */
  lemma {:induction false} UncleanChunkCrashes(c: Setup, s: State) returns (acts: seq<Action>)
    requires ValidSetup(c) && s.node == Normalizer && !CleanChunks(s.chunks, s.index)
    ensures Exec(c, s, acts).Some? && Exec(c, s, acts).value.node == Crashed
    decreases |s.chunks| - s.index
  {
    var chunk := s.chunks[s.index];
    if forall r | r in chunk :: Clean(r) {
      var s' := Act(c, s, Normalize(CallFailed, [])).value;
      assert !CleanChunks(s'.chunks, s'.index);
      acts := UncleanChunkCrashes(c, s');
      acts := [Normalize(CallFailed, [])] + acts;
    } else {
      var k :| 0 <= k < |chunk| && !Clean(chunk[k]);
      var f := Fields(Absent, Absent, Absent, Absent, Absent, Absent, Absent, Absent, Absent, Absent, Absent, false);
      var entries := seq(|chunk|, _ => Object(f, ""));
      assert entries[k].Object?;
      acts := [Normalize(Decoded(entries), [])];
      assert acts[1..] == [];
      assert chunk[k].Scalar? || PromptFails(chunk);
    }
  }

  lemma {:induction false} FlattenMembers<T>(parts: seq<seq<T>>)
    ensures forall x :: x in Flatten(parts) <==> exists i :: 0 <= i < |parts| && x in parts[i]
  {
    if parts != [] {
      FlattenMembers(parts[1..]);
      forall x ensures x in Flatten(parts) <==> exists i :: 0 <= i < |parts| && x in parts[i] {
        if x in Flatten(parts[1..]) {
          var i :| 0 <= i < |parts[1..]| && x in parts[1..][i];
          assert x in parts[i + 1];
        }
        if exists i :: 0 <= i < |parts| && x in parts[i] {
          var i :| 0 <= i < |parts| && x in parts[i];
          if i > 0 { assert x in parts[1..][i - 1]; }
        }
      }
    }
  }

  /** A file can crash its run exactly when it has a row that is no dictionary, or one that cannot be dumped. */
  lemma CrashableIff(c: Setup, t: Table, rows: seq<SourceRow>, lines: seq<string>)
    requires ValidSetup(c)
    ensures (exists acts :: CrashesWith(c, t, rows, lines, acts)) <==> exists r | r in rows :: r.Scalar? || !r.dumps
  {
    var s := Act(c, Initial(t), ReadFile(Some(rows), lines)).value;
    ChunksAreRows(rows, c.size);
    FlattenMembers(s.chunks);
    if r :| r in rows && !Clean(r) {
      var j :| 0 <= j < |s.chunks| && r in s.chunks[j];
      var acts := UncleanChunkCrashes(c, s);
      assert ([ReadFile(Some(rows), lines)] + acts)[1..] == acts;
      assert CrashesWith(c, t, rows, lines, acts);
    } else {
      assert CleanChunks(s.chunks, 0);
      forall acts ensures !CrashesWith(c, t, rows, lines, acts) {
        assert ([ReadFile(Some(rows), lines)] + acts)[1..] == acts;
        if Exec(c, s, acts).Some? { CleanChunksNeverCrash(c, s, acts); }
      }
    }
  }

  ghost predicate CrashesWith(c: Setup, t: Table, rows: seq<SourceRow>, lines: seq<string>, acts: seq<Action>)
    requires ValidSetup(c)
  {
    var end := Exec(c, Initial(t), [ReadFile(Some(rows), lines)] + acts);
    end.Some? && end.value.node == Crashed
  }

  /**
   No unreviewed doubtful item: after the validator the run stands before the finalizer
   exactly when nothing is doubtful and the exact mean is high enough, and it then has
   only confident, properly constructed items.
   */
  lemma UnreviewedIff(c: Setup, t: Table, acts: seq<Action>)
    requires ValidSetup(c) && Exec(c, Initial(t), acts).Some?
    requires Exec(c, Initial(t), acts).value.node in {Approval, Finalizer}
    requires Exec(c, Initial(t), acts).value.approved == None
    ensures var s := Exec(c, Initial(t), acts).value;
      s.node == Finalizer <==>
        && (forall item | item in s.items :: !item.flagged && forall r :: !RuleBroken(item, r))
        && MeanConfidence(s.items) >= 0.74995
    ensures var s := Exec(c, Initial(t), acts).value;
      s.node == Finalizer ==>
        && s.items != []
        && forall item | item in s.items :: item.confidence >= 0.5 && CheckHolds(item.priceType, item.price)
    ensures var s := Exec(c, Initial(t), acts).value;
      s.node == Finalizer ==>
        && |s.answers| == |s.chunks|
        && forall i, k | 0 <= i < |s.answers| && s.answers[i].Decoded? && 0 <= k < |s.answers[i].entries|
                         && s.answers[i].entries[k].Object? ::
          !Refused(c.tenant, s.answers[i].entries[k].fields)
  {
    hide Exec, Carries, RuleBroken, BrokenRules, ConfidenceSum;
    var s := Exec(c, Initial(t), acts).value;
    RunKeepsInv(c, t, Initial(t), acts);
    SkipsReviewIff(s.items);
    ApprovalHasCause(c, Initial(t), acts);
    if s.node == Finalizer {
      ItemsAreConserved(c, s);
      forall i, k | 0 <= i < |s.answers| && s.answers[i].Decoded? && 0 <= k < |s.answers[i].entries|
                    && s.answers[i].entries[k].Object?
        ensures !Refused(c.tenant, s.answers[i].entries[k].fields)
      {
        var pos := Offset(s.answers, i) + Objects(s.answers[i].entries, k);
        assert s.items[pos] in s.items;
        assert !s.items[pos].flagged;
      }
    }
  }

  predicate AtApprovalForCause(s: State) {
    s.node == Approval ==> !SkipsReview(s.flagged, s.confidence)
  }

  /** Standing at the approval node means the router sent the run there. */
  lemma {:induction false} ApprovalHasCause(c: Setup, s: State, acts: seq<Action>)
    requires ValidSetup(c) && Exec(c, s, acts).Some? && AtApprovalForCause(s)
    ensures AtApprovalForCause(Exec(c, s, acts).value)
    decreases |acts|
  {
    if acts != [] {
      ApprovalCauseStep(c, s, acts[0]);
      ApprovalHasCause(c, Act(c, s, acts[0]).value, acts[1..]);
    }
  }

  lemma ApprovalCauseStep(c: Setup, s: State, a: Action)
    requires ValidSetup(c) && Act(c, s, a).Some? && AtApprovalForCause(s)
    ensures AtApprovalForCause(Act(c, s, a).value)
  {
  }

  lemma FinalizedIs(t: Table, tenant: string, items: seq<ServiceItem>)
    requires forall item | item in items :: Sound(item)
    ensures Finalized(t, tenant, items, true) == Some(UpsertAll(t, tenant, WritesOf(FirstById(items))))
    ensures Finalized(t, tenant, items, false).None? <==> items != []
  {
    hide FirstById;
    var ps := FirstByIdExact(items);
    if items != [] { assert IsFirst(items, 0) && 0 in ps; }
    SoundItemsWriteSoundly(items);
  }

  /**
   What a finished run leaves: a rejected or failed one the table it found; any other
   one the old table updated with the last-named survivors, and writing them again
   would change nothing.
   */
  lemma FinishedRunTable(c: Setup, t: Table, acts: seq<Action>)
    requires ValidSetup(c) && Keyed(t) && Exec(c, Initial(t), acts).Some?
    requires Exec(c, Initial(t), acts).value.node == Finished
    ensures var s := Exec(c, Initial(t), acts).value;
      && Keyed(s.table) && (Valid(t) ==> Valid(s.table))
      && (Decision(acts) == Some(false) || s.failed ==> s.table == t)
      && (Decision(acts) != Some(false) && !s.failed ==>
            && s.table == UpsertAll(t, c.tenant, WritesOf(FirstById(s.items)))
            && UpsertAll(s.table, c.tenant, WritesOf(FirstById(s.items))) == s.table
            && forall tn, name ::
                 var last, row := LastNamed(FirstById(s.items), name), Stored(s.table, tn, name);
                 if tn == c.tenant && last.Some? then row.Some? && HoldsItem(row.value, c.tenant, last.value)
                 else row == Stored(t, tn, name))
  {
    hide UpsertAll, FirstById, WritesOf, LastNamed, Stored, Finalized, Exec, HoldsItem;
    var s := Exec(c, Initial(t), acts).value;
    RunKeepsInv(c, t, Initial(t), acts);
    RunRecords(c, t, acts);
    FinalizedTable(t, c.tenant, s.items);
    FinalizedIs(t, c.tenant, s.items);
  }

  /** A finalizer fails exactly when a service is missing and there is something to write: never at the CHECK. */
  lemma FinalizerFailsIff(c: Setup, t: Table, acts: seq<Action>, available: bool, lines: seq<string>)
    requires ValidSetup(c) && Exec(c, Initial(t), acts).Some?
    requires Exec(c, Initial(t), acts).value.node == Finalizer
    ensures var s := Exec(c, Initial(t), acts).value;
      Act(c, s, Finalize(available, lines)).value.failed <==> !available && s.items != []
  {
    hide UpsertAll, FirstById, WritesOf, LastNamed, Stored, Finalized, Exec;
    var s := Exec(c, Initial(t), acts).value;
    RunKeepsInv(c, t, Initial(t), acts);
    FinalizedIs(s.table, c.tenant, s.items);
  }

  // -------------------------------------------------- nodes on live state

  /** `finalizer_node` over the live store. */
  method FinalizerNode(store: CatalogueStore.Store, tenant: string, items: seq<ServiceItem>, available: bool)
    returns (written: Option<nat>)
    requires Keyed(store.Now().table)
    modifies store
    ensures var t := Finalized(old(store.Now().table), tenant, items, available);
      && store.Now() == old(store.Now()).(table := if t.Some? then t.value else old(store.Now().table))
      && written == if t.Some? then Some(|FirstById(items)|) else None
    ensures Keyed(store.Now().table)
  {
    var unique := Deduplicate(items);
    if unique == [] {
      return Some(0);
    }
    if !available {
      return None;
    }
    var writes := ComposeWrites(unique);
    written := store.UpsertItems(writes, tenant);
  }

  /** `normalizer_node`: what it appends to `normalized_items`, whether it reports an error, and whether it raises. */
  method NormalizerNode(tenant: string, chunks: seq<seq<SourceRow>>, index: nat, answer: Answer)
    returns (items: seq<ServiceItem>, failed: bool, crashed: bool)
    requires tenant != ""
    ensures crashed == (
      && index < |chunks|
      && (|| (exists r | r in chunks[index] :: r.Record? && !r.dumps)
          || (answer.Decoded? && exists k | 0 <= k < |answer.entries| && k < |chunks[index]| ::
                answer.entries[k].Object? && chunks[index][k].Scalar?)))
    ensures items == if index < |chunks| && !crashed then ChunkItems(tenant, answer, chunks[index]) else []
    ensures failed == (index < |chunks| && !crashed && answer.CallFailed?)
  {
    items, failed, crashed := [], false, false;
    if index >= |chunks| {
      return;
    }
    if PromptFails(chunks[index]) {
      crashed := true;
      return;
    }
    if answer.CallFailed? {
      failed := true;
      return;
    }
    if answer.Unreadable? {
      return;
    }
    if ParseFails(chunks[index], answer) {
      crashed := true;
      return;
    }
    items := ParseEntries(tenant, Dicts(chunks[index]), answer.entries);
  }
}
