/**
 The qualification state machine: sanitizer, the extractor-mapper-evaluator loop,
 calculator, the delivery loop and the human review.  The model's answers, the
 catalogue's answers and the adapter's answers are arbitrary inputs of each step.
 */
module QualificationGraph {
  import opened Support
  import opened Pricing
  import opened Catalogue
  import opened Matching
  import opened Scoring
  import opened Quotes

  datatype Node =
    | Sanitizer | Extractor | Mapper | Evaluator | Calculator | Delivery
    | HitlInterrupt | End | Crashed

  datatype Status = Processing | PendingReview | Completed | Error

  datatype Settings = Settings(
    tenant: string,
    rawText: string,
    maskToken: string,
    limits: Limits,
    threshold: real,
    maxRetry: int,
    maxDelivery: nat)

  ghost predicate ValidSettings(c: Settings) {
    ValidLimits(c.limits) && 0.0 <= c.threshold <= 1.0 && c.maxDelivery > 0
  }

  // ----------------------------------------------------------- sanitizer

  /** The half-open range of a pattern match. */
  datatype Span = Span(from: nat, to: nat)

  /** Disjoint non-empty matches of a text, left to right, none before `start`. */
  predicate Matches(text: string, spans: seq<Span>, start: nat) {
    spans == [] ||
    (start <= spans[0].from < spans[0].to <= |text| && Matches(text, spans[1..], spans[0].to))
  }

  /** `pattern.sub(token, text)` from position `start`. */
  function Substitute(text: string, spans: seq<Span>, token: string, start: nat): string
    requires start <= |text| && Matches(text, spans, start)
  {
    if spans == [] then text[start..]
    else text[start..spans[0].from] + token + Substitute(text, spans[1..], token, spans[0].to)
  }

  /** The patterns one after the other; None when a span list is not one of matches. */
  function Mask(text: string, passes: seq<seq<Span>>, token: string): Option<string>
    decreases |passes|
  {
    if passes == [] then Some(text)
    else if !Matches(text, passes[0], 0) then None
    else Mask(Substitute(text, passes[0], token, 0), passes[1..], token)
  }

  /** The text before, between and after the matches. */
  ghost predicate Gaps(text: string, spans: seq<Span>, start: nat, pieces: seq<string>) {
    && |pieces| == |spans| + 1
    && forall i | 0 <= i < |pieces| :: IsGap(text, spans, start, i, pieces[i])
  }

  predicate IsGap(text: string, spans: seq<Span>, start: nat, i: nat, piece: string)
    requires i <= |spans|
  {
    var lo := if i == 0 then start else spans[i - 1].to;
    var hi := if i == |spans| then |text| else spans[i].from;
    lo <= hi <= |text| && piece == text[lo..hi]
  }

  lemma {:induction false} SubstituteIsJoin(text: string, spans: seq<Span>, token: string, start: nat)
    returns (pieces: seq<string>)
    requires start <= |text| && Matches(text, spans, start)
    ensures Gaps(text, spans, start, pieces) && Substitute(text, spans, token, start) == Join(pieces, token)
    decreases |spans|
  {
    if spans == [] {
      pieces := [text[start..]];
    } else {
      var rest := SubstituteIsJoin(text, spans[1..], token, spans[0].to);
      pieces := [text[start..spans[0].from]] + rest;
      assert pieces[1..] == rest;
      forall i | 0 <= i < |pieces| ensures IsGap(text, spans, start, i, pieces[i]) {
        if i > 0 { assert IsGap(text, spans[1..], spans[0].to, i - 1, rest[i - 1]); }
      }
    }
  }

  /** One pass: the gaps stay, and the token stands for each match. */
  ghost predicate MaskedTo(text: string, spans: seq<Span>, token: string, result: string) {
    Matches(text, spans, 0) && exists pieces :: Gaps(text, spans, 0, pieces) && result == Join(pieces, token)
  }

  /** The patterns are applied in turn, each to what the one before left, and each replaces exactly its matches. */
  lemma {:induction false} MaskIsChain(text: string, passes: seq<seq<Span>>, token: string) returns (texts: seq<string>)
    requires Mask(text, passes, token).Some?
    ensures |texts| == |passes| + 1 && texts[0] == text && texts[|passes|] == Mask(text, passes, token).value
    ensures forall i | 0 <= i < |passes| :: MaskedTo(texts[i], passes[i], token, texts[i + 1])
    decreases |passes|
  {
    if passes == [] {
      texts := [text];
    } else {
      var pieces := SubstituteIsJoin(text, passes[0], token, 0);
      var rest := MaskIsChain(Substitute(text, passes[0], token, 0), passes[1..], token);
      texts := [text] + rest;
    }
  }

  /** Masking never empties a text as long as the token is not empty. */
  lemma {:induction false} MaskKeepsText(text: string, passes: seq<seq<Span>>, token: string)
    requires text != "" && token != ""
    ensures Mask(text, passes, token) != Some("")
    decreases |passes|
  {
    if passes != [] && Matches(text, passes[0], 0) {
      MaskKeepsText(Substitute(text, passes[0], token, 0), passes[1..], token);
    }
  }

  // --------------------------------------------------------------- state

  datatype Delivered = Accepted | Declined | Raised

  /** `calls` is the history of adapter calls; `failedQuote` records a calculator error. */
  datatype State = State(
    node: Node,
    text: string,
    extracted: seq<string>,
    mapping: Mapping,
    score: real,
    status: Status,
    retry: nat,
    total: real,
    onRequest: seq<string>,
    failedQuote: bool,
    attempts: nat,
    calls: seq<Delivered>)

  datatype LlmAnswer = Unreachable | Services(names: seq<string>)

  datatype Action =
    | Sanitize(passes: Option<seq<seq<Span>>>)
    | Extract(answer: LlmAnswer, marked: bool)
    | Map(answers: seq<QueryAnswer>)
    | Evaluate
    | Calculate
    | Deliver(outcome: Delivered)

  const NOTHING := Mapping([], [], false)

  function Initial(): State {
    State(Sanitizer, "", [], NOTHING, 0.0, Processing, 0, 0.0, [], false, 0, [])
  }

  /** `route_after_evaluator` */
  function RouteAfterEvaluator(c: Settings, score: real, retry: nat): Node {
    if score >= c.threshold then Calculator
    else if retry < c.maxRetry then Extractor
    else HitlInterrupt
  }

  /** `route_after_delivery` */
  function RouteAfterDelivery(c: Settings, success: bool, attempts: nat): Node {
    if success then End else if attempts < c.maxDelivery then Delivery else End
  }

  /** `evaluator_node` marks the run for review on its own reading of the settings. */
  predicate HeadingToHitl(c: Settings, score: real, retry: nat) {
    score < c.threshold && retry >= c.maxRetry
  }

  /** One node with its outgoing edge; None when the node is not the current one or the input is malformed. */
  function Act(c: Settings, s: State, a: Action): Option<State> {
    match (s.node, a)
    case (Sanitizer, Sanitize(passes)) =>
      if passes.None? then Some(s.(node := Extractor, text := "", status := Error))
      else
        var masked := Mask(c.rawText, passes.value, c.maskToken);
        if masked.None? then None
        else Some(s.(node := Extractor, text := masked.value, status := Processing))
    case (Extractor, Extract(answer, marked)) =>
      if s.text == "" then Some(s.(node := Mapper, extracted := []))
      else if answer.Unreachable? then
        Some(s.(node := Crashed, status := if marked then Error else s.status))
      else Some(s.(node := Mapper, extracted := answer.names, retry := s.retry + 1))
    case (Mapper, Map(answers)) =>
      if |answers| != |s.extracted| then None
      else Some(s.(node := Evaluator, mapping := MapQueries(c.limits, s.extracted, answers)))
    case (Evaluator, Evaluate) =>
      var score := Score(|s.extracted|, s.mapping);
      Some(s.(node := RouteAfterEvaluator(c, score, s.retry), score := score,
              status := if HeadingToHitl(c, score, s.retry) then PendingReview else s.status))
    case (Calculator, Calculate) =>
      var total := Total(s.mapping.mapped);
      Some(if total.None? then s.(node := Delivery, total := 0.0, status := Error, failedQuote := true)
           else s.(node := Delivery, total := total.value, onRequest := OnRequest(s.mapping.mapped),
                   status := Processing))
    case (Delivery, Deliver(answer)) =>
      Some(s.(node := RouteAfterDelivery(c, answer.Accepted?, s.attempts + 1), attempts := s.attempts + 1,
              calls := s.calls + [answer],
              status := if answer.Accepted? then Completed else s.status))
    case _ => None
  }

  function Exec(c: Settings, s: State, acts: seq<Action>): Option<State>
    decreases |acts|
  {
    if acts == [] then Some(s)
    else var s' := Act(c, s, acts[0]); if s'.None? then None else Exec(c, s'.value, acts[1..])
  }

  /** Catalogue answers rank the rows of some table. */
  ghost predicate FromTables(c: Settings, acts: seq<Action>) {
    forall a | a in acts && a.Map? :: RankedAnswers(c.tenant, a.answers)
  }

  /** Those tables are as the database enforces them; they satisfy C when `sound`. */
  ghost predicate Honest(c: Settings, acts: seq<Action>, sound: bool) {
    forall a | a in acts && a.Map? :: CatalogueAnswers(c.tenant, a.answers, sound)
  }

  lemma {:induction false} ExecAppend(c: Settings, s: State, a: seq<Action>, b: seq<Action>)
    ensures Exec(c, s, a + b) == var mid := Exec(c, s, a); if mid.None? then None else Exec(c, mid.value, b)
    decreases |a|
  {
    if a == [] {
      assert a + b == b;
    } else {
      assert (a + b)[1..] == a[1..] + b;
      if Act(c, s, a[0]).Some? { ExecAppend(c, Act(c, s, a[0]).value, a[1..], b); }
    }
  }

  lemma ExecNext(c: Settings, s: State, acts: seq<Action>, a: Action)
    requires Exec(c, s, acts).Some?
    ensures Exec(c, s, acts + [a]) == Act(c, Exec(c, s, acts).value, a)
  {
    ExecAppend(c, s, acts, [a]);
    assert [a][1..] == [];
  }

  /** The last step of a run. */
  lemma LastStep(c: Settings, s: State, acts: seq<Action>)
    requires acts != [] && Exec(c, s, acts).Some?
    ensures var before := Exec(c, s, acts[..|acts| - 1]);
      before.Some? && Act(c, before.value, acts[|acts| - 1]) == Exec(c, s, acts)
  {
    var last := acts[|acts| - 1];
    assert acts == acts[..|acts| - 1] + [last];
    ExecAppend(c, s, acts[..|acts| - 1], [last]);
    assert [last][1..] == [];
  }

  predicate Terminal(n: Node) {
    n.HitlInterrupt? || n.End? || n.Crashed?
  }

  // ---------------------------------------------------------- invariants

  function Passes(c: Settings): nat {
    if c.maxRetry < 1 then 1 else c.maxRetry
  }

  /** The run cannot loop through the extractor without consuming a retry. */
  predicate Progressing(c: Settings, text: string) {
    text != "" || c.maxRetry <= 0 || c.threshold <= 0.0
  }

  /** An upper bound on the steps still to come. */
  function StepsLeft(c: Settings, s: State): int {
    var loops := if s.text == "" then 1 else Passes(c) - s.retry;
    match s.node
    case Sanitizer => 2 + 3 * Passes(c) + c.maxDelivery
    case Extractor => 3 * loops + 1 + c.maxDelivery
    case Mapper => (if s.text == "" then 0 else 3 * loops) + 3 + c.maxDelivery
    case Evaluator => (if s.text == "" then 0 else 3 * loops) + 2 + c.maxDelivery
    case Calculator => 1 + c.maxDelivery
    case Delivery => c.maxDelivery - s.attempts
    case _ => 0
  }

  ghost predicate CounterInv(c: Settings, s: State) {
    && (s.text == "" ==> s.retry == 0 && (s.node in {Mapper, Evaluator} ==> s.extracted == []))
    && s.retry <= Passes(c)
    && (s.node == Extractor && s.text != "" ==> s.retry < Passes(c))
    && (s.node in {Mapper, Evaluator} && s.text != "" ==> 1 <= s.retry)
    && (s.node == Delivery ==> s.attempts < c.maxDelivery)
    && (s.node !in {Delivery, End} ==> s.attempts == 0)
    && s.attempts <= c.maxDelivery
    && |s.calls| == s.attempts
  }

  lemma ScoreOfNothing(m: Mapping)
    ensures Score(0, m) == 0.0
  {
  }

  lemma StepConsumes(c: Settings, s: State, a: Action)
    requires ValidSettings(c) && CounterInv(c, s) && Act(c, s, a).Some?
    requires s.node != Sanitizer && Progressing(c, s.text)
    ensures CounterInv(c, Act(c, s, a).value) && Act(c, s, a).value.text == s.text
    ensures Act(c, s, a).value.node != Sanitizer
    ensures 0 <= StepsLeft(c, Act(c, s, a).value) < StepsLeft(c, s)
  {
    hide Score, MapQueries, Mask, Total, OnRequest;
    if a.Evaluate? && s.text == "" {
      ScoreOfNothing(s.mapping);
    }
  }

  lemma {:induction false} RunConsumes(c: Settings, s: State, acts: seq<Action>)
    requires ValidSettings(c) && CounterInv(c, s) && Exec(c, s, acts).Some?
    requires s.node != Sanitizer && Progressing(c, s.text)
    ensures CounterInv(c, Exec(c, s, acts).value)
    ensures |acts| + StepsLeft(c, Exec(c, s, acts).value) <= StepsLeft(c, s)
    ensures acts != [] ==> 0 <= StepsLeft(c, Exec(c, s, acts).value)
    decreases |acts|
  {
    if acts != [] {
      StepConsumes(c, s, acts[0]);
      RunConsumes(c, Act(c, s, acts[0]).value, acts[1..]);
    }
  }

  function Count(acts: seq<Action>, which: Action -> bool): nat {
    if acts == [] then 0 else (if which(acts[0]) then 1 else 0) + Count(acts[1..], which)
  }

  lemma {:induction false} CountersCount(c: Settings, s: State, acts: seq<Action>)
    requires Exec(c, s, acts).Some? && s.text != "" && s.node != Sanitizer
    ensures var s' := Exec(c, s, acts).value;
      && s'.text == s.text
      && s'.attempts == s.attempts + Count(acts, (a: Action) => a.Deliver?)
      && s'.retry <= s.retry + Count(acts, (a: Action) => a.Extract?)
           <= s'.retry + if s'.node.Crashed? && !s.node.Crashed? then 1 else 0
    decreases |acts|
  {
    if acts != [] {
      CountersCount(c, Act(c, s, acts[0]).value, acts[1..]);
    }
  }

  /**
   Termination for all answers of model, catalogue and adapter: when the sanitizer hands
   over a non-empty text, the run has at most 2 + 3 max(1, max_retry_count) +
   delivery_max_attempts steps, and it stops only at a terminal node.
   */
  lemma QualificationTerminates(c: Settings, passes: seq<seq<Span>>, acts: seq<Action>)
    requires ValidSettings(c)
    requires var s := Act(c, Initial(), Sanitize(Some(passes))); s.Some? && s.value.text != ""
    requires Exec(c, Initial(), [Sanitize(Some(passes))] + acts).Some?
    ensures var s := Exec(c, Initial(), [Sanitize(Some(passes))] + acts).value;
      && 1 + |acts| <= 2 + 3 * (if c.maxRetry < 1 then 1 else c.maxRetry) + c.maxDelivery
      && Count(acts, (a: Action) => a.Extract?) <= (if c.maxRetry < 1 then 1 else c.maxRetry)
      && Count(acts, (a: Action) => a.Deliver?) <= c.maxDelivery
      && (Terminal(s.node) <==> forall a :: Act(c, s, a).None?)
  {
    assert ([Sanitize(Some(passes))] + acts)[1..] == acts;
    var s1 := Act(c, Initial(), Sanitize(Some(passes))).value;
    RunConsumes(c, s1, acts);
    CountersCount(c, s1, acts);
    CrashIsLast(c, s1, acts);
    NotStuck(c, Exec(c, s1, acts).value);
  }

  /** The extraction that crashes the run is one more than the retries it consumed. */
  lemma {:induction false} CrashIsLast(c: Settings, s: State, acts: seq<Action>)
    requires ValidSettings(c) && Exec(c, s, acts).Some? && s.text != "" && s.node != Sanitizer && CounterInv(c, s)
    requires s.node == Crashed ==> s.retry < Passes(c)
    ensures Exec(c, s, acts).value.node == Crashed ==> Exec(c, s, acts).value.retry < Passes(c)
    decreases |acts|
  {
    if acts != [] {
      StepConsumes(c, s, acts[0]);
      CrashIsLast(c, Act(c, s, acts[0]).value, acts[1..]);
    }
  }

  function FailAll(n: nat): seq<QueryAnswer> {
    seq(n, _ => SearchFailed)
  }

  lemma NotStuck(c: Settings, s: State)
    requires s.node != Sanitizer
    ensures Terminal(s.node) <==> forall a :: Act(c, s, a).None?
  {
    match s.node {
      case Extractor => assert Act(c, s, Extract(Services([]), false)).Some?;
      case Mapper => assert Act(c, s, Map(FailAll(|s.extracted|))).Some?;
      case Evaluator => assert Act(c, s, Evaluate).Some?;
      case Calculator => assert Act(c, s, Calculate).Some?;
      case Delivery => assert Act(c, s, Deliver(Declined)).Some?;
      case _ =>
    }
  }

  // ------------------------------------- exactly when the loop is bounded

  /** The state in which the sanitizer hands a text over. */
  function Sanitized(text: string, status: Status): State {
    Initial().(node := Extractor, text := text, status := status)
  }

  ghost predicate BoundedBy(c: Settings, s: State, n: int) {
    forall acts | Exec(c, s, acts).Some? :: |acts| <= n
  }

  ghost predicate Bounded(c: Settings, s: State) {
    exists n :: BoundedBy(c, s, n)
  }

  function Laps(n: nat): seq<Action> {
    if n == 0 then [] else [Extract(Services([]), false), Map([]), Evaluate] + Laps(n - 1)
  }

  lemma {:induction false} LapsRun(c: Settings, s: State, n: nat)
    requires s.node == Extractor && s.text == "" && !Progressing(c, s.text) && s.retry == 0
    ensures Exec(c, s, Laps(n)).Some? && |Laps(n)| == 3 * n
    decreases n
  {
    if n > 0 {
      var acts := Laps(n);
      var s1 := Act(c, s, acts[0]).value;
      var s2 := Act(c, s1, acts[1]).value;
      var s3 := Act(c, s2, acts[2]).value;
      assert s1 == s.(node := Mapper, extracted := []);
      assert s2 == s1.(node := Evaluator, mapping := NOTHING);
      assert s3.node == Extractor && s3.text == "" && s3.retry == 0;
      assert acts[1..][1..][1..] == Laps(n - 1);
      LapsRun(c, s3, n - 1);
      assert Exec(c, s2, acts[1..][1..]) == Exec(c, s3, Laps(n - 1));
      assert Exec(c, s1, acts[1..]) == Exec(c, s2, acts[1..][1..]);
    }
  }

  /** The extractor's return on an empty text consumes no retry: the loop is bounded exactly otherwise. */
  lemma BoundedIff(c: Settings, text: string, status: Status)
    requires ValidSettings(c)
    ensures Bounded(c, Sanitized(text, status)) <==> text != "" || c.maxRetry <= 0 || c.threshold <= 0.0
  {
    var s := Sanitized(text, status);
    if Progressing(c, text) {
      forall acts | Exec(c, s, acts).Some? ensures |acts| <= StepsLeft(c, s) {
        RunConsumes(c, s, acts);
      }
      assert BoundedBy(c, s, StepsLeft(c, s));
    } else if Bounded(c, s) {
      var n :| BoundedBy(c, s, n);
      var laps := if n < 0 then 0 else n + 1;
      LapsRun(c, s, laps);
    }
  }

  lemma {:induction false} TextStays(c: Settings, s: State, acts: seq<Action>)
    requires s.node != Sanitizer && Exec(c, s, acts).Some?
    ensures Exec(c, s, acts).value.text == s.text
    decreases |acts|
  {
    hide Score, MapQueries, Mask, Total, OnRequest;
    if acts != [] { TextStays(c, Act(c, s, acts[0]).value, acts[1..]); }
  }

  /**
   All a run extracts from is its raw text with the matches of every pass replaced, or
   nothing when the sanitizer fails.
   */
  lemma RunReadsMasked(c: Settings, passes: Option<seq<seq<Span>>>, acts: seq<Action>) returns (texts: seq<string>)
    requires Exec(c, Initial(), [Sanitize(passes)] + acts).Some?
    ensures var text := Exec(c, Initial(), [Sanitize(passes)] + acts).value.text;
      if passes.None? then text == ""
      else
        && |texts| == |passes.value| + 1 && texts[0] == c.rawText && texts[|passes.value|] == text
        && forall i | 0 <= i < |passes.value| :: MaskedTo(texts[i], passes.value[i], c.maskToken, texts[i + 1])
  {
    assert ([Sanitize(passes)] + acts)[1..] == acts;
    TextStays(c, Act(c, Initial(), Sanitize(passes)).value, acts);
    texts := [];
    if passes.Some? { texts := MaskIsChain(c.rawText, passes.value, c.maskToken); }
  }

  // ------------------------------------------------------ which way it goes

  /**
   Where an evaluation leads: to the calculator exactly with a score that reaches the
   threshold, otherwise back to the extractor while retries are left, otherwise to review.
   */
  lemma EvaluationLeadsTo(c: Settings, acts: seq<Action>)
    requires Exec(c, Initial(), acts + [Evaluate]).Some?
    ensures Exec(c, Initial(), acts).Some?
    ensures var s, s' := Exec(c, Initial(), acts).value, Exec(c, Initial(), acts + [Evaluate]).value;
      var score := Score(|s.extracted|, s.mapping);
      && (s'.node == Calculator <==> score >= c.threshold)
      && (s'.node == Extractor <==> score < c.threshold && s.retry < c.maxRetry)
      && (s'.node == HitlInterrupt <==> score < c.threshold && s.retry >= c.maxRetry)
      && s'.score == score && s'.extracted == s.extracted && s'.mapping == s.mapping && s'.retry == s.retry
  {
    hide Score;
    ExecAppend(c, Initial(), acts, [Evaluate]);
    if Exec(c, Initial(), acts).Some? { ExecNext(c, Initial(), acts, Evaluate); }
  }

  /**
   Where an extraction leads: an empty text skips the model, an unreachable model crashes
   the run, and any answer costs a retry and goes to the mapper, whose answers always go
   to the evaluator.
   */
  lemma ExtractionLeadsTo(c: Settings, s: State, answer: LlmAnswer, marked: bool, answers: seq<QueryAnswer>)
    requires s.node == Extractor
    ensures var s' := Act(c, s, Extract(answer, marked)).value;
      if s.text != "" && answer.Unreachable? then
        s' == s.(node := Crashed, status := if marked then Error else s.status)
      else
        var names := if s.text == "" then [] else answer.names;
        && s' == s.(node := Mapper, extracted := names, retry := if s.text == "" then s.retry else s.retry + 1)
        && (|answers| == |names| ==> Act(c, s', Map(answers)).Some? && Act(c, s', Map(answers)).value.node == Evaluator)
  {
    hide MapQueries;
  }

  /** Where a delivery leads: to END exactly when it was accepted or was the last attempt, otherwise to another one. */
  lemma DeliveryLeadsTo(c: Settings, acts: seq<Action>, outcome: Delivered)
    requires Exec(c, Initial(), acts + [Deliver(outcome)]).Some?
    ensures Exec(c, Initial(), acts).Some?
    ensures var s, s' := Exec(c, Initial(), acts).value, Exec(c, Initial(), acts + [Deliver(outcome)]).value;
      && s'.attempts == s.attempts + 1 && s'.calls == s.calls + [outcome]
      && s'.node == (if outcome.Accepted? || s'.attempts >= c.maxDelivery then End else Delivery)
      && s'.total == s.total && s'.onRequest == s.onRequest && s'.mapping == s.mapping
  {
    ExecAppend(c, Initial(), acts, [Deliver(outcome)]);
    if Exec(c, Initial(), acts).Some? { ExecNext(c, Initial(), acts, Deliver(outcome)); }
  }

  lemma SanitizerIsFirst(c: Settings, acts: seq<Action>)
    requires Exec(c, Initial(), acts).Some? && Exec(c, Initial(), acts).value.node == Sanitizer
    ensures acts == []
  {
    hide Score, MapQueries, Mask, Total, OnRequest;
    if acts != [] { LastStep(c, Initial(), acts); }
  }

  /** Every extraction after the first follows an evaluation that scored below the threshold with a retry left. */
  lemma RetryHasCause(c: Settings, acts: seq<Action>, again: Action)
    requires again.Extract? && (exists a | a in acts :: a.Extract?) && Exec(c, Initial(), acts + [again]).Some?
    ensures acts != [] && acts[|acts| - 1] == Evaluate && Exec(c, Initial(), acts[..|acts| - 1]).Some?
    ensures var s := Exec(c, Initial(), acts[..|acts| - 1]).value;
      Score(|s.extracted|, s.mapping) < c.threshold && s.retry < c.maxRetry
  {
    hide Score, MapQueries, Mask, Total, OnRequest;
    ExecAppend(c, Initial(), acts, [again]);
    ExecNext(c, Initial(), acts, again);
    var init, last := acts[..|acts| - 1], acts[|acts| - 1];
    LastStep(c, Initial(), acts);
    assert acts == init + [last];
    if last.Sanitize? { SanitizerIsFirst(c, init); }
  }

  /** What a run has extracted and mapped last, with the rest of its steps. */
  datatype Pass = Pass(
    before: seq<Action>, names: seq<string>, marked: bool, answers: seq<QueryAnswer>, rest: seq<Action>)

  ghost predicate IsLastPass(acts: seq<Action>, p: Pass) {
    && acts == p.before + [Extract(Services(p.names), p.marked)] + [Map(p.answers)] + [Evaluate] + p.rest
    && forall a | a in p.rest :: a.Calculate? || a.Deliver?
  }

  lemma IntoMapper(c: Settings, acts: seq<Action>)
    requires Exec(c, Initial(), acts).Some?
    requires Exec(c, Initial(), acts).value.node == Mapper && Exec(c, Initial(), acts).value.text != ""
    ensures acts != [] && acts[|acts| - 1].Extract? && acts[|acts| - 1].answer.Services?
    ensures Exec(c, Initial(), acts).value.extracted == acts[|acts| - 1].answer.names
  {
    hide Score, MapQueries, Mask, Total, OnRequest, Exec;
    EmptyRun(c);
    LastStep(c, Initial(), acts);
  }

  lemma IntoEvaluator(c: Settings, acts: seq<Action>)
    requires Exec(c, Initial(), acts).Some? && Exec(c, Initial(), acts).value.node == Evaluator
    ensures acts != [] && acts[|acts| - 1].Map? && Exec(c, Initial(), acts[..|acts| - 1]).Some?
    ensures var s, s' := Exec(c, Initial(), acts[..|acts| - 1]).value, Exec(c, Initial(), acts).value;
      && s.node == Mapper && s'.text == s.text && s'.extracted == s.extracted
      && |acts[|acts| - 1].answers| == |s.extracted|
      && s'.mapping == MapQueries(c.limits, s.extracted, acts[|acts| - 1].answers)
  {
    hide Score, MapQueries, Mask, Total, OnRequest, Exec;
    EmptyRun(c);
    LastStep(c, Initial(), acts);
  }

  /** An evaluation that leads to the calculator ends a pass. */
  lemma PassEnds(c: Settings, acts: seq<Action>) returns (p: Pass)
    requires acts != [] && acts[|acts| - 1] == Evaluate && Exec(c, Initial(), acts).Some?
    requires Exec(c, Initial(), acts).value.node == Calculator && Exec(c, Initial(), acts).value.text != ""
    ensures IsLastPass(acts, p) && |p.answers| == |p.names|
    ensures var s := Exec(c, Initial(), acts).value;
      && s.extracted == p.names && s.mapping == MapQueries(c.limits, p.names, p.answers)
      && s.score == Score(|p.names|, s.mapping) && s.score >= c.threshold
  {
    hide Score, MapQueries, Mask, Exec;
    var a3 := acts[..|acts| - 1];
    LastStep(c, Initial(), acts);
    hide Act;
    IntoEvaluator(c, a3);
    var a2, mapStep := a3[..|a3| - 1], a3[|a3| - 1];
    IntoMapper(c, a2);
    var before, extract := a2[..|a2| - 1], a2[|a2| - 1];
    p := Pass(before, extract.answer.names, extract.marked, mapStep.answers, []);
    assert a2 == before + [extract] && a3 == a2 + [mapStep] && acts == a3 + [Evaluate] + [];
  }

  lemma PassGoesOn(acts: seq<Action>, p: Pass, a: Action)
    requires IsLastPass(acts, p) && (a.Calculate? || a.Deliver?)
    ensures IsLastPass(acts + [a], p.(rest := p.rest + [a]))
  {
    var front := p.before + [Extract(Services(p.names), p.marked)] + [Map(p.answers)] + [Evaluate];
    assert acts + [a] == front + (p.rest + [a]);
  }

  lemma EmptyRun(c: Settings)
    ensures Exec(c, Initial(), []) == Some(Initial())
  {
  }

  /**
   Whatever is quoted or delivered comes from the last extraction and its searches: the
   names are those the model answered last, mapped by the answers that followed, and that
   very mapping reached the threshold.
   */
  lemma {:induction false} QuotedIsLastPass(c: Settings, acts: seq<Action>) returns (p: Pass)
    requires Exec(c, Initial(), acts).Some? && Exec(c, Initial(), acts).value.text != ""
    requires Exec(c, Initial(), acts).value.node in {Calculator, Delivery, End}
    ensures IsLastPass(acts, p) && |p.answers| == |p.names|
    ensures var s := Exec(c, Initial(), acts).value;
      && s.extracted == p.names && s.mapping == MapQueries(c.limits, p.names, p.answers)
      && s.score == Score(|p.names|, s.mapping) && s.score >= c.threshold
    decreases |acts|
  {
    hide Score, MapQueries, Mask, Total, OnRequest, Exec;
    EmptyRun(c);
    LastStep(c, Initial(), acts);
    var init, last := acts[..|acts| - 1], acts[|acts| - 1];
    if last == Evaluate {
      p := PassEnds(c, acts);
    } else {
      assert last.Calculate? || last.Deliver?;
      p := QuotedIsLastPass(c, init);
      assert acts == init + [last];
      PassGoesOn(init, p, last);
      p := p.(rest := p.rest + [last]);
    }
  }

  // ---------------------------------------- reviewed or provably matched

  /** Status, deliveries and quote, whatever the catalogue answers. */
  ghost predicate StatusInv(c: Settings, s: State) {
    && (s.status == PendingReview <==> s.node == HitlInterrupt)
    && (s.status == Completed <==> s.calls != [] && s.calls[|s.calls| - 1] == Accepted)
    && (forall i | 0 <= i < |s.calls| - 1 :: s.calls[i] != Accepted)
    && (s.status == Completed ==> s.node == End)
    && (s.node !in {Delivery, End} ==> s.calls == [])
    && (s.node == End && s.status != Completed ==> |s.calls| == s.attempts >= c.maxDelivery)
    && |s.calls| == s.attempts
    && (s.node in {Delivery, End} && s.status != Completed ==> s.status == if s.failedQuote then Error else Processing)
  }

  ghost predicate QuoteInv(s: State) {
    if s.node in {Delivery, End} then
      var total := Total(s.mapping.mapped);
      && (s.failedQuote <==> total.None?)
      && (if s.failedQuote then s.total == 0.0 && s.onRequest == []
          else total == Some(s.total) && s.onRequest == OnRequest(s.mapping.mapped))
    else !s.failedQuote && s.onRequest == []
  }

  lemma StatusStep(c: Settings, s: State, a: Action)
    requires ValidSettings(c) && StatusInv(c, s) && QuoteInv(s) && Act(c, s, a).Some?
    ensures StatusInv(c, Act(c, s, a).value) && QuoteInv(Act(c, s, a).value)
  {
    hide Score, MapQueries, Mask, Total, OnRequest;
  }

  lemma {:induction false} RunKeepsStatus(c: Settings, s: State, acts: seq<Action>)
    requires ValidSettings(c) && StatusInv(c, s) && QuoteInv(s) && Exec(c, s, acts).Some?
    ensures StatusInv(c, Exec(c, s, acts).value) && QuoteInv(Exec(c, s, acts).value)
    decreases |acts|
  {
    hide StatusInv, QuoteInv, Act;
    if acts != [] {
      StatusStep(c, s, acts[0]);
      RunKeepsStatus(c, Act(c, s, acts[0]).value, acts[1..]);
    }
  }

  /**
   Evaluator and router agree in every reachable state before a review, whatever the
   catalogue answers: the status says review exactly at the interrupt, and completed
   exactly after the first and only accepted delivery.
   */
  lemma StatusAgreesWithRoute(c: Settings, acts: seq<Action>)
    requires ValidSettings(c) && Exec(c, Initial(), acts).Some?
    ensures var s := Exec(c, Initial(), acts).value;
      && (s.status == PendingReview <==> s.node == HitlInterrupt)
      && (s.status == Completed <==> s.calls != [] && s.calls[|s.calls| - 1] == Accepted)
      && forall i | 0 <= i < |s.calls| - 1 :: s.calls[i] != Accepted
  {
    RunKeepsStatus(c, Initial(), acts);
  }

  ghost predicate EvidenceInv(c: Settings, s: State) {
    && (s.node in {Sanitizer, Extractor, Mapper, Crashed} || CloseMapping(c.limits, |s.extracted|, s.mapping))
    && (s.node in {Calculator, Delivery, End} ==>
          s.score == Score(|s.extracted|, s.mapping) && s.score >= c.threshold)
  }

  lemma {:induction false} RunKeepsEvidence(c: Settings, s: State, acts: seq<Action>)
    requires ValidSettings(c) && EvidenceInv(c, s) && FromTables(c, acts) && Exec(c, s, acts).Some?
    ensures EvidenceInv(c, Exec(c, s, acts).value)
    decreases |acts|
  {
    if acts != [] {
      EvidenceStep(c, s, acts[0]);
      RunKeepsEvidence(c, Act(c, s, acts[0]).value, acts[1..]);
    }
  }

  lemma EvidenceStep(c: Settings, s: State, a: Action)
    requires ValidSettings(c) && EvidenceInv(c, s) && Act(c, s, a).Some?
    requires a.Map? ==> RankedAnswers(c.tenant, a.answers)
    ensures EvidenceInv(c, Act(c, s, a).value)
  {
    hide Score, MapQueries, Mask, Total, OnRequest, CloseMapping;
    if a.Map? { MappingIsClose(c.tenant, c.limits, s.extracted, a.answers); }
  }

  /**
   Unreviewed-quote bound over whole runs and catalogues with any prices: whatever is
   quoted or delivered without human review covers nearly the threshold's share of the
   request, by close matches that are each within the mapper's threshold.
   */
  lemma UnreviewedQuoteBound(c: Settings, acts: seq<Action>)
    requires ValidSettings(c) && c.threshold > 0.00005 && FromTables(c, acts) && Exec(c, Initial(), acts).Some?
    requires Exec(c, Initial(), acts).value.node in {Calculator, Delivery, End}
    ensures var s := Exec(c, Initial(), acts).value;
      WellMatched(c.limits, c.threshold, |s.extracted|, s.mapping)
  {
    var s := Exec(c, Initial(), acts).value;
    RunKeepsEvidence(c, Initial(), acts);
    PassingScore(|s.extracted|, s.mapping, c.limits, c.threshold);
  }

  // ------------------------------------------------------ when a quote fails

  predicate FreeWithoutPrice(es: seq<Mapped>) {
    exists e | e in es :: e.priceType == FREE && e.price.None?
  }

  ghost predicate PairsInv(s: State, sound: bool) {
    s.node in {Evaluator, Calculator, Delivery, End} ==> PairsHold(s.mapping, sound)
  }

  lemma {:induction false} RunKeepsPairs(c: Settings, s: State, acts: seq<Action>, sound: bool)
    requires ValidSettings(c) && PairsInv(s, sound) && Honest(c, acts, sound) && Exec(c, s, acts).Some?
    ensures PairsInv(Exec(c, s, acts).value, sound)
    decreases |acts|
  {
    hide PairsHold, MapQueries, Score, Mask, Total, OnRequest;
    if acts != [] {
      if acts[0].Map? && s.node == Mapper {
        MappingKeepsPairs(c.tenant, c.limits, s.extracted, acts[0].answers, sound);
      }
      RunKeepsPairs(c, Act(c, s, acts[0]).value, acts[1..], sound);
    }
  }

  /** Over catalogues that satisfy C no total is missing; over any, exactly those with a FREE entry without a price. */
  lemma TotalOfPairs(m: Mapping, sound: bool)
    requires PairsHold(m, sound)
    ensures Total(m.mapped).None? <==> FreeWithoutPrice(m.mapped)
    ensures sound ==> Total(m.mapped).Some?
  {
    TotalFailsIff(m.mapped);
  }

  /**
   Over catalogues that satisfy C the calculator's error branch is unreachable, and the
   delivered quote is the one of the mapped rows.
   */
  lemma QuoteNeverFails(c: Settings, acts: seq<Action>)
    requires ValidSettings(c) && Honest(c, acts, true) && Exec(c, Initial(), acts).Some?
    ensures var s := Exec(c, Initial(), acts).value;
      && !s.failedQuote
      && (s.node == Calculator ==> Total(s.mapping.mapped).Some?)
      && (s.node in {Delivery, End} ==>
            Total(s.mapping.mapped) == Some(s.total) && s.onRequest == OnRequest(s.mapping.mapped)
            && (s.onRequest != [] <==> exists e | e in s.mapping.mapped :: e.priceType == VARIABLE))
  {
    var s := Exec(c, Initial(), acts).value;
    RunKeepsStatus(c, Initial(), acts);
    RunKeepsPairs(c, Initial(), acts, true);
    if s.node in {Calculator, Delivery, End} { TotalOfPairs(s.mapping, true); }
    PartialIff(s.mapping.mapped);
  }

  /**
   Over catalogues as the database enforces them, the quote that is delivered failed
   exactly when a mapped row is FREE without a price; it then shows a total of 0 and
   nothing on request, and an accepted delivery reports the run as completed all the same.
   */
  lemma QuoteFailsIff(c: Settings, acts: seq<Action>)
    requires ValidSettings(c) && Honest(c, acts, false) && Exec(c, Initial(), acts).Some?
    requires Exec(c, Initial(), acts).value.node in {Delivery, End}
    ensures var s := Exec(c, Initial(), acts).value;
      && (s.failedQuote <==> FreeWithoutPrice(s.mapping.mapped))
      && (s.failedQuote ==> s.total == 0.0 && s.onRequest == [])
      && (s.node == End ==> (s.status == Completed <==> Accepted in s.calls))
  {
    RunKeepsStatus(c, Initial(), acts);
    RunKeepsPairs(c, Initial(), acts, false);
    TotalOfPairs(Exec(c, Initial(), acts).value.mapping, false);
  }

  /** The statuses at which the Poller stops. */
  predicate Final(status: Status) {
    status in {Completed, Error, PendingReview}
  }

  /**
   A run that reached END has a final status exactly when some delivery was accepted or
   the total could not be computed; the latter means a FREE row without a price in a
   catalogue as the database enforces it, and never happens in one that satisfies C.
   */
  lemma EndIsFinalIff(c: Settings, acts: seq<Action>)
    requires ValidSettings(c) && Exec(c, Initial(), acts).Some?
    requires Exec(c, Initial(), acts).value.node == End
    ensures var s := Exec(c, Initial(), acts).value;
      && (Final(s.status) <==> Accepted in s.calls || Total(s.mapping.mapped).None?)
      && (!Final(s.status) ==> s.status == Processing && |s.calls| >= c.maxDelivery)
      && (Honest(c, acts, false) ==> (Final(s.status) <==> Accepted in s.calls || FreeWithoutPrice(s.mapping.mapped)))
      && (Honest(c, acts, true) ==> (Final(s.status) <==> Accepted in s.calls))
  {
    var s := Exec(c, Initial(), acts).value;
    RunKeepsStatus(c, Initial(), acts);
    if Honest(c, acts, false) {
      RunKeepsPairs(c, Initial(), acts, false);
      TotalOfPairs(s.mapping, false);
    }
    if Honest(c, acts, true) {
      RunKeepsPairs(c, Initial(), acts, true);
      TotalOfPairs(s.mapping, true);
    }
  }

  // ------------------------------------------------------- two concrete runs

  /** The text "x" is extracted into `names` and mapped with `answers`, and the one delivery attempt ends as given. */
  function OneAttempt(names: seq<string>, answers: seq<QueryAnswer>, outcome: Delivered): seq<Action> {
    [] + [Sanitize(Some([]))] + [Extract(Services(names), false)] + [Map(answers)] + [Evaluate] + [Calculate]
    + [Deliver(outcome)]
  }

  function OneAttemptSettings(threshold: real): Settings {
    Settings("t", "x", "***", Limits(1, 0.5), threshold, 1, 1)
  }

  /** The run stands at the calculator. */
  function Scored(names: seq<string>, m: Mapping): State {
    Initial().(
      node := Calculator, text := "x", extracted := names, retry := 1, mapping := m, score := Score(|names|, m))
  }

  lemma AttemptIsScored(threshold: real, names: seq<string>, answers: seq<QueryAnswer>)
    requires |names| == |answers|
    requires Score(|names|, MapQueries(Limits(1, 0.5), names, answers)) >= threshold
    ensures Exec(OneAttemptSettings(threshold), Initial(),
                 [] + [Sanitize(Some([]))] + [Extract(Services(names), false)] + [Map(answers)] + [Evaluate])
      == Some(Scored(names, MapQueries(Limits(1, 0.5), names, answers)))
  {
    hide Score, MapQueries, Total, OnRequest, Exec;
    var c := OneAttemptSettings(threshold);
    var a1 := [] + [Sanitize(Some([]))];
    var a2 := a1 + [Extract(Services(names), false)];
    var s1 := Initial().(node := Extractor, text := "x");
    var s2 := s1.(node := Mapper, extracted := names, retry := 1);
    assert Exec(c, Initial(), []) == Some(Initial()) by { NothingRuns(c, Initial()); }
    ExecNext(c, Initial(), [], Sanitize(Some([])));
    assert Exec(c, Initial(), a1) == Some(s1);
    ExecNext(c, Initial(), a1, Extract(Services(names), false));
    assert Exec(c, Initial(), a2) == Some(s2);
    ExecNext(c, Initial(), a2, Map(answers));
    ExecNext(c, Initial(), a2 + [Map(answers)], Evaluate);
  }

  lemma NothingRuns(c: Settings, s: State)
    ensures Exec(c, s, []) == Some(s)
  {
  }

  lemma OneAttemptRuns(threshold: real, names: seq<string>, answers: seq<QueryAnswer>, outcome: Delivered)
    requires |names| == |answers|
    requires Score(|names|, MapQueries(Limits(1, 0.5), names, answers)) >= threshold
    ensures var m := MapQueries(Limits(1, 0.5), names, answers);
      var total := Total(m.mapped);
      Exec(OneAttemptSettings(threshold), Initial(), OneAttempt(names, answers, outcome))
      == Some(Scored(names, m).(
           node := End,
           status := if outcome.Accepted? then Completed else if total.None? then Error else Processing,
           total := if total.None? then 0.0 else total.value,
           onRequest := if total.None? then [] else OnRequest(m.mapped),
           failedQuote := total.None?,
           attempts := 1,
           calls := [outcome]))
  {
    hide Score, MapQueries, Total, OnRequest, Exec;
    var c := OneAttemptSettings(threshold);
    var a4 := [] + [Sanitize(Some([]))] + [Extract(Services(names), false)] + [Map(answers)] + [Evaluate];
    AttemptIsScored(threshold, names, answers);
    ExecNext(c, Initial(), a4, Calculate);
    ExecNext(c, Initial(), a4 + [Calculate], Deliver(outcome));
    assert [] + [outcome] == [outcome];
  }

  lemma OneAttemptIsHonest(
      threshold: real, names: seq<string>, answers: seq<QueryAnswer>, outcome: Delivered, sound: bool)
    requires CatalogueAnswers("t", answers, sound)
    ensures Honest(OneAttemptSettings(threshold), OneAttempt(names, answers, outcome), sound)
  {
    hide CatalogueAnswers;
    forall a | a in OneAttempt(names, answers, outcome) && a.Map? ensures a == Map(answers) {
    }
  }

  /** With a threshold of 0 an empty extraction is quoted; declined once, it ends at END and is polled for ever. */
  lemma AbandonedRunIsPolledOn()
    ensures var c, acts := OneAttemptSettings(0.0), OneAttempt([], [], Declined);
      && ValidSettings(c) && Honest(c, acts, true) && Exec(c, Initial(), acts).Some?
      && Exec(c, Initial(), acts).value.node == End && !Final(Exec(c, Initial(), acts).value.status)
  {
    hide Exec, Score, OneAttempt, Honest;
    ScoreOfNothing(MapQueries(Limits(1, 0.5), [], []));
    OneAttemptIsHonest(0.0, [], [], Declined, true);
    assert Total(MapQueries(Limits(1, 0.5), [], []).mapped).Some?;
    OneAttemptRuns(0.0, [], [], Declined);
  }

  /** A catalogue with nothing but a FREE row without a price, at distance 0 from the query "a". */
  const GAP_ROW := Row("t", "a", None, FREE, Some(""), Vector("a", "", None))
  const GAP_HIT := Hit(0, GAP_ROW, 0.0)

  lemma GapIsMapped()
    ensures CatalogueAnswers("t", [QueryAnswer.Ranked([GAP_HIT])], false)
    ensures MapQueries(Limits(1, 0.5), ["a"], [QueryAnswer.Ranked([GAP_HIT])])
      == Mapping([EntryOf(GAP_HIT, "a")], [GAP_HIT], false)
  {
    hide Select;
    var t, l, answers := Table(map[0 := GAP_ROW], 1), Limits(1, 0.5), [QueryAnswer.Ranked([GAP_HIT])];
    assert Ranking(t, "t", [GAP_HIT]) && Enforced(t) by {
      assert GAP_HIT in [GAP_HIT];
    }
    SelectIsGlobalNearest(t, "t", [GAP_HIT], l);
    assert Select(answers[0].hits, l) == Some(GAP_HIT);
    assert MapUpTo(l, ["a"], answers, 0) == Mapping([], [], false);
    assert [] + [EntryOf(GAP_HIT, "a")] == [EntryOf(GAP_HIT, "a")] && [] + [GAP_HIT] == [GAP_HIT];
  }

  lemma GapScores()
    ensures Score(1, Mapping([EntryOf(GAP_HIT, "a")], [GAP_HIT], false)) == 1.0
  {
    assert [GAP_HIT][..0] == [];
    assert DistanceSum([GAP_HIT]) == 0.0;
  }

  /** A matched FREE row without a price: a quote of 0 is delivered and the run reported as completed. */
  lemma FailedQuoteIsCompleted()
    ensures var c, acts := OneAttemptSettings(1.0), OneAttempt(["a"], [QueryAnswer.Ranked([GAP_HIT])], Accepted);
      && ValidSettings(c) && Honest(c, acts, false) && Exec(c, Initial(), acts).Some?
      && var s := Exec(c, Initial(), acts).value;
         s.node == End && s.failedQuote && s.total == 0.0 && s.status == Completed
  {
    hide Exec, Score, MapQueries, OneAttempt, Honest;
    GapIsMapped();
    OneAttemptIsHonest(1.0, ["a"], [QueryAnswer.Ranked([GAP_HIT])], Accepted, false);
    GapScores();
    var entry := EntryOf(GAP_HIT, "a");
    assert Total([entry]).None? by {
      assert entry in [entry] && Summable(entry);
    }
    OneAttemptRuns(1.0, ["a"], [QueryAnswer.Ranked([GAP_HIT])], Accepted);
  }
}
