/** The loops inside the ingestion nodes: chunking, validation, deduplication, writing. */
module IngestionNodes {
  import opened Support
  import opened Rounding
  import opened Catalogue
  import opened ServiceItems

  // ------------------------------------------------------------ chunking

  /** `rows[i : i + size] for i in range(0, len(rows), size)` */
  function SplitChunks<T>(rows: seq<T>, size: nat): seq<seq<T>>
    requires size > 0
  {
    if rows == [] then []
    else if |rows| <= size then [rows]
    else [rows[..size]] + SplitChunks(rows[size..], size)
  }

  /** The chunks, one after the other, are the rows again. */
  lemma {:induction false} ChunksAreRows<T>(rows: seq<T>, size: nat)
    requires size > 0
    ensures Flatten(SplitChunks(rows, size)) == rows
    decreases |rows|
  {
    if |rows| > size {
      ChunksAreRows(rows[size..], size);
      assert SplitChunks(rows, size)[1..] == SplitChunks(rows[size..], size);
    } else if rows != [] {
      assert Flatten([rows]) == rows + Flatten([rows][1..]);
    }
  }

  /** All chunks are full except possibly the last, and none is empty. */
  lemma {:induction false} ChunksAreFull<T>(rows: seq<T>, size: nat)
    requires size > 0
    ensures var chunks := SplitChunks(rows, size);
      && (forall i | 0 <= i < |chunks| - 1 :: |chunks[i]| == size)
      && (rows != [] ==> chunks != [] && 0 < |chunks[|chunks| - 1]| <= size)
    decreases |rows|
  {
    if |rows| > size {
      ChunksAreFull(rows[size..], size);
      var rest := SplitChunks(rows[size..], size);
      hide SplitChunks;
      assert ([rows[..size]] + rest)[|rest|] == rest[|rest| - 1];
    }
  }

  // ---------------------------------------------------------- validation

  const KNOWN_UNITS: set<string> :=
    {"hour", "month", "project", "license", "user", "day", "year", "one-time"}

  function BrokenRules(item: ServiceItem): seq<Rule> {
    (if item.price == Some(0.0) && (item.description.None? || item.description.value == "")
     then [ZeroPriceUndescribed] else [])
    + (if |Strip(item.name)| < 3 then [NameTooShort] else [])
    + (if item.unit.Some? && item.unit.value != "" && item.unit.value !in KNOWN_UNITS then [UnknownUnit] else [])
  }

  /** What each rule forbids. */
  predicate RuleBroken(item: ServiceItem, rule: Rule) {
    match rule
    case ZeroPriceUndescribed => item.price == Some(0.0) && Or(item.description, "") == ""
    case NameTooShort => |Strip(item.name)| < 3
    case UnknownUnit => Or(item.unit, "") !in KNOWN_UNITS + {""}
  }

  lemma BrokenRulesAre(item: ServiceItem)
    ensures forall r :: r in BrokenRules(item) <==> RuleBroken(item, r)
    ensures BrokenRules(item) == [] <==> forall r :: !RuleBroken(item, r)
    ensures forall i, j | 0 <= i < j < |BrokenRules(item)| :: BrokenRules(item)[i] != BrokenRules(item)[j]
  {
    hide Strip;
    forall r ensures r in BrokenRules(item) <==> RuleBroken(item, r) {
      match r
      case ZeroPriceUndescribed =>
      case NameTooShort =>
      case UnknownUnit =>
    }
    if BrokenRules(item) != [] { assert BrokenRules(item)[0] in BrokenRules(item); }
  }

  function Checked(item: ServiceItem): ServiceItem {
    if BrokenRules(item) == [] then item
    else item.(flagged := true, flagReason := Some(Broken(BrokenRules(item))))
  }

  predicate Doubtful(item: ServiceItem) {
    item.flagged || BrokenRules(item) != []
  }

  function DoubtfulItems(items: seq<ServiceItem>): seq<ServiceItem> {
    if items == [] then []
    else
      var last := items[|items| - 1];
      DoubtfulItems(items[..|items| - 1]) + if Doubtful(last) then [Checked(last)] else []
  }

  function ConfidenceSum(items: seq<ServiceItem>): real {
    if items == [] then 0.0
    else ConfidenceSum(items[..|items| - 1]) + items[|items| - 1].confidence
  }

  function MeanConfidence(items: seq<ServiceItem>): real {
    if items == [] then 0.0 else ConfidenceSum(items) / |items| as real
  }

  function ErrorsOf(items: seq<ServiceItem>): seq<(string, seq<Rule>)> {
    if items == [] then []
    else
      var last := items[|items| - 1];
      ErrorsOf(items[..|items| - 1]) + if BrokenRules(last) != [] then [(last.id, BrokenRules(last))] else []
  }

  predicate DoubtfulAt(items: seq<ServiceItem>, p: nat) {
    p < |items| && (items[p].flagged || exists r :: RuleBroken(items[p], r))
  }

  predicate BrokenAt(items: seq<ServiceItem>, p: nat) {
    p < |items| && exists r :: RuleBroken(items[p], r)
  }

  function Doubts(items: seq<ServiceItem>): nat -> bool {
    (p: nat) => DoubtfulAt(items, p)
  }

  function Faults(items: seq<ServiceItem>): nat -> bool {
    (p: nat) => BrokenAt(items, p)
  }

  /** `rules` are the ones the item breaks. */
  ghost predicate ListsRules(item: ServiceItem, rules: seq<Rule>) {
    forall r :: r in rules <==> RuleBroken(item, r)
  }

  /** The flagged copy: unchanged without a broken rule, and otherwise flagged with the broken ones. */
  ghost predicate FlaggedCopy(item: ServiceItem, copy: ServiceItem) {
    if forall r :: !RuleBroken(item, r) then copy == item
    else exists rules :: ListsRules(item, rules) && copy == item.(flagged := true, flagReason := Some(Broken(rules)))
  }

  lemma CheckedIs(item: ServiceItem)
    ensures FlaggedCopy(item, Checked(item))
  {
    hide RuleBroken;
    BrokenRulesAre(item);
    assert ListsRules(item, BrokenRules(item));
  }

  lemma FlaggedNext(items: seq<ServiceItem>, n: nat)
    requires n < |items|
    ensures DoubtfulItems(items[..n + 1])
      == DoubtfulItems(items[..n]) + if DoubtfulAt(items, n) then [Checked(items[n])] else []
  {
    hide RuleBroken, BrokenRules;
    assert items[..n + 1][..n] == items[..n];
    BrokenRulesAre(items[n]);
  }

  /** `copies` are the flagged copies of the items at `ps`. */
  ghost predicate CopiesAt(items: seq<ServiceItem>, ps: seq<nat>, copies: seq<ServiceItem>) {
    |copies| == |ps| && forall k | 0 <= k < |ps| :: ps[k] < |items| && FlaggedCopy(items[ps[k]], copies[k])
  }

  lemma CopiesNext(items: seq<ServiceItem>, ps: seq<nat>, copies: seq<ServiceItem>, n: nat, copy: ServiceItem)
    requires CopiesAt(items, ps, copies) && n < |items| && FlaggedCopy(items[n], copy)
    ensures CopiesAt(items, ps + [n], copies + [copy])
  {
    hide FlaggedCopy;
  }

  /** `flagged` holds, in order, a copy of every item that is flagged or breaks a rule. */
  lemma {:induction false} FlaggedExact(items: seq<ServiceItem>, n: nat) returns (ps: seq<nat>)
    requires n <= |items|
    ensures Positions(ps, n, Doubts(items))
    ensures CopiesAt(items, ps, DoubtfulItems(items[..n]))
  {
    hide CopiesAt, FlaggedCopy, Checked, DoubtfulItems, Positions, Doubts, RuleBroken, BrokenRules;
    if n == 0 {
      ps := [];
      NothingListed(items);
    } else {
      ps := FlaggedExact(items, n - 1);
      FlaggedNext(items, n - 1);
      DoubtsAre(items, n - 1);
      hide DoubtfulAt;
      PositionsNext(ps, n - 1, Doubts(items));
      CheckedIs(items[n - 1]);
      CopiesNext(items, ps, DoubtfulItems(items[..n - 1]), n - 1, Checked(items[n - 1]));
      if DoubtfulAt(items, n - 1) {
        ps := ps + [n - 1];
      } else {
        assert DoubtfulItems(items[..n]) == DoubtfulItems(items[..n - 1]);
      }
    }
  }

  lemma NothingListed(items: seq<ServiceItem>)
    ensures Positions([], 0, Doubts(items)) && CopiesAt(items, [], DoubtfulItems(items[..0]))
    ensures Positions([], 0, Faults(items)) && ErrorsAt(items, [], ErrorsOf(items[..0]))
  {
    NoPositions(Doubts(items));
    NoPositions(Faults(items));
  }

  lemma DoubtsAre(items: seq<ServiceItem>, p: nat)
    ensures Doubts(items)(p) == DoubtfulAt(items, p) && Faults(items)(p) == BrokenAt(items, p)
  {
  }

  lemma ErrorsNext(items: seq<ServiceItem>, n: nat)
    requires n < |items|
    ensures ErrorsOf(items[..n + 1])
      == ErrorsOf(items[..n]) + if BrokenAt(items, n) then [(items[n].id, BrokenRules(items[n]))] else []
  {
    hide RuleBroken, BrokenRules;
    assert items[..n + 1][..n] == items[..n];
    BrokenRulesAre(items[n]);
  }

  /** `errors` name the items at `ps` with the rules they break. */
  ghost predicate ErrorsAt(items: seq<ServiceItem>, ps: seq<nat>, errors: seq<(string, seq<Rule>)>) {
    |errors| == |ps| && forall k | 0 <= k < |ps| ::
      ps[k] < |items| && errors[k].0 == items[ps[k]].id && ListsRules(items[ps[k]], errors[k].1)
  }

  lemma ErrorsAtNext(items: seq<ServiceItem>, ps: seq<nat>, errors: seq<(string, seq<Rule>)>, n: nat, rules: seq<Rule>)
    requires ErrorsAt(items, ps, errors) && n < |items| && ListsRules(items[n], rules)
    ensures ErrorsAt(items, ps + [n], errors + [(items[n].id, rules)])
  {
    hide ListsRules;
  }

  /** The errors name, in order, every item that breaks a rule, with the rules it breaks. */
  lemma {:induction false} ErrorsExact(items: seq<ServiceItem>, n: nat) returns (ps: seq<nat>)
    requires n <= |items|
    ensures Positions(ps, n, Faults(items))
    ensures ErrorsAt(items, ps, ErrorsOf(items[..n]))
  {
    hide ListsRules, BrokenRules, ErrorsOf, Positions, ErrorsAt, Faults, RuleBroken;
    if n == 0 {
      ps := [];
      NothingListed(items);
    } else {
      ps := ErrorsExact(items, n - 1);
      ErrorsNext(items, n - 1);
      DoubtsAre(items, n - 1);
      hide BrokenAt;
      RulesAreListed(items[n - 1]);
      PositionsNext(ps, n - 1, Faults(items));
      ErrorsAtNext(items, ps, ErrorsOf(items[..n - 1]), n - 1, BrokenRules(items[n - 1]));
      if BrokenAt(items, n - 1) {
        ps := ps + [n - 1];
      } else {
        assert ErrorsOf(items[..n]) == ErrorsOf(items[..n - 1]);
      }
    }
  }

  lemma RulesAreListed(item: ServiceItem)
    ensures ListsRules(item, BrokenRules(item))
  {
    BrokenRulesAre(item);
  }

  /** The sum of the confidences, list by list; with the next lemma it fixes the mean. */
  lemma {:induction false} ConfidenceSplit(a: seq<ServiceItem>, b: seq<ServiceItem>)
    ensures ConfidenceSum(a + b) == ConfidenceSum(a) + ConfidenceSum(b)
  {
    if b == [] {
      assert a + b == a;
    } else {
      assert (a + b)[..|a + b| - 1] == a + b[..|b| - 1];
      ConfidenceSplit(a, b[..|b| - 1]);
    }
  }

  /** The mean of one item is its confidence, and one more item moves it by its share. */
  lemma MeanIs(items: seq<ServiceItem>, item: ServiceItem)
    ensures MeanConfidence([item]) == item.confidence
    ensures MeanConfidence(items + [item]) * (|items| + 1) as real
      == MeanConfidence(items) * |items| as real + item.confidence
  {
    assert [item][..0] == [];
    ConfidenceSplit(items, [item]);
  }

  datatype Verdict = Verdict(errors: seq<(string, seq<Rule>)>, flagged: seq<ServiceItem>, confidence: real)

  /** The loop of `validator_node`; it reports and never adds to `normalized_items`. */
  method ValidateItems(items: seq<ServiceItem>) returns (v: Verdict)
    ensures v == Verdict(ErrorsOf(items), DoubtfulItems(items), Round4(MeanConfidence(items)))
  {
    var errors, flagged, sum := [], [], 0.0;
    for i := 0 to |items|
      invariant flagged == DoubtfulItems(items[..i])
      invariant sum == ConfidenceSum(items[..i])
      invariant errors == ErrorsOf(items[..i])
    {
      assert items[..i + 1][..i] == items[..i];
      var item := items[i];
      var itemErrors := BrokenRules(item);
      if itemErrors != [] {
        errors := errors + [(item.id, itemErrors)];
        item := item.(flagged := true, flagReason := Some(Broken(itemErrors)));
      }
      if item.flagged {
        flagged := flagged + [item];
      }
      sum := sum + item.confidence;
    }
    assert items[..|items|] == items;
    v := Verdict(errors, flagged, Round4(if items == [] then 0.0 else sum / |items| as real));
  }

  lemma {:induction false} NoDoubtIff(items: seq<ServiceItem>)
    ensures DoubtfulItems(items) == [] <==> forall item | item in items :: !Doubtful(item)
  {
    hide Doubtful, Checked;
    if items != [] {
      NoDoubtIff(items[..|items| - 1]);
      assert items == items[..|items| - 1] + [items[|items| - 1]];
    }
  }

  const CONFIDENCE_THRESHOLD := 0.75

  /** `route_after_validator` sends the run past human review. */
  predicate SkipsReview(flagged: seq<ServiceItem>, confidence: real) {
    !(confidence < CONFIDENCE_THRESHOLD || |flagged| > 0)
  }

  /** Exactly which item lists pass unreviewed: the rounding lowers the bar by half a unit. */
  lemma SkipsReviewIff(items: seq<ServiceItem>)
    ensures SkipsReview(DoubtfulItems(items), Round4(MeanConfidence(items))) <==>
      && (forall item | item in items :: !item.flagged && forall r :: !RuleBroken(item, r))
      && MeanConfidence(items) >= 0.74995
  {
    hide BrokenRules, RuleBroken;
    forall item | item in items { BrokenRulesAre(item); }
    NoDoubtIff(items);
    var m := MeanConfidence(items);
    if m >= 0.74995 { Round4Monotone(0.74995, m); }
    assert Round4(0.74995) == 0.75;
    if m < 0.74995 {
      assert RoundHalfEven(m * 10000.0) < 7500;
    }
  }

  // ------------------------------------------------------- deduplication

  function Ids(items: seq<ServiceItem>): set<string> {
    set item | item in items :: item.id
  }

  function FirstById(items: seq<ServiceItem>): seq<ServiceItem> {
    if items == [] then []
    else
      var init, last := items[..|items| - 1], items[|items| - 1];
      FirstById(init) + if last.id in Ids(init) then [] else [last]
  }

  lemma FirstByIdNext(items: seq<ServiceItem>, i: nat)
    requires i < |items|
    ensures FirstById(items[..i + 1]) ==
      FirstById(items[..i]) + if items[i].id in Ids(items[..i]) then [] else [items[i]]
    ensures Ids(items[..i + 1]) == Ids(items[..i]) + {items[i].id}
  {
    assert items[..i + 1][..i] == items[..i];
    assert items[..i + 1] == items[..i] + [items[i]];
  }

  /** The `seen.setdefault` loop of `finalizer_node`: the first item with an id wins. */
  method Deduplicate(items: seq<ServiceItem>) returns (unique: seq<ServiceItem>)
    ensures unique == FirstById(items)
  {
    var seen: set<string> := {};
    unique := [];
    assert items[..0] == [] && FirstById(items[..0]) == [] && Ids(items[..0]) == {};
    hide FirstById, Ids;
    for i := 0 to |items|
      invariant seen == Ids(items[..i]) && unique == FirstById(items[..i])
    {
      FirstByIdNext(items, i);
      if items[i].id !in seen {
        unique := unique + [items[i]];
        seen := seen + {items[i].id};
      }
    }
    assert items[..|items|] == items;
  }

  predicate IsFirst(items: seq<ServiceItem>, i: nat)
    requires i < |items|
  {
    forall j | 0 <= j < i :: items[j].id != items[i].id
  }

  /** `u` lists, in order, the items at `ps`: the first carriers of their id among the first `n`. */
  ghost predicate Selects(items: seq<ServiceItem>, n: nat, u: seq<ServiceItem>, ps: seq<nat>) {
    && n <= |items| && |ps| == |u|
    && (forall k | 0 <= k < |ps| :: ps[k] < n && u[k] == items[ps[k]] && IsFirst(items, ps[k]))
    && (forall a, b | 0 <= a < b < |ps| :: ps[a] < ps[b])
    && (forall i | 0 <= i < n && IsFirst(items, i) :: i in ps)
  }

  lemma SelectsNext(items: seq<ServiceItem>, n: nat, u: seq<ServiceItem>, ps: seq<nat>)
    requires Selects(items, n, u, ps) && n < |items|
    ensures IsFirst(items, n) ==> Selects(items, n + 1, u + [items[n]], ps + [n])
    ensures !IsFirst(items, n) ==> Selects(items, n + 1, u, ps)
  {
    hide IsFirst;
  }

  lemma {:induction false} FirstByIdSelects(items: seq<ServiceItem>, n: nat) returns (ps: seq<nat>)
    requires n <= |items|
    ensures Selects(items, n, FirstById(items[..n]), ps)
  {
    ps := [];
    if n > 0 {
      hide Selects, FirstById;
      ps := FirstByIdSelects(items, n - 1);
      FirstByIdNext(items, n - 1);
      SelectsNext(items, n - 1, FirstById(items[..n - 1]), ps);
      assert IsFirst(items, n - 1) <==> items[n - 1].id !in Ids(items[..n - 1]);
      if IsFirst(items, n - 1) {
        ps := ps + [n - 1];
      }
    }
  }

  /** The survivors are, in order, exactly the items that are the first to carry their id. */
  lemma FirstByIdExact(items: seq<ServiceItem>) returns (ps: seq<nat>)
    ensures Selects(items, |items|, FirstById(items), ps)
  {
    ps := FirstByIdSelects(items, |items|);
    assert items[..|items|] == items;
  }

  // ------------------------------------------------------------- writing

  function EmbeddingParts(item: ServiceItem): seq<string> {
    [item.name]
    + (if item.description.Some? && item.description.value != "" then [item.description.value] else [])
    + (if item.category.Some? && item.category.value != "" then ["[" + item.category.value + "]"] else [])
    + (if RowToText(item.raw) != "" then [RowToText(item.raw)] else [])
  }

  function EmbeddingText(item: ServiceItem): string {
    Join(EmbeddingParts(item), " — ")
  }

  /** A part with its separator, if it says something. */
  function Added(part: string): string {
    if part == "" then "" else " — " + part
  }

  function Bracketed(category: string): string {
    if category == "" then "" else "[" + category + "]"
  }

  lemma JoinAdded(parts: seq<string>, part: string)
    requires parts != []
    ensures Join(parts + if part == "" then [] else [part], " — ") == Join(parts, " — ") + Added(part)
  {
    if part == "" {
      assert parts + [] == parts;
    } else {
      JoinAppend(parts, [part], " — ");
    }
  }

  lemma PartsAre(item: ServiceItem)
    ensures var d, k, r := Or(item.description, ""), Bracketed(Or(item.category, "")), RowToText(item.raw);
      EmbeddingParts(item) ==
        [item.name] + (if d == "" then [] else [d]) + (if k == "" then [] else [k]) + (if r == "" then [] else [r])
  {
    hide RowToText;
  }

  /** The embedded text, part by part: name, description, category and source row, those that say something. */
  lemma EmbeddingTextIs(item: ServiceItem)
    ensures EmbeddingText(item) ==
      item.name + Added(Or(item.description, "")) + Added(Bracketed(Or(item.category, "")))
      + Added(RowToText(item.raw))
  {
    hide RowToText, Added, Join, EmbeddingParts, Bracketed;
    PartsAre(item);
    var d, k, r := Or(item.description, ""), Bracketed(Or(item.category, "")), RowToText(item.raw);
    var p1 := [item.name] + if d == "" then [] else [d];
    var p2 := p1 + if k == "" then [] else [k];
    JoinAdded([item.name], d);
    JoinAdded(p1, k);
    JoinAdded(p2, r);
    JoinOfOne(item.name);
  }

  lemma JoinOfOne(part: string)
    ensures Join([part], " — ") == part
  {
  }

  /** The embedded text starts with the name and holds description and category. */
  lemma EmbeddingTextTells(item: ServiceItem)
    ensures item.name <= EmbeddingText(item)
    ensures Or(item.description, "") != "" ==> Contains(EmbeddingText(item), item.description.value)
    ensures Or(item.category, "") != "" ==> Contains(EmbeddingText(item), "[" + item.category.value + "]")
  {
    hide RowToText, Contains;
    var parts := EmbeddingParts(item);
    var _, _ := JoinContains(parts, 0, " — ");
    if Or(item.description, "") != "" {
      assert parts[1] == item.description.value;
      var before, after := JoinContains(parts, 1, " — ");
      ContainsAt(before, parts[1], after);
    }
    if Or(item.category, "") != "" {
      var k := if Or(item.description, "") != "" then 2 else 1;
      assert parts[k] == "[" + item.category.value + "]";
      var before, after := JoinContains(parts, k, " — ");
      ContainsAt(before, parts[k], after);
    }
  }

  /** The embedded text holds every filled source column verbatim. */
  lemma EmbeddingTextCovers(item: ServiceItem, i: nat)
    requires i < |item.raw| && Filled(item.raw[i].1)
    ensures Contains(EmbeddingText(item), item.raw[i].0 + ": " + item.raw[i].1.text)
  {
    hide Strip, RowToText, Contains;
    var parts := EmbeddingParts(item);
    var cell := item.raw[i].0 + ": " + item.raw[i].1.text;
    FilledCellInText(item.raw, i);
    var before, after := SplitContained(RowToText(item.raw), cell);
    assert RowToText(item.raw) != "";
    assert parts[|parts| - 1] == RowToText(item.raw);
    var left, right := JoinContains(parts, |parts| - 1, " — ");
    assert EmbeddingText(item) == (left + before) + cell + (after + right);
    ContainsAt(left + before, cell, after + right);
  }

  lemma SplitContained(text: string, part: string) returns (before: string, after: string)
    requires Contains(text, part)
    ensures text == before + part + after
  {
    var i: nat :| HasAt(text, part, i);
    before, after := text[..i], text[i + |part|..];
  }

  function WriteOf(item: ServiceItem): Write {
    Write(item.name, item.price, item.priceType, EmbeddingText(item))
  }

  function WritesOf(items: seq<ServiceItem>): seq<Write> {
    seq(|items|, k requires 0 <= k < |items| => WriteOf(items[k]))
  }

  /** The two passes of `_write_to_pgvector`: the texts first, then the rows. */
  method ComposeWrites(items: seq<ServiceItem>) returns (writes: seq<Write>)
    ensures writes == WritesOf(items)
    ensures |writes| == |items| && forall k | 0 <= k < |items| ::
      && writes[k].service == items[k].name && writes[k].price == items[k].price
      && writes[k].priceType == items[k].priceType && writes[k].description == EmbeddingText(items[k])
  {
    var descriptions: seq<string> := [];
    for i := 0 to |items|
      invariant |descriptions| == i && forall k | 0 <= k < i :: descriptions[k] == EmbeddingText(items[k])
    {
      var item := items[i];
      var parts := [item.name];
      if item.description.Some? && item.description.value != "" {
        parts := parts + [item.description.value];
      }
      if item.category.Some? && item.category.value != "" {
        parts := parts + ["[" + item.category.value + "]"];
      }
      var rawText := RowToText(item.raw);
      if rawText != "" {
        parts := parts + [rawText];
      }
      assert parts == EmbeddingParts(item);
      descriptions := descriptions + [Join(parts, " — ")];
    }
    writes := [];
    for i := 0 to |items|
      invariant |writes| == i && forall k | 0 <= k < i :: writes[k] == WriteOf(items[k])
    {
      writes := writes + [Write(items[i].name, items[i].price, items[i].priceType, descriptions[i])];
    }
  }

  /** The last item of the list with the given name. */
  function LastNamed(items: seq<ServiceItem>, name: string): (r: Option<ServiceItem>)
    ensures r.None? <==> forall item | item in items :: item.name != name
    ensures r.Some? ==> exists k ::
      0 <= k < |items| && items[k] == r.value && r.value.name == name
      && forall j | k < j < |items| :: items[j].name != name
  {
    if items == [] then None
    else if items[|items| - 1].name == name then Some(items[|items| - 1])
    else
      var r := LastNamed(items[..|items| - 1], name);
      assert items == items[..|items| - 1] + [items[|items| - 1]];
      r
  }

  /** The row holds the item: its columns, and a text that starts with its name and tells what its source row says. */
  ghost predicate HoldsItem(row: Row, tenant: string, item: ServiceItem) {
    && row.tenant == tenant && row.service == item.name
    && row.price == item.price && row.priceType == item.priceType
    && row.description.Some?
    && row.vector == Vector(item.name, row.description.value, item.price)
    && item.name <= row.description.value
    && (Or(item.description, "") != "" ==> Contains(row.description.value, item.description.value))
    && (Or(item.category, "") != "" ==> Contains(row.description.value, "[" + item.category.value + "]"))
    && forall i | 0 <= i < |item.raw| && Filled(item.raw[i].1) ::
         Contains(row.description.value, item.raw[i].0 + ": " + item.raw[i].1.text)
  }

  lemma WriteHoldsItem(item: ServiceItem, tenant: string)
    ensures var w := WriteOf(item);
      var vector := Vector(w.service, w.description, w.price);
      HoldsItem(Row(tenant, w.service, w.price, w.priceType, Some(w.description), vector), tenant, item)
  {
    hide EmbeddingText, Contains, Filled;
    EmbeddingTextTells(item);
    forall i | 0 <= i < |item.raw| && Filled(item.raw[i].1) { EmbeddingTextCovers(item, i); }
  }

  lemma NoWrites()
    ensures WritesOf([]) == []
  {
  }

  lemma WritesSnoc(items: seq<ServiceItem>)
    requires items != []
    ensures |WritesOf(items)| == |items| && WritesOf(items)[|items| - 1] == WriteOf(items[|items| - 1])
    ensures WritesOf(items)[..|items| - 1] == WritesOf(items[..|items| - 1])
  {
    hide WriteOf;
  }

  lemma {:induction false} LastNamedWritten(items: seq<ServiceItem>, name: string)
    ensures LastWrite(WritesOf(items), name) ==
      if LastNamed(items, name).None? then None else Some(WriteOf(LastNamed(items, name).value))
  {
    hide EmbeddingText, WritesOf;
    if items != [] {
      var init := items[..|items| - 1];
      LastNamedWritten(init, name);
      WritesSnoc(items);
    } else {
      NoWrites();
    }
  }

  /** The writes of sound items satisfy C, whatever the table holds. */
  lemma SoundItemsWriteSoundly(items: seq<ServiceItem>)
    requires forall item | item in items :: Sound(item)
    ensures forall w | w in WritesOf(FirstById(items)) :: WriteSound(w)
  {
    var unique := FirstById(items);
    var ps := FirstByIdExact(items);
    forall w | w in WritesOf(unique) ensures WriteSound(w) {
      var k :| 0 <= k < |unique| && w == WritesOf(unique)[k];
      assert w == WriteOf(unique[k]) && unique[k] == items[ps[k]];
      assert items[ps[k]] in items;
    }
  }

  /** The table refines a map updated with the last named survivors, C stays, and a second run changes nothing. */
  lemma FinalizedTable(t: Table, tenant: string, items: seq<ServiceItem>)
    requires Keyed(t) && forall item | item in items :: Sound(item)
    ensures var ws := WritesOf(FirstById(items));
      && Keyed(UpsertAll(t, tenant, ws))
      && (Valid(t) ==> Valid(UpsertAll(t, tenant, ws)))
      && UpsertAll(UpsertAll(t, tenant, ws), tenant, ws) == UpsertAll(t, tenant, ws)
      && forall tn, s ::
        var last, row := LastNamed(FirstById(items), s), Stored(UpsertAll(t, tenant, ws), tn, s);
        if tn == tenant && last.Some? then row.Some? && HoldsItem(row.value, tenant, last.value)
        else row == Stored(t, tn, s)
  {
    var unique := FirstById(items);
    var ws := WritesOf(unique);
    hide Valid, Keyed, UpsertAll, Stored, FirstById, WritesOf, LastNamed, LastWrite, HoldsItem, EmbeddingText;
    if Valid(t) {
      SoundItemsWriteSoundly(items);
      forall s | LastWrite(ws, s).Some? ensures WriteSound(LastWrite(ws, s).value) {
        assert LastWrite(ws, s).value in ws;
      }
      UpsertValidIff(t, tenant, ws);
    }
    UpsertRefinesMap(t, tenant, ws);
    UpsertIdempotent(t, tenant, ws);
    forall tn, s
      ensures var last, row := LastNamed(unique, s), Stored(UpsertAll(t, tenant, ws), tn, s);
        if tn == tenant && last.Some? then row.Some? && HoldsItem(row.value, tenant, last.value)
        else row == Stored(t, tn, s)
    {
      LastNamedWritten(unique, s);
      if LastNamed(unique, s).Some? { WriteHoldsItem(LastNamed(unique, s).value, tenant); }
    }
  }
}
