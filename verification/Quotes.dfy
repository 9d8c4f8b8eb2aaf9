/** The quote: its total, what is left to be quoted on request, and the displayed lines. */
module Quotes {
  import opened Support
  import opened Rounding
  import opened Pricing
  import opened Matching

  predicate Summable(e: Mapped) {
    e.priceType != VARIABLE
  }

  function Amount(e: Mapped): real {
    if Summable(e) && e.price.Some? then e.price.value else 0.0
  }

  function ExactSum(es: seq<Mapped>): real {
    if es == [] then 0.0 else ExactSum(es[..|es| - 1]) + Amount(es[|es| - 1])
  }

  predicate Computable(es: seq<Mapped>) {
    forall e | e in es :: Summable(e) ==> e.price.Some?
  }

  /** `calculator_node`'s total; None is its error report. */
  function Total(es: seq<Mapped>): Option<real> {
    if Computable(es) then Some(Round2(ExactSum(es))) else None
  }

  /** Over entries that the database lets pass, the only ones without a total hold a FREE entry without a price. */
  lemma TotalFailsIff(es: seq<Mapped>)
    requires forall e | e in es :: Admitted(e.priceType, e.price)
    ensures Total(es).None? <==> exists e | e in es :: e.priceType == FREE && e.price.None?
  {
    if Total(es).None? {
      var e :| e in es && Summable(e) && e.price.None?;
      assert Admitted(e.priceType, e.price);
    }
  }

  method SumPrices(es: seq<Mapped>) returns (total: Option<real>)
    ensures total == Total(es)
    ensures total == if exists e | e in es :: e.priceType != VARIABLE && e.price.None? then None
                     else Some(Round2(ExactSum(es)))
  {
    var sum := 0.0;
    for i := 0 to |es|
      invariant sum == ExactSum(es[..i]) && Computable(es[..i])
    {
      assert es[..i + 1][..i] == es[..i];
      if es[i].priceType == VARIABLE {
        continue;
      }
      if es[i].price.None? {
        return None;
      }
      sum := sum + es[i].price.value;
    }
    assert es[..|es|] == es;
    total := Some(Round2(sum));
  }

  function OnRequestEntries(es: seq<Mapped>): seq<Mapped> {
    if es == [] then []
    else OnRequestEntries(es[..|es| - 1]) + if Summable(es[|es| - 1]) then [] else [es[|es| - 1]]
  }

  function SummedEntries(es: seq<Mapped>): seq<Mapped> {
    if es == [] then []
    else SummedEntries(es[..|es| - 1]) + if Summable(es[|es| - 1]) then [es[|es| - 1]] else []
  }

  /** `on_request_services` */
  function OnRequest(es: seq<Mapped>): seq<string> {
    var rs := OnRequestEntries(es);
    seq(|rs|, i requires 0 <= i < |rs| => rs[i].service)
  }

  /** `total_is_partial` */
  predicate Partial(es: seq<Mapped>) {
    |OnRequest(es)| > 0
  }

  /** What the total adds up: the price of each entry that is not VARIABLE. */
  lemma SumOfOne(e: Mapped)
    requires e.priceType == VARIABLE || e.price.Some?
    ensures ExactSum([e]) == if e.priceType == VARIABLE then 0.0 else e.price.value
  {
    assert [e][..0] == [];
  }

  /** The services on request are, in order, those of the VARIABLE entries. */
  lemma {:induction false} OnRequestExact(es: seq<Mapped>, n: nat) returns (ps: seq<nat>)
    requires n <= |es|
    ensures Positions(ps, n, (p: nat) => p < |es| && es[p].priceType == VARIABLE)
    ensures |OnRequest(es[..n])| == |ps|
    ensures forall k | 0 <= k < |ps| :: ps[k] < |es| && OnRequest(es[..n])[k] == es[ps[k]].service
  {
    ps := [];
    if n > 0 {
      ps := OnRequestExact(es, n - 1);
      assert es[..n][..n - 1] == es[..n - 1];
      PositionsNext(ps, n - 1, (p: nat) => p < |es| && es[p].priceType == VARIABLE);
      if es[n - 1].priceType == VARIABLE { ps := ps + [n - 1]; }
    }
  }

  /** Every entry is summed or listed on request, never both. */
  lemma {:induction false} QuotePartition(es: seq<Mapped>)
    ensures multiset(es) == multiset(SummedEntries(es)) + multiset(OnRequestEntries(es))
    ensures forall e | e in SummedEntries(es) :: Summable(e)
    ensures forall e | e in OnRequestEntries(es) :: !Summable(e)
  {
    if es != [] {
      QuotePartition(es[..|es| - 1]);
      assert es == es[..|es| - 1] + [es[|es| - 1]];
    }
  }

  /** Only the summed entries carry the total. */
  lemma {:induction false} SumOfSummed(es: seq<Mapped>)
    ensures ExactSum(es) == ExactSum(SummedEntries(es))
  {
    if es != [] {
      var init, last := es[..|es| - 1], es[|es| - 1];
      SumOfSummed(init);
      if Summable(last) {
        assert SummedEntries(es)[..|SummedEntries(es)| - 1] == SummedEntries(init);
      } else {
        assert SummedEntries(es) == SummedEntries(init);
      }
    }
  }

  /** The quote is marked partial exactly when some entry is VARIABLE. */
  lemma {:induction false} PartialIff(es: seq<Mapped>)
    ensures Partial(es) <==> exists e | e in es :: e.priceType == VARIABLE
  {
    if es != [] {
      var init, last := es[..|es| - 1], es[|es| - 1];
      assert es == init + [last];
      PartialIff(init);
      assert |OnRequest(init)| == |OnRequestEntries(init)|;
    }
  }

  lemma {:induction false} SumSplit(a: seq<Mapped>, b: seq<Mapped>)
    ensures ExactSum(a + b) == ExactSum(a) + ExactSum(b)
  {
    if b == [] {
      assert a + b == a;
    } else {
      assert (a + b)[..|a + b| - 1] == a + b[..|b| - 1];
      SumSplit(a, b[..|b| - 1]);
    }
  }

  lemma SumWithout(before: seq<Mapped>, e: Mapped, after: seq<Mapped>)
    ensures ExactSum(before + [e] + after) == ExactSum(before + after) + Amount(e)
  {
    SumSplit(before + [e], after);
    SumSplit(before, after);
    assert (before + [e])[..|before|] == before;
  }

  predicate SameEntries(a: seq<Mapped>, b: seq<Mapped>) {
    multiset(a) == multiset(b)
  }

  lemma SplitAt(es: seq<Mapped>, e: Mapped) returns (before: seq<Mapped>, after: seq<Mapped>)
    requires e in es
    ensures es == before + [e] + after
    ensures multiset(es) == multiset(before + after) + multiset{e}
  {
    var i :| 0 <= i < |es| && es[i] == e;
    before, after := es[..i], es[i + 1..];
    assert es == before + [e] + after;
  }

  /** The total does not depend on the order of the entries. */
  lemma {:induction false} SumIgnoresOrder(a: seq<Mapped>, b: seq<Mapped>)
    requires SameEntries(a, b)
    ensures ExactSum(a) == ExactSum(b)
    decreases |a|
  {
    assert |multiset(a)| == |a| && |multiset(b)| == |b|;
    if a != [] {
      var init, last := a[..|a| - 1], a[|a| - 1];
      assert a == init + [last];
      assert last in multiset(b);
      var before, after := SplitAt(b, last);
      assert multiset(init) == multiset(a) - multiset{last};
      SumIgnoresOrder(init, before + after);
      SumWithout(before, last, after);
    }
  }

  lemma TotalIgnoresOrder(a: seq<Mapped>, b: seq<Mapped>)
    requires SameEntries(a, b)
    ensures Total(a) == Total(b) && Partial(a) == Partial(b)
  {
    SumIgnoresOrder(a, b);
    PartialIff(a);
    PartialIff(b);
    assert forall e :: e in a <==> e in multiset(a);
    assert forall e :: e in b <==> e in multiset(b);
  }

  // ------------------------------------------------------------- display

  /** A line of the quote body; amounts are in cents as `:.2f` shows them. */
  datatype Line =
    | Heading
    | Blank
    | OnRequestLine(name: string)
    | FreeLine(name: string)
    | PricedLine(name: string, cents: int)
    | TotalLine(cents: int, partialTotal: bool)

  function LineOf(e: Mapped): Line {
    match e.priceType
    case VARIABLE => OnRequestLine(e.service)
    case FREE => FreeLine(e.service)
    case FIXED => PricedLine(e.service, Cents(Amount(e)))
  }

  function Body(es: seq<Mapped>, total: real): seq<Line> {
    [Heading, Blank] + seq(|es|, i requires 0 <= i < |es| => LineOf(es[i]))
    + [Blank, TotalLine(Cents(total), Partial(es))]
  }

  method FormatQuoteBody(es: seq<Mapped>, total: real, totalIsPartial: bool) returns (lines: seq<Line>)
    requires forall e | e in es :: e.priceType == FIXED ==> e.price.Some?
    requires totalIsPartial == Partial(es)
    ensures lines == Body(es, total)
    ensures |lines| == |es| + 4 && lines[0] == Heading && lines[1] == Blank && lines[|es| + 2] == Blank
    ensures forall k | 2 <= k < |es| + 2 ::
      var e := es[k - 2];
      lines[k] == match e.priceType
                  case VARIABLE => OnRequestLine(e.service)
                  case FREE => FreeLine(e.service)
                  case FIXED => PricedLine(e.service, Cents(Or(e.price, 0.0)))
    ensures lines[|es| + 3] == TotalLine(Cents(total), exists e | e in es :: e.priceType == VARIABLE)
  {
    PartialIff(es);
    lines := [Heading, Blank];
    for i := 0 to |es|
      invariant |lines| == i + 2 && lines[0] == Heading && lines[1] == Blank
      invariant forall k | 0 <= k < i :: lines[k + 2] == LineOf(es[k])
    {
      var svc := es[i];
      if svc.priceType == VARIABLE {
        lines := lines + [OnRequestLine(svc.service)];
      } else if svc.priceType == FREE {
        lines := lines + [FreeLine(svc.service)];
      } else {
        assert svc in es;
        lines := lines + [PricedLine(svc.service, Cents(svc.price.value))];
      }
    }
    assert lines == [Heading, Blank] + seq(|es|, i requires 0 <= i < |es| => LineOf(es[i]));
    lines := lines + [Blank];
    lines := lines + [TotalLine(Cents(total), totalIsPartial)];
  }

  function ShownCents(lines: seq<Line>): int {
    if lines == [] then 0
    else ShownCents(lines[..|lines| - 1])
         + if lines[|lines| - 1].PricedLine? then lines[|lines| - 1].cents else 0
  }

  function FixedCount(es: seq<Mapped>): nat {
    if es == [] then 0 else FixedCount(es[..|es| - 1]) + if es[|es| - 1].priceType == FIXED then 1 else 0
  }

  function ServiceLines(es: seq<Mapped>): seq<Line> {
    seq(|es|, i requires 0 <= i < |es| => LineOf(es[i]))
  }

  lemma {:induction false} LinesFollowSum(es: seq<Mapped>)
    requires forall e | e in es :: CheckHolds(e.priceType, e.price)
    ensures var shown := ShownCents(ServiceLines(es)) as real / 100.0;
      var slack := 0.005 * FixedCount(es) as real;
      ExactSum(es) - slack <= shown <= ExactSum(es) + slack
  {
    if es != [] {
      var init, last := es[..|es| - 1], es[|es| - 1];
      assert last in es;
      LinesFollowSum(init);
      assert ServiceLines(es)[..|es| - 1] == ServiceLines(init);
      assert ServiceLines(es)[|es| - 1] == LineOf(last);
    }
  }

  lemma {:induction false} ShownSplit(a: seq<Line>, b: seq<Line>)
    ensures ShownCents(a + b) == ShownCents(a) + ShownCents(b)
  {
    if b == [] {
      assert a + b == a;
    } else {
      assert (a + b)[..|a + b| - 1] == a + b[..|b| - 1];
      ShownSplit(a, b[..|b| - 1]);
    }
  }

  /** The displayed lines add up to the displayed total within half a cent for each FIXED line and one for the total. */
  lemma DisplayedTotal(es: seq<Mapped>)
    requires forall e | e in es :: CheckHolds(e.priceType, e.price)
    ensures Total(es).Some?
    ensures ExactSum(es) - 0.005 <= Total(es).value <= ExactSum(es) + 0.005
    ensures var body := Body(es, Total(es).value);
      var shownTotal := body[|body| - 1].cents as real / 100.0;
      var slack := 0.005 * (FixedCount(es) + 1) as real;
      shownTotal - slack <= ShownCents(body) as real / 100.0 <= shownTotal + slack
  {
    var total := Total(es).value;
    var front, back := [Heading, Blank], [Blank, TotalLine(Cents(total), Partial(es))];
    assert Body(es, total) == front + ServiceLines(es) + back;
    ShownSplit(front + ServiceLines(es), back);
    ShownSplit(front, ServiceLines(es));
    assert front[..1] == [Heading] && back[..1] == [Blank];
    assert ShownCents(front) == 0 && ShownCents(back) == 0 by {
      assert [Heading][..0] == [] && [Blank][..0] == [];
    }
    LinesFollowSum(es);
    CentsOfRound2(ExactSum(es));
  }
}
