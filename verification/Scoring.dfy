/** The evaluator's confidence score and what a passing score proves about the match. */
module Scoring {
  import opened Rounding
  import opened Matching

  function DistanceSum(docs: seq<Hit>): real {
    if docs == [] then 0.0 else DistanceSum(docs[..|docs| - 1]) + docs[|docs| - 1].distance
  }

  function MeanDistance(docs: seq<Hit>): real
    requires docs != []
  {
    DistanceSum(docs) / |docs| as real
  }

  function Min(a: real, b: real): real {
    if a < b then a else b
  }

  function Clamp(x: real): (r: real)
    ensures 0.0 <= r <= 1.0
  {
    if x < 0.0 then 0.0 else Min(x, 1.0)
  }

  /** `mapped_ratio` */
  function Coverage(extracted: nat, m: Mapping): real
    requires extracted > 0
  {
    Min(|m.mapped| as real / extracted as real, 1.0)
  }

  function Closeness(m: Mapping): real
    requires m.docs != []
  {
    1.0 - Min(MeanDistance(m.docs), 1.0)
  }

  /** The product, kept as a name so that proofs can treat it as one value. */
  function Times(a: real, b: real): real {
    a * b
  }

  function Grade(product: real): real {
    Round4(Clamp(product))
  }

  /** `evaluator_node`'s score for the given number of extracted services. */
  function Score(extracted: nat, m: Mapping): real {
    if extracted == 0 || m.mapped == [] || m.docs == [] then 0.0
    else Grade(Times(Coverage(extracted, m), Closeness(m)))
  }

  lemma ScoreInUnitInterval(extracted: nat, m: Mapping)
    ensures 0.0 <= Score(extracted, m) <= 1.0
  {
    if !(extracted == 0 || m.mapped == [] || m.docs == []) {
      Round4Range(Clamp(Times(Coverage(extracted, m), Closeness(m))));
    }
  }

  /** The sum of the distances, list by list; with the next lemma it fixes the mean. */
  lemma {:induction false} DistanceSplit(a: seq<Hit>, b: seq<Hit>)
    ensures DistanceSum(a + b) == DistanceSum(a) + DistanceSum(b)
  {
    if b == [] {
      assert a + b == a;
    } else {
      assert (a + b)[..|a + b| - 1] == a + b[..|b| - 1];
      DistanceSplit(a, b[..|b| - 1]);
    }
  }

  /** The mean of one document is its distance, and one more document moves it by its share. */
  lemma MeanIs(docs: seq<Hit>, doc: Hit)
    requires docs != []
    ensures MeanDistance([doc]) == doc.distance
    ensures MeanDistance(docs + [doc]) * (|docs| + 1) as real == MeanDistance(docs) * |docs| as real + doc.distance
  {
    assert [doc][..0] == [];
    DistanceSplit(docs, [doc]);
  }

  lemma {:induction false} SumAbove(docs: seq<Hit>, bar: real)
    requires forall d | d in docs :: d.distance > bar
    ensures DistanceSum(docs) >= bar * |docs| as real
    ensures docs != [] ==> DistanceSum(docs) > bar * |docs| as real
  {
    if docs != [] {
      assert docs == docs[..|docs| - 1] + [docs[|docs| - 1]];
      SumAbove(docs[..|docs| - 1], bar);
    }
  }

  /** Some document is at most as far as the mean. */
  lemma SomeWithinMean(docs: seq<Hit>)
    requires docs != []
    ensures exists d | d in docs :: d.distance <= MeanDistance(docs)
  {
    assert MeanDistance(docs) * |docs| as real == DistanceSum(docs);
    if forall d | d in docs :: d.distance > MeanDistance(docs) {
      SumAbove(docs, MeanDistance(docs));
    }
  }

  /** Nothing extracted, nothing mapped or nothing retrieved scores 0. */
  lemma ScoreWithoutEvidence(extracted: nat, m: Mapping)
    requires extracted == 0 || m.mapped == [] || m.docs == []
    ensures Score(extracted, m) == 0.0
  {
  }

  lemma {:induction false} DistanceSumNonNegative(docs: seq<Hit>)
    requires forall i | 0 <= i < |docs| :: docs[i].distance >= 0.0
    ensures DistanceSum(docs) >= 0.0
  {
    if docs != [] { DistanceSumNonNegative(docs[..|docs| - 1]); }
  }

  lemma FactorsAboveProduct(a: real, b: real, bar: real)
    requires 0.0 <= a <= 1.0 && 0.0 <= b <= 1.0 && Times(a, b) >= bar
    ensures a >= bar && b >= bar
  {
    assert a * b <= a * 1.0;
    assert a * b <= 1.0 * b;
  }

  lemma FactorsInUnit(extracted: nat, m: Mapping)
    requires extracted > 0 && m.docs != [] && MeanDistance(m.docs) >= 0.0
    ensures 0.0 <= Coverage(extracted, m) <= 1.0 && 0.0 <= Closeness(m) <= 1.0
  {
    hide MeanDistance;
  }

  lemma CoverageBound(extracted: nat, m: Mapping, bar: real)
    requires extracted > 0 && Coverage(extracted, m) >= bar
    ensures |m.mapped| as real >= bar * extracted as real
  {
    var ratio := |m.mapped| as real / extracted as real;
    assert ratio >= bar;
    assert |m.mapped| as real == ratio * extracted as real;
  }

  lemma MeanNonNegative(docs: seq<Hit>)
    requires docs != [] && forall i | 0 <= i < |docs| :: docs[i].distance >= 0.0
    ensures MeanDistance(docs) >= 0.0
  {
    DistanceSumNonNegative(docs);
  }

  /**
   For a close mapping the score is, rounded to four decimals, the covered share of the
   request times the mean closeness (`TimesIs`), with no clamp in sight.
   */
  lemma ScoreOfCloseMapping(extracted: nat, m: Mapping, l: Limits)
    requires CloseMapping(l, extracted, m) && m.docs != []
    ensures var share := |m.mapped| as real / extracted as real;
      var mean := MeanDistance(m.docs);
      && 0.0 < share <= 1.0 && mean >= 0.0
      && (mean < 1.0 ==> Score(extracted, m) == Round4(Times(share, 1.0 - mean)))
      && (mean >= 1.0 ==> Score(extracted, m) == 0.0)
  {
    hide Times, MeanDistance, Grade, Round4;
    MeanNonNegative(m.docs);
    ShareInUnit(|m.mapped|, extracted);
    GradeOf(|m.mapped| as real / extracted as real, Closeness(m));
    assert Coverage(extracted, m) == |m.mapped| as real / extracted as real;
  }

  lemma ShareInUnit(part: nat, whole: nat)
    requires 0 < part <= whole
    ensures 0.0 < part as real / whole as real <= 1.0
  {
  }

  lemma TimesIs(a: real, b: real)
    ensures Times(a, b) == a * b
  {
  }

  lemma GradeOf(a: real, b: real)
    requires 0.0 <= a <= 1.0 && 0.0 <= b <= 1.0
    ensures Grade(Times(a, b)) == Round4(Times(a, b))
    ensures b == 0.0 ==> Grade(Times(a, b)) == 0.0
  {
    ProductInUnit(a, b);
    hide Times;
    GradeInUnit(Times(a, b));
    assert Round4(0.0) == 0.0;
  }

  lemma GradeInUnit(p: real)
    requires 0.0 <= p <= 1.0
    ensures Grade(p) == Round4(p)
  {
  }

  lemma ProductInUnit(a: real, b: real)
    requires 0.0 <= a <= 1.0 && 0.0 <= b <= 1.0
    ensures 0.0 <= Times(a, b) <= 1.0
    ensures b == 0.0 ==> Times(a, b) == 0.0
  {
    assert a * 0.0 <= a * b <= a * 1.0;
  }

  /** The match covers nearly the threshold's share of the request, closely, each part within the mapper's threshold. */
  ghost predicate WellMatched(l: Limits, threshold: real, extracted: nat, m: Mapping) {
    && m.docs != []
    && |m.docs| == |m.mapped| <= extracted
    && |m.mapped| as real >= (threshold - 0.00005) * extracted as real
    && MeanDistance(m.docs) <= 1.0 - threshold + 0.00005
    && (exists d | d in m.docs :: d.distance <= 1.0 - threshold + 0.00005)
    && forall i | 0 <= i < |m.mapped| :: m.mapped[i].distance == m.docs[i].distance <= Threshold(l)
  }

  lemma ProductAbove(extracted: nat, m: Mapping, threshold: real)
    requires threshold > 0.00005 && Score(extracted, m) >= threshold
    ensures extracted > 0 && m.docs != [] && Times(Coverage(extracted, m), Closeness(m)) >= threshold - 0.00005
  {
    hide Coverage, Closeness, Times;
  }

  /** A score that reaches the threshold bounds coverage from below and mean distance from above. */
  lemma PassingScore(extracted: nat, m: Mapping, l: Limits, threshold: real)
    requires threshold > 0.00005 && Score(extracted, m) >= threshold
    requires CloseMapping(l, extracted, m)
    ensures WellMatched(l, threshold, extracted, m)
  {
    hide Score, MeanDistance, Times;
    ProductAbove(extracted, m, threshold);
    MeanNonNegative(m.docs);
    FactorsInUnit(extracted, m);
    FactorsAboveProduct(Coverage(extracted, m), Closeness(m), threshold - 0.00005);
    CoverageBound(extracted, m, threshold - 0.00005);
    SomeWithinMean(m.docs);
  }
}
