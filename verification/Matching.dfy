/** Nearest-neighbour search in a tenant's catalogue and the mapper's choice of one match per query. */
module Matching {
  import opened Support
  import opened Pricing
  import opened Catalogue
  import CatalogueStore

  /** A catalogue row with its cosine distance from the query. */
  datatype Hit = Hit(id: ItemId, row: Row, distance: real)

  /** The tenant's whole catalogue in the order of `ORDER BY embedding <=> query`. */
  ghost predicate Ranking(t: Table, tenant: string, hits: seq<Hit>) {
    && (forall h | h in hits :: CatalogueStore.Owned(t, tenant, h.id) && h.row == t.rows[h.id] && h.distance >= 0.0)
    && (forall id | CatalogueStore.Owned(t, tenant, id) :: exists h | h in hits :: h.id == id)
    && (forall i, j | 0 <= i < j < |hits| :: hits[i].distance <= hits[j].distance)
  }

  /** `pgvector_n_results` and `mapper_max_distance`. */
  datatype Limits = Limits(results: nat, maxDistance: real)

  ghost predicate ValidLimits(l: Limits) {
    l.results >= 1 && l.maxDistance >= 0.0
  }

  const DISTANCE_FALLBACK := 0.80

  function Threshold(l: Limits): real {
    if l.maxDistance > 0.0 then l.maxDistance else DISTANCE_FALLBACK
  }

  function Within(hits: seq<Hit>, limit: real): seq<Hit> {
    if hits == [] then []
    else
      Within(hits[..|hits| - 1], limit)
      + if hits[|hits| - 1].distance > limit then [] else [hits[|hits| - 1]]
  }

  function Top(hits: seq<Hit>, k: nat): seq<Hit> {
    if k <= |hits| then hits[..k] else hits
  }

  /** LIMIT, then the optional distance filter of the store. */
  function Search(hits: seq<Hit>, l: Limits): seq<Hit> {
    if l.maxDistance > 0.0 then Within(Top(hits, l.results), l.maxDistance) else Top(hits, l.results)
  }

  /** `Within` keeps, in order, exactly the hits that are not beyond the limit. */
  lemma {:induction false} WithinSplit(a: seq<Hit>, b: seq<Hit>, limit: real)
    ensures Within(a + b, limit) == Within(a, limit) + Within(b, limit)
  {
    if b == [] {
      assert a + b == a;
    } else {
      assert (a + b)[..|a + b| - 1] == a + b[..|b| - 1];
      WithinSplit(a, b[..|b| - 1], limit);
    }
  }

  lemma WithinOne(h: Hit, limit: real)
    ensures Within([h], limit) == if h.distance > limit then [] else [h]
  {
    assert [h][..0] == [];
  }

  method SimilaritySearch(hits: seq<Hit>, results: nat, maxDistance: Option<real>) returns (docs: seq<Hit>)
    ensures var rows := if results <= |hits| then hits[..results] else hits;
      docs == if maxDistance.Some? && maxDistance.value > 0.0 then Within(rows, maxDistance.value) else rows
  {
    var rows := Top(hits, results);
    var threshold := if maxDistance.Some? && maxDistance.value > 0.0 then maxDistance else None;
    docs := [];
    for i := 0 to |rows|
      invariant docs == if threshold.Some? then Within(rows[..i], threshold.value) else rows[..i]
    {
      assert rows[..i + 1][..i] == rows[..i];
      if threshold.Some? && rows[i].distance > threshold.value {
        continue;
      }
      docs := docs + [rows[i]];
    }
    assert rows[..|rows|] == rows;
  }

  /** Python's `min` by distance: the first of the smallest. */
  function Best(docs: seq<Hit>): Hit
    requires docs != []
  {
    if |docs| == 1 then docs[0]
    else
      var best, last := Best(docs[..|docs| - 1]), docs[|docs| - 1];
      if last.distance < best.distance then last else best
  }

  /** The mapper's answer to one query. */
  function Select(hits: seq<Hit>, l: Limits): Option<Hit> {
    var relevant := Within(Search(hits, l), Threshold(l));
    if relevant == [] then None else Some(Best(relevant))
  }

  lemma {:induction false} WithinExact(hits: seq<Hit>, limit: real)
    ensures forall h :: h in Within(hits, limit) <==> h in hits && h.distance <= limit
  {
    if hits != [] {
      WithinExact(hits[..|hits| - 1], limit);
      assert hits == hits[..|hits| - 1] + [hits[|hits| - 1]];
    }
  }

  lemma {:induction false} BestIsLeast(docs: seq<Hit>)
    requires docs != []
    ensures Best(docs) in docs && forall d | d in docs :: Best(docs).distance <= d.distance
  {
    if |docs| > 1 {
      BestIsLeast(docs[..|docs| - 1]);
      assert docs == docs[..|docs| - 1] + [docs[|docs| - 1]];
    }
  }

  /**
   Top-k, the store's filter and the mapper's filter together are a global search: the
   chosen row is nearest in the whole tenant catalogue and within the threshold, and
   nothing is chosen only if no row of the tenant is within it.
   */
  lemma SelectIsGlobalNearest(t: Table, tenant: string, hits: seq<Hit>, l: Limits)
    requires Ranking(t, tenant, hits) && ValidLimits(l)
    ensures Select(hits, l).None? <==> forall h | h in hits :: h.distance > Threshold(l)
    ensures Select(hits, l).Some? ==>
      var best := Select(hits, l).value;
      && best.distance <= Threshold(l)
      && CatalogueStore.Owned(t, tenant, best.id) && best.row == t.rows[best.id] && best in hits
      && forall h | h in hits :: best.distance <= h.distance
  {
    hide Within, Best;
    var top := Top(hits, l.results);
    var docs := Search(hits, l);
    var relevant := Within(docs, Threshold(l));
    WithinExact(top, l.maxDistance);
    WithinExact(docs, Threshold(l));
    assert forall h :: h in relevant <==> h in top && h.distance <= Threshold(l);
    assert forall h | h in top :: h in hits;
    if relevant != [] { BestIsLeast(relevant); }
    if hits != [] {
      assert hits[0] in top;
      assert forall h | h in hits :: hits[0].distance <= h.distance;
    }
  }

  /** A hit that the mapper may take: the distance limit of the settings, or 0.80 when they set none. */
  predicate Near(h: Hit, l: Limits) {
    h.distance <= if l.maxDistance > 0.0 then l.maxDistance else 0.80
  }

  lemma {:induction false} WithinHead(hits: seq<Hit>, limit: real)
    requires hits != [] && hits[0].distance <= limit
    ensures Within(hits, limit) != [] && Within(hits, limit)[0] == hits[0]
  {
    if |hits| > 1 {
      WithinHead(hits[..|hits| - 1], limit);
    } else {
      assert hits == [hits[0]];
      WithinOne(hits[0], limit);
    }
  }

  lemma {:induction false} BestIsHead(docs: seq<Hit>)
    requires docs != [] && forall d | d in docs :: docs[0].distance <= d.distance
    ensures Best(docs) == docs[0]
  {
    if |docs| > 1 {
      assert docs[|docs| - 1] in docs;
      assert forall d | d in docs[..|docs| - 1] :: d in docs;
      BestIsHead(docs[..|docs| - 1]);
    }
  }

  /** Which row is chosen: the first of the whole ranked catalogue, ties included, if it is near enough. */
  lemma SelectIsFirst(t: Table, tenant: string, hits: seq<Hit>, l: Limits)
    requires Ranking(t, tenant, hits) && ValidLimits(l)
    ensures Select(hits, l) == if hits != [] && Near(hits[0], l) then Some(hits[0]) else None
  {
    hide Within, Best;
    SelectIsGlobalNearest(t, tenant, hits, l);
    if hits != [] && Near(hits[0], l) {
      var top := Top(hits, l.results);
      if l.maxDistance > 0.0 { WithinHead(top, l.maxDistance); }
      var docs := Search(hits, l);
      WithinHead(docs, Threshold(l));
      WithinExact(top, l.maxDistance);
      WithinExact(docs, Threshold(l));
      forall d | d in Within(docs, Threshold(l)) ensures hits[0].distance <= d.distance {
        assert d in top && d in hits;
      }
      BestIsHead(Within(docs, Threshold(l)));
    } else if hits != [] {
      assert forall h | h in hits :: hits[0].distance <= h.distance;
    }
  }

  // -------------------------------------------------------------- mapper

  datatype Mapped = Mapped(service: string, price: Option<real>, priceType: PriceType, distance: real, query: string)

  /** What one query meets: a failed embedding, a failed search, or the ranked catalogue. */
  datatype QueryAnswer = EmbeddingFailed | SearchFailed | Ranked(hits: seq<Hit>)

  datatype Mapping = Mapping(mapped: seq<Mapped>, docs: seq<Hit>, failed: bool)

  function EntryOf(h: Hit, query: string): Mapped {
    Mapped(h.row.service, h.row.price, h.row.priceType, h.distance, query)
  }

  /** One more match, if there is one. */
  function Extend(m: Mapping, query: string, best: Option<Hit>): Mapping {
    if best.None? then m
    else m.(mapped := m.mapped + [EntryOf(best.value, query)], docs := m.docs + [best.value])
  }

  /** The mapping after the first `n` queries; a failed query empties it for good. */
  function MapUpTo(l: Limits, queries: seq<string>, answers: seq<QueryAnswer>, n: nat): Mapping
    requires n <= |queries| == |answers|
  {
    if n == 0 then Mapping([], [], false)
    else
      var m := MapUpTo(l, queries, answers, n - 1);
      if m.failed || !answers[n - 1].Ranked? then Mapping([], [], true)
      else Extend(m, queries[n - 1], Select(answers[n - 1].hits, l))
  }

  function MapQueries(l: Limits, queries: seq<string>, answers: seq<QueryAnswer>): Mapping
    requires |queries| == |answers|
  {
    MapUpTo(l, queries, answers, |queries|)
  }

  lemma {:induction false} FailureIsFinal(l: Limits, queries: seq<string>, answers: seq<QueryAnswer>, i: nat, n: nat)
    requires i < n <= |queries| == |answers| && !answers[i].Ranked?
    ensures MapUpTo(l, queries, answers, n) == Mapping([], [], true)
    decreases n
  {
    hide Select;
    if i < n - 1 { FailureIsFinal(l, queries, answers, i, n - 1); }
  }

  method KeepRelevant(docs: seq<Hit>, threshold: real) returns (relevant: seq<Hit>)
    ensures relevant == Within(docs, threshold)
  {
    relevant := [];
    for j := 0 to |docs|
      invariant relevant == Within(docs[..j], threshold)
    {
      assert docs[..j + 1][..j] == docs[..j];
      if !(docs[j].distance > threshold) {
        relevant := relevant + [docs[j]];
      }
    }
    assert docs[..|docs|] == docs;
  }

  /** The body of the mapper's loop: search, keep the relevant documents, take the best. */
  method MatchQuery(hits: seq<Hit>, l: Limits) returns (best: Option<Hit>)
    ensures best == Select(hits, l)
  {
    var found := SimilaritySearch(hits, l.results, if l.maxDistance > 0.0 then Some(l.maxDistance) else None);
    var relevant := KeepRelevant(found, Threshold(l));
    best := if relevant == [] then None else Some(Best(relevant));
  }

  /** `mapper_node`: the loop with its early returns. */
  method MapperNode(l: Limits, queries: seq<string>, answers: seq<QueryAnswer>) returns (m: Mapping)
    requires |queries| == |answers|
    ensures m == MapQueries(l, queries, answers)
  {
    hide Select;
    var mapped, docs := [], [];
    for i := 0 to |queries|
      invariant Mapping(mapped, docs, false) == MapUpTo(l, queries, answers, i)
    {
      if !answers[i].Ranked? {
        FailureIsFinal(l, queries, answers, i, |queries|);
        return Mapping([], [], true);
      }
      var best := MatchQuery(answers[i].hits, l);
      if best.None? {
        continue;
      }
      docs := docs + [best.value];
      mapped := mapped + [EntryOf(best.value, queries[i])];
    }
    m := Mapping(mapped, docs, false);
  }

  // ------------------------------------------- what a mapping consists of

  /** The i-th match of a mapping is the choice of some query. */
  predicate ChosenBy(l: Limits, queries: seq<string>, answers: seq<QueryAnswer>, m: Mapping, i: nat, q: nat)
    requires |queries| == |answers| && |m.mapped| == |m.docs| && i < |m.docs|
  {
    && q < |answers| && answers[q].Ranked? && Select(answers[q].hits, l) == Some(m.docs[i])
    && Reports(m.mapped[i], m.docs[i], queries[q])
  }

  /** The entry says what the catalogue row says, with the distance and the query of its search. */
  predicate Reports(e: Mapped, doc: Hit, query: string) {
    && e.service == doc.row.service && e.price == doc.row.price && e.priceType == doc.row.priceType
    && e.distance == doc.distance && e.query == query
  }

  ghost predicate IsChoice(l: Limits, queries: seq<string>, answers: seq<QueryAnswer>, m: Mapping, i: nat)
    requires |queries| == |answers| && |m.mapped| == |m.docs| && i < |m.docs|
  {
    exists q :: ChosenBy(l, queries, answers, m, i, q)
  }

  lemma {:induction false} MatchesAreChoices(l: Limits, queries: seq<string>, answers: seq<QueryAnswer>, n: nat)
    requires n <= |queries| == |answers|
    ensures var m := MapUpTo(l, queries, answers, n);
      && |m.mapped| == |m.docs| <= n
      && forall i | 0 <= i < |m.docs| :: IsChoice(l, queries, answers, m, i)
  {
    hide Select;
    if n > 0 {
      MatchesAreChoices(l, queries, answers, n - 1);
      var before, m := MapUpTo(l, queries, answers, n - 1), MapUpTo(l, queries, answers, n);
      forall i | 0 <= i < |m.docs| ensures IsChoice(l, queries, answers, m, i) {
        if i < |before.docs| {
          assert IsChoice(l, queries, answers, before, i);
          var q: nat :| ChosenBy(l, queries, answers, before, i, q);
          assert ChosenBy(l, queries, answers, m, i, q);
        } else {
          assert ChosenBy(l, queries, answers, m, i, n - 1);
        }
      }
    }
  }

  /** Each answer ranks the tenant's rows in some catalogue, whatever its prices. */
  ghost predicate RankedAnswers(tenant: string, answers: seq<QueryAnswer>) {
    forall a | a in answers && a.Ranked? :: exists t :: Ranking(t, tenant, a.hits)
  }

  ghost predicate Finds(l: Limits, answers: seq<QueryAnswer>, q: nat) {
    q < |answers| && answers[q].Ranked? && answers[q].hits != [] && Near(answers[q].hits[0], l)
  }

  /** `qs` are the queries that find something near; the i-th match reports the first row that its query ranks. */
  ghost predicate MapsExactly(
      l: Limits, queries: seq<string>, answers: seq<QueryAnswer>, n: nat, m: Mapping, qs: seq<nat>)
    requires n <= |queries| == |answers|
  {
    && !m.failed && |m.mapped| == |m.docs| == |qs|
    && Positions(qs, n, (q: nat) => Finds(l, answers, q))
    && forall i | 0 <= i < |qs| ::
         && Finds(l, answers, qs[i]) && m.docs[i] == answers[qs[i]].hits[0]
         && Reports(m.mapped[i], m.docs[i], queries[qs[i]])
  }

  lemma MapsNext(
      l: Limits, queries: seq<string>, answers: seq<QueryAnswer>, n: nat, m: Mapping, qs: seq<nat>, best: Option<Hit>)
    requires n < |queries| == |answers| && MapsExactly(l, queries, answers, n, m, qs)
    requires best == if Finds(l, answers, n) then Some(answers[n].hits[0]) else None
    ensures MapsExactly(l, queries, answers, n + 1, Extend(m, queries[n], best),
                        if Finds(l, answers, n) then qs + [n] else qs)
  {
    hide Finds;
    PositionsNext(qs, n, (q: nat) => Finds(l, answers, q));
  }

  lemma MapsNone(l: Limits, queries: seq<string>, answers: seq<QueryAnswer>)
    requires |queries| == |answers|
    ensures MapsExactly(l, queries, answers, 0, MapUpTo(l, queries, answers, 0), [])
  {
  }

  lemma SelectFinds(tenant: string, l: Limits, answers: seq<QueryAnswer>, q: nat)
    requires ValidLimits(l) && RankedAnswers(tenant, answers) && q < |answers| && answers[q].Ranked?
    ensures Select(answers[q].hits, l) == if Finds(l, answers, q) then Some(answers[q].hits[0]) else None
  {
    hide Select;
    var t :| Ranking(t, tenant, answers[q].hits);
    SelectIsFirst(t, tenant, answers[q].hits, l);
  }

  /** The mapping, match by match: one for each query that finds a row near enough, in query order. */
  lemma {:induction false} MappingIsExact(
      tenant: string, l: Limits, queries: seq<string>, answers: seq<QueryAnswer>, n: nat) returns (qs: seq<nat>)
    requires n <= |queries| == |answers| && ValidLimits(l) && RankedAnswers(tenant, answers)
    requires forall q | 0 <= q < n :: answers[q].Ranked?
    ensures MapsExactly(l, queries, answers, n, MapUpTo(l, queries, answers, n), qs)
  {
    hide Select, MapsExactly, Finds, RankedAnswers;
    if n == 0 {
      qs := [];
      MapsNone(l, queries, answers);
    } else {
      qs := MappingIsExact(tenant, l, queries, answers, n - 1);
      SelectFinds(tenant, l, answers, n - 1);
      MappingFailsIff(l, queries, answers, n - 1);
      MapsNext(l, queries, answers, n - 1, MapUpTo(l, queries, answers, n - 1), qs, Select(answers[n - 1].hits, l));
      if Finds(l, answers, n - 1) { qs := qs + [n - 1]; }
    }
  }

  /** A failed query empties the mapping; nothing else marks it failed. */
  lemma {:induction false} MappingFailsIff(l: Limits, queries: seq<string>, answers: seq<QueryAnswer>, n: nat)
    requires n <= |queries| == |answers|
    ensures var m := MapUpTo(l, queries, answers, n);
      && (m.failed <==> exists i | 0 <= i < n :: !answers[i].Ranked?)
      && (m.failed ==> m.mapped == [] && m.docs == [])
  {
    hide Select;
    if n > 0 { MappingFailsIff(l, queries, answers, n - 1); }
  }

  /** At most one match per query, each within the threshold. */
  ghost predicate CloseMapping(l: Limits, queries: nat, m: Mapping) {
    && |m.mapped| == |m.docs| <= queries
    && forall i | 0 <= i < |m.mapped| ::
         m.mapped[i].distance == m.docs[i].distance && 0.0 <= m.docs[i].distance <= Threshold(l)
  }

  lemma MappingIsClose(tenant: string, l: Limits, queries: seq<string>, answers: seq<QueryAnswer>)
    requires |queries| == |answers| && ValidLimits(l) && RankedAnswers(tenant, answers)
    ensures CloseMapping(l, |queries|, MapQueries(l, queries, answers))
  {
    hide Select, MapUpTo;
    var m := MapQueries(l, queries, answers);
    MatchesAreChoices(l, queries, answers, |queries|);
    forall i | 0 <= i < |m.docs|
      ensures m.mapped[i].distance == m.docs[i].distance && 0.0 <= m.docs[i].distance <= Threshold(l)
    {
      assert IsChoice(l, queries, answers, m, i);
      var q: nat :| ChosenBy(l, queries, answers, m, i, q);
      var t :| Ranking(t, tenant, answers[q].hits);
      SelectIsGlobalNearest(t, tenant, answers[q].hits, l);
    }
  }

  /** Each answer ranks the tenant's rows in a catalogue as the database enforces it; it satisfies C when `sound`. */
  ghost predicate CatalogueAnswers(tenant: string, answers: seq<QueryAnswer>, sound: bool) {
    forall a | a in answers && a.Ranked? ::
      exists t :: Ranking(t, tenant, a.hits) && Enforced(t) && (sound ==> Valid(t))
  }

  /** The price pairs are ones the database lets pass; pairs of C when `sound`. */
  predicate PairsHold(m: Mapping, sound: bool) {
    forall e | e in m.mapped :: Admitted(e.priceType, e.price) && (sound ==> CheckHolds(e.priceType, e.price))
  }

  lemma MappingKeepsPairs(tenant: string, l: Limits, queries: seq<string>, answers: seq<QueryAnswer>, sound: bool)
    requires |queries| == |answers| && ValidLimits(l) && CatalogueAnswers(tenant, answers, sound)
    ensures PairsHold(MapQueries(l, queries, answers), sound)
  {
    hide Select, MapUpTo, Admitted, CheckHolds;
    var m := MapQueries(l, queries, answers);
    MatchesAreChoices(l, queries, answers, |queries|);
    forall e | e in m.mapped
      ensures Admitted(e.priceType, e.price) && (sound ==> CheckHolds(e.priceType, e.price))
    {
      var i: nat :| i < |m.mapped| && m.mapped[i] == e;
      assert IsChoice(l, queries, answers, m, i);
      var q: nat :| ChosenBy(l, queries, answers, m, i, q);
      var t :| Ranking(t, tenant, answers[q].hits) && Enforced(t) && (sound ==> Valid(t));
      SelectIsGlobalNearest(t, tenant, answers[q].hits, l);
    }
  }
}
