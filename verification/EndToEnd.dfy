/**
 From the uploaded file to the delivered quote: the validators of the ingested items
 carry the pricing rule through every request and every search to the calculator.
 */
module EndToEnd {
  import opened Support
  import opened Pricing
  import opened Catalogue
  import opened CatalogueStore
  import opened IngestionNodes
  import opened Matching
  import opened Quotes
  import Ingestion = IngestionGraph
  import Qualification = QualificationGraph

  /** The items of a reachable ingestion run, whatever the file, the model's answers and the decision were. */
  ghost predicate WritesOfRun(r: Request, c: Ingestion.Setup, t: Table, acts: seq<Ingestion.Action>) {
    && r.IngestRequest? && Ingestion.ValidSetup(c)
    && var end := Ingestion.Exec(c, Ingestion.Initial(t), acts);
       end.Some? && r.tenant == c.tenant && r.writes == WritesOf(FirstById(end.value.items))
  }

  /** The program's only caller of `upsert_items` is the finalizer. */
  ghost predicate OnlyIngested(rs: seq<Request>) {
    forall r | r in rs && r.IngestRequest? :: exists c, t, acts :: WritesOfRun(r, c, t, acts)
  }

  lemma IngestedOpensNoGap(r: Request, c: Ingestion.Setup, t: Table, acts: seq<Ingestion.Action>)
    requires WritesOfRun(r, c, t, acts)
    ensures !OpensGap(r)
  {
    hide FirstById, WritesOf, LastWrite;
    Ingestion.RunKeepsInv(c, t, Ingestion.Initial(t), acts);
    SoundItemsWriteSoundly(Ingestion.Exec(c, Ingestion.Initial(t), acts).value.items);
    forall s | LastWrite(r.writes, s).Some? ensures WriteSound(LastWrite(r.writes, s).value) {
      assert LastWrite(r.writes, s).value in r.writes;
    }
  }

  /** C and UNIQUE hold in every state of the catalogue that ingestions, PATCHes and wipes can bring about. */
  lemma IngestedCatalogueAlwaysValid(s: State, rs: seq<Request>)
    requires Valid(s.table) && OnlyIngested(rs)
    ensures AlwaysValid(s, rs)
  {
    hide OpensGap, AlwaysValid, WritesOfRun, Valid;
    forall r | r in rs ensures !OpensGap(r) {
      if r.IngestRequest? {
        var c, t, acts :| WritesOfRun(r, c, t, acts);
        IngestedOpensNoGap(r, c, t, acts);
      } else {
        OnlyUpsertsOpenGaps(r);
      }
    }
    ReachableCatalogueValidIff(s, rs);
  }

  lemma OnlyUpsertsOpenGaps(r: Request)
    requires !r.IngestRequest?
    ensures !OpensGap(r)
  {
  }

  lemma {:induction false} AlwaysValidAt(s: State, rs: seq<Request>, k: nat)
    requires AlwaysValid(s, rs) && k <= |rs|
    ensures Valid(Run(s, rs[..k]).table)
    decreases k
  {
    if k > 0 {
      AlwaysValidAt(Handle(s, rs[0]), rs[1..], k - 1);
      assert rs[..k][1..] == rs[1..][..k - 1];
    }
  }

  /** The same table, except that workers may have stored other vectors. */
  predicate Reembedded(t: Table, u: Table) {
    && u.nextId == t.nextId && u.rows.Keys == t.rows.Keys
    && forall id | id in t.rows :: u.rows[id] == t.rows[id].(vector := u.rows[id].vector)
  }

  /** The search met the catalogue as it was after the first `k` requests. */
  ghost predicate MetAt(s: State, rs: seq<Request>, tenant: string, hits: seq<Hit>, k: nat, u: Table) {
    k <= |rs| && Reembedded(Run(s, rs[..k]).table, u) && Ranking(u, tenant, hits)
  }

  /** Every search of the run met the catalogue at some moment, each possibly at another. */
  ghost predicate Served(s: State, rs: seq<Request>, c: Qualification.Settings, acts: seq<Qualification.Action>) {
    forall a, q | a in acts && a.Map? && q in a.answers && q.Ranked? ::
      exists k, u :: MetAt(s, rs, c.tenant, q.hits, k, u)
  }

  lemma ServedIsHonest(s: State, rs: seq<Request>, c: Qualification.Settings, acts: seq<Qualification.Action>)
    requires AlwaysValid(s, rs) && Served(s, rs, c, acts)
    ensures Qualification.Honest(c, acts, true)
  {
    hide AlwaysValid, Run, Ranking, CheckHolds;
    forall a, q | a in acts && a.Map? && q in a.answers && q.Ranked?
      ensures exists t :: Ranking(t, c.tenant, q.hits) && Enforced(t) && Valid(t)
    {
      var k, u :| MetAt(s, rs, c.tenant, q.hits, k, u);
      AlwaysValidAt(s, rs, k);
      assert Enforced(u) && Valid(u);
    }
  }

  /** After the first `k` requests the tenant's row `id` has the entry's name, price type and price. */
  ghost predicate PricedAt(s: State, rs: seq<Request>, tenant: string, id: ItemId, e: Mapped, k: nat) {
    && k <= |rs|
    && var rows := Run(s, rs[..k]).table.rows;
       && id in rows && rows[id].tenant == tenant && rows[id].service == e.service
       && rows[id].priceType == e.priceType && rows[id].price == e.price
  }

  /** Every match has the name and the price that its row had in the catalogue when it was searched. */
  ghost predicate Sourced(s: State, rs: seq<Request>, tenant: string, m: Mapping) {
    && |m.mapped| == |m.docs|
    && forall i | 0 <= i < |m.docs| :: IsSourced(s, rs, tenant, m.docs[i], m.mapped[i])
  }

  ghost predicate IsSourced(s: State, rs: seq<Request>, tenant: string, doc: Hit, e: Mapped) {
    exists k :: PricedAt(s, rs, tenant, doc.id, e, k)
  }

  lemma MappingIsSourced(
      s: State, rs: seq<Request>, tenant: string, l: Limits, queries: seq<string>, answers: seq<QueryAnswer>)
    requires |queries| == |answers| && ValidLimits(l)
    requires forall a | a in answers && a.Ranked? :: exists k, u :: MetAt(s, rs, tenant, a.hits, k, u)
    ensures Sourced(s, rs, tenant, MapQueries(l, queries, answers))
  {
    hide Select, MapUpTo, Run;
    var m := MapQueries(l, queries, answers);
    MatchesAreChoices(l, queries, answers, |queries|);
    forall i | 0 <= i < |m.docs| ensures IsSourced(s, rs, tenant, m.docs[i], m.mapped[i]) {
      assert IsChoice(l, queries, answers, m, i);
      var q: nat :| ChosenBy(l, queries, answers, m, i, q);
      var k, u :| MetAt(s, rs, tenant, answers[q].hits, k, u);
      SelectIsGlobalNearest(u, tenant, answers[q].hits, l);
      assert PricedAt(s, rs, tenant, m.docs[i].id, m.mapped[i], k);
    }
  }

  ghost predicate SourcedInv(s: State, rs: seq<Request>, tenant: string, q: Qualification.State) {
    q.node in {Qualification.Evaluator, Qualification.Calculator, Qualification.Delivery, Qualification.End} ==>
      Sourced(s, rs, tenant, q.mapping)
  }

  lemma {:induction false} RunKeepsSourced(
      s: State, rs: seq<Request>, c: Qualification.Settings, q: Qualification.State, acts: seq<Qualification.Action>)
    requires Qualification.ValidSettings(c) && SourcedInv(s, rs, c.tenant, q)
    requires Served(s, rs, c, acts) && Qualification.Exec(c, q, acts).Some?
    ensures SourcedInv(s, rs, c.tenant, Qualification.Exec(c, q, acts).value)
    decreases |acts|
  {
    hide Sourced, MapQueries, Total, OnRequest, MetAt;
    if acts != [] {
      var q' := Qualification.Act(c, q, acts[0]).value;
      if acts[0].Map? { MappingIsSourced(s, rs, c.tenant, c.limits, q.extracted, acts[0].answers); }
      RunKeepsSourced(s, rs, c, q', acts[1..]);
    }
  }

  /** The prices of the entries, VARIABLE ones aside. */
  function Prices(es: seq<Mapped>): real {
    if es == [] then 0.0
    else Prices(es[1..]) + if es[0].priceType == VARIABLE then 0.0 else Or(es[0].price, 0.0)
  }

  lemma {:induction false} PricesAreSum(es: seq<Mapped>)
    ensures Prices(es) == ExactSum(es)
  {
    if es != [] {
      PricesAreSum(es[1..]);
      assert es == [es[0]] + es[1..];
      SumSplit([es[0]], es[1..]);
      assert [es[0]][..0] == [];
    }
  }

  /**
   Whatever is uploaded, answered, approved, patched, wiped and re-embedded, from a valid
   catalogue on, and however the searches of a qualification fall between: its quote never
   fails; every match has the name, type and price that the tenant's row had when it was
   searched; and the delivered total is their sum, VARIABLE ones aside, within half a cent.
   */
  lemma NoQuoteFails(
      s: State, rs: seq<Request>, c: Qualification.Settings, acts: seq<Qualification.Action>)
    requires Valid(s.table) && OnlyIngested(rs) && Served(s, rs, c, acts)
    requires Qualification.ValidSettings(c) && Qualification.Exec(c, Qualification.Initial(), acts).Some?
    ensures var q := Qualification.Exec(c, Qualification.Initial(), acts).value;
      && !q.failedQuote
      && (q.node in {Qualification.Calculator, Qualification.Delivery, Qualification.End} ==>
            Sourced(s, rs, c.tenant, q.mapping))
      && (q.node in {Qualification.Delivery, Qualification.End} ==>
            Prices(q.mapping.mapped) - 0.005 <= q.total <= Prices(q.mapping.mapped) + 0.005)
  {
    hide AlwaysValid, Served, OnlyIngested, Valid, Sourced, ExactSum, Qualification.Exec;
    IngestedCatalogueAlwaysValid(s, rs);
    ServedIsHonest(s, rs, c, acts);
    Qualification.QuoteNeverFails(c, acts);
    RunKeepsSourced(s, rs, c, Qualification.Initial(), acts);
    PricesAreSum(Qualification.Exec(c, Qualification.Initial(), acts).value.mapping.mapped);
  }
}
