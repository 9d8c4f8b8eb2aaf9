/**
 PATCH handlers and re-embedding workers running concurrently.  A handler commits its
 row, then queues a job in a separate step; a worker takes a job, reads the row,
 computes the vector from what it read, and writes the vector back later.
 */
module EmbeddingSync {
  import opened Support
  import opened Pricing
  import opened Catalogue
  import opened CatalogueAdmin
  import opened CatalogueStore

  /** Where a worker stands in `update_embedding_task`. */
  datatype Worker = Idle | Taken(job: Job) | Holding(job: Job, text: Vector)

  /** `pending` are the handlers between their commit and their enqueue. */
  datatype System = System(table: Table, pending: multiset<Job>, queue: seq<Job>, workers: seq<Worker>)

  datatype Action =
    | Commit(tenant: string, id: ItemId, body: PatchBody)
    | Enqueue(job: Job)
    | Take(w: nat)
    | Fetch(w: nat)
    | Save(w: nat)
    | Retry(w: nat)
    | Drop(w: nat)
    | LoseEnqueue(job: Job)
    | WipeAll(tenant: string)
    | Ingestion(tenant: string, writes: seq<Write>)

  /** The text a worker embeds: name, description and, whatever the PATCH handler's comment says, the price. */
  function CurrentText(row: Row): Vector {
    Vector(row.service, Or(row.description, ""), row.price)
  }

  /** The text says of the row what it is now; its price counts only when `priced`. */
  predicate Says(text: Vector, row: Row, priced: bool) {
    text.service == row.service && text.description == Or(row.description, "") && (priced ==> text.price == row.price)
  }

  predicate Fresh(row: Row, priced: bool) {
    Says(row.vector, row, priced)
  }

  /** The final UPDATE: it touches the embedding column of the job's row, if there is one. */
  function WriteVector(t: Table, job: Job, text: Vector): Table {
    if Owned(t, job.tenant, job.item)
    then t.(rows := t.rows[job.item := t.rows[job.item].(vector := text)])
    else t
  }

  /** A worker's write changes the vector of its own tenant's row, and nothing else. */
  lemma WriteVectorIs(t: Table, job: Job, text: Vector)
    ensures var t' := WriteVector(t, job, text);
      && t'.nextId == t.nextId && t'.rows.Keys == t.rows.Keys
      && forall id | id in t.rows ::
           t'.rows[id] == if id == job.item && t.rows[id].tenant == job.tenant then t.rows[id].(vector := text)
                          else t.rows[id]
  {
  }

  /** One step; None when it is not enabled. */
  ghost function Act(s: System, a: Action): Option<System> {
    match a
    case Commit(tenant, id, body) =>
      var b := Validate(body);
      if b.None? || !Owned(s.table, tenant, id) || UpdatesOf(b.value) == [] then None
      else
        var ups := UpdatesOf(b.value);
        var t := Updated(s.table, id, ups);
        if t.None? then None
        else Some(s.(table := t.value,
                     pending := if NeedsReembedding(ups) then s.pending + multiset{Job(id, tenant)} else s.pending))
    case Enqueue(job) =>
      if job !in s.pending then None
      else Some(s.(pending := s.pending - multiset{job}, queue := s.queue + [job]))
    case Take(w) =>
      if w >= |s.workers| || !s.workers[w].Idle? || s.queue == [] then None
      else Some(s.(queue := s.queue[1..], workers := s.workers[w := Taken(s.queue[0])]))
    case Fetch(w) =>
      if w >= |s.workers| || !s.workers[w].Taken? then None
      else
        var job := s.workers[w].job;
        Some(s.(workers := s.workers[w :=
          if Owned(s.table, job.tenant, job.item) then Holding(job, CurrentText(s.table.rows[job.item])) else Idle]))
    case Save(w) =>
      if w >= |s.workers| || !s.workers[w].Holding? then None
      else Some(s.(table := WriteVector(s.table, s.workers[w].job, s.workers[w].text),
                   workers := s.workers[w := Idle]))
    case Retry(w) =>
      if w >= |s.workers| || s.workers[w].Idle? then None
      else Some(s.(queue := s.queue + [s.workers[w].job], workers := s.workers[w := Idle]))
    case Drop(w) =>
      if w >= |s.workers| || s.workers[w].Idle? then None
      else Some(s.(workers := s.workers[w := Idle]))
    case LoseEnqueue(job) =>
      if job !in s.pending then None else Some(s.(pending := s.pending - multiset{job}))
    case WipeAll(tenant) =>
      Some(s.(table := Wipe(s.table, tenant)))
    case Ingestion(tenant, ws) =>
      if forall x | x in ws :: WriteAdmitted(x) then Some(s.(table := UpsertAll(s.table, tenant, ws))) else None
  }

  ghost function Exec(s: System, acts: seq<Action>): Option<System>
    decreases |acts|
  {
    if acts == [] then Some(s)
    else var s' := Act(s, acts[0]); if s'.None? then None else Exec(s'.value, acts[1..])
  }

  ghost predicate AllFresh(s: System, priced: bool) {
    forall id | id in s.table.rows :: Fresh(s.table.rows[id], priced)
  }

  ghost predicate AtRest(s: System) {
    s.pending == multiset{} && s.queue == [] && forall w | w in s.workers :: w == Idle
  }

  ghost predicate Start(s: System, workers: nat, priced: bool) {
    Keyed(s.table) && AllFresh(s, priced) && AtRest(s) && |s.workers| == workers
  }

  /** A PATCH that sets the price and neither name nor description. */
  predicate Reprices(a: Action) {
    && a.Commit? && a.body.service.None? && a.body.description.None?
    && (a.body.price.Some? || a.body.priceType in {Some(FREE), Some(VARIABLE)})
  }

  /**
   What may happen in a run: the number of workers, ingestion beside them, a job that
   uses up its tries, an enqueue that fails after the commit, a PATCH of the price alone.
   */
  datatype Regime = Regime(workers: nat, ingestion: bool, exhausted: bool, lost: bool, repricing: bool)

  predicate Allows(r: Regime, a: Action) {
    && (a.Ingestion? ==> r.ingestion) && (a.Drop? ==> r.exhausted) && (a.LoseEnqueue? ==> r.lost)
    && (Reprices(a) ==> r.repricing)
  }

  ghost predicate Permitted(r: Regime, acts: seq<Action>) {
    forall a | a in acts :: Allows(r, a)
  }

  /** The regimes in which no refresh is lost or overtaken. */
  predicate Orderly(r: Regime, priced: bool) {
    r.workers == 1 && !r.ingestion && !r.exhausted && !r.lost && !(priced && r.repricing)
  }

  /** The sequential handler of the store is a commit followed by its enqueue, when the row asks for one. */
  lemma PatchIsCommitThenEnqueue(
      s: CatalogueStore.State, tenant: string, id: ItemId, body: PatchBody, workers: seq<Worker>)
    requires Patch(s, tenant, id, body).1.Done?
    ensures var s' := Patch(s, tenant, id, body).0;
      var commit := Act(System(s.table, multiset{}, s.queue, workers), Commit(tenant, id, body));
      && commit.Some?
      && (if Patch(s, tenant, id, body).1.queued then Act(commit.value, Enqueue(Job(id, tenant))) else commit)
         == Some(System(s'.table, multiset{}, s'.queue, workers))
  {
    var job := Job(id, tenant);
    assert multiset{} + multiset{job} - multiset{job} == multiset{};
    assert s.queue + [] == s.queue;
  }

  /** The protocol's wipe and ingestion are the store's. */
  lemma RequestsAreActions(s: CatalogueStore.State, r: Request, workers: seq<Worker>)
    requires !r.PatchRequest?
    ensures var a := if r.WipeRequest? then WipeAll(r.tenant) else Ingestion(r.tenant, r.writes);
      var s' := Act(System(s.table, multiset{}, s.queue, workers), a);
      if r.IngestRequest? && exists w | w in r.writes :: !Admitted(w.priceType, w.price)
      then s' == None && Handle(s, r) == s
      else
        var t := if r.WipeRequest? then Wipe(s.table, r.tenant) else UpsertAll(s.table, r.tenant, r.writes);
        s' == Some(System(t, multiset{}, s.queue, workers)) && Handle(s, r) == s.(table := t)
  {
  }

  // ------------------------------------------------------- orderly regimes

  predicate Awaited(s: System, job: Job) {
    job in s.pending || job in s.queue
  }

  /** A queued job, a handler about to queue one, or a worker that will still write the current text. */
  predicate WillRefresh(s: System, id: ItemId, priced: bool)
    requires id in s.table.rows
  {
    var row := s.table.rows[id];
    var job := Job(id, row.tenant);
    || Awaited(s, job) || Taken(job) in s.workers
    || exists w | w in s.workers :: w.Holding? && w.job == job && Says(w.text, row, priced)
  }

  ghost predicate RowSafe(s: System, id: ItemId, priced: bool)
    requires id in s.table.rows
  {
    var row := s.table.rows[id];
    var job := Job(id, row.tenant);
    && (Fresh(row, priced) || WillRefresh(s, id, priced))
    && forall w | w in s.workers && w.Holding? && w.job == job :: Says(w.text, row, priced) || Awaited(s, job)
  }

  ghost predicate Inv(s: System, priced: bool) {
    |s.workers| == 1 && forall id | id in s.table.rows :: RowSafe(s, id, priced)
  }

  /** A commit that queues no job changes nothing a worker embeds, except perhaps the price. */
  lemma QuietCommit(row: Row, body: PatchBody)
    requires Validate(body).Some? && !NeedsReembedding(UpdatesOf(Validate(body).value))
    ensures var after := Assign(row, UpdatesOf(Validate(body).value));
      && forall v, priced ::
        (priced ==> body.price.None? && body.priceType !in {Some(FREE), Some(VARIABLE)}) ==>
          Says(v, after, priced) == Says(v, row, priced)
    ensures body.service.None? && body.description.None?
  {
    var b := Validate(body).value;
    AssignedColumns(row, b);
    ReembeddingIff(body);
  }

  lemma CommitSafe(s: System, a: Action, priced: bool)
    requires Inv(s, priced) && a.Commit? && !(priced && Reprices(a)) && Act(s, a).Some?
    ensures Inv(Act(s, a).value, priced)
  {
    hide Says;
    var s' := Act(s, a).value;
    var ups := UpdatesOf(Validate(a.body).value);
    AssignKeepsTenant(s.table.rows[a.id], ups);
    if !NeedsReembedding(ups) { QuietCommit(s.table.rows[a.id], a.body); }
    forall id | id in s'.table.rows ensures RowSafe(s', id, priced) {
      assert RowSafe(s, id, priced);
      assert forall j :: Awaited(s, j) ==> Awaited(s', j);
      if id == a.id && NeedsReembedding(ups) {
        assert Awaited(s', Job(id, a.tenant));
      }
    }
  }

  lemma TakeSafe(s: System, w: nat, priced: bool)
    requires Inv(s, priced) && Act(s, Take(w)).Some?
    ensures Inv(Act(s, Take(w)).value, priced)
  {
    var s' := Act(s, Take(w)).value;
    assert s'.workers[0] == Taken(s.queue[0]);
    assert forall j | j in s.queue :: j == s.queue[0] || j in s.queue[1..];
    forall id | id in s'.table.rows ensures RowSafe(s', id, priced) {
      assert RowSafe(s, id, priced);
    }
  }

  lemma FetchSafe(s: System, w: nat, priced: bool)
    requires Inv(s, priced) && Act(s, Fetch(w)).Some?
    ensures Inv(Act(s, Fetch(w)).value, priced)
  {
    var s' := Act(s, Fetch(w)).value;
    forall id | id in s'.table.rows ensures RowSafe(s', id, priced) {
      assert RowSafe(s, id, priced);
      assert s'.workers[0] in s'.workers;
    }
  }

  lemma SaveSafe(s: System, w: nat, priced: bool)
    requires Inv(s, priced) && Act(s, Save(w)).Some?
    ensures Inv(Act(s, Save(w)).value, priced)
  {
    var s' := Act(s, Save(w)).value;
    forall id | id in s'.table.rows ensures RowSafe(s', id, priced) {
      assert RowSafe(s, id, priced);
      assert s.workers[0] in s.workers;
    }
  }

  lemma RetrySafe(s: System, w: nat, priced: bool)
    requires Inv(s, priced) && Act(s, Retry(w)).Some?
    ensures Inv(Act(s, Retry(w)).value, priced)
  {
    var s' := Act(s, Retry(w)).value;
    assert s.workers[0].job in s'.queue;
    forall id | id in s'.table.rows ensures RowSafe(s', id, priced) {
      assert RowSafe(s, id, priced);
      assert forall j :: Awaited(s, j) ==> Awaited(s', j);
    }
  }

  lemma StepSafe(s: System, a: Action, r: Regime, priced: bool)
    requires Inv(s, priced) && Orderly(r, priced) && Allows(r, a) && Act(s, a).Some?
    ensures Inv(Act(s, a).value, priced)
  {
    match a {
      case Commit(_, _, _) => CommitSafe(s, a, priced);
      case Enqueue(job) =>
        var s' := Act(s, a).value;
        assert forall j :: Awaited(s, j) ==> Awaited(s', j);
        forall id | id in s'.table.rows ensures RowSafe(s', id, priced) {
          assert RowSafe(s, id, priced);
        }
      case WipeAll(_) =>
        var s' := Act(s, a).value;
        forall id | id in s'.table.rows ensures RowSafe(s', id, priced) {
          assert RowSafe(s, id, priced);
        }
      case Take(w) => TakeSafe(s, w, priced);
      case Fetch(w) => FetchSafe(s, w, priced);
      case Save(w) => SaveSafe(s, w, priced);
      case Retry(w) => RetrySafe(s, w, priced);
    }
  }

  lemma {:induction false} RunSafe(s: System, acts: seq<Action>, r: Regime, priced: bool)
    requires Inv(s, priced) && Orderly(r, priced) && Permitted(r, acts) && Exec(s, acts).Some?
    ensures Inv(Exec(s, acts).value, priced)
    decreases |acts|
  {
    hide Inv, Act, Allows;
    if acts != [] {
      StepSafe(s, acts[0], r, priced);
      RunSafe(Act(s, acts[0]).value, acts[1..], r, priced);
    }
  }

  /** In every interleaving of an orderly regime, a stale row still has a refresh on its way. */
  lemma StaleRowHasRefreshComing(s: System, acts: seq<Action>, id: ItemId, r: Regime, priced: bool)
    requires Orderly(r, priced) && Start(s, 1, priced) && Permitted(r, acts) && Exec(s, acts).Some?
    requires id in Exec(s, acts).value.table.rows
    ensures
      var s' := Exec(s, acts).value;
      Fresh(s'.table.rows[id], priced) || WillRefresh(s', id, priced)
  {
    RunSafe(s, acts, r, priced);
    assert RowSafe(Exec(s, acts).value, id, priced);
  }

  /** A busy worker can give its job back, to the end of the queue, or give it up. */
  lemma RetryReturnsJob(s: System, w: nat)
    requires w < |s.workers| && s.workers[w] != Idle
    ensures var idle := s.(workers := s.workers[w := Idle]);
      && Act(s, Retry(w)) == Some(idle.(queue := s.queue + [s.workers[w].job]))
      && Act(s, Drop(w)) == Some(idle)
  {
  }

  /** The steps that handlers and workers take by themselves. */
  predicate OwnStep(a: Action) {
    a.Enqueue? || a.Take? || a.Fetch? || a.Save?
  }

  function Busyness(ws: seq<Worker>): nat {
    if ws == [] then 0
    else Busyness(ws[..|ws| - 1])
         + match ws[|ws| - 1] case Idle => 0 case Holding(_, _) => 1 case Taken(_) => 2
  }

  lemma {:induction false} BusynessAt(ws: seq<Worker>, w: nat, worker: Worker)
    requires w < |ws|
    ensures Busyness(ws[w := worker]) - Busyness([worker]) == Busyness(ws) - Busyness([ws[w]])
  {
    var init, last := ws[..|ws| - 1], ws[|ws| - 1];
    assert [worker][..0] == [] && [ws[w]][..0] == [];
    if w == |ws| - 1 {
      assert ws[w := worker][..|ws| - 1] == init;
    } else {
      assert ws[w := worker][..|ws| - 1] == init[w := worker];
      BusynessAt(init, w, worker);
    }
  }

  lemma {:induction false} IdleWhenNotBusy(ws: seq<Worker>)
    requires Busyness(ws) == 0
    ensures forall w | w in ws :: w == Idle
  {
    if ws != [] {
      IdleWhenNotBusy(ws[..|ws| - 1]);
      assert ws == ws[..|ws| - 1] + [ws[|ws| - 1]];
    }
  }

  /** The work that is left: steps until rest. */
  function WorkLeft(s: System): nat {
    4 * |s.pending| + 3 * |s.queue| + Busyness(s.workers)
  }

  /** Unless the system is at rest, one of its own steps is possible and leaves less to do. */
  lemma NextStep(s: System) returns (a: Action)
    requires s.workers != [] && !AtRest(s)
    ensures OwnStep(a) && Act(s, a).Some? && |Act(s, a).value.workers| == |s.workers|
    ensures WorkLeft(Act(s, a).value) < WorkLeft(s)
  {
    assert [Idle][..0] == [];
    if w :| 0 <= w < |s.workers| && s.workers[w].Holding? {
      a := Save(w);
      BusynessAt(s.workers, w, Idle);
      assert [s.workers[w]][..0] == [];
    } else if w :| 0 <= w < |s.workers| && s.workers[w].Taken? {
      a := Fetch(w);
      var s' := Act(s, a).value;
      BusynessAt(s.workers, w, s'.workers[w]);
      assert [s.workers[w]][..0] == [] && [s'.workers[w]][..0] == [];
    } else if s.queue != [] {
      a := Take(0);
      BusynessAt(s.workers, 0, Taken(s.queue[0]));
      assert [Taken(s.queue[0])][..0] == [] && [s.workers[0]][..0] == [];
    } else {
      var job :| job in s.pending;
      a := Enqueue(job);
    }
  }

  /** From every state the handlers and workers can bring the system to rest by themselves. */
  lemma {:induction false} RestIsReachable(s: System) returns (acts: seq<Action>)
    requires s.workers != []
    ensures forall a | a in acts :: OwnStep(a)
    ensures Exec(s, acts).Some? && AtRest(Exec(s, acts).value)
    decreases WorkLeft(s)
  {
    acts := [];
    if !AtRest(s) {
      hide Act, WorkLeft;
      var a := NextStep(s);
      var rest := RestIsReachable(Act(s, a).value);
      acts := [a] + rest;
      assert acts[1..] == rest;
    }
  }

  /** In an orderly regime every run can go on, by own steps alone, to a state in which every vector is current. */
  lemma FreshnessIsReachable(s: System, acts: seq<Action>, r: Regime, priced: bool) returns (more: seq<Action>)
    requires Orderly(r, priced) && Start(s, 1, priced) && Permitted(r, acts) && Exec(s, acts).Some?
    ensures forall a | a in more :: OwnStep(a)
    ensures Exec(s, acts + more).Some? && AllFresh(Exec(s, acts + more).value, priced)
  {
    RunSafe(s, acts, r, priced);
    var mid := Exec(s, acts).value;
    more := RestIsReachable(mid);
    RunSafe(mid, more, r, priced);
    ExecAppend(s, acts, more);
  }

  // ---------------------------------------------------- exactly when it holds

  /** Once nothing is running or waiting, every stored vector is current. */
  ghost predicate FreshAtRest(r: Regime, priced: bool) {
    forall s, acts ::
      Start(s, r.workers, priced) && Permitted(r, acts) && Exec(s, acts).Some? && AtRest(Exec(s, acts).value)
      ==> AllFresh(Exec(s, acts).value, priced)
  }

  function PatchDescription(text: string): Action {
    Commit("t", 0, PatchBody(None, None, None, Some(text)))
  }

  function Words(description: string): Vector {
    Vector("a", description, None)
  }

  function OneRow(description: string, vector: string): Table {
    Table(map[0 := Row("t", "a", None, VARIABLE, Some(description), Words(vector))], 1)
  }

  lemma PatchDescriptionStep(s: System, before: string, after: string, vector: string)
    requires s.table == OneRow(before, vector)
    ensures Act(s, PatchDescription(after)) ==
      Some(s.(table := OneRow(after, vector), pending := s.pending + multiset{Job(0, "t")}))
  {
    var ups := UpdatesOf(PatchBody(None, None, None, Some(after)));
    assert ups == [SetDescription(after)];
    assert Assign(s.table.rows[0], ups) == OneRow(after, vector).rows[0] by {
      assert ups[1..] == [];
    }
    assert ups[0].SetDescription?;
    assert s.table.rows[0 := OneRow(after, vector).rows[0]] == OneRow(after, vector).rows;
  }

  lemma {:induction false} ExecAppend(s: System, a: seq<Action>, b: seq<Action>)
    ensures Exec(s, a + b) == var mid := Exec(s, a); if mid.None? then None else Exec(mid.value, b)
    decreases |a|
  {
    if a == [] {
      assert a + b == b;
    } else {
      assert (a + b)[1..] == a[1..] + b;
      if Act(s, a[0]).Some? { ExecAppend(Act(s, a[0]).value, a[1..], b); }
    }
  }

  lemma ExecOne(s: System, a: Action)
    ensures Exec(s, [a]) == Act(s, a)
  {
    assert [a][1..] == [];
  }

  function At(description: string, vector: string, ws: seq<Worker>): System {
    System(OneRow(description, vector), multiset{}, [], ws)
  }

  const JOB := Job(0, "t")

  /** A patch is committed and queued, worker `w` takes the job and reads the row. */
  function TakePatch(w: nat, text: string): seq<Action> {
    [PatchDescription(text)] + [Enqueue(JOB)] + [Take(w)] + [Fetch(w)]
  }

  lemma TakePatchRuns(ws: seq<Worker>, w: nat, before: string, after: string, vector: string)
    requires w < |ws| && ws[w] == Idle
    ensures Exec(At(before, vector, ws), TakePatch(w, after))
      == Some(At(after, vector, ws[w := Holding(JOB, Words(after))]))
  {
    var s0 := At(before, vector, ws);
    var s1 := At(after, vector, ws).(pending := multiset{JOB});
    var s2 := At(after, vector, ws).(queue := [JOB]);
    var s3 := At(after, vector, ws[w := Taken(JOB)]);
    var s4 := At(after, vector, ws[w := Holding(JOB, Words(after))]);
    assert Act(s0, PatchDescription(after)) == Some(s1) by {
      PatchDescriptionStep(s0, before, after, vector);
      assert s0.pending + multiset{JOB} == multiset{JOB};
    }
    assert Act(s1, Enqueue(JOB)) == Some(s2) by {
      assert s1.queue + [JOB] == [JOB];
      assert s1.pending - multiset{JOB} == multiset{};
    }
    assert Act(s2, Take(w)) == Some(s3) by {
      assert s2.queue[1..] == [];
    }
    assert Act(s3, Fetch(w)) == Some(s4) by {
      assert s3.workers[w := Holding(JOB, Words(after))] == s4.workers;
    }
    ExecOne(s0, PatchDescription(after));
    ExecOne(s1, Enqueue(JOB));
    ExecOne(s2, Take(w));
    ExecOne(s3, Fetch(w));
    ExecAppend(s0, [PatchDescription(after)], [Enqueue(JOB)]);
    ExecAppend(s0, [PatchDescription(after)] + [Enqueue(JOB)], [Take(w)]);
    ExecAppend(s0, [PatchDescription(after)] + [Enqueue(JOB)] + [Take(w)], [Fetch(w)]);
  }

  lemma SaveRuns(ws: seq<Worker>, w: nat, held: string, description: string, vector: string)
    requires w < |ws| && ws[w] == Holding(JOB, Words(held))
    ensures Exec(At(description, vector, ws), [Save(w)]) == Some(At(description, held, ws[w := Idle]))
  {
    assert WriteVector(OneRow(description, vector), JOB, Words(held)).rows == OneRow(description, held).rows;
    ExecOne(At(description, vector, ws), Save(w));
  }

  /** A permitted run from rest to rest that leaves the row stale refutes freshness. */
  lemma StaleEndRefutes(r: Regime, priced: bool, acts: seq<Action>, end: System)
    requires Exec(At("x", "x", seq(r.workers, _ => Idle)), acts) == Some(end) && Permitted(r, acts)
    requires AtRest(end) && 0 in end.table.rows && !Fresh(end.table.rows[0], priced)
    ensures !FreshAtRest(r, priced)
  {
    hide Exec, Permitted;
    assert Start(At("x", "x", seq(r.workers, _ => Idle)), r.workers, priced);
  }

  lemma TwoTakePatchesRun(ws: seq<Worker>)
    requires |ws| >= 2 && ws[0] == Idle && ws[1] == Idle
    ensures Exec(At("x", "x", ws), TakePatch(0, "y") + TakePatch(1, "z"))
      == Some(At("z", "x", ws[0 := Holding(JOB, Words("y"))][1 := Holding(JOB, Words("z"))]))
  {
    TakePatchRuns(ws, 0, "x", "y", "x");
    TakePatchRuns(ws[0 := Holding(JOB, Words("y"))], 1, "y", "z", "x");
    ExecAppend(At("x", "x", ws), TakePatch(0, "y"), TakePatch(1, "z"));
  }

  lemma TwoSavesRun(ws: seq<Worker>)
    requires |ws| >= 2
    requires ws[0] == Holding(JOB, Words("y")) && ws[1] == Holding(JOB, Words("z"))
    ensures Exec(At("z", "x", ws), [Save(1)] + [Save(0)]) == Some(At("z", "y", ws[1 := Idle][0 := Idle]))
  {
    SaveRuns(ws, 1, "z", "z", "x");
    SaveRuns(ws[1 := Idle], 0, "y", "z", "z");
    ExecAppend(At("z", "x", ws), [Save(1)], [Save(0)]);
  }

  /** Two workers: the slower one overwrites the newer vector. */
  lemma SecondWorkerBreaksFreshness(r: Regime, priced: bool)
    requires r.workers >= 2
    ensures !FreshAtRest(r, priced)
  {
    hide Exec, FreshAtRest;
    var ws := seq(r.workers, _ => Idle);
    var both := ws[0 := Holding(JOB, Words("y"))][1 := Holding(JOB, Words("z"))];
    var fetches, saves := TakePatch(0, "y") + TakePatch(1, "z"), [Save(1)] + [Save(0)];
    TwoTakePatchesRun(ws);
    TwoSavesRun(both);
    ExecAppend(At("x", "x", ws), fetches, saves);
    assert "z"[0] != "y"[0];
    StaleEndRefutes(r, priced, fetches + saves, At("z", "y", both[1 := Idle][0 := Idle]));
  }

  lemma IngestionRuns(ws: seq<Worker>, vector: string)
    ensures Exec(At("y", vector, ws), [Ingestion("t", [Write("a", None, VARIABLE, "z")])]) == Some(At("z", "z", ws))
  {
    var w := Write("a", None, VARIABLE, "z");
    var t := OneRow("y", vector);
    assert IsAt(t, "t", "a", 0);
    assert UpsertOne(t, "t", w).rows == OneRow("z", "z").rows;
    assert UpsertAll(t, "t", [w]) == OneRow("z", "z") by {
      assert [w][1..] == [];
    }
    ExecOne(At("y", vector, ws), Ingestion("t", [w]));
  }

  /** One worker beside an ingestion: the upsert is overwritten by a vector of the old text. */
  lemma IngestionBreaksFreshness(r: Regime, priced: bool)
    requires r.workers >= 1 && r.ingestion
    ensures !FreshAtRest(r, priced)
  {
    hide Exec, FreshAtRest;
    var ws0 := seq(r.workers, _ => Idle);
    var ws1 := ws0[0 := Holding(JOB, Words("y"))];
    TakePatchRuns(ws0, 0, "x", "y", "x");
    IngestionRuns(ws1, "x");
    SaveRuns(ws1, 0, "y", "z", "z");
    var a, b := TakePatch(0, "y"), [Ingestion("t", [Write("a", None, VARIABLE, "z")])];
    ExecAppend(At("x", "x", ws0), a, b);
    ExecAppend(At("x", "x", ws0), a + b, [Save(0)]);
    assert "z"[0] != "y"[0];
    StaleEndRefutes(r, priced, a + b + [Save(0)], At("z", "y", ws1[0 := Idle]));
  }

  /** A job that uses up its tries after the row was read leaves the old vector. */
  lemma ExhaustedJobBreaksFreshness(r: Regime, priced: bool)
    requires r.workers >= 1 && r.exhausted
    ensures !FreshAtRest(r, priced)
  {
    hide Exec, FreshAtRest;
    var ws0 := seq(r.workers, _ => Idle);
    var ws1 := ws0[0 := Holding(JOB, Words("y"))];
    TakePatchRuns(ws0, 0, "x", "y", "x");
    ExecOne(At("y", "x", ws1), Drop(0));
    ExecAppend(At("x", "x", ws0), TakePatch(0, "y"), [Drop(0)]);
    assert "y"[0] != "x"[0];
    StaleEndRefutes(r, priced, TakePatch(0, "y") + [Drop(0)], At("y", "x", ws1[0 := Idle]));
  }

  /** An enqueue that fails after the commit leaves the old vector with nothing to replace it. */
  lemma LostEnqueueBreaksFreshness(r: Regime, priced: bool)
    requires r.lost
    ensures !FreshAtRest(r, priced)
  {
    hide Exec, FreshAtRest;
    var start := At("x", "x", seq(r.workers, _ => Idle));
    var mid := start.(table := OneRow("y", "x"), pending := start.pending + multiset{JOB});
    var end := At("y", "x", start.workers);
    PatchDescriptionStep(start, "x", "y", "x");
    ExecOne(start, PatchDescription("y"));
    assert mid.pending - multiset{JOB} == multiset{};
    ExecOne(mid, LoseEnqueue(JOB));
    ExecAppend(start, [PatchDescription("y")], [LoseEnqueue(JOB)]);
    assert "y"[0] != "x"[0];
    StaleEndRefutes(r, priced, [PatchDescription("y")] + [LoseEnqueue(JOB)], end);
  }

  /** A PATCH of the price alone queues no job, and the embedded text keeps the old price. */
  lemma RepricingBreaksFreshness(r: Regime)
    requires r.repricing
    ensures !FreshAtRest(r, true)
  {
    hide Exec, FreshAtRest;
    var start := At("x", "x", seq(r.workers, _ => Idle));
    var reprice := Commit("t", 0, PatchBody(None, Some(5.0), Some(FIXED), None));
    var row := start.table.rows[0].(price := Some(5.0), priceType := FIXED);
    var end := start.(table := start.table.(rows := start.table.rows[0 := row]));
    assert Act(start, reprice) == Some(end) by {
      var ups := UpdatesOf(reprice.body);
      assert ups == [SetPrice(Some(5.0)), SetPriceType(FIXED)];
      AssignedColumns(start.table.rows[0], reprice.body);
    }
    ExecOne(start, reprice);
    StaleEndRefutes(r, true, [reprice], end);
  }

  /**
   Eventual consistency of the vectors holds exactly with one worker, no concurrent
   ingestion, no exhausted job and no lost enqueue; as to the embedded price, only if no
   PATCH changes the price alone.
   */
  lemma FreshAtRestIff(r: Regime, priced: bool)
    requires r.workers >= 1
    ensures FreshAtRest(r, priced) <==>
      r.workers == 1 && !r.ingestion && !r.exhausted && !r.lost && !(priced && r.repricing)
  {
    hide FreshAtRest, Exec;
    if r.workers >= 2 {
      SecondWorkerBreaksFreshness(r, priced);
    } else if r.ingestion {
      IngestionBreaksFreshness(r, priced);
    } else if r.exhausted {
      ExhaustedJobBreaksFreshness(r, priced);
    } else if r.lost {
      LostEnqueueBreaksFreshness(r, priced);
    } else if priced && r.repricing {
      RepricingBreaksFreshness(r);
    } else {
      OrderlyIsFresh(r, priced);
    }
  }

  lemma OrderlyIsFresh(r: Regime, priced: bool)
    requires Orderly(r, priced)
    ensures FreshAtRest(r, priced)
  {
    hide Exec, Permitted;
    forall s, acts | Start(s, 1, priced) && Permitted(r, acts) && Exec(s, acts).Some? && AtRest(Exec(s, acts).value)
      ensures AllFresh(Exec(s, acts).value, priced)
    {
      RunSafe(s, acts, r, priced);
    }
  }

  // ------------------------------------------------------- the live worker

  /** `update_embedding_task` over the live store, one method for each of its database steps. */
  class Task {
    var progress: Worker

    /** The system as this worker sees it; handlers in flight are not part of the store. */
    function View(store: Store): System
      reads this, store
    {
      System(store.Now().table, multiset{}, store.queue, [progress])
    }

    constructor ()
      ensures progress == Idle
    {
      progress := Idle;
    }

    method TakeJob(store: Store)
      requires progress.Idle? && store.queue != []
      modifies this, store`queue
      ensures Act(old(View(store)), Take(0)) == Some(View(store))
      ensures progress == Taken(old(store.queue)[0]) && store.queue == old(store.queue)[1..]
    {
      progress := Taken(store.queue[0]);
      store.queue := store.queue[1..];
      assert [old(progress)][0 := progress] == [progress];
    }

    method FetchRow(store: Store) returns (found: bool)
      requires progress.Taken?
      modifies this
      ensures Act(old(View(store)), Fetch(0)) == Some(View(store))
      ensures found == (old(progress.job.item) in store.rows
                        && store.rows[old(progress.job.item)].tenant == old(progress.job.tenant))
      ensures progress ==
        if !found then Idle
        else var row := store.rows[old(progress.job.item)];
             Holding(old(progress.job), Vector(row.service, Or(row.description, ""), row.price))
    {
      var job := progress.job;
      found := job.item in store.rows && store.rows[job.item].tenant == job.tenant;
      progress := if found then Holding(job, CurrentText(store.rows[job.item])) else Idle;
      assert [old(progress)][0 := progress] == [progress];
    }

    method SaveVector(store: Store)
      requires progress.Holding?
      modifies this, store`rows
      ensures Act(old(View(store)), Save(0)) == Some(View(store))
      ensures store.Now().audit == old(store.Now()).audit && progress == Idle
      ensures store.rows.Keys == old(store.rows).Keys
      ensures forall id | id in store.rows ::
        store.rows[id] == if id == old(progress.job.item) && old(store.rows)[id].tenant == old(progress.job.tenant)
                          then old(store.rows)[id].(vector := old(progress.text)) else old(store.rows)[id]
    {
      var job := progress.job;
      if job.item in store.rows && store.rows[job.item].tenant == job.tenant {
        store.rows := store.rows[job.item := store.rows[job.item].(vector := progress.text)];
      }
      progress := Idle;
      assert [old(progress)][0 := progress] == [progress];
    }
  }
}
