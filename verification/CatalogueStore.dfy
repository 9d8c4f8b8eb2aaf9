/**
 The catalogue table together with its audit log and the re-embedding queue, under
 every request the backend accepts.
 */
module CatalogueStore {
  import opened Support
  import opened Pricing
  import opened Catalogue
  import opened CatalogueAdmin

  datatype Job = Job(item: ItemId, tenant: string)

  datatype State = State(table: Table, audit: seq<AuditRow>, queue: seq<Job>)

  datatype Reply = Done(row: Row, queued: bool) | Refused(status: nat)

  /** Another row already has the key (UNIQUE would be violated). */
  predicate KeyTaken(t: Table, id: ItemId, row: Row) {
    exists j | j in t.rows :: j != id && t.rows[j].tenant == row.tenant && t.rows[j].service == row.service
  }

  predicate Owned(t: Table, tenant: string, id: ItemId) {
    id in t.rows && t.rows[id].tenant == tenant
  }

  /** The UPDATE of one transaction; None when a constraint aborts it. */
  function Updated(t: Table, id: ItemId, ups: seq<Update>): Option<Table>
    requires id in t.rows
  {
    var row := Assign(t.rows[id], ups);
    if Admitted(row.priceType, row.price) && !KeyTaken(t, id, row)
    then Some(t.(rows := t.rows[id := row]))
    else None
  }

  /** `patch_catalogue_item` run without interleaving. */
  function Patch(s: State, tenant: string, id: ItemId, body: PatchBody): (State, Reply) {
    var b := Validate(body);
    if b.None? || UpdatesOf(b.value) == [] then (s, Refused(422))
    else if !Owned(s.table, tenant, id) then (s, Refused(404))
    else
      var ups := UpdatesOf(b.value);
      var before := s.table.rows[id];
      var after := Assign(before, ups);
      var t := Updated(s.table, id, ups);
      if t.None? then (s, Refused(if Admitted(after.priceType, after.price) then 500 else 422))
      else
        (State(t.value,
               s.audit + AuditRows(id, before, ups),
               s.queue + if NeedsReembedding(ups) then [Job(id, tenant)] else []),
         Done(after, NeedsReembedding(ups)))
  }

  /** `upsert_items`: all elements in one transaction, or none. */
  ghost function Ingest(s: State, tenant: string, ws: seq<Write>): State {
    if forall w | w in ws :: WriteAdmitted(w) then s.(table := UpsertAll(s.table, tenant, ws)) else s
  }

  datatype Request =
    | IngestRequest(tenant: string, writes: seq<Write>)
    | PatchRequest(tenant: string, id: ItemId, body: PatchBody)
    | WipeRequest(tenant: string)

  ghost function Handle(s: State, r: Request): State {
    match r
    case IngestRequest(tenant, ws) => Ingest(s, tenant, ws)
    case PatchRequest(tenant, id, body) => Patch(s, tenant, id, body).0
    case WipeRequest(tenant) => s.(table := Wipe(s.table, tenant))
  }

  ghost function Run(s: State, rs: seq<Request>): State
    decreases |rs|
  {
    if rs == [] then s else Run(Handle(s, rs[0]), rs[1..])
  }

  // ---------------------------------------------------------- invariants

  lemma UpdatesDistinct(body: PatchBody)
    requires Validate(body).Some?
    ensures DistinctFields(UpdatesOf(Validate(body).value))
  {
    var b := Validate(body).value;
    var u1 := if b.service.Some? then [SetService(b.service.value)] else [];
    var u2 := if b.price.Some? then [SetPrice(b.price)] else [];
    var u3 := if b.priceType.Some? then [SetPriceType(b.priceType.value)] else [];
    var u4 := if b.description.Some? then [SetDescription(b.description.value)] else [];
    var u5 := if b.priceType == Some(VARIABLE) then [SetPrice(None)] else [];
    assert UpdatesOf(b) == u1 + u2 + u3 + u4 + u5;
    DistinctAppend(u1, u2);
    DistinctAppend(u1 + u2, u3);
    DistinctAppend(u1 + u2 + u3, u4);
    DistinctAppend(u1 + u2 + u3 + u4, u5);
  }

  lemma DistinctAppend(a: seq<Update>, b: seq<Update>)
    requires DistinctFields(a) && |b| <= 1
    requires forall u, v | u in a && v in b :: u.Field() != v.Field()
    ensures DistinctFields(a + b)
  {
  }

  lemma {:induction false} AssignKeepsTenant(row: Row, ups: seq<Update>)
    ensures Assign(row, ups).tenant == row.tenant
    ensures Assign(row, ups).vector == row.vector
    ensures !NeedsReembedding(ups) ==>
      Assign(row, ups).service == row.service && Assign(row, ups).description == row.description
    decreases |ups|
  {
    if ups != [] {
      AssignKeepsTenant(ups[0].On(row), ups[1..]);
    }
  }

  /** A PATCH keeps the database's constraints, and C as well: the handler never stores FREE without a price. */
  lemma PatchKeepsConstraints(s: State, tenant: string, id: ItemId, body: PatchBody)
    ensures var t := Patch(s, tenant, id, body).0.table;
      (Enforced(s.table) ==> Enforced(t)) && (Valid(s.table) ==> Valid(t))
  {
    var b := Validate(body);
    if b.Some? && Owned(s.table, tenant, id) {
      AssignKeepsTenant(s.table.rows[id], UpdatesOf(b.value));
      if Valid(s.table) { PatchMeetsCheckIff(s.table.rows[id], body); }
    }
  }

  lemma WipeKeepsConstraints(t: Table, tenant: string)
    ensures (Enforced(t) ==> Enforced(Wipe(t, tenant))) && (Valid(t) ==> Valid(Wipe(t, tenant)))
  {
  }

  /** UNIQUE(tenant, service) and the CHECK as SQL reads it hold in every reachable catalogue. */
  lemma {:induction false} ReachableCatalogueEnforced(s: State, rs: seq<Request>)
    requires Enforced(s.table)
    ensures Enforced(Run(s, rs).table)
    decreases |rs|
  {
    hide Enforced, Patch, UpsertAll, Wipe, WriteAdmitted;
    if rs != [] {
      match rs[0] {
        case IngestRequest(tenant, ws) =>
          if forall w | w in ws :: WriteAdmitted(w) { UpsertEnforced(s.table, tenant, ws); }
        case PatchRequest(tenant, id, body) => PatchKeepsConstraints(s, tenant, id, body);
        case WipeRequest(tenant) => WipeKeepsConstraints(s.table, tenant);
      }
      ReachableCatalogueEnforced(Handle(s, rs[0]), rs[1..]);
    }
  }

  /** An upsert that the database accepts and whose last element for some name is FREE without a price. */
  ghost predicate OpensGap(r: Request) {
    && r.IngestRequest?
    && (forall w | w in r.writes :: WriteAdmitted(w))
    && exists s :: LastWrite(r.writes, s).Some?
                   && LastWrite(r.writes, s).value.priceType == FREE && LastWrite(r.writes, s).value.price.None?
  }

  lemma GapIff(r: Request)
    requires r.IngestRequest? && forall w | w in r.writes :: WriteAdmitted(w)
    ensures OpensGap(r) <==> !LastWritesSound(r.writes)
  {
    forall s | LastWrite(r.writes, s).Some? ensures LastWrite(r.writes, s).value in r.writes {
    }
  }

  lemma RequestKeepsCIff(s: State, r: Request)
    requires Valid(s.table)
    ensures Valid(Handle(s, r).table) <==> !OpensGap(r)
  {
    hide Valid, Patch, UpsertAll, Wipe, WriteAdmitted, LastWritesSound;
    match r {
      case IngestRequest(tenant, ws) =>
        if forall w | w in ws :: WriteAdmitted(w) {
          UpsertValidIff(s.table, tenant, ws);
          GapIff(r);
        }
      case PatchRequest(tenant, id, body) => PatchKeepsConstraints(s, tenant, id, body);
      case WipeRequest(tenant) => WipeKeepsConstraints(s.table, tenant);
    }
  }

  /** C and UNIQUE hold in every state of the run. */
  ghost predicate AlwaysValid(s: State, rs: seq<Request>)
    decreases |rs|
  {
    Valid(s.table) && (rs != [] ==> AlwaysValid(Handle(s, rs[0]), rs[1..]))
  }

  /**
   C(price_type, price) and UNIQUE(tenant, service) hold throughout a run of upserts,
   PATCHes and wipes exactly when no upsert leaves a name FREE without a price.
   */
  lemma {:induction false} ReachableCatalogueValidIff(s: State, rs: seq<Request>)
    requires Valid(s.table)
    ensures AlwaysValid(s, rs) <==> forall r | r in rs :: !OpensGap(r)
    decreases |rs|
  {
    hide Valid, Handle, OpensGap;
    if rs != [] {
      RequestKeepsCIff(s, rs[0]);
      if !OpensGap(rs[0]) { ReachableCatalogueValidIff(Handle(s, rs[0]), rs[1..]); }
      assert forall r :: r in rs <==> r == rs[0] || r in rs[1..];
      assert !OpensGap(rs[0]) || !AlwaysValid(Handle(s, rs[0]), rs[1..]);
    }
  }

  /** The constraint lets FREE without a price pass, and the upsert stores it. */
  lemma FreeWithoutPriceIsStored()
    ensures var s := State(Table(map[], 0), [], []);
      Valid(s.table) && !Valid(Ingest(s, "t", [Write("a", None, FREE, "")]).table)
  {
    var s, w := State(Table(map[], 0), [], []), Write("a", None, FREE, "");
    assert LastWrite([w], "a") == Some(w);
    assert OpensGap(IngestRequest("t", [w]));
    RequestKeepsCIff(s, IngestRequest("t", [w]));
  }

  /** When a PATCH meets the CHECK: decided by the payload and the current price type, under both readings. */
  lemma PatchMeetsCheckIff(row: Row, body: PatchBody)
    requires CheckHolds(row.priceType, row.price)
    requires Validate(body).Some?
    ensures
      var after := Assign(row, UpdatesOf(Validate(body).value));
      Admitted(after.priceType, after.price) <==> CheckHolds(after.priceType, after.price)
    ensures
      var after := Assign(row, UpdatesOf(Validate(body).value));
      CheckHolds(after.priceType, after.price) <==>
      match body.priceType
      case Some(FIXED) => body.price.Some? || row.priceType != VARIABLE
      case Some(_) => true
      case None =>
        body.price.None? || row.priceType == FIXED || (row.priceType == FREE && body.price == Some(0.0))
  {
    var b := Validate(body).value;
    AssignedColumns(row, b);
  }

  lemma {:induction false} AssignAppend(row: Row, a: seq<Update>, b: seq<Update>)
    ensures Assign(row, a + b) == Assign(Assign(row, a), b)
    decreases |a|
  {
    if a == [] {
      assert a + b == b;
    } else {
      assert (a + b)[1..] == a[1..] + b;
      AssignAppend(a[0].On(row), a[1..], b);
    }
  }

  /** The row an accepted payload leaves: absent members keep their column. */
  lemma AssignedColumns(row: Row, b: PatchBody)
    requires b.priceType == Some(VARIABLE) ==> b.price.None?
    ensures Assign(row, UpdatesOf(b)) ==
      row.(service := Or(b.service, row.service),
           price := if b.priceType == Some(VARIABLE) then None
                    else if b.price.Some? then b.price else row.price,
           priceType := Or(b.priceType, row.priceType),
           description := if b.description.Some? then b.description else row.description)
  {
    var u1 := if b.service.Some? then [SetService(b.service.value)] else [];
    var u2 := if b.price.Some? then [SetPrice(b.price)] else [];
    var u3 := if b.priceType.Some? then [SetPriceType(b.priceType.value)] else [];
    var u4 := if b.description.Some? then [SetDescription(b.description.value)] else [];
    var u5 := if b.priceType == Some(VARIABLE) then [SetPrice(None)] else [];
    assert UpdatesOf(b) == u1 + u2 + u3 + u4 + u5;
    AssignAppend(row, u1 + u2 + u3 + u4, u5);
    AssignAppend(row, u1 + u2 + u3, u4);
    AssignAppend(row, u1 + u2, u3);
    AssignAppend(row, u1, u2);
  }

  // ------------------------------------------------ what one PATCH does

  lemma {:induction false} AuditRowsAppend(id: ItemId, row: Row, a: seq<Update>, b: seq<Update>)
    ensures AuditRows(id, row, a + b) == AuditRows(id, row, a) + AuditRows(id, row, b)
    decreases |a|
  {
    if a == [] {
      assert a + b == b;
    } else {
      assert (a + b)[1..] == a[1..] + b;
      AuditRowsAppend(id, row, a[1..], b);
    }
  }

  lemma AuditRowsOne(id: ItemId, row: Row, u: Update)
    ensures AuditRows(id, row, [u]) ==
      if Records(row, u) then [AuditRow(id, u.Field(), OldValue(row, u.Field()), NewValue(u))] else []
  {
    assert [u][1..] == [];
  }

  /** The price a payload sets; None inside when it clears it, None outside when it leaves it. */
  function PriceSet(body: PatchBody): Option<Option<real>> {
    match body.priceType
    case Some(FREE) => Some(Some(0.0))
    case Some(VARIABLE) => Some(None)
    case _ => if body.price.Some? then Some(body.price) else None
  }

  /** The row a payload leaves. */
  function PatchedRow(row: Row, body: PatchBody): Row {
    Row(row.tenant, Or(body.service, row.service), Or(PriceSet(body), row.price), Or(body.priceType, row.priceType),
        if body.description.Some? then body.description else row.description, row.vector)
  }

  function NumberOrNull(price: Option<real>): Option<Printed> {
    if price.None? then None else Some(Number(price.value))
  }

  function ServiceChange(id: ItemId, row: Row, body: PatchBody): seq<AuditRow> {
    if body.service.Some? && body.service.value != row.service
    then [AuditRow(id, Service, Some(Text(row.service)), Text(body.service.value))] else []
  }

  function PriceChange(id: ItemId, row: Row, body: PatchBody): seq<AuditRow> {
    if PriceSet(body).Some? && PriceSet(body).value != row.price
    then [AuditRow(id, Price, NumberOrNull(row.price),
                   if PriceSet(body).value.None? then Text("None") else Number(PriceSet(body).value.value))] else []
  }

  /** A given type is always recorded: the new one prints with its class name. */
  function TypeChange(id: ItemId, row: Row, body: PatchBody): seq<AuditRow> {
    if body.priceType.Some?
    then [AuditRow(id, Type, Some(Text(TypeName(row.priceType))), Text("PriceType." + TypeName(body.priceType.value)))]
    else []
  }

  function DescriptionChange(id: ItemId, row: Row, body: PatchBody): seq<AuditRow> {
    if body.description.Some? && body.description.value != Or(row.description, "None")
    then [AuditRow(id, Description, if row.description.None? then None else Some(Text(row.description.value)),
                   Text(body.description.value))]
    else []
  }

  /** The audit rows of a PATCH, change by change; a cleared price comes last. */
  function ChangeRows(id: ItemId, row: Row, body: PatchBody): seq<AuditRow> {
    var clears := body.priceType == Some(VARIABLE);
    ServiceChange(id, row, body)
    + (if clears then [] else PriceChange(id, row, body))
    + TypeChange(id, row, body)
    + DescriptionChange(id, row, body)
    + (if clears then PriceChange(id, row, body) else [])
  }

  lemma AuditRowsOfParts(
      id: ItemId, row: Row, u1: seq<Update>, u2: seq<Update>, u3: seq<Update>, u4: seq<Update>, u5: seq<Update>)
    ensures AuditRows(id, row, u1 + u2 + u3 + u4 + u5)
      == AuditRows(id, row, u1) + AuditRows(id, row, u2) + AuditRows(id, row, u3) + AuditRows(id, row, u4)
         + AuditRows(id, row, u5)
  {
    hide AuditRows;
    AuditRowsAppend(id, row, u1 + u2 + u3 + u4, u5);
    AuditRowsAppend(id, row, u1 + u2 + u3, u4);
    AuditRowsAppend(id, row, u1 + u2, u3);
    AuditRowsAppend(id, row, u1, u2);
  }

  lemma TextRowsAre(id: ItemId, row: Row, body: PatchBody, u1: seq<Update>, u4: seq<Update>)
    requires u1 == if body.service.Some? then [SetService(body.service.value)] else []
    requires u4 == if body.description.Some? then [SetDescription(body.description.value)] else []
    ensures AuditRows(id, row, u1) == ServiceChange(id, row, body)
    ensures AuditRows(id, row, u4) == DescriptionChange(id, row, body)
  {
    if u1 != [] { AuditRowsOne(id, row, u1[0]); }
    if u4 != [] { AuditRowsOne(id, row, u4[0]); }
  }

  lemma TypeRowsAre(id: ItemId, row: Row, body: PatchBody, u3: seq<Update>)
    requires u3 == if body.priceType.Some? then [SetPriceType(body.priceType.value)] else []
    ensures AuditRows(id, row, u3) == TypeChange(id, row, body)
  {
    if u3 != [] {
      AuditRowsOne(id, row, u3[0]);
      TypeTextDiffers(row.priceType, body.priceType.value);
    }
  }

  lemma UpdatesInParts(body: PatchBody)
    returns (u1: seq<Update>, u2: seq<Update>, u3: seq<Update>, u4: seq<Update>, u5: seq<Update>)
    requires Validate(body).Some?
    ensures var b := Validate(body).value;
      && UpdatesOf(b) == u1 + u2 + u3 + u4 + u5
      && u1 == (if body.service.Some? then [SetService(body.service.value)] else [])
      && u2 == (if b.price.Some? then [SetPrice(b.price)] else [])
      && u3 == (if body.priceType.Some? then [SetPriceType(body.priceType.value)] else [])
      && u4 == (if body.description.Some? then [SetDescription(body.description.value)] else [])
      && u5 == (if b.priceType == Some(VARIABLE) then [SetPrice(None)] else [])
  {
    var b := Validate(body).value;
    u1 := if b.service.Some? then [SetService(b.service.value)] else [];
    u2 := if b.price.Some? then [SetPrice(b.price)] else [];
    u3 := if b.priceType.Some? then [SetPriceType(b.priceType.value)] else [];
    u4 := if b.description.Some? then [SetDescription(b.description.value)] else [];
    u5 := if b.priceType == Some(VARIABLE) then [SetPrice(None)] else [];
  }

  lemma AuditRowsAre(id: ItemId, row: Row, body: PatchBody)
    requires Validate(body).Some?
    ensures AuditRows(id, row, UpdatesOf(Validate(body).value)) == ChangeRows(id, row, body)
  {
    hide UpdatesOf, AuditRows, ServiceChange, PriceChange, TypeChange, DescriptionChange, Validate;
    var u1, u2, u3, u4, u5 := UpdatesInParts(body);
    AuditRowsOfParts(id, row, u1, u2, u3, u4, u5);
    TextRowsAre(id, row, body, u1, u4);
    TypeRowsAre(id, row, body, u3);
    PriceRowsAre(id, row, body, u2, u5);
  }

  lemma PriceRowsAre(id: ItemId, row: Row, body: PatchBody, u2: seq<Update>, u5: seq<Update>)
    requires Validate(body).Some?
    requires u2 == if Validate(body).value.price.Some? then [SetPrice(Validate(body).value.price)] else []
    requires u5 == if Validate(body).value.priceType == Some(VARIABLE) then [SetPrice(None)] else []
    ensures var clears := body.priceType == Some(VARIABLE);
      && AuditRows(id, row, u2) == (if clears then [] else PriceChange(id, row, body))
      && AuditRows(id, row, u5) == (if clears then PriceChange(id, row, body) else [])
  {
    if u2 != [] { AuditRowsOne(id, row, u2[0]); }
    if u5 != [] { AuditRowsOne(id, row, u5[0]); }
  }

  lemma PatchedRowIs(row: Row, body: PatchBody)
    requires Validate(body).Some?
    ensures Assign(row, UpdatesOf(Validate(body).value)) == PatchedRow(row, body)
  {
    AssignedColumns(row, Validate(body).value);
  }

  lemma NothingSet(body: PatchBody)
    requires Validate(body).Some?
    ensures UpdatesOf(Validate(body).value) == [] <==> body == PatchBody(None, None, None, None)
  {
  }

  lemma ReembeddingIff(body: PatchBody)
    requires Validate(body).Some?
    ensures NeedsReembedding(UpdatesOf(Validate(body).value)) <==> body.service.Some? || body.description.Some?
  {
    var ups := UpdatesOf(Validate(body).value);
    DescriptionUpdates(body);
    if body.service.Some? {
      assert ups[0] == SetService(body.service.value);
    } else if body.description.Some? {
      assert SetDescription(body.description.value) in ups;
    }
  }

  /**
   The whole outcome of a PATCH in terms of its payload: which answer, which row, which
   audit rows, which job; a refused one changes nothing.
   */
  lemma PatchOutcome(s: State, tenant: string, id: ItemId, body: PatchBody)
    ensures var (s', reply) := Patch(s, tenant, id, body);
      if body.service == Some("") || (body.price.Some? && body.price.value < 0.0)
         || body == PatchBody(None, None, None, None)
      then (s', reply) == (s, Refused(422))
      else if !(id in s.table.rows && s.table.rows[id].tenant == tenant) then (s', reply) == (s, Refused(404))
      else
        var row := PatchedRow(s.table.rows[id], body);
        if !Admitted(row.priceType, row.price) then (s', reply) == (s, Refused(422))
        else if exists j | j in s.table.rows :: j != id && s.table.rows[j].tenant == tenant
                                                && s.table.rows[j].service == row.service
        then (s', reply) == (s, Refused(500))
        else
          var queued := body.service.Some? || body.description.Some?;
          && reply == Done(row, queued)
          && s'.table == s.table.(rows := s.table.rows[id := row])
          && s'.audit == s.audit + ChangeRows(id, s.table.rows[id], body)
          && s'.queue == s.queue + if queued then [Job(id, tenant)] else []
  {
    hide UpdatesOf, AuditRows, Assign, NeedsReembedding, ChangeRows, PatchedRow, Admitted;
    if Validate(body).Some? {
      NothingSet(body);
      ReembeddingIff(body);
      if Owned(s.table, tenant, id) {
        PatchedRowIs(s.table.rows[id], body);
        AuditRowsAre(id, s.table.rows[id], body);
        AssignKeepsTenant(s.table.rows[id], UpdatesOf(Validate(body).value));
      }
    }
  }

  // -------------------------------------------------------- audit replay

  /** The one accepted change that leaves no audit row: NULL becomes the text "None". */
  predicate Recordable(row: Row, body: PatchBody) {
    !(row.description.None? && body.description == Some("None"))
  }

  lemma FaithfulIff(row: Row, u: Update)
    ensures Faithful(row, row, u) <==> !(row.description.None? && u == SetDescription("None"))
  {
    if u.SetPriceType? { TypeTextDiffers(row.priceType, u.priceType); }
  }

  /** An atomic PATCH that is accepted can be replayed exactly iff it is recordable. */
  lemma AtomicAuditExactIff(id: ItemId, row: Row, body: PatchBody)
    requires Validate(body).Some?
    ensures var ups := UpdatesOf(Validate(body).value);
      Replay(row, id, AuditRows(id, row, ups)) == Some(Assign(row, ups)) <==> Recordable(row, body)
  {
    var ups := UpdatesOf(Validate(body).value);
    UpdatesDistinct(body);
    AuditExactIff(id, row, row, ups);
    DescriptionUpdates(body);
    forall u | u in ups {
      FaithfulIff(row, u);
    }
  }

  lemma DescriptionUpdates(body: PatchBody)
    requires Validate(body).Some?
    ensures forall d :: SetDescription(d) in UpdatesOf(Validate(body).value) <==> body.description == Some(d)
  {
    var b := Validate(body).value;
    if b.description.Some? {
      var k := (if b.service.Some? then 1 else 0) + (if b.price.Some? then 1 else 0)
               + (if b.priceType.Some? then 1 else 0);
      assert UpdatesOf(b)[k] == SetDescription(b.description.value);
    }
  }

  lemma TypeTextDiffers(a: PriceType, b: PriceType)
    ensures TypeName(a) != "PriceType." + TypeName(b)
  {
    assert |TypeName(a)| < 10;
  }

  /** An audit row belongs to its item, holds the column's old value, and comes from an update that is recorded. */
  lemma {:induction false} AuditItems(id: ItemId, row: Row, ups: seq<Update>)
    ensures forall a | a in AuditRows(id, row, ups) ::
      && a.item == id && a.oldValue == OldValue(row, a.field)
      && exists u | u in ups :: u.Field() == a.field && Records(row, u)
    decreases |ups|
  {
    if ups != [] { AuditItems(id, row, ups[1..]); }
  }

  /** An accepted PATCH of the item that writes "None" over its missing description. */
  predicate LosesChange(s: State, r: Request, id: ItemId) {
    && r.PatchRequest? && r.id == id && id in s.table.rows
    && Patch(s, r.tenant, id, r.body).1.Done? && !Recordable(s.table.rows[id], r.body)
  }

  ghost predicate NothingLost(s: State, rs: seq<Request>, id: ItemId)
    decreases |rs|
  {
    rs == [] || (!LosesChange(s, rs[0], id) && NothingLost(Handle(s, rs[0]), rs[1..], id))
  }

  ghost predicate OnlyPatches(rs: seq<Request>) {
    forall r | r in rs :: r.PatchRequest?
  }

  /** One handled PATCH: the log grows by rows that replay exactly what it did to the item. */
  lemma PatchReplays(s: State, r: Request, id: ItemId)
    requires r.PatchRequest? && id in s.table.rows && !LosesChange(s, r, id)
    ensures var s' := Handle(s, r);
      && s.audit <= s'.audit && id in s'.table.rows
      && Replay(s.table.rows[id], id, s'.audit[|s.audit|..]) == Some(s'.table.rows[id])
  {
    hide Replay, AuditRows, Assign, UpdatesOf, Validate;
    var s' := Handle(s, r);
    var step := s'.audit[|s.audit|..];
    if Patch(s, r.tenant, r.id, r.body).1.Refused? {
      assert step == [];
      ReplayOfOthers(s.table.rows[id], id, step);
    } else {
      var ups := UpdatesOf(Validate(r.body).value);
      assert step == AuditRows(r.id, s.table.rows[r.id], ups);
      AuditItems(r.id, s.table.rows[r.id], ups);
      if r.id == id {
        AtomicAuditExactIff(id, s.table.rows[id], r.body);
      } else {
        ReplayOfOthers(s.table.rows[id], id, step);
      }
    }
  }

  lemma {:induction false} RunReplays(s: State, rs: seq<Request>, id: ItemId)
    requires id in s.table.rows && OnlyPatches(rs) && NothingLost(s, rs, id)
    ensures var s' := Run(s, rs);
      && s.audit <= s'.audit
      && id in s'.table.rows
      && Replay(s.table.rows[id], id, s'.audit[|s.audit|..]) == Some(s'.table.rows[id])
    decreases |rs|
  {
    hide Replay, Handle, LosesChange;
    if rs == [] {
      assert s.audit[|s.audit|..] == [];
      ReplayOfOthers(s.table.rows[id], id, []);
    } else {
      var mid, end := Handle(s, rs[0]), Run(s, rs);
      PatchReplays(s, rs[0], id);
      RunReplays(mid, rs[1..], id);
      var step := mid.audit[|s.audit|..];
      assert end.audit[|s.audit|..] == step + end.audit[|mid.audit|..];
      ReplayAppend(s.table.rows[id], id, step, end.audit[|mid.audit|..]);
    }
  }

  /** The item's description rows in the log were all written over an existing description. */
  predicate OverExisting(log: seq<AuditRow>, id: ItemId) {
    forall a | a in log && a.item == id && a.field == Description :: a.oldValue.Some?
  }

  /** Such a log cannot give a row its first description. */
  lemma {:induction false} ReplayGivesNoFirst(row: Row, id: ItemId, log: seq<AuditRow>)
    requires row.description.None? && OverExisting(log, id)
    ensures Replay(row, id, log).Some? ==> Replay(row, id, log).value.description.None?
    decreases |log|
  {
    if log != [] {
      if log[0].item != id {
        ReplayGivesNoFirst(row, id, log[1..]);
      } else if log[0].oldValue == OldValue(row, log[0].field) {
        ReplayGivesNoFirst(Restore(row, log[0]), id, log[1..]);
      }
    }
  }

  /** What one PATCH does to the item's description and to the description rows of its log. */
  lemma PatchDescribes(s: State, r: Request, id: ItemId)
    requires r.PatchRequest? && id in s.table.rows
    ensures var s' := Handle(s, r);
      && s.audit <= s'.audit && id in s'.table.rows
      && var before, after := s.table.rows[id].description, s'.table.rows[id].description;
      && (before.Some? ==> after.Some?)
      && (LosesChange(s, r, id) ==> before.None? && after.Some?)
      && (before.Some? || after.None? || LosesChange(s, r, id) ==> OverExisting(s'.audit[|s.audit|..], id))
  {
    hide AuditRows, Assign, UpdatesOf, Validate;
    var s' := Handle(s, r);
    if Patch(s, r.tenant, r.id, r.body).1.Done? {
      var b := Validate(r.body).value;
      var row := s.table.rows[r.id];
      assert s'.audit[|s.audit|..] == AuditRows(r.id, row, UpdatesOf(b));
      AuditItems(r.id, row, UpdatesOf(b));
      DescriptionUpdates(r.body);
      ValidatedMembers(r.body);
      AssignedColumns(row, b);
    } else {
      assert s'.audit[|s.audit|..] == [];
    }
  }

  lemma ValidatedMembers(body: PatchBody)
    requires Validate(body).Some?
    ensures var b := Validate(body).value;
      b.description == body.description && (b.priceType == Some(VARIABLE) ==> b.price.None?)
  {
  }

  /** A described item stays described, and its later description rows say so. */
  lemma {:induction false} RunStaysDescribed(s: State, rs: seq<Request>, id: ItemId)
    requires id in s.table.rows && OnlyPatches(rs) && s.table.rows[id].description.Some?
    ensures var s' := Run(s, rs);
      && s.audit <= s'.audit && id in s'.table.rows && s'.table.rows[id].description.Some?
      && OverExisting(s'.audit[|s.audit|..], id)
    decreases |rs|
  {
    hide Handle, LosesChange;
    if rs != [] {
      var mid, end := Handle(s, rs[0]), Run(s, rs);
      PatchDescribes(s, rs[0], id);
      RunStaysDescribed(mid, rs[1..], id);
      assert end.audit[|s.audit|..] == mid.audit[|s.audit|..] + end.audit[|mid.audit|..];
    }
  }

  /** A lost change is the item's first description, which no audit row reports. */
  lemma {:induction false} LossIsFirst(s: State, rs: seq<Request>, id: ItemId)
    requires id in s.table.rows && OnlyPatches(rs) && !NothingLost(s, rs, id)
    ensures var s' := Run(s, rs);
      && s.audit <= s'.audit && id in s'.table.rows
      && s.table.rows[id].description.None? && s'.table.rows[id].description.Some?
      && OverExisting(s'.audit[|s.audit|..], id)
    decreases |rs|
  {
    hide Handle, LosesChange;
    var mid, end := Handle(s, rs[0]), Run(s, rs);
    PatchDescribes(s, rs[0], id);
    if LosesChange(s, rs[0], id) {
      RunStaysDescribed(mid, rs[1..], id);
    } else {
      LossIsFirst(mid, rs[1..], id);
    }
    assert end.audit[|s.audit|..] == mid.audit[|s.audit|..] + end.audit[|mid.audit|..];
  }

  /**
   Audit replay: over any run of atomic PATCHes the log only grows, and replaying an
   item's new audit rows over its starting row, checking every old value on the way,
   gives its current row exactly when no accepted PATCH of the item wrote "None" over
   its missing description.
   */
  lemma AuditReplayIff(s: State, rs: seq<Request>, id: ItemId)
    requires id in s.table.rows && OnlyPatches(rs)
    ensures var s' := Run(s, rs);
      && s.audit <= s'.audit
      && id in s'.table.rows
      && (Replay(s.table.rows[id], id, s'.audit[|s.audit|..]) == Some(s'.table.rows[id]) <==> NothingLost(s, rs, id))
  {
    hide Replay, Run, NothingLost;
    if NothingLost(s, rs, id) {
      RunReplays(s, rs, id);
    } else {
      LossIsFirst(s, rs, id);
      ReplayGivesNoFirst(s.table.rows[id], id, Run(s, rs).audit[|s.audit|..]);
    }
  }

  // ------------------------------------------------------ the live store

  /** The SET clause, one column at a time. */
  method SetColumns(existing: Row, updates: seq<Update>) returns (updated: Row)
    ensures updated == Assign(existing, updates)
  {
    updated := existing;
    for i := 0 to |updates|
      invariant Assign(updated, updates[i..]) == Assign(existing, updates)
    {
      updated := updates[i].On(updated);
    }
  }

  /** One audit row per field whose printed value changed. */
  method CollectAuditRows(id: ItemId, existing: Row, updates: seq<Update>) returns (auditRows: seq<AuditRow>)
    ensures auditRows == AuditRows(id, existing, updates)
  {
    auditRows := [];
    for i := 0 to |updates|
      invariant auditRows + AuditRows(id, existing, updates[i..]) == AuditRows(id, existing, updates)
    {
      var u := updates[i];
      if Records(existing, u) {
        auditRows := auditRows + [AuditRow(id, u.Field(), OldValue(existing, u.Field()), NewValue(u))];
      }
    }
  }

  /** The tables and the queue as the request handlers update them. */
  class Store {
    var rows: map<ItemId, Row>
    var nextId: ItemId
    var audit: seq<AuditRow>
    var queue: seq<Job>

    function Now(): State
      reads this
    {
      State(Table(rows, nextId), audit, queue)
    }

    constructor ()
      ensures Now() == State(Table(map[], 0), [], []) && Valid(Now().table)
    {
      rows, nextId, audit, queue := map[], 0, [], [];
    }

    method PatchItem(tenant: string, id: ItemId, body: PatchBody) returns (reply: Reply)
      modifies this
      ensures (Now(), reply) == Patch(old(Now()), tenant, id, body)
      ensures reply.Refused? ==> Now() == old(Now())
      ensures (Enforced(old(Now()).table) ==> Enforced(Now().table)) && (Valid(old(Now()).table) ==> Valid(Now().table))
    {
      PatchKeepsConstraints(Now(), tenant, id, body);
      var checked := Validate(body);
      if checked.None? {
        return Refused(422);
      }
      var updates := UpdatesOf(checked.value);
      if updates == [] {
        return Refused(422);
      }
      if !Owned(Table(rows, nextId), tenant, id) {
        return Refused(404);
      }
      var existing := rows[id];
      var updated := SetColumns(existing, updates);
      if !Admitted(updated.priceType, updated.price) {
        return Refused(422);
      }
      if KeyTaken(Table(rows, nextId), id, updated) {
        return Refused(500);
      }
      rows := rows[id := updated];
      var auditRows := CollectAuditRows(id, existing, updates);
      audit := audit + auditRows;
      var needsReembedding := NeedsReembedding(updates);
      if needsReembedding {
        queue := queue + [Job(id, tenant)];
      } else {
        assert queue + [] == queue;
      }
      return Done(updated, needsReembedding);
    }

    method UpsertItems(items: seq<Write>, tenant: string) returns (written: Option<nat>)
      requires Keyed(Now().table)
      modifies this
      ensures Now() == Ingest(old(Now()), tenant, items) && Keyed(Now().table)
      ensures written == if forall w | w in items :: WriteAdmitted(w) then Some(|items|) else None
    {
      var table := Table(rows, nextId);
      for i := 0 to |items|
        invariant Keyed(table) && forall w | w in items[..i] :: WriteAdmitted(w)
        invariant Now() == old(Now())
        invariant table == UpsertAll(Table(rows, nextId), tenant, items[..i])
      {
        var item := items[i];
        assert items[..i + 1] == items[..i] + [item];
        UpsertAllSnoc(Table(rows, nextId), tenant, items[..i], item);
        if !WriteAdmitted(item) {
          return None;
        }
        UpsertOneKeyed(table, tenant, item);
        if id :| id in table.rows && IsAt(table, tenant, item.service, id) {
          table := table.(rows := table.rows[id := RowOf(tenant, item)]);
        } else {
          table := Table(table.rows[table.nextId := RowOf(tenant, item)], table.nextId + 1);
        }
      }
      assert items[..|items|] == items;
      rows, nextId := table.rows, table.nextId;
      return Some(|items|);
    }

    method WipeTenant(tenant: string) returns (deleted: nat)
      modifies this
      ensures Now() == old(Now()).(table := Wipe(old(Now()).table, tenant))
      ensures (Enforced(old(Now()).table) ==> Enforced(Now().table)) && (Valid(old(Now()).table) ==> Valid(Now().table))
      ensures deleted == |set id | id in old(rows) && old(rows)[id].tenant == tenant|
    {
      WipeKeepsConstraints(Table(rows, nextId), tenant);
      deleted := |set id | id in rows && rows[id].tenant == tenant|;
      rows := map id | id in rows && rows[id].tenant != tenant :: rows[id];
    }
  }
}
