/**
 The table `catalogue_items` with its CHECK and UNIQUE constraints, and the three
 writers of the backend: ingestion upserts, tenant wipes and audited PATCHes.

 Row identifiers come from a counter where the database draws random UUIDs.
 */
module Catalogue {
  import opened Support
  import opened Pricing

  type ItemId = nat

  /** What the stored embedding was computed from. */
  datatype Vector = Vector(service: string, description: string, price: Option<real>)

  datatype Row = Row(
    tenant: string,
    service: string,
    price: Option<real>,
    priceType: PriceType,
    description: Option<string>,
    vector: Vector)

  datatype Table = Table(rows: map<ItemId, Row>, nextId: ItemId)

  ghost predicate Unique(rows: map<ItemId, Row>) {
    forall i, j | i in rows && j in rows ::
      rows[i].tenant == rows[j].tenant && rows[i].service == rows[j].service ==> i == j
  }

  /** The identifiers and the UNIQUE constraint. */
  ghost predicate Keyed(t: Table) {
    (forall i | i in t.rows :: i < t.nextId) && Unique(t.rows)
  }

  /** Every row satisfies C(price_type, price). */
  ghost predicate Priced(t: Table) {
    forall i | i in t.rows :: CheckHolds(t.rows[i].priceType, t.rows[i].price)
  }

  ghost predicate Valid(t: Table) {
    Keyed(t) && Priced(t)
  }

  /** What the database itself enforces. */
  ghost predicate Enforced(t: Table) {
    Keyed(t) && forall i | i in t.rows :: Admitted(t.rows[i].priceType, t.rows[i].price)
  }

  // ---------------------------------------------------------------- upsert

  /** One element of the list given to `upsert_items`; the vector embeds its texts. */
  datatype Write = Write(
    service: string,
    price: Option<real>,
    priceType: PriceType,
    description: string)

  /** The database lets the element pass. */
  predicate WriteAdmitted(w: Write) {
    Admitted(w.priceType, w.price)
  }

  /** The element satisfies C. */
  predicate WriteSound(w: Write) {
    CheckHolds(w.priceType, w.price)
  }

  function RowOf(tenant: string, w: Write): Row {
    Row(tenant, w.service, w.price, w.priceType, Some(w.description),
        Vector(w.service, w.description, w.price))
  }

  predicate IsAt(t: Table, tenant: string, service: string, id: ItemId) {
    id in t.rows && t.rows[id].tenant == tenant && t.rows[id].service == service
  }

  /** The row a tenant stores under a service name. */
  ghost function Stored(t: Table, tenant: string, service: string): (r: Option<Row>)
    ensures r.None? <==> !exists id :: IsAt(t, tenant, service, id)
    ensures r.Some? ==> exists id :: IsAt(t, tenant, service, id) && r.value == t.rows[id]
  {
    if exists id :: IsAt(t, tenant, service, id) then
      var id :| IsAt(t, tenant, service, id);
      Some(t.rows[id])
    else
      None
  }

  lemma StoredIs(t: Table, id: ItemId)
    requires Keyed(t) && id in t.rows
    ensures Stored(t, t.rows[id].tenant, t.rows[id].service) == Some(t.rows[id])
  {
    assert IsAt(t, t.rows[id].tenant, t.rows[id].service, id);
  }

  /** INSERT ... ON CONFLICT (tenant_id, service) DO UPDATE, for one element. */
  ghost function UpsertOne(t: Table, tenant: string, w: Write): Table {
    if exists id :: IsAt(t, tenant, w.service, id) then
      var id :| IsAt(t, tenant, w.service, id);
      t.(rows := t.rows[id := RowOf(tenant, w)])
    else
      Table(t.rows[t.nextId := RowOf(tenant, w)], t.nextId + 1)
  }

  /** `executemany` over the list, in order. */
  ghost function UpsertAll(t: Table, tenant: string, ws: seq<Write>): Table
    decreases |ws|
  {
    if ws == [] then t else UpsertAll(UpsertOne(t, tenant, ws[0]), tenant, ws[1..])
  }

  /** The last element of the list that names the service. */
  function LastWrite(ws: seq<Write>, service: string): (r: Option<Write>)
    ensures r.None? <==> forall w | w in ws :: w.service != service
    ensures r.Some? ==> exists k ::
      0 <= k < |ws| && ws[k] == r.value && r.value.service == service
      && forall j | k < j < |ws| :: ws[j].service != service
  {
    if ws == [] then None
    else if ws[|ws| - 1].service == service then Some(ws[|ws| - 1])
    else
      var r := LastWrite(ws[..|ws| - 1], service);
      assert ws == ws[..|ws| - 1] + [ws[|ws| - 1]];
      r
  }

  lemma {:induction false} UpsertAllSnoc(t: Table, tenant: string, ws: seq<Write>, w: Write)
    ensures UpsertAll(t, tenant, ws + [w]) == UpsertOne(UpsertAll(t, tenant, ws), tenant, w)
    decreases |ws|
  {
    if ws == [] {
      assert (ws + [w])[1..] == [];
    } else {
      assert (ws + [w])[1..] == ws[1..] + [w];
      UpsertAllSnoc(UpsertOne(t, tenant, ws[0]), tenant, ws[1..], w);
    }
  }

  lemma UpsertOneKeyed(t: Table, tenant: string, w: Write)
    requires Keyed(t)
    ensures Keyed(UpsertOne(t, tenant, w))
    ensures t.rows.Keys <= UpsertOne(t, tenant, w).rows.Keys
    ensures forall id | id in t.rows ::
      UpsertOne(t, tenant, w).rows[id] ==
      if t.rows[id].tenant == tenant && t.rows[id].service == w.service then RowOf(tenant, w) else t.rows[id]
    ensures exists id :: IsAt(UpsertOne(t, tenant, w), tenant, w.service, id)
  {
    var t' := UpsertOne(t, tenant, w);
    if exists id :: IsAt(t, tenant, w.service, id) {
      var id :| IsAt(t, tenant, w.service, id);
      assert IsAt(t', tenant, w.service, id);
    } else {
      assert forall id | id in t.rows :: !IsAt(t, tenant, w.service, id);
      assert IsAt(t', tenant, w.service, t.nextId);
    }
  }

  lemma UpsertOneStored(t: Table, tenant: string, w: Write, tn: string, s: string)
    requires Keyed(t)
    ensures Stored(UpsertOne(t, tenant, w), tn, s) ==
      if tn == tenant && s == w.service then Some(RowOf(tenant, w)) else Stored(t, tn, s)
  {
    UpsertOneKeyed(t, tenant, w);
    var t' := UpsertOne(t, tenant, w);
    if exists id :: IsAt(t', tn, s, id) {
      var id :| IsAt(t', tn, s, id);
      StoredIs(t', id);
      if id in t.rows {
        StoredIs(t, id);
      }
    } else {
      assert forall id | id in t.rows :: !IsAt(t', tn, s, id);
    }
  }

  /**
   Ingestion refines a map keyed by (tenant, service): a name in the list holds the
   last element with that name, every other name and tenant is untouched.
   */
  lemma {:induction false} UpsertRefinesMap(t: Table, tenant: string, ws: seq<Write>)
    requires Keyed(t)
    ensures Keyed(UpsertAll(t, tenant, ws))
    ensures forall tn, s ::
      Stored(UpsertAll(t, tenant, ws), tn, s) ==
      if tn == tenant && LastWrite(ws, s).Some? then
        var w := LastWrite(ws, s).value;
        Some(Row(tenant, s, w.price, w.priceType, Some(w.description), Vector(s, w.description, w.price)))
      else Stored(t, tn, s)
    decreases |ws|
  {
    if ws != [] {
      var init, last := ws[..|ws| - 1], ws[|ws| - 1];
      assert ws == init + [last];
      UpsertRefinesMap(t, tenant, init);
      UpsertAllSnoc(t, tenant, init, last);
      UpsertOneKeyed(UpsertAll(t, tenant, init), tenant, last);
      forall tn, s {
        UpsertOneStored(UpsertAll(t, tenant, init), tenant, last, tn, s);
      }
    }
  }

  ghost predicate Named(t: Table, tenant: string, service: string) {
    exists id :: IsAt(t, tenant, service, id)
  }

  /** Every row keeps its identifier and its key through an upsert. */
  lemma {:induction false} UpsertKeepsKeys(t: Table, tenant: string, ws: seq<Write>)
    requires Keyed(t)
    ensures t.rows.Keys <= UpsertAll(t, tenant, ws).rows.Keys
    ensures forall id | id in t.rows ::
      var r := UpsertAll(t, tenant, ws).rows[id];
      r.tenant == t.rows[id].tenant && r.service == t.rows[id].service
    decreases |ws|
  {
    if ws != [] {
      var next := UpsertOne(t, tenant, ws[0]);
      UpsertOneKeyed(t, tenant, ws[0]);
      UpsertKeepsKeys(next, tenant, ws[1..]);
    }
  }

  /** A list of known names inserts no row. */
  lemma {:induction false} UpsertOfKnownAddsNoRow(t: Table, tenant: string, ws: seq<Write>)
    requires Keyed(t)
    requires forall w | w in ws :: Named(t, tenant, w.service)
    ensures UpsertAll(t, tenant, ws).rows.Keys == t.rows.Keys
    ensures UpsertAll(t, tenant, ws).nextId == t.nextId
    decreases |ws|
  {
    if ws != [] {
      var next := UpsertOne(t, tenant, ws[0]);
      UpsertOneKeyed(t, tenant, ws[0]);
      assert Named(t, tenant, ws[0].service);
      forall w | w in ws[1..] ensures Named(next, tenant, w.service) {
        var id :| IsAt(t, tenant, w.service, id);
        assert IsAt(next, tenant, w.service, id);
      }
      UpsertOfKnownAddsNoRow(next, tenant, ws[1..]);
    }
  }

  /** Writing the same list again changes nothing at all. */
  lemma UpsertIdempotent(t: Table, tenant: string, ws: seq<Write>)
    requires Keyed(t)
    ensures UpsertAll(UpsertAll(t, tenant, ws), tenant, ws) == UpsertAll(t, tenant, ws)
  {
    var once := UpsertAll(t, tenant, ws);
    var twice := UpsertAll(once, tenant, ws);
    UpsertRefinesMap(t, tenant, ws);
    UpsertRefinesMap(once, tenant, ws);
    forall w | w in ws ensures Named(once, tenant, w.service) {
      assert Stored(once, tenant, w.service).Some?;
    }
    UpsertOfKnownAddsNoRow(once, tenant, ws);
    UpsertKeepsKeys(once, tenant, ws);
    forall id | id in once.rows ensures twice.rows[id] == once.rows[id] {
      StoredIs(once, id);
      StoredIs(twice, id);
    }
  }

  /** Every row after an upsert is the last element for its name, or an old row. */
  lemma UpsertedRow(t: Table, tenant: string, ws: seq<Write>, id: ItemId)
    requires Keyed(t) && id in UpsertAll(t, tenant, ws).rows
    ensures var r := UpsertAll(t, tenant, ws).rows[id];
      if r.tenant == tenant && LastWrite(ws, r.service).Some?
      then r == RowOf(tenant, LastWrite(ws, r.service).value)
      else exists j :: j in t.rows && t.rows[j] == r
  {
    hide LastWrite, UpsertAll;
    UpsertRefinesMap(t, tenant, ws);
    var r := UpsertAll(t, tenant, ws).rows[id];
    StoredIs(UpsertAll(t, tenant, ws), id);
    if !(r.tenant == tenant && LastWrite(ws, r.service).Some?) {
      assert Stored(t, r.tenant, r.service) == Some(r);
    }
  }

  /** The last element for each name satisfies C. */
  ghost predicate LastWritesSound(ws: seq<Write>) {
    forall s :: LastWrite(ws, s).Some? ==> WriteSound(LastWrite(ws, s).value)
  }

  /** An upsert keeps C exactly when the last element for each name satisfies it. */
  lemma UpsertValidIff(t: Table, tenant: string, ws: seq<Write>)
    requires Valid(t)
    ensures Valid(UpsertAll(t, tenant, ws)) <==> LastWritesSound(ws)
  {
    hide LastWrite, UpsertAll;
    var t' := UpsertAll(t, tenant, ws);
    UpsertRefinesMap(t, tenant, ws);
    if LastWritesSound(ws) {
      forall id | id in t'.rows ensures CheckHolds(t'.rows[id].priceType, t'.rows[id].price) {
        UpsertedRow(t, tenant, ws, id);
      }
    } else {
      var s :| LastWrite(ws, s).Some? && !WriteSound(LastWrite(ws, s).value);
      assert Stored(t', tenant, s) == Some(RowOf(tenant, LastWrite(ws, s).value));
      var id :| IsAt(t', tenant, s, id) && t'.rows[id] == RowOf(tenant, LastWrite(ws, s).value);
    }
  }

  /** The database's own constraints survive every list it lets pass. */
  lemma UpsertEnforced(t: Table, tenant: string, ws: seq<Write>)
    requires Enforced(t) && forall w | w in ws :: WriteAdmitted(w)
    ensures Enforced(UpsertAll(t, tenant, ws))
  {
    hide UpsertAll;
    var t' := UpsertAll(t, tenant, ws);
    UpsertRefinesMap(t, tenant, ws);
    forall id | id in t'.rows ensures Admitted(t'.rows[id].priceType, t'.rows[id].price) {
      UpsertedRow(t, tenant, ws, id);
      var last := LastWrite(ws, t'.rows[id].service);
      assert last.Some? ==> last.value in ws;
    }
  }

  // ------------------------------------------------------------------ wipe

  function Wipe(t: Table, tenant: string): Table {
    t.(rows := map id | id in t.rows && t.rows[id].tenant != tenant :: t.rows[id])
  }

  lemma WipeRemovesTenant(t: Table, tenant: string, tn: string, s: string)
    requires Keyed(t)
    ensures Keyed(Wipe(t, tenant))
    ensures Stored(Wipe(t, tenant), tn, s) == if tn == tenant then None else Stored(t, tn, s)
  {
    if exists id :: IsAt(Wipe(t, tenant), tn, s, id) {
      var id :| IsAt(Wipe(t, tenant), tn, s, id);
      StoredIs(Wipe(t, tenant), id);
      StoredIs(t, id);
    } else if tn != tenant {
      assert forall id | IsAt(t, tn, s, id) :: IsAt(Wipe(t, tenant), tn, s, id);
    }
  }
}
