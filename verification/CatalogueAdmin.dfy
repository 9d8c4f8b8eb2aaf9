/**
 The administrative PATCH: payload coercion, one transaction over the row and its
 audit trail, and the re-embedding job queued after the commit.
 */
module CatalogueAdmin {
  import opened Support
  import opened Pricing
  import opened Catalogue

  // ------------------------------------------------------------- payload

  datatype PatchBody = PatchBody(
    service: Option<string>,
    price: Option<real>,
    priceType: Option<PriceType>,
    description: Option<string>)

  /** Schema bounds and the coercion validator; None is a 422 answer. */
  function Validate(b: PatchBody): Option<PatchBody> {
    if b.service == Some("") || (b.price.Some? && b.price.value < 0.0) then None
    else match b.priceType
      case Some(FREE) => Some(b.(price := Some(0.0)))
      case Some(VARIABLE) => Some(b.(price := None))
      case _ => Some(b)
  }

  datatype Field = Service | Price | Type | Description

  datatype Update =
    | SetService(service: string)
    | SetPrice(price: Option<real>)
    | SetPriceType(priceType: PriceType)
    | SetDescription(description: string)
  {
    function Field(): Field {
      match this
      case SetService(_) => Service
      case SetPrice(_) => Price
      case SetPriceType(_) => Type
      case SetDescription(_) => Description
    }

    function On(row: Row): Row {
      match this
      case SetService(s) => row.(service := s)
      case SetPrice(p) => row.(price := p)
      case SetPriceType(t) => row.(priceType := t)
      case SetDescription(d) => row.(description := Some(d))
    }
  }

  /** `model_dump(exclude_none=True)`, then the explicit NULL price of a VARIABLE patch. */
  function UpdatesOf(b: PatchBody): seq<Update> {
    (if b.service.Some? then [SetService(b.service.value)] else [])
    + (if b.price.Some? then [SetPrice(b.price)] else [])
    + (if b.priceType.Some? then [SetPriceType(b.priceType.value)] else [])
    + (if b.description.Some? then [SetDescription(b.description.value)] else [])
    + (if b.priceType == Some(VARIABLE) then [SetPrice(None)] else [])
  }

  predicate NeedsReembedding(ups: seq<Update>) {
    exists u | u in ups :: u.SetService? || u.SetDescription?
  }

  function Assign(row: Row, ups: seq<Update>): Row
    decreases |ups|
  {
    if ups == [] then row else Assign(ups[0].On(row), ups[1..])
  }

  ghost predicate DistinctFields(ups: seq<Update>) {
    forall i, j | 0 <= i < j < |ups| :: ups[i].Field() != ups[j].Field()
  }

  // --------------------------------------------------------------- audit

  /** What Python's `str()` makes of a value; numerals stay numbers. */
  datatype Printed = Text(text: string) | Number(value: real)

  const NONE_TEXT := Text("None")

  function TypeName(t: PriceType): string {
    match t case FIXED => "FIXED" case FREE => "FREE" case VARIABLE => "VARIABLE"
  }

  function PrintedPrice(p: Option<real>): Printed {
    if p.None? then NONE_TEXT else Number(p.value)
  }

  /** The column as the audit row keeps its old value: NULL stays NULL. */
  function OldValue(row: Row, f: Field): Option<Printed> {
    match f
    case Service => Some(Text(row.service))
    case Price => if row.price.None? then None else Some(Number(row.price.value))
    case Type => Some(Text(TypeName(row.priceType)))
    case Description => if row.description.None? then None else Some(Text(row.description.value))
  }

  /** A `PriceType` member prints with its class name, the stored column without it. */
  function NewValue(u: Update): Printed {
    match u
    case SetService(s) => Text(s)
    case SetPrice(p) => PrintedPrice(p)
    case SetPriceType(t) => Text("PriceType." + TypeName(t))
    case SetDescription(d) => Text(d)
  }

  /** `str(old_val) != str(new_val)` */
  predicate Records(existing: Row, u: Update) {
    var before := OldValue(existing, u.Field());
    (if before.None? then NONE_TEXT else before.value) != NewValue(u)
  }

  datatype AuditRow = AuditRow(item: ItemId, field: Field, oldValue: Option<Printed>, newValue: Printed)

  function AuditRows(id: ItemId, existing: Row, ups: seq<Update>): seq<AuditRow> {
    if ups == [] then []
    else
      (if Records(existing, ups[0])
       then [AuditRow(id, ups[0].Field(), OldValue(existing, ups[0].Field()), NewValue(ups[0]))]
       else [])
      + AuditRows(id, existing, ups[1..])
  }

  /** Writing a recorded new value back into its column. */
  function Restore(row: Row, a: AuditRow): Row {
    match a.field
    case Service => if a.newValue.Text? then row.(service := a.newValue.text) else row
    case Price => row.(price := if a.newValue.Number? then Some(a.newValue.value) else None)
    case Type =>
      if a.newValue == Text("PriceType.FREE") then row.(priceType := FREE)
      else if a.newValue == Text("PriceType.VARIABLE") then row.(priceType := VARIABLE)
      else row.(priceType := FIXED)
    case Description => if a.newValue.Text? then row.(description := Some(a.newValue.text)) else row
  }

  /** Replays one item's audit rows; None when a recorded old value is not the replayed one. */
  function Replay(row: Row, id: ItemId, log: seq<AuditRow>): Option<Row>
    decreases |log|
  {
    if log == [] then Some(row)
    else if log[0].item != id then Replay(row, id, log[1..])
    else if log[0].oldValue != OldValue(row, log[0].field) then None
    else Replay(Restore(row, log[0]), id, log[1..])
  }

  lemma RestoreIsUpdate(row: Row, id: ItemId, u: Update, before: Option<Printed>)
    ensures Restore(row, AuditRow(id, u.Field(), before, NewValue(u))) == u.On(row)
  {
    if u.SetPriceType? {
      assert "PriceType.FREE"[10] == 'F' && "PriceType.FREE"[11] == 'R';
      assert "PriceType.VARIABLE"[10] == 'V';
      assert "PriceType.FIXED"[10] == 'F' && "PriceType.FIXED"[11] == 'I';
      match u.priceType
      case FREE => assert NewValue(u) == Text("PriceType.FREE");
      case VARIABLE => assert NewValue(u) == Text("PriceType.VARIABLE");
      case FIXED => assert NewValue(u) == Text("PriceType.FIXED");
    }
  }

  lemma TypeNamesDiffer()
    ensures forall a, b :: TypeName(a) == TypeName(b) ==> a == b
  {
    assert "FREE"[0] == 'F' && "FREE"[1] == 'R';
    assert "FIXED"[0] == 'F' && "FIXED"[1] == 'I';
    assert "VARIABLE"[0] == 'V';
  }

  lemma {:induction false} ReplayOfOthers(row: Row, id: ItemId, log: seq<AuditRow>)
    requires forall a | a in log :: a.item != id
    ensures Replay(row, id, log) == Some(row)
  {
    if log != [] { ReplayOfOthers(row, id, log[1..]); }
  }

  lemma {:induction false} ReplayAppend(row: Row, id: ItemId, a: seq<AuditRow>, b: seq<AuditRow>)
    ensures Replay(row, id, a + b) ==
      var mid := Replay(row, id, a); if mid.None? then None else Replay(mid.value, id, b)
    decreases |a|
  {
    if a == [] {
      assert a + b == b;
    } else {
      assert (a + b)[1..] == a[1..] + b;
      if a[0].item != id {
        ReplayAppend(row, id, a[1..], b);
      } else if a[0].oldValue == OldValue(row, a[0].field) {
        ReplayAppend(Restore(row, a[0]), id, a[1..], b);
      }
    }
  }

  /** A log or an update list without a field leaves that column alone. */
  lemma {:induction false} ReplayKeepsColumn(row: Row, id: ItemId, existing: Row, ups: seq<Update>, f: Field)
    requires forall u | u in ups :: u.Field() != f
    ensures OldValue(Assign(row, ups), f) == OldValue(row, f)
    ensures var r := Replay(row, id, AuditRows(id, existing, ups));
      r.Some? ==> OldValue(r.value, f) == OldValue(row, f)
    decreases |ups|
  {
    if ups != [] {
      var u := ups[0];
      ReplayKeepsColumn(u.On(row), id, existing, ups[1..], f);
      if Records(existing, u) {
        var a := AuditRow(id, u.Field(), OldValue(existing, u.Field()), NewValue(u));
        assert AuditRows(id, existing, ups)[1..] == AuditRows(id, existing, ups[1..]);
        RestoreIsUpdate(row, id, u, a.oldValue);
      } else {
        assert AuditRows(id, existing, ups) == AuditRows(id, existing, ups[1..]);
        ReplayKeepsColumn(row, id, existing, ups[1..], f);
      }
    }
  }

  /** The update is either recorded with the true old value, or changes nothing. */
  predicate Faithful(row: Row, existing: Row, u: Update) {
    if Records(existing, u) then OldValue(existing, u.Field()) == OldValue(row, u.Field())
    else u.On(row) == row
  }

  /** Replaying the audit rows of a list starts with those of its first update. */
  lemma ReplayHead(id: ItemId, row: Row, existing: Row, ups: seq<Update>)
    requires ups != []
    ensures Replay(row, id, AuditRows(id, existing, ups)) ==
      if !Records(existing, ups[0]) then Replay(row, id, AuditRows(id, existing, ups[1..]))
      else if OldValue(existing, ups[0].Field()) != OldValue(row, ups[0].Field()) then None
      else Replay(ups[0].On(row), id, AuditRows(id, existing, ups[1..]))
  {
    var u, log := ups[0], AuditRows(id, existing, ups);
    if Records(existing, u) {
      var a := AuditRow(id, u.Field(), OldValue(existing, u.Field()), NewValue(u));
      assert log[0] == a && log[1..] == AuditRows(id, existing, ups[1..]);
      RestoreIsUpdate(row, id, u, a.oldValue);
    } else {
      assert log == AuditRows(id, existing, ups[1..]);
    }
  }

  /** An update that left no audit row is lost by the replay unless it changed nothing. */
  lemma UnrecordedIsLost(id: ItemId, row: Row, existing: Row, u: Update, rest: seq<Update>)
    requires forall v | v in rest :: v.Field() != u.Field()
    requires u.On(row) != row
    ensures Replay(row, id, AuditRows(id, existing, rest)) != Some(Assign(u.On(row), rest))
  {
    ReplayKeepsColumn(row, id, existing, rest, u.Field());
    ReplayKeepsColumn(u.On(row), id, existing, rest, u.Field());
    TypeNamesDiffer();
    assert OldValue(u.On(row), u.Field()) != OldValue(row, u.Field());
  }

  /**
   When an audited UPDATE can be replayed exactly: the handler compares with a row
   `existing` that it read before the transaction, the UPDATE hits `row`.
   */
  lemma {:induction false} AuditExactIff(id: ItemId, row: Row, existing: Row, ups: seq<Update>)
    requires DistinctFields(ups)
    ensures Replay(row, id, AuditRows(id, existing, ups)) == Some(Assign(row, ups))
      <==> forall u | u in ups :: Faithful(row, existing, u)
    decreases |ups|
  {
    if ups != [] {
      var u, rest := ups[0], ups[1..];
      forall v | v in rest
        ensures v.Field() != u.Field()
        ensures Faithful(u.On(row), existing, v) == Faithful(row, existing, v)
      {
      }
      assert forall v :: v in ups <==> v == u || v in rest;
      ReplayHead(id, row, existing, ups);
      AuditExactIff(id, u.On(row), existing, rest);
      if !Records(existing, u) && u.On(row) != row {
        UnrecordedIsLost(id, row, existing, u, rest);
      }
    }
  }

  /** A change read before a concurrent one committed goes unrecorded: "a" written over "b", compared with "a". */
  lemma StaleReadIsLost(id: ItemId, row: Row)
    requires row.service == "b"
    ensures var ups := [SetService("a")];
      Replay(row, id, AuditRows(id, row.(service := "a"), ups)) == Some(row) != Some(Assign(row, ups))
  {
    var ups := [SetService("a")];
    assert ups[1..] == [];
    assert "a"[0] != "b"[0];
    assert Assign(row, ups).service == "a";
    assert AuditRows(id, row.(service := "a"), ups) == [];
  }
}
