/**
 The canonical service item: what its validators refuse, what they coerce, and how a
 decoded model response becomes a list of items.
 */
module ServiceItems {
  import opened Support
  import opened Rounding
  import opened Pricing

  // ------------------------------------------------------------ raw rows

  /** A cell of a source row: its `str()` and its truth value. */
  datatype RawCell = Missing | Cell(text: string, truthy: bool)
  type Cell = c: RawCell | c.Cell? && c.truthy ==> c.text != "" witness Missing

  /** A source row: a dictionary in insertion order. */
  type Dict = seq<(string, Cell)>

  predicate IsSpace(c: char) {
    || c == ' ' || '\t' <= c <= '\r' || '\U{1c}' <= c <= '\U{1f}' || c == '\U{85}' || c == '\U{a0}'
    || c == '\U{1680}' || '\U{2000}' <= c <= '\U{200a}' || c == '\U{2028}' || c == '\U{2029}'
    || c == '\U{202f}' || c == '\U{205f}' || c == '\U{3000}'
  }

  function Strip(s: string): string {
    Trim(s, IsSpace)
  }

  function Get(row: Dict, key: string): Cell {
    if row == [] then Missing else if row[0].0 == key then row[0].1 else Get(row[1..], key)
  }

  function Lines(row: Dict): seq<string> {
    if row == [] then []
    else
      (if row[0].1.Cell? && Strip(row[0].1.text) != "" then [row[0].0 + ": " + row[0].1.text] else [])
      + Lines(row[1..])
  }

  /** `_row_to_text` */
  function RowToText(row: Dict): string {
    Join(Lines(row), "\n")
  }

  /** A row's lines are those of its cells, in order: one for each filled cell. */
  lemma {:induction false} LinesSplit(a: Dict, b: Dict)
    ensures Lines(a + b) == Lines(a) + Lines(b)
  {
    hide Strip;
    if a == [] {
      assert a + b == b;
    } else {
      assert (a + b)[1..] == a[1..] + b;
      LinesSplit(a[1..], b);
    }
  }

  lemma LinesOfCell(key: string, c: Cell)
    ensures Lines([(key, c)]) == if c.Cell? && Strip(c.text) != "" then [key + ": " + c.text] else []
  {
    hide Strip;
    assert [(key, c)][1..] == [];
  }

  /** The text of a row: that of its parts, with a newline between two that say something. */
  lemma RowTextSplit(a: Dict, b: Dict)
    ensures RowToText(a + b) ==
      if Lines(a) == [] then RowToText(b) else if Lines(b) == [] then RowToText(a)
      else RowToText(a) + "\n" + RowToText(b)
  {
    hide Lines;
    LinesSplit(a, b);
    JoinAppend(Lines(a), Lines(b), "\n");
  }

  /** The position of the column that a key names. */
  predicate ColumnAt(row: Dict, key: string, i: nat) {
    i < |row| && row[i].0 == key && forall j | 0 <= j < i :: row[j].0 != key
  }

  lemma {:induction false} GetAt(row: Dict, key: string, i: nat)
    requires ColumnAt(row, key, i)
    ensures Get(row, key) == row[i].1
  {
    if i > 0 {
      assert row[0].0 != key;
      GetAt(row[1..], key, i - 1);
    }
  }

  lemma {:induction false} GetAbsent(row: Dict, key: string)
    requires forall i | 0 <= i < |row| :: row[i].0 != key
    ensures Get(row, key) == Missing
  {
    if row != [] { GetAbsent(row[1..], key); }
  }

  predicate Filled(c: Cell) {
    c.Cell? && Strip(c.text) != ""
  }

  lemma {:induction false} FilledCellHasLine(row: Dict, i: nat)
    requires i < |row| && Filled(row[i].1)
    ensures row[i].0 + ": " + row[i].1.text in Lines(row)
  {
    if i == 0 {
      assert Lines(row)[0] == row[0].0 + ": " + row[0].1.text;
    } else {
      FilledCellHasLine(row[1..], i - 1);
    }
  }

  /** Every filled column is in the row's text verbatim, whatever its name. */
  lemma FilledCellInText(row: Dict, i: nat)
    requires i < |row| && Filled(row[i].1)
    ensures Contains(RowToText(row), row[i].0 + ": " + row[i].1.text)
  {
    FilledCellHasLine(row, i);
    var k :| 0 <= k < |Lines(row)| && Lines(row)[k] == row[i].0 + ": " + row[i].1.text;
    var before, after := JoinContains(Lines(row), k, "\n");
    ContainsAt(before, Lines(row)[k], after);
  }

  // --------------------------------------------------------------- items

  datatype Rule = ZeroPriceUndescribed | NameTooShort | UnknownUnit

  datatype FlagReason = Stated(text: string) | LowConfidence | ConstructionError | Broken(rules: seq<Rule>)

  datatype ServiceItem = ServiceItem(
    id: string,
    tenant: string,
    name: string,
    description: Option<string>,
    category: Option<string>,
    price: Option<real>,
    priceType: PriceType,
    currency: string,
    unit: Option<string>,
    confidence: real,
    raw: Dict,
    flagged: bool,
    flagReason: Option<FlagReason>)

  /** A member of a decoded JSON object; `Wrong` is a value the field's type cannot be read from. */
  datatype Json<+T> = Absent | Null | Wrong | Given(value: T)

  /**
   The members of an entry.  A falsy `price_type` counts as `Null`; `currency` and
   `unit` are given in the case their validators fold them to.  `refusedElsewhere` stands for a
   keyword clash with `raw_data` or an unreadable timestamp.
   */
  datatype Fields = Fields(
    id: Json<string>,
    name: Json<string>,
    description: Json<string>,
    category: Json<string>,
    price: Json<real>,
    priceType: Json<PriceType>,
    currency: Json<string>,
    unit: Json<string>,
    confidence: Json<real>,
    flagged: Json<bool>,
    flagReason: Json<FlagReason>,
    refusedElsewhere: bool)

  /** A required or defaulted member that may not be null. */
  function Plain<T>(j: Json<T>, default: Option<T>): Option<T> {
    match j
    case Given(v) => Some(v)
    case Absent => default
    case _ => None
  }

  /** A nullable member; the outer None is a refusal. */
  function Nullable<T>(j: Json<T>): Option<Option<T>> {
    match j
    case Given(v) => Some(Some(v))
    case Wrong => None
    case _ => Some(None)
  }

  /** `infer_price_type`: VARIABLE when no price came, FIXED otherwise. */
  function InferredType(priceType: Json<PriceType>, price: Json<real>): Option<PriceType> {
    match priceType
    case Given(t) => Some(t)
    case Wrong => None
    case _ => Some(if price.Absent? || price.Null? then VARIABLE else FIXED)
  }

  /** The price field after `price_non_negative`; an absent price takes the default 0. */
  function FieldPrice(price: Json<real>): Option<Option<real>> {
    match price
    case Absent => Some(Some(0.0))
    case Null => Some(None)
    case Wrong => None
    case Given(v) => if v < 0.0 then None else Some(Some(Round4(v)))
  }

  /** `enforce_hybrid_pricing_invariant`; None is a refusal. */
  function Enforce(t: PriceType, price: Option<real>): Option<Option<real>> {
    match t
    case FREE => Some(Some(0.0))
    case VARIABLE => Some(None)
    case FIXED => if price.None? then None else Some(price)
  }

  function PricedAs(priceType: Json<PriceType>, price: Json<real>): Option<(PriceType, Option<real>)> {
    var t, p := InferredType(priceType, price), FieldPrice(price);
    if t.None? || p.None? then None
    else
      var e := Enforce(t.value, p.value);
      if e.None? then None else Some((t.value, e.value))
  }

  /** `currency_uppercase`; the default is not validated. */
  function CurrencyOf(currency: Json<string>): Option<string> {
    match currency
    case Given(c) => if |Strip(c)| == 3 then Some(Strip(c)) else None
    case Absent => Some("EUR")
    case _ => None
  }

  /** `unit_lowercase`: an empty unit is dropped, a blank one is stripped to an empty one. */
  function UnitOf(unit: Option<string>): Option<string> {
    if unit.None? || unit.value == "" then None else Some(Strip(unit.value))
  }

  const MIN_AUTO_CONFIDENCE := 0.5

  /** The `ServiceItem` constructor; None stands for `ValidationError` or `TypeError`. */
  function Construct(tenant: string, raw: Dict, f: Fields, uuid: string): Option<ServiceItem> {
    var id, name := Plain(f.id, Some(uuid)), Plain(f.name, None);
    var description, category, unit := Nullable(f.description), Nullable(f.category), Nullable(f.unit);
    var priced := PricedAs(f.priceType, f.price);
    var currency, confidence := CurrencyOf(f.currency), Plain(f.confidence, Some(1.0));
    var flagged, reason := Plain(f.flagged, Some(false)), Nullable(f.flagReason);
    if || f.refusedElsewhere || tenant == "" || id.None? || name.None? || name.value == ""
       || description.None? || category.None? || unit.None? || priced.None?
       || currency.None?
       || confidence.None? || !(0.0 <= confidence.value <= 1.0)
       || flagged.None? || reason.None?
    then None
    else
      var autoFlag := confidence.value < MIN_AUTO_CONFIDENCE && !flagged.value;
      Some(ServiceItem(
        id.value, tenant, name.value, description.value, category.value,
        priced.value.1, priced.value.0, currency.value,
        UnitOf(unit.value),
        confidence.value, raw,
        flagged.value || autoFlag,
        if autoFlag then Some(LowConfidence) else reason.value))
  }

  /** Every constructed item meets the CHECK, has a name, and is flagged when it is doubtful. */
  ghost predicate Sound(item: ServiceItem) {
    && CheckHolds(item.priceType, item.price)
    && item.name != "" && item.tenant != ""
    && 0.0 <= item.confidence <= 1.0
    && (item.confidence < MIN_AUTO_CONFIDENCE ==> item.flagged)
  }

  /** The raw entries that pydantic refuses, member by member. */
  predicate Refused(tenant: string, f: Fields) {
    || f.refusedElsewhere || tenant == ""
    || f.id.Null? || f.id.Wrong?
    || !f.name.Given? || f.name.value == ""
    || f.description.Wrong? || f.category.Wrong? || f.unit.Wrong? || f.flagReason.Wrong?
    || f.priceType.Wrong? || f.price.Wrong? || (f.price.Given? && f.price.value < 0.0)
    || (f.priceType == Given(FIXED) && f.price.Null?)
    || f.currency.Null? || f.currency.Wrong? || (f.currency.Given? && |Strip(f.currency.value)| != 3)
    || f.confidence.Null? || f.confidence.Wrong?
    || (f.confidence.Given? && !(0.0 <= f.confidence.value <= 1.0))
    || f.flagged.Null? || f.flagged.Wrong?
  }

  /** What an accepted entry becomes, member by member. */
  predicate Carries(item: ServiceItem, tenant: string, raw: Dict, f: Fields, uuid: string) {
    && item.tenant == tenant && item.raw == raw && f.name == Given(item.name)
    && item.id == (if f.id.Given? then f.id.value else uuid)
    && item.description == (if f.description.Given? then Some(f.description.value) else None)
    && item.category == (if f.category.Given? then Some(f.category.value) else None)
    && item.unit == (if f.unit.Given? && f.unit.value != "" then Some(Strip(f.unit.value)) else None)
    && item.currency == (if f.currency.Given? then Strip(f.currency.value) else "EUR")
    && item.confidence == (if f.confidence.Given? then f.confidence.value else 1.0)
    && item.priceType == (if f.priceType.Given? then f.priceType.value else if f.price.Given? then FIXED else VARIABLE)
    && item.price == (if item.priceType == VARIABLE then None
                      else if item.priceType == FIXED && f.price.Given? then Some(Round4(f.price.value)) else Some(0.0))
    && item.flagged == (f.flagged == Given(true) || item.confidence < 0.5)
    && item.flagReason == (if item.confidence < 0.5 && f.flagged != Given(true) then Some(LowConfidence)
                           else if f.flagReason.Given? then Some(f.flagReason.value) else None)
  }

  /** The validators together: which entries they refuse, and every member of the others. */
  lemma ConstructIff(tenant: string, raw: Dict, f: Fields, uuid: string)
    ensures var r := Construct(tenant, raw, f, uuid);
      && (r.None? <==> Refused(tenant, f))
      && (r.Some? ==> Carries(r.value, tenant, raw, f, uuid))
  {
    hide Strip, Round4;
  }

  /** The pricing validators either refuse or establish C(price_type, price). */
  lemma ConstructIsSound(tenant: string, raw: Dict, f: Fields, uuid: string)
    ensures var r := Construct(tenant, raw, f, uuid); r.Some? ==>
      && Sound(r.value) && r.value.tenant == tenant && f.name == Given(r.value.name) && r.value.raw == raw
      && (r.value.flagged <==> f.flagged == Given(true) || r.value.confidence < MIN_AUTO_CONFIDENCE)
      && (f.id.Absent? ==> r.value.id == uuid) && (f.confidence.Absent? ==> r.value.confidence == 1.0)
  {
    if f.price.Given? && f.price.value >= 0.0 { Round4Range(f.price.value); }
  }

  function JsonOf<T>(o: Option<T>): Json<T> {
    if o.None? then Null else Given(o.value)
  }

  /** The members of an item as a dump writes them. */
  function FieldsOf(item: ServiceItem): Fields {
    Fields(Given(item.id), Given(item.name), JsonOf(item.description), JsonOf(item.category), JsonOf(item.price),
           Given(item.priceType), Given(item.currency), JsonOf(item.unit), Given(item.confidence),
           Given(item.flagged), JsonOf(item.flagReason), false)
  }

  /** An accepted price pair is accepted again, unchanged. */
  lemma PricedAsAgain(priceType: Json<PriceType>, price: Json<real>)
    requires PricedAs(priceType, price).Some?
    ensures var r := PricedAs(priceType, price).value; PricedAs(Given(r.0), JsonOf(r.1)) == Some(r)
  {
    var r := PricedAs(priceType, price).value;
    assert Round4(0.0) == 0.0;
    if price.Given? && r.0 == FIXED {
      hide Round4;
      Round4Range(price.value);
      Round4OfRound4(price.value);
    }
  }

  /**
   What the validators make of the dump of an item that they accepted: the same item,
   except that a unit they stripped to nothing is then dropped.
   */
  lemma ConstructTwice(tenant: string, raw: Dict, f: Fields, uuid: string, otherUuid: string)
    requires Construct(tenant, raw, f, uuid).Some?
    ensures var item := Construct(tenant, raw, f, uuid).value;
      Construct(item.tenant, item.raw, FieldsOf(item), otherUuid)
        == Some(item.(unit := if item.unit == Some("") then None else item.unit))
  {
    hide PricedAs, Strip;
    var item := Construct(tenant, raw, f, uuid).value;
    PricedAsAgain(f.priceType, f.price);
    UnitOfTwice(Nullable(f.unit).value);
    CurrencyOfTwice(f.currency);
    assert Construct(item.tenant, item.raw, FieldsOf(item), otherUuid).Some?;
  }

  lemma UnitOfTwice(unit: Option<string>)
    ensures UnitOf(UnitOf(unit)) == if UnitOf(unit) == Some("") then None else UnitOf(unit)
  {
    if unit.Some? { TrimTwice(unit.value, IsSpace); }
  }

  lemma CurrencyOfTwice(currency: Json<string>)
    requires CurrencyOf(currency).Some?
    ensures CurrencyOf(Given(CurrencyOf(currency).value)) == CurrencyOf(currency)
  {
    if currency.Given? {
      TrimTwice(currency.value, IsSpace);
    } else {
      assert Strip("EUR") == "EUR";
    }
  }

  /** An accepted item is a fixed point of its own validators exactly when its given unit is not a string of blanks. */
  lemma ConstructIsIdempotentIff(tenant: string, raw: Dict, f: Fields, uuid: string, otherUuid: string)
    requires Construct(tenant, raw, f, uuid).Some?
    ensures var item := Construct(tenant, raw, f, uuid).value;
      Construct(item.tenant, item.raw, FieldsOf(item), otherUuid) == Some(item)
      <==> !(f.unit.Given? && f.unit.value != "" && Strip(f.unit.value) == "")
  {
    ConstructTwice(tenant, raw, f, uuid, otherUuid);
    hide PricedAs, Strip, FieldsOf, CurrencyOf;
    assert Construct(tenant, raw, f, uuid).value.unit == UnitOf(Nullable(f.unit).value);
  }

  /** The unit " " is accepted as "" and dropped the second time. */
  lemma BlankUnitIsLost(uuid: string)
    ensures var f := Fields(Absent, Given("name"), Absent, Absent, Absent, Absent, Absent, Given(" "),
                            Absent, Absent, Absent, false);
      var r := Construct("t", [], f, uuid);
      && r.Some? && r.value.unit == Some("")
      && Construct("t", [], FieldsOf(r.value), uuid) == Some(r.value.(unit := None))
  {
    var f := Fields(Absent, Given("name"), Absent, Absent, Absent, Absent, Absent, Given(" "),
                    Absent, Absent, Absent, false);
    assert Strip(" ") == "";
    ConstructTwice("t", [], f, uuid, uuid);
  }

  /** Exactly which (price_type, price) pairs are refused, and what the others become. */
  lemma PricedAsIff(priceType: Json<PriceType>, price: Json<real>)
    ensures PricedAs(priceType, price).None? <==>
      || priceType.Wrong? || price.Wrong? || (price.Given? && price.value < 0.0)
      || (priceType == Given(FIXED) && price.Null?)
    ensures var r := PricedAs(priceType, price); r.Some? ==>
      && CheckHolds(r.value.0, r.value.1)
      && (priceType.Given? ==> r.value.0 == priceType.value)
      && (!priceType.Given? ==> (r.value.0 == VARIABLE <==> !price.Given?) && r.value.0 != FREE)
      && (r.value.0 == FIXED && price.Given? ==>
            price.value - 0.00005 <= r.value.1.value <= price.value + 0.00005)
      && (r.value.0 == FIXED && !price.Given? ==> r.value.1 == Some(0.0))
  {
    if price.Given? && price.value >= 0.0 { Round4Range(price.value); }
  }

  // ------------------------------------------------------ model responses

  datatype Entry = NotAnObject | Object(fields: Fields, uuid: string)

  const NAME_CANDIDATES: seq<string> :=
    ["name", "service", "nome", "nome_servizio", "titolo", "prodotto", "leistung", "description", "content"]

  function Truthy(row: Dict, keys: seq<string>): Option<string> {
    if keys == [] then None
    else
      var c := Get(row, keys[0]);
      if c.Cell? && c.truthy then Some(c.text) else Truthy(row, keys[1..])
  }

  function FirstFilled(row: Dict): Option<string> {
    if row == [] then None
    else if row[0].1.Cell? && row[0].1.truthy && Strip(row[0].1.text) != "" then Some(row[0].1.text)
    else FirstFilled(row[1..])
  }

  function NameFallback(row: Dict, i: nat): string {
    var named := Truthy(row, NAME_CANDIDATES);
    if named.Some? then named.value
    else
      var filled := FirstFilled(row);
      if filled.Some? then filled.value else "UNKNOWN_ROW_" + Digits(i)
  }

  function Cap200(s: string): string {
    if |s| <= 200 then s else s[..200]
  }

  function PlaceholderFields(row: Dict, i: nat): Fields {
    Fields(Absent, Given(Cap200(NameFallback(row, i))), Given(RowToText(row)), Absent, Given(0.0),
           Absent, Absent, Absent, Given(0.0), Given(true), Given(ConstructionError), false)
  }

  lemma {:induction false} TruthyNotEmpty(row: Dict, keys: seq<string>)
    ensures Truthy(row, keys) != Some("")
  {
    if keys != [] { TruthyNotEmpty(row, keys[1..]); }
  }

  lemma {:induction false} FirstFilledNotEmpty(row: Dict)
    ensures FirstFilled(row) != Some("")
  {
    if row != [] { FirstFilledNotEmpty(row[1..]); }
  }

  lemma NameFallbackNotEmpty(row: Dict, i: nat)
    ensures NameFallback(row, i) != ""
  {
    hide Truthy, FirstFilled;
    TruthyNotEmpty(row, NAME_CANDIDATES);
    FirstFilledNotEmpty(row);
  }

  /** The text under the first of the keys that names a truthy cell. */
  ghost predicate FirstTruthy(row: Dict, keys: seq<string>, text: string) {
    exists j | 0 <= j < |keys| ::
      && Get(row, keys[j]).Cell? && Get(row, keys[j]).truthy && Get(row, keys[j]).text == text
      && forall k | 0 <= k < j :: !(Get(row, keys[k]).Cell? && Get(row, keys[k]).truthy)
  }

  predicate TruthyFilled(c: Cell) {
    c.Cell? && c.truthy && Strip(c.text) != ""
  }

  /** The text of the row's first truthy cell that is not blank. */
  ghost predicate FirstInRow(row: Dict, text: string) {
    exists j | 0 <= j < |row| ::
      TruthyFilled(row[j].1) && row[j].1.text == text && forall k | 0 <= k < j :: !TruthyFilled(row[k].1)
  }

  lemma {:induction false} TruthyIs(row: Dict, keys: seq<string>)
    ensures var r := Truthy(row, keys);
      && (r.Some? ==> FirstTruthy(row, keys, r.value))
      && (r.None? ==> forall k | k in keys :: !(Get(row, k).Cell? && Get(row, k).truthy))
  {
    if keys != [] && !(Get(row, keys[0]).Cell? && Get(row, keys[0]).truthy) {
      TruthyIs(row, keys[1..]);
      if Truthy(row, keys).Some? {
        var j :| 0 <= j < |keys[1..]| && Get(row, keys[1..][j]).Cell? && Get(row, keys[1..][j]).truthy
          && Get(row, keys[1..][j]).text == Truthy(row, keys).value
          && forall k | 0 <= k < j :: !(Get(row, keys[1..][k]).Cell? && Get(row, keys[1..][k]).truthy);
        assert forall k | 0 < k < j + 1 :: keys[k] == keys[1..][k - 1];
        assert keys[j + 1] == keys[1..][j];
      }
    }
  }

  lemma {:induction false} FirstFilledIs(row: Dict)
    ensures var r := FirstFilled(row);
      && (r.Some? ==> FirstInRow(row, r.value))
      && (r.None? ==> forall j | 0 <= j < |row| :: !TruthyFilled(row[j].1))
  {
    hide Strip;
    if row != [] && !TruthyFilled(row[0].1) {
      FirstFilledIs(row[1..]);
      if FirstFilled(row).Some? {
        var j :| 0 <= j < |row[1..]| && TruthyFilled(row[1..][j].1) && row[1..][j].1.text == FirstFilled(row).value
          && forall k | 0 <= k < j :: !TruthyFilled(row[1..][k].1);
        assert forall k | 0 < k < j + 1 :: row[k] == row[1..][k - 1];
        assert row[j + 1] == row[1..][j];
      }
    }
  }

  /** The text that names a row: a name-like column, or else the first filled one, or else a number. */
  ghost predicate NamedBy(row: Dict, i: nat, text: string) {
    if exists k | k in NAME_CANDIDATES :: Get(row, k).Cell? && Get(row, k).truthy
    then FirstTruthy(row, NAME_CANDIDATES, text)
    else if exists c | c in row :: TruthyFilled(c.1) then FirstInRow(row, text)
    else text == "UNKNOWN_ROW_" + Digits(i)
  }

  /** The name of a placeholder: 200 characters of that text. */
  ghost predicate NamesRow(name: string, row: Dict, i: nat) {
    exists text :: NamedBy(row, i, text) && name == if |text| <= 200 then text else text[..200]
  }

  lemma FallbackNamesRow(row: Dict, i: nat)
    ensures NamedBy(row, i, NameFallback(row, i))
  {
    hide Truthy, FirstFilled, FirstTruthy, FirstInRow, TruthyFilled, Digits, Get;
    TruthyIs(row, NAME_CANDIDATES);
    FirstFilledIs(row);
    if Truthy(row, NAME_CANDIDATES).Some? {
      FirstTruthyIn(row, NAME_CANDIDATES, NameFallback(row, i));
    } else if FirstFilled(row).Some? {
      FirstInRowIn(row, NameFallback(row, i));
    }
  }

  lemma FirstTruthyIn(row: Dict, keys: seq<string>, text: string)
    requires FirstTruthy(row, keys, text)
    ensures exists k | k in keys :: Get(row, k).Cell? && Get(row, k).truthy
  {
  }

  lemma FirstInRowIn(row: Dict, text: string)
    requires FirstInRow(row, text)
    ensures exists c | c in row :: TruthyFilled(c.1)
  {
  }

  /** The flagged item that stands for a refused entry. */
  ghost predicate IsPlaceholder(item: ServiceItem, tenant: string, row: Dict, i: nat, uuid: string) {
    && NamesRow(item.name, row, i)
    && item == ServiceItem(
      uuid, tenant, item.name, Some(RowToText(row)), None, Some(0.0), FIXED, "EUR", None, 0.0, row,
      true, Some(ConstructionError))
  }

  /** The placeholder of a refused entry can always be built. */
  lemma PlaceholderConstructs(tenant: string, row: Dict, i: nat, uuid: string)
    requires tenant != ""
    ensures var r := Construct(tenant, row, PlaceholderFields(row, i), uuid);
      r.Some? && IsPlaceholder(r.value, tenant, row, i, uuid)
  {
    hide NameFallback, RowToText, NamedBy;
    NameFallbackNotEmpty(row, i);
    CapNotEmpty(NameFallback(row, i));
    FallbackNamesRow(row, i);
    assert Round4(0.0) == 0.0;
  }

  lemma CapNotEmpty(s: string)
    requires s != ""
    ensures Cap200(s) != ""
  {
  }

  /** The item made of the i-th entry: the constructed one, or else its placeholder. */
  function EntryItem(tenant: string, chunk: seq<Dict>, e: Entry, i: nat): (item: ServiceItem)
    requires e.Object? && tenant != ""
    ensures Sound(item) && item.tenant == tenant
  {
    var row := if i < |chunk| then chunk[i] else [];
    var item := Construct(tenant, row, e.fields, e.uuid);
    ConstructIsSound(tenant, row, e.fields, e.uuid);
    if item.Some? then item.value
    else
      PlaceholderConstructs(tenant, row, i, e.uuid);
      ConstructIsSound(tenant, row, PlaceholderFields(row, i), e.uuid);
      Construct(tenant, row, PlaceholderFields(row, i), e.uuid).value
  }

  /** The items of the entries before position `n`. */
  function ParsedItems(tenant: string, chunk: seq<Dict>, entries: seq<Entry>, n: nat): seq<ServiceItem>
    requires n <= |entries| && tenant != ""
  {
    if n == 0 then []
    else
      ParsedItems(tenant, chunk, entries, n - 1)
      + if entries[n - 1].Object? then [EntryItem(tenant, chunk, entries[n - 1], n - 1)] else []
  }

  /** The loop of `_parse_normalizer_response` over a decoded list. */
  method ParseEntries(tenant: string, chunk: seq<Dict>, entries: seq<Entry>) returns (items: seq<ServiceItem>)
    requires tenant != ""
    ensures items == ParsedItems(tenant, chunk, entries, |entries|)
  {
    items := [];
    for i := 0 to |entries|
      invariant items == ParsedItems(tenant, chunk, entries, i)
    {
      if entries[i].NotAnObject? {
        continue;
      }
      var rawRow := if i < |chunk| then chunk[i] else [];
      var item := Construct(tenant, rawRow, entries[i].fields, entries[i].uuid);
      if item.None? {
        PlaceholderConstructs(tenant, rawRow, i, entries[i].uuid);
        item := Construct(tenant, rawRow, PlaceholderFields(rawRow, i), entries[i].uuid);
      }
      items := items + [item.value];
    }
  }

  function Objects(entries: seq<Entry>, n: nat): nat
    requires n <= |entries|
  {
    if n == 0 then 0 else Objects(entries, n - 1) + if entries[n - 1].Object? then 1 else 0
  }

  /** Conservation: every object yields one sound item that represents it, at its place; nothing else yields any. */
  lemma {:induction false} EntriesConserved(tenant: string, chunk: seq<Dict>, entries: seq<Entry>, n: nat)
    requires n <= |entries| && tenant != ""
    ensures var items := ParsedItems(tenant, chunk, entries, n);
      && |items| == Objects(entries, n)
      && (forall k | 0 <= k < n && entries[k].Object? ::
            && Objects(entries, k) < |items|
            && Represents(items[Objects(entries, k)], tenant, if k < |chunk| then chunk[k] else [], entries[k], k))
      && forall item | item in items :: Sound(item) && item.tenant == tenant
  {
    hide Represents;
    if n > 0 {
      EntriesConserved(tenant, chunk, entries, n - 1);
      if entries[n - 1].Object? { EntryIsRepresented(tenant, chunk, entries[n - 1], n - 1); }
    }
  }

  /** The item of an object entry: its own members if the validators take them, otherwise a placeholder of its row. */
  ghost predicate Represents(item: ServiceItem, tenant: string, row: Dict, e: Entry, k: nat)
    requires e.Object?
  {
    if Refused(tenant, e.fields) then IsPlaceholder(item, tenant, row, k, e.uuid)
    else Carries(item, tenant, row, e.fields, e.uuid)
  }

  lemma EntryIsRepresented(tenant: string, chunk: seq<Dict>, e: Entry, k: nat)
    requires e.Object? && tenant != ""
    ensures Represents(EntryItem(tenant, chunk, e, k), tenant, if k < |chunk| then chunk[k] else [], e, k)
  {
    hide Construct, Refused, Carries, IsPlaceholder;
    var row := if k < |chunk| then chunk[k] else [];
    ConstructIff(tenant, row, e.fields, e.uuid);
    PlaceholderConstructs(tenant, row, k, e.uuid);
  }
}
