/**
 The inline editor of one catalogue row, and what the backend stores for the payloads
 it sends.
 */
module RowEditor {
  import opened Support
  import opened Pricing
  import opened Catalogue
  import opened CatalogueAdmin
  import opened CatalogueStore

  /** A row as the server reports it. */
  datatype Confirmed = Confirmed(
    service: string,
    priceType: PriceType,
    price: Option<real>,
    description: Option<string>)

  /** The price input: empty, a number, or typed text with the number `parseFloat` reads off its front. */
  datatype PriceInput = Null | Blank | Number(value: real) | Typed(text: string, leading: Option<real>)

  datatype Edit = Edit(service: string, priceType: PriceType, price: PriceInput, description: Option<string>)

  datatype Editor = Editor(original: Confirmed, edit: Edit, saving: bool, flash: bool)

  datatype Payload = Payload(
    service: Option<string>,
    description: Option<Option<string>>,
    priced: Option<(PriceType, Option<real>)>)

  datatype ServerReply = Ok(row: Confirmed) | Unprocessable | OtherError

  function InputOf(price: Option<real>): PriceInput {
    if price.None? then Null else PriceInput.Number(price.value)
  }

  /** `clone` into the reactive copy. */
  function EditOf(c: Confirmed): Edit {
    Edit(c.service, c.priceType, InputOf(c.price), c.description)
  }

  /** `norm`: null, undefined and "" are one value. */
  function NormText(t: Option<string>): Option<string> {
    if t == Some("") then None else t
  }

  function NormPrice(p: PriceInput): PriceInput {
    if p.Blank? then Null else p
  }

  function ParseFloat(p: PriceInput): Option<real> {
    match p
    case Number(v) => Some(v)
    case Typed(_, leading) => leading
    case _ => None
  }

  predicate PriceDirty(e: Editor) {
    e.edit.priceType != e.original.priceType || NormPrice(e.edit.price) != InputOf(e.original.price)
  }

  predicate ServiceDirty(e: Editor) {
    NormText(Some(e.edit.service)) != NormText(Some(e.original.service))
  }

  predicate DescriptionDirty(e: Editor) {
    NormText(e.edit.description) != NormText(e.original.description)
  }

  predicate IsDirty(e: Editor) {
    ServiceDirty(e) || PriceDirty(e) || DescriptionDirty(e)
  }

  /** The coercion of `onPriceTypeChange`. */
  function CoercedInput(t: PriceType, p: PriceInput): PriceInput {
    match t
    case VARIABLE => Null
    case FREE => PriceInput.Number(0.0)
    case FIXED => if p.Null? then Blank else p
  }

  /** `save` goes ahead: something changed, nothing is in flight, a FIXED price is a number >= 0. */
  predicate CanSave(e: Editor) {
    && IsDirty(e) && !e.saving
    && (e.edit.priceType == FIXED ==>
          ParseFloat(e.edit.price).Some? && ParseFloat(e.edit.price).value >= 0.0)
  }

  function PayloadOf(e: Editor): Payload {
    Payload(
      if ServiceDirty(e) then Some(Trim(e.edit.service, IsJsSpace)) else None,
      if DescriptionDirty(e) then Some(NormText(e.edit.description)) else None,
      if PriceDirty(e) then
        Some((e.edit.priceType,
              match e.edit.priceType
              case VARIABLE => None
              case FREE => Some(0.0)
              case FIXED => ParseFloat(e.edit.price)))
      else None)
  }

  datatype Event =
    | ChooseType(priceType: PriceType)
    | TypePrice(input: PriceInput)
    | TypeService(text: string)
    | TypeDescription(text: string)
    | Discard
    | Save
    | Reply(reply: ServerReply)
    | FlashEnds

  function OnEvent(e: Editor, ev: Event): Editor {
    match ev
    case ChooseType(t) => e.(edit := e.edit.(priceType := t, price := CoercedInput(t, e.edit.price)))
    case TypePrice(p) => e.(edit := e.edit.(price := p))
    case TypeService(s) => e.(edit := e.edit.(service := s))
    case TypeDescription(d) => e.(edit := e.edit.(description := Some(d)))
    case Discard => e.(edit := EditOf(e.original))
    case Save => if CanSave(e) then e.(saving := true) else e
    case Reply(r) =>
      if !e.saving then e
      else
        (match r
         case Ok(row) => Editor(row, EditOf(row), false, true)
         case Unprocessable => e.(edit := EditOf(e.original), saving := false)
         case OtherError => e.(saving := false))
    case FlashEnds => e.(flash := false)
  }

  /** Typing changes its own field of the edit and nothing else; a save only marks itself in flight. */
  lemma TypingIs(e: Editor, text: string, input: PriceInput)
    ensures OnEvent(e, TypeService(text)) == e.(edit := e.edit.(service := text))
    ensures OnEvent(e, TypeDescription(text)) == e.(edit := e.edit.(description := Some(text)))
    ensures OnEvent(e, TypePrice(input)) == e.(edit := e.edit.(price := input))
    ensures OnEvent(e, Save) == e.(saving := e.saving || CanSave(e))
    ensures OnEvent(e, FlashEnds) == e.(flash := false)
  {
  }

  // -------------------------------------------------- meeting the backend

  /** The pair the user sees as entered. */
  function EditedPair(e: Edit): (PriceType, Option<real>) {
    (e.priceType,
     match e.priceType
     case VARIABLE => None
     case FREE => Some(0.0)
     case FIXED => ParseFloat(e.price))
  }

  /** The JSON body as the PATCH schema reads it: null is the same as absent. */
  function BodyOf(p: Payload): PatchBody {
    PatchBody(
      p.service,
      if p.priced.Some? then p.priced.value.1 else None,
      if p.priced.Some? then Some(p.priced.value.0) else None,
      if p.description.Some? then p.description.value else None)
  }

  ghost predicate ConfirmedSound(c: Confirmed) {
    CheckHolds(c.priceType, c.price)
  }

  ghost predicate RowMatches(row: Row, c: Confirmed) {
    row.service == c.service && row.priceType == c.priceType && row.price == c.price && row.description == c.description
  }

  /** What a sent payload does to a table row that still equals `original`. */
  lemma SentPayloadStores(e: Editor, row: Row)
    requires CanSave(e) && ConfirmedSound(e.original) && RowMatches(row, e.original)
    requires Validate(BodyOf(PayloadOf(e))).Some?
    ensures var after := Assign(row, UpdatesOf(Validate(BodyOf(PayloadOf(e))).value));
      && (after.priceType, after.price) == EditedPair(e.edit)
      && CheckHolds(after.priceType, after.price)
      && after.service ==
         (if e.edit.service != e.original.service then Trim(e.edit.service, IsJsSpace) else row.service)
      && (NormText(after.description) == NormText(e.edit.description) <==>
            NormText(e.edit.description).Some? || NormText(e.original.description).None?)
  {
    AssignedColumns(row, Validate(BodyOf(PayloadOf(e))).value);
  }

  /**
   When the backend refuses a payload sent over an unchanged row: an empty name, a
   patch that only clears the description, or a name already taken; never the CHECK.
   */
  lemma SaveRefusedIff(s: State, tenant: string, id: ItemId, e: Editor)
    requires Owned(s.table, tenant, id) && RowMatches(s.table.rows[id], e.original)
    requires CanSave(e) && ConfirmedSound(e.original)
    ensures var p := PayloadOf(e);
      Patch(s, tenant, id, BodyOf(p)).1.Refused? <==>
        || p.service == Some("")
        || (p.service.None? && p.priced.None? && p.description == Some(None))
        || KeyTaken(s.table, id, s.table.rows[id].(service := Or(p.service, e.original.service)))
  {
    var row, body := s.table.rows[id], BodyOf(PayloadOf(e));
    if Validate(body).Some? {
      var b := Validate(body).value;
      SentPayloadStores(e, row);
      AssignedColumns(row, b);
      UpdatesEmptyIff(b);
      KeyTakenByName(s.table, id, Assign(row, UpdatesOf(b)), row.(service := Or(body.service, row.service)));
    }
  }

  function ConfirmedOf(row: Row): Confirmed {
    Confirmed(row.service, row.priceType, row.price, row.description)
  }

  /**
   A save that the backend accepts closes the loop: the answer makes `original` the
   stored row again, nothing is dirty, and the row holds the edited pair.
   */
  lemma AcceptedSaveConfirms(s: State, tenant: string, id: ItemId, e: Editor)
    requires Owned(s.table, tenant, id) && RowMatches(s.table.rows[id], e.original)
    requires CanSave(e) && ConfirmedSound(e.original)
    requires Patch(s, tenant, id, BodyOf(PayloadOf(e))).1.Done?
    ensures var (s', reply) := Patch(s, tenant, id, BodyOf(PayloadOf(e)));
      var e' := OnEvent(OnEvent(e, Save), Reply(Ok(ConfirmedOf(reply.row))));
      && Owned(s'.table, tenant, id) && RowMatches(s'.table.rows[id], e'.original)
      && e'.edit == EditOf(e'.original) && !IsDirty(e') && !e'.saving
      && (e'.original.priceType, e'.original.price) == EditedPair(e.edit) && ConfirmedSound(e'.original)
      && e'.original.service
         == (if e.edit.service != e.original.service then Trim(e.edit.service, IsJsSpace) else e.original.service)
      && (e'.original.description == e.edit.description
          || NormText(e.edit.description) == NormText(e.original.description) || NormText(e.edit.description).None?)
  {
    SentPayloadStores(e, s.table.rows[id]);
    AssignKeepsTenant(s.table.rows[id], UpdatesOf(Validate(BodyOf(PayloadOf(e))).value));
  }

  lemma UpdatesEmptyIff(b: PatchBody)
    ensures UpdatesOf(b) == [] <==> b == PatchBody(None, None, None, None)
  {
  }

  lemma KeyTakenByName(t: Table, id: ItemId, a: Row, b: Row)
    requires a.tenant == b.tenant && a.service == b.service
    ensures KeyTaken(t, id, a) == KeyTaken(t, id, b)
  {
  }

  // ------------------------------------------------------ whole sessions

  /** Answers of the backend report rows that satisfy the CHECK. */
  ghost predicate HonestReplies(evs: seq<Event>) {
    forall ev | ev in evs && ev.Reply? && ev.reply.Ok? :: ConfirmedSound(ev.reply.row)
  }

  function After(e: Editor, evs: seq<Event>): Editor
    decreases |evs|
  {
    if evs == [] then e else After(OnEvent(e, evs[0]), evs[1..])
  }

  lemma {:induction false} SessionSound(e: Editor, evs: seq<Event>)
    requires ConfirmedSound(e.original) && HonestReplies(evs)
    ensures ConfirmedSound(After(e, evs).original)
    decreases |evs|
  {
    if evs != [] {
      assert evs[0] in evs;
      SessionSound(OnEvent(e, evs[0]), evs[1..]);
    }
  }

  /** The price members of a payload alone. */
  function PricePart(p: Payload): PatchBody {
    BodyOf(p).(service := None, description := None)
  }

  /**
   Whatever happened before and whatever the row has become: the price part of a payload
   that is sent is accepted; it stores the edited pair exactly when it was sent or the
   row has the original one, and C holds exactly when it was sent or the row satisfied it.
   */
  lemma EverySaveMeetsCheck(first: Confirmed, evs: seq<Event>, row: Row)
    requires ConfirmedSound(first) && HonestReplies(evs)
    requires CanSave(After(Editor(first, EditOf(first), false, false), evs))
    ensures var e := After(Editor(first, EditOf(first), false, false), evs);
      var b := Validate(PricePart(PayloadOf(e)));
      && b.Some?
      && var after := Assign(row, UpdatesOf(b.value));
         && ((after.priceType, after.price) == EditedPair(e.edit) <==>
               PriceDirty(e) || (row.priceType, row.price) == (e.original.priceType, e.original.price))
         && (CheckHolds(after.priceType, after.price) <==> PriceDirty(e) || CheckHolds(row.priceType, row.price))
  {
    var e := After(Editor(first, EditOf(first), false, false), evs);
    SessionSound(Editor(first, EditOf(first), false, false), evs);
    AssignedColumns(row, Validate(PricePart(PayloadOf(e))).value);
  }

  // ----------------------------------------------------------- component

  class RowComponent {
    var original: Confirmed
    var edit: Edit
    var isSaving: bool
    var savedFlash: bool

    function Now(): Editor
      reads this
    {
      Editor(original, edit, isSaving, savedFlash)
    }

    constructor (item: Confirmed)
      ensures Now() == Editor(item, EditOf(item), false, false)
    {
      original, edit, isSaving, savedFlash := item, EditOf(item), false, false;
    }

    method OnPriceTypeChange(chosen: PriceType)
      modifies this
      ensures Now() == OnEvent(old(Now()), ChooseType(chosen))
      ensures edit == old(edit).(
        priceType := chosen,
        price := if chosen == VARIABLE then Null
                 else if chosen == FREE then PriceInput.Number(0.0)
                 else if old(edit).price.Null? then Blank else old(edit).price)
      ensures original == old(original) && isSaving == old(isSaving)
    {
      edit := edit.(priceType := chosen);
      match edit.priceType {
        case VARIABLE => edit := edit.(price := Null);
        case FREE => edit := edit.(price := PriceInput.Number(0.0));
        case FIXED =>
          if edit.price.Null? {
            edit := edit.(price := Blank);
          }
      }
    }

    method DiscardEdits()
      modifies this
      ensures Now() == OnEvent(old(Now()), Discard)
      ensures !IsDirty(Now()) && original == old(original) && isSaving == old(isSaving)
      ensures edit.service == original.service && edit.priceType == original.priceType
              && edit.description == original.description
              && edit.price == if original.price.None? then Null else PriceInput.Number(original.price.value)
    {
      edit := EditOf(original);
    }

    /** `save` up to its request. */
    method StartSave() returns (sent: Option<Payload>)
      modifies this
      ensures Now() == OnEvent(old(Now()), Save)
      ensures sent == if CanSave(old(Now())) then Some(PayloadOf(old(Now()))) else None
      ensures edit == old(edit) && original == old(original)
      ensures sent.Some? <==>
        && !old(isSaving)
        && (edit.service != original.service
            || edit.priceType != original.priceType
            || (if edit.price.Blank? then Null else edit.price) != InputOf(original.price)
            || Or(edit.description, "") != Or(original.description, ""))
        && (edit.priceType != FIXED
            || (edit.price.Number? && edit.price.value >= 0.0)
            || (edit.price.Typed? && edit.price.leading.Some? && edit.price.leading.value >= 0.0))
      ensures sent.Some? ==>
        var priced := edit.priceType != original.priceType
                      || (if edit.price.Blank? then Null else edit.price) != InputOf(original.price);
        && sent.value.service ==
             (if edit.service != original.service then Some(Trim(edit.service, IsJsSpace)) else None)
        && sent.value.description ==
             (if Or(edit.description, "") == Or(original.description, "") then None
              else if Or(edit.description, "") == "" then Some(None) else Some(edit.description))
        && (sent.value.priced.Some? <==> priced)
        && (priced ==>
              sent.value.priced.value == (
                edit.priceType,
                if edit.priceType == VARIABLE then None
                else if edit.priceType == FREE then Some(0.0)
                else if edit.price.Number? then Some(edit.price.value) else edit.price.leading))
    {
      if !IsDirty(Now()) || isSaving {
        return None;
      }
      if edit.priceType == FIXED {
        var n := ParseFloat(edit.price);
        if n.None? || n.value < 0.0 {
          return None;
        }
      }
      isSaving := true;
      var payload := Payload(None, None, None);
      if ServiceDirty(Now()) {
        payload := payload.(service := Some(Trim(edit.service, IsJsSpace)));
      }
      if DescriptionDirty(Now()) {
        payload := payload.(description := Some(NormText(edit.description)));
      }
      if PriceDirty(Now()) {
        var price := if edit.priceType == VARIABLE then None
                     else if edit.priceType == FREE then Some(0.0)
                     else ParseFloat(edit.price);
        payload := payload.(priced := Some((edit.priceType, price)));
      }
      return Some(payload);
    }

    /** `save` from its answer on. */
    method FinishSave(reply: ServerReply)
      requires isSaving
      modifies this
      ensures Now() == OnEvent(old(Now()), Reply(reply))
      ensures reply.Ok? ==> original == reply.row && edit == EditOf(original) && !IsDirty(Now())
      ensures reply.Unprocessable? ==> original == old(original) && edit == EditOf(original)
      ensures reply.OtherError? ==> original == old(original) && edit == old(edit)
      ensures !isSaving && (savedFlash <==> reply.Ok? || old(savedFlash))
    {
      match reply {
        case Ok(row) =>
          original := row;
          edit := EditOf(row);
          savedFlash := true;
        case Unprocessable =>
          edit := EditOf(original);
        case OtherError =>
      }
      isSaving := false;
    }
  }
}
