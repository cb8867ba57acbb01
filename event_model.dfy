/** The event record (backend/models/Event.js): its enums, sub-records,
    defaults, the tags setter and the validators Mongoose runs on save. */
module EventModel {
  import opened Common
  import opened Text

  const NameMaxLength := 200
  const DescriptionMaxLength := 5000
  const DefaultPurchaseLimit := 1

  datatype EventType = Normal | Merchandise

  datatype EventStatus = Draft | Published | Ongoing | Completed

  /** The `type` enum: only "normal" and "merchandise" name an event type. */
  function ParseEventType(s: string): (r: Option<EventType>)
    ensures r == Some(Normal) <==> s == "normal"
    ensures r == Some(Merchandise) <==> s == "merchandise"
  {
    if s == "normal" then Some(Normal)
    else if s == "merchandise" then Some(Merchandise)
    else None
  }

  /** The `fieldType` enum of a registration form field. */
  const FieldTypes: set<string> := {"text", "number", "dropdown", "checkbox", "file"}

  datatype FormField = FormField(fieldLabel: string, fieldType: string, required: bool, options: seq<string>)

  /** A form field as sent by the client: `required` and `options` may be left out. */
  datatype FormFieldInput = FormFieldInput(fieldLabel: string, fieldType: string, required: Option<bool>, options: Option<seq<string>>)

  /** The stored form field: label trimmed, `required` defaulting to false
      and `options` to the empty list. */
  function NewFormField(f: FormFieldInput): (r: FormField)
    ensures r.fieldLabel == Trim(f.fieldLabel) && r.fieldType == f.fieldType
    ensures r.required <==> f.required == Some(true)
    ensures r.options == (if f.options.Some? then f.options.value else [])
  {
    FormField(Trim(f.fieldLabel),
              f.fieldType,
              if f.required.Some? then f.required.value else false,
              if f.options.Some? then f.options.value else [])
  }

  predicate FormFieldValid(f: FormField) {
    f.fieldLabel != "" && f.fieldType in FieldTypes
  }

  /** A merchandise variant, identified by its (size, color) pair. */
  datatype Variant = Variant(size: string, color: string, stock: int)

  datatype VariantInput = VariantInput(size: string, color: string, stock: Option<int>)

  /** The stored variant: size and color trimmed, stock defaulting to 0. */
  function NewVariant(v: VariantInput): (r: Variant)
    ensures r.size == Trim(v.size) && r.color == Trim(v.color)
    ensures r.stock == (if v.stock.Some? then v.stock.value else 0)
  {
    Variant(Trim(v.size), Trim(v.color), if v.stock.Some? then v.stock.value else 0)
  }

  /** Size and color are required (non-empty once trimmed); stock has minimum 0. */
  predicate VariantValid(v: Variant) {
    v.size != "" && v.color != "" && v.stock >= 0
  }

  datatype MerchandiseDetails = MerchandiseDetails(purchaseLimitPerUser: int, variants: seq<Variant>)

  datatype MerchandiseInput = MerchandiseInput(purchaseLimitPerUser: Option<int>, variants: Option<seq<VariantInput>>)

  /** The stored merchandise details: purchase limit defaulting to 1,
      variants to the empty list; no details at all gives both defaults. */
  function NewMerchandiseDetails(m: Option<MerchandiseInput>): (r: MerchandiseDetails)
    ensures m.None? ==> r == MerchandiseDetails(DefaultPurchaseLimit, [])
    ensures m.Some? && m.value.purchaseLimitPerUser.None? ==> r.purchaseLimitPerUser == DefaultPurchaseLimit
    ensures m.Some? && m.value.purchaseLimitPerUser.Some? ==> r.purchaseLimitPerUser == m.value.purchaseLimitPerUser.value
    ensures m.Some? && m.value.variants.Some? ==>
              |r.variants| == |m.value.variants.value| &&
              forall i :: 0 <= i < |r.variants| ==> r.variants[i] == NewVariant(m.value.variants.value[i])
    ensures m.Some? && m.value.variants.None? ==> r.variants == []
  {
    match m
    case None => MerchandiseDetails(DefaultPurchaseLimit, [])
    case Some(d) =>
      MerchandiseDetails(
        if d.purchaseLimitPerUser.Some? then d.purchaseLimitPerUser.value else DefaultPurchaseLimit,
        if d.variants.Some? then seq(|d.variants.value|, i requires 0 <= i < |d.variants.value| => NewVariant(d.variants.value[i]))
        else [])
  }

  /** One unit taken from variant `i` (`variants[i].stock -= 1`): that
      variant's stock drops by one and every other variant is untouched. */
  function TakeOne(m: MerchandiseDetails, i: nat): (r: MerchandiseDetails)
    requires i < |m.variants|
    ensures r.purchaseLimitPerUser == m.purchaseLimitPerUser && |r.variants| == |m.variants|
    ensures r.variants[i].stock == m.variants[i].stock - 1
    ensures r.variants[i].size == m.variants[i].size && r.variants[i].color == m.variants[i].color
    ensures forall j :: 0 <= j < |m.variants| && j != i ==> r.variants[j] == m.variants[j]
  {
    m.(variants := m.variants[i := m.variants[i].(stock := m.variants[i].stock - 1)])
  }

  /** Taking from a variant in stock keeps every variant valid. */
  lemma TakeOneKeepsVariantsValid(m: MerchandiseDetails, i: nat)
    requires i < |m.variants| && m.variants[i].stock > 0
    requires forall v :: v in m.variants ==> VariantValid(v)
    ensures forall v :: v in TakeOne(m, i).variants ==> VariantValid(v)
  {
    var r := TakeOne(m, i);
    forall v | v in r.variants
      ensures VariantValid(v)
    {
      var j :| 0 <= j < |r.variants| && r.variants[j] == v;
      assert VariantValid(m.variants[j]);
    }
  }

  datatype Event = Event(
    name: string,
    description: string,
    eventType: EventType,
    eligibility: string,
    registrationDeadline: Time,
    startDate: Time,
    endDate: Time,
    registrationLimit: int,
    registrationFee: int,
    organizerId: UserId,
    tags: seq<string>,
    status: EventStatus,
    formFields: seq<FormField>,
    formLocked: bool,
    merchandise: MerchandiseDetails,
    totalRegistrations: int)

  /** What the schema validators demand when an event is saved: required
      strings non-empty, the length bounds, `registrationLimit` at least 1,
      `registrationFee`, `totalRegistrations` and every stock at least 0,
      a purchase limit of at least 1, and enum-valued form fields. */
  predicate SchemaValid(e: Event) {
    && e.name != "" && JsLength(e.name) <= NameMaxLength
    && e.description != "" && JsLength(e.description) <= DescriptionMaxLength
    && e.eligibility != ""
    && e.registrationLimit >= 1
    && e.registrationFee >= 0
    && e.totalRegistrations >= 0
    && e.merchandise.purchaseLimitPerUser >= 1
    && (forall v :: v in e.merchandise.variants ==> VariantValid(v))
    && (forall f :: f in e.formFields ==> FormFieldValid(f))
  }

  /** Index of the first variant with exactly this size and color
      (`findIndex`), if any. */
  function FindVariant(variants: seq<Variant>, size: string, color: string): (r: Option<nat>)
    ensures r.Some? ==> r.value < |variants| && variants[r.value].size == size && variants[r.value].color == color
    ensures r.Some? ==> forall j :: 0 <= j < r.value ==> !(variants[j].size == size && variants[j].color == color)
    ensures r.None? ==> forall j :: 0 <= j < |variants| ==> !(variants[j].size == size && variants[j].color == color)
  {
    if variants == [] then None
    else if variants[0].size == size && variants[0].color == color then Some(0)
    else match FindVariant(variants[1..], size, color)
      case None => None
      case Some(k) => Some(k + 1)
  }
}
