/** The pure part of the request handlers of
    backend/controllers/eventController.js that change the stores: the
    checks each handler makes, in order, and the records it would save.
    The handlers in the EventWorkflows module load, sync and save around
    these decisions. */
module EventDecisions {
  import opened Common
  import opened Text
  import opened EventModel
  import opened RegistrationModel
  import opened EventLifecycle
  import opened StoreState

  // ---------------------------------------------------------------------
  // createEvent

  /** The body of a create request. Dates are already parsed. */
  datatype EventInput = EventInput(
    name: Option<string>,
    description: Option<string>,
    eventType: string,
    eligibility: Option<string>,
    registrationDeadline: Time,
    startDate: Time,
    endDate: Time,
    registrationLimit: Option<int>,
    registrationFee: Option<int>,
    tags: ListInput<string>,
    formFields: Option<seq<FormFieldInput>>,
    merchandiseDetails: Option<MerchandiseInput>)

  /** `!registrationLimit || registrationLimit < 1` fails. */
  predicate LimitGiven(inp: EventInput) {
    inp.registrationLimit.Some? && inp.registrationLimit.value >= 1
  }

  /** `registrationFee && registrationFee < 0` fails. */
  predicate FeeNotNegative(inp: EventInput) {
    !(inp.registrationFee.Some? && inp.registrationFee.value < 0)
  }

  /** A normal event must send form fields and a merchandise event variants. */
  predicate DetailsGiven(inp: EventInput, t: EventType) {
    match t
    case Normal => inp.formFields.Some? && |inp.formFields.value| > 0
    case Merchandise =>
      inp.merchandiseDetails.Some? && inp.merchandiseDetails.value.variants.Some?
      && |inp.merchandiseDetails.value.variants.value| > 0
  }

  /** The checks `createEvent` makes before it touches the store; the
      first failing one answers. */
  function CreateEventCheck(inp: EventInput): (r: Result<EventType>)
    ensures r.Ok? <==>
              && ParseEventType(inp.eventType).Some?
              && LimitGiven(inp) && FeeNotNegative(inp)
              && inp.startDate < inp.endDate && inp.registrationDeadline <= inp.startDate
              && DetailsGiven(inp, ParseEventType(inp.eventType).value)
    ensures r.Ok? ==> ParseEventType(inp.eventType) == Some(r.value)
    ensures ParseEventType(inp.eventType).None? ==> r == Err(BadRequest("Invalid event type"))
    ensures ParseEventType(inp.eventType).Some? && !LimitGiven(inp) ==>
              r == Err(BadRequest("Registration limit must be at least 1"))
    ensures ParseEventType(inp.eventType).Some? && LimitGiven(inp) && !FeeNotNegative(inp) ==>
              r == Err(BadRequest("Registration fee cannot be negative"))
    ensures ParseEventType(inp.eventType).Some? && LimitGiven(inp) && FeeNotNegative(inp) && inp.startDate >= inp.endDate ==>
              r == Err(BadRequest("End date must be after start date"))
    ensures ParseEventType(inp.eventType).Some? && LimitGiven(inp) && FeeNotNegative(inp) && inp.startDate < inp.endDate
            && inp.registrationDeadline > inp.startDate ==>
              r == Err(BadRequest("Deadline must be before event start"))
    ensures ParseEventType(inp.eventType) == Some(Normal) && LimitGiven(inp) && FeeNotNegative(inp)
            && inp.startDate < inp.endDate && inp.registrationDeadline <= inp.startDate && !DetailsGiven(inp, Normal) ==>
              r == Err(BadRequest("Normal events must define custom form fields"))
    ensures ParseEventType(inp.eventType) == Some(Merchandise) && LimitGiven(inp) && FeeNotNegative(inp)
            && inp.startDate < inp.endDate && inp.registrationDeadline <= inp.startDate && !DetailsGiven(inp, Merchandise) ==>
              r == Err(BadRequest("Merchandise events must define item variants"))
  {
    match ParseEventType(inp.eventType)
    case None => Err(BadRequest("Invalid event type"))
    case Some(t) =>
      if !LimitGiven(inp) then Err(BadRequest("Registration limit must be at least 1"))
      else if !FeeNotNegative(inp) then Err(BadRequest("Registration fee cannot be negative"))
      else if inp.startDate >= inp.endDate then Err(BadRequest("End date must be after start date"))
      else if inp.registrationDeadline > inp.startDate then Err(BadRequest("Deadline must be before event start"))
      else if t == Normal && !DetailsGiven(inp, t) then Err(BadRequest("Normal events must define custom form fields"))
      else if t == Merchandise && !DetailsGiven(inp, t) then Err(BadRequest("Merchandise events must define item variants"))
      else Ok(t)
  }

  function TrimmedOrEmpty(s: Option<string>): string {
    if s.Some? then Trim(s.value) else ""
  }

  function NewFormFields(fs: seq<FormFieldInput>): (r: seq<FormField>)
    ensures |r| == |fs| && forall i :: 0 <= i < |fs| ==> r[i] == NewFormField(fs[i])
  {
    seq(|fs|, i requires 0 <= i < |fs| => NewFormField(fs[i]))
  }

  /** The document `Event.create` builds: a draft with no registrations,
      the strings trimmed, the fee defaulting to 0, the tags normalised,
      and only the details that belong to its type (form fields for a
      normal event, merchandise details for a merchandise one; the other
      gets its default). */
  function NewEvent(inp: EventInput, t: EventType, organizer: UserId): (e: Event)
    ensures e.status == Draft && e.totalRegistrations == 0 && !e.formLocked
    ensures e.eventType == t && e.organizerId == organizer
    ensures e.name == TrimmedOrEmpty(inp.name) && e.description == TrimmedOrEmpty(inp.description)
    ensures e.registrationFee == (if inp.registrationFee.Some? then inp.registrationFee.value else 0)
    ensures e.tags == NormalizeList(inp.tags) && e.eligibility == TrimmedOrEmpty(inp.eligibility)
    ensures e.registrationDeadline == inp.registrationDeadline && e.startDate == inp.startDate && e.endDate == inp.endDate
    ensures e.registrationLimit == (if inp.registrationLimit.Some? then inp.registrationLimit.value else 0)
    ensures t == Normal ==>
              e.formFields == NewFormFields(if inp.formFields.Some? then inp.formFields.value else [])
              && e.merchandise == MerchandiseDetails(DefaultPurchaseLimit, [])
    ensures t == Merchandise ==> e.formFields == [] && e.merchandise == NewMerchandiseDetails(inp.merchandiseDetails)
  {
    Event(
      TrimmedOrEmpty(inp.name),
      TrimmedOrEmpty(inp.description),
      t,
      TrimmedOrEmpty(inp.eligibility),
      inp.registrationDeadline,
      inp.startDate,
      inp.endDate,
      if inp.registrationLimit.Some? then inp.registrationLimit.value else 0,
      if inp.registrationFee.Some? then inp.registrationFee.value else 0,
      organizer,
      NormalizeList(inp.tags),
      Draft,
      if t == Normal then NewFormFields(if inp.formFields.Some? then inp.formFields.value else []) else [],
      false,
      if t == Merchandise then NewMerchandiseDetails(inp.merchandiseDetails) else NewMerchandiseDetails(None),
      0)
  }

  // ---------------------------------------------------------------------
  // editEvent

  /** The body of an edit request: any subset of the event's fields. */
  datatype EventUpdate = EventUpdate(
    name: Option<string>,
    description: Option<string>,
    eventType: Option<string>,
    eligibility: Option<string>,
    registrationDeadline: Option<Time>,
    startDate: Option<Time>,
    endDate: Option<Time>,
    registrationLimit: Option<int>,
    registrationFee: Option<int>,
    tags: ListInput<string>,
    formFields: Option<seq<FormFieldInput>>,
    merchandiseDetails: Option<MerchandiseInput>,
    status: Option<string>)

  function Pick<T>(given: Option<T>, kept: T): T {
    if given.Some? then given.value else kept
  }

  /** The draft edit (`Object.assign(event, updates)`): every field sent
      replaces the stored one through its setter, every other field is
      kept, and the status, counter, owner and form lock are never touched.
      A type that is not in the enum is refused by the validator. */
  function DraftPatch(e: Event, u: EventUpdate): (r: Option<Event>)
    ensures r.Some? <==> u.eventType.None? || ParseEventType(u.eventType.value).Some?
    ensures r.Some? ==>
              && r.value.status == e.status && r.value.totalRegistrations == e.totalRegistrations
              && r.value.organizerId == e.organizerId && r.value.formLocked == e.formLocked
    ensures r.Some? ==>
              && r.value.name == (if u.name.Some? then Trim(u.name.value) else e.name)
              && r.value.description == (if u.description.Some? then Trim(u.description.value) else e.description)
              && r.value.registrationDeadline == Pick(u.registrationDeadline, e.registrationDeadline)
              && r.value.startDate == Pick(u.startDate, e.startDate)
              && r.value.endDate == Pick(u.endDate, e.endDate)
              && r.value.registrationLimit == Pick(u.registrationLimit, e.registrationLimit)
              && r.value.tags == (if u.tags.Absent? then e.tags else NormalizeList(u.tags))
              && r.value.formFields == (if u.formFields.Some? then NewFormFields(u.formFields.value) else e.formFields)
    ensures r.Some? ==>
              && r.value.eventType == (if u.eventType.Some? then ParseEventType(u.eventType.value).value else e.eventType)
              && r.value.eligibility == (if u.eligibility.Some? then Trim(u.eligibility.value) else e.eligibility)
              && r.value.registrationFee == Pick(u.registrationFee, e.registrationFee)
              && r.value.merchandise == (if u.merchandiseDetails.Some? then NewMerchandiseDetails(u.merchandiseDetails) else e.merchandise)
  {
    var t := if u.eventType.Some? then ParseEventType(u.eventType.value) else Some(e.eventType);
    if t.None? then None
    else Some(e.(
      name := if u.name.Some? then Trim(u.name.value) else e.name,
      description := if u.description.Some? then Trim(u.description.value) else e.description,
      eventType := t.value,
      eligibility := if u.eligibility.Some? then Trim(u.eligibility.value) else e.eligibility,
      registrationDeadline := Pick(u.registrationDeadline, e.registrationDeadline),
      startDate := Pick(u.startDate, e.startDate),
      endDate := Pick(u.endDate, e.endDate),
      registrationLimit := Pick(u.registrationLimit, e.registrationLimit),
      registrationFee := Pick(u.registrationFee, e.registrationFee),
      tags := if u.tags.Absent? then e.tags else NormalizeList(u.tags),
      formFields := if u.formFields.Some? then NewFormFields(u.formFields.value) else e.formFields,
      merchandise := if u.merchandiseDetails.Some? then NewMerchandiseDetails(u.merchandiseDetails) else e.merchandise))
  }

  /** A truthy number (`if (updates.registrationLimit)`). */
  predicate NumberSent(n: Option<int>) {
    n.Some? && n.value != 0
  }

  /** The restricted edit of a published event: a truthy description
      replaces the old one, the deadline may only move strictly later, the
      limit may only strictly grow, and "completed" as status closes the
      event; nothing else changes. */
  function PublishedEdit(e: Event, u: EventUpdate): (r: Result<Event>)
    ensures r.Ok? <==>
              (u.registrationDeadline.None? || u.registrationDeadline.value > e.registrationDeadline)
              && (!NumberSent(u.registrationLimit) || u.registrationLimit.value > e.registrationLimit)
    ensures u.registrationDeadline.Some? && u.registrationDeadline.value <= e.registrationDeadline ==>
              r == Err(BadRequest("Deadline can only be extended"))
    ensures (u.registrationDeadline.None? || u.registrationDeadline.value > e.registrationDeadline)
            && NumberSent(u.registrationLimit) && u.registrationLimit.value <= e.registrationLimit ==>
              r == Err(BadRequest("Registration limit can only be increased"))
    ensures r.Ok? ==>
              && r.value.registrationDeadline == Pick(u.registrationDeadline, e.registrationDeadline)
              && r.value.registrationLimit == (if NumberSent(u.registrationLimit) then u.registrationLimit.value else e.registrationLimit)
              && r.value.registrationDeadline >= e.registrationDeadline
              && r.value.registrationLimit >= e.registrationLimit
              && r.value.status == (if u.status == Some("completed") then Completed else e.status)
              && r.value.description == (if Truthy(u.description) then Trim(u.description.value) else e.description)
              && r.value == e.(description := r.value.description,
                               registrationDeadline := r.value.registrationDeadline,
                               registrationLimit := r.value.registrationLimit,
                               status := r.value.status)
  {
    var e1 := if Truthy(u.description) then e.(description := Trim(u.description.value)) else e;
    if u.registrationDeadline.Some? && u.registrationDeadline.value <= e.registrationDeadline then
      Err(BadRequest("Deadline can only be extended"))
    else
      var e2 := if u.registrationDeadline.Some? then e1.(registrationDeadline := u.registrationDeadline.value) else e1;
      if NumberSent(u.registrationLimit) && u.registrationLimit.value <= e.registrationLimit then
        Err(BadRequest("Registration limit can only be increased"))
      else
        var e3 := if NumberSent(u.registrationLimit) then e2.(registrationLimit := u.registrationLimit.value) else e2;
        Ok(if u.status == Some("completed") then e3.(status := Completed) else e3)
  }

  /** The draft branch of `editEvent`: the form lock, then the patch, then
      the validators on save. */
  function DraftEdit(e: Event, u: EventUpdate): (r: Result<Event>)
    ensures r.Ok? ==> SchemaValid(r.value) && r.value.status == e.status
    ensures r.Ok? ==> r.value.organizerId == e.organizerId && r.value.totalRegistrations == e.totalRegistrations
    ensures u.formFields.Some? && e.totalRegistrations > 0 ==>
              r == Err(BadRequest("Form fields are locked after first registration"))
    ensures r.Ok? ==> DraftPatch(e, u).Some? && r.value == DraftPatch(e, u).value
    ensures !(u.formFields.Some? && e.totalRegistrations > 0) ==>
              (r.Ok? <==> DraftPatch(e, u).Some? && SchemaValid(DraftPatch(e, u).value))
  {
    if u.formFields.Some? && e.totalRegistrations > 0 then
      Err(BadRequest("Form fields are locked after first registration"))
    else
      var patched := DraftPatch(e, u);
      if patched.None? || !SchemaValid(patched.value) then Err(ServerError(ValidationFailed))
      else Ok(patched.value)
  }

  /** An edit saved: a result the validators refuse fails the save. */
  function SavedEdit(edited: Result<Event>): (r: Result<Event>)
    ensures r.Ok? <==> edited.Ok? && SchemaValid(edited.value)
    ensures r.Ok? ==> r == edited
  {
    if edited.Ok? && !SchemaValid(edited.value) then Err(ServerError(ValidationFailed)) else edited
  }

  /** What `editEvent` does to an event of each derived status: a draft
      takes the patch unless it sends form fields while holding
      registrations; a published event takes the restricted edit; an
      ongoing one only "completed"; a completed one nothing. A result the
      validators refuse fails the save. */
  function EditOutcome(e: Event, u: EventUpdate): (r: Result<Event>)
    ensures r.Ok? ==> r.value.organizerId == e.organizerId && r.value.totalRegistrations == e.totalRegistrations
    ensures r.Ok? && e.status != Ongoing ==> SchemaValid(r.value)
    ensures r.Ok? && e.status == Ongoing && SchemaValid(e) ==> SchemaValid(r.value)
    ensures r.Ok? ==> Rank(e.status) <= Rank(r.value.status) && (e.status == Draft <==> r.value.status == Draft)
    ensures e.status == Completed ==> r == Err(BadRequest("Completed events cannot be edited"))
    ensures e.status == Ongoing && u.status != Some("completed") ==>
              r == Err(BadRequest("Ongoing events cannot be edited except status change"))
    ensures e.status == Ongoing ==> (r.Ok? <==> u.status == Some("completed")) && (r.Ok? ==> r.value == e.(status := Completed))
    ensures e.status == Published && r.Ok? ==>
              r.value.registrationDeadline >= e.registrationDeadline && r.value.registrationLimit >= e.registrationLimit
    ensures e.status == Draft && u.formFields.Some? && e.totalRegistrations > 0 ==>
              r == Err(BadRequest("Form fields are locked after first registration"))
    ensures e.status == Draft ==> r == DraftEdit(e, u)
    ensures e.status == Published ==> r == SavedEdit(PublishedEdit(e, u))
  {
    match e.status
    case Draft => DraftEdit(e, u)
    case Published => SavedEdit(PublishedEdit(e, u))
    case Ongoing =>
      if u.status == Some("completed") then Ok(e.(status := Completed))
      else Err(BadRequest("Ongoing events cannot be edited except status change"))
    case Completed => Err(BadRequest("Completed events cannot be edited"))
  }

  /** A stored draft holds no registrations, so the form lock never
      answers an edit of a draft. */
  lemma DraftNeverLocked(e: Event, u: EventUpdate)
    requires EventOk(e) && e.status == Draft
    ensures EditOutcome(e, u) != Err(BadRequest("Form fields are locked after first registration"))
  {
  }

  /** An accepted edit keeps a stored event a valid stored event. */
  lemma EditKeepsEventOk(e: Event, u: EventUpdate)
    requires EventOk(e) && EditOutcome(e, u).Ok?
    ensures EventOk(EditOutcome(e, u).value)
  {
  }

  // ---------------------------------------------------------------------
  // registerForEvent

  /** What `registerForEvent` decides for an event whose status is derived
      at `now`: the checks in order, then the row it inserts, carrying the
      new ticket. The duplicate check skips cancelled rows, but the unique
      index on (event, participant) does not, so a participant who cancelled
      cannot register again. */
  function Admission(e: Event, regs: seq<Registration>, eventId: EventId, p: UserId, ticket: string, now: Time): (r: Result<Registration>)
    ensures r.Ok? <==>
              && e.status == Published && now <= e.registrationDeadline
              && e.totalRegistrations < e.registrationLimit
              && !HasRow(regs, eventId, p) && !TicketInUse(regs, ticket)
    ensures r.Ok? ==> r.value == NewRegistration(eventId, p).(ticketId := Some(ticket)) && Counts(r.value, eventId)
    ensures e.status != Published ==> r == Err(BadRequest("Event is not open for registration"))
    ensures e.status == Published && now > e.registrationDeadline ==> r == Err(BadRequest("Registration deadline passed"))
    ensures e.status == Published && now <= e.registrationDeadline && e.totalRegistrations >= e.registrationLimit ==>
              r == Err(BadRequest("Registration limit reached"))
    ensures r == Err(BadRequest("Already registered for this event")) ==> HasActiveRow(regs, eventId, p)
    ensures (e.status == Published && now <= e.registrationDeadline && e.totalRegistrations < e.registrationLimit
             && HasActiveRow(regs, eventId, p)) ==> r == Err(BadRequest("Already registered for this event"))
    ensures (e.status == Published && now <= e.registrationDeadline && e.totalRegistrations < e.registrationLimit
             && HasRow(regs, eventId, p) && !HasActiveRow(regs, eventId, p)) ==> r == Err(ServerError(DuplicateKey))
  {
    if e.status != Published then Err(BadRequest("Event is not open for registration"))
    else if now > e.registrationDeadline then Err(BadRequest("Registration deadline passed"))
    else if e.totalRegistrations >= e.registrationLimit then Err(BadRequest("Registration limit reached"))
    else if HasActiveRow(regs, eventId, p) then Err(BadRequest("Already registered for this event"))
    else if HasRow(regs, eventId, p) || TicketInUse(regs, ticket) then Err(ServerError(DuplicateKey))
    else Ok(NewRegistration(eventId, p).(ticketId := Some(ticket)))
  }

  // ---------------------------------------------------------------------
  // placeMerchandiseOrder

  /** The `variant` form field: JSON that does not parse, or an object whose
      `size` and `color` may be missing (`null` parses to no fields). */
  datatype VariantBody = Malformed | Parsed(size: Option<string>, color: Option<string>)

  /** The order row: payment pending, the chosen variant key and the proof
      path, no ticket yet (the placement trims both before storing them). */
  function OrderRow(eventId: EventId, p: UserId, key: VariantKey, proofPath: string): (r: Registration)
    ensures r.eventId == eventId && r.participantId == p && r.status == Registered
    ensures r.paymentStatus == PaymentPending && r.ticketId.None? && !r.attendanceStatus && r.attendance.None?
    ensures r.variant == Some(key) && r.paymentProofUrl == Some(proofPath)
  {
    NewRegistration(eventId, p).(variant := Some(key), paymentStatus := PaymentPending, paymentProofUrl := Some(proofPath))
  }

  /** The purchase limit as the handler reads it (`purchaseLimitPerUser || 1`). */
  function PurchaseLimit(e: Event): (n: int)
    ensures e.merchandise.purchaseLimitPerUser >= 1 ==> n == e.merchandise.purchaseLimitPerUser
    ensures n != 0
  {
    if e.merchandise.purchaseLimitPerUser != 0 then e.merchandise.purchaseLimitPerUser else 1
  }

  /** The variant sent names a variant (by exact size and color) with
      stock left. */
  predicate InStock(e: Event, size: string, color: string) {
    var k := FindVariant(e.merchandise.variants, size, color);
    k.Some? && e.merchandise.variants[k.value].stock > 0
  }

  /** Every check of `placeMerchandiseOrder` passes: the event is open,
      its deadline has not passed, a variant is sent and in stock, the
      participant is under the purchase limit and has no row yet for the
      event (the unique index). */
  predicate OrderAcceptable(e: Event, regs: seq<Registration>, eventId: EventId, p: UserId,
                            size: Option<string>, color: Option<string>, now: Time) {
    && e.status == Published && now <= e.registrationDeadline
    && Truthy(size) && Truthy(color) && InStock(e, size.value, color.value)
    && CountRegistered(regs, eventId, p) < PurchaseLimit(e) && !HasRow(regs, eventId, p)
  }

  /** What `placeMerchandiseOrder` decides once the merchandise event is
      loaded and its status derived at `now`: the checks in order, then the
      order row. The variant is looked up by the values as sent and stored
      trimmed, as is the proof path. An order
      holds no place until it is approved. */
  function Placement(e: Event, regs: seq<Registration>, eventId: EventId, p: UserId,
                     size: Option<string>, color: Option<string>, proofUrl: string, now: Time): (r: Result<Registration>)
    ensures r.Ok? ==> OrderAcceptable(e, regs, eventId, p, size, color, now)
    ensures r.Ok? ==> r.value == OrderRow(eventId, p, VariantKey(Trim(size.value), Trim(color.value)), Trim(proofUrl))
  {
    if e.status != Published then Err(BadRequest("Event not open"))
    else if now > e.registrationDeadline then Err(BadRequest("Deadline passed"))
    else if !Truthy(size) || !Truthy(color) then Err(BadRequest("Variant information required"))
    else match FindVariant(e.merchandise.variants, size.value, color.value)
      case None => Err(BadRequest("Invalid variant selected"))
      case Some(k) =>
        if e.merchandise.variants[k].stock <= 0 then Err(BadRequest("Selected variant is out of stock"))
        else if CountRegistered(regs, eventId, p) >= PurchaseLimit(e) then Err(BadRequest("Purchase limit reached"))
        else if HasRow(regs, eventId, p) then Err(ServerError(DuplicateKey))
        else Ok(OrderRow(eventId, p, VariantKey(Trim(size.value), Trim(color.value)), Trim(proofUrl)))
  }

  /** An order is accepted exactly when every check passes; each refusal
      carries the message of the first check that fails. */
  lemma PlacementAnswers(e: Event, regs: seq<Registration>, eventId: EventId, p: UserId,
                         size: Option<string>, color: Option<string>, proofUrl: string, now: Time)
    ensures Placement(e, regs, eventId, p, size, color, proofUrl, now).Ok? <==> OrderAcceptable(e, regs, eventId, p, size, color, now)
    ensures e.status != Published ==>
              Placement(e, regs, eventId, p, size, color, proofUrl, now) == Err(BadRequest("Event not open"))
    ensures e.status == Published && now > e.registrationDeadline ==>
              Placement(e, regs, eventId, p, size, color, proofUrl, now) == Err(BadRequest("Deadline passed"))
    ensures e.status == Published && now <= e.registrationDeadline && !(Truthy(size) && Truthy(color)) ==>
              Placement(e, regs, eventId, p, size, color, proofUrl, now) == Err(BadRequest("Variant information required"))
    ensures e.status == Published && now <= e.registrationDeadline && Truthy(size) && Truthy(color)
            && FindVariant(e.merchandise.variants, size.value, color.value).None? ==>
              Placement(e, regs, eventId, p, size, color, proofUrl, now) == Err(BadRequest("Invalid variant selected"))
    ensures e.status == Published && now <= e.registrationDeadline && Truthy(size) && Truthy(color)
            && FindVariant(e.merchandise.variants, size.value, color.value).Some? && !InStock(e, size.value, color.value) ==>
              Placement(e, regs, eventId, p, size, color, proofUrl, now) == Err(BadRequest("Selected variant is out of stock"))
    ensures e.status == Published && now <= e.registrationDeadline && Truthy(size) && Truthy(color)
            && InStock(e, size.value, color.value) && CountRegistered(regs, eventId, p) >= PurchaseLimit(e) ==>
              Placement(e, regs, eventId, p, size, color, proofUrl, now) == Err(BadRequest("Purchase limit reached"))
    ensures e.status == Published && now <= e.registrationDeadline && Truthy(size) && Truthy(color)
            && InStock(e, size.value, color.value) && CountRegistered(regs, eventId, p) < PurchaseLimit(e)
            && HasRow(regs, eventId, p) ==>
              Placement(e, regs, eventId, p, size, color, proofUrl, now) == Err(ServerError(DuplicateKey))
  {
  }

  /** An order is accepted only from a participant with no row for the
      event at all, whatever `purchaseLimitPerUser` allows: the unique index
      on (event, participant) refuses every second order, so a stored
      purchase limit (at least 1 by the schema) above one is never reached. */
  lemma OneOrderPerParticipant(e: Event, regs: seq<Registration>, eventId: EventId, p: UserId,
                               size: Option<string>, color: Option<string>, proofUrl: string, now: Time)
    requires Placement(e, regs, eventId, p, size, color, proofUrl, now).Ok?
    ensures CountRegistered(regs, eventId, p) == 0
    ensures SchemaValid(e) ==> 0 < PurchaseLimit(e) == e.merchandise.purchaseLimitPerUser
  {
  }

  // ---------------------------------------------------------------------
  // updateMerchandiseOrderStatus

  /** The event and the one row a handler saves together. */
  datatype RowChange = RowChange(event: Event, row: Registration)

  /** The index of the variant an order names, by its stored key. */
  function OrderVariant(e: Event, r: Registration): (k: Option<nat>)
    ensures k.Some? ==> r.variant.Some? && k.value < |e.merchandise.variants|
    ensures k.Some? ==> (e.merchandise.variants[k.value].size == r.variant.value.size
                         && e.merchandise.variants[k.value].color == r.variant.value.color)
  {
    match r.variant
    case None => None
    case Some(v) => FindVariant(e.merchandise.variants, v.size, v.color)
  }

  /** The review guard as `updateMerchandiseOrderStatus` writes it: the
      payment is pending, whatever the row's status. */
  predicate ReviewableAsWritten(reg: Registration) {
    reg.paymentStatus == PaymentPending
  }

  /** The review guard as intended: the payment is pending and the
      participant has not cancelled the order. */
  predicate Reviewable(reg: Registration) {
    reg.paymentStatus == PaymentPending && reg.status == Registered
  }

  /** The change a review saves: approval takes one unit of the ordered
      variant, raises the counter and issues the ticket, leaving the row's
      status as it was; rejection marks the row rejected and changes no
      counter. */
  predicate ReviewedAs(e: Event, reg: Registration, regs: seq<Registration>, regId: nat, action: string, ticket: string, c: RowChange) {
    && (action == "approve" || action == "reject")
    && (action == "approve" ==>
          && OrderVariant(e, reg).Some?
          && e.merchandise.variants[OrderVariant(e, reg).value].stock > 0
          && (e.registrationLimit != 0 ==> e.totalRegistrations < e.registrationLimit)
          && !TicketHeldElsewhere(regs, ticket, regId)
          && c.row == reg.(paymentStatus := PaymentApproved, ticketId := Some(ticket))
          && c.event == e.(merchandise := TakeOne(e.merchandise, OrderVariant(e, reg).value),
                           totalRegistrations := e.totalRegistrations + 1))
    && (action == "reject" ==> c == RowChange(e, reg.(paymentStatus := PaymentRejected, status := Rejected)))
  }

  /** The checks of `updateMerchandiseOrderStatus` after its pending guard,
      in order, and the change it saves. The row's `variant` is a nested
      path, so a row without one reads as an empty object that matches no
      variant (every variant has a size); `registrationLimit` is truthy
      whenever the schema holds. */
  function ReviewApply(e: Event, reg: Registration, regs: seq<Registration>, regId: nat, action: string, ticket: string)
    : (r: Result<RowChange>)
    ensures r.Ok? ==> (e.status == Published || e.status == Ongoing) && ReviewedAs(e, reg, regs, regId, action, ticket, r.value)
    ensures r.Ok? <==>
              && (e.status == Published || e.status == Ongoing) && OrderVariant(e, reg).Some?
              && (action == "reject" ||
                  (action == "approve" && (e.registrationLimit == 0 || e.totalRegistrations < e.registrationLimit)
                   && e.merchandise.variants[OrderVariant(e, reg).value].stock > 0
                   && !TicketHeldElsewhere(regs, ticket, regId)))
    ensures e.status != Published && e.status != Ongoing ==> r == Err(BadRequest("Event is not active"))
    ensures (e.status == Published || e.status == Ongoing) && OrderVariant(e, reg).None? ==>
              r == Err(BadRequest("Variant not found"))
    ensures (e.status == Published || e.status == Ongoing) && OrderVariant(e, reg).Some? && action == "approve"
            && e.registrationLimit != 0 && e.totalRegistrations >= e.registrationLimit ==>
              r == Err(BadRequest("Registration limit reached"))
    ensures (e.status == Published || e.status == Ongoing) && OrderVariant(e, reg).Some? && action == "approve"
            && (e.registrationLimit == 0 || e.totalRegistrations < e.registrationLimit)
            && e.merchandise.variants[OrderVariant(e, reg).value].stock <= 0 ==>
              r == Err(BadRequest("Stock exhausted"))
    ensures (e.status == Published || e.status == Ongoing) && OrderVariant(e, reg).Some?
            && action != "approve" && action != "reject" ==>
              r == Err(BadRequest("Invalid action"))
  {
    if e.status != Published && e.status != Ongoing then Err(BadRequest("Event is not active"))
    else match OrderVariant(e, reg)
      case None => Err(BadRequest("Variant not found"))
      case Some(k) =>
        if action == "approve" then
          if e.registrationLimit != 0 && e.totalRegistrations >= e.registrationLimit then
            Err(BadRequest("Registration limit reached"))
          else if e.merchandise.variants[k].stock <= 0 then Err(BadRequest("Stock exhausted"))
          else if TicketHeldElsewhere(regs, ticket, regId) then Err(ServerError(DuplicateKey))
          else Ok(RowChange(e.(merchandise := TakeOne(e.merchandise, k), totalRegistrations := e.totalRegistrations + 1),
                            reg.(paymentStatus := PaymentApproved, ticketId := Some(ticket))))
        else if action == "reject" then Ok(RowChange(e, reg.(paymentStatus := PaymentRejected, status := Rejected)))
        else Err(BadRequest("Invalid action"))
  }

  /** What `updateMerchandiseOrderStatus` decides for an order and its
      event (status derived at `now`), as written: only the organizer, and
      any order whose payment is pending, including one the participant
      has cancelled. */
  function ReviewAsWritten(e: Event, reg: Registration, regs: seq<Registration>, regId: nat, caller: UserId, action: string, ticket: string)
    : (r: Result<RowChange>)
    ensures r.Ok? ==> e.organizerId == caller && ReviewableAsWritten(reg) && (e.status == Published || e.status == Ongoing)
    ensures r.Ok? ==> ReviewedAs(e, reg, regs, regId, action, ticket, r.value) && !ReviewableAsWritten(r.value.row)
    ensures e.organizerId != caller ==> r == Err(Forbidden("Not authorized"))
    ensures e.organizerId == caller && !ReviewableAsWritten(reg) ==> r == Err(BadRequest("Order already processed"))
  {
    if e.organizerId != caller then Err(Forbidden("Not authorized"))
    else if !ReviewableAsWritten(reg) then Err(BadRequest("Order already processed"))
    else ReviewApply(e, reg, regs, regId, action, ticket)
  }

  /** The review as intended: a cancelled order is no longer reviewable. */
  function Review(e: Event, reg: Registration, regs: seq<Registration>, regId: nat, caller: UserId, action: string, ticket: string)
    : (r: Result<RowChange>)
    ensures r.Ok? ==> e.organizerId == caller && Reviewable(reg) && (e.status == Published || e.status == Ongoing)
    ensures r.Ok? ==> ReviewedAs(e, reg, regs, regId, action, ticket, r.value) && !Reviewable(r.value.row)
    ensures e.organizerId != caller ==> r == Err(Forbidden("Not authorized"))
    ensures e.organizerId == caller && !Reviewable(reg) ==> r == Err(BadRequest("Order already processed"))
    ensures Reviewable(reg) ==> r == ReviewAsWritten(e, reg, regs, regId, caller, action, ticket)
  {
    if e.organizerId != caller then Err(Forbidden("Not authorized"))
    else if !Reviewable(reg) then Err(BadRequest("Order already processed"))
    else ReviewApply(e, reg, regs, regId, action, ticket)
  }

  /** An order is reviewed at most once. */
  lemma ReviewOnce(e: Event, reg: Registration, regs: seq<Registration>, regId: nat, caller: UserId, action: string, ticket: string,
                   e2: Event, regs2: seq<Registration>, caller2: UserId, action2: string, ticket2: string)
    requires ReviewAsWritten(e, reg, regs, regId, caller, action, ticket).Ok?
    requires e2.organizerId == caller2
    ensures ReviewAsWritten(e2, ReviewAsWritten(e, reg, regs, regId, caller, action, ticket).value.row, regs2, regId, caller2, action2, ticket2)
         == Err(BadRequest("Order already processed"))
    ensures Review(e2, ReviewAsWritten(e, reg, regs, regId, caller, action, ticket).value.row, regs2, regId, caller2, action2, ticket2)
         == Err(BadRequest("Order already processed"))
  {
  }

  /** As written, a participant's order that was placed and then cancelled
      still passes the review guard, and approving it raises the counter and
      issues a ticket for a row that holds no place; the intended review
      refuses it. */
  lemma CancelledOrderReviewableAsWritten(eventId: EventId, p: UserId, key: VariantKey, proofPath: string,
                                          e2: Event, later: Time, e3: Event, regs3: seq<Registration>, regId: nat, ticket: string)
    requires CancelOutcomeAsWritten(e2, OrderRow(eventId, p, key, proofPath), p, later).Ok?
    ensures var row := CancelOutcomeAsWritten(e2, OrderRow(eventId, p, key, proofPath), p, later).value.row;
            && ReviewableAsWritten(row) && !Reviewable(row)
            && Review(e3, row, regs3, regId, e3.organizerId, "approve", ticket) == Err(BadRequest("Order already processed"))
            && ReviewAsWritten(e3, row, regs3, regId, e3.organizerId, "approve", ticket)
               == ReviewApply(e3, row, regs3, regId, "approve", ticket)
    ensures var row := CancelOutcomeAsWritten(e2, OrderRow(eventId, p, key, proofPath), p, later).value.row;
            var v := ReviewAsWritten(e3, row, regs3, regId, e3.organizerId, "approve", ticket);
            v.Ok? ==> v.value.event.totalRegistrations == e3.totalRegistrations + 1
                      && v.value.row.ticketId == Some(ticket) && !Counts(v.value.row, eventId)
  {
  }

  // ---------------------------------------------------------------------
  // markAttendance / manualAttendanceOverride

  /** The row a scan or override leaves: attended, with the audit fields,
      and nothing else changed. */
  function Attended(r: Registration, now: Time, marker: UserId, via: AttendanceMethod, note: string): (a: Registration)
    ensures a.attendanceStatus && a.attendance == Some(AttendanceRecord(now, marker, via, note))
    ensures a.(attendanceStatus := r.attendanceStatus, attendance := r.attendance) == r
  {
    r.(attendanceStatus := true, attendance := Some(AttendanceRecord(now, marker, via, note)))
  }

  const ScanNote := "Marked via QR scan"
  const OverrideNote := "Manual attendance override"

  lemma ScanNoteValid()
    ensures IsTrimmed(ScanNote) && JsLength(ScanNote) <= AuditNoteMaxLength
  {
  }

  /** What `markAttendance` decides for a ticket's row and its event
      (status derived at `now`): only the organizer, only while the event
      is ongoing, only a registered row not yet attended. */
  function ScanOutcome(e: Event, reg: Registration, caller: UserId, now: Time): (r: Result<Registration>)
    ensures r.Ok? <==> e.organizerId == caller && e.status == Ongoing && reg.status == Registered && !reg.attendanceStatus
    ensures r.Ok? ==> r.value == Attended(reg, now, caller, Scan, ScanNote) && RegistrationValid(r.value)
    ensures e.organizerId == caller && e.status == Ongoing && reg.status == Registered && reg.attendanceStatus ==>
              r == Err(BadRequest("Duplicate scan detected"))
  {
    if e.organizerId != caller then Err(Forbidden("Not authorized"))
    else if e.status != Ongoing then Err(BadRequest("Attendance allowed only during ongoing events"))
    else if reg.status != Registered then Err(BadRequest("Invalid registration status"))
    else if reg.attendanceStatus then Err(BadRequest("Duplicate scan detected"))
    else
      ScanNoteValid();
      Ok(Attended(reg, now, caller, Scan, ScanNote))
  }

  /** A ticket is admitted once: scanning the row a scan produced again is
      refused, by the same organizer as a duplicate. */
  lemma ScanOnce(e: Event, reg: Registration, caller: UserId, now: Time, later: Time)
    requires ScanOutcome(e, reg, caller, now).Ok?
    ensures ScanOutcome(e, ScanOutcome(e, reg, caller, now).value, caller, later) == Err(BadRequest("Duplicate scan detected"))
  {
  }

  /** The stored override note: the note sent if truthy, trimmed by the
      schema setter, else the default, which is already trimmed. */
  function OverrideText(note: Option<string>): (t: string)
    ensures IsTrimmed(t)
    ensures !Truthy(note) ==> t == OverrideNote
  {
    if Truthy(note) then
      TrimIsTrimmed(note.value);
      Trim(note.value)
    else OverrideNote
  }

  /** The stored note is the setter's trim of `note || "Manual attendance
      override"`. */
  lemma OverrideTextIsTrimmedChoice(note: Option<string>)
    ensures OverrideText(note) == Trim(if Truthy(note) then note.value else OverrideNote)
  {
    if !Truthy(note) {
      TrimOfTrimmed(OverrideNote);
    }
  }

  /** What `manualAttendanceOverride` decides: only the organizer, only while
      the event is ongoing; any row is marked attended, whatever its status
      or attendance, and a note longer than 1000 characters fails the save. */
  function OverrideOutcome(e: Event, reg: Registration, caller: UserId, note: Option<string>, now: Time): (r: Result<Registration>)
    ensures r.Ok? <==> e.organizerId == caller && e.status == Ongoing && JsLength(OverrideText(note)) <= AuditNoteMaxLength
    ensures r.Ok? ==> r.value == Attended(reg, now, caller, Manual, OverrideText(note)) && RegistrationValid(r.value)
    ensures e.organizerId == caller && e.status == Ongoing && JsLength(OverrideText(note)) > AuditNoteMaxLength ==>
              r == Err(ServerError(ValidationFailed))
  {
    if e.organizerId != caller then Err(Forbidden("Not authorized"))
    else if e.status != Ongoing then Err(BadRequest("Manual override allowed only during ongoing events"))
    else if JsLength(OverrideText(note)) > AuditNoteMaxLength then Err(ServerError(ValidationFailed))
    else Ok(Attended(reg, now, caller, Manual, OverrideText(note)))
  }

  // ---------------------------------------------------------------------
  // cancelRegistration

  /** Whether cancelling gives a place back, as `cancelRegistration` writes
      the test: a positive counter and a registered row whose payment was
      not rejected, which includes an order whose payment is still pending. */
  predicate ReleasesPlaceAsWritten(e: Event, reg: Registration) {
    e.totalRegistrations > 0 && reg.status == Registered && reg.paymentStatus != PaymentRejected
  }

  /** The test as intended: only a row that holds a place gives one back. */
  predicate ReleasesPlace(e: Event, reg: Registration) {
    e.totalRegistrations > 0 && reg.status == Registered
    && reg.paymentStatus != PaymentRejected && reg.paymentStatus != PaymentPending
  }

  /** The checks `cancelRegistration` makes before it saves, in order:
      only the participant, only before the start (the event as stored, its
      derived status not written back), never an approved payment, never
      twice. `None` when every check passes. */
  function CancelRefusal(e: Event, reg: Registration, caller: UserId, now: Time): (r: Option<Error>)
    ensures r.None? <==> reg.participantId == caller && now < e.startDate && reg.paymentStatus != PaymentApproved && reg.status != Cancelled
    ensures reg.participantId != caller ==> r == Some(Forbidden("Not authorized"))
    ensures reg.participantId == caller && e.startDate <= now ==> r == Some(BadRequest("Cannot cancel after event has started"))
    ensures reg.participantId == caller && now < e.startDate && reg.paymentStatus == PaymentApproved ==>
              r == Some(BadRequest("Approved merchandise/paid tickets cannot be cancelled via app. Contact support."))
    ensures reg.participantId == caller && now < e.startDate && reg.paymentStatus != PaymentApproved && reg.status == Cancelled ==>
              r == Some(BadRequest("Already cancelled"))
  {
    if reg.participantId != caller then Some(Forbidden("Not authorized"))
    else if e.startDate <= now then Some(BadRequest("Cannot cancel after event has started"))
    else if reg.paymentStatus == PaymentApproved then
      Some(BadRequest("Approved merchandise/paid tickets cannot be cancelled via app. Contact support."))
    else if reg.status == Cancelled then Some(BadRequest("Already cancelled"))
    else None
  }

  /** What `cancelRegistration` decides for a row and its event, as
      written: the row becomes cancelled and the counter goes down by one
      when `ReleasesPlaceAsWritten` holds, which includes a pending order
      that never held a place. */
  function CancelOutcomeAsWritten(e: Event, reg: Registration, caller: UserId, now: Time): (r: Result<RowChange>)
    ensures r.Ok? <==> CancelRefusal(e, reg, caller, now).None?
    ensures r.Err? ==> CancelRefusal(e, reg, caller, now) == Some(r.error)
    ensures r.Ok? ==> r.value.row == reg.(status := Cancelled) && !Counts(r.value.row, reg.eventId)
    ensures r.Ok? ==> r.value.event == e.(totalRegistrations := r.value.event.totalRegistrations)
    ensures r.Ok? ==> e.totalRegistrations - 1 <= r.value.event.totalRegistrations <= e.totalRegistrations
    ensures r.Ok? && e.totalRegistrations >= 0 ==> r.value.event.totalRegistrations >= 0
    ensures r.Ok? ==> (r.value.event.totalRegistrations < e.totalRegistrations <==> ReleasesPlaceAsWritten(e, reg))
  {
    match CancelRefusal(e, reg, caller, now)
    case Some(err) => Err(err)
    case None =>
      var e' := if ReleasesPlaceAsWritten(e, reg) then e.(totalRegistrations := e.totalRegistrations - 1) else e;
      Ok(RowChange(e', reg.(status := Cancelled)))
  }

  /** The cancellation as intended: the counter gives back the row's place
      exactly when the row held one. It differs from the handler as written
      only on a registered row whose payment is pending. */
  function CancelOutcome(e: Event, reg: Registration, caller: UserId, now: Time): (r: Result<RowChange>)
    ensures r.Ok? <==> reg.participantId == caller && now < e.startDate && reg.paymentStatus != PaymentApproved && reg.status != Cancelled
    ensures r.Ok? ==> r.value.row == reg.(status := Cancelled) && !Counts(r.value.row, reg.eventId)
    ensures r.Ok? ==> r.value.event == e.(totalRegistrations := r.value.event.totalRegistrations)
    ensures r.Ok? ==> e.totalRegistrations - 1 <= r.value.event.totalRegistrations <= e.totalRegistrations
    ensures r.Ok? && e.totalRegistrations >= 0 ==> r.value.event.totalRegistrations >= 0
    ensures r.Ok? ==> (r.value.event.totalRegistrations < e.totalRegistrations <==>
                       e.totalRegistrations > 0 && Counts(reg, reg.eventId))
    ensures !(reg.status == Registered && reg.paymentStatus == PaymentPending) ==> r == CancelOutcomeAsWritten(e, reg, caller, now)
  {
    match CancelRefusal(e, reg, caller, now)
    case Some(err) => Err(err)
    case None =>
      var e' := if ReleasesPlace(e, reg) then e.(totalRegistrations := e.totalRegistrations - 1) else e;
      Ok(RowChange(e', reg.(status := Cancelled)))
  }

  /** As written, cancelling a pending order lowers the counter although the
      order holds no place: starting from a counter equal to the number of
      places held, the counter ends one below the places still held. */
  lemma PendingCancelMiscountsAsWritten(e: Event, regs: seq<Registration>, i: nat, now: Time)
    requires i < |regs| && e.totalRegistrations == Counted(regs, regs[i].eventId) && e.totalRegistrations > 0
    requires regs[i].status == Registered && regs[i].paymentStatus == PaymentPending && now < e.startDate
    ensures ReleasesPlaceAsWritten(e, regs[i]) && !ReleasesPlace(e, regs[i])
    ensures var c := CancelOutcomeAsWritten(e, regs[i], regs[i].participantId, now);
            && c.Ok?
            && c.value.event.totalRegistrations + 1 == Counted(regs[i := c.value.row], regs[i].eventId)
  {
    CountedReplace(regs, i, regs[i].(status := Cancelled), regs[i].eventId);
  }

  // ---------------------------------------------------------------------
  // Counters and places

  /** Admitting a registration and raising the counter by one keeps every
      counter equal to the places held. */
  lemma AdmissionCounts(events: map<EventId, Event>, regs: seq<Registration>, eventId: EventId, p: UserId, ticket: string, now: Time)
    requires PlacesCounted(events, regs) && eventId in events
    requires Admission(Synced(events[eventId], now), regs, eventId, p, ticket, now).Ok?
    ensures var e := Synced(events[eventId], now);
            PlacesCounted(events[eventId := e.(totalRegistrations := e.totalRegistrations + 1)],
                          regs + [Admission(e, regs, eventId, p, ticket, now).value])
  {
    var e := Synced(events[eventId], now);
    InsertRowCounts(events, regs, Admission(e, regs, eventId, p, ticket, now).value,
                    e.(totalRegistrations := e.totalRegistrations + 1));
  }

  /** Inserting the order row `Placement` accepts, which holds no place,
      and leaving the counter alone (the event only has its derived status
      written back) keeps every counter equal to the places held. */
  lemma PlacementCounts(events: map<EventId, Event>, regs: seq<Registration>, eventId: EventId, p: UserId,
                        key: VariantKey, proofPath: string, now: Time)
    requires PlacesCounted(events, regs) && eventId in events
    ensures PlacesCounted(events[eventId := Synced(events[eventId], now)], regs + [OrderRow(eventId, p, key, proofPath)])
  {
    InsertRowCounts(events, regs, OrderRow(eventId, p, key, proofPath), Synced(events[eventId], now));
  }

  /** Marking a row attended moves no place. */
  lemma AttendedCounts(events: map<EventId, Event>, regs: seq<Registration>, i: nat, e: Event,
                       now: Time, marker: UserId, via: AttendanceMethod, note: string)
    requires PlacesCounted(events, regs) && i < |regs| && regs[i].eventId in events
    requires e.totalRegistrations == events[regs[i].eventId].totalRegistrations
    ensures PlacesCounted(events[regs[i].eventId := e], regs[i := Attended(regs[i], now, marker, via, note)])
  {
    SaveRowCounts(events, regs, i, Attended(regs[i], now, marker, via, note), e);
  }

  /** The intended review keeps every counter equal to the places held:
      approval turns a registered pending order into a place and raises the
      counter; rejection moves neither. */
  lemma ReviewCounts(events: map<EventId, Event>, regs: seq<Registration>, regId: nat,
                     caller: UserId, action: string, ticket: string, now: Time)
    requires PlacesCounted(events, regs) && regId < |regs| && regs[regId].eventId in events
    requires Review(Synced(events[regs[regId].eventId], now), regs[regId], regs, regId, caller, action, ticket).Ok?
    ensures var id := regs[regId].eventId;
            var v := Review(Synced(events[id], now), regs[regId], regs, regId, caller, action, ticket).value;
            PlacesCounted(events[id := v.event], regs[regId := v.row])
  {
    var id := regs[regId].eventId;
    var v := Review(Synced(events[id], now), regs[regId], regs, regId, caller, action, ticket).value;
    SaveRowCounts(events, regs, regId, v.row, v.event);
  }

  /** The review as written keeps every counter equal to the places held
      as long as the order was not cancelled. */
  lemma ReviewAsWrittenCounts(events: map<EventId, Event>, regs: seq<Registration>, regId: nat,
                              caller: UserId, action: string, ticket: string, now: Time)
    requires PlacesCounted(events, regs) && regId < |regs| && regs[regId].eventId in events
    requires ReviewAsWritten(Synced(events[regs[regId].eventId], now), regs[regId], regs, regId, caller, action, ticket).Ok?
    requires regs[regId].status == Registered
    ensures var id := regs[regId].eventId;
            var v := ReviewAsWritten(Synced(events[id], now), regs[regId], regs, regId, caller, action, ticket).value;
            PlacesCounted(events[id := v.event], regs[regId := v.row])
  {
    ReviewCounts(events, regs, regId, caller, action, ticket, now);
  }

  /** The intended cancellation keeps every counter equal to the places
      held. */
  lemma CancelCounts(events: map<EventId, Event>, regs: seq<Registration>, regId: nat, caller: UserId, now: Time)
    requires PlacesCounted(events, regs) && regId < |regs| && regs[regId].eventId in events
    requires CancelOutcome(events[regs[regId].eventId], regs[regId], caller, now).Ok?
    ensures var id := regs[regId].eventId;
            var c := CancelOutcome(events[id], regs[regId], caller, now).value;
            PlacesCounted(events[id := c.event], regs[regId := c.row])
  {
    var id := regs[regId].eventId;
    var c := CancelOutcome(events[id], regs[regId], caller, now).value;
    if Counts(regs[regId], id) {
      assert Tallied(events, regs, id);
      CountedPositive(regs, regId, id);
    }
    SaveRowCounts(events, regs, regId, c.row, c.event);
  }

  /** The cancellation as written keeps every counter equal to the places
      held unless the row is a registered order whose payment is pending. */
  lemma CancelAsWrittenCounts(events: map<EventId, Event>, regs: seq<Registration>, regId: nat, caller: UserId, now: Time)
    requires PlacesCounted(events, regs) && regId < |regs| && regs[regId].eventId in events
    requires CancelOutcomeAsWritten(events[regs[regId].eventId], regs[regId], caller, now).Ok?
    requires !(regs[regId].status == Registered && regs[regId].paymentStatus == PaymentPending)
    ensures var id := regs[regId].eventId;
            var c := CancelOutcomeAsWritten(events[id], regs[regId], caller, now).value;
            PlacesCounted(events[id := c.event], regs[regId := c.row])
  {
    CancelCounts(events, regs, regId, caller, now);
  }

  /** As written, the registration limit can be exceeded without any
      concurrency: in an event that is full, a participant cancels a
      pending order, which lowers the counter, and the organizer then
      approves another pending order, which the limit check now lets
      through. The states are the ones `cancelRegistration` and then
      `updateMerchandiseOrderStatus` save: the counter reads the limit while
      one row more than the limit holds a place. */
  lemma PendingCancelOversellsAsWritten(events: map<EventId, Event>, regs: seq<Registration>, i: nat, j: nat,
                                        ticket: string, now: Time)
    requires PlacesCounted(events, regs) && i < |regs| && j < |regs| && i != j
    requires regs[i].eventId in events && regs[j].eventId == regs[i].eventId
    requires var e := events[regs[i].eventId];
             && e.status == Published && now < e.startDate && now <= e.endDate
             && 0 < e.totalRegistrations == e.registrationLimit
             && OrderVariant(e, regs[j]).Some? && e.merchandise.variants[OrderVariant(e, regs[j]).value].stock > 0
    requires regs[i].status == Registered && regs[i].paymentStatus == PaymentPending
    requires regs[j].status == Registered && regs[j].paymentStatus == PaymentPending
    requires !TicketHeldElsewhere(regs, ticket, j)
    ensures var id := regs[i].eventId;
            var c := CancelOutcomeAsWritten(events[id], regs[i], regs[i].participantId, now);
            && c.Ok?
            && (var events1 := events[id := c.value.event];
                var regs1 := regs[i := c.value.row];
                var v := ReviewAsWritten(Synced(events1[id], now), regs1[j], regs1, j, events[id].organizerId, "approve", ticket);
                && v.Ok?
                && (var events2 := events1[id := v.value.event];
                    var regs2 := regs1[j := v.value.row];
                    && events2[id].totalRegistrations == events2[id].registrationLimit
                    && Counted(regs2, id) == events2[id].registrationLimit + 1))
  {
    var id := regs[i].eventId;
    var e := events[id];
    assert Tallied(events, regs, id);
    var c := CancelOutcomeAsWritten(e, regs[i], regs[i].participantId, now);
    var regs1 := regs[i := c.value.row];
    CountedReplace(regs, i, c.value.row, id);
    assert forall k :: 0 <= k < |regs| ==> regs1[k].ticketId == regs[k].ticketId;
    assert regs1[j] == regs[j];
    var e1 := Synced(c.value.event, now);
    assert e1 == c.value.event;
    var v := ReviewAsWritten(e1, regs1[j], regs1, j, e.organizerId, "approve", ticket);
    assert v.Ok?;
    CountedReplace(regs1, j, v.value.row, id);
  }
}
