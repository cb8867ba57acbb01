/** The request handlers of backend/controllers/eventController.js that
    change the event and registration collections, over an in-memory
    store. Every handler takes the caller, the request body and the
    current instant `now`; ids, tickets and upload names that the server
    would generate are passed in. Each handler loads what it needs, writes
    back the derived status, lets the matching decision function of
    `EventDecisions` answer, and saves what that function returns. */
module EventWorkflows {
  import opened Common
  import opened Text
  import opened EventModel
  import opened RegistrationModel
  import opened EventLifecycle
  import opened EventQueries
  import opened StoreState
  import opened EventDecisions

  /** What `getMyRegistrations` answers: the participant's rows by shelf
      and by event type. */
  datatype Shelves = Shelves(
    upcoming: seq<RegistrationId>,
    completed: seq<RegistrationId>,
    cancelled: seq<RegistrationId>,
    normal: seq<RegistrationId>,
    merchandise: seq<RegistrationId>)

  /** The events of the participant's first `n` listed rows. */
  function EventsOfRows(regs: seq<Registration>, events: map<EventId, Event>, p: UserId, n: nat): set<EventId>
    requires n <= |regs|
  {
    if n == 0 then {}
    else EventsOfRows(regs, events, p, n - 1) + (if Listed(regs, events, p, n - 1) then {regs[n - 1].eventId} else {})
  }

  /** Row `i` added to the shelf its status and its event's end select,
      and to the list of its event's type. */
  function Shelve(b: Shelves, i: RegistrationId, r: Registration, e: Event, now: Time): Shelves {
    var s := ShelfOf(r, e, now);
    Shelves(
      if s == UpcomingShelf then b.upcoming + [i] else b.upcoming,
      if s == CompletedShelf then b.completed + [i] else b.completed,
      if s == CancelledShelf then b.cancelled + [i] else b.cancelled,
      if e.eventType == Normal then b.normal + [i] else b.normal,
      if e.eventType == Merchandise then b.merchandise + [i] else b.merchandise)
  }

  /** The shelves hold exactly the participant's first `n` listed rows, in
      store order, by shelf and by event type. */
  predicate ShelvedUpTo(b: Shelves, regs: seq<Registration>, events: map<EventId, Event>, p: UserId, now: Time, n: nat)
    requires n <= |regs|
  {
    && b.upcoming == ShelfIds(regs, events, p, now, UpcomingShelf, n)
    && b.completed == ShelfIds(regs, events, p, now, CompletedShelf, n)
    && b.cancelled == ShelfIds(regs, events, p, now, CancelledShelf, n)
    && b.normal == TypeIds(regs, events, p, Normal, n)
    && b.merchandise == TypeIds(regs, events, p, Merchandise, n)
  }

  /** A row that is not listed leaves the shelves as they are. */
  lemma ShelveSkip(b: Shelves, regs: seq<Registration>, events: map<EventId, Event>, p: UserId, now: Time, n: nat)
    requires n < |regs| && ShelvedUpTo(b, regs, events, p, now, n) && !Listed(regs, events, p, n)
    ensures ShelvedUpTo(b, regs, events, p, now, n + 1)
  {
  }

  /** Shelving listed row `n` extends the shelves from the first `n` rows
      to the first `n + 1`; an event that only had its status written back
      shelves the row as the stored one does. */
  lemma ShelveStep(b: Shelves, regs: seq<Registration>, events: map<EventId, Event>, p: UserId, now: Time, n: nat, e: Event)
    requires n < |regs| && ShelvedUpTo(b, regs, events, p, now, n) && Listed(regs, events, p, n)
    requires e.eventType == events[regs[n].eventId].eventType && e.endDate == events[regs[n].eventId].endDate
    ensures ShelvedUpTo(Shelve(b, n, regs[n], e, now), regs, events, p, now, n + 1)
  {
  }

  /** The ids of the first `i` events of `ids`. */
  lemma PrefixStep(ids: seq<EventId>, i: nat)
    requires i < |ids|
    ensures (set x {:trigger x in ids[..i + 1]} | x in ids[..i + 1]) == (set x | x in ids[..i]) + {ids[i]}
  {
    assert ids[..i + 1] == ids[..i] + [ids[i]];
  }

  /** The event and registration collections. A registration's id is its
      position in `registrations`, which only grows. */
  class EventStore {
    var events: map<EventId, Event>
    var order: seq<EventId>
    var registrations: seq<Registration>

    ghost predicate Valid()
      reads this
    {
      StoreInvariant(events, order, registrations)
    }

    constructor ()
      ensures Valid()
      ensures events == map[] && order == [] && registrations == []
    {
      events := map[];
      order := [];
      registrations := [];
    }

    /** `updateEventStatus`: writes back the status derived at `now`. */
    method UpdateEventStatus(id: EventId, now: Time)
      requires Valid() && id in events
      modifies this
      ensures Valid()
      ensures events == old(events)[id := Synced(old(events)[id], now)]
      ensures order == old(order) && registrations == old(registrations)
    {
      var e := events[id];
      var status := e.status;
      var changed := false;
      if status == Published && e.startDate <= now {
        status := Ongoing;
        changed := true;
      }
      if (status == Published || status == Ongoing) && e.endDate < now {
        status := Completed;
        changed := true;
      }
      assert status == DeriveStatus(e.status, e.startDate, e.endDate, now);
      if changed {
        assert Stored(events, id);
        SaveEventKeeps(events, order, registrations, id, e.(status := status));
        events := events[id := e.(status := status)];
      } else {
        MapSelfUpdate(events, id);
      }
    }

    /** `createEvent`: the checks in order, then a draft stored under the
        fresh `id` if the schema validators accept it. */
    method CreateEvent(id: EventId, organizer: UserId, inp: EventInput) returns (r: Result<EventId>)
      requires Valid() && id !in events
      modifies this
      ensures Valid()
      ensures registrations == old(registrations)
      ensures CreateEventCheck(inp).Err? ==>
                r == Err(CreateEventCheck(inp).error) && events == old(events) && order == old(order)
      ensures CreateEventCheck(inp).Ok? ==>
                var e := NewEvent(inp, CreateEventCheck(inp).value, organizer);
                && (SchemaValid(e) ==> r == Ok(id) && events == old(events)[id := e] && order == old(order) + [id])
                && (!SchemaValid(e) ==> r == Err(ServerError(ValidationFailed)) && events == old(events) && order == old(order))
    {
      var check := CreateEventCheck(inp);
      if check.Err? {
        r := Err(check.error);
      } else {
        var e := NewEvent(inp, check.value, organizer);
        if !SchemaValid(e) {
          r := Err(ServerError(ValidationFailed));
        } else {
          AddEventKeeps(events, order, registrations, id, e);
          events := events[id := e];
          order := order + [id];
          r := Ok(id);
        }
      }
    }

    /** `publishEvent`: only the owner, only from draft; the derived status
        is written back right after. */
    method PublishEvent(id: EventId, caller: UserId, now: Time) returns (r: Result<Event>)
      requires Valid()
      modifies this
      ensures Valid()
      ensures order == old(order) && registrations == old(registrations)
      ensures id !in old(events) ==> r == Err(NotFound("Event not found")) && events == old(events)
      ensures id in old(events) && old(events)[id].organizerId != caller ==>
                r == Err(Forbidden("Not authorized")) && events == old(events)
      ensures id in old(events) && old(events)[id].organizerId == caller && old(events)[id].status != Draft ==>
                r == Err(BadRequest("Only draft events can be published")) && events == old(events)
      ensures id in old(events) && old(events)[id].organizerId == caller && old(events)[id].status == Draft ==>
                var e := Synced(old(events)[id].(status := Published), now);
                r == Ok(e) && events == old(events)[id := e]
    {
      if id !in events {
        return Err(NotFound("Event not found"));
      }
      var e := events[id];
      if e.organizerId != caller {
        return Err(Forbidden("Not authorized"));
      }
      if e.status != Draft {
        return Err(BadRequest("Only draft events can be published"));
      }
      assert Stored(events, id);
      SaveEventKeeps(events, order, registrations, id, e.(status := Published));
      events := events[id := e.(status := Published)];
      UpdateEventStatus(id, now);
      r := Ok(events[id]);
    }

    /** `deleteEvent`: only the owner, only a draft. */
    method DeleteEvent(id: EventId, caller: UserId) returns (r: Result<()>)
      requires Valid()
      modifies this
      ensures Valid()
      ensures registrations == old(registrations)
      ensures id !in old(events) ==> r == Err(NotFound("Event not found")) && events == old(events) && order == old(order)
      ensures id in old(events) && old(events)[id].organizerId != caller ==>
                r == Err(Forbidden("Not authorized")) && events == old(events) && order == old(order)
      ensures id in old(events) && old(events)[id].organizerId == caller && old(events)[id].status != Draft ==>
                r == Err(BadRequest("Only draft events can be deleted")) && events == old(events) && order == old(order)
      ensures id in old(events) && old(events)[id].organizerId == caller && old(events)[id].status == Draft ==>
                r == Ok(()) && events == old(events) - {id} && order == RemoveAll(old(order), id)
    {
      if id !in events {
        return Err(NotFound("Event not found"));
      }
      var e := events[id];
      if e.organizerId != caller {
        return Err(Forbidden("Not authorized"));
      }
      if e.status != Draft {
        return Err(BadRequest("Only draft events can be deleted"));
      }
      RemoveEventKeeps(events, order, registrations, id);
      events := events - {id};
      order := RemoveAll(order, id);
      r := Ok(());
    }

    /** `editEvent`: owner only; then the edit the event's derived status
        allows. Every refusal after the ownership check still leaves the
        derived status written back. */
    method EditEvent(id: EventId, caller: UserId, u: EventUpdate, now: Time) returns (r: Result<Event>)
      requires Valid()
      modifies this
      ensures Valid()
      ensures order == old(order) && registrations == old(registrations)
      ensures id !in old(events) ==> r == Err(NotFound("Event not found")) && events == old(events)
      ensures id in old(events) && old(events)[id].organizerId != caller ==>
                r == Err(Forbidden("Not authorized")) && events == old(events)
      ensures id in old(events) && old(events)[id].organizerId == caller ==>
                var e := Synced(old(events)[id], now);
                && r == EditOutcome(e, u)
                && events == old(events)[id := if r.Ok? then r.value else e]
    {
      if id !in events {
        return Err(NotFound("Event not found"));
      }
      if events[id].organizerId != caller {
        return Err(Forbidden("Not authorized"));
      }
      UpdateEventStatus(id, now);
      var e := events[id];
      assert Stored(events, id);
      r := EditOutcome(e, u);
      if r.Ok? {
        EditKeepsEventOk(e, u);
        SaveEventKeeps(events, order, registrations, id, r.value);
        events := events[id := r.value];
      }
    }

    /** `registerForEvent`: the event's derived status written back, then
        what `Admission` decides; an admitted row is inserted and the
        counter raised by exactly one. */
    method RegisterForEvent(eventId: EventId, participant: UserId, ticket: string, now: Time) returns (r: Result<RegistrationId>)
      requires Valid()
      modifies this
      ensures Valid()
      ensures order == old(order)
      ensures eventId !in old(events) ==>
                r == Err(NotFound("Event not found")) && events == old(events) && registrations == old(registrations)
      ensures eventId in old(events) ==>
                var e := Synced(old(events)[eventId], now);
                var a := Admission(e, old(registrations), eventId, participant, ticket, now);
                && (a.Err? ==> r == Err(a.error) && registrations == old(registrations) && events == old(events)[eventId := e])
                && (a.Ok? ==>
                      && r == Ok(|old(registrations)|)
                      && registrations == old(registrations) + [a.value]
                      && events == old(events)[eventId := e.(totalRegistrations := e.totalRegistrations + 1)])
    {
      if eventId !in events {
        return Err(NotFound("Event not found"));
      }
      UpdateEventStatus(eventId, now);
      var e := events[eventId];
      var admitted := Admission(e, registrations, eventId, participant, ticket, now);
      if admitted.Err? {
        r := Err(admitted.error);
      } else {
        assert Stored(events, eventId);
        var bumped := e.(totalRegistrations := e.totalRegistrations + 1);
        InsertRowKeeps(events, order, registrations, admitted.value, bumped);
        r := Ok(|registrations|);
        registrations := registrations + [admitted.value];
        events := events[eventId := bumped];
      }
    }

    /** `placeMerchandiseOrder`: the upload, the variant body and the event
        type are checked first; then the derived status is written back and
        `Placement` decides. An accepted order is inserted; stock and
        counter are left alone until the order is approved. */
    method PlaceMerchandiseOrder(eventId: EventId, participant: UserId, upload: Option<string>, variant: VariantBody, now: Time)
      returns (r: Result<RegistrationId>)
      requires Valid()
      modifies this
      ensures Valid()
      ensures order == old(order)
      ensures upload.None? ==>
                r == Err(BadRequest("Payment proof image is required")) && events == old(events) && registrations == old(registrations)
      ensures upload.Some? && variant.Malformed? ==>
                r == Err(BadRequest("Invalid variant format")) && events == old(events) && registrations == old(registrations)
      ensures upload.Some? && variant.Parsed? && eventId !in old(events) ==>
                r == Err(NotFound("Event not found")) && events == old(events) && registrations == old(registrations)
      ensures upload.Some? && variant.Parsed? && eventId in old(events) && old(events)[eventId].eventType != Merchandise ==>
                r == Err(BadRequest("Not a merchandise event")) && events == old(events) && registrations == old(registrations)
      ensures upload.Some? && variant.Parsed? && eventId in old(events) && old(events)[eventId].eventType == Merchandise ==>
                var e := Synced(old(events)[eventId], now);
                var p := Placement(e, old(registrations), eventId, participant, variant.size, variant.color, "/uploads/" + upload.value, now);
                && events == old(events)[eventId := e]
                && (p.Err? ==> r == Err(p.error) && registrations == old(registrations))
                && (p.Ok? ==> r == Ok(|old(registrations)|) && registrations == old(registrations) + [p.value])
    {
      if upload.None? {
        r := Err(BadRequest("Payment proof image is required"));
      } else if variant.Malformed? {
        r := Err(BadRequest("Invalid variant format"));
      } else if eventId !in events {
        r := Err(NotFound("Event not found"));
      } else if events[eventId].eventType != Merchandise {
        r := Err(BadRequest("Not a merchandise event"));
      } else {
        var proofUrl := "/uploads/" + upload.value;
        UpdateEventStatus(eventId, now);
        var e := events[eventId];
        var placed := Placement(e, registrations, eventId, participant, variant.size, variant.color, proofUrl, now);
        if placed.Err? {
          r := Err(placed.error);
        } else {
          InsertPendingRowKeeps(events, order, registrations, placed.value);
          r := Ok(|registrations|);
          registrations := registrations + [placed.value];
        }
      }
    }

    /** `updateMerchandiseOrderStatus`: the order's event has its derived
        status written back, then `ReviewAsWritten` decides, and the event
        and the order are saved as it says. */
    method UpdateMerchandiseOrderStatus(regId: RegistrationId, caller: UserId, action: string, ticket: string, now: Time)
      returns (r: Result<Registration>)
      requires Valid()
      modifies this
      ensures Valid()
      ensures order == old(order)
      ensures regId >= |old(registrations)| ==>
                r == Err(NotFound("Order not found")) && events == old(events) && registrations == old(registrations)
      ensures regId < |old(registrations)| ==>
                var reg := old(registrations)[regId];
                reg.eventId in old(events) &&
                var e := Synced(old(events)[reg.eventId], now);
                var v := ReviewAsWritten(e, reg, old(registrations), regId, caller, action, ticket);
                && (v.Err? ==> r == Err(v.error) && registrations == old(registrations) && events == old(events)[reg.eventId := e])
                && (v.Ok? ==>
                      && r == Ok(v.value.row)
                      && registrations == old(registrations)[regId := v.value.row]
                      && events == old(events)[reg.eventId := v.value.event])
    {
      if regId >= |registrations| {
        return Err(NotFound("Order not found"));
      }
      var reg := registrations[regId];
      assert RowOk(events, registrations[regId]);
      UpdateEventStatus(reg.eventId, now);
      var e := events[reg.eventId];
      var reviewed := ReviewAsWritten(e, reg, registrations, regId, caller, action, ticket);
      if reviewed.Err? {
        r := Err(reviewed.error);
      } else {
        assert Stored(events, reg.eventId);
        if action == "approve" {
          TakeOneKeepsVariantsValid(e.merchandise, OrderVariant(e, reg).value);
        }
        SaveRowKeeps(events, order, registrations, regId, reviewed.value.row, reviewed.value.event);
        registrations := registrations[regId := reviewed.value.row];
        events := events[reg.eventId := reviewed.value.event];
        r := Ok(reviewed.value.row);
      }
    }

    /** `markAttendance`: the ticket's row is looked up, its event has its
        derived status written back, and `ScanOutcome` decides. */
    method MarkAttendance(ticket: Option<string>, caller: UserId, now: Time) returns (r: Result<Registration>)
      requires Valid()
      modifies this
      ensures Valid()
      ensures order == old(order)
      ensures !Truthy(ticket) ==>
                r == Err(BadRequest("Ticket ID required")) && events == old(events) && registrations == old(registrations)
      ensures Truthy(ticket) && !TicketInUse(old(registrations), ticket.value) ==>
                r == Err(NotFound("Invalid ticket")) && events == old(events) && registrations == old(registrations)
      ensures Truthy(ticket) && TicketInUse(old(registrations), ticket.value) ==>
                var i := FindByTicket(old(registrations), ticket.value).value;
                var reg := old(registrations)[i];
                reg.eventId in old(events) &&
                var e := Synced(old(events)[reg.eventId], now);
                var s := ScanOutcome(e, reg, caller, now);
                && events == old(events)[reg.eventId := e]
                && r == s
                && registrations == (if s.Ok? then old(registrations)[i := s.value] else old(registrations))
    {
      if !Truthy(ticket) {
        return Err(BadRequest("Ticket ID required"));
      }
      var found := FindByTicket(registrations, ticket.value);
      if found.None? {
        return Err(NotFound("Invalid ticket"));
      }
      var i := found.value;
      var reg := registrations[i];
      assert RowOk(events, registrations[i]);
      UpdateEventStatus(reg.eventId, now);
      var e := events[reg.eventId];
      r := ScanOutcome(e, reg, caller, now);
      if r.Ok? {
        assert Stored(events, reg.eventId);
        SaveRowKeeps(events, order, registrations, i, r.value, e);
        MapSelfUpdate(events, reg.eventId);
        registrations := registrations[i := r.value];
      }
    }

    /** `manualAttendanceOverride`: the row's event has its derived status
        written back, then `OverrideOutcome` decides. */
    method ManualAttendanceOverride(regId: RegistrationId, caller: UserId, note: Option<string>, now: Time) returns (r: Result<Registration>)
      requires Valid()
      modifies this
      ensures Valid()
      ensures order == old(order)
      ensures regId >= |old(registrations)| ==>
                r == Err(NotFound("Registration not found")) && events == old(events) && registrations == old(registrations)
      ensures regId < |old(registrations)| ==>
                var reg := old(registrations)[regId];
                reg.eventId in old(events) &&
                var e := Synced(old(events)[reg.eventId], now);
                var o := OverrideOutcome(e, reg, caller, note, now);
                && events == old(events)[reg.eventId := e]
                && r == o
                && registrations == (if o.Ok? then old(registrations)[regId := o.value] else old(registrations))
    {
      if regId >= |registrations| {
        return Err(NotFound("Registration not found"));
      }
      var reg := registrations[regId];
      assert RowOk(events, registrations[regId]);
      UpdateEventStatus(reg.eventId, now);
      var e := events[reg.eventId];
      r := OverrideOutcome(e, reg, caller, note, now);
      if r.Ok? {
        assert Stored(events, reg.eventId);
        SaveRowKeeps(events, order, registrations, regId, r.value, e);
        MapSelfUpdate(events, reg.eventId);
        registrations := registrations[regId := r.value];
      }
    }

    /** `cancelRegistration`: `CancelOutcomeAsWritten` decides on the event as
        stored (its derived status is not written back), and the event and
        the row are saved as it says. */
    method CancelRegistration(regId: RegistrationId, caller: UserId, now: Time) returns (r: Result<()>)
      requires Valid()
      modifies this
      ensures Valid()
      ensures order == old(order)
      ensures regId >= |old(registrations)| ==>
                r == Err(NotFound("Registration not found")) && events == old(events) && registrations == old(registrations)
      ensures regId < |old(registrations)| ==>
                var reg := old(registrations)[regId];
                reg.eventId in old(events) &&
                var c := CancelOutcomeAsWritten(old(events)[reg.eventId], reg, caller, now);
                && (c.Err? ==> r == Err(c.error) && registrations == old(registrations) && events == old(events))
                && (c.Ok? ==>
                      && r == Ok(())
                      && registrations == old(registrations)[regId := c.value.row]
                      && events == old(events)[reg.eventId := c.value.event])
    {
      if regId >= |registrations| {
        return Err(NotFound("Registration not found"));
      }
      var reg := registrations[regId];
      assert RowOk(events, registrations[regId]);
      var cancelled := CancelOutcomeAsWritten(events[reg.eventId], reg, caller, now);
      if cancelled.Err? {
        r := Err(cancelled.error);
      } else {
        assert Stored(events, reg.eventId);
        SaveRowKeeps(events, order, registrations, regId, cancelled.value.row, cancelled.value.event);
        registrations := registrations[regId := cancelled.value.row];
        events := events[reg.eventId := cancelled.value.event];
        r := Ok(());
      }
    }

    /** `getEventAnalytics`: owner only; the counts over the event's rows. */
    method EventAnalytics(id: EventId, caller: UserId, now: Time) returns (r: Result<Analytics>)
      requires Valid()
      modifies this
      ensures Valid()
      ensures order == old(order) && registrations == old(registrations)
      ensures id !in old(events) ==> r == Err(NotFound("Event not found")) && events == old(events)
      ensures id in old(events) && old(events)[id].organizerId != caller ==>
                r == Err(Forbidden("Not authorized")) && events == old(events)
      ensures id in old(events) && old(events)[id].organizerId == caller ==>
                var e := Synced(old(events)[id], now);
                r == Ok(AnalyticsOf(e, RowsOf(registrations, id))) && events == old(events)[id := e]
    {
      if id !in events {
        return Err(NotFound("Event not found"));
      }
      if events[id].organizerId != caller {
        return Err(Forbidden("Not authorized"));
      }
      UpdateEventStatus(id, now);
      r := Ok(AnalyticsOf(events[id], RowsOf(registrations, id)));
    }

    /** `updateEventStatus` on each event of `ids` in turn. */
    method SyncEvents(ids: seq<EventId>, now: Time)
      requires Valid() && forall x :: x in ids ==> x in events
      modifies this
      ensures Valid()
      ensures order == old(order) && registrations == old(registrations)
      ensures events == SyncedWhere(old(events), (set x | x in ids), now)
    {
      ghost var touched: set<EventId> := {};
      SyncedWhereNone(events, now);
      var i := 0;
      while i < |ids|
        invariant 0 <= i <= |ids|
        invariant order == old(order) && registrations == old(registrations)
        invariant touched == set x | x in ids[..i]
        invariant events == SyncedWhere(old(events), touched, now)
        invariant Valid()
      {
        SyncStep(old(events), touched, ids[i], now);
        UpdateEventStatus(ids[i], now);
        PrefixStep(ids, i);
        touched := touched + {ids[i]};
        i := i + 1;
      }
      assert ids[..i] == ids;
    }

    /** `getOrganizerDashboard`: writes back the derived status of each of
        the organizer's events, then reports the totals. The totals read no
        status, so they are taken from the events as the request found them. */
    method OrganizerDashboard(org: UserId, now: Time) returns (d: Dashboard)
      requires Valid()
      modifies this
      ensures Valid()
      ensures order == old(order) && registrations == old(registrations)
      ensures d == DashboardOf(old(events), old(order), old(registrations), org, now)
      ensures events == SyncedWhere(old(events), (set id | id in OrganizerEvents(old(order), old(events), org)), now)
    {
      d := DashboardOf(events, order, registrations, org, now);
      SyncEvents(OrganizerEvents(order, events, org), now);
    }

    /** The status write-back of one step of `getMyRegistrations`: row `i`
        of the participant whose event exists has that event's derived
        status written back, which extends the events synced so far to
        those of the first `i + 1` rows. */
    method SyncRowEvent(regs: seq<Registration>, p: UserId, i: nat, now: Time, ghost before: map<EventId, Event>)
      requires Valid() && registrations == regs && i < |regs|
      requires events == SyncedWhere(before, EventsOfRows(regs, before, p, i), now)
      modifies this
      ensures Valid()
      ensures order == old(order) && registrations == regs
      ensures events == SyncedWhere(before, EventsOfRows(regs, before, p, i + 1), now)
    {
      var reg := regs[i];
      if reg.participantId == p && reg.eventId in events {
        assert EventsOfRows(regs, before, p, i + 1) == EventsOfRows(regs, before, p, i) + {reg.eventId};
        SyncStep(before, EventsOfRows(regs, before, p, i), reg.eventId, now);
        UpdateEventStatus(reg.eventId, now);
      } else {
        assert EventsOfRows(regs, before, p, i + 1) == EventsOfRows(regs, before, p, i);
      }
    }

    /** `getMyRegistrations`: walks the participant's rows in order, writes
        back the derived status of each row's event, and shelves the row by
        its status and its event's end, and by its event's type. */
    method MyRegistrations(p: UserId, now: Time) returns (b: Shelves)
      requires Valid()
      modifies this
      ensures Valid()
      ensures order == old(order) && registrations == old(registrations)
      ensures ShelvedUpTo(b, registrations, old(events), p, now, |registrations|)
      ensures events == SyncedWhere(old(events), EventsOfRows(registrations, old(events), p, |registrations|), now)
    {
      b := Shelves([], [], [], [], []);
      var regs := registrations;
      SyncedWhereNone(events, now);
      var i: nat := 0;
      while i < |regs|
        invariant i <= |regs|
        invariant order == old(order) && registrations == regs
        invariant events == SyncedWhere(old(events), EventsOfRows(regs, old(events), p, i), now)
        invariant Valid()
        invariant ShelvedUpTo(b, regs, old(events), p, now, i)
      {
        SyncRowEvent(regs, p, i, now, old(events));
        var reg := regs[i];
        if reg.participantId == p && reg.eventId in events {
          var e := events[reg.eventId];
          ShelveStep(b, regs, old(events), p, now, i, e);
          b := Shelve(b, i, reg, e, now);
        } else {
          ShelveSkip(b, regs, old(events), p, now, i);
        }
        i := i + 1;
      }
    }
  }
}
