/** What the event and registration collections satisfy between requests,
    and the updates the handlers save that keep it. */
module StoreState {
  import opened Common
  import opened EventModel
  import opened RegistrationModel
  import opened EventLifecycle

  /** A stored event: it passes the schema validators, its counter never
      exceeds its limit, and a draft holds no registrations. */
  predicate EventOk(e: Event) {
    && SchemaValid(e)
    && e.totalRegistrations <= e.registrationLimit
    && (e.status == Draft ==> e.totalRegistrations == 0)
  }

  /** A stored registration: its event exists and is past draft, and it
      passes the schema validators. */
  predicate RowOk(events: map<EventId, Event>, r: Registration) {
    r.eventId in events && events[r.eventId].status != Draft && RegistrationValid(r)
  }

  /** A stored event is valid in the sense above. */
  predicate Stored(events: map<EventId, Event>, id: EventId) {
    id in events ==> EventOk(events[id])
  }

  /** The store invariant the handlers keep: every event is stored as
      above; `order` lists every event id once, in creation order; every
      row is stored as above; and both unique indexes of the registration
      collection hold. */
  ghost predicate StoreInvariant(events: map<EventId, Event>, order: seq<EventId>, regs: seq<Registration>) {
    && (forall id {:trigger Stored(events, id)} :: Stored(events, id))
    && NoDuplicates(order)
    && (forall id :: id in order <==> id in events)
    && (forall i {:trigger RowOk(events, regs[i])} :: 0 <= i < |regs| ==> RowOk(events, regs[i]))
    && TicketsUnique(regs)
    && PairsUnique(regs)
  }

  /** An event's counter is the number of rows holding one of its places. */
  predicate Tallied(events: map<EventId, Event>, regs: seq<Registration>, id: EventId) {
    id in events ==> events[id].totalRegistrations == Counted(regs, id)
  }

  /** What `totalRegistrations` is meant to be: every counter is the number
      of rows holding a place. The handlers that register, place, scan,
      override, edit and sync keep it; the cancel and review handlers as
      written do not (see `EventDecisions`). */
  ghost predicate PlacesCounted(events: map<EventId, Event>, regs: seq<Registration>) {
    forall id {:trigger Tallied(events, regs, id)} :: Tallied(events, regs, id)
  }

  /** Where counters and places agree, the registration limit holds: no
      event has more rows holding a place than its `registrationLimit`. */
  lemma CountedWithinLimit(events: map<EventId, Event>, order: seq<EventId>, regs: seq<Registration>, id: EventId)
    requires StoreInvariant(events, order, regs) && PlacesCounted(events, regs) && id in events
    ensures Counted(regs, id) <= events[id].registrationLimit
  {
    assert Stored(events, id);
    assert Tallied(events, regs, id);
  }

  /** No row refers to a draft. */
  lemma DraftHasNoRows(events: map<EventId, Event>, order: seq<EventId>, regs: seq<Registration>, id: EventId)
    requires StoreInvariant(events, order, regs) && id in events && events[id].status == Draft
    ensures forall i :: 0 <= i < |regs| ==> regs[i].eventId != id
  {
    forall i | 0 <= i < |regs|
      ensures regs[i].eventId != id
    {
      assert RowOk(events, regs[i]);
    }
  }

  /** Saving a valid event which, once past draft, stays past draft. */
  lemma SaveEventKeeps(events: map<EventId, Event>, order: seq<EventId>, regs: seq<Registration>, id: EventId, e: Event)
    requires StoreInvariant(events, order, regs) && id in events && EventOk(e)
    requires events[id].status != Draft ==> e.status != Draft
    ensures StoreInvariant(events[id := e], order, regs)
  {
    var m := events[id := e];
    forall x
      ensures Stored(m, x)
    {
      assert Stored(events, x);
    }
    forall i | 0 <= i < |regs|
      ensures RowOk(m, regs[i])
    {
      assert RowOk(events, regs[i]);
    }
  }

  /** Saving row `i` with the same event and participant, and either its
      own ticket or one no other row holds, together with a valid event
      past draft. */
  lemma SaveRowKeeps(events: map<EventId, Event>, order: seq<EventId>, regs: seq<Registration>, i: nat, r: Registration, e: Event)
    requires StoreInvariant(events, order, regs) && i < |regs| && RegistrationValid(r)
    requires r.eventId == regs[i].eventId && r.participantId == regs[i].participantId
    requires r.ticketId.Some? && r.ticketId != regs[i].ticketId ==> !TicketHeldElsewhere(regs, r.ticketId.value, i)
    requires r.eventId in events && EventOk(e) && e.status != Draft
    ensures StoreInvariant(events[r.eventId := e], order, regs[i := r])
  {
    var m := events[r.eventId := e];
    var s := regs[i := r];
    assert RowOk(events, regs[i]);
    forall x
      ensures Stored(m, x)
    {
      assert Stored(events, x);
    }
    forall j | 0 <= j < |s|
      ensures RowOk(m, s[j])
    {
      assert RowOk(events, regs[j]);
    }
    if r.ticketId.Some? && r.ticketId == regs[i].ticketId {
      forall j | 0 <= j < |regs| && j != i
        ensures regs[j].ticketId != r.ticketId
      {
        assert TicketsApart(regs, i, j);
      }
    }
    ReplaceKeepsIndexes(regs, i, r);
  }

  /** Saving row `i` (same event) together with its event keeps counters
      and places in step when the counter moves by what the row counted
      before and after. */
  lemma SaveRowCounts(events: map<EventId, Event>, regs: seq<Registration>, i: nat, r: Registration, e: Event)
    requires PlacesCounted(events, regs) && i < |regs| && r.eventId == regs[i].eventId && r.eventId in events
    requires e.totalRegistrations + (if Counts(regs[i], r.eventId) then 1 else 0)
          == events[r.eventId].totalRegistrations + (if Counts(r, r.eventId) then 1 else 0)
    ensures PlacesCounted(events[r.eventId := e], regs[i := r])
  {
    var m := events[r.eventId := e];
    var s := regs[i := r];
    forall x
      ensures Tallied(m, s, x)
    {
      assert Tallied(events, regs, x);
      CountedReplace(regs, i, r, x);
    }
  }

  /** Inserting a row for a new (event, participant) pair with no ticket,
      for an event past draft, leaving the events as they are. */
  lemma InsertPendingRowKeeps(events: map<EventId, Event>, order: seq<EventId>, regs: seq<Registration>, r: Registration)
    requires StoreInvariant(events, order, regs) && RegistrationValid(r)
    requires !HasRow(regs, r.eventId, r.participantId) && r.ticketId.None?
    requires r.eventId in events && events[r.eventId].status != Draft
    ensures StoreInvariant(events, order, regs + [r])
  {
    var s := regs + [r];
    forall j | 0 <= j < |s|
      ensures RowOk(events, s[j])
    {
      if j < |regs| {
        assert RowOk(events, regs[j]);
      }
    }
    AppendKeepsIndexes(regs, r);
  }

  /** Inserting a row for a new (event, participant) pair with an unused
      ticket, together with a valid event past draft. */
  lemma InsertRowKeeps(events: map<EventId, Event>, order: seq<EventId>, regs: seq<Registration>, r: Registration, e: Event)
    requires StoreInvariant(events, order, regs) && RegistrationValid(r)
    requires !HasRow(regs, r.eventId, r.participantId)
    requires r.ticketId.Some? ==> !TicketInUse(regs, r.ticketId.value)
    requires r.eventId in events && EventOk(e) && e.status != Draft
    ensures StoreInvariant(events[r.eventId := e], order, regs + [r])
  {
    var m := events[r.eventId := e];
    var s := regs + [r];
    forall x
      ensures Stored(m, x)
    {
      assert Stored(events, x);
    }
    forall j | 0 <= j < |s|
      ensures RowOk(m, s[j])
    {
      if j < |regs| {
        assert RowOk(events, regs[j]);
      }
    }
    AppendKeepsIndexes(regs, r);
  }

  /** Inserting a row together with its event keeps counters and places in
      step when the counter grows by what the new row counts. */
  lemma InsertRowCounts(events: map<EventId, Event>, regs: seq<Registration>, r: Registration, e: Event)
    requires PlacesCounted(events, regs) && r.eventId in events
    requires e.totalRegistrations == events[r.eventId].totalRegistrations + (if Counts(r, r.eventId) then 1 else 0)
    ensures PlacesCounted(events[r.eventId := e], regs + [r])
  {
    var m := events[r.eventId := e];
    var s := regs + [r];
    forall x
      ensures Tallied(m, s, x)
    {
      assert Tallied(events, regs, x);
      CountedAppend(regs, r, x);
    }
  }

  /** Creating a draft with no registrations under a fresh id. */
  lemma AddEventKeeps(events: map<EventId, Event>, order: seq<EventId>, regs: seq<Registration>, id: EventId, e: Event)
    requires StoreInvariant(events, order, regs) && id !in events
    requires EventOk(e) && e.totalRegistrations == 0
    ensures StoreInvariant(events[id := e], order + [id], regs)
  {
    var m := events[id := e];
    forall j | 0 <= j < |regs|
      ensures RowOk(m, regs[j]) && regs[j].eventId != id
    {
      assert RowOk(events, regs[j]);
    }
    forall x
      ensures Stored(m, x)
    {
      assert Stored(events, x);
    }
    assert id !in order;
  }

  /** Deleting a draft: no row refers to it. */
  lemma RemoveEventKeeps(events: map<EventId, Event>, order: seq<EventId>, regs: seq<Registration>, id: EventId)
    requires StoreInvariant(events, order, regs) && id in events && events[id].status == Draft
    ensures StoreInvariant(events - {id}, RemoveAll(order, id), regs)
  {
    var m := events - {id};
    DraftHasNoRows(events, order, regs, id);
    forall j | 0 <= j < |regs|
      ensures RowOk(m, regs[j])
    {
      assert RowOk(events, regs[j]);
    }
    forall x
      ensures Stored(m, x)
    {
      assert Stored(events, x);
    }
  }

  /** Saving an event whose counter stays as it was keeps counters and
      places in step. */
  lemma SaveEventCounts(events: map<EventId, Event>, regs: seq<Registration>, id: EventId, e: Event)
    requires PlacesCounted(events, regs) && id in events && e.totalRegistrations == events[id].totalRegistrations
    ensures PlacesCounted(events[id := e], regs)
  {
    var m := events[id := e];
    forall x
      ensures Tallied(m, regs, x)
    {
      assert Tallied(events, regs, x);
    }
  }

  /** A new event with a zero counter: no stored row refers to a fresh id. */
  lemma AddEventCounts(events: map<EventId, Event>, order: seq<EventId>, regs: seq<Registration>, id: EventId, e: Event)
    requires StoreInvariant(events, order, regs) && PlacesCounted(events, regs)
    requires id !in events && e.totalRegistrations == 0
    ensures PlacesCounted(events[id := e], regs)
  {
    forall j | 0 <= j < |regs|
      ensures regs[j].eventId != id
    {
      assert RowOk(events, regs[j]);
    }
    CountedNone(regs, id);
    var m := events[id := e];
    forall x
      ensures Tallied(m, regs, x)
    {
      assert Tallied(events, regs, x);
    }
  }

  /** Deleting an event keeps the other counters as they are. */
  lemma RemoveEventCounts(events: map<EventId, Event>, regs: seq<Registration>, id: EventId)
    requires PlacesCounted(events, regs)
    ensures PlacesCounted(events - {id}, regs)
  {
    forall x
      ensures Tallied(events - {id}, regs, x)
    {
      assert Tallied(events, regs, x);
    }
  }

  /** The events map with the derived status of every event in `ids`
      written back. */
  function SyncedWhere(events: map<EventId, Event>, ids: set<EventId>, now: Time): (m: map<EventId, Event>)
    ensures forall id :: id in m <==> id in events
    ensures forall id :: id in events && id !in ids ==> m[id] == events[id]
    ensures forall id :: id in events && id in ids ==> m[id] == Synced(events[id], now)
  {
    map id | id in events :: if id in ids then Synced(events[id], now) else events[id]
  }

  lemma SyncedIdempotent(e: Event, now: Time)
    ensures Synced(Synced(e, now), now) == Synced(e, now)
  {
    DeriveIdempotent(e.status, e.startDate, e.endDate, now);
  }

  /** Writing back no derived status leaves the events as they are. */
  lemma SyncedWhereNone(events: map<EventId, Event>, now: Time)
    ensures SyncedWhere(events, {}, now) == events
  {
  }

  /** Writing back one more derived status extends the set of synced
      events: deriving again the status of an event already synced changes
      nothing. */
  lemma SyncStep(events: map<EventId, Event>, ids: set<EventId>, x: EventId, now: Time)
    requires x in events
    ensures var m := SyncedWhere(events, ids, now);
            m[x := Synced(m[x], now)] == SyncedWhere(events, ids + {x}, now)
  {
    SyncedIdempotent(events[x], now);
  }

  /** Writing back derived statuses moves no counter. */
  lemma SyncedCounts(events: map<EventId, Event>, regs: seq<Registration>, ids: set<EventId>, now: Time)
    requires PlacesCounted(events, regs)
    ensures PlacesCounted(SyncedWhere(events, ids, now), regs)
  {
    var m := SyncedWhere(events, ids, now);
    forall x
      ensures Tallied(m, regs, x)
    {
      assert Tallied(events, regs, x);
    }
  }
}
