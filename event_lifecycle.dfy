/** The time-driven part of the event lifecycle (`updateEventStatus` in
    backend/controllers/eventController.js): the status an event has at a
    given instant, derived from its stored status and its dates. */
module EventLifecycle {
  import opened Common
  import opened EventModel

  /** `updateEventStatus`: a published event whose start has come becomes
      ongoing; a published or ongoing event whose end has passed becomes
      completed; draft and completed never change. */
  function DeriveStatus(s: EventStatus, startDate: Time, endDate: Time, now: Time): (r: EventStatus)
    ensures r == Draft <==> s == Draft
    ensures r == Completed <==> s == Completed || ((s == Published || s == Ongoing) && endDate < now)
    ensures r == Ongoing <==> (s == Ongoing || (s == Published && startDate <= now)) && !(endDate < now)
    ensures r == Published <==> s == Published && now < startDate && !(endDate < now)
  {
    var afterStart := if s == Published && startDate <= now then Ongoing else s;
    if (afterStart == Published || afterStart == Ongoing) && endDate < now then Completed else afterStart
  }

  /** Position of a status along draft, published, ongoing, completed. */
  function Rank(s: EventStatus): nat {
    match s
    case Draft => 0
    case Published => 1
    case Ongoing => 2
    case Completed => 3
  }

  /** The event with its derived status written back, as the handlers save
      it: only the status changes, never backwards, and writing it back
      again at the same instant changes nothing. */
  function Synced(e: Event, now: Time): (r: Event)
    ensures r.status == DeriveStatus(e.status, e.startDate, e.endDate, now)
    ensures r.(status := e.status) == e
    ensures Rank(e.status) <= Rank(r.status)
    ensures DeriveStatus(r.status, r.startDate, r.endDate, now) == r.status
  {
    DeriveNeverBackwards(e.status, e.startDate, e.endDate, now);
    DeriveIdempotent(e.status, e.startDate, e.endDate, now);
    e.(status := DeriveStatus(e.status, e.startDate, e.endDate, now))
  }

  /** Deriving never moves an event backwards. */
  lemma DeriveNeverBackwards(s: EventStatus, startDate: Time, endDate: Time, now: Time)
    ensures Rank(s) <= Rank(DeriveStatus(s, startDate, endDate, now))
  {
  }

  /** Deriving twice at the same instant is deriving once. */
  lemma DeriveIdempotent(s: EventStatus, startDate: Time, endDate: Time, now: Time)
    ensures var r := DeriveStatus(s, startDate, endDate, now);
            DeriveStatus(r, startDate, endDate, now) == r
  {
  }

  /** A status derived earlier and derived again later is the status derived
      later: how often requests arrive in between does not matter. */
  lemma DeriveComposes(s: EventStatus, startDate: Time, endDate: Time, t1: Time, t2: Time)
    requires t1 <= t2
    ensures DeriveStatus(DeriveStatus(s, startDate, endDate, t1), startDate, endDate, t2)
         == DeriveStatus(s, startDate, endDate, t2)
  {
  }

  /** A published event is seen ongoing from its start instant on
      (`startDate <= now`), and completed from the first instant after its
      end, whether it was published or ongoing. */
  lemma DeriveBoundaries(startDate: Time, endDate: Time)
    requires startDate <= endDate
    ensures DeriveStatus(Published, startDate, endDate, startDate) == Ongoing
    ensures DeriveStatus(Published, startDate, endDate, endDate + 1) == Completed
    ensures DeriveStatus(Ongoing, startDate, endDate, endDate + 1) == Completed
    ensures DeriveStatus(Ongoing, startDate, endDate, endDate) == Ongoing
  {
  }
}
