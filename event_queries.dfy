/** The read-only folds of backend/controllers/eventController.js: the
    per-event analytics (`getEventAnalytics`), the organizer dashboard
    (`getOrganizerDashboard`), the participant dashboard shelves
    (`getMyRegistrations`) and the browse search, filters and
    recommendation ranking (`getEvents`). */
module EventQueries {
  import opened Common
  import opened Text
  import opened EventModel
  import opened RegistrationModel
  import opened EventLifecycle

  // ---------------------------------------------------------------------
  // getEventAnalytics

  /** The rows of one event (`Registration.find({ eventId })`), in store order. */
  function RowsOf(regs: seq<Registration>, id: EventId): (rows: seq<Registration>)
    ensures |rows| <= |regs|
    ensures forall x :: x in rows ==> x in regs && x.eventId == id
    ensures forall x :: x in regs && x.eventId == id ==> x in rows
  {
    if regs == [] then []
    else (if regs[0].eventId == id then [regs[0]] else []) + RowsOf(regs[1..], id)
  }

  function CountStatus(rows: seq<Registration>, s: RegStatus): (n: nat)
    ensures n <= |rows|
  {
    if rows == [] then 0
    else (if rows[0].status == s then 1 else 0) + CountStatus(rows[1..], s)
  }

  function CountPayment(rows: seq<Registration>, p: PaymentStatus): (n: nat)
    ensures n <= |rows|
  {
    if rows == [] then 0
    else (if rows[0].paymentStatus == p then 1 else 0) + CountPayment(rows[1..], p)
  }

  function CountAttended(rows: seq<Registration>): (n: nat)
    ensures n <= |rows|
  {
    if rows == [] then 0
    else (if rows[0].attendanceStatus then 1 else 0) + CountAttended(rows[1..])
  }

  /** A row has one payment status, so the approved, rejected and pending
      counts together never exceed the number of rows. */
  lemma {:induction false} PaymentCountsBounded(rows: seq<Registration>)
    ensures CountPayment(rows, PaymentApproved) + CountPayment(rows, PaymentRejected)
            + CountPayment(rows, PaymentPending) <= |rows|
  {
    if rows != [] {
      PaymentCountsBounded(rows[1..]);
    }
  }

  /** The attendance rate: none when no row is registered (the handler
      shows 0), otherwise attended over registered, as a percentage. */
  datatype Rate = NoRegistrations | Ratio(attended: nat, registered: nat)

  datatype Analytics = Analytics(
    status: EventStatus,
    totalRegistrations: nat,
    approvedPayments: nat,
    rejectedPayments: nat,
    pendingPayments: nat,
    totalRevenue: int,
    attendanceCount: nat,
    attendanceRate: Rate)

  /** The analytics of one event over its rows. */
  function AnalyticsOf(e: Event, rows: seq<Registration>): (a: Analytics)
    ensures a.status == e.status
    ensures a.totalRegistrations == CountStatus(rows, Registered)
    ensures a.approvedPayments == CountPayment(rows, PaymentApproved)
    ensures a.rejectedPayments == CountPayment(rows, PaymentRejected)
    ensures a.pendingPayments == CountPayment(rows, PaymentPending)
    ensures a.attendanceCount == CountAttended(rows)
    ensures a.totalRegistrations <= |rows| && a.attendanceCount <= |rows|
    ensures a.approvedPayments + a.rejectedPayments + a.pendingPayments <= |rows|
    ensures a.totalRevenue == a.approvedPayments * e.registrationFee
    ensures e.registrationFee >= 0 ==> a.totalRevenue >= 0
    ensures a.attendanceRate == NoRegistrations <==> a.totalRegistrations == 0
    ensures a.attendanceRate.Ratio? ==>
              a.attendanceRate.attended == a.attendanceCount && a.attendanceRate.registered == a.totalRegistrations
  {
    PaymentCountsBounded(rows);
    var registered := CountStatus(rows, Registered);
    var approved := CountPayment(rows, PaymentApproved);
    var attended := CountAttended(rows);
    Analytics(e.status, registered, approved,
              CountPayment(rows, PaymentRejected), CountPayment(rows, PaymentPending),
              approved * e.registrationFee, attended,
              if registered == 0 then NoRegistrations else Ratio(attended, registered))
  }

  // ---------------------------------------------------------------------
  // getOrganizerDashboard

  /** The organizer's events (`Event.find({ organizerId })`), in store order. */
  function OrganizerEvents(order: seq<EventId>, events: map<EventId, Event>, org: UserId): (ids: seq<EventId>)
    ensures forall id :: id in ids <==> id in order && id in events && events[id].organizerId == org
    ensures NoDuplicates(order) ==> NoDuplicates(ids)
  {
    if order == [] then []
    else
      var rest := OrganizerEvents(order[1..], events, org);
      assert forall id :: id in order[1..] ==> id in order;
      if order[0] in events && events[order[0]].organizerId == org then
        assert NoDuplicates(order) ==> order[0] !in order[1..];
        [order[0]] + rest
      else rest
  }

  /** Registered rows over a set of events. */
  function RegisteredIn(regs: seq<Registration>, ids: seq<EventId>): (n: nat)
    ensures n <= |regs|
  {
    if regs == [] then 0
    else (if regs[0].eventId in ids && regs[0].status == Registered then 1 else 0) + RegisteredIn(regs[1..], ids)
  }

  /** The revenue fold: every approved row of these events adds its
      event's fee. */
  function RevenueOf(regs: seq<Registration>, events: map<EventId, Event>, ids: seq<EventId>): int
    requires forall id :: id in ids ==> id in events
  {
    if regs == [] then 0
    else
      (if regs[0].eventId in ids && regs[0].paymentStatus == PaymentApproved
       then events[regs[0].eventId].registrationFee else 0)
      + RevenueOf(regs[1..], events, ids)
  }

  /** The sum over the events of their approved payments times their fee:
      of the `totalRevenue` that `AnalyticsOf` reports for each. */
  function PerEventRevenue(regs: seq<Registration>, events: map<EventId, Event>, ids: seq<EventId>): int
    requires forall id :: id in ids ==> id in events
  {
    if ids == [] then 0
    else CountPayment(RowsOf(regs, ids[0]), PaymentApproved) * events[ids[0]].registrationFee
         + PerEventRevenue(regs, events, ids[1..])
  }

  lemma MulStep(a: int, f: int)
    ensures (a + 1) * f == a * f + f
  {
  }

  /** One more row adds one to its event's approved count when it is approved. */
  lemma ApprovedRowsStep(r: Registration, rest: seq<Registration>, id: EventId)
    ensures CountPayment(RowsOf([r] + rest, id), PaymentApproved)
         == CountPayment(RowsOf(rest, id), PaymentApproved) + (if r.eventId == id && r.paymentStatus == PaymentApproved then 1 else 0)
  {
    assert ([r] + rest)[0] == r && ([r] + rest)[1..] == rest;
    if r.eventId == id {
      var rows := [r] + RowsOf(rest, id);
      assert RowsOf([r] + rest, id) == rows;
      assert rows[0] == r && rows[1..] == RowsOf(rest, id);
    } else {
      assert RowsOf([r] + rest, id) == [] + RowsOf(rest, id) == RowsOf(rest, id);
    }
  }

  lemma {:induction false} PerEventRevenueStep(r: Registration, rest: seq<Registration>, events: map<EventId, Event>, ids: seq<EventId>)
    requires forall id :: id in ids ==> id in events
    requires NoDuplicates(ids)
    ensures PerEventRevenue([r] + rest, events, ids)
         == PerEventRevenue(rest, events, ids)
            + (if r.eventId in ids && r.paymentStatus == PaymentApproved then events[r.eventId].registrationFee else 0)
  {
    if ids != [] {
      var id, tail := ids[0], ids[1..];
      var fee := events[id].registrationFee;
      NoDuplicatesTail(ids);
      PerEventRevenueStep(r, rest, events, tail);
      var before := CountPayment(RowsOf(rest, id), PaymentApproved);
      var after := CountPayment(RowsOf([r] + rest, id), PaymentApproved);
      ApprovedRowsStep(r, rest, id);
      if r.eventId == id && r.paymentStatus == PaymentApproved {
        MulStep(before, fee);
      }
    }
  }

  /** The dashboard's revenue fold agrees with the per-event analytics:
      total revenue is the sum, over the organizer's events, of approved
      payments times the event's fee. */
  lemma {:induction false} DashboardRevenueIsSumOfEventRevenue(regs: seq<Registration>, events: map<EventId, Event>, ids: seq<EventId>)
    requires forall id :: id in ids ==> id in events
    requires NoDuplicates(ids)
    ensures RevenueOf(regs, events, ids) == PerEventRevenue(regs, events, ids)
  {
    if regs == [] {
      PerEventRevenueNoRows(events, ids);
    } else {
      assert regs == [regs[0]] + regs[1..];
      DashboardRevenueIsSumOfEventRevenue(regs[1..], events, ids);
      PerEventRevenueStep(regs[0], regs[1..], events, ids);
    }
  }

  lemma {:induction false} PerEventRevenueNoRows(events: map<EventId, Event>, ids: seq<EventId>)
    requires forall id :: id in ids ==> id in events
    ensures PerEventRevenue([], events, ids) == 0
  {
    if ids != [] {
      assert forall x :: x in ids[1..] ==> x in ids;
      PerEventRevenueNoRows(events, ids[1..]);
    }
  }

  /** With non-negative fees the revenue is never negative. */
  lemma {:induction false} RevenueNonNegative(regs: seq<Registration>, events: map<EventId, Event>, ids: seq<EventId>)
    requires forall id :: id in ids ==> id in events && events[id].registrationFee >= 0
    ensures RevenueOf(regs, events, ids) >= 0
  {
    if regs != [] {
      RevenueNonNegative(regs[1..], events, ids);
    }
  }

  /** Events starting after `now` (`startDate > now`). */
  function UpcomingCount(events: map<EventId, Event>, ids: seq<EventId>, now: Time): (n: nat)
    requires forall id :: id in ids ==> id in events
    ensures n <= |ids|
  {
    if ids == [] then 0
    else (if events[ids[0]].startDate > now then 1 else 0) + UpcomingCount(events, ids[1..], now)
  }

  /** Events whose end has passed (`endDate < now`). */
  function CompletedCount(events: map<EventId, Event>, ids: seq<EventId>, now: Time): (n: nat)
    requires forall id :: id in ids ==> id in events
    ensures n <= |ids|
  {
    if ids == [] then 0
    else (if events[ids[0]].endDate < now then 1 else 0) + CompletedCount(events, ids[1..], now)
  }

  /** An event that has started before `now` cannot be upcoming, so with
      `startDate < endDate` no event is counted both upcoming and completed. */
  lemma {:induction false} UpcomingAndCompletedDisjoint(events: map<EventId, Event>, ids: seq<EventId>, now: Time)
    requires forall id :: id in ids ==> id in events && events[id].startDate < events[id].endDate
    ensures UpcomingCount(events, ids, now) + CompletedCount(events, ids, now) <= |ids|
  {
    if ids != [] {
      assert forall x :: x in ids[1..] ==> x in ids;
      UpcomingAndCompletedDisjoint(events, ids[1..], now);
    }
  }

  /** The first event with the most registrations: what the stable
      descending sort puts at index 0. */
  function TopIndex(events: map<EventId, Event>, ids: seq<EventId>): (k: nat)
    requires |ids| > 0 && forall id :: id in ids ==> id in events
    ensures k < |ids|
    ensures forall j :: 0 <= j < |ids| ==> events[ids[j]].totalRegistrations <= events[ids[k]].totalRegistrations
    ensures forall j :: 0 <= j < k ==> events[ids[j]].totalRegistrations < events[ids[k]].totalRegistrations
  {
    if |ids| == 1 then 0
    else
      assert forall x :: x in ids[1..] ==> x in ids;
      var k := TopIndex(events, ids[1..]) + 1;
      if events[ids[0]].totalRegistrations >= events[ids[k]].totalRegistrations then 0 else k
  }

  datatype TopEvent = TopEvent(name: string, totalRegistrations: int)

  datatype Dashboard = Dashboard(
    totalEvents: nat,
    totalRegistrations: nat,
    totalRevenue: int,
    upcomingEvents: nat,
    completedEvents: nat,
    topEvent: Option<TopEvent>)

  /** The organizer dashboard over the organizer's events. */
  function DashboardOf(events: map<EventId, Event>, order: seq<EventId>, regs: seq<Registration>, org: UserId, now: Time): (d: Dashboard)
    ensures var ids := OrganizerEvents(order, events, org);
            && d.totalEvents == |ids|
            && d.totalRegistrations == RegisteredIn(regs, ids) && d.totalRegistrations <= |regs|
            && d.totalRevenue == RevenueOf(regs, events, ids)
            && d.upcomingEvents == UpcomingCount(events, ids, now)
            && d.completedEvents == CompletedCount(events, ids, now)
            && d.upcomingEvents <= d.totalEvents && d.completedEvents <= d.totalEvents
            && (d.topEvent.None? <==> ids == [])
            && (d.topEvent.Some? ==> exists id :: id in ids && d.topEvent.value == TopEvent(events[id].name, events[id].totalRegistrations))
            && (d.topEvent.Some? ==> forall id :: id in ids ==> events[id].totalRegistrations <= d.topEvent.value.totalRegistrations)
  {
    var ids := OrganizerEvents(order, events, org);
    Dashboard(|ids|, RegisteredIn(regs, ids), RevenueOf(regs, events, ids),
              UpcomingCount(events, ids, now), CompletedCount(events, ids, now),
              if ids == [] then None
              else var k := TopIndex(events, ids); Some(TopEvent(events[ids[k]].name, events[ids[k]].totalRegistrations)))
  }

  // ---------------------------------------------------------------------
  // getMyRegistrations

  /** The three dashboard shelves a participant's registration lands on. */
  datatype Shelf = UpcomingShelf | CompletedShelf | CancelledShelf

  /** Cancelled and rejected rows are shelved as cancelled; otherwise an
      event whose end has passed is completed and any other is upcoming. */
  function ShelfOf(r: Registration, e: Event, now: Time): (s: Shelf)
    ensures s == CancelledShelf <==> r.status == Cancelled || r.status == Rejected
    ensures s == CompletedShelf <==> r.status == Registered && e.endDate < now
    ensures s == UpcomingShelf <==> r.status == Registered && !(e.endDate < now)
  {
    match r.status
    case Cancelled => CancelledShelf
    case Rejected => CancelledShelf
    case Registered => if e.endDate < now then CompletedShelf else UpcomingShelf
  }

  /** Row `i` is the participant's and its event still exists (rows whose
      populated event is null are skipped). */
  predicate Listed(regs: seq<Registration>, events: map<EventId, Event>, p: UserId, i: int) {
    0 <= i < |regs| && regs[i].participantId == p && regs[i].eventId in events
  }

  /** The ids of the first `n` rows that land on shelf `s`, in store order. */
  function ShelfIds(regs: seq<Registration>, events: map<EventId, Event>, p: UserId, now: Time, s: Shelf, n: nat): seq<RegistrationId>
    requires n <= |regs|
  {
    if n == 0 then []
    else
      ShelfIds(regs, events, p, now, s, n - 1)
      + (if Listed(regs, events, p, n - 1) && ShelfOf(regs[n - 1], events[regs[n - 1].eventId], now) == s
         then [n - 1] else [])
  }

  /** The ids of the first `n` rows whose event has type `t`, in store order. */
  function TypeIds(regs: seq<Registration>, events: map<EventId, Event>, p: UserId, t: EventType, n: nat): seq<RegistrationId>
    requires n <= |regs|
  {
    if n == 0 then []
    else
      TypeIds(regs, events, p, t, n - 1)
      + (if Listed(regs, events, p, n - 1) && events[regs[n - 1].eventId].eventType == t then [n - 1] else [])
  }

  lemma {:induction false} ShelfIdsMembers(regs: seq<Registration>, events: map<EventId, Event>, p: UserId, now: Time, s: Shelf, n: nat, i: int)
    requires n <= |regs|
    ensures i in ShelfIds(regs, events, p, now, s, n) <==>
              0 <= i < n && Listed(regs, events, p, i) && ShelfOf(regs[i], events[regs[i].eventId], now) == s
  {
    if n > 0 {
      ShelfIdsMembers(regs, events, p, now, s, n - 1, i);
    }
  }

  lemma {:induction false} TypeIdsMembers(regs: seq<Registration>, events: map<EventId, Event>, p: UserId, t: EventType, n: nat, i: int)
    requires n <= |regs|
    ensures i in TypeIds(regs, events, p, t, n) <==>
              0 <= i < n && Listed(regs, events, p, i) && events[regs[i].eventId].eventType == t
  {
    if n > 0 {
      TypeIdsMembers(regs, events, p, t, n - 1, i);
    }
  }

  /** Every matching registration is on exactly one of the cancelled,
      completed and upcoming shelves, and on exactly one of the normal and
      merchandise lists; rows that are not matching are on none. */
  lemma ShelvesPartition(regs: seq<Registration>, events: map<EventId, Event>, p: UserId, now: Time, i: int)
    ensures var n := |regs|;
            var u := i in ShelfIds(regs, events, p, now, UpcomingShelf, n);
            var c := i in ShelfIds(regs, events, p, now, CompletedShelf, n);
            var x := i in ShelfIds(regs, events, p, now, CancelledShelf, n);
            && (Listed(regs, events, p, i) ==> (u || c || x) && !(u && c) && !(u && x) && !(c && x))
            && (!Listed(regs, events, p, i) ==> !u && !c && !x)
    ensures var n := |regs|;
            var a := i in TypeIds(regs, events, p, Normal, n);
            var b := i in TypeIds(regs, events, p, Merchandise, n);
            && (Listed(regs, events, p, i) ==> a != b)
            && (!Listed(regs, events, p, i) ==> !a && !b)
  {
    var n := |regs|;
    ShelfIdsMembers(regs, events, p, now, UpcomingShelf, n, i);
    ShelfIdsMembers(regs, events, p, now, CompletedShelf, n, i);
    ShelfIdsMembers(regs, events, p, now, CancelledShelf, n, i);
    TypeIdsMembers(regs, events, p, Normal, n, i);
    TypeIdsMembers(regs, events, p, Merchandise, n, i);
  }

  // ---------------------------------------------------------------------
  // getEvents

  /** The organizer as `populate` gives it: `Gone` when the organizer's
      record no longer exists (`populate` yields null), otherwise its
      display name, if it has one. */
  datatype Populated = Gone | Found(organizerName: Option<string>)

  /** An event as the browse query returns it: with its id and the
      populated organizer. */
  datatype Listing = Listing(id: EventId, event: Event, organizer: Populated)

  datatype BrowseQuery = BrowseQuery(
    search: Option<string>,
    eventType: Option<string>,
    eligibility: Option<string>,
    startDate: Option<Time>,
    endDate: Option<Time>,
    followedOnly: bool)

  /** The signed-in participant: whom they follow and their interests. */
  datatype Viewer = Viewer(isParticipant: bool, followedOrganizers: seq<UserId>, interests: seq<string>)

  function TypeName(t: EventType): string {
    match t
    case Normal => "normal"
    case Merchandise => "merchandise"
  }

  /** The base query: only published, ongoing and completed events, and the
      optional type, eligibility and start-date range filters. */
  predicate InBaseQuery(l: Listing, q: BrowseQuery) {
    && l.event.status != Draft
    && (Truthy(q.eventType) ==> TypeName(l.event.eventType) == q.eventType.value)
    && (Truthy(q.eligibility) ==> l.event.eligibility == q.eligibility.value)
    && (q.startDate.Some? && q.endDate.Some? ==> q.startDate.value <= l.event.startDate <= q.endDate.value)
  }

  /** A truthy search keeps events whose lower-cased name or organizer
      name contains the lower-cased search text; a falsy one keeps all. */
  predicate MatchesSearch(l: Listing, search: Option<string>) {
    !Truthy(search) ||
    var needle := ToLower(search.value);
    Includes(ToLower(l.event.name), needle) ||
    Includes(if l.organizer.Found? && l.organizer.organizerName.Some? then ToLower(l.organizer.organizerName.value) else "", needle)
  }

  /** The viewer follows the listing's organizer: the organizer was
      populated and its id is among the viewer's followed ids; a gone
      organizer is followed by nobody. */
  predicate Follows(v: Viewer, l: Listing) {
    l.organizer.Found? && l.event.organizerId in v.followedOrganizers
  }

  /** What the search and the followed-only filter keep. */
  predicate Wanted(l: Listing, q: BrowseQuery, viewer: Option<Viewer>) {
    MatchesSearch(l, q.search) && (q.followedOnly && viewer.Some? ==> Follows(viewer.value, l))
  }

  /** Keeps the listings that satisfy `keep`, in order. */
  function Select(ls: seq<Listing>, keep: Listing -> bool): (r: seq<Listing>)
    ensures |r| <= |ls|
    ensures forall x :: x in r <==> x in ls && keep(x)
  {
    if ls == [] then []
    else (if keep(ls[0]) then [ls[0]] else []) + Select(ls[1..], keep)
  }

  /** The recommendation score: 3 for a followed organizer, 2 when a tag
      is among the viewer's interests, 1 for more than ten registrations. */
  function Score(l: Listing, v: Viewer): (s: nat)
    ensures s <= 6
    ensures Follows(v, l) ==> s >= 3
    ensures !Follows(v, l) ==> s <= 3
  {
    (if Follows(v, l) then 3 else 0)
    + (if exists t :: t in l.event.tags && t in v.interests then 2 else 0)
    + (if l.event.totalRegistrations > 10 then 1 else 0)
  }

  /** The listings with score exactly `s`, in order. */
  function WithScore(ls: seq<Listing>, v: Viewer, s: nat): (r: seq<Listing>)
    ensures forall x :: x in r <==> x in ls && Score(x, v) == s
  {
    if ls == [] then []
    else (if Score(ls[0], v) == s then [ls[0]] else []) + WithScore(ls[1..], v, s)
  }

  /** The listings with score at most `s`, in order. */
  function ScoreAtMost(ls: seq<Listing>, v: Viewer, s: nat): seq<Listing> {
    if ls == [] then []
    else (if Score(ls[0], v) <= s then [ls[0]] else []) + ScoreAtMost(ls[1..], v, s)
  }

  /** The listings of score `s`, then those of score `s - 1`, down to
      score 0, each group in its input order; from 6 this is the stable
      sort by descending score. */
  function RankFrom(ls: seq<Listing>, v: Viewer, s: nat): seq<Listing> {
    WithScore(ls, v, s) + (if s == 0 then [] else RankFrom(ls, v, s - 1))
  }

  function Ranked(ls: seq<Listing>, v: Viewer): seq<Listing> {
    RankFrom(ls, v, 6)
  }

  lemma {:induction false} WithScoreSplits(ls: seq<Listing>, v: Viewer, s: nat)
    requires s > 0
    ensures multiset(ScoreAtMost(ls, v, s)) == multiset(WithScore(ls, v, s)) + multiset(ScoreAtMost(ls, v, s - 1))
  {
    if ls != [] {
      WithScoreSplits(ls[1..], v, s);
    }
  }

  lemma {:induction false} RankFromHoldsAtMost(ls: seq<Listing>, v: Viewer, s: nat)
    ensures multiset(RankFrom(ls, v, s)) == multiset(ScoreAtMost(ls, v, s))
  {
    if s == 0 {
      ZeroScoresAreWithScore(ls, v);
    } else {
      RankFromHoldsAtMost(ls, v, s - 1);
      WithScoreSplits(ls, v, s);
    }
  }

  lemma {:induction false} ZeroScoresAreWithScore(ls: seq<Listing>, v: Viewer)
    ensures ScoreAtMost(ls, v, 0) == WithScore(ls, v, 0)
  {
    if ls != [] {
      ZeroScoresAreWithScore(ls[1..], v);
    }
  }

  lemma {:induction false} AtMostSixIsAll(ls: seq<Listing>, v: Viewer)
    ensures ScoreAtMost(ls, v, 6) == ls
  {
    if ls != [] {
      AtMostSixIsAll(ls[1..], v);
      assert ls == [ls[0]] + ls[1..];
    }
  }

  /** Ranking is a permutation of the listings. */
  lemma RankedIsPermutation(ls: seq<Listing>, v: Viewer)
    ensures multiset(Ranked(ls, v)) == multiset(ls)
  {
    RankFromHoldsAtMost(ls, v, 6);
    AtMostSixIsAll(ls, v);
  }

  lemma {:induction false} RankFromBounded(ls: seq<Listing>, v: Viewer, s: nat)
    ensures forall x :: x in RankFrom(ls, v, s) ==> Score(x, v) <= s
  {
    if s > 0 {
      RankFromBounded(ls, v, s - 1);
    }
  }

  /** Listings in descending score order. */
  predicate SortedByScore(r: seq<Listing>, v: Viewer) {
    forall i, j :: 0 <= i < j < |r| ==> Score(r[i], v) >= Score(r[j], v)
  }

  /** Listings that all score `s`, followed by sorted listings that all
      score less, are sorted. */
  lemma ConcatSorted(a: seq<Listing>, b: seq<Listing>, v: Viewer, s: nat)
    requires forall x :: x in a ==> Score(x, v) == s
    requires forall x :: x in b ==> Score(x, v) < s
    requires SortedByScore(b, v)
    ensures SortedByScore(a + b, v)
  {
    var r := a + b;
    forall i, j | 0 <= i < j < |r|
      ensures Score(r[i], v) >= Score(r[j], v)
    {
      if j < |a| {
        assert r[i] == a[i] && r[j] == a[j];
        assert a[i] in a && a[j] in a;
      } else if i < |a| {
        assert r[i] == a[i] && a[i] in a;
        assert r[j] == b[j - |a|] && b[j - |a|] in b;
      } else {
        assert r[i] == b[i - |a|] && r[j] == b[j - |a|];
      }
    }
  }

  lemma {:induction false} RankFromSorted(ls: seq<Listing>, v: Viewer, s: nat)
    ensures SortedByScore(RankFrom(ls, v, s), v)
  {
    var a := WithScore(ls, v, s);
    if s > 0 {
      RankFromSorted(ls, v, s - 1);
      RankFromBounded(ls, v, s - 1);
      ConcatSorted(a, RankFrom(ls, v, s - 1), v, s);
    } else {
      ConcatSorted(a, [], v, 0);
    }
  }

  /** The ranked list is in descending score order. An event of a followed
      organizer scores at least 3 and any other event at most 3, so a
      followed event comes after another event only when both score
      exactly 3 (a tag match plus more than ten registrations ties with a
      bare follow). */
  lemma RankedOrder(ls: seq<Listing>, v: Viewer)
    ensures SortedByScore(Ranked(ls, v), v)
    ensures var r := Ranked(ls, v);
            forall i, j ::
                  (0 <= i < j < |r| && !Follows(v, r[i]) && Follows(v, r[j]))
                  ==> Score(r[i], v) == 3 && Score(r[j], v) == 3
  {
    assert Ranked(ls, v) == RankFrom(ls, v, 6);
    RankFromSorted(ls, v, 6);
  }

  /** Ranking neither adds nor drops a listing. */
  lemma RankedMembers(ls: seq<Listing>, v: Viewer)
    ensures |Ranked(ls, v)| == |ls|
    ensures forall x :: x in Ranked(ls, v) <==> x in ls
  {
    RankedIsPermutation(ls, v);
    assert |multiset(Ranked(ls, v))| == |multiset(ls)|;
    forall x
      ensures x in Ranked(ls, v) <==> x in ls
    {
      assert x in Ranked(ls, v) <==> x in multiset(Ranked(ls, v));
      assert x in ls <==> x in multiset(ls);
    }
  }

  /** A listing with its event's derived status written back: only the
      status changes, and an event past draft stays past draft, so the
      base query still admits it. */
  function SyncListing(l: Listing, now: Time): (r: Listing)
    ensures r == l.(event := l.event.(status := r.event.status))
    ensures Rank(l.event.status) <= Rank(r.event.status)
    ensures forall q :: InBaseQuery(l, q) ==> InBaseQuery(r, q)
  {
    DeriveNeverBackwards(l.event.status, l.event.startDate, l.event.endDate, now);
    l.(event := Synced(l.event, now))
  }

  /** Every listing with its derived status written back, in order. */
  function SyncListings(ls: seq<Listing>, now: Time): (r: seq<Listing>)
    ensures |r| == |ls|
    ensures forall i :: 0 <= i < |ls| ==> r[i] == SyncListing(ls[i], now)
    ensures forall x :: x in r ==> exists y :: y in ls && x == SyncListing(y, now)
  {
    if ls == [] then [] else [SyncListing(ls[0], now)] + SyncListings(ls[1..], now)
  }

  /** `getEvents` up to the ranking: the base query, the derived status,
      the search and the followed-only filter, in the stored order (the
      trending filter is a database aggregation and is not part of this
      model). Each listing is a stored event the base query admits, with
      its status written back, that passes both filters. */
  function Matching(ls: seq<Listing>, q: BrowseQuery, viewer: Option<Viewer>, now: Time): (r: seq<Listing>)
    ensures |r| <= |ls|
    ensures forall x :: x in r ==> InBaseQuery(x, q) && Wanted(x, q, viewer)
    ensures forall x :: x in r ==> exists y :: y in ls && InBaseQuery(y, q) && x == SyncListing(y, now)
  {
    var base := Select(ls, (l: Listing) => InBaseQuery(l, q));
    var synced := SyncListings(base, now);
    var searched := Select(synced, (l: Listing) => MatchesSearch(l, q.search));
    if q.followedOnly && viewer.Some? then Select(searched, (l: Listing) => Follows(viewer.value, l)) else searched
  }

  /** Every stored event the base query admits and which, with its status
      written back, passes the search and the followed-only filter, is
      kept. */
  lemma MatchingComplete(ls: seq<Listing>, q: BrowseQuery, viewer: Option<Viewer>, now: Time, y: Listing)
    requires y in ls && InBaseQuery(y, q) && Wanted(SyncListing(y, now), q, viewer)
    ensures SyncListing(y, now) in Matching(ls, q, viewer, now)
  {
    var base := Select(ls, (l: Listing) => InBaseQuery(l, q));
    assert y in base;
    var i :| 0 <= i < |base| && base[i] == y;
    assert SyncListings(base, now)[i] == SyncListing(y, now);
  }

  /** `getEvents`: the matching listings, ranked by score for a
      participant. The answer is a permutation of them. */
  function Browse(ls: seq<Listing>, q: BrowseQuery, viewer: Option<Viewer>, now: Time): (r: seq<Listing>)
    ensures multiset(r) == multiset(Matching(ls, q, viewer, now))
    ensures viewer.Some? && viewer.value.isParticipant ==> SortedByScore(r, viewer.value)
    ensures !(viewer.Some? && viewer.value.isParticipant) ==> r == Matching(ls, q, viewer, now)
  {
    var matching := Matching(ls, q, viewer, now);
    if viewer.Some? && viewer.value.isParticipant then
      RankedIsPermutation(matching, viewer.value);
      RankedOrder(matching, viewer.value);
      Ranked(matching, viewer.value)
    else matching
  }

  /** A listing is in the answer exactly when it is a stored event the base
      query admits, with its status written back, that passes the search
      and the followed-only filter. */
  lemma BrowseExactly(ls: seq<Listing>, q: BrowseQuery, viewer: Option<Viewer>, now: Time, y: Listing, x: Listing)
    ensures x in Browse(ls, q, viewer, now) ==>
              InBaseQuery(x, q) && Wanted(x, q, viewer) && exists z :: z in ls && InBaseQuery(z, q) && x == SyncListing(z, now)
    ensures y in ls && InBaseQuery(y, q) && Wanted(SyncListing(y, now), q, viewer) ==> SyncListing(y, now) in Browse(ls, q, viewer, now)
  {
    var matching := Matching(ls, q, viewer, now);
    var r := Browse(ls, q, viewer, now);
    assert x in r <==> x in multiset(r);
    assert x in matching <==> x in multiset(matching);
    if y in ls && InBaseQuery(y, q) && Wanted(SyncListing(y, now), q, viewer) {
      MatchingComplete(ls, q, viewer, now, y);
      var w := SyncListing(y, now);
      assert w in matching <==> w in multiset(matching);
      assert w in r <==> w in multiset(r);
    }
  }
}
