/** The registration record (backend/models/Registration.js): one row per
    normal-event registration or merchandise order, with its enums and
    defaults, and the two unique indexes the collection carries. */
module RegistrationModel {
  import opened Common
  import opened Text

  const AuditNoteMaxLength := 1000

  datatype RegStatus = Registered | Cancelled | Rejected

  datatype PaymentStatus = PaymentPending | PaymentApproved | PaymentRejected | NotRequired

  datatype AttendanceMethod = Scan | Manual

  /** The variant an order names, by its (size, color) key. */
  datatype VariantKey = VariantKey(size: string, color: string)

  /** The four audit fields that are written together with
      `attendanceStatus = true`. */
  datatype AttendanceRecord = AttendanceRecord(
    timestamp: Time,
    markedBy: UserId,
    markedVia: AttendanceMethod,
    auditNote: string)

  datatype Registration = Registration(
    eventId: EventId,
    participantId: UserId,
    variant: Option<VariantKey>,
    paymentStatus: PaymentStatus,
    paymentProofUrl: Option<string>,
    ticketId: Option<string>,
    attendanceStatus: bool,
    attendance: Option<AttendanceRecord>,
    status: RegStatus)

  /** A new row with the schema defaults: payment not required, no ticket,
      not attended, status registered. */
  function NewRegistration(eventId: EventId, participantId: UserId): (r: Registration)
    ensures r.eventId == eventId && r.participantId == participantId
    ensures r.paymentStatus == NotRequired && r.status == Registered
    ensures !r.attendanceStatus && r.attendance.None? && r.ticketId.None?
  {
    Registration(eventId, participantId, None, NotRequired, None, None, false, None, Registered)
  }

  /** What the validators demand on save (the audit note's maximum length),
      and the audit fields present exactly when attendance is marked. */
  predicate RegistrationValid(r: Registration) {
    && (r.attendanceStatus <==> r.attendance.Some?)
    && (r.attendance.Some? ==> JsLength(r.attendance.value.auditNote) <= AuditNoteMaxLength
                               && IsTrimmed(r.attendance.value.auditNote))
  }

  /** Some row already carries this ticket. */
  predicate TicketInUse(regs: seq<Registration>, ticket: string) {
    exists i :: 0 <= i < |regs| && regs[i].ticketId == Some(ticket)
  }

  /** A row other than row `i` carries this ticket. */
  predicate TicketHeldElsewhere(regs: seq<Registration>, ticket: string, i: int) {
    exists j :: 0 <= j < |regs| && j != i && regs[j].ticketId == Some(ticket)
  }

  /** Some row already exists for this (event, participant) pair. */
  predicate HasRow(regs: seq<Registration>, eventId: EventId, participantId: UserId) {
    exists i :: 0 <= i < |regs| && regs[i].eventId == eventId && regs[i].participantId == participantId
  }

  /** Rows `i` and `j` are two rows and, when row `i` carries a ticket,
      row `j` carries a different one. */
  predicate TicketsApart(regs: seq<Registration>, i: int, j: int)
    requires 0 <= i < |regs| && 0 <= j < |regs|
  {
    i != j && regs[i].ticketId.Some? ==> regs[i].ticketId != regs[j].ticketId
  }

  /** Rows `i` and `j` are two rows for different (event, participant) pairs. */
  predicate PairsApart(regs: seq<Registration>, i: int, j: int)
    requires 0 <= i < |regs| && 0 <= j < |regs|
  {
    i != j ==>
      regs[i].eventId != regs[j].eventId || regs[i].participantId != regs[j].participantId
  }

  /** The sparse unique index on `ticketId`: rows that carry a ticket carry
      different ones. */
  predicate TicketsUnique(regs: seq<Registration>) {
    forall i, j {:trigger TicketsApart(regs, i, j)} :: 0 <= i < |regs| && 0 <= j < |regs| ==> TicketsApart(regs, i, j)
  }

  /** The unique compound index on (eventId, participantId). */
  predicate PairsUnique(regs: seq<Registration>) {
    forall i, j {:trigger PairsApart(regs, i, j)} :: 0 <= i < |regs| && 0 <= j < |regs| ==> PairsApart(regs, i, j)
  }

  /** The insert the two unique indexes admit keeps them satisfied. */
  lemma AppendKeepsIndexes(regs: seq<Registration>, r: Registration)
    requires TicketsUnique(regs) && PairsUnique(regs)
    requires !HasRow(regs, r.eventId, r.participantId)
    requires r.ticketId.Some? ==> !TicketInUse(regs, r.ticketId.value)
    ensures TicketsUnique(regs + [r]) && PairsUnique(regs + [r])
  {
    var s := regs + [r];
    forall i, j | 0 <= i < |s| && 0 <= j < |s|
      ensures TicketsApart(s, i, j) && PairsApart(s, i, j)
    {
      if i != j {
        if i == |regs| {
          assert r.ticketId.Some? ==> !(regs[j].ticketId == Some(r.ticketId.value));
          assert !(regs[j].eventId == r.eventId && regs[j].participantId == r.participantId);
        } else if j == |regs| {
          assert r.ticketId.Some? ==> !(regs[i].ticketId == Some(r.ticketId.value));
          assert !(regs[i].eventId == r.eventId && regs[i].participantId == r.participantId);
        } else {
          assert TicketsApart(regs, i, j) && PairsApart(regs, i, j);
        }
      }
    }
  }

  /** The row that carries this ticket (`findOne({ ticketId })`), if any. */
  function FindByTicket(regs: seq<Registration>, ticket: string): (r: Option<nat>)
    ensures r.Some? ==> r.value < |regs| && regs[r.value].ticketId == Some(ticket)
    ensures r.None? <==> !TicketInUse(regs, ticket)
  {
    if regs == [] then None
    else if regs[0].ticketId == Some(ticket) then Some(0)
    else match FindByTicket(regs[1..], ticket)
      case None =>
        assert forall i :: 1 <= i < |regs| ==> regs[i] == regs[1..][i - 1];
        None
      case Some(k) => Some(k + 1)
  }

  /** Under the ticket index the row found is the only one with that ticket. */
  lemma FindByTicketUnique(regs: seq<Registration>, ticket: string, i: nat)
    requires TicketsUnique(regs) && i < |regs| && regs[i].ticketId == Some(ticket)
    ensures FindByTicket(regs, ticket) == Some(i)
  {
    var k := FindByTicket(regs, ticket);
    assert k.Some?;
    assert TicketsApart(regs, i, k.value);
  }

  /** Row `i` given a ticket no other row holds, with its event and
      participant unchanged, keeps both unique indexes satisfied. */
  lemma ReplaceKeepsIndexes(regs: seq<Registration>, i: nat, r: Registration)
    requires TicketsUnique(regs) && PairsUnique(regs) && i < |regs|
    requires r.eventId == regs[i].eventId && r.participantId == regs[i].participantId
    requires r.ticketId.Some? ==> !TicketHeldElsewhere(regs, r.ticketId.value, i)
    ensures TicketsUnique(regs[i := r]) && PairsUnique(regs[i := r])
  {
    var s := regs[i := r];
    forall a, b | 0 <= a < |s| && 0 <= b < |s|
      ensures TicketsApart(s, a, b) && PairsApart(s, a, b)
    {
      if a != b {
        assert TicketsApart(regs, a, b) && PairsApart(regs, a, b);
        if a == i {
          assert r.ticketId.Some? ==> !(regs[b].ticketId == Some(r.ticketId.value));
        } else if b == i {
          assert r.ticketId.Some? ==> !(regs[a].ticketId == Some(r.ticketId.value));
        }
      }
    }
  }

  /** Whether a row holds one of its event's places: it is `registered`
      and its payment is either not required or approved. These are the
      rows `totalRegistrations` is meant to count. */
  predicate Counts(r: Registration, id: EventId) {
    r.eventId == id && r.status == Registered && (r.paymentStatus == NotRequired || r.paymentStatus == PaymentApproved)
  }

  /** The number of rows holding a place of event `id`. */
  function Counted(regs: seq<Registration>, id: EventId): (n: nat)
    ensures n <= |regs|
  {
    if regs == [] then 0
    else Counted(regs[..|regs| - 1], id) + (if Counts(regs[|regs| - 1], id) then 1 else 0)
  }

  lemma CountedAppend(regs: seq<Registration>, r: Registration, id: EventId)
    ensures Counted(regs + [r], id) == Counted(regs, id) + (if Counts(r, id) then 1 else 0)
  {
    assert (regs + [r])[..|regs|] == regs;
  }

  /** Replacing one row changes the count by what the row counted before
      and after. */
  lemma {:induction false} CountedReplace(regs: seq<Registration>, i: nat, r: Registration, id: EventId)
    requires i < |regs|
    ensures Counted(regs[i := r], id) + (if Counts(regs[i], id) then 1 else 0)
         == Counted(regs, id) + (if Counts(r, id) then 1 else 0)
  {
    var n := |regs|;
    if i == n - 1 {
      assert regs[i := r][..n - 1] == regs[..n - 1];
    } else {
      CountedReplace(regs[..n - 1], i, r, id);
      assert regs[i := r][..n - 1] == regs[..n - 1][i := r];
    }
  }

  /** No row refers to `id`: nothing is counted. */
  lemma {:induction false} CountedNone(regs: seq<Registration>, id: EventId)
    requires forall i :: 0 <= i < |regs| ==> regs[i].eventId != id
    ensures Counted(regs, id) == 0
  {
    if regs != [] {
      CountedNone(regs[..|regs| - 1], id);
    }
  }

  /** A counted row makes the count positive. */
  lemma CountedPositive(regs: seq<Registration>, i: nat, id: EventId)
    requires i < |regs| && Counts(regs[i], id)
    ensures Counted(regs, id) >= 1
  {
    CountedReplace(regs, i, regs[i].(status := Cancelled), id);
  }

  /** The positions of the participant's `registered` rows for the event. */
  function RegisteredRows(regs: seq<Registration>, eventId: EventId, participantId: UserId): set<nat> {
    set i: nat | i < |regs| && regs[i].eventId == eventId && regs[i].participantId == participantId
                 && regs[i].status == Registered
  }

  /** `countDocuments` over the participant's `registered` rows for the event. */
  function CountRegistered(regs: seq<Registration>, eventId: EventId, participantId: UserId): (n: nat)
    ensures n == |RegisteredRows(regs, eventId, participantId)| && n <= |regs|
    ensures n > 0 <==> exists i :: 0 <= i < |regs| && regs[i].eventId == eventId
                                   && regs[i].participantId == participantId && regs[i].status == Registered
    ensures n > 0 ==> HasRow(regs, eventId, participantId)
  {
    if regs == [] then 0
    else
      var last := |regs| - 1;
      var prefix := regs[..last];
      var rest := CountRegistered(prefix, eventId, participantId);
      var hit := regs[last].eventId == eventId && regs[last].participantId == participantId && regs[last].status == Registered;
      assert RegisteredRows(regs, eventId, participantId)
             == RegisteredRows(prefix, eventId, participantId) + (if hit then {last} else {}) by {
        forall i: nat | i < last
          ensures regs[i] == prefix[i]
        {
        }
      }
      assert last !in RegisteredRows(prefix, eventId, participantId);
      rest + (if hit then 1 else 0)
  }

  /** Rows for the pair that are not cancelled (the handler's duplicate test). */
  predicate HasActiveRow(regs: seq<Registration>, eventId: EventId, participantId: UserId) {
    exists i :: 0 <= i < |regs| && regs[i].eventId == eventId && regs[i].participantId == participantId
                && regs[i].status != Cancelled
  }
}
