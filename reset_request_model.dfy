/** The password-reset request (backend/models/PasswordResetRequest.js)
    and the state machine `handlePasswordReset` drives it through:
    pending, then approved or rejected, never processed twice. */
module ResetRequestModel {
  import opened Common
  import opened Text

  const ReasonMaxLength := 1000
  const CommentMaxLength := 1000
  const ApprovedComment := "Approved"
  const RejectedComment := "Rejected"

  datatype ResetStatus = ResetPending | ResetApproved | ResetRejected

  datatype ResetRequest = ResetRequest(
    organizerId: UserId,
    reason: string,
    status: ResetStatus,
    adminComment: Option<string>,
    generatedPassword: Option<string>,
    processedAt: Option<Time>)

  /** A new request: the reason through the `trim` setter, status
      defaulting to pending, nothing processed yet. */
  function NewResetRequest(organizerId: UserId, reason: string): (q: ResetRequest)
    ensures q.organizerId == organizerId && q.reason == Trim(reason) && q.status == ResetPending
    ensures q.adminComment.None? && q.generatedPassword.None? && q.processedAt.None?
  {
    ResetRequest(organizerId, Trim(reason), ResetPending, None, None, None)
  }

  /** What the validators demand on save: a non-empty reason and both
      strings within their maximum length. */
  predicate ResetValid(q: ResetRequest) {
    && q.reason != "" && JsLength(q.reason) <= ReasonMaxLength
    && (q.adminComment.Some? ==> JsLength(q.adminComment.value) <= CommentMaxLength)
  }

  /** The organizer has a request still pending. */
  predicate HasPending(reqs: seq<ResetRequest>, organizerId: UserId) {
    exists i :: 0 <= i < |reqs| && reqs[i].organizerId == organizerId && reqs[i].status == ResetPending
  }

  /** Requests `i` and `j` are two requests and not both pending for the
      same organizer. */
  predicate PendingApart(reqs: seq<ResetRequest>, i: int, j: int)
    requires 0 <= i < |reqs| && 0 <= j < |reqs|
  {
    i != j && reqs[i].status == ResetPending && reqs[j].status == ResetPending ==>
      reqs[i].organizerId != reqs[j].organizerId
  }

  /** At most one pending request per organizer. */
  predicate OnePendingEach(reqs: seq<ResetRequest>) {
    forall i, j {:trigger PendingApart(reqs, i, j)} :: 0 <= i < |reqs| && 0 <= j < |reqs| ==> PendingApart(reqs, i, j)
  }

  /** Filing a request for an organizer with none pending keeps at most
      one pending request per organizer. */
  lemma FileKeepsOnePending(reqs: seq<ResetRequest>, q: ResetRequest)
    requires OnePendingEach(reqs) && !HasPending(reqs, q.organizerId)
    ensures OnePendingEach(reqs + [q])
  {
    var s := reqs + [q];
    forall i, j | 0 <= i < |s| && 0 <= j < |s|
      ensures PendingApart(s, i, j)
    {
      if i != j && i < |reqs| && j < |reqs| {
        assert PendingApart(reqs, i, j);
      }
    }
  }

  /** Processing a request (it leaves pending) keeps at most one pending
      request per organizer. */
  lemma ProcessKeepsOnePending(reqs: seq<ResetRequest>, i: nat, q: ResetRequest)
    requires OnePendingEach(reqs) && i < |reqs| && q.status != ResetPending
    ensures OnePendingEach(reqs[i := q])
  {
    var s := reqs[i := q];
    forall a, b | 0 <= a < |s| && 0 <= b < |s|
      ensures PendingApart(s, a, b)
    {
      assert PendingApart(reqs, a, b);
    }
  }

  /** The admin comment stored: the one sent, trimmed, when it is truthy,
      the default otherwise. */
  function CommentOr(comment: Option<string>, default: string): (c: string)
    requires IsTrimmed(default)
    ensures IsTrimmed(c)
    ensures !Truthy(comment) ==> c == default
    ensures Truthy(comment) ==> c == Trim(comment.value)
  {
    if Truthy(comment) then TrimIsTrimmed(comment.value); Trim(comment.value) else default
  }

  /** What `handlePasswordReset` does to the request: a request that is no
      longer pending is refused whatever the action; "approve" records the
      generated password, the comment (default "Approved") and the time;
      "reject" records the comment (default "Rejected") and the time; any
      other action is refused. */
  function Decide(q: ResetRequest, action: string, comment: Option<string>, password: string, now: Time)
    : (r: Result<ResetRequest>)
    ensures q.status != ResetPending ==> r == Err(BadRequest("Already processed"))
    ensures r.Ok? ==> q.status == ResetPending && r.value.status != ResetPending
    ensures r.Ok? ==> r.value.organizerId == q.organizerId && r.value.reason == q.reason
    ensures r.Ok? ==> r.value.processedAt == Some(now) && r.value.adminComment.Some?
    ensures r.Ok? <==> q.status == ResetPending && (action == "approve" || action == "reject")
    ensures r.Ok? && action == "approve" ==>
              r.value.status == ResetApproved && r.value.generatedPassword == Some(password)
              && (!Truthy(comment) ==> r.value.adminComment == Some(ApprovedComment))
              && (Truthy(comment) ==> r.value.adminComment == Some(Trim(comment.value)))
    ensures r.Ok? && action == "reject" ==>
              r.value.status == ResetRejected && r.value.generatedPassword == q.generatedPassword
              && (!Truthy(comment) ==> r.value.adminComment == Some(RejectedComment))
              && (Truthy(comment) ==> r.value.adminComment == Some(Trim(comment.value)))
    ensures q.status == ResetPending && action != "approve" && action != "reject" ==>
              r == Err(BadRequest("Invalid action"))
  {
    if q.status != ResetPending then Err(BadRequest("Already processed"))
    else if action == "approve" then
      Ok(q.(status := ResetApproved, generatedPassword := Some(password),
            adminComment := Some(CommentOr(comment, ApprovedComment)), processedAt := Some(now)))
    else if action == "reject" then
      Ok(q.(status := ResetRejected, adminComment := Some(CommentOr(comment, RejectedComment)),
            processedAt := Some(now)))
    else Err(BadRequest("Invalid action"))
  }

  /** A processed request can never be processed again, whatever is sent. */
  lemma ProcessedOnce(q: ResetRequest, action: string, comment: Option<string>, password: string, now: Time,
                      action2: string, comment2: Option<string>, password2: string, later: Time)
    requires Decide(q, action, comment, password, now).Ok?
    ensures Decide(Decide(q, action, comment, password, now).value, action2, comment2, password2, later)
         == Err(BadRequest("Already processed"))
  {
  }
}
