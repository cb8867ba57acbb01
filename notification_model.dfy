/** The notification record (backend/models/Notification.js), the batches
    the discussion handlers insert, and the listing `getMyNotifications`
    answers with. */
module NotificationModel {
  import opened Common
  import opened Text

  const ContentMaxLength := 500
  /** How many notifications one listing returns. */
  const ListingLimit := 50

  const NewMessageContent := "New message in event discussion"
  const AnnouncementContent := "New announcement posted"
  const ReactionContent := "Someone reacted to your message"

  /** The `type` enum: "new_message", "announcement", "reaction". */
  datatype NotificationKind = NewMessageKind | AnnouncementKind | ReactionKind

  datatype Notification = Notification(
    userId: UserId,
    eventId: Option<EventId>,
    messageId: Option<MessageId>,
    kind: NotificationKind,
    content: string,
    isRead: bool)

  /** What the validators demand on save: content set, trimmed by its
      setter, and within 500 characters. */
  predicate NotificationValid(n: Notification) {
    n.content != "" && IsTrimmed(n.content) && JsLength(n.content) <= ContentMaxLength
  }

  /** The three contents the handlers write pass the validators, so the
      inserts of the discussion handlers never fail validation. */
  lemma ContentsValid(u: UserId, e: Option<EventId>, m: Option<MessageId>)
    ensures NotificationValid(Notification(u, e, m, NewMessageKind, NewMessageContent, false))
    ensures NotificationValid(Notification(u, e, m, AnnouncementKind, AnnouncementContent, false))
    ensures NotificationValid(Notification(u, e, m, ReactionKind, ReactionContent, false))
  {
  }

  /** `recipients.map(userId => ({ userId, eventId, messageId, type,
      content }))`: one unread notification per recipient, in the
      recipients' order. */
  function Notices(recipients: seq<UserId>, eventId: EventId, messageId: MessageId,
                   kind: NotificationKind, content: string): (r: seq<Notification>)
    ensures |r| == |recipients|
    ensures forall i :: 0 <= i < |r| ==>
              r[i] == Notification(recipients[i], Some(eventId), Some(messageId), kind, content, false)
  {
    seq(|recipients|, i requires 0 <= i < |recipients| =>
      Notification(recipients[i], Some(eventId), Some(messageId), kind, content, false))
  }

  /** A batch whose content passes the validators passes them throughout. */
  lemma NoticesValid(recipients: seq<UserId>, eventId: EventId, messageId: MessageId,
                     kind: NotificationKind, content: string)
    requires NotificationValid(Notification(0, None, None, kind, content, false))
    ensures forall i :: 0 <= i < |recipients| ==>
              NotificationValid(Notices(recipients, eventId, messageId, kind, content)[i])
  {
  }

  /** The batches the discussion handlers insert, with one of their three
      contents, pass the validators throughout. */
  lemma HandlerNoticesValid(recipients: seq<UserId>, eventId: EventId, messageId: MessageId,
                            kind: NotificationKind, content: string)
    requires content == NewMessageContent || content == AnnouncementContent || content == ReactionContent
    ensures forall i :: 0 <= i < |recipients| ==>
              NotificationValid(Notices(recipients, eventId, messageId, kind, content)[i])
  {
    ContentsValid(0, None, None);
    NoticesValid(recipients, eventId, messageId, kind, content);
  }

  /** The user a notice is addressed to, one per notice. */
  function Addressees(ns: seq<Notification>): (r: seq<UserId>)
    ensures |r| == |ns| && forall i :: 0 <= i < |ns| ==> r[i] == ns[i].userId
  {
    seq(|ns|, i requires 0 <= i < |ns| => ns[i].userId)
  }

  /** A batch of notices reaches exactly its recipients, each as often as
      it is listed. */
  lemma NoticesAddressees(recipients: seq<UserId>, eventId: EventId, messageId: MessageId,
                          kind: NotificationKind, content: string)
    ensures Addressees(Notices(recipients, eventId, messageId, kind, content)) == recipients
  {
  }

  /** `find({ userId }).sort({ createdAt: -1 }).limit(limit)` over the first
      `n` notifications of the collection, which is kept in insertion
      order: the positions of the user's notifications, newest first, at
      most `limit` of them, and every one of the user's notifications left
      out is older than all of those listed. */
  function Latest(ns: seq<Notification>, u: UserId, n: nat, limit: nat): (r: seq<NotificationId>)
    requires n <= |ns|
    ensures |r| <= limit
    ensures forall k :: 0 <= k < |r| ==> r[k] < n && ns[r[k]].userId == u
    ensures forall a, b :: 0 <= a < b < |r| ==> r[a] > r[b]
    ensures forall i :: 0 <= i < n && ns[i].userId == u && i !in r ==>
              |r| == limit && forall k :: 0 <= k < |r| ==> r[k] > i
    decreases n
  {
    if n == 0 || limit == 0 then []
    else if ns[n - 1].userId == u then [n - 1] + Latest(ns, u, n - 1, limit - 1)
    else Latest(ns, u, n - 1, limit)
  }

  /** A listing depends only on who each notification is addressed to:
      marking notifications read does not change it. */
  lemma {:induction false} LatestIgnoresReadFlag(ns: seq<Notification>, ms: seq<Notification>, u: UserId, n: nat, limit: nat)
    requires n <= |ns| == |ms|
    requires forall i :: 0 <= i < |ns| ==> ms[i].userId == ns[i].userId
    ensures Latest(ms, u, n, limit) == Latest(ns, u, n, limit)
    decreases n
  {
    if n > 0 && limit > 0 {
      var mine := ns[n - 1].userId == u;
      assert mine == (ms[n - 1].userId == u);
      LatestIgnoresReadFlag(ns, ms, u, n - 1, if mine then limit - 1 else limit);
    }
  }

  /** Notifications inserted for other users do not change a user's
      listing. */
  lemma LatestIgnoresOthers(ns: seq<Notification>, batch: seq<Notification>, u: UserId, limit: nat)
    requires forall i :: 0 <= i < |batch| ==> batch[i].userId != u
    ensures Latest(ns + batch, u, |ns| + |batch|, limit) == Latest(ns, u, |ns|, limit)
  {
    var all := ns + batch;
    forall i | |ns| <= i < |all| ensures all[i].userId != u {
      assert all[i] == batch[i - |ns|];
    }
    LatestIgnoresTail(all, u, |ns|, |all|, limit);
    assert all[..|ns|] == ns[..|ns|];
    LatestPrefix(all, ns, u, |ns|, limit);
  }

  /** Notifications for someone else at positions `k` up to `n` do not
      enter a user's listing of the first `n`. */
  lemma {:induction false} LatestIgnoresTail(ns: seq<Notification>, u: UserId, k: nat, n: nat, limit: nat)
    requires k <= n <= |ns| && forall i :: k <= i < n ==> ns[i].userId != u
    ensures Latest(ns, u, n, limit) == Latest(ns, u, k, limit)
    decreases n - k
  {
    if k < n {
      LatestSkip(ns, u, n - 1, limit);
      LatestIgnoresTail(ns, u, k, n - 1, limit);
    }
  }

  /** A notification for someone else does not enter a user's listing. */
  lemma LatestSkip(ns: seq<Notification>, u: UserId, n: nat, limit: nat)
    requires n < |ns| && ns[n].userId != u
    ensures Latest(ns, u, n + 1, limit) == Latest(ns, u, n, limit)
  {
  }

  /** A listing over the first `n` notifications reads only those. */
  lemma {:induction false} LatestPrefix(ns: seq<Notification>, ms: seq<Notification>, u: UserId, n: nat, limit: nat)
    requires n <= |ns| && n <= |ms| && ns[..n] == ms[..n]
    ensures Latest(ns, u, n, limit) == Latest(ms, u, n, limit)
    decreases n
  {
    if n > 0 && limit > 0 {
      assert ns[n - 1] == ns[..n][n - 1] == ms[..n][n - 1] == ms[n - 1];
      assert ns[..n - 1] == ns[..n][..n - 1];
      assert ms[..n - 1] == ms[..n][..n - 1];
      LatestPrefix(ns, ms, u, n - 1, limit - 1);
      LatestPrefix(ns, ms, u, n - 1, limit);
    }
  }
}
