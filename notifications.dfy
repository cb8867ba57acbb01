/** The notification collection and its two handlers
    (backend/controllers/notificationController.js): a user's latest
    notifications, and marking one of them read. A notification's id is
    its position in the collection, which is kept in insertion order. */
module Notifications {
  import opened Common
  import opened NotificationModel

  class Inbox {
    var notifications: seq<Notification>

    /** Every stored notification passed the validators. */
    ghost predicate Valid()
      reads this
    {
      forall i :: 0 <= i < |notifications| ==> NotificationValid(notifications[i])
    }

    constructor ()
      ensures Valid() && notifications == []
    {
      notifications := [];
    }

    /** `Notification.insertMany(batch)` and `Notification.create(n)`: the
        batch is appended in its order, each one unread. */
    method Insert(batch: seq<Notification>)
      requires Valid() && forall i :: 0 <= i < |batch| ==> NotificationValid(batch[i])
      modifies this
      ensures Valid() && notifications == old(notifications) + batch
    {
      notifications := notifications + batch;
    }

    /** `getMyNotifications`: the caller's latest notifications, newest
        first, at most 50. */
    function MyNotifications(caller: UserId): (r: seq<NotificationId>)
      reads this
      ensures |r| <= ListingLimit
      ensures forall k :: 0 <= k < |r| ==> r[k] < |notifications| && notifications[r[k]].userId == caller
      ensures forall a, b :: 0 <= a < b < |r| ==> r[a] > r[b]
      ensures forall i :: 0 <= i < |notifications| && notifications[i].userId == caller && i !in r ==>
                |r| == ListingLimit && forall k :: 0 <= k < |r| ==> r[k] > i
    {
      Latest(notifications, caller, |notifications|, ListingLimit)
    }

    /** `markAsRead`: an unknown id is not found; a notification addressed
        to someone else is refused; otherwise it is read afterwards, and a
        notification already read is not saved again. No other
        notification changes. */
    method MarkAsRead(id: NotificationId, caller: UserId) returns (r: Result<()>)
      requires Valid()
      modifies this
      ensures Valid()
      ensures id >= |old(notifications)| ==>
                r == Err(NotFound("Notification not found")) && notifications == old(notifications)
      ensures id < |old(notifications)| && old(notifications)[id].userId != caller ==>
                r == Err(Forbidden("Not authorized")) && notifications == old(notifications)
      ensures id < |old(notifications)| && old(notifications)[id].userId == caller ==>
                r == Ok(()) && notifications == old(notifications)[id := old(notifications)[id].(isRead := true)]
      ensures id < |old(notifications)| && old(notifications)[id].isRead ==> notifications == old(notifications)
    {
      if id >= |notifications| {
        return Err(NotFound("Notification not found"));
      }
      var n := notifications[id];
      if n.userId != caller {
        return Err(Forbidden("Not authorized"));
      }
      if !n.isRead {
        notifications := notifications[id := n.(isRead := true)];
      }
      r := Ok(());
    }
  }

  /** Marking a notification read leaves every listing as it was. */
  lemma MarkAsReadKeepsListings(ns: seq<Notification>, id: NotificationId, u: UserId)
    requires id < |ns|
    ensures var ms := ns[id := ns[id].(isRead := true)];
            Latest(ms, u, |ms|, ListingLimit) == Latest(ns, u, |ns|, ListingLimit)
  {
    LatestIgnoresReadFlag(ns, ns[id := ns[id].(isRead := true)], u, |ns|, ListingLimit);
  }
}
