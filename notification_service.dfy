/**
 * Variant B's notification log: notifications are created unread, listed newest
 * first, and marked read one at a time or all of a user's at once.
 */
module NotificationService {
  import opened Wrappers
  import opened Ordering
  import opened ClerkModels
  import opened ClerkDb
  import opened UserService

  function NotifiedUser(userId: int): Notification -> bool {
    (n: Notification) => n.userId == userId
  }

  /** `create_notification`: stores one unread notification with the given user, review and message. */
  method CreateNotification(db: Database, userId: nat, reviewId: int, message: string) returns (n: Notification)
    requires db.Valid()
    modifies db
    ensures db.Valid()
    ensures n == Notification(|old(db.notifications)| + 1, userId, reviewId, message, false, old(db.clock))
    ensures !n.isRead
    ensures db.notifications == old(db.notifications) + [n]
    ensures db.users == old(db.users) && db.balances == old(db.balances) && db.reviews == old(db.reviews)
    ensures db.clock == old(db.clock) + 1
    ensures db.log == old(db.log) + [NotificationAdded(n.id)]
  {
    n := db.AddNotification(userId, reviewId, message);
  }

  /** A user's notifications, ordered by creation time, newest first. */
  function NotificationsOf(ns: seq<Notification>, userId: int): (r: seq<Notification>)
    ensures forall i :: 0 <= i < |r| ==> r[i] in ns && r[i].userId == userId
    ensures forall i :: 0 <= i < |ns| && ns[i].userId == userId ==> ns[i] in r
    ensures SortedDesc(r, NotificationCreatedAt)
  {
    var mine := Filter(ns, NotifiedUser(userId));
    var sorted := SortDesc(mine, NotificationCreatedAt);
    SortDescSameRows(mine, NotificationCreatedAt);
    sorted
  }

  /** Notifications are stamped in table order, so newest first is the table read backwards. */
  lemma NotificationsNewestFirst(ns: seq<Notification>, userId: int)
    requires Increasing(ns, NotificationCreatedAt)
    ensures NotificationsOf(ns, userId) == Reverse(Filter(ns, NotifiedUser(userId)))
  {
    FilterIncreasing(ns, NotifiedUser(userId), NotificationCreatedAt);
    SortDescOfIncreasing(Filter(ns, NotifiedUser(userId)), NotificationCreatedAt);
  }

  /** `get_user_notifications`: the user's notifications, newest first; empty for an unknown Clerk id. */
  function GetUserNotifications(users: seq<User>, ns: seq<Notification>, clerkId: string): (r: seq<Notification>)
    ensures GetUserByClerkId(users, clerkId).None? ==> r == []
    ensures GetUserByClerkId(users, clerkId).Some? ==> r == NotificationsOf(ns, GetUserByClerkId(users, clerkId).value.id)
  {
    match GetUserByClerkId(users, clerkId)
    case None => []
    case Some(u) => NotificationsOf(ns, u.id)
  }

  function IsOwnNotification(notificationId: int, userId: int): Notification -> bool {
    (n: Notification) => n.id == notificationId && n.userId == userId
  }

  /**
   * The row `mark_notification_as_read` sets: the first notification with that id
   * belonging to the user with that Clerk id, if the user and the row exist.
   */
  function ReadTarget(users: seq<User>, ns: seq<Notification>, notificationId: int, clerkId: string): (r: Option<nat>)
    ensures r.Some? ==> && r.value < |ns| && ns[r.value].id == notificationId
                        && GetUserByClerkId(users, clerkId).Some?
                        && ns[r.value].userId == GetUserByClerkId(users, clerkId).value.id
    ensures r.None? <==>
              || GetUserByClerkId(users, clerkId).None?
              || forall i :: 0 <= i < |ns| ==> !(ns[i].id == notificationId && ns[i].userId == GetUserByClerkId(users, clerkId).value.id)
  {
    match GetUserByClerkId(users, clerkId)
    case None => None
    case Some(u) => FirstIndex(ns, IsOwnNotification(notificationId, u.id))
  }

  /** The notifications after `mark_notification_as_read`: the target, if any, read; every other row as it was. */
  function AfterMarkRead(users: seq<User>, ns: seq<Notification>, notificationId: int, clerkId: string): (r: seq<Notification>)
    ensures |r| == |ns|
    ensures ReadTarget(users, ns, notificationId, clerkId).None? ==> r == ns
    ensures ReadTarget(users, ns, notificationId, clerkId).Some? ==>
              var k := ReadTarget(users, ns, notificationId, clerkId).value;
              && r[k].isRead && SameNotification(r[k], ns[k])
              && forall i :: 0 <= i < |ns| && i != k ==> r[i] == ns[i]
  {
    match ReadTarget(users, ns, notificationId, clerkId)
    case None => ns
    case Some(k) => ns[k := ns[k].(isRead := true)]
  }

  /** Marking the same notification read twice is the same as marking it once. */
  lemma MarkReadIdempotent(users: seq<User>, ns: seq<Notification>, notificationId: int, clerkId: string)
    ensures AfterMarkRead(users, AfterMarkRead(users, ns, notificationId, clerkId), notificationId, clerkId)
            == AfterMarkRead(users, ns, notificationId, clerkId)
  {
    var once := AfterMarkRead(users, ns, notificationId, clerkId);
    match ReadTarget(users, ns, notificationId, clerkId)
    case None =>
    case Some(k) =>
      var u := GetUserByClerkId(users, clerkId).value;
      FirstIndexIs(once, IsOwnNotification(notificationId, u.id), k);
      assert once[k := once[k].(isRead := true)] == once;
  }

  /**
   * `mark_notification_as_read`: `None`, with nothing written, for an unknown Clerk
   * id or a notification that is missing or someone else's; otherwise the
   * notification, now read, with nothing but its read flag changed.
   */
  method MarkNotificationAsRead(db: Database, notificationId: int, clerkId: string) returns (r: Option<Notification>)
    requires db.Valid()
    modifies db
    ensures db.Valid()
    ensures r.None? <==> ReadTarget(old(db.users), old(db.notifications), notificationId, clerkId).None?
    ensures db.notifications == AfterMarkRead(old(db.users), old(db.notifications), notificationId, clerkId)
    ensures r.Some? ==> r.value.isRead && r.value == db.notifications[ReadTarget(old(db.users), old(db.notifications), notificationId, clerkId).value]
    ensures db.users == old(db.users) && db.balances == old(db.balances) && db.reviews == old(db.reviews)
    ensures db.clock == old(db.clock)
    ensures r.None? ==> db.log == old(db.log)
    ensures r.Some? ==> db.log == old(db.log) + [NotificationRead(notificationId)]
  {
    var user := GetUserByClerkId(db.users, clerkId);
    if user.None? {
      return None;
    }
    var k := FirstIndex(db.notifications, IsOwnNotification(notificationId, user.value.id));
    if k.None? {
      return None;
    }
    db.SetRead(k.value);
    db.log := db.log + [NotificationRead(notificationId)];
    r := Some(db.notifications[k.value]);
  }

  /** Every notification of the user read; other users' notifications as they were. */
  function AllRead(ns: seq<Notification>, userId: int): (r: seq<Notification>)
    ensures |r| == |ns|
    ensures forall i :: 0 <= i < |ns| ==> SameNotification(r[i], ns[i])
    ensures forall i :: 0 <= i < |ns| && ns[i].userId == userId ==> r[i].isRead
    ensures forall i :: 0 <= i < |ns| && ns[i].userId != userId ==> r[i] == ns[i]
  {
    seq(|ns|, i requires 0 <= i < |ns| => if ns[i].userId == userId then ns[i].(isRead := true) else ns[i])
  }

  /** Marking all of a user's notifications read a second time changes nothing. */
  lemma AllReadIdempotent(ns: seq<Notification>, userId: int)
    ensures AllRead(AllRead(ns, userId), userId) == AllRead(ns, userId)
  {
    var once := AllRead(ns, userId);
    var twice := AllRead(once, userId);
    forall i | 0 <= i < |ns| ensures twice[i] == once[i] {
      if ns[i].userId == userId {
        assert once[i] == ns[i].(isRead := true);
      }
    }
  }

  /** The indices, from `i` on, of the user's unread notifications, in table order. */
  function UnreadFrom(ns: seq<Notification>, userId: int, i: nat): (r: seq<nat>)
    requires i <= |ns|
    ensures forall j :: 0 <= j < |r| ==> i <= r[j] < |ns| && ns[r[j]].userId == userId && !ns[r[j]].isRead
    ensures forall k :: i <= k < |ns| && ns[k].userId == userId && !ns[k].isRead ==> k in r
    decreases |ns| - i
  {
    if i == |ns| then []
    else if ns[i].userId == userId && !ns[i].isRead then [i] + UnreadFrom(ns, userId, i + 1)
    else UnreadFrom(ns, userId, i + 1)
  }

  /** The rows at the given indices read, every other row as it was. */
  function ReadAt(ns: seq<Notification>, indices: seq<nat>): (r: seq<Notification>)
    ensures |r| == |ns|
  {
    seq(|ns|, i requires 0 <= i < |ns| => if i in indices then ns[i].(isRead := true) else ns[i])
  }

  /** Reading exactly the user's unread rows is reading all of the user's rows. */
  lemma ReadUnreadIsAllRead(ns: seq<Notification>, userId: int)
    ensures ReadAt(ns, UnreadFrom(ns, userId, 0)) == AllRead(ns, userId)
  {
    var unread := UnreadFrom(ns, userId, 0);
    forall i | 0 <= i < |ns| ensures ReadAt(ns, unread)[i] == AllRead(ns, userId)[i] {
      if ns[i].userId == userId && ns[i].isRead {
        assert ns[i].(isRead := true) == ns[i];
      }
    }
  }

  /** Sets the read flag of each row in `indices`, in order. */
  method ReadEach(db: Database, indices: seq<nat>)
    requires db.Valid()
    requires forall j :: 0 <= j < |indices| ==> indices[j] < |db.notifications|
    modifies db
    ensures db.Valid()
    ensures db.notifications == ReadAt(old(db.notifications), indices)
    ensures db.users == old(db.users) && db.balances == old(db.balances) && db.reviews == old(db.reviews)
    ensures db.clock == old(db.clock) && db.log == old(db.log)
  {
    ghost var before := db.notifications;
    var j := 0;
    while j < |indices|
      invariant 0 <= j <= |indices|
      invariant db.Valid()
      invariant db.notifications == ReadAt(before, indices[..j])
      invariant db.users == old(db.users) && db.balances == old(db.balances) && db.reviews == old(db.reviews)
      invariant db.clock == old(db.clock) && db.log == old(db.log)
    {
      db.SetRead(indices[j]);
      assert indices[..j + 1] == indices[..j] + [indices[j]];
      j := j + 1;
    }
    assert indices[..j] == indices;
  }

  /**
   * `mark_all_notifications_as_read`: for an unknown Clerk id, an empty list and no
   * change; otherwise each of the user's unread notifications is set read, one
   * commit makes that durable, and the result is all of the user's notifications,
   * newest first, not only the ones that changed.
   */
  method MarkAllNotificationsAsRead(db: Database, clerkId: string) returns (r: seq<Notification>)
    requires db.Valid()
    modifies db
    ensures db.Valid()
    ensures GetUserByClerkId(old(db.users), clerkId).None? ==>
              r == [] && db.notifications == old(db.notifications) && db.log == old(db.log)
    ensures GetUserByClerkId(old(db.users), clerkId).Some? ==>
              && db.notifications == AllRead(old(db.notifications), GetUserByClerkId(old(db.users), clerkId).value.id)
              && r == GetUserNotifications(db.users, db.notifications, clerkId)
              && db.log == old(db.log) + [AllNotificationsRead(GetUserByClerkId(old(db.users), clerkId).value.id)]
    ensures db.users == old(db.users) && db.balances == old(db.balances) && db.reviews == old(db.reviews)
    ensures db.clock == old(db.clock)
  {
    var user := GetUserByClerkId(db.users, clerkId);
    if user.None? {
      return [];
    }
    ReadAllOf(db, user.value.id);
    r := GetUserNotifications(db.users, db.notifications, clerkId);
  }

  /** The update and commit of `mark_all_notifications_as_read` for a known user. */
  method ReadAllOf(db: Database, userId: nat)
    requires db.Valid()
    modifies db
    ensures db.Valid()
    ensures db.notifications == AllRead(old(db.notifications), userId)
    ensures db.log == old(db.log) + [AllNotificationsRead(userId)]
    ensures db.users == old(db.users) && db.balances == old(db.balances) && db.reviews == old(db.reviews)
    ensures db.clock == old(db.clock)
  {
    var unread := UnreadFrom(db.notifications, userId, 0);
    ReadUnreadIsAllRead(db.notifications, userId);
    ReadEach(db, unread);
    db.log := db.log + [AllNotificationsRead(userId)];
  }
}
