/** components/notification-bell.tsx: the bell with its unread badge and the
    list of the caller's notifications, each of which can be marked read or
    deleted. Every action that succeeds reloads both the list and the count. */
module NotificationBell {
  import opened Common
  import opened Store
  import opened Notifications

  /** The badge: absent when nothing is unread, "9+" past nine, otherwise
      the count in decimal. */
  function BadgeLabel(unreadCount: int): (r: Option<string>)
    ensures r.None? <==> unreadCount <= 0
    ensures unreadCount > 9 ==> r == Some("9+")
    ensures 0 < unreadCount <= 9 ==>
      && r.Some? && |r.value| == 1 && IsDigit(r.value[0])
      && DigitsValue(r.value) == unreadCount
  {
    if unreadCount <= 0 then None
    else if unreadCount > 9 then Some("9+")
    else
      NatToStringRoundTrip(unreadCount);
      Some(NatToString(unreadCount))
  }

  /** "Mark all read" is offered only while something is unread. */
  predicate ShowMarkAll(unreadCount: int)
  {
    unreadCount > 0
  }

  /** The ids of the shown notifications that get a mark-read button: the
      unread ones, in list order. */
  function MarkReadIds(ns: seq<Notification>): (r: seq<Id>)
    ensures |r| <= |ns|
    ensures forall id :: id in r <==> exists n :: n in ns && !n.isRead && n.id == id
  {
    if ns == [] then []
    else
      var rest := MarkReadIds(ns[1..]);
      assert forall n :: n in ns <==> n == ns[0] || n in ns[1..];
      if !ns[0].isRead then [ns[0].id] + rest else rest
  }

  class Bell {
    var notifications: seq<Notification>
    var unreadCount: int
    var isOpen: bool

    constructor()
      ensures notifications == [] && unreadCount == 0 && !isOpen
      ensures BadgeLabel(unreadCount).None?
    {
      notifications := [];
      unreadCount := 0;
      isOpen := false;
    }

    /** The state a reload leaves: with a caller, their newest notifications
        and their unread count; without one both queries fail and nothing
        changes. */
    ghost predicate Shows(db: Db, auth: Auth, before: seq<Notification>, countBefore: int)
      reads this, db
    {
      && (auth.Some? ==>
            && notifications == UserNotifications(db.notifications, auth, DefaultNotificationLimit).value
            && unreadCount == Unread(db.notifications, auth.value))
      && (auth.None? ==> notifications == before && unreadCount == countBefore)
    }

    /** loadNotifications: both queries together (Promise.all); the state is
        replaced only when both succeed. */
    method LoadNotifications(db: Db, auth: Auth)
      modifies this`notifications, this`unreadCount
      ensures Shows(db, auth, old(notifications), old(unreadCount))
    {
      var list := UserNotifications(db.notifications, auth, DefaultNotificationLimit);
      var count := UnreadCount(db.notifications, auth);
      if list.Ok? && count.Ok? {
        notifications := list.value;
        unreadCount := count.value;
      }
    }

    /** handleMarkAsRead: mark that row read, then reload. */
    method HandleMarkAsRead(db: Db, auth: Auth, notificationId: Id) returns (r: Outcome)
      requires db.Valid()
      modifies this`notifications, this`unreadCount, db`notifications
      ensures db.Valid()
      ensures Store.Notifications in db.failing ==> r.Fail? && unchanged(this) && unchanged(db)
      ensures Store.Notifications !in db.failing ==>
        && r == Pass
        && db.notifications == SetRead(old(db.notifications), WithId(notificationId))
        && Shows(db, auth, old(notifications), old(unreadCount))
    {
      r := MarkNotificationAsRead(db, notificationId);
      if r.Pass? {
        LoadNotifications(db, auth);
      }
    }

    /** handleMarkAllAsRead: mark all the caller's rows read, then reload;
        afterwards the badge is gone and every listed row is read. */
    method HandleMarkAllAsRead(db: Db, auth: Auth) returns (r: Outcome)
      requires db.Valid()
      modifies this`notifications, this`unreadCount, db`notifications
      ensures db.Valid()
      ensures auth.None? || Store.Notifications in db.failing ==> r.Fail? && unchanged(this) && unchanged(db)
      ensures auth.Some? && Store.Notifications !in db.failing ==>
        && r == Pass
        && db.notifications == SetRead(old(db.notifications), OwnedBy(auth.value))
        && Shows(db, auth, old(notifications), old(unreadCount))
        && unreadCount == 0 && BadgeLabel(unreadCount).None? && !ShowMarkAll(unreadCount)
        && MarkReadIds(notifications) == []
    {
      r := MarkAllNotificationsAsRead(db, auth);
      if r.Pass? {
        ReloadAllRead(db, auth.value);
      }
    }

    /** The reload after marking all read: nothing of the caller's is
        unread, so the count is zero and no listed row offers a button. */
    method ReloadAllRead(db: Db, me: UserId)
      requires Unread(db.notifications, me) == 0
      modifies this`notifications, this`unreadCount
      ensures Shows(db, Some(me), old(notifications), old(unreadCount))
      ensures unreadCount == 0 && MarkReadIds(notifications) == []
    {
      LoadNotifications(db, Some(me));
      NothingToMark(db.notifications, me, notifications);
    }

    /** handleDelete: delete that row, then reload. */
    method HandleDelete(db: Db, auth: Auth, notificationId: Id) returns (r: Outcome)
      requires db.Valid()
      modifies this`notifications, this`unreadCount, db`notifications
      ensures db.Valid()
      ensures Store.Notifications in db.failing ==> r.Fail? && unchanged(this) && unchanged(db)
      ensures Store.Notifications !in db.failing ==>
        && r == Pass
        && (forall n :: n in db.notifications <==> n in old(db.notifications) && n.id != notificationId)
        && Shows(db, auth, old(notifications), old(unreadCount))
    {
      r := DeleteNotification(db, notificationId);
      if r.Pass? {
        LoadNotifications(db, auth);
      }
    }
  }

  /** When none of the caller's rows is unread, no listed row of theirs
      offers a mark-read button. */
  lemma NothingToMark(rows: seq<Notification>, me: UserId, shown: seq<Notification>)
    requires Unread(rows, me) == 0
    requires forall n :: n in shown ==> n in rows && n.userId == me
    ensures MarkReadIds(shown) == []
  {
    assert UnreadCount(rows, Some(me)).value == 0;
  }
}
