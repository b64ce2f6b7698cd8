/** lib/notifications.ts: a user's notifications and their read flags. */
module Notifications {
  import opened Common
  import opened Sorting
  import opened Store

  /** Default `limit` of getUserNotifications. */
  const DefaultNotificationLimit: nat := 20

  function NotificationCreatedAt(n: Notification): int { n.createdAt }

  /** The `.eq("id", id)` filter. */
  function WithId(id: Id): Notification -> bool
  {
    (n: Notification) => n.id == id
  }

  /** The `.eq("user_id", me)` filter. */
  function OwnedBy(me: UserId): Notification -> bool
  {
    (n: Notification) => n.userId == me
  }

  /** The `.eq("user_id", me).eq("is_read", false)` filter. */
  function UnreadOf(me: UserId): Notification -> bool
  {
    (n: Notification) => n.userId == me && !n.isRead
  }

  /** getUserNotifications: the caller's newest `limit` notifications, newest
      first. */
  function UserNotifications(rows: seq<Notification>, auth: Auth, limit: nat): (r: Result<seq<Notification>>)
    ensures auth.None? <==> r == Err(NotAuthenticated)
    ensures r.Ok? ==> |r.value| == Min(limit, Count(rows, OwnedBy(auth.value)))
    ensures r.Ok? ==> forall n :: n in r.value ==> n in rows && n.userId == auth.value
    ensures r.Ok? ==> multiset(r.value) <= multiset(Filter(rows, OwnedBy(auth.value)))
    ensures r.Ok? ==> SortedDescBy(r.value, NotificationCreatedAt)
    ensures r.Ok? ==> forall x, y :: x in r.value && y in rows && y.userId == auth.value && y !in r.value ==>
                                     y.createdAt <= x.createdAt
  {
    if auth.None? then Err(NotAuthenticated)
    else
      var mine := Filter(rows, OwnedBy(auth.value));
      var d := SortDescBy(mine, NotificationCreatedAt);
      var r := Take(d, limit);
      NewestOfMine(mine, d, limit);
      TakeFacts(d, limit);
      Ok(r)
  }

  lemma NewestOfMine(mine: seq<Notification>, d: seq<Notification>, limit: nat)
    requires SortedDescBy(d, NotificationCreatedAt) && multiset(d) == multiset(mine)
    ensures |Take(d, limit)| == Min(limit, |mine|)
    ensures forall n :: n in Take(d, limit) ==> n in mine
    ensures SortedDescBy(Take(d, limit), NotificationCreatedAt)
    ensures forall x, y :: x in Take(d, limit) && y in mine && y !in Take(d, limit) ==> y.createdAt <= x.createdAt
  {
    var t := Take(d, limit);
    assert |d| == |mine| by {
      assert |d| == |multiset(d)| && |mine| == |multiset(mine)|;
    }
    TakeKeepsSortedDesc(d, limit, NotificationCreatedAt);
    TakeOfSortedDescIsTop(d, limit, NotificationCreatedAt);
    forall n | n in t
      ensures n in mine
    {
      assert n in multiset(t);
      assert n in multiset(d);
    }
    forall x, y | x in t && y in mine && y !in t
      ensures y.createdAt <= x.createdAt
    {
      assert y in multiset(mine);
      assert multiset(t)[y] == 0;
      assert y in multiset(d) - multiset(t);
    }
  }

  /** getUnreadNotificationCount: the exact number of the caller's unread rows. */
  function UnreadCount(rows: seq<Notification>, auth: Auth): (r: Result<nat>)
    ensures auth.None? <==> r == Err(NotAuthenticated)
    ensures r.Ok? ==> r.value <= Count(rows, OwnedBy(auth.value))
    ensures r.Ok? ==> (r.value == 0 <==> forall n :: n in rows && n.userId == auth.value ==> n.isRead)
    ensures r.Ok? ==> r.value == Unread(rows, auth.value)
  {
    if auth.None? then Err(NotAuthenticated)
    else
      var me := auth.value;
      UnreadAreOwned(rows, me);
      assert (forall n :: n in rows && n.userId == me ==> n.isRead) ==> Filter(rows, UnreadOf(me)) == [] by {
        if forall n :: n in rows && n.userId == me ==> n.isRead {
          assert forall i :: 0 <= i < |rows| ==> rows[i] in rows;
          FilterNone(rows, UnreadOf(me));
        }
      }
      assert Filter(rows, UnreadOf(me)) == [] ==> forall n :: n in rows && n.userId == me ==> n.isRead;
      Ok(Count(rows, UnreadOf(me)))
  }

  lemma {:induction false} UnreadAreOwned(rows: seq<Notification>, me: UserId)
    ensures Count(rows, UnreadOf(me)) <= Count(rows, OwnedBy(me))
  {
    if rows != [] {
      UnreadAreOwned(rows[1..], me);
      assert rows == [rows[0]] + rows[1..];
    }
  }

  /** The number of the caller's unread rows, when there is a caller. */
  function Unread(rows: seq<Notification>, me: UserId): nat
  {
    Count(rows, UnreadOf(me))
  }

  /** markAllNotificationsAsRead leaves the caller nothing unread. */
  lemma MarkAllClearsUnread(rows: seq<Notification>, me: UserId)
    ensures Unread(SetRead(rows, OwnedBy(me)), me) == 0
  {
    var after := SetRead(rows, OwnedBy(me));
    forall i | 0 <= i < |after|
      ensures !UnreadOf(me)(after[i])
    {
    }
    FilterNone(after, UnreadOf(me));
  }

  /** Some unread row of the caller has that id. */
  predicate UnreadWithId(rows: seq<Notification>, id: Id, me: UserId)
  {
    exists n :: n in rows && n.id == id && UnreadOf(me)(n)
  }

  /** Marking one id read lowers the caller's unread count by one exactly when
      that row is the caller's and unread (ids being unique), and otherwise
      leaves it alone. */
  lemma {:induction false} MarkOneCount(rows: seq<Notification>, id: Id, me: UserId)
    requires IdsDistinct(rows)
    ensures Unread(SetRead(rows, WithId(id)), me) + (if UnreadWithId(rows, id, me) then 1 else 0)
            == Unread(rows, me)
  {
    if rows != [] {
      var after := SetRead(rows, WithId(id));
      var rest := rows[1..];
      var u := UnreadOf(me);
      IdsDistinctTail(rows);
      MarkOneCount(rest, id, me);
      assert after[1..] == SetRead(rest, WithId(id));
      CountCons(after, u);
      CountCons(rows, u);
      UnreadWithIdCons(rows, id, me);
      if rows[0].id == id {
        forall i | 0 <= i < |rest|
          ensures !WithId(id)(rest[i])
        {
          assert rows[i + 1] == rest[i];
        }
        SetReadNone(rest, WithId(id));
        assert !u(after[0]);
      } else {
        assert after[0] == rows[0];
      }
    }
  }

  lemma IdsDistinctTail(rows: seq<Notification>)
    requires rows != [] && IdsDistinct(rows)
    ensures IdsDistinct(rows[1..])
    ensures forall i :: 0 <= i < |rows[1..]| ==> rows[1..][i].id != rows[0].id
  {
    var rest := rows[1..];
    forall i, j | 0 <= i < j < |rest|
      ensures rest[i].id != rest[j].id
    {
      assert rest[i] == rows[i + 1] && rest[j] == rows[j + 1];
    }
    forall i | 0 <= i < |rest|
      ensures rest[i].id != rows[0].id
    {
      assert rest[i] == rows[i + 1];
    }
  }

  /** The head decides when it carries the id, since no later row does. */
  lemma UnreadWithIdCons(rows: seq<Notification>, id: Id, me: UserId)
    requires rows != [] && IdsDistinct(rows)
    ensures rows[0].id == id ==> (UnreadWithId(rows, id, me) <==> UnreadOf(me)(rows[0]))
    ensures rows[0].id != id ==> (UnreadWithId(rows, id, me) <==> UnreadWithId(rows[1..], id, me))
  {
    IdsDistinctTail(rows);
    assert forall n :: n in rows <==> n == rows[0] || n in rows[1..] by {
      assert rows == [rows[0]] + rows[1..];
    }
    if rows[0].id == id {
      assert forall n :: n in rows[1..] ==> n.id != id;
    }
  }

  /** Marking read by a filter that no row passes changes nothing. */
  lemma {:induction false} SetReadNone(rows: seq<Notification>, sel: Notification -> bool)
    requires forall i :: 0 <= i < |rows| ==> !sel(rows[i])
    ensures SetRead(rows, sel) == rows
  {
    if rows != [] {
      SetReadNone(rows[1..], sel);
    }
  }

  /** A new notification for `me` raises the unread count by one; one for
      another user leaves it. */
  lemma CreateCount(rows: seq<Notification>, n: Notification, me: UserId)
    requires !n.isRead
    ensures Unread(rows + [n], me) == Unread(rows, me) + (if n.userId == me then 1 else 0)
  {
    CountAppend(rows, n, UnreadOf(me));
  }

  predicate IdsDistinct(rows: seq<Notification>)
  {
    forall i, j :: 0 <= i < j < |rows| ==> rows[i].id != rows[j].id
  }

  lemma AppendKeepsIdsDistinct(rows: seq<Notification>, n: Notification)
    requires IdsDistinct(rows)
    requires forall m :: m in rows ==> m.id != n.id
    ensures IdsDistinct(rows + [n])
  {
    var all := rows + [n];
    forall i, j | 0 <= i < j < |all|
      ensures all[i].id != all[j].id
    {
      assert all[i] == rows[i];
      if j < |rows| {
        assert all[j] == rows[j];
      } else {
        assert rows[i] in rows;
      }
    }
  }

  /** Three notifications created for a user with none, one of them marked
      read: two remain unread. */
  lemma ThreeCreatedOneRead(rows: seq<Notification>, me: UserId, a: Notification, b: Notification, c: Notification)
    requires forall n :: n in rows ==> n.userId != me
    requires a.userId == me && b.userId == me && c.userId == me
    requires !a.isRead && !b.isRead && !c.isRead
    requires IdsDistinct(rows)
    requires forall n :: n in rows ==> n.id != a.id && n.id != b.id && n.id != c.id
    requires a.id != b.id && c.id != b.id && a.id != c.id
    ensures Unread(SetRead(rows + [a, b, c], WithId(b.id)), me) == 2
  {
    assert Unread(rows, me) == 0 by {
      assert forall i :: 0 <= i < |rows| ==> rows[i] in rows;
      FilterNone(rows, UnreadOf(me));
    }
    CreateCount(rows, a, me);
    CreateCount(rows + [a], b, me);
    CreateCount(rows + [a, b], c, me);
    assert rows + [a] + [b] == rows + [a, b];
    assert rows + [a, b] + [c] == rows + [a, b, c];
    AppendKeepsIdsDistinct(rows, a);
    AppendKeepsIdsDistinct(rows + [a], b);
    AppendKeepsIdsDistinct(rows + [a, b], c);
    var all := rows + [a, b, c];
    assert b in all;
    MarkOneCount(all, b.id, me);
  }

  /** markNotificationAsRead: sets the read flag of the row with that id; no
      authenticated user is needed. */
  method MarkNotificationAsRead(db: Db, notificationId: Id) returns (r: Outcome)
    requires db.Valid()
    modifies db`notifications
    ensures db.Valid()
    ensures Store.Notifications in db.failing ==> r == Fail(StoreFailure) && unchanged(db)
    ensures Store.Notifications !in db.failing ==>
      r == Pass && db.notifications == SetRead(old(db.notifications), WithId(notificationId))
  {
    r := db.UpdateNotificationsRead(WithId(notificationId));
  }

  /** markAllNotificationsAsRead: sets the read flag of every row of the
      caller; other users' rows stay as they were. */
  method MarkAllNotificationsAsRead(db: Db, auth: Auth) returns (r: Outcome)
    requires db.Valid()
    modifies db`notifications
    ensures db.Valid()
    ensures auth.None? ==> r == Fail(NotAuthenticated) && unchanged(db)
    ensures auth.Some? && Store.Notifications in db.failing ==> r == Fail(StoreFailure) && unchanged(db)
    ensures auth.Some? && Store.Notifications !in db.failing ==>
      && r == Pass && db.notifications == SetRead(old(db.notifications), OwnedBy(auth.value))
      && Unread(db.notifications, auth.value) == 0
  {
    if auth.None? {
      return Fail(NotAuthenticated);
    }
    r := db.UpdateNotificationsRead(OwnedBy(auth.value));
    MarkAllClearsUnread(old(db.notifications), auth.value);
  }

  /** createNotification: a new unread row for `userId`, who need not be the
      caller; no authenticated user is needed. */
  method CreateNotification(db: Db, userId: UserId, kind: string, content: string, relatedMessageId: Option<Id>, now: int)
    returns (r: Result<Notification>)
    requires db.Valid()
    modifies db`notifications, db`nextId
    ensures db.Valid()
    ensures Store.Notifications in db.failing ==> r == Err(StoreFailure) && unchanged(db)
    ensures Store.Notifications !in db.failing ==>
      && r.Ok? && db.notifications == old(db.notifications) + [r.value]
      && r.value.userId == userId && r.value.kind == kind && r.value.content == content
      && r.value.relatedMessageId == relatedMessageId && !r.value.isRead
  {
    r := db.InsertNotification(userId, kind, content, relatedMessageId, now);
  }

  /** deleteNotification: removes the row with that id and nothing else. */
  method DeleteNotification(db: Db, notificationId: Id) returns (r: Outcome)
    requires db.Valid()
    modifies db`notifications
    ensures db.Valid()
    ensures Store.Notifications in db.failing ==> r == Fail(StoreFailure) && unchanged(db)
    ensures Store.Notifications !in db.failing ==>
      && r == Pass
      && forall n :: n in db.notifications <==> n in old(db.notifications) && n.id != notificationId
  {
    SubsequenceKeepsNotificationIds(db.notifications, (n: Notification) => n.id != notificationId, db.nextId);
    r := db.DeleteNotification(notificationId);
  }
}
