/** The hosted backend as the client library sees it: one table of rows per
    entity, with the insert, update, upsert and delete operations the library
    issues. Row ids come from a counter; timestamps are milliseconds passed in
    by the caller. `failing` is the set of tables whose writes the store
    currently rejects (a network or permission failure), so that the error
    paths of the library can be followed. */
module Store {
  import opened Common

  datatype User = User(id: UserId, username: string, avatarUrl: Option<string>,
                       isOnline: bool, usernameColor: string, hasFreeNitro: bool)

  /** A chat message; it lives in a channel or in a DM conversation. */
  datatype Message = Message(id: Id, content: string, authorId: UserId,
                             channelId: Option<Id>, dmConversationId: Option<Id>,
                             fileUrl: Option<string>, fileName: Option<string>,
                             isEdited: bool, createdAt: int)

  datatype Reaction = Reaction(id: Id, messageId: Id, userId: UserId, emoji: string, createdAt: int)

  /** The typing_indicators table has the primary key (user, channel). */
  datatype TypingIndicator = TypingIndicator(userId: UserId, channelId: Id, startedAt: int)

  datatype Server = Server(id: Id, name: string, iconUrl: Option<string>, ownerId: UserId,
                           inviteCode: string, boostLevel: int, createdAt: int)

  datatype Role = Owner | Member

  datatype Membership = Membership(serverId: Id, userId: UserId, role: Role, joinedAt: int)

  datatype Channel = Channel(id: Id, serverId: Id, name: string, kind: string, position: int, createdAt: int)

  datatype DMConversation = DMConversation(id: Id, user1: UserId, user2: UserId, createdAt: int)

  datatype Notification = Notification(id: Id, userId: UserId, kind: string, content: string,
                                       isRead: bool, relatedMessageId: Option<Id>, createdAt: int)

  datatype CustomEmoji = CustomEmoji(id: Id, serverId: Option<Id>, userId: Option<UserId>, name: string,
                                     imageUrl: string, isAnimated: bool, createdAt: int)

  datatype Table =
    | Users | Messages | MessageReactions | TypingIndicators | Servers | ServerMembers
    | Channels | DmConversations | Notifications | CustomEmojis

  // ---------------------------------------------------------------------------
  // Keys and the invariants the client code keeps

  /** A message belongs to exactly one context: a channel or a DM conversation. */
  predicate OneContext(m: Message)
  {
    m.channelId.Some? != m.dmConversationId.Some?
  }

  predicate IsReaction(r: Reaction, messageId: Id, userId: UserId, emoji: string)
  {
    r.messageId == messageId && r.userId == userId && r.emoji == emoji
  }

  predicate HasReaction(rows: seq<Reaction>, messageId: Id, userId: UserId, emoji: string)
  {
    exists i :: 0 <= i < |rows| && IsReaction(rows[i], messageId, userId, emoji)
  }

  /** The unique constraint on (message, user, emoji). */
  predicate ReactionsUnique(rows: seq<Reaction>)
  {
    forall i, j :: 0 <= i < j < |rows| ==> !IsReaction(rows[j], rows[i].messageId, rows[i].userId, rows[i].emoji)
  }

  predicate IsTyping(t: TypingIndicator, userId: UserId, channelId: Id)
  {
    t.userId == userId && t.channelId == channelId
  }

  predicate TypingKeysUnique(rows: seq<TypingIndicator>)
  {
    forall i, j :: 0 <= i < j < |rows| ==> !IsTyping(rows[j], rows[i].userId, rows[i].channelId)
  }

  predicate IsMembership(m: Membership, serverId: Id, userId: UserId)
  {
    m.serverId == serverId && m.userId == userId
  }

  /** At most one membership row per (server, user). */
  predicate MembershipsUnique(rows: seq<Membership>)
  {
    forall i, j :: 0 <= i < j < |rows| ==> !IsMembership(rows[j], rows[i].serverId, rows[i].userId)
  }

  function ServerIds(servers: seq<Server>): set<Id>
  {
    set s | s in servers :: s.id
  }

  lemma ServerIdsAppend(servers: seq<Server>, s: Server)
    ensures ServerIds(servers + [s]) == ServerIds(servers) + {s.id}
  {
    assert forall x :: x in servers + [s] <==> x in servers || x == s;
  }

  /** The conversation is between `a` and `b`, stored in either order. */
  predicate IsPair(c: DMConversation, a: UserId, b: UserId)
  {
    (c.user1 == a && c.user2 == b) || (c.user1 == b && c.user2 == a)
  }

  /** At most one conversation row per unordered pair of users. */
  predicate PairsUnique(rows: seq<DMConversation>)
  {
    forall i, j :: 0 <= i < j < |rows| ==> !IsPair(rows[j], rows[i].user1, rows[i].user2)
  }

  predicate NotificationIdsBelow(rows: seq<Notification>, bound: nat)
  {
    (forall i :: 0 <= i < |rows| ==> rows[i].id < bound)
    && forall i, j :: 0 <= i < j < |rows| ==> rows[i].id != rows[j].id
  }

  // ---------------------------------------------------------------------------
  // Table operations on values

  /** The rows a delete of (message, user, emoji) keeps. */
  function OtherThanReaction(messageId: Id, userId: UserId, emoji: string): Reaction -> bool
  {
    (x: Reaction) => !IsReaction(x, messageId, userId, emoji)
  }

  /** DELETE ... WHERE message_id = m AND user_id = u AND emoji = e. Every
      other reaction stays, as many times as it was there. */
  function WithoutReaction(rows: seq<Reaction>, messageId: Id, userId: UserId, emoji: string): (r: seq<Reaction>)
    ensures !HasReaction(r, messageId, userId, emoji)
    ensures forall x :: !IsReaction(x, messageId, userId, emoji) ==> multiset(r)[x] == multiset(rows)[x]
    ensures ReactionsUnique(rows) ==> ReactionsUnique(r)
  {
    var p := OtherThanReaction(messageId, userId, emoji);
    FilterMultiset(rows, p);
    var r := Filter(rows, p);
    SubsequenceKeepsReactionsUnique(rows, p);
    r
  }

  lemma {:induction false} SubsequenceKeepsReactionsUnique(rows: seq<Reaction>, p: Reaction -> bool)
    ensures ReactionsUnique(rows) ==> ReactionsUnique(Filter(rows, p))
  {
    if rows != [] {
      SubsequenceKeepsReactionsUnique(rows[1..], p);
      if ReactionsUnique(rows) {
        var t := Filter(rows[1..], p);
        assert ReactionsUnique(rows[1..]) by {
          forall i, j | 0 <= i < j < |rows[1..]|
            ensures !IsReaction(rows[1..][j], rows[1..][i].messageId, rows[1..][i].userId, rows[1..][i].emoji)
          {
            assert rows[1..][i] == rows[i + 1] && rows[1..][j] == rows[j + 1];
          }
        }
        forall k | 0 <= k < |t|
          ensures !IsReaction(t[k], rows[0].messageId, rows[0].userId, rows[0].emoji)
        {
          assert t[k] in rows[1..];
          var j :| 0 <= j < |rows[1..]| && rows[1..][j] == t[k];
          assert rows[j + 1] == t[k];
        }
      }
    }
  }

  /** INSERT ... ON CONFLICT (user_id, channel_id) DO UPDATE: afterwards the
      row is the only one with its key, and rows of other keys are untouched. */
  function Upserted(rows: seq<TypingIndicator>, row: TypingIndicator): (r: seq<TypingIndicator>)
    ensures row in r
    ensures forall t :: t in r && IsTyping(t, row.userId, row.channelId) ==> t == row
    ensures forall t :: !IsTyping(t, row.userId, row.channelId) ==> (t in r <==> t in rows)
    ensures TypingKeysUnique(rows) ==> TypingKeysUnique(r)
  {
    var kept := WithoutTyping(rows, row.userId, row.channelId);
    var r := kept + [row];
    assert forall k :: 0 <= k < |kept| ==> !IsTyping(kept[k], row.userId, row.channelId);
    r
  }

  /** DELETE ... WHERE user_id = u AND channel_id = c. */
  function WithoutTyping(rows: seq<TypingIndicator>, userId: UserId, channelId: Id): (r: seq<TypingIndicator>)
    ensures forall t :: t in r <==> t in rows && !IsTyping(t, userId, channelId)
    ensures forall k :: 0 <= k < |r| ==> !IsTyping(r[k], userId, channelId)
    ensures TypingKeysUnique(rows) ==> TypingKeysUnique(r)
  {
    var p := (t: TypingIndicator) => !IsTyping(t, userId, channelId);
    SubsequenceKeepsTypingKeysUnique(rows, p);
    Filter(rows, p)
  }

  lemma {:induction false} SubsequenceKeepsTypingKeysUnique(rows: seq<TypingIndicator>, p: TypingIndicator -> bool)
    ensures TypingKeysUnique(rows) ==> TypingKeysUnique(Filter(rows, p))
  {
    if rows != [] {
      SubsequenceKeepsTypingKeysUnique(rows[1..], p);
      if TypingKeysUnique(rows) {
        var t := Filter(rows[1..], p);
        assert TypingKeysUnique(rows[1..]) by {
          forall i, j | 0 <= i < j < |rows[1..]|
            ensures !IsTyping(rows[1..][j], rows[1..][i].userId, rows[1..][i].channelId)
          {
            assert rows[1..][i] == rows[i + 1] && rows[1..][j] == rows[j + 1];
          }
        }
        forall k | 0 <= k < |t|
          ensures !IsTyping(t[k], rows[0].userId, rows[0].channelId)
        {
          assert t[k] in rows[1..];
          var j :| 0 <= j < |rows[1..]| && rows[1..][j] == t[k];
          assert rows[j + 1] == t[k];
        }
      }
    }
  }

  lemma {:induction false} SubsequenceKeepsNotificationIds(rows: seq<Notification>, p: Notification -> bool, bound: nat)
    ensures NotificationIdsBelow(rows, bound) ==> NotificationIdsBelow(Filter(rows, p), bound)
  {
    if rows != [] {
      SubsequenceKeepsNotificationIds(rows[1..], p, bound);
      if NotificationIdsBelow(rows, bound) {
        var t := Filter(rows[1..], p);
        assert NotificationIdsBelow(rows[1..], bound) by {
          forall i, j | 0 <= i < j < |rows[1..]|
            ensures rows[1..][i].id != rows[1..][j].id
          {
            assert rows[1..][i] == rows[i + 1] && rows[1..][j] == rows[j + 1];
          }
        }
        forall k | 0 <= k < |t|
          ensures t[k].id != rows[0].id
        {
          assert t[k] in rows[1..];
          var j :| 0 <= j < |rows[1..]| && rows[1..][j] == t[k];
          assert rows[j + 1] == t[k];
        }
        assert rows == [rows[0]] + rows[1..];
      }
    }
  }

  /** UPDATE notifications SET is_read = true WHERE <sel>. */
  function SetRead(rows: seq<Notification>, sel: Notification -> bool): (r: seq<Notification>)
    ensures |r| == |rows|
    ensures forall i :: 0 <= i < |rows| ==> r[i] == if sel(rows[i]) then rows[i].(isRead := true) else rows[i]
  {
    if rows == [] then []
    else [if sel(rows[0]) then rows[0].(isRead := true) else rows[0]] + SetRead(rows[1..], sel)
  }

  // ---------------------------------------------------------------------------
  // The store

  class Db {
    var users: seq<User>
    var messages: seq<Message>
    var reactions: seq<Reaction>
    var typing: seq<TypingIndicator>
    var servers: seq<Server>
    var memberships: seq<Membership>
    var channels: seq<Channel>
    var conversations: seq<DMConversation>
    var notifications: seq<Notification>
    var emojis: seq<CustomEmoji>
    /** The next row id the store hands out. */
    var nextId: nat
    /** Tables whose writes the store rejects at the moment. */
    var failing: set<Table>

    /** The constraints of the schema, and the invariants the client library
        keeps although the schema does not enforce them. */
    ghost predicate Valid()
      reads this
    {
      && (forall i :: 0 <= i < |messages| ==> OneContext(messages[i]))
      && ReactionsUnique(reactions)
      && TypingKeysUnique(typing)
      && (forall i :: 0 <= i < |servers| ==> servers[i].id < nextId)
      && MembershipsUnique(memberships)
      && (forall i :: 0 <= i < |memberships| ==> memberships[i].serverId in ServerIds(servers))
      && (forall i :: 0 <= i < |channels| ==> channels[i].serverId in ServerIds(servers))
      && PairsUnique(conversations)
      && NotificationIdsBelow(notifications, nextId)
    }

    constructor (users: seq<User>)
      ensures Valid()
      ensures this.users == users && failing == {} && nextId == 0
      ensures messages == [] && reactions == [] && typing == [] && servers == []
      ensures memberships == [] && channels == [] && conversations == []
      ensures notifications == [] && emojis == []
    {
      this.users := users;
      messages, reactions, typing, servers := [], [], [], [];
      memberships, channels, conversations := [], [], [];
      notifications, emojis := [], [];
      nextId, failing := 0, {};
    }

    /** Lets the environment make writes to some tables fail, or succeed again. */
    method SetFailing(tables: set<Table>)
      modifies this`failing
      ensures failing == tables
    {
      failing := tables;
    }

    method InsertMessage(authorId: UserId, channelId: Option<Id>, dmConversationId: Option<Id>,
                         content: string, fileUrl: Option<string>, fileName: Option<string>, now: int)
      returns (r: Result<Message>)
      modifies this`messages, this`nextId
      ensures Messages in failing ==> r == Err(StoreFailure) && unchanged(this)
      ensures Messages !in failing ==>
        && r == Ok(Message(old(nextId), content, authorId, channelId, dmConversationId, fileUrl, fileName, false, now))
        && messages == old(messages) + [r.value] && nextId == old(nextId) + 1
    {
      if Messages in failing {
        return Err(StoreFailure);
      }
      var m := Message(nextId, content, authorId, channelId, dmConversationId, fileUrl, fileName, false, now);
      messages := messages + [m];
      nextId := nextId + 1;
      r := Ok(m);
    }

    /** Fails with the unique violation (23505) when the triple is present. */
    method InsertReaction(messageId: Id, userId: UserId, emoji: string, now: int) returns (r: Result<Reaction>)
      modifies this`reactions, this`nextId
      ensures MessageReactions in failing ==> r == Err(StoreFailure) && unchanged(this)
      ensures MessageReactions !in failing && HasReaction(old(reactions), messageId, userId, emoji) ==>
        r == Err(UniqueViolation) && unchanged(this)
      ensures MessageReactions !in failing && !HasReaction(old(reactions), messageId, userId, emoji) ==>
        && r == Ok(Reaction(old(nextId), messageId, userId, emoji, now))
        && reactions == old(reactions) + [r.value] && nextId == old(nextId) + 1
    {
      if MessageReactions in failing {
        return Err(StoreFailure);
      }
      var i := 0;
      while i < |reactions|
        invariant 0 <= i <= |reactions|
        invariant forall k :: 0 <= k < i ==> !IsReaction(reactions[k], messageId, userId, emoji)
      {
        if IsReaction(reactions[i], messageId, userId, emoji) {
          return Err(UniqueViolation);
        }
        i := i + 1;
      }
      var x := Reaction(nextId, messageId, userId, emoji, now);
      reactions := reactions + [x];
      nextId := nextId + 1;
      r := Ok(x);
    }

    method DeleteReactions(messageId: Id, userId: UserId, emoji: string) returns (r: Outcome)
      modifies this`reactions
      ensures MessageReactions in failing ==> r == Fail(StoreFailure) && unchanged(this)
      ensures MessageReactions !in failing ==>
        r == Pass && reactions == WithoutReaction(old(reactions), messageId, userId, emoji)
    {
      if MessageReactions in failing {
        return Fail(StoreFailure);
      }
      reactions := WithoutReaction(reactions, messageId, userId, emoji);
      r := Pass;
    }

    method UpsertTyping(row: TypingIndicator) returns (r: Outcome)
      modifies this`typing
      ensures TypingIndicators in failing ==> r == Fail(StoreFailure) && unchanged(this)
      ensures TypingIndicators !in failing ==> r == Pass && typing == Upserted(old(typing), row)
    {
      if TypingIndicators in failing {
        return Fail(StoreFailure);
      }
      typing := Upserted(typing, row);
      r := Pass;
    }

    method DeleteTyping(userId: UserId, channelId: Id) returns (r: Outcome)
      modifies this`typing
      ensures TypingIndicators in failing ==> r == Fail(StoreFailure) && unchanged(this)
      ensures TypingIndicators !in failing ==> r == Pass && typing == WithoutTyping(old(typing), userId, channelId)
    {
      if TypingIndicators in failing {
        return Fail(StoreFailure);
      }
      typing := WithoutTyping(typing, userId, channelId);
      r := Pass;
    }

    method InsertServer(name: string, iconUrl: Option<string>, ownerId: UserId, inviteCode: string, now: int)
      returns (r: Result<Server>)
      modifies this`servers, this`nextId
      ensures Servers in failing ==> r == Err(StoreFailure) && unchanged(this)
      ensures Servers !in failing ==>
        && r == Ok(Server(old(nextId), name, iconUrl, ownerId, inviteCode, 0, now))
        && servers == old(servers) + [r.value] && nextId == old(nextId) + 1
    {
      if Servers in failing {
        return Err(StoreFailure);
      }
      var s := Server(nextId, name, iconUrl, ownerId, inviteCode, 0, now);
      servers := servers + [s];
      nextId := nextId + 1;
      r := Ok(s);
    }

    /** server_id references servers(id). */
    method InsertMembership(serverId: Id, userId: UserId, role: Role, now: int) returns (r: Outcome)
      modifies this`memberships
      ensures ServerMembers in failing ==> r == Fail(StoreFailure) && unchanged(this)
      ensures ServerMembers !in failing && serverId !in ServerIds(servers) ==>
        r == Fail(ForeignKeyViolation) && unchanged(this)
      ensures ServerMembers !in failing && serverId in ServerIds(servers) ==>
        r == Pass && memberships == old(memberships) + [Membership(serverId, userId, role, now)]
    {
      if ServerMembers in failing {
        return Fail(StoreFailure);
      }
      if serverId !in ServerIds(servers) {
        return Fail(ForeignKeyViolation);
      }
      memberships := memberships + [Membership(serverId, userId, role, now)];
      r := Pass;
    }

    /** server_id references servers(id). */
    method InsertChannel(serverId: Id, name: string, kind: string, position: int, now: int)
      returns (r: Result<Channel>)
      modifies this`channels, this`nextId
      ensures Channels in failing ==> r == Err(StoreFailure) && unchanged(this)
      ensures Channels !in failing && serverId !in ServerIds(servers) ==>
        r == Err(ForeignKeyViolation) && unchanged(this)
      ensures Channels !in failing && serverId in ServerIds(servers) ==>
        && r == Ok(Channel(old(nextId), serverId, name, kind, position, now))
        && channels == old(channels) + [r.value] && nextId == old(nextId) + 1
    {
      if Channels in failing {
        return Err(StoreFailure);
      }
      if serverId !in ServerIds(servers) {
        return Err(ForeignKeyViolation);
      }
      var c := Channel(nextId, serverId, name, kind, position, now);
      channels := channels + [c];
      nextId := nextId + 1;
      r := Ok(c);
    }

    method DeleteChannel(channelId: Id) returns (r: Outcome)
      modifies this`channels
      ensures Channels in failing ==> r == Fail(StoreFailure) && unchanged(this)
      ensures Channels !in failing ==> r == Pass && channels == Filter(old(channels), (c: Channel) => c.id != channelId)
    {
      if Channels in failing {
        return Fail(StoreFailure);
      }
      channels := Filter(channels, (c: Channel) => c.id != channelId);
      r := Pass;
    }

    method InsertConversation(user1: UserId, user2: UserId, now: int) returns (r: Result<DMConversation>)
      modifies this`conversations, this`nextId
      ensures DmConversations in failing ==> r == Err(StoreFailure) && unchanged(this)
      ensures DmConversations !in failing ==>
        && r == Ok(DMConversation(old(nextId), user1, user2, now))
        && conversations == old(conversations) + [r.value] && nextId == old(nextId) + 1
    {
      if DmConversations in failing {
        return Err(StoreFailure);
      }
      var c := DMConversation(nextId, user1, user2, now);
      conversations := conversations + [c];
      nextId := nextId + 1;
      r := Ok(c);
    }

    method InsertNotification(userId: UserId, kind: string, content: string, relatedMessageId: Option<Id>, now: int)
      returns (r: Result<Notification>)
      modifies this`notifications, this`nextId
      ensures Notifications in failing ==> r == Err(StoreFailure) && unchanged(this)
      ensures Notifications !in failing ==>
        && r == Ok(Notification(old(nextId), userId, kind, content, false, relatedMessageId, now))
        && notifications == old(notifications) + [r.value] && nextId == old(nextId) + 1
    {
      if Notifications in failing {
        return Err(StoreFailure);
      }
      var n := Notification(nextId, userId, kind, content, false, relatedMessageId, now);
      notifications := notifications + [n];
      nextId := nextId + 1;
      r := Ok(n);
    }

    method UpdateNotificationsRead(sel: Notification -> bool) returns (r: Outcome)
      requires Valid()
      modifies this`notifications
      ensures Valid()
      ensures Notifications in failing ==> r == Fail(StoreFailure) && unchanged(this)
      ensures Notifications !in failing ==> r == Pass && notifications == SetRead(old(notifications), sel)
    {
      if Notifications in failing {
        return Fail(StoreFailure);
      }
      notifications := SetRead(notifications, sel);
      r := Pass;
    }

    method DeleteNotification(notificationId: Id) returns (r: Outcome)
      modifies this`notifications
      ensures Notifications in failing ==> r == Fail(StoreFailure) && unchanged(this)
      ensures Notifications !in failing ==>
        r == Pass && notifications == Filter(old(notifications), (n: Notification) => n.id != notificationId)
    {
      if Notifications in failing {
        return Fail(StoreFailure);
      }
      notifications := Filter(notifications, (n: Notification) => n.id != notificationId);
      r := Pass;
    }

    method InsertEmoji(name: string, imageUrl: string, isAnimated: bool, serverId: Option<Id>, userId: UserId, now: int)
      returns (r: Result<CustomEmoji>)
      modifies this`emojis, this`nextId
      ensures CustomEmojis in failing ==> r == Err(StoreFailure) && unchanged(this)
      ensures CustomEmojis !in failing ==>
        && r == Ok(CustomEmoji(old(nextId), serverId, Some(userId), name, imageUrl, isAnimated, now))
        && emojis == old(emojis) + [r.value] && nextId == old(nextId) + 1
    {
      if CustomEmojis in failing {
        return Err(StoreFailure);
      }
      var e := CustomEmoji(nextId, serverId, Some(userId), name, imageUrl, isAnimated, now);
      emojis := emojis + [e];
      nextId := nextId + 1;
      r := Ok(e);
    }

    method DeleteEmoji(emojiId: Id) returns (r: Outcome)
      modifies this`emojis
      ensures CustomEmojis in failing ==> r == Fail(StoreFailure) && unchanged(this)
      ensures CustomEmojis !in failing ==> r == Pass && emojis == Filter(old(emojis), (e: CustomEmoji) => e.id != emojiId)
    {
      if CustomEmojis in failing {
        return Fail(StoreFailure);
      }
      emojis := Filter(emojis, (e: CustomEmoji) => e.id != emojiId);
      r := Pass;
    }
  }
}
