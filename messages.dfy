/** lib/messages.ts: channel messages, reactions and typing indicators. */
module Messages {
  import opened Common
  import opened Sorting
  import opened Store

  /** Observers only report typing indicators started this many ms ago or later. */
  const TypingWindowMs: int := 5000

  function CreatedAt(m: Message): int { m.createdAt }

  /** ORDER BY created_at DESC, LIMIT `limit`, then reversed: the newest
      `limit` rows, oldest first. No row left out is newer than a row kept. */
  function LatestAscending(rows: seq<Message>, limit: nat): (r: seq<Message>)
    ensures |r| == Min(limit, |rows|)
    ensures multiset(r) <= multiset(rows)
    ensures SortedBy(r, CreatedAt)
    ensures forall x, y :: x in r && y in rows && y !in r ==> y.createdAt <= x.createdAt
  {
    var d := SortDescBy(rows, CreatedAt);
    var t := Take(d, limit);
    LatestShape(d, t, limit);
    LatestNewest(rows, d, t, limit);
    Reverse(t)
  }

  lemma LatestShape(d: seq<Message>, t: seq<Message>, limit: nat)
    requires SortedDescBy(d, CreatedAt) && t == Take(d, limit)
    ensures |Reverse(t)| == Min(limit, |d|)
    ensures multiset(Reverse(t)) <= multiset(d)
    ensures SortedBy(Reverse(t), CreatedAt)
  {
    TakeKeepsSortedDesc(d, limit, CreatedAt);
    ReverseOfDescIsAsc(t, CreatedAt);
    ReverseMultiset(t);
    TakeFacts(d, limit);
  }

  lemma LatestNewest(rows: seq<Message>, d: seq<Message>, t: seq<Message>, limit: nat)
    requires SortedDescBy(d, CreatedAt) && multiset(d) == multiset(rows) && t == Take(d, limit)
    ensures forall x, y :: x in Reverse(t) && y in rows && y !in Reverse(t) ==> y.createdAt <= x.createdAt
  {
    var r := Reverse(t);
    forall j | 0 <= j < |t|
      ensures d[j] in r
    {
      assert r[|t| - 1 - j] == t[j];
    }
    forall x, y | x in r && y in rows && y !in r
      ensures y.createdAt <= x.createdAt
    {
      var i :| 0 <= i < |r| && r[i] == x;
      assert y in multiset(d) by { assert y in multiset(rows); }
      var k :| 0 <= k < |d| && d[k] == y;
      assert d[|t| - 1 - i] == x;
    }
  }

  /** getChannelMessages: the newest `limit` messages of the channel, oldest
      first. */
  function ChannelMessages(messages: seq<Message>, channelId: Id, limit: nat): (r: seq<Message>)
    ensures forall m :: m in r ==> m in messages && m.channelId == Some(channelId)
    ensures |r| == Min(limit, Count(messages, (m: Message) => m.channelId == Some(channelId)))
    ensures multiset(r) <= multiset(Filter(messages, (m: Message) => m.channelId == Some(channelId)))
    ensures SortedBy(r, CreatedAt)
    ensures forall x, y :: x in r && y in messages && y.channelId == Some(channelId) && y !in r ==>
              y.createdAt <= x.createdAt
  {
    var inChannel := Filter(messages, (m: Message) => m.channelId == Some(channelId));
    var r := LatestAscending(inChannel, limit);
    assert forall m :: m in r ==> m in inChannel by {
      forall m | m in r ensures m in inChannel {
        assert m in multiset(r);
      }
    }
    r
  }

  /** sendMessage: one new row in the channel, by the current user. */
  method SendMessage(db: Db, auth: Auth, channelId: Id, content: string,
                     fileUrl: Option<string>, fileName: Option<string>, now: int)
    returns (r: Result<Message>)
    requires db.Valid()
    modifies db`messages, db`nextId
    ensures db.Valid()
    ensures auth.None? ==> r == Err(NotAuthenticated) && unchanged(db)
    ensures auth.Some? && Messages in db.failing ==> r == Err(StoreFailure) && unchanged(db)
    ensures auth.Some? && Messages !in db.failing ==>
      && r.Ok? && db.messages == old(db.messages) + [r.value]
      && r.value.authorId == auth.value && r.value.channelId == Some(channelId)
      && r.value.dmConversationId == None && r.value.content == content
      && r.value.fileUrl == fileUrl && r.value.fileName == fileName
  {
    if auth.None? {
      return Err(NotAuthenticated);
    }
    r := db.InsertMessage(auth.value, Some(channelId), None, content, fileUrl, fileName, now);
  }

  // ---------------------------------------------------------------------------
  // Reactions

  /** The effect of addReaction on the reaction table, given the row the store
      would create: insert it when its (message, user, emoji) is absent,
      otherwise delete that triple. The first component is what addReaction
      returns (null on removal). */
  function Toggle(rows: seq<Reaction>, candidate: Reaction): (Option<Reaction>, seq<Reaction>)
  {
    if HasReaction(rows, candidate.messageId, candidate.userId, candidate.emoji)
    then (None, WithoutReaction(rows, candidate.messageId, candidate.userId, candidate.emoji))
    else (Some(candidate), rows + [candidate])
  }

  /** Toggling flips the presence of the triple, leaves every other reaction
      as it was and keeps the unique constraint. */
  lemma ToggleFlips(rows: seq<Reaction>, candidate: Reaction)
    ensures var (out, after) := Toggle(rows, candidate);
      && HasReaction(after, candidate.messageId, candidate.userId, candidate.emoji)
           == !HasReaction(rows, candidate.messageId, candidate.userId, candidate.emoji)
      && (out.Some? <==> !HasReaction(rows, candidate.messageId, candidate.userId, candidate.emoji))
      && (forall x :: !IsReaction(x, candidate.messageId, candidate.userId, candidate.emoji) ==>
            multiset(after)[x] == multiset(rows)[x])
      && (ReactionsUnique(rows) ==> ReactionsUnique(after))
  {
    var (out, after) := Toggle(rows, candidate);
    if !HasReaction(rows, candidate.messageId, candidate.userId, candidate.emoji) {
      assert after[|rows|] == candidate;
      if ReactionsUnique(rows) {
        forall i, j | 0 <= i < j < |after|
          ensures !IsReaction(after[j], after[i].messageId, after[i].userId, after[i].emoji)
        {
          if j == |rows| {
            assert after[i] == rows[i];
          }
        }
      }
    }
  }

  /** Starting from no reaction, two toggles with the same arguments leave
      the table exactly as it was and the second returns null. */
  lemma {:induction false} ToggleTwiceFromAbsent(rows: seq<Reaction>, first: Reaction, second: Reaction)
    requires IsReaction(second, first.messageId, first.userId, first.emoji)
    requires !HasReaction(rows, first.messageId, first.userId, first.emoji)
    ensures Toggle(Toggle(rows, first).1, second) == (None, rows)
  {
    var m, u, e := first.messageId, first.userId, first.emoji;
    var after := rows + [first];
    assert Toggle(rows, first).1 == after;
    assert HasReaction(after, m, u, e) by {
      assert IsReaction(after[|rows|], m, u, e);
    }
    assert Toggle(after, second) == (None, WithoutReaction(after, m, u, e));
    var p := OtherThanReaction(m, u, e);
    assert WithoutReaction(after, m, u, e) == Filter(after, p);
    FilterAppend(rows, first, p);
    assert !p(first);
    assert forall i :: 0 <= i < |rows| ==> p(rows[i]);
    FilterKeepsAll(rows, p);
    assert Filter(after, p) == Filter(rows, p) + [];
    assert Filter(after, p) == rows;
    assert Toggle(after, second) == (None, rows);
  }

  /** Toggling twice, from any state, restores the presence of the triple. */
  lemma ToggleTwiceRestoresPresence(rows: seq<Reaction>, first: Reaction, second: Reaction)
    requires IsReaction(second, first.messageId, first.userId, first.emoji)
    ensures HasReaction(Toggle(Toggle(rows, first).1, second).1, first.messageId, first.userId, first.emoji)
            == HasReaction(rows, first.messageId, first.userId, first.emoji)
  {
    ToggleFlips(rows, first);
    ToggleFlips(Toggle(rows, first).1, second);
  }

  /** addReaction: insert the reaction; on the unique violation 23505 remove
      it instead and return null; any other error propagates unchanged. */
  method AddReaction(db: Db, auth: Auth, messageId: Id, emoji: string, now: int)
    returns (r: Result<Option<Reaction>>)
    requires db.Valid()
    modifies db`reactions, db`nextId
    ensures db.Valid()
    ensures auth.None? ==> r == Err(NotAuthenticated) && unchanged(db)
    ensures auth.Some? && MessageReactions in db.failing ==> r == Err(StoreFailure) && unchanged(db)
    ensures auth.Some? && MessageReactions !in db.failing ==>
      var candidate := Reaction(old(db.nextId), messageId, auth.value, emoji, now);
      r.Ok? && (r.value, db.reactions) == Toggle(old(db.reactions), candidate)
  {
    if auth.None? {
      return Err(NotAuthenticated);
    }
    ghost var candidate := Reaction(db.nextId, messageId, auth.value, emoji, now);
    ToggleFlips(db.reactions, candidate);
    var inserted := db.InsertReaction(messageId, auth.value, emoji, now);
    match inserted {
      case Ok(x) =>
        r := Ok(Some(x));
      case Err(e) =>
        if e == UniqueViolation {
          var removed := RemoveReaction(db, auth, messageId, emoji);
          r := AfterOutcome(removed, None);
        } else {
          r := Err(e);
        }
    }
  }

  /** The value of a call that ends with a write returning `o`. */
  function AfterOutcome<T>(o: Outcome, value: T): (r: Result<T>)
    ensures r.Ok? <==> o.Pass?
  {
    match o
    case Pass => Ok(value)
    case Fail(e) => Err(e)
  }

  /** removeReaction: deletes the caller's rows for (message, emoji) only. */
  method RemoveReaction(db: Db, auth: Auth, messageId: Id, emoji: string) returns (r: Outcome)
    requires db.Valid()
    modifies db`reactions
    ensures db.Valid()
    ensures auth.None? ==> r == Fail(NotAuthenticated) && unchanged(db)
    ensures auth.Some? && MessageReactions in db.failing ==> r == Fail(StoreFailure) && unchanged(db)
    ensures auth.Some? && MessageReactions !in db.failing ==>
      r == Pass && db.reactions == WithoutReaction(old(db.reactions), messageId, auth.value, emoji)
  {
    if auth.None? {
      return Fail(NotAuthenticated);
    }
    r := db.DeleteReactions(messageId, auth.value, emoji);
  }

  /** getMessageReactions: the reactions on one message. */
  function MessageReactionsOf(rows: seq<Reaction>, messageId: Id): (r: seq<Reaction>)
    ensures forall x :: x in r <==> x in rows && x.messageId == messageId
    ensures forall x :: multiset(r)[x] == if x.messageId == messageId then multiset(rows)[x] else 0
  {
    var p := (x: Reaction) => x.messageId == messageId;
    FilterMultiset(rows, p);
    Filter(rows, p)
  }

  // ---------------------------------------------------------------------------
  // Typing indicators

  /** The typing table after setTypingIndicator, given whether the store
      rejects writes to it. */
  function TypingWrite(rows: seq<TypingIndicator>, auth: Auth, rejected: bool, channelId: Id, isTyping: bool, now: int)
    : (r: seq<TypingIndicator>)
    ensures auth.None? || rejected ==> r == rows
    ensures auth.Some? && !rejected && isTyping ==>
      TypingIndicator(auth.value, channelId, now) in r
      && forall t :: !IsTyping(t, auth.value, channelId) ==> (t in r <==> t in rows)
    ensures auth.Some? && !rejected && !isTyping ==>
      forall t :: t in r <==> t in rows && !IsTyping(t, auth.value, channelId)
    ensures TypingKeysUnique(rows) ==> TypingKeysUnique(r)
  {
    if auth.None? || rejected then rows
    else if isTyping then Upserted(rows, TypingIndicator(auth.value, channelId, now))
    else WithoutTyping(rows, auth.value, channelId)
  }

  /** setTypingIndicator: upsert (user, channel, now) when typing starts,
      delete the (user, channel) rows when it stops. The store's answer to
      either write is not inspected, so a failed write is silently ignored. */
  method SetTypingIndicator(db: Db, auth: Auth, channelId: Id, isTyping: bool, now: int) returns (r: Outcome)
    requires db.Valid()
    modifies db`typing
    ensures db.Valid()
    ensures auth.None? ==> r == Fail(NotAuthenticated) && unchanged(db)
    ensures auth.Some? ==> r == Pass
    ensures auth.Some? && TypingIndicators in db.failing ==> unchanged(db)
    ensures db.typing == TypingWrite(old(db.typing), auth, TypingIndicators in db.failing, channelId, isTyping, now)
  {
    if auth.None? {
      return Fail(NotAuthenticated);
    }
    var ignored: Outcome;
    if isTyping {
      ignored := db.UpsertTyping(TypingIndicator(auth.value, channelId, now));
    } else {
      ignored := db.DeleteTyping(auth.value, channelId);
    }
    r := Pass;
  }

  /** The id getTypingUsers excludes: the caller's, or "" with no caller. */
  function ExcludedId(auth: Auth): UserId
  {
    if auth.Some? then auth.value else ""
  }

  /** getTypingUsers: the indicators of the channel, other than the caller's,
      started within the last 5000 ms. It needs no authenticated user. */
  function TypingUsers(rows: seq<TypingIndicator>, auth: Auth, channelId: Id, now: int): (r: seq<TypingIndicator>)
    ensures forall t :: t in r <==>
      t in rows && t.channelId == channelId && t.userId != ExcludedId(auth) && t.startedAt >= now - TypingWindowMs
    ensures forall t :: t in r ==> now - t.startedAt <= TypingWindowMs
    ensures auth.Some? ==> forall t :: t in r ==> t.userId != auth.value
    ensures forall t :: multiset(r)[t] ==
                        if t.channelId == channelId && t.userId != ExcludedId(auth)
                           && t.startedAt >= now - TypingWindowMs
                        then multiset(rows)[t] else 0
  {
    var p := (t: TypingIndicator) =>
      t.channelId == channelId && t.userId != ExcludedId(auth) && t.startedAt >= now - TypingWindowMs;
    FilterMultiset(rows, p);
    Filter(rows, p)
  }

  /** Another user who polls within 5000 ms of a start sees the typist. */
  lemma StartedTypingIsVisible(rows: seq<TypingIndicator>, typist: UserId, observer: Auth,
                               channelId: Id, started: int, now: int)
    requires ExcludedId(observer) != typist
    requires started <= now <= started + TypingWindowMs
    ensures TypingIndicator(typist, channelId, started) in
            TypingUsers(Upserted(rows, TypingIndicator(typist, channelId, started)), observer, channelId, now)
  {
  }

  /** After the typist stops, nobody sees them typing in that channel, whatever
      the other rows. */
  lemma StoppedTypingIsInvisible(rows: seq<TypingIndicator>, typist: UserId, observer: Auth, channelId: Id, now: int)
    ensures forall t :: t in TypingUsers(WithoutTyping(rows, typist, channelId), observer, channelId, now) ==>
              t.userId != typist
  {
  }
}
