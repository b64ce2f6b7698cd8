/** lib/direct-messages.ts: one-to-one conversations, their messages and the
    user search that starts them. */
module DirectMessages {
  import opened Common
  import opened Sorting
  import opened Store
  import Messages

  // ---------------------------------------------------------------------------
  // Conversations

  /** The `.or(and(user1=a,user2=b),and(user1=b,user2=a))` filter. */
  function PairOf(a: UserId, b: UserId): DMConversation -> bool
  {
    (c: DMConversation) => IsPair(c, a, b)
  }

  /** With no duplicate pairs, at most one conversation matches a pair. */
  lemma {:induction false} AtMostOnePair(rows: seq<DMConversation>, a: UserId, b: UserId)
    requires PairsUnique(rows)
    ensures Count(rows, PairOf(a, b)) <= 1
  {
    if rows != [] {
      var p := PairOf(a, b);
      assert PairsUnique(rows[1..]) by {
        forall i, j | 0 <= i < j < |rows[1..]|
          ensures !IsPair(rows[1..][j], rows[1..][i].user1, rows[1..][i].user2)
        {
          assert rows[1..][i] == rows[i + 1] && rows[1..][j] == rows[j + 1];
        }
      }
      AtMostOnePair(rows[1..], a, b);
      if p(rows[0]) {
        forall k | 0 <= k < |rows[1..]|
          ensures !p(rows[1..][k])
        {
          assert rows[1..][k] == rows[k + 1];
          assert !IsPair(rows[k + 1], rows[0].user1, rows[0].user2);
        }
        FilterNone(rows[1..], p);
      }
      assert rows == [rows[0]] + rows[1..];
    }
  }

  /** What getOrCreateDMConversation returns and the table it leaves, given
      the id the store would give a new row: the one conversation of the pair
      when `.single()` finds it, otherwise a new (self, other) row. */
  function Resolve(rows: seq<DMConversation>, self: UserId, other: UserId, id: Id, now: int)
    : (DMConversation, seq<DMConversation>)
  {
    var found := Single(Filter(rows, PairOf(self, other)));
    if found.Ok? then (found.value, rows)
    else (DMConversation(id, self, other, now), rows + [DMConversation(id, self, other, now)])
  }

  /** Resolving keeps at most one row per pair, and the row returned is the
      pair's: found unchanged, or new with the caller as user1. */
  lemma ResolveKeepsPairsUnique(rows: seq<DMConversation>, self: UserId, other: UserId, id: Id, now: int)
    requires PairsUnique(rows)
    ensures var (c, after) := Resolve(rows, self, other, id, now);
      && PairsUnique(after)
      && IsPair(c, self, other)
      && c in after
      && Count(after, PairOf(self, other)) == 1
      && (after == rows || (after == rows + [c] && c.user1 == self && c.user2 == other && c.id == id))
  {
    var p := PairOf(self, other);
    AtMostOnePair(rows, self, other);
    var (c, after) := Resolve(rows, self, other, id, now);
    if Count(rows, p) != 1 {
      assert Filter(rows, p) == [];
      FilterAppend(rows, c, p);
      forall i | 0 <= i < |rows|
        ensures !IsPair(rows[i], self, other)
      {
        assert rows[i] in rows;
      }
      forall i, j | 0 <= i < j < |after|
        ensures !IsPair(after[j], after[i].user1, after[i].user2)
      {
        if j == |rows| {
          assert after[i] == rows[i];
        }
      }
    }
  }

  /** Once A has opened a conversation with B, B opening one with A finds that
      same row and writes nothing. */
  lemma ResolveIsSymmetric(rows: seq<DMConversation>, a: UserId, b: UserId, id1: Id, id2: Id, t1: int, t2: int)
    requires PairsUnique(rows)
    ensures var (c1, after1) := Resolve(rows, a, b, id1, t1);
      Resolve(after1, b, a, id2, t2) == (c1, after1)
  {
    var (c1, after1) := Resolve(rows, a, b, id1, t1);
    ResolveKeepsPairsUnique(rows, a, b, id1, t1);
    FilterSamePredicate(after1, PairOf(a, b), PairOf(b, a));
    var f := Filter(after1, PairOf(a, b));
    assert |f| == 1;
    assert c1 in after1 && PairOf(a, b)(c1);
    assert c1 in f;
  }

  /** getOrCreateDMConversation. */
  method GetOrCreateDMConversation(db: Db, auth: Auth, otherUserId: UserId, now: int)
    returns (r: Result<DMConversation>)
    requires db.Valid()
    modifies db`conversations, db`nextId
    ensures db.Valid()
    ensures auth.None? ==> r == Err(NotAuthenticated) && unchanged(db)
    ensures auth.Some? ==>
      var (c, after) := Resolve(old(db.conversations), auth.value, otherUserId, old(db.nextId), now);
      && (after == old(db.conversations) ==> r == Ok(c) && unchanged(db))
      && (after != old(db.conversations) && DmConversations in db.failing ==>
            r == Err(StoreFailure) && unchanged(db))
      && (after != old(db.conversations) && DmConversations !in db.failing ==>
            r == Ok(c) && db.conversations == after && db.nextId == old(db.nextId) + 1)
  {
    if auth.None? {
      return Err(NotAuthenticated);
    }
    ResolveKeepsPairsUnique(db.conversations, auth.value, otherUserId, db.nextId, now);
    var existing := Single(Filter(db.conversations, PairOf(auth.value, otherUserId)));
    if existing.Ok? {
      return Ok(existing.value);
    }
    r := db.InsertConversation(auth.value, otherUserId, now);
  }

  /** The participant of `conv` who is not `me`: user2 when `me` is user1,
      user1 otherwise. */
  function OtherUser(conv: DMConversation, me: UserId): (r: UserId)
    ensures r == conv.user1 || r == conv.user2
    ensures conv.user1 == me || conv.user2 == me ==> IsPair(conv, me, r)
    ensures conv.user1 != conv.user2 && (conv.user1 == me || conv.user2 == me) ==> r != me
  {
    if conv.user1 == me then conv.user2 else conv.user1
  }

  /** A conversation of getUserDMConversations with its enrichment: the other
      user's row and the newest message, each null when `.single()` has no row. */
  datatype Summary = Summary(conversation: DMConversation, otherUser: Option<User>, lastMessage: Option<Message>)

  function Participant(me: UserId): DMConversation -> bool
  {
    (c: DMConversation) => c.user1 == me || c.user2 == me
  }

  function ConvCreatedAt(c: DMConversation): int { c.createdAt }

  /** The optional data of a `.single()` read whose error is not inspected. */
  function DataOf<T>(r: Result<T>): (d: Option<T>)
    ensures d.Some? <==> r.Ok?
    ensures d.Some? ==> d.value == r.value
  {
    if r.Ok? then Some(r.value) else None
  }

  /** The newest message of a conversation: ORDER BY created_at DESC LIMIT 1,
      then `.single()`. */
  function LastMessage(messages: seq<Message>, conversationId: Id): (r: Option<Message>)
    ensures r.Some? <==> exists m :: m in messages && m.dmConversationId == Some(conversationId)
    ensures r.Some? ==> r.value in messages && r.value.dmConversationId == Some(conversationId)
    ensures r.Some? ==> forall m :: m in messages && m.dmConversationId == Some(conversationId) ==>
                                    m.createdAt <= r.value.createdAt
  {
    var mine := Filter(messages, (m: Message) => m.dmConversationId == Some(conversationId));
    var d := SortDescBy(mine, Messages.CreatedAt);
    var r := DataOf(Single(Take(d, 1)));
    LastMessageFacts(mine, d);
    r
  }

  lemma LastMessageFacts(mine: seq<Message>, d: seq<Message>)
    requires SortedDescBy(d, Messages.CreatedAt) && multiset(d) == multiset(mine)
    ensures var r := DataOf(Single(Take(d, 1)));
      && (r.Some? <==> mine != [])
      && (r.Some? ==> r.value in mine && forall m :: m in mine ==> m.createdAt <= r.value.createdAt)
  {
    if d != [] {
      assert Take(d, 1) == [d[0]];
      HeadOfSortedDescIsMax(d, mine, Messages.CreatedAt);
      assert d[0] in multiset(mine);
    } else {
      assert |mine| == |multiset(mine)|;
    }
  }

  /** The `.eq("id", id)` filter on users. */
  function WithUserId(id: UserId): User -> bool
  {
    (u: User) => u.id == id
  }

  /** The profile read by id is that user's row when it is found. */
  lemma ProfileFound(users: seq<User>, id: UserId)
    ensures var o := DataOf(Single(Filter(users, WithUserId(id))));
      o.Some? ==> o.value in users && o.value.id == id
  {
  }

  function Enrich(conversations: seq<DMConversation>, users: seq<User>, messages: seq<Message>, me: UserId)
    : (r: seq<Summary>)
    ensures |r| == |conversations|
    ensures forall i :: 0 <= i < |r| ==>
      && r[i].conversation == conversations[i]
      && r[i].otherUser == DataOf(Single(Filter(users, WithUserId(OtherUser(conversations[i], me)))))
      && r[i].lastMessage == LastMessage(messages, conversations[i].id)
  {
    if conversations == [] then []
    else
      var c := conversations[0];
      var other := DataOf(Single(Filter(users, WithUserId(OtherUser(c, me)))));
      [Summary(c, other, LastMessage(messages, c.id))] + Enrich(conversations[1..], users, messages, me)
  }

  /** The conversations a list of summaries shows, in order. */
  function ConversationsOf(r: seq<Summary>): (cs: seq<DMConversation>)
    ensures |cs| == |r| && forall i :: 0 <= i < |r| ==> cs[i] == r[i].conversation
  {
    seq(|r|, i requires 0 <= i < |r| => r[i].conversation)
  }

  /** getUserDMConversations: the caller's conversations, newest first, each
      with the other participant and the latest message. */
  function UserDMConversations(conversations: seq<DMConversation>, users: seq<User>, messages: seq<Message>, auth: Auth)
    : (r: Result<seq<Summary>>)
    ensures auth.None? <==> r == Err(NotAuthenticated)
    ensures r.Ok? ==> |r.value| == Count(conversations, Participant(auth.value))
    ensures r.Ok? ==> multiset(ConversationsOf(r.value)) == multiset(Filter(conversations, Participant(auth.value)))
    ensures r.Ok? ==> forall s :: s in r.value ==>
      && s.otherUser == DataOf(Single(Filter(users, WithUserId(OtherUser(s.conversation, auth.value)))))
      && s.lastMessage == LastMessage(messages, s.conversation.id)
    ensures r.Ok? ==> forall s :: s in r.value ==>
      && s.conversation in conversations
      && (s.conversation.user1 == auth.value || s.conversation.user2 == auth.value)
      && (s.otherUser.Some? ==> s.otherUser.value in users
                                && s.otherUser.value.id == OtherUser(s.conversation, auth.value))
    ensures r.Ok? ==> forall i, j :: 0 <= i < j < |r.value| ==>
      r.value[i].conversation.createdAt >= r.value[j].conversation.createdAt
  {
    if auth.None? then Err(NotAuthenticated)
    else
      var ordered := SortDescBy(Filter(conversations, Participant(auth.value)), ConvCreatedAt);
      var r := Enrich(ordered, users, messages, auth.value);
      SummariesFacts(conversations, users, messages, auth.value);
      Ok(r)
  }

  lemma SummariesFacts(conversations: seq<DMConversation>, users: seq<User>, messages: seq<Message>, me: UserId)
    ensures var mine := Filter(conversations, Participant(me));
      var r := Enrich(SortDescBy(mine, ConvCreatedAt), users, messages, me);
      && |r| == |mine|
      && multiset(ConversationsOf(r)) == multiset(mine)
      && (forall s :: s in r ==>
            && s.otherUser == DataOf(Single(Filter(users, WithUserId(OtherUser(s.conversation, me)))))
            && s.lastMessage == LastMessage(messages, s.conversation.id))
      && (forall s :: s in r ==>
            && s.conversation in conversations
            && (s.conversation.user1 == me || s.conversation.user2 == me)
            && (s.otherUser.Some? ==> s.otherUser.value in users && s.otherUser.value.id == OtherUser(s.conversation, me)))
      && (forall i, j :: 0 <= i < j < |r| ==> r[i].conversation.createdAt >= r[j].conversation.createdAt)
  {
    var mine := Filter(conversations, Participant(me));
    var ordered := SortDescBy(mine, ConvCreatedAt);
    SummariesAreMine(conversations, ordered, users, messages, me);
    SummariesNewestFirst(ordered, users, messages, me);
    SummariesEnriched(ordered, users, messages, me);
  }

  /** Enrichment keeps the conversations as they are, in order, and gives
      each the profile read and the newest message of its own. */
  lemma SummariesEnriched(ordered: seq<DMConversation>, users: seq<User>, messages: seq<Message>, me: UserId)
    ensures var r := Enrich(ordered, users, messages, me);
      && ConversationsOf(r) == ordered
      && forall s :: s in r ==>
        && s.otherUser == DataOf(Single(Filter(users, WithUserId(OtherUser(s.conversation, me)))))
        && s.lastMessage == LastMessage(messages, s.conversation.id)
  {
    var r := Enrich(ordered, users, messages, me);
    assert ConversationsOf(r) == ordered;
    forall s | s in r
      ensures s.otherUser == DataOf(Single(Filter(users, WithUserId(OtherUser(s.conversation, me)))))
      ensures s.lastMessage == LastMessage(messages, s.conversation.id)
    {
      var i :| 0 <= i < |r| && r[i] == s;
    }
  }

  lemma SummariesAreMine(conversations: seq<DMConversation>, ordered: seq<DMConversation>,
                         users: seq<User>, messages: seq<Message>, me: UserId)
    requires multiset(ordered) == multiset(Filter(conversations, Participant(me)))
    ensures forall s :: s in Enrich(ordered, users, messages, me) ==>
      && s.conversation in conversations
      && (s.conversation.user1 == me || s.conversation.user2 == me)
      && (s.otherUser.Some? ==> s.otherUser.value in users && s.otherUser.value.id == OtherUser(s.conversation, me))
  {
    var r := Enrich(ordered, users, messages, me);
    forall s | s in r
      ensures s.conversation in conversations
      ensures s.conversation.user1 == me || s.conversation.user2 == me
      ensures s.otherUser.Some? ==> s.otherUser.value in users && s.otherUser.value.id == OtherUser(s.conversation, me)
    {
      var i :| 0 <= i < |r| && r[i] == s;
      SummaryIsMine(conversations, ordered, i, me);
      ProfileFound(users, OtherUser(ordered[i], me));
    }
  }

  lemma SummaryIsMine(conversations: seq<DMConversation>, ordered: seq<DMConversation>, i: nat, me: UserId)
    requires multiset(ordered) == multiset(Filter(conversations, Participant(me)))
    requires i < |ordered|
    ensures ordered[i] in conversations && (ordered[i].user1 == me || ordered[i].user2 == me)
  {
    var c := ordered[i];
    assert c in multiset(ordered);
    assert c in Filter(conversations, Participant(me));
    assert Participant(me)(c);
  }

  lemma SummariesNewestFirst(ordered: seq<DMConversation>, users: seq<User>, messages: seq<Message>, me: UserId)
    requires SortedDescBy(ordered, ConvCreatedAt)
    ensures var r := Enrich(ordered, users, messages, me);
      forall i, j :: 0 <= i < j < |r| ==> r[i].conversation.createdAt >= r[j].conversation.createdAt
  {
    var r := Enrich(ordered, users, messages, me);
    forall i, j | 0 <= i < j < |r|
      ensures r[i].conversation.createdAt >= r[j].conversation.createdAt
    {
      assert ConvCreatedAt(ordered[i]) >= ConvCreatedAt(ordered[j]);
    }
  }

  /** getDMMessages: the newest `limit` messages of the conversation, oldest
      first. */
  function DMMessages(messages: seq<Message>, conversationId: Id, limit: nat): (r: seq<Message>)
    ensures forall m :: m in r ==> m in messages && m.dmConversationId == Some(conversationId)
    ensures |r| == Min(limit, Count(messages, (m: Message) => m.dmConversationId == Some(conversationId)))
    ensures multiset(r) <= multiset(Filter(messages, (m: Message) => m.dmConversationId == Some(conversationId)))
    ensures SortedBy(r, Messages.CreatedAt)
    ensures forall x, y :: x in r && y in messages && y.dmConversationId == Some(conversationId) && y !in r ==>
              y.createdAt <= x.createdAt
  {
    var inConversation := Filter(messages, (m: Message) => m.dmConversationId == Some(conversationId));
    var r := Messages.LatestAscending(inConversation, limit);
    assert forall m :: m in r ==> m in inConversation by {
      forall m | m in r ensures m in inConversation {
        assert m in multiset(r);
      }
    }
    r
  }

  /** sendDMMessage: one new row in the conversation, by the current user. */
  method SendDMMessage(db: Db, auth: Auth, conversationId: Id, content: string,
                       fileUrl: Option<string>, fileName: Option<string>, now: int)
    returns (r: Result<Message>)
    requires db.Valid()
    modifies db`messages, db`nextId
    ensures db.Valid()
    ensures auth.None? ==> r == Err(NotAuthenticated) && unchanged(db)
    ensures auth.Some? && Store.Messages in db.failing ==> r == Err(StoreFailure) && unchanged(db)
    ensures auth.Some? && Store.Messages !in db.failing ==>
      && r.Ok? && db.messages == old(db.messages) + [r.value]
      && r.value.authorId == auth.value && r.value.dmConversationId == Some(conversationId)
      && r.value.channelId == None && r.value.content == content
      && r.value.fileUrl == fileUrl && r.value.fileName == fileName
  {
    if auth.None? {
      return Err(NotAuthenticated);
    }
    r := db.InsertMessage(auth.value, None, Some(conversationId), content, fileUrl, fileName, now);
  }

  // ---------------------------------------------------------------------------
  // User search: the store's ILIKE

  /** ILIKE compares letters without regard to case (ASCII letters here). */
  predicate SameLetter(a: char, b: char)
  {
    LowerChar(a) == LowerChar(b)
  }

  /** `text ILIKE pattern` as the store's REST filter reads it: `%`, and `*`
      which the filter syntax accepts in its place, match any run of
      characters, `_` any one character, a backslash makes the next
      character literal, and every other character matches itself
      regardless of case. */
  predicate Like(pattern: string, text: string)
    decreases |pattern| + |text|
  {
    if pattern == [] then text == []
    else if pattern[0] == '%' || pattern[0] == '*' then
      Like(pattern[1..], text) || (text != [] && Like(pattern, text[1..]))
    else if pattern[0] == '_' then text != [] && Like(pattern[1..], text[1..])
    else if pattern[0] == '\\' && |pattern| >= 2 then
      text != [] && SameLetter(pattern[1], text[0]) && Like(pattern[2..], text[1..])
    else text != [] && SameLetter(pattern[0], text[0]) && Like(pattern[1..], text[1..])
  }

  /** In a pattern, `*` stands for `%`. */
  lemma {:induction false} StarIsPercent(p: string, t: string)
    ensures Like("*" + p, t) <==> Like("%" + p, t)
  {
    var sp := "*" + p;
    var pp := "%" + p;
    assert sp[0] == '*' && sp[1..] == p && pp[0] == '%' && pp[1..] == p;
    if t != [] {
      StarIsPercent(p, t[1..]);
    }
  }

  /** The query holds none of the characters the pattern treats specially. */
  predicate NoWildcards(q: string)
  {
    forall i :: 0 <= i < |q| ==> q[i] != '%' && q[i] != '*' && q[i] != '_' && q[i] != '\\'
  }

  /** `q` occurs in `t` at `k`, ignoring case. */
  predicate MatchesAt(q: string, t: string, k: nat)
  {
    k + |q| <= |t| && forall i :: 0 <= i < |q| ==> SameLetter(q[i], t[k + i])
  }

  predicate ContainsIgnoringCase(t: string, q: string)
  {
    exists k: nat :: k <= |t| && MatchesAt(q, t, k)
  }

  lemma {:induction false} PercentMatchesAll(t: string)
    ensures Like("%", t)
  {
    if t != [] {
      PercentMatchesAll(t[1..]);
    }
  }

  lemma {:induction false} LiteralThenPercent(q: string, t: string)
    requires NoWildcards(q)
    ensures Like(q + "%", t) <==> MatchesAt(q, t, 0)
  {
    if q == [] {
      assert q + "%" == "%";
      PercentMatchesAll(t);
    } else {
      assert (q + "%")[0] == q[0];
      assert (q + "%")[1..] == q[1..] + "%";
      if t != [] {
        LiteralThenPercent(q[1..], t[1..]);
        if MatchesAt(q[1..], t[1..], 0) {
          forall i | 0 <= i < |q| ensures SameLetter(q[i], t[i]) || !SameLetter(q[0], t[0]) {
            if i > 0 {
              assert q[1..][i - 1] == q[i] && t[1..][i - 1] == t[i];
            }
          }
        }
        if MatchesAt(q, t, 0) {
          forall i | 0 <= i < |q[1..]| ensures SameLetter(q[1..][i], t[1..][0 + i]) {
            assert q[1..][i] == q[i + 1] && t[1..][i] == t[i + 1];
          }
        }
      }
    }
  }

  lemma {:induction false} PercentThen(p: string, t: string)
    ensures Like("%" + p, t) <==> exists k: nat :: k <= |t| && Like(p, t[k..])
  {
    var pp := "%" + p;
    assert pp[0] == '%' && pp[1..] == p;
    if t == [] {
      assert t[0..] == t;
    } else {
      PercentThen(p, t[1..]);
      assert t[0..] == t;
      if exists k: nat :: k <= |t[1..]| && Like(p, t[1..][k..]) {
        var k: nat :| k <= |t[1..]| && Like(p, t[1..][k..]);
        assert t[1..][k..] == t[k + 1..];
      }
      if exists k: nat :: k <= |t| && Like(p, t[k..]) {
        var k: nat :| k <= |t| && Like(p, t[k..]);
        if k > 0 {
          assert t[1..][k - 1..] == t[k..];
        }
      }
    }
  }

  /** A query without wildcard or escape characters matches `%query%` exactly
      when it occurs in the username, ignoring case. */
  lemma SubstringSearch(q: string, t: string)
    requires NoWildcards(q)
    ensures Like("%" + q + "%", t) <==> ContainsIgnoringCase(t, q)
  {
    assert "%" + q + "%" == "%" + (q + "%");
    PercentThen(q + "%", t);
    forall k: nat | k <= |t|
      ensures Like(q + "%", t[k..]) <==> MatchesAt(q, t, k)
    {
      LiteralThenPercent(q, t[k..]);
      if k + |q| <= |t| {
        assert forall i :: 0 <= i < |q| ==> t[k..][i] == t[k + i];
      }
    }
  }

  /** The most users searchUsers returns. */
  const SearchLimit: nat := 10

  /** The filters of searchUsers: the username matches `%query%`, and the
      user is not the caller. */
  function SearchMatch(me: UserId, query: string): User -> bool
  {
    (u: User) => Like("%" + query + "%", u.username) && u.id != me
  }

  /** searchUsers: up to ten users other than the caller whose username
      matches `%query%`; every such user when there are at most ten. */
  function SearchUsers(users: seq<User>, auth: Auth, query: string): (r: Result<seq<User>>)
    ensures auth.None? <==> r == Err(NotAuthenticated)
    ensures r.Ok? ==> |r.value| == Min(SearchLimit, Count(users, SearchMatch(auth.value, query)))
    ensures r.Ok? ==> multiset(r.value) <= multiset(Filter(users, SearchMatch(auth.value, query)))
    ensures r.Ok? ==> forall u :: u in r.value ==>
      u in users && u.id != auth.value && Like("%" + query + "%", u.username)
    ensures r.Ok? && Count(users, SearchMatch(auth.value, query)) <= SearchLimit ==>
      forall u :: u in users && u.id != auth.value && Like("%" + query + "%", u.username) ==> u in r.value
    ensures r.Ok? && NoWildcards(query) ==> forall u :: u in r.value ==> ContainsIgnoringCase(u.username, query)
    ensures r.Ok? && NoWildcards(query) && Count(users, SearchMatch(auth.value, query)) <= SearchLimit ==>
      forall u :: u in users && u.id != auth.value && ContainsIgnoringCase(u.username, query) ==> u in r.value
  {
    if auth.None? then Err(NotAuthenticated)
    else
      var matching := Filter(users, SearchMatch(auth.value, query));
      var r := Take(matching, SearchLimit);
      TakeFacts(matching, SearchLimit);
      assert forall u :: u in r ==> u in matching;
      assert NoWildcards(query) && |matching| <= SearchLimit ==>
        forall u :: u in users && u.id != auth.value && ContainsIgnoringCase(u.username, query) ==> u in r by {
        if NoWildcards(query) && |matching| <= SearchLimit {
          forall u | u in users && u.id != auth.value && ContainsIgnoringCase(u.username, query)
            ensures u in r
          {
            SubstringSearch(query, u.username);
          }
        }
      }
      assert NoWildcards(query) ==> forall u :: u in r ==> ContainsIgnoringCase(u.username, query) by {
        if NoWildcards(query) {
          forall u | u in r ensures ContainsIgnoringCase(u.username, query) {
            SubstringSearch(query, u.username);
          }
        }
      }
      Ok(r)
  }
}
