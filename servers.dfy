/** lib/servers.ts: servers, memberships and channels. */
module Servers {
  import opened Common
  import opened Sorting
  import opened Store

  // ---------------------------------------------------------------------------
  // Invite codes

  predicate IsBase36Digit(c: char)
  {
    IsDigit(c) || 'a' <= c <= 'z'
  }

  /** What `Math.random().toString(36)` renders: "0" for zero, otherwise "0."
      followed by lower-case base-36 digits. The random number itself is an
      input of the model. */
  predicate IsRandomRendering(s: string)
  {
    s == "0" || (|s| >= 2 && s[0] == '0' && s[1] == '.' && forall i :: 2 <= i < |s| ==> IsBase36Digit(s[i]))
  }

  predicate IsInviteChar(c: char)
  {
    IsDigit(c) || 'A' <= c <= 'Z'
  }

  /** generateInviteCode: characters 2 to 12 of the rendering, upper-cased.
      The code has at most ten characters, all digits or capital letters, and
      exactly ten when the rendering has at least ten fraction digits. */
  function InviteCode(rendering: string): (r: string)
    requires IsRandomRendering(rendering)
    ensures |r| <= 10
    ensures forall i :: 0 <= i < |r| ==> IsInviteChar(r[i])
    ensures |rendering| >= 12 ==> |r| == 10
    ensures |rendering| <= 2 ==> r == []
  {
    var digits := Substring(rendering, 2, 12);
    assert |rendering| > 2 ==> digits == rendering[2..Min(12, |rendering|)];
    Upper(digits)
  }

  // ---------------------------------------------------------------------------
  // Channel positions

  /** The `reduce` of createChannel: the largest position among `chs`, or
      `acc` when that is larger. */
  function MaxPositionFrom(acc: int, chs: seq<Channel>): (r: int)
    ensures r >= acc
    ensures forall c :: c in chs ==> c.position <= r
    ensures r == acc || exists c :: c in chs && c.position == r
    decreases chs
  {
    if chs == [] then acc
    else
      var r := MaxPositionFrom(if chs[0].position > acc then chs[0].position else acc, chs[1..]);
      assert forall c :: c in chs[1..] ==> c in chs;
      assert forall c :: c in chs ==> c == chs[0] || c in chs[1..];
      r
  }

  /** The channels of one server, in table order. */
  function InServer(channels: seq<Channel>, serverId: Id): (r: seq<Channel>)
    ensures forall c :: c in r <==> c in channels && c.serverId == serverId
  {
    Filter(channels, (c: Channel) => c.serverId == serverId)
  }

  /** The position createChannel gives a new channel: the largest position in
      the server, or 0 when there is none or all are negative, plus one. */
  function NextPosition(channels: seq<Channel>, serverId: Id): (r: int)
    ensures r >= 1
    ensures forall c :: c in channels && c.serverId == serverId ==> c.position < r
    ensures r == 1 || exists c :: c in channels && c.serverId == serverId && c.position == r - 1
  {
    MaxPositionFrom(0, InServer(channels, serverId)) + 1
  }

  /** A server with no channels gets its first channel at position 1. */
  lemma FirstChannelPosition(channels: seq<Channel>, serverId: Id)
    requires forall i :: 0 <= i < |channels| ==> channels[i].serverId != serverId
    ensures NextPosition(channels, serverId) == 1
  {
    FilterNone(channels, (c: Channel) => c.serverId == serverId);
  }

  // ---------------------------------------------------------------------------
  // Channels

  /** createChannel: a new channel after the last one of the server. The
      position query is issued without checking its error, so only the
      insert can fail. */
  method CreateChannel(db: Db, auth: Auth, serverId: Id, name: string, kind: string, now: int)
    returns (r: Result<Channel>)
    requires db.Valid()
    modifies db`channels, db`nextId
    ensures db.Valid()
    ensures auth.None? ==> r == Err(NotAuthenticated) && unchanged(db)
    ensures auth.Some? && Channels in db.failing ==> r == Err(StoreFailure) && unchanged(db)
    ensures auth.Some? && Channels !in db.failing && serverId !in ServerIds(db.servers) ==>
      r == Err(ForeignKeyViolation) && unchanged(db)
    ensures auth.Some? && Channels !in db.failing && serverId in ServerIds(db.servers) ==>
      && r == Ok(Channel(old(db.nextId), serverId, name, kind, NextPosition(old(db.channels), serverId), now))
      && db.channels == old(db.channels) + [r.value] && db.nextId == old(db.nextId) + 1
  {
    if auth.None? {
      return Err(NotAuthenticated);
    }
    var position := NextPosition(db.channels, serverId);
    r := db.InsertChannel(serverId, name, kind, position, now);
  }

  /** getServerChannels: the server's channels ordered by position. */
  function ServerChannels(channels: seq<Channel>, serverId: Id): (r: seq<Channel>)
    ensures forall c :: c in r <==> c in channels && c.serverId == serverId
    ensures |r| == |InServer(channels, serverId)|
    ensures multiset(r) == multiset(InServer(channels, serverId))
    ensures SortedBy(r, (c: Channel) => c.position)
  {
    var mine := InServer(channels, serverId);
    var r := SortBy(mine, (c: Channel) => c.position);
    assert forall c :: c in r <==> c in multiset(mine);
    r
  }

  /** deleteChannel: removes the rows with that id, and nothing else. No
      authenticated user is needed. */
  method DeleteChannel(db: Db, channelId: Id) returns (r: Outcome)
    requires db.Valid()
    modifies db`channels
    ensures db.Valid()
    ensures Channels in db.failing ==> r == Fail(StoreFailure) && unchanged(db)
    ensures Channels !in db.failing ==>
      && r == Pass
      && (forall c :: c in db.channels <==> c in old(db.channels) && c.id != channelId)
      && db.channels == Filter(old(db.channels), (c: Channel) => c.id != channelId)
  {
    r := db.DeleteChannel(channelId);
  }

  // ---------------------------------------------------------------------------
  // Servers and memberships

  /** createServer: the server row, then the owner's membership, then the
      "general" text channel. The steps are not one transaction: a failing
      step leaves the rows of the earlier steps in place. */
  method CreateServer(db: Db, auth: Auth, name: string, iconUrl: Option<string>, rendering: string, now: int)
    returns (r: Result<Server>)
    requires db.Valid()
    requires IsRandomRendering(rendering)
    modifies db`servers, db`memberships, db`channels, db`nextId
    ensures db.Valid()
    ensures auth.None? ==> r == Err(NotAuthenticated) && unchanged(db)
    ensures auth.Some? && Servers in db.failing ==> r == Err(StoreFailure) && unchanged(db)
    ensures auth.Some? && Servers !in db.failing ==>
      var server := Server(old(db.nextId), name, iconUrl, auth.value, InviteCode(rendering), 0, now);
      && db.servers == old(db.servers) + [server]
      && (ServerMembers in db.failing ==>
            r == Err(StoreFailure) && db.memberships == old(db.memberships) && db.channels == old(db.channels)
            && db.nextId == old(db.nextId) + 1)
      && (ServerMembers !in db.failing ==>
            db.memberships == old(db.memberships) + [Membership(server.id, auth.value, Owner, now)])
      && (ServerMembers !in db.failing && Channels in db.failing ==>
            r == Err(StoreFailure) && db.channels == old(db.channels) && db.nextId == old(db.nextId) + 1)
      && (ServerMembers !in db.failing && Channels !in db.failing ==>
            && r == Ok(server)
            && db.channels == old(db.channels) + [Channel(old(db.nextId) + 1, server.id, "general", "text", 1, now)]
            && db.nextId == old(db.nextId) + 2)
  {
    if auth.None? {
      return Err(NotAuthenticated);
    }
    var inserted := AddServer(db, auth.value, name, iconUrl, InviteCode(rendering), now);
    if inserted.Err? {
      return Err(inserted.error);
    }
    var server := inserted.value;
    var member := AddOwner(db, server.id, auth.value, now);
    if member.Fail? {
      return Err(member.error);
    }
    var channel := AddGeneralChannel(db, auth, server.id, now);
    if channel.Err? {
      return Err(channel.error);
    }
    r := Ok(server);
  }

  /** The third step of createServer: the "general" text channel, first in
      a server that has no channel yet. */
  method AddGeneralChannel(db: Db, auth: Auth, serverId: Id, now: int) returns (r: Result<Channel>)
    requires db.Valid() && auth.Some? && serverId in ServerIds(db.servers)
    requires forall i :: 0 <= i < |db.channels| ==> db.channels[i].serverId != serverId
    modifies db`channels, db`nextId
    ensures db.Valid()
    ensures Channels in db.failing ==> r == Err(StoreFailure) && unchanged(db)
    ensures Channels !in db.failing ==>
      && r == Ok(Channel(old(db.nextId), serverId, "general", "text", 1, now))
      && db.channels == old(db.channels) + [r.value] && db.nextId == old(db.nextId) + 1
  {
    FirstChannelPosition(db.channels, serverId);
    r := CreateChannel(db, auth, serverId, "general", "text", now);
  }

  /** The first step of createServer: the server row. No membership and no
      channel refers to its id yet. */
  method AddServer(db: Db, ownerId: UserId, name: string, iconUrl: Option<string>, inviteCode: string, now: int)
    returns (r: Result<Server>)
    requires db.Valid()
    modifies db`servers, db`nextId
    ensures db.Valid()
    ensures Servers in db.failing ==> r == Err(StoreFailure) && unchanged(db)
    ensures Servers !in db.failing ==>
      && r == Ok(Server(old(db.nextId), name, iconUrl, ownerId, inviteCode, 0, now))
      && db.servers == old(db.servers) + [r.value] && db.nextId == old(db.nextId) + 1
      && r.value.id in ServerIds(db.servers)
      && (forall i :: 0 <= i < |db.memberships| ==> db.memberships[i].serverId != r.value.id)
      && (forall i :: 0 <= i < |db.channels| ==> db.channels[i].serverId != r.value.id)
  {
    ghost var servers0 := db.servers;
    r := db.InsertServer(name, iconUrl, ownerId, inviteCode, now);
    if r.Ok? {
      ServerIdsAppend(servers0, r.value);
      NoRowsOfFreshServer(db.memberships, db.channels, servers0, r.value.id);
    }
  }

  /** The second step of createServer: the owner's membership of a server
      nobody belongs to yet. */
  method AddOwner(db: Db, serverId: Id, userId: UserId, now: int) returns (r: Outcome)
    requires db.Valid() && serverId in ServerIds(db.servers)
    requires forall i :: 0 <= i < |db.memberships| ==> db.memberships[i].serverId != serverId
    modifies db`memberships
    ensures db.Valid()
    ensures ServerMembers in db.failing ==> r == Fail(StoreFailure) && unchanged(db)
    ensures ServerMembers !in db.failing ==>
      r == Pass && db.memberships == old(db.memberships) + [Membership(serverId, userId, Owner, now)]
  {
    r := db.InsertMembership(serverId, userId, Owner, now);
    if r.Pass? {
      assert db.Valid() by {
        var ms := db.memberships;
        forall i, j | 0 <= i < j < |ms|
          ensures !IsMembership(ms[j], ms[i].serverId, ms[i].userId)
        {
          if j == |ms| - 1 {
            assert ms[i].serverId != serverId;
          }
        }
      }
    }
  }

  /** Rows that reference servers can only reference ids below the counter. */
  lemma NoRowsOfFreshServer(memberships: seq<Membership>, channels: seq<Channel>, servers: seq<Server>, id: Id)
    requires forall i :: 0 <= i < |servers| ==> servers[i].id < id
    requires forall i :: 0 <= i < |memberships| ==> memberships[i].serverId in ServerIds(servers)
    requires forall i :: 0 <= i < |channels| ==> channels[i].serverId in ServerIds(servers)
    ensures forall i :: 0 <= i < |memberships| ==> memberships[i].serverId != id
    ensures forall i :: 0 <= i < |channels| ==> channels[i].serverId != id
  {
    forall s | s in servers
      ensures s.id != id
    {
      var k :| 0 <= k < |servers| && servers[k] == s;
    }
    assert id !in ServerIds(servers);
  }

  /** The memberships of `userId` in `serverId`. */
  function MembershipOf(serverId: Id, userId: UserId): Membership -> bool
  {
    (m: Membership) => IsMembership(m, serverId, userId)
  }

  /** The unique constraint on memberships means at most one row per pair. */
  lemma {:induction false} AtMostOneMembership(rows: seq<Membership>, serverId: Id, userId: UserId)
    requires MembershipsUnique(rows)
    ensures Count(rows, MembershipOf(serverId, userId)) <= 1
  {
    if rows != [] {
      var p := MembershipOf(serverId, userId);
      assert MembershipsUnique(rows[1..]) by {
        forall i, j | 0 <= i < j < |rows[1..]|
          ensures !IsMembership(rows[1..][j], rows[1..][i].serverId, rows[1..][i].userId)
        {
          assert rows[1..][i] == rows[i + 1] && rows[1..][j] == rows[j + 1];
        }
      }
      AtMostOneMembership(rows[1..], serverId, userId);
      if p(rows[0]) {
        forall x | x in rows[1..]
          ensures !p(x)
        {
          var k :| 0 <= k < |rows[1..]| && rows[1..][k] == x;
          assert rows[k + 1] == x;
        }
        FilterNone(rows[1..], p);
      }
      assert rows == [rows[0]] + rows[1..];
    }
  }

  /** The membership table after a join: unchanged when the `.single()` look-up
      finds the caller's row, otherwise with one new "member" row. */
  function Joined(rows: seq<Membership>, serverId: Id, userId: UserId, now: int): seq<Membership>
  {
    if Count(rows, MembershipOf(serverId, userId)) == 1 then rows
    else rows + [Membership(serverId, userId, Member, now)]
  }

  /** A join leaves exactly one membership for the pair and keeps the unique
      constraint; joining again changes nothing. */
  lemma JoinIdempotent(rows: seq<Membership>, serverId: Id, userId: UserId, t1: int, t2: int)
    requires MembershipsUnique(rows)
    ensures MembershipsUnique(Joined(rows, serverId, userId, t1))
    ensures Count(Joined(rows, serverId, userId, t1), MembershipOf(serverId, userId)) == 1
    ensures Joined(Joined(rows, serverId, userId, t1), serverId, userId, t2) == Joined(rows, serverId, userId, t1)
  {
    JoinKeepsUnique(rows, serverId, userId, t1);
  }

  lemma JoinKeepsUnique(rows: seq<Membership>, serverId: Id, userId: UserId, now: int)
    requires MembershipsUnique(rows)
    ensures MembershipsUnique(Joined(rows, serverId, userId, now))
    ensures Count(Joined(rows, serverId, userId, now), MembershipOf(serverId, userId)) == 1
  {
    var p := MembershipOf(serverId, userId);
    AtMostOneMembership(rows, serverId, userId);
    if Count(rows, p) != 1 {
      var m := Membership(serverId, userId, Member, now);
      var after := rows + [m];
      assert Filter(rows, p) == [];
      FilterAppend(rows, m, p);
      forall i | 0 <= i < |rows|
        ensures !IsMembership(rows[i], serverId, userId)
      {
        assert rows[i] in rows;
      }
      forall i, j | 0 <= i < j < |after|
        ensures !IsMembership(after[j], after[i].serverId, after[i].userId)
      {
        if j == |rows| {
          assert after[i] == rows[i];
        }
      }
    }
  }

  /** joinServerByInvite: the server with that invite code (`.single()`), and
      a "member" row unless the caller already has one. */
  method JoinServerByInvite(db: Db, auth: Auth, inviteCode: string, now: int) returns (r: Result<Server>)
    requires db.Valid()
    modifies db`memberships
    ensures db.Valid()
    ensures auth.None? ==> r == Err(NotAuthenticated) && unchanged(db)
    ensures auth.Some? ==>
      var found := Single(Filter(db.servers, WithInvite(inviteCode)));
      && (found.Err? ==> r == Err(found.error) && unchanged(db))
      && (found.Ok? && ServerMembers in db.failing &&
          Count(old(db.memberships), MembershipOf(found.value.id, auth.value)) != 1 ==>
            r == Err(StoreFailure) && unchanged(db))
      && (found.Ok? && (ServerMembers !in db.failing ||
                        Count(old(db.memberships), MembershipOf(found.value.id, auth.value)) == 1) ==>
            && r == Ok(found.value)
            && db.memberships == Joined(old(db.memberships), found.value.id, auth.value, now))
  {
    if auth.None? {
      return Err(NotAuthenticated);
    }
    var found := Single(Filter(db.servers, WithInvite(inviteCode)));
    if found.Err? {
      return Err(found.error);
    }
    var server := found.value;
    var existing := Single(Filter(db.memberships, MembershipOf(server.id, auth.value)));
    if existing.Ok? {
      return Ok(server);
    }
    assert server.id in ServerIds(db.servers);
    var member := AddMember(db, server.id, auth.value, now);
    if member.Fail? {
      return Err(member.error);
    }
    r := Ok(server);
  }

  /** The `.eq("invite_code", code)` filter. */
  function WithInvite(code: string): Server -> bool
  {
    (s: Server) => s.inviteCode == code
  }

  /** The insert of joinServerByInvite, once the look-up found no row of
      the caller in that server. */
  method AddMember(db: Db, serverId: Id, userId: UserId, now: int) returns (r: Outcome)
    requires db.Valid() && serverId in ServerIds(db.servers)
    requires Count(db.memberships, MembershipOf(serverId, userId)) != 1
    modifies db`memberships
    ensures db.Valid()
    ensures ServerMembers in db.failing ==> r == Fail(StoreFailure) && unchanged(db)
    ensures ServerMembers !in db.failing ==>
      r == Pass && db.memberships == Joined(old(db.memberships), serverId, userId, now)
  {
    JoinKeepsUnique(db.memberships, serverId, userId, now);
    r := db.InsertMembership(serverId, userId, Member, now);
  }

  /** The embedded `servers(*)` of a membership row: the server with that id,
      or null when there is none. */
  function ServerOf(servers: seq<Server>, id: Id): (r: Option<Server>)
    ensures r.Some? <==> id in ServerIds(servers)
    ensures r.Some? ==> r.value in servers && r.value.id == id
  {
    if servers == [] then None
    else if servers[0].id == id then Some(servers[0])
    else
      var r := ServerOf(servers[1..], id);
      assert ServerIds(servers) == {servers[0].id} + ServerIds(servers[1..]) by {
        assert servers == [servers[0]] + servers[1..];
        assert forall s :: s in servers <==> s == servers[0] || s in servers[1..];
      }
      r
  }

  /** The embedded server of each membership, in membership order. */
  function ServersOf(servers: seq<Server>, memberships: seq<Membership>): (r: seq<Option<Server>>)
    ensures |r| == |memberships|
    ensures forall i :: 0 <= i < |r| ==> r[i] == ServerOf(servers, memberships[i].serverId)
  {
    if memberships == [] then []
    else [ServerOf(servers, memberships[0].serverId)] + ServersOf(servers, memberships[1..])
  }

  /** The memberships of one user. */
  function MemberIs(user: UserId): Membership -> bool
  {
    (m: Membership) => m.userId == user
  }

  /** getUserServers: the embedded server of each of the caller's memberships. */
  function UserServers(servers: seq<Server>, memberships: seq<Membership>, auth: Auth): (r: Result<seq<Option<Server>>>)
    ensures auth.None? <==> r == Err(NotAuthenticated)
    ensures r.Ok? ==> |r.value| == Count(memberships, MemberIs(auth.value))
  {
    if auth.None? then Err(NotAuthenticated)
    else Ok(ServersOf(servers, Filter(memberships, MemberIs(auth.value))))
  }

  /** With every membership pointing at a server, getUserServers returns
      exactly the servers the caller is a member of. */
  lemma UserServersAreMemberships(servers: seq<Server>, memberships: seq<Membership>, user: UserId)
    requires forall i :: 0 <= i < |memberships| ==> memberships[i].serverId in ServerIds(servers)
    ensures var r := UserServers(servers, memberships, Some(user));
      && r.Ok?
      && (forall i :: 0 <= i < |r.value| ==> r.value[i].Some?)
      && (forall s :: Some(s) in r.value ==>
            s in servers && exists m :: m in memberships && m.userId == user && m.serverId == s.id)
      && (forall m :: m in memberships && m.userId == user ==>
            exists s :: Some(s) in r.value && s.id == m.serverId)
  {
    var mine := Filter(memberships, MemberIs(user));
    forall i | 0 <= i < |mine|
      ensures mine[i].serverId in ServerIds(servers)
    {
      assert mine[i] in memberships;
    }
    EmbeddedServers(servers, mine);
    UserServersSound(servers, memberships, user);
    UserServersComplete(servers, memberships, user);
  }

  lemma UserServersSound(servers: seq<Server>, memberships: seq<Membership>, user: UserId)
    ensures forall s :: Some(s) in UserServers(servers, memberships, Some(user)).value ==>
      s in servers && exists m :: m in memberships && m.userId == user && m.serverId == s.id
  {
    var mine := Filter(memberships, MemberIs(user));
    var r := ServersOf(servers, mine);
    forall s | Some(s) in r
      ensures s in servers && exists m :: m in memberships && m.userId == user && m.serverId == s.id
    {
      var i :| 0 <= i < |r| && r[i] == Some(s);
      assert mine[i] in mine;
    }
  }

  lemma UserServersComplete(servers: seq<Server>, memberships: seq<Membership>, user: UserId)
    requires forall i :: 0 <= i < |memberships| ==> memberships[i].serverId in ServerIds(servers)
    ensures forall m :: m in memberships && m.userId == user ==>
      exists s :: Some(s) in UserServers(servers, memberships, Some(user)).value && s.id == m.serverId
  {
    var mine := Filter(memberships, MemberIs(user));
    var r := ServersOf(servers, mine);
    forall m | m in memberships && m.userId == user
      ensures exists s: Server :: Some(s) in r && s.id == m.serverId
    {
      assert m in mine;
      var i :| 0 <= i < |mine| && mine[i] == m;
      var k :| 0 <= k < |memberships| && memberships[k] == m;
      assert r[i] == ServerOf(servers, m.serverId);
      assert Some(r[i].value) in r;
    }
  }

  /** Memberships that all point at servers embed a server each, the one
      they point at. */
  lemma EmbeddedServers(servers: seq<Server>, memberships: seq<Membership>)
    requires forall i :: 0 <= i < |memberships| ==> memberships[i].serverId in ServerIds(servers)
    ensures var r := ServersOf(servers, memberships);
      forall i :: 0 <= i < |r| ==>
        r[i].Some? && r[i].value in servers && r[i].value.id == memberships[i].serverId
  {
  }

  /** The `.eq("id", id)` filter on servers. */
  function ServerWithId(id: Id): Server -> bool
  {
    (s: Server) => s.id == id
  }

  /** getServerById: the one server with that id; no row or several rows
      give the `.single()` errors. */
  function ServerById(servers: seq<Server>, id: Id): (r: Result<Server>)
    ensures r.Ok? <==> Count(servers, ServerWithId(id)) == 1
    ensures r.Ok? ==> r.value in servers && r.value.id == id
    ensures id !in ServerIds(servers) ==> r == Err(NoRows)
    ensures Count(servers, ServerWithId(id)) > 1 ==> r == Err(ManyRows)
  {
    var r := Single(Filter(servers, ServerWithId(id)));
    assert id !in ServerIds(servers) ==> Filter(servers, ServerWithId(id)) == [] by {
      if id !in ServerIds(servers) {
        assert forall i :: 0 <= i < |servers| ==> servers[i].id in ServerIds(servers);
        FilterNone(servers, ServerWithId(id));
      }
    }
    r
  }

  /** Server ids are distinct, as the primary key makes them. */
  predicate ServerIdsDistinct(servers: seq<Server>)
  {
    forall i, j :: 0 <= i < j < |servers| ==> servers[i].id != servers[j].id
  }

  /** With distinct ids, a server is the only row its id selects. */
  lemma {:induction false} OnlyServerWithId(servers: seq<Server>, s: Server)
    requires ServerIdsDistinct(servers) && s in servers
    ensures Filter(servers, ServerWithId(s.id)) == [s]
  {
    var p := ServerWithId(s.id);
    var t := servers[1..];
    assert servers == [servers[0]] + t;
    if servers[0] == s {
      forall i | 0 <= i < |t| ensures !p(t[i]) {
        assert t[i] == servers[i + 1];
      }
      FilterNone(t, p);
    } else {
      var k :| 0 <= k < |servers| && servers[k] == s;
      assert !p(servers[0]);
      assert s in t;
      forall i, j | 0 <= i < j < |t| ensures t[i].id != t[j].id {
        assert t[i] == servers[i + 1] && t[j] == servers[j + 1];
      }
      OnlyServerWithId(t, s);
    }
  }

  /** getServerById finds every server of a table with distinct ids. */
  lemma ServerByIdFinds(servers: seq<Server>, s: Server)
    requires ServerIdsDistinct(servers) && s in servers
    ensures ServerById(servers, s.id) == Ok(s)
  {
    OnlyServerWithId(servers, s);
  }
}
