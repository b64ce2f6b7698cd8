/** lib/emojis.ts: custom emojis of a server or of a user. */
module Emojis {
  import opened Common
  import opened Sorting
  import opened Store

  function EmojiCreatedAt(e: CustomEmoji): int { e.createdAt }

  /** The rows of `rows` that pass `p`, each as often as in `rows`, newest
      first. */
  function NewestFirst(rows: seq<CustomEmoji>, p: CustomEmoji -> bool): (r: seq<CustomEmoji>)
    ensures forall e :: e in r <==> e in rows && p(e)
    ensures multiset(r) == multiset(Filter(rows, p))
    ensures |r| == Count(rows, p)
    ensures SortedDescBy(r, EmojiCreatedAt)
  {
    var mine := Filter(rows, p);
    var r := SortDescBy(mine, EmojiCreatedAt);
    assert forall e :: e in r <==> e in multiset(mine);
    r
  }

  /** The `.eq("server_id", serverId)` filter. */
  function OnServer(serverId: Id): CustomEmoji -> bool
  {
    (e: CustomEmoji) => e.serverId == Some(serverId)
  }

  /** The `.eq("user_id", userId)` filter. */
  function OwnedBy(userId: UserId): CustomEmoji -> bool
  {
    (e: CustomEmoji) => e.userId == Some(userId)
  }

  /** getServerEmojis: the emojis of the server, each once, newest first. */
  function ServerEmojis(rows: seq<CustomEmoji>, serverId: Id): (r: seq<CustomEmoji>)
    ensures forall e :: e in r <==> e in rows && e.serverId == Some(serverId)
    ensures multiset(r) == multiset(Filter(rows, OnServer(serverId)))
    ensures |r| == Count(rows, OnServer(serverId))
    ensures SortedDescBy(r, EmojiCreatedAt)
  {
    NewestFirst(rows, OnServer(serverId))
  }

  /** getUserEmojis: the caller's emojis, each once, newest first. */
  function UserEmojis(rows: seq<CustomEmoji>, auth: Auth): (r: Result<seq<CustomEmoji>>)
    ensures auth.None? <==> r == Err(NotAuthenticated)
    ensures r.Ok? ==> forall e :: e in r.value <==> e in rows && e.userId == Some(auth.value)
    ensures r.Ok? ==> multiset(r.value) == multiset(Filter(rows, OwnedBy(auth.value)))
    ensures r.Ok? ==> |r.value| == Count(rows, OwnedBy(auth.value))
    ensures r.Ok? ==> SortedDescBy(r.value, EmojiCreatedAt)
  {
    if auth.None? then Err(NotAuthenticated)
    else Ok(NewestFirst(rows, OwnedBy(auth.value)))
  }

  /** createCustomEmoji: one new row owned by the caller; without a server it
      is a personal emoji (server_id null). */
  method CreateCustomEmoji(db: Db, auth: Auth, name: string, imageUrl: string, isAnimated: bool,
                           serverId: Option<Id>, now: int)
    returns (r: Result<CustomEmoji>)
    requires db.Valid()
    modifies db`emojis, db`nextId
    ensures db.Valid()
    ensures auth.None? ==> r == Err(NotAuthenticated) && unchanged(db)
    ensures auth.Some? && CustomEmojis in db.failing ==> r == Err(StoreFailure) && unchanged(db)
    ensures auth.Some? && CustomEmojis !in db.failing ==>
      && r.Ok? && db.emojis == old(db.emojis) + [r.value]
      && r.value.userId == Some(auth.value) && r.value.serverId == serverId
      && r.value.name == name && r.value.imageUrl == imageUrl && r.value.isAnimated == isAnimated
  {
    if auth.None? {
      return Err(NotAuthenticated);
    }
    r := db.InsertEmoji(name, imageUrl, isAnimated, serverId, auth.value, now);
  }

  /** deleteCustomEmoji: removes the row with that id, whoever owns it. */
  method DeleteCustomEmoji(db: Db, emojiId: Id) returns (r: Outcome)
    requires db.Valid()
    modifies db`emojis
    ensures db.Valid()
    ensures CustomEmojis in db.failing ==> r == Fail(StoreFailure) && unchanged(db)
    ensures CustomEmojis !in db.failing ==>
      && r == Pass
      && (forall e :: e in db.emojis <==> e in old(db.emojis) && e.id != emojiId)
      && db.emojis == Filter(old(db.emojis), (e: CustomEmoji) => e.id != emojiId)
  {
    r := db.DeleteEmoji(emojiId);
  }
}
