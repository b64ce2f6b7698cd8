/** app/emojis/page.tsx: the page where a user lists, creates and deletes
    their personal custom emojis, within a quota of emoji slots. */
module EmojisPage {
  import opened Common
  import opened Store
  import opened Emojis

  /** The quota shown before the profile has loaded. */
  const DefaultEmojiSlots := 10

  /** The fixed part of the placeholder image address of a new emoji. */
  const PlaceholderPrefix := "/placeholder.svg?height=128&width=128&query="

  /** Why the page refuses to create an emoji without asking the store. */
  datatype Rejection = NameRequired | NoSlotsAvailable

  datatype CreateOutcome =
    | Rejected(reason: Rejection)
    | Failed(error: Error)
    | Created(emoji: CustomEmoji)

  /** The two checks of handleCreateEmoji, in their order: a blank name is
      refused before the quota is looked at. */
  function CreateRejection(name: string, used: nat, slots: int): (r: Option<Rejection>)
    ensures r == Some(NameRequired) <==> AllSpace(name)
    ensures r == Some(NoSlotsAvailable) <==> !AllSpace(name) && used >= slots
    ensures r == None <==> !AllSpace(name) && used < slots
  {
    if Trim(name) == [] then Some(NameRequired)
    else if used >= slots then Some(NoSlotsAvailable)
    else None
  }

  /** The placeholder image address of a new emoji: the encoded name as
      the query value. */
  function PlaceholderUrl(name: string): string
  {
    WithQueryValue(PlaceholderPrefix, name)
  }

  class Page {
    var emojis: seq<CustomEmoji>
    var emojiSlots: int
    var newEmojiName: string
    var isCreateOpen: bool
    var isLoading: bool

    constructor()
      ensures emojis == [] && emojiSlots == DefaultEmojiSlots
      ensures newEmojiName == [] && !isCreateOpen && isLoading
      ensures !AddDisabled()
    {
      emojis := [];
      emojiSlots := DefaultEmojiSlots;
      newEmojiName := [];
      isCreateOpen := false;
      isLoading := true;
    }

    /** The Add Emoji button is disabled once every slot is used. */
    predicate AddDisabled()
      reads this
    {
      |emojis| >= emojiSlots
    }

    /** The state loadData leaves: the fresh list and quota when both load,
        the previous ones otherwise. */
    ghost predicate Reloaded(db: Db, auth: Auth, profileSlots: Result<int>,
                             before: seq<CustomEmoji>, slotsBefore: int)
      reads this, db
    {
      && !isLoading
      && (auth.Some? && profileSlots.Ok? ==>
            emojis == UserEmojis(db.emojis, auth).value && emojiSlots == profileSlots.value)
      && (auth.None? || profileSlots.Err? ==> emojis == before && emojiSlots == slotsBefore)
    }

    /** The name field. */
    method EditName(name: string)
      modifies this`newEmojiName
      ensures newEmojiName == name
    {
      newEmojiName := name;
    }

    /** The create dialog opening or closing. */
    method SetCreateOpen(open: bool)
      modifies this`isCreateOpen
      ensures isCreateOpen == open
    {
      isCreateOpen := open;
    }

    /** loadData: both the caller's emojis and the profile's slot count must
        load (Promise.all) before either is shown; either way the page stops
        loading. */
    method LoadData(db: Db, auth: Auth, profileSlots: Result<int>)
      modifies this`emojis, this`emojiSlots, this`isLoading
      ensures Reloaded(db, auth, profileSlots, old(emojis), old(emojiSlots))
    {
      var mine := UserEmojis(db.emojis, auth);
      if mine.Ok? && profileSlots.Ok? {
        emojis := mine.value;
        emojiSlots := profileSlots.value;
      }
      isLoading := false;
    }

    /** handleCreateEmoji: refuse a blank name, then a full quota; otherwise
        create a personal, non-animated emoji under the name as typed with
        its placeholder image, and on success clear the form, close the
        dialog and reload. */
    method HandleCreateEmoji(db: Db, auth: Auth, profileSlots: Result<int>, now: int)
      returns (o: CreateOutcome)
      requires db.Valid()
      modifies this, db`emojis, db`nextId
      ensures db.Valid()
      ensures CreateRejection(old(newEmojiName), |old(emojis)|, old(emojiSlots)).Some? ==>
        && o == Rejected(CreateRejection(old(newEmojiName), |old(emojis)|, old(emojiSlots)).value)
        && unchanged(this) && unchanged(db)
      ensures CreateRejection(old(newEmojiName), |old(emojis)|, old(emojiSlots)).None?
              && (auth.None? || CustomEmojis in db.failing) ==>
        o.Failed? && unchanged(this) && unchanged(db)
      ensures CreateRejection(old(newEmojiName), |old(emojis)|, old(emojiSlots)).None?
              && auth.Some? && CustomEmojis !in db.failing ==>
        && o.Created?
        && db.emojis == old(db.emojis) + [o.emoji]
        && o.emoji.name == old(newEmojiName)
        && o.emoji.imageUrl == PlaceholderUrl(old(newEmojiName))
        && !o.emoji.isAnimated && o.emoji.serverId.None? && o.emoji.userId == Some(auth.value)
        && newEmojiName == [] && !isCreateOpen
        && Reloaded(db, auth, profileSlots, old(emojis), old(emojiSlots))
        && (profileSlots.Ok? ==> o.emoji in emojis)
    {
      var rejection := CreateRejection(newEmojiName, |emojis|, emojiSlots);
      if rejection.Some? {
        return Rejected(rejection.value);
      }
      var created := CreateCustomEmoji(db, auth, newEmojiName, PlaceholderUrl(newEmojiName), false, None, now);
      if created.Err? {
        return Failed(created.error);
      }
      o := Created(created.value);
      AfterCreate(db, auth, profileSlots, created.value);
    }

    /** The success path of handleCreateEmoji: clear the name, close the
        dialog and reload, after which the new emoji is listed if the
        reload succeeds. */
    method AfterCreate(db: Db, auth: Auth, profileSlots: Result<int>, created: CustomEmoji)
      requires created in db.emojis && auth.Some? && created.userId == Some(auth.value)
      modifies this
      ensures newEmojiName == [] && !isCreateOpen
      ensures Reloaded(db, auth, profileSlots, old(emojis), old(emojiSlots))
      ensures profileSlots.Ok? ==> created in emojis
    {
      newEmojiName := [];
      isCreateOpen := false;
      LoadData(db, auth, profileSlots);
    }

    /** handleDeleteEmoji: delete by id and reload on success. */
    method HandleDeleteEmoji(db: Db, auth: Auth, emojiId: Id, profileSlots: Result<int>)
      returns (r: Outcome)
      requires db.Valid()
      modifies this`emojis, this`emojiSlots, this`isLoading, db`emojis
      ensures db.Valid()
      ensures CustomEmojis in db.failing ==> r.Fail? && unchanged(this) && unchanged(db)
      ensures CustomEmojis !in db.failing ==>
        && r == Pass && !isLoading
        && (forall e :: e in db.emojis <==> e in old(db.emojis) && e.id != emojiId)
        && db.emojis == Filter(old(db.emojis), (e: CustomEmoji) => e.id != emojiId)
        && Reloaded(db, auth, profileSlots, old(emojis), old(emojiSlots))
        && (auth.Some? && profileSlots.Ok? ==>
              emojiSlots == profileSlots.value
              && forall e :: e in emojis <==> e in old(db.emojis) && e.id != emojiId && e.userId == Some(auth.value))
    {
      r := DeleteCustomEmoji(db, emojiId);
      if r.Pass? {
        LoadData(db, auth, profileSlots);
      }
    }
  }

  /** A non-blank name is refused for want of slots exactly when the Add
      Emoji button is disabled. */
  lemma AddDisabledIsQuotaRejection(p: Page, name: string)
    requires !AllSpace(name)
    ensures p.AddDisabled() <==> CreateRejection(name, |p.emojis|, p.emojiSlots) == Some(NoSlotsAvailable)
  {
  }
}
