/** components/chat-message.tsx: how one message is shown. The reactions are
    summed per emoji in the order each emoji first appears, the author's
    name, colour and initial fall back when missing, and an attachment is an
    image or a download link depending on its address. */
module ChatMessage {
  import opened Common
  import opened Store
  import opened Messages
  import opened Display

  // ---------------------------------------------------------------------------
  // Reaction summary

  /** One chip of the reaction bar: an emoji and how many reactions use it. */
  type Tallies = seq<(string, nat)>

  function EmojiIs(e: string): Reaction -> bool
  {
    (x: Reaction) => x.emoji == e
  }

  predicate KeysDistinct(t: Tallies)
  {
    forall i, j :: 0 <= i < j < |t| ==> t[i].0 != t[j].0
  }

  predicate CountsPositive(t: Tallies)
  {
    forall i :: 0 <= i < |t| ==> t[i].1 >= 1
  }

  /** The count held for `e`, or 0 when `e` has no entry. */
  function Lookup(t: Tallies, e: string): nat
  {
    if t == [] then 0 else if t[0].0 == e then t[0].1 else Lookup(t[1..], e)
  }

  function Total(t: Tallies): nat
  {
    if t == [] then 0 else t[0].1 + Total(t[1..])
  }

  /** One step of the reduce: `acc[e] = (acc[e] || 0) + 1`. */
  function Bump(t: Tallies, e: string): Tallies
  {
    if t == [] then [(e, 1)]
    else if t[0].0 == e then [(e, t[0].1 + 1)] + t[1..]
    else [t[0]] + Bump(t[1..], e)
  }

  /** Some chip is for `e`. */
  predicate HasKey(t: Tallies, e: string)
  {
    t != [] && (t[0].0 == e || HasKey(t[1..], e))
  }

  lemma {:induction false} KeyAt(t: Tallies, i: nat)
    requires i < |t|
    ensures HasKey(t, t[i].0)
  {
    if i > 0 {
      KeyAt(t[1..], i - 1);
    }
  }

  lemma {:induction false} NoKey(t: Tallies, e: string)
    requires forall i :: 0 <= i < |t| ==> t[i].0 != e
    ensures !HasKey(t, e)
  {
    if t != [] {
      assert forall i :: 0 <= i < |t[1..]| ==> t[1..][i] == t[i + 1];
      NoKey(t[1..], e);
    }
  }

  lemma {:induction false} LookupPositive(t: Tallies, e: string)
    requires CountsPositive(t)
    ensures Lookup(t, e) > 0 <==> HasKey(t, e)
  {
    if t != [] {
      assert CountsPositive(t[1..]) by {
        assert forall i :: 0 <= i < |t[1..]| ==> t[1..][i] == t[i + 1];
      }
      LookupPositive(t[1..], e);
    }
  }

  lemma {:induction false} BumpKeys(t: Tallies, e: string, k: string)
    ensures HasKey(Bump(t, e), k) <==> k == e || HasKey(t, k)
  {
    if t != [] && t[0].0 != e {
      BumpKeys(t[1..], e, k);
      assert Bump(t, e)[1..] == Bump(t[1..], e);
    } else if t != [] {
      assert Bump(t, e)[1..] == t[1..];
    }
  }

  /** A step adds one to the count of its emoji and to the total, and
      leaves every other count alone. */
  lemma {:induction false} BumpCounts(t: Tallies, e: string)
    ensures Lookup(Bump(t, e), e) == Lookup(t, e) + 1
    ensures forall k :: k != e ==> Lookup(Bump(t, e), k) == Lookup(t, k)
    ensures Total(Bump(t, e)) == Total(t) + 1
  {
    if t != [] && t[0].0 != e {
      BumpCounts(t[1..], e);
      assert Bump(t, e)[1..] == Bump(t[1..], e);
    } else if t != [] {
      assert Bump(t, e)[1..] == t[1..];
    }
  }

  /** A step keeps one chip per emoji, each with a positive count. */
  lemma {:induction false} BumpShape(t: Tallies, e: string)
    requires KeysDistinct(t) && CountsPositive(t)
    ensures KeysDistinct(Bump(t, e)) && CountsPositive(Bump(t, e))
  {
    if t != [] && t[0].0 != e {
      var rest := Bump(t[1..], e);
      assert forall i :: 0 <= i < |t[1..]| ==> t[1..][i] == t[i + 1];
      BumpShape(t[1..], e);
      assert Bump(t, e) == [t[0]] + rest;
      NoKey(t[1..], t[0].0);
      BumpKeys(t[1..], e, t[0].0);
      forall i | 0 <= i < |rest|
        ensures rest[i].0 != t[0].0
      {
        KeyAt(rest, i);
      }
    } else if t != [] {
      assert Bump(t, e) == [(e, t[0].1 + 1)] + t[1..];
    }
  }

  /** The reduce over the reactions in their order. */
  function Tally(rs: seq<Reaction>): (r: Tallies)
    ensures KeysDistinct(r) && CountsPositive(r)
    ensures forall e :: Lookup(r, e) == Count(rs, EmojiIs(e))
    ensures Total(r) == |rs|
    decreases |rs|
  {
    if rs == [] then []
    else
      var init := rs[..|rs| - 1];
      var last := rs[|rs| - 1];
      var before := Tally(init);
      BumpShape(before, last.emoji);
      BumpCounts(before, last.emoji);
      assert rs == init + [last];
      assert forall e :: Count(rs, EmojiIs(e)) == Count(init, EmojiIs(e)) + (if last.emoji == e then 1 else 0) by {
        forall e ensures Count(rs, EmojiIs(e)) == Count(init, EmojiIs(e)) + (if last.emoji == e then 1 else 0) {
          CountAppend(init, last, EmojiIs(e));
        }
      }
      Bump(before, last.emoji)
  }

  /** The emoji used by some reaction. */
  predicate Used(rs: seq<Reaction>, e: string)
  {
    exists j :: 0 <= j < |rs| && rs[j].emoji == e
  }

  /** The bar is shown only when there are reactions, and it has a chip for
      exactly the emoji some reaction uses. */
  lemma ReactionBar(rs: seq<Reaction>, e: string)
    ensures Tally(rs) == [] <==> rs == []
    ensures HasKey(Tally(rs), e) <==> Used(rs, e)
  {
    var t := Tally(rs);
    LookupPositive(t, e);
    var mine := Filter(rs, EmojiIs(e));
    if Used(rs, e) {
      var j :| 0 <= j < |rs| && rs[j].emoji == e;
      assert rs[j] in mine;
    }
    if |mine| > 0 {
      assert mine[0] in rs && mine[0].emoji == e;
    }
    if rs != [] {
      LookupPositive(t, rs[0].emoji);
      assert rs[0] in Filter(rs, EmojiIs(rs[0].emoji));
    }
  }

  /** handleReaction: the same toggle whether a picker emoji or a chip is
      clicked; the picker closes only when the toggle succeeds. */
  method HandleReaction(db: Db, auth: Auth, messageId: Id, emoji: string, pickerOpen: bool, now: int)
    returns (r: Result<Option<Reaction>>, open: bool)
    requires db.Valid()
    modifies db`reactions, db`nextId
    ensures db.Valid()
    ensures open == (pickerOpen && r.Err?)
    ensures auth.None? ==> r == Err(NotAuthenticated) && unchanged(db)
    ensures auth.Some? && MessageReactions in db.failing ==> r == Err(StoreFailure) && unchanged(db)
    ensures auth.Some? && MessageReactions !in db.failing ==>
      var candidate := Reaction(old(db.nextId), messageId, auth.value, emoji, now);
      r.Ok? && (r.value, db.reactions) == Toggle(old(db.reactions), candidate)
  {
    r := AddReaction(db, auth, messageId, emoji, now);
    open := pickerOpen && r.Err?;
  }

  // ---------------------------------------------------------------------------
  // Author fallbacks

  /** The name shown for the author, "Unknown" when the author or the name
      is missing. */
  function AuthorName(author: Option<User>): (r: string)
    ensures r != []
    ensures author.Some? && author.value.username != [] ==> r == author.value.username
    ensures author.None? || author.value.username == [] ==> r == "Unknown"
  {
    OrElse(if author.Some? then Some(author.value.username) else None, "Unknown")
  }

  /** The colour of the author's name, white when none is set. */
  function UsernameColor(author: Option<User>): (r: string)
    ensures r != []
    ensures author.Some? && author.value.usernameColor != [] ==> r == author.value.usernameColor
    ensures author.None? || author.value.usernameColor == [] ==> r == "#FFFFFF"
  {
    OrElse(if author.Some? then Some(author.value.usernameColor) else None, "#FFFFFF")
  }

  /** The avatar letter of the author. */
  function AuthorInitial(author: Option<User>): (r: string)
    ensures |r| == 1
    ensures author.Some? && author.value.username != [] ==> r == [UpperChar(author.value.username[0])]
    ensures author.None? || author.value.username == [] ==> r == "U"
  {
    AvatarInitial(if author.Some? then Some(author.value.username) else None)
  }

  // ---------------------------------------------------------------------------
  // Attachments

  /** The last `n` characters of `s`, in ASCII lower case. */
  function LowerTail(s: string, n: nat): string
    requires n <= |s|
  {
    Lower(s[|s| - n..])
  }

  /** Lower-casing commutes with taking a suffix. */
  lemma LowerSuffix(s: string, n: nat)
    ensures n <= |s| ==> Lower(s)[|s| - n..] == LowerTail(s, n)
  {
    if n <= |s| {
      var a, b := Lower(s)[|s| - n..], LowerTail(s, n);
      forall i | 0 <= i < n
        ensures a[i] == b[i]
      {
        assert a[i] == Lower(s)[|s| - n + i];
        assert b[i] == LowerChar(s[|s| - n..][i]);
      }
    }
  }

  /** The test `/\.(jpg|jpeg|png|gif|webp)$/i`: the address ends in one of
      the five extensions, ignoring ASCII case. */
  function IsImageUrl(url: string): (r: bool)
    ensures r <==>
      || (|url| >= 4 && LowerTail(url, 4) in [".jpg", ".png", ".gif"])
      || (|url| >= 5 && LowerTail(url, 5) in [".jpeg", ".webp"])
  {
    var lower := Lower(url);
    LowerSuffix(url, 4);
    LowerSuffix(url, 5);
    || EndsWith(lower, ".jpg") || EndsWith(lower, ".jpeg") || EndsWith(lower, ".png")
    || EndsWith(lower, ".gif") || EndsWith(lower, ".webp")
  }

  datatype Attachment =
    | NoAttachment
    | Image(src: string, alt: string)
    | Link(href: string, text: string)

  /** What is rendered for the message's file: nothing without an address
      (or with an empty one), an image for an image address with the file
      name or "Attachment" as its text, otherwise a link labelled with the
      file name or "Download file". */
  function AttachmentOf(m: Message): (r: Attachment)
    ensures r.NoAttachment? <==> m.fileUrl.None? || m.fileUrl.value == []
    ensures r.Image? <==> m.fileUrl.Some? && m.fileUrl.value != [] && IsImageUrl(m.fileUrl.value)
    ensures r.Image? ==> r.src == m.fileUrl.value && r.alt == OrElse(m.fileName, "Attachment")
    ensures r.Link? ==> r.href == m.fileUrl.value && r.text == OrElse(m.fileName, "Download file")
    ensures r.Link? ==> r.text != []
  {
    if m.fileUrl.None? || m.fileUrl.value == [] then NoAttachment
    else if IsImageUrl(m.fileUrl.value) then Image(m.fileUrl.value, OrElse(m.fileName, "Attachment"))
    else Link(m.fileUrl.value, OrElse(m.fileName, "Download file"))
  }
}
