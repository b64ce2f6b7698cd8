/** components/chat-input.tsx: the message box of a channel. It signals
    typing to the store, stops signalling after a quiet period, checks and
    holds an attached file, and sends the message. */
module ChatInput {
  import opened Common
  import opened Store
  import opened Messages

  /** The largest attachment accepted, in bytes (50 MiB). */
  const MaxFileSize := 50 * 1024 * 1024

  /** What is sent when there is a file but no text. */
  const FileOnlyContent := "Sent a file"

  /** The fixed part of the address the stand-in upload returns. */
  const UploadPrefix := "/placeholder.svg?height=400&width=600&query="

  datatype SelectedFile = SelectedFile(name: string, size: nat)

  /** What a send captured when it started: the channel the box served, the
      content to post (computed from the text of that moment) and the file.
      The handler keeps these even if the box moves to another channel
      before the send settles. */
  datatype Draft = Draft(channelId: Id, content: string, file: Option<SelectedFile>)

  /** The content sent: the trimmed text, or a fixed text for a file alone. */
  function SendContent(message: string): (r: string)
    ensures r != []
    ensures AllSpace(message) ==> r == FileOnlyContent
    ensures !AllSpace(message) ==>
      && (exists i, j :: 0 <= i <= j <= |message| && r == message[i..j]
                          && AllSpace(message[..i]) && AllSpace(message[j..]))
      && !IsJsSpace(r[0]) && !IsJsSpace(r[|r| - 1])
  {
    var t := Trim(message);
    if t == [] then FileOnlyContent else t
  }

  /** uploadFile: the address the stand-in upload resolves to, with the
      encoded file name as the query value. */
  function UploadedUrl(name: string): string
  {
    WithQueryValue(UploadPrefix, name)
  }

  /** The file address and file name a send attaches to its message. */
  function AttachedUrl(file: Option<SelectedFile>): Option<string>
  {
    if file.Some? then Some(UploadedUrl(file.value.name)) else None
  }

  function AttachedName(file: Option<SelectedFile>): Option<string>
  {
    if file.Some? then Some(file.value.name) else None
  }

  /** The message a send posts carries the draft: its content and, with a
      file, the file's address and name. */
  predicate Carries(m: Message, d: Draft)
  {
    m.content == d.content && m.fileUrl == AttachedUrl(d.file) && m.fileName == AttachedName(d.file)
  }

  /** The guard of handleSend, which is also the enabled state of the send
      button: something to send, and no send in flight. */
  function CanSend(message: string, file: Option<SelectedFile>, isSending: bool): (r: bool)
    ensures r <==> (!AllSpace(message) || file.Some?) && !isSending
  {
    !((Trim(message) == [] && file.None?) || isSending)
  }

  /** The number of "typing" signals a run of keystrokes sends when no quiet
      period ends between them, starting from the given typing state. */
  function TypingStarts(values: seq<string>, isTyping: bool): nat
  {
    if values == [] then 0
    else
      (if |values[0]| > 0 && !isTyping then 1 else 0)
      + TypingStarts(values[1..], isTyping || |values[0]| > 0)
  }

  /** Typing is signalled once per burst: never while already typing, and
      from a quiet state exactly once if some keystroke leaves text. */
  lemma {:induction false} AtMostOneStart(values: seq<string>, isTyping: bool)
    ensures isTyping ==> TypingStarts(values, isTyping) == 0
    ensures !isTyping ==>
      (TypingStarts(values, isTyping) == 1 <==> exists i :: 0 <= i < |values| && |values[i]| > 0)
    ensures TypingStarts(values, isTyping) <= 1
    decreases |values|
  {
    if values != [] {
      AtMostOneStart(values[1..], isTyping || |values[0]| > 0);
      if !isTyping && |values[0]| == 0 {
        assert forall i :: 0 < i < |values| ==> values[i] == values[1..][i - 1];
        assert forall i :: 0 <= i < |values| - 1 ==> values[1..][i] == values[i + 1];
      }
    }
  }

  class Input {
    var channelId: Id
    var message: string
    var isTyping: bool
    var isSending: bool
    var selectedFile: Option<SelectedFile>
    /** The last timer handle stored in typingTimeoutRef. */
    var timeoutRef: Option<nat>
    /** Timers set and neither fired nor cleared yet. */
    var pending: set<nat>
    /** The handle the next timer gets. */
    var nextTimer: nat
    /** The draft of the send in flight. */
    var inFlight: Option<Draft>

    /** The timer the ref holds, as a set. */
    function RefTimers(): set<nat>
      reads this`timeoutRef
    {
      if timeoutRef.Some? then {timeoutRef.value} else {}
    }

    /** At most one quiet-period timer is pending, and it is the one the ref
        holds; a send in flight is marked as sending. */
    ghost predicate Valid()
      reads this`pending, this`timeoutRef, this`nextTimer, this`inFlight, this`isSending
    {
      && pending <= RefTimers()
      && (timeoutRef.Some? ==> timeoutRef.value < nextTimer)
      && (inFlight.Some? ==> isSending)
    }

    constructor(channelId: Id)
      ensures Valid()
      ensures this.channelId == channelId && message == [] && !isTyping && !isSending
      ensures selectedFile.None? && timeoutRef.None? && pending == {} && inFlight.None?
    {
      this.channelId := channelId;
      message := [];
      isTyping := false;
      isSending := false;
      selectedFile := None;
      timeoutRef := None;
      pending := {};
      nextTimer := 1;
      inFlight := None;
    }

    /** The text field is disabled while a send is in flight. */
    predicate InputDisabled()
      reads this
    {
      isSending
    }

    /** handleTyping: keep the text; signal typing when text appears while
        not typing; replace the quiet-period timer with a new one. Keystrokes
        only reach it while the text field is enabled. */
    method HandleTyping(db: Db, auth: Auth, value: string, now: int)
      requires Valid() && db.Valid() && !InputDisabled()
      modifies this`message, this`isTyping, this`timeoutRef, this`pending, this`nextTimer, db`typing
      ensures Valid() && db.Valid()
      ensures message == value
      ensures isTyping == (old(isTyping) || |value| > 0)
      ensures |value| > 0 && !old(isTyping) ==>
        db.typing == TypingWrite(old(db.typing), auth, TypingIndicators in db.failing, channelId, true, now)
      ensures !(|value| > 0 && !old(isTyping)) ==> db.typing == old(db.typing)
      ensures timeoutRef == Some(old(nextTimer)) && pending == {old(nextTimer)}
      ensures nextTimer == old(nextTimer) + 1
    {
      message := value;
      if |value| > 0 && !isTyping {
        StartTyping(db, auth, now);
      }
      ReplaceTimer();
    }

    /** The first keystroke with text: typing starts and its row is written. */
    method StartTyping(db: Db, auth: Auth, now: int)
      requires db.Valid()
      modifies this`isTyping, db`typing
      ensures db.Valid() && isTyping
      ensures db.typing == TypingWrite(old(db.typing), auth, TypingIndicators in db.failing, channelId, true, now)
    {
      isTyping := true;
      var ignored := SetTypingIndicator(db, auth, channelId, true, now);
    }

    /** Clear the timer the ref holds and set a new one in its place. */
    method ReplaceTimer()
      requires Valid()
      modifies this`timeoutRef, this`pending, this`nextTimer
      ensures Valid()
      ensures timeoutRef == Some(old(nextTimer)) && pending == {old(nextTimer)}
      ensures nextTimer == old(nextTimer) + 1
    {
      if timeoutRef.Some? {
        pending := pending - {timeoutRef.value};
      }
      assert pending == {};
      timeoutRef := Some(nextTimer);
      pending := {nextTimer};
      nextTimer := nextTimer + 1;
    }

    /** The quiet-period timer firing: typing stops and its row is removed. */
    method TimerFires(db: Db, auth: Auth, t: nat, now: int)
      requires Valid() && db.Valid() && t in pending
      modifies this`isTyping, this`pending, db`typing
      ensures Valid() && db.Valid()
      ensures !isTyping && pending == {}
      ensures db.typing == TypingWrite(old(db.typing), auth, TypingIndicators in db.failing, channelId, false, now)
    {
      pending := pending - {t};
      isTyping := false;
      var ignored := SetTypingIndicator(db, auth, channelId, false, now);
    }

    /** The effect cleanup, on unmount or before a change of channel: clear
        the timer and remove the typing row of the channel being left. The
        typing flag and the ref are left as they are. */
    method Cleanup(db: Db, auth: Auth, now: int)
      requires Valid() && db.Valid()
      modifies this`pending, db`typing
      ensures Valid() && db.Valid()
      ensures pending == {}
      ensures db.typing == TypingWrite(old(db.typing), auth, TypingIndicators in db.failing, channelId, false, now)
    {
      if timeoutRef.Some? {
        pending := pending - {timeoutRef.value};
      }
      var ignored := SetTypingIndicator(db, auth, channelId, false, now);
    }

    /** A new channel id: the cleanup runs for the old channel, then the box
        serves the new one with its text and typing flag kept. */
    method ChangeChannel(db: Db, auth: Auth, newChannel: Id, now: int)
      requires Valid() && db.Valid()
      modifies this`pending, this`channelId, db`typing
      ensures Valid() && db.Valid()
      ensures channelId == newChannel && pending == {}
      ensures db.typing == TypingWrite(old(db.typing), auth, TypingIndicators in db.failing, old(channelId), false, now)
    {
      Cleanup(db, auth, now);
      channelId := newChannel;
    }

    /** handleFileSelect: hold the chosen file unless it is over the limit;
        choosing nothing changes nothing. */
    method HandleFileSelect(file: Option<SelectedFile>) returns (accepted: bool)
      modifies this`selectedFile
      ensures accepted <==> file.Some? && file.value.size <= MaxFileSize
      ensures selectedFile == if accepted then file else old(selectedFile)
    {
      if file.None? || file.value.size > MaxFileSize {
        return false;
      }
      selectedFile := file;
      accepted := true;
    }

    /** clearFile: drop the held file. */
    method ClearFile()
      modifies this`selectedFile
      ensures selectedFile.None?
    {
      selectedFile := None;
    }

    /** handleSend up to its first wait: refuse when there is nothing to send
        or a send is in flight, else mark sending and capture the draft. */
    method HandleSend() returns (started: bool)
      requires Valid()
      modifies this`isSending, this`inFlight
      ensures Valid()
      ensures started == CanSend(old(message), old(selectedFile), old(isSending))
      ensures !started ==> isSending == old(isSending) && inFlight == old(inFlight)
      ensures started ==> isSending && inFlight == Some(Draft(channelId, SendContent(message), selectedFile))
    {
      if !CanSend(message, selectedFile, isSending) {
        return false;
      }
      Capture();
      started := true;
    }

    /** The start of a send: mark sending and capture what to post. */
    method Capture()
      requires Valid()
      modifies this`isSending, this`inFlight
      ensures Valid()
      ensures isSending && inFlight == Some(Draft(channelId, SendContent(message), selectedFile))
    {
      isSending := true;
      inFlight := Some(Draft(channelId, SendContent(message), selectedFile));
    }

    /** The rest of handleSend: send the captured draft to the channel it
        was captured in (with the uploaded address and the file's name when
        it holds a file); on success clear the text and the file and stop
        typing in that channel; in every case end sending. */
    method SendSettles(db: Db, auth: Auth, now: int) returns (r: Result<Message>)
      requires Valid() && db.Valid() && inFlight.Some?
      modifies this`message, this`selectedFile, this`isTyping, this`isSending, this`inFlight
      modifies db`messages, db`nextId, db`typing
      ensures Valid() && db.Valid()
      ensures !isSending && inFlight.None?
      ensures Posted(db.messages, old(db.messages), auth, db.failing, old(inFlight).value, r)
      ensures r.Err? ==>
        && message == old(message) && selectedFile == old(selectedFile)
        && isTyping == old(isTyping) && db.typing == old(db.typing)
      ensures r.Ok? ==>
        && message == [] && selectedFile.None? && !isTyping
        && db.typing == TypingWrite(old(db.typing), auth, TypingIndicators in db.failing,
                                    old(inFlight).value.channelId, false, now)
    {
      var draft := inFlight.value;
      r := PostDraft(db, auth, draft, now);
      if r.Ok? {
        AfterSent(db, auth, draft.channelId, now);
      }
      EndSend();
    }

    /** The finally clause of handleSend: the send is over. */
    method EndSend()
      requires Valid()
      modifies this`isSending, this`inFlight
      ensures Valid() && !isSending && inFlight.None?
    {
      isSending := false;
      inFlight := None;
    }

    /** The success path of a send: clear the text and the file, stop typing
        and remove the typing row of the channel the send went to. */
    method AfterSent(db: Db, auth: Auth, sentTo: Id, now: int)
      requires db.Valid()
      modifies this`message, this`selectedFile, this`isTyping, db`typing
      ensures db.Valid()
      ensures message == [] && selectedFile.None? && !isTyping
      ensures db.typing == TypingWrite(old(db.typing), auth, TypingIndicators in db.failing, sentTo, false, now)
    {
      message := [];
      selectedFile := None;
      isTyping := false;
      var ignored := SetTypingIndicator(db, auth, sentTo, false, now);
    }
  }

  /** What posting a draft leaves in the message table: nothing new when
      signed out or when the table rejects writes, else one appended
      message in the draft's channel, by the caller, carrying the draft. */
  ghost predicate Posted(after: seq<Message>, before: seq<Message>, auth: Auth,
                         failing: set<Table>, draft: Draft, r: Result<Message>)
  {
    if auth.None? || Messages in failing then r.Err? && after == before
    else
      && r.Ok? && after == before + [r.value]
      && r.value.channelId == Some(draft.channelId) && r.value.authorId == auth.value
      && Carries(r.value, draft)
  }

  /** The sendMessage call of handleSend: the draft's content to the
      draft's channel, with the uploaded address and the file's name when it
      holds a file. */
  method PostDraft(db: Db, auth: Auth, draft: Draft, now: int) returns (r: Result<Message>)
    requires db.Valid()
    modifies db`messages, db`nextId
    ensures db.Valid()
    ensures Posted(db.messages, old(db.messages), auth, db.failing, draft, r)
    ensures r.Err? ==> unchanged(db)
  {
    r := SendMessage(db, auth, draft.channelId, draft.content, AttachedUrl(draft.file), AttachedName(draft.file), now);
  }

  /** A keystroke after the quiet period has ended signals typing again. */
  lemma {:induction false} TypingResumesAfterQuiet(value: string, rest: seq<string>)
    requires |value| > 0
    ensures TypingStarts([value] + rest, false) == 1
  {
    assert ([value] + rest)[1..] == rest;
    AtMostOneStart(rest, true);
  }
}
