# A Discord-style chat client, modelled in Dafny

The application is a chat client in the style of Discord, built on a hosted
relational store (Supabase). It has these parts:

- servers with members and text channels;
- channel messages with per-user emoji reactions and "is typing" indicators;
- one-to-one direct-message conversations with a user search;
- per-user notifications with read flags and an unread badge;
- custom emojis limited by a quota of slots.

The client library (`lib/*.ts`) is a set of thin calls into the store.
Around it, the components and pages hold a few rules of their own: the
typing state machine of the message box, the reaction counts, the
relative-time buckets, the badge, and the guards of the search and emoji
dialogs.

The model has one module per source file, and three shared modules.

`Common` is the runtime vocabulary the source relies on:

- option and result types;
- the errors the library throws;
- `filter`, `.limit`, `.single()` and `reverse`;
- `String.prototype.trim`, upper and lower case, and `substring`;
- decimal rendering and `encodeURIComponent`.

`Sorting` is the store's `ORDER BY` on an integer key: a stable insertion
sort, with its top-n lemmas.

`Store` is the backend:

- `class Db` holds one sequence per table and a counter that hands out row
  ids.
- It also holds `failing`, the set of tables whose writes the store is
  currently rejecting. This reaches the error branch of every single write;
  a table either rejects every write of a call or none, so a call that
  writes one table twice cannot have only its second write rejected (see
  "## Left out").
- `Db.Valid()` collects the table constraints the client relies on:
  - unique reaction triples (the source of error code 23505);
  - the (user, channel) key of typing rows;
  - one membership per (server, user);
  - memberships and channels reference existing servers;
  - one conversation per unordered pair of users;
  - distinct notification ids.

Each library function becomes one of two things:

- a `method` on a `Db`, when it writes;
- a `function` of the table contents, when it only reads.

The authenticated user is an `Auth` parameter (`Option<UserId>`), and the
clock is a `now` parameter in milliseconds. "Not authenticated" is
`Err(NotAuthenticated)`, and every call that checks it touches nothing in
that case.

Components whose state changes step by step are classes whose fields are
their React state:

- the chat input (`ChatInput.Input`);
- the notification bell (`NotificationBell.Bell`);
- the DM page (`DmsPage.Page`);
- the emoji page (`EmojisPage.Page`).

The chat input's single typing timer is modelled as follows:

- `timeoutRef` is the handle held by `typingTimeoutRef`.
- `pending` is the set of timers set but neither fired nor cleared.
- `Valid()` keeps at most one timer pending, and that timer is the one the
  ref holds.

`handleSend` is split at its first wait:

- `HandleSend` runs the guard and captures the draft (the channel, the
  content to post and the file).
- `SendSettles` posts the draft and runs the success branch and the
  `finally` clause.

The channel and the content are captured when the send starts. This
matches the source: the handler uses the `channelId` and the `message` of
the render it was created in, both in the guard and in the call to
`sendMessage`. So if the box moves to another channel while the send is in
flight, the message still goes to the channel it was written in, and the
typing row removed on success is that channel's.

Some behaviours the model keeps as the source has them:

- **Typing flag on a channel change.** The effect cleanup deletes the
  typing row of the channel being left. It does not reset `isTyping`, so
  the flag carries over to the new channel (`ChatInput.Input.ChangeChannel`).
- **Search result initial.** It is `user.username[0].toUpperCase()`, with
  no fallback. For an empty username, rendering fails; the model returns
  `None` for that case (`DmsPage.ResultInitial`).
- **Invite codes.** They have at most ten characters, not always ten.
  `Math.random().toString(36)` can have fewer than ten fraction digits, and
  `substring(2, 12)` then returns fewer (`Servers.InviteCode`).
- **Reaction toggles.** Toggling twice from the absent state leaves the
  table exactly as it was (`Messages.ToggleTwiceFromAbsent`). From the
  present state, it removes the reaction and then adds a new row. So, in
  general, two toggles restore the presence of the reaction rather than
  always leaving it absent (`Messages.ToggleTwiceRestoresPresence`).

## Model

| member | source | states |
|---|---|---|
| Messages.LatestAscending | lib/messages.ts:45-49 | ORDER BY created_at DESC, LIMIT, then reverse: min(limit, n) rows, all taken from the input, in ascending created_at order, and no row left out is newer than a row kept |
| Messages.LatestShape | lib/messages.ts:45-49 | reversing the first `limit` rows of a descending sort gives min(limit, n) rows in ascending order, a sub-multiset of the input |
| Messages.LatestNewest | lib/messages.ts:45-49 | every row the limit leaves out is no newer than every row it keeps |
| Messages.ChannelMessages | lib/messages.ts:33-50 | getChannelMessages returns only rows of that channel, exactly min(limit, rows in the channel) of them, oldest first, each row no more often than in the table (so no row stands in for another), and they are the newest of the channel |
| Messages.SendMessage | lib/messages.ts:52-79 | no user: "Not authenticated" and no write; a rejected insert changes nothing; otherwise exactly one appended row with author = caller, channel = channelId, no DM conversation, and the given content, file address and file name |
| Messages.ToggleFlips | lib/messages.ts:89-108 | a toggle flips the presence of the (message, user, emoji) triple, returns the row exactly when it inserts, leaves the multiplicity of every other reaction unchanged and keeps the triple unique |
| Messages.ToggleTwiceFromAbsent | lib/messages.ts:89-108 | from a state without the triple, two toggles with the same arguments return null the second time and restore the table exactly |
| Messages.ToggleTwiceRestoresPresence | lib/messages.ts:89-108 | from any state, two toggles leave the triple present exactly when it was present before |
| Messages.AddReaction | lib/messages.ts:81-109 | no user: "Not authenticated", no write; any store error other than 23505 is returned unchanged with nothing deleted; otherwise the result and the new table are the toggle of the old table (insert and return the row, or on 23505 delete the triple and return null) |
| Messages.AfterOutcome | lib/messages.ts:102-103 | the call succeeds exactly when the delete it awaits succeeds |
| Messages.RemoveReaction | lib/messages.ts:111-127 | no user: "Not authenticated", no write; otherwise the new table is the old one without the caller's rows for that message and emoji; other users' and other emojis' reactions keep their multiplicity |
| Messages.MessageReactionsOf | lib/messages.ts:129-136 | getMessageReactions: exactly the reactions of that message, each as many times as in the table |
| Messages.TypingWrite | lib/messages.ts:146-154 | on start, the (user, channel, now) row is present and rows of other keys are untouched; on stop, exactly the rows of that (user, channel) are gone; with no user or a rejected write nothing changes; the key stays unique |
| Messages.SetTypingIndicator | lib/messages.ts:138-155 | no user: "Not authenticated"; otherwise the typing table becomes TypingWrite of the old one, and a store failure is ignored (the call still succeeds) |
| Messages.TypingUsers | lib/messages.ts:157-176 | getTypingUsers returns exactly the rows of the channel, not the caller's (the empty id when signed out), started at most 5000 ms before now, each as many times as in the table |
| Messages.StartedTypingIsVisible | lib/messages.ts:146-172 | another user polling within 5000 ms after a start sees the typist |
| Messages.StoppedTypingIsInvisible | lib/messages.ts:153-172 | after the stop delete, no observer sees the typist in that channel |
| Servers.InviteCode | lib/servers.ts:24-26 | the code has at most 10 characters, each a digit or a capital letter; exactly 10 when the random rendering has at least ten fraction digits |
| Servers.MaxPositionFrom | lib/servers.ts:145 | the reduce result is at least the start value, at least every position, and is either the start value or one of the positions |
| Servers.InServer | lib/servers.ts:143 | exactly the channels of that server |
| Servers.NextPosition | lib/servers.ts:142-153 | the new position is at least 1, strictly greater than every position in the server, and either 1 or one more than an existing position |
| Servers.FirstChannelPosition | lib/servers.ts:143-153 | a server with no channel gets position 1 |
| Servers.CreateChannel | lib/servers.ts:134-160 | no user: "Not authenticated"; a rejected insert or an unknown server (foreign key) changes nothing; otherwise exactly one appended channel with position NextPosition |
| Servers.ServerChannels | lib/servers.ts:162-169 | getServerChannels returns exactly the server's channels, each as often as in the table, ordered by position |
| Servers.DeleteChannel | lib/servers.ts:171-177 | the new table is the old one without the rows of that id, in the same order with the same multiplicities; no user needed |
| Servers.CreateServer | lib/servers.ts:28-64 | no user: throws before any write; on success exactly one server (owner = caller), one "owner" membership and one "general" text channel at position 1; a failing step keeps the rows of the steps before it (no transaction) |
| Servers.AddServer | lib/servers.ts:38-49 | the server row is appended with owner, name, icon and invite code; no membership or channel refers to its id yet |
| Servers.AddOwner | lib/servers.ts:51-58 | the owner's membership is appended, or nothing changes when the insert is rejected |
| Servers.AddGeneralChannel | lib/servers.ts:60-61 | the "general" text channel is appended at position 1, or nothing changes when the insert is rejected |
| Servers.AtMostOneMembership | lib/servers.ts:84-89 | with unique memberships, the look-up matches at most one row |
| Servers.JoinKeepsUnique | lib/servers.ts:95-102 | the join keeps memberships unique and leaves exactly one row for the pair |
| Servers.JoinIdempotent | lib/servers.ts:84-104 | joining again changes nothing: never a second membership for the same (server, user) |
| Servers.JoinServerByInvite | lib/servers.ts:66-105 | no user: "Not authenticated"; no server (or several) with that code: the `.single()` error and no write; already a member: the server and no write; otherwise one "member" row is appended, or the insert error with nothing written |
| Servers.AddMember | lib/servers.ts:95-102 | the insert of a "member" row for a non-member leaves the table as Joined, or unchanged when rejected |
| Servers.ServerOf | lib/servers.ts:117 | the embedded server of a membership is present exactly when a server has that id, and is that server |
| Servers.ServersOf | lib/servers.ts:122 | one embedded server per membership, in membership order |
| Servers.UserServers | lib/servers.ts:107-123 | no user: "Not authenticated"; otherwise one entry per membership of the caller |
| Servers.UserServersAreMemberships | lib/servers.ts:115-122 | with every membership pointing at a server, getUserServers returns exactly the servers the caller has a membership for |
| Servers.UserServersSound | lib/servers.ts:115-122 | every returned server is a server the caller has a membership for |
| Servers.UserServersComplete | lib/servers.ts:115-122 | every membership of the caller yields its server |
| Servers.EmbeddedServers | lib/servers.ts:117-122 | memberships that reference servers each embed the server they reference |
| Servers.ServerById | lib/servers.ts:125-132 | succeeds exactly when one server has that id, and then returns a server with that id; no such server gives the no-rows error, several give the many-rows error |
| Servers.ServerByIdFinds | lib/servers.ts:125-132 | in a table with distinct ids (the primary key), getServerById returns every existing server |
| DirectMessages.AtMostOnePair | lib/direct-messages.ts:30-34 | with unique pairs, the either-order look-up matches at most one conversation |
| DirectMessages.ResolveKeepsPairsUnique | lib/direct-messages.ts:29-51 | the conversation returned is between the two users; the table either is unchanged or gains exactly that row with user1 = caller and user2 = other; pairs stay unique and exactly one row matches afterwards |
| DirectMessages.ResolveIsSymmetric | lib/direct-messages.ts:30-38 | after A opens a conversation with B, B opening one with A returns the same row and writes nothing |
| DirectMessages.GetOrCreateDMConversation | lib/direct-messages.ts:21-52 | no user: "Not authenticated"; a found conversation is returned with no write; otherwise one (self, other) row is inserted, or the insert error with nothing written |
| DirectMessages.OtherUser | lib/direct-messages.ts:74 | the other participant is user2 when the caller is user1 and user1 otherwise; it is a participant, and not the caller when the two differ |
| DirectMessages.DataOf | lib/direct-messages.ts:76-93 | the data of a `.single()` read whose error is ignored: present exactly when the read found one row |
| DirectMessages.LastMessage | lib/direct-messages.ts:82-88 | present exactly when the conversation has a message; then it is one of its messages and none is newer |
| DirectMessages.LastMessageFacts | lib/direct-messages.ts:82-88 | the first row of a descending sort, if any, is a row of the conversation that no row is newer than |
| DirectMessages.ProfileFound | lib/direct-messages.ts:76-80 | a profile read by id, when found, is that user's row |
| DirectMessages.Enrich | lib/direct-messages.ts:72-96 | each conversation keeps its place and gets the other user's profile and its latest message |
| DirectMessages.UserDMConversations | lib/direct-messages.ts:54-99 | no user: "Not authenticated"; otherwise the listed conversations are exactly the caller's conversations, each once (as a multiset), newest first; each carries the other user's profile exactly when the profile read finds one row, and its newest message (none when it has no message) |
| DirectMessages.SummariesFacts | lib/direct-messages.ts:63-96 | the enriched list has one summary per conversation of the caller, all the caller's, newest first |
| DirectMessages.SummariesAreMine | lib/direct-messages.ts:63-80 | every summary is of a conversation of the caller, and its profile is the other participant's |
| DirectMessages.SummaryIsMine | lib/direct-messages.ts:63-66 | every row of the sorted list is a conversation in which the caller is user1 or user2 |
| DirectMessages.SummariesEnriched | lib/direct-messages.ts:72-96 | enrichment keeps the conversations in their order and gives each its own profile read and newest message |
| DirectMessages.SummariesNewestFirst | lib/direct-messages.ts:67 | the summaries are in descending created_at order |
| DirectMessages.DMMessages | lib/direct-messages.ts:101-118 | getDMMessages returns only rows of that conversation, min(limit, its rows) of them, each no more often than in the table, oldest first, and they are its newest |
| DirectMessages.SendDMMessage | lib/direct-messages.ts:120-147 | no user: "Not authenticated"; otherwise exactly one appended row with author = caller, the conversation set and no channel, or the insert error with nothing written |
| DirectMessages.PercentMatchesAll | lib/direct-messages.ts:160 | the pattern `%` matches every username |
| DirectMessages.LiteralThenPercent | lib/direct-messages.ts:160 | a wildcard-free query followed by `%` matches exactly the names that start with the query, ignoring case |
| DirectMessages.PercentThen | lib/direct-messages.ts:160 | `%` followed by p matches exactly when p matches some suffix |
| DirectMessages.SubstringSearch | lib/direct-messages.ts:160 | `%q%` with a wildcard-free q matches exactly the names containing q, ignoring case |
| DirectMessages.StarIsPercent | lib/direct-messages.ts:160 | in a pattern, `*` matches exactly what `%` matches |
| DirectMessages.SearchUsers | lib/direct-messages.ts:149-166 | no user: "Not authenticated"; otherwise min(10, number of matches) users, none more often than in the table, each a user other than the caller matching `%query%` (so containing the query ignoring case when it has no wildcard); with at most 10 matches, every matching user other than the caller is returned |
| Notifications.UserNotifications | lib/notifications.ts:13-30 | no user: "Not authenticated"; otherwise only the caller's rows, min(limit, their number), none more often than in the table, newest first, and no left-out row of theirs is newer |
| Notifications.NewestOfMine | lib/notifications.ts:22-29 | the first `limit` rows of the descending sort are the caller's newest, in descending order |
| Notifications.UnreadCount | lib/notifications.ts:32-48 | no user: "Not authenticated"; otherwise the exact number of the caller's unread rows, zero exactly when all of theirs are read, and never more than their row count |
| Notifications.UnreadAreOwned | lib/notifications.ts:43-44 | the caller's unread rows are among the caller's rows |
| Notifications.MarkAllClearsUnread | lib/notifications.ts:66 | after marking all the caller's rows read, the caller's unread count is 0 |
| Notifications.MarkOneCount | lib/notifications.ts:53 | marking one id read lowers the caller's unread count by one exactly when that row is the caller's and unread, and otherwise leaves it |
| Notifications.CreateCount | lib/notifications.ts:71-82 | a new unread notification raises its owner's unread count by one and no one else's |
| Notifications.ThreeCreatedOneRead | lib/notifications.ts:50-82 | three notifications created for a user who had none, one of them marked read: two remain unread |
| Notifications.MarkNotificationAsRead | lib/notifications.ts:50-56 | the row with that id is marked read and every other row is unchanged; no user needed; a rejected update changes nothing |
| Notifications.MarkAllNotificationsAsRead | lib/notifications.ts:58-69 | no user: "Not authenticated"; otherwise every row of the caller is marked read, other users' rows are unchanged, and the caller's unread count becomes 0 |
| Notifications.CreateNotification | lib/notifications.ts:71-87 | one new unread row for the given user (not necessarily the caller), with the type, content and related message (none when not given) |
| Notifications.DeleteNotification | lib/notifications.ts:89-95 | the remaining notifications are exactly the old ones whose id differs |
| Emojis.NewestFirst | lib/emojis.ts:19-20 | exactly the rows passing the filter, as often as in the table (same multiset), newest first |
| Emojis.ServerEmojis | lib/emojis.ts:13-24 | getServerEmojis returns exactly the server's emojis, as often as in the table (same multiset and count), newest first |
| Emojis.UserEmojis | lib/emojis.ts:26-42 | no user: "Not authenticated"; otherwise exactly the caller's emojis, as often as in the table (same multiset and count), newest first |
| Emojis.CreateCustomEmoji | lib/emojis.ts:44-66 | no user: "Not authenticated"; otherwise one new row owned by the caller with the given name, address and animated flag, and server null when none is given; the store invariant is kept |
| Emojis.DeleteCustomEmoji | lib/emojis.ts:68-74 | the new table is the old one without the rows of that id, in the same order with the same multiplicities, whoever owned it; the store invariant is kept |
| ChatInput.SendContent | components/chat-input.tsx:117 | the content is never empty: "Sent a file" when the text is all white space, otherwise the text with exactly its leading and trailing white space removed: an infix that neither starts nor ends with white space, with only white space before and after it |
| ChatInput.CanSend | components/chat-input.tsx:104 | a send starts exactly when the text is not all white space or a file is held, and no send is in flight |
| ChatInput.AtMostOneStart | components/chat-input.tsx:39-42 | within a burst of keystrokes typing is signalled at most once: never when already typing, and from a quiet state exactly when some keystroke leaves text |
| ChatInput.TypingResumesAfterQuiet | components/chat-input.tsx:39-51 | after the quiet timer has reset the flag, a keystroke with text signals typing again |
| ChatInput.Input.constructor | components/chat-input.tsx:18-23 | empty text, not typing, not sending, no file, no timer |
| ChatInput.Input.HandleTyping | components/chat-input.tsx:36-52 | only while the text field is enabled (no send in flight): the text is kept; the indicator is upserted exactly when the text is non-empty and typing was off, and typing is then on; the previous timer is cleared and exactly one new timer is pending |
| ChatInput.Input.StartTyping | components/chat-input.tsx:39-42 | typing is on and the (user, channel, now) row is upserted |
| ChatInput.Input.ReplaceTimer | components/chat-input.tsx:44-51 | the old timer is cleared and only the new one is pending, held by the ref |
| ChatInput.Input.TimerFires | components/chat-input.tsx:48-51 | typing is off, no timer is pending and the typing row is deleted |
| ChatInput.Input.Cleanup | components/chat-input.tsx:27-34 | on unmount the timer is cleared and the channel's typing row is deleted |
| ChatInput.Input.ChangeChannel | components/chat-input.tsx:27-34 | a new channel id first runs the cleanup for the old channel (its typing row deleted, no timer pending) |
| ChatInput.Input.HandleFileSelect | components/chat-input.tsx:54-69 | a file is held exactly when one is chosen and its size is at most 50·1024·1024 bytes; otherwise the held file is unchanged |
| ChatInput.Input.ClearFile | components/chat-input.tsx:83-89 | no file is held |
| ChatInput.Input.HandleSend | components/chat-input.tsx:101-106 | nothing happens when the text is blank and no file is held, or a send is in flight; otherwise sending is on and the draft (the current channel, the content and the file) is captured |
| ChatInput.Input.Capture | components/chat-input.tsx:106-117 | sending is on and the draft holds the current channel, the content to send and the file |
| ChatInput.PostDraft | components/chat-input.tsx:109-117 | the draft is posted to the draft's channel by the caller with its content and, with a file, the uploaded address and the file name; on error nothing is written |
| ChatInput.Input.SendSettles | components/chat-input.tsx:108-131 | the draft is posted to the channel it was captured in, even if the box has since changed channel; on success the text and file are cleared, typing is off and that channel's typing row is deleted; on failure the text, file, flag and typing rows are kept; in every case sending ends |
| ChatInput.Input.AfterSent | components/chat-input.tsx:118-121 | the text and the file are cleared, typing is off and the typing row of the channel sent to is deleted |
| ChatInput.Input.EndSend | components/chat-input.tsx:129-131 | sending is off and no draft is in flight |
| ChatMessage.BumpKeys | components/chat-message.tsx:91 | after a step of the reduce, the keys are the old keys plus the step's emoji |
| ChatMessage.BumpCounts | components/chat-message.tsx:90-93 | a step adds one to its emoji's count and to the total, and leaves every other count |
| ChatMessage.BumpShape | components/chat-message.tsx:90-93 | a step keeps one entry per emoji, each with a positive count |
| ChatMessage.LookupPositive | components/chat-message.tsx:88-95 | an emoji has an entry exactly when its count is positive |
| ChatMessage.Tally | components/chat-message.tsx:88-95 | one entry per distinct emoji, each count equal to the number of reactions with that emoji, so at least 1, and the counts sum to the number of reactions |
| ChatMessage.ReactionBar | components/chat-message.tsx:86-96 | the bar is empty exactly when there are no reactions, and it has a chip for exactly the emojis some reaction uses |
| ChatMessage.HandleReaction | components/chat-message.tsx:22-34 | a chip or picker click runs the same toggle; the picker closes only when the toggle succeeds |
| ChatMessage.AuthorName | components/chat-message.tsx:53 | the author's name, or "Unknown" when the author or the name is missing or empty |
| ChatMessage.UsernameColor | components/chat-message.tsx:41 | the author's colour, or "#FFFFFF" when missing or empty |
| ChatMessage.AuthorInitial | components/chat-message.tsx:47 | one character: the first of the name upper-cased, or "U" |
| ChatMessage.IsImageUrl | components/chat-message.tsx:67 | true exactly when the address ends in .jpg, .jpeg, .png, .gif or .webp, ignoring case |
| ChatMessage.AttachmentOf | components/chat-message.tsx:65-83 | nothing without an address; an image exactly for an image address, with the file name or "Attachment" as its text; otherwise a link labelled with the file name or "Download file" |
| Display.TimeAgo | components/notification-bell.tsx:94-106 | with d = now − t in ms and floor division: "Just now" exactly when d < 1 minute (a future row too); minutes below an hour, hours below a day, days below a week, the date otherwise; each count n satisfies n·unit ≤ d < (n+1)·unit. app/dms/page.tsx:79-91 is the same function |
| Display.AgoText | components/notification-bell.tsx:102-106 | a text for every bucket below a week, "Just now", "Nm ago", "Nh ago" or "Nd ago" carrying the bucket's count; no text past a week, where the locale date is shown |
| Display.AgoTextNumber | components/notification-bell.tsx:103-105 | the number in a bucket's text reads back as the bucket's count |
| Display.AvatarInitial | app/dms/page.tsx:181 | one character, never a lower-case letter: the first character of the name upper-cased, or "U" when the name is missing or empty |
| DmsPage.PaddedQueryIsNotSearched | app/dms/page.tsx:151 | a one-character query padded with a space shows "No users found" although it is too short to be searched |
| DmsPage.ConversationName | app/dms/page.tsx:188 | the other user's name, or "Unknown User" |
| DmsPage.ConversationInitial | app/dms/page.tsx:181 | the other user's initial upper-cased, or "U" |
| DmsPage.LastMessageAge | app/dms/page.tsx:193-195 | a time is shown exactly when the conversation has a last message, bucketed from its age |
| DmsPage.ResultInitial | app/dms/page.tsx:143 | the first character of the username upper-cased; rendering fails for an empty username |
| DmsPage.Page.constructor | app/dms/page.tsx:19-23 | no conversations, empty query and results, loading, dialog closed |
| DmsPage.Page.LoadConversations | app/dms/page.tsx:31-44 | the caller's conversations are shown (each with the caller as a participant); on failure the old list stays; loading ends either way |
| DmsPage.Page.HandleSearch | app/dms/page.tsx:46-63 | the raw query is kept; a search runs exactly when the trimmed query has at least 2 characters; otherwise the results are cleared; results are at most 10 users other than the caller; a failed search keeps the old results |
| DmsPage.Page.HandleStartDM | app/dms/page.tsx:65-77 | on success the dialog closes and the route is the conversation found or created; on failure the dialog stays and no route is taken |
| EmojisPage.CreateRejection | app/emojis/page.tsx:44-61 | a blank name is refused first; then a name is refused for want of slots exactly when the emojis fill the quota |
| EmojisPage.Page.constructor | app/emojis/page.tsx:16-20 | no emojis, 10 slots before loading, empty name, dialog closed, loading, Add enabled |
| EmojisPage.Page.EditName | app/emojis/page.tsx:141 | the name field holds what was typed |
| EmojisPage.Page.SetCreateOpen | app/emojis/page.tsx:123 | the dialog is open exactly as requested |
| EmojisPage.Page.LoadData | app/emojis/page.tsx:28-42 | the caller's emojis and the profile's slots are shown only when both load; otherwise both stay; loading ends either way |
| EmojisPage.Page.HandleCreateEmoji | app/emojis/page.tsx:44-83 | a rejection calls no create and changes nothing; a create error changes nothing; otherwise a personal, non-animated emoji under the typed name with the placeholder address is created, the name is cleared, the dialog closes and the list reloads, showing the new emoji when the reload succeeds; the store invariant is kept |
| EmojisPage.Page.AfterCreate | app/emojis/page.tsx:73-75 | the name is cleared, the dialog closes and the reload shows the created emoji when it succeeds |
| EmojisPage.Page.HandleDeleteEmoji | app/emojis/page.tsx:85-100 | the table loses exactly the rows with that id (order and multiplicities kept) and the list reloads: the caller's emojis and slots when both reads succeed, otherwise the old list and slots; on failure nothing changes; the store invariant is kept |
| EmojisPage.AddDisabledIsQuotaRejection | app/emojis/page.tsx:125 | the Add button is disabled exactly when a non-blank name would be refused for want of slots |
| NotificationBell.BadgeLabel | components/notification-bell.tsx:114-116 | no badge when nothing is unread; "9+" above nine; otherwise one digit that reads back as the count |
| NotificationBell.MarkReadIds | components/notification-bell.tsx:150 | a mark-read button is offered for exactly the unread listed notifications |
| NotificationBell.Bell.constructor | components/notification-bell.tsx:20-22 | empty list, count 0, no badge, closed |
| NotificationBell.Bell.LoadNotifications | components/notification-bell.tsx:29-37 | both the list and the count are replaced when both queries succeed; otherwise both stay |
| NotificationBell.Bell.HandleMarkAsRead | components/notification-bell.tsx:67-74 | the row is marked read and both list and count reload; on failure nothing changes |
| NotificationBell.Bell.HandleMarkAllAsRead | components/notification-bell.tsx:76-83 | all the caller's rows are marked read and both reload; afterwards the count is 0, there is no badge, no "Mark all read" and no per-item button |
| NotificationBell.Bell.ReloadAllRead | components/notification-bell.tsx:78-79 | the reload after marking all read shows count 0 and no mark-read button |
| NotificationBell.Bell.HandleDelete | components/notification-bell.tsx:85-92 | the row is deleted and both list and count reload; on failure nothing changes |
| NotificationBell.NothingToMark | components/notification-bell.tsx:150 | with nothing of the caller unread, none of their listed rows offers a mark-read button |
| Common.Trim | components/chat-input.tsx:104 | `trim` returns the infix left after removing white space only from both ends (everything before and after it is white space), empty exactly when the text is all white space, and otherwise neither starting nor ending with white space |
| Common.Substring | lib/servers.ts:25 | `substring(start, end)` clamps its bounds to the length and swaps them when start > end: s[start..end] within the length, s[start..] when only the end is past it, s[end..start] when swapped, empty past the end |
| Common.Upper | lib/servers.ts:25 | `toUpperCase` keeps the length and upper-cases each character |
| Common.NatToString | components/notification-bell.tsx:103 | a count is printed as a non-empty string of digits, one digit exactly below 10, with no leading zero (it starts with 0 only for 0 itself) |
| Common.NatToStringRoundTrip | components/notification-bell.tsx:116 | the printed number reads back as the number |
| Common.EncodeURIComponent | components/chat-input.tsx:96 | the encoding contains only unreserved characters, `%` and hex digits, and leaves a string of unreserved characters as it is |
| Common.EncodeAppend | components/chat-input.tsx:96 | `encodeURIComponent` of a concatenation is the concatenation of the encodings |
| Common.EncodeChar | components/chat-input.tsx:96 | one unreserved character encodes to itself, any other to `%XX` for each byte of its UTF-8 encoding |
| Common.EncodeDecodes | components/chat-input.tsx:96 | percent-decoding the encoding gives back exactly the UTF-8 bytes of the text |
| Common.WithQueryValue | app/emojis/page.tsx:65 | the placeholder address starts with its prefix, the encoded name after it holds no `&`, `#` or `=`, a name of unreserved characters is appended as it is, and percent-decoding the part after the prefix gives back exactly the UTF-8 bytes of the name |
| Common.Single | lib/servers.ts:75-81 | `.single()` gives the row when exactly one matches, no-rows for none, many-rows for several |
| Common.Reverse | lib/messages.ts:49 | `reverse` puts the i-th row at position n−1−i |
| Common.TakeFacts | lib/messages.ts:46 | `.limit(n)` keeps min(n, rows) rows and adds none |
| Sorting.SortDescBy | lib/messages.ts:45 | ORDER BY … DESC returns a permutation of the rows in descending key order |
| Sorting.SortBy | lib/servers.ts:165 | ORDER BY position returns a permutation of the rows in ascending order |
| Sorting.TakeOfSortedDescIsTop | lib/notifications.ts:25-26 | the first n rows of a descending order are not older than any row left out |
| Sorting.TakeKeepsSortedDesc | lib/notifications.ts:25-26 | a limit keeps the descending order |
| Sorting.ReverseOfDescIsAsc | lib/messages.ts:45-49 | reversing a descending order gives an ascending one |
| Sorting.HeadOfSortedDescIsMax | lib/direct-messages.ts:86-88 | the first row of a descending order is the newest |
| Store.WithoutReaction | lib/messages.ts:119-124 | the delete of (message, user, emoji) removes every such row, keeps the multiplicity of every other reaction and keeps uniqueness |
| Store.Upserted | lib/messages.ts:147-151 | after the upsert the row is the only one with its (user, channel) key, and rows of other keys are untouched |
| Store.WithoutTyping | lib/messages.ts:153 | exactly the rows of that (user, channel) are removed |
| Store.SetRead | lib/notifications.ts:53 | every selected row becomes read, in place; every other row is unchanged |
| Store.Db.InsertMessage | lib/messages.ts:60-75 | one appended message row with a fresh id, or a rejection that changes nothing |
| Store.Db.InsertReaction | lib/messages.ts:89-97 | the insert fails with 23505 exactly when the triple is already present, and then changes nothing |
| Store.Db.DeleteReactions | lib/messages.ts:119-124 | the table becomes WithoutReaction of the old one, or a rejection that changes nothing |
| Store.Db.UpsertTyping | lib/messages.ts:147-151 | the table becomes Upserted of the old one, or a rejection that changes nothing |
| Store.Db.DeleteTyping | lib/messages.ts:153 | the table becomes WithoutTyping of the old one, or a rejection that changes nothing |
| Store.Db.InsertServer | lib/servers.ts:38-47 | one appended server with a fresh id and boost level 0 |
| Store.Db.InsertMembership | lib/servers.ts:52-56 | one appended membership, or a foreign-key failure when the server does not exist |
| Store.Db.InsertChannel | lib/servers.ts:147-156 | one appended channel with a fresh id, or a foreign-key failure when the server does not exist |
| Store.Db.DeleteChannel | lib/servers.ts:174 | exactly the rows with that id are removed |
| Store.Db.InsertConversation | lib/direct-messages.ts:41-48 | one appended conversation (user1, user2) with a fresh id |
| Store.Db.InsertNotification | lib/notifications.ts:74-83 | one appended unread notification with a fresh id |
| Store.Db.UpdateNotificationsRead | lib/notifications.ts:53 | the table becomes SetRead of the old one, keeping ids distinct |
| Store.Db.DeleteNotification | lib/notifications.ts:92 | exactly the rows with that id are removed |
| Store.Db.InsertEmoji | lib/emojis.ts:51-62 | one appended emoji with a fresh id, owned by the given user |
| Store.Db.DeleteEmoji | lib/emojis.ts:71 | exactly the rows with that id are removed |

## Left out

- The store client, the query builder and the realtime change feed of the bell (components/notification-bell.tsx:39-65): the model states the table semantics the filters express. The feed's cleanup closure is never returned to the effect, which the model does not represent.
- Messages.AddReaction: the delete that follows a 23505 writes the same table as the insert, which `failing` did not reject, so in the model that delete always succeeds; the source's path where that delete fails and addReaction rejects with its error (lib/messages.ts:101-103) is not reachable in the model, and `Messages.AfterOutcome`'s failure case is never taken there.
- Read failures: every read query returns its rows; only writes can be rejected (through `Db.failing`), so the `if (error) throw error` after a read is not modelled.
- Authentication and profiles (lib/auth.ts, lib/profile.ts): the current user is the `Auth` parameter, and the profile's emoji slot count is the `profileSlots` parameter of the emoji page.
- Randomness: `Math.random().toString(36)` is the `rendering` parameter of `Servers.CreateServer`.
- Wall-clock time and locale formatting: time is integer milliseconds passed as `now`; `toLocaleDateString`/`toLocaleTimeString` and the ISO timestamp strings are not modelled.
- Floating-point display of the file size in MB (components/chat-input.tsx:148), the FileReader image preview and the one-second delay of the stand-in upload (components/chat-input.tsx:71-99).
- Concurrency: async interleavings, `Promise.all` ordering and the race of two users creating the same DM conversation at once; every call runs to completion before the next.
- The `onMessageSent` and `onReactionAdded` callbacks and the toasts: calls into code outside the model.
- getServerMembers (lib/servers.ts:179-190): a plain query that none of the modelled components uses.
- Pages whose only rules are blank-input and password-match guards (app/page.tsx, app/profile/page.tsx, app/dashboard/page.tsx, app/signup/page.tsx), and the pages under app/servers and app/dms/[conversationId], which only call the modelled library.
- The list of quick-pick emojis in components/chat-message.tsx:16: constant display data.
- Timers: a timer is a numbered handle; its 3000 ms delay is not modelled, and the moment it fires is whenever `ChatInput.Input.TimerFires` is called with a pending handle.
- ChatMessage.Tally: entries are in first-appearance order; `Object.entries` lists integer-like keys first, in ascending order, which the model does not reproduce.
- DirectMessages.SearchUsers: ILIKE ignores case for ASCII letters only; the store's full case folding is not modelled.
- Common.Upper: `toUpperCase` is modelled on ASCII letters only; non-ASCII letters and letters whose upper case has several characters ("ß" to "SS") keep their value.
- DmsPage.Page.HandleSearch: lengths count characters, where JavaScript counts UTF-16 code units, so a single character outside the Basic Multilingual Plane has length 1 here and 2 in the source.
- Display.AvatarInitial: `[0]` takes a whole character here; JavaScript takes the first UTF-16 code unit, half of a surrogate pair for characters outside the Basic Multilingual Plane.
- Common.EncodeURIComponent: Dafny characters are Unicode scalar values, so the error JavaScript raises for a lone surrogate cannot arise. The round trip (`Common.EncodeDecodes`) stops at the UTF-8 bytes: that `Utf8` is the standard, invertible UTF-8 encoding is written out but not proved.
- Sorting.SortDescBy: rows with equal keys keep their table order; the store may return ties in any order.
