/** app/dms/page.tsx: the list of the caller's direct-message conversations
    and the dialog that searches users to start a new one. */
module DmsPage {
  import opened Common
  import opened Store
  import opened DirectMessages
  import opened Display

  /** The shortest trimmed query that is sent to the search. */
  const MinQueryLength := 2

  /** "No users found" is shown for a raw query of two or more characters
      with no results, whether or not a search was made. */
  predicate ShowNoUsersFound(searchQuery: string, results: seq<User>)
  {
    |searchQuery| >= MinQueryLength && results == []
  }

  /** A one-character query padded with a space is long enough to show "No
      users found" but too short to be searched. */
  lemma PaddedQueryIsNotSearched(c: char)
    requires !IsJsSpace(c)
    ensures |Trim([' ', c])| < MinQueryLength
    ensures ShowNoUsersFound([' ', c], [])
  {
    var t := Trim([' ', c]);
    var i, j :| 0 <= i <= j <= 2 && t == [' ', c][i..j];
    assert t != [] ==> t[0] != ' ';
  }

  /** The name of the other participant, "Unknown User" when it could not be
      read or is empty. */
  function ConversationName(s: Summary): (r: string)
    ensures r != []
    ensures s.otherUser.Some? && s.otherUser.value.username != [] ==> r == s.otherUser.value.username
    ensures s.otherUser.None? || s.otherUser.value.username == [] ==> r == "Unknown User"
  {
    OrElse(if s.otherUser.Some? then Some(s.otherUser.value.username) else None, "Unknown User")
  }

  /** The avatar letter of the other participant, "U" when unknown. */
  function ConversationInitial(s: Summary): (r: string)
    ensures |r| == 1
    ensures s.otherUser.Some? && s.otherUser.value.username != [] ==> r == [UpperChar(s.otherUser.value.username[0])]
    ensures s.otherUser.None? || s.otherUser.value.username == [] ==> r == "U"
  {
    AvatarInitial(if s.otherUser.Some? then Some(s.otherUser.value.username) else None)
  }

  /** The age of a conversation's last message, shown only when it has one. */
  function LastMessageAge(s: Summary, now: int): (r: Option<Ago>)
    ensures r.Some? <==> s.lastMessage.Some?
    ensures r.Some? ==> r.value == TimeAgo(now - s.lastMessage.value.createdAt)
  {
    if s.lastMessage.Some? then Some(TimeAgo(now - s.lastMessage.value.createdAt)) else None
  }

  /** The avatar letter of a search result, `username[0].toUpperCase()`,
      which has no fallback: for an empty username rendering fails (None). */
  function ResultInitial(u: User): (r: Option<char>)
    ensures r.None? <==> u.username == []
    ensures r.Some? ==> r.value == UpperChar(u.username[0])
  {
    if u.username == [] then None else Some(UpperChar(u.username[0]))
  }

  class Page {
    var conversations: seq<Summary>
    var searchQuery: string
    var searchResults: seq<User>
    var isLoading: bool
    var isSearchOpen: bool

    constructor()
      ensures conversations == [] && searchQuery == [] && searchResults == []
      ensures isLoading && !isSearchOpen
    {
      conversations := [];
      searchQuery := [];
      searchResults := [];
      isLoading := true;
      isSearchOpen := false;
    }

    /** loadConversations: the caller's conversations, newest first; either
        way the page stops loading. */
    method LoadConversations(db: Db, auth: Auth)
      modifies this`conversations, this`isLoading
      ensures !isLoading
      ensures auth.Some? ==> conversations == UserDMConversations(db.conversations, db.users, db.messages, auth).value
      ensures auth.Some? ==> forall s :: s in conversations ==>
        s.conversation.user1 == auth.value || s.conversation.user2 == auth.value
      ensures auth.None? ==> conversations == old(conversations)
    {
      var data := UserDMConversations(db.conversations, db.users, db.messages, auth);
      if data.Ok? {
        conversations := data.value;
      }
      isLoading := false;
    }

    /** handleSearch: keep the raw query; a query shorter than two characters
        once trimmed clears the results without searching; otherwise the
        raw query is searched, and a failed search keeps the old results. */
    method HandleSearch(db: Db, auth: Auth, query: string) returns (searched: bool)
      modifies this`searchQuery, this`searchResults
      ensures searchQuery == query
      ensures searched <==> |Trim(query)| >= MinQueryLength
      ensures !searched ==> searchResults == []
      ensures searched && auth.Some? ==> searchResults == SearchUsers(db.users, auth, query).value
      ensures searched && auth.Some? ==>
        && |searchResults| <= SearchLimit
        && forall u :: u in searchResults ==> u in db.users && u.id != auth.value
      ensures searched && auth.None? ==> searchResults == old(searchResults)
      ensures !searched && |query| >= MinQueryLength ==> ShowNoUsersFound(searchQuery, searchResults)
    {
      searchQuery := query;
      if |Trim(query)| < MinQueryLength {
        searchResults := [];
        return false;
      }
      searched := true;
      var results := SearchUsers(db.users, auth, query);
      if results.Ok? {
        searchResults := results.value;
      }
    }

    /** handleStartDM: find or create the conversation with that user, close
        the dialog and go to the conversation's page. */
    method HandleStartDM(db: Db, auth: Auth, userId: UserId, now: int) returns (route: Option<Id>)
      requires db.Valid()
      modifies this`isSearchOpen, db`conversations, db`nextId
      ensures db.Valid()
      ensures auth.None? ==> route.None? && unchanged(this) && unchanged(db)
      ensures route.None? ==> isSearchOpen == old(isSearchOpen)
      ensures route.Some? ==> !isSearchOpen
      ensures auth.Some? ==>
        var (c, after) := Resolve(old(db.conversations), auth.value, userId, old(db.nextId), now);
        && (after == old(db.conversations) ==> route == Some(c.id) && unchanged(db))
        && (after != old(db.conversations) && DmConversations in db.failing ==> route.None? && unchanged(db))
        && (after != old(db.conversations) && DmConversations !in db.failing ==>
              route == Some(c.id) && db.conversations == after)
    {
      var conversation := GetOrCreateDMConversation(db, auth, userId, now);
      if conversation.Err? {
        return None;
      }
      isSearchOpen := false;
      route := Some(conversation.value.id);
    }
  }
}
