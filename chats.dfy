/** The chats router: a user's chat list, opening a direct chat, and a chat's messages. */
module Chats {
  import opened Common
  import opened Schema
  import opened Ordering

  /** The last_message object of a chat-list row. */
  datatype LastMessage = LastMessage(content: string, status: MessageStatus, sentAt: Timestamp)

  /** A row of GET /user_id/:user_id. */
  datatype ChatSummary = ChatSummary(id: Id, name: Option<string>, pic: Option<string>,
                                     isGroup: bool, unreadCount: int, isActive: bool,
                                     lastMessage: Option<LastMessage>)

  /** The reply of GET /open. */
  datatype OpenReply = OpenReply(isChatExist: bool, chatId: Id)

  /** The name shown for a group chat whose name is null or empty. */
  const GroupChatName := "Group Chat"

  /* ---------------- GET /user_id/:user_id ---------------- */

  /** COALESCE(NULLIF(s, ''), fallback). */
  function NonEmptyOr(s: Option<string>, fallback: string): string {
    if s.Some? && s.value != "" then s.value else fallback
  }

  /** COALESCE(uc.is_active, FALSE) over the LEFT JOIN: a missing user_chat row is inactive. */
  predicate IsActive(userChats: map<(Id, Id), UserChat>, chatId: Id, user: Id) {
    (chatId, user) in userChats && userChats[(chatId, user)].isActive == Some(true)
  }

  /** COALESCE(uc.unread_count, 0) over the LEFT JOIN. */
  function UnreadCount(userChats: map<(Id, Id), UserChat>, chatId: Id, user: Id): int {
    if (chatId, user) in userChats && userChats[(chatId, user)].unreadCount.Some?
    then userChats[(chatId, user)].unreadCount.value
    else 0
  }

  /** The users of chat_members joined with users, for chatId, other than user. */
  function OtherMembers(members: set<(Id, Id)>, users: map<Id, User>, chatId: Id, user: Id)
    : (r: set<Id>)
    ensures forall m | m in r :: m in users && m != user && (chatId, m) in members
    ensures forall m | m in users && m != user && (chatId, m) in members :: m in r
  {
    set p | p in members && p.0 == chatId && p.1 != user && p.1 in users :: p.1
  }

  /** The message of chatId with the greatest sent_at (ORDER BY sent_at DESC LIMIT 1). */
  function Latest(log: seq<Message>, chatId: Id): (r: Option<Message>)
    ensures r.None? <==> forall m | m in log :: m.chatId != chatId
    ensures r.Some? ==> r.value in log && r.value.chatId == chatId
    ensures r.Some? ==> forall m | m in log && m.chatId == chatId :: m.sentAt <= r.value.sentAt
  {
    if log == [] then None
    else
      var rest := Latest(log[1..], chatId);
      assert forall m | m in log :: m == log[0] || m in log[1..];
      if log[0].chatId != chatId then rest
      else if rest.Some? && log[0].sentAt <= rest.value.sentAt then rest
      else Some(log[0])
  }

  /** lm is what last_message may be for chatId: null without messages, else a latest one. */
  ghost predicate IsLastMessage(lm: Option<LastMessage>, log: seq<Message>, chatId: Id) {
    match lm
    case None => forall m | m in log :: m.chatId != chatId
    case Some(l) =>
      && (exists m | m in log :: m.chatId == chatId && l == LastMessage(m.content, m.status, m.sentAt))
      && forall m | m in log && m.chatId == chatId :: m.sentAt <= l.sentAt
  }

  /**
   * The name and pic columns: a group shows its own name (else "Group Chat") and pic (else ""),
   * a direct chat the username and profile picture of some member other than the viewer
   * (each by its own LIMIT 1 subquery), or null when there is no such member.
   */
  ghost predicate NamedAndPictured(row: ChatSummary, chat: Chat, others: set<Id>,
                                   users: map<Id, User>)
  {
    if chat.isGroup then
      && row.name == Some(if chat.name.Some? && chat.name.value != "" then chat.name.value else GroupChatName)
      && row.pic == Some(if chat.pic.Some? && chat.pic.value != "" then chat.pic.value else "")
    else if forall m :: m !in others then
      row.name.None? && row.pic.None?
    else
      && (exists m | m in others && m in users :: row.name == Some(users[m].username))
      && (exists m | m in others && m in users :: row.pic == Some(users[m].profilePic))
  }

  /** The chat-list row of chatId for user. */
  ghost function Summary(chats: map<Id, Chat>, members: set<(Id, Id)>,
                         userChats: map<(Id, Id), UserChat>, users: map<Id, User>,
                         log: seq<Message>, user: Id, chatId: Id): ChatSummary
    requires chatId in chats
  {
    var chat := chats[chatId];
    var others := OtherMembers(members, users, chatId, user);
    // LIMIT 1 without ORDER BY: some other member, which one is not specified.
    var other := if exists m :: m in others then var m :| m in others; Some(m) else None;
    var name := if chat.isGroup then Some(NonEmptyOr(chat.name, GroupChatName))
                else if other.None? then None
                else Some(users[other.value].username);
    var pic := if chat.isGroup then Some(NonEmptyOr(chat.pic, ""))
               else if other.None? then None
               else Some(users[other.value].profilePic);
    var last := match Latest(log, chatId)
                case None => None
                case Some(m) => Some(LastMessage(m.content, m.status, m.sentAt));
    ChatSummary(chatId, name, pic, chat.isGroup, UnreadCount(userChats, chatId, user), true, last)
  }

  /** The WHERE of the chat list: user is a member of an existing chat they have active. */
  ghost predicate Listed(chats: map<Id, Chat>, members: set<(Id, Id)>,
                         userChats: map<(Id, Id), UserChat>, user: Id, chatId: Id)
  {
    chatId in chats && (chatId, user) in members && IsActive(userChats, chatId, user)
  }

  /** Each chat-list row states its chat's columns as the query resolves them. */
  lemma AllSummariesResolve(chats: map<Id, Chat>, members: set<(Id, Id)>,
                            userChats: map<(Id, Id), UserChat>, users: map<Id, User>,
                            log: seq<Message>, user: Id)
    ensures forall c | c in chats ::
              var row := Summary(chats, members, userChats, users, log, user, c);
              && row.id == c && row.isActive && row.isGroup == chats[c].isGroup
              && row.unreadCount == UnreadCount(userChats, c, user)
              && NamedAndPictured(row, chats[c], OtherMembers(members, users, c, user), users)
              && IsLastMessage(row.lastMessage, log, c)
  {
  }

  /**
   * GET /user_id/:user_id: one row for each chat where user is a member and has an active
   * user_chat row, with its resolved name and picture, unread count and last message.
   * No ORDER BY: the rows form a set.
   */
  ghost function ChatList(chats: map<Id, Chat>, members: set<(Id, Id)>,
                          userChats: map<(Id, Id), UserChat>, users: map<Id, User>,
                          log: seq<Message>, user: Id): (r: set<ChatSummary>)
    ensures forall c | Listed(chats, members, userChats, user, c) :: exists row | row in r :: row.id == c
    ensures forall row | row in r :: Listed(chats, members, userChats, user, row.id)
    ensures forall a, b | a in r && b in r && a.id == b.id :: a == b
    ensures forall row | row in r :: row.id in chats && row.isActive && row.isGroup == chats[row.id].isGroup
    ensures forall row | row in r :: row.unreadCount == UnreadCount(userChats, row.id, user)
    ensures forall row | row in r :: row.id in chats &&
              NamedAndPictured(row, chats[row.id], OtherMembers(members, users, row.id, user), users)
    ensures forall row | row in r :: IsLastMessage(row.lastMessage, log, row.id)
  {
    AllSummariesResolve(chats, members, userChats, users, log, user);
    set c | c in chats && Listed(chats, members, userChats, user, c)
          :: Summary(chats, members, userChats, users, log, user, c)
  }

  /* ---------------- GET /chat_id/:chat_id/messages ---------------- */

  function InChat(chatId: Id): Message -> bool {
    (m: Message) => m.chatId == chatId
  }

  /** The messages of chatId, in scan order. */
  function ChatLog(log: seq<Message>, chatId: Id): seq<Message> {
    Filter(log, InChat(chatId))
  }

  /** The key of ORDER BY sent_at ASC. */
  function OldestFirst(m: Message): int {
    m.sentAt
  }

  /**
   * GET /chat_id/:chat_id/messages?user_id=viewer: 401 unless viewer is a member of chatId;
   * otherwise the 15 EARLIEST messages of the chat, oldest first.
   */
  function ChatMessages(members: set<(Id, Id)>, log: seq<Message>, chatId: Id, viewer: Option<Id>)
    : (r: Response<seq<Message>>)
    ensures r.Error? <==> viewer.None? || (chatId, viewer.value) !in members
    ensures r.Error? ==> r == Error(401, "This user is not member of the chat")
    ensures r.Ok? ==> IsFirstK(r.payload, ChatLog(log, chatId), OldestFirst, PageLimit)
    ensures r.Ok? ==> |r.payload| <= PageLimit
    ensures r.Ok? ==> forall m | m in r.payload :: m in log && m.chatId == chatId
    ensures r.Ok? ==> forall i, j | 0 <= i < j < |r.payload| :: r.payload[i].sentAt <= r.payload[j].sentAt
  {
    if viewer.None? || (chatId, viewer.value) !in members then
      Error(401, "This user is not member of the chat")
    else
      var page := FirstK(ChatLog(log, chatId), OldestFirst, PageLimit);
      assert forall m | m in page :: m in ChatLog(log, chatId);
      Ok(page)
  }

  /** The earliest-15 page of a chat with at least 15 messages holds exactly 15 of them. */
  lemma FullPage(members: set<(Id, Id)>, log: seq<Message>, chatId: Id, viewer: Id)
    requires (chatId, viewer) in members
    requires |ChatLog(log, chatId)| >= PageLimit
    ensures |ChatMessages(members, log, chatId, Some(viewer)).payload| == PageLimit
  {
  }

  /* ---------------- GET /open ---------------- */

  /** The chats that have both user and target among their members. */
  function SharedChats(members: set<(Id, Id)>, user: Id, target: Id): (r: set<Id>)
    ensures forall c | c in r :: (c, user) in members && (c, target) in members
    ensures forall c | (c, user) in members && (c, target) in members :: c in r
  {
    set p | p in members && p.1 == user && (p.0, target) in members :: p.0
  }

  /** The members of chatId. */
  function MembersOf(members: set<(Id, Id)>, chatId: Id): (r: set<Id>)
    ensures forall u :: u in r <==> (chatId, u) in members
  {
    set p | p in members && p.0 == chatId :: p.1
  }

  /** After the creation of chat n for user and target, n is the only chat they share. */
  lemma CreatedChatIsOnlyShared(members: set<(Id, Id)>, user: Id, target: Id, n: Id)
    requires SharedChats(members, user, target) == {}
    requires forall p | p in members :: p.0 != n
    ensures SharedChats(members + {(n, user), (n, target)}, user, target) == {n}
  {
  }

  /**
   * GET /open?user_id=user&target_id=target. When some chat (group or direct) has both as
   * members, one of them is chosen; the requester's user_chat row for it is set active and the
   * reply is {isChatExist: true, chatId}, or the handler fails with 500 when the requester has no
   * user_chat row for that chat. Otherwise a new direct chat newId is created with both as members,
   * the opener active and the target inactive, and the reply is {isChatExist: false, chatId: newId}.
   */
  method Open(db: Database, user: Id, target: Id, newId: Id) returns (r: Response<OpenReply>)
    requires db.Valid()
    requires newId !in db.chats
    modifies db`chats, db`members, db`userChats
    ensures db.Valid()
    ensures SharedChats(old(db.members), user, target) != {} ==>
              && db.chats == old(db.chats)
              && db.members == old(db.members)
              && ((forall c | c in SharedChats(old(db.members), user, target) :: (c, user) in old(db.userChats))
                  ==> r.Ok?)
    ensures SharedChats(old(db.members), user, target) != {} && r.Ok? ==>
              && r.payload.isChatExist
              && r.payload.chatId in SharedChats(old(db.members), user, target)
              && (r.payload.chatId, user) in old(db.userChats)
              && db.userChats == old(db.userChats)[(r.payload.chatId, user) :=
                                  old(db.userChats)[(r.payload.chatId, user)].(isActive := Some(true))]
              && IsActive(db.userChats, r.payload.chatId, user)
    ensures SharedChats(old(db.members), user, target) != {} && r.Error? ==>
              && r == Error(500, "Internal server error")
              && db.userChats == old(db.userChats)
              && exists c | c in SharedChats(old(db.members), user, target) :: (c, user) !in old(db.userChats)
    ensures SharedChats(old(db.members), user, target) == {} ==>
              && r == Ok(OpenReply(false, newId))
              && db.chats == old(db.chats)[newId := Chat(false, None, None)]
              && db.members == old(db.members) + {(newId, user), (newId, target)}
              && db.userChats == old(db.userChats)[(newId, user) := UserChat(Some(true), None)]
                                                  [(newId, target) := UserChat(Some(false), None)]
              && MembersOf(db.members, newId) == {user, target}
              && (user != target ==> IsActive(db.userChats, newId, user))
              && !IsActive(db.userChats, newId, target)
  {
    var shared := SharedChats(db.members, user, target);
    if c :| c in shared {
      if (c, user) !in db.userChats {
        return Error(500, "Internal server error");
      }
      var row := db.userChats[(c, user)];
      if row.isActive != Some(true) {
        db.userChats := db.userChats[(c, user) := row.(isActive := Some(true))];
      }
      return Ok(OpenReply(true, c));
    }
    assert forall c :: c !in shared;
    assert shared == {};
    db.chats := db.chats[newId := Chat(false, None, None)];
    db.members := db.members + {(newId, user), (newId, target)};
    db.userChats := db.userChats[(newId, user) := UserChat(Some(true), None)]
                                [(newId, target) := UserChat(Some(false), None)];
    r := Ok(OpenReply(false, newId));
  }

  /**
   * After /open creates chat n, the opener's chat list shows it, named and pictured after the
   * target, with unread count 0 and no last message when it has no messages; the target's chat
   * list does not show it.
   */
  lemma CreatedChatListedForOpenerOnly(chats: map<Id, Chat>, members: set<(Id, Id)>,
                                       userChats: map<(Id, Id), UserChat>, users: map<Id, User>,
                                       log: seq<Message>, user: Id, target: Id, n: Id)
    requires user != target && target in users
    requires n !in chats && forall p | p in members :: p.0 != n
    requires forall m | m in log :: m.chatId != n
    ensures var chats' := chats[n := Chat(false, None, None)];
            var members' := members + {(n, user), (n, target)};
            var userChats' := userChats[(n, user) := UserChat(Some(true), None)]
                                       [(n, target) := UserChat(Some(false), None)];
            && (exists row | row in ChatList(chats', members', userChats', users, log, user) ::
                  && row.id == n && !row.isGroup && row.unreadCount == 0
                  && row.name == Some(users[target].username)
                  && row.pic == Some(users[target].profilePic)
                  && row.lastMessage.None?)
            && (forall row | row in ChatList(chats', members', userChats', users, log, target) ::
                  row.id != n)
  {
    var chats' := chats[n := Chat(false, None, None)];
    var members' := members + {(n, user), (n, target)};
    var userChats' := userChats[(n, user) := UserChat(Some(true), None)]
                               [(n, target) := UserChat(Some(false), None)];
    assert Listed(chats', members', userChats', user, n);
    var list := ChatList(chats', members', userChats', users, log, user);
    var row :| row in list && row.id == n;
    assert OtherMembers(members', users, n, user) == {target};
    assert NamedAndPictured(row, chats'[n], {target}, users);
  }

  /**
   * A second /open of the same pair after one that created a chat finds that chat, replies
   * isChatExist: true with the same id, and creates no further chat.
   */
  method OpenTwice(db: Database, user: Id, target: Id, firstId: Id, secondId: Id)
    returns (first: Response<OpenReply>, second: Response<OpenReply>)
    requires db.Valid()
    requires firstId !in db.chats && secondId !in db.chats && firstId != secondId
    modifies db`chats, db`members, db`userChats
    ensures db.Valid()
    ensures SharedChats(old(db.members), user, target) == {} ==>
              && first == Ok(OpenReply(false, firstId))
              && second == Ok(OpenReply(true, firstId))
              && db.chats.Keys == old(db.chats.Keys) + {firstId}
              && IsActive(db.userChats, firstId, user)
  {
    ghost var before := db.members;
    first := Open(db, user, target, firstId);
    if SharedChats(before, user, target) == {} {
      CreatedChatIsOnlyShared(before, user, target, firstId);
    }
    second := Open(db, user, target, secondId);
  }
}
