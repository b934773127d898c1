/**
 * The relational state the three routers query. Ids and timestamps are abstract integers;
 * nullable columns are Options.
 */
module Schema {
  import opened Common

  type Id = int
  type Timestamp = int

  /** A row of `users`. */
  datatype User = User(username: string, email: string, profilePic: string, bannerImg: string)

  /** A row of `chats`: name and pic are nullable and only meaningful for groups. */
  datatype Chat = Chat(isGroup: bool, name: Option<string>, pic: Option<string>)

  /** A row of `user_chat`: both columns are nullable. */
  datatype UserChat = UserChat(isActive: Option<bool>, unreadCount: Option<int>)

  datatype MessageStatus = Sent | Delivered | Read

  /** A row of `messages`. */
  datatype Message = Message(id: Id, chatId: Id, senderId: Id, content: string, sentAt: Timestamp,
                             status: MessageStatus)

  /** A row of `posts`. */
  datatype Post = Post(id: Id, userId: Id, content: string, createdAt: Timestamp,
                       updatedAt: Timestamp, likes: int)

  /** A row of `notifications`: userId receives it, sourceId caused it. */
  datatype Notification = Notification(userId: Id, sourceId: Id, kind: string, content: string,
                                       read: bool, date: Timestamp)

  /** The database: one field per table. */
  class Database {
    var users: map<Id, User>                 // users, keyed by user_id
    var chats: map<Id, Chat>                 // chats, keyed by chat_id
    var members: set<(Id, Id)>               // chat_members: (chat_id, user_id)
    var userChats: map<(Id, Id), UserChat>   // user_chat, keyed by (chat_id, user_id)
    var messages: seq<Message>               // messages, in scan order
    var posts: seq<Post>                     // posts, in scan order
    var follows: set<(Id, Id)>               // follows: (follower_id, followed_id)
    var likes: set<(Id, Id)>                 // likes: (user_id, post_id)
    var notifications: seq<Notification>     // notifications, in scan order

    /** Referential integrity: chat_members and user_chat rows refer to existing chats. */
    ghost predicate Valid()
      reads this
    {
      && (forall p | p in members :: p.0 in chats)
      && (forall k | k in userChats :: k.0 in chats)
    }
  }
}
