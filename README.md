# Social app server: chat, post and user routers

This project models the three HTTP routers of a small social-networking backend. Each
handler runs one or a few SQL statements over a relational store. The model keeps those
statements' logic and drops the database engine:

- `chats`: a user's chat list, opening (finding or creating) a direct chat, and a chat's messages;
- `posts`: the feed, creating a post, and the posts shown on a profile;
- `user`: the profile list, one profile with its follow flag, follow and unfollow, and notifications.

The tables are values: `users` and `chats` are maps keyed by their ids; `chat_members`,
`follows` and `likes` are sets of pairs; `user_chat` is a map keyed by `(chat_id, user_id)`;
`messages`, `posts` and `notifications` are sequences of rows in scan order. Nullable
columns are `Option`s. The tables are the fields of the class `Schema.Database`. The handlers
that change data (`/open`, `/create`, `/follow`, `/unfollow`) are methods that modify only
the fields of the tables they write. The read-only handlers are functions of the tables they
query. Each handler returns its status code and payload: `Common.Response` is either `Ok`
(status 200) or `Error(status, msg)` with the source's message text.

Two building blocks are shared (module `Ordering`):

- `Filter` models `WHERE`;
- `FirstK` models `ORDER BY key LIMIT k`. It is specified by `IsFirstK`: the result holds
  min(k, n) rows of the input, in key order. Every row left out has a key no smaller than
  every row returned. Ties may come in any order.

`LIMIT 1` without `ORDER BY` (which other member names a direct chat, which shared chat
`/open` reuses) is modelled as an unspecified choice (`:|`). The contracts then say "some
element that passes the filter".

Two behaviours of the code that a reader might not expect, both kept in the model:

- The messages endpoint returns the 15 EARLIEST messages (`ORDER BY sent_at ASC LIMIT 15`),
  not the 15 most recent ones.
- `/open` reuses any chat that has both users as members, group chats included. It does not
  restrict the search to direct chats.

## Model

| member | source | states |
|---|---|---|
| `Ordering.Filter` | src/routers/chats.js:153-154 | the result holds exactly the rows that satisfy the condition, each as often as in the table |
| `Ordering.SortBy` | src/routers/posts.js:35 | the result is sorted by the key and is a permutation of the input |
| `Ordering.SortedPrefixIsFirstK` | src/routers/chats.js:155-156 | the first k rows of a sorted permutation are the k rows with the smallest keys, in order |
| `Ordering.FirstK` | src/routers/chats.js:155-156 | `ORDER BY key LIMIT k`: at most k rows of the input, min(k, n) of them, sorted, none of the omitted rows has a smaller key than a returned one |
| `Chats.OtherMembers` | src/routers/chats.js:19-25 | candidates for a direct chat's name and pic: exactly the existing users, other than the viewer, who are members of the chat |
| `Chats.Latest` | src/routers/chats.js:42-52 | null iff the chat has no message; otherwise a message of that chat whose `sent_at` is the greatest |
| `Chats.AllSummariesResolve` | src/routers/chats.js:17-52 | every chat-list row shows the group name (else "Group Chat") and pic (else ""), or some other member's username and picture (null when there is none); the stored unread count or 0; the latest message or null |
| `Chats.ChatList` | src/routers/chats.js:10-62 | the rows are exactly the chats where the user is a member and the `user_chat` row has `is_active = true` (a missing row counts as inactive), one row per chat, each with its resolved name, pic, unread count and last message |
| `Chats.ChatMessages` | src/routers/chats.js:135-161 | 401 iff the user id is absent or not a member of the chat; otherwise at most 15 messages, all from that chat, in ascending `sent_at` order, and they are the earliest ones |
| `Chats.FullPage` | src/routers/chats.js:153-156 | a chat with at least 15 messages gives a member a page of exactly 15 |
| `Chats.SharedChats` | src/routers/chats.js:77-91 | exactly the chats that have both users as members, whether group or direct |
| `Chats.MembersOf` | src/routers/chats.js:120 | exactly the users that have a `chat_members` row for the chat |
| `Chats.Open` | src/routers/chats.js:70-127 | with a shared chat: tables of chats and members unchanged, only the requester's `is_active` set to true, reply `{isChatExist: true, chatId}`, or 500 with nothing changed when the requester has no `user_chat` row; without one: exactly one new direct chat with members {user, target}, opener active, target inactive, reply `{isChatExist: false, chatId: newId}`; keeps referential integrity |
| `Chats.CreatedChatIsOnlyShared` | src/routers/chats.js:115-120 | after a creation, the new chat is the only one the two users share |
| `Chats.OpenTwice` | src/routers/chats.js:77-127 | a second `/open` of the same pair after a creation replies `isChatExist: true` with the same id and creates no further chat |
| `Chats.CreatedChatListedForOpenerOnly` | src/routers/chats.js:122-123 | after a creation the opener's chat list shows the new chat, named and pictured after the target, with unread count 0; the target's list does not show it |
| `Posts.FeedRows` | src/routers/posts.js:13-34 | exactly one row for each post whose author exists (inner join), in the posts' scan order, and no other row; `is_following` iff a follows row (viewer, author) exists; `has_liked` iff a likes row (viewer, post) exists; author name and pic from `users` |
| `Posts.Feed` | src/routers/posts.js:9-41 | at most 15 of those rows, the most recently updated ones, newest first, with the same flags |
| `Posts.ProfileRows` | src/routers/posts.js:97-124 | exactly one row for each post of the profile's author, when that author exists, in scan order, and no other row; `is_following` is false on the viewer's own posts even with a self-follow row, else iff the follows row exists; `has_liked` iff the likes row exists |
| `Posts.ProfilePosts` | src/routers/posts.js:86-131 | 400 iff no `user_id` is given; otherwise at most 15 posts of that profile, most recently updated first, with the flags above |
| `Posts.Create` | src/routers/posts.js:48-79 | exactly one post is appended with the given author and content (media is not stored); the reply is that row plus the author's name and pic, or 500 after the insert when the author does not exist |
| `Users.Profiles` | src/routers/user.js:10-28 | 404 iff there are no users; otherwise exactly every user's id, username, email, profile_pic and banner_img |
| `Users.ProfileById` | src/routers/user.js:35-73 | 400 iff the profile does not exist; `is_following` is false without a `user_id`, else iff a follows row (user_id, profile) exists |
| `Users.Follow` | src/routers/user.js:81-97 | the pair (uid, tuid) is added to follows and no other pair changes; reply `followInfo {target_id: tuid, follow: true}` |
| `Users.Unfollow` | src/routers/user.js:104-119 | the pair (uid, tuid) is removed and no other pair changes, the reverse pair included; reply `follow: false` |
| `Users.FollowShowsInProfile` | src/routers/user.js:57-71 | after a follow, the followed profile reports `is_following = true` to the follower |
| `Users.FollowThenUnfollow` | src/routers/user.js:81-124 | a follow then an unfollow of the same pair leaves the pair absent, and the profile then reports `is_following = false` |
| `Users.Notifications` | src/routers/user.js:127-152 | exactly one row for each notification addressed to the user whose source user exists (inner join), in scan order, and no other row; each with the source user's name and pic |

## Left out

- Express routing, CORS, JSON parsing and logging are not modelled. Every handler's database-exception path (500) is left out too. Two exceptions are kept: `/open` with no `user_chat` row for the requester, and `/create` with no author row.
- The `/follow` and `/unfollow` error paths are left out. They call `res.status(500)` and never send a response.
- The SQL engine is replaced by the table values. Serial ids are parameters that must be fresh (`newId`). Column defaults are also parameters: a post's `created_at`, `updated_at` and `likes`.
- `Chats.Open` leaves the new rows' `unread_count` NULL. The column default is not part of this model. The chat list shows NULL as 0, which is what a default of 0 would show.
- `chat_members`, `follows` and `likes` are sets, so each pair is stored at most once. With duplicate rows, the SQL joins would repeat result rows. The schema's uniqueness constraints are not part of this model, so a duplicate follow is idempotent here rather than rejected.
- `user_chat` holds at most one row per (chat, user). `Chats.Open` with `user == target` writes the inactive row last. The SQL would insert two rows, or fail on a key constraint.
- Missing path or query parameters are not modelled as such. Ids are integers. The `!user_id` tests (`/profile/id/:profile_id`, `/profile/id/:id`) take `user_id` as an `Option`, where `None` stands for absent or empty. The messages endpoint also takes `user_id` as an `Option`, but there `None` stands only for an absent `user_id`, which the query compares as NULL and so matches no member. That handler has no `!user_id` test: an empty `user_id` reaches the query, which is not an integer; this is one of the 500 paths left out above.
- Posts.Create: stores the post even when its author does not exist, then replies 500. This assumes `posts.user_id` has no foreign key to `users`; with one, the INSERT itself would fail, nothing would be stored and the reply would still be 500.
- `Schema.Database.Valid` requires referential integrity (chat_members and user_chat rows refer to existing chats). This stands in for the schema's foreign keys. `Chats.Open` needs it to show that the new chat's members are exactly the two users.
- Chats.ChatList: a direct chat's name and pic come from two separate `LIMIT 1` subqueries, which may pick different members. The contract allows that, but the function takes both from one chosen member.
- `BEGIN`/`END` around the chat creation, crash atomicity and concurrency between requests are left out. Each handler is one sequential step.
- The message `msg` strings built from ids (`"${uid} follow ${tuid}"`) are represented by the ids they contain (`FollowReply.follower`, `FollowReply.targetId`).
- The socket layer is not part of this model: live connections, message delivery, unread increments and read receipts. `src/routers/auth.js` (a stub) and `src/app.js` (wiring) are not part of this model either.
