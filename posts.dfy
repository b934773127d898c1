/** The posts router: the feed, post creation and a profile's posts. */
module Posts {
  import opened Common
  import opened Schema
  import opened Ordering

  /** A post joined with its author and the viewer's follow and like flags. */
  datatype PostView = PostView(id: Id, authorId: Id, authorName: string, authorPic: string,
                               content: string, createdAt: Timestamp, updatedAt: Timestamp,
                               likes: int, isFollowing: bool, hasLiked: bool)

  /** The reply of POST /create: the inserted row plus its author's name and picture. */
  datatype CreatedPost = CreatedPost(id: Id, authorId: Id, content: string, createdAt: Timestamp,
                                     updatedAt: Timestamp, likes: int, authorName: string,
                                     authorPic: string)

  /** The key of ORDER BY updated_at DESC. */
  function NewestFirst(v: PostView): int {
    -v.updatedAt
  }

  function View(p: Post, author: User, isFollowing: bool, hasLiked: bool): PostView {
    PostView(p.id, p.userId, author.username, author.profilePic, p.content, p.createdAt,
             p.updatedAt, p.likes, isFollowing, hasLiked)
  }

  /** The row carries the columns of the post it was built from. */
  ghost predicate FromPost(v: PostView, p: Post) {
    p.id == v.id && p.userId == v.authorId && p.content == v.content
    && p.createdAt == v.createdAt && p.updatedAt == v.updatedAt && p.likes == v.likes
  }

  /** The row carries its author's name and picture. */
  ghost predicate ByAuthor(v: PostView, users: map<Id, User>) {
    v.authorId in users && v.authorName == users[v.authorId].username
    && v.authorPic == users[v.authorId].profilePic
  }

  /** The feed's inner join with users: the post's author exists. */
  function HasAuthor(users: map<Id, User>): Post -> bool {
    (p: Post) => p.userId in users
  }

  /** The profile query's WHERE and inner join: the post is by profileId, who exists. */
  function AuthoredBy(users: map<Id, User>, profileId: Id): Post -> bool {
    (p: Post) => p.userId == profileId && p.userId in users
  }

  /** The feed row of post p for the viewer. */
  function FeedRow(p: Post, users: map<Id, User>, follows: set<(Id, Id)>, likes: set<(Id, Id)>,
                   viewer: Id): PostView
    requires p.userId in users
  {
    View(p, users[p.userId], (viewer, p.userId) in follows, (viewer, p.id) in likes)
  }

  /** The feed query's SELECT list over the posts that passed the join, one row each, in order. */
  function FeedRowsOf(kept: seq<Post>, users: map<Id, User>, follows: set<(Id, Id)>,
                      likes: set<(Id, Id)>, viewer: Id): (r: seq<PostView>)
    requires forall p | p in kept :: p.userId in users
    ensures |r| == |kept|
    ensures forall i | 0 <= i < |r| :: r[i] == FeedRow(kept[i], users, follows, likes, viewer)
  {
    if kept == [] then []
    else [FeedRow(kept[0], users, follows, likes, viewer)] + FeedRowsOf(kept[1..], users, follows, likes, viewer)
  }

  /**
   * The rows of the feed query before ORDER BY and LIMIT: one per post whose author exists
   * (inner join), with is_following from follows and has_liked from likes.
   */
  function FeedRows(posts: seq<Post>, users: map<Id, User>, follows: set<(Id, Id)>,
                    likes: set<(Id, Id)>, viewer: Id): (r: seq<PostView>)
    ensures |r| == |Filter(posts, HasAuthor(users))|
    ensures forall i | 0 <= i < |r| ::
              r[i] == FeedRow(Filter(posts, HasAuthor(users))[i], users, follows, likes, viewer)
    ensures forall p | p in posts && p.userId in users :: FeedRow(p, users, follows, likes, viewer) in r
    ensures forall v | v in r :: ByAuthor(v, users) && exists p | p in posts :: FromPost(v, p)
    ensures forall v | v in r :: v.isFollowing <==> (viewer, v.authorId) in follows
    ensures forall v | v in r :: v.hasLiked <==> (viewer, v.id) in likes
  {
    FeedRowsOf(Filter(posts, HasAuthor(users)), users, follows, likes, viewer)
  }

  /**
   * GET /current_user/:user_id: the 15 most recently updated posts of all authors, newest first,
   * with the viewer's flags.
   */
  function Feed(posts: seq<Post>, users: map<Id, User>, follows: set<(Id, Id)>,
                likes: set<(Id, Id)>, viewer: Id): (r: seq<PostView>)
    ensures IsFirstK(r, FeedRows(posts, users, follows, likes, viewer), NewestFirst, PageLimit)
    ensures |r| <= PageLimit
    ensures forall i, j | 0 <= i < j < |r| :: r[i].updatedAt >= r[j].updatedAt
    ensures forall v | v in r :: ByAuthor(v, users) && exists p | p in posts :: FromPost(v, p)
    ensures forall v | v in r :: v.isFollowing <==> (viewer, v.authorId) in follows
    ensures forall v | v in r :: v.hasLiked <==> (viewer, v.id) in likes
  {
    FirstK(FeedRows(posts, users, follows, likes, viewer), NewestFirst, PageLimit)
  }

  /** The profile-view row of post p for the viewer: never "following" oneself. */
  function ProfileRow(p: Post, users: map<Id, User>, follows: set<(Id, Id)>,
                      likes: set<(Id, Id)>, viewer: Id): PostView
    requires p.userId in users
  {
    View(p, users[p.userId], p.userId != viewer && (viewer, p.userId) in follows,
         (viewer, p.id) in likes)
  }

  /** The profile query's SELECT list over the posts that passed the WHERE and join. */
  function ProfileRowsOf(kept: seq<Post>, users: map<Id, User>, follows: set<(Id, Id)>,
                         likes: set<(Id, Id)>, viewer: Id): (r: seq<PostView>)
    requires forall p | p in kept :: p.userId in users
    ensures |r| == |kept|
    ensures forall i | 0 <= i < |r| :: r[i] == ProfileRow(kept[i], users, follows, likes, viewer)
  {
    if kept == [] then []
    else [ProfileRow(kept[0], users, follows, likes, viewer)] + ProfileRowsOf(kept[1..], users, follows, likes, viewer)
  }

  /** Each kept post has its row, and each row comes from a kept post by an existing author. */
  lemma ProfileRowsOfCover(kept: seq<Post>, users: map<Id, User>, follows: set<(Id, Id)>,
                           likes: set<(Id, Id)>, viewer: Id)
    requires forall p | p in kept :: p.userId in users
    ensures var r := ProfileRowsOf(kept, users, follows, likes, viewer);
            (forall p | p in kept :: ProfileRow(p, users, follows, likes, viewer) in r)
            && (forall v | v in r :: ByAuthor(v, users) && exists p | p in kept :: FromPost(v, p))
  {
    var r := ProfileRowsOf(kept, users, follows, likes, viewer);
    forall p | p in kept ensures ProfileRow(p, users, follows, likes, viewer) in r {
      var i :| 0 <= i < |kept| && kept[i] == p;
      assert r[i] == ProfileRow(p, users, follows, likes, viewer);
    }
    forall v | v in r ensures ByAuthor(v, users) && exists p | p in kept :: FromPost(v, p) {
      var i :| 0 <= i < |r| && r[i] == v;
      assert FromPost(v, kept[i]);
    }
  }

  /**
   * The rows of the profile query before ORDER BY and LIMIT: one per post of profileId (whose
   * author row exists); is_following is false on the viewer's own posts, even with a
   * self-follow row.
   */
  function ProfileRows(posts: seq<Post>, users: map<Id, User>, follows: set<(Id, Id)>,
                       likes: set<(Id, Id)>, profileId: Id, viewer: Id): (r: seq<PostView>)
    ensures |r| == |Filter(posts, AuthoredBy(users, profileId))|
    ensures forall i | 0 <= i < |r| ::
              r[i] == ProfileRow(Filter(posts, AuthoredBy(users, profileId))[i], users, follows, likes, viewer)
    ensures forall p | p in posts && p.userId == profileId && p.userId in users ::
              ProfileRow(p, users, follows, likes, viewer) in r
    ensures forall v | v in r :: v.authorId == profileId
    ensures forall v | v in r :: ByAuthor(v, users) && exists p | p in posts :: FromPost(v, p)
    ensures forall v | v in r ::
              v.isFollowing <==> v.authorId != viewer && (viewer, v.authorId) in follows
    ensures forall v | v in r :: v.hasLiked <==> (viewer, v.id) in likes
  {
    var kept := Filter(posts, AuthoredBy(users, profileId));
    assert forall p | p in kept :: p in posts && p.userId == profileId && p.userId in users;
    assert forall p | p in posts && p.userId == profileId && p.userId in users :: p in kept;
    ProfileRowsOfCover(kept, users, follows, likes, viewer);
    ProfileRowsOf(kept, users, follows, likes, viewer)
  }

  /**
   * GET /profile/id/:profile_id?user_id=viewer: 400 without a viewer; otherwise the 15 most
   * recently updated posts of profileId, newest first.
   */
  function ProfilePosts(posts: seq<Post>, users: map<Id, User>, follows: set<(Id, Id)>,
                        likes: set<(Id, Id)>, profileId: Id, viewer: Option<Id>)
    : (r: Response<seq<PostView>>)
    ensures r.Error? <==> viewer.None?
    ensures r.Error? ==> r == Error(400, "User ID not provided")
    ensures r.Ok? ==> IsFirstK(r.payload, ProfileRows(posts, users, follows, likes, profileId, viewer.value),
                               NewestFirst, PageLimit)
    ensures r.Ok? ==> |r.payload| <= PageLimit
    ensures r.Ok? ==> forall i, j | 0 <= i < j < |r.payload| :: r.payload[i].updatedAt >= r.payload[j].updatedAt
    ensures r.Ok? ==> forall v | v in r.payload :: v.authorId == profileId && ByAuthor(v, users)
    ensures r.Ok? ==> forall v | v in r.payload :: v.authorId == viewer.value ==> !v.isFollowing
    ensures r.Ok? ==> forall v | v in r.payload ::
                        v.isFollowing <==> v.authorId != viewer.value && (viewer.value, v.authorId) in follows
    ensures r.Ok? ==> forall v | v in r.payload :: v.hasLiked <==> (viewer.value, v.id) in likes
  {
    match viewer
    case None => Error(400, "User ID not provided")
    case Some(v) => Ok(FirstK(ProfileRows(posts, users, follows, likes, profileId, v), NewestFirst, PageLimit))
  }

  /**
   * POST /create: inserts one post by userId with the given content (media is read but not
   * stored; the other columns take their defaults), then looks up the author. When the author
   * does not exist the lookup fails with 500, after the insert.
   */
  method Create(db: Database, userId: Id, content: string, media: string, newId: Id,
                createdAt: Timestamp, updatedAt: Timestamp, likes: int)
    returns (r: Response<CreatedPost>)
    requires forall p | p in db.posts :: p.id != newId
    modifies db`posts
    ensures db.posts == old(db.posts) + [Post(newId, userId, content, createdAt, updatedAt, likes)]
    ensures userId in db.users ==>
              r == Ok(CreatedPost(newId, userId, content, createdAt, updatedAt, likes,
                                  db.users[userId].username, db.users[userId].profilePic))
    ensures userId !in db.users ==> r == Error(500, "An error occurred while creating the post")
  {
    var post := Post(newId, userId, content, createdAt, updatedAt, likes);
    db.posts := db.posts + [post];
    if userId !in db.users {
      return Error(500, "An error occurred while creating the post");
    }
    var author := db.users[userId];
    r := Ok(CreatedPost(post.id, post.userId, post.content, post.createdAt, post.updatedAt,
                        post.likes, author.username, author.profilePic));
  }
}
