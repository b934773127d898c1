/** The user router: profiles, the follow relation and notifications. */
module Users {
  import opened Common
  import opened Schema
  import opened Ordering

  /** The columns of `users` that the profile endpoints return. */
  datatype Profile = Profile(id: Id, username: string, email: string, profilePic: string,
                             bannerImg: string)

  /** A profile together with whether the requesting user follows it. */
  datatype ProfileView = ProfileView(profile: Profile, isFollowing: bool)

  /** `followInfo` of the follow and unfollow replies; the `msg` text is built from follower and target. */
  datatype FollowReply = FollowReply(follower: Id, targetId: Id, follow: bool)

  /** A notification joined with the user who caused it. */
  datatype NotificationView = NotificationView(sourceName: string, sourcePic: string, sourceId: Id,
                                               kind: string, content: string, read: bool,
                                               date: Timestamp)

  function ProfileOf(id: Id, u: User): Profile {
    Profile(id, u.username, u.email, u.profilePic, u.bannerImg)
  }

  /** GET /profile: every user, or 404 when the table is empty. */
  function Profiles(users: map<Id, User>): (r: Response<set<Profile>>)
    ensures r.Error? <==> |users| == 0
    ensures r.Error? ==> r == Error(404, "No profiles found")
    ensures r.Ok? ==> forall id | id in users :: ProfileOf(id, users[id]) in r.payload
    ensures r.Ok? ==> forall p | p in r.payload :: p.id in users && p == ProfileOf(p.id, users[p.id])
  {
    if |users| == 0 then Error(404, "No profiles found")
    else Ok(set id | id in users :: ProfileOf(id, users[id]))
  }

  /** The follow check of GET /profile/id/:id, done only when a user_id was given. */
  function IsFollowing(follows: set<(Id, Id)>, viewer: Option<Id>, profileId: Id): bool {
    viewer.Some? && (viewer.value, profileId) in follows
  }

  /**
   * GET /profile/id/:id?user_id=viewer: the profile, or 400 when no such user exists;
   * is_following is false without a viewer and otherwise tells whether a follows row
   * (viewer, profileId) exists.
   */
  function ProfileById(users: map<Id, User>, follows: set<(Id, Id)>, profileId: Id,
                       viewer: Option<Id>): (r: Response<ProfileView>)
    ensures r.Error? <==> profileId !in users
    ensures r.Error? ==> r == Error(400, "This profile does not exist")
    ensures r.Ok? ==> r.payload.profile.id == profileId
    ensures r.Ok? ==> r.payload.profile == ProfileOf(profileId, users[profileId])
    ensures r.Ok? && viewer.None? ==> !r.payload.isFollowing
    ensures r.Ok? && viewer.Some? ==>
              (r.payload.isFollowing <==> (viewer.value, profileId) in follows)
  {
    if profileId !in users then Error(400, "This profile does not exist")
    else Ok(ProfileView(ProfileOf(profileId, users[profileId]),
                        IsFollowing(follows, viewer, profileId)))
  }

  /** GET /follow?uid&tuid: inserts the pair (uid, tuid) into follows. */
  method Follow(db: Database, uid: Id, tuid: Id) returns (r: FollowReply)
    modifies db`follows
    ensures db.follows == old(db.follows) + {(uid, tuid)}
    ensures forall p | p != (uid, tuid) :: p in db.follows <==> p in old(db.follows)
    ensures r == FollowReply(uid, tuid, true)
  {
    db.follows := db.follows + {(uid, tuid)};
    r := FollowReply(uid, tuid, true);
  }

  /** GET /unfollow?uid&tuid: deletes every (uid, tuid) row of follows. */
  method Unfollow(db: Database, uid: Id, tuid: Id) returns (r: FollowReply)
    modifies db`follows
    ensures db.follows == old(db.follows) - {(uid, tuid)}
    ensures forall p | p != (uid, tuid) :: p in db.follows <==> p in old(db.follows)
    ensures uid != tuid ==> ((tuid, uid) in db.follows <==> (tuid, uid) in old(db.follows))
    ensures r == FollowReply(uid, tuid, false)
  {
    db.follows := db.follows - {(uid, tuid)};
    r := FollowReply(uid, tuid, false);
  }

  /** Following a user makes that user's profile report is_following to the follower. */
  lemma FollowShowsInProfile(users: map<Id, User>, follows: set<(Id, Id)>, viewer: Id, profileId: Id)
    requires profileId in users
    ensures ProfileById(users, follows + {(viewer, profileId)}, profileId, Some(viewer)).payload.isFollowing
  {
  }

  /**
   * A follow followed by an unfollow of the same pair leaves the pair absent, whether or not it
   * was present before, so the profile then reports is_following = false.
   */
  method FollowThenUnfollow(db: Database, uid: Id, tuid: Id) returns (view: Response<ProfileView>)
    modifies db`follows
    ensures db.follows == old(db.follows) - {(uid, tuid)}
    ensures tuid in db.users ==> view.Ok? && !view.payload.isFollowing
    ensures tuid !in db.users ==> view == Error(400, "This profile does not exist")
  {
    var _ := Follow(db, uid, tuid);
    var _ := Unfollow(db, uid, tuid);
    view := ProfileById(db.users, db.follows, tuid, Some(uid));
  }

  /** The row of GET /notifications/:userId for one notification and its source user. */
  function Joined(n: Notification, source: User): NotificationView {
    NotificationView(source.username, source.profilePic, n.sourceId, n.kind, n.content, n.read,
                     n.date)
  }

  /** The row of a notification whose source user exists. */
  function JoinedRow(n: Notification, users: map<Id, User>): NotificationView
    requires n.sourceId in users
  {
    Joined(n, users[n.sourceId])
  }

  /** The inner join condition and the WHERE of GET /notifications/:userId. */
  predicate Addressed(n: Notification, users: map<Id, User>, userId: Id) {
    n.userId == userId && n.sourceId in users
  }

  /** The notification query's WHERE and inner join, as a filter condition. */
  function AddressedTo(users: map<Id, User>, userId: Id): Notification -> bool {
    (n: Notification) => Addressed(n, users, userId)
  }

  /** Each kept notification joined with its source user, in order. */
  function JoinedAll(kept: seq<Notification>, users: map<Id, User>): (r: seq<NotificationView>)
    requires forall n | n in kept :: n.sourceId in users
    ensures |r| == |kept|
    ensures forall i | 0 <= i < |r| :: r[i] == JoinedRow(kept[i], users)
  {
    if kept == [] then []
    else [JoinedRow(kept[0], users)] + JoinedAll(kept[1..], users)
  }

  /**
   * When kept holds exactly the notifications of table addressed to userId, joining kept gives
   * one row per such notification and no other row.
   */
  lemma JoinedAllCover(kept: seq<Notification>, table: seq<Notification>, users: map<Id, User>,
                       userId: Id)
    requires forall n | n in kept :: n in table && n.userId == userId && n.sourceId in users
    requires forall n | n in table && Addressed(n, users, userId) :: n in kept
    ensures var r := JoinedAll(kept, users);
            (forall v | v in r :: v.sourceId in users && v.sourceName == users[v.sourceId].username
                                  && v.sourcePic == users[v.sourceId].profilePic)
            && (forall v | v in r ::
                  exists n | n in table :: Addressed(n, users, userId) && v == Joined(n, users[n.sourceId]))
            && (forall n | n in table && Addressed(n, users, userId) :: Joined(n, users[n.sourceId]) in r)
  {
    var r := JoinedAll(kept, users);
    forall n | n in table && Addressed(n, users, userId) ensures Joined(n, users[n.sourceId]) in r {
      var i :| 0 <= i < |kept| && kept[i] == n;
      assert r[i] == JoinedRow(n, users);
    }
    forall v | v in r
      ensures v.sourceId in users && v.sourceName == users[v.sourceId].username
              && v.sourcePic == users[v.sourceId].profilePic
      ensures exists n | n in table :: Addressed(n, users, userId) && v == Joined(n, users[n.sourceId])
    {
      var i :| 0 <= i < |r| && r[i] == v;
      assert kept[i] in kept;
    }
  }

  /**
   * GET /notifications/:userId: one row per notification received by userId whose source user
   * exists, carrying the source user's name and picture.
   */
  function Notifications(table: seq<Notification>, users: map<Id, User>, userId: Id)
    : (r: seq<NotificationView>)
    ensures |r| == |Filter(table, AddressedTo(users, userId))|
    ensures forall i | 0 <= i < |r| :: r[i] == JoinedRow(Filter(table, AddressedTo(users, userId))[i], users)
    ensures forall v | v in r :: v.sourceId in users && v.sourceName == users[v.sourceId].username
                                 && v.sourcePic == users[v.sourceId].profilePic
    ensures forall v | v in r :: exists n | n in table :: Addressed(n, users, userId) && v == Joined(n, users[n.sourceId])
    ensures forall n | n in table && Addressed(n, users, userId) :: Joined(n, users[n.sourceId]) in r
  {
    var kept := Filter(table, AddressedTo(users, userId));
    assert forall n | n in kept :: n in table && Addressed(n, users, userId);
    assert forall n | n in table && Addressed(n, users, userId) :: n in kept;
    JoinedAllCover(kept, table, users, userId);
    JoinedAll(kept, users)
  }
}
