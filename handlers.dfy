/**
 * The write handlers of blog/views.py as transitions of the whole store:
 * follow and unfollow, like and unlike, comment and reply, share, publish,
 * create and delete a post, the cascade of deleting a location, and the two
 * annotation ingestors. A handler either completes or raises the exception
 * Django raises (`DoesNotExist` from `.get`, `MultipleObjectsReturned`, or a
 * failure of the language service), and a handler that raises before it
 * writes leaves the store as it was.
 */
module Handlers {
  import opened Text
  import opened Models
  import opened Annotation

  /** Every table of the blog, rows in insertion order, and the next fresh primary key. */
  datatype Db = Db(
    profiles: seq<Profile>,
    locations: seq<Location>,
    tags: seq<Tag>,
    posts: seq<Post>,
    likes: seq<PostLike>,
    comments: seq<Comment>,
    reviews: seq<LocationReview>,
    nextId: Id)

  /** How a handler ends: normally, or with the exception it raises. */
  datatype Outcome = Done | DoesNotExist | MultipleObjectsReturned | ServiceError

  datatype Handled = Handled(db: Db, outcome: Outcome)

  function UserIs(userId: Id): Profile -> bool { (p: Profile) => p.userId == userId }
  function UsernameIs(n: string): Profile -> bool { (p: Profile) => p.username == n }
  function PostWithId(id: Id): Post -> bool { (p: Post) => p.id == id }
  function CommentWithId(id: Id): Comment -> bool { (c: Comment) => c.id == id }
  function LikeOn(post: Id): PostLike -> bool { (l: PostLike) => l.post == post }
  function CommentOn(post: Id): Comment -> bool { (c: Comment) => c.post == post }
  function LikeOf(post: Id, profile: Id): PostLike -> bool { (l: PostLike) => l.post == post && l.user == profile }

  /** `post.total_likes` as the number of like rows of the post. */
  function LikesOn(likes: seq<PostLike>, post: Id): nat { |Filter(likes, LikeOn(post))| }

  /** `post.total_comments` as the number of comment rows of the post, replies included. */
  function CommentsOn(comments: seq<Comment>, post: Id): nat { |Filter(comments, CommentOn(post))| }

  function GeoOf(db: Db): Geo { Geo(db.locations, db.reviews, db.nextId) }
  function TaggingOf(db: Db): Tagging { Tagging(db.tags, db.nextId) }

  /** A username and a user belong to one profile each (`OneToOneField`, unique usernames). */
  ghost predicate ProfilesValid(profiles: seq<Profile>)
  {
    UniqueBy(profiles, ProfileKey) && UniqueBy(profiles, ProfileUser) && UniqueBy(profiles, Username)
  }

  /** Posts, likes and comments have unique ids below the next fresh one. */
  ghost predicate RowsValid(posts: seq<Post>, likes: seq<PostLike>, comments: seq<Comment>, nextId: Id)
  {
    && UniqueBy(posts, PostId) && UniqueBy(likes, LikeId) && UniqueBy(comments, CommentId)
    && (forall i :: 0 <= i < |posts| ==> posts[i].id < nextId)
    && (forall i :: 0 <= i < |likes| ==> likes[i].id < nextId)
    && (forall i :: 0 <= i < |comments| ==> comments[i].id < nextId)
  }

  /** Every like and every comment belongs to an existing post. */
  ghost predicate LinksValid(posts: seq<Post>, likes: seq<PostLike>, comments: seq<Comment>)
  {
    && (forall i :: 0 <= i < |likes| ==> Find(posts, PostWithId(likes[i].post)).Some?)
    && (forall i :: 0 <= i < |comments| ==> Find(posts, PostWithId(comments[i].post)).Some?)
  }

  /** Each post's counters equal the number of its like and comment rows. */
  ghost predicate CountsValid(posts: seq<Post>, likes: seq<PostLike>, comments: seq<Comment>)
  {
    && (forall i :: 0 <= i < |posts| ==> posts[i].totalLikes == LikesOn(likes, posts[i].id))
    && (forall i :: 0 <= i < |posts| ==> posts[i].totalComments == CommentsOn(comments, posts[i].id))
  }

  /** A reply's parent is a comment on the same post as the reply. */
  ghost predicate ReplyOk(comments: seq<Comment>, c: Comment)
  {
    c.parent.Some? ==>
      var f := Find(comments, CommentWithId(c.parent.value));
      f.Some? && comments[f.value].post == c.post
  }

  ghost predicate RepliesValid(comments: seq<Comment>)
  {
    forall i :: 0 <= i < |comments| ==> ReplyOk(comments, comments[i])
  }

  ghost predicate Valid(db: Db)
  {
    && ProfilesValid(db.profiles)
    && RowsValid(db.posts, db.likes, db.comments, db.nextId)
    && LinksValid(db.posts, db.likes, db.comments)
    && CountsValid(db.posts, db.likes, db.comments)
    && RepliesValid(db.comments)
    && GeoValid(GeoOf(db))
    && TagsValid(TaggingOf(db))
  }

  /** A database with no rows is consistent, whatever its next fresh id. */
  lemma EmptyValid(n: Id)
    ensures Valid(Db([], [], [], [], [], [], [], n))
  {
    var db := Db([], [], [], [], [], [], [], n);
    assert ProfilesValid(db.profiles);
    assert RowsValid(db.posts, db.likes, db.comments, db.nextId);
    assert GeoValid(GeoOf(db));
    assert TagsValid(TaggingOf(db));
  }


  // ------------------------------------------------------------------ follows

  /** `profile.users_following.add(id)` on the profile at index `v`. */
  function FollowedUser(profiles: seq<Profile>, v: nat, id: Id): seq<Profile>
    requires v < |profiles|
  {
    profiles[v := profiles[v].(usersFollowing := profiles[v].usersFollowing + {id})]
  }

  /** `profile.users_following.remove(id)` on the profile at index `v`. */
  function UnfollowedUser(profiles: seq<Profile>, v: nat, id: Id): seq<Profile>
    requires v < |profiles|
  {
    profiles[v := profiles[v].(usersFollowing := profiles[v].usersFollowing - {id})]
  }

  /** `profile.locations_following.add(id)` on the profile at index `v`. */
  function FollowedLocation(profiles: seq<Profile>, v: nat, id: Id): seq<Profile>
    requires v < |profiles|
  {
    profiles[v := profiles[v].(locationsFollowing := profiles[v].locationsFollowing + {id})]
  }

  /** `profile.locations_following.remove(id)` on the profile at index `v`. */
  function UnfollowedLocation(profiles: seq<Profile>, v: nat, id: Id): seq<Profile>
    requires v < |profiles|
  {
    profiles[v := profiles[v].(locationsFollowing := profiles[v].locationsFollowing - {id})]
  }

  /** `follow_user`: the signed-in user's profile follows the profile with that username. */
  function FollowUser(db: Db, viewer: Id, username: string): Handled
  {
    var t := Find(db.profiles, UsernameIs(username));
    var v := Find(db.profiles, UserIs(viewer));
    if t.None? || v.None? then Handled(db, DoesNotExist)
    else Handled(db.(profiles := FollowedUser(db.profiles, v.value, db.profiles[t.value].id)), Done)
  }

  /** `unfollow_user`. */
  function UnfollowUser(db: Db, viewer: Id, username: string): Handled
  {
    var t := Find(db.profiles, UsernameIs(username));
    var v := Find(db.profiles, UserIs(viewer));
    if t.None? || v.None? then Handled(db, DoesNotExist)
    else Handled(db.(profiles := UnfollowedUser(db.profiles, v.value, db.profiles[t.value].id)), Done)
  }

  /** `follow_location`. */
  function FollowLocation(db: Db, viewer: Id, pk: Id): Handled
  {
    var l := Find(db.locations, LocationWithId(pk));
    var v := Find(db.profiles, UserIs(viewer));
    if l.None? || v.None? then Handled(db, DoesNotExist)
    else Handled(db.(profiles := FollowedLocation(db.profiles, v.value, pk)), Done)
  }

  /** `unfollow_location`. */
  function UnfollowLocation(db: Db, viewer: Id, pk: Id): Handled
  {
    var l := Find(db.locations, LocationWithId(pk));
    var v := Find(db.profiles, UserIs(viewer));
    if l.None? || v.None? then Handled(db, DoesNotExist)
    else Handled(db.(profiles := UnfollowedLocation(db.profiles, v.value, pk)), Done)
  }

  /** Changing follow sets keeps every profile's id, user and username. */
  lemma SameProfileKeys(profiles: seq<Profile>, updated: seq<Profile>)
    requires ProfilesValid(profiles) && |updated| == |profiles|
    requires forall i :: 0 <= i < |profiles| ==>
      updated[i].id == profiles[i].id && updated[i].userId == profiles[i].userId && updated[i].username == profiles[i].username
    ensures ProfilesValid(updated)
    ensures forall n :: Find(updated, UsernameIs(n)) == Find(profiles, UsernameIs(n))
    ensures forall u :: Find(updated, UserIs(u)) == Find(profiles, UserIs(u))
  {
    UniqueBySameKeys(profiles, updated, ProfileKey);
    UniqueBySameKeys(profiles, updated, ProfileUser);
    UniqueBySameKeys(profiles, updated, Username);
    forall n ensures Find(updated, UsernameIs(n)) == Find(profiles, UsernameIs(n)) {
      FindSameVerdicts(profiles, updated, UsernameIs(n));
    }
    forall u ensures Find(updated, UserIs(u)) == Find(profiles, UserIs(u)) {
      FindSameVerdicts(profiles, updated, UserIs(u));
    }
  }

  lemma FindSameVerdicts<T>(s: seq<T>, t: seq<T>, p: T -> bool)
    requires |s| == |t| && forall i :: 0 <= i < |s| ==> p(s[i]) == p(t[i])
    ensures Find(t, p) == Find(s, p)
  {
    if Find(s, p).Some? {
      FindIs(t, p, Find(s, p).value);
    }
  }

  /**
   * `follow_user` succeeds exactly when both profiles exist; it adds the
   * followed profile to the follower's `users_following` and changes no
   * other profile, the followed one included (the relation is not
   * symmetric), and no other table. The invariant is kept.
   */
  lemma FollowUserEffect(db: Db, viewer: Id, username: string)
    requires Valid(db)
    ensures var h := FollowUser(db, viewer, username);
      var t := Find(db.profiles, UsernameIs(username));
      var v := Find(db.profiles, UserIs(viewer));
      && (h.outcome == Done <==> t.Some? && v.Some?)
      && (h.outcome != Done ==> h.outcome == DoesNotExist && h.db == db)
      && Valid(h.db)
      && h.db.(profiles := db.profiles) == db
      && |h.db.profiles| == |db.profiles|
      && (h.outcome == Done ==>
            && h.db.profiles[v.value].usersFollowing == db.profiles[v.value].usersFollowing + {db.profiles[t.value].id}
            && h.db.profiles[v.value].locationsFollowing == db.profiles[v.value].locationsFollowing
            && forall i :: 0 <= i < |db.profiles| && i != v.value ==> h.db.profiles[i] == db.profiles[i])
  {
    var h := FollowUser(db, viewer, username);
    if h.outcome == Done {
      SameProfileKeys(db.profiles, h.db.profiles);
    }
  }

  /** Following twice is following once. */
  lemma FollowUserIdempotent(db: Db, viewer: Id, username: string)
    requires Valid(db)
    ensures FollowUser(FollowUser(db, viewer, username).db, viewer, username) == FollowUser(db, viewer, username)
  {
    var h := FollowUser(db, viewer, username);
    if h.outcome == Done {
      SameProfileKeys(db.profiles, h.db.profiles);
      var v := Find(db.profiles, UserIs(viewer)).value;
      var t := Find(db.profiles, UsernameIs(username)).value;
      assert h.db.profiles[t].id == db.profiles[t].id;
      assert FollowedUser(h.db.profiles, v, db.profiles[t].id) == h.db.profiles;
    }
  }

  /**
   * `unfollow_user` removes the followed profile from the follower's
   * `users_following` and changes nothing else; when the follower did not
   * follow it, the store is left exactly as it was.
   */
  lemma UnfollowUserEffect(db: Db, viewer: Id, username: string)
    requires Valid(db)
    ensures var h := UnfollowUser(db, viewer, username);
      var t := Find(db.profiles, UsernameIs(username));
      var v := Find(db.profiles, UserIs(viewer));
      && (h.outcome == Done <==> t.Some? && v.Some?)
      && (h.outcome != Done ==> h.outcome == DoesNotExist && h.db == db)
      && Valid(h.db)
      && h.db.(profiles := db.profiles) == db
      && |h.db.profiles| == |db.profiles|
      && (h.outcome == Done ==>
            && h.db.profiles[v.value].usersFollowing == db.profiles[v.value].usersFollowing - {db.profiles[t.value].id}
            && h.db.profiles[v.value].locationsFollowing == db.profiles[v.value].locationsFollowing
            && (forall i :: 0 <= i < |db.profiles| && i != v.value ==> h.db.profiles[i] == db.profiles[i])
            && (db.profiles[t.value].id !in db.profiles[v.value].usersFollowing ==> h.db == db))
  {
    var h := UnfollowUser(db, viewer, username);
    if h.outcome == Done {
      SameProfileKeys(db.profiles, h.db.profiles);
      var v := Find(db.profiles, UserIs(viewer)).value;
      var t := Find(db.profiles, UsernameIs(username)).value;
      if db.profiles[t].id !in db.profiles[v].usersFollowing {
        assert db.profiles[v].usersFollowing - {db.profiles[t].id} == db.profiles[v].usersFollowing;
        assert UnfollowedUser(db.profiles, v, db.profiles[t].id) == db.profiles;
      }
    }
  }

  /** Following and then unfollowing a profile leaves the follower not following it. */
  lemma FollowThenUnfollowUser(db: Db, viewer: Id, username: string)
    requires Valid(db)
    ensures var h := UnfollowUser(FollowUser(db, viewer, username).db, viewer, username);
      var t := Find(db.profiles, UsernameIs(username));
      var v := Find(db.profiles, UserIs(viewer));
      t.Some? && v.Some? ==>
        h.db.profiles[v.value].usersFollowing == db.profiles[v.value].usersFollowing - {db.profiles[t.value].id}
  {
    var h := FollowUser(db, viewer, username);
    FollowUserEffect(db, viewer, username);
    if h.outcome == Done {
      SameProfileKeys(db.profiles, h.db.profiles);
      UnfollowUserEffect(h.db, viewer, username);
    }
  }

  /**
   * `follow_location` succeeds exactly when the location and the follower's
   * profile exist, adds the location to the follower's
   * `locations_following`, and changes nothing else.
   */
  lemma FollowLocationEffect(db: Db, viewer: Id, pk: Id)
    requires Valid(db)
    ensures var h := FollowLocation(db, viewer, pk);
      var v := Find(db.profiles, UserIs(viewer));
      && (h.outcome == Done <==> Find(db.locations, LocationWithId(pk)).Some? && v.Some?)
      && (h.outcome != Done ==> h.outcome == DoesNotExist && h.db == db)
      && Valid(h.db)
      && h.db.(profiles := db.profiles) == db
      && |h.db.profiles| == |db.profiles|
      && (h.outcome == Done ==>
            && h.db.profiles[v.value].locationsFollowing == db.profiles[v.value].locationsFollowing + {pk}
            && h.db.profiles[v.value].usersFollowing == db.profiles[v.value].usersFollowing
            && forall i :: 0 <= i < |db.profiles| && i != v.value ==> h.db.profiles[i] == db.profiles[i])
  {
    var h := FollowLocation(db, viewer, pk);
    if h.outcome == Done {
      SameProfileKeys(db.profiles, h.db.profiles);
    }
  }

  /** Following a location twice is following it once. */
  lemma FollowLocationIdempotent(db: Db, viewer: Id, pk: Id)
    requires Valid(db)
    ensures FollowLocation(FollowLocation(db, viewer, pk).db, viewer, pk) == FollowLocation(db, viewer, pk)
  {
    var h := FollowLocation(db, viewer, pk);
    if h.outcome == Done {
      SameProfileKeys(db.profiles, h.db.profiles);
      var v := Find(db.profiles, UserIs(viewer)).value;
      assert FollowedLocation(h.db.profiles, v, pk) == h.db.profiles;
    }
  }

  /**
   * `unfollow_location` removes the location from the follower's
   * `locations_following` and changes nothing else; unfollowing a location
   * that is not followed leaves the store as it was.
   */
  lemma UnfollowLocationEffect(db: Db, viewer: Id, pk: Id)
    requires Valid(db)
    ensures var h := UnfollowLocation(db, viewer, pk);
      var v := Find(db.profiles, UserIs(viewer));
      && (h.outcome == Done <==> Find(db.locations, LocationWithId(pk)).Some? && v.Some?)
      && (h.outcome != Done ==> h.outcome == DoesNotExist && h.db == db)
      && Valid(h.db)
      && h.db.(profiles := db.profiles) == db
      && |h.db.profiles| == |db.profiles|
      && (h.outcome == Done ==>
            && h.db.profiles[v.value].locationsFollowing == db.profiles[v.value].locationsFollowing - {pk}
            && h.db.profiles[v.value].usersFollowing == db.profiles[v.value].usersFollowing
            && (forall i :: 0 <= i < |db.profiles| && i != v.value ==> h.db.profiles[i] == db.profiles[i])
            && (pk !in db.profiles[v.value].locationsFollowing ==> h.db == db))
  {
    var h := UnfollowLocation(db, viewer, pk);
    if h.outcome == Done {
      SameProfileKeys(db.profiles, h.db.profiles);
      var v := Find(db.profiles, UserIs(viewer)).value;
      if pk !in db.profiles[v].locationsFollowing {
        assert db.profiles[v].locationsFollowing - {pk} == db.profiles[v].locationsFollowing;
        assert UnfollowedLocation(db.profiles, v, pk) == db.profiles;
      }
    }
  }
}
