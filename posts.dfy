/**
 * The post handlers of blog/views.py: `like_post`, `unlike_post`,
 * `comment_post`, `reply_comment`, `share_post`, `publish_post` and
 * `delete_post`, and the cascade of deleting a location (blog/models.py).
 * Each one looks its rows up with `.get` (raising `DoesNotExist`, or
 * `MultipleObjectsReturned` for several matches), then writes; every
 * `post.save()` also refreshes `updated_at` (`auto_now`).
 */
module Posts {
  import opened Models
  import opened Sorting
  import opened Annotation
  import opened Handlers

  function NotPost(pk: Id): Post -> bool { (p: Post) => p.id != pk }
  function NotLikeOn(pk: Id): PostLike -> bool { (l: PostLike) => l.post != pk }
  function NotCommentOn(pk: Id): Comment -> bool { (c: Comment) => c.post != pk }
  function NotReviewOn(pk: Id): LocationReview -> bool { (r: LocationReview) => r.post != pk }
  function NotLocation(pk: Id): Location -> bool { (l: Location) => l.id != pk }
  function NotReviewAt(pk: Id): LocationReview -> bool { (r: LocationReview) => r.location != pk }

  // ------------------------------------------------------------ the handlers

  /** The store after the like row `l` is inserted and the post at index `j` counts it. */
  function Liked(db: Db, j: nat, l: PostLike, now: Time): Db
    requires j < |db.posts|
  {
    var post := db.posts[j];
    db.(posts := db.posts[j := post.(totalLikes := post.totalLikes + 1, updatedAt := now)],
        likes := db.likes + [l],
        nextId := db.nextId + 1)
  }

  /** `like_post`: no check for an earlier like by the same profile. */
  function LikePost(db: Db, viewer: Id, pk: Id, now: Time): Handled
  {
    var p := Find(db.posts, PostWithId(pk));
    var v := Find(db.profiles, UserIs(viewer));
    if p.None? || v.None? then Handled(db, DoesNotExist)
    else Handled(Liked(db, p.value, PostLike(db.nextId, db.profiles[v.value].id, pk, now), now), Done)
  }

  /** The store after the like row at index `k` is deleted and the post at index `j` uncounts it. */
  function Unliked(db: Db, j: nat, k: nat, now: Time): Db
    requires j < |db.posts| && k < |db.likes|
  {
    var post := db.posts[j];
    db.(posts := db.posts[j := post.(totalLikes := post.totalLikes - 1, updatedAt := now)],
        likes := RemoveAt(db.likes, k))
  }

  /** `unlike_post`: `PostLike.objects.get(post=.., user=..)` must match exactly one row. */
  function UnlikePost(db: Db, viewer: Id, pk: Id, now: Time): Handled
  {
    var p := Find(db.posts, PostWithId(pk));
    var v := Find(db.profiles, UserIs(viewer));
    if p.None? || v.None? then Handled(db, DoesNotExist)
    else
      var mine := LikeOf(pk, db.profiles[v.value].id);
      var l := Find(db.likes, mine);
      if l.None? then Handled(db, DoesNotExist)
      else if |Filter(db.likes, mine)| > 1 then Handled(db, MultipleObjectsReturned)
      else Handled(Unliked(db, p.value, l.value, now), Done)
  }

  /** The store after the comment row `c` is inserted and the post at index `j` counts it. */
  function Commented(db: Db, j: nat, c: Comment, now: Time): Db
    requires j < |db.posts|
  {
    var post := db.posts[j];
    db.(posts := db.posts[j := post.(totalComments := post.totalComments + 1, updatedAt := now)],
        comments := db.comments + [c],
        nextId := db.nextId + 1)
  }

  /** `comment_post`: a top-level comment on the post. */
  function CommentPost(db: Db, viewer: Id, pk: Id, message: string, now: Time): Handled
  {
    var p := Find(db.posts, PostWithId(pk));
    var v := Find(db.profiles, UserIs(viewer));
    if p.None? || v.None? then Handled(db, DoesNotExist)
    else Handled(Commented(db, p.value, Comment(db.nextId, db.profiles[v.value].id, pk, None, message, now), now), Done)
  }

  /** `reply_comment`: a comment on the parent's post whose parent is comment `pk`. */
  function ReplyComment(db: Db, viewer: Id, pk: Id, message: string, now: Time): Handled
  {
    var c := Find(db.comments, CommentWithId(pk));
    if c.None? then Handled(db, DoesNotExist)
    else
      var post := db.comments[c.value].post;
      var p := Find(db.posts, PostWithId(post));
      var v := Find(db.profiles, UserIs(viewer));
      if p.None? || v.None? then Handled(db, DoesNotExist)
      else Handled(Commented(db, p.value, Comment(db.nextId, db.profiles[v.value].id, post, Some(pk), message, now), now), Done)
  }

  /** `share_post`. */
  function SharePost(db: Db, pk: Id, now: Time): Handled
  {
    var p := Find(db.posts, PostWithId(pk));
    if p.None? then Handled(db, DoesNotExist)
    else
      var post := db.posts[p.value];
      Handled(Saved(db, p.value, post.(totalShares := post.totalShares + 1, updatedAt := now)), Done)
  }

  /** `post.save()` of the post at index `j`, now `x`. */
  function Saved(db: Db, j: nat, x: Post): Db
    requires j < |db.posts|
  {
    db.(posts := db.posts[j := x])
  }

  /** `publish_post`. */
  function PublishPost(db: Db, pk: Id, now: Time): Handled
  {
    var p := Find(db.posts, PostWithId(pk));
    if p.None? then Handled(db, DoesNotExist)
    else
      var post := db.posts[p.value];
      Handled(Saved(db, p.value, post.(isPublished := true, updatedAt := now)), Done)
  }

  /** `delete_post`: the post goes, and with it (CASCADE) its likes, comments and location reviews. */
  function DeletePost(db: Db, pk: Id): Handled
  {
    if Find(db.posts, PostWithId(pk)).None? then Handled(db, DoesNotExist)
    else Handled(WithoutPost(db, pk), Done)
  }

  /** The store without post `pk` and the rows that point at it. */
  function WithoutPost(db: Db, pk: Id): Db
  {
    db.(posts := Filter(db.posts, NotPost(pk)),
        likes := Filter(db.likes, NotLikeOn(pk)),
        comments := Filter(db.comments, NotCommentOn(pk)),
        reviews := Filter(db.reviews, NotReviewOn(pk)))
  }

  /**
   * Every profile with location `pk` taken out of its `locations_following`:
   * no profile follows `pk` afterwards, each keeps every other followed
   * location, and nothing else about a profile changes.
   */
  function Unfollowing(profiles: seq<Profile>, pk: Id): (r: seq<Profile>)
    ensures |r| == |profiles|
    ensures forall i :: 0 <= i < |r| ==> pk !in r[i].locationsFollowing
    ensures forall i :: 0 <= i < |r| ==> r[i].locationsFollowing + {pk} == profiles[i].locationsFollowing + {pk}
    ensures forall i :: 0 <= i < |r| ==> r[i].(locationsFollowing := profiles[i].locationsFollowing) == profiles[i]
  {
    seq(|profiles|, i requires 0 <= i < |profiles| =>
      profiles[i].(locationsFollowing := profiles[i].locationsFollowing - {pk}))
  }

  /**
   * Deleting location `pk`: its reviews go (CASCADE) and so do the rows of
   * the `locations_following` many-to-many that point at it.
   */
  function DeleteLocation(db: Db, pk: Id): Handled
  {
    if Find(db.locations, LocationWithId(pk)).None? then Handled(db, DoesNotExist)
    else
      Handled(db.(locations := Filter(db.locations, NotLocation(pk)),
                  reviews := Filter(db.reviews, NotReviewAt(pk)),
                  profiles := Unfollowing(db.profiles, pk)), Done)
  }

  // ------------------------------------------------------------ helpers

  lemma LikesOnAppend(likes: seq<PostLike>, l: PostLike, q: Id)
    ensures LikesOn(likes + [l], q) == LikesOn(likes, q) + (if l.post == q then 1 else 0)
  {
    FilterAppend(likes, [l], LikeOn(q));
    assert [l][1..] == [];
  }

  lemma CommentsOnAppend(comments: seq<Comment>, c: Comment, q: Id)
    ensures CommentsOn(comments + [c], q) == CommentsOn(comments, q) + (if c.post == q then 1 else 0)
  {
    FilterAppend(comments, [c], CommentOn(q));
    assert [c][1..] == [];
  }

  /** Rewriting post `j` without changing its id keeps ids unique and every lookup by id. */
  lemma PostUpdated(posts: seq<Post>, j: nat, x: Post)
    requires UniqueBy(posts, PostId) && j < |posts| && x.id == posts[j].id
    ensures UniqueBy(posts[j := x], PostId)
    ensures forall q :: Find(posts[j := x], PostWithId(q)) == Find(posts, PostWithId(q))
  {
    UniqueByUpdate(posts, j, x, PostId);
    forall q ensures Find(posts[j := x], PostWithId(q)) == Find(posts, PostWithId(q)) {
      FindUpdate(posts, j, x, PostWithId(q));
    }
  }

  lemma OtherPostIds(posts: seq<Post>, j: nat)
    requires UniqueBy(posts, PostId) && j < |posts|
    ensures forall i :: 0 <= i < |posts| && i != j ==> posts[i].id != posts[j].id
  {
    forall i | 0 <= i < |posts| && i != j ensures posts[i].id != posts[j].id {
      assert PostId(posts[i]) != PostId(posts[j]);
    }
  }

  /** A larger next fresh id keeps the location and tag invariants. */
  lemma Grown(db: Db, n: Id)
    requires GeoValid(GeoOf(db)) && TagsValid(TaggingOf(db)) && db.nextId <= n
    ensures GeoValid(GeoOf(db.(nextId := n))) && TagsValid(TaggingOf(db.(nextId := n)))
  {
  }

  /** A comment whose parent, if any, is found in `comments` on its own post, appended. */
  lemma RepliesAppend(comments: seq<Comment>, c: Comment)
    requires RepliesValid(comments) && ReplyOk(comments, c)
    ensures RepliesValid(comments + [c])
  {
    var s := comments + [c];
    forall i | 0 <= i < |s| ensures ReplyOk(s, s[i]) {
      var x := if i < |comments| then comments[i] else c;
      assert s[i] == x;
      if x.parent.Some? {
        FindAppendFound(comments, [c], CommentWithId(x.parent.value));
      }
    }
  }

  // ------------------------------------------------------------ likes

  lemma LikedRows(db: Db, j: nat, l: PostLike, now: Time)
    requires RowsValid(db.posts, db.likes, db.comments, db.nextId) && j < |db.posts| && l.id == db.nextId
    ensures var d := Liked(db, j, l, now); RowsValid(d.posts, d.likes, d.comments, d.nextId)
  {
    var d := Liked(db, j, l, now);
    UniqueByUpdate(db.posts, j, d.posts[j], PostId);
    UniqueByAppend(db.likes, l, LikeId);
  }

  lemma LikedLinks(db: Db, j: nat, l: PostLike, now: Time)
    requires LinksValid(db.posts, db.likes, db.comments) && j < |db.posts| && l.post == db.posts[j].id
    ensures var d := Liked(db, j, l, now); LinksValid(d.posts, d.likes, d.comments)
  {
    var d := Liked(db, j, l, now);
    forall q ensures Find(d.posts, PostWithId(q)) == Find(db.posts, PostWithId(q)) {
      FindUpdate(db.posts, j, d.posts[j], PostWithId(q));
    }
    forall i | 0 <= i < |d.likes| ensures Find(d.posts, PostWithId(d.likes[i].post)).Some? {
      if i < |db.likes| {
        assert d.likes[i] == db.likes[i];
      } else {
        assert d.likes[i] == l;
      }
    }
  }

  lemma LikedCounts(db: Db, j: nat, l: PostLike, now: Time)
    requires CountsValid(db.posts, db.likes, db.comments) && UniqueBy(db.posts, PostId)
    requires j < |db.posts| && l.post == db.posts[j].id
    ensures var d := Liked(db, j, l, now); CountsValid(d.posts, d.likes, d.comments)
  {
    var d := Liked(db, j, l, now);
    OtherPostIds(db.posts, j);
    forall i | 0 <= i < |d.posts| ensures d.posts[i].totalLikes == LikesOn(d.likes, d.posts[i].id) {
      LikesOnAppend(db.likes, l, db.posts[i].id);
    }
  }

  /**
   * Inserting a fresh like on the post at index `j` and counting it keeps
   * the invariant: the post's `total_likes` still equals its number of like
   * rows.
   */
  lemma LikedValid(db: Db, j: nat, l: PostLike, now: Time)
    requires Valid(db) && j < |db.posts| && l.post == db.posts[j].id && l.id == db.nextId
    ensures Valid(Liked(db, j, l, now))
  {
    var d := Liked(db, j, l, now);
    Grown(db, d.nextId);
    assert GeoOf(d) == GeoOf(db.(nextId := d.nextId));
    assert TaggingOf(d) == TaggingOf(db.(nextId := d.nextId));
    LikedRows(db, j, l, now);
    LikedLinks(db, j, l, now);
    LikedCounts(db, j, l, now);
  }

  /**
   * `like_post` succeeds exactly when the post and the viewer's profile
   * exist; it inserts one like row by the viewer's profile and raises the
   * post's `total_likes` by one, so the post has one more like row; only
   * the post's counter and `updated_at` change, and no other post.
   */
  lemma LikePostEffect(db: Db, viewer: Id, pk: Id, now: Time)
    ensures var h := LikePost(db, viewer, pk, now);
      var p := Find(db.posts, PostWithId(pk));
      var v := Find(db.profiles, UserIs(viewer));
      && (h.outcome == Done <==> p.Some? && v.Some?)
      && (h.outcome != Done ==> h.outcome == DoesNotExist && h.db == db)
      && (h.outcome == Done ==>
            && h.db.likes == db.likes + [PostLike(db.nextId, db.profiles[v.value].id, pk, now)]
            && LikesOn(h.db.likes, pk) == LikesOn(db.likes, pk) + 1
            && |h.db.posts| == |db.posts|
            && h.db.posts[p.value].totalLikes == db.posts[p.value].totalLikes + 1
            && h.db.posts[p.value].updatedAt == now
            && h.db.posts[p.value].(totalLikes := db.posts[p.value].totalLikes, updatedAt := db.posts[p.value].updatedAt) == db.posts[p.value]
            && (forall i :: 0 <= i < |db.posts| && i != p.value ==> h.db.posts[i] == db.posts[i])
            && h.db.(posts := db.posts, likes := db.likes, nextId := db.nextId) == db)
  {
    var h := LikePost(db, viewer, pk, now);
    if h.outcome == Done {
      LikesOnAppend(db.likes, PostLike(db.nextId, db.profiles[Find(db.profiles, UserIs(viewer)).value].id, pk, now), pk);
    }
  }

  lemma LikePostValid(db: Db, viewer: Id, pk: Id, now: Time)
    requires Valid(db)
    ensures Valid(LikePost(db, viewer, pk, now).db)
  {
    var p := Find(db.posts, PostWithId(pk));
    var v := Find(db.profiles, UserIs(viewer));
    if p.Some? && v.Some? {
      LikedValid(db, p.value, PostLike(db.nextId, db.profiles[v.value].id, pk, now), now);
    }
  }

  /**
   * `unlike_post` succeeds exactly when the post and the viewer's profile
   * exist and the profile has exactly one like row on the post; with none
   * it raises `DoesNotExist`, with several `MultipleObjectsReturned`, and
   * the store is unchanged. On success that one row is deleted, the post's
   * `total_likes` drops by one and the profile no longer likes the post.
   */
  lemma UnlikePostEffect(db: Db, viewer: Id, pk: Id, now: Time)
    ensures var h := UnlikePost(db, viewer, pk, now);
      var p := Find(db.posts, PostWithId(pk));
      var v := Find(db.profiles, UserIs(viewer));
      var n := if v.Some? then |Filter(db.likes, LikeOf(pk, db.profiles[v.value].id))| else 0;
      && (h.outcome == Done <==> p.Some? && v.Some? && n == 1)
      && (h.outcome == MultipleObjectsReturned <==> p.Some? && v.Some? && n > 1)
      && (h.outcome != Done ==> h.outcome in {DoesNotExist, MultipleObjectsReturned} && h.db == db)
      && (h.outcome == Done ==>
            var gone := db.likes[Find(db.likes, LikeOf(pk, db.profiles[v.value].id)).value];
            && gone.post == pk && gone.user == db.profiles[v.value].id
            && multiset(h.db.likes) == multiset(db.likes) - multiset{gone}
            && Filter(h.db.likes, LikeOf(pk, db.profiles[v.value].id)) == []
            && LikesOn(h.db.likes, pk) == LikesOn(db.likes, pk) - 1
            && |h.db.posts| == |db.posts|
            && h.db.posts[p.value].totalLikes == db.posts[p.value].totalLikes - 1
            && h.db.posts[p.value].updatedAt == now
            && h.db.posts[p.value].(totalLikes := db.posts[p.value].totalLikes, updatedAt := db.posts[p.value].updatedAt) == db.posts[p.value]
            && (forall i :: 0 <= i < |db.posts| && i != p.value ==> h.db.posts[i] == db.posts[i])
            && h.db.(posts := db.posts, likes := db.likes) == db)
  {
    var h := UnlikePost(db, viewer, pk, now);
    var v := Find(db.profiles, UserIs(viewer));
    if v.Some? {
      var mine := LikeOf(pk, db.profiles[v.value].id);
      var l := Find(db.likes, mine);
      if l.None? {
        FilterNone(db.likes, mine);
      } else {
        FilterMembers(db.likes, mine);
        assert db.likes[l.value] in Filter(db.likes, mine);
        if h.outcome == Done {
          var j := Find(db.posts, PostWithId(pk)).value;
          assert h.db == Unliked(db, j, l.value, now);
          UnlikedEffect(db, j, l.value, now, pk, db.profiles[v.value].id);
        }
      }
    }
  }

  /**
   * Deleting the like row at index `k`, the only one of profile `u` on post
   * `pk`, and uncounting it on the post at index `j`.
   */
  lemma UnlikedEffect(db: Db, j: nat, k: nat, now: Time, pk: Id, u: Id)
    requires j < |db.posts| && k < |db.likes|
    requires LikeOf(pk, u)(db.likes[k]) && |Filter(db.likes, LikeOf(pk, u))| == 1
    ensures var d := Unliked(db, j, k, now);
      && multiset(d.likes) == multiset(db.likes) - multiset{db.likes[k]}
      && Filter(d.likes, LikeOf(pk, u)) == []
      && LikesOn(d.likes, pk) == LikesOn(db.likes, pk) - 1
      && |d.posts| == |db.posts|
      && d.posts[j].totalLikes == db.posts[j].totalLikes - 1
      && d.posts[j].updatedAt == now
      && d.posts[j].(totalLikes := db.posts[j].totalLikes, updatedAt := db.posts[j].updatedAt) == db.posts[j]
      && (forall i :: 0 <= i < |db.posts| && i != j ==> d.posts[i] == db.posts[i])
      && d.(posts := db.posts, likes := db.likes) == db
  {
    MultisetRemoveAt(db.likes, k);
    FilterRemoveAt(db.likes, k, LikeOf(pk, u));
    FilterRemoveAt(db.likes, k, LikeOn(pk));
  }

  /** Removing one like of post `j` and uncounting it keeps the invariant. */
  lemma UnlikedValid(db: Db, j: nat, k: nat, now: Time)
    requires Valid(db) && j < |db.posts| && k < |db.likes| && db.likes[k].post == db.posts[j].id
    ensures Valid(Unliked(db, j, k, now))
  {
    var d := Unliked(db, j, k, now);
    UnlikedRows(db, j, k, now);
    UnlikedLinks(db, j, k, now);
    UnlikedCounts(db, j, k, now);
    assert GeoOf(d) == GeoOf(db) && TaggingOf(d) == TaggingOf(db);
  }

  lemma UnlikedRows(db: Db, j: nat, k: nat, now: Time)
    requires RowsValid(db.posts, db.likes, db.comments, db.nextId) && j < |db.posts| && k < |db.likes|
    ensures var d := Unliked(db, j, k, now); RowsValid(d.posts, d.likes, d.comments, d.nextId)
  {
    var d := Unliked(db, j, k, now);
    UniqueByUpdate(db.posts, j, d.posts[j], PostId);
    UniqueByRemoveAt(db.likes, k, LikeId);
    forall i | 0 <= i < |d.likes| ensures d.likes[i].id < d.nextId {
      assert d.likes[i] == db.likes[if i < k then i else i + 1];
    }
  }

  lemma UnlikedLinks(db: Db, j: nat, k: nat, now: Time)
    requires LinksValid(db.posts, db.likes, db.comments) && j < |db.posts| && k < |db.likes|
    ensures var d := Unliked(db, j, k, now); LinksValid(d.posts, d.likes, d.comments)
  {
    var d := Unliked(db, j, k, now);
    forall q ensures Find(d.posts, PostWithId(q)) == Find(db.posts, PostWithId(q)) {
      FindUpdate(db.posts, j, d.posts[j], PostWithId(q));
    }
    forall i | 0 <= i < |d.likes| ensures Find(d.posts, PostWithId(d.likes[i].post)).Some? {
      assert d.likes[i] == db.likes[if i < k then i else i + 1];
    }
  }

  lemma UnlikedCounts(db: Db, j: nat, k: nat, now: Time)
    requires CountsValid(db.posts, db.likes, db.comments) && UniqueBy(db.posts, PostId)
    requires j < |db.posts| && k < |db.likes| && db.likes[k].post == db.posts[j].id
    ensures var d := Unliked(db, j, k, now); CountsValid(d.posts, d.likes, d.comments)
  {
    var d := Unliked(db, j, k, now);
    OtherPostIds(db.posts, j);
    forall i | 0 <= i < |d.posts| ensures d.posts[i].totalLikes == LikesOn(d.likes, d.posts[i].id) {
      FilterRemoveAt(db.likes, k, LikeOn(db.posts[i].id));
    }
  }

  lemma UnlikePostValid(db: Db, viewer: Id, pk: Id, now: Time)
    requires Valid(db)
    ensures Valid(UnlikePost(db, viewer, pk, now).db)
  {
    var h := UnlikePost(db, viewer, pk, now);
    if h.outcome == Done {
      var j := Find(db.posts, PostWithId(pk)).value;
      var v := Find(db.profiles, UserIs(viewer)).value;
      var k := Find(db.likes, LikeOf(pk, db.profiles[v].id)).value;
      UnlikedValid(db, j, k, now);
    }
  }

  /**
   * Liking a post the viewer has not liked and then unliking it restores
   * the likes and the post's counter; what remains is the post's refreshed
   * `updated_at` and one id used up.
   */
  lemma LikeThenUnlike(db: Db, viewer: Id, pk: Id, now: Time, later: Time)
    requires var v := Find(db.profiles, UserIs(viewer));
      v.Some? ==> Find(db.likes, LikeOf(pk, db.profiles[v.value].id)).None?
    ensures var h1 := LikePost(db, viewer, pk, now);
      var h2 := UnlikePost(h1.db, viewer, pk, later);
      var p := Find(db.posts, PostWithId(pk));
      h1.outcome == Done ==>
        && h2.outcome == Done
        && h2.db == db.(posts := db.posts[p.value := db.posts[p.value].(updatedAt := later)], nextId := db.nextId + 1)
  {
    var h1 := LikePost(db, viewer, pk, now);
    if h1.outcome == Done {
      var j := Find(db.posts, PostWithId(pk)).value;
      var v := Find(db.profiles, UserIs(viewer)).value;
      var mine := LikeOf(pk, db.profiles[v].id);
      var l := PostLike(db.nextId, db.profiles[v].id, pk, now);
      assert h1.db == Liked(db, j, l, now);
      FindUpdate(db.posts, j, h1.db.posts[j], PostWithId(pk));
      FilterNone(db.likes, mine);
      FilterAppend(db.likes, [l], mine);
      assert [l][1..] == [];
      FindAppendOne(db.likes, l, mine);
      assert RemoveAt(db.likes + [l], |db.likes|) == db.likes;
      assert h1.db.profiles == db.profiles;
      assert Find(h1.db.posts, PostWithId(pk)) == Some(j);
      assert Find(h1.db.likes, mine) == Some(|db.likes|);
      assert |Filter(h1.db.likes, mine)| == 1;
      assert UnlikePost(h1.db, viewer, pk, later).db == Unliked(h1.db, j, |db.likes|, later);
    }
  }

  /**
   * Nothing stops a second like by the same profile, and after two likes
   * `unlike_post` fails with `MultipleObjectsReturned`: the post can no
   * longer be unliked.
   */
  lemma DoubleLikeBlocksUnlike(db: Db, viewer: Id, pk: Id, t1: Time, t2: Time, t3: Time)
    ensures var h1 := LikePost(db, viewer, pk, t1);
      var h2 := LikePost(h1.db, viewer, pk, t2);
      h1.outcome == Done ==>
        && h2.outcome == Done
        && UnlikePost(h2.db, viewer, pk, t3).outcome == MultipleObjectsReturned
  {
    var h1 := LikePost(db, viewer, pk, t1);
    if h1.outcome == Done {
      var j := Find(db.posts, PostWithId(pk)).value;
      var v := Find(db.profiles, UserIs(viewer)).value;
      var mine := LikeOf(pk, db.profiles[v].id);
      var l1 := PostLike(db.nextId, db.profiles[v].id, pk, t1);
      assert h1.db == Liked(db, j, l1, t1);
      FindUpdate(db.posts, j, h1.db.posts[j], PostWithId(pk));
      var l2 := PostLike(db.nextId + 1, db.profiles[v].id, pk, t2);
      var h2 := LikePost(h1.db, viewer, pk, t2);
      assert h2.db == Liked(h1.db, j, l2, t2);
      FindUpdate(h1.db.posts, j, h2.db.posts[j], PostWithId(pk));
      FilterAppend(db.likes, [l1], mine);
      FilterAppend(db.likes + [l1], [l2], mine);
      assert [l1][1..] == [] && [l2][1..] == [];
      if Find(db.likes, mine).None? {
        FindAppendOne(db.likes, l1, mine);
      } else {
        FindAppendFound(db.likes, [l1], mine);
      }
      FindAppendFound(db.likes + [l1], [l2], mine);
      assert h2.db.profiles == db.profiles && h2.db.likes == db.likes + [l1] + [l2];
      assert Find(h2.db.posts, PostWithId(pk)) == Some(j);
      assert Find(h2.db.likes, mine).Some?;
      assert |Filter(h2.db.likes, mine)| > 1;
    }
  }

  // ------------------------------------------------------------ comments

  lemma CommentedRows(db: Db, j: nat, c: Comment, now: Time)
    requires RowsValid(db.posts, db.likes, db.comments, db.nextId) && j < |db.posts| && c.id == db.nextId
    ensures var d := Commented(db, j, c, now); RowsValid(d.posts, d.likes, d.comments, d.nextId)
  {
    var d := Commented(db, j, c, now);
    UniqueByUpdate(db.posts, j, d.posts[j], PostId);
    UniqueByAppend(db.comments, c, CommentId);
  }

  lemma CommentedLinks(db: Db, j: nat, c: Comment, now: Time)
    requires LinksValid(db.posts, db.likes, db.comments) && j < |db.posts| && c.post == db.posts[j].id
    ensures var d := Commented(db, j, c, now); LinksValid(d.posts, d.likes, d.comments)
  {
    var d := Commented(db, j, c, now);
    forall q ensures Find(d.posts, PostWithId(q)) == Find(db.posts, PostWithId(q)) {
      FindUpdate(db.posts, j, d.posts[j], PostWithId(q));
    }
    forall i | 0 <= i < |d.comments| ensures Find(d.posts, PostWithId(d.comments[i].post)).Some? {
      if i < |db.comments| {
        assert d.comments[i] == db.comments[i];
      } else {
        assert d.comments[i] == c;
      }
    }
  }

  lemma CommentedCounts(db: Db, j: nat, c: Comment, now: Time)
    requires CountsValid(db.posts, db.likes, db.comments) && UniqueBy(db.posts, PostId)
    requires j < |db.posts| && c.post == db.posts[j].id
    ensures var d := Commented(db, j, c, now); CountsValid(d.posts, d.likes, d.comments)
  {
    var d := Commented(db, j, c, now);
    OtherPostIds(db.posts, j);
    forall i | 0 <= i < |d.posts| ensures d.posts[i].totalComments == CommentsOn(d.comments, d.posts[i].id) {
      CommentsOnAppend(db.comments, c, db.posts[i].id);
    }
  }

  /**
   * Inserting a fresh comment on the post at index `j` (a reply only to a
   * comment on that same post) and counting it keeps the invariant.
   */
  lemma CommentedValid(db: Db, j: nat, c: Comment, now: Time)
    requires Valid(db) && j < |db.posts| && c.post == db.posts[j].id && c.id == db.nextId
    requires ReplyOk(db.comments, c)
    ensures Valid(Commented(db, j, c, now))
  {
    var d := Commented(db, j, c, now);
    Grown(db, d.nextId);
    assert GeoOf(d) == GeoOf(db.(nextId := d.nextId));
    assert TaggingOf(d) == TaggingOf(db.(nextId := d.nextId));
    CommentedRows(db, j, c, now);
    CommentedLinks(db, j, c, now);
    CommentedCounts(db, j, c, now);
    RepliesAppend(db.comments, c);
  }

  /**
   * `comment_post` succeeds exactly when the post and the viewer's profile
   * exist; it inserts one top-level comment by the viewer on the post and
   * raises the post's `total_comments` by one.
   */
  lemma CommentPostEffect(db: Db, viewer: Id, pk: Id, message: string, now: Time)
    ensures var h := CommentPost(db, viewer, pk, message, now);
      var p := Find(db.posts, PostWithId(pk));
      var v := Find(db.profiles, UserIs(viewer));
      && (h.outcome == Done <==> p.Some? && v.Some?)
      && (h.outcome != Done ==> h.outcome == DoesNotExist && h.db == db)
      && (h.outcome == Done ==>
            && h.db.comments == db.comments + [Comment(db.nextId, db.profiles[v.value].id, pk, None, message, now)]
            && CommentsOn(h.db.comments, pk) == CommentsOn(db.comments, pk) + 1
            && |h.db.posts| == |db.posts|
            && h.db.posts[p.value].totalComments == db.posts[p.value].totalComments + 1
            && h.db.posts[p.value].updatedAt == now
            && h.db.posts[p.value].(totalComments := db.posts[p.value].totalComments, updatedAt := db.posts[p.value].updatedAt) == db.posts[p.value]
            && (forall i :: 0 <= i < |db.posts| && i != p.value ==> h.db.posts[i] == db.posts[i])
            && h.db.(posts := db.posts, comments := db.comments, nextId := db.nextId) == db)
  {
    var h := CommentPost(db, viewer, pk, message, now);
    if h.outcome == Done {
      var v := Find(db.profiles, UserIs(viewer)).value;
      CommentsOnAppend(db.comments, Comment(db.nextId, db.profiles[v].id, pk, None, message, now), pk);
    }
  }

  lemma CommentPostValid(db: Db, viewer: Id, pk: Id, message: string, now: Time)
    requires Valid(db)
    ensures Valid(CommentPost(db, viewer, pk, message, now).db)
  {
    var p := Find(db.posts, PostWithId(pk));
    var v := Find(db.profiles, UserIs(viewer));
    if p.Some? && v.Some? {
      CommentedValid(db, p.value, Comment(db.nextId, db.profiles[v.value].id, pk, None, message, now), now);
    }
  }

  /**
   * `reply_comment` succeeds exactly when the comment, its post and the
   * viewer's profile exist; the reply goes on the parent's post with the
   * parent recorded, and that post's `total_comments` rises by one.
   */
  lemma ReplyCommentEffect(db: Db, viewer: Id, pk: Id, message: string, now: Time)
    ensures var h := ReplyComment(db, viewer, pk, message, now);
      var c := Find(db.comments, CommentWithId(pk));
      var v := Find(db.profiles, UserIs(viewer));
      var p := if c.Some? then Find(db.posts, PostWithId(db.comments[c.value].post)) else None;
      && (h.outcome == Done <==> c.Some? && p.Some? && v.Some?)
      && (h.outcome != Done ==> h.outcome == DoesNotExist && h.db == db)
      && (h.outcome == Done ==>
            var post := db.comments[c.value].post;
            && h.db.comments == db.comments + [Comment(db.nextId, db.profiles[v.value].id, post, Some(pk), message, now)]
            && CommentsOn(h.db.comments, post) == CommentsOn(db.comments, post) + 1
            && |h.db.posts| == |db.posts|
            && h.db.posts[p.value].id == post
            && h.db.posts[p.value].totalComments == db.posts[p.value].totalComments + 1
            && h.db.posts[p.value].updatedAt == now
            && h.db.posts[p.value].(totalComments := db.posts[p.value].totalComments, updatedAt := db.posts[p.value].updatedAt) == db.posts[p.value]
            && (forall i :: 0 <= i < |db.posts| && i != p.value ==> h.db.posts[i] == db.posts[i])
            && h.db.(posts := db.posts, comments := db.comments, nextId := db.nextId) == db)
  {
    var h := ReplyComment(db, viewer, pk, message, now);
    if h.outcome == Done {
      var c := Find(db.comments, CommentWithId(pk)).value;
      var v := Find(db.profiles, UserIs(viewer)).value;
      var post := db.comments[c].post;
      CommentsOnAppend(db.comments, Comment(db.nextId, db.profiles[v].id, post, Some(pk), message, now), post);
    }
  }

  lemma ReplyCommentValid(db: Db, viewer: Id, pk: Id, message: string, now: Time)
    requires Valid(db)
    ensures Valid(ReplyComment(db, viewer, pk, message, now).db)
  {
    var h := ReplyComment(db, viewer, pk, message, now);
    if h.outcome == Done {
      var c := Find(db.comments, CommentWithId(pk)).value;
      var post := db.comments[c].post;
      var p := Find(db.posts, PostWithId(post)).value;
      var v := Find(db.profiles, UserIs(viewer)).value;
      CommentedValid(db, p, Comment(db.nextId, db.profiles[v].id, post, Some(pk), message, now), now);
    }
  }

  // ------------------------------------------------------------ share, publish

  /** Rewriting post `j` with the same id and counters keeps the invariant. */
  lemma TouchedValid(db: Db, j: nat, x: Post)
    requires Valid(db) && j < |db.posts|
    requires x.id == db.posts[j].id && x.totalLikes == db.posts[j].totalLikes && x.totalComments == db.posts[j].totalComments
    ensures Valid(Saved(db, j, x))
  {
    var d := Saved(db, j, x);
    PostUpdated(db.posts, j, x);
    assert RowsValid(d.posts, d.likes, d.comments, d.nextId) by {
      forall i | 0 <= i < |d.posts| ensures d.posts[i].id < d.nextId {
        assert d.posts[i].id == db.posts[i].id;
      }
    }
    assert LinksValid(d.posts, d.likes, d.comments);
    assert CountsValid(d.posts, d.likes, d.comments) by {
      forall i | 0 <= i < |d.posts|
        ensures d.posts[i].totalLikes == LikesOn(d.likes, d.posts[i].id)
        ensures d.posts[i].totalComments == CommentsOn(d.comments, d.posts[i].id)
      {
        assert d.posts[i].id == db.posts[i].id;
      }
    }
    assert GeoOf(d) == GeoOf(db) && TaggingOf(d) == TaggingOf(db);
  }

  /**
   * `share_post` succeeds exactly when the post exists and changes only its
   * `total_shares` (one more) and `updated_at`; no row is added or removed.
   */
  lemma SharePostEffect(db: Db, pk: Id, now: Time)
    ensures var h := SharePost(db, pk, now);
      var p := Find(db.posts, PostWithId(pk));
      && (h.outcome == Done <==> p.Some?)
      && (h.outcome != Done ==> h.outcome == DoesNotExist && h.db == db)
      && (h.outcome == Done ==>
            && |h.db.posts| == |db.posts|
            && h.db.posts[p.value].totalShares == db.posts[p.value].totalShares + 1
            && h.db.posts[p.value].updatedAt == now
            && h.db.posts[p.value].(totalShares := db.posts[p.value].totalShares, updatedAt := db.posts[p.value].updatedAt) == db.posts[p.value]
            && (forall i :: 0 <= i < |db.posts| && i != p.value ==> h.db.posts[i] == db.posts[i])
            && h.db.(posts := db.posts) == db)
  {
  }

  /** A shared post keeps its id and counters. */
  lemma SharedIsSaved(db: Db, pk: Id, now: Time) returns (j: nat, x: Post)
    requires SharePost(db, pk, now).outcome == Done
    ensures j < |db.posts| && SharePost(db, pk, now).db == Saved(db, j, x)
    ensures x.id == db.posts[j].id && x.totalLikes == db.posts[j].totalLikes && x.totalComments == db.posts[j].totalComments
  {
    j := Find(db.posts, PostWithId(pk)).value;
    x := db.posts[j].(totalShares := db.posts[j].totalShares + 1, updatedAt := now);
  }

  lemma SharePostValid(db: Db, pk: Id, now: Time)
    requires Valid(db)
    ensures Valid(SharePost(db, pk, now).db)
  {
    if SharePost(db, pk, now).outcome == Done {
      var j, x := SharedIsSaved(db, pk, now);
      TouchedValid(db, j, x);
    }
  }

  /**
   * `publish_post` succeeds exactly when the post exists, marks it published
   * and refreshes its `updated_at`; publishing twice is publishing once,
   * apart from the later timestamp.
   */
  lemma PublishPostEffect(db: Db, pk: Id, now: Time, later: Time)
    ensures var h := PublishPost(db, pk, now);
      var p := Find(db.posts, PostWithId(pk));
      && (h.outcome == Done <==> p.Some?)
      && (h.outcome != Done ==> h.outcome == DoesNotExist && h.db == db)
      && (h.outcome == Done ==>
            && |h.db.posts| == |db.posts|
            && h.db.posts[p.value].isPublished
            && h.db.posts[p.value].updatedAt == now
            && h.db.posts[p.value].(isPublished := db.posts[p.value].isPublished, updatedAt := db.posts[p.value].updatedAt) == db.posts[p.value]
            && (forall i :: 0 <= i < |db.posts| && i != p.value ==> h.db.posts[i] == db.posts[i])
            && h.db.(posts := db.posts) == db
            && PublishPost(h.db, pk, later) == PublishPost(db, pk, later))
  {
    var p := Find(db.posts, PostWithId(pk));
    if p.Some? {
      var post := db.posts[p.value];
      var x := post.(isPublished := true, updatedAt := now);
      FindUpdate(db.posts, p.value, x, PostWithId(pk));
      assert db.posts[p.value := x][p.value := x.(updatedAt := later)] == db.posts[p.value := post.(isPublished := true, updatedAt := later)];
    }
  }

  /** A published post keeps its id and counters. */
  lemma PublishedIsSaved(db: Db, pk: Id, now: Time) returns (j: nat, x: Post)
    requires PublishPost(db, pk, now).outcome == Done
    ensures j < |db.posts| && PublishPost(db, pk, now).db == Saved(db, j, x)
    ensures x.id == db.posts[j].id && x.totalLikes == db.posts[j].totalLikes && x.totalComments == db.posts[j].totalComments
  {
    j := Find(db.posts, PostWithId(pk)).value;
    x := db.posts[j].(isPublished := true, updatedAt := now);
  }

  lemma PublishPostValid(db: Db, pk: Id, now: Time)
    requires Valid(db)
    ensures Valid(PublishPost(db, pk, now).db)
  {
    if PublishPost(db, pk, now).outcome == Done {
      var j, x := PublishedIsSaved(db, pk, now);
      TouchedValid(db, j, x);
    }
  }

  // ------------------------------------------------------------ deletes

  /**
   * `delete_post` succeeds exactly when the post exists. It removes that
   * post and exactly its likes, comments and location reviews: every other
   * row stays, in order, and nothing of the deleted post remains.
   */
  lemma DeletePostEffect(db: Db, pk: Id)
    ensures var h := DeletePost(db, pk);
      && (h.outcome == Done <==> Find(db.posts, PostWithId(pk)).Some?)
      && (h.outcome != Done ==> h.outcome == DoesNotExist && h.db == db)
      && (h.outcome == Done ==>
            && (forall x :: x in h.db.posts <==> x in db.posts && x.id != pk)
            && (forall l :: l in h.db.likes <==> l in db.likes && l.post != pk)
            && (forall c :: c in h.db.comments <==> c in db.comments && c.post != pk)
            && (forall r :: r in h.db.reviews <==> r in db.reviews && r.post != pk)
            && h.db.(posts := db.posts, likes := db.likes, comments := db.comments, reviews := db.reviews) == db)
  {
    FilterMembers(db.posts, NotPost(pk));
    FilterMembers(db.likes, NotLikeOn(pk));
    FilterMembers(db.comments, NotCommentOn(pk));
    FilterMembers(db.reviews, NotReviewOn(pk));
  }

  /** A row that a filter keeps and that alone satisfies `p` is still the row found by `p`. */
  lemma FoundAfterFilter<T>(s: seq<T>, q: T -> bool, p: T -> bool, k: nat)
    requires k < |s| && q(s[k]) && p(s[k])
    requires forall m :: 0 <= m < |s| && p(s[m]) ==> m == k
    ensures var f := Find(Filter(s, q), p);
      f.Some? && Filter(s, q)[f.value] == s[k]
  {
    FilterKeepsFound(s, q, p, k);
    FilterMembers(s, q);
    var f := Find(Filter(s, q), p).value;
    var m :| 0 <= m < |s| && s[m] == Filter(s, q)[f];
  }

  /** The cascade of `delete_post` on the comments keeps every reply's parent. */
  lemma RepliesAfterDelete(comments: seq<Comment>, pk: Id)
    requires RepliesValid(comments) && UniqueBy(comments, CommentId)
    ensures RepliesValid(Filter(comments, NotCommentOn(pk)))
  {
    var d := Filter(comments, NotCommentOn(pk));
    FilterMembers(comments, NotCommentOn(pk));
    forall i | 0 <= i < |d| ensures ReplyOk(d, d[i]) {
      if d[i].parent.Some? {
        var m :| 0 <= m < |comments| && comments[m] == d[i];
        assert ReplyOk(comments, comments[m]);
        var parent := CommentWithId(d[i].parent.value);
        var k := Find(comments, parent).value;
        forall m' | 0 <= m' < |comments| && parent(comments[m']) ensures m' == k {
          assert CommentId(comments[m']) == CommentId(comments[k]);
        }
        FoundAfterFilter(comments, NotCommentOn(pk), parent, k);
      }
    }
  }

  lemma DeletedRows(posts: seq<Post>, likes: seq<PostLike>, comments: seq<Comment>, n: Id, pk: Id)
    requires RowsValid(posts, likes, comments, n)
    ensures RowsValid(Filter(posts, NotPost(pk)), Filter(likes, NotLikeOn(pk)), Filter(comments, NotCommentOn(pk)), n)
  {
    FilterMembers(posts, NotPost(pk));
    FilterMembers(likes, NotLikeOn(pk));
    FilterMembers(comments, NotCommentOn(pk));
    UniqueByFilter(posts, NotPost(pk), PostId);
    UniqueByFilter(likes, NotLikeOn(pk), LikeId);
    UniqueByFilter(comments, NotCommentOn(pk), CommentId);
  }

  lemma DeletedLinks(posts: seq<Post>, likes: seq<PostLike>, comments: seq<Comment>, pk: Id)
    requires LinksValid(posts, likes, comments)
    ensures LinksValid(Filter(posts, NotPost(pk)), Filter(likes, NotLikeOn(pk)), Filter(comments, NotCommentOn(pk)))
  {
    var ps, ls, cs := Filter(posts, NotPost(pk)), Filter(likes, NotLikeOn(pk)), Filter(comments, NotCommentOn(pk));
    FilterMembers(likes, NotLikeOn(pk));
    FilterMembers(comments, NotCommentOn(pk));
    forall i | 0 <= i < |ls| ensures Find(ps, PostWithId(ls[i].post)).Some? {
      var m :| 0 <= m < |likes| && likes[m] == ls[i];
      var k := Find(posts, PostWithId(likes[m].post)).value;
      FilterKeepsFound(posts, NotPost(pk), PostWithId(likes[m].post), k);
    }
    forall i | 0 <= i < |cs| ensures Find(ps, PostWithId(cs[i].post)).Some? {
      var m :| 0 <= m < |comments| && comments[m] == cs[i];
      var k := Find(posts, PostWithId(comments[m].post)).value;
      FilterKeepsFound(posts, NotPost(pk), PostWithId(comments[m].post), k);
    }
  }

  lemma DeletedCounts(posts: seq<Post>, likes: seq<PostLike>, comments: seq<Comment>, pk: Id)
    requires CountsValid(posts, likes, comments)
    ensures CountsValid(Filter(posts, NotPost(pk)), Filter(likes, NotLikeOn(pk)), Filter(comments, NotCommentOn(pk)))
  {
    var ps := Filter(posts, NotPost(pk));
    FilterMembers(posts, NotPost(pk));
    forall i | 0 <= i < |ps|
      ensures ps[i].totalLikes == LikesOn(Filter(likes, NotLikeOn(pk)), ps[i].id)
      ensures ps[i].totalComments == CommentsOn(Filter(comments, NotCommentOn(pk)), ps[i].id)
    {
      var q := ps[i].id;
      var m :| 0 <= m < |posts| && posts[m] == ps[i];
      FilterOfFilter(likes, LikeOn(q), NotLikeOn(pk));
      FilterOfFilter(comments, CommentOn(q), NotCommentOn(pk));
    }
  }

  lemma DeletedGeo(g: Geo, pk: Id)
    requires GeoValid(g)
    ensures GeoValid(g.(reviews := Filter(g.reviews, NotReviewOn(pk))))
  {
    FilterMembers(g.reviews, NotReviewOn(pk));
    UniqueByFilter(g.reviews, NotReviewOn(pk), ReviewId);
    UniqueByFilter(g.reviews, NotReviewOn(pk), ReviewPair);
  }

  /** Deleting a post keeps the invariant: the cascade leaves no like, comment or reply without what it points at. */
  lemma DeletePostValid(db: Db, pk: Id)
    requires Valid(db)
    ensures Valid(DeletePost(db, pk).db)
  {
    var h := DeletePost(db, pk);
    if h.outcome == Done {
      DeletedRows(db.posts, db.likes, db.comments, db.nextId, pk);
      DeletedLinks(db.posts, db.likes, db.comments, pk);
      DeletedCounts(db.posts, db.likes, db.comments, pk);
      DeletedGeo(GeoOf(db), pk);
      assert GeoOf(h.db) == GeoOf(db).(reviews := Filter(db.reviews, NotReviewOn(pk)));
      RepliesAfterDelete(db.comments, pk);
    }
  }

  /**
   * Deleting a location removes it, exactly its reviews, and every
   * profile's follow of it; every other row and follow stays.
   */
  lemma DeleteLocationEffect(db: Db, pk: Id)
    ensures var h := DeleteLocation(db, pk);
      && (h.outcome == Done <==> Find(db.locations, LocationWithId(pk)).Some?)
      && (h.outcome != Done ==> h.outcome == DoesNotExist && h.db == db)
      && (h.outcome == Done ==>
            && (forall l :: l in h.db.locations <==> l in db.locations && l.id != pk)
            && (forall r :: r in h.db.reviews <==> r in db.reviews && r.location != pk)
            && |h.db.profiles| == |db.profiles|
            && (forall i :: 0 <= i < |db.profiles| ==>
                  && pk !in h.db.profiles[i].locationsFollowing
                  && h.db.profiles[i].locationsFollowing + {pk} == db.profiles[i].locationsFollowing + {pk}
                  && h.db.profiles[i].(locationsFollowing := db.profiles[i].locationsFollowing) == db.profiles[i])
            && h.db.(locations := db.locations, reviews := db.reviews, profiles := db.profiles) == db)
  {
    FilterMembers(db.locations, NotLocation(pk));
    FilterMembers(db.reviews, NotReviewAt(pk));
  }

  /** Deleting a location keeps the invariant: the cascade leaves no review without its location. */
  lemma DeleteLocationValid(db: Db, pk: Id)
    requires Valid(db)
    ensures Valid(DeleteLocation(db, pk).db)
  {
    var h := DeleteLocation(db, pk);
    if h.outcome == Done {
      var d := h.db;
      SameProfileKeys(db.profiles, d.profiles);
      FilterMembers(db.locations, NotLocation(pk));
      FilterMembers(db.reviews, NotReviewAt(pk));
      UniqueByFilter(db.locations, NotLocation(pk), LocationId);
      UniqueByFilter(db.locations, NotLocation(pk), LocationName);
      UniqueByFilter(db.reviews, NotReviewAt(pk), ReviewId);
      UniqueByFilter(db.reviews, NotReviewAt(pk), ReviewPair);
      forall i | 0 <= i < |d.reviews| ensures Find(d.locations, LocationWithId(d.reviews[i].location)).Some? {
        var m :| 0 <= m < |db.reviews| && db.reviews[m] == d.reviews[i];
        var k := Find(db.locations, LocationWithId(db.reviews[m].location)).value;
        FilterKeepsFound(db.locations, NotLocation(pk), LocationWithId(db.reviews[m].location), k);
      }
    }
  }
}
