/**
 * The activity merge of blog/views.py: a profile's likes, comments and
 * authored posts chained together (in that order) and sorted newest first by
 * `created_at` with Python's stable sort (`get_user_activities_sorted`), and
 * the same merge over every followed profile (`get_newsfeed_sorted`).
 */
module Activity {
  import opened Models
  import opened Sorting

  /** One row of the merged list: a like, a comment or an authored post. */
  datatype Activity = Liked(like: PostLike) | Commented(comment: Comment) | Authored(post: Post)

  function CreatedAt(a: Activity): int
  {
    match a
    case Liked(l) => l.createdAt
    case Commented(c) => c.createdAt
    case Authored(p) => p.createdAt
  }

  /** The profile that performed the activity: the liker, the commenter, the author. */
  function Actor(a: Activity): Id
  {
    match a
    case Liked(l) => l.user
    case Commented(c) => c.user
    case Authored(p) => p.author
  }

  /** A queryset's rows as timeline entries, in the same order. */
  function AsLiked(s: seq<PostLike>): seq<Activity>
  {
    seq(|s|, i requires 0 <= i < |s| => Liked(s[i]))
  }

  function AsCommented(s: seq<Comment>): seq<Activity>
  {
    seq(|s|, i requires 0 <= i < |s| => Commented(s[i]))
  }

  function AsAuthored(s: seq<Post>): seq<Activity>
  {
    seq(|s|, i requires 0 <= i < |s| => Authored(s[i]))
  }

  function LikerIn(actors: set<Id>): PostLike -> bool { (l: PostLike) => l.user in actors }
  function CommenterIn(actors: set<Id>): Comment -> bool { (c: Comment) => c.user in actors }
  function AuthorIn(actors: set<Id>): Post -> bool { (p: Post) => p.author in actors }

  /** `PostLike.objects.filter(user__in=actors)`, rows in table order. */
  function LikesBy(likes: seq<PostLike>, actors: set<Id>): seq<PostLike>
  {
    Filter(likes, LikerIn(actors))
  }

  /** `Comment.objects.filter(user__in=actors)`, rows in table order. */
  function CommentsBy(comments: seq<Comment>, actors: set<Id>): seq<Comment>
  {
    Filter(comments, CommenterIn(actors))
  }

  /** `Post.objects.filter(author__in=actors)`, rows in table order. */
  function PostsBy(posts: seq<Post>, actors: set<Id>): seq<Post>
  {
    Filter(posts, AuthorIn(actors))
  }

  /**
   * The three querysets chained in the order the views chain them, each in
   * its model's default order (`-created_at`; rows with equal timestamps in
   * table order).
   */
  function Chained(likes: seq<PostLike>, comments: seq<Comment>, posts: seq<Post>, actors: set<Id>): seq<Activity>
  {
    SortDesc(AsLiked(LikesBy(likes, actors)), CreatedAt)
    + SortDesc(AsCommented(CommentsBy(comments, actors)), CreatedAt)
    + SortDesc(AsAuthored(PostsBy(posts, actors)), CreatedAt)
  }

  /** `sorted(chain(likes, comments, posts), key=attrgetter('created_at'), reverse=True)`. */
  function ActivitiesOf(likes: seq<PostLike>, comments: seq<Comment>, posts: seq<Post>, actors: set<Id>): seq<Activity>
  {
    SortDesc(Chained(likes, comments, posts, actors), CreatedAt)
  }

  /** `get_user_activities_sorted(username)`: None when no profile has that username (`.get` raises). */
  function UserActivities(profiles: seq<Profile>, likes: seq<PostLike>, comments: seq<Comment>, posts: seq<Post>, username: string): (r: Option<seq<Activity>>)
    ensures r.None? <==> forall i :: 0 <= i < |profiles| ==> profiles[i].username != username
  {
    match Find(profiles, (p: Profile) => p.username == username)
    case None => None
    case Some(i) => Some(ActivitiesOf(likes, comments, posts, {profiles[i].id}))
  }

  /** `get_newsfeed_sorted(users_following)`. */
  function Newsfeed(likes: seq<PostLike>, comments: seq<Comment>, posts: seq<Post>, following: set<Id>): seq<Activity>
  {
    ActivitiesOf(likes, comments, posts, following)
  }

  /** The activities before sorting, straight from the table rows. */
  function Unsorted(likes: seq<PostLike>, comments: seq<Comment>, posts: seq<Post>, actors: set<Id>): seq<Activity>
  {
    AsLiked(LikesBy(likes, actors)) + AsCommented(CommentsBy(comments, actors)) + AsAuthored(PostsBy(posts, actors))
  }

  /**
   * The merged list is a rearrangement of the actors' likes, comments and
   * authored posts, with exactly one entry per row.
   */
  lemma ActivitiesArePermutation(likes: seq<PostLike>, comments: seq<Comment>, posts: seq<Post>, actors: set<Id>)
    ensures var r := ActivitiesOf(likes, comments, posts, actors);
      && multiset(r) == multiset(Unsorted(likes, comments, posts, actors))
      && |r| == |LikesBy(likes, actors)| + |CommentsBy(comments, actors)| + |PostsBy(posts, actors)|
  {
    var l := AsLiked(LikesBy(likes, actors));
    var c := AsCommented(CommentsBy(comments, actors));
    var p := AsAuthored(PostsBy(posts, actors));
    var r := ActivitiesOf(likes, comments, posts, actors);
    SortPermutes(Chained(likes, comments, posts, actors), CreatedAt);
    SortPermutes(l, CreatedAt);
    SortPermutes(c, CreatedAt);
    SortPermutes(p, CreatedAt);
    calc {
      multiset(r);
      multiset(SortDesc(l, CreatedAt) + SortDesc(c, CreatedAt) + SortDesc(p, CreatedAt));
      multiset(l) + multiset(c) + multiset(p);
      multiset(l + c + p);
    }
    assert |r| == |multiset(r)| == |multiset(l + c + p)| == |l + c + p|;
  }

  /** Newest first: `created_at` never increases along the merged list. */
  lemma ActivitiesNewestFirst(likes: seq<PostLike>, comments: seq<Comment>, posts: seq<Post>, actors: set<Id>)
    ensures var r := ActivitiesOf(likes, comments, posts, actors);
      forall i, j :: 0 <= i < j < |r| ==> CreatedAt(r[i]) >= CreatedAt(r[j])
  {
    SortSorted(Chained(likes, comments, posts, actors), CreatedAt);
  }

  /**
   * Entries with equal timestamps come likes first, then comments, then posts,
   * each kind in its table order: the sort is stable and the chain puts the
   * kinds in that order.
   */
  lemma ActivitiesTieOrder(likes: seq<PostLike>, comments: seq<Comment>, posts: seq<Post>, actors: set<Id>, t: int)
    ensures WithKey(ActivitiesOf(likes, comments, posts, actors), CreatedAt, t)
         == WithKey(AsLiked(LikesBy(likes, actors)), CreatedAt, t)
          + WithKey(AsCommented(CommentsBy(comments, actors)), CreatedAt, t)
          + WithKey(AsAuthored(PostsBy(posts, actors)), CreatedAt, t)
  {
    var l := AsLiked(LikesBy(likes, actors));
    var c := AsCommented(CommentsBy(comments, actors));
    var p := AsAuthored(PostsBy(posts, actors));
    var sl, sc, sp := SortDesc(l, CreatedAt), SortDesc(c, CreatedAt), SortDesc(p, CreatedAt);
    SortStable(sl + sc + sp, CreatedAt, t);
    WithKeyAppend(sl + sc, sp, CreatedAt, t);
    WithKeyAppend(sl, sc, CreatedAt, t);
    SortStable(l, CreatedAt, t);
    SortStable(c, CreatedAt, t);
    SortStable(p, CreatedAt, t);
  }

  /**
   * The per-kind default ordering of the querysets has no effect on the
   * result: the merged list is the stable sort of the rows as they stand in
   * the tables.
   */
  lemma MergeIgnoresQueryOrder(likes: seq<PostLike>, comments: seq<Comment>, posts: seq<Post>, actors: set<Id>)
    ensures ActivitiesOf(likes, comments, posts, actors) == SortDesc(Unsorted(likes, comments, posts, actors), CreatedAt)
  {
    var u := Unsorted(likes, comments, posts, actors);
    var l := AsLiked(LikesBy(likes, actors));
    var c := AsCommented(CommentsBy(comments, actors));
    var p := AsAuthored(PostsBy(posts, actors));
    SortSorted(Chained(likes, comments, posts, actors), CreatedAt);
    SortSorted(u, CreatedAt);
    forall t
      ensures WithKey(ActivitiesOf(likes, comments, posts, actors), CreatedAt, t) == WithKey(SortDesc(u, CreatedAt), CreatedAt, t)
    {
      ActivitiesTieOrder(likes, comments, posts, actors, t);
      SortStable(u, CreatedAt, t);
      WithKeyAppend(l + c, p, CreatedAt, t);
      WithKeyAppend(l, c, CreatedAt, t);
    }
    StableArrangementUnique(ActivitiesOf(likes, comments, posts, actors), SortDesc(u, CreatedAt), CreatedAt);
  }

  lemma UnsortedByActors(likes: seq<PostLike>, comments: seq<Comment>, posts: seq<Post>, actors: set<Id>)
    ensures var u := Unsorted(likes, comments, posts, actors);
      forall j :: 0 <= j < |u| ==> Actor(u[j]) in actors
  {
    var lb, cb, pb := LikesBy(likes, actors), CommentsBy(comments, actors), PostsBy(posts, actors);
    FilterPasses(likes, LikerIn(actors));
    FilterPasses(comments, CommenterIn(actors));
    FilterPasses(posts, AuthorIn(actors));
    var u := Unsorted(likes, comments, posts, actors);
    forall j | 0 <= j < |u| ensures Actor(u[j]) in actors {
      if j < |lb| {
        assert u[j] == Liked(lb[j]) && LikerIn(actors)(lb[j]);
      } else if j < |lb| + |cb| {
        assert u[j] == Commented(cb[j - |lb|]) && CommenterIn(actors)(cb[j - |lb|]);
      } else {
        assert u[j] == Authored(pb[j - |lb| - |cb|]) && AuthorIn(actors)(pb[j - |lb| - |cb|]);
      }
    }
  }

  /** Every merged entry was performed by one of the actors. */
  lemma ActivitiesByActors(likes: seq<PostLike>, comments: seq<Comment>, posts: seq<Post>, actors: set<Id>)
    ensures var r := ActivitiesOf(likes, comments, posts, actors);
      forall i :: 0 <= i < |r| ==> Actor(r[i]) in actors
  {
    var r := ActivitiesOf(likes, comments, posts, actors);
    var u := Unsorted(likes, comments, posts, actors);
    ActivitiesArePermutation(likes, comments, posts, actors);
    UnsortedByActors(likes, comments, posts, actors);
    forall i | 0 <= i < |r| ensures Actor(r[i]) in actors {
      assert r[i] in multiset(u);
    }
  }

  /** Following nobody gives an empty newsfeed, with no error. */
  lemma {:induction false} EmptyFollowingEmptyFeed(likes: seq<PostLike>, comments: seq<Comment>, posts: seq<Post>)
    ensures Newsfeed(likes, comments, posts, {}) == []
  {
    FilterNone(likes, LikerIn({}));
    FilterNone(comments, CommenterIn({}));
    FilterNone(posts, AuthorIn({}));
    assert AsLiked(LikesBy(likes, {})) == [];
    assert AsCommented(CommentsBy(comments, {})) == [];
    assert AsAuthored(PostsBy(posts, {})) == [];
    assert Chained(likes, comments, posts, {}) == [];
  }
}
