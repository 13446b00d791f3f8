/**
 * The read-side queries of blog/views.py beyond the activity merge: the
 * highlighted post and the location-update digest of `view_user`, the
 * candidates and random sample of recommended users, and the trending
 * locations and recent posts of `index`.
 */
module Feed {
  import opened Models
  import opened Sorting

  // ---------------------------------------------------------------- highlight

  /**
   * `a` comes strictly before `b` under
   * `order_by('-created_at', '-total_likes', '-total_comments', '-total_shares')`.
   */
  predicate RanksAbove(a: Post, b: Post)
  {
    || a.createdAt > b.createdAt
    || (a.createdAt == b.createdAt && a.totalLikes > b.totalLikes)
    || (a.createdAt == b.createdAt && a.totalLikes == b.totalLikes && a.totalComments > b.totalComments)
    || (a.createdAt == b.createdAt && a.totalLikes == b.totalLikes && a.totalComments == b.totalComments
        && a.totalShares > b.totalShares)
  }

  /**
   * `Post.objects.filter(is_published=True).order_by(...).first()`: a
   * published post that no published post ranks above, or None when nothing
   * is published. Among posts equal on all four keys the first in table order
   * is taken.
   */
  function Highlight(posts: seq<Post>): (h: Option<Post>)
    ensures h.None? <==> forall i :: 0 <= i < |posts| ==> !posts[i].isPublished
    ensures h.Some? ==> h.value in posts && h.value.isPublished
    ensures h.Some? ==> forall i :: 0 <= i < |posts| && posts[i].isPublished ==> !RanksAbove(posts[i], h.value)
  {
    if posts == [] then None
    else
      var rest := Highlight(posts[1..]);
      assert forall i :: 1 <= i < |posts| ==> posts[i] == posts[1..][i - 1];
      if !posts[0].isPublished then rest
      else if rest.Some? && RanksAbove(rest.value, posts[0]) then rest
      else Some(posts[0])
  }

  // ------------------------------------------------------------------- digest

  /** One row of `.values('location').annotate(total=Count('location'))`. */
  datatype Update = Update(location: Id, total: nat)

  function Total(u: Update): int { u.total }
  function Fewest(u: Update): int { -(u.total as int) }
  function UpdateLocation(u: Update): Id { u.location }

  /** `previous_login` from the session, or the current time when the session has none. */
  function Since(previousLogin: Option<Time>, now: Time): Time
  {
    if previousLogin.Some? then previousLogin.value else now
  }

  function HasId(id: Id): Post -> bool { (p: Post) => p.id == id }

  /**
   * A review counts for the digest when it is of a followed location and on a
   * published post created strictly after `since`.
   */
  function IsNewReview(posts: seq<Post>, followed: set<Id>, since: Time): LocationReview -> bool
  {
    (r: LocationReview) =>
      r.location in followed &&
      match Find(posts, HasId(r.post))
      case None => false
      case Some(i) => posts[i].isPublished && posts[i].createdAt > since
  }

  /** The `LocationReview.objects.filter(...)` rows that the digest groups. */
  function NewReviews(reviews: seq<LocationReview>, posts: seq<Post>, followed: set<Id>, since: Time): seq<LocationReview>
  {
    Filter(reviews, IsNewReview(posts, followed, since))
  }

  /** The number of reviews of location `l` among `rs`. */
  function ReviewsAt(rs: seq<LocationReview>, l: Id): nat
  {
    if rs == [] then 0 else (if rs[0].location == l then 1 else 0) + ReviewsAt(rs[1..], l)
  }

  /** The locations of `rs`, each once: the groups of `.values('location')`. */
  function Groups(rs: seq<LocationReview>): (ls: seq<Id>)
    ensures forall l :: l in ls <==> ReviewsAt(rs, l) > 0
    ensures forall i, j :: 0 <= i < j < |ls| ==> ls[i] != ls[j]
  {
    if rs == [] then []
    else
      var rest := Groups(rs[1..]);
      if rs[0].location in rest then rest else [rs[0].location] + rest
  }

  function Tally(ls: seq<Id>, rs: seq<LocationReview>): (us: seq<Update>)
    ensures |us| == |ls|
    ensures forall i :: 0 <= i < |ls| ==> us[i] == Update(ls[i], ReviewsAt(rs, ls[i]))
  {
    if ls == [] then [] else [Update(ls[0], ReviewsAt(rs, ls[0]))] + Tally(ls[1..], rs)
  }

  /**
   * The location-update digest of `view_user`: new reviews of followed
   * locations grouped and counted per location, fewest first
   * (`order_by('total')`; ties keep group order).
   */
  function Digest(reviews: seq<LocationReview>, posts: seq<Post>, followed: set<Id>, previousLogin: Option<Time>, now: Time): seq<Update>
  {
    var q := NewReviews(reviews, posts, followed, Since(previousLogin, now));
    SortDesc(Tally(Groups(q), q), Fewest)
  }

  lemma {:induction false} ReviewsAtCons(ls: seq<Id>, r: LocationReview, rest: seq<LocationReview>)
    requires forall i, j :: 0 <= i < j < |ls| ==> ls[i] != ls[j]
    ensures SumOf(Tally(ls, [r] + rest), Total) == SumOf(Tally(ls, rest), Total) + (if r.location in ls then 1 else 0)
  {
    if ls != [] {
      ReviewsAtCons(ls[1..], r, rest);
      assert ([r] + rest)[1..] == rest;
      assert Tally(ls, [r] + rest)[1..] == Tally(ls[1..], [r] + rest);
      assert Tally(ls, rest)[1..] == Tally(ls[1..], rest);
      assert r.location in ls <==> r.location == ls[0] || r.location in ls[1..];
    }
  }

  /** The group counts add up to the number of grouped reviews. */
  lemma {:induction false} TallySum(rs: seq<LocationReview>)
    ensures SumOf(Tally(Groups(rs), rs), Total) == |rs|
  {
    if rs != [] {
      var r, rest := rs[0], rs[1..];
      assert rs == [r] + rest;
      TallySum(rest);
      var g := Groups(rest);
      ReviewsAtCons(g, r, rest);
      if r.location !in g {
        assert Tally(Groups(rs), rs)[1..] == Tally(g, rs);
        assert ReviewsAt(rest, r.location) == 0;
      }
    }
  }

  /** The digest goes by ascending count. */
  lemma DigestAscending(reviews: seq<LocationReview>, posts: seq<Post>, followed: set<Id>, previousLogin: Option<Time>, now: Time)
    ensures var d := Digest(reviews, posts, followed, previousLogin, now);
      forall i, j :: 0 <= i < j < |d| ==> d[i].total <= d[j].total
  {
    var q := NewReviews(reviews, posts, followed, Since(previousLogin, now));
    SortSorted(Tally(Groups(q), q), Fewest);
  }

  /**
   * Each digest entry is a followed location and counts its new reviews,
   * of which there is at least one.
   */
  lemma DigestEntries(reviews: seq<LocationReview>, posts: seq<Post>, followed: set<Id>, previousLogin: Option<Time>, now: Time)
    ensures var q := NewReviews(reviews, posts, followed, Since(previousLogin, now));
      var d := Digest(reviews, posts, followed, previousLogin, now);
      forall i :: 0 <= i < |d| ==> d[i].total == ReviewsAt(q, d[i].location) >= 1 && d[i].location in followed
  {
    var since := Since(previousLogin, now);
    var q := NewReviews(reviews, posts, followed, since);
    var g := Groups(q);
    var t := Tally(g, q);
    var d := SortDesc(t, Fewest);
    SortKeepsMembers(t, Fewest);
    forall i | 0 <= i < |d|
      ensures d[i].total == ReviewsAt(q, d[i].location) >= 1 && d[i].location in followed
    {
      assert d[i] in t;
      var j :| 0 <= j < |t| && t[j] == d[i];
      assert g[j] in g;
      ReviewAtLocation(q, g[j]);
      var k :| 0 <= k < |q| && q[k].location == g[j];
      NewReviewFollowed(reviews, posts, followed, since, k);
    }
  }

  lemma NewReviewFollowed(reviews: seq<LocationReview>, posts: seq<Post>, followed: set<Id>, since: Time, k: nat)
    requires k < |NewReviews(reviews, posts, followed, since)|
    ensures NewReviews(reviews, posts, followed, since)[k].location in followed
  {
    FilterMembers(reviews, IsNewReview(posts, followed, since));
  }

  /** Every location with a new review has an entry in the digest. */
  lemma DigestComplete(reviews: seq<LocationReview>, posts: seq<Post>, followed: set<Id>, previousLogin: Option<Time>, now: Time, l: Id)
    requires ReviewsAt(NewReviews(reviews, posts, followed, Since(previousLogin, now)), l) > 0
    ensures var d := Digest(reviews, posts, followed, previousLogin, now);
      exists i :: 0 <= i < |d| && d[i].location == l
  {
    var q := NewReviews(reviews, posts, followed, Since(previousLogin, now));
    var g := Groups(q);
    var t := Tally(g, q);
    var d := SortDesc(t, Fewest);
    SortKeepsMembers(t, Fewest);
    assert l in g;
    var j :| 0 <= j < |g| && g[j] == l;
    assert t[j].location == l;
    assert t[j] in d;
    var i :| 0 <= i < |d| && d[i] == t[j];
    assert d == Digest(reviews, posts, followed, previousLogin, now) && d[i].location == l;
  }

  /** No location appears twice in the digest. */
  lemma DigestDistinct(reviews: seq<LocationReview>, posts: seq<Post>, followed: set<Id>, previousLogin: Option<Time>, now: Time)
    ensures var d := Digest(reviews, posts, followed, previousLogin, now);
      forall i, j :: 0 <= i < j < |d| ==> d[i].location != d[j].location
  {
    var q := NewReviews(reviews, posts, followed, Since(previousLogin, now));
    var t := Tally(Groups(q), q);
    assert DistinctBy(t, UpdateLocation);
    SortKeepsDistinct(t, Fewest, UpdateLocation);
  }

  /** The digest's counts add up to the number of new reviews: none is lost or counted twice. */
  lemma DigestSum(reviews: seq<LocationReview>, posts: seq<Post>, followed: set<Id>, previousLogin: Option<Time>, now: Time)
    ensures SumOf(Digest(reviews, posts, followed, previousLogin, now), Total)
         == |NewReviews(reviews, posts, followed, Since(previousLogin, now))|
  {
    var q := NewReviews(reviews, posts, followed, Since(previousLogin, now));
    var t := Tally(Groups(q), q);
    SortPermutes(t, Fewest);
    SumOfPermutation(SortDesc(t, Fewest), t, Total);
    TallySum(q);
  }

  /** A location with a review among `rs` is the location of one of them. */
  lemma {:induction false} ReviewAtLocation(rs: seq<LocationReview>, l: Id)
    requires ReviewsAt(rs, l) > 0
    ensures exists k :: 0 <= k < |rs| && rs[k].location == l
  {
    if rs[0].location != l {
      ReviewAtLocation(rs[1..], l);
      var k :| 0 <= k < |rs[1..]| && rs[1..][k].location == l;
      assert rs[k + 1].location == l;
    }
  }

  // ---------------------------------------------------------- recommendations

  /** `p` follows a profile the subject follows, or a location the subject follows. */
  predicate FollowsSameContent(p: Profile, subject: Profile)
  {
    p.usersFollowing * subject.usersFollowing != {} || p.locationsFollowing * subject.locationsFollowing != {}
  }

  /**
   * The `.distinct()` profiles that `view_user` may recommend: those that
   * follow what the subject follows, minus the viewer's own profile
   * (`exclude(user=request.user)`, with `viewer` the signed-in user's id).
   * The subject is not excluded.
   */
  function Candidates(profiles: seq<Profile>, subject: Profile, viewer: Id): (c: set<Id>)
    ensures forall i :: 0 <= i < |profiles| && FollowsSameContent(profiles[i], subject) && profiles[i].userId != viewer
              ==> profiles[i].id in c
    ensures forall id :: id in c ==>
              exists i :: 0 <= i < |profiles| && profiles[i].id == id && FollowsSameContent(profiles[i], subject) && profiles[i].userId != viewer
  {
    set i | 0 <= i < |profiles| && FollowsSameContent(profiles[i], subject) && profiles[i].userId != viewer :: profiles[i].id
  }

  /** With one profile per id, the viewer's own profile is never recommended to the viewer. */
  lemma ViewerNotRecommended(profiles: seq<Profile>, subject: Profile, k: nat)
    requires UniqueBy(profiles, ProfileKey) && k < |profiles|
    ensures profiles[k].id !in Candidates(profiles, subject, profiles[k].userId)
  {
    forall i | 0 <= i < |profiles| && profiles[i].id == profiles[k].id ensures profiles[i].userId == profiles[k].userId {
      assert ProfileKey(profiles[i]) == ProfileKey(profiles[k]);
    }
  }

  /** The subject itself is recommended to another viewer as soon as it follows anyone. */
  lemma SubjectCanBeRecommended(profiles: seq<Profile>, k: nat, viewer: Id)
    requires k < |profiles| && profiles[k].usersFollowing != {} && viewer != profiles[k].userId
    ensures profiles[k].id in Candidates(profiles, profiles[k], viewer)
  {
    var f :| f in profiles[k].usersFollowing;
    assert f in profiles[k].usersFollowing * profiles[k].usersFollowing;
  }

  function Min(a: int, b: int): int { if a < b then a else b }

  /**
   * `.distinct().order_by('?')[:5]`. Ordering by `?` adds the random key to
   * the selected columns, so `distinct()` no longer folds the rows that the
   * two follow joins repeat, and a profile can come back more than once.
   * Every candidate has at least one row, so what is fixed is this: every
   * profile shown is a candidate, at most five are shown, and never fewer
   * than `min(5, n)` of the `n` candidates' rows; with no candidates the
   * sample is empty.
   */
  method SampleRecommended(candidates: set<Id>) returns (r: seq<Id>)
    ensures forall i :: 0 <= i < |r| ==> r[i] in candidates
    ensures Min(5, |candidates|) <= |r| <= 5
  {
    var rest := candidates;
    r := [];
    while |r| < Min(5, |candidates|)
      invariant rest <= candidates && |r| + |rest| == |candidates|
      invariant |r| <= Min(5, |candidates|)
      invariant forall i :: 0 <= i < |r| ==> r[i] in candidates
      decreases Min(5, |candidates|) - |r|
    {
      var x :| x in rest;
      r := r + [x];
      rest := rest - {x};
    }
  }

  // ------------------------------------------------------------------ trending

  /** One row of the trending list: a location and its like count in the window. */
  datatype Trend = Trend(location: Id, likes: nat)

  function TrendLikes(t: Trend): int { t.likes }
  function TrendLocation(t: Trend): Id { t.location }

  /** Seven days, in seconds: `timedelta(days=7)`. */
  const Week: int := 7 * 24 * 60 * 60

  /** Post `post` has a review of location `l`: the join `reviews__` from Location to Post. */
  predicate Reviewed(reviews: seq<LocationReview>, post: Id, l: Id)
  {
    exists i :: 0 <= i < |reviews| && reviews[i].post == post && reviews[i].location == l
  }

  /**
   * `Count('reviews__postlike', distinct=True)` under the window filter: the
   * like rows made at or after `since` on posts that review location `l`,
   * each row once.
   */
  function WindowLikes(likes: seq<PostLike>, reviews: seq<LocationReview>, l: Id, since: Time): nat
  {
    if likes == [] then 0
    else
      var counted := likes[0].createdAt >= since && Reviewed(reviews, likes[0].post, l);
      (if counted then 1 else 0) + WindowLikes(likes[1..], reviews, l, since)
  }

  /** The locations, in table order, that have at least one like in the window, with their counts. */
  function Trends(locations: seq<Location>, reviews: seq<LocationReview>, likes: seq<PostLike>, since: Time): seq<Trend>
  {
    if locations == [] then []
    else
      var n := WindowLikes(likes, reviews, locations[0].id, since);
      (if n > 0 then [Trend(locations[0].id, n)] else []) + Trends(locations[1..], reviews, likes, since)
  }

  /** Each trend row is a location of the table, at index `k`, with its like count in the window, at least one. */
  lemma {:induction false} TrendSource(locations: seq<Location>, reviews: seq<LocationReview>, likes: seq<PostLike>, since: Time, i: nat)
    returns (k: nat)
    requires i < |Trends(locations, reviews, likes, since)|
    ensures k < |locations|
    ensures var t := Trends(locations, reviews, likes, since)[i];
      t.location == locations[k].id && t.likes == WindowLikes(likes, reviews, t.location, since) > 0
  {
    var n := WindowLikes(likes, reviews, locations[0].id, since);
    var rest := Trends(locations[1..], reviews, likes, since);
    if n > 0 && i == 0 {
      k := 0;
    } else {
      var h := if n > 0 then 1 else 0;
      assert Trends(locations, reviews, likes, since)[i] == rest[i - h];
      var k' := TrendSource(locations[1..], reviews, likes, since, i - h);
      k := k' + 1;
    }
  }

  /** Every location of the table with a like in the window has its row. */
  lemma {:induction false} TrendsComplete(locations: seq<Location>, reviews: seq<LocationReview>, likes: seq<PostLike>, since: Time, k: nat)
    requires k < |locations| && WindowLikes(likes, reviews, locations[k].id, since) > 0
    ensures Trend(locations[k].id, WindowLikes(likes, reviews, locations[k].id, since)) in Trends(locations, reviews, likes, since)
  {
    if k > 0 {
      TrendsComplete(locations[1..], reviews, likes, since, k - 1);
    }
  }

  lemma {:induction false} TrendsDistinct(locations: seq<Location>, reviews: seq<LocationReview>, likes: seq<PostLike>, since: Time)
    requires DistinctBy(locations, LocationId)
    ensures DistinctBy(Trends(locations, reviews, likes, since), TrendLocation)
  {
    if locations != [] {
      var tail := locations[1..];
      assert DistinctBy(tail, LocationId) by {
        forall i, j | 0 <= i < j < |tail| ensures LocationId(tail[i]) != LocationId(tail[j]) {
          assert LocationId(locations[i + 1]) != LocationId(locations[j + 1]);
        }
      }
      TrendsDistinct(tail, reviews, likes, since);
      var rest := Trends(tail, reviews, likes, since);
      forall i | 0 <= i < |rest| ensures rest[i].location != locations[0].id {
        var k := TrendSource(tail, reviews, likes, since, i);
        assert LocationId(locations[0]) != LocationId(locations[k + 1]);
      }
    }
  }

  /**
   * Trending locations of `index`: locations with a like since `now - 7 days`,
   * most liked first (`order_by('-likes_count')`; ties in table order), at
   * most twelve.
   */
  function Trending(locations: seq<Location>, reviews: seq<LocationReview>, likes: seq<PostLike>, now: Time): seq<Trend>
  {
    Take(SortDesc(Trends(locations, reviews, likes, now - Week), TrendLikes), 12)
  }

  /** At most twelve entries, most liked first. */
  lemma TrendingMostLikedFirst(locations: seq<Location>, reviews: seq<LocationReview>, likes: seq<PostLike>, now: Time)
    ensures var t := Trending(locations, reviews, likes, now);
      |t| <= 12 && forall i, j :: 0 <= i < j < |t| ==> t[i].likes >= t[j].likes
  {
    SortSorted(Trends(locations, reviews, likes, now - Week), TrendLikes);
  }

  /** Each entry is a location of the table with its like count in the window, at least one. */
  lemma TrendingEntries(locations: seq<Location>, reviews: seq<LocationReview>, likes: seq<PostLike>, now: Time, i: nat)
    returns (k: nat)
    requires i < |Trending(locations, reviews, likes, now)|
    ensures k < |locations|
    ensures var t := Trending(locations, reviews, likes, now)[i];
      t.location == locations[k].id && t.likes == WindowLikes(likes, reviews, t.location, now - Week) > 0
  {
    var all := Trends(locations, reviews, likes, now - Week);
    var ranked := SortDesc(all, TrendLikes);
    SortKeepsMembers(all, TrendLikes);
    assert ranked[i] in all;
    var j :| 0 <= j < |all| && all[j] == ranked[i];
    k := TrendSource(locations, reviews, likes, now - Week, j);
  }

  /** With location ids unique, no location is listed twice. */
  lemma TrendingDistinct(locations: seq<Location>, reviews: seq<LocationReview>, likes: seq<PostLike>, now: Time)
    requires UniqueBy(locations, LocationId)
    ensures var t := Trending(locations, reviews, likes, now);
      forall i, j :: 0 <= i < j < |t| ==> t[i].location != t[j].location
  {
    var all := Trends(locations, reviews, likes, now - Week);
    TrendsDistinct(locations, reviews, likes, now - Week);
    SortKeepsDistinct(all, TrendLikes, TrendLocation);
  }

  /**
   * A location with a like in the window that is left out is outranked, or
   * tied, by all twelve entries shown.
   */
  lemma TrendingTopTwelve(locations: seq<Location>, reviews: seq<LocationReview>, likes: seq<PostLike>, now: Time, k: nat)
    requires k < |locations| && WindowLikes(likes, reviews, locations[k].id, now - Week) > 0
    requires var t := Trending(locations, reviews, likes, now);
      forall i :: 0 <= i < |t| ==> t[i].location != locations[k].id
    ensures var t := Trending(locations, reviews, likes, now);
      |t| == 12 && forall i :: 0 <= i < |t| ==> t[i].likes >= WindowLikes(likes, reviews, locations[k].id, now - Week)
  {
    var all := Trends(locations, reviews, likes, now - Week);
    var x := Trend(locations[k].id, WindowLikes(likes, reviews, locations[k].id, now - Week));
    SortSorted(all, TrendLikes);
    TrendsComplete(locations, reviews, likes, now - Week, k);
    SortKeepsMembers(all, TrendLikes);
    assert x in SortDesc(all, TrendLikes);
    assert x !in Trending(locations, reviews, likes, now);
    LeftOutIsOutranked(SortDesc(all, TrendLikes), TrendLikes, 12, x);
  }

  // ------------------------------------------------------------- recent posts

  function IsPublished(p: Post): bool { p.isPublished }
  function PostCreatedAt(p: Post): int { p.createdAt }

  /** `Post.objects.filter(is_published=True)[:12]`, newest first by the model's default order. */
  function RecentPosts(posts: seq<Post>): seq<Post>
  {
    Take(SortDesc(Filter(posts, IsPublished), PostCreatedAt), 12)
  }

  /** At most twelve posts, newest first, each a published post of the table. */
  lemma RecentPostsShown(posts: seq<Post>)
    ensures var r := RecentPosts(posts);
      && |r| <= 12
      && (forall i, j :: 0 <= i < j < |r| ==> r[i].createdAt >= r[j].createdAt)
      && (forall i :: 0 <= i < |r| ==> r[i].isPublished && r[i] in posts)
  {
    var f := Filter(posts, IsPublished);
    var s := SortDesc(f, PostCreatedAt);
    SortSorted(f, PostCreatedAt);
    SortKeepsMembers(f, PostCreatedAt);
    FilterMembers(posts, IsPublished);
    forall i | 0 <= i < |s| ensures s[i].isPublished && s[i] in posts {
      assert s[i] in f;
    }
  }

  /** A published post left out is no newer than any of the twelve shown. */
  lemma RecentPostsNewest(posts: seq<Post>, k: nat)
    requires k < |posts| && posts[k].isPublished && posts[k] !in RecentPosts(posts)
    ensures var r := RecentPosts(posts);
      |r| == 12 && forall i :: 0 <= i < |r| ==> r[i].createdAt >= posts[k].createdAt
  {
    var f := Filter(posts, IsPublished);
    SortSorted(f, PostCreatedAt);
    FilterMembers(posts, IsPublished);
    SortKeepsMembers(f, PostCreatedAt);
    assert posts[k] in SortDesc(f, PostCreatedAt);
    LeftOutIsOutranked(SortDesc(f, PostCreatedAt), PostCreatedAt, 12, posts[k]);
  }
}
