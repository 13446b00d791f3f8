/**
 * The parts of the profile page (`view_user` in blog/views.py) that are not
 * rankings of their own: the newsfeed, shown only to the profile's owner,
 * and the location reviews of the profile's posts.
 */
module UserPage {
  import opened Models
  import opened Activity
  import opened Feed

  /** Everything `view_user` hands to the template. */
  datatype Page = Page(
    profile: Profile,
    activities: seq<Activity>,
    newsfeed: seq<Activity>,
    reviews: seq<LocationReview>,
    highlight: Option<Post>,
    recommended: seq<Id>,
    updates: seq<Update>)

  /** The newsfeed is computed only when the signed-in user's username is the subject's. */
  function ShownNewsfeed(likes: seq<PostLike>, comments: seq<Comment>, posts: seq<Post>,
                         subject: Profile, viewerName: string, username: string): seq<Activity>
  {
    if viewerName == username then Newsfeed(likes, comments, posts, subject.usersFollowing) else []
  }

  /**
   * Another user never sees the subject's newsfeed, and the owner sees one
   * only when following someone; what the owner sees is the merge over the
   * profiles the subject follows, newest first.
   */
  lemma NewsfeedPrivate(likes: seq<PostLike>, comments: seq<Comment>, posts: seq<Post>,
                        subject: Profile, viewerName: string, username: string)
    ensures var f := ShownNewsfeed(likes, comments, posts, subject, viewerName, username);
      && (f != [] ==> viewerName == username && subject.usersFollowing != {})
      && (forall i :: 0 <= i < |f| ==> Actor(f[i]) in subject.usersFollowing)
      && (forall i, j :: 0 <= i < j < |f| ==> CreatedAt(f[i]) >= CreatedAt(f[j]))
  {
    if viewerName == username {
      if subject.usersFollowing == {} {
        EmptyFollowingEmptyFeed(likes, comments, posts);
      }
      ActivitiesByActors(likes, comments, posts, subject.usersFollowing);
      ActivitiesNewestFirst(likes, comments, posts, subject.usersFollowing);
    }
  }

  /** The ids of the posts written by `author` (`Post.objects.filter(author=profile)`). */
  function PostIdsBy(posts: seq<Post>, author: Id): set<Id>
  {
    set i | 0 <= i < |posts| && posts[i].author == author :: posts[i].id
  }

  function OnPostIn(ids: set<Id>): LocationReview -> bool { (r: LocationReview) => r.post in ids }

  /** `LocationReview.objects.filter(post__in=blog_posts)`. */
  function ReviewsOfAuthor(posts: seq<Post>, reviews: seq<LocationReview>, author: Id): seq<LocationReview>
  {
    Filter(reviews, OnPostIn(PostIdsBy(posts, author)))
  }

  /** A review is listed exactly when it is a review of one of the author's posts. */
  lemma ReviewsOfAuthorMembers(posts: seq<Post>, reviews: seq<LocationReview>, author: Id)
    ensures var rs := ReviewsOfAuthor(posts, reviews, author);
      forall r :: r in rs <==> r in reviews && exists i :: 0 <= i < |posts| && posts[i].id == r.post && posts[i].author == author
  {
    var ids := PostIdsBy(posts, author);
    FilterMembers(reviews, OnPostIn(ids));
    forall r | r in reviews && r.post in ids
      ensures r in ReviewsOfAuthor(posts, reviews, author)
    {
      var k :| 0 <= k < |reviews| && reviews[k] == r;
      assert OnPostIn(ids)(reviews[k]);
    }
  }
}
