/**
 * The blog's database as one object whose tables the views update in place,
 * and the views of blog/views.py as its methods. Each write view is proved
 * to make exactly the transition its function in `Handlers`, `Posts` or
 * `Ingest` describes, and to keep the store's invariant; the two ingestors
 * keep the loops of the source. `view_user` only reads.
 */
module Store {
  import opened Text
  import opened Models
  import opened Activity
  import opened Feed
  import opened Annotation
  import Handlers
  import opened Posts
  import opened Ingest
  import opened UserPage

  type Db = Handlers.Db
  type Outcome = Handlers.Outcome
  type Handled = Handlers.Handled

  class Store {
    var profiles: seq<Profile>
    var locations: seq<Location>
    var tags: seq<Tag>
    var posts: seq<Post>
    var likes: seq<PostLike>
    var comments: seq<Comment>
    var reviews: seq<LocationReview>
    var nextId: Id

    /** All tables at once. */
    function Snapshot(): Db
      reads this
    {
      Handlers.Db(profiles, locations, tags, posts, likes, comments, reviews, nextId)
    }

    ghost predicate Consistent()
      reads this
    {
      Handlers.Valid(Snapshot())
    }

    /** An empty database; primary keys start at 1. */
    constructor ()
      ensures Snapshot() == Handlers.Db([], [], [], [], [], [], [], 1)
      ensures Consistent()
    {
      profiles, locations, tags, posts := [], [], [], [];
      likes, comments, reviews, nextId := [], [], [], 1;
      Handlers.EmptyValid(1);
    }

    // ---------------------------------------------------------- follows

    method FollowUser(viewer: Id, username: string) returns (outcome: Outcome)
      requires Consistent()
      modifies this
      ensures Handlers.Handled(Snapshot(), outcome) == Handlers.FollowUser(old(Snapshot()), viewer, username)
      ensures Consistent()
    {
      var t := Find(profiles, Handlers.UsernameIs(username));
      var v := Find(profiles, Handlers.UserIs(viewer));
      if t.None? || v.None? {
        return Handlers.DoesNotExist;
      }
      var p := profiles[v.value];
      profiles := profiles[v.value := p.(usersFollowing := p.usersFollowing + {profiles[t.value].id})];
      outcome := Handlers.Done;
      Handlers.FollowUserEffect(old(Snapshot()), viewer, username);
    }

    method UnfollowUser(viewer: Id, username: string) returns (outcome: Outcome)
      requires Consistent()
      modifies this
      ensures Handlers.Handled(Snapshot(), outcome) == Handlers.UnfollowUser(old(Snapshot()), viewer, username)
      ensures Consistent()
    {
      var t := Find(profiles, Handlers.UsernameIs(username));
      var v := Find(profiles, Handlers.UserIs(viewer));
      if t.None? || v.None? {
        return Handlers.DoesNotExist;
      }
      var p := profiles[v.value];
      profiles := profiles[v.value := p.(usersFollowing := p.usersFollowing - {profiles[t.value].id})];
      outcome := Handlers.Done;
      Handlers.UnfollowUserEffect(old(Snapshot()), viewer, username);
    }

    method FollowLocation(viewer: Id, pk: Id) returns (outcome: Outcome)
      requires Consistent()
      modifies this
      ensures Handlers.Handled(Snapshot(), outcome) == Handlers.FollowLocation(old(Snapshot()), viewer, pk)
      ensures Consistent()
    {
      var l := Find(locations, LocationWithId(pk));
      var v := Find(profiles, Handlers.UserIs(viewer));
      if l.None? || v.None? {
        return Handlers.DoesNotExist;
      }
      var p := profiles[v.value];
      profiles := profiles[v.value := p.(locationsFollowing := p.locationsFollowing + {pk})];
      outcome := Handlers.Done;
      Handlers.FollowLocationEffect(old(Snapshot()), viewer, pk);
    }

    method UnfollowLocation(viewer: Id, pk: Id) returns (outcome: Outcome)
      requires Consistent()
      modifies this
      ensures Handlers.Handled(Snapshot(), outcome) == Handlers.UnfollowLocation(old(Snapshot()), viewer, pk)
      ensures Consistent()
    {
      var l := Find(locations, LocationWithId(pk));
      var v := Find(profiles, Handlers.UserIs(viewer));
      if l.None? || v.None? {
        return Handlers.DoesNotExist;
      }
      var p := profiles[v.value];
      profiles := profiles[v.value := p.(locationsFollowing := p.locationsFollowing - {pk})];
      outcome := Handlers.Done;
      Handlers.UnfollowLocationEffect(old(Snapshot()), viewer, pk);
    }

    // ---------------------------------------------------------- posts

    /** The like row `l` inserted and counted on the post at index `j`. */
    method AddLike(j: nat, l: PostLike, now: Time)
      requires j < |posts|
      modifies this
      ensures Snapshot() == Posts.Liked(old(Snapshot()), j, l, now)
    {
      likes := likes + [l];
      nextId := nextId + 1;
      var post := posts[j];
      posts := posts[j := post.(totalLikes := post.totalLikes + 1, updatedAt := now)];
    }

    /** The like row at index `k` deleted and uncounted on the post at index `j`. */
    method RemoveLike(j: nat, k: nat, now: Time)
      requires j < |posts| && k < |likes|
      modifies this
      ensures Snapshot() == Posts.Unliked(old(Snapshot()), j, k, now)
    {
      likes := RemoveAt(likes, k);
      var post := posts[j];
      posts := posts[j := post.(totalLikes := post.totalLikes - 1, updatedAt := now)];
    }

    /** `post.save()` of the post at index `j`, now `x`. */
    method SavePost(j: nat, x: Post)
      requires j < |posts|
      modifies this
      ensures Snapshot() == Posts.Saved(old(Snapshot()), j, x)
    {
      posts := posts[j := x];
    }

    method LikePost(viewer: Id, pk: Id, now: Time) returns (outcome: Outcome)
      requires Consistent()
      modifies this
      ensures Handlers.Handled(Snapshot(), outcome) == Posts.LikePost(old(Snapshot()), viewer, pk, now)
      ensures Consistent()
    {
      var p := Find(posts, Handlers.PostWithId(pk));
      var v := Find(profiles, Handlers.UserIs(viewer));
      if p.None? || v.None? {
        return Handlers.DoesNotExist;
      }
      AddLike(p.value, PostLike(nextId, profiles[v.value].id, pk, now), now);
      outcome := Handlers.Done;
      LikePostValid(old(Snapshot()), viewer, pk, now);
    }

    method UnlikePost(viewer: Id, pk: Id, now: Time) returns (outcome: Outcome)
      requires Consistent()
      modifies this
      ensures Handlers.Handled(Snapshot(), outcome) == Posts.UnlikePost(old(Snapshot()), viewer, pk, now)
      ensures Consistent()
    {
      var p := Find(posts, Handlers.PostWithId(pk));
      var v := Find(profiles, Handlers.UserIs(viewer));
      if p.None? || v.None? {
        return Handlers.DoesNotExist;
      }
      var mine := Handlers.LikeOf(pk, profiles[v.value].id);
      var l := Find(likes, mine);
      if l.None? {
        return Handlers.DoesNotExist;
      }
      if |Filter(likes, mine)| > 1 {
        return Handlers.MultipleObjectsReturned;
      }
      RemoveLike(p.value, l.value, now);
      outcome := Handlers.Done;
      UnlikePostValid(old(Snapshot()), viewer, pk, now);
    }

    /** The comment row `c` inserted and counted on the post at index `j`. */
    method AddComment(j: nat, c: Comment, now: Time)
      requires j < |posts|
      modifies this
      ensures Snapshot() == Posts.Commented(old(Snapshot()), j, c, now)
    {
      comments := comments + [c];
      nextId := nextId + 1;
      var post := posts[j];
      posts := posts[j := post.(totalComments := post.totalComments + 1, updatedAt := now)];
    }

    method CommentPost(viewer: Id, pk: Id, message: string, now: Time) returns (outcome: Outcome)
      requires Consistent()
      modifies this
      ensures Handlers.Handled(Snapshot(), outcome) == Posts.CommentPost(old(Snapshot()), viewer, pk, message, now)
      ensures Consistent()
    {
      var p := Find(posts, Handlers.PostWithId(pk));
      var v := Find(profiles, Handlers.UserIs(viewer));
      if p.None? || v.None? {
        return Handlers.DoesNotExist;
      }
      AddComment(p.value, Comment(nextId, profiles[v.value].id, pk, None, message, now), now);
      outcome := Handlers.Done;
      CommentPostValid(old(Snapshot()), viewer, pk, message, now);
    }

    method ReplyComment(viewer: Id, pk: Id, message: string, now: Time) returns (outcome: Outcome)
      requires Consistent()
      modifies this
      ensures Handlers.Handled(Snapshot(), outcome) == Posts.ReplyComment(old(Snapshot()), viewer, pk, message, now)
      ensures Consistent()
    {
      var c := Find(comments, Handlers.CommentWithId(pk));
      if c.None? {
        return Handlers.DoesNotExist;
      }
      var post := comments[c.value].post;
      var p := Find(posts, Handlers.PostWithId(post));
      var v := Find(profiles, Handlers.UserIs(viewer));
      if p.None? || v.None? {
        return Handlers.DoesNotExist;
      }
      AddComment(p.value, Comment(nextId, profiles[v.value].id, post, Some(pk), message, now), now);
      outcome := Handlers.Done;
      ReplyCommentValid(old(Snapshot()), viewer, pk, message, now);
    }

    method SharePost(pk: Id, now: Time) returns (outcome: Outcome)
      requires Consistent()
      modifies this
      ensures Handlers.Handled(Snapshot(), outcome) == Posts.SharePost(old(Snapshot()), pk, now)
      ensures Consistent()
    {
      var p := Find(posts, Handlers.PostWithId(pk));
      if p.None? {
        return Handlers.DoesNotExist;
      }
      var post := posts[p.value];
      SavePost(p.value, post.(totalShares := post.totalShares + 1, updatedAt := now));
      outcome := Handlers.Done;
      assert Handlers.Handled(Snapshot(), outcome) == Posts.SharePost(old(Snapshot()), pk, now);
      SharePostValid(old(Snapshot()), pk, now);
    }

    method PublishPost(pk: Id, now: Time) returns (outcome: Outcome)
      requires Consistent()
      modifies this
      ensures Handlers.Handled(Snapshot(), outcome) == Posts.PublishPost(old(Snapshot()), pk, now)
      ensures Consistent()
    {
      var p := Find(posts, Handlers.PostWithId(pk));
      if p.None? {
        return Handlers.DoesNotExist;
      }
      var post := posts[p.value];
      SavePost(p.value, post.(isPublished := true, updatedAt := now));
      outcome := Handlers.Done;
      PublishPostValid(old(Snapshot()), pk, now);
    }

    method DeletePost(pk: Id) returns (outcome: Outcome)
      requires Consistent()
      modifies this
      ensures Handlers.Handled(Snapshot(), outcome) == Posts.DeletePost(old(Snapshot()), pk)
      ensures Consistent()
    {
      if Find(posts, Handlers.PostWithId(pk)).None? {
        return Handlers.DoesNotExist;
      }
      DropPost(pk);
      outcome := Handlers.Done;
      DeletePostValid(old(Snapshot()), pk);
    }

    /** The post `pk` deleted, and with it (CASCADE) its likes, comments and location reviews. */
    method DropPost(pk: Id)
      modifies this
      ensures Snapshot() == Posts.WithoutPost(old(Snapshot()), pk)
    {
      posts := Filter(posts, NotPost(pk));
      likes := Filter(likes, NotLikeOn(pk));
      comments := Filter(comments, NotCommentOn(pk));
      reviews := Filter(reviews, NotReviewOn(pk));
    }

    method DeleteLocation(pk: Id) returns (outcome: Outcome)
      requires Consistent()
      modifies this
      ensures Handlers.Handled(Snapshot(), outcome) == Posts.DeleteLocation(old(Snapshot()), pk)
      ensures Consistent()
    {
      if Find(locations, LocationWithId(pk)).None? {
        return Handlers.DoesNotExist;
      }
      locations := Filter(locations, NotLocation(pk));
      reviews := Filter(reviews, NotReviewAt(pk));
      profiles := Unfollowing(profiles, pk);
      outcome := Handlers.Done;
      DeleteLocationValid(old(Snapshot()), pk);
    }

    // ---------------------------------------------------------- writing and annotating

    method CreatePost(viewer: Id, form: PostForm, publishNew: bool, now: Time) returns (outcome: Outcome)
      requires Consistent()
      modifies this
      ensures Handlers.Handled(Snapshot(), outcome) == Ingest.CreatePost(old(Snapshot()), viewer, form, publishNew, now)
      ensures Consistent()
    {
      var v := Find(profiles, Handlers.UserIs(viewer));
      if v.None? {
        return Handlers.DoesNotExist;
      }
      AddPost(FromForm(nextId, profiles[v.value].id, WithoutCounters(form), publishNew, now));
      outcome := Handlers.Done;
      CreatePostValid(old(Snapshot()), viewer, form, publishNew, now);
    }

    /** The post row `x` inserted with the next fresh id. */
    method AddPost(x: Post)
      modifies this
      ensures Snapshot() == Ingest.Created(old(Snapshot()), x)
    {
      posts := posts + [x];
      nextId := nextId + 1;
    }

    /**
     * `Location.objects.get_or_create` and then
     * `LocationReview.objects.update_or_create` for one PROPER mention.
     */
    method RecordMention(post: Id, e: Entity)
      modifies this
      ensures Handlers.GeoOf(Snapshot()) == Record(Handlers.GeoOf(old(Snapshot())), post, e)
      ensures Snapshot().(locations := old(locations), reviews := old(reviews), nextId := old(nextId)) == old(Snapshot())
    {
      var name := Lower(e.name);
      var found := Find(locations, NamedLocation(name));
      var location: Id;
      if found.Some? {
        location := locations[found.value].id;
      } else {
        location := nextId;
        locations := locations + [Location(nextId, name)];
        nextId := nextId + 1;
      }
      var r := Find(reviews, ReviewOf(post, location));
      if r.Some? {
        reviews := reviews[r.value := reviews[r.value].(sentiment := e.score, magnitude := e.magnitude)];
      } else {
        reviews := reviews + [LocationReview(nextId, post, location, e.score, e.magnitude)];
        nextId := nextId + 1;
      }
    }

    /** `analyse_entity_sentiment`: for each LOCATION entity, for each PROPER mention, upsert. */
    method AnalyseEntitySentiment(post: Id, response: Option<seq<Entity>>) returns (outcome: Outcome)
      requires Consistent()
      modifies this
      ensures Handlers.Handled(Snapshot(), outcome) == Ingest.AnalyseEntitySentiment(old(Snapshot()), post, response)
      ensures Consistent()
    {
      if response.None? {
        return Handlers.ServiceError;
      }
      RecordEntities(post, response.value);
      outcome := Handlers.Done;
      AnalyseValid(old(Snapshot()), post, response);
    }

    /** The outer loop of `analyse_entity_sentiment`, over every entity of the response. */
    method RecordEntities(post: Id, entities: seq<Entity>)
      modifies this
      ensures Handlers.GeoOf(Snapshot()) == Analysed(Handlers.GeoOf(old(Snapshot())), post, entities)
      ensures Snapshot().(locations := old(locations), reviews := old(reviews), nextId := old(nextId)) == old(Snapshot())
    {
      var i := 0;
      while i < |entities|
        invariant 0 <= i <= |entities|
        invariant Handlers.GeoOf(Snapshot()) == EntitiesDone(Handlers.GeoOf(old(Snapshot())), post, entities, i)
        invariant Snapshot().(locations := old(locations), reviews := old(reviews), nextId := old(nextId)) == old(Snapshot())
      {
        RecordEntity(post, entities[i]);
        i := i + 1;
      }
    }

    /** The inner loop: every PROPER mention of a LOCATION entity is upserted. */
    method RecordEntity(post: Id, e: Entity)
      modifies this
      ensures Handlers.GeoOf(Snapshot()) == EntityDone(Handlers.GeoOf(old(Snapshot())), post, e)
      ensures Snapshot().(locations := old(locations), reviews := old(reviews), nextId := old(nextId)) == old(Snapshot())
    {
      if e.kind != LocationEntity {
        return;
      }
      var m := 0;
      while m < |e.mentions|
        invariant 0 <= m <= |e.mentions|
        invariant Handlers.GeoOf(Snapshot()) == MentionsDone(Handlers.GeoOf(old(Snapshot())), post, e, m)
        invariant Snapshot().(locations := old(locations), reviews := old(reviews), nextId := old(nextId)) == old(Snapshot())
      {
        if e.mentions[m] == ProperMention {
          RecordMention(post, e);
        }
        m := m + 1;
      }
    }

    /** `Tag.objects.get_or_create(name=name)`. */
    method TagNamed(name: string) returns (id: Id)
      modifies this
      ensures (Handlers.TaggingOf(Snapshot()), id) == TagFor(Handlers.TaggingOf(old(Snapshot())), name)
      ensures Snapshot().(tags := old(tags), nextId := old(nextId)) == old(Snapshot())
    {
      var found := Find(tags, NamedTag(name));
      if found.Some? {
        id := tags[found.value].id;
      } else {
        id := nextId;
        tags := tags + [Tag(nextId, name)];
        nextId := nextId + 1;
      }
    }

    /** The loop of `classify_post`: a tag for each category's last segment, collected in order. */
    method GatherTags(categories: seq<string>) returns (ids: seq<Id>)
      modifies this
      ensures (Handlers.TaggingOf(Snapshot()), ids) == Gathered(Handlers.TaggingOf(old(Snapshot())), categories, |categories|)
      ensures Snapshot().(tags := old(tags), nextId := old(nextId)) == old(Snapshot())
    {
      ghost var t0 := Handlers.TaggingOf(Snapshot());
      ids := [];
      var k := 0;
      while k < |categories|
        invariant 0 <= k <= |categories|
        invariant Gathered(t0, categories, k) == (Handlers.TaggingOf(Snapshot()), ids)
        invariant Snapshot().(tags := old(tags), nextId := old(nextId)) == old(Snapshot())
      {
        var id := TagNamed(TagNameOf(categories[k]));
        assert Gathered(t0, categories, k + 1) == (Handlers.TaggingOf(Snapshot()), ids + [id]);
        ids := ids + [id];
        k := k + 1;
      }
    }

    /**
     * `classify_post`: the post's tag set is set to the tags collected, even
     * when the service fails part-way.
     */
    method ClassifyPost(post: Id, c: Classification) returns (outcome: Outcome)
      requires Consistent() && Find(posts, Handlers.PostWithId(post)).Some?
      modifies this
      ensures Handlers.Handled(Snapshot(), outcome) == Ingest.ClassifyPost(old(Snapshot()), post, c)
      ensures Consistent()
    {
      if c.DocumentFailed? {
        return Handlers.ServiceError;
      }
      var ids := GatherTags(Processed(c));
      var j := Find(posts, Handlers.PostWithId(post)).value;
      SavePost(j, posts[j].(tags := AsSet(ids)));
      outcome := if c.Classified? then Handlers.Done else Handlers.ServiceError;
      ClassifyValid(old(Snapshot()), post, c);
    }

    /** `create_post` / `publish_new_post`: save, analyse, classify; an exception stops the view. */
    method SubmitPost(viewer: Id, form: PostForm, publishNew: bool, now: Time,
                      entities: Option<seq<Entity>>, c: Classification) returns (outcome: Outcome)
      requires Consistent()
      modifies this
      ensures Handlers.Handled(Snapshot(), outcome)
           == Ingest.SubmitPost(old(Snapshot()), viewer, form, publishNew, now, entities, c)
      ensures Consistent()
    {
      var id := nextId;
      ghost var before := |posts|;
      outcome := CreatePost(viewer, form, publishNew, now);
      if outcome != Handlers.Done {
        return;
      }
      outcome := AnalyseEntitySentiment(id, entities);
      if outcome != Handlers.Done {
        return;
      }
      CreatedIsFound(old(posts), posts[before]);
      outcome := ClassifyPost(id, c);
    }

    // ---------------------------------------------------------- the profile page

    /**
     * `view_user` for the signed-in user `viewer` named `viewerName`: no page
     * when no profile has `username` (`.get` raises); otherwise the page's
     * parts, with at least `min(5, n)` and at most five recommended
     * profiles, each one of the `n` candidates. Both `viewer` and
     * `viewerName` come from `request.user`: `viewerName` is the username of
     * the user whose id is `viewer`.
     */
    method ViewUser(viewer: Id, viewerName: string, username: string, previousLogin: Option<Time>, now: Time)
      returns (page: Option<Page>)
      ensures page.None? <==> Find(profiles, Handlers.UsernameIs(username)).None?
      ensures page.Some? ==>
        var subject := profiles[Find(profiles, Handlers.UsernameIs(username)).value];
        var candidates := Candidates(profiles, subject, viewer);
        && page.value.profile == subject
        && page.value.activities == ActivitiesOf(likes, comments, posts, {subject.id})
        && page.value.newsfeed == ShownNewsfeed(likes, comments, posts, subject, viewerName, username)
        && page.value.reviews == ReviewsOfAuthor(posts, reviews, subject.id)
        && page.value.highlight == Highlight(posts)
        && (forall i :: 0 <= i < |page.value.recommended| ==> page.value.recommended[i] in candidates)
        && Min(5, |candidates|) <= |page.value.recommended| <= 5
        && page.value.updates == Digest(reviews, posts, subject.locationsFollowing, previousLogin, now)
    {
      var found := Find(profiles, Handlers.UsernameIs(username));
      if found.None? {
        return None;
      }
      var subject := profiles[found.value];
      var recommended := SampleRecommended(Candidates(profiles, subject, viewer));
      page := Some(Page(
        subject,
        ActivitiesOf(likes, comments, posts, {subject.id}),
        ShownNewsfeed(likes, comments, posts, subject, viewerName, username),
        ReviewsOfAuthor(posts, reviews, subject.id),
        Highlight(posts),
        recommended,
        Digest(reviews, posts, subject.locationsFollowing, previousLogin, now)));
    }
  }
}
