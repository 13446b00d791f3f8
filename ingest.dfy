/**
 * Writing a post and annotating it (blog/views.py): `create_post` and
 * `publish_new_post` save a new post, then run the two ingestors on the
 * language service's answers: `analyse_entity_sentiment` upserts locations
 * and location reviews, `classify_post` upserts tags and sets the post's tag
 * set. The service's answers are inputs here; a call that fails is an input
 * too.
 */
module Ingest {
  import opened Text
  import opened Models
  import opened Annotation
  import opened Handlers
  import opened Posts

  /**
   * How `classify_post` went: `extract_document` raised before the `try`;
   * `classify_text` raised; storing a tag raised after the first `stored`
   * categories were handled; or every category was handled.
   */
  datatype Classification =
    | DocumentFailed
    | RequestFailed
    | Interrupted(categories: seq<string>, stored: nat)
    | Classified(categories: seq<string>)

  /** The categories whose tags were gathered before `post.tags.set` ran in the `finally`. */
  function Processed(c: Classification): (r: seq<string>)
    ensures c.Classified? ==> r == c.categories
    ensures c.Interrupted? ==> r <= c.categories && |r| == if c.stored < |c.categories| then c.stored else |c.categories|
    ensures c.DocumentFailed? || c.RequestFailed? ==> r == []
  {
    match c
    case DocumentFailed => []
    case RequestFailed => []
    case Interrupted(cs, k) => if k < |cs| then cs[..k] else cs
    case Classified(cs) => cs
  }

  /** The ids gathered into the local `tags` list, as a set. */
  function AsSet(ids: seq<Id>): set<Id> { set x | x in ids }

  /**
   * The row `save(commit=False)` builds from the form, with the viewer's
   * profile as author: the form's fields over the model defaults.
   * `publish_new_post` (`publishNew`) then sets `is_published`; `create_post`
   * keeps the form's checkbox.
   */
  function FromForm(id: Id, author: Id, form: PostForm, publishNew: bool, now: Time): Post
  {
    NewPost(id, author, form.title, form.content, now).(
      isPublished := publishNew || form.isPublished,
      totalLikes := form.totalLikes, totalComments := form.totalComments, totalShares := form.totalShares)
  }

  /**
   * `create_post` and `publish_new_post` up to the save, as written: the
   * posted counters are stored as they came.
   */
  function CreatePostAsWritten(db: Db, viewer: Id, form: PostForm, publishNew: bool, now: Time): Handled
  {
    var v := Find(db.profiles, UserIs(viewer));
    if v.None? then Handled(db, DoesNotExist)
    else Handled(Created(db, FromForm(db.nextId, db.profiles[v.value].id, form, publishNew, now)), Done)
  }

  /** The form without its counters, so that they keep the model's zero defaults. */
  function WithoutCounters(form: PostForm): PostForm
  {
    form.(totalLikes := 0, totalComments := 0, totalShares := 0)
  }

  /**
   * `create_post` and `publish_new_post` up to the save, with the counters
   * left out of the form: the behaviour the rest of this model uses.
   */
  function CreatePost(db: Db, viewer: Id, form: PostForm, publishNew: bool, now: Time): Handled
  {
    CreatePostAsWritten(db, viewer, WithoutCounters(form), publishNew, now)
  }

  /** The store after the new post row `x` is inserted with the next fresh id. */
  function Created(db: Db, x: Post): Db
  {
    db.(posts := db.posts + [x], nextId := db.nextId + 1)
  }

  /** `analyse_entity_sentiment` with the service's entities, or `None` when the call raised. */
  function AnalyseEntitySentiment(db: Db, pk: Id, response: Option<seq<Entity>>): Handled
  {
    if response.None? then Handled(db, ServiceError)
    else
      var g := Analysed(GeoOf(db), pk, response.value);
      Handled(db.(locations := g.locations, reviews := g.reviews, nextId := g.nextId), Done)
  }

  /** `classify_post`: the tags gathered so far are set on the post even when the service fails. */
  function ClassifyPost(db: Db, pk: Id, c: Classification): Handled
    requires Find(db.posts, PostWithId(pk)).Some?
  {
    if c.DocumentFailed? then Handled(db, ServiceError)
    else
      var cs := Processed(c);
      var (t, ids) := Gathered(TaggingOf(db), cs, |cs|);
      var j := Find(db.posts, PostWithId(pk)).value;
      Handled(Saved(db, j, db.posts[j].(tags := AsSet(ids))).(tags := t.tags, nextId := t.nextId),
              if c.Classified? then Done else ServiceError)
  }

  /**
   * The whole view: save the post, then analyse it, then classify it; an
   * exception stops the view where it is raised.
   */
  function SubmitPost(db: Db, viewer: Id, form: PostForm, publishNew: bool, now: Time,
                      entities: Option<seq<Entity>>, c: Classification): Handled
  {
    var h := CreatePost(db, viewer, form, publishNew, now);
    if h.outcome != Done then h
    else
      var h2 := AnalyseEntitySentiment(h.db, db.nextId, entities);
      if h2.outcome != Done then h2
      else
        CreatedIsFound(db.posts, h.db.posts[|db.posts|]);
        ClassifyPost(h2.db, db.nextId, c)
  }

  /** A row appended to a table can be found by its id. */
  lemma CreatedIsFound(posts: seq<Post>, x: Post)
    ensures Find(posts + [x], PostWithId(x.id)).Some?
  {
    if Find(posts, PostWithId(x.id)).None? {
      FindAppendOne(posts, x, PostWithId(x.id));
    } else {
      FindAppendFound(posts, [x], PostWithId(x.id));
    }
  }

  // ------------------------------------------------------------ creating a post

  /**
   * As written, creating a post needs the author's profile. The new post
   * gets the next fresh id, the viewer's profile as author, both timestamps
   * `now`, no tags, the posted title, content and counters, and is published
   * when the form says so or the view is `publish_new_post`; nothing else
   * changes.
   */
  lemma CreatePostAsWrittenEffect(db: Db, viewer: Id, form: PostForm, publishNew: bool, now: Time)
    ensures var h := CreatePostAsWritten(db, viewer, form, publishNew, now);
      var v := Find(db.profiles, UserIs(viewer));
      && (h.outcome == Done <==> v.Some?)
      && (h.outcome != Done ==> h.outcome == DoesNotExist && h.db == db)
      && (h.outcome == Done ==>
            var x := h.db.posts[|db.posts|];
            && h.db.posts == db.posts + [x]
            && x.id == db.nextId && x.author == db.profiles[v.value].id
            && x.title == form.title && x.content == form.content
            && x.createdAt == now && x.updatedAt == now
            && (x.isPublished <==> publishNew || form.isPublished) && x.tags == {}
            && x.totalLikes == form.totalLikes && x.totalComments == form.totalComments
            && x.totalShares == form.totalShares
            && h.db.(posts := db.posts, nextId := db.nextId) == db)
  {
  }

  /**
   * As written, a saved post keeps the invariant exactly when the posted
   * like and comment counters are zero: any other value disagrees with the
   * new post's rows, of which there are none.
   */
  lemma PostedCountersBreakValid(db: Db, viewer: Id, form: PostForm, publishNew: bool, now: Time)
    requires Valid(db)
    ensures var h := CreatePostAsWritten(db, viewer, form, publishNew, now);
      h.outcome == Done ==> (Valid(h.db) <==> form.totalLikes == 0 && form.totalComments == 0)
  {
    var h := CreatePostAsWritten(db, viewer, form, publishNew, now);
    if h.outcome == Done {
      var x := h.db.posts[|db.posts|];
      if form.totalLikes == 0 && form.totalComments == 0 {
        CreatedValid(db, x);
      } else {
        NothingOnFresh(db);
        assert x.id == db.nextId;
        assert !(x.totalLikes == LikesOn(db.likes, x.id) && x.totalComments == CommentsOn(db.comments, x.id));
      }
    }
  }

  /**
   * With the counters left out of the form, the new post starts with zero
   * counters; everything else is as written.
   */
  lemma CreatePostEffect(db: Db, viewer: Id, form: PostForm, publishNew: bool, now: Time)
    ensures var h := CreatePost(db, viewer, form, publishNew, now);
      var v := Find(db.profiles, UserIs(viewer));
      && (h.outcome == Done <==> v.Some?)
      && (h.outcome != Done ==> h.outcome == DoesNotExist && h.db == db)
      && (h.outcome == Done ==>
            var x := h.db.posts[|db.posts|];
            && h.db.posts == db.posts + [x]
            && x.id == db.nextId && x.author == db.profiles[v.value].id
            && x.title == form.title && x.content == form.content
            && x.createdAt == now && x.updatedAt == now
            && (x.isPublished <==> publishNew || form.isPublished) && x.tags == {}
            && x.totalLikes == 0 && x.totalComments == 0 && x.totalShares == 0
            && h.db.(posts := db.posts, nextId := db.nextId) == db)
  {
    CreatePostAsWrittenEffect(db, viewer, WithoutCounters(form), publishNew, now);
  }

  lemma CreatedRows(db: Db, x: Post)
    requires RowsValid(db.posts, db.likes, db.comments, db.nextId) && x.id == db.nextId
    ensures RowsValid(db.posts + [x], db.likes, db.comments, db.nextId + 1)
  {
    UniqueByAppend(db.posts, x, PostId);
  }

  lemma CreatedLinks(db: Db, x: Post)
    requires LinksValid(db.posts, db.likes, db.comments)
    ensures LinksValid(db.posts + [x], db.likes, db.comments)
  {
    forall i | 0 <= i < |db.likes| ensures Find(db.posts + [x], PostWithId(db.likes[i].post)).Some? {
      FindAppendFound(db.posts, [x], PostWithId(db.likes[i].post));
    }
    forall i | 0 <= i < |db.comments| ensures Find(db.posts + [x], PostWithId(db.comments[i].post)).Some? {
      FindAppendFound(db.posts, [x], PostWithId(db.comments[i].post));
    }
  }

  /** No like or comment points at the next fresh id yet. */
  lemma NothingOnFresh(db: Db)
    requires RowsValid(db.posts, db.likes, db.comments, db.nextId) && LinksValid(db.posts, db.likes, db.comments)
    ensures LikesOn(db.likes, db.nextId) == 0 && CommentsOn(db.comments, db.nextId) == 0
  {
    forall i | 0 <= i < |db.likes| ensures !LikeOn(db.nextId)(db.likes[i]) {
      var k := Find(db.posts, PostWithId(db.likes[i].post)).value;
      assert db.posts[k].id < db.nextId;
    }
    forall i | 0 <= i < |db.comments| ensures !CommentOn(db.nextId)(db.comments[i]) {
      var k := Find(db.posts, PostWithId(db.comments[i].post)).value;
      assert db.posts[k].id < db.nextId;
    }
    FilterNone(db.likes, LikeOn(db.nextId));
    FilterNone(db.comments, CommentOn(db.nextId));
  }

  /** Creating a post keeps the invariant: the new post's zero counters match its zero rows. */
  lemma CreatePostValid(db: Db, viewer: Id, form: PostForm, publishNew: bool, now: Time)
    requires Valid(db)
    ensures Valid(CreatePost(db, viewer, form, publishNew, now).db)
  {
    PostedCountersBreakValid(db, viewer, WithoutCounters(form), publishNew, now);
  }

  /** Inserting a post with the next fresh id and zero counters keeps the invariant. */
  lemma CreatedValid(db: Db, x: Post)
    requires Valid(db) && x.id == db.nextId && x.totalLikes == 0 && x.totalComments == 0
    ensures Valid(Created(db, x))
  {
    var d := Created(db, x);
    Grown(db, d.nextId);
    assert GeoOf(d) == GeoOf(db.(nextId := d.nextId));
    assert TaggingOf(d) == TaggingOf(db.(nextId := d.nextId));
    CreatedRows(db, x);
    CreatedLinks(db, x);
    CreatedCounts(db, x);
  }

  lemma CreatedCounts(db: Db, x: Post)
    requires RowsValid(db.posts, db.likes, db.comments, db.nextId) && LinksValid(db.posts, db.likes, db.comments)
    requires CountsValid(db.posts, db.likes, db.comments)
    requires x.id == db.nextId && x.totalLikes == 0 && x.totalComments == 0
    ensures CountsValid(db.posts + [x], db.likes, db.comments)
  {
    NothingOnFresh(db);
    var s := db.posts + [x];
    forall i | 0 <= i < |s|
      ensures s[i].totalLikes == LikesOn(db.likes, s[i].id) && s[i].totalComments == CommentsOn(db.comments, s[i].id)
    {
      if i < |db.posts| { assert s[i] == db.posts[i]; }
    }
  }

  // ------------------------------------------------------------ entity sentiment

  /**
   * `analyse_entity_sentiment` fails without writing when the service call
   * raises; otherwise it writes only locations, reviews and fresh ids, keeps
   * every location it had, and leaves the post's sentiment at each location
   * name to the last LOCATION entity with a PROPER mention and that lowered
   * name, every other (post, location name) pair's sentiment unchanged.
   */
  lemma AnalyseEffect(db: Db, pk: Id, response: Option<seq<Entity>>)
    requires GeoValid(GeoOf(db))
    ensures var h := AnalyseEntitySentiment(db, pk, response);
      && (h.outcome == Done <==> response.Some?)
      && (h.outcome != Done ==> h.outcome == ServiceError && h.db == db)
      && (h.outcome == Done ==>
            && h.db.(locations := db.locations, reviews := db.reviews, nextId := db.nextId) == db
            && db.nextId <= h.db.nextId
            && |db.locations| <= |h.db.locations| && h.db.locations[..|db.locations|] == db.locations
            && forall p, n :: Sentiment(GeoOf(h.db), p, n)
                 == if p == pk && LastSaid(response.value, n).Some? then LastSaid(response.value, n) else Sentiment(GeoOf(db), p, n))
  {
    if response.Some? {
      var es := response.value;
      var h := AnalyseEntitySentiment(db, pk, response);
      EntitiesDoneValid(GeoOf(db), pk, es, |es|);
      assert GeoOf(h.db) == Analysed(GeoOf(db), pk, es);
      assert es[..|es|] == es;
      forall p, n ensures Sentiment(GeoOf(h.db), p, n)
                 == if p == pk && LastSaid(es, n).Some? then LastSaid(es, n) else Sentiment(GeoOf(db), p, n)
      {
        EntitiesDoneSentiment(GeoOf(db), pk, es, |es|, p, n);
      }
    }
  }

  /** A response with no LOCATION entity that has a PROPER mention leaves the store as it was. */
  lemma AnalyseNothingStored(db: Db, pk: Id, es: seq<Entity>)
    requires GeoValid(GeoOf(db))
    requires forall i :: 0 <= i < |es| ==> !Stored(es[i])
    ensures AnalyseEntitySentiment(db, pk, Some(es)) == Handled(db, Done)
  {
    NothingStoredNoChange(GeoOf(db), pk, es, |es|);
  }

  lemma AnalyseValid(db: Db, pk: Id, response: Option<seq<Entity>>)
    requires Valid(db)
    ensures Valid(AnalyseEntitySentiment(db, pk, response).db)
  {
    if response.Some? {
      var h := AnalyseEntitySentiment(db, pk, response);
      EntitiesDoneValid(GeoOf(db), pk, response.value, |response.value|);
      assert GeoOf(h.db) == Analysed(GeoOf(db), pk, response.value);
      assert TaggingOf(h.db) == TaggingOf(db.(nextId := h.db.nextId));
    }
  }

  // ------------------------------------------------------------ classification

  /**
   * `classify_post` ends normally only when every category was handled; a
   * failure of `extract_document` leaves the store as it was. Otherwise the
   * tag table only grows (every old tag row kept), and of the posts only
   * this post's tag set changes.
   */
  lemma ClassifyEffect(db: Db, pk: Id, c: Classification)
    requires TagsValid(TaggingOf(db)) && Find(db.posts, PostWithId(pk)).Some?
    ensures var h := ClassifyPost(db, pk, c);
      var j := Find(db.posts, PostWithId(pk)).value;
      && (h.outcome == Done <==> c.Classified?)
      && (h.outcome != Done ==> h.outcome == ServiceError)
      && (c.DocumentFailed? ==> h.db == db)
      && db.nextId <= h.db.nextId
      && |db.tags| <= |h.db.tags| && h.db.tags[..|db.tags|] == db.tags
      && |h.db.posts| == |db.posts|
      && h.db.posts[j].(tags := db.posts[j].tags) == db.posts[j]
      && (forall i :: 0 <= i < |db.posts| && i != j ==> h.db.posts[i] == db.posts[i])
      && h.db.(tags := db.tags, nextId := db.nextId, posts := db.posts) == db
  {
    var cs := Processed(c);
    GatheredValid(TaggingOf(db), cs, |cs|);
  }

  /**
   * After `classify_post`, a tag is on the post exactly when its name is
   * the last `/`-segment of a handled category; every such segment names a
   * tag, and every tag on the post is a tag row.
   */
  lemma ClassifyTags(db: Db, pk: Id, c: Classification)
    requires TagsValid(TaggingOf(db)) && Find(db.posts, PostWithId(pk)).Some? && !c.DocumentFailed?
    ensures var h := ClassifyPost(db, pk, c);
      var tags := h.db.posts[Find(db.posts, PostWithId(pk)).value].tags;
      && (forall i :: 0 <= i < |h.db.tags| ==> (h.db.tags[i].id in tags <==> h.db.tags[i].name in Segments(Processed(c))))
      && (forall s :: s in Segments(Processed(c)) ==> Find(h.db.tags, NamedTag(s)).Some?)
      && (forall x :: x in tags ==> Find(h.db.tags, TagWithId(x)).Some?)
  {
    var cs := Processed(c);
    var (t, ids) := Gathered(TaggingOf(db), cs, |cs|);
    GatheredValid(TaggingOf(db), cs, |cs|);
    GatheredTags(TaggingOf(db), cs, |cs|);
    assert cs[..|cs|] == cs;
    forall s | s in Segments(cs) ensures Find(t.tags, NamedTag(s)).Some? {
      var j :| 0 <= j < |cs| && TagNameOf(cs[j]) == s;
      GatheredNamed(TaggingOf(db), cs, |cs|, j);
    }
  }

  lemma ClassifyValid(db: Db, pk: Id, c: Classification)
    requires Valid(db) && Find(db.posts, PostWithId(pk)).Some?
    ensures Valid(ClassifyPost(db, pk, c).db)
  {
    if !c.DocumentFailed? {
      var cs := Processed(c);
      var (t, ids) := Gathered(TaggingOf(db), cs, |cs|);
      GatheredBelow(TaggingOf(db), cs, |cs|);
      var j := Find(db.posts, PostWithId(pk)).value;
      var x := db.posts[j].(tags := AsSet(ids));
      TouchedValid(db, j, x);
      RetaggedValid(Saved(db, j, x), t);
      assert ClassifyPost(db, pk, c).db == Saved(db, j, x).(tags := t.tags, nextId := t.nextId);
    }
  }

  /** Replacing the tag table by a valid one with a later next id keeps the invariant. */
  lemma RetaggedValid(db: Db, t: Tagging)
    requires Valid(db) && TagsValid(t) && db.nextId <= t.nextId
    ensures Valid(db.(tags := t.tags, nextId := t.nextId))
  {
    var d := db.(tags := t.tags, nextId := t.nextId);
    Grown(db, t.nextId);
    assert GeoOf(d) == GeoOf(db.(nextId := t.nextId));
    assert TaggingOf(d) == t;
    assert RowsValid(d.posts, d.likes, d.comments, d.nextId);
  }

  /** Submitting a post keeps the invariant, however far the view gets. */
  lemma SubmitPostValid(db: Db, viewer: Id, form: PostForm, publishNew: bool, now: Time,
                        entities: Option<seq<Entity>>, c: Classification)
    requires Valid(db)
    ensures Valid(SubmitPost(db, viewer, form, publishNew, now, entities, c).db)
  {
    var h := CreatePost(db, viewer, form, publishNew, now);
    CreatePostValid(db, viewer, form, publishNew, now);
    if h.outcome == Done {
      var h2 := AnalyseEntitySentiment(h.db, db.nextId, entities);
      AnalyseValid(h.db, db.nextId, entities);
      if h2.outcome == Done {
        CreatedIsFound(db.posts, h.db.posts[|db.posts|]);
        ClassifyValid(h2.db, db.nextId, c);
      }
    }
  }
}
