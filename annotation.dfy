/**
 * What the two annotation ingestors of blog/views.py write, given the
 * response of the language service: `analyse_entity_sentiment` upserts a
 * Location and a LocationReview for every PROPER mention of a LOCATION
 * entity, and `classify_post` gets or creates a Tag per category and sets the
 * post's tags to them. Both are folds over the response, one step per loop
 * iteration of the source, so that the store's loops can be proved against
 * them.
 */
module Annotation {
  import opened Text
  import opened Models

  // ------------------------------------------------- entity-sentiment response

  /** `Entity.Type(entity.type).name`, reduced to the one value the ingestor tests for. */
  datatype EntityKind = LocationEntity | OtherEntity

  /** `EntityMention.Type(mention.type).name`, reduced to the one value the ingestor tests for. */
  datatype MentionKind = ProperMention | OtherMention

  /** One entity of `analyze_entity_sentiment`: its name, type, mentions and sentiment. */
  datatype Entity = Entity(name: string, kind: EntityKind, mentions: seq<MentionKind>, score: real, magnitude: real)

  /** The part of the store the sentiment ingestor touches. */
  datatype Geo = Geo(locations: seq<Location>, reviews: seq<LocationReview>, nextId: Id)

  function LocationWithId(id: Id): Location -> bool { (l: Location) => l.id == id }
  function NamedLocation(n: string): Location -> bool { (l: Location) => l.name == n }
  function ReviewOf(post: Id, location: Id): LocationReview -> bool
  {
    (r: LocationReview) => r.post == post && r.location == location
  }

  /**
   * Unique location ids and names, unique review ids, one review per
   * (post, location) pair, every review of an existing location, and every
   * id below the next fresh one.
   */
  ghost predicate GeoValid(g: Geo)
  {
    && UniqueBy(g.locations, LocationId)
    && UniqueBy(g.locations, LocationName)
    && UniqueBy(g.reviews, ReviewId)
    && UniqueBy(g.reviews, ReviewPair)
    && (forall i :: 0 <= i < |g.locations| ==> g.locations[i].id < g.nextId)
    && (forall j :: 0 <= j < |g.reviews| ==> g.reviews[j].id < g.nextId)
    && (forall j :: 0 <= j < |g.reviews| ==> Find(g.locations, LocationWithId(g.reviews[j].location)).Some?)
  }

  /** The id of the location named `n`, if there is one. */
  function IdNamed(locations: seq<Location>, n: string): Option<Id>
  {
    match Find(locations, NamedLocation(n))
    case None => None
    case Some(i) => Some(locations[i].id)
  }

  /** The sentiment and magnitude stored for `post` at the location named `n`, if any. */
  function Sentiment(g: Geo, post: Id, n: string): Option<(real, real)>
  {
    match IdNamed(g.locations, n)
    case None => None
    case Some(lid) =>
      match Find(g.reviews, ReviewOf(post, lid))
      case None => None
      case Some(j) => Some((g.reviews[j].sentiment, g.reviews[j].magnitude))
  }

  /** `Location.objects.get_or_create(name=n)`: the location named `n`, added with a fresh id when missing. */
  function LocationFor(g: Geo, n: string): (Geo, Id)
  {
    match Find(g.locations, NamedLocation(n))
    case Some(i) => (g, g.locations[i].id)
    case None => (g.(locations := g.locations + [Location(g.nextId, n)], nextId := g.nextId + 1), g.nextId)
  }

  /** `LocationReview.objects.update_or_create(post=.., location=.., defaults=...)`. */
  function ReviewFor(g: Geo, post: Id, location: Id, score: real, magnitude: real): Geo
  {
    match Find(g.reviews, ReviewOf(post, location))
    case Some(j) => g.(reviews := g.reviews[j := g.reviews[j].(sentiment := score, magnitude := magnitude)])
    case None => g.(reviews := g.reviews + [LocationReview(g.nextId, post, location, score, magnitude)], nextId := g.nextId + 1)
  }

  /** The body of the innermost loop, run for each PROPER mention of a LOCATION entity. */
  function Record(g: Geo, post: Id, e: Entity): Geo
  {
    var (g1, location) := LocationFor(g, Lower(e.name));
    ReviewFor(g1, post, location, e.score, e.magnitude)
  }

  /** The inner loop over the first `k` mentions of `e`. */
  function MentionsDone(g: Geo, post: Id, e: Entity, k: nat): Geo
    requires k <= |e.mentions|
  {
    if k == 0 then g
    else
      var h := MentionsDone(g, post, e, k - 1);
      if e.mentions[k - 1] == ProperMention then Record(h, post, e) else h
  }

  /** One iteration of the outer loop: only LOCATION entities are looked at. */
  function EntityDone(g: Geo, post: Id, e: Entity): Geo
  {
    if e.kind == LocationEntity then MentionsDone(g, post, e, |e.mentions|) else g
  }

  /** The outer loop over the first `k` entities. */
  function EntitiesDone(g: Geo, post: Id, es: seq<Entity>, k: nat): Geo
    requires k <= |es|
  {
    if k == 0 then g else EntityDone(EntitiesDone(g, post, es, k - 1), post, es[k - 1])
  }

  /** An entity the ingestor stores: a LOCATION with at least one PROPER mention. */
  predicate Stored(e: Entity)
  {
    e.kind == LocationEntity && ProperMention in e.mentions
  }

  /** The sentiment of the last stored entity whose lowered name is `n`. */
  function LastSaid(es: seq<Entity>, n: string): Option<(real, real)>
  {
    if es == [] then None
    else
      var e := es[|es| - 1];
      if Stored(e) && Lower(e.name) == n then Some((e.score, e.magnitude)) else LastSaid(es[..|es| - 1], n)
  }

  lemma ReviewLocationsAreOld(g: Geo)
    requires GeoValid(g)
    ensures forall j :: 0 <= j < |g.reviews| ==> g.reviews[j].location < g.nextId
  {
    forall j | 0 <= j < |g.reviews| ensures g.reviews[j].location < g.nextId {
      var i := Find(g.locations, LocationWithId(g.reviews[j].location)).value;
      assert g.locations[i].id < g.nextId;
    }
  }

  lemma LocationForValid(g: Geo, n: string)
    requires GeoValid(g)
    ensures var (g1, lid) := LocationFor(g, n);
      && GeoValid(g1)
      && g1.reviews == g.reviews
      && g.nextId <= g1.nextId
      && IdNamed(g1.locations, n) == Some(lid)
      && |g.locations| <= |g1.locations| && g1.locations[..|g.locations|] == g.locations
  {
    if Find(g.locations, NamedLocation(n)).None? {
      var x := Location(g.nextId, n);
      var g1 := LocationFor(g, n).0;
      UniqueByAppend(g.locations, x, LocationId);
      UniqueByAppend(g.locations, x, LocationName);
      FindAppendOne(g.locations, x, NamedLocation(n));
      forall j | 0 <= j < |g.reviews|
        ensures Find(g1.locations, LocationWithId(g.reviews[j].location)).Some?
      {
        FindAppendFound(g.locations, [x], LocationWithId(g.reviews[j].location));
      }
      assert g1.locations[..|g.locations|] == g.locations;
    }
  }

  /** Getting or creating the location named `n` changes the lookup of no other name, and no other name has its id. */
  lemma LocationForOthers(g: Geo, n: string, m: string)
    requires GeoValid(g) && m != n
    ensures var (g1, lid) := LocationFor(g, n);
      && IdNamed(g1.locations, m) == IdNamed(g.locations, m)
      && (IdNamed(g.locations, m).Some? ==> IdNamed(g.locations, m).value != lid)
  {
    var found := Find(g.locations, NamedLocation(n));
    if found.Some? {
      var i := found.value;
      var other := Find(g.locations, NamedLocation(m));
      if other.Some? {
        assert LocationName(g.locations[other.value]) != LocationName(g.locations[i]);
      }
    } else {
      var x := Location(g.nextId, n);
      if Find(g.locations, NamedLocation(m)).Some? {
        FindAppendFound(g.locations, [x], NamedLocation(m));
      } else {
        FindAppendOne(g.locations, x, NamedLocation(m));
      }
    }
  }

  lemma ReviewForSets(g: Geo, post: Id, location: Id, score: real, magnitude: real)
    requires GeoValid(g) && Find(g.locations, LocationWithId(location)).Some?
    ensures var g2 := ReviewFor(g, post, location, score, magnitude);
      && GeoValid(g2)
      && g2.locations == g.locations
      && g.nextId <= g2.nextId
      && Find(g2.reviews, ReviewOf(post, location)).Some?
      && g2.reviews[Find(g2.reviews, ReviewOf(post, location)).value].sentiment == score
      && g2.reviews[Find(g2.reviews, ReviewOf(post, location)).value].magnitude == magnitude
  {
    var g2 := ReviewFor(g, post, location, score, magnitude);
    match Find(g.reviews, ReviewOf(post, location))
    case Some(j) =>
      var x := g.reviews[j].(sentiment := score, magnitude := magnitude);
      UniqueByUpdate(g.reviews, j, x, ReviewId);
      UniqueByUpdate(g.reviews, j, x, ReviewPair);
      FindIs(g2.reviews, ReviewOf(post, location), j);
      assert forall k :: 0 <= k < |g2.reviews| ==> g2.reviews[k].location == g.reviews[k].location;
    case None =>
      var x := LocationReview(g.nextId, post, location, score, magnitude);
      UniqueByAppend(g.reviews, x, ReviewId);
      UniqueByAppend(g.reviews, x, ReviewPair);
      FindAppendOne(g.reviews, x, ReviewOf(post, location));
  }

  /** An upsert for one (post, location) pair leaves the lookup, and the row, of every other pair as it was. */
  lemma ReviewForOthers(g: Geo, post: Id, location: Id, score: real, magnitude: real, p: Id, l: Id)
    requires p != post || l != location
    ensures var g2 := ReviewFor(g, post, location, score, magnitude);
      var f := Find(g.reviews, ReviewOf(p, l));
      && Find(g2.reviews, ReviewOf(p, l)) == f
      && (f.Some? ==> g2.reviews[f.value] == g.reviews[f.value])
  {
    match Find(g.reviews, ReviewOf(post, location))
    case Some(j) =>
      var x := g.reviews[j].(sentiment := score, magnitude := magnitude);
      FindUpdate(g.reviews, j, x, ReviewOf(p, l));
    case None =>
      var x := LocationReview(g.nextId, post, location, score, magnitude);
      if Find(g.reviews, ReviewOf(p, l)).Some? {
        FindAppendFound(g.reviews, [x], ReviewOf(p, l));
      } else {
        FindAppendOne(g.reviews, x, ReviewOf(p, l));
      }
  }

  /**
   * One mention stored: the store stays valid, the locations only grow, and
   * the post's review of the location named by the lowered entity name holds
   * the entity's sentiment and magnitude.
   */
  lemma RecordSets(g: Geo, post: Id, e: Entity)
    requires GeoValid(g)
    ensures var r := Record(g, post, e);
      && GeoValid(r)
      && g.nextId <= r.nextId
      && |g.locations| <= |r.locations| && r.locations[..|g.locations|] == g.locations
      && Sentiment(r, post, Lower(e.name)) == Some((e.score, e.magnitude))
  {
    var (g1, lid) := LocationFor(g, Lower(e.name));
    LocationForValid(g, Lower(e.name));
    var i := Find(g1.locations, NamedLocation(Lower(e.name))).value;
    FindIs(g1.locations, LocationWithId(lid), i) by {
      forall k | 0 <= k < i ensures g1.locations[k].id != lid {
        assert LocationId(g1.locations[k]) != LocationId(g1.locations[i]);
      }
    }
    ReviewForSets(g1, post, lid, e.score, e.magnitude);
  }

  /** One mention stored changes the sentiment of no other (post, location name) pair. */
  lemma RecordKeepsOthers(g: Geo, post: Id, e: Entity, p: Id, n: string)
    requires GeoValid(g) && (p != post || n != Lower(e.name))
    ensures Sentiment(Record(g, post, e), p, n) == Sentiment(g, p, n)
  {
    if n == Lower(e.name) {
      RecordKeepsOtherPosts(g, post, e, p);
    } else {
      RecordKeepsOtherNames(g, post, e, p, n);
    }
  }

  lemma RecordKeepsOtherPosts(g: Geo, post: Id, e: Entity, p: Id)
    requires GeoValid(g) && p != post
    ensures Sentiment(Record(g, post, e), p, Lower(e.name)) == Sentiment(g, p, Lower(e.name))
  {
    var name := Lower(e.name);
    var (g1, lid) := LocationFor(g, name);
    LocationForValid(g, name);
    ReviewForOthers(g1, post, lid, e.score, e.magnitude, p, lid);
    var r := Record(g, post, e);
    assert r == ReviewFor(g1, post, lid, e.score, e.magnitude);
    assert IdNamed(r.locations, name) == Some(lid);
    if Find(g.locations, NamedLocation(name)).None? {
      ReviewLocationsAreOld(g);
      assert Find(g.reviews, ReviewOf(p, lid)).None?;
    }
  }

  lemma RecordKeepsOtherNames(g: Geo, post: Id, e: Entity, p: Id, n: string)
    requires GeoValid(g) && n != Lower(e.name)
    ensures Sentiment(Record(g, post, e), p, n) == Sentiment(g, p, n)
  {
    var name := Lower(e.name);
    var (g1, lid) := LocationFor(g, name);
    LocationForValid(g, name);
    LocationForOthers(g, name, n);
    var r := Record(g, post, e);
    assert r == ReviewFor(g1, post, lid, e.score, e.magnitude);
    assert IdNamed(r.locations, n) == IdNamed(g.locations, n);
    match IdNamed(g.locations, n)
    case None =>
    case Some(l) =>
      ReviewForOthers(g1, post, lid, e.score, e.magnitude, p, l);
  }

  /** Storing the same mention twice is storing it once. */
  lemma RecordIdempotent(g: Geo, post: Id, e: Entity)
    requires GeoValid(g)
    ensures Record(Record(g, post, e), post, e) == Record(g, post, e)
  {
    var r := Record(g, post, e);
    RecordSets(g, post, e);
    var i := Find(r.locations, NamedLocation(Lower(e.name))).value;
    assert LocationFor(r, Lower(e.name)) == (r, r.locations[i].id);
    var j := Find(r.reviews, ReviewOf(post, r.locations[i].id)).value;
    assert r.reviews[j := r.reviews[j].(sentiment := e.score, magnitude := e.magnitude)] == r.reviews;
  }

  /** However many PROPER mentions an entity has, it is stored once, or not at all without one. */
  lemma {:induction false} MentionsOnce(g: Geo, post: Id, e: Entity, k: nat)
    requires GeoValid(g) && k <= |e.mentions|
    ensures MentionsDone(g, post, e, k) == if ProperMention in e.mentions[..k] then Record(g, post, e) else g
  {
    if k > 0 {
      MentionsOnce(g, post, e, k - 1);
      assert e.mentions[..k] == e.mentions[..k - 1] + [e.mentions[k - 1]];
      if ProperMention in e.mentions[..k - 1] {
        RecordIdempotent(g, post, e);
      }
    }
  }

  lemma EntityDoneIsRecord(g: Geo, post: Id, e: Entity)
    requires GeoValid(g)
    ensures EntityDone(g, post, e) == if Stored(e) then Record(g, post, e) else g
  {
    MentionsOnce(g, post, e, |e.mentions|);
    assert e.mentions[..|e.mentions|] == e.mentions;
  }

  /** `analyse_entity_sentiment` over the first `k` entities keeps the store valid and only adds locations. */
  lemma {:induction false} EntitiesDoneValid(g: Geo, post: Id, es: seq<Entity>, k: nat)
    requires GeoValid(g) && k <= |es|
    ensures var r := EntitiesDone(g, post, es, k);
      && GeoValid(r)
      && g.nextId <= r.nextId
      && |g.locations| <= |r.locations| && r.locations[..|g.locations|] == g.locations
  {
    if k > 0 {
      EntitiesDoneValid(g, post, es, k - 1);
      var h := EntitiesDone(g, post, es, k - 1);
      var e := es[k - 1];
      EntityDoneIsRecord(h, post, e);
      if Stored(e) {
        RecordSets(h, post, e);
        var r := Record(h, post, e);
        assert r.locations[..|g.locations|] == r.locations[..|h.locations|][..|g.locations|];
      }
    }
  }

  lemma LastSaidStep(es: seq<Entity>, k: nat, n: string)
    requires 0 < k <= |es|
    ensures LastSaid(es[..k], n)
         == if Stored(es[k - 1]) && Lower(es[k - 1].name) == n then Some((es[k - 1].score, es[k - 1].magnitude))
            else LastSaid(es[..k - 1], n)
  {
    assert es[..k][..k - 1] == es[..k - 1];
  }

  /**
   * After the first `k` entities, the post's sentiment at each location name
   * is that of the last stored entity with that lowered name; every other
   * (post, location name) pair keeps its sentiment.
   */
  lemma {:induction false} EntitiesDoneSentiment(g: Geo, post: Id, es: seq<Entity>, k: nat, p: Id, n: string)
    requires GeoValid(g) && k <= |es|
    ensures Sentiment(EntitiesDone(g, post, es, k), p, n)
         == if p == post && LastSaid(es[..k], n).Some? then LastSaid(es[..k], n) else Sentiment(g, p, n)
  {
    if k > 0 {
      EntitiesDoneSentiment(g, post, es, k - 1, p, n);
      LastSaidStep(es, k, n);
      EntitiesDoneValid(g, post, es, k - 1);
      EntityDoneSentiment(EntitiesDone(g, post, es, k - 1), post, es[k - 1], p, n);
    }
  }

  /** One entity handled: it sets the sentiment of its own (post, lowered name) pair when stored, and of no other. */
  lemma EntityDoneSentiment(h: Geo, post: Id, e: Entity, p: Id, n: string)
    requires GeoValid(h)
    ensures Sentiment(EntityDone(h, post, e), p, n)
         == if p == post && Stored(e) && Lower(e.name) == n then Some((e.score, e.magnitude)) else Sentiment(h, p, n)
  {
    EntityDoneIsRecord(h, post, e);
    if Stored(e) {
      if p != post || n != Lower(e.name) {
        RecordKeepsOthers(h, post, e, p, n);
      } else {
        RecordSets(h, post, e);
      }
    }
  }

  /** `analyse_entity_sentiment` over a whole response. */
  function Analysed(g: Geo, post: Id, es: seq<Entity>): Geo
  {
    EntitiesDone(g, post, es, |es|)
  }

  /** A response with no LOCATION entity that has a PROPER mention writes nothing. */
  lemma {:induction false} NothingStoredNoChange(g: Geo, post: Id, es: seq<Entity>, k: nat)
    requires GeoValid(g) && k <= |es|
    requires forall i :: 0 <= i < |es| ==> !Stored(es[i])
    ensures EntitiesDone(g, post, es, k) == g
  {
    if k > 0 {
      NothingStoredNoChange(g, post, es, k - 1);
      EntityDoneIsRecord(g, post, es[k - 1]);
    }
  }

  // ------------------------------------------------------ classification response

  /** The part of the store `classify_post` touches, besides the post's own tag set. */
  datatype Tagging = Tagging(tags: seq<Tag>, nextId: Id)

  ghost predicate TagsValid(t: Tagging)
  {
    && UniqueBy(t.tags, TagId)
    && UniqueBy(t.tags, TagName)
    && (forall i :: 0 <= i < |t.tags| ==> t.tags[i].id < t.nextId)
  }

  function NamedTag(n: string): Tag -> bool { (x: Tag) => x.name == n }
  function TagWithId(id: Id): Tag -> bool { (x: Tag) => x.id == id }

  /** `category.name.split('/')[-1]`: a category path's last segment names the tag. */
  function TagNameOf(category: string): string
  {
    LastPiece(category, '/')
  }

  /** The tag names of the first categories. */
  function Segments(categories: seq<string>): set<string>
  {
    set j | 0 <= j < |categories| :: TagNameOf(categories[j])
  }

  /** `Tag.objects.get_or_create(name=n)`. */
  function TagFor(t: Tagging, n: string): (Tagging, Id)
  {
    match Find(t.tags, NamedTag(n))
    case Some(i) => (t, t.tags[i].id)
    case None => (t.(tags := t.tags + [Tag(t.nextId, n)], nextId := t.nextId + 1), t.nextId)
  }

  /** The loop over the first `k` categories: the tag table and the local `tags` list. */
  function Gathered(t: Tagging, categories: seq<string>, k: nat): (Tagging, seq<Id>)
    requires k <= |categories|
  {
    if k == 0 then (t, [])
    else
      var (t1, ids) := Gathered(t, categories, k - 1);
      var (t2, id) := TagFor(t1, TagNameOf(categories[k - 1]));
      (t2, ids + [id])
  }

  lemma TagForValid(t: Tagging, n: string)
    requires TagsValid(t)
    ensures var (t1, id) := TagFor(t, n);
      && TagsValid(t1)
      && t.nextId <= t1.nextId && id < t1.nextId
      && |t.tags| <= |t1.tags| && t1.tags[..|t.tags|] == t.tags
      && (forall i :: |t.tags| <= i < |t1.tags| ==> t1.tags[i] == Tag(id, n))
  {
    var (t1, id) := TagFor(t, n);
    if Find(t.tags, NamedTag(n)).None? {
      var x := Tag(t.nextId, n);
      UniqueByAppend(t.tags, x, TagId);
      UniqueByAppend(t.tags, x, TagName);
      assert t1.tags[..|t.tags|] == t.tags;
    }
  }

  /** The id `get_or_create` returns is that of the one tag named `n`. */
  lemma TagForIdentifies(t: Tagging, n: string)
    requires TagsValid(t)
    ensures var (t1, id) := TagFor(t, n);
      && (forall i :: 0 <= i < |t1.tags| ==> (t1.tags[i].id == id <==> t1.tags[i].name == n))
      && Find(t1.tags, TagWithId(id)).Some?
  {
    var (t1, id) := TagFor(t, n);
    match Find(t.tags, NamedTag(n))
    case Some(k) =>
      forall i | 0 <= i < |t.tags| ensures t.tags[i].id == id <==> t.tags[i].name == n {
        if t.tags[i].id == id { assert TagId(t.tags[i]) == TagId(t.tags[k]); }
        if t.tags[i].name == n { assert TagName(t.tags[i]) == TagName(t.tags[k]); }
      }
    case None =>
      FindIs(t1.tags, TagWithId(id), |t.tags|);
  }

  lemma TagForNamed(t: Tagging, n: string)
    ensures Find(TagFor(t, n).0.tags, NamedTag(n)).Some?
  {
    if Find(t.tags, NamedTag(n)).None? {
      FindIs(TagFor(t, n).0.tags, NamedTag(n), |t.tags|);
    }
  }

  lemma SegmentsStep(categories: seq<string>, k: nat)
    requires 0 < k <= |categories|
    ensures Segments(categories[..k]) == Segments(categories[..k - 1]) + {TagNameOf(categories[k - 1])}
  {
    var n := TagNameOf(categories[k - 1]);
    forall s | s in Segments(categories[..k]) ensures s in Segments(categories[..k - 1]) + {n} {
      var j :| 0 <= j < k && s == TagNameOf(categories[..k][j]);
      if j < k - 1 { assert categories[..k][j] == categories[..k - 1][j]; }
    }
    forall s | s in Segments(categories[..k - 1]) ensures s in Segments(categories[..k]) {
      var j :| 0 <= j < k - 1 && s == TagNameOf(categories[..k - 1][j]);
      assert categories[..k - 1][j] == categories[..k][j];
    }
    assert n == TagNameOf(categories[..k][k - 1]);
  }

  /** After the first `k` categories the tag table stays valid, only grows, and every gathered id is a tag's. */
  lemma {:induction false} GatheredValid(t: Tagging, categories: seq<string>, k: nat)
    requires TagsValid(t) && k <= |categories|
    ensures var (t1, ids) := Gathered(t, categories, k);
      && TagsValid(t1)
      && t.nextId <= t1.nextId
      && |t.tags| <= |t1.tags| && t1.tags[..|t.tags|] == t.tags
      && |ids| == k
      && (forall j :: 0 <= j < |ids| ==> Find(t1.tags, TagWithId(ids[j])).Some? && ids[j] < t1.nextId)
  {
    if k > 0 {
      GatheredValid(t, categories, k - 1);
      var (t1, ids) := Gathered(t, categories, k - 1);
      TagForExtends(t, t1, ids, TagNameOf(categories[k - 1]));
    }
  }

  /** One more `get_or_create` keeps the table valid and growing, and its id joins the gathered ones. */
  lemma TagForExtends(t: Tagging, t1: Tagging, ids: seq<Id>, n: string)
    requires TagsValid(t1)
    requires t.nextId <= t1.nextId && |t.tags| <= |t1.tags| && t1.tags[..|t.tags|] == t.tags
    requires forall j :: 0 <= j < |ids| ==> Find(t1.tags, TagWithId(ids[j])).Some? && ids[j] < t1.nextId
    ensures var (t2, id) := TagFor(t1, n);
      && TagsValid(t2)
      && t.nextId <= t2.nextId
      && |t.tags| <= |t2.tags| && t2.tags[..|t.tags|] == t.tags
      && (forall j :: 0 <= j < |ids + [id]| ==> Find(t2.tags, TagWithId((ids + [id])[j])).Some? && (ids + [id])[j] < t2.nextId)
  {
    var (t2, id) := TagFor(t1, n);
    TagForValid(t1, n);
    TagForIdentifies(t1, n);
    forall j | 0 <= j < |ids|
      ensures Find(t2.tags, TagWithId(ids[j])).Some?
    {
      assert t1.tags + t2.tags[|t1.tags|..] == t2.tags;
      FindAppendFound(t1.tags, t2.tags[|t1.tags|..], TagWithId(ids[j]));
    }
    assert t2.tags[..|t.tags|] == t2.tags[..|t1.tags|][..|t.tags|];
  }

  /** Getting or creating one tag keeps every tag that was there. */
  lemma TagForKeepsFound(t: Tagging, n: string, m: string)
    requires Find(t.tags, NamedTag(m)).Some?
    ensures Find(TagFor(t, n).0.tags, NamedTag(m)).Some?
  {
    if Find(t.tags, NamedTag(n)).None? {
      FindAppendFound(t.tags, [Tag(t.nextId, n)], NamedTag(m));
    }
  }

  /** After the first `k` categories, the `j`-th one's last segment names a tag. */
  lemma {:induction false} GatheredNamed(t: Tagging, categories: seq<string>, k: nat, j: nat)
    requires j < k <= |categories|
    ensures Find(Gathered(t, categories, k).0.tags, NamedTag(TagNameOf(categories[j]))).Some?
  {
    var t1 := Gathered(t, categories, k - 1).0;
    var n := TagNameOf(categories[k - 1]);
    assert Gathered(t, categories, k).0 == TagFor(t1, n).0;
    if j == k - 1 {
      TagForNamed(t1, n);
    } else {
      GatheredNamed(t, categories, k - 1, j);
      TagForKeepsFound(t1, n, TagNameOf(categories[j]));
    }
  }

  /**
   * After the first `k` categories a tag's id is gathered exactly when its
   * name is the last segment of one of those categories.
   */
  lemma {:induction false} GatheredTags(t: Tagging, categories: seq<string>, k: nat)
    requires TagsValid(t) && k <= |categories|
    ensures var (t1, ids) := Gathered(t, categories, k);
      forall i :: 0 <= i < |t1.tags| ==> (t1.tags[i].id in ids <==> t1.tags[i].name in Segments(categories[..k]))
  {
    if k > 0 {
      var (t1, ids) := Gathered(t, categories, k - 1);
      var n := TagNameOf(categories[k - 1]);
      GatheredTags(t, categories, k - 1);
      GatheredBelow(t, categories, k - 1);
      TagForNames(t1, ids, n, Segments(categories[..k - 1]));
      SegmentsStep(categories, k);
      assert Gathered(t, categories, k) == (TagFor(t1, n).0, ids + [TagFor(t1, n).1]);
    }
  }

  /** The table stays valid, its next id only grows, and every gathered id is below it. */
  lemma GatheredBelow(t: Tagging, categories: seq<string>, k: nat)
    requires TagsValid(t) && k <= |categories|
    ensures var (t1, ids) := Gathered(t, categories, k);
      TagsValid(t1) && t.nextId <= t1.nextId && forall j :: 0 <= j < |ids| ==> ids[j] < t1.nextId
  {
    GatheredValid(t, categories, k);
  }

  /** One more `get_or_create` of `n` adds `n` to the names whose tags are gathered. */
  lemma TagForNames(t1: Tagging, ids: seq<Id>, n: string, names: set<string>)
    requires TagsValid(t1)
    requires forall j :: 0 <= j < |ids| ==> ids[j] < t1.nextId
    requires forall i :: 0 <= i < |t1.tags| ==> (t1.tags[i].id in ids <==> t1.tags[i].name in names)
    ensures var (t2, id) := TagFor(t1, n);
      forall i :: 0 <= i < |t2.tags| ==> (t2.tags[i].id in ids + [id] <==> t2.tags[i].name in names + {n})
  {
    var (t2, id) := TagFor(t1, n);
    TagForValid(t1, n);
    TagForIdentifies(t1, n);
    forall i | 0 <= i < |t2.tags|
      ensures t2.tags[i].id in ids + [id] <==> t2.tags[i].name in names + {n}
    {
      if i < |t1.tags| {
        assert t2.tags[i] == t1.tags[i];
      } else {
        assert t2.tags[i] == Tag(id, n);
        assert id !in ids;
      }
    }
  }
}
