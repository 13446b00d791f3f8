# travel-cave blog core, modelled in Dafny

travel-cave is a Django travel blog. Profiles write posts about places. A
language service reads each post and picks out the locations it mentions and
the categories it belongs to. Readers like, comment on, reply to and share
posts. Profiles follow other profiles and locations. The profile page combines
several views of this data:

- the owner's activity timeline;
- a newsfeed of the people the owner follows;
- the reviews the language service attached to the owner's posts;
- the highlight of the whole blog;
- up to five recommended profiles;
- a digest of new location reviews since the previous login.

The home page lists the twelve most recent published posts and the twelve
trending locations of the past week.

This project models those views (blog/views.py) over the data model
(blog/models.py). Each piece takes the form the code has:

- `Text`: Python `str.split(sep)[-1]`, ASCII `lower()` and the decimal
  rendering of ids.
- `Models`: the rows, including the `Post` defaults and the `profile_image`
  upload path. It also has `Find`, the first row matching a filter, which
  `.get` and `get_or_create` are built from.
- `Sorting`: Python's stable `sorted(…, reverse=True)` by an integer key, and
  queryset slicing.
- `Activity`: `get_user_activities_sorted` and `get_newsfeed_sorted`. These
  concatenate likes, comments and posts and sort them stably, newest first.
- `Feed`: the ranked and aggregated parts of the two pages. These are the
  highlight, the location-update digest, the recommendation candidates and
  their sample of at most five, trending locations and recent posts.
- `Annotation`: the effect of `analyse_entity_sentiment` and `classify_post`
  on the locations, reviews and tags tables, written as folds over the
  language service's answer.
- `Handlers`: the whole database as a value, and its invariant `Valid`:
  - primary keys are unique and below the next free id;
  - likes and comments point at existing posts, and reviews at existing
    locations;
  - a reply is on the same post as its parent;
  - `total_likes` and `total_comments` equal the number of like and comment
    rows on the post;
  - usernames, tag names and location names are unique;
  - a post has at most one review per location.

  This module also holds the four follow views.
- `Posts`: the like, unlike, comment, reply, share, publish and delete views,
  and the cascade when a location is deleted.
- `Ingest`: `create_post` and `publish_new_post`, with the two language-service
  steps that follow the save. The posted `PostForm` is an input. `create_post`
  keeps its `is_published` checkbox, and `publish_new_post` sets the flag.
- `UserPage`: the newsfeed that only the owner sees, and the reviews of the
  owner's posts.
- `Store`: the database as a `class` whose tables are fields that the views
  update in place. Each view is a method. It is proved to make exactly the
  transition its function above describes and to keep `Valid`. The two
  ingestion loops stay loops. `view_user` is a method that only reads. Its
  random sample of recommendations is any list of candidates of a size the
  query allows, repeats included.

Each view answers with an outcome:

- `Done`;
- `DoesNotExist` or `MultipleObjectsReturned`, where `.get` would raise;
- `ServiceError`, where the language service fails.

A view that raises leaves the database as it was, except for what the code
has already saved before the failure.

The model follows the code in these places, where it behaves in ways a reader
might not expect:

- **Duplicate likes.** `like_post` does not check for an existing like, so a
  second like adds a second row and counts twice. `unlike_post` then fails with
  `MultipleObjectsReturned` (`Posts.DoubleLikeBlocksUnlike`). Unliking a post
  that was never liked raises `DoesNotExist`; it is not a no-op.
- **Recommendations.** The code recommends profiles that *follow* someone the
  subject follows (`users_following__in`), or that follow a location the
  subject follows. It excludes only the viewer, so the subject can be
  recommended (`Feed.SubjectCanBeRecommended`).
- **Trending.** Locations are not filtered to published posts.
- **Digest.** With no previous login, the session default is "now". Because the
  comparison is strict, the digest is then normally empty.
- **Timeline ties.** Rows with equal timestamps keep the order likes, comments,
  posts, because the sort is stable (`Activity.ActivitiesTieOrder`).
- **Timestamps.** Every `post.save()` refreshes `updated_at` (`auto_now`).
  `post.tags.set` does not.

Timestamps are integers (seconds); the trending window is 604800 seconds.

## Model

| member | source | states |
|---|---|---|
| Text.Split | blog/views.py:190 | `str.split` gives at least one piece, and no piece contains the separator |
| Text.JoinSplit | blog/views.py:190 | joining the pieces of a split with the separator gives the original string back |
| Text.SplitJoin | blog/views.py:190 | splitting pieces that were joined, none containing the separator, gives the same pieces back |
| Text.SplitNoSep | blog/views.py:190 | a string without the separator splits into itself alone |
| Text.SinglePieceIffNoSep | blog/views.py:190 | a split has exactly one piece iff the separator does not occur |
| Text.LastPieceIsSuffix | blog/views.py:190 | `[-1]` of a split is the longest separator-free suffix; the character before it is the separator |
| Text.LastPieceUnique | blog/views.py:190 | any separator-free suffix preceded by the separator is the last piece |
| Text.LastPieceAfter | blog/views.py:190 | the last segment of a category path `prefix/name` is `name` |
| Text.Lower | blog/views.py:173 | `lower()` keeps the length and leaves no upper-case letter |
| Text.LowerIdempotent | blog/views.py:173 | lowering twice is lowering once, so a location name is stored in one canonical form |
| Text.LowerKeeps | blog/views.py:173 | characters that are not upper-case letters are unchanged |
| Text.Decimal | blog/models.py:16 | `format` of a user id is a nonempty string of digits |
| Text.DecimalRoundTrip | blog/models.py:16 | parsing the rendered id gives the id back |
| Models.ProfileImageParts | blog/models.py:8-16 | the upload path is `image/user_<id>.<ext>`; the id can be read back from it, and its extension is the file name's last `.`-segment |
| Models.Find | blog/views.py:317 | the row `.get` finds is the first that matches, and none matches when it finds nothing |
| Models.FindUnique | blog/models.py:39 | with a unique key, the lookup by that key finds the row that has it |
| Sorting.SortPermutes | blog/views.py:250-251 | sorting is a permutation of its input |
| Sorting.SortKeepsMembers | blog/views.py:250-251 | a row is in the sorted list exactly when it is in the input |
| Sorting.SortSorted | blog/views.py:250-251 | `sorted(…, reverse=True)` is non-increasing in the key |
| Sorting.SortStable | blog/views.py:250-251 | the rows with any one key keep their input order |
| Sorting.StableArrangementUnique | blog/views.py:250-251 | two non-increasing sequences that keep every key's rows in the same order are equal, so a stable sort has one result |
| Sorting.SortKeepsDistinct | blog/views.py:44-48 | sorting keeps rows distinct by any projection |
| Sorting.LeftOutIsOutranked | blog/views.py:48 | a row cut off by the `[:n]` slice of a sorted list is outranked by all n rows shown |
| Sorting.TakeKeeps | blog/views.py:41 | a row before position n survives the `[:n]` slice |
| Activity.UserActivities | blog/views.py:245-252 | there is no timeline (the profile `.get` raises) exactly when no profile has the username |
| Activity.ActivitiesArePermutation | blog/views.py:245-252 | the timeline holds exactly the actor's likes, comments and posts, each once |
| Activity.ActivitiesNewestFirst | blog/views.py:250-251 | the timeline is newest first |
| Activity.ActivitiesTieOrder | blog/views.py:250-251 | at equal timestamps: likes, then comments, then posts, each in the order its queryset returned them |
| Activity.MergeIgnoresQueryOrder | blog/views.py:250-251 | the timeline is the stable sort of the concatenated rows, however they were chained |
| Activity.UnsortedByActors | blog/views.py:256-258 | each filtered row belongs to one of the given actors |
| Activity.ActivitiesByActors | blog/views.py:255-261 | every newsfeed entry was made by a followed profile |
| Activity.EmptyFollowingEmptyFeed | blog/views.py:255-261 | following nobody gives an empty newsfeed |
| Feed.Highlight | blog/views.py:222-225 | no highlight iff nothing is published; otherwise it is a published post that no published post outranks on (created, likes, comments, shares) |
| Feed.Groups | blog/views.py:236 | `.values('location')` lists each location with reviews exactly once |
| Feed.Tally | blog/views.py:237 | each group's total is the number of reviews at that location |
| Feed.TallySum | blog/views.py:236-237 | the group totals add up to the number of reviews grouped |
| Feed.DigestAscending | blog/views.py:237 | the digest is ordered by ascending total |
| Feed.DigestEntries | blog/views.py:233-237 | each digest entry is a followed location, counting its new reviews (at least one) |
| Feed.NewReviewFollowed | blog/views.py:234 | every counted review is at a followed location |
| Feed.DigestComplete | blog/views.py:233-237 | every location with a new review appears in the digest |
| Feed.DigestDistinct | blog/views.py:236 | no location appears twice in the digest |
| Feed.DigestSum | blog/views.py:233-237 | the digest totals add up to the number of new reviews |
| Feed.Candidates | blog/views.py:227-230 | a profile is a candidate iff it follows a profile or location the subject follows and is not the viewer |
| Feed.ViewerNotRecommended | blog/views.py:230 | the viewer's own profile is never a candidate |
| Feed.SubjectCanBeRecommended | blog/views.py:227-230 | the subject, when following someone, is a candidate for any other viewer |
| Feed.SampleRecommended | blog/views.py:227-230 | `.distinct().order_by('?')[:5]` gives only candidates, at most five and at least min(5, n) rows, repeats allowed |
| Feed.TrendSource | blog/views.py:44-46 | each trend is a location with its count of distinct likes in the window, which is positive |
| Feed.TrendsComplete | blog/views.py:44-46 | every location liked in the window has a trend |
| Feed.TrendsDistinct | blog/views.py:44-46 | no location trends twice |
| Feed.TrendingMostLikedFirst | blog/views.py:44-48 | at most 12 trending locations, most liked first |
| Feed.TrendingEntries | blog/views.py:44-48 | each trending entry is a location with its positive like count over the past 7 days |
| Feed.TrendingDistinct | blog/views.py:44-48 | no location is listed twice |
| Feed.TrendingTopTwelve | blog/views.py:48 | a liked location left out means 12 locations with at least its likes are listed |
| Feed.RecentPostsShown | blog/views.py:41 | at most 12 published posts from the table, newest first |
| Feed.RecentPostsNewest | blog/views.py:41 | a published post left out means 12 posts at least as new are shown |
| Annotation.LocationForValid | blog/views.py:172-174 | `get_or_create` on the lower-cased name yields the unique location of that name, keeps the existing rows and the invariant |
| Annotation.LocationForOthers | blog/views.py:172-173 | other names keep the location they had, and it is not the one returned |
| Annotation.ReviewForSets | blog/views.py:175-179 | after `update_or_create` the (post, location) review exists with the new score and magnitude, the invariant holds |
| Annotation.ReviewForOthers | blog/views.py:175-178 | reviews of other (post, location) pairs are untouched |
| Annotation.RecordSets | blog/views.py:168-179 | recording an entity gives the post that entity's sentiment for its lower-cased name |
| Annotation.RecordKeepsOthers | blog/views.py:168-179 | recording changes no other (post, name) sentiment |
| Annotation.RecordIdempotent | blog/views.py:172-179 | recording the same entity twice is recording it once |
| Annotation.MentionsOnce | blog/views.py:163-165 | the mention loop has the effect of one record iff some mention is PROPER |
| Annotation.EntityDoneIsRecord | blog/views.py:162-179 | a LOCATION entity with a PROPER mention is recorded; any other changes nothing |
| Annotation.EntitiesDoneValid | blog/views.py:161-179 | the entity loop keeps the invariant and existing locations |
| Annotation.EntityDoneSentiment | blog/views.py:162-179 | one entity handled sets its own (post, lowered name) sentiment when it is a LOCATION with a PROPER mention, and no other |
| Annotation.EntitiesDoneSentiment | blog/views.py:161-179 | afterwards a (post, name) sentiment is the last one the response said for it, else unchanged |
| Annotation.NothingStoredNoChange | blog/views.py:161-165 | a response with nothing to store changes nothing |
| Annotation.TagForValid | blog/views.py:191-192 | tag `get_or_create` keeps the tags unique, existing rows in place, and appends only the new tag |
| Annotation.TagForIdentifies | blog/views.py:191 | the id returned belongs to exactly the rows with that name |
| Annotation.TagForNamed | blog/views.py:191 | after `get_or_create` a tag of that name exists |
| Annotation.GatheredValid | blog/views.py:189-193 | the category loop keeps the invariant and collects one existing tag id per category |
| Annotation.GatheredNamed | blog/views.py:189-193 | every category handled so far has its tag |
| Annotation.GatheredTags | blog/views.py:189-195 | a tag's id is collected iff its name is the last segment of a category handled |
| Handlers.FollowUserEffect | blog/views.py:264-269 | done iff both profiles exist; only the viewer's followed set gains the target; otherwise nothing changes |
| Handlers.FollowUserIdempotent | blog/views.py:268 | following twice is following once |
| Handlers.UnfollowUserEffect | blog/views.py:272-277 | done iff both exist; only the viewer's followed set loses the target; a missing edge is a no-op |
| Handlers.FollowThenUnfollowUser | blog/views.py:264-277 | follow then unfollow leaves the followed set without the target |
| Handlers.FollowLocationEffect | blog/views.py:280-285 | done iff the location and viewer exist; only the viewer's followed locations gain it |
| Handlers.FollowLocationIdempotent | blog/views.py:284 | following a location twice is following it once |
| Handlers.UnfollowLocationEffect | blog/views.py:288-293 | done iff both exist; only the viewer's followed locations lose it; a missing edge is a no-op |
| Posts.Unfollowing | blog/models.py:30-31 | after a location is deleted no profile follows it; each profile keeps its other followed locations and every other field |
| Posts.LikedValid | blog/views.py:318-321 | adding a like row and incrementing `total_likes` keeps the invariant |
| Posts.LikePostEffect | blog/views.py:315-322 | done iff post and viewer exist; one like row appended, `total_likes` +1, `updated_at` refreshed, nothing else |
| Posts.LikePostValid | blog/views.py:315-322 | liking keeps the invariant |
| Posts.UnlikePostEffect | blog/views.py:325-332 | done iff exactly one like of the viewer exists; two or more raise MultipleObjectsReturned; that row is removed and the count decremented |
| Posts.UnlikedEffect | blog/views.py:328-331 | deleting the viewer's one like row of the post removes exactly that row, leaves the viewer no like of the post, and lowers only that post's count by one |
| Posts.UnlikedValid | blog/views.py:329-331 | deleting a like row and decrementing its post's count keeps the invariant |
| Posts.UnlikePostValid | blog/views.py:325-332 | unliking keeps the invariant |
| Posts.LikeThenUnlike | blog/views.py:315-332 | a first like undone by an unlike restores the database except `updated_at` and the consumed id |
| Posts.DoubleLikeBlocksUnlike | blog/views.py:318-328 | liking twice succeeds twice, and the unlike then raises MultipleObjectsReturned |
| Posts.CommentedValid | blog/views.py:339-343 | adding a comment whose parent is on the same post, and incrementing `total_comments`, keeps the invariant |
| Posts.CommentPostEffect | blog/views.py:335-344 | done iff post and viewer exist; a top-level comment appended, `total_comments` +1, nothing else |
| Posts.CommentPostValid | blog/views.py:335-344 | commenting keeps the invariant |
| Posts.ReplyCommentEffect | blog/views.py:347-357 | done iff the parent comment, its post and the viewer exist; the reply goes on the parent's post with that parent |
| Posts.ReplyCommentValid | blog/views.py:347-357 | replying keeps the invariant |
| Posts.SharePostEffect | blog/views.py:360-365 | done iff the post exists; only `total_shares` +1 and `updated_at` |
| Posts.SharePostValid | blog/views.py:360-365 | sharing keeps the invariant |
| Posts.PublishPostEffect | blog/views.py:368-373 | done iff the post exists; it is published, only `updated_at` else changes; publishing again has the same effect |
| Posts.PublishPostValid | blog/views.py:368-373 | publishing keeps the invariant |
| Posts.DeletePostEffect | blog/views.py:208-212 | done iff the post exists; the post and exactly its likes, comments and reviews are gone (cascade) |
| Posts.RepliesAfterDelete | blog/models.py:89-91 | deleting a post's comments leaves no reply without its parent |
| Posts.DeletedCounts | blog/models.py:77 | the cascade keeps the remaining posts' like and comment totals right |
| Posts.DeletePostValid | blog/views.py:208-212 | deleting a post keeps the invariant |
| Posts.DeleteLocationEffect | blog/models.py:102-104 | deleting a location removes it, exactly its reviews and every follow of it |
| Posts.DeleteLocationValid | blog/models.py:102-104 | deleting a location keeps the invariant |
| Ingest.CreatedIsFound | blog/views.py:85 | the `.get` of the saved post finds it |
| Ingest.CreatePostAsWrittenEffect | blog/views.py:77-84 | as written: done iff the author's profile exists; one post appended with the fresh id, the form's title, content, flag and counters (the flag forced by `publish_new_post`, line 67), no tags |
| Ingest.PostedCountersBreakValid | blog/views.py:82-84 | as written: the saved post keeps the invariant iff the posted like and comment counters are zero |
| Ingest.CreatePostEffect | blog/views.py:77-84 | with the counters left out of the form: as written, but with zero counters |
| Ingest.NothingOnFresh | blog/models.py:64-65 | a fresh id has no likes or comments, so zero totals are right |
| Ingest.CreatedValid | blog/views.py:84 | inserting a post with the next fresh id and zero counters keeps the invariant |
| Ingest.CreatePostValid | blog/views.py:77-84 | with the counters left out of the form, saving a new post keeps the invariant |
| Ingest.AnalyseEffect | blog/views.py:158-179 | a failed call changes nothing; otherwise only locations, reviews and ids change, and each sentiment becomes the last one said for it |
| Ingest.AnalyseNothingStored | blog/views.py:161-165 | an answer without PROPER location mentions changes nothing |
| Ingest.AnalyseValid | blog/views.py:158-179 | entity analysis keeps the invariant |
| Ingest.ClassifyEffect | blog/views.py:182-195 | done iff classified; only tags, ids and this post's tag set change |
| Ingest.ClassifyTags | blog/views.py:189-195 | the post gets exactly the tags named by the categories handled; each exists |
| Ingest.ClassifyValid | blog/views.py:182-195 | classification keeps the invariant |
| Ingest.SubmitPostValid | blog/views.py:77-88 | with the counters left out of the form, the whole create view keeps the invariant |
| UserPage.NewsfeedPrivate | blog/views.py:218-219 | only the owner sees a newsfeed; it holds only followed actors, newest first |
| UserPage.ReviewsOfAuthorMembers | blog/views.py:220-221 | a review is listed iff it is on a post by the profile |
| Store.Store.constructor | blog/models.py:19-109 | the store starts empty and consistent |
| Store.Store.FollowUser | blog/views.py:264-269 | makes the `Handlers.FollowUser` transition and keeps `Valid` |
| Store.Store.UnfollowUser | blog/views.py:272-277 | makes the `Handlers.UnfollowUser` transition and keeps `Valid` |
| Store.Store.FollowLocation | blog/views.py:280-285 | makes the `Handlers.FollowLocation` transition and keeps `Valid` |
| Store.Store.UnfollowLocation | blog/views.py:288-293 | makes the `Handlers.UnfollowLocation` transition and keeps `Valid` |
| Store.Store.LikePost | blog/views.py:315-322 | makes the `Posts.LikePost` transition and keeps `Valid` |
| Store.Store.UnlikePost | blog/views.py:325-332 | makes the `Posts.UnlikePost` transition and keeps `Valid` |
| Store.Store.AddLike | blog/views.py:318-321 | appends the like row and updates its post as `Posts.Liked` says |
| Store.Store.RemoveLike | blog/views.py:329-331 | deletes the like row and updates its post as `Posts.Unliked` says |
| Store.Store.SavePost | blog/views.py:364 | replaces the one post row as `Posts.Saved` says, nothing else |
| Store.Store.DropPost | blog/views.py:211 | deletes the post and its likes, comments and reviews as `Posts.WithoutPost` says |
| Store.Store.AddPost | blog/views.py:84 | appends the post row with the next fresh id as `Ingest.Created` says |
| Store.Store.RecordEntities | blog/views.py:161-179 | the outer loop computes `Annotation.Analysed` over every entity and writes only locations, reviews and ids |
| Store.Store.RecordEntity | blog/views.py:162-179 | the inner loop computes `Annotation.EntityDone` for one entity and writes only locations, reviews and ids |
| Store.Store.AddComment | blog/views.py:339-343 | appends the comment and updates its post as `Posts.Commented` says |
| Store.Store.CommentPost | blog/views.py:335-344 | makes the `Posts.CommentPost` transition and keeps `Valid` |
| Store.Store.ReplyComment | blog/views.py:347-357 | makes the `Posts.ReplyComment` transition and keeps `Valid` |
| Store.Store.SharePost | blog/views.py:360-365 | makes the `Posts.SharePost` transition and keeps `Valid` |
| Store.Store.PublishPost | blog/views.py:368-373 | makes the `Posts.PublishPost` transition and keeps `Valid` |
| Store.Store.DeletePost | blog/views.py:208-212 | makes the `Posts.DeletePost` transition and keeps `Valid` |
| Store.Store.DeleteLocation | blog/models.py:102-104 | makes the `Posts.DeleteLocation` transition and keeps `Valid` |
| Store.Store.CreatePost | blog/views.py:77-84 | makes the `Ingest.CreatePost` transition and keeps `Valid` |
| Store.Store.RecordMention | blog/views.py:172-179 | the location and review upsert for one mention is `Annotation.Record`; other tables are untouched |
| Store.Store.AnalyseEntitySentiment | blog/views.py:158-179 | through its two loops, makes the `Ingest.AnalyseEntitySentiment` transition and keeps `Valid` |
| Store.Store.TagNamed | blog/views.py:191-192 | the tag `get_or_create` is `Annotation.TagFor`; other tables are untouched |
| Store.Store.GatherTags | blog/views.py:189-193 | the category loop computes `Annotation.Gathered` over all categories |
| Store.Store.ClassifyPost | blog/views.py:182-195 | makes the `Ingest.ClassifyPost` transition and keeps `Valid` |
| Store.Store.SubmitPost | blog/views.py:77-88 | makes the `Ingest.SubmitPost` transition and keeps `Valid` |
| Store.Store.ViewUser | blog/views.py:215-242 | no page iff no profile has the username; otherwise the page holds the timeline, newsfeed, reviews, highlight, digest, and between min(5, n) and five of the n candidates, repeats allowed |

## Left out

- The language service client, `extract_document` and the network call are
  not modelled. Their answers are inputs: the entity list or a failure for
  `analyse_entity_sentiment`, and a `Classification` for `classify_post`.
  `Classification` says whether the categories came back, the request failed,
  or storage stopped after some tags.
- Other database errors are not modelled, apart from `.get` failing and the
  interrupted tag storage above. Transactions and concurrent requests are not
  modelled either, so lost counter updates under races are out of scope.
- `explore` (PostgreSQL full-text `SearchRank`) is not part of this model. Nor
  are `view_post`, `view_location`, `view_tag`, `my_posts`, `edit_post`,
  `users` and the forms.
- Authentication, `register`, `login_view`, `logout_view` and sessions are not
  modelled. The signed-in user is a parameter. The previous login is an
  optional timestamp parameter, which stands for `parse_datetime` of the
  session value.
- `Store.Store.ViewUser` is modelled for a signed-in viewer only. An anonymous
  viewer, who has no profile, is not modelled.
- Templates, redirects and HTTP status codes are not modelled; a view's result
  is its outcome. A missing `request.POST` key is not modelled either.
- `Feed.Trending`: does not compute the `average_sentiment` annotation. That is
  a floating-point average used only for display.
- `Store.Store.ViewUser`: `order_by('?')` is modelled as an arbitrary choice
  of candidates. The shuffled order and the distribution are not modelled.
- `Store.Store.ViewUser`: `activities`, `updates` and `reviews` are stated as
  the one order that `Activity.ActivitiesOf`, `Feed.Digest` and
  `UserPage.ReviewsOfAuthor` produce. The program fixes the first two only up
  to the ties described below, and it does not order `reviews` at all.
- `Feed.SampleRecommended`: how many rows the two follow joins give each
  candidate is not modelled. So the exact number of profiles shown, between
  min(5, n) and five, is not fixed, and neither is which profiles repeat.
- `Text.Lower`: folds only ASCII A–Z. Python's `lower()` also folds other
  Unicode letters.
- Field lengths (`max_length`), `slug` generation and image storage are not
  modelled. Profile fields that no view reads are left out.
- `Handlers.Valid` does not require a post's tag ids to name existing tags, nor
  reviews to point at existing posts. No modelled view breaks either: tags
  are never deleted, and deleting a post deletes its reviews. No property
  here needs them, so they are not part of the invariant.
- `edit_post` is not modelled. It saves the same `PostForm` over an existing
  post, so it can overwrite the like and comment counters with posted values.
- The order of rows the database leaves open is not modelled. Posts, likes
  and comments are ordered only by `-created_at` (blog/models.py:69, 81 and
  96), so rows with equal keys may come back in any order. The model takes
  table order in these places:
  - `Activity.Chained`: likes, comments or posts with equal `created_at`;
  - `Feed.Highlight`: posts equal on all four keys;
  - `Feed.Digest`: locations with equal totals;
  - `Feed.Trending`: locations with equal like counts;
  - `Feed.RecentPosts`: posts with equal `created_at`;
  - `UserPage.ReviewsOfAuthor`: all of the reviews on the profile page.
    `LocationReview` has no ordering (blog/models.py:102-109), and blog/views.py:221
    adds none. Only the membership in `UserPage.ReviewsOfAuthorMembers` is
    promised.
- `Handlers.Db`: one `nextId` serves every table, where the database has one
  id sequence per table. Ids are compared only within a table, so only the
  values of the ids differ.
- An invalid `PostForm` (status 400) writes nothing and is not modelled.
- Deleting a location is the `CASCADE` rule of blog/models.py:104 together with
  the removal of its follow rows. No view deletes a location.
- Deleting a profile (the `DO_NOTHING` links of likes and comments) and
  deleting a single comment are not modelled. No view does either.

## Findings

| source | as written | input that shows it | evidently intended | confidence | as-written member | corrected member |
|---|---|---|---|---|---|---|
| blog/forms.py:12 | `PostForm` excludes only `created_at` and `author`, so `create_post` and `publish_new_post` save the posted `total_likes`, `total_comments` and `total_shares` into the new post | a `create_post` request with `total_likes=3` from a user with a profile: the new post claims three likes and has no like rows | a new post starts with the zero defaults of blog/models.py:64-66, and only the like and comment views move the counters | likely; not executed | Ingest.PostedCountersBreakValid | Ingest.CreatePostValid |
