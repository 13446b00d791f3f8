/**
 * The records of the blog (Profile, Tag, Location, Post, PostLike, Comment,
 * LocationReview) as values, the upload path of a profile image, and the
 * generic row queries (filter, first match) that the views run against the
 * tables.
 */
module Models {
  import opened Text

  datatype Option<T> = None | Some(value: T)

  /** Primary keys; one id space per table is enough, the store draws all of them from one counter. */
  type Id = nat

  /** Timestamps, in seconds. */
  type Time = int

  /**
   * A user's profile. `usersFollowing` is the non-symmetric many-to-many to
   * other profiles, `locationsFollowing` the one to locations. The user's
   * username (from the auth user the profile is tied to) is kept here.
   */
  datatype Profile = Profile(
    id: Id,
    userId: Id,
    username: string,
    usersFollowing: set<Id>,
    locationsFollowing: set<Id>)

  /** Tag names are unique (a unique column). */
  datatype Tag = Tag(id: Id, name: string)

  /** Location names are unique (a unique column). */
  datatype Location = Location(id: Id, name: string)

  /** A blog post; `tags` is its many-to-many to Tag. */
  datatype Post = Post(
    id: Id,
    author: Id,
    title: string,
    content: string,
    createdAt: Time,
    updatedAt: Time,
    isPublished: bool,
    tags: set<Id>,
    totalLikes: int,
    totalComments: int,
    totalShares: int)

  datatype PostLike = PostLike(id: Id, user: Id, post: Id, createdAt: Time)

  /** A comment; `parent` is set on a reply. */
  datatype Comment = Comment(id: Id, user: Id, post: Id, parent: Option<Id>, message: string, createdAt: Time)

  /** Sentiment and magnitude are stored and overwritten, never computed with. */
  datatype LocationReview = LocationReview(id: Id, post: Id, location: Id, sentiment: real, magnitude: real)

  /** A post with the field defaults of blog/models.py:58 and 64-66, both timestamps `now`. */
  function NewPost(id: Id, author: Id, title: string, content: string, now: Time): Post
  {
    Post(id, author, title, content, now, now, false, {}, 0, 0, 0)
  }

  /**
   * The fields of `PostForm` (blog/forms.py:7-12) that `save(commit=False)`
   * copies into the new row: every editable `Post` field except `created_at`
   * and `author`, so the three counters are posted fields too.
   */
  datatype PostForm = PostForm(
    title: string,
    content: string,
    isPublished: bool,
    totalLikes: int,
    totalComments: int,
    totalShares: int)

  /** Where the image uploaded by user `userId` is stored: `image/user_<id>.<extension of filename>`. */
  function ProfileImage(userId: Id, filename: string): string
  {
    "image/user_" + Decimal(userId) + "." + LastPiece(filename, '.')
  }

  /**
   * The path keeps the extension of the uploaded file (the text after its
   * last dot, or the whole name), starts with `image/user_`, and the digits
   * between that prefix and the last dot read back as the user id.
   */
  lemma ProfileImageParts(userId: Id, filename: string)
    ensures var path := ProfileImage(userId, filename);
      var ext := LastPiece(filename, '.');
      var digits := Decimal(userId);
      && LastPiece(path, '.') == ext
      && path[..11] == "image/user_"
      && |path| == 11 + |digits| + 1 + |ext|
      && path[11..11 + |digits|] == digits
      && ParseDecimal(path[11..11 + |digits|]) == userId
  {
    var ext := LastPiece(filename, '.');
    var digits := Decimal(userId);
    var path := ProfileImage(userId, filename);
    LastPieceIsSuffix(filename, '.');
    LastPieceAfter("image/user_" + digits, '.', ext);
    assert path == "image/user_" + digits + "." + ext;
    assert path[11..11 + |digits|] == digits;
    DecimalRoundTrip(userId);
  }

  /** The rows of `s` that satisfy `p`, in order: a `filter(...)` query. */
  function Filter<T>(s: seq<T>, p: T -> bool): seq<T>
  {
    if s == [] then [] else (if p(s[0]) then [s[0]] else []) + Filter(s[1..], p)
  }

  /** A row is in the filtered rows exactly when it is a row that passes the filter. */
  lemma {:induction false} FilterMembers<T>(s: seq<T>, p: T -> bool)
    ensures forall i :: 0 <= i < |Filter(s, p)| ==> Filter(s, p)[i] in s && p(Filter(s, p)[i])
    ensures forall i :: 0 <= i < |s| && p(s[i]) ==> s[i] in Filter(s, p)
  {
    if s != [] {
      FilterMembers(s[1..], p);
      assert s == [s[0]] + s[1..];
    }
  }

  /** Every filtered row passes the filter. */
  lemma FilterPasses<T>(s: seq<T>, p: T -> bool)
    ensures forall i :: 0 <= i < |Filter(s, p)| ==> p(Filter(s, p)[i])
  {
    FilterMembers(s, p);
  }

  lemma {:induction false} FilterAppend<T>(a: seq<T>, b: seq<T>, p: T -> bool)
    ensures Filter(a + b, p) == Filter(a, p) + Filter(b, p)
  {
    if a == [] {
      assert a + b == b;
    } else {
      var h := if p(a[0]) then [a[0]] else [];
      calc {
        Filter(a + b, p);
      ==  { assert (a + b)[0] == a[0] && (a + b)[1..] == a[1..] + b; }
        h + Filter(a[1..] + b, p);
      ==  { FilterAppend(a[1..], b, p); }
        h + (Filter(a[1..], p) + Filter(b, p));
      ==
        Filter(a, p) + Filter(b, p);
      }
    }
  }

  /** Filtering the rows that pass a weaker filter changes nothing. */
  lemma {:induction false} FilterOfFilter<T>(s: seq<T>, p: T -> bool, q: T -> bool)
    requires forall x :: p(x) ==> q(x)
    ensures Filter(Filter(s, q), p) == Filter(s, p)
  {
    if s != [] {
      FilterOfFilter(s[1..], p, q);
      if !q(s[0]) {
        assert Filter(s, q) == Filter(s[1..], q);
        assert Filter(s, p) == Filter(s[1..], p);
      } else {
        var f := Filter(s[1..], q);
        assert Filter(s, q) == [s[0]] + f;
        assert ([s[0]] + f)[0] == s[0];
        assert ([s[0]] + f)[1..] == f;
      }
    }
  }

  /** Removing row `i` removes it from a filter it passed, and from no other. */
  lemma FilterRemoveAt<T>(s: seq<T>, i: nat, p: T -> bool)
    requires i < |s|
    ensures |Filter(s[..i] + s[i + 1..], p)| == |Filter(s, p)| - (if p(s[i]) then 1 else 0)
  {
    assert s == s[..i] + ([s[i]] + s[i + 1..]);
    FilterAppend(s[..i], [s[i]] + s[i + 1..], p);
    FilterAppend(s[..i], s[i + 1..], p);
    FilterAppend([s[i]], s[i + 1..], p);
  }

  /** A filter that nothing passes is empty. */
  lemma {:induction false} FilterNone<T>(s: seq<T>, p: T -> bool)
    requires forall i :: 0 <= i < |s| ==> !p(s[i])
    ensures Filter(s, p) == []
  {
    if s != [] {
      FilterNone(s[1..], p);
    }
  }

  /** The table without its row at index `j`: a `.delete()` of that row. */
  function RemoveAt<T>(s: seq<T>, j: nat): seq<T>
    requires j < |s|
  {
    s[..j] + s[j + 1..]
  }

  /** The rows after the removed one move up by one; none is changed. */
  lemma RemoveAtRows<T>(s: seq<T>, j: nat)
    requires j < |s|
    ensures |RemoveAt(s, j)| == |s| - 1
    ensures forall k :: 0 <= k < |s| - 1 ==> RemoveAt(s, j)[k] == s[if k < j then k else k + 1]
  {
  }

  lemma UniqueByRemoveAt<T, K>(s: seq<T>, j: nat, key: T -> K)
    requires j < |s| && UniqueBy(s, key)
    ensures UniqueBy(RemoveAt(s, j), key)
  {
    var t := RemoveAt(s, j);
    RemoveAtRows(s, j);
    forall a, b | 0 <= a < |t| && 0 <= b < |t| && key(t[a]) == key(t[b]) ensures a == b {
      var a' := if a < j then a else a + 1;
      var b' := if b < j then b else b + 1;
      assert key(s[a']) == key(s[b']);
    }
  }

  /** The index of the first row satisfying `p`: a `.first()` or the lookup behind `.get(...)`. */
  function Find<T>(s: seq<T>, p: T -> bool): (r: Option<nat>)
    ensures r.Some? ==> r.value < |s| && p(s[r.value]) && forall i :: 0 <= i < r.value ==> !p(s[i])
    ensures r.None? ==> forall i :: 0 <= i < |s| ==> !p(s[i])
  {
    if s == [] then None
    else if p(s[0]) then Some(0)
    else match Find(s[1..], p)
      case None => None
      case Some(i) => Some(i + 1)
  }

  /** The first match is determined by where `p` holds: a lookup can be read off row by row. */
  lemma FindIs<T>(s: seq<T>, p: T -> bool, i: nat)
    requires i < |s| && p(s[i]) && forall k :: 0 <= k < i ==> !p(s[k])
    ensures Find(s, p) == Some(i)
  {
  }

  /** Appending rows leaves a lookup that already succeeds where it was. */
  lemma FindAppendFound<T>(s: seq<T>, t: seq<T>, p: T -> bool)
    requires Find(s, p).Some?
    ensures Find(s + t, p) == Find(s, p)
  {
    var i := Find(s, p).value;
    assert (s + t)[i] == s[i];
    FindIs(s + t, p, i);
  }

  /** Appending one row to a table where a lookup fails: the lookup finds that row or still fails. */
  lemma FindAppendOne<T>(s: seq<T>, x: T, p: T -> bool)
    requires Find(s, p).None?
    ensures Find(s + [x], p) == if p(x) then Some(|s|) else None
  {
    if p(x) {
      FindIs(s + [x], p, |s|);
    } else {
      assert forall k :: 0 <= k < |s + [x]| ==> (s + [x])[k] == if k < |s| then s[k] else x;
    }
  }

  /** Overwriting a row with one that `p` judges the same way leaves the lookup unchanged. */
  lemma FindUpdate<T>(s: seq<T>, j: nat, x: T, p: T -> bool)
    requires j < |s| && p(s[j]) == p(x)
    ensures Find(s[j := x], p) == Find(s, p)
  {
    match Find(s, p)
    case None =>
      assert forall k :: 0 <= k < |s| ==> s[j := x][k] == if k == j then x else s[k];
    case Some(i) =>
      FindIs(s[j := x], p, i);
  }

  /** A row that passes the filter is still found among the filtered rows. */
  lemma FilterKeepsFound<T>(s: seq<T>, q: T -> bool, p: T -> bool, i: nat)
    requires i < |s| && p(s[i]) && q(s[i])
    ensures Find(Filter(s, q), p).Some?
  {
    FilterMembers(s, q);
    var f := Filter(s, q);
    var k :| 0 <= k < |f| && f[k] == s[i];
  }

  /** At most one row has each value of `key`: a unique column. */
  ghost predicate UniqueBy<T, K>(s: seq<T>, key: T -> K)
  {
    forall i, j :: 0 <= i < |s| && 0 <= j < |s| && key(s[i]) == key(s[j]) ==> i == j
  }

  /**
   * Under a unique column, the first row with a key is the only one, so a
   * `get_or_create` by that key finds the single existing record.
   */
  lemma FindUnique<T, K>(s: seq<T>, key: T -> K, k: K, i: nat)
    requires UniqueBy(s, key) && i < |s| && key(s[i]) == k
    ensures Find(s, (x: T) => key(x) == k) == Some(i)
  {
    var r := Find(s, (x: T) => key(x) == k);
    assert r.Some?;
  }

  /** A row with a key no other row has keeps the column unique when appended. */
  lemma UniqueByAppend<T, K>(s: seq<T>, x: T, key: T -> K)
    requires UniqueBy(s, key)
    requires forall i :: 0 <= i < |s| ==> key(s[i]) != key(x)
    ensures UniqueBy(s + [x], key)
  {
    var t := s + [x];
    forall i, j | 0 <= i < |t| && 0 <= j < |t| && key(t[i]) == key(t[j]) ensures i == j {
      if i < |s| && j < |s| {
        assert key(s[i]) == key(s[j]);
      }
    }
  }

  /** Overwriting a row with one of the same key keeps the column unique. */
  lemma UniqueByUpdate<T, K>(s: seq<T>, j: nat, x: T, key: T -> K)
    requires UniqueBy(s, key) && j < |s| && key(x) == key(s[j])
    ensures UniqueBy(s[j := x], key)
  {
    var t := s[j := x];
    forall a, b | 0 <= a < |t| && 0 <= b < |t| && key(t[a]) == key(t[b]) ensures a == b {
      assert key(t[a]) == key(s[a]) && key(t[b]) == key(s[b]);
    }
  }

  /** Dropping rows keeps a column unique. */
  lemma {:induction false} UniqueByFilter<T, K>(s: seq<T>, p: T -> bool, key: T -> K)
    requires UniqueBy(s, key)
    ensures UniqueBy(Filter(s, p), key)
  {
    if s != [] {
      var tail := s[1..];
      assert UniqueBy(tail, key) by {
        forall a, b | 0 <= a < |tail| && 0 <= b < |tail| && key(tail[a]) == key(tail[b]) ensures a == b {
          assert key(s[a + 1]) == key(s[b + 1]);
        }
      }
      UniqueByFilter(tail, p, key);
      var f := Filter(tail, p);
      if p(s[0]) {
        FilterMembers(tail, p);
        forall a | 0 <= a < |f| ensures key(f[a]) != key(s[0]) {
          var b :| 0 <= b < |tail| && tail[b] == f[a];
          assert key(s[b + 1]) != key(s[0]);
        }
        UniqueByPrepend(s[0], f, key);
      }
    }
  }

  /** A column is unique in a table whose rows have, one for one, the keys of a table where it is unique. */
  lemma UniqueBySameKeys<T, K>(s: seq<T>, t: seq<T>, key: T -> K)
    requires UniqueBy(s, key) && |s| == |t|
    requires forall i :: 0 <= i < |s| ==> key(s[i]) == key(t[i])
    ensures UniqueBy(t, key)
  {
    forall a, b | 0 <= a < |t| && 0 <= b < |t| && key(t[a]) == key(t[b]) ensures a == b {
      assert key(s[a]) == key(s[b]);
    }
  }

  lemma UniqueByPrepend<T, K>(x: T, s: seq<T>, key: T -> K)
    requires UniqueBy(s, key)
    requires forall i :: 0 <= i < |s| ==> key(s[i]) != key(x)
    ensures UniqueBy([x] + s, key)
  {
    var t := [x] + s;
    forall i, j | 0 <= i < |t| && 0 <= j < |t| && key(t[i]) == key(t[j]) ensures i == j {
      if i > 0 && j > 0 {
        assert key(s[i - 1]) == key(s[j - 1]);
      }
    }
  }

  function PostId(p: Post): Id { p.id }
  function LikeId(l: PostLike): Id { l.id }
  function CommentId(c: Comment): Id { c.id }
  function ProfileKey(p: Profile): Id { p.id }
  function ProfileUser(p: Profile): Id { p.userId }
  function Username(p: Profile): string { p.username }
  function TagName(t: Tag): string { t.name }
  function TagId(t: Tag): Id { t.id }
  function LocationName(l: Location): string { l.name }
  function LocationId(l: Location): Id { l.id }
  function ReviewId(r: LocationReview): Id { r.id }
  function ReviewPair(r: LocationReview): (Id, Id) { (r.post, r.location) }
}
