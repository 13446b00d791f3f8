/**
 * String helpers that the blog core uses on names and paths: Python's
 * `str.split(sep)` and its last piece, ASCII `str.lower()`, and the decimal
 * rendering of an integer id inside `str.format`.
 */
module Text {

  /** Python's `s.split(sep)` for a one-character separator: the pieces between separators, in order. */
  function Split(s: string, sep: char): (pieces: seq<string>)
    ensures |pieces| >= 1
    ensures forall i :: 0 <= i < |pieces| ==> sep !in pieces[i]
    decreases |s|
  {
    if s == [] then [[]]
    else
      var rest := Split(s[1..], sep);
      if s[0] == sep then [[]] + rest
      else [[s[0]] + rest[0]] + rest[1..]
  }

  /** Python's `sep.join(pieces)`. */
  function Join(pieces: seq<string>, sep: char): string
    requires |pieces| >= 1
  {
    if |pieces| == 1 then pieces[0] else pieces[0] + [sep] + Join(pieces[1..], sep)
  }

  /** Joining the pieces of a split gives back the string that was split. */
  lemma {:induction false} JoinSplit(s: string, sep: char)
    ensures Join(Split(s, sep), sep) == s
    decreases |s|
  {
    if s != [] {
      var rest := Split(s[1..], sep);
      JoinSplit(s[1..], sep);
      if s[0] != sep {
        if |rest| == 1 {
          assert Join(Split(s, sep), sep) == [s[0]] + rest[0];
        } else {
          assert Join(Split(s, sep), sep) == [s[0]] + rest[0] + [sep] + Join(rest[1..], sep);
        }
      }
    }
  }

  /** Splitting a join of separator-free pieces gives back the pieces. */
  lemma {:induction false} SplitJoin(pieces: seq<string>, sep: char)
    requires |pieces| >= 1
    requires forall i :: 0 <= i < |pieces| ==> sep !in pieces[i]
    ensures Split(Join(pieces, sep), sep) == pieces
    decreases |pieces|, |pieces[0]|
  {
    var p := pieces[0];
    if |pieces| == 1 {
      SplitNoSep(p, sep);
    } else if p == [] {
      var tail := pieces[1..];
      SplitJoin(tail, sep);
      assert Join(pieces, sep) == [sep] + Join(tail, sep);
      assert ([sep] + Join(tail, sep))[1..] == Join(tail, sep);
    } else {
      var shorter := [p[1..]] + pieces[1..];
      assert shorter[1..] == pieces[1..];
      SplitJoin(shorter, sep);
      var j := Join(pieces, sep);
      assert j == [p[0]] + Join(shorter, sep);
      assert j[1..] == Join(shorter, sep);
      assert [p[0]] + p[1..] == p;
    }
  }

  /** A string without the separator splits into itself. */
  lemma {:induction false} SplitNoSep(s: string, sep: char)
    requires sep !in s
    ensures Split(s, sep) == [s]
    decreases |s|
  {
    if s != [] {
      SplitNoSep(s[1..], sep);
      assert [s[0]] + s[1..] == s;
    }
  }

  /** Python's `s.split(sep)[-1]`: the text after the last separator, or all of `s` when it has none. */
  function LastPiece(s: string, sep: char): string
  {
    var pieces := Split(s, sep);
    pieces[|pieces| - 1]
  }

  /**
   * The last piece is the longest separator-free suffix: it is a suffix of `s`,
   * it holds no separator, and it is either all of `s` or preceded by a separator.
   */
  lemma {:induction false} LastPieceIsSuffix(s: string, sep: char)
    ensures var e := LastPiece(s, sep);
      && |e| <= |s| && s[|s| - |e|..] == e
      && sep !in e
      && (|e| < |s| ==> s[|s| - |e| - 1] == sep)
    decreases |s|
  {
    if s != [] {
      var t := s[1..];
      LastPieceIsSuffix(t, sep);
      if s[0] != sep && |Split(t, sep)| == 1 {
        LastPieceWhole(s, sep);
      } else {
        LastPieceOfTail(s, sep);
        var e0 := LastPiece(t, sep);
        assert s[|s| - |e0|..] == t[|t| - |e0|..];
        if s[0] != sep {
          SinglePieceIffNoSep(t, sep);
        }
        if |e0| < |t| {
          assert s[|s| - |e0| - 1] == t[|t| - |e0| - 1];
        }
      }
    }
  }

  /** A string whose first character is no separator and whose tail splits into one piece is its own last piece. */
  lemma LastPieceWhole(s: string, sep: char)
    requires s != [] && s[0] != sep && |Split(s[1..], sep)| == 1
    ensures LastPiece(s, sep) == s
  {
    JoinSplit(s[1..], sep);
    assert [s[0]] + s[1..] == s;
  }

  /** Otherwise the last piece is that of the tail. */
  lemma LastPieceOfTail(s: string, sep: char)
    requires s != [] && (s[0] == sep || |Split(s[1..], sep)| > 1)
    ensures LastPiece(s, sep) == LastPiece(s[1..], sep)
  {
  }

  /** A string splits into a single piece exactly when it holds no separator. */
  lemma SinglePieceIffNoSep(s: string, sep: char)
    ensures |Split(s, sep)| == 1 <==> sep !in s
  {
    if sep !in s {
      SplitNoSep(s, sep);
    } else {
      JoinSplit(s, sep);
    }
  }

  /** Any separator-free suffix that is preceded by a separator is the last piece. */
  lemma LastPieceUnique(s: string, sep: char, e: string)
    requires |e| < |s| && s[|s| - |e|..] == e && sep !in e && s[|s| - |e| - 1] == sep
    ensures LastPiece(s, sep) == e
  {
    LastPieceIsSuffix(s, sep);
  }

  /** The last piece of `prefix + sep + e` is `e` whenever `e` holds no separator. */
  lemma LastPieceAfter(prefix: string, sep: char, e: string)
    requires sep !in e
    ensures LastPiece(prefix + [sep] + e, sep) == e
  {
    var s := prefix + [sep] + e;
    assert s[|s| - |e|..] == e;
    LastPieceUnique(s, sep, e);
  }

  predicate IsUpper(c: char) { 'A' <= c <= 'Z' }

  function LowerChar(c: char): char
  {
    if IsUpper(c) then (c as int - 'A' as int + 'a' as int) as char else c
  }

  /** `s.lower()` restricted to ASCII letters. */
  function Lower(s: string): (r: string)
    ensures |r| == |s|
    ensures forall i :: 0 <= i < |s| ==> !IsUpper(r[i])
  {
    if s == [] then [] else [LowerChar(s[0])] + Lower(s[1..])
  }

  /** Lowering is idempotent, so a lowered name is its own normal form. */
  lemma {:induction false} LowerIdempotent(s: string)
    ensures Lower(Lower(s)) == Lower(s)
  {
    if s != [] {
      LowerIdempotent(s[1..]);
      assert Lower(s)[1..] == Lower(s[1..]);
    }
  }

  /** Lowering keeps every character that is not an upper-case letter. */
  lemma {:induction false} LowerKeeps(s: string, i: nat)
    requires i < |s| && !IsUpper(s[i])
    ensures Lower(s)[i] == s[i]
  {
    if i > 0 {
      LowerKeeps(s[1..], i - 1);
    }
  }

  predicate IsDigit(c: char) { '0' <= c <= '9' }

  function Digit(d: nat): char
    requires d < 10
  {
    ('0' as int + d) as char
  }

  /** The decimal digits of `n`, as `'{0}'.format(n)` prints a non-negative integer. */
  function Decimal(n: nat): (r: string)
    ensures |r| >= 1
    ensures forall i :: 0 <= i < |r| ==> IsDigit(r[i])
  {
    if n < 10 then [Digit(n)] else Decimal(n / 10) + [Digit(n % 10)]
  }

  /** Reads a string of decimal digits back as a number. */
  function ParseDecimal(s: string): nat
    requires forall i :: 0 <= i < |s| ==> IsDigit(s[i])
  {
    if s == [] then 0
    else
      assert IsDigit(s[|s| - 1]);
      ParseDecimal(s[..|s| - 1]) * 10 + (s[|s| - 1] as int - '0' as int)
  }

  /** Decimal rendering loses nothing: parsing it gives back the number. */
  lemma {:induction false} DecimalRoundTrip(n: nat)
    ensures ParseDecimal(Decimal(n)) == n
  {
    var d := Decimal(n);
    if n >= 10 {
      DecimalRoundTrip(n / 10);
      assert d[..|d| - 1] == Decimal(n / 10);
    }
  }
}
