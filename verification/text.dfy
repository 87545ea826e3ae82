/**
 * String helpers shared by the parsers: Rust's `split`, `split_whitespace`,
 * `trim`, `starts_with`, `ends_with`, `contains`, `join` and
 * `to_ascii_lowercase`, written over `seq<char>`.
 */
module Text {

  /** Unicode White_Space, the set Rust's `char::is_whitespace`, `trim` and
      `split_whitespace` use. */
  predicate IsWhitespace(c: char) {
    var n := c as int;
    (9 <= n <= 13) || n == 32 || n == 0x85 || n == 0xA0 || n == 0x1680
    || (0x2000 <= n <= 0x200A) || n == 0x2028 || n == 0x2029 || n == 0x202F
    || n == 0x205F || n == 0x3000
  }

  predicate IsAsciiDigit(c: char) {
    '0' <= c <= '9'
  }

  predicate IsSlash(c: char) {
    c == '/'
  }

  predicate StartsWith(s: string, prefix: string) {
    |prefix| <= |s| && s[..|prefix|] == prefix
  }

  predicate EndsWith(s: string, suffix: string) {
    |suffix| <= |s| && s[|s| - |suffix|..] == suffix
  }

  /** `s.contains(t)`: `t` occurs somewhere in `s`. */
  predicate Contains(s: string, t: string)
    decreases |s|
  {
    StartsWith(s, t) || (|s| > 0 && Contains(s[1..], t))
  }

  /** No character of `s` satisfies `p`. */
  ghost predicate NoneOf(s: string, p: char -> bool) {
    forall i :: 0 <= i < |s| ==> !p(s[i])
  }

  lemma NoneOfConcat(a: string, b: string, p: char -> bool)
    requires NoneOf(a, p) && NoneOf(b, p)
    ensures NoneOf(a + b, p)
  {
    forall i | 0 <= i < |a + b|
      ensures !p((a + b)[i])
    {
      if i >= |a| {
        assert (a + b)[i] == b[i - |a|];
      }
    }
  }

  /** The characters of `s` that do not satisfy `p`, in order. */
  function Without(s: string, p: char -> bool): string {
    if s == [] then []
    else (if p(s[0]) then [] else [s[0]]) + Without(s[1..], p)
  }

  /** Number of characters of `s` that satisfy `p`. */
  function CountOf(s: string, p: char -> bool): nat {
    if s == [] then 0
    else (if p(s[0]) then 1 else 0) + CountOf(s[1..], p)
  }

  /** All parts concatenated. */
  function Flatten(parts: seq<string>): string {
    if parts == [] then [] else parts[0] + Flatten(parts[1..])
  }

  /**
   * Rust's `s.split(sep)` with a character predicate: the maximal runs of
   * non-separator characters between separators, empty runs included.
   */
  function Pieces(s: string, sep: char -> bool): (r: seq<string>)
    ensures |r| >= 1
  {
    if s == [] then [[]]
    else
      var rest := Pieces(s[1..], sep);
      if sep(s[0]) then [[]] + rest else [[s[0]] + rest[0]] + rest[1..]
  }

  /** The non-empty elements of `parts`, in order. */
  function NonEmpty(parts: seq<string>): (r: seq<string>)
    ensures |r| <= |parts|
    ensures forall i :: 0 <= i < |r| ==> r[i] != []
    ensures forall w :: w in r ==> w in parts
    ensures Flatten(r) == Flatten(parts)
  {
    if parts == [] then []
    else
      var rest := NonEmpty(parts[1..]);
      assert Flatten(parts) == parts[0] + Flatten(parts[1..]);
      if parts[0] == [] then rest
      else
        assert ([parts[0]] + rest)[1..] == rest;
        [parts[0]] + rest
  }

  /** The non-empty pieces: Rust's `split(sep)` followed by skipping empty
      parts. Each word is a non-empty run without separators, and the words
      glued together give the input with its separators removed. */
  function Words(s: string, sep: char -> bool): (r: seq<string>)
    ensures forall i :: 0 <= i < |r| ==> r[i] != [] && NoneOf(r[i], sep)
    ensures Flatten(r) == Without(s, sep)
  {
    PiecesPartition(s, sep);
    var r := NonEmpty(Pieces(s, sep));
    assert forall i :: 0 <= i < |r| ==> r[i] in Pieces(s, sep);
    r
  }

  /** Rust's `split_whitespace`: non-empty tokens without whitespace that
      glue back to the input with its whitespace removed. */
  function Tokens(s: string): (r: seq<string>)
    ensures forall i :: 0 <= i < |r| ==> r[i] != [] && NoneOf(r[i], IsWhitespace)
    ensures Flatten(r) == Without(s, IsWhitespace)
  {
    Words(s, IsWhitespace)
  }

  /** The longest prefix of `s` whose characters all satisfy `p`. */
  function TakeWhile(s: string, p: char -> bool): (r: string)
    ensures StartsWith(s, r)
    ensures forall i :: 0 <= i < |r| ==> p(r[i])
    ensures |r| < |s| ==> !p(s[|r|])
  {
    if s == [] || !p(s[0]) then [] else [s[0]] + TakeWhile(s[1..], p)
  }

  /** `s` without its leading characters that satisfy `p`. */
  function TrimStartBy(s: string, p: char -> bool): (r: string)
    ensures EndsWith(s, r)
    ensures r == [] || !p(r[0])
    ensures forall i :: 0 <= i < |s| - |r| ==> p(s[i])
  {
    if s == [] || !p(s[0]) then s else TrimStartBy(s[1..], p)
  }

  /** `s` without its trailing characters that satisfy `p`. */
  function TrimEndBy(s: string, p: char -> bool): (r: string)
    ensures StartsWith(s, r)
    ensures r == [] || !p(r[|r| - 1])
    ensures forall i :: |r| <= i < |s| ==> p(s[i])
  {
    if s == [] || !p(s[|s| - 1]) then s else TrimEndBy(s[..|s| - 1], p)
  }

  /** Rust's `trim_matches` with a character predicate: a piece of `s` that
      neither starts nor ends with a matching character, empty exactly when
      every character of `s` matches. */
  function TrimBy(s: string, p: char -> bool): (r: string)
  {
    TrimEndBy(TrimStartBy(s, p), p)
  }

  /** Rust's `str::trim`. */
  function Trim(s: string): (r: string)
    ensures r == [] || (!IsWhitespace(r[0]) && !IsWhitespace(r[|r| - 1]))
    ensures r == [] <==> forall i :: 0 <= i < |s| ==> IsWhitespace(s[i])
  {
    TrimByTrims(s, IsWhitespace);
    TrimBy(s, IsWhitespace)
  }

  /** Rust's `join(sep)`. */
  function Join(parts: seq<string>, sep: string): string {
    if parts == [] then []
    else if |parts| == 1 then parts[0]
    else parts[0] + sep + Join(parts[1..], sep)
  }

  function AsciiLower(c: char): char {
    if 'A' <= c <= 'Z' then (c as int + 32) as char else c
  }

  /** Rust's `to_ascii_lowercase`: ASCII capitals lowered, everything else kept. */
  function ToAsciiLower(s: string): (r: string)
    ensures |r| == |s|
    ensures forall i :: 0 <= i < |s| ==> r[i] == AsciiLower(s[i])
  {
    if s == [] then [] else [AsciiLower(s[0])] + ToAsciiLower(s[1..])
  }

  lemma JoinCons(w: string, ws: seq<string>, sep: string)
    requires ws != []
    ensures Join([w] + ws, sep) == w + sep + Join(ws, sep)
  {
    assert ([w] + ws)[1..] == ws;
  }

  // ---------------------------------------------------------------------
  // Properties of the splitting functions
  // ---------------------------------------------------------------------

  /** No piece holds a separator, and gluing the pieces back together gives
      the input with its separators removed; there is one more piece than
      separators. */
  lemma {:induction false} PiecesPartition(s: string, sep: char -> bool)
    ensures forall k :: 0 <= k < |Pieces(s, sep)| ==> NoneOf(Pieces(s, sep)[k], sep)
    ensures Flatten(Pieces(s, sep)) == Without(s, sep)
    ensures |Pieces(s, sep)| == CountOf(s, sep) + 1
  {
    if s != [] {
      PiecesPartition(s[1..], sep);
      var rest := Pieces(s[1..], sep);
      if sep(s[0]) {
        assert Pieces(s, sep) == [[]] + rest;
        assert ([[]] + rest)[1..] == rest;
      } else {
        var r := [[s[0]] + rest[0]] + rest[1..];
        assert Pieces(s, sep) == r;
        assert r[1..] == rest[1..];
        assert Flatten(rest) == rest[0] + Flatten(rest[1..]);
        assert Flatten(r) == [s[0]] + rest[0] + Flatten(rest[1..]);
        forall k | 0 <= k < |r|
          ensures NoneOf(r[k], sep)
        {
          if k == 0 {
            assert NoneOf(rest[0], sep);
          } else {
            assert r[k] == rest[k];
          }
        }
      }
    }
  }

  /** A string without separators is a single piece. */
  lemma {:induction false} PiecesOfPlain(w: string, sep: char -> bool)
    requires NoneOf(w, sep)
    ensures Pieces(w, sep) == [w]
  {
    if w != [] {
      PiecesOfPlain(w[1..], sep);
      assert [w[0]] + w[1..] == w;
    }
  }

  /** One step of `Pieces` on a string with a known first character. */
  lemma PiecesCons(ch: char, t: string, sep: char -> bool)
    ensures Pieces([ch] + t, sep)
         == if sep(ch) then [[]] + Pieces(t, sep) else [[ch] + Pieces(t, sep)[0]] + Pieces(t, sep)[1..]
  {
    assert ([ch] + t)[1..] == t;
  }

  /** The first piece of a split string grows by a leading non-separator. */
  lemma PiecesConsPlain(ch: char, t: string, sep: char -> bool, py: seq<string>)
    requires !sep(ch)
    ensures Pieces([ch] + t, sep) + py == [[ch] + Pieces(t, sep)[0]] + (Pieces(t, sep)[1..] + py)
  {
    PiecesCons(ch, t, sep);
  }

  /** Splitting at a separator splits the pieces. */
  lemma {:induction false} PiecesAtSeparator(x: string, c: char, y: string, sep: char -> bool)
    requires sep(c)
    ensures Pieces(x + [c] + y, sep) == Pieces(x, sep) + Pieces(y, sep)
  {
    if x == [] {
      assert x + [c] + y == [c] + y;
      PiecesCons(c, y, sep);
    } else {
      var t := x[1..] + [c] + y;
      assert x + [c] + y == [x[0]] + t;
      assert [x[0]] + x[1..] == x;
      PiecesAtSeparator(x[1..], c, y, sep);
      PiecesCons(x[0], t, sep);
      if sep(x[0]) {
        PiecesCons(x[0], x[1..], sep);
      } else {
        PiecesConsPlain(x[0], x[1..], sep, Pieces(y, sep));
      }
    }
  }

  lemma {:induction false} NonEmptyAppend(a: seq<string>, b: seq<string>)
    ensures NonEmpty(a + b) == NonEmpty(a) + NonEmpty(b)
  {
    if a == [] {
      assert a + b == b;
    } else {
      assert (a + b)[0] == a[0];
      assert (a + b)[1..] == a[1..] + b;
      NonEmptyAppend(a[1..], b);
    }
  }

  /** Splitting a single-space join of non-empty, separator-free words gives
      the words back: `join` and `split` are inverse on such lists. */
  lemma {:induction false} WordsOfJoin(ws: seq<string>, c: char, sep: char -> bool)
    requires sep(c)
    requires forall i :: 0 <= i < |ws| ==> ws[i] != [] && NoneOf(ws[i], sep)
    ensures Words(Join(ws, [c]), sep) == ws
  {
    if ws == [] {
    } else if |ws| == 1 {
      PiecesOfPlain(ws[0], sep);
    } else {
      WordsOfJoin(ws[1..], c, sep);
      PiecesOfPlain(ws[0], sep);
      assert Join(ws, [c]) == ws[0] + [c] + Join(ws[1..], [c]);
      PiecesAtSeparator(ws[0], c, Join(ws[1..], [c]), sep);
      NonEmptyAppend([ws[0]], Pieces(Join(ws[1..], [c]), sep));
      assert NonEmpty([ws[0]]) == [ws[0]] by {
        assert [ws[0]][1..] == [];
      }
      assert [ws[0]] + ws[1..] == ws;
    }
  }

  /** A trailing separator adds only an empty piece, which `Words` drops. */
  lemma WordsOfJoinThenSeparator(ws: seq<string>, c: char, sep: char -> bool)
    requires sep(c)
    requires forall i :: 0 <= i < |ws| ==> ws[i] != [] && NoneOf(ws[i], sep)
    ensures Words(Join(ws, [c]) + [c], sep) == ws
  {
    var j := Join(ws, [c]);
    assert j + [c] == j + [c] + [];
    PiecesAtSeparator(j, c, [], sep);
    NonEmptyAppend(Pieces(j, sep), Pieces([], sep));
    WordsOfJoin(ws, c, sep);
    assert NonEmpty(Pieces([], sep)) == [];
  }

  /** A leading separator-free word followed by a separator is the first
      word, and the words after it are those of the rest. */
  lemma WordsOfLeadingWord(w: string, c: char, rest: string, sep: char -> bool)
    requires w != [] && NoneOf(w, sep) && sep(c)
    ensures Words(w + [c] + rest, sep) == [w] + Words(rest, sep)
  {
    PiecesAtSeparator(w, c, rest, sep);
    PiecesOfPlain(w, sep);
    NonEmptyAppend([w], Pieces(rest, sep));
    assert NonEmpty([w]) == [w] by {
      assert [w][1..] == [];
    }
  }

  /** The first piece of a string with a separator-free head. */
  lemma FirstPieceOfLeadingWord(w: string, c: char, rest: string, sep: char -> bool)
    requires NoneOf(w, sep) && sep(c)
    ensures Pieces(w + [c] + rest, sep)[0] == w
  {
    PiecesAtSeparator(w, c, rest, sep);
    PiecesOfPlain(w, sep);
  }

  /** `TakeWhile` stops at the first character that fails. */
  lemma {:induction false} TakeWhileUpTo(x: string, c: char, y: string, p: char -> bool)
    requires forall i :: 0 <= i < |x| ==> p(x[i])
    requires !p(c)
    ensures TakeWhile(x + [c] + y, p) == x
  {
    if x != [] {
      assert (x + [c] + y)[1..] == x[1..] + [c] + y;
      TakeWhileUpTo(x[1..], c, y, p);
      assert [x[0]] + x[1..] == x;
    }
  }

  /** `TakeWhile` keeps a string all of whose characters pass. */
  lemma {:induction false} TakeWhileAll(x: string, p: char -> bool)
    requires forall i :: 0 <= i < |x| ==> p(x[i])
    ensures TakeWhile(x, p) == x
  {
    if x != [] {
      TakeWhileAll(x[1..], p);
      assert [x[0]] + x[1..] == x;
    }
  }

  /** Trimming keeps the piece `s[i..j]` left once the matching characters
      before `i` and from `j` on are removed: it neither starts nor ends
      with a matching character, and it is empty exactly when every
      character matches. */
  lemma TrimByTrims(s: string, p: char -> bool)
    ensures var r := TrimBy(s, p);
            |r| <= |s| && (r == [] || (!p(r[0]) && !p(r[|r| - 1])))
    ensures TrimBy(s, p) == [] <==> forall i :: 0 <= i < |s| ==> p(s[i])
    ensures exists i, j :: 0 <= i <= j <= |s| && TrimBy(s, p) == s[i..j]
                           && (forall k :: 0 <= k < i ==> p(s[k]))
                           && (forall k :: j <= k < |s| ==> p(s[k]))
  {
    var i, j := TrimBySlice(s, p);
  }

  /** The bounds of the piece trimming keeps. */
  lemma TrimBySlice(s: string, p: char -> bool) returns (i: nat, j: nat)
    ensures i <= j <= |s| && TrimBy(s, p) == s[i..j]
    ensures forall k :: 0 <= k < i ==> p(s[k])
    ensures forall k :: j <= k < |s| ==> p(s[k])
  {
    var t := TrimStartBy(s, p);
    var r := TrimEndBy(t, p);
    i := |s| - |t|;
    assert t == s[i..];
    assert r == t[..|r|];
    j := i + |r|;
    assert r == s[i..j];
    assert forall k :: j <= k < |s| ==> s[k] == t[k - i];
  }

  /** `str::trim` keeps the piece `s[i..j]` left once the whitespace before
      `i` and from `j` on is removed. */
  lemma TrimIsInfix(s: string)
    ensures exists i, j :: 0 <= i <= j <= |s| && Trim(s) == s[i..j]
                           && (forall k :: 0 <= k < i ==> IsWhitespace(s[k]))
                           && (forall k :: j <= k < |s| ==> IsWhitespace(s[k]))
  {
    TrimByTrims(s, IsWhitespace);
  }

  /** Trimming leaves a string alone whose ends do not match. */
  lemma TrimByKeeps(s: string, p: char -> bool)
    requires s != [] && !p(s[0]) && !p(s[|s| - 1])
    ensures TrimBy(s, p) == s
  {
  }
}
