/**
 * The helpers of `util.rs`: reading an engine evaluation out of a PGN move
 * comment, and translating a move of the chess library (`shakmaty`) into the
 * binpack library's move encoding.
 */
module Util {
  import opened Wrappers
  import opened Text
  import opened Numbers
  import opened Wdl

  // ---------------------------------------------------------------------
  // Evaluations in move comments
  // ---------------------------------------------------------------------

  /** The centipawn value a mate announcement (`+M7`, `-M12`) is read as. */
  const MATE_EVAL: int := 32000

  /** The error `parse_eval_cp` reports when no part of a comment reads. */
  const UNREADABLE: string := "Unable to parse evaluation"

  /** Comments that mark a move without an evaluation. */
  predicate IsBookComment(comment: string) {
    comment == "book" || comment == "Book" || comment == "No result"
  }

  /** Where a comment is cut into parts: whitespace and braces. */
  predicate IsEvalSeparator(c: char) {
    IsWhitespace(c) || c == '{' || c == '}'
  }

  predicate IsBrace(c: char) {
    c == '{' || c == '}'
  }

  /** The characters kept in front of a number: digits, signs and dots. */
  predicate IsNumberChar(c: char) {
    IsAsciiDigit(c) || c == '+' || c == '-' || c == '.'
  }

  function Pow10(n: nat): (p: nat)
    ensures p >= 1
  {
    if n == 0 then 1 else 10 * Pow10(n - 1)
  }

  /**
   * An unsigned decimal in the grammar of Rust's `f32::from_str`, over
   * digits and dots: digits, optionally a dot and more digits, with at
   * least one digit in all. The value is the exact decimal.
   */
  function UnsignedDecimal(s: string): (r: Option<real>)
    ensures r.Some? ==> r.value >= 0.0
  {
    var whole := TakeWhile(s, IsAsciiDigit);
    var rest := s[|whole|..];
    if rest == [] then
      if whole == [] then None else Some(DigitsValue(whole) as real)
    else if rest[0] != '.' then None
    else
      var frac := rest[1..];
      if !AllDigits(frac) || (whole == [] && frac == []) then None
      else Some(DigitsValue(whole) as real + DigitsValue(frac) as real / Pow10(|frac|) as real)
  }

  /** `f32::from_str` on a string of digits, signs and dots: an optional
      sign, then an unsigned decimal. */
  function DecimalValue(s: string): Option<real> {
    if s != [] && (s[0] == '+' || s[0] == '-') then
      match UnsignedDecimal(s[1..])
      case None => None
      case Some(v) => Some(if s[0] == '-' then -v else v)
    else UnsignedDecimal(s)
  }

  /** `(f * 100.0).round() as i16`: centipawns, rounded half away from zero
      and saturated to the i16 range. */
  function Centipawns(f: real): (cp: int)
    ensures InI16(cp)
  {
    ClampI16(RoundHalfAwayFromZero(f * 100.0))
  }

  /**
   * What one part of a comment reads as, if anything. A part starting with
   * `+M` or `-M` is a mate announcement, read when the digits after it
   * parse as an i32; any other part is cut at its first `/`, and must start
   * with a sign or a digit; its longest prefix of digits, signs and dots is
   * then parsed as an f32 (a lone sign is skipped).
   */
  function PartEval(part: string): (r: Option<int>)
    ensures r.Some? ==> InI16(r.value)
  {
    var p := TrimBy(part, IsBrace);
    if StartsWith(p, "+M") || StartsWith(p, "-M") then
      if ParseI32(TakeWhile(p[2..], IsAsciiDigit)).None? then None
      else if StartsWith(p, "+M") then Some(MATE_EVAL)
      else Some(-MATE_EVAL)
    else
      var num := Pieces(p, IsSlash)[0];
      if num == [] || !(num[0] == '+' || num[0] == '-' || IsAsciiDigit(num[0])) then None
      else
        var cleaned := TakeWhile(num, IsNumberChar);
        if cleaned == "+" || cleaned == "-" then None
        else
          match DecimalValue(cleaned)
          case None => None
          case Some(f) => Some(Centipawns(f))
  }

  /** The first value `f` gives on the parts, trying them in order. */
  function FirstOf(parts: seq<string>, f: string -> Option<int>): Option<int> {
    if parts == [] then None
    else if f(parts[0]).Some? then f(parts[0])
    else FirstOf(parts[1..], f)
  }

  /** The value of the first part that reads, if any. */
  function FirstEval(parts: seq<string>): (r: Option<int>)
    ensures r.Some? ==> InI16(r.value)
  {
    FirstOfIsFirst(parts, PartEval);
    FirstOf(parts, PartEval)
  }

  /** The non-empty parts of a comment. */
  function EvalParts(comment: string): seq<string> {
    Words(comment, IsEvalSeparator)
  }

  /**
   * `parse_eval_cp`: a book comment has no evaluation; otherwise the first
   * part that reads gives it, and a comment none of whose parts reads is an
   * error.
   */
  function ParseEvalCp(comment: string): (r: Result<Option<int>, string>)
    ensures r == Ok(None) <==> IsBookComment(comment)
    ensures r.Ok? && r.value.Some? ==> InI16(r.value.value)
    ensures r.Err? ==> r.error == UNREADABLE
  {
    if IsBookComment(comment) then Ok(None)
    else
      match FirstEval(EvalParts(comment))
      case Some(cp) => Ok(Some(cp))
      case None => Err(UNREADABLE)
  }

  /** `FirstOf` finds the first part `f` reads, and only fails when no
      part reads. */
  lemma {:induction false} FirstOfIsFirst(parts: seq<string>, f: string -> Option<int>)
    ensures FirstOf(parts, f).None? <==> forall i :: 0 <= i < |parts| ==> f(parts[i]).None?
    ensures FirstOf(parts, f).Some? ==>
              exists i :: 0 <= i < |parts| && f(parts[i]) == FirstOf(parts, f)
                          && forall j :: 0 <= j < i ==> f(parts[j]).None?
  {
    if parts != [] && f(parts[0]).None? {
      FirstOfIsFirst(parts[1..], f);
      if FirstOf(parts, f).Some? {
        var i :| 0 <= i < |parts[1..]| && f(parts[1..][i]) == FirstOf(parts[1..], f)
                 && forall j :: 0 <= j < i ==> f(parts[1..][j]).None?;
        assert f(parts[i + 1]) == FirstOf(parts, f);
        forall j | 0 <= j < i + 1
          ensures f(parts[j]).None?
        {
          if j > 0 {
            assert parts[j] == parts[1..][j - 1];
          }
        }
      } else {
        forall i | 0 <= i < |parts|
          ensures f(parts[i]).None?
        {
          if i > 0 {
            assert parts[i] == parts[1..][i - 1];
          }
        }
      }
    }
  }

  /** `FirstEval` finds the first readable part, and only fails when no part
      reads. */
  lemma FirstEvalIsFirstReadable(parts: seq<string>)
    ensures FirstEval(parts).None? <==> forall i :: 0 <= i < |parts| ==> PartEval(parts[i]).None?
    ensures FirstEval(parts).Some? ==>
              exists i :: 0 <= i < |parts| && PartEval(parts[i]) == FirstEval(parts)
                          && forall j :: 0 <= j < i ==> PartEval(parts[j]).None?
  {
    FirstOfIsFirst(parts, PartEval);
  }

  /** A comment other than a book comment reads as its first readable part,
      and is an error exactly when no part reads. */
  lemma ParseEvalCpIsFirstReadablePart(comment: string)
    requires !IsBookComment(comment)
    ensures var parts := EvalParts(comment);
            ParseEvalCp(comment).Err? <==> forall i :: 0 <= i < |parts| ==> PartEval(parts[i]).None?
    ensures var parts := EvalParts(comment);
            forall v :: ParseEvalCp(comment) == Ok(Some(v)) ==>
              exists i :: 0 <= i < |parts| && PartEval(parts[i]) == Some(v)
                          && forall j :: 0 <= j < i ==> PartEval(parts[j]).None?
  {
    FirstEvalIsFirstReadable(EvalParts(comment));
  }

  // ---------------------------------------------------------------------
  // Reading back what a match runner writes
  // ---------------------------------------------------------------------

  /** Two decimal digits. */
  function TwoDigits(n: nat): string
    requires n < 100
  {
    [DigitChar(n / 10), DigitChar(n % 10)]
  }

  /** A score in pawns with two decimals and an explicit sign, as match
      runners write it: `+1.01`, `-0.34`, `+0.00`. */
  function PawnsText(cp: int): string {
    var m := Abs(cp);
    (if cp < 0 then "-" else "+") + NatToString(m / 100) + "." + TwoDigits(m % 100)
  }

  /** A mate announcement in `n` moves for the side to move or against it. */
  function MateText(n: nat, losing: bool): string {
    (if losing then "-M" else "+M") + NatToString(n)
  }

  lemma DigitOfDigitChar(d: int)
    requires 0 <= d < 10
    ensures IsAsciiDigit(DigitChar(d)) && DigitValue(DigitChar(d)) == d
  {
  }

  lemma RoundOfInteger(k: int)
    ensures RoundHalfAwayFromZero(k as real) == k
  {
    if k < 0 {
      assert (0.5 - k as real).Floor == -k;
    } else {
      assert (k as real + 0.5).Floor == k;
    }
  }

  lemma PawnsTextChars(cp: int)
    ensures var t := PawnsText(cp);
            |t| >= 5 && (t[0] == '+' || t[0] == '-') && IsAsciiDigit(t[1])
            && forall i :: 0 <= i < |t| ==> IsNumberChar(t[i]) && !IsEvalSeparator(t[i]) && !IsSlash(t[i])
  {
    var m := Abs(cp);
    DigitOfDigitChar(m % 100 / 10);
    DigitOfDigitChar(m % 100 % 10);
    var t := PawnsText(cp);
    var w := NatToString(m / 100);
    assert t == [t[0]] + w + "." + TwoDigits(m % 100);
    assert t[1] == w[0];
  }

  /** The unsigned decimal `q.ff` has the value `q + ff / 100`. */
  lemma UnsignedValueOfPawns(m: nat)
    ensures UnsignedDecimal(NatToString(m / 100) + "." + TwoDigits(m % 100)) == Some(m as real / 100.0)
  {
    var w := NatToString(m / 100);
    var f := TwoDigits(m % 100);
    var s := w + "." + f;
    DigitOfDigitChar(m % 100 / 10);
    DigitOfDigitChar(m % 100 % 10);
    assert s == w + ['.'] + f;
    TakeWhileUpTo(w, '.', f, IsAsciiDigit);
    assert s[|w|..] == ['.'] + f;
    assert (['.'] + f)[1..] == f;
    DigitsValueOfNatToString(m / 100);
    var q, a := m / 100, m % 100;
    var hi, lo := a / 10, a % 10;
    assert f[..1] == [DigitChar(hi)];
    assert [DigitChar(hi)][..0] == [];
    assert DigitsValue([DigitChar(hi)]) == hi;
    assert DigitsValue(f) == 10 * hi + lo;
    assert 10 * hi + lo == a;
    assert Pow10(2) == 100 by {
      assert Pow10(1) == 10;
    }
    assert m == 100 * q + a;
    assert q as real + a as real / 100.0 == m as real / 100.0;
  }

  /** The pawn score text is the decimal `cp / 100`. */
  lemma DecimalValueOfPawns(cp: int)
    ensures DecimalValue(PawnsText(cp)) == Some(cp as real / 100.0)
  {
    var t := PawnsText(cp);
    var m := Abs(cp);
    UnsignedValueOfPawns(m);
    assert t[1..] == NatToString(m / 100) + "." + TwoDigits(m % 100);
  }

  /** A part that is not a mate announcement and whose text before the
      first `/` is a signed number made of number characters reads as that
      number in centipawns. */
  lemma PartEvalOfNumber(part: string, num: string, f: real)
    requires TrimBy(part, IsBrace) == part
    requires !StartsWith(part, "+M") && !StartsWith(part, "-M")
    requires Pieces(part, IsSlash)[0] == num
    requires num != [] && (num[0] == '+' || num[0] == '-')
    requires TakeWhile(num, IsNumberChar) == num && |num| >= 2
    requires DecimalValue(num) == Some(f)
    ensures PartEval(part) == Some(Centipawns(f))
  {
    assert num != "+" && num != "-";
  }

  /** A score written in pawns with two decimals reads back as itself. */
  lemma PartEvalOfPawns(cp: int, tail: string)
    requires InI16(cp)
    requires NoneOf(tail, IsEvalSeparator)
    ensures PartEval(PawnsText(cp) + "/" + tail) == Some(cp)
  {
    var t := PawnsText(cp);
    var part := t + "/" + tail;
    PawnsTextChars(cp);
    assert part == t + ['/'] + tail;
    assert part[0] == t[0] && part[|part| - 1] != '{' && part[|part| - 1] != '}' by {
      if tail == [] {
        assert part[|part| - 1] == '/';
      } else {
        assert part[|part| - 1] == tail[|tail| - 1];
      }
    }
    TrimByKeeps(part, IsBrace);
    assert part[1] == t[1];
    assert !StartsWith(part, "+M") && !StartsWith(part, "-M") by {
      assert part[..2][1] == t[1];
    }
    FirstPieceOfLeadingWord(t, '/', tail, IsSlash);
    TakeWhileAll(t, IsNumberChar);
    DecimalValueOfPawns(cp);
    PartEvalOfNumber(part, t, cp as real / 100.0);
    assert cp as real / 100.0 * 100.0 == cp as real;
    RoundOfInteger(cp);
  }

  /** A mate announcement reads as the mate value with its sign, when the
      move count fits in an i32. */
  lemma PartEvalOfMate(n: nat, losing: bool, tail: string)
    requires n <= I32_MAX
    requires NoneOf(tail, IsEvalSeparator)
    ensures PartEval(MateText(n, losing) + "/" + tail) == Some(if losing then -MATE_EVAL else MATE_EVAL)
  {
    var w := NatToString(n);
    var part := MateText(n, losing) + "/" + tail;
    var head := if losing then "-M" else "+M";
    assert part == head + w + ['/'] + tail;
    assert part[|part| - 1] != '{' && part[|part| - 1] != '}' by {
      if tail == [] {
        assert part[|part| - 1] == '/';
      } else {
        assert part[|part| - 1] == tail[|tail| - 1];
      }
    }
    TrimByKeeps(part, IsBrace);
    assert StartsWith(part, head);
    assert part[2..] == w + ['/'] + tail;
    TakeWhileUpTo(w, '/', tail, IsAsciiDigit);
    ParseI32OfNatToString(n);
  }

  /** A comment starting with a sign is never a book comment. */
  lemma SignedIsNotBook(comment: string)
    requires comment != [] && (comment[0] == '+' || comment[0] == '-')
    ensures !IsBookComment(comment)
  {
    assert "book"[0] == 'b' && "Book"[0] == 'B' && "No result"[0] == 'N';
  }

  /** A comment whose first part reads is read as that part. */
  lemma ParseEvalCpOfLeadingPart(w: string, c: char, rest: string)
    requires w != [] && (w[0] == '+' || w[0] == '-')
    requires NoneOf(w, IsEvalSeparator) && IsEvalSeparator(c)
    requires PartEval(w).Some?
    ensures ParseEvalCp(w + [c] + rest) == Ok(PartEval(w))
  {
    assert (w + [c] + rest)[0] == w[0];
    SignedIsNotBook(w + [c] + rest);
    WordsOfLeadingWord(w, c, rest, IsEvalSeparator);
  }

  /** Digits are not separators. */
  lemma DigitsArePlain(ds: string)
    requires AllDigits(ds)
    ensures NoneOf(ds, IsEvalSeparator)
  {
    forall i | 0 <= i < |ds|
      ensures !IsEvalSeparator(ds[i])
    {
      assert IsAsciiDigit(ds[i]);
    }
  }

  /** `head/depth`, with a head free of separators, is one part of a
      comment. */
  lemma WithDepthIsPlain(head: string, depth: nat)
    requires NoneOf(head, IsEvalSeparator)
    ensures NoneOf(head + "/" + NatToString(depth), IsEvalSeparator)
  {
    var d := NatToString(depth);
    DigitsArePlain(d);
    assert NoneOf("/", IsEvalSeparator) by {
      assert "/"[0] == '/';
    }
    NoneOfConcat(head, "/", IsEvalSeparator);
    NoneOfConcat(head + "/", d, IsEvalSeparator);
  }

  lemma MateTextIsPlain(n: nat, losing: bool)
    ensures NoneOf(MateText(n, losing), IsEvalSeparator)
  {
    var sign := if losing then "-M" else "+M";
    assert NoneOf(sign, IsEvalSeparator) by {
      assert sign[0] == '+' || sign[0] == '-';
      assert sign[1] == 'M';
    }
    DigitsArePlain(NatToString(n));
    NoneOfConcat(sign, NatToString(n), IsEvalSeparator);
  }

  /**
   * What a match runner writes after a move, `+1.01/26 1.2s`, reads back
   * as the score it wrote: a two-decimal pawn score is returned in
   * centipawns exactly.
   */
  lemma ParseEvalCpOfPawns(cp: int, depth: nat, rest: string)
    requires InI16(cp)
    ensures ParseEvalCp(PawnsText(cp) + "/" + NatToString(depth) + " " + rest) == Ok(Some(cp))
  {
    var d := NatToString(depth);
    var w := PawnsText(cp) + "/" + d;
    PawnsTextChars(cp);
    DigitsArePlain(d);
    PartEvalOfPawns(cp, d);
    WithDepthIsPlain(PawnsText(cp), depth);
    assert w[0] == PawnsText(cp)[0];
    assert PawnsText(cp) + "/" + d + " " + rest == w + [' '] + rest;
    ParseEvalCpOfLeadingPart(w, ' ', rest);
  }

  /** A mate announcement `+M21/32 0.5s` reads back as the signed mate
      value. */
  lemma ParseEvalCpOfMate(n: nat, losing: bool, depth: nat, rest: string)
    requires n <= I32_MAX
    ensures ParseEvalCp(MateText(n, losing) + "/" + NatToString(depth) + " " + rest)
            == Ok(Some(if losing then -MATE_EVAL else MATE_EVAL))
  {
    var d := NatToString(depth);
    var m := MateText(n, losing);
    var w := m + "/" + d;
    DigitsArePlain(d);
    PartEvalOfMate(n, losing, d);
    MateTextIsPlain(n, losing);
    WithDepthIsPlain(m, depth);
    assert w[0] == m[0];
    assert m + "/" + d + " " + rest == w + [' '] + rest;
    ParseEvalCpOfLeadingPart(w, ' ', rest);
  }
}
