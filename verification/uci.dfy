/**
 * The engine side of rescoring: reading a score out of an engine's `info`
 * line, converting mate distances, and the line-by-line protocol exchange
 * with the engine (handshake, readiness checks, one search per position).
 *
 * The engine is a peer we cannot see: its standard output is modelled as the
 * fixed sequence of lines it prints (without line terminators), and the end
 * of that sequence is the end of its output. A session records the commands
 * sent so far and the output lines not yet read.
 */
module Uci {
  import opened Wrappers
  import opened Text
  import opened Numbers
  import opened Wdl

  const MATE_BASE: int := 32000

  /**
   * `mate_to_cp`: a mate in N for the side to move scores 32000 - N, a mate
   * against it (N <= 0) scores -32000 + |N|. Within the meaningful range the
   * magnitude is the base less the distance and the sign tells who mates.
   */
  function MateToCp(mate: int): (r: int)
    ensures Abs(mate) <= MATE_BASE ==> Abs(r) == MATE_BASE - Abs(mate)
    ensures 0 < Abs(mate) < MATE_BASE ==> (r > 0 <==> mate > 0)
    ensures mate == 0 ==> r == -MATE_BASE
  {
    if mate > 0 then MATE_BASE - mate else -MATE_BASE + Abs(mate)
  }

  /** Mate scores are antisymmetric, and a shorter mate scores higher. */
  lemma MateToCpOrdering(n1: int, n2: int)
    requires 0 < n1 < n2
    ensures MateToCp(-n1) == -MateToCp(n1)
    ensures MateToCp(n1) > MateToCp(n2)
    ensures MateToCp(-n1) < MateToCp(-n2)
  {
  }

  /** A score `cp` converted with `kind` (`cp` or `mate`), or None for any other kind. */
  function RawScore(kind: string, raw: string): Option<int> {
    match ParseI32(raw)
    case None => None
    case Some(v) =>
      if kind == "cp" then Some(v)
      else if kind == "mate" then Some(MateToCp(v))
      else None
  }

  /**
   * The loop of `parse_score` over the tokens of a line: it skips to the
   * first `score` token and decides there, never scanning further. The
   * result is the external score in centipawns, before normalisation.
   */
  function ScoreFrom(ts: seq<string>): (r: Option<int>)
    ensures r.Some? ==> "score" in ts
  {
    if ts == [] then None
    else if ts[0] != "score" then ScoreFrom(ts[1..])
    else if |ts| < 3 then None
    else RawScore(ts[1], ts[2])
  }

  /** `parse_score`: the normalised score of an `info` line, if it has one. */
  function ParseScore(line: string, material: int): (r: Option<int>)
    ensures r.Some? ==> InI16(r.value)
    ensures r.Some? ==> exists cp :: r.value == Normalize(cp, material)
  {
    match ScoreFrom(Tokens(line))
    case None => None
    case Some(cp) => Some(Normalize(cp, material))
  }

  /** Index of the first occurrence of `t` in `ts`. */
  function FirstIndex(ts: seq<string>, t: string): (r: Option<nat>)
    ensures r.Some? ==> r.value < |ts| && ts[r.value] == t
    ensures r.Some? ==> forall j :: 0 <= j < r.value ==> ts[j] != t
    ensures r.None? ==> t !in ts
  {
    if ts == [] then None
    else if ts[0] == t then Some(0)
    else match FirstIndex(ts[1..], t)
      case None => None
      case Some(i) => Some(i + 1)
  }

  /**
   * Only the first `score` token counts: the result is decided by the two
   * tokens after it, and a missing kind or value, a value that is not an
   * i32, or a kind other than `cp`/`mate` gives None.
   */
  lemma {:induction false} ScoreFromFirstScoreToken(ts: seq<string>)
    ensures ScoreFrom(ts) ==
      match FirstIndex(ts, "score")
      case None => None
      case Some(i) => if i + 2 < |ts| then RawScore(ts[i + 1], ts[i + 2]) else None
  {
    if ts != [] && ts[0] != "score" {
      ScoreFromFirstScoreToken(ts[1..]);
    }
  }

  lemma {:induction false} MateTokensGiveMateScore(pre: seq<string>, n: int, post: seq<string>)
    requires forall i :: 0 <= i < |pre| ==> pre[i] != "score"
    requires InI32(n)
    ensures ScoreFrom(pre + ["score", "mate", IntToString(n)] + post) == Some(MateToCp(n))
  {
    var ts := pre + ["score", "mate", IntToString(n)] + post;
    if pre == [] {
      assert ts[0] == "score" && ts[1] == "mate" && ts[2] == IntToString(n);
      ParseI32OfIntToString(n);
    } else {
      assert ts[1..] == pre[1..] + ["score", "mate", IntToString(n)] + post;
      MateTokensGiveMateScore(pre[1..], n, post);
    }
  }

  /** `score mate N` with 0 < |N| <= 3000 gives exactly the mate score: it
      lands in the saturated range, which fits in i16 unchanged. */
  lemma MateScoreIsExact(line: string, pre: seq<string>, n: int, post: seq<string>, material: int)
    requires Tokens(line) == pre + ["score", "mate", IntToString(n)] + post
    requires forall i :: 0 <= i < |pre| ==> pre[i] != "score"
    requires 0 < Abs(n) <= 3000
    ensures ParseScore(line, material) == Some(MateToCp(n))
  {
    MateTokensGiveMateScore(pre, n, post);
  }

  // ---------------------------------------------------------------------
  // The protocol exchange
  // ---------------------------------------------------------------------

  datatype EngineError =
    | EngineClosed   // the engine's output ended while a reply was expected
    | NoScore        // a search ended with no score reported

  /** The commands the rescorer sends to the engine. */
  datatype Command =
    | UciHello                                  // `uci`
    | IsReady                                   // `isready`
    | UciNewGame                                // `ucinewgame`
    | Position(fen: string, moves: seq<string>) // `position fen .. moves ..`
    | Go(depth: nat)                            // `go depth ..`
    | Quit                                      // `quit`

  /** Commands sent so far, and engine output lines not yet read. */
  datatype Session = Session(sent: seq<Command>, pending: seq<string>)

  function Send(s: Session, command: Command): Session {
    s.(sent := s.sent + [command])
  }

  /** `wait_for`: read lines until one contains `token`; the rest stays unread. */
  function WaitFor(lines: seq<string>, token: string): (r: Result<seq<string>, EngineError>)
    ensures r.Ok? ==> exists k :: 0 <= k < |lines| && Contains(lines[k], token)
                                  && (forall j :: 0 <= j < k ==> !Contains(lines[j], token))
                                  && r.value == lines[k + 1..]
    ensures r.Err? ==> r.error == EngineClosed && forall j :: 0 <= j < |lines| ==> !Contains(lines[j], token)
  {
    if lines == [] then Err(EngineClosed)
    else if Contains(lines[0], token) then Ok(lines[1..])
    else
      var r := WaitFor(lines[1..], token);
      if r.Ok? then
        ghost var k :| 0 <= k < |lines[1..]| && Contains(lines[1..][k], token)
                        && (forall j :: 0 <= j < k ==> !Contains(lines[1..][j], token))
                        && r.value == lines[1..][k + 1..];
        assert lines[k + 1 + 1..] == r.value;
        r
      else r
  }

  /** `wait_ready`: send `isready` and wait for a line containing `readyok`. */
  function WaitReady(s: Session): (r: Result<Session, EngineError>)
    ensures r.Ok? ==> r.value.sent == s.sent + [IsReady]
    ensures r.Ok? ==> |r.value.pending| < |s.pending|
  {
    var s1 := Send(s, IsReady);
    match WaitFor(s1.pending, "readyok")
    case Err(e) => Err(e)
    case Ok(rest) => Ok(s1.(pending := rest))
  }

  /** `UciEngine::start` after the process is spawned: `uci`, wait for
      `uciok`, then one readiness round-trip. */
  function Start(output: seq<string>): (r: Result<Session, EngineError>)
    ensures r.Ok? ==> r.value.sent == [UciHello, IsReady]
  {
    var s1 := Send(Session([], output), UciHello);
    match WaitFor(s1.pending, "uciok")
    case Err(e) => Err(e)
    case Ok(rest) => WaitReady(s1.(pending := rest))
  }

  /** `new_game`: `ucinewgame` and one readiness round-trip. */
  function NewGame(s: Session): (r: Result<Session, EngineError>)
    ensures r.Ok? ==> r.value.sent == s.sent + [UciNewGame] + [IsReady]
  {
    WaitReady(Send(s, UciNewGame))
  }

  /** `shutdown`: `quit` is sent and any failure ignored. */
  function Shutdown(s: Session): (sent: seq<Command>)
    ensures sent == s.sent + [Quit]
  {
    Send(s, Quit).sent
  }

  /** The position command: the start FEN and the moves joined by single spaces
      (an empty history leaves `moves ` with nothing after it). */
  function PositionCommand(fen: string, moves: seq<string>): (c: string)
    ensures c == Join(["position", "fen", fen, "moves"] + moves, " ") + (if moves == [] then " " else [])
  {
    var j := Join(moves, " ");
    JoinWithHeader("position", "fen", fen, "moves", moves, " ");
    assert "position fen " == "position" + " " + "fen" + " ";
    assert " moves " + j == " " + ("moves" + " " + j);
    "position fen " + fen + " moves " + j
  }

  function Max1(depth: nat): (d: nat)
    ensures d >= 1 && d >= depth
    ensures depth >= 1 ==> d == depth
  {
    if depth < 1 then 1 else depth
  }

  /** The search command, at depth `max(depth, 1)`. */
  function GoCommand(depth: nat): (c: string)
    ensures StartsWith(c, "go depth ") && |c| > 9 && AllDigits(c[9..])
  {
    var d := NatToString(Max1(depth));
    assert ("go depth " + d)[9..] == d;
    "go depth " + d
  }

  /** The text of a command, as written to the engine's input. */
  function Render(c: Command): string {
    match c
    case UciHello => "uci"
    case IsReady => "isready"
    case UciNewGame => "ucinewgame"
    case Position(fen, moves) => PositionCommand(fen, moves)
    case Go(depth) => GoCommand(depth)
    case Quit => "quit"
  }

  /** The search command reads back as three words whose last is the depth
      searched, and never 0. */
  lemma GoCommandReadsBack(depth: nat)
    requires depth < 256  // the depth is a u8
    ensures |Tokens(GoCommand(depth))| == 3
    ensures ParseI32(Tokens(GoCommand(depth))[2]) == Some(Max1(depth))
  {
    var d := NatToString(Max1(depth));
    assert forall i :: 0 <= i < |d| ==> !IsWhitespace(d[i]);
    JoinCons("depth", [d], " ");
    JoinCons("go", ["depth", d], " ");
    assert ["go"] + ["depth", d] == ["go", "depth", d];
    assert "go depth " + d == "go" + " " + ("depth" + " " + d);
    WordsOfJoin(["go", "depth", d], ' ', IsWhitespace);
    ParseI32OfIntToString(Max1(depth));
  }

  /** The position command is the words `position fen <fen> moves <moves..>`
      joined by single spaces, with a trailing space when there are no moves. */
  lemma JoinWithHeader(p: string, f: string, fen: string, m: string, moves: seq<string>, sp: string)
    ensures p + sp + f + sp + fen + sp + (m + sp + Join(moves, sp))
         == Join([p, f, fen, m] + moves, sp) + (if moves == [] then sp else [])
  {
    var w3 := [m] + moves;
    var w2 := [fen] + w3;
    var w1 := [f] + w2;
    assert [p, f, fen, m] + moves == [p] + w1;
    JoinCons(p, w1, sp);
    JoinCons(f, w2, sp);
    JoinCons(fen, w3, sp);
    if moves != [] {
      JoinCons(m, moves, sp);
    } else {
      assert w3 == [m];
    }
  }

  /** The moves of a position command read back from the command text. */
  lemma PositionCommandReadsBack(fen: string, moves: seq<string>)
    requires fen != [] && NoneOf(fen, IsWhitespace)
    requires forall i :: 0 <= i < |moves| ==> moves[i] != [] && NoneOf(moves[i], IsWhitespace)
    ensures Tokens(PositionCommand(fen, moves)) == ["position", "fen", fen, "moves"] + moves
  {
    var ws := ["position", "fen", fen, "moves"] + moves;
    forall i | 0 <= i < |ws| ensures ws[i] != [] && NoneOf(ws[i], IsWhitespace) {
      if i >= 4 { assert ws[i] == moves[i - 4]; }
    }
    if moves == [] {
      WordsOfJoinThenSeparator(ws, ' ', IsWhitespace);
    } else {
      assert PositionCommand(fen, moves) == Join(ws, " ") + [];
      assert Join(ws, " ") + [] == Join(ws, " ");
      WordsOfJoin(ws, ' ', IsWhitespace);
    }
  }

  /** The newer of two observations: `newer` if present, else `older`. */
  function Latest(newer: Option<int>, older: Option<int>): Option<int> {
    if newer.Some? then newer else older
  }

  /** A score the normaliser can produce at this material. */
  ghost predicate IsNormalized(sc: int, material: int) {
    InI16(sc) && exists cp :: sc == Normalize(cp, material)
  }

  /** What the search loop makes of one line of engine output. */
  datatype Reading =
    | Report(score: Option<int>)   // an `info` line, with the score it carries if any
    | Terminal                     // a `bestmove` line
    | Ignored                      // anything else

  /** A trimmed line is an `info` line first, else a `bestmove` line, else ignored. */
  function ReadLine(line: string, material: int): (r: Reading)
    ensures r.Report? && r.score.Some? ==> IsNormalized(r.score.value, material)
  {
    var t := Trim(line);
    if StartsWith(t, "info") then Report(ParseScore(t, material))
    else if StartsWith(t, "bestmove") then Terminal
    else Ignored
  }

  /**
   * The search loop of `evaluate_moves`, for any way `read` of reading a
   * line: keep the score of each reporting line (the later overwrites the
   * earlier), stop at the first terminal line, and fail if the output ends
   * first or no score was seen.
   */
  function Scan(lines: seq<string>, read: string -> Reading, last: Option<int>)
    : (r: Result<(int, seq<string>), EngineError>)
    ensures r.Ok? ==> (last.Some? && r.value.0 == last.value)
                      || exists i :: 0 <= i < |lines| && read(lines[i]) == Report(Some(r.value.0))
    ensures r.Ok? ==> |r.value.1| < |lines|
  {
    if lines == [] then Err(EngineClosed)
    else
      match read(lines[0])
      case Report(sc) =>
        var r := Scan(lines[1..], read, Latest(sc, last));
        if r.Ok? && !(last.Some? && r.value.0 == last.value) && !(sc.Some? && r.value.0 == sc.value) then
          ghost var i :| 0 <= i < |lines[1..]| && read(lines[1..][i]) == Report(Some(r.value.0));
          assert lines[i + 1] == lines[1..][i];
          r
        else r
      case Terminal => if last.None? then Err(NoScore) else Ok((last.value, lines[1..]))
      case Ignored =>
        var r := Scan(lines[1..], read, last);
        if r.Ok? && !(last.Some? && r.value.0 == last.value) then
          ghost var i :| 0 <= i < |lines[1..]| && read(lines[1..][i]) == Report(Some(r.value.0));
          assert lines[i + 1] == lines[1..][i];
          r
        else r
  }

  /** The line reading of `evaluate_moves` at a material count. */
  function Reader(material: int): string -> Reading {
    l => ReadLine(l, material)
  }

  /** The search loop with the line reading of `evaluate_moves`. */
  function ScanSearch(lines: seq<string>, material: int, last: Option<int>): (r: Result<(int, seq<string>), EngineError>)
    ensures r.Ok? ==> (last.Some? && r.value.0 == last.value) || IsNormalized(r.value.0, material)
    ensures r.Ok? ==> |r.value.1| < |lines|
  {
    Scan(lines, Reader(material), last)
  }

  // Reference definitions, stated from the other end.

  /** Index of the first terminal line. */
  function FirstTerminal(lines: seq<string>, read: string -> Reading): (r: Option<nat>)
    ensures r.Some? ==> r.value < |lines| && read(lines[r.value]).Terminal?
    ensures r.Some? ==> forall j :: 0 <= j < r.value ==> !read(lines[j]).Terminal?
    ensures r.None? ==> forall j :: 0 <= j < |lines| ==> !read(lines[j]).Terminal?
  {
    if lines == [] then None
    else if read(lines[0]).Terminal? then Some(0)
    else match FirstTerminal(lines[1..], read)
      case None => None
      case Some(i) => Some(i + 1)
  }

  /** The score a line reports, if any. */
  function ReportedScore(r: Reading): Option<int> {
    if r.Report? then r.score else None
  }

  /** The score of the last line of `lines` that reports one, else `last`. */
  function LastReport(lines: seq<string>, read: string -> Reading, last: Option<int>): Option<int> {
    if lines == [] then last
    else Latest(ReportedScore(read(lines[|lines| - 1])), LastReport(lines[..|lines| - 1], read, last))
  }

  /** The search outcome stated through the reference definitions. */
  function SearchOutcome(lines: seq<string>, read: string -> Reading, last: Option<int>)
    : Result<(int, seq<string>), EngineError>
  {
    match FirstTerminal(lines, read)
    case None => Err(EngineClosed)
    case Some(k) =>
      var sc := LastReport(lines[..k], read, last);
      if sc.None? then Err(NoScore) else Ok((sc.value, lines[k + 1..]))
  }

  lemma {:induction false} LastReportCons(l: string, xs: seq<string>, read: string -> Reading, last: Option<int>)
    ensures LastReport([l] + xs, read, last) == LastReport(xs, read, Latest(ReportedScore(read(l)), last))
  {
    if xs == [] {
      assert [l] + xs == [l];
      assert [l][..0] == [];
    } else {
      var ys := [l] + xs;
      assert ys[..|ys| - 1] == [l] + xs[..|xs| - 1];
      assert ys[|ys| - 1] == xs[|xs| - 1];
      LastReportCons(l, xs[..|xs| - 1], read, last);
    }
  }

  /**
   * The search result is the score of the last reporting line before the
   * first terminal line, with the lines after it left unread; no terminal
   * line is an error (the output ended), and no score before it is an error
   * too.
   */
  lemma {:induction false} ScanIsLastReportBeforeTerminal(lines: seq<string>, read: string -> Reading, last: Option<int>)
    ensures Scan(lines, read, last) == SearchOutcome(lines, read, last)
  {
    if lines != [] {
      var l := lines[0];
      if read(l).Terminal? {
        assert lines[..0] == [];
      } else {
        var last' := Latest(ReportedScore(read(l)), last);
        assert Scan(lines, read, last) == Scan(lines[1..], read, last');
        ScanIsLastReportBeforeTerminal(lines[1..], read, last');
        var f := FirstTerminal(lines[1..], read);
        if f.Some? {
          var k := f.value;
          assert lines[..k + 1] == [l] + lines[1..][..k];
          LastReportCons(l, lines[1..][..k], read, last);
          assert lines[1..][k + 1..] == lines[k + 2..];
        }
      }
    }
  }

  /** The same, for the line reading of `evaluate_moves`. */
  lemma ScanSearchIsLastScoreBeforeBestMove(lines: seq<string>, material: int)
    ensures ScanSearch(lines, material, None) == SearchOutcome(lines, Reader(material), None)
  {
    ScanIsLastReportBeforeTerminal(lines, Reader(material), None);
  }

  /**
   * `evaluate_moves` for any way `read` of reading a line: send the position
   * and search commands, scan the output for the score, then one readiness
   * round-trip.
   */
  function EvaluateMovesWith(s: Session, fen: string, moves: seq<string>, depth: nat, read: string -> Reading)
    : (r: Result<(int, Session), EngineError>)
    ensures r.Ok? ==> exists i :: 0 <= i < |s.pending| && read(s.pending[i]) == Report(Some(r.value.0))
    ensures r.Ok? ==> r.value.1.sent == s.sent + [Position(fen, moves)] + [Go(depth)] + [IsReady]
  {
    var s1 := Send(Send(s, Position(fen, moves)), Go(depth));
    match Scan(s1.pending, read, None)
    case Err(e) => Err(e)
    case Ok((score, rest)) =>
      match WaitReady(s1.(pending := rest))
      case Err(e) => Err(e)
      case Ok(s2) => Ok((score, s2))
  }

  /** `evaluate_moves`, whose score is always one the normaliser produces. */
  function EvaluateMoves(s: Session, fen: string, moves: seq<string>, depth: nat, material: int)
    : (r: Result<(int, Session), EngineError>)
    ensures r.Ok? ==> IsNormalized(r.value.0, material)
    ensures r.Ok? ==> r.value.1.sent == s.sent + [Position(fen, moves)] + [Go(depth)] + [IsReady]
  {
    var r := EvaluateMovesWith(s, fen, moves, depth, Reader(material));
    if r.Ok? then
      ghost var i :| 0 <= i < |s.pending| && Reader(material)(s.pending[i]) == Report(Some(r.value.0));
      ReaderReads(s.pending[i], material);
      r
    else r
  }

  lemma ReaderReads(l: string, material: int)
    ensures Reader(material)(l) == ReadLine(l, material)
  {
  }

  lemma ScanReply(lines: seq<string>, info: string, best: string, rest: seq<string>, read: string -> Reading, v: int)
    requires lines == [info, best] + rest
    requires read(info) == Report(Some(v))
    requires read(best) == Terminal
    ensures Scan(lines, read, None) == Ok((v, rest))
  {
    assert lines[1..] == [best] + rest;
    assert lines[1..][1..] == rest;
  }

  lemma WaitForFirst(ready: string, rest: seq<string>, token: string)
    requires Contains(ready, token)
    ensures WaitFor([ready] + rest, token) == Ok(rest)
  {
    assert ([ready] + rest)[1..] == rest;
  }

  lemma EvaluateMovesWithReply(s: Session, info: string, best: string, ready: string, rest: seq<string>,
                               v: int, fen: string, moves: seq<string>, depth: nat, read: string -> Reading)
    requires s.pending == [info, best, ready] + rest
    requires read(info) == Report(Some(v))
    requires read(best) == Terminal
    requires Contains(ready, "readyok")
    ensures EvaluateMovesWith(s, fen, moves, depth, read)
         == Ok((v, Session(s.sent + [Position(fen, moves)] + [Go(depth)] + [IsReady], rest)))
  {
    ScanReply(s.pending, info, best, [ready] + rest, read, v);
    WaitForFirst(ready, rest, "readyok");
  }

  /** A reply of one reporting line, a terminal line and a readiness line
      yields the reported score, leaving the rest of the output unread. */
  lemma EvaluateMovesReply(s: Session, info: string, best: string, ready: string, rest: seq<string>,
                           v: int, fen: string, moves: seq<string>, depth: nat, material: int)
    requires s.pending == [info, best, ready] + rest
    requires ReadLine(info, material) == Report(Some(v))
    requires ReadLine(best, material) == Terminal
    requires Contains(ready, "readyok")
    ensures EvaluateMoves(s, fen, moves, depth, material)
         == Ok((v, Session(s.sent + [Position(fen, moves)] + [Go(depth)] + [IsReady], rest)))
  {
    ReaderReads(info, material);
    ReaderReads(best, material);
    EvaluateMovesWithReply(s, info, best, ready, rest, v, fen, moves, depth, Reader(material));
  }
}
