/**
 * The PGN visitor of `builder.rs`: the reader walks a PGN file and calls the
 * visitor once per event (start of a game's tags, a tag, start of the
 * movetext, a SAN move, a comment, a variation, end of game); the visitor
 * turns the mainline moves of each game into training entries.
 *
 * Each move makes a pending entry (position before the move, the move, score
 * 0, the ply, the game result from the mover's side); a comment with an
 * evaluation sets the pending entry's score; the next move or the end of the
 * game writes it. Chess positions (`C`, the chess library's) and binpack
 * positions (`S`) are abstract; what the visitor asks of them is a `Rules`
 * value.
 */
module Builder {
  import opened Wrappers
  import opened Wdl
  import opened Binpack
  import opened Moves
  import opened Util

  /** The standard start position. */
  const STARTPOS: string := "rnbqkbnr/pppppppp/8/8/8/8/PPPPPPPP/RNBQKBNR w KQkq - 0 1"

  /** A move of standard chess, as a resolved SAN always is: it has an
      origin square. */
  type BoardMove = mv: ChessMove | OnBoard(mv) witness NormalMove(Pawn, Square(0, 0), None, Square(0, 1), None)

  /**
   * What the visitor asks of the two chess libraries: the default position,
   * reading a FEN into a chess position (standard castling) or a binpack
   * position, resolving a SAN in a position, playing a move, writing a
   * position's FEN, a binpack position's side to move, and a position's
   * piece counts.
   */
  datatype Rules<!C, !S> = Rules(
    defaultChess: C,
    chessFromFen: string -> Option<C>,
    sfFromFen: string -> Option<S>,
    resolve: (C, string) -> Option<BoardMove>,
    play: (C, ChessMove) -> C,
    fenOf: C -> string,
    sideToMove: S -> Color,
    pieces: C -> PieceCounts)

  /** What the source takes for granted of the binpack library: it reads the
      start position. */
  predicate Standard<C, S>(rules: Rules<C, S>) {
    rules.sfFromFen(STARTPOS).Some?
  }

  /** `SfPosition::from_fen(STARTPOS).unwrap()`. */
  function StartSf<C, S>(rules: Rules<C, S>): S
    requires Standard(rules)
  {
    rules.sfFromFen(STARTPOS).value
  }

  /** The errors that stop the reader; each stands for the message the
      source builds. */
  datatype BuildError =
    | InvalidResult      // "Invalid result format"
    | StartFenFailed     // "applying start FEN failed"
    | MoveFailed         // "handling move failed"
    | SanFailed          // "parsing SAN to move failed"

  /** `ControlFlow`: go on with a state, or stop with the state reached and
      an error. */
  datatype Flow<T> = Continue(state: T) | Break(state: T, error: BuildError)

  /** The events the PGN reader delivers; tag and comment text already
      decoded. Moves inside variations are skipped by the reader and never
      arrive. */
  datatype Event =
    | BeginTags
    | Tag(name: string, value: string)
    | BeginMovetext
    | San(san: string)
    | Comment(text: string)
    | BeginVariation
    | EndGame

  /** The visitor's fields, with the entries written so far standing for the
      writer. */
  datatype Visitor<C, S> = Visitor(
    written: seq<TrainingEntry<S>>,
    startFen: Option<string>,
    result: int,
    chess: C,
    sfPos: S,
    ply: nat,
    pending: Option<TrainingEntry<S>>,
    pendingScoreSet: bool)

  /** The pending entry as a list of zero or one entries. */
  function PendingList<S>(pending: Option<TrainingEntry<S>>): seq<TrainingEntry<S>> {
    if pending.Some? then [pending.value] else []
  }

  predicate Extends<T(==)>(longer: seq<T>, prefix: seq<T>) {
    |prefix| <= |longer| && longer[..|prefix|] == prefix
  }

  // ---------------------------------------------------------------------
  // The visitor's helpers
  // ---------------------------------------------------------------------

  /** `new` and `reset_game`: no start FEN, a drawn result, the start
      position, ply 0 and nothing pending; what was written stays written. */
  function Fresh<C, S>(rules: Rules<C, S>, written: seq<TrainingEntry<S>>): (v: Visitor<C, S>)
    requires Standard(rules)
    ensures v.written == written && v.pending.None? && v.ply == 0 && v.result == 0
    ensures v.chess == rules.defaultChess && v.sfPos == StartSf(rules) && v.startFen.None?
  {
    Visitor(written, None, 0, rules.defaultChess, StartSf(rules), 0, None, false)
  }

  /** `flush_pending`: write the pending entry, if any. */
  function Flush<C, S>(v: Visitor<C, S>): (r: Visitor<C, S>)
    ensures r.written == v.written + PendingList(v.pending) && r.pending.None?
    ensures r == v.(written := r.written, pending := None, pendingScoreSet := false)
  {
    v.(written := v.written + PendingList(v.pending), pending := None, pendingScoreSet := false)
  }

  /**
   * `apply_start_fen`: a FEN tag the chess library reads sets both
   * positions, and is an error when the binpack library cannot read it
   * (the chess position is already replaced then); no FEN tag, or one the
   * chess library rejects, falls back to the start position.
   */
  function ApplyStartFen<C, S>(rules: Rules<C, S>, v: Visitor<C, S>): (r: Flow<Visitor<C, S>>)
    requires Standard(rules)
    ensures v.startFen.None? || rules.chessFromFen(v.startFen.value).None? ==>
              r == Continue(v.(chess := rules.defaultChess, sfPos := StartSf(rules)))
    ensures v.startFen.Some? && rules.chessFromFen(v.startFen.value).Some? ==>
              r.state.chess == rules.chessFromFen(v.startFen.value).value
              && (r.Continue? <==> rules.sfFromFen(v.startFen.value).Some?)
              && (r.Continue? ==> r.state.sfPos == rules.sfFromFen(v.startFen.value).value)
              && (r.Break? ==> r.error == StartFenFailed)
    ensures r.state == v.(chess := r.state.chess, sfPos := r.state.sfPos)
  {
    if v.startFen.Some? && rules.chessFromFen(v.startFen.value).Some? then
      var c := rules.chessFromFen(v.startFen.value).value;
      match rules.sfFromFen(v.startFen.value)
      case Some(p) => Continue(v.(chess := c, sfPos := p))
      case None => Break(v.(chess := c), StartFenFailed)
    else
      Continue(v.(chess := rules.defaultChess, sfPos := StartSf(rules)))
  }

  /** The winner a `Result` tag value names. */
  function Winner(result: int): Option<Color> {
    if result == 1 then Some(White) else if result == -1 then Some(Black) else None
  }

  /** The game result from the side to move's point of view: 1 if it won,
      0 for a draw or an unknown result, -1 if it lost. */
  function RelativeResult(result: int, stm: Color): (r: int)
    requires -1 <= result <= 1
    ensures r == 0 <==> result == 0
    ensures r == 1 <==> Winner(result) == Some(stm)
    ensures r == -1 <==> Winner(result).Some? && Winner(result) != Some(stm)
  {
    if result == 0 then 0
    else if (stm == White && result == 1) || (stm == Black && result == -1) then 1
    else -1
  }

  /** The entry a move from `sf`, at `ply`, in a game with `result`, makes
      before any comment. */
  function NewEntry<C, S>(rules: Rules<C, S>, sf: S, mv: ChessMove, ply: nat, result: int): TrainingEntry<S>
    requires OnBoard(mv) && -1 <= result <= 1
  {
    var stm := rules.sideToMove(sf);
    TrainingEntry(sf, ConvertMove(mv, stm), 0, ply, RelativeResult(result, stm))
  }

  /**
   * `handle_move`: write the previous pending entry, make the move's entry
   * pending, play the move, and read the new position into the binpack
   * library, which is an error when it fails; then count the ply.
   */
  function HandleMove<C, S>(rules: Rules<C, S>, v: Visitor<C, S>, mv: ChessMove): (r: Flow<Visitor<C, S>>)
    requires OnBoard(mv) && -1 <= v.result <= 1
    ensures r.state.written == v.written + PendingList(v.pending)
    ensures r.state.pending == Some(NewEntry(rules, v.sfPos, mv, v.ply, v.result))
    ensures r.state.chess == rules.play(v.chess, mv)
    ensures r.Continue? <==> rules.sfFromFen(rules.fenOf(rules.play(v.chess, mv))).Some?
    ensures r.Continue? ==> r.state.sfPos == rules.sfFromFen(rules.fenOf(r.state.chess)).value
                            && r.state.ply == v.ply + 1
    ensures r.Break? ==> r.error == MoveFailed
    ensures r.state.startFen == v.startFen && r.state.result == v.result
  {
    var f := Flush(v);
    var entry := NewEntry(rules, f.sfPos, mv, f.ply, f.result);
    var chess := rules.play(f.chess, mv);
    var moved := f.(pending := Some(entry), pendingScoreSet := false, chess := chess);
    match rules.sfFromFen(rules.fenOf(chess))
    case Some(p) => Continue(moved.(sfPos := p, ply := f.ply + 1))
    case None => Break(moved, MoveFailed)
  }

  /** The internal score a comment gives at a material, if it holds an
      evaluation (`Ok(Some(cp))`). */
  function CommentScore(text: string, pc: PieceCounts): (r: Option<int>)
    ensures r.Some? <==> ParseEvalCp(text).Ok? && ParseEvalCp(text).value.Some?
    ensures r.Some? ==> r.value == NormalizeAt(ParseEvalCp(text).value.value, pc)
  {
    match ParseEvalCp(text)
    case Ok(Some(cp)) => Some(NormalizeAt(cp, pc))
    case _ => None
  }

  /** `attach_comment_eval`: an evaluation in the comment, normalised at the
      current position's material, becomes the pending entry's score. */
  function AttachComment<C, S>(rules: Rules<C, S>, v: Visitor<C, S>, text: string): (r: Visitor<C, S>)
    ensures v.pending.None? || CommentScore(text, rules.pieces(v.chess)).None? ==> r == v
    ensures v.pending.Some? && CommentScore(text, rules.pieces(v.chess)).Some? ==>
              r == v.(pending := Some(v.pending.value.(score := CommentScore(text, rules.pieces(v.chess)).value)),
                      pendingScoreSet := true)
  {
    match CommentScore(text, rules.pieces(v.chess))
    case Some(score) =>
      if v.pending.Some? then
        v.(pending := Some(v.pending.value.(score := score)), pendingScoreSet := true)
      else v
    case None => v
  }

  /** What a `Result` tag value reads as: 1 for a white win, -1 for a black
      win, 0 for a draw or an unfinished game, nothing otherwise. */
  function ResultValue(tag: string): (r: Option<int>)
    ensures r.Some? <==> tag in {"1-0", "0-1", "1/2-1/2", "*"}
    ensures r.Some? ==> -1 <= r.value <= 1 && (tag == "*" || ResultTag(r.value) == tag)
  {
    if tag == "1-0" then Some(1)
    else if tag == "0-1" then Some(-1)
    else if tag == "1/2-1/2" || tag == "*" then Some(0)
    else None
  }

  /** The `Result` tag value that names a result. */
  function ResultTag(result: int): (tag: string)
    requires -1 <= result <= 1
  {
    if result == 1 then "1-0" else if result == -1 then "0-1" else "1/2-1/2"
  }

  /** The three result tags read back as the results they name. */
  lemma ResultTagReadsBack(result: int)
    requires -1 <= result <= 1
    ensures ResultValue(ResultTag(result)) == Some(result)
  {
    if result == 1 {
      assert ResultTag(result) == "1-0";
    } else if result == -1 {
      assert ResultTag(result) == "0-1";
    } else {
      assert ResultTag(result) == "1/2-1/2";
    }
  }

  /** `tag`: a FEN tag is kept for the movetext, a `Result` tag sets the
      result or stops the reader, any other tag is ignored. */
  function TagStep<C, S>(v: Visitor<C, S>, name: string, value: string): (r: Flow<Visitor<C, S>>)
    ensures name != "FEN" && name != "Result" ==> r == Continue(v)
    ensures name == "FEN" ==> r == Continue(v.(startFen := Some(value)))
    ensures name == "Result" ==> (r.Break? <==> ResultValue(value).None?)
    ensures name == "Result" && r.Break? ==> r == Break(v, InvalidResult)
    ensures name == "Result" && r.Continue? ==> r == Continue(v.(result := ResultValue(value).value))
  {
    if name == "FEN" then Continue(v.(startFen := Some(value)))
    else if name == "Result" then
      match ResultValue(value)
      case Some(res) => Continue(v.(result := res))
      case None => Break(v, InvalidResult)
    else Continue(v)
  }

  /** `san`: a SAN that does not resolve in the current position stops the
      reader; one that does is handled. */
  function SanStep<C, S>(rules: Rules<C, S>, v: Visitor<C, S>, san: string): (r: Flow<Visitor<C, S>>)
    requires Standard(rules) && -1 <= v.result <= 1
    ensures rules.resolve(v.chess, san).None? ==> r == Break(v, SanFailed)
    ensures rules.resolve(v.chess, san).Some? ==> r == HandleMove(rules, v, rules.resolve(v.chess, san).value)
  {
    match rules.resolve(v.chess, san)
    case None => Break(v, SanFailed)
    case Some(mv) => HandleMove(rules, v, mv)
  }

  /** The result field only ever holds -1, 0 or 1. */
  predicate Valid<C, S>(v: Visitor<C, S>) {
    -1 <= v.result <= 1
  }

  /**
   * One visitor callback. Starting the tags drops the pending entry
   * unwritten and resets the game; a variation is skipped; the end of the
   * game writes the pending entry.
   */
  function Step<C, S>(rules: Rules<C, S>, v: Visitor<C, S>, e: Event): (r: Flow<Visitor<C, S>>)
    requires Standard(rules) && Valid(v)
    ensures Valid(r.state)
    ensures Extends(r.state.written, v.written)
    ensures e.BeginTags? ==> r == Continue(Fresh(rules, v.written))
    ensures e.BeginVariation? ==> r == Continue(v)
    ensures e.Comment? && v.pending.None? ==> r == Continue(v)
    ensures e.EndGame? ==> r.Continue? && r.state.written == v.written + PendingList(v.pending)
    ensures r.Break? ==> e.Tag? || e.BeginMovetext? || e.San?
  {
    match e
    case BeginTags => Continue(Fresh(rules, v.written))
    case Tag(name, value) => TagStep(v, name, value)
    case BeginMovetext => ApplyStartFen(rules, v)
    case San(san) => SanStep(rules, v, san)
    case Comment(text) => Continue(AttachComment(rules, v, text))
    case BeginVariation => Continue(v)
    case EndGame => Continue(Flush(v))
  }

  /** The reader over the events of one game: the first error stops it,
      and the game's remaining events are skipped (see `ReadGames`). */
  function Run<C, S>(rules: Rules<C, S>, v: Visitor<C, S>, events: seq<Event>): (r: Flow<Visitor<C, S>>)
    requires Standard(rules) && Valid(v)
    ensures Valid(r.state)
    ensures Extends(r.state.written, v.written)
    decreases |events|
  {
    if events == [] then Continue(v)
    else match Step(rules, v, events[0])
      case Continue(w) => Run(rules, w, events[1..])
      case Break(w, err) => Break(w, err)
  }

  /** Running one stream after another is running their concatenation. */
  lemma {:induction false} RunAppend<C, S>(rules: Rules<C, S>, v: Visitor<C, S>, a: seq<Event>, b: seq<Event>)
    requires Standard(rules) && Valid(v)
    ensures Run(rules, v, a + b) ==
            if Run(rules, v, a).Continue? then Run(rules, Run(rules, v, a).state, b) else Run(rules, v, a)
    decreases |a|
  {
    if a == [] {
      assert a + b == b;
    } else {
      assert (a + b)[0] == a[0];
      assert (a + b)[1..] == a[1..] + b;
      match Step(rules, v, a[0])
      case Continue(w) =>
        RunAppend(rules, w, a[1..], b);
      case Break(_, _) =>
    }
  }

  // ---------------------------------------------------------------------
  // Comments
  // ---------------------------------------------------------------------

  /** One comment event per comment. */
  function Comments(cs: seq<string>): (es: seq<Event>)
    ensures |es| == |cs|
    ensures forall i :: 0 <= i < |cs| ==> es[i] == Comment(cs[i])
  {
    if cs == [] then [] else Comments(cs[..|cs| - 1]) + [Comment(cs[|cs| - 1])]
  }

  /** The score the last comment with an evaluation gives, or `score` when
      no comment has one. */
  function LastScore(cs: seq<string>, pc: PieceCounts, score: int): int {
    if cs == [] then score
    else match CommentScore(cs[|cs| - 1], pc)
      case Some(s) => s
      case None => LastScore(cs[..|cs| - 1], pc, score)
  }

  /** The pending entry's score after a run of comments is the last
      evaluation among them; nothing else changes but the flag. */
  lemma {:induction false} CommentsSetScore<C, S>(rules: Rules<C, S>, v: Visitor<C, S>, cs: seq<string>)
    requires Standard(rules) && Valid(v) && v.pending.Some?
    ensures var r := Run(rules, v, Comments(cs));
            r.Continue? && r.state.pending.Some? &&
            r.state.pending.value == v.pending.value.(score := LastScore(cs, rules.pieces(v.chess), v.pending.value.score)) &&
            r.state == v.(pending := r.state.pending, pendingScoreSet := r.state.pendingScoreSet)
    decreases |cs|
  {
    if cs != [] {
      var init, last := cs[..|cs| - 1], cs[|cs| - 1];
      RunAppend(rules, v, Comments(init), [Comment(last)]);
      CommentsSetScore(rules, v, init);
      var w := Run(rules, v, Comments(init)).state;
      assert Run(rules, w, [Comment(last)]) == Run(rules, AttachComment(rules, w, last), []);
    }
  }

  /** Comments with nothing pending change nothing. */
  lemma {:induction false} CommentsWithoutEntry<C, S>(rules: Rules<C, S>, v: Visitor<C, S>, cs: seq<string>)
    requires Standard(rules) && Valid(v) && v.pending.None?
    ensures Run(rules, v, Comments(cs)) == Continue(v)
    decreases |cs|
  {
    if cs != [] {
      var init, last := cs[..|cs| - 1], cs[|cs| - 1];
      RunAppend(rules, v, Comments(init), [Comment(last)]);
      CommentsWithoutEntry(rules, v, init);
      assert Run(rules, v, [Comment(last)]) == Run(rules, v, []);
    }
  }

  // ---------------------------------------------------------------------
  // A game's mainline
  // ---------------------------------------------------------------------

  /** A mainline move as the reader delivers it: its SAN and the comments
      after it. */
  datatype MainlineMove = MainlineMove(san: string, comments: seq<string>)

  function PlyEvents(m: MainlineMove): seq<Event> {
    [San(m.san)] + Comments(m.comments)
  }

  function Movetext(ms: seq<MainlineMove>): seq<Event> {
    if ms == [] then [] else PlyEvents(ms[0]) + Movetext(ms[1..])
  }

  /** What one mainline move gives, played from `chess` (with `sf` its
      binpack position) at `ply`: its entry, with the last evaluation in
      its comments normalised at the material after the move (else 0), and
      the two positions after it. None when the SAN does not resolve or the
      position after the move cannot be read into the binpack library. */
  function MoveOutcome<C, S>(rules: Rules<C, S>, chess: C, sf: S, ply: nat, result: int, m: MainlineMove)
    : (r: Option<(TrainingEntry<S>, C, S)>)
    requires -1 <= result <= 1
    ensures r.Some? ==> r.value.0.pos == sf && r.value.0.ply == ply && -1 <= r.value.0.result <= 1
  {
    match rules.resolve(chess, m.san)
    case None => None
    case Some(mv) =>
      var after := rules.play(chess, mv);
      match rules.sfFromFen(rules.fenOf(after))
      case None => None
      case Some(next) =>
        Some((NewEntry(rules, sf, mv, ply, result).(score := LastScore(m.comments, rules.pieces(after), 0)), after, next))
  }

  /**
   * The entries a mainline should give: one per move, in move order, each
   * as `MoveOutcome` makes it from the positions the earlier moves reached.
   * None when some move gives none.
   */
  function Expected<C, S>(rules: Rules<C, S>, chess: C, sf: S, ply: nat, result: int, ms: seq<MainlineMove>)
    : (r: Option<seq<TrainingEntry<S>>>)
    requires -1 <= result <= 1
    ensures r.Some? ==> |r.value| == |ms|
    ensures r.Some? ==> forall i :: 0 <= i < |ms| ==> r.value[i].ply == ply + i && -1 <= r.value[i].result <= 1
    ensures r.Some? && ms != [] ==> r.value[0].pos == sf
    decreases |ms|
  {
    if ms == [] then Some([])
    else match MoveOutcome(rules, chess, sf, ply, result, ms[0])
      case None => None
      case Some((entry, after, next)) =>
        match Expected(rules, after, next, ply + 1, result, ms[1..])
        case None => None
        case Some(rest) => Some([entry] + rest)
  }

  /** One mainline move: it writes the previous pending entry, and its own
      entry is pending afterwards with the score its comments give. */
  lemma {:induction false} PlyStep<C, S>(rules: Rules<C, S>, v: Visitor<C, S>, m: MainlineMove)
    requires Standard(rules) && Valid(v)
    ensures var r := Run(rules, v, PlyEvents(m));
            var o := MoveOutcome(rules, v.chess, v.sfPos, v.ply, v.result, m);
            (r.Continue? <==> o.Some?) &&
            (o.Some? ==>
               r.state.written == v.written + PendingList(v.pending) &&
               r.state.pending == Some(o.value.0) && r.state.chess == o.value.1 && r.state.sfPos == o.value.2 &&
               r.state.ply == v.ply + 1 && r.state.result == v.result)
  {
    RunAppend(rules, v, [San(m.san)], Comments(m.comments));
    assert Run(rules, v, [San(m.san)]) ==
           if Step(rules, v, San(m.san)).Continue? then Run(rules, Step(rules, v, San(m.san)).state, [])
           else Step(rules, v, San(m.san));
    var r1 := Step(rules, v, San(m.san));
    if r1.Continue? {
      CommentsSetScore(rules, r1.state, m.comments);
    }
  }

  /** A run wrote the entry pending at `v` and then the entries `ex` gives,
      and stopped exactly when `ex` has none. */
  ghost predicate WritesAs<C, S>(v: Visitor<C, S>, ex: Option<seq<TrainingEntry<S>>>, r: Flow<Visitor<C, S>>) {
    (r.Continue? <==> ex.Some?) &&
    (ex.Some? ==> r.state.written == v.written + PendingList(v.pending) + ex.value)
  }

  /** `Expected` on a non-empty mainline: the first move's outcome, then the
      rest from the positions it reaches. */
  lemma ExpectedCons<C, S>(rules: Rules<C, S>, chess: C, sf: S, ply: nat, result: int, ms: seq<MainlineMove>)
    requires -1 <= result <= 1 && ms != []
    ensures var o := MoveOutcome(rules, chess, sf, ply, result, ms[0]);
            var ex := Expected(rules, chess, sf, ply, result, ms);
            (o.None? ==> ex.None?) &&
            (o.Some? ==>
               var rest := Expected(rules, o.value.1, o.value.2, ply + 1, result, ms[1..]);
               (ex.Some? <==> rest.Some?) && (ex.Some? ==> ex.value == [o.value.0] + rest.value))
  {
  }

  /** A first move that stops the reader stops the whole mainline, and
      `Expected` has no entries then. */
  lemma {:induction false} MovetextStops<C, S>(rules: Rules<C, S>, v: Visitor<C, S>, ms: seq<MainlineMove>)
    requires Standard(rules) && Valid(v) && ms != []
    requires Run(rules, v, PlyEvents(ms[0])).Break?
    ensures WritesAs(v, Expected(rules, v.chess, v.sfPos, v.ply, v.result, ms), Run(rules, v, Movetext(ms) + [EndGame]))
  {
    var m, tail := ms[0], Movetext(ms[1..]) + [EndGame];
    assert Movetext(ms) + [EndGame] == PlyEvents(m) + tail;
    RunAppend(rules, v, PlyEvents(m), tail);
    PlyStep(rules, v, m);
    ExpectedCons(rules, v.chess, v.sfPos, v.ply, v.result, ms);
  }

  /** A first move that goes on hands the rest of the mainline the state it
      reached. */
  lemma {:induction false} RunSkipsFirst<C, S>(rules: Rules<C, S>, v: Visitor<C, S>, ms: seq<MainlineMove>, w: Visitor<C, S>)
    requires Standard(rules) && Valid(v) && ms != []
    requires Run(rules, v, PlyEvents(ms[0])) == Continue(w)
    ensures Run(rules, v, Movetext(ms) + [EndGame]) == Run(rules, w, Movetext(ms[1..]) + [EndGame])
  {
    var tail := Movetext(ms[1..]) + [EndGame];
    assert Movetext(ms) + [EndGame] == PlyEvents(ms[0]) + tail;
    RunAppend(rules, v, PlyEvents(ms[0]), tail);
  }

  /** The state a move that goes on reaches is the one its outcome names,
      with its entry pending. */
  lemma {:induction false} PlyReaches<C, S>(rules: Rules<C, S>, v: Visitor<C, S>, m: MainlineMove, w: Visitor<C, S>)
    requires Standard(rules) && Valid(v)
    requires Run(rules, v, PlyEvents(m)) == Continue(w)
    ensures var o := MoveOutcome(rules, v.chess, v.sfPos, v.ply, v.result, m);
            o.Some? && w.chess == o.value.1 && w.sfPos == o.value.2 && w.ply == v.ply + 1 && w.result == v.result &&
            w.written + PendingList(w.pending) == v.written + PendingList(v.pending) + [o.value.0]
  {
    PlyStep(rules, v, m);
  }

  /** `Expected` from the state a first move reaches, after that move's
      entry, is `Expected` from the state before it. */
  lemma {:induction false} ExpectedSkipsFirst<C, S>(rules: Rules<C, S>, v: Visitor<C, S>, ms: seq<MainlineMove>, w: Visitor<C, S>)
    requires Valid(v) && Valid(w) && ms != []
    requires var o := MoveOutcome(rules, v.chess, v.sfPos, v.ply, v.result, ms[0]);
             o.Some? && w.chess == o.value.1 && w.sfPos == o.value.2 && w.ply == v.ply + 1 && w.result == v.result &&
             w.written + PendingList(w.pending) == v.written + PendingList(v.pending) + [o.value.0]
    ensures var ex := Expected(rules, v.chess, v.sfPos, v.ply, v.result, ms);
            var rest := Expected(rules, w.chess, w.sfPos, w.ply, w.result, ms[1..]);
            (ex.Some? <==> rest.Some?) &&
            (ex.Some? ==> v.written + PendingList(v.pending) + ex.value == w.written + PendingList(w.pending) + rest.value)
  {
    ExpectedCons(rules, v.chess, v.sfPos, v.ply, v.result, ms);
    var o := MoveOutcome(rules, v.chess, v.sfPos, v.ply, v.result, ms[0]);
    var ex := Expected(rules, v.chess, v.sfPos, v.ply, v.result, ms);
    if ex.Some? {
      var rest := Expected(rules, w.chess, w.sfPos, w.ply, w.result, ms[1..]);
      ConsShifts(v.written + PendingList(v.pending), o.value.0, rest.value, w.written + PendingList(w.pending));
    }
  }

  /** A run that writes, after what `w` had written or pending, what `rest`
      gives, writes after what `v` had what `ex` gives, when the two agree. */
  lemma WritesShift<C, S>(v: Visitor<C, S>, w: Visitor<C, S>, ex: Option<seq<TrainingEntry<S>>>,
                          rest: Option<seq<TrainingEntry<S>>>, r: Flow<Visitor<C, S>>)
    requires ex.Some? <==> rest.Some?
    requires ex.Some? ==> v.written + PendingList(v.pending) + ex.value == w.written + PendingList(w.pending) + rest.value
    requires WritesAs(w, rest, r)
    ensures WritesAs(v, ex, r)
  {
  }

  /** Moving an element from the front of one part to the back of the other
      keeps the whole. */
  lemma ConsShifts<T>(a: seq<T>, x: T, rest: seq<T>, c: seq<T>)
    requires c == a + [x]
    ensures a + ([x] + rest) == c + rest
  {
  }

  lemma {:induction false} MovetextGoesOn<C, S>(rules: Rules<C, S>, v: Visitor<C, S>, ms: seq<MainlineMove>, w: Visitor<C, S>)
    requires Standard(rules) && Valid(v) && Valid(w) && ms != []
    requires Run(rules, v, PlyEvents(ms[0])) == Continue(w)
    requires WritesAs(w, Expected(rules, w.chess, w.sfPos, w.ply, w.result, ms[1..]),
                      Run(rules, w, Movetext(ms[1..]) + [EndGame]))
    ensures WritesAs(v, Expected(rules, v.chess, v.sfPos, v.ply, v.result, ms), Run(rules, v, Movetext(ms) + [EndGame]))
  {
    RunSkipsFirst(rules, v, ms, w);
    PlyReaches(rules, v, ms[0], w);
    ExpectedSkipsFirst(rules, v, ms, w);
    WritesShift(v, w, Expected(rules, v.chess, v.sfPos, v.ply, v.result, ms),
                Expected(rules, w.chess, w.sfPos, w.ply, w.result, ms[1..]), Run(rules, w, Movetext(ms[1..]) + [EndGame]));
  }

  /**
   * A mainline followed by the end of the game writes the entry pending
   * before it, then exactly the entries `Expected` gives, one per move in
   * move order; it stops with an error exactly when `Expected` has none.
   */
  lemma {:induction false} MovetextWrites<C, S>(rules: Rules<C, S>, v: Visitor<C, S>, ms: seq<MainlineMove>)
    requires Standard(rules) && Valid(v)
    ensures WritesAs(v, Expected(rules, v.chess, v.sfPos, v.ply, v.result, ms), Run(rules, v, Movetext(ms) + [EndGame]))
    decreases |ms|
  {
    if ms == [] {
      assert Movetext(ms) + [EndGame] == [EndGame];
      assert Run(rules, v, [EndGame]) == Run(rules, Flush(v), []);
    } else {
      var r1 := Run(rules, v, PlyEvents(ms[0]));
      if r1.Continue? {
        MovetextWrites(rules, r1.state, ms[1..]);
        MovetextGoesOn(rules, v, ms, r1.state);
      } else {
        MovetextStops(rules, v, ms);
      }
    }
  }

  // ---------------------------------------------------------------------
  // A game's tags, and a whole game
  // ---------------------------------------------------------------------

  /** One tag event per tag, in order. */
  function TagEvents(tags: seq<(string, string)>): (es: seq<Event>)
    ensures |es| == |tags|
    ensures forall i :: 0 <= i < |tags| ==> es[i] == Tag(tags[i].0, tags[i].1)
  {
    if tags == [] then [] else TagEvents(tags[..|tags| - 1]) + [Tag(tags[|tags| - 1].0, tags[|tags| - 1].1)]
  }

  /** Every `Result` tag holds one of the four result values. */
  predicate ResultsRead(tags: seq<(string, string)>) {
    tags == [] ||
    (ResultsRead(tags[..|tags| - 1]) &&
     (tags[|tags| - 1].0 == "Result" ==> ResultValue(tags[|tags| - 1].1).Some?))
  }

  /** The value of the last FEN tag, or `fen` when there is none. */
  function LastFen(tags: seq<(string, string)>, fen: Option<string>): (r: Option<string>)
    ensures r.None? ==> fen.None?
  {
    if tags == [] then fen
    else if tags[|tags| - 1].0 == "FEN" then Some(tags[|tags| - 1].1)
    else LastFen(tags[..|tags| - 1], fen)
  }

  /** The result the last readable `Result` tag names, or `result` when there
      is none. */
  function LastResult(tags: seq<(string, string)>, result: int): (r: int)
    requires -1 <= result <= 1
    ensures -1 <= r <= 1
  {
    if tags == [] then result
    else match (if tags[|tags| - 1].0 == "Result" then ResultValue(tags[|tags| - 1].1) else None)
      case Some(res) => res
      case None => LastResult(tags[..|tags| - 1], result)
  }

  /**
   * The tags of a game stop the reader exactly when some `Result` tag holds
   * another value, with nothing written; otherwise they leave the last FEN
   * tag and the last result, and nothing else changes.
   */
  lemma {:induction false} TagsRun<C, S>(rules: Rules<C, S>, v: Visitor<C, S>, tags: seq<(string, string)>)
    requires Standard(rules) && Valid(v)
    ensures var r := Run(rules, v, TagEvents(tags));
            (r.Continue? <==> ResultsRead(tags)) &&
            (r.Continue? ==> r.state == v.(startFen := LastFen(tags, v.startFen), result := LastResult(tags, v.result))) &&
            (r.Break? ==> r.error == InvalidResult && r.state.written == v.written && r.state.pending == v.pending)
    decreases |tags|
  {
    if tags != [] {
      var init, last := tags[..|tags| - 1], tags[|tags| - 1];
      RunAppend(rules, v, TagEvents(init), [Tag(last.0, last.1)]);
      TagsRun(rules, v, init);
      var r := Run(rules, v, TagEvents(init));
      if r.Continue? {
        assert Run(rules, r.state, [Tag(last.0, last.1)]) ==
               if TagStep(r.state, last.0, last.1).Continue? then Run(rules, TagStep(r.state, last.0, last.1).state, [])
               else TagStep(r.state, last.0, last.1);
      }
    }
  }

  /** The events of one game: its tags, then its mainline, then its end. */
  function GameEvents(tags: seq<(string, string)>, ms: seq<MainlineMove>): seq<Event> {
    [BeginTags] + (TagEvents(tags) + ([BeginMovetext] + (Movetext(ms) + [EndGame])))
  }

  /** The state a game's tags set up, before its start FEN is applied. */
  function AfterTags<C, S>(rules: Rules<C, S>, written: seq<TrainingEntry<S>>, tags: seq<(string, string)>): (g: Visitor<C, S>)
    requires Standard(rules)
    ensures Valid(g)
  {
    Fresh(rules, written).(startFen := LastFen(tags, None), result := LastResult(tags, 0))
  }

  /** A game's events split at its tags. */
  lemma GameThroughTags<C, S>(rules: Rules<C, S>, v: Visitor<C, S>, tags: seq<(string, string)>, ms: seq<MainlineMove>)
    requires Standard(rules) && Valid(v)
    ensures var f := Fresh(rules, v.written);
            var r1 := Run(rules, f, TagEvents(tags));
            Run(rules, v, GameEvents(tags, ms)) ==
            if r1.Continue? then Run(rules, r1.state, [BeginMovetext] + (Movetext(ms) + [EndGame])) else r1
  {
    var rest := [BeginMovetext] + (Movetext(ms) + [EndGame]);
    BeginTagsResets(rules, v, TagEvents(tags) + rest);
    RunAppend(rules, Fresh(rules, v.written), TagEvents(tags), rest);
  }

  /** Starting the tags resets the game. */
  lemma BeginTagsResets<C, S>(rules: Rules<C, S>, v: Visitor<C, S>, es: seq<Event>)
    requires Standard(rules) && Valid(v)
    ensures Run(rules, v, [BeginTags] + es) == Run(rules, Fresh(rules, v.written), es)
  {
    assert ([BeginTags] + es)[0] == BeginTags;
    assert ([BeginTags] + es)[1..] == es;
  }

  /** The movetext starts by applying the start FEN. */
  lemma MovetextStarts<C, S>(rules: Rules<C, S>, w: Visitor<C, S>, ms: seq<MainlineMove>)
    requires Standard(rules) && Valid(w)
    ensures var a := ApplyStartFen(rules, w);
            Run(rules, w, [BeginMovetext] + (Movetext(ms) + [EndGame])) ==
            if a.Continue? then Run(rules, a.state, Movetext(ms) + [EndGame]) else a
  {
    RunAppend(rules, w, [BeginMovetext], Movetext(ms) + [EndGame]);
    assert Run(rules, w, [BeginMovetext]) ==
           if ApplyStartFen(rules, w).Continue? then Run(rules, ApplyStartFen(rules, w).state, []) else ApplyStartFen(rules, w);
  }

  /**
   * A whole game drops whatever an earlier game left pending. An unreadable
   * `Result` tag, or a start FEN only the chess library reads, stops the
   * reader with nothing more written. Otherwise the game writes exactly the
   * entries `Expected` gives for its mainline from the start position, ply
   * 0 and the result its tags name, one per move in move order, and stops
   * with an error exactly when `Expected` has none.
   */
  lemma GameWrites<C, S>(rules: Rules<C, S>, v: Visitor<C, S>, tags: seq<(string, string)>, ms: seq<MainlineMove>)
    requires Standard(rules) && Valid(v)
    ensures var g := AfterTags(rules, v.written, tags);
            var r := Run(rules, v, GameEvents(tags, ms));
            (!ResultsRead(tags) ==> r.Break? && r.error == InvalidResult && r.state.written == v.written) &&
            (ResultsRead(tags) && ApplyStartFen(rules, g).Break? ==>
               r.Break? && r.error == StartFenFailed && r.state.written == v.written) &&
            (ResultsRead(tags) && ApplyStartFen(rules, g).Continue? ==>
               var s := ApplyStartFen(rules, g).state;
               s.written == v.written && s.pending.None? && s.ply == 0 &&
               WritesAs(s, Expected(rules, s.chess, s.sfPos, 0, g.result, ms), r))
  {
    var f := Fresh(rules, v.written);
    GameThroughTags(rules, v, tags, ms);
    TagsRun(rules, f, tags);
    if ResultsRead(tags) {
      var g := Run(rules, f, TagEvents(tags)).state;
      assert g == AfterTags(rules, v.written, tags);
      MovetextStarts(rules, g, ms);
      var a := ApplyStartFen(rules, g);
      if a.Continue? {
        MovetextWrites(rules, a.state, ms);
      }
    }
  }

  // ---------------------------------------------------------------------
  // A whole file of games
  // ---------------------------------------------------------------------

  /** One game of a PGN file: its tags and its mainline. */
  datatype Game = Game(tags: seq<(string, string)>, moves: seq<MainlineMove>)

  /**
   * `process_pgn`'s loop over the games of a file. Each game runs from the
   * state the previous one left. An error ends only its own game: the
   * reader skips the rest of it, the error is dropped, and the next game
   * starts; a pending entry the failed game left is never written.
   */
  function ReadGames<C, S>(rules: Rules<C, S>, v: Visitor<C, S>, games: seq<Game>): (r: Visitor<C, S>)
    requires Standard(rules) && Valid(v)
    ensures Valid(r)
    ensures Extends(r.written, v.written)
    decreases |games|
  {
    if games == [] then v
    else
      var w := GameRun(rules, v, games[0]);
      var r := ReadGames(rules, w, games[1..]);
      assert r.written[..|v.written|] == r.written[..|w.written|][..|v.written|];
      r
  }

  /** The state one game leaves, whether it ended or stopped. */
  function GameRun<C, S>(rules: Rules<C, S>, v: Visitor<C, S>, g: Game): (w: Visitor<C, S>)
    requires Standard(rules) && Valid(v)
    ensures Valid(w) && Extends(w.written, v.written)
  {
    Run(rules, v, GameEvents(g.tags, g.moves)).state
  }

  /** The entries one game writes on its own, from a visitor with nothing
      written. */
  function GameEntries<C, S>(rules: Rules<C, S>, g: Game): seq<TrainingEntry<S>>
    requires Standard(rules)
  {
    GameRun(rules, Fresh(rules, []), g).written
  }

  /** The entries of each game in turn. */
  function AllGameEntries<C, S>(rules: Rules<C, S>, games: seq<Game>): seq<TrainingEntry<S>>
    requires Standard(rules)
    decreases |games|
  {
    if games == [] then [] else GameEntries(rules, games[0]) + AllGameEntries(rules, games[1..])
  }

  /** `v` with `pre` written before everything it wrote. */
  function Shifted<C, S>(pre: seq<TrainingEntry<S>>, v: Visitor<C, S>): Visitor<C, S> {
    v.(written := pre + v.written)
  }

  function ShiftedFlow<C, S>(pre: seq<TrainingEntry<S>>, r: Flow<Visitor<C, S>>): Flow<Visitor<C, S>> {
    match r
    case Continue(w) => Continue(Shifted(pre, w))
    case Break(w, err) => Break(Shifted(pre, w), err)
  }

  /** No callback looks at what was written before: it only appends. */
  lemma StepShift<C, S>(rules: Rules<C, S>, pre: seq<TrainingEntry<S>>, v: Visitor<C, S>, e: Event)
    requires Standard(rules) && Valid(v)
    ensures Step(rules, Shifted(pre, v), e) == ShiftedFlow(pre, Step(rules, v, e))
  {
    match e
    case San(san) =>
      assert pre + v.written + PendingList(v.pending) == pre + (v.written + PendingList(v.pending));
    case EndGame =>
      assert pre + v.written + PendingList(v.pending) == pre + (v.written + PendingList(v.pending));
    case _ =>
  }

  lemma {:induction false} RunShift<C, S>(rules: Rules<C, S>, pre: seq<TrainingEntry<S>>, v: Visitor<C, S>, es: seq<Event>)
    requires Standard(rules) && Valid(v)
    ensures Run(rules, Shifted(pre, v), es) == ShiftedFlow(pre, Run(rules, v, es))
    decreases |es|
  {
    if es != [] {
      StepShift(rules, pre, v, es[0]);
      match Step(rules, v, es[0])
      case Continue(w) =>
        RunShift(rules, pre, w, es[1..]);
      case Break(_, _) =>
    }
  }

  /** A game writes the same entries whatever came before it, after
      everything written before it. */
  lemma GameWritesOwnEntries<C, S>(rules: Rules<C, S>, v: Visitor<C, S>, g: Game)
    requires Standard(rules) && Valid(v)
    ensures GameRun(rules, v, g).written == v.written + GameEntries(rules, g)
  {
    var es := TagEvents(g.tags) + ([BeginMovetext] + (Movetext(g.moves) + [EndGame]));
    var f := Fresh(rules, []);
    BeginTagsResets(rules, v, es);
    BeginTagsResets(rules, f, es);
    assert Fresh(rules, v.written) == Shifted(v.written, f);
    RunShift(rules, v.written, f, es);
  }

  /**
   * Reading a file writes, after what was written before, the entries of
   * every game in file order, each game's entries the ones it writes on its
   * own: an error in one game costs the rest of that game only, and the
   * games after it are written as if it had not happened.
   */
  lemma {:induction false} ReadGamesWrites<C, S>(rules: Rules<C, S>, v: Visitor<C, S>, games: seq<Game>)
    requires Standard(rules) && Valid(v)
    ensures ReadGames(rules, v, games).written == v.written + AllGameEntries(rules, games)
    decreases |games|
  {
    if games != [] {
      var w := GameRun(rules, v, games[0]);
      assert ReadGames(rules, v, games) == ReadGames(rules, w, games[1..]);
      GameWritesOwnEntries(rules, v, games[0]);
      ReadGamesWrites(rules, w, games[1..]);
      var a, b := GameEntries(rules, games[0]), AllGameEntries(rules, games[1..]);
      assert AllGameEntries(rules, games) == a + b;
      assert (v.written + a) + b == v.written + (a + b);
    }
  }

  /**
   * What one game writes on its own: nothing when a `Result` tag is
   * unreadable or the start FEN fails; otherwise, when every move resolves
   * and reaches a readable position, exactly the entries `Expected` gives.
   */
  lemma GameEntriesAre<C, S>(rules: Rules<C, S>, g: Game)
    requires Standard(rules)
    ensures !ResultsRead(g.tags) ==> GameEntries(rules, g) == []
    ensures var a := AfterTags(rules, [], g.tags);
            ResultsRead(g.tags) && ApplyStartFen(rules, a).Break? ==> GameEntries(rules, g) == []
    ensures var a := AfterTags(rules, [], g.tags);
            ResultsRead(g.tags) && ApplyStartFen(rules, a).Continue? ==>
              var s := ApplyStartFen(rules, a).state;
              var ex := Expected(rules, s.chess, s.sfPos, 0, a.result, g.moves);
              ex.Some? ==> GameEntries(rules, g) == ex.value
  {
    var f := Fresh(rules, []);
    GameWrites(rules, f, g.tags, g.moves);
  }
}
