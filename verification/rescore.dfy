/**
 * `rescore_binpack`: one pass over the records of a binpack, asking the
 * engine to search each record's position and writing the record back with
 * only its score replaced.
 *
 * The engine is told the position as a start FEN plus the UCI moves played
 * since then. That history is restarted ("reset") at some records and
 * extended by one move after every record. The reset test as written
 * restarts when the *next* record continues the current one; the intended
 * test restarts when the current record does *not* continue the previous
 * one. Both are modelled (`ResetRule`), the difference is exhibited, and the
 * intended one is shown to hand the engine exactly the record's position.
 */
module Rescore {
  import opened Wrappers
  import opened Wdl
  import opened Uci
  import opened Binpack

  /** What the rescorer reads off positions and moves: the FEN of a position,
      its piece counts, and the UCI text of a move. */
  datatype View<!P> = View(fen: P -> string, pieces: P -> PieceCounts, uci: Move -> string)

  /** The start FEN and the move history handed to the engine. */
  datatype Context = Context(fen: string, moves: seq<string>)

  function Extend(c: Context, m: string): Context {
    c.(moves := c.moves + [m])
  }

  datatype ResetRule =
    | AsWritten   // restart when the next record is a continuation of this one
    | Intended    // restart when this record is not a continuation of the previous one

  /** Whether the history is restarted at record `i`; always at the first. */
  predicate Resets<P>(rule: ResetRule, recs: seq<Record<P>>, i: nat)
    requires i < |recs|
  {
    i == 0 ||
    match rule
    case AsWritten => recs[i].nextIsContinuation
    case Intended => !recs[i - 1].nextIsContinuation
  }

  /** The context record `i` is searched in. */
  function Used<P>(rule: ResetRule, recs: seq<Record<P>>, view: View<P>, i: nat): (c: Context)
    requires i < |recs|
    ensures c.fen == view.fen(recs[LastReset(rule, recs, i)].entry.pos)
    ensures |c.moves| == i - LastReset(rule, recs, i)
  {
    if Resets(rule, recs, i) then Context(view.fen(recs[i].entry.pos), [])
    else Extend(Used(rule, recs, view, i - 1), view.uci(recs[i - 1].entry.mv))
  }

  // ---------------------------------------------------------------------
  // The fold
  // ---------------------------------------------------------------------

  /** The context the loop picks at record `i`, given the one it carried. */
  function Picked<P>(rule: ResetRule, recs: seq<Record<P>>, i: nat, carried: Context, view: View<P>): Context
    requires i < |recs|
  {
    if Resets(rule, recs, i) then Context(view.fen(recs[i].entry.pos), []) else carried
  }

  /** The index one past the last record a loop entered at `i` handles. */
  function LoopEnd(total: nat, i: nat, limit: Option<nat>): (n: nat)
    requires i <= total
    ensures i <= n <= total
  {
    if i == total then total
    else match limit
      case None => total
      case Some(l) => if l <= i + 1 then i + 1 else if total < l then total else l
  }

  /** One engine search in a context at a material count, from a session. */
  type Search = (Session, Context, int) -> Result<(int, Session), EngineError>

  /** `evaluate_moves` at a search depth, as a search. */
  function EngineSearch(depth: nat): Search {
    (s: Session, c: Context, material: int) => EvaluateMoves(s, c.fen, c.moves, depth, material)
  }

  /** Every score the search returns is one the normaliser produces. */
  ghost predicate ScoresNormalized(search: Search) {
    forall s: Session, c: Context, material: int ::
      search(s, c, material).Ok? ==> IsNormalized(search(s, c, material).value.0, material)
  }

  /** The search sends the position, the search command and a readiness check. */
  ghost predicate SendsQuery(search: Search, depth: nat) {
    forall s: Session, c: Context, material: int ::
      search(s, c, material).Ok? ==>
        search(s, c, material).value.1.sent == s.sent + [Position(c.fen, c.moves)] + [Go(depth)] + [IsReady]
  }

  lemma EngineSearchProperties(depth: nat)
    ensures ScoresNormalized(EngineSearch(depth))
    ensures SendsQuery(EngineSearch(depth), depth)
  {
    forall s: Session, c: Context, material: int
      ensures EngineSearch(depth)(s, c, material) == EvaluateMoves(s, c.fen, c.moves, depth, material)
    {
    }
  }

  /**
   * The loop of `rescore_binpack` entered at record `i` with `carried` the
   * context left by the previous record: choose the context, search, write
   * the record with the new score, stop at the limit, else add the move to
   * the history and go on. An engine error ends the loop with that error.
   */
  function RescoreLoop<P>(rule: ResetRule, recs: seq<Record<P>>, i: nat, carried: Context, s: Session,
                          view: View<P>, limit: Option<nat>, search: Search)
    : (r: Result<(seq<TrainingEntry<P>>, Session), EngineError>)
    requires i <= |recs|
    ensures r.Ok? ==> i + |r.value.0| == LoopEnd(|recs|, i, limit)
    ensures r.Ok? ==> forall j :: 0 <= j < |r.value.0| ==>
                        r.value.0[j] == recs[i + j].entry.(score := r.value.0[j].score)
    ensures r.Ok? && ScoresNormalized(search) ==> forall j :: 0 <= j < |r.value.0| ==>
                        IsNormalized(r.value.0[j].score, MaterialCount(view.pieces(recs[i + j].entry.pos)))
    decreases |recs| - i
  {
    if i == |recs| then Ok(([], s))
    else
      var e := recs[i].entry;
      var ctx := Picked(rule, recs, i, carried, view);
      match search(s, ctx, MaterialCount(view.pieces(e.pos)))
      case Err(err) => Err(err)
      case Ok((score, s1)) =>
        var out := e.(score := score);
        if limit.Some? && i + 1 >= limit.value then Ok(([out], s1))
        else
          match RescoreLoop(rule, recs, i + 1, Extend(ctx, view.uci(e.mv)), s1, view, limit, search)
          case Err(err) => Err(err)
          case Ok((rest, s2)) => Ok(([out] + rest, s2))
  }

  /**
   * `rescore_binpack` over the records `recs`, with `output` the engine's
   * output lines: handshake, new game, the loop, then `quit`. The result is
   * the records written, their number, and every command sent.
   */
  function RescoreBinpackWith<P>(rule: ResetRule, recs: seq<Record<P>>, output: seq<string>,
                                 view: View<P>, limit: Option<nat>, search: Search)
    : (r: Result<(seq<TrainingEntry<P>>, nat, seq<Command>), EngineError>)
    ensures r.Ok? ==> r.value.1 == |r.value.0| == Processed(|recs|, limit)
    ensures r.Ok? ==> forall j :: 0 <= j < |r.value.0| ==>
                        r.value.0[j] == recs[j].entry.(score := r.value.0[j].score)
    ensures r.Ok? && ScoresNormalized(search) ==> forall j :: 0 <= j < |r.value.0| ==>
                        IsNormalized(r.value.0[j].score, MaterialCount(view.pieces(recs[j].entry.pos)))
  {
    match Start(output)
    case Err(e) => Err(e)
    case Ok(s0) =>
      match NewGame(s0)
      case Err(e) => Err(e)
      case Ok(s1) =>
        match RescoreLoop(rule, recs, 0, Context("", []), s1, view, limit, search)
        case Err(e) => Err(e)
        case Ok((written, s2)) => Ok((written, |written|, Shutdown(s2)))
  }

  /** `rescore_binpack` searching with `evaluate_moves`: every score written
      is one the normaliser produces at the record's material. */
  function RescoreBinpack<P>(rule: ResetRule, recs: seq<Record<P>>, output: seq<string>, depth: nat,
                             view: View<P>, limit: Option<nat>)
    : (r: Result<(seq<TrainingEntry<P>>, nat, seq<Command>), EngineError>)
    ensures r.Ok? ==> r.value.1 == |r.value.0| == Processed(|recs|, limit)
    ensures r.Ok? ==> forall j :: 0 <= j < |r.value.0| ==>
                        r.value.0[j] == recs[j].entry.(score := r.value.0[j].score)
    ensures r.Ok? ==> forall j :: 0 <= j < |r.value.0| ==>
                        IsNormalized(r.value.0[j].score, MaterialCount(view.pieces(recs[j].entry.pos)))
  {
    EngineSearchProperties(depth);
    RescoreBinpackWith(rule, recs, output, view, limit, EngineSearch(depth))
  }

  // ---------------------------------------------------------------------
  // The commands sent
  // ---------------------------------------------------------------------

  /** The commands for records `i` up to `n`: position, search, readiness. */
  function Queries<P>(rule: ResetRule, recs: seq<Record<P>>, view: View<P>, depth: nat, i: nat, n: nat)
    : seq<Command>
    requires i <= n <= |recs|
    decreases n - i
  {
    if i == n then []
    else
      var u := Used(rule, recs, view, i);
      [Position(u.fen, u.moves), Go(depth), IsReady] + Queries(rule, recs, view, depth, i + 1, n)
  }

  /** The context the loop picks at record `i` is the one `Used` names,
      provided it carries the previous record's context and move. */
  lemma PickedContextIsUsed<P>(rule: ResetRule, recs: seq<Record<P>>, i: nat, carried: Context, view: View<P>)
    requires i < |recs|
    requires 0 < i ==> carried == Extend(Used(rule, recs, view, i - 1), view.uci(recs[i - 1].entry.mv))
    ensures Picked(rule, recs, i, carried, view) == Used(rule, recs, view, i)
  {
  }

  lemma QueriesCons<P>(rule: ResetRule, recs: seq<Record<P>>, view: View<P>, depth: nat, i: nat, n: nat, front: seq<Command>)
    requires i < n <= |recs|
    ensures var u := Used(rule, recs, view, i);
            front + [Position(u.fen, u.moves)] + [Go(depth)] + [IsReady] + Queries(rule, recs, view, depth, i + 1, n)
            == front + Queries(rule, recs, view, depth, i, n)
  {
  }

  /** The commands the loop sends from record `i` on, when it succeeds. */
  ghost predicate SentFrom<P>(rule: ResetRule, recs: seq<Record<P>>, view: View<P>, depth: nat, i: nat, s: Session,
                              r: Result<(seq<TrainingEntry<P>>, Session), EngineError>)
  {
    r.Ok? && i + |r.value.0| <= |recs| ==> r.value.1.sent == s.sent + Queries(rule, recs, view, depth, i, i + |r.value.0|)
  }

  /** One turn of the loop that writes a record and goes on. */
  lemma RescoreLoopStep<P>(rule: ResetRule, recs: seq<Record<P>>, i: nat, carried: Context, s: Session,
                           view: View<P>, limit: Option<nat>, search: Search,
                           score: int, s1: Session, rest: seq<TrainingEntry<P>>, s2: Session)
    requires i < |recs|
    requires search(s, Picked(rule, recs, i, carried, view), MaterialCount(view.pieces(recs[i].entry.pos)))
             == Ok((score, s1))
    requires !(limit.Some? && i + 1 >= limit.value)
    requires RescoreLoop(rule, recs, i + 1, Extend(Picked(rule, recs, i, carried, view), view.uci(recs[i].entry.mv)),
                         s1, view, limit, search) == Ok((rest, s2))
    ensures RescoreLoop(rule, recs, i, carried, s, view, limit, search)
            == Ok(([recs[i].entry.(score := score)] + rest, s2))
  {
  }

  /** A turn that goes on fails when the turns after it fail. */
  lemma RescoreLoopStepFails<P>(rule: ResetRule, recs: seq<Record<P>>, i: nat, carried: Context, s: Session,
                                view: View<P>, limit: Option<nat>, search: Search, score: int, s1: Session)
    requires i < |recs|
    requires search(s, Picked(rule, recs, i, carried, view), MaterialCount(view.pieces(recs[i].entry.pos)))
             == Ok((score, s1))
    requires !(limit.Some? && i + 1 >= limit.value)
    requires RescoreLoop(rule, recs, i + 1, Extend(Picked(rule, recs, i, carried, view), view.uci(recs[i].entry.mv)),
                         s1, view, limit, search).Err?
    ensures RescoreLoop(rule, recs, i, carried, s, view, limit, search).Err?
  {
  }

  /** The commands a turn sends before those of the turns after it. */
  lemma QuerySent<P>(rule: ResetRule, recs: seq<Record<P>>, view: View<P>, depth: nat, i: nat, n: nat,
                     s: Session, s1: Session, s2: Session)
    requires i < n <= |recs|
    requires var u := Used(rule, recs, view, i);
             s1.sent == s.sent + [Position(u.fen, u.moves)] + [Go(depth)] + [IsReady]
    requires s2.sent == s1.sent + Queries(rule, recs, view, depth, i + 1, n)
    ensures s2.sent == s.sent + Queries(rule, recs, view, depth, i, n)
  {
    QueriesCons(rule, recs, view, depth, i, n, s.sent);
  }

  /** A turn that writes a record and goes on sends its query before the
      commands of the turns after it. */
  lemma SentFromStep<P>(rule: ResetRule, recs: seq<Record<P>>, i: nat, carried: Context, s: Session,
                        view: View<P>, limit: Option<nat>, search: Search, depth: nat, score: int, s1: Session)
    requires i < |recs|
    requires Picked(rule, recs, i, carried, view) == Used(rule, recs, view, i)
    requires search(s, Picked(rule, recs, i, carried, view), MaterialCount(view.pieces(recs[i].entry.pos)))
             == Ok((score, s1))
    requires SendsQuery(search, depth)
    requires !(limit.Some? && i + 1 >= limit.value)
    requires SentFrom(rule, recs, view, depth, i + 1, s1,
                      RescoreLoop(rule, recs, i + 1, Extend(Picked(rule, recs, i, carried, view), view.uci(recs[i].entry.mv)),
                                  s1, view, limit, search))
    ensures SentFrom(rule, recs, view, depth, i, s, RescoreLoop(rule, recs, i, carried, s, view, limit, search))
  {
    var carried' := Extend(Picked(rule, recs, i, carried, view), view.uci(recs[i].entry.mv));
    match RescoreLoop(rule, recs, i + 1, carried', s1, view, limit, search)
    case Err(_) =>
      RescoreLoopStepFails(rule, recs, i, carried, s, view, limit, search, score, s1);
    case Ok((rest, s2)) =>
      RescoreLoopStep(rule, recs, i, carried, s, view, limit, search, score, s1, rest, s2);
      SentCons(rule, recs, view, depth, i, s, s1, recs[i].entry.(score := score), rest, s2);
  }

  /** Sending one more query in front of the queries after it. */
  lemma SentCons<P>(rule: ResetRule, recs: seq<Record<P>>, view: View<P>, depth: nat, i: nat,
                    s: Session, s1: Session, e: TrainingEntry<P>, rest: seq<TrainingEntry<P>>, s2: Session)
    requires i < |recs|
    requires var u := Used(rule, recs, view, i);
             s1.sent == s.sent + [Position(u.fen, u.moves)] + [Go(depth)] + [IsReady]
    requires SentFrom(rule, recs, view, depth, i + 1, s1, Ok((rest, s2)))
    ensures SentFrom(rule, recs, view, depth, i, s, Ok(([e] + rest, s2)))
  {
    if i + 1 + |rest| <= |recs| {
      QuerySent(rule, recs, view, depth, i, i + 1 + |rest|, s, s1, s2);
    }
  }

  /** The turn that stops at the limit sends one query. */
  lemma SentFromLast<P>(rule: ResetRule, recs: seq<Record<P>>, i: nat, carried: Context, s: Session,
                        view: View<P>, limit: Option<nat>, search: Search, depth: nat, score: int, s1: Session)
    requires i < |recs|
    requires Picked(rule, recs, i, carried, view) == Used(rule, recs, view, i)
    requires search(s, Picked(rule, recs, i, carried, view), MaterialCount(view.pieces(recs[i].entry.pos)))
             == Ok((score, s1))
    requires SendsQuery(search, depth)
    requires limit.Some? && i + 1 >= limit.value
    ensures SentFrom(rule, recs, view, depth, i, s, RescoreLoop(rule, recs, i, carried, s, view, limit, search))
  {
    QueriesCons(rule, recs, view, depth, i, i + 1, s.sent);
  }

  /** A turn whose search fails ends the loop with that error. */
  lemma SentFromFailure<P>(rule: ResetRule, recs: seq<Record<P>>, i: nat, carried: Context, s: Session,
                           view: View<P>, limit: Option<nat>, search: Search, depth: nat)
    requires i < |recs|
    requires search(s, Picked(rule, recs, i, carried, view), MaterialCount(view.pieces(recs[i].entry.pos))).Err?
    ensures RescoreLoop(rule, recs, i, carried, s, view, limit, search).Err?
    ensures SentFrom(rule, recs, view, depth, i, s, RescoreLoop(rule, recs, i, carried, s, view, limit, search))
  {
  }

  /**
   * The loop searches every record it handles in that record's context:
   * when it succeeds, the commands it sent are the queries of records `i`
   * up to the last one it wrote.
   */
  lemma {:induction false} RescoreLoopTranscript<P>(rule: ResetRule, recs: seq<Record<P>>, i: nat, carried: Context,
                                                  s: Session, view: View<P>, limit: Option<nat>,
                                                  search: Search, depth: nat)
    requires i <= |recs|
    requires 0 < i < |recs| ==> carried == Extend(Used(rule, recs, view, i - 1), view.uci(recs[i - 1].entry.mv))
    requires SendsQuery(search, depth)
    ensures SentFrom(rule, recs, view, depth, i, s, RescoreLoop(rule, recs, i, carried, s, view, limit, search))
    decreases |recs| - i
  {
    if i == |recs| {
      assert RescoreLoop(rule, recs, i, carried, s, view, limit, search) == Ok(([], s));
    } else {
      PickedContextIsUsed(rule, recs, i, carried, view);
      var ctx := Picked(rule, recs, i, carried, view);
      match search(s, ctx, MaterialCount(view.pieces(recs[i].entry.pos)))
      case Err(_) =>
        SentFromFailure(rule, recs, i, carried, s, view, limit, search, depth);
      case Ok((score, s1)) =>
        if limit.Some? && i + 1 >= limit.value {
          SentFromLast(rule, recs, i, carried, s, view, limit, search, depth, score, s1);
        } else {
          RescoreLoopTranscript(rule, recs, i + 1, Extend(ctx, view.uci(recs[i].entry.mv)), s1, view, limit, search, depth);
          SentFromStep(rule, recs, i, carried, s, view, limit, search, depth, score, s1);
        }
    }
  }

  /** Everything sent: the handshake, a new game, one query per record
      written, and `quit`. */
  lemma RescoreBinpackWithTranscript<P>(rule: ResetRule, recs: seq<Record<P>>, output: seq<string>, depth: nat,
                                        view: View<P>, limit: Option<nat>, search: Search)
    requires SendsQuery(search, depth)
    ensures var r := RescoreBinpackWith(rule, recs, output, view, limit, search);
            r.Ok? ==> r.value.2 == [UciHello, IsReady] + [UciNewGame] + [IsReady]
                                   + Queries(rule, recs, view, depth, 0, r.value.1) + [Quit]
  {
    match Start(output)
    case Err(_) =>
    case Ok(s0) =>
      match NewGame(s0)
      case Err(_) =>
      case Ok(s1) =>
        RescoreLoopTranscript(rule, recs, 0, Context("", []), s1, view, limit, search, depth);
  }

  lemma RescoreBinpackTranscript<P>(rule: ResetRule, recs: seq<Record<P>>, output: seq<string>, depth: nat,
                                    view: View<P>, limit: Option<nat>)
    ensures var r := RescoreBinpack(rule, recs, output, depth, view, limit);
            r.Ok? ==> r.value.2 == [UciHello, IsReady] + [UciNewGame] + [IsReady]
                                   + Queries(rule, recs, view, depth, 0, r.value.1) + [Quit]
  {
    EngineSearchProperties(depth);
    RescoreBinpackWithTranscript(rule, recs, output, depth, view, limit, EngineSearch(depth));
  }

  // ---------------------------------------------------------------------
  // The scores written
  // ---------------------------------------------------------------------

  /**
   * The reference for the scores: records `i` up to `n` searched one after
   * another, each in the context `Used` names and at its own material, each
   * search starting from the session the one before it left. The scores
   * come back in record order, with the session the last search left.
   */
  function Searches<P>(rule: ResetRule, recs: seq<Record<P>>, view: View<P>, search: Search,
                       i: nat, n: nat, s: Session)
    : (r: Result<(seq<int>, Session), EngineError>)
    requires i <= n <= |recs|
    ensures r.Ok? ==> |r.value.0| == n - i
    decreases n - i
  {
    if i == n then Ok(([], s))
    else match search(s, Used(rule, recs, view, i), MaterialCount(view.pieces(recs[i].entry.pos)))
      case Err(e) => Err(e)
      case Ok((score, s1)) =>
        match Searches(rule, recs, view, search, i + 1, n, s1)
        case Err(e) => Err(e)
        case Ok((rest, s2)) => Ok(([score] + rest, s2))
  }

  /** The scores of entries, in order. */
  function ScoresOf<P>(es: seq<TrainingEntry<P>>): (sc: seq<int>)
    ensures |sc| == |es|
    ensures forall j :: 0 <= j < |es| ==> sc[j] == es[j].score
  {
    if es == [] then [] else [es[0].score] + ScoresOf(es[1..])
  }

  /** When the loop from record `i` succeeds, its scores and final session
      are those of the reference searches over the records it wrote. */
  ghost predicate ScoredFrom<P>(rule: ResetRule, recs: seq<Record<P>>, view: View<P>, search: Search, i: nat,
                                s: Session, r: Result<(seq<TrainingEntry<P>>, Session), EngineError>)
  {
    r.Ok? && i + |r.value.0| <= |recs| ==>
      Searches(rule, recs, view, search, i, i + |r.value.0|, s) == Ok((ScoresOf(r.value.0), r.value.1))
  }

  /** One search in front of the searches after it. */
  lemma SearchesCons<P>(rule: ResetRule, recs: seq<Record<P>>, view: View<P>, search: Search,
                        i: nat, n: nat, s: Session, score: int, s1: Session, rest: seq<int>, s2: Session)
    requires i < n <= |recs|
    requires search(s, Used(rule, recs, view, i), MaterialCount(view.pieces(recs[i].entry.pos))) == Ok((score, s1))
    requires Searches(rule, recs, view, search, i + 1, n, s1) == Ok((rest, s2))
    ensures Searches(rule, recs, view, search, i, n, s) == Ok(([score] + rest, s2))
  {
  }

  lemma ScoresOfCons<P>(e: TrainingEntry<P>, rest: seq<TrainingEntry<P>>)
    ensures ScoresOf([e] + rest) == [e.score] + ScoresOf(rest)
  {
    assert ([e] + rest)[1..] == rest;
  }

  /** A turn that writes a record and goes on scores it with its search,
      in front of the scores of the turns after it. */
  lemma ScoredFromStep<P>(rule: ResetRule, recs: seq<Record<P>>, i: nat, carried: Context, s: Session,
                          view: View<P>, limit: Option<nat>, search: Search, score: int, s1: Session)
    requires i < |recs|
    requires Picked(rule, recs, i, carried, view) == Used(rule, recs, view, i)
    requires search(s, Picked(rule, recs, i, carried, view), MaterialCount(view.pieces(recs[i].entry.pos)))
             == Ok((score, s1))
    requires !(limit.Some? && i + 1 >= limit.value)
    requires ScoredFrom(rule, recs, view, search, i + 1, s1,
                        RescoreLoop(rule, recs, i + 1, Extend(Picked(rule, recs, i, carried, view), view.uci(recs[i].entry.mv)),
                                    s1, view, limit, search))
    ensures ScoredFrom(rule, recs, view, search, i, s, RescoreLoop(rule, recs, i, carried, s, view, limit, search))
  {
    var carried' := Extend(Picked(rule, recs, i, carried, view), view.uci(recs[i].entry.mv));
    match RescoreLoop(rule, recs, i + 1, carried', s1, view, limit, search)
    case Err(_) =>
      RescoreLoopStepFails(rule, recs, i, carried, s, view, limit, search, score, s1);
    case Ok((rest, s2)) =>
      RescoreLoopStep(rule, recs, i, carried, s, view, limit, search, score, s1, rest, s2);
      ScoredCons(rule, recs, view, search, i, s, score, s1, recs[i].entry.(score := score), rest, s2);
  }

  /** Scoring one more record in front of the records after it. */
  lemma ScoredCons<P>(rule: ResetRule, recs: seq<Record<P>>, view: View<P>, search: Search, i: nat,
                      s: Session, score: int, s1: Session, e: TrainingEntry<P>, rest: seq<TrainingEntry<P>>, s2: Session)
    requires i < |recs| && e.score == score
    requires search(s, Used(rule, recs, view, i), MaterialCount(view.pieces(recs[i].entry.pos))) == Ok((score, s1))
    requires ScoredFrom(rule, recs, view, search, i + 1, s1, Ok((rest, s2)))
    ensures ScoredFrom(rule, recs, view, search, i, s, Ok(([e] + rest, s2)))
  {
    if i + 1 + |rest| <= |recs| {
      ScoresOfCons(e, rest);
      SearchesCons(rule, recs, view, search, i, i + 1 + |rest|, s, score, s1, ScoresOf(rest), s2);
    }
  }

  /** The turn that stops at the limit scores its record with its search. */
  lemma ScoredFromLast<P>(rule: ResetRule, recs: seq<Record<P>>, i: nat, carried: Context, s: Session,
                          view: View<P>, limit: Option<nat>, search: Search, score: int, s1: Session)
    requires i < |recs|
    requires Picked(rule, recs, i, carried, view) == Used(rule, recs, view, i)
    requires search(s, Picked(rule, recs, i, carried, view), MaterialCount(view.pieces(recs[i].entry.pos)))
             == Ok((score, s1))
    requires limit.Some? && i + 1 >= limit.value
    ensures ScoredFrom(rule, recs, view, search, i, s, RescoreLoop(rule, recs, i, carried, s, view, limit, search))
  {
    ScoresOfCons(recs[i].entry.(score := score), []);
    SearchesCons(rule, recs, view, search, i, i + 1, s, score, s1, [], s1);
  }

  /**
   * The loop writes, for each record it handles, the score the search
   * returned for that record's own context (`Used`) and material, the
   * searches running one after another on the session the previous one left.
   */
  lemma {:induction false} RescoreLoopScores<P>(rule: ResetRule, recs: seq<Record<P>>, i: nat, carried: Context,
                                                s: Session, view: View<P>, limit: Option<nat>, search: Search)
    requires i <= |recs|
    requires 0 < i < |recs| ==> carried == Extend(Used(rule, recs, view, i - 1), view.uci(recs[i - 1].entry.mv))
    ensures ScoredFrom(rule, recs, view, search, i, s, RescoreLoop(rule, recs, i, carried, s, view, limit, search))
    decreases |recs| - i
  {
    if i == |recs| {
      assert RescoreLoop(rule, recs, i, carried, s, view, limit, search) == Ok(([], s));
    } else {
      PickedContextIsUsed(rule, recs, i, carried, view);
      var ctx := Picked(rule, recs, i, carried, view);
      match search(s, ctx, MaterialCount(view.pieces(recs[i].entry.pos)))
      case Err(_) =>
        assert RescoreLoop(rule, recs, i, carried, s, view, limit, search).Err?;
      case Ok((score, s1)) =>
        if limit.Some? && i + 1 >= limit.value {
          ScoredFromLast(rule, recs, i, carried, s, view, limit, search, score, s1);
        } else {
          RescoreLoopScores(rule, recs, i + 1, Extend(ctx, view.uci(recs[i].entry.mv)), s1, view, limit, search);
          ScoredFromStep(rule, recs, i, carried, s, view, limit, search, score, s1);
        }
    }
  }

  /** The `j`-th score written is the `j`-th score of the reference searches
      over the written records, started from the session the handshake and
      the new game left. */
  lemma RescoreBinpackWithScores<P>(rule: ResetRule, recs: seq<Record<P>>, output: seq<string>,
                                    view: View<P>, limit: Option<nat>, search: Search)
    ensures var r := RescoreBinpackWith(rule, recs, output, view, limit, search);
            r.Ok? ==> Start(output).Ok? && NewGame(Start(output).value).Ok? &&
                      var sr := Searches(rule, recs, view, search, 0, r.value.1, NewGame(Start(output).value).value);
                      sr.Ok? && forall j :: 0 <= j < r.value.1 ==> r.value.0[j].score == sr.value.0[j]
  {
    match Start(output)
    case Err(_) =>
    case Ok(s0) =>
      match NewGame(s0)
      case Err(_) =>
      case Ok(s1) =>
        RescoreLoopScores(rule, recs, 0, Context("", []), s1, view, limit, search);
  }

  /** With the engine searching, the `j`-th score written is what
      `evaluate_moves` returned for record `j`'s context and material. */
  lemma RescoreBinpackScores<P>(rule: ResetRule, recs: seq<Record<P>>, output: seq<string>, depth: nat,
                                view: View<P>, limit: Option<nat>)
    ensures var r := RescoreBinpack(rule, recs, output, depth, view, limit);
            r.Ok? ==> Start(output).Ok? && NewGame(Start(output).value).Ok? &&
                      var sr := Searches(rule, recs, view, EngineSearch(depth), 0, r.value.1,
                                         NewGame(Start(output).value).value);
                      sr.Ok? && forall j :: 0 <= j < r.value.1 ==> r.value.0[j].score == sr.value.0[j]
  {
    RescoreBinpackWithScores(rule, recs, output, view, limit, EngineSearch(depth));
  }

  // ---------------------------------------------------------------------
  // What the context is
  // ---------------------------------------------------------------------

  /** The last record at or before `i` where the history was restarted. */
  function LastReset<P>(rule: ResetRule, recs: seq<Record<P>>, i: nat): (k: nat)
    requires i < |recs|
    ensures k <= i && Resets(rule, recs, k)
    ensures forall j :: k < j <= i ==> !Resets(rule, recs, j)
  {
    if Resets(rule, recs, i) then i else LastReset(rule, recs, i - 1)
  }

  /** UCI text of each move. */
  function Ucis(view: View, ms: seq<Move>): (us: seq<string>)
    ensures |us| == |ms|
  {
    if ms == [] then [] else Ucis(view, ms[..|ms| - 1]) + [view.uci(ms[|ms| - 1])]
  }

  /** The `j`-th text is the UCI text of the `j`-th move. */
  lemma {:induction false} UcisAt(view: View, ms: seq<Move>)
    ensures forall j :: 0 <= j < |ms| ==> Ucis(view, ms)[j] == view.uci(ms[j])
    decreases |ms|
  {
    if ms != [] {
      UcisAt(view, ms[..|ms| - 1]);
    }
  }

  /** One more record, one more move in UCI text. */
  lemma UcisSince<P>(recs: seq<Record<P>>, view: View<P>, k: nat, i: nat)
    requires k < i <= |recs|
    ensures Ucis(view, MovesSince(recs, k, i)) == Ucis(view, MovesSince(recs, k, i - 1)) + [view.uci(recs[i - 1].entry.mv)]
  {
    var ms := MovesSince(recs, k, i);
    assert ms[..|ms| - 1] == MovesSince(recs, k, i - 1);
  }

  /**
   * Under either rule, a record is searched from the FEN of the last record
   * where the history restarted, with the moves of the records from there up
   * to (not including) itself.
   */
  lemma {:induction false} UsedIsSinceLastReset<P>(rule: ResetRule, recs: seq<Record<P>>, view: View<P>, i: nat)
    requires i < |recs|
    ensures var k := LastReset(rule, recs, i);
            Used(rule, recs, view, i) == Context(view.fen(recs[k].entry.pos), Ucis(view, MovesSince(recs, k, i)))
  {
    if !Resets(rule, recs, i) {
      UsedIsSinceLastReset(rule, recs, view, i - 1);
      var k := LastReset(rule, recs, i);
      assert k == LastReset(rule, recs, i - 1);
      UcisSince(recs, view, k, i);
    }
  }

  /**
   * With the intended reset, the engine is sent the FEN of the record that
   * started the game and every move since, and those moves lead from there
   * to exactly the record's own position.
   */
  lemma {:induction false} IntendedContextReplaysToEntry<P>(recs: seq<Record<P>>, play: (P, Move) -> P, i: nat)
    requires i < |recs| && Chained(recs, play)
    ensures var k := LastReset(Intended, recs, i);
            Replay(play, recs[k].entry.pos, MovesSince(recs, k, i)) == recs[i].entry.pos
  {
    if !Resets(Intended, recs, i) {
      IntendedContextReplaysToEntry(recs, play, i - 1);
      var k := LastReset(Intended, recs, i);
      assert k == LastReset(Intended, recs, i - 1);
      var ms := MovesSince(recs, k, i);
      var p := recs[k].entry.pos;
      assert ms[..|ms| - 1] == MovesSince(recs, k, i - 1);
      ReplayLast(play, p, ms, MovesSince(recs, k, i - 1), recs[i - 1].entry.pos);
      assert recs[i - 1].nextIsContinuation;
      assert recs[i].entry.pos == play(recs[i - 1].entry.pos, recs[i - 1].entry.mv);
    }
  }

  /**
   * As written, a game of one record that follows another game is searched
   * in the previous game's context: two records, neither followed by a
   * continuation, have the second searched from the first record's FEN
   * after the first record's move. The intended rule searches it from its
   * own FEN.
   */
  lemma AsWrittenSearchesStalePosition<P>(e0: TrainingEntry<P>, e1: TrainingEntry<P>, view: View<P>)
    ensures var recs := [Record(e0, false), Record(e1, false)];
            Used(AsWritten, recs, view, 1) == Context(view.fen(e0.pos), [view.uci(e0.mv)])
            && Used(Intended, recs, view, 1) == Context(view.fen(e1.pos), [])
  {
  }
}
