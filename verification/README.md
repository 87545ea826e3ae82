# pgn2binpack core, modelled in Dafny

pgn2binpack turns chess games in PGN into Stockfish training data
("binpack" files of training entries: position, move, score, ply, game
result). Its analytics tools work on existing binpacks. This project models
the logic of six source files as pure Dafny functions, and proves what each
one computes.

- **The builder** (`src/binpack/builder.rs`, module `Builder`). This is the
  PGN visitor. Every mainline move becomes one training entry, written from
  the side to move's point of view. A following comment such as
  `{+1.01/26 1.2s}` gives the entry its score, after normalisation. An
  error stops only the game it occurs in; the next game is read. Module
  `Moves` models the move conversion from `src/util/util.rs`.
- **The comment evaluation parser** (`src/util/util.rs`, module `Util`).
- **The score normaliser** (`src/wdl/wdl.rs`, module `Wdl`). It turns an
  engine's external centipawns into the internal scale, using a coefficient
  that depends on material.
- **The rescorer** (`src/analytics/rescore.rs`).
  - Module `Uci` models the UCI engine session: the handshake, readiness
    round-trips, the position and search commands, and reading the score off
    `info` lines.
  - Module `Rescore` models the pass over a binpack that re-searches every
    record, and the move history it hands the engine.
- **The unique-position counter** (`src/analytics/unique.rs`, module
  `Unique`).
- **The input file selection** (`src/io.rs`, module `PgnFiles`). It covers
  `is_pgn_file`, with Rust's `Path::extension` rules, and the
  filter-and-sort step of `collect_pgn_files`, with Rust's path ordering.

Supporting modules:

- `Wrappers`: `Option` and `Result`.
- `Numbers`: i16 and i32 ranges and clamps, and decimal text.
- `Text`: splitting, trimming and joining strings the way Rust's `str` methods do.
- `Binpack`: training entries, and binpack records with the reader's "next entry continues this game" flag. It also holds the record-limit rule that both analytics loops share.

How the libraries are modelled:

- The chess library (`shakmaty`) and the binpack library (`sfbinpack`) appear
  as records of functions: `Builder.Rules`, `Rescore.View` and
  `Unique.Chess`. Positions are type parameters, so every property holds
  whatever the libraries do.
- The engine process is modelled as the list of lines it prints. The
  commands sent to it are recorded as a transcript.
- The binpack writer is the list of entries written.
- Floating point is replaced by exact reals.

## Model

| member | source | states |
|---|---|---|
| `Wdl.ClampMaterial` | src/wdl/wdl.rs:37 | The material count used is always within 17..78, and a count already in that range is used unchanged. |
| `Wdl.WinRatePolyPositive` | src/wdl/wdl.rs:39-40 | The cubic with Stockfish's coefficients is positive on the whole clamped material range 17/58..78/58. |
| `Wdl.WinRateA` | src/wdl/wdl.rs:36-41 | The scaling coefficient `a` is positive for every material count. |
| `Wdl.RoundHalfAwayFromZero` | src/wdl/wdl.rs:14-18 | The rounded value is within one half of the input. Ties go away from zero: up for non-negative inputs, down for negative ones. |
| `Wdl.RoundHalfAwayFromZeroOdd` | src/wdl/wdl.rs:14-18 | Rounding a negated value gives the negated rounding. |
| `Wdl.RoundHalfAwayFromZeroMonotone` | src/wdl/wdl.rs:14-18 | Rounding is non-decreasing. |
| `Wdl.NormalizeWith` | src/wdl/wdl.rs:8-20 | For any coefficient `a`, the result fits an i16. A score of magnitude at least 29000 is only clamped to i16. Otherwise the result is within one half of `cp * a / 100`, whenever that rounds into the i16 range. |
| `Wdl.Normalize` | src/wdl/wdl.rs:8-20 | `external_cp_to_internal_mat`: the result fits an i16, and a saturated score (magnitude at least 29000) is just clamped to i16. |
| `Wdl.NormalizeAt` | src/wdl/wdl.rs:4-6 | `external_cp_to_internal` at a position's piece counts: the result fits an i16, and a saturated score is just clamped. |
| `Wdl.MaterialCount` | src/wdl/wdl.rs:23-33 | The classical material count lies between the number of non-king pieces and nine times that number. |
| `Wdl.MaterialCountProperties` | src/wdl/wdl.rs:23-33 | Material adds up over piece sets and ignores kings. It is zero exactly when only kings remain. |
| `Wdl.SaturatedIgnoresMaterial` | src/wdl/wdl.rs:9-11 | A saturated score normalises the same at every material count. |
| `Wdl.MaterialOutsideRangeIsClamped` | src/wdl/wdl.rs:37 | Any material count at or below 17 normalises like 17, and any at or above 78 like 78. |
| `Wdl.NormalizeAtDependsOnMaterialOnly` | src/wdl/wdl.rs:4-6 | Two positions with the same material count normalise every score alike. |
| `Wdl.ScaledOdd` | src/wdl/wdl.rs:13-18 | Scaling then rounding a negated score gives the negated result. |
| `Wdl.NormalizeSignSymmetry` | src/wdl/wdl.rs:8-20 | Negating the score negates the result, except at the ends of the i16 range. There, a result of 32767 mirrors to -32767 or -32768, and -32768 mirrors to 32767. Zero stays zero. |
| `Wdl.NormalizeMonotoneWithinRegion` | src/wdl/wdl.rs:9-19 | With a non-negative coefficient, normalising is non-decreasing below 29000 in magnitude, and also among saturated scores of one sign. |
| `Wdl.NormalizeMonotone` | src/wdl/wdl.rs:8-20 | At a fixed material count, normalising is non-decreasing within each of those regions. |
| `Wdl.NotMonotoneAcrossSaturation` | src/wdl/wdl.rs:9-19 | Across the threshold it is not: at material 58, a score of 28999 gives 32767 while 29000 gives 29000. |
| `Numbers.ClampI16` | src/wdl/wdl.rs:10 | The clamp to i16 lands in range, keeps in-range values, and sends values below or above the range to its ends. |
| `Numbers.ParseI32` | src/analytics/rescore.rs:197 | `parse::<i32>`: a value read fits an i32, comes from an optional sign and one or more ASCII digits, and is non-negative unless the sign is `-`. |
| `Numbers.ParseI32OfIntToString` | src/analytics/rescore.rs:197 | Every i32, written in decimal, parses back to itself. |
| `Text.Pieces` | src/util/util.rs:35 | `split` always gives at least one piece. |
| `Text.PiecesPartition` | src/util/util.rs:17 | No piece holds a separator, the pieces glued together give the input without its separators, and there is one more piece than separators. |
| `Text.NonEmpty` | src/util/util.rs:17-23 | Dropping empty parts keeps only parts of the input, all non-empty, and glues back to the same text. |
| `Text.Words` | src/util/util.rs:17-23 | The parts kept are non-empty runs without separators that glue back to the input with its separators removed. |
| `Text.Tokens` | src/analytics/rescore.rs:188 | `split_whitespace` gives non-empty tokens without whitespace that glue back to the input with its whitespace removed. |
| `Text.TrimByTrims` | src/util/util.rs:21 | `trim_matches` returns the slice `s[i..j]` where everything before `i` and from `j` on matches. The slice neither starts nor ends with a matching character, and it is empty exactly when every character matches. |
| `Text.Trim` | src/analytics/rescore.rs:138 | `trim` leaves text that neither starts nor ends with whitespace, and leaves nothing exactly when the line is all whitespace. |
| `Text.TrimBySlice` | src/util/util.rs:21 | Gives the bounds `i <= j` of the slice `trim_matches` keeps: every character before `i` and from `j` on matches. |
| `Text.TrimIsInfix` | src/analytics/rescore.rs:138 | `trim` returns the slice `s[i..j]` of the line where everything before `i` and from `j` on is whitespace. |
| `Util.Centipawns` | src/util/util.rs:50 | A parsed pawn value times 100, rounded, and saturated to i16 as Rust's float-to-int cast does, always fits an i16. |
| `Util.PartEval` | src/util/util.rs:17-54 | Whatever one part of a comment reads as fits an i16. |
| `Util.FirstEval` | src/util/util.rs:17-55 | The first readable part's value fits an i16. |
| `Util.FirstOfIsFirst` | src/util/util.rs:17-55 | Trying the parts in order finds nothing exactly when no part reads; otherwise it finds the value of a part that reads with no earlier part reading. |
| `Util.ParseEvalCp` | src/util/util.rs:11-58 | `Ok(None)` is returned exactly for the book comments `book`, `Book` and `No result`. An evaluation fits an i16. The only error is "Unable to parse evaluation". |
| `Util.FirstEvalIsFirstReadable` | src/util/util.rs:17-57 | The scan finds nothing exactly when no part reads. Otherwise it returns the value of a part that reads, and no earlier part reads. |
| `Util.ParseEvalCpIsFirstReadablePart` | src/util/util.rs:11-57 | A comment other than a book comment is an error exactly when none of its whitespace-or-brace separated parts reads. Otherwise its value is that of its first readable part. |
| `Util.PartEvalOfPawns` | src/util/util.rs:35-50 | A two-decimal signed pawn score such as `+1.01` or `-0.34`, followed by `/` and more, reads back as exactly its centipawns. |
| `Util.PartEvalOfMate` | src/util/util.rs:24-33 | `+M<n>` or `-M<n>`, followed by `/` and more, reads as +32000 or -32000 whenever `n` fits an i32. |
| `Util.DecimalValueOfPawns` | src/util/util.rs:49 | The text of a two-decimal pawn score parses as that score divided by 100. |
| `Util.ParseEvalCpOfLeadingPart` | src/util/util.rs:17-51 | A comment whose first part starts with a sign and reads gives that part's value. |
| `Util.ParseEvalCpOfPawns` | src/util/util.rs:11-58 | A comment as match runners write it, `+1.01/26 rest`, gives back the centipawns that were written. |
| `Util.ParseEvalCpOfMate` | src/util/util.rs:11-58 | A comment `+M21/32 rest` or `-M21/32 rest` gives +32000 or -32000. |
| `Util.SignedIsNotBook` | src/util/util.rs:12 | A comment starting with a sign is never a book comment. |
| `Moves.SquareIndex` | src/util/util.rs:90-95 | A board square's index is in 0..63. |
| `Moves.SquareAt` | src/util/util.rs:90-95 | The square of an index in 0..63 is on the board. |
| `Moves.SquareIndexIsBijective` | src/util/util.rs:90-95 | Square index and square-of-index are inverse to each other on the board. |
| `Moves.PromotedPiece` | src/util/util.rs:73-79 | A promotion to queen, rook, bishop or knight gives that piece in the mover's colour. A king or pawn gives no piece. |
| `Moves.ConvertMove` | src/util/util.rs:60-88 | The move kind is en passant, castling, promotion or normal exactly as the move is one. A promotion piece appears only on a promotion, and in the mover's colour. Both squares are indices in 0..63. |
| `Moves.ConvertMoveReadsBack` | src/util/util.rs:60-95 | The origin and target squares read back from the converted move. A promotion to queen, rook, bishop or knight reads back from its piece. |
| `Binpack.Processed` | src/analytics/unique.rs:41-46 | The number of records a limited loop handles: all of them without a limit, otherwise `min(total, max(limit, 1))`. A limit of 0 still handles one record. |
| `Binpack.MovesSinceAt` | src/analytics/unique.rs:33-39 | The `j`-th move since record `k` is the move of record `k + j`. |
| `Builder.Fresh` | src/binpack/builder.rs:121-130 | Resetting the game gives no start FEN, result 0, the default positions, ply 0 and nothing pending, and keeps what was written. |
| `Builder.Flush` | src/binpack/builder.rs:152-160 | The pending entry, if any, is written after all earlier entries. Nothing is pending afterwards, and no other field changes. Writing is assumed to succeed. |
| `Builder.ApplyStartFen` | src/binpack/builder.rs:132-150 | Without a FEN tag, or with one the chess library rejects, both positions fall back to the start position. A FEN the chess library reads replaces the chess position, and it is an error exactly when the binpack library cannot read it. Nothing else changes. |
| `Builder.RelativeResult` | src/binpack/builder.rs:168-183 | The entry's result is 0 exactly for a draw, 1 exactly when the side to move won, and -1 exactly when the other side won. |
| `Builder.HandleMove` | src/binpack/builder.rs:162-206 | The previous pending entry is written. The move's entry, from the position before the move, becomes pending. The move is played. With writes assumed to succeed, the step fails exactly when the binpack library cannot read the FEN after the move. On success the ply goes up by one. |
| `Builder.CommentScore` | src/binpack/builder.rs:208-216 | A comment gives a score exactly when it holds an evaluation. The score is that evaluation normalised at the current position's material. |
| `Builder.AttachComment` | src/binpack/builder.rs:208-216 | An evaluation replaces only the pending entry's score and sets the flag. Without a pending entry or an evaluation, nothing changes. |
| `Builder.ResultValue` | src/binpack/builder.rs:238-248 | A `Result` tag reads exactly when it is `1-0`, `0-1`, `1/2-1/2` or `*`. The value read is in -1..1 and names that tag back. |
| `Builder.ResultTagReadsBack` | src/binpack/builder.rs:238-248 | Each of the results 1, -1 and 0 reads back from its tag. |
| `Builder.TagStep` | src/binpack/builder.rs:229-254 | A FEN tag is kept. A readable `Result` tag sets the result, and any other `Result` value stops with "Invalid result format". Other tags change nothing. |
| `Builder.SanStep` | src/binpack/builder.rs:264-288 | A SAN that does not resolve stops the reader with nothing changed. One that resolves is handled as a move. |
| `Builder.Step` | src/binpack/builder.rs:224-313 | Every callback keeps the result in -1..1 and only ever appends to what was written. Begin-tags resets the game. A variation is skipped. A comment with nothing pending is ignored. The end of a game writes the pending entry. Only tags, begin-movetext and moves can stop the reader. |
| `Builder.Run` | src/binpack/builder.rs:224-313 | Over the events of one game, the result stays in -1..1 and entries are only appended. |
| `Builder.RunAppend` | src/binpack/builder.rs:224-313 | Within one game, reading two parts of its events one after the other is reading their concatenation, and the first error stops the game. |
| `Builder.Comments` | src/binpack/builder.rs:290-299 | One comment event per comment, in order. |
| `Builder.CommentsSetScore` | src/binpack/builder.rs:208-216 | After a run of comments, the pending entry's score is that of the last comment with an evaluation (else unchanged). Nothing else changes but the flag. |
| `Builder.CommentsWithoutEntry` | src/binpack/builder.rs:208-216 | Comments with nothing pending change nothing. |
| `Builder.MoveOutcome` | src/binpack/builder.rs:162-206 | A move's entry is taken from the binpack position before the move, at the current ply, with a result in -1..1. |
| `Builder.Expected` | src/binpack/builder.rs:162-206 | The reference list of entries for a mainline has one entry per move. Entry `i` has ply `start + i` and a result in -1..1, and the first starts from the given position. |
| `Builder.PlyStep` | src/binpack/builder.rs:162-216 | One move with its comments goes on exactly when its outcome exists. It writes the previous pending entry and leaves its own entry pending, scored by its comments, with the positions after the move and the ply counted. |
| `Builder.ExpectedCons` | src/binpack/builder.rs:162-206 | The reference list of a mainline is the first move's entry followed by the rest's list, taken from the positions that move reaches. |
| `Builder.MovetextStops` | src/binpack/builder.rs:264-288 | A first move that stops the reader stops the whole mainline, and the reference list is absent then. |
| `Builder.MovetextGoesOn` | src/binpack/builder.rs:162-313 | A mainline whose first move goes on writes what the reference list says. |
| `Builder.MovetextWrites` | src/binpack/builder.rs:162-313 | A mainline followed by the end of the game first writes the entry pending before it. It then writes exactly the reference entries, one per move, in move order, each scored by the last evaluation among its comments. With writes assumed to succeed, it stops with an error exactly when the reference list is absent. |
| `Builder.TagEvents` | src/binpack/builder.rs:229-254 | One tag event per tag, in order, carrying the tag's name and value. |
| `Builder.LastFen` | src/binpack/builder.rs:237 | The start FEN is the last FEN tag's value, else the one before the tags. |
| `Builder.LastResult` | src/binpack/builder.rs:238-248 | The result stays in -1..1 and is named by the last readable `Result` tag. |
| `Builder.TagsRun` | src/binpack/builder.rs:229-254 | A game's tags stop the reader exactly when some `Result` tag holds another value, with an invalid-result error and nothing written. Otherwise only the start FEN (last FEN tag) and the result (last `Result` tag) change. |
| `Builder.AfterTags` | src/binpack/builder.rs:224-254 | The state after a game's tags keeps the result in -1..1. |
| `Builder.BeginTagsResets` | src/binpack/builder.rs:224-227 | A game's stream starts from a reset game. |
| `Builder.GameThroughTags` | src/binpack/builder.rs:224-262 | A game's events are its tags, read from a reset game, then its movetext. |
| `Builder.MovetextStarts` | src/binpack/builder.rs:256-262 | The movetext starts by applying the start FEN, and a failure there stops the reader. |
| `Builder.GameWrites` | src/binpack/builder.rs:121-313 | A whole game drops any entry an earlier game left pending. A bad `Result` tag or an unusable start FEN stops it with nothing written. Otherwise it writes exactly the reference entries of its mainline from the start position, ply 0 and the result its tags name. With writes assumed to succeed, it stops with an error exactly when there are none. |
| `Builder.GameRun` | src/binpack/builder.rs:84-88 | One game, ended or stopped, keeps the result in -1..1 and only appends entries. |
| `Builder.ReadGames` | src/binpack/builder.rs:84-88 | `process_pgn`'s loop over a file's games: an error ends only its own game, and reading goes on with the next one; entries are only appended. |
| `Builder.StepShift` | src/binpack/builder.rs:224-313 | No callback depends on what was written before: with more written before, every callback does the same and writes the same. |
| `Builder.RunShift` | src/binpack/builder.rs:224-313 | The same for a whole run of events. |
| `Builder.GameWritesOwnEntries` | src/binpack/builder.rs:224-313 | A game writes the same entries whatever earlier games did, after everything written before it. |
| `Builder.ReadGamesWrites` | src/binpack/builder.rs:84-88 | Reading a file writes each game's own entries in file order; a game that stops with an error does not affect the games after it. |
| `Builder.GameEntriesAre` | src/binpack/builder.rs:121-313 | A game on its own writes nothing when a `Result` tag is unreadable or the start FEN fails, and exactly its mainline's reference entries when they exist. |
| `Uci.MateToCp` | src/analytics/rescore.rs:210-217 | A mate in `n` with `abs(n)` at most 32000 becomes a score of magnitude `32000 - abs(n)`. For `0 < abs(n) < 32000` the score is positive exactly when `n` is. Mate 0 becomes -32000. |
| `Uci.MateToCpOrdering` | src/analytics/rescore.rs:210-217 | Mate scores are antisymmetric, and a shorter mate scores higher than a longer one. |
| `Uci.ScoreFrom` | src/analytics/rescore.rs:187-207 | A score is only found in a line that has a `score` token. |
| `Uci.ParseScore` | src/analytics/rescore.rs:187-207 | `parse_score`: a score found fits an i16 and is a value the normaliser produces at the position's material. |
| `Uci.FirstIndex` | src/analytics/rescore.rs:189-192 | The first occurrence of a token, or none when it does not occur. |
| `Uci.ScoreFromFirstScoreToken` | src/analytics/rescore.rs:187-207 | Only the first `score` token is looked at. The two tokens after it decide the result, and it is none when they are missing. |
| `Uci.MateTokensGiveMateScore` | src/analytics/rescore.rs:194-202 | `score mate N` after tokens that are not `score` gives `mate_to_cp(N)`. |
| `Uci.MateScoreIsExact` | src/analytics/rescore.rs:187-217 | An `info` line with `score mate N`, for `0 < abs(N) <= 3000`, gives exactly `mate_to_cp(N)`, since that is a saturated score. |
| `Uci.WaitFor` | src/analytics/rescore.rs:177-184 | Success means the lines up to and including the first line containing the token were read, and the rest stays unread. Running out of output is the engine-closed error, and then no line contained the token. |
| `Uci.WaitReady` | src/analytics/rescore.rs:157-160 | `isready` is sent and at least one line is read. |
| `Uci.Start` | src/analytics/rescore.rs:88-92 | A successful start has sent exactly `uci` and `isready`. |
| `Uci.NewGame` | src/analytics/rescore.rs:95-98 | `ucinewgame` and then `isready` are sent. |
| `Uci.Shutdown` | src/analytics/rescore.rs:151-155 | `quit` is sent last. |
| `Uci.Max1` | src/analytics/rescore.rs:129 | The search depth is at least 1, and a depth of at least 1 is kept. |
| `Uci.GoCommand` | src/analytics/rescore.rs:129-132 | The search command is `go depth ` followed by one or more decimal digits. |
| `Uci.GoCommandReadsBack` | src/analytics/rescore.rs:129-132 | The search command is three words whose last reads back as `max(depth, 1)`. |
| `Uci.PositionCommand` | src/analytics/rescore.rs:130-131 | The position command is the words `position fen <fen> moves <moves..>` joined by single spaces, with one trailing space when there are no moves. |
| `Uci.PositionCommandReadsBack` | src/analytics/rescore.rs:130-131 | Split at whitespace, the position command gives back the FEN and exactly the moves sent. |
| `Uci.ReadLine` | src/analytics/rescore.rs:137-147 | A score read off an `info` line is one the normaliser produces at the position's material. |
| `Uci.Scan` | src/analytics/rescore.rs:134-147 | A returned score is the one carried in, or one some output line reported. Success reads at least one line. |
| `Uci.ScanSearch` | src/analytics/rescore.rs:134-147 | The search loop's score is one the normaliser produces. |
| `Uci.FirstTerminal` | src/analytics/rescore.rs:143 | The first `bestmove` line, or none when there is none. |
| `Uci.LastReportCons` | src/analytics/rescore.rs:139-142 | A later score overwrites an earlier one. |
| `Uci.ScanIsLastReportBeforeTerminal` | src/analytics/rescore.rs:134-147 | Against a reference definition, the loop returns the last score reported before the first `bestmove` line, with the rest of the output unread. It fails when output ends first or no score was seen. |
| `Uci.ScanSearchIsLastScoreBeforeBestMove` | src/analytics/rescore.rs:134-147 | The same, for the line reading of `evaluate_moves`. |
| `Uci.EvaluateMovesWith` | src/analytics/rescore.rs:122-149 | The score returned is one some output line reported. Sent are the position, the search command and `isready`. |
| `Uci.EvaluateMoves` | src/analytics/rescore.rs:122-149 | `evaluate_moves`: the score is one the normaliser produces at the position's material. Sent are the position, `go depth` and `isready`. |
| `Uci.ScanReply` | src/analytics/rescore.rs:134-147 | An `info` line with a score, then `bestmove`, gives that score. |
| `Uci.WaitForFirst` | src/analytics/rescore.rs:177-184 | A first line containing the token ends the wait at once. |
| `Uci.EvaluateMovesWithReply` | src/analytics/rescore.rs:122-149 | With a scoring `info` line, `bestmove` and `readyok` pending, the search returns that score and consumes exactly those three lines. |
| `Uci.EvaluateMovesReply` | src/analytics/rescore.rs:122-149 | The same for `evaluate_moves` itself. |
| `Rescore.LoopEnd` | src/analytics/rescore.rs:43-49 | The loop entered at a record stops between that record and the end. |
| `Rescore.Used` | src/analytics/rescore.rs:33-52 | A record's context starts from the FEN of the last record at or before it where the history restarted, and holds one move per record since. |
| `Rescore.EngineSearchProperties` | src/analytics/rescore.rs:122-149 | The engine search returns normalised scores and sends one query per search. |
| `Rescore.RescoreLoop` | src/analytics/rescore.rs:33-52 | On success, the loop writes one entry per record handled, up to the limit. Each entry is the record's entry with only the score replaced, and each score is one the normaliser produces at that record's material. An engine error ends it with the error. Which score each entry gets is stated by `Rescore.RescoreLoopScores`. |
| `Rescore.RescoreBinpackWith` | src/analytics/rescore.rs:12-57 | The count returned is the number of entries written, which is `min(total, max(limit, 1))` (all records without a limit). Each written entry is its record with only the score replaced. |
| `Rescore.RescoreBinpack` | src/analytics/rescore.rs:12-57 | `rescore_binpack`: as above, and every score written is one the normaliser produces at the record's material. Which score each entry gets is stated by `Rescore.RescoreBinpackScores`. |
| `Rescore.PickedContextIsUsed` | src/analytics/rescore.rs:35-38 | The history the loop carries is the one the reset rule defines. |
| `Rescore.RescoreLoopTranscript` | src/analytics/rescore.rs:33-52 | On success, the loop sent, for each record written in order, the position command with that record's history, `go depth` and `isready`, and nothing else. |
| `Rescore.RescoreBinpackWithTranscript` | src/analytics/rescore.rs:12-57 | Everything sent is `uci`, `isready`, `ucinewgame`, `isready`, one query per record written, and `quit`. |
| `Rescore.RescoreBinpackTranscript` | src/analytics/rescore.rs:12-57 | The same for `rescore_binpack` with `evaluate_moves`. |
| `Rescore.Searches` | src/analytics/rescore.rs:33-43 | Reference for the scores: the records searched one after another, each in the context `Used` names and at its own material, each on the session the previous search left; one score per record. |
| `Rescore.ScoresOf` | src/analytics/rescore.rs:41-42 | The scores of entries, one per entry, in order. |
| `Rescore.RescoreLoopScores` | src/analytics/rescore.rs:33-52 | On success, the scores the loop wrote and the session it left are exactly those of the reference searches over the records it wrote. |
| `Rescore.RescoreBinpackWithScores` | src/analytics/rescore.rs:12-57 | The `j`-th score written is the `j`-th reference score, the searches starting from the session the handshake and new game left. |
| `Rescore.RescoreBinpackScores` | src/analytics/rescore.rs:12-57 | With `evaluate_moves` searching, the `j`-th score written is what it returned for record `j`'s context and material, on the session the earlier searches left. |
| `Rescore.LastReset` | src/analytics/rescore.rs:35-38 | The last record at or before `i` where the history restarts. No later record up to `i` restarts it. |
| `Rescore.Ucis` | src/analytics/rescore.rs:51 | One UCI move text per move. |
| `Rescore.UcisAt` | src/analytics/rescore.rs:51 | The `j`-th text is the UCI text of the `j`-th move. |
| `Rescore.UcisSince` | src/analytics/rescore.rs:51 | One more record appends its move's UCI text to the history. |
| `Rescore.UsedIsSinceLastReset` | src/analytics/rescore.rs:33-52 | Under either reset rule, a record is searched from the FEN of the last restart, with the UCI moves of the records from there up to itself. |
| `Rescore.IntendedContextReplaysToEntry` | src/analytics/rescore.rs:35-38 | With the reset at each game start, the FEN and moves sent lead exactly to the record's own position. |
| `Rescore.AsWrittenSearchesStalePosition` | src/analytics/rescore.rs:35-38 | With the reset as written, the second of two one-record games is searched from the first game's FEN after its move, not from its own FEN. |
| `Unique.GameStart` | src/analytics/unique.rs:15-39 | The record that started the current game is at or before it, and no record between starts a game. |
| `Unique.HashesAreVisited` | src/analytics/unique.rs:30-31 | A hash is in the set exactly when it is the hash of a position visited at one of the records handled. |
| `Unique.HashesBound` | src/analytics/unique.rs:30-31 | There are no more distinct hashes than records handled. |
| `Unique.VisitedIsReplay` | src/analytics/unique.rs:21-39 | The position hashed at a record is its game's first record's position, read back from its FEN, with the moves of the game's earlier records played. |
| `Unique.UniquePositions` | src/analytics/unique.rs:11-50 | The count is the number of distinct hashes over the records handled: all of them, or `min(total, max(limit, 1))` with a limit. It is at most that number. |
| `PgnFiles.FileName` | src/io.rs:31 | A file name, when there is one, is the last component and never empty, `.` or `..`. |
| `PgnFiles.Components` | src/io.rs:31 | `Path::components`: the root or current directory can only come first, the root exactly for an absolute path, and every name is a real name (not empty, `.` or `..`). |
| `PgnFiles.NameExtension` | src/io.rs:31 | A name's extension is the dot-free text after its last dot, preceded by at least one character; there is none exactly when no dot follows the first character. |
| `PgnFiles.Extension` | src/io.rs:31 | `Path::extension`: the same, on the path's file name, and none when there is no file name. |
| `PgnFiles.IsPgnFile` | src/io.rs:30-38 | A path taken has a file name and an extension; unless it ends with `.pgn.gz`, its file name lower-cased ends with `.pgn`. |
| `PgnFiles.LowerNameEndsWith` | src/io.rs:34 | A name ending in a dot and an extension that lower-cases to `pgn` lower-cases to a name ending in `.pgn`. |
| `PgnFiles.LastDot` | src/io.rs:31 | The position of the last dot in a name, or none when it has no dot. |
| `PgnFiles.FileNameOfJoin` | src/io.rs:31 | The file name of `dir/name` is `name`. |
| `PgnFiles.StemExtension` | src/io.rs:31 | A name `stem.ext`, with a non-empty stem and a dotless `ext`, has extension `ext`. |
| `PgnFiles.ExtensionOfName` | src/io.rs:31-32 | The extension of `dir/stem.ext` is `ext`. |
| `PgnFiles.PgnFileOfName` | src/io.rs:30-38 | `dir/stem.ext` is taken exactly when `ext` lower-cased is `pgn` or the path ends with `.pgn.gz`. |
| `PgnFiles.UpperCasePgnIsTaken` | src/io.rs:34-35 | `dir/base.PGN` is taken. |
| `PgnFiles.GzippedPgnIsTaken` | src/io.rs:35 | `dir/base.pgn.gz` is taken. |
| `PgnFiles.UpperCaseGzippedPgnIsNotTaken` | src/io.rs:34-35 | `dir/base.PGN.GZ` is not: the suffix test is case-sensitive. |
| `PgnFiles.OtherGzipIsNotTaken` | src/io.rs:35 | `dir/base.gz` is not taken unless `base` ends with `.pgn`. |
| `PgnFiles.HiddenPgnIsNotTaken` | src/io.rs:31-37 | `dir/.pgn` is not taken: it has no extension. |
| `PgnFiles.DotlessIsNotTaken` | src/io.rs:31-37 | A name without a dot is not taken. |
| `PgnFiles.CompareNames` | src/io.rs:26 | Names compare as -1, 0 or 1, and 0 exactly when they are equal. |
| `PgnFiles.CompareComponent` | src/io.rs:26 | Components compare as -1, 0 or 1, and 0 exactly when they are equal. |
| `PgnFiles.CompareComponents` | src/io.rs:26 | Component lists compare as -1, 0 or 1, and 0 exactly when they are equal. |
| `PgnFiles.CompareNamesFlips` | src/io.rs:26 | Swapping two names negates their comparison. |
| `PgnFiles.CompareNamesChains` | src/io.rs:26 | The order on names is transitive. |
| `PgnFiles.CompareComponentFlips` | src/io.rs:26 | Swapping two components negates their comparison. |
| `PgnFiles.CompareComponentChains` | src/io.rs:26 | The order on components is transitive. |
| `PgnFiles.CompareComponentsFlips` | src/io.rs:26 | Swapping two component lists negates their comparison. |
| `PgnFiles.CompareComponentsChains` | src/io.rs:26 | The order on component lists is transitive. |
| `PgnFiles.PathLeTotal` | src/io.rs:26 | Any two paths are ordered one way or the other. |
| `PgnFiles.PathLeChains` | src/io.rs:26 | The path order is transitive. |
| `PgnFiles.SortedPairwise` | src/io.rs:26 | In a sorted list every earlier path is at most every later one. |
| `PgnFiles.Selected` | src/io.rs:15-24 | Every path kept is a PGN file. |
| `PgnFiles.SelectedAreWalkedPgnFiles` | src/io.rs:15-24 | A path is kept exactly when the walk reported it as a file and it is a PGN file. Walk errors are skipped. |
| `PgnFiles.Insert` | src/io.rs:26 | Inserting into a sorted list keeps it sorted, adds exactly the one path, and leaves the head either the new path or the old head. |
| `PgnFiles.Sort` | src/io.rs:26 | The result is sorted and a permutation of the input. |
| `PgnFiles.CollectPgnFiles` | src/io.rs:12-28 | The files collected are sorted by path and are a permutation of the PGN files the walk found. |
| `PgnFiles.CollectedAreWalkedPgnFiles` | src/io.rs:12-28 | A path is collected exactly when the walk reported it as a file and it is a PGN file. |

## Left out

- Engine process, files and threads.
  - Spawning the engine process, the pipes, flushing and waiting for the child are left out.
  - The engine's output is given as a list of lines; running out of lines is the engine closing.
  - Write errors of the engine input are not modelled: a command is always sent.
- Library internals. The binpack reader and writer, gzip, `create_temp_file`, `write_output` and `concatenate_files` are I/O. They are modelled only as the list of records read and the list of entries written.
- `src/main.rs`, `src/cli.rs`, `src/process.rs` and the viewer are not part of this model.
- `BinpackBuilder::create_binpack` and `process_gz_pgn`, and the file handling of `process_pgn` (builder.rs:38-91), are left out. They open the file, choose gzip by the `gz` extension and drive the PGN reader over the visitor. The reader's output is modelled as a stream of events per game (`Builder.Event`, `Builder.Game`), with variations already skipped; the loop over the games is `Builder.ReadGames`.
- `UciEngine::evaluate` (rescore.rs:100-120) is never called. It is left out.
- Floating point. `win_rate_a`, the scaling and the f32 parse in `parse_eval_cp` use exact reals. The f32 and f64 rounding of the coefficients and products is not modelled, so a result exactly at a rounding tie may differ by one.
- `Uci.MateToCp`: for `score mate -2147483648` (`i32::MIN`, which `parse::<i32>` accepts), `mate.abs()` at src/analytics/rescore.rs:215 overflows. The source panics in debug builds; in release builds it wraps to the 2147451648 the model computes. The debug panic is not modelled, since scores are unbounded integers here.
- `Wdl.Normalize`: for a score of `i32::MIN`, `abs()` overflows in the source, which panics in debug builds; scores are unbounded integers here.
- `Builder.HandleMove`: the ply counter is a u16 in the source and would wrap after 65535 plies; here it is unbounded.
- `Moves.ConvertMove`: a drop move has no origin square, and the source would panic on `unwrap`. Resolved SAN moves of standard chess always have one, so the chess library is modelled as returning only such moves (`Builder.BoardMove`).
- `Moves.ConvertMove`: for castling, the target square is the rook's square, as in the chess library's move type. The model takes the chess library's `to()` as given.
- `Unique.UniquePositions`: an unreadable FEN, an unparsable UCI move or an illegal move panics in the source (`expect`). The chess library is modelled as total functions, and these panics are not modelled.
- `Unique.UniquePositions`: the hash is a 64-bit Zobrist hash in the source; here it is any function to naturals, so collisions are whatever the function gives.
- Non-UTF-8 tags and comments are skipped by the source (builder.rs:235, 295). Here tag names, tag values and comments arrive as decoded text.
- `PgnFiles.IsPgnFile`: an extension that is not valid UTF-8, and Windows paths, prefixes and separators, are not modelled. Paths are Unix paths held as text.
- `PgnFiles.FileName`: a trailing `/` is ignored as Rust's path components ignore it, so `dir/a.pgn/` has the extension `pgn` like `dir/a.pgn`.
- `PgnFiles.CollectPgnFiles`: the directory walk is given as the list of its entries, with `None` standing for an entry the walk could not read. The order among paths equal under the component order (`a//b` and `a/b`) is not stated.
- `Binpack.MovesSince`: its own contract states only the number of moves; which moves they are is stated by `Binpack.MovesSinceAt`.
- `Rescore.Ucis`: its own contract states only the number of UCI texts; their contents are stated by `Rescore.UcisAt` and `Rescore.UcisSince`.
- `Builder.Flush`: writing an entry is assumed to succeed. In the source a failed `write_entry` makes `flush_pending` fail (builder.rs:154-156), and with it `handle_move` (builder.rs:164) and `end_game` (builder.rs:309-311); the writer is a list here, so those failures are not modelled. `Builder.HandleMove`, `Builder.Step`, `Builder.MovetextWrites` and `Builder.GameWrites` state when a game stops under that assumption.
- `Rescore.RescoreLoop`: writing an entry is assumed to succeed. In the source a failed `write_entry` ends `rescore_binpack` with that error (rescore.rs:42); here only engine errors end the loop.
- `Builder.ReadGames`: the PGN reader's own behaviour is assumed: after a callback stops a game, the reader skips the rest of that game without calling `end_game`, and hands the result to `process_pgn`, which drops it (the visitor's output is a `Result` inside the reader's `Result`, builder.rs:84-88 and 222). Reader I/O errors, which end the file, are not modelled.
- `Builder.GameEntriesAre`: does not say which entries a game writes when a move in its mainline fails. Those are the entries of the moves before the failing one, except the entry still pending when it fails.
- `Builder.CommentScore`: `attach_comment_eval` (builder.rs:209) matches the result of `parse_eval_cp` as if it were an `Option`, while the function returns a `Result<Option<i16>, _>`. The model attaches a score only for `Ok(Some(cp))`, which is the evident meaning. A comment without an evaluation leaves the entry unchanged.

## Findings

| source | as written | input that shows it | evidently intended | confidence | as-written member | corrected member |
|---|---|---|---|---|---|---|
| src/analytics/rescore.rs:35 | The history sent to the engine restarts when the next record continues the current one (`processed == 0 \|\| reader.is_next_entry_continuation()`). | Two one-record games in a row (neither record followed by a continuation): the second record is searched as `position fen <FEN of record 1> moves <move of record 1>`, not from its own FEN. Within a longer game the history restarts at every record but the last, so the engine never gets the game's earlier moves. | Restart at each game start, so the FEN and moves sent lead to the record's own position. | not executed | `Rescore.AsWrittenSearchesStalePosition` | `Rescore.IntendedContextReplaysToEntry` |
