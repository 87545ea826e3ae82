/**
 * The training-data records as the binpack library hands them out, with the
 * position left abstract (`P`): the library's codec, its positions and its
 * move encoding are not modelled. A stream of records is what a binpack
 * reader yields; each record carries the reader's answer, taken right after
 * the record was read, to "is the next entry a continuation of this one?".
 */
module Binpack {
  import opened Wrappers

  datatype Color = White | Black

  datatype PieceType = Pawn | Knight | Bishop | Rook | Queen | King

  /** A piece of a colour, or the library's `Piece::none()`. */
  datatype Piece = NoPiece | Piece(kind: PieceType, color: Color)

  datatype MoveType = Normal | Promotion | Castle | EnPassant

  /** A move in the library's encoding: squares as indices 0..63 (a1 = 0). */
  datatype Move = Move(from: int, to: int, kind: MoveType, promoted: Piece)

  /** One training entry: position, move played, score, ply and game result
      from the point of view of the side to move. */
  datatype TrainingEntry<P> = TrainingEntry(pos: P, mv: Move, score: int, ply: nat, result: int)

  /** An entry as read, with the reader's continuation report taken after it. */
  datatype Record<P> = Record(entry: TrainingEntry<P>, nextIsContinuation: bool)

  /**
   * How many records a loop that counts each handled record and stops once
   * the count reaches the limit handles out of `total`: a limit of 0 still
   * lets the first record through, because the test comes after the count.
   */
  function Processed(total: nat, limit: Option<nat>): (n: nat)
    ensures n <= total
    ensures limit.None? ==> n == total
    ensures limit.Some? && total > 0 ==> n >= 1
    ensures limit.Some? && limit.value >= 1 ==> n == if total < limit.value then total else limit.value
  {
    match limit
    case None => total
    case Some(l) =>
      var cap := if l < 1 then 1 else l;
      if total < cap then total else cap
  }

  // ---------------------------------------------------------------------
  // Games in a record stream
  // ---------------------------------------------------------------------

  /** The moves of records `k` up to `i`, in order. */
  function MovesSince<P>(recs: seq<Record<P>>, k: nat, i: nat): (ms: seq<Move>)
    requires k <= i <= |recs|
    ensures |ms| == i - k
    decreases i - k
  {
    if i == k then [] else MovesSince(recs, k, i - 1) + [recs[i - 1].entry.mv]
  }

  /** The `j`-th move since record `k` is the move of record `k + j`. */
  lemma {:induction false} MovesSinceAt<P>(recs: seq<Record<P>>, k: nat, i: nat)
    requires k <= i <= |recs|
    ensures forall j :: 0 <= j < i - k ==> MovesSince(recs, k, i)[j] == recs[k + j].entry.mv
    decreases i - k
  {
    if i > k {
      MovesSinceAt(recs, k, i - 1);
    }
  }

  /** Playing `ms` one after another from `p`. */
  function Replay<P>(play: (P, Move) -> P, p: P, ms: seq<Move>): P {
    if ms == [] then p else play(Replay(play, p, ms[..|ms| - 1]), ms[|ms| - 1])
  }

  lemma ReplayLast<P>(play: (P, Move) -> P, p: P, ms: seq<Move>, front: seq<Move>, q: P)
    requires ms != [] && front == ms[..|ms| - 1] && Replay(play, p, front) == q
    ensures Replay(play, p, ms) == play(q, ms[|ms| - 1])
  {
  }

  /** Every continuation report is honest: the next record's position is
      this record's position after its move. */
  predicate Chained<P(==)>(recs: seq<Record<P>>, play: (P, Move) -> P) {
    forall j :: 0 <= j < |recs| - 1 && recs[j].nextIsContinuation ==>
      recs[j + 1].entry.pos == play(recs[j].entry.pos, recs[j].entry.mv)
  }
}
