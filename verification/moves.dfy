/**
 * The move conversion of `util.rs`: a move of the chess library (files and
 * ranks, castling as king and rook squares) becomes a move of the binpack
 * library (square indices 0..63, a move kind and a promotion piece).
 */
module Moves {
  import opened Wrappers
  import opened Binpack

  /** A square of the chess library: file and rank, 0 to 7 each (a1 is
      file 0, rank 0). */
  datatype Square = Square(file: int, rank: int) {
    predicate Valid() {
      0 <= file < 8 && 0 <= rank < 8
    }
  }

  /**
   * A move of the chess library. For castling the library names the king's
   * square and the rook's square; a drop (`Put`) has no origin square.
   */
  datatype ChessMove =
    | NormalMove(role: PieceType, from: Square, capture: Option<PieceType>, to: Square, promotion: Option<PieceType>)
    | EnPassantMove(from: Square, to: Square)
    | CastleMove(king: Square, rook: Square)
    | Put(role: PieceType, to: Square)
  {
    /** `Move::from`: none for a drop. */
    function Origin(): Option<Square> {
      match this
      case NormalMove(_, from, _, _, _) => Some(from)
      case EnPassantMove(from, _) => Some(from)
      case CastleMove(king, _) => Some(king)
      case Put(_, _) => None
    }

    /** `Move::to`: the rook's square for castling. */
    function Target(): Square {
      match this
      case NormalMove(_, _, _, to, _) => to
      case EnPassantMove(_, to) => to
      case CastleMove(_, rook) => rook
      case Put(_, to) => to
    }

    function Promotion(): Option<PieceType> {
      if this.NormalMove? then promotion else None
    }
  }

  /** A move with an origin square, both squares on the board: every move
      of standard chess. */
  predicate OnBoard(mv: ChessMove) {
    mv.Origin().Some? && mv.Origin().value.Valid() && mv.Target().Valid()
  }

  /** `square_index`: a1 = 0, b1 = 1, ..., h8 = 63. */
  function SquareIndex(sq: Square): (i: int)
    requires sq.Valid()
    ensures 0 <= i < 64
  {
    sq.rank * 8 + sq.file
  }

  /** The square with a given index. */
  function SquareAt(i: int): (sq: Square)
    requires 0 <= i < 64
    ensures sq.Valid()
  {
    Square(i % 8, i / 8)
  }

  lemma DivModEight(n: int, q: int, r: int)
    requires n == 8 * q + r && 0 <= r < 8
    ensures n / 8 == q && n % 8 == r
  {
  }

  /** `square_index` numbers the 64 squares one to one. */
  lemma SquareIndexIsBijective(sq: Square, i: int)
    requires sq.Valid() && 0 <= i < 64
    ensures SquareAt(SquareIndex(sq)) == sq
    ensures SquareIndex(SquareAt(i)) == i
  {
    DivModEight(SquareIndex(sq), sq.rank, sq.file);
  }

  /** The binpack piece a promotion to `role` gives a side: queen, rook,
      bishop or knight of that colour; a king or pawn gives no piece. */
  function PromotedPiece(role: PieceType, color: Color): (p: Piece)
    ensures p.Piece? <==> role in {Queen, Rook, Bishop, Knight}
    ensures p.Piece? ==> p.kind == role && p.color == color
  {
    match role
    case Queen => Piece(Queen, color)
    case Rook => Piece(Rook, color)
    case Bishop => Piece(Bishop, color)
    case Knight => Piece(Knight, color)
    case King => NoPiece
    case Pawn => NoPiece
  }

  /**
   * `convert_move`: en passant first, then castling, then promotion,
   * otherwise a normal move; squares as indices, and a promotion piece of
   * the mover's colour only for promotions.
   */
  function ConvertMove(mv: ChessMove, color: Color): (r: Move)
    requires OnBoard(mv)
    ensures r.kind == EnPassant <==> mv.EnPassantMove?
    ensures r.kind == Castle <==> mv.CastleMove?
    ensures r.kind == Promotion <==> mv.Promotion().Some?
    ensures r.kind == Normal <==> mv.NormalMove? && mv.promotion.None?
    ensures r.promoted != NoPiece ==> r.kind == Promotion && r.promoted.color == color
    ensures 0 <= r.from < 64 && 0 <= r.to < 64
  {
    var from := SquareIndex(mv.Origin().value);
    var to := SquareIndex(mv.Target());
    if mv.EnPassantMove? then Move(from, to, EnPassant, NoPiece)
    else if mv.CastleMove? then Move(from, to, Castle, NoPiece)
    else match mv.Promotion()
      case Some(role) => Move(from, to, Promotion, PromotedPiece(role, color))
      case None => Move(from, to, Normal, NoPiece)
  }

  /** The origin and target squares can be read back from the converted
      move, and a promotion to a queen, rook, bishop or knight can be read
      back from its piece. */
  lemma ConvertMoveReadsBack(mv: ChessMove, color: Color)
    requires OnBoard(mv)
    ensures var r := ConvertMove(mv, color);
            SquareAt(r.from) == mv.Origin().value && SquareAt(r.to) == mv.Target()
    ensures var r := ConvertMove(mv, color);
            mv.Promotion().Some? && mv.Promotion().value in {Queen, Rook, Bishop, Knight}
            ==> r.promoted == Piece(mv.Promotion().value, color)
  {
    var r := ConvertMove(mv, color);
    var from, to := mv.Origin().value, mv.Target();
    assert r.from == SquareIndex(from) && r.to == SquareIndex(to);
    SquareIndexIsBijective(from, r.from);
    SquareIndexIsBijective(to, r.to);
  }
}
