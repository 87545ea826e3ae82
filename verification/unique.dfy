/**
 * `unique_positions_from_file`: one pass over the records of a binpack,
 * following each game's position with the chess library and counting the
 * distinct Zobrist hashes of the positions visited.
 *
 * A game's first position is read back from its first record's position;
 * after that the position only advances by the records' moves, as long as
 * the reader reports that the next record continues the game.
 */
module Unique {
  import opened Wrappers
  import opened Binpack

  /** What the counter uses of the chess library, for binpack positions `P`
      and chess-library positions `Q`: the position the library starts with,
      a record's position read back through its FEN, a position's 64-bit
      Zobrist hash, and a move (its UCI text resolved) played. */
  datatype Chess<!P, !Q> = Chess(initial: Q, fromEntry: P -> Q, hash: Q -> nat, play: (Q, Move) -> Q)

  /** Record `i` starts a game: it is the first, or the record before it was
      not followed by a continuation. */
  predicate StartsGame<P>(recs: seq<Record<P>>, i: nat)
    requires i < |recs|
  {
    i == 0 || !recs[i - 1].nextIsContinuation
  }

  /** The position the counter hashes at record `i`. */
  function Visited<P, Q>(c: Chess<P, Q>, recs: seq<Record<P>>, i: nat): Q
    requires i < |recs|
  {
    if StartsGame(recs, i) then c.fromEntry(recs[i].entry.pos)
    else c.play(Visited(c, recs, i - 1), recs[i - 1].entry.mv)
  }

  /** The hash of the position visited at record `j`. */
  function HashAt<P, Q>(c: Chess<P, Q>, recs: seq<Record<P>>, j: nat): nat
    requires j < |recs|
  {
    c.hash(Visited(c, recs, j))
  }

  /** The hashes of the positions visited at the first `n` records. */
  function Hashes<P, Q>(c: Chess<P, Q>, recs: seq<Record<P>>, n: nat): set<nat>
    requires n <= |recs|
  {
    if n == 0 then {} else Hashes(c, recs, n - 1) + {HashAt(c, recs, n - 1)}
  }

  /** The hashes are exactly those of the positions visited. */
  lemma {:induction false} HashesAreVisited<P, Q>(c: Chess<P, Q>, recs: seq<Record<P>>, n: nat, h: nat)
    requires n <= |recs|
    ensures h in Hashes(c, recs, n) <==> exists j :: 0 <= j < n && HashAt(c, recs, j) == h
  {
    if n > 0 {
      HashesAreVisited(c, recs, n - 1, h);
      assert Hashes(c, recs, n) == Hashes(c, recs, n - 1) + {HashAt(c, recs, n - 1)};
      if h == HashAt(c, recs, n - 1) {
        assert h in Hashes(c, recs, n);
      } else if exists j :: 0 <= j < n && HashAt(c, recs, j) == h {
        var j :| 0 <= j < n && HashAt(c, recs, j) == h;
        assert j < n - 1;
      }
    }
  }

  /** There are no more hashes than records visited. */
  lemma {:induction false} HashesBound<P, Q>(c: Chess<P, Q>, recs: seq<Record<P>>, n: nat)
    requires n <= |recs|
    ensures |Hashes(c, recs, n)| <= n
  {
    if n > 0 {
      HashesBound(c, recs, n - 1);
      var prev := Hashes(c, recs, n - 1);
      assert Hashes(c, recs, n) == prev + {HashAt(c, recs, n - 1)};
      assert |prev + {HashAt(c, recs, n - 1)}| <= |prev| + 1;
    }
  }

  /** The last record at or before `i` that started a game. */
  function GameStart<P>(recs: seq<Record<P>>, i: nat): (k: nat)
    requires i < |recs|
    ensures k <= i && StartsGame(recs, k)
    ensures forall j :: k < j <= i ==> !StartsGame(recs, j)
  {
    if StartsGame(recs, i) then i else GameStart(recs, i - 1)
  }

  /**
   * The position hashed at a record is its game's first record's position,
   * read back, with the moves of the game's earlier records played.
   */
  lemma {:induction false} VisitedIsReplay<P, Q>(c: Chess<P, Q>, recs: seq<Record<P>>, i: nat)
    requires i < |recs|
    ensures var k := GameStart(recs, i);
            Visited(c, recs, i) == Replay(c.play, c.fromEntry(recs[k].entry.pos), MovesSince(recs, k, i))
  {
    if !StartsGame(recs, i) {
      VisitedIsReplay(c, recs, i - 1);
      var k := GameStart(recs, i);
      assert k == GameStart(recs, i - 1);
      var ms := MovesSince(recs, k, i);
      assert ms[..|ms| - 1] == MovesSince(recs, k, i - 1);
      ReplayLast(c.play, c.fromEntry(recs[k].entry.pos), ms, MovesSince(recs, k, i - 1), Visited(c, recs, i - 1));
    }
  }

  /**
   * The count of distinct position hashes over the records the loop
   * handles: all of them, or with a limit the first `max(limit, 1)`.
   */
  method UniquePositions<P, Q>(c: Chess<P, Q>, recs: seq<Record<P>>, limit: Option<nat>) returns (n: nat)
    ensures n == |Hashes(c, recs, Processed(|recs|, limit))|
    ensures n <= Processed(|recs|, limit)
  {
    var position := c.initial;
    var unique: set<nat> := {};
    var newGame := true;
    var count := 0;
    while count < |recs|
      invariant count <= |recs|
      invariant unique == Hashes(c, recs, count)
      invariant count < |recs| ==> (newGame <==> StartsGame(recs, count))
      invariant count < |recs| && !newGame ==> position == Visited(c, recs, count)
      invariant limit.Some? ==> count == 0 || count < limit.value
    {
      var entry := recs[count].entry;
      if newGame {
        position := c.fromEntry(entry.pos);
        newGame := false;
      }
      unique := unique + {c.hash(position)};
      if count + 1 < |recs| && recs[count].nextIsContinuation {
        position := c.play(position, entry.mv);
      } else {
        newGame := true;
      }
      count := count + 1;
      if limit.Some? && count >= limit.value {
        break;
      }
    }
    assert count == Processed(|recs|, limit);
    HashesBound(c, recs, count);
    n := |unique|;
  }
}
