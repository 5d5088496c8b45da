/** The board as the decision engine sees it on one tick. */
module Tiles {
  import Grid

  /** Terrain code of an unclaimed tile. */
  const EMPTY: int := -1
  /** Terrain code of an impassable tile. */
  const MOUNTAIN: int := -2

  /**
   * One tick's snapshot: per-tile army counts and terrain codes (a player
   * index, `EMPTY` or `MOUNTAIN`), the known cities and each player's general.
   */
  datatype Board = Board(
    width: nat, height: nat,
    armies: seq<int>, terrain: seq<int>,
    cities: seq<int>, generals: seq<int>)

  function Size(b: Board): nat
  {
    b.width * b.height
  }

  predicate WellFormed(b: Board)
  {
    |b.armies| == Size(b) && |b.terrain| == Size(b)
  }

  /** Player `p`'s general is a tile of the board. */
  predicate HasGeneral(b: Board, p: int)
  {
    0 <= p < |b.generals| && 0 <= b.generals[p] < Size(b)
  }

  function Adj(b: Board, t: nat): seq<nat>
    requires t < Size(b)
  {
    Grid.AdjacentTiles(t, b.width, b.height)
  }

  /** A move order: send the army of the first tile to the second. */
  type Edge = (nat, nat)

  /** The move goes from a tile of the board to one of its neighbours. */
  predicate Legal(b: Board, e: Edge)
  {
    e.0 < Size(b) && e.1 in Adj(b, e.0)
  }
}
