/**
 * Row-major tile grid of a generals.io board: tile `t` of a `width` x `height`
 * board sits in row `t / width` and column `t % width`.
 */
module Grid {

  /** Division facts for row-major coordinates. */
  lemma DivMod(x: nat, w: nat, q: nat, c: nat)
    requires w > 0 && c < w && x == w * q + c
    ensures x / w == q && x % w == c
  {
    var q', c' := x / w, x % w;
    assert x == w * q' + c';
    if q' > q {
      assert w * q' >= w * (q + 1) by { MulMono(w, q + 1, q'); }
    } else if q' < q {
      assert w * q >= w * (q' + 1) by { MulMono(w, q' + 1, q); }
    }
  }

  lemma MulMono(w: nat, a: nat, b: nat)
    requires a <= b
    ensures w * a <= w * b
  {
  }

  lemma SizePositive(t: nat, w: nat, h: nat)
    requires t < w * h
    ensures w > 0 && h > 0 && t / w < h
  {
    if t / w >= h {
      assert w * (t / w) >= w * h by { MulMono(w, h, t / w); }
    }
  }

  /** The cells at (r, c) and (r', c') share a side. */
  predicate SideBySide(r: nat, c: nat, r': nat, c': nat)
  {
    (r == r' && (c' == c + 1 || c == c' + 1)) || (c == c' && (r' == r + 1 || r == r' + 1))
  }

  /** Reference definition of orthogonal adjacency on the board, in coordinates. */
  predicate Neighbours(t: nat, x: nat, w: nat, h: nat)
  {
    t < w * h && x < w * h && SideBySide(t / w, t % w, x / w, x % w)
  }

  /**
   * The tiles orthogonally next to `tile`, in the order right, left, up, down,
   * clipped at the board's edges.
   */
  function AdjacentTiles(tile: nat, width: nat, height: nat): (r: seq<nat>)
    requires tile < width * height
    ensures |r| <= 4
    ensures forall k :: 0 <= k < |r| ==> r[k] < width * height
  {
    SizePositive(tile, width, height);
    var row := tile / width;
    var col := tile % width;
    DivMod(tile, width, row, col);
    assert tile + width < width * height <== row < height - 1 by {
      if row < height - 1 {
        assert width * (row + 2) <= width * height by { MulMono(width, row + 2, height); }
      }
    }
    assert tile + 1 < width * height <== col < width - 1 by {
      if col < width - 1 {
        assert width * (row + 1) <= width * height by { MulMono(width, row + 1, height); }
      }
    }
    (if col < width - 1 then [tile + 1] else [])
    + (if col > 0 then [tile - 1] else [])
    + (if row > 0 then [tile - width] else [])
    + (if row < height - 1 then [tile + width] else [])
  }

  /** Coordinates of the tile to the right, left, above and below. */
  lemma StepCoords(t: nat, w: nat, h: nat)
    requires t < w * h
    ensures w > 0 && t == w * (t / w) + t % w
    ensures t % w < w - 1 ==> (t + 1) / w == t / w && (t + 1) % w == t % w + 1
    ensures t % w > 0 ==> (t - 1) / w == t / w && (t - 1) % w == t % w - 1
    ensures t / w > 0 ==> t >= w && (t - w) / w == t / w - 1 && (t - w) % w == t % w
    ensures (t + w) / w == t / w + 1 && (t + w) % w == t % w
  {
    SizePositive(t, w, h);
    var r, c := t / w, t % w;
    DivMod(t, w, r, c);
    if c < w - 1 { DivMod(t + 1, w, r, c + 1); }
    if c > 0 { DivMod(t - 1, w, r, c - 1); }
    if r > 0 { StepUp(t, w, r, c); }
    StepDown(t, w, r, c);
  }

  lemma StepUp(t: nat, w: nat, r: nat, c: nat)
    requires w > 0 && c < w && r > 0 && t == w * r + c
    ensures t >= w && (t - w) / w == r - 1 && (t - w) % w == c
  {
    assert w * r == w * (r - 1) + w;
    DivMod(t - w, w, r - 1, c);
  }

  lemma StepDown(t: nat, w: nat, r: nat, c: nat)
    requires w > 0 && c < w && t == w * r + c
    ensures (t + w) / w == r + 1 && (t + w) % w == c
  {
    assert w * (r + 1) == w * r + w;
    DivMod(t + w, w, r + 1, c);
  }

  /** A tile is determined by its row and column. */
  lemma SameCoords(t: nat, x: nat, w: nat)
    requires w > 0 && t / w == x / w && t % w == x % w
    ensures t == x
  {
  }

  /** The four candidates of `AdjacentTiles`, each kept only when it is on the board. */
  lemma AdjacentParts(t: nat, w: nat, h: nat)
    requires t < w * h
    ensures w > 0 && t / w < h
    ensures forall x :: x in AdjacentTiles(t, w, h) <==>
      (t % w < w - 1 && x == t + 1) || (t % w > 0 && x == t - 1)
      || (t / w > 0 && x == t - w) || (t / w < h - 1 && x == t + w)
  {
    SizePositive(t, w, h);
  }

  /** Every tile `adjacentTiles` lists shares a side with `t`. */
  lemma AdjacentAreNeighbours(t: nat, x: nat, w: nat, h: nat)
    requires t < w * h && x in AdjacentTiles(t, w, h)
    ensures Neighbours(t, x, w, h)
  {
    AdjacentParts(t, w, h);
    StepCoords(t, w, h);
  }

  /** A neighbour in the same row, one column to the right, is `t + 1`. */
  lemma RightNeighbour(t: nat, x: nat, w: nat, h: nat)
    requires t < w * h && x < w * h && t / w == x / w && x % w == t % w + 1
    ensures t % w < w - 1 && x == t + 1
  {
    StepCoords(t, w, h);
    SameCoords(t + 1, x, w);
  }

  /** A neighbour in the same row, one column to the left, is `t - 1`. */
  lemma LeftNeighbour(t: nat, x: nat, w: nat, h: nat)
    requires t < w * h && x < w * h && t / w == x / w && t % w == x % w + 1
    ensures t % w > 0 && x == t - 1
  {
    StepCoords(t, w, h);
    SameCoords(t - 1, x, w);
  }

  /** A neighbour in the same column, one row up, is `t - w`. */
  lemma UpperNeighbour(t: nat, x: nat, w: nat, h: nat)
    requires t < w * h && x < w * h && t % w == x % w && t / w == x / w + 1
    ensures t / w > 0 && x == t - w
  {
    StepCoords(t, w, h);
    SameCoords(t - w, x, w);
  }

  /** A neighbour in the same column, one row down, is `t + w`. */
  lemma LowerNeighbour(t: nat, x: nat, w: nat, h: nat)
    requires t < w * h && x < w * h && t % w == x % w && x / w == t / w + 1
    ensures t / w < h - 1 && x == t + w
  {
    StepCoords(t, w, h);
    SizePositive(x, w, h);
    SameCoords(t + w, x, w);
  }

  /** Every tile that shares a side with `t` is listed. */
  lemma NeighboursAreAdjacent(t: nat, x: nat, w: nat, h: nat)
    requires Neighbours(t, x, w, h)
    ensures x in AdjacentTiles(t, w, h)
  {
    var r, c, r', c' := t / w, t % w, x / w, x % w;
    if r == r' && c' == c + 1 {
      RightNeighbour(t, x, w, h);
    } else if r == r' && c == c' + 1 {
      LeftNeighbour(t, x, w, h);
    } else if c == c' && r == r' + 1 {
      UpperNeighbour(t, x, w, h);
    } else {
      LowerNeighbour(t, x, w, h);
    }
    AdjacentParts(t, w, h);
  }

  /** `adjacentTiles` lists exactly the tiles that share a side with `t`: no wrap-around at the edges. */
  lemma AdjacentIffNeighbours(t: nat, x: nat, w: nat, h: nat)
    requires t < w * h
    ensures x in AdjacentTiles(t, w, h) <==> Neighbours(t, x, w, h)
  {
    if x in AdjacentTiles(t, w, h) {
      AdjacentAreNeighbours(t, x, w, h);
    }
    if Neighbours(t, x, w, h) {
      NeighboursAreAdjacent(t, x, w, h);
    }
  }

  /** Adjacency is symmetric. */
  lemma AdjacentSymmetric(t: nat, x: nat, w: nat, h: nat)
    requires t < w * h && x < w * h
    ensures x in AdjacentTiles(t, w, h) <==> t in AdjacentTiles(x, w, h)
  {
    AdjacentIffNeighbours(t, x, w, h);
    AdjacentIffNeighbours(x, t, w, h);
  }

  /** A tile is never adjacent to itself. */
  lemma AdjacentIrreflexive(t: nat, w: nat, h: nat)
    requires t < w * h
    ensures t !in AdjacentTiles(t, w, h)
  {
    AdjacentIffNeighbours(t, t, w, h);
  }

  datatype Direction = Right | Left | Up | Down

  /** Where `x` lies as seen from `t`. */
  function DirectionOf(t: nat, x: nat, w: nat): Direction
    requires w > 0
  {
    if t / w == x / w && x % w == t % w + 1 then Right
    else if t / w == x / w && x % w + 1 == t % w then Left
    else if x / w + 1 == t / w then Up
    else Down
  }

  function Rank(d: Direction): nat
  {
    match d
    case Right => 0
    case Left => 1
    case Up => 2
    case Down => 3
  }

  /** Each of the four candidates lies in its own direction. */
  lemma CandidateDirections(t: nat, w: nat, h: nat)
    requires t < w * h
    ensures w > 0
    ensures t % w < w - 1 ==> DirectionOf(t, t + 1, w) == Right
    ensures t % w > 0 ==> DirectionOf(t, t - 1, w) == Left
    ensures t / w > 0 ==> t >= w && DirectionOf(t, t - w, w) == Up
    ensures DirectionOf(t, t + w, w) == Down
  {
    StepCoords(t, w, h);
  }

  /** The directions in which `adjacentTiles` finds a neighbour, in the order it lists them. */
  function Directions(right: bool, left: bool, up: bool, down: bool): seq<Direction>
  {
    (if right then [Right] else []) + (if left then [Left] else []) + (if up then [Up] else []) + (if down then [Down] else [])
  }

  lemma DirectionsAscend(right: bool, left: bool, up: bool, down: bool, i: nat, j: nat)
    requires i < j < |Directions(right, left, up, down)|
    ensures Rank(Directions(right, left, up, down)[i]) < Rank(Directions(right, left, up, down)[j])
  {
  }

  /** Entry `k` of `adjacentTiles` lies in direction `k` of `Directions`. */
  lemma IndexDirection(t: nat, w: nat, h: nat, k: nat)
    requires t < w * h && k < |AdjacentTiles(t, w, h)|
    ensures w > 0
    ensures var dirs := Directions(t % w < w - 1, t % w > 0, t / w > 0, t / w < h - 1);
      |dirs| == |AdjacentTiles(t, w, h)| && DirectionOf(t, AdjacentTiles(t, w, h)[k], w) == dirs[k]
  {
    CandidateDirections(t, w, h);
    var r, c := t / w, t % w;
    var right := if c < w - 1 then [t + 1] else [];
    var left := if c > 0 then [t - 1] else [];
    var up := if r > 0 then [t - w] else [];
    var down := if r < h - 1 then [t + w] else [];
    assert AdjacentTiles(t, w, h) == right + left + up + down;
  }

  /** The neighbours come right first, then left, then up, then down. */
  lemma AdjacentOrder(t: nat, w: nat, h: nat, i: nat, j: nat)
    requires t < w * h
    requires i < j < |AdjacentTiles(t, w, h)|
    ensures w > 0
    ensures Rank(DirectionOf(t, AdjacentTiles(t, w, h)[i], w)) < Rank(DirectionOf(t, AdjacentTiles(t, w, h)[j], w))
  {
    IndexDirection(t, w, h, i);
    IndexDirection(t, w, h, j);
    DirectionsAscend(t % w < w - 1, t % w > 0, t / w > 0, t / w < h - 1, i, j);
  }

  /** No tile is listed twice. */
  lemma AdjacentDistinct(t: nat, w: nat, h: nat)
    requires t < w * h
    ensures forall i, j :: 0 <= i < j < |AdjacentTiles(t, w, h)| ==> AdjacentTiles(t, w, h)[i] != AdjacentTiles(t, w, h)[j]
  {
    forall i, j | 0 <= i < j < |AdjacentTiles(t, w, h)|
      ensures AdjacentTiles(t, w, h)[i] != AdjacentTiles(t, w, h)[j]
    {
      AdjacentOrder(t, w, h, i, j);
    }
  }

  /** Every tile of `s` is on the board and each is next to the one before it. */
  predicate IsWalk(w: nat, h: nat, s: seq<nat>)
  {
    (forall k :: 0 <= k < |s| ==> s[k] < w * h)
    && (forall k :: 0 <= k < |s| - 1 ==> s[k + 1] in AdjacentTiles(s[k], w, h))
  }
}
