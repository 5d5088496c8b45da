/**
 * The objectives of state.js: the stateless `Expand` scan, the `Collect`
 * objective that funnels the heaviest army to a fixed tile, and the
 * `Conquest` objective that walks an army from the general to a target.
 */
module Objectives {
  import opened Wrappers
  import opened Grid
  import opened Tiles
  import opened Router

  // ----- Tile-pair scans -----

  /** The three `find` tests of state.js, each on a source tile `i` and a neighbour `t`. */
  datatype Criterion =
    | Capture              // an enemy or occupied neutral tile the source's army beats
    | Claim                // an unoccupied neutral tile
    | Conquerable(general: nat)  // a city or occupied neutral the general beats but the source does not

  /** Criterion `c` holds for the move from `i` to `t`. */
  predicate Qualifies(b: Board, p: int, c: Criterion, i: nat, t: nat)
    requires WellFormed(b) && i < Size(b) && t < Size(b)
    requires c.Conquerable? ==> c.general < Size(b)
  {
    match c
    case Capture =>
      b.terrain[t] != p && b.terrain[t] != MOUNTAIN && (b.terrain[t] != EMPTY || b.armies[t] != 0)
      && b.armies[i] > b.armies[t] + 1
    case Claim =>
      b.terrain[t] == EMPTY && b.armies[t] == 0
    case Conquerable(g) =>
      (t in b.cities || (b.terrain[t] == EMPTY && b.armies[t] != 0))
      && b.armies[g] > b.armies[t] + 1 && b.armies[i] <= b.armies[t] + 1 && b.terrain[t] != p
  }

  /** A tile the scans move from: the player's, with more than one army. */
  predicate Source(b: Board, p: int, i: nat)
    requires WellFormed(b) && i < Size(b)
  {
    b.terrain[i] == p && b.armies[i] > 1
  }

  predicate OnBoard(b: Board, c: Criterion)
  {
    c.Conquerable? ==> c.general < Size(b)
  }

  /** JavaScript's `find` over `adj`: the first neighbour of `i` meeting `c`. */
  function Find(b: Board, p: int, c: Criterion, i: nat, adj: seq<nat>): Option<nat>
    requires WellFormed(b) && i < Size(b) && OnBoard(b, c)
    requires forall k :: 0 <= k < |adj| ==> adj[k] < Size(b)
  {
    if adj == [] then None
    else if Qualifies(b, p, c, i, adj[0]) then Some(adj[0])
    else Find(b, p, c, i, adj[1..])
  }

  lemma {:induction false} FindSpec(b: Board, p: int, c: Criterion, i: nat, adj: seq<nat>)
    requires WellFormed(b) && i < Size(b) && OnBoard(b, c)
    requires forall k :: 0 <= k < |adj| ==> adj[k] < Size(b)
    ensures Find(b, p, c, i, adj).None? <==> forall k :: 0 <= k < |adj| ==> !Qualifies(b, p, c, i, adj[k])
    ensures Find(b, p, c, i, adj).Some? ==>
      exists j :: 0 <= j < |adj| && adj[j] == Find(b, p, c, i, adj).value && Qualifies(b, p, c, i, adj[j])
        && (forall k :: 0 <= k < j ==> !Qualifies(b, p, c, i, adj[k]))
  {
    if adj != [] && !Qualifies(b, p, c, i, adj[0]) {
      var tail := adj[1..];
      FindSpec(b, p, c, i, tail);
      assert forall k :: 0 < k < |adj| ==> adj[k] == tail[k - 1];
      if Find(b, p, c, i, tail).Some? {
        var j :| 0 <= j < |tail| && tail[j] == Find(b, p, c, i, tail).value
          && Qualifies(b, p, c, i, tail[j]) && forall k :: 0 <= k < j ==> !Qualifies(b, p, c, i, tail[k]);
        assert adj[j + 1] == tail[j];
      }
    }
  }

  /** A move from `i` that meets `c`. */
  ghost predicate Pair(b: Board, p: int, c: Criterion, i: nat, t: nat)
    requires WellFormed(b) && OnBoard(b, c)
  {
    i < Size(b) && Source(b, p, i) && t in Adj(b, i) && Qualifies(b, p, c, i, t)
  }

  /** No source in `[i, j)` has a neighbour meeting `c`. */
  ghost predicate NoPair(b: Board, p: int, c: Criterion, i: nat, j: nat)
    requires WellFormed(b) && OnBoard(b, c)
  {
    forall k, t :: i <= k < j ==> !Pair(b, p, c, k, t)
  }

  /** The scan of state.js from tile `i` on: the first source with a neighbour meeting `c`, and that neighbour. */
  function ScanFrom(b: Board, p: int, c: Criterion, i: nat): Option<Edge>
    requires WellFormed(b) && OnBoard(b, c)
    decreases Size(b) - i
  {
    if i >= Size(b) then None
    else if Source(b, p, i) && Find(b, p, c, i, Adj(b, i)).Some? then Some((i, Find(b, p, c, i, Adj(b, i)).value))
    else ScanFrom(b, p, c, i + 1)
  }

  /** Tile `i` contributes a move to the scan exactly when it has a pair. */
  lemma TileScan(b: Board, p: int, c: Criterion, i: nat)
    requires WellFormed(b) && OnBoard(b, c) && i < Size(b)
    ensures (Source(b, p, i) && Find(b, p, c, i, Adj(b, i)).Some?) <==> exists t :: Pair(b, p, c, i, t)
    ensures Source(b, p, i) && Find(b, p, c, i, Adj(b, i)).Some? ==> Pair(b, p, c, i, Find(b, p, c, i, Adj(b, i)).value)
  {
    var adj := Adj(b, i);
    FindSpec(b, p, c, i, adj);
    if Source(b, p, i) && Find(b, p, c, i, adj).Some? {
      var j :| 0 <= j < |adj| && adj[j] == Find(b, p, c, i, adj).value && Qualifies(b, p, c, i, adj[j]);
      assert Pair(b, p, c, i, adj[j]);
    }
  }

  /**
   * The scan finds nothing exactly when no source from `i` on has a
   * qualifying neighbour; otherwise it finds the lowest such source and
   * its first qualifying neighbour in `adjacentTiles` order.
   */
  lemma {:induction false} ScanSpec(b: Board, p: int, c: Criterion, i: nat)
    requires WellFormed(b) && OnBoard(b, c)
    ensures ScanFrom(b, p, c, i).None? <==> NoPair(b, p, c, i, Size(b))
    ensures ScanFrom(b, p, c, i).Some? ==>
      var (j, t) := ScanFrom(b, p, c, i).value;
      i <= j && Pair(b, p, c, j, t) && NoPair(b, p, c, i, j) && Find(b, p, c, j, Adj(b, j)) == Some(t)
    decreases Size(b) - i
  {
    if i < Size(b) {
      TileScan(b, p, c, i);
      if !(Source(b, p, i) && Find(b, p, c, i, Adj(b, i)).Some?) {
        ScanSpec(b, p, c, i + 1);
        NoPairExtend(b, p, c, i, Size(b));
        if ScanFrom(b, p, c, i).Some? {
          NoPairExtend(b, p, c, i, ScanFrom(b, p, c, i).value.0);
        }
      }
    }
  }

  lemma NoPairExtend(b: Board, p: int, c: Criterion, i: nat, j: nat)
    requires WellFormed(b) && OnBoard(b, c) && i < Size(b)
    requires !exists t :: Pair(b, p, c, i, t)
    ensures NoPair(b, p, c, i + 1, j) <==> NoPair(b, p, c, i, j)
  {
  }

  /** Beyond the board there are no pairs. */
  lemma NoPairBeyond(b: Board, p: int, c: Criterion)
    requires WellFormed(b) && OnBoard(b, c)
    ensures NoPair(b, p, c, 0, Size(b)) <==> forall j, t :: !Pair(b, p, c, j, t)
  {
  }

  /** The scan loop of state.js:31-41, 177-185 and 187-195: tiles in index order, stopping at the first hit. */
  method Scan(b: Board, p: int, c: Criterion) returns (r: Option<Edge>)
    requires WellFormed(b) && OnBoard(b, c)
    ensures r == ScanFrom(b, p, c, 0)
    ensures r.Some? ==> Pair(b, p, c, r.value.0, r.value.1)
    ensures r.None? <==> forall j, t :: !Pair(b, p, c, j, t)
  {
    ScanSpec(b, p, c, 0);
    NoPairBeyond(b, p, c);
    var i := 0;
    while i < b.width * b.height
      invariant 0 <= i <= Size(b)
      invariant ScanFrom(b, p, c, i) == ScanFrom(b, p, c, 0)
    {
      if b.terrain[i] == p && b.armies[i] > 1 {
        var adjacents := AdjacentTiles(i, b.width, b.height);
        var adj := Find(b, p, c, i, adjacents);
        if adj.Some? {
          return Some((i, adj.value));
        }
      }
      i := i + 1;
    }
    return None;
  }

  // ----- Expand -----

  /** What `Expand.exec` returns: a capture if there is one, else a claim. */
  function Expansion(b: Board, p: int): Option<Edge>
    requires WellFormed(b)
  {
    var capture := ScanFrom(b, p, Capture, 0);
    if capture.Some? then capture else ScanFrom(b, p, Claim, 0)
  }

  /**
   * state.js:176-198: expansion moves an army of more than one from an owned
   * tile to a neighbour; it prefers capturing over claiming an empty tile,
   * and gives up only when neither exists anywhere on the board.
   */
  lemma ExpansionSpec(b: Board, p: int)
    requires WellFormed(b)
    ensures Expansion(b, p).Some? ==>
      var (i, t) := Expansion(b, p).value;
      Pair(b, p, Capture, i, t) || (Pair(b, p, Claim, i, t) && forall j, u :: !Pair(b, p, Capture, j, u))
    ensures Expansion(b, p).None? <==>
      (forall j, u :: !Pair(b, p, Capture, j, u)) && (forall j, u :: !Pair(b, p, Claim, j, u))
  {
    ScanSpec(b, p, Capture, 0);
    ScanSpec(b, p, Claim, 0);
    NoPairBeyond(b, p, Capture);
    NoPairBeyond(b, p, Claim);
  }

  /** `Expand.exec`, state.js:176-198. */
  method ExpandExec(b: Board, p: int) returns (m: Option<Edge>)
    requires WellFormed(b)
    ensures m == Expansion(b, p)
    ensures m.Some? ==> Legal(b, m.value) && Source(b, p, m.value.0)
  {
    ExpansionSpec(b, p);
    m := Scan(b, p, Capture);
    if m.Some? {
      return;
    }
    m := Scan(b, p, Claim);
  }

  /**
   * A 3 x 3 board whose centre is the player's only tile, holding 10 armies,
   * all other tiles unclaimed and empty: nothing can be captured, and the
   * first claim is the right-hand neighbour, the first in `adjacentTiles` order.
   */
  lemma CentreClaim()
    ensures var b := Board(3, 3, [0, 0, 0, 0, 10, 0, 0, 0, 0], [-1, -1, -1, -1, 0, -1, -1, -1, -1], [], [4]);
      WellFormed(b) && Expansion(b, 0) == Some((4, 5))
  {
    var b := Board(3, 3, [0, 0, 0, 0, 10, 0, 0, 0, 0], [-1, -1, -1, -1, 0, -1, -1, -1, -1], [], [4]);
    assert Adj(b, 4) == [5, 3, 1, 7];
    assert ScanFrom(b, 0, Capture, 5) == None by {
      assert forall i :: 5 <= i < 9 ==> !Source(b, 0, i);
    }
    assert ScanFrom(b, 0, Capture, 0) == None;
    assert ScanFrom(b, 0, Claim, 0) == Some((4, 5));
  }

  // ----- Collect -----

  /** A tile `Collect` may gather from: the player's, not the target, with more than one army. */
  predicate Candidate(b: Board, p: int, target: nat, t: nat)
    requires WellFormed(b) && t < Size(b)
  {
    t != target && b.armies[t] > 1 && b.terrain[t] == p
  }

  /** The `reduce` of state.js:157 from tile `tile` on, with running best `acc` holding `best` armies. */
  function HeaviestFrom(b: Board, p: int, target: nat, tile: nat, acc: int, best: int): (r: int)
    requires WellFormed(b)
    ensures r == acc || tile <= r < Size(b)
    decreases Size(b) - tile
  {
    if tile >= Size(b) then acc
    else if b.armies[tile] > best && Candidate(b, p, target, tile) then HeaviestFrom(b, p, target, tile + 1, tile, b.armies[tile])
    else HeaviestFrom(b, p, target, tile + 1, acc, best)
  }

  /** The tile with the most armies among the candidates, the lowest such index on ties; -1 when there is none. */
  function Heaviest(b: Board, p: int, target: nat): (r: int)
    requires WellFormed(b)
    ensures r == -1 || 0 <= r < Size(b)
  {
    HeaviestFrom(b, p, target, 0, -1, 0)
  }

  lemma {:induction false} HeaviestFromSpec(b: Board, p: int, target: nat, tile: nat, acc: int, best: int)
    requires WellFormed(b) && best >= 0
    ensures var r := HeaviestFrom(b, p, target, tile, acc, best);
      ((forall t :: tile <= t < Size(b) && Candidate(b, p, target, t) ==> b.armies[t] <= best) ==> r == acc)
      && ((exists t :: tile <= t < Size(b) && Candidate(b, p, target, t) && b.armies[t] > best) ==>
        tile <= r < Size(b) && Candidate(b, p, target, r) && b.armies[r] > best
        && (forall t :: tile <= t < Size(b) && Candidate(b, p, target, t) ==> b.armies[t] <= b.armies[r])
        && (forall t :: tile <= t < r && Candidate(b, p, target, t) ==> b.armies[t] < b.armies[r]))
    decreases Size(b) - tile
  {
    if tile < Size(b) {
      if b.armies[tile] > best && Candidate(b, p, target, tile) {
        HeaviestFromSpec(b, p, target, tile + 1, tile, b.armies[tile]);
      } else {
        HeaviestFromSpec(b, p, target, tile + 1, acc, best);
      }
    }
  }

  /**
   * `Collect` picks -1 exactly when there is no candidate; otherwise a
   * candidate with the most armies, the first in index order on ties.
   */
  lemma HeaviestSpec(b: Board, p: int, target: nat)
    requires WellFormed(b)
    ensures Heaviest(b, p, target) == -1 <==> forall t :: 0 <= t < Size(b) ==> !Candidate(b, p, target, t)
    ensures Heaviest(b, p, target) != -1 ==>
      var r := Heaviest(b, p, target);
      0 <= r < Size(b) && Candidate(b, p, target, r)
      && (forall t :: 0 <= t < Size(b) && Candidate(b, p, target, t) ==> b.armies[t] <= b.armies[r])
      && (forall t :: 0 <= t < r && Candidate(b, p, target, t) ==> b.armies[t] < b.armies[r])
  {
    HeaviestFromSpec(b, p, target, 0, -1, 0);
  }

  /** state.js:145-167. `move` is the router toward `target`, or null between attempts. */
  class Collect {
    const target: nat
    var move: Move?

    ghost function Repr(): set<object>
      reads this
    {
      if move == null then {this} else {this, move}
    }

    ghost predicate Valid(w: nat, h: nat)
      reads this, move
    {
      target < w * h && (move != null ==> move.target == target && move.Valid(w, h))
    }

    constructor (target: nat)
      ensures this.target == target && move == null
    {
      this.target := target;
      move := null;
    }

    /**
     * Route from the heaviest candidate when no router is running; hand out
     * its next edge; drop the router once it yields nothing.
     */
    method Exec(b: Board, p: int) returns (m: Option<Edge>, ghost route: seq<nat>)
      requires WellFormed(b) && Valid(b.width, b.height)
      modifies Repr()
      ensures Valid(b.width, b.height) && fresh(Repr() - old(Repr()))
      ensures old(move) == null && Heaviest(b, p, target) == -1 ==> m.None? && move == null
      ensures old(move) == null && Heaviest(b, p, target) != -1 ==>
        Served(b, p, Heaviest(b, p, target), target, None, m, route)
      ensures old(move) != null ==> Served(b, p, old(move).source, target, old(move.path), m, route)
      ensures m.None? ==> move == null
      ensures m.Some? ==> move != null && (old(move) != null ==> move == old(move)) && move.path == Some(Advance(route))
      ensures old(move) == null && m.Some? ==> move.source == Heaviest(b, p, target)
      ensures m.Some? ==> Legal(b, m.value)
    {
      if move == null {
        var max := Heaviest(b, p, target);
        HeaviestSpec(b, p, target);
        if max == -1 {
          m := None;
          route := [];
          return;
        }
        move := new Move(max, target);
      }
      m, route := move.Exec(b, p);
      if m.None? {
        move := null;
      }
    }
  }

  // ----- Conquest -----

  /** state.js:126-143: a router from `source` to `target` that stops once the target is the player's. */
  class Conquest {
    const source: nat
    const target: nat
    const move: Move

    ghost predicate Valid(w: nat, h: nat)
      reads move
    {
      move.source == source && move.target == target && move.Valid(w, h)
    }

    constructor (source: nat, target: nat)
      ensures this.source == source && this.target == target
      ensures fresh(move) && move.source == source && move.target == target && move.path.None?
    {
      this.source := source;
      this.target := target;
      move := new Move(source, target);
    }

    method Exec(b: Board, p: int) returns (m: Option<Edge>, ghost route: seq<nat>)
      requires WellFormed(b) && Valid(b.width, b.height)
      modifies move
      ensures Valid(b.width, b.height)
      ensures b.terrain[target] == p ==> m.None? && move.path == old(move.path)
      ensures b.terrain[target] != p ==>
        Served(b, p, source, target, old(move.path), m, route) && move.path == Some(Advance(route))
      ensures m.Some? ==> Legal(b, m.value)
    {
      if b.terrain[target] == p {
        m := None;
        route := [];
        return;
      }
      m, route := move.Exec(b, p);
    }
  }
}
