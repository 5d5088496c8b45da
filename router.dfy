/**
 * The `Move` router of state.js: hop-distance labels flooded out from the
 * target over the player's own tiles, a greedy descent from the source, and
 * a cached path handed out one edge per call.
 */
module Router {
  import opened Wrappers
  import opened Grid
  import opened Tiles

  /** A hop-distance label; `Inf` is JavaScript's `Infinity`. */
  datatype Dist = Fin(d: nat) | Inf

  predicate Lt(a: Dist, b: Dist)
  {
    match (a, b)
    case (Fin(x), Fin(y)) => x < y
    case (Fin(_), Inf) => true
    case (Inf, _) => false
  }

  predicate Le(a: Dist, b: Dist)
  {
    !Lt(b, a)
  }

  // ----- Label invariants -----

  /** Labels before the first round: all infinite except the target, labelled 0. */
  function Initial(n: nat, target: nat): (r: seq<Dist>)
    ensures |r| == n
  {
    seq(n, t => if t == target then Fin(0) else Inf)
  }

  /** Only the player's own tiles (and the target) carry a finite label. */
  ghost predicate OwnedOnly(b: Board, p: int, target: nat, labels: seq<Dist>)
    requires WellFormed(b) && |labels| == Size(b)
  {
    forall t :: 0 <= t < |labels| && t != target && labels[t].Fin? ==> b.terrain[t] == p
  }

  /** Every finite label other than the target's has a neighbour with a smaller label. */
  ghost predicate Supported(b: Board, target: nat, labels: seq<Dist>)
    requires |labels| == Size(b)
  {
    forall t {:trigger Adj(b, t)} :: 0 <= t < |labels| && t != target && labels[t].Fin? ==>
      labels[t].d > 0 && exists k :: 0 <= k < |Adj(b, t)| && Lt(labels[Adj(b, t)[k]], labels[t])
  }

  ghost predicate Labelling(b: Board, p: int, target: nat, labels: seq<Dist>)
  {
    WellFormed(b) && target < Size(b) && |labels| == Size(b)
    && labels[target] == Fin(0) && OwnedOnly(b, p, target, labels) && Supported(b, target, labels)
  }

  /** No label went up. */
  ghost predicate Decreased(before: seq<Dist>, after: seq<Dist>)
  {
    |before| == |after| && forall t :: 0 <= t < |after| ==> Le(after[t], before[t])
  }

  /** Each tile below `upTo` with a finite label `L` before the round left its owned neighbours at most `L + 1`. */
  ghost predicate Propagated(b: Board, p: int, before: seq<Dist>, after: seq<Dist>, upTo: nat)
    requires WellFormed(b) && |before| == Size(b) && |after| == Size(b)
  {
    forall n, t :: 0 <= n < upTo && n < |before| && before[n].Fin? && t in Adj(b, n) && b.terrain[t] == p ==>
      Le(after[t], Fin(before[n].d + 1))
  }

  /** A walk from `w[0]` to `target` whose tiles, except maybe the target, are the player's. */
  ghost predicate OwnedWalk(b: Board, p: int, target: nat, w: seq<nat>)
    requires WellFormed(b)
  {
    |w| >= 1 && w[|w| - 1] == target && target < Size(b)
    && forall i :: 0 <= i < |w| - 1 ==>
      w[i] < Size(b) && b.terrain[w[i]] == p && w[i + 1] in Adj(b, w[i])
  }

  /** Every tile with an owned walk of at most `r` hops to the target has a label no larger. */
  ghost predicate Reached(b: Board, p: int, target: nat, labels: seq<Dist>, r: nat)
    requires WellFormed(b) && |labels| == Size(b)
  {
    forall w :: OwnedWalk(b, p, target, w) && |w| <= r + 1 ==> Le(labels[w[0]], Fin(|w| - 1))
  }

  lemma InitialLabelling(b: Board, p: int, target: nat)
    requires WellFormed(b) && target < Size(b)
    ensures Labelling(b, p, target, Initial(Size(b), target))
    ensures Reached(b, p, target, Initial(Size(b), target), 0)
  {
  }

  lemma DecreasedTrans(a: seq<Dist>, b: seq<Dist>, c: seq<Dist>)
    requires Decreased(a, b) && Decreased(b, c)
    ensures Decreased(a, c)
  {
  }

  lemma PropagatedMono(b: Board, p: int, before: seq<Dist>, mid: seq<Dist>, after: seq<Dist>, upTo: nat)
    requires WellFormed(b) && |before| == Size(b) && |mid| == Size(b)
    requires Propagated(b, p, before, mid, upTo) && Decreased(mid, after)
    ensures Propagated(b, p, before, after, upTo)
  {
  }

  lemma WalkTail(b: Board, p: int, target: nat, w: seq<nat>)
    requires WellFormed(b) && OwnedWalk(b, p, target, w) && |w| > 1
    ensures OwnedWalk(b, p, target, w[1..])
  {
    var w' := w[1..];
    forall i | 0 <= i < |w'| - 1
      ensures w'[i] < Size(b) && b.terrain[w'[i]] == p && w'[i + 1] in Adj(b, w'[i])
    {
      assert w'[i] == w[i + 1] && w'[i + 1] == w[i + 2];
    }
  }

  /** The first hop of a walk: its second tile's label, plus one, reaches the first tile. */
  lemma WalkStep(b: Board, p: int, target: nat, before: seq<Dist>, after: seq<Dist>, w: seq<nat>)
    requires WellFormed(b) && |before| == Size(b) && |after| == Size(b)
    requires OwnedWalk(b, p, target, w) && |w| > 1
    requires Le(before[w[1]], Fin(|w| - 2)) && Propagated(b, p, before, after, Size(b))
    ensures Le(after[w[0]], Fin(|w| - 1))
  {
    var n, t := w[1], w[0];
    assert t < Size(b) && b.terrain[t] == p && n in Adj(b, t);
    assert n < Size(b);
    AdjacentSymmetric(t, n, b.width, b.height);
    assert t in Adj(b, n);
    assert Le(after[t], Fin(before[n].d + 1));
  }

  /** One relaxation round extends the reach of the labels by one hop. */
  lemma RoundReaches(b: Board, p: int, target: nat, before: seq<Dist>, after: seq<Dist>, r: nat)
    requires WellFormed(b) && target < Size(b) && |before| == Size(b) && |after| == Size(b)
    requires after[target] == Fin(0)
    requires Reached(b, p, target, before, r) && Propagated(b, p, before, after, Size(b))
    ensures Reached(b, p, target, after, r + 1)
  {
    forall w | OwnedWalk(b, p, target, w) && |w| <= r + 2
      ensures Le(after[w[0]], Fin(|w| - 1))
    {
      if |w| > 1 {
        WalkTail(b, p, target, w);
        assert Le(before[w[1..][0]], Fin(|w[1..]| - 1));
        WalkStep(b, p, target, before, after, w);
      }
    }
  }

  // ----- Relaxation -----

  /** Lowering labels during a round keeps what the tiles before `upTo` have propagated, and tile `upTo` adds its own. */
  lemma PropagatedExtend(b: Board, p: int, before: seq<Dist>, mid: seq<Dist>, after: seq<Dist>, tile: nat)
    requires WellFormed(b) && |before| == Size(b) && tile < Size(b)
    requires Decreased(before, mid) && Decreased(mid, after)
    requires Propagated(b, p, before, mid, tile)
    requires mid[tile].Fin? ==> forall t :: t in Adj(b, tile) && b.terrain[t] == p ==> Le(after[t], Fin(mid[tile].d + 1))
    ensures Propagated(b, p, before, after, tile + 1)
  {
    PropagatedMono(b, p, before, mid, after, tile);
  }

  /** The labels once each owned tile of `adj` took the offer `v` wherever it was lower. */
  ghost function Offered(b: Board, p: int, adj: seq<nat>, labels: seq<Dist>, v: Dist): (r: seq<Dist>)
    requires WellFormed(b) && |labels| == Size(b)
    ensures |r| == |labels|
  {
    seq(|labels|, t requires 0 <= t < |labels| =>
      if t in adj && b.terrain[t] == p && Lt(v, labels[t]) then v else labels[t])
  }

  /** The inner loop of state.js:86-92: tile `tile` offers its label plus one to its owned neighbours. */
  method Offer(b: Board, p: int, arr: array<Dist>, tile: nat)
    requires WellFormed(b) && arr.Length == Size(b) && tile < arr.Length && arr[tile].Fin?
    modifies arr
    ensures arr[..] == Offered(b, p, Adj(b, tile), old(arr[..]), Fin(old(arr[tile]).d + 1))
  {
    ghost var start := arr[..];
    var value := arr[tile].d + 1;
    var adjacents := AdjacentTiles(tile, b.width, b.height);
    AdjacentDistinct(tile, b.width, b.height);
    var j := 0;
    while j < |adjacents|
      invariant 0 <= j <= |adjacents|
      invariant arr[..] == Offered(b, p, adjacents[..j], start, Fin(value))
    {
      var adjacent := adjacents[j];
      ghost var mid := arr[..];
      if b.terrain[adjacent] == p && Lt(Fin(value), arr[adjacent]) {
        arr[adjacent] := Fin(value);
      }
      OfferedStep(b, p, adjacents, j, start, mid, arr[..], Fin(value));
      j := j + 1;
    }
    assert adjacents[..j] == adjacents;
  }

  /**
   * An offer keeps the labelling: a lowered tile is owned, and the offering
   * tile supports it; a tile left alone keeps a lower neighbour, since no
   * label rises.
   */
  lemma OfferedLabelling(b: Board, p: int, target: nat, labels: seq<Dist>, tile: nat)
    requires Labelling(b, p, target, labels) && tile < Size(b) && labels[tile].Fin?
    ensures Labelling(b, p, target, Offered(b, p, Adj(b, tile), labels, Fin(labels[tile].d + 1)))
  {
    var v := Fin(labels[tile].d + 1);
    var after := Offered(b, p, Adj(b, tile), labels, v);
    AdjacentIrreflexive(tile, b.width, b.height);
    OfferedBounds(b, p, Adj(b, tile), labels, v);
    assert after[tile] == labels[tile];
    forall t | 0 <= t < |after| && t != target && after[t].Fin?
      ensures after[t].d > 0 && exists k :: 0 <= k < |Adj(b, t)| && Lt(after[Adj(b, t)[k]], after[t])
    {
      if after[t] != labels[t] {
        AdjacentSymmetric(tile, t, b.width, b.height);
        var k :| 0 <= k < |Adj(b, t)| && Adj(b, t)[k] == tile;
        assert Lt(after[Adj(b, t)[k]], after[t]);
      } else {
        var k :| 0 <= k < |Adj(b, t)| && Lt(labels[Adj(b, t)[k]], labels[t]);
        LeLt(after[Adj(b, t)[k]], labels[Adj(b, t)[k]], after[t]);
      }
    }
  }

  lemma LeLt(x: Dist, y: Dist, z: Dist)
    requires Le(x, y) && Lt(y, z)
    ensures Lt(x, z)
  {
  }

  /** Taking the offer at `adj[j]`, a tile not offered to before, extends `Offered` by that tile. */
  lemma OfferedStep(b: Board, p: int, adj: seq<nat>, j: nat, start: seq<Dist>, mid: seq<Dist>, after: seq<Dist>, v: Dist)
    requires WellFormed(b) && |start| == Size(b) && j < |adj| && adj[j] < Size(b)
    requires forall i, k :: 0 <= i < k < |adj| ==> adj[i] != adj[k]
    requires mid == Offered(b, p, adj[..j], start, v)
    requires after == if b.terrain[adj[j]] == p && Lt(v, mid[adj[j]]) then mid[adj[j] := v] else mid
    ensures after == Offered(b, p, adj[..j + 1], start, v)
  {
    assert adj[..j + 1] == adj[..j] + [adj[j]];
    assert adj[j] !in adj[..j];
  }

  /** An offer only lowers labels, and leaves every owned tile of `adj` at most `v`. */
  lemma OfferedBounds(b: Board, p: int, adj: seq<nat>, labels: seq<Dist>, v: Dist)
    requires WellFormed(b) && |labels| == Size(b)
    requires forall k :: 0 <= k < |adj| ==> adj[k] < Size(b)
    ensures Decreased(labels, Offered(b, p, adj, labels, v))
    ensures forall t :: t in adj && b.terrain[t] == p ==> Le(Offered(b, p, adj, labels, v)[t], v)
  {
  }

  /** Tile `tile`'s turn in a round: with a label, it offers that label plus one to its neighbours. */
  ghost function Visit(b: Board, p: int, labels: seq<Dist>, tile: nat): (r: seq<Dist>)
    requires WellFormed(b) && |labels| == Size(b) && tile < Size(b)
    ensures |r| == |labels|
  {
    if labels[tile].Fin? then Offered(b, p, Adj(b, tile), labels, Fin(labels[tile].d + 1)) else labels
  }

  /** The labels once tiles `0..k-1`, in index order, each had their turn. */
  ghost function Sweep(b: Board, p: int, labels: seq<Dist>, k: nat): (r: seq<Dist>)
    requires WellFormed(b) && |labels| == Size(b) && k <= Size(b)
    ensures |r| == |labels|
  {
    if k == 0 then labels else Visit(b, p, Sweep(b, p, labels, k - 1), k - 1)
  }

  lemma SweepStep(b: Board, p: int, labels: seq<Dist>, k: nat, mid: seq<Dist>, after: seq<Dist>)
    requires WellFormed(b) && |labels| == Size(b) && k < Size(b) && mid == Sweep(b, p, labels, k)
    requires after == Visit(b, p, mid, k)
    ensures after == Sweep(b, p, labels, k + 1)
  {
  }

  /** The labels after one round over the whole board. */
  ghost function Round(b: Board, p: int, labels: seq<Dist>): (r: seq<Dist>)
    requires WellFormed(b) && |labels| == Size(b)
    ensures |r| == |labels|
  {
    Sweep(b, p, labels, Size(b))
  }

  /** Rounds from round `i` on: stop once the source has a label, or when round 255 has run. */
  ghost function Rounds(b: Board, p: int, source: nat, labels: seq<Dist>, i: nat): (r: seq<Dist>)
    requires WellFormed(b) && |labels| == Size(b) && source < Size(b)
    ensures |r| == |labels|
    decreases 256 - i
  {
    if i >= 256 then labels
    else
      var l := Round(b, p, labels);
      if l[source].Fin? then l else Rounds(b, p, source, l, i + 1)
  }

  /** The labels state.js:81-99 computes for a route from `source` to `target`. */
  ghost function Relaxation(b: Board, p: int, source: nat, target: nat): (r: seq<Dist>)
    requires WellFormed(b) && source < Size(b) && target < Size(b)
    ensures |r| == Size(b)
  {
    Rounds(b, p, source, Initial(Size(b), target), 0)
  }

  /** A tile's turn keeps the labelling. */
  lemma VisitLabelling(b: Board, p: int, target: nat, labels: seq<Dist>, tile: nat)
    requires Labelling(b, p, target, labels) && tile < Size(b)
    ensures Labelling(b, p, target, Visit(b, p, labels, tile))
  {
    if labels[tile].Fin? {
      OfferedLabelling(b, p, target, labels, tile);
    }
  }

  /** A tile's turn only lowers labels, and leaves its owned neighbours at most its label plus one. */
  lemma VisitBounds(b: Board, p: int, labels: seq<Dist>, tile: nat)
    requires WellFormed(b) && |labels| == Size(b) && tile < Size(b)
    ensures Decreased(labels, Visit(b, p, labels, tile))
    ensures labels[tile].Fin? ==> forall t :: t in Adj(b, tile) && b.terrain[t] == p ==>
      Le(Visit(b, p, labels, tile)[t], Fin(labels[tile].d + 1))
  {
    if labels[tile].Fin? {
      OfferedBounds(b, p, Adj(b, tile), labels, Fin(labels[tile].d + 1));
    }
  }

  /** A tile's turn keeps what the tiles before it propagated, and adds its own. */
  lemma VisitPropagated(b: Board, p: int, before: seq<Dist>, mid: seq<Dist>, tile: nat)
    requires WellFormed(b) && |before| == Size(b) && |mid| == Size(b) && tile < Size(b)
    requires Decreased(before, mid) && Propagated(b, p, before, mid, tile)
    ensures Propagated(b, p, before, Visit(b, p, mid, tile), tile + 1)
  {
    VisitBounds(b, p, mid, tile);
    PropagatedExtend(b, p, before, mid, Visit(b, p, mid, tile), tile);
  }

  /** The turns of tiles `0..k-1` keep the labelling. */
  lemma {:induction false} SweepLabelling(b: Board, p: int, target: nat, labels: seq<Dist>, k: nat)
    requires Labelling(b, p, target, labels) && k <= Size(b)
    ensures Labelling(b, p, target, Sweep(b, p, labels, k))
  {
    if k > 0 {
      SweepLabelling(b, p, target, labels, k - 1);
      VisitLabelling(b, p, target, Sweep(b, p, labels, k - 1), k - 1);
    }
  }

  /** The turns of tiles `0..k-1` only lower labels. */
  lemma {:induction false} SweepDecreased(b: Board, p: int, labels: seq<Dist>, k: nat)
    requires WellFormed(b) && |labels| == Size(b) && k <= Size(b)
    ensures Decreased(labels, Sweep(b, p, labels, k))
  {
    if k > 0 {
      SweepDecreased(b, p, labels, k - 1);
      VisitBounds(b, p, Sweep(b, p, labels, k - 1), k - 1);
      DecreasedTrans(labels, Sweep(b, p, labels, k - 1), Sweep(b, p, labels, k));
    }
  }

  /** After the turns of tiles `0..k-1`, each of them left its owned neighbours at most its old label plus one. */
  lemma {:induction false} SweepPropagated(b: Board, p: int, labels: seq<Dist>, k: nat)
    requires WellFormed(b) && |labels| == Size(b) && k <= Size(b)
    ensures Propagated(b, p, labels, Sweep(b, p, labels, k), k)
  {
    if k > 0 {
      SweepPropagated(b, p, labels, k - 1);
      SweepDecreased(b, p, labels, k - 1);
      VisitPropagated(b, p, labels, Sweep(b, p, labels, k - 1), k - 1);
    }
  }

  /** One round of state.js:85-94: every labelled tile, in index order, offers its label plus one to its owned neighbours. */
  method RelaxRound(b: Board, p: int, target: nat, arr: array<Dist>)
    requires Labelling(b, p, target, arr[..])
    modifies arr
    ensures Labelling(b, p, target, arr[..])
    ensures Decreased(old(arr[..]), arr[..])
    ensures Propagated(b, p, old(arr[..]), arr[..], arr.Length)
    ensures arr[..] == Round(b, p, old(arr[..]))
  {
    ghost var before := arr[..];
    var tile := 0;
    while tile < arr.Length
      invariant 0 <= tile <= arr.Length
      invariant arr[..] == Sweep(b, p, before, tile)
    {
      ghost var mid := arr[..];
      if arr[tile] != Inf {
        Offer(b, p, arr, tile);
      }
      SweepStep(b, p, before, tile, mid, arr[..]);
      tile := tile + 1;
    }
    SweepLabelling(b, p, target, before, tile);
    SweepDecreased(b, p, before, tile);
    SweepPropagated(b, p, before, tile);
  }

  /** No round of `history` raised a label. */
  ghost predicate Monotone(history: seq<seq<Dist>>)
  {
    forall r :: 0 <= r < |history| - 1 ==> Decreased(history[r], history[r + 1])
  }

  /** After every round but the last, the source still had no label. */
  ghost predicate Pending(history: seq<seq<Dist>>, source: nat)
  {
    forall r :: 0 < r < |history| - 1 ==> source < |history[r]| && history[r][source].Inf?
  }

  lemma HistoryExtend(history: seq<seq<Dist>>, next: seq<Dist>, source: nat)
    requires |history| >= 1 && Monotone(history) && Pending(history, source)
    requires Decreased(history[|history| - 1], next)
    requires |history| > 1 ==> source < |history[|history| - 1]| && history[|history| - 1][source].Inf?
    ensures Monotone(history + [next]) && Pending(history + [next], source)
  {
    var h := history + [next];
    forall r | 0 <= r < |h| - 1 ensures Decreased(h[r], h[r + 1]) {
      if r < |history| - 1 {
        assert h[r] == history[r] && h[r + 1] == history[r + 1];
      }
    }
  }

  /**
   * state.js:81-99: start from `Initial`, run rounds until the source has a
   * finite label or 256 rounds have run. `history[r]` is the labelling after
   * round `r` (`history[0]` before the first).
   */
  method Relax(b: Board, p: int, source: nat, target: nat) returns (arr: array<Dist>, ghost history: seq<seq<Dist>>)
    requires WellFormed(b) && source < Size(b) && target < Size(b)
    ensures fresh(arr) && Labelling(b, p, target, arr[..])
    ensures 2 <= |history| <= 257 && history[0] == Initial(Size(b), target) && history[|history| - 1] == arr[..]
    ensures Monotone(history) && Pending(history, source)
    ensures arr[source].Fin? || |history| == 257
    ensures Reached(b, p, target, arr[..], |history| - 1)
    ensures arr[..] == Relaxation(b, p, source, target)
  {
    arr := new Dist[Size(b)](_ => Inf);
    arr[target] := Fin(0);
    assert arr[..] == Initial(Size(b), target);
    InitialLabelling(b, p, target);
    history := [arr[..]];
    var i := 0;
    while i < 256
      invariant 0 <= i <= 256 && |history| == i + 1
      invariant Labelling(b, p, target, arr[..])
      invariant history[0] == Initial(Size(b), target) && history[i] == arr[..]
      invariant Monotone(history) && Pending(history, source)
      invariant i > 0 ==> arr[source].Inf?
      invariant Reached(b, p, target, arr[..], i)
      invariant Rounds(b, p, source, arr[..], i) == Relaxation(b, p, source, target)
    {
      ghost var before := arr[..];
      RelaxRound(b, p, target, arr);
      RoundReaches(b, p, target, before, arr[..], i);
      HistoryExtend(history, arr[..], source);
      history := history + [arr[..]];
      if arr[source] != Inf {
        return;
      }
      i := i + 1;
    }
  }

  // ----- Greedy descent -----

  /** state.js:105's `reduce`: the first tile of `adj` whose label is strictly below all before it, starting from `acc`. */
  function BestFrom(labels: seq<Dist>, adj: seq<nat>, acc: int, accLabel: Dist): (r: int)
    requires forall k :: 0 <= k < |adj| ==> adj[k] < |labels|
    ensures r == acc || r in adj
    decreases |adj|
  {
    if adj == [] then acc
    else if Lt(labels[adj[0]], accLabel) then BestFrom(labels, adj[1..], adj[0], labels[adj[0]])
    else BestFrom(labels, adj[1..], acc, accLabel)
  }

  /** The neighbour with the strictly smallest label, or -1 when every label is infinite. */
  function Best(labels: seq<Dist>, adj: seq<nat>): (r: int)
    requires forall k :: 0 <= k < |adj| ==> adj[k] < |labels|
    ensures r == -1 || r in adj
  {
    BestFrom(labels, adj, -1, Inf)
  }

  /** `adj[j]` has the smallest label of `adj`, below `bound`, and strictly below every label before it. */
  ghost predicate FirstMin(labels: seq<Dist>, adj: seq<nat>, j: int, bound: Dist)
    requires forall k :: 0 <= k < |adj| ==> adj[k] < |labels|
  {
    0 <= j < |adj| && Lt(labels[adj[j]], bound)
    && (forall k :: 0 <= k < |adj| ==> Le(labels[adj[j]], labels[adj[k]]))
    && (forall k :: 0 <= k < j ==> Lt(labels[adj[j]], labels[adj[k]]))
  }

  lemma ShiftFirstMin(labels: seq<Dist>, adj: seq<nat>, j: int, bound: Dist, bound': Dist)
    requires forall k :: 0 <= k < |adj| ==> adj[k] < |labels|
    requires |adj| > 0 && FirstMin(labels, adj[1..], j, bound)
    requires Lt(labels[adj[j + 1]], labels[adj[0]]) && Lt(labels[adj[j + 1]], bound')
    ensures FirstMin(labels, adj, j + 1, bound')
  {
    var tail := adj[1..];
    assert adj[j + 1] == tail[j];
    forall k | 0 < k < |adj|
      ensures Le(labels[adj[j + 1]], labels[adj[k]])
      ensures k < j + 1 ==> Lt(labels[adj[j + 1]], labels[adj[k]])
    {
      assert adj[k] == tail[k - 1];
    }
  }

  lemma {:induction false} BestFromSpec(labels: seq<Dist>, adj: seq<nat>, acc: int, accLabel: Dist)
    requires forall k :: 0 <= k < |adj| ==> adj[k] < |labels|
    ensures (forall k :: 0 <= k < |adj| ==> Le(accLabel, labels[adj[k]])) ==> BestFrom(labels, adj, acc, accLabel) == acc
    ensures (exists k :: 0 <= k < |adj| && Lt(labels[adj[k]], accLabel)) ==>
      exists j :: FirstMin(labels, adj, j, accLabel) && adj[j] == BestFrom(labels, adj, acc, accLabel)
    decreases |adj|, 1
  {
    if adj != [] {
      if Lt(labels[adj[0]], accLabel) {
        BestFromTake(labels, adj, acc, accLabel);
      } else {
        BestFromKeep(labels, adj, acc, accLabel);
      }
    }
  }

  /** The first neighbour beats the running best: it becomes the best so far. */
  lemma {:induction false} BestFromTake(labels: seq<Dist>, adj: seq<nat>, acc: int, accLabel: Dist)
    requires forall k :: 0 <= k < |adj| ==> adj[k] < |labels|
    requires adj != [] && Lt(labels[adj[0]], accLabel)
    ensures exists j :: FirstMin(labels, adj, j, accLabel) && adj[j] == BestFrom(labels, adj, acc, accLabel)
    decreases |adj|, 0
  {
    var tail := adj[1..];
    var l0 := labels[adj[0]];
    BestFromSpec(labels, tail, adj[0], l0);
    var r := BestFrom(labels, tail, adj[0], l0);
    if exists k :: 0 <= k < |tail| && Lt(labels[tail[k]], l0) {
      var j :| FirstMin(labels, tail, j, l0) && tail[j] == r;
      ShiftFirstMin(labels, adj, j, l0, accLabel);
    } else {
      assert forall k :: 0 < k < |adj| ==> adj[k] == tail[k - 1];
      assert FirstMin(labels, adj, 0, accLabel);
    }
  }

  /** The first neighbour does not beat the running best: the scan goes on with it. */
  lemma {:induction false} BestFromKeep(labels: seq<Dist>, adj: seq<nat>, acc: int, accLabel: Dist)
    requires forall k :: 0 <= k < |adj| ==> adj[k] < |labels|
    requires adj != [] && !Lt(labels[adj[0]], accLabel)
    ensures (forall k :: 0 <= k < |adj| ==> Le(accLabel, labels[adj[k]])) ==> BestFrom(labels, adj, acc, accLabel) == acc
    ensures (exists k :: 0 <= k < |adj| && Lt(labels[adj[k]], accLabel)) ==>
      exists j :: FirstMin(labels, adj, j, accLabel) && adj[j] == BestFrom(labels, adj, acc, accLabel)
    decreases |adj|, 0
  {
    var tail := adj[1..];
    assert forall k :: 0 < k < |adj| ==> adj[k] == tail[k - 1];
    BestFromSpec(labels, tail, acc, accLabel);
    if exists k :: 0 <= k < |adj| && Lt(labels[adj[k]], accLabel) {
      var k0 :| 0 <= k0 < |adj| && Lt(labels[adj[k0]], accLabel);
      assert k0 > 0 && tail[k0 - 1] == adj[k0];
      var r := BestFrom(labels, tail, acc, accLabel);
      var j :| FirstMin(labels, tail, j, accLabel) && tail[j] == r;
      ShiftFirstMin(labels, adj, j, accLabel, accLabel);
    }
  }

  /**
   * `Best` is -1 exactly when no neighbour is labelled; otherwise it is the
   * neighbour with the smallest label, the first in adjacency order on ties.
   */
  lemma BestSpec(labels: seq<Dist>, adj: seq<nat>)
    requires forall k :: 0 <= k < |adj| ==> adj[k] < |labels|
    ensures Best(labels, adj) == -1 <==> forall k :: 0 <= k < |adj| ==> labels[adj[k]].Inf?
    ensures Best(labels, adj) != -1 ==> exists j :: FirstMin(labels, adj, j, Inf) && adj[j] == Best(labels, adj)
  {
    BestFromSpec(labels, adj, -1, Inf);
  }

  /** What `BestSpec` gives the descent: a neighbour, no larger than any other neighbour's label. */
  lemma BestIsNeighbour(b: Board, labels: seq<Dist>, t: nat) returns (j: nat)
    requires |labels| == Size(b) && t < Size(b)
    requires Best(labels, Adj(b, t)) != -1
    ensures j < |Adj(b, t)| && Adj(b, t)[j] == Best(labels, Adj(b, t))
    ensures labels[Adj(b, t)[j]].Fin?
    ensures forall k :: 0 <= k < |Adj(b, t)| ==> Le(labels[Adj(b, t)[j]], labels[Adj(b, t)[k]])
  {
    BestSpec(labels, Adj(b, t));
    j :| FirstMin(labels, Adj(b, t), j, Inf) && Adj(b, t)[j] == Best(labels, Adj(b, t));
  }

  /** Each step of `path` is the greedy choice `Best` of the step before. */
  ghost predicate Greedy(b: Board, labels: seq<Dist>, path: seq<nat>)
    requires |labels| == Size(b)
  {
    forall k :: 0 <= k < |path| - 1 ==> path[k] < Size(b) && path[k + 1] == Best(labels, Adj(b, path[k]))
  }

  /**
   * A descent so far: a greedy walk from the source whose labels strictly
   * fall once finite, finite after the first tile, not passing the target.
   */
  ghost predicate Descent(b: Board, labels: seq<Dist>, source: nat, target: nat, q: seq<nat>)
    requires |labels| == Size(b)
  {
    |q| >= 1 && q[0] == source && IsWalk(b.width, b.height, q) && Greedy(b, labels, q)
    && Falling(labels, q) && (forall k :: 0 <= k < |q| - 1 ==> q[k] != target)
    && (labels[source].Fin? ==> labels[q[|q| - 1]].Fin? && labels[q[|q| - 1]].d + |q| - 1 <= labels[source].d)
  }

  /** Labels along `q` are finite after the first tile and strictly fall wherever they are finite. */
  ghost predicate Falling(labels: seq<Dist>, q: seq<nat>)
    requires forall k :: 0 <= k < |q| ==> q[k] < |labels|
  {
    (forall k :: 0 <= k < |q| - 1 && labels[q[k]].Fin? ==> Lt(labels[q[k + 1]], labels[q[k]]))
    && (forall k :: 0 < k < |q| ==> labels[q[k]].Fin?)
  }

  lemma FallingAppend(labels: seq<Dist>, q: seq<nat>, n: nat)
    requires |q| >= 1 && (forall k :: 0 <= k < |q| ==> q[k] < |labels|) && n < |labels|
    requires Falling(labels, q) && labels[n].Fin? && (labels[q[|q| - 1]].Fin? ==> Lt(labels[n], labels[q[|q| - 1]]))
    ensures Falling(labels, q + [n])
  {
    var q' := q + [n];
    forall k | 0 <= k < |q'| - 1 && labels[q'[k]].Fin? ensures Lt(labels[q'[k + 1]], labels[q'[k]]) {
      if k < |q| - 1 { assert q'[k] == q[k] && q'[k + 1] == q[k + 1]; }
    }
    forall k | 0 < k < |q'| ensures labels[q'[k]].Fin? {
      if k < |q| { assert q'[k] == q[k]; }
    }
  }

  /** A labelled tile other than the target always has a labelled neighbour. */
  lemma LabelledHasBest(b: Board, p: int, labels: seq<Dist>, target: nat, t: nat)
    requires Labelling(b, p, target, labels) && t < Size(b) && t != target && labels[t].Fin?
    ensures Best(labels, Adj(b, t)) != -1
    ensures var n := Best(labels, Adj(b, t)); 0 <= n < |labels| && Lt(labels[n], labels[t])
  {
    var k :| 0 <= k < |Adj(b, t)| && Lt(labels[Adj(b, t)[k]], labels[t]);
    assert Lt(labels[Adj(b, t)[k]], labels[t]);
    BestSpec(labels, Adj(b, t));
    var j := BestIsNeighbour(b, labels, t);
  }

  lemma WalkAppend(b: Board, q: seq<nat>, n: nat)
    requires |q| >= 1 && IsWalk(b.width, b.height, q) && n < Size(b) && n in Adj(b, q[|q| - 1])
    ensures IsWalk(b.width, b.height, q + [n])
  {
    var q' := q + [n];
    forall k | 0 <= k < |q'| - 1 ensures q'[k + 1] in AdjacentTiles(q'[k], b.width, b.height) {
      if k < |q| - 1 { assert q'[k] == q[k] && q'[k + 1] == q[k + 1]; }
    }
  }

  lemma GreedyAppend(b: Board, labels: seq<Dist>, q: seq<nat>, n: nat)
    requires |labels| == Size(b) && |q| >= 1 && Greedy(b, labels, q) && q[|q| - 1] < Size(b)
    requires n == Best(labels, Adj(b, q[|q| - 1]))
    ensures Greedy(b, labels, q + [n])
  {
    var q' := q + [n];
    forall k | 0 <= k < |q'| - 1 ensures q'[k] < Size(b) && q'[k + 1] == Best(labels, Adj(b, q'[k])) {
      if k < |q| - 1 { assert q'[k] == q[k] && q'[k + 1] == q[k + 1]; }
    }
  }

  /** Appending a labelled neighbour chosen by `Best`, lower than the last tile when that is labelled, extends a descent. */
  lemma DescentAppend(b: Board, labels: seq<Dist>, source: nat, target: nat, q: seq<nat>, n: nat)
    requires |labels| == Size(b) && Descent(b, labels, source, target, q) && q[|q| - 1] != target
    requires n < Size(b) && n in Adj(b, q[|q| - 1]) && n == Best(labels, Adj(b, q[|q| - 1]))
    requires labels[n].Fin? && (labels[q[|q| - 1]].Fin? ==> Lt(labels[n], labels[q[|q| - 1]]))
    ensures Descent(b, labels, source, target, q + [n])
  {
    var q' := q + [n];
    var last := |q| - 1;
    assert forall k :: 0 <= k < |q| ==> q'[k] == q[k];
    WalkAppend(b, q, n);
    GreedyAppend(b, labels, q, n);
    FallingAppend(labels, q, n);
  }

  lemma DescentStep(b: Board, p: int, labels: seq<Dist>, source: nat, target: nat, q: seq<nat>, n: nat)
    requires Labelling(b, p, target, labels) && Descent(b, labels, source, target, q)
    requires q[|q| - 1] != target && n == Best(labels, Adj(b, q[|q| - 1]))
    ensures n < Size(b) && Descent(b, labels, source, target, q + [n])
    ensures labels[n].Fin? && (labels[q[|q| - 1]].Fin? ==> Lt(labels[n], labels[q[|q| - 1]]))
  {
    var t := q[|q| - 1];
    var j := BestIsNeighbour(b, labels, t);
    if labels[t].Fin? {
      LabelledHasBest(b, p, labels, target, t);
    }
    DescentAppend(b, labels, source, target, q, n);
  }

  /** The descent can only get stuck on its first tile, an unlabelled source. */
  lemma DescentStuck(b: Board, p: int, labels: seq<Dist>, source: nat, target: nat, q: seq<nat>)
    requires Labelling(b, p, target, labels) && Descent(b, labels, source, target, q)
    requires q[|q| - 1] != target && Best(labels, Adj(b, q[|q| - 1])) == -1
    ensures q == [source] && source != target
  {
    var t := q[|q| - 1];
    if labels[t].Fin? {
      LabelledHasBest(b, p, labels, target, t);
    }
  }

  /**
   * state.js:101-111: from the source, step to the neighbour with the
   * smallest label until the target is reached. `complete` is false when a
   * tile has no labelled neighbour (the "impossible path" return).
   */
  method Descend(b: Board, p: int, labels: seq<Dist>, source: nat, target: nat) returns (path: seq<nat>, complete: bool)
    requires Labelling(b, p, target, labels) && source < Size(b)
    ensures Descent(b, labels, source, target, path)
    ensures complete ==> path[|path| - 1] == target
    ensures !complete <==> source != target && Best(labels, Adj(b, source)) == -1
    ensures !complete ==> path == [source]
    ensures complete && labels[source].Fin? ==> |path| - 1 <= labels[source].d
  {
    path := [];
    var tile: nat := source;
    while tile != target
      invariant tile < Size(b) && Descent(b, labels, source, target, path + [tile])
      decreases labels[tile].Inf?, if labels[tile].Fin? then labels[tile].d else 0
    {
      path := path + [tile];
      var list := AdjacentTiles(tile, b.width, b.height);
      var next := Best(labels, list);
      if next == -1 {
        DescentStuck(b, p, labels, source, target, path);
        complete := false;
        return;
      }
      DescentStep(b, p, labels, source, target, path, next);
      tile := next;
    }
    path := path + [target];
    complete := true;
    if source != target {
      assert path[1] == Best(labels, Adj(b, path[0]));
    }
  }

  // ----- Consuming the cached path -----

  /** What one call hands out from a cached path: its first edge, when it has one. */
  function NextEdge(path: seq<nat>): Option<Edge>
  {
    if |path| <= 1 then None else Some((path[0], path[1]))
  }

  /** The cached path after one call: the first tile dropped (state.js:121's `shift`). */
  function Advance(path: seq<nat>): seq<nat>
  {
    if |path| <= 1 then path else path[1..]
  }

  /** The results of `k` successive calls on a cached path. */
  function Drain(path: seq<nat>, k: nat): seq<Option<Edge>>
  {
    if k == 0 then [] else [NextEdge(path)] + Drain(Advance(path), k - 1)
  }

  /** Call `j` on a cached path of `n` tiles returns its `j`-th edge while `j < n - 1`, then nothing. */
  lemma {:induction false} DrainEdges(path: seq<nat>, k: nat, j: nat)
    requires |path| >= 1 && j < k
    ensures |Drain(path, k)| == k
    ensures Drain(path, k)[j] == if j < |path| - 1 then Some((path[j], path[j + 1])) else None
    decreases k
  {
    if j > 0 {
      DrainEdges(Advance(path), k - 1, j - 1);
      if 1 < |path| && j < |path| - 1 {
        assert Advance(path)[j - 1] == path[j] && Advance(path)[j] == path[j + 1];
      }
    } else if k > 1 {
      DrainEdges(Advance(path), k - 1, 0);
    }
  }

  function CountMoves(rs: seq<Option<Edge>>): nat
  {
    if rs == [] then 0 else (if rs[0].Some? then 1 else 0) + CountMoves(rs[1..])
  }

  /** A cached path of `n` tiles yields exactly `n - 1` moves, however many calls are made after that. */
  lemma {:induction false} DrainCount(path: seq<nat>, k: nat)
    requires |path| >= 1 && k >= |path| - 1
    ensures CountMoves(Drain(path, k)) == |path| - 1
    decreases k
  {
    if k > 0 {
      DrainCount(Advance(path), k - 1);
      assert Drain(path, k)[1..] == Drain(Advance(path), k - 1);
    }
  }

  // ----- The router object -----

  /** What may sit in the cache: a walk that ends at the target, or the lone source of an impossible path. */
  ghost predicate Cacheable(w: nat, h: nat, source: nat, target: nat, path: seq<nat>)
  {
    |path| >= 1 && IsWalk(w, h, path) && (path[|path| - 1] == target || path == [source])
  }

  /**
   * The greedy descent over `Relaxation`'s labels, run to its end: it stops
   * at the target, or on the source when no neighbour of it has a label.
   */
  ghost predicate Descends(b: Board, p: int, source: nat, target: nat, route: seq<nat>)
    requires WellFormed(b) && source < Size(b) && target < Size(b)
  {
    var labels := Relaxation(b, p, source, target);
    Descent(b, labels, source, target, route)
    && (route[|route| - 1] == target || Best(labels, Adj(b, source)) == -1)
  }

  /**
   * A freshly computed route: the descent of `Descends`, which runs from the
   * source along owned tiles to the target, or is just the source when it
   * has no labelled neighbour. It is complete whenever an owned walk of at
   * most 256 hops joins the two.
   */
  ghost predicate Route(b: Board, p: int, source: nat, target: nat, route: seq<nat>)
    requires WellFormed(b)
  {
    Cacheable(b.width, b.height, source, target, route) && route[0] == source
    && target < Size(b) && Descends(b, p, source, target, route)
    && (route[|route| - 1] == target ==> forall k :: 0 < k < |route| - 1 ==> b.terrain[route[k]] == p)
    && ((exists w :: OwnedWalk(b, p, target, w) && w[0] == source && |w| <= 257) ==> route[|route| - 1] == target)
  }

  /** At most one sequence is a `Route`: the labels and the tie-break of `Best` fix every step. */
  lemma RouteUnique(b: Board, p: int, source: nat, target: nat, r1: seq<nat>, r2: seq<nat>)
    requires WellFormed(b) && Route(b, p, source, target, r1) && Route(b, p, source, target, r2)
    ensures r1 == r2
  {
    DescentUnique(b, Relaxation(b, p, source, target), source, target, r1, r2);
  }

  /** Two greedy descents over the same labels, each run to its end, are the same walk. */
  lemma DescentUnique(b: Board, labels: seq<Dist>, source: nat, target: nat, r1: seq<nat>, r2: seq<nat>)
    requires |labels| == Size(b)
    requires Descent(b, labels, source, target, r1) && Descent(b, labels, source, target, r2)
    requires r1[|r1| - 1] == target || (r1 == [source] && Best(labels, Adj(b, source)) == -1)
    requires r2[|r2| - 1] == target || (r2 == [source] && Best(labels, Adj(b, source)) == -1)
    ensures r1 == r2
  {
    var k := 0;
    while k < |r1| - 1 && k < |r2| - 1
      invariant 0 <= k < |r1| && k < |r2| && r1[..k + 1] == r2[..k + 1]
    {
      assert r1[k] == r2[k] by { assert r1[..k + 1][k] == r2[..k + 1][k]; }
      assert r1[k + 1] == r2[k + 1];
      assert r1[..k + 2] == r1[..k + 1] + [r1[k + 1]];
      assert r2[..k + 2] == r2[..k + 1] + [r2[k + 1]];
      k := k + 1;
    }
    assert r1[k] == r2[k] by { assert r1[..k + 1][k] == r2[..k + 1][k]; }
    assert r1 == r1[..k + 1] && r2 == r2[..k + 1];
  }

  /** A 2 x 2 board owned entirely by player 0. */
  const SQUARE := Board(2, 2, [0, 0, 0, 0], [0, 0, 0, 0], [], [0])

  /** The neighbours of each tile of `SQUARE`, in the order right, left, up, down. */
  lemma SquareAdj()
    ensures AdjacentTiles(0, 2, 2) == [1, 2] && AdjacentTiles(1, 2, 2) == [0, 3]
    ensures AdjacentTiles(2, 2, 2) == [3, 0] && AdjacentTiles(3, 2, 2) == [2, 1]
  {
    assert 0 / 2 == 0 && 0 % 2 == 0 && 1 / 2 == 0 && 1 % 2 == 1;
    assert 2 / 2 == 1 && 2 % 2 == 0 && 3 / 2 == 1 && 3 % 2 == 1;
  }

  /** The first round towards tile 3 of `SQUARE`: only tile 3 has a label, and it labels tiles 2 and 1. */
  lemma SquareRoundOne()
    ensures Round(SQUARE, 0, Initial(4, 3)) == [Inf, Fin(1), Fin(1), Fin(0)]
  {
    var l0 := Initial(4, 3);
    assert l0 == [Inf, Inf, Inf, Fin(0)];
    assert Sweep(SQUARE, 0, l0, 3) == l0;
    SquareAdj();
    assert Offered(SQUARE, 0, [2, 1], l0, Fin(1)) == [Inf, Fin(1), Fin(1), Fin(0)];
  }

  /** The offers of the second round: tile 1's label 2 reaches the source; the later offers lower nothing. */
  lemma SquareOffers()
    ensures Offered(SQUARE, 0, [0, 3], [Inf, Fin(1), Fin(1), Fin(0)], Fin(2)) == [Fin(2), Fin(1), Fin(1), Fin(0)]
    ensures Offered(SQUARE, 0, [3, 0], [Fin(2), Fin(1), Fin(1), Fin(0)], Fin(2)) == [Fin(2), Fin(1), Fin(1), Fin(0)]
    ensures Offered(SQUARE, 0, [2, 1], [Fin(2), Fin(1), Fin(1), Fin(0)], Fin(1)) == [Fin(2), Fin(1), Fin(1), Fin(0)]
  {
  }

  /** The second round: tile 1 labels the source, tile 0, with 2; tiles 2 and 3 change nothing. */
  lemma SquareRoundTwo()
    ensures Round(SQUARE, 0, [Inf, Fin(1), Fin(1), Fin(0)]) == [Fin(2), Fin(1), Fin(1), Fin(0)]
  {
    var l1 := [Inf, Fin(1), Fin(1), Fin(0)];
    var l2 := [Fin(2), Fin(1), Fin(1), Fin(0)];
    SquareAdj();
    SquareOffers();
    SweepStep(SQUARE, 0, l1, 0, l1, l1);
    SweepStep(SQUARE, 0, l1, 1, l1, l2);
    SweepStep(SQUARE, 0, l1, 2, l2, l2);
    SweepStep(SQUARE, 0, l1, 3, l2, l2);
  }

  /** Relaxing towards tile 3 of `SQUARE` stops after the second round, once the source has its label. */
  lemma SquareRelaxation()
    ensures Relaxation(SQUARE, 0, 0, 3) == [Fin(2), Fin(1), Fin(1), Fin(0)]
  {
    SquareRoundOne();
    SquareRoundTwo();
    assert Rounds(SQUARE, 0, 0, [Inf, Fin(1), Fin(1), Fin(0)], 1) == [Fin(2), Fin(1), Fin(1), Fin(0)];
  }

  /**
   * From tile 0 to tile 3 of `SQUARE`, tiles 1 and 2 tie on label 1 and
   * `Best` keeps the first, tile 1: going down first is not the route.
   */
  lemma SquareTieBreak()
    ensures !Route(SQUARE, 0, 0, 3, [0, 2, 3])
  {
    SquareAdj();
    SquareRelaxation();
    var l2 := Relaxation(SQUARE, 0, 0, 3);
    assert Best(l2, [1, 2]) == 1;
    var wrong: seq<nat> := [0, 2, 3];
    assert !Greedy(SQUARE, l2, wrong) by {
      assert wrong[1] != Best(l2, Adj(SQUARE, wrong[0]));
    }
  }

  /** A route from a tile to itself is that tile alone: the descent never passes its target. */
  lemma SquareStaysPut()
    ensures !Route(SQUARE, 0, 3, 3, [3, 1, 3])
  {
  }

  /**
   * What one `exec` call on a router whose cache was `before` hands out:
   * the first edge of the cached path, or of a freshly computed `Route`.
   */
  ghost predicate Served(b: Board, p: int, source: nat, target: nat, before: Option<seq<nat>>,
                         m: Option<Edge>, route: seq<nat>)
    requires WellFormed(b)
  {
    (before.Some? ==> route == before.value)
    && (before.None? ==> Route(b, p, source, target, route))
    && m == NextEdge(route)
  }

  lemma ReachedAt(b: Board, p: int, target: nat, labels: seq<Dist>, r: nat, w: seq<nat>)
    requires WellFormed(b) && |labels| == Size(b) && Reached(b, p, target, labels, r)
    requires OwnedWalk(b, p, target, w) && |w| <= r + 1
    ensures w[0] < Size(b) && labels[w[0]].Fin?
  {
    assert Le(labels[w[0]], Fin(|w| - 1));
  }

  /** The descent over the labels of `Relax` is a `Route`. */
  lemma RouteOfDescent(b: Board, p: int, labels: seq<Dist>, source: nat, target: nat,
                       path: seq<nat>, complete: bool, rounds: nat)
    requires Labelling(b, p, target, labels) && source < Size(b)
    requires Descent(b, labels, source, target, path)
    requires complete ==> path[|path| - 1] == target
    requires !complete <==> source != target && Best(labels, Adj(b, source)) == -1
    requires !complete ==> path == [source]
    requires Reached(b, p, target, labels, rounds) && (labels[source].Fin? || rounds >= 256)
    requires labels == Relaxation(b, p, source, target)
    ensures Route(b, p, source, target, path)
  {
    if labels[source].Fin? && source != target {
      LabelledHasBest(b, p, labels, target, source);
    }
    if labels[source].Inf? && exists w :: OwnedWalk(b, p, target, w) && w[0] == source && |w| <= 257 {
      var w :| OwnedWalk(b, p, target, w) && w[0] == source && |w| <= 257;
      ReachedAt(b, p, target, labels, rounds, w);
    }
    forall k | 0 < k < |path| - 1 ensures b.terrain[path[k]] == p {
      assert labels[path[k]].Fin? && path[k] != target;
    }
  }

  /** state.js:81-111: the labels of `Relax`, then the descent over them. */
  method FindRoute(b: Board, p: int, source: nat, target: nat) returns (route: seq<nat>)
    requires WellFormed(b) && source < Size(b) && target < Size(b)
    ensures Route(b, p, source, target, route)
  {
    var arr, history := Relax(b, p, source, target);
    var complete;
    route, complete := Descend(b, p, arr[..], source, target);
    RouteOfDescent(b, p, arr[..], source, target, route, complete, |history| - 1);
  }

  class Move {
    const source: nat
    const target: nat
    /** The cached path; `None` is state.js's `null`, not yet computed. */
    var path: Option<seq<nat>>

    ghost predicate Valid(w: nat, h: nat)
      reads this
    {
      source < w * h && target < w * h && (path.Some? ==> Cacheable(w, h, source, target, path.value))
    }

    constructor (source: nat, target: nat)
      ensures this.source == source && this.target == target && path.None?
    {
      this.source := source;
      this.target := target;
      path := None;
    }

    /**
     * state.js:79-123: compute and cache the route on the first call, then
     * hand out one edge of it per call.
     */
    method Exec(b: Board, p: int) returns (m: Option<Edge>, ghost route: seq<nat>)
      requires WellFormed(b) && Valid(b.width, b.height)
      modifies this
      ensures Valid(b.width, b.height)
      ensures Served(b, p, source, target, old(path), m, route) && path == Some(Advance(route))
      ensures m.Some? ==> Legal(b, m.value)
    {
      if path.None? {
        var ps := FindRoute(b, p, source, target);
        path := Some(ps);
        route := ps;
      } else {
        route := path.value;
      }
      var ps := path.value;
      if |ps| <= 1 {
        m := None;
        return;
      }
      m := Some((ps[0], ps[1]));
      path := Some(ps[1..]);
    }
  }
}
