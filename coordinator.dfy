/**
 * The per-session tick coordinator `State` of state.js:10-66: a readiness
 * gate, one conquest discovered per tick, objectives tried in an order that
 * depends on the turn counter, the first move returned, and exhausted
 * conquests dropped.
 */
module Coordinator {
  import opened Wrappers
  import opened Grid
  import opened Tiles
  import opened Router
  import opened Objectives

  // ----- Evaluation order -----

  /** An entry of the objectives list: slot 0, slot 1, or entry `2 + k` of the growing tail. */
  datatype Slot = ExpandSlot | CollectSlot | TailSlot(k: nat)

  /** The tail slots from `k` on whose entries are still present, in index order. */
  function LiveFrom(alive: seq<bool>, k: nat): seq<Slot>
    decreases |alive| - k
  {
    if k >= |alive| then [] else (if alive[k] then [TailSlot(k)] else []) + LiveFrom(alive, k + 1)
  }

  /** state.js:43-50: Collect goes right after Expand in the last 100 turns of every 500, last otherwise. */
  function EvalOrder(counter: int, alive: seq<bool>): seq<Slot>
  {
    if counter % 500 >= 400 then [ExpandSlot, CollectSlot] + LiveFrom(alive, 0)
    else [ExpandSlot] + LiveFrom(alive, 0) + [CollectSlot]
  }

  lemma {:induction false} LiveFromSpec(alive: seq<bool>, k: nat)
    ensures forall s :: s in LiveFrom(alive, k) <==> s.TailSlot? && k <= s.k < |alive| && alive[s.k]
    ensures forall i, j :: 0 <= i < j < |LiveFrom(alive, k)| ==> LiveFrom(alive, k)[i].k < LiveFrom(alive, k)[j].k
    ensures forall i :: 0 <= i < |LiveFrom(alive, k)| ==> LiveFrom(alive, k)[i].TailSlot?
    decreases |alive| - k
  {
    if k < |alive| {
      LiveFromSpec(alive, k + 1);
      var rest := LiveFrom(alive, k + 1);
      var r := LiveFrom(alive, k);
      if alive[k] {
        assert r == [TailSlot(k)] + rest;
        forall i, j | 0 <= i < j < |r| ensures r[i].k < r[j].k {
          if i > 0 { assert r[i] == rest[i - 1]; }
          assert r[j] == rest[j - 1];
        }
      }
    }
  }

  /** Tail slots appear in increasing index order. */
  ghost predicate Ascending(order: seq<Slot>)
  {
    forall i, j :: 0 <= i < j < |order| && order[i].TailSlot? && order[j].TailSlot? ==> order[i].k < order[j].k
  }

  /** No slot appears twice. */
  ghost predicate Distinct(order: seq<Slot>)
  {
    forall i, j :: 0 <= i < j < |order| ==> order[i] != order[j]
  }

  /** The tail slots listed are exactly the present entries. */
  ghost predicate ListsPresent(order: seq<Slot>, alive: seq<bool>)
  {
    forall k: nat :: TailSlot(k) in order <==> k < |alive| && alive[k]
  }

  /** Where the entries of `pre + live + post` come from. */
  lemma FramedAt(pre: seq<Slot>, live: seq<Slot>, post: seq<Slot>, i: int)
    requires 0 <= i < |pre + live + post|
    ensures |pre| <= i < |pre| + |live| ==> (pre + live + post)[i] == live[i - |pre|]
    ensures i < |pre| ==> (pre + live + post)[i] == (pre + post)[i]
    ensures |pre| + |live| <= i ==> (pre + live + post)[i] == (pre + post)[i - |live|]
  {
  }

  /** Framing the live slots with fixed slots keeps them ascending, listed once each and complete. */
  lemma Framed(pre: seq<Slot>, live: seq<Slot>, post: seq<Slot>, alive: seq<bool>)
    requires forall i :: 0 <= i < |live| ==> live[i].TailSlot?
    requires Ascending(live) && ListsPresent(live, alive)
    requires forall s :: s in pre + post ==> !s.TailSlot?
    requires Distinct(pre + post)
    ensures Ascending(pre + live + post) && ListsPresent(pre + live + post, alive) && Distinct(pre + live + post)
  {
    var order := pre + live + post;
    forall k: nat | TailSlot(k) in order ensures TailSlot(k) in live {
      var i :| 0 <= i < |order| && order[i] == TailSlot(k);
      FramedAt(pre, live, post, i);
    }
    forall i, j | 0 <= i < j < |order| ensures order[i] != order[j] {
      FramedAt(pre, live, post, i);
      FramedAt(pre, live, post, j);
    }
    forall i, j | 0 <= i < j < |order| && order[i].TailSlot? && order[j].TailSlot? ensures order[i].k < order[j].k {
      FramedAt(pre, live, post, i);
      FramedAt(pre, live, post, j);
    }
  }

  /**
   * Expand is tried first; Collect second inside the window and last
   * outside it; the other entries are exactly the present tail entries,
   * each once, in increasing index order.
   */
  lemma EvalOrderSpec(counter: int, alive: seq<bool>)
    ensures var order := EvalOrder(counter, alive);
      |order| >= 2 && order[0] == ExpandSlot
      && (counter % 500 >= 400 ==> order[1] == CollectSlot)
      && (counter % 500 < 400 ==> order[|order| - 1] == CollectSlot)
      && (forall i :: 0 < i < |order| && order[i] != CollectSlot ==> order[i].TailSlot?)
      && ListsPresent(order, alive) && Ascending(order) && Distinct(order)
  {
    LiveFromSpec(alive, 0);
    var live := LiveFrom(alive, 0);
    if counter % 500 >= 400 {
      Framed([ExpandSlot, CollectSlot], live, [], alive);
      assert [ExpandSlot, CollectSlot] + live + [] == EvalOrder(counter, alive);
    } else {
      Framed([ExpandSlot], live, [CollectSlot], alive);
    }
  }

  // ----- The coordinator -----

  /** The tick's conquest discovery, state.js:31-41: the first owned source the general could back. */
  function Discovery(b: Board, p: int): Option<Edge>
    requires WellFormed(b) && HasGeneral(b, p)
  {
    ScanFrom(b, p, Conquerable(b.generals[p]), 0)
  }

  /** A router's state as a value: its source, its target and its cached path. */
  datatype Routing = Routing(source: nat, target: nat, path: Option<seq<nat>>)

  /** The routers of the objectives: Collect's (if it has one) and one per tail entry (if present). */
  datatype View = View(collect: Option<Routing>, tail: seq<Option<Routing>>)

  /** The router of `slot` in `v`; Expand has none. */
  function At(v: View, slot: Slot): Option<Routing>
  {
    match slot
    case ExpandSlot => None
    case CollectSlot => v.collect
    case TailSlot(k) => if k < |v.tail| then v.tail[k] else None
  }

  /**
   * What running the objective in `slot`, whose router was `rv`, returns:
   * Expand's scan; for Collect with target `goal`, the next edge of its
   * router, or of a fresh one from the heaviest candidate, or nothing when
   * there is no candidate; for a conquest, nothing once its target is the
   * player's, otherwise the next edge of its router.
   */
  ghost predicate Yields(b: Board, p: int, goal: nat, slot: Slot, rv: Option<Routing>, r: Option<Edge>, route: seq<nat>)
    requires WellFormed(b)
  {
    match slot
    case ExpandSlot => r == Expansion(b, p)
    case CollectSlot =>
      if rv.Some? then Served(b, p, rv.value.source, goal, rv.value.path, r, route)
      else if Heaviest(b, p, goal) == -1 then r.None?
      else Served(b, p, Heaviest(b, p, goal), goal, None, r, route)
    case TailSlot(_) =>
      rv.Some? && rv.value.target < Size(b)
      && (if b.terrain[rv.value.target] == p then r.None?
          else Served(b, p, rv.value.source, rv.value.target, rv.value.path, r, route))
  }

  /**
   * The router `slot` is left with after running from `rv` and returning
   * `r` along `route`: none once it yields nothing (a tail entry is nulled,
   * Collect drops its router), otherwise the same source and target, from
   * the heaviest candidate for a fresh Collect router, with the route
   * advanced by one tile.
   */
  function After(b: Board, p: int, goal: nat, slot: Slot, rv: Option<Routing>, r: Option<Edge>, route: seq<nat>): Option<Routing>
    requires WellFormed(b)
  {
    if slot.ExpandSlot? || r.None? then None
    else if rv.Some? then Some(Routing(rv.value.source, rv.value.target, Some(Advance(route))))
    else if slot.CollectSlot? && Heaviest(b, p, goal) != -1 then Some(Routing(Heaviest(b, p, goal), goal, Some(Advance(route))))
    else None
  }

  /**
   * The run of `tried` against the routers `v`: slot `i` returned
   * `results[i]`, every slot but the last returned nothing, and the tick
   * returns what the last one returned.
   */
  ghost predicate Returned(b: Board, p: int, goal: nat, tried: seq<Slot>, m: Option<Edge>, v: View,
                           results: seq<Option<Edge>>, routes: seq<seq<nat>>)
    requires WellFormed(b)
  {
    |tried| >= 1 && |results| == |tried| && |routes| == |tried|
    && (forall i :: 0 <= i < |tried| ==> Yields(b, p, goal, tried[i], At(v, tried[i]), results[i], routes[i]))
    && (forall i :: 0 <= i < |tried| - 1 ==> results[i].None?)
    && m == results[|tried| - 1]
  }

  /** Every slot of `tried` returned nothing with the routers `v`. */
  ghost predicate Missed(b: Board, p: int, goal: nat, tried: seq<Slot>, v: View,
                         results: seq<Option<Edge>>, routes: seq<seq<nat>>)
    requires WellFormed(b)
  {
    |results| == |tried| && |routes| == |tried|
    && forall i :: 0 <= i < |tried| ==> Yields(b, p, goal, tried[i], At(v, tried[i]), results[i], routes[i]) && results[i].None?
  }

  /** The router of a Collect objective, if it has one. */
  ghost function CollectView(c: Collect?): Option<Routing>
    reads c, if c != null && c.move != null then {c.move} else {}
  {
    if c == null || c.move == null then None else Some(Routing(c.move.source, c.move.target, c.move.path))
  }

  /** The router of a conquest, if the entry is present. */
  ghost function ConquestView(c: Conquest?): Option<Routing>
    reads if c != null then {c.move} else {}
  {
    if c == null then None else Some(Routing(c.source, c.target, c.move.path))
  }

  class State {
    const playerIndex: int
    var counter: nat
    var start: bool
    /** Slot 1; null until the objectives list is created on the first tick. */
    var collect: Collect?
    /** The entries from slot 2 on; null marks an exhausted conquest. */
    var tail: seq<Conquest?>
    ghost var Repr: set<object>

    ghost predicate Valid(w: nat, h: nat)
      reads this, Repr
    {
      this in Repr
      && (collect == null ==> tail == [])
      && (collect != null ==> collect in Repr && collect.Repr() <= Repr && collect.Valid(w, h))
      && (forall k :: 0 <= k < |tail| && tail[k] != null ==>
            tail[k].move in Repr && tail[k].Valid(w, h) && collect != null && tail[k].move != collect.move)
      && (forall i, j :: 0 <= i < j < |tail| && tail[i] != null && tail[j] != null ==> tail[i].move != tail[j].move)
    }

    constructor (playerIndex: int)
      ensures this.playerIndex == playerIndex && counter == 0 && !start && collect == null && tail == []
      ensures Repr == {this} && forall w, h :: Valid(w, h)
    {
      this.playerIndex := playerIndex;
      counter := 0;
      start := false;
      collect := null;
      tail := [];
      Repr := {this};
    }

    /** The objects the router of `slot` lives in. */
    ghost function SlotObjects(slot: Slot): set<object>
      reads this, collect
    {
      match slot
      case ExpandSlot => {}
      case CollectSlot => if collect != null && collect.move != null then {collect.move} else {}
      case TailSlot(k) => if k < |tail| && tail[k] != null then {tail[k].move} else {}
    }

    /** The router of `slot` now. */
    ghost function SlotView(slot: Slot): Option<Routing>
      reads this, collect, SlotObjects(slot)
    {
      match slot
      case ExpandSlot => None
      case CollectSlot => CollectView(collect)
      case TailSlot(k) => if k < |tail| then ConquestView(tail[k]) else None
    }

    ghost function TailViews(n: nat): (r: seq<Option<Routing>>)
      requires n <= |tail|
      reads this, collect, set k | 0 <= k < n && k < |tail| && tail[k] != null :: tail[k].move
      ensures |r| == n && forall k :: 0 <= k < n ==> r[k] == SlotView(TailSlot(k))
    {
      if n == 0 then [] else TailViews(n - 1) + [SlotView(TailSlot(n - 1))]
    }

    /** All routers now, as a value. */
    ghost function Snapshot(): (v: View)
      reads this, collect, SlotObjects(CollectSlot), set k | 0 <= k < |tail| && tail[k] != null :: tail[k].move
      ensures |v.tail| == |tail| && forall s :: At(v, s) == SlotView(s)
    {
      View(SlotView(CollectSlot), TailViews(|tail|))
    }

    /** state.js:31-41: append a conquest from the general toward the tile the scan found. */
    method Discover(b: Board)
      requires WellFormed(b) && HasGeneral(b, playerIndex) && Valid(b.width, b.height) && collect != null
      modifies this
      ensures Valid(b.width, b.height) && fresh(Repr - old(Repr))
      ensures counter == old(counter) && start == old(start) && collect == old(collect)
      ensures Discovery(b, playerIndex).None? ==> tail == old(tail)
      ensures Discovery(b, playerIndex).Some? ==>
        |tail| == |old(tail)| + 1 && tail[..|old(tail)|] == old(tail)
        && var c := tail[|old(tail)|];
          c != null && fresh(c) && fresh(c.move) && c.move.path.None?
          && c.source == b.generals[playerIndex] && c.target == Discovery(b, playerIndex).value.1
      ensures CollectView(collect) == old(CollectView(collect))
      ensures forall k :: 0 <= k < |old(tail)| ==> ConquestView(tail[k]) == old(ConquestView(tail[k]))
    {
      var found := Scan(b, playerIndex, Conquerable(b.generals[playerIndex]));
      if found.Some? {
        ScanSpec(b, playerIndex, Conquerable(b.generals[playerIndex]), 0);
        AdjacentIffNeighbours(found.value.0, found.value.1, b.width, b.height);
        var getCity := new Conquest(b.generals[playerIndex], found.value.1);
        tail := tail + [getCity];
        Repr := Repr + {getCity.move};
      }
    }

    /** Run the objective in `slot` once; a tail entry that yields nothing is nulled (state.js:54-61). */
    method RunSlot(b: Board, slot: Slot) returns (r: Option<Edge>, ghost route: seq<nat>)
      requires WellFormed(b) && Valid(b.width, b.height) && collect != null
      requires slot.TailSlot? ==> slot.k < |tail| && tail[slot.k] != null
      modifies Repr
      ensures Valid(b.width, b.height) && fresh(Repr - old(Repr))
      ensures counter == old(counter) && start == old(start) && collect == old(collect)
      ensures slot.TailSlot? && r.None? ==> tail == old(tail)[slot.k := null]
      ensures !(slot.TailSlot? && r.None?) ==> tail == old(tail)
      ensures r.Some? ==> Legal(b, r.value)
      ensures Yields(b, playerIndex, collect.target, slot, old(SlotView(slot)), r, route)
      ensures SlotView(slot) == After(b, playerIndex, collect.target, slot, old(SlotView(slot)), r, route)
      ensures forall s :: s != slot ==> SlotView(s) == old(SlotView(s))
    {
      match slot
      case ExpandSlot =>
        r := ExpandExec(b, playerIndex);
        route := [];
      case CollectSlot =>
        r, route := RunCollect(b);
      case TailSlot(k) =>
        r, route := RunTail(b, k);
    }

    /** Run Collect, slot 1, which is never nulled. */
    method RunCollect(b: Board) returns (r: Option<Edge>, ghost route: seq<nat>)
      requires WellFormed(b) && Valid(b.width, b.height) && collect != null
      modifies Repr
      ensures Valid(b.width, b.height) && fresh(Repr - old(Repr))
      ensures counter == old(counter) && start == old(start) && collect == old(collect) && tail == old(tail)
      ensures r.Some? ==> Legal(b, r.value)
      ensures Yields(b, playerIndex, collect.target, CollectSlot, old(CollectView(collect)), r, route)
      ensures CollectView(collect) == After(b, playerIndex, collect.target, CollectSlot, old(CollectView(collect)), r, route)
      ensures forall k :: 0 <= k < |tail| ==> ConquestView(tail[k]) == old(ConquestView(tail[k]))
    {
      assert forall k :: 0 <= k < |tail| && tail[k] != null ==> tail[k].move !in collect.Repr();
      r, route := collect.Exec(b, playerIndex);
      Repr := Repr + collect.Repr();
    }

    /** Run tail entry `k`, nulling it when it yields nothing. */
    method RunTail(b: Board, k: nat) returns (r: Option<Edge>, ghost route: seq<nat>)
      requires WellFormed(b) && Valid(b.width, b.height) && collect != null
      requires k < |tail| && tail[k] != null
      modifies Repr
      ensures Valid(b.width, b.height) && fresh(Repr - old(Repr))
      ensures counter == old(counter) && start == old(start) && collect == old(collect)
      ensures r.None? ==> tail == old(tail)[k := null]
      ensures r.Some? ==> tail == old(tail)
      ensures r.Some? ==> Legal(b, r.value)
      ensures Yields(b, playerIndex, collect.target, TailSlot(k), old(ConquestView(tail[k])), r, route)
      ensures ConquestView(tail[k]) == After(b, playerIndex, collect.target, TailSlot(k), old(ConquestView(tail[k])), r, route)
      ensures CollectView(collect) == old(CollectView(collect))
      ensures forall j :: 0 <= j < |tail| && j != k ==> ConquestView(tail[j]) == old(ConquestView(tail[j]))
    {
      r, route := tail[k].Exec(b, playerIndex);
      if r.None? {
        tail := tail[k := null];
      }
    }

    /**
     * state.js:54-61: run the objectives of `objs` in turn until one yields
     * a move. `tried` lists the slots run and `results` what each returned,
     * against the routers `v` they had before the run; every tail entry
     * tried without a move is nulled, and the routers of the slots not run
     * are left alone.
     */
    method RunOrder(b: Board, objs: seq<Slot>, ghost v: View)
        returns (m: Option<Edge>, ghost tried: seq<Slot>, ghost results: seq<Option<Edge>>, ghost routes: seq<seq<nat>>)
      requires WellFormed(b) && Valid(b.width, b.height) && collect != null
      requires |objs| > 0 && objs[0] == ExpandSlot && Distinct(objs)
      requires forall i :: 0 <= i < |objs| && objs[i].TailSlot? ==> objs[i].k < |tail| && tail[objs[i].k] != null
      requires forall s :: At(v, s) == SlotView(s)
      modifies Repr
      ensures Valid(b.width, b.height) && fresh(Repr - old(Repr))
      ensures counter == old(counter) && start == old(start) && collect == old(collect)
      ensures 1 <= |tried| <= |objs| && tried == objs[..|tried|] && (m.None? ==> tried == objs)
      ensures |tail| == |old(tail)| && Dropped(tail, old(tail), if m.Some? then tried[..|tried| - 1] else tried)
      ensures Returned(b, playerIndex, collect.target, tried, m, v, results, routes)
      ensures forall s :: s !in tried ==> SlotView(s) == At(v, s)
      ensures forall i :: 0 <= i < |tried| ==> SlotView(tried[i]) == After(b, playerIndex, collect.target, tried[i], At(v, tried[i]), results[i], routes[i])
      ensures Expansion(b, playerIndex).Some? ==> m == Expansion(b, playerIndex) && tried == [ExpandSlot]
      ensures m.Some? ==> Legal(b, m.value)
    {
      tried, results, routes := [], [], [];
      m := None;
      var i := 0;
      while i < |objs| && m.None?
        invariant 0 <= i <= |objs| && tried == objs[..i] && (m.Some? ==> i > 0)
        invariant Valid(b.width, b.height) && fresh(Repr - old(Repr))
        invariant counter == old(counter) && start == old(start) && collect == old(collect)
        invariant |tail| == |old(tail)| && Dropped(tail, old(tail), if m.Some? then tried[..i - 1] else tried)
        invariant m.None? ==> Missed(b, playerIndex, collect.target, tried, v, results, routes)
        invariant i > 0 ==> Returned(b, playerIndex, collect.target, tried, m, v, results, routes)
        invariant forall s :: s !in tried ==> SlotView(s) == At(v, s)
        invariant |results| == |tried| && |routes| == |tried|
        invariant forall i :: 0 <= i < |tried| ==> SlotView(tried[i]) == After(b, playerIndex, collect.target, tried[i], At(v, tried[i]), results[i], routes[i])
        invariant i > 0 && Expansion(b, playerIndex).Some? ==> m == Expansion(b, playerIndex) && tried == [ExpandSlot]
        invariant m.Some? ==> Legal(b, m.value)
      {
        var slot := objs[i];
        assert slot !in tried by {
          assert forall j :: 0 <= j < i ==> objs[j] != objs[i];
        }
        assert objs[..i + 1] == tried + [slot];
        m, tried, results, routes := Step(b, slot, v, old(tail), tried, results, routes);
        i := i + 1;
      }
    }

    /** One slot of the order run, recorded after the slots `tried` before it. */
    method Step(b: Board, slot: Slot, ghost v: View, ghost base: seq<Conquest?>, ghost tried: seq<Slot>,
                ghost results: seq<Option<Edge>>, ghost routes: seq<seq<nat>>)
        returns (r: Option<Edge>, ghost tried': seq<Slot>, ghost results': seq<Option<Edge>>, ghost routes': seq<seq<nat>>)
      requires WellFormed(b) && Valid(b.width, b.height) && collect != null
      requires slot.TailSlot? ==> slot.k < |tail| && tail[slot.k] != null
      requires |tail| == |base| && Dropped(tail, base, tried) && slot !in tried
      requires Missed(b, playerIndex, collect.target, tried, v, results, routes)
      requires forall s :: s !in tried ==> SlotView(s) == At(v, s)
      requires forall i :: 0 <= i < |tried| ==> SlotView(tried[i]) == After(b, playerIndex, collect.target, tried[i], At(v, tried[i]), results[i], routes[i])
      requires tried == [] ==> slot == ExpandSlot
      requires tried != [] ==> Expansion(b, playerIndex).None?
      modifies Repr
      ensures Valid(b.width, b.height) && fresh(Repr - old(Repr))
      ensures counter == old(counter) && start == old(start) && collect == old(collect)
      ensures tried' == tried + [slot] && |tail| == |base| && Dropped(tail, base, if r.Some? then tried else tried')
      ensures r.Some? ==> Legal(b, r.value)
      ensures Returned(b, playerIndex, collect.target, tried', r, v, results', routes')
      ensures r.None? ==> Missed(b, playerIndex, collect.target, tried', v, results', routes')
      ensures forall s :: s !in tried' ==> SlotView(s) == At(v, s)
      ensures forall i :: 0 <= i < |tried'| ==> SlotView(tried'[i]) == After(b, playerIndex, collect.target, tried'[i], At(v, tried'[i]), results'[i], routes'[i])
      ensures Expansion(b, playerIndex).Some? ==> r == Expansion(b, playerIndex) && tried' == [ExpandSlot]
    {
      ghost var before := tail;
      ghost var route;
      r, route := RunSlot(b, slot);
      Ran(b, playerIndex, collect.target, tried, results, routes, v, slot, r, route);
      tried', results', routes' := tried + [slot], results + [r], routes + [route];
      DroppedExtend(before, base, tried, slot);
    }

    /**
     * state.js:31-63, the part of a tick after the gate: discover a conquest,
     * fix the order from the counter and the present entries, run it. `v`
     * holds the routers as they were when the run began: those of the tick
     * before, and a fresh one for the discovered conquest.
     */
    method Play(b: Board) returns (m: Option<Edge>, ghost alive: seq<bool>, ghost tried: seq<Slot>,
                                   ghost v: View, ghost results: seq<Option<Edge>>, ghost routes: seq<seq<nat>>)
      requires WellFormed(b) && HasGeneral(b, playerIndex) && Valid(b.width, b.height) && collect != null
      modifies Repr
      ensures Valid(b.width, b.height) && fresh(Repr - old(Repr))
      ensures counter == old(counter) && start == old(start) && collect == old(collect)
      ensures Played(b, playerIndex, counter, old(tail), tail, alive, tried, m)
      ensures Returned(b, playerIndex, collect.target, tried, m, v, results, routes)
      ensures v.collect == old(CollectView(collect)) && |v.tail| == |tail|
      ensures forall k :: 0 <= k < |old(tail)| ==> v.tail[k] == old(ConquestView(tail[k]))
      ensures Discovery(b, playerIndex).Some? ==>
        v.tail[|old(tail)|] == Some(Routing(b.generals[playerIndex], Discovery(b, playerIndex).value.1, None))
      ensures forall s :: s !in tried ==> SlotView(s) == At(v, s)
      ensures forall i :: 0 <= i < |tried| ==> SlotView(tried[i]) == After(b, playerIndex, collect.target, tried[i], At(v, tried[i]), results[i], routes[i])
      ensures m.Some? ==> Legal(b, m.value)
    {
      Discover(b);
      ghost var grown := tail;
      v := Snapshot();
      m, alive, tried, results, routes := Run(b, v);
      PlayedOf(b, playerIndex, counter, old(tail), grown, tail, alive, tried, m);
    }

    /**
     * state.js:43-63: fix the order from the counter and the present
     * entries, then run it with the routers `v` holds.
     */
    method Run(b: Board, ghost v: View) returns (m: Option<Edge>, ghost alive: seq<bool>, ghost tried: seq<Slot>,
                                                 ghost results: seq<Option<Edge>>, ghost routes: seq<seq<nat>>)
      requires WellFormed(b) && Valid(b.width, b.height) && collect != null
      requires forall s :: At(v, s) == SlotView(s)
      modifies Repr
      ensures Valid(b.width, b.height) && fresh(Repr - old(Repr))
      ensures counter == old(counter) && start == old(start) && collect == old(collect)
      ensures alive == Presence(old(tail))
      ensures var order := EvalOrder(counter, alive);
        1 <= |tried| <= |order| && tried == order[..|tried|] && (m.None? ==> tried == order)
      ensures |tail| == |old(tail)| && Dropped(tail, old(tail), if m.Some? then tried[..|tried| - 1] else tried)
      ensures Expansion(b, playerIndex).Some? ==> m == Expansion(b, playerIndex) && tried == [ExpandSlot]
      ensures Returned(b, playerIndex, collect.target, tried, m, v, results, routes)
      ensures forall s :: s !in tried ==> SlotView(s) == At(v, s)
      ensures forall i :: 0 <= i < |tried| ==> SlotView(tried[i]) == After(b, playerIndex, collect.target, tried[i], At(v, tried[i]), results[i], routes[i])
      ensures m.Some? ==> Legal(b, m.value)
    {
      var present := Presence(tail);
      alive := present;
      var objs := EvalOrder(counter, present);
      OrderOf(counter, tail);
      m, tried, results, routes := RunOrder(b, objs, v);
    }

    /**
     * state.js:18-63, one tick: count the turn, create the two fixed
     * objectives once, open the gate once the general holds 5 armies, then
     * play. `alive` says which tail entries were present when the order was
     * fixed; `tried` lists the slots run, in order, `results` what each
     * returned, and `v` the routers they ran with.
     */
    method Update(b: Board) returns (m: Option<Edge>, ghost alive: seq<bool>, ghost tried: seq<Slot>,
                                     ghost v: View, ghost results: seq<Option<Edge>>, ghost routes: seq<seq<nat>>)
      requires WellFormed(b) && HasGeneral(b, playerIndex) && Valid(b.width, b.height)
      modifies Repr
      ensures Valid(b.width, b.height) && fresh(Repr - old(Repr))
      ensures counter == old(counter) + 1
      ensures collect != null && (old(collect) != null ==> collect == old(collect))
      ensures old(collect) == null ==> collect.target == b.generals[playerIndex]
      ensures start == (old(start) || b.armies[b.generals[playerIndex]] >= 5)
      ensures !start ==> m.None? && tail == old(tail) && tried == []
      ensures !start ==> CollectView(collect) == old(CollectView(collect))
      ensures start ==> Played(b, playerIndex, counter, old(tail), tail, alive, tried, m)
      ensures start ==> Returned(b, playerIndex, collect.target, tried, m, v, results, routes)
      ensures start ==> v.collect == old(CollectView(collect)) && |v.tail| == |tail|
      ensures start ==> forall k :: 0 <= k < |old(tail)| ==> v.tail[k] == old(ConquestView(tail[k]))
      ensures start && Discovery(b, playerIndex).Some? ==>
        v.tail[|old(tail)|] == Some(Routing(b.generals[playerIndex], Discovery(b, playerIndex).value.1, None))
      ensures !start ==> forall s :: SlotView(s) == old(SlotView(s))
      ensures start ==> forall s :: s !in tried ==> SlotView(s) == At(v, s)
      ensures start ==> forall i :: 0 <= i < |tried| ==> SlotView(tried[i]) == After(b, playerIndex, collect.target, tried[i], At(v, tried[i]), results[i], routes[i])
      ensures m.Some? ==> Legal(b, m.value)
    {
      Prepare(b);
      if !start {
        return None, [], [], Snapshot(), [], [];
      }
      m, alive, tried, v, results, routes := Play(b);
    }

    /** state.js:19-29: count the turn, create the two fixed objectives once, open the gate. */
    method Prepare(b: Board)
      requires WellFormed(b) && HasGeneral(b, playerIndex) && Valid(b.width, b.height)
      modifies this
      ensures Valid(b.width, b.height) && fresh(Repr - old(Repr))
      ensures counter == old(counter) + 1 && tail == old(tail)
      ensures collect != null && (old(collect) != null ==> collect == old(collect))
      ensures old(collect) == null ==> fresh(collect) && collect.target == b.generals[playerIndex] && collect.move == null
      ensures start == (old(start) || b.armies[b.generals[playerIndex]] >= 5)
      ensures CollectView(collect) == old(CollectView(collect))
    {
      counter := counter + 1;
      if collect == null {
        collect := new Collect(b.generals[playerIndex]);
        Repr := Repr + {collect};
      }
      if !start && b.armies[b.generals[playerIndex]] >= 5 {
        start := true;
      }
    }
  }

  /**
   * What one played tick does to the tail, given the entries `before` it and
   * `after` it: the tail grows by the discovered conquest if there is one;
   * `alive` marks the entries present once it has grown; `tried` is a prefix
   * of the evaluation order, all of it when no move was found; an entry is
   * null afterwards exactly when it was absent or its slot was tried without
   * yielding the move; and a capture or claim by Expand wins at once.
   */
  ghost predicate Played(b: Board, p: int, counter: int, before: seq<Conquest?>, after: seq<Conquest?>,
                         alive: seq<bool>, tried: seq<Slot>, m: Option<Edge>)
    requires WellFormed(b) && HasGeneral(b, p)
  {
    |alive| == |after| == |before| + (if Discovery(b, p).Some? then 1 else 0)
    && (forall k :: 0 <= k < |before| ==> alive[k] == (before[k] != null))
    && (forall k :: 0 <= k < |after| && after[k] != null ==> k >= |before| || after[k] == before[k])
    && (Discovery(b, p).Some? ==>
          alive[|before|] && (after[|before|] != null ==> after[|before|].target == Discovery(b, p).value.1))
    && (var order := EvalOrder(counter, alive);
          1 <= |tried| <= |order| && tried == order[..|tried|] && (m.None? ==> tried == order))
    && (forall k :: 0 <= k < |after| ==>
          (after[k] == null <==> !alive[k] || (TailSlot(k) in tried && !(m.Some? && tried[|tried| - 1] == TailSlot(k)))))
    && (Expansion(b, p).Some? ==> m == Expansion(b, p) && tried == [ExpandSlot])
  }

  /** Which tail entries are present. */
  function Presence(tail: seq<Conquest?>): (alive: seq<bool>)
    ensures |alive| == |tail| && forall k :: 0 <= k < |tail| ==> alive[k] == (tail[k] != null)
  {
    seq(|tail|, k requires 0 <= k < |tail| => tail[k] != null)
  }

  /** The order fixed from the present entries starts with Expand and lists each present entry once. */
  lemma OrderOf(counter: int, tail: seq<Conquest?>)
    ensures var objs := EvalOrder(counter, Presence(tail));
      |objs| > 0 && objs[0] == ExpandSlot && Distinct(objs)
      && forall i :: 0 <= i < |objs| && objs[i].TailSlot? ==> objs[i].k < |tail| && tail[objs[i].k] != null
  {
    var objs := EvalOrder(counter, Presence(tail));
    EvalOrderSpec(counter, Presence(tail));
    forall i | 0 <= i < |objs| && objs[i].TailSlot?
      ensures objs[i].k < |tail| && tail[objs[i].k] != null
    {
      assert TailSlot(objs[i].k) in objs;
    }
  }

  /** A tick that discovered, fixed the order and ran it has `Played`. */
  lemma PlayedOf(b: Board, p: int, counter: int, before: seq<Conquest?>, grown: seq<Conquest?>, after: seq<Conquest?>,
                 alive: seq<bool>, tried: seq<Slot>, m: Option<Edge>)
    requires WellFormed(b) && HasGeneral(b, p)
    requires Discovery(b, p).None? ==> grown == before
    requires Discovery(b, p).Some? ==>
      |grown| == |before| + 1 && grown[..|before|] == before
      && grown[|before|] != null && grown[|before|].target == Discovery(b, p).value.1
    requires |alive| == |grown| && forall k :: 0 <= k < |grown| ==> alive[k] == (grown[k] != null)
    requires var order := EvalOrder(counter, alive);
      1 <= |tried| <= |order| && tried == order[..|tried|] && (m.None? ==> tried == order)
    requires |after| == |grown| && Dropped(after, grown, if m.Some? then tried[..|tried| - 1] else tried)
    requires Expansion(b, p).Some? ==> m == Expansion(b, p) && tried == [ExpandSlot]
    ensures Played(b, p, counter, before, after, alive, tried, m)
  {
    EvalOrderSpec(counter, alive);
    DroppedNulls(after, grown, alive, EvalOrder(counter, alive), tried, m.Some?);
    if Discovery(b, p).Some? {
      assert forall k :: 0 <= k < |before| ==> grown[k] == before[k];
    }
  }

  /** Every tail entry whose slot is in `gone` is nulled; the others are as in `before`. */
  ghost predicate Dropped(tail: seq<Conquest?>, before: seq<Conquest?>, gone: seq<Slot>)
    requires |tail| == |before|
  {
    forall k :: 0 <= k < |tail| ==> tail[k] == (if TailSlot(k) in gone then null else before[k])
  }

  lemma DroppedExtend(tail: seq<Conquest?>, before: seq<Conquest?>, gone: seq<Slot>, slot: Slot)
    requires |tail| == |before| && Dropped(tail, before, gone)
    ensures var after := if slot.TailSlot? && slot.k < |tail| then tail[slot.k := null] else tail;
      Dropped(after, before, gone + [slot])
  {
  }

  /**
   * After a run over the distinct slots `order`, a tail entry is null exactly
   * when it was absent already or its slot was tried without yielding the move.
   */
  lemma DroppedNulls(tail: seq<Conquest?>, grown: seq<Conquest?>, alive: seq<bool>, order: seq<Slot>, tried: seq<Slot>, drop: bool)
    requires |tail| == |grown| == |alive|
    requires forall k :: 0 <= k < |grown| ==> alive[k] == (grown[k] != null)
    requires Distinct(order) && 1 <= |tried| <= |order| && tried == order[..|tried|]
    requires Dropped(tail, grown, if drop then tried[..|tried| - 1] else tried)
    ensures forall k :: 0 <= k < |tail| ==>
      (tail[k] == null <==> !alive[k] || (TailSlot(k) in tried && !(drop && tried[|tried| - 1] == TailSlot(k))))
  {
    assert Distinct(tried) by {
      assert forall i :: 0 <= i < |tried| ==> tried[i] == order[i];
    }
    FailedSlots(tried, if drop then tried[..|tried| - 1] else tried, drop);
  }

  /** Without the last slot when `drop` holds, provided the slots are distinct. */
  lemma FailedSlots(tried: seq<Slot>, failed: seq<Slot>, drop: bool)
    requires |tried| >= 1 && Distinct(tried)
    requires failed == if drop then tried[..|tried| - 1] else tried
    ensures forall s :: s in failed <==> s in tried && !(drop && tried[|tried| - 1] == s)
  {
  }

  /** Recording one more slot run keeps the record of what each slot tried returned. */
  lemma Ran(b: Board, p: int, goal: nat, tried: seq<Slot>, results: seq<Option<Edge>>, routes: seq<seq<nat>>,
            v: View, slot: Slot, r: Option<Edge>, route: seq<nat>)
    requires WellFormed(b) && Missed(b, p, goal, tried, v, results, routes)
    requires Yields(b, p, goal, slot, At(v, slot), r, route)
    ensures Returned(b, p, goal, tried + [slot], r, v, results + [r], routes + [route])
    ensures r.None? ==> Missed(b, p, goal, tried + [slot], v, results + [r], routes + [route])
  {
    var t, rs, ps := tried + [slot], results + [r], routes + [route];
    forall j | 0 <= j < |t| ensures Yields(b, p, goal, t[j], At(v, t[j]), rs[j], ps[j]) {
      if j < |tried| { assert t[j] == tried[j] && rs[j] == results[j] && ps[j] == routes[j]; }
    }
  }
}
