# Decision engine of a generals.io bot, in Dafny

This project models the decision engine of a bot for a generals.io-style
tile game. On every tick the bot does the following:

- It rebuilds its copy of the board from a run-length diff sent by the server (`patch`).
- It slices the flat map into width, height, army counts and terrain codes.
- It asks its tick coordinator `State` for at most one move: a pair of adjacent tiles.

The coordinator behaves as follows:

- It waits until the player's general has held 5 armies once. This is the readiness gate.
- On each tick it may discover one `Conquest` objective and append it to its objectives list.
- It tries its objectives in an order that depends on the turn counter.
- It returns the first move found.
- It drops every conquest that yields nothing.

The objectives are these:

- `Expand` captures a neighbour, or else claims an empty one.
- `Collect` funnels the heaviest army toward the general.
- `Conquest` walks an army from the general to a target tile.

`Collect` and `Conquest` use a router, `Move`. It floods hop-distance labels
out from the target over the player's own tiles, for at most 256 rounds. It
then follows the labels greedily down from the source, caches the path it
found, and hands out one edge of that path per call.

The model has these modules:

| module | file | models |
|---|---|---|
| `Wrappers` | wrappers.dfy | `Option` |
| `Diff` | diff.dfy | `patch` of main.js as a function `Decode` and a method `Patch` with the original cursor loop; an encoder `Encode` as its partner |
| `Layout` | layout.dfy | the slicing of the decoded map into width, height, armies and terrain |
| `Grid` | grid.dfy | `adjacentTiles`, with a coordinate-based reference definition of adjacency |
| `Tiles` | tiles.dfy | the board snapshot one tick sees |
| `Router` | router.dfy | the `Move` class: relaxation over an `array`, descent, cached path |
| `Objectives` | objectives.dfy | `Expand` (a function and a scanning method), `Collect` and `Conquest` (classes) |
| `Coordinator` | coordinator.dfy | the `State` class and its `update` |

Some of the code's shapes are modelled as follows:

- **Infinity.** JavaScript's `Infinity` label is the `Inf` case of the datatype `Dist`.
- **`undefined` and `null`.** Both become `None`.
- **The objectives list.** In the source it is one array. Here it is a `collect` field (slot 1) and a `tail` sequence (slots 2 onward). `Expand` (slot 0) has no state.
- **Conquest routers.** Each conquest in `tail` owns its router.
- **The evaluation order.** It is a sequence of `Slot` values, built from the counter and from which tail entries are still non-null.

## Model

| member | source | states |
|---|---|---|
| Grid.AdjacentTiles | state.js:203-221 | at most four tiles, all on the board |
| Grid.AdjacentIffNeighbours | state.js:203-221 | a tile is listed exactly when it shares a side with the given tile in row/column coordinates, so nothing wraps around an edge |
| Grid.AdjacentAreNeighbours | state.js:207-219 | every listed tile shares a side with the given tile |
| Grid.NeighboursAreAdjacent | state.js:207-219 | every tile sharing a side with the given tile is listed |
| Grid.RightNeighbour | state.js:208-210 | the tile one column to the right in the same row is `t + 1`, and the column guard admits it |
| Grid.LeftNeighbour | state.js:211-213 | the tile one column to the left is `t - 1`, and the column guard admits it |
| Grid.UpperNeighbour | state.js:214-216 | the tile one row up is `t - width`, and the row guard admits it |
| Grid.LowerNeighbour | state.js:217-219 | the tile one row down is `t + width`, and the row guard admits it |
| Grid.AdjacentSymmetric | state.js:203-221 | `x` is adjacent to `t` exactly when `t` is adjacent to `x` |
| Grid.AdjacentIrreflexive | state.js:203-221 | no tile is adjacent to itself |
| Grid.CandidateDirections | state.js:204-219 | `t+1`, `t-1`, `t-width` and `t+width` lie right, left, up and down of `t` |
| Grid.IndexDirection | state.js:207-220 | entry `k` of the list lies in direction `k` of the right/left/up/down sequence of guards that hold |
| Grid.AdjacentOrder | state.js:207-220 | listed neighbours come in the order right, left, up, down |
| Diff.Slice | main.js:154 | JavaScript `slice`: its length is cut at the end of the sequence, and entry `k` is `s[from + k]` |
| Diff.CopyPhase | main.js:153-155 | a copy step appends only `old[k]` at index `k` for each new position `k`; a zero count appends nothing; its length is cut at the end of `old` |
| Diff.ReplacePhase | main.js:157-158 | a replace step appends the literals that follow the count, cut at the end of the diff |
| Diff.NextCursor | main.js:156-161 | after each phase, the cursor strictly increases and does not pass the end of the diff |
| Diff.DecodeAt | main.js:152-161 | one turn of the loop from cursor `i`: the counts it reads are non-negative, and decoding from `i` equals decoding from the next cursor after appending this phase's output |
| Diff.Decode | main.js:149-164 | the value the cursor loop computes, as a function of the old array, the diff and the output so far; specified by Diff.DecodeAt (one turn of the loop), Diff.DecodeExtends, Diff.DecodeLength and Diff.RoundTrip |
| Diff.Patch | main.js:149-164 | the cursor loop builds exactly `Decode(old, diff, [])` and terminates |
| Diff.DecodeExtends | main.js:149-164 | decoding only appends: the output so far is a prefix of the result |
| Diff.NoChange | main.js:149-164 | the diff `[old.length]` returns `old` unchanged |
| Diff.EmptyDiff | main.js:149-164 | the empty diff returns `[]` |
| Diff.ZeroPhase | main.js:153-157 | a phase with copy count 0 and replace count 0 appends nothing |
| Diff.CopiesInPlace | main.js:154 | every position filled by a copy step holds `old` at that same index |
| Diff.DecodeLength | main.js:154-158 | when every count stays within `old` and the diff, the output length is the sum of all counts |
| Diff.DecodeLengthBound | main.js:154-158 | counts that overrun are cut short, never padded: the output is never longer than the sum of all counts |
| Diff.MatchRunSpec | main.js:153-154 | partner of main.js:153-158, which has no encoder: the encoder's copy run covers only positions where `old` and `new` agree, and stays inside both |
| Diff.DiffRun | main.js:157-158 | partner of main.js:153-158, which has no encoder: the encoder's literal run stays inside `new`, and is empty exactly when the next element agrees with `old` |
| Diff.PhaseEnd | main.js:153-161 | partner of main.js:153-158, which has no encoder: every encoder phase consumes at least one element of `new` |
| Diff.EncodePhase | main.js:153-161 | partner of main.js:153-158, which has no encoder: an encoder phase is a copy count, a replace count and that many literals of `new`, and the copied run agrees with `old` |
| Diff.Phase | main.js:153-161 | partner of main.js:153-158, which has no encoder: the phase the encoder emits at position `k` of `new`; specified by Diff.EncodePhase and Diff.PhaseDecodes |
| Diff.EncodeFrom | main.js:149-164 | partner of main.js:153-158, which has no encoder: the phases from position `k` of `new` on; specified by Diff.EncodeDecode |
| Diff.Encode | main.js:149-164 | partner of main.js:153-158, which has no encoder: a diff that turns `old` into `new`; specified by Diff.RoundTrip |
| Diff.PhaseDecodes | main.js:153-160 | decoding one encoder phase after the first `k` elements of `new` yields the first `k+m+r` elements |
| Diff.PhaseChain | main.js:149-164 | if the rest of the encoding rebuilds `new`, the phase in front of it does too |
| Diff.EncodeDecode | main.js:149-164 | decoding the encoding from position `k` on, starting from the first `k` elements of `new`, rebuilds `new` |
| Diff.RoundTrip | main.js:149-164 | `patch(old, encode(old, new)) == new` for all `old` and `new` |
| Layout.Unpack | main.js:121-125 | no layout exactly when width or height is missing or negative; otherwise width is `map[0]`, height is `map[1]`, and armies and terrain are the two `slice`s of length `width*height` |
| Layout.UnpackComplete | main.js:121-125 | a map of exactly `2 + 2*width*height` entries gives a complete army and terrain for every tile |
| Layout.UnpackTruncated | main.js:124-125 | a shorter map leaves some tile without a terrain code |
| Layout.Pack | main.js:121-125 | the flat map a layout is sent as, the partner of the slicing; specified by Layout.UnpackPack and Layout.PackUnpack |
| Layout.UnpackPack | main.js:121-125 | unpacking a packed complete map gives that map back |
| Layout.PackUnpack | main.js:121-125 | a complete map is the packing of its own layout |
| Router.InitialLabelling | state.js:81-83 | all labels start infinite except the target's, which is 0; this is a valid labelling |
| Router.Offered | state.js:86-92 | the labels after a tile's offer: each owned neighbour whose label is above the offer takes it, every other label stays; specified by Router.OfferedBounds, Router.OfferedLabelling and Router.OfferedStep, and computed in place by Router.Offer |
| Router.Offer | state.js:86-92 | the array afterwards holds exactly `Offered` of its old contents, with the offer the tile's label plus one: an owned neighbour is lowered exactly when its label was above the offer, and nothing else changes |
| Router.OfferedStep | state.js:87-91 | one neighbour's test and assignment extends the offer by that neighbour, since no neighbour is listed twice |
| Router.OfferedBounds | state.js:88-90 | an offer only lowers labels, and leaves every owned tile it reaches at most the offered value |
| Router.OfferedLabelling | state.js:88-90 | an offer keeps the invariants: the target is 0, only owned tiles are finite, and every finite label but the target's is positive and has a neighbour with a smaller label |
| Router.Visit | state.js:86-93 | a tile's turn in a round: it offers its label plus one when it has a label, and changes nothing when its label is `Infinity`; specified by Router.VisitLabelling, Router.VisitBounds and Router.VisitPropagated |
| Router.VisitLabelling | state.js:86-93 | a tile's turn keeps the invariants of Router.OfferedLabelling |
| Router.VisitBounds | state.js:86-93 | a tile's turn only lowers labels, and leaves each owned neighbour at most the tile's label plus one |
| Router.VisitPropagated | state.js:86-93 | a tile's turn keeps the bounds the tiles before it left on their neighbours, and adds its own |
| Router.Sweep | state.js:85-94 | the labels once tiles `0..k-1` had their turn, in index order; specified by Router.SweepStep, Router.SweepLabelling, Router.SweepDecreased and Router.SweepPropagated |
| Router.SweepStep | state.js:85-94 | the next tile's turn extends the sweep by one tile |
| Router.SweepLabelling | state.js:85-94 | any part of a round keeps the invariants of Router.OfferedLabelling |
| Router.SweepDecreased | state.js:85-94 | any part of a round only lowers labels |
| Router.SweepPropagated | state.js:85-94 | after the turns of tiles `0..k-1`, each of those tiles that had a label `L` before the round left its owned neighbours at most `L + 1` |
| Router.Round | state.js:85-94 | one full round over the board; computed in place by Router.RelaxRound |
| Router.RelaxRound | state.js:85-94 | the array afterwards holds exactly `Round` of its old contents; the round keeps the labelling, only lowers labels, and propagates every finite label one hop to owned neighbours |
| Router.Rounds | state.js:84-99 | the rounds from round `i` on, stopping once the source has a label or after round 255; computed by the loop of Router.Relax |
| Router.Relaxation | state.js:81-99 | the labels state.js:81-99 computes for a source and a target; computed by Router.Relax, and fixes the route by Router.RouteUnique |
| Router.RoundReaches | state.js:84-99 | after round `r`, every tile with an owned walk of at most `r` hops has a label no larger than that walk's length |
| Router.Relax | state.js:81-99 | the result is a labelling; at most 256 rounds run, and every round but the last leaves the source infinite; it stops early exactly when the source is labelled; no label ever rises; the labels are exactly `Relaxation` |
| Router.BestFrom | state.js:105 | the `reduce` over the neighbour list: the result is the initial value or one of the neighbours; the choice itself is specified by Router.BestFromSpec |
| Router.Best | state.js:105 | the `reduce` from `[-1, Infinity]`: the result is -1 or a neighbour; the choice itself is specified by Router.BestSpec |
| Router.BestFromSpec | state.js:105 | JavaScript `reduce` keeps its initial value when nothing beats it; otherwise it returns the neighbour with the smallest label, the first in list order on ties |
| Router.BestFromTake | state.js:105 | same as `BestFromSpec`, in the case where the first element beats the running best |
| Router.BestFromKeep | state.js:105 | same as `BestFromSpec`, in the case where the first element does not beat the running best |
| Router.BestSpec | state.js:105 | the choice is -1 exactly when every neighbour is unlabelled; otherwise it is the first neighbour with the strictly smallest label |
| Router.BestIsNeighbour | state.js:104-105 | a chosen tile is a neighbour with a finite label no larger than any other neighbour's |
| Router.LabelledHasBest | state.js:102-110 | from any labelled tile other than the target, the choice has a strictly smaller label |
| Router.DescentStep | state.js:102-110 | each step keeps the path a greedy walk whose labels strictly fall |
| Router.DescentStuck | state.js:106-109 | the walk can only get stuck at the very first tile, an unlabelled source |
| Router.Descend | state.js:101-111 | the path is greedy, adjacent at each step and strictly descending; it ends at the target, or is just the source when the source has no labelled neighbour (exactly then); it has at most label(source) steps |
| Router.RouteOfDescent | state.js:80-111 | the descent over the labels of `Relaxation` is a `Route`: each step is the `Best` neighbour of the step before, labels strictly fall, it ends at the target or is the source alone when no neighbour of the source has a label, its inner tiles are the player's, and it is complete whenever an owned walk of at most 256 hops joins source and target |
| Router.FindRoute | state.js:80-111 | the route computed is a `Route` in that sense |
| Router.DescentUnique | state.js:102-110 | two greedy descents over the same labels that both run to their end are the same walk |
| Router.RouteUnique | state.js:80-111 | at most one walk is a `Route` for given board, player, source and target, so `Route` fixes the route the code computes, tie-break included |
| Router.SquareRelaxation | state.js:81-99 | on a 2 x 2 board owned by the player, relaxing from tile 0 towards tile 3 stops after two rounds with labels 2, 1, 1, 0 |
| Router.SquareTieBreak | state.js:104-105 | on that board, tiles 1 and 2 tie on label 1 and the first neighbour listed wins, so `[0, 2, 3]` is not the route from 0 to 3 |
| Router.SquareStaysPut | state.js:102-110 | on that board, `[3, 1, 3]` is not a route from tile 3 to itself: the descent stops at the target |
| Router.NextEdge | state.js:116-120 | the edge `exec` hands out from a cached path: nothing for a path of at most one tile, else its first two tiles; specified by Router.DrainEdges and Router.DrainCount |
| Router.Advance | state.js:121 | the `shift` of the cached path after a move; specified by Router.DrainEdges and Router.DrainCount |
| Router.DrainEdges | state.js:116-122 | call `j` on a cached path of `n` tiles returns edge `(path[j], path[j+1])` while `j < n-1`, and nothing afterwards |
| Router.DrainCount | state.js:116-122 | a cached path of `n` tiles yields exactly `n - 1` moves, however many calls are made |
| Router.Move.constructor | state.js:69-73 | a new router has no path |
| Router.Move.Exec | state.js:79-123 | the route is computed only while no path is cached, and then it is the unique `Route`; each call returns the first edge of the cached path (adjacent tiles) and drops one tile |
| Objectives.Qualifies | state.js:180 | the three `find` tests: the capture test of state.js:180, the claim test of state.js:190 and the conquest test of state.js:34; specified in use by Objectives.TileScan and Objectives.ScanSpec |
| Objectives.Find | state.js:180 | JavaScript `find` over the neighbour list; specified by Objectives.FindSpec |
| Objectives.ScanFrom | state.js:177-195 | the tile loop of each scan (also state.js:31-41) from tile `i` on; specified by Objectives.TileScan and Objectives.ScanSpec |
| Objectives.Expansion | state.js:176-198 | the move Expand returns: the capture scan, then the claim scan; specified by Objectives.ExpansionSpec and Objectives.CentreClaim |
| Objectives.FindSpec | state.js:180 | JavaScript `find` returns nothing exactly when no neighbour qualifies; otherwise it returns the first neighbour that qualifies |
| Objectives.TileScan | state.js:177-184 | a tile yields a move exactly when it is a source with a qualifying neighbour |
| Objectives.ScanSpec | state.js:177-195 | the scan finds nothing exactly when no source has a qualifying neighbour; otherwise it finds the lowest-index such source and its first qualifying neighbour |
| Objectives.Scan | state.js:177-195 | the scan loop returns a qualifying pair, lowest source first, or nothing exactly when there is none |
| Objectives.ExpansionSpec | state.js:176-198 | a capture anywhere on the board beats every empty-tile claim; nothing is returned exactly when neither kind of move exists |
| Objectives.ExpandExec | state.js:176-198 | the two scans return a legal move from an owned tile holding more than one army |
| Objectives.CentreClaim | state.js:176-198 | on a 3 x 3 board whose centre is the only owned tile (10 armies), the move is (4, 5): a claim of the right-hand neighbour |
| Objectives.HeaviestFrom | state.js:157 | the `reduce` from tile `tile` on: the result is the initial value or a tile from `tile` on; the choice itself is specified by Objectives.HeaviestFromSpec |
| Objectives.Heaviest | state.js:157 | the `reduce` from `[-1, 0]`: the result is -1 or a tile of the board; the choice itself is specified by Objectives.HeaviestSpec |
| Objectives.HeaviestFromSpec | state.js:157 | the `reduce` keeps its initial value unless some candidate beats it; otherwise it returns the heaviest candidate, the lowest index on ties |
| Objectives.HeaviestSpec | state.js:157 | the choice is -1 exactly when no tile is an owned non-target tile with more than one army; otherwise it is the heaviest such tile, the first on ties |
| Objectives.Collect.constructor | state.js:146-149 | no router yet, fixed target |
| Objectives.Collect.Exec | state.js:155-166 | without a router, it routes from the heaviest candidate (or yields nothing when there is none); it returns that router's move; a fresh router starts at the heaviest candidate; the router is dropped exactly when the move is nothing |
| Objectives.Conquest.constructor | state.js:127-131 | a fresh router from the source to the target |
| Objectives.Conquest.Exec | state.js:137-142 | nothing, with the router untouched, once the target is the player's; otherwise exactly the router's move |
| Coordinator.LiveFrom | state.js:43-50 | the tail keys from `k` on that survive the `filter`; specified by Coordinator.LiveFromSpec |
| Coordinator.EvalOrder | state.js:43-50 | the evaluation order of a tick; specified by Coordinator.EvalOrderSpec |
| Coordinator.OrderOf | state.js:43-50 | the order starts with Expand, lists no slot twice, and every tail slot in it names a present entry |
| Coordinator.Discovery | state.js:31-41 | the conquest a tick discovers; specified by Objectives.ScanSpec with the conquest test, and used by Coordinator.State.Discover |
| Coordinator.LiveFromSpec | state.js:43-50 | the remaining tail slots are exactly the present entries, in increasing order |
| Coordinator.Framed | state.js:45-48 | putting the fixed slots around the tail slots keeps every slot once, and keeps the order |
| Coordinator.EvalOrderSpec | state.js:43-50 | Expand comes first; Collect is second when `counter % 500 >= 400` and last otherwise; the other slots are exactly the present tail entries, each once, in index order |
| Coordinator.State.constructor | state.js:11-16 | counter 0, gate closed, no objectives |
| Coordinator.State.Discover | state.js:31-41 | at most one conquest is appended, from the general to the first tile the scan finds; no other entry changes |
| Coordinator.State.RunSlot | state.js:55-61 | running one objective returns what its `exec` returns, with the router it had before the call: Expand's move; for Collect, the heaviest candidate's route when it had no router (nothing when there is no candidate) and the cached route otherwise; for a tail entry, nothing once its target is the player's and its router's move otherwise. A tail entry that yields nothing is nulled; slots 0 and 1 never are; the slot's router afterwards is `After`: gone when it yielded nothing, else its old source and target (the heaviest candidate and the general for a fresh Collect router) with the route advanced by one tile; the routers of the other slots are left alone |
| Coordinator.After | state.js:55-61 | the router a slot is left with after its call; specified in use by Coordinator.State.RunSlot and the methods above it |
| Coordinator.State.RunCollect | state.js:55 | Collect's call as in Objectives.Collect.Exec; Collect's router afterwards is `After`; no tail router changes |
| Coordinator.State.RunTail | state.js:55-61 | a tail entry's call as in Objectives.Conquest.Exec; the entry is nulled exactly when it yields nothing, and otherwise keeps its source and target with the route advanced, as `After` says; no other router changes |
| Coordinator.Ran | state.js:54-57 | recording one more slot extends the record of what each slot returned; the run returns the last slot's result |
| Coordinator.State.Step | state.js:54-61 | one turn of the loop: the slot's result is recorded, a tail entry is nulled when it yields nothing, and the record of the router each tried slot was left with, as `After` says, is extended by this slot |
| Coordinator.State.RunOrder | state.js:54-63 | objectives are run in order until the first move; the slots tried are a prefix of the order; each returned what `Returned` says for the router it had when the run began, all but the last returned nothing, and the run returns the last one's move; every tail slot tried without a move is nulled; each tried slot's router afterwards is `After` of the router it had when the run began; the routers of the slots not tried are left alone; a move from Expand wins at once |
| Coordinator.State.Run | state.js:43-63 | the order is built from the counter and the present entries, then run as in Coordinator.State.RunOrder, with the same results, `After` routers for the slots tried and untouched routers for the rest |
| Coordinator.State.Play | state.js:31-63 | discovery, then ordering, then the run, as the `Played` relation says; the move returned is the winning objective's, as `Returned` says, with the routers of the tick before and a fresh routerless one for a discovered conquest; each tried slot's router afterwards is `After` of that router; the routers of the slots not tried are left alone |
| Coordinator.State.Prepare | state.js:19-29 | the counter increments; objectives are created once, Collect targeting the general and without a router; the gate opens once the general has 5 armies and then stays open; no router changes |
| Coordinator.State.Update | state.js:18-65 | the counter increments on every call; objectives are created once, Collect targeting the general; the gate opens once the general has 5 armies and then stays open; while it is closed nothing is scanned or returned and no router changes; afterwards the tick has `Played` and returns the winning objective's move, as `Returned` says, each tried slot's router is `After` of its router before the tick, and the other routers are left alone |
| Coordinator.PlayedOf | state.js:31-63 | discovery, the order and the run together give the `Played` relation |
| Coordinator.DroppedExtend | state.js:59-61 | nulling the slot just tried keeps the record of dropped slots |
| Coordinator.DroppedNulls | state.js:50-61 | after a tick, a tail entry is null exactly when it was already null, or it was tried and was not the one that gave the move |
| Coordinator.FailedSlots | state.js:54-61 | the failed slots are the tried ones minus the one that gave the move |

## Left out

- **I/O:** sockets, command-line arguments, joining the queue, chat commands, timers, `process.exit`, emitting the attack, and `console.log`. These are I/O with no effect on the decision (main.js:1-147), so a tick is a method call that takes a board and returns an optional move.
- **`FlatQueue`:** the import is unused.
- Objectives.Collect.Exec: when no tile qualifies as the heaviest candidate, the model returns no move and leaves the router null. The source does something else, and does it deterministically:
  - It builds `Move(-1, target)` (state.js:157-158).
  - `arr[-1]` is `undefined`, and `undefined != Infinity` holds, so relaxation stops after one round (state.js:96-98).
  - The descent starts at -1. `adjacentTiles(-1, w, h)` is `[0, w - 1]` when both guards pass, because `-1 % w` is -1 and the row is 0.
  - If neither of those tiles got a label in that one round, the descent stops (state.js:106-108), `exec` returns nothing, and Collect drops the router: this matches the model.
  - Otherwise the path `[-1, x, …, target]` is cached, and Collect returns the truthy move `(-1, x)` with `x` either 0 or `w - 1`. That ends the tick before the tail runs.
  The model does not follow the second case, because -1 is not a tile of the board. Modelling it would mean letting the router hold a negative tile and hand out a move the server cannot carry out.
- Layout.Unpack: it returns no layout when the map has fewer than two entries or a negative width or height. main.js:121-127 has no such check and carries on:
  - With an empty map, the width and height are `undefined`, so `size` is `NaN` and both `slice` calls give `[]`. The gate then stays closed, because `armies[general]` is `undefined`. If the gate is already open, `Array(NaN)` at state.js:81 throws the first time a router computes a route.
  - With a negative width or height, `size` is negative, so both `slice` calls count from the end of the map and give armies and terrain that are not a board.
  The model stops at the missing layout instead, because no tick can be played on those values.
- **Negative diff counts:** Diff.Patch requires every copy and replace count it reads to be non-negative (`Counts`). With a negative count, `slice` counts from the end, and a negative replace count can move the cursor backwards.
- **Coordinator.State.Update:** it requires the player's general to be a tile of the board (`HasGeneral`) and the board to be well formed. The source reads `armies[generals[playerIndex]]` without checking either.
- **Board size:** the model assumes the board keeps its width and height over a session. Cached paths are only valid for that size.
- Router.Move.Exec: the route is not proved to be a shortest path. What is proved instead:
  - it is the unique greedy descent over the labels `Relaxation` computes, first neighbour on ties (Router.RouteUnique);
  - each step is adjacent and strictly lowers the label;
  - it runs over the player's tiles;
  - it is complete whenever an owned walk of at most 256 hops exists.
- **Router.Move.Exec, stale paths:** a cached path is never checked again against later boards. Its moves are adjacent tiles, but they need not be owned any more. The source behaves the same way.
- **Object keys:** `Object.keys` gives string indices. The model uses natural numbers for slots.
- **Board contents:** cities are a list of integers, and armies and terrain codes are unbounded integers.
- **Features state.js does not have:** the model has none of these either, because the code has none of them:
  - a bound on the length of the objectives list;
  - a retry limit in Collect;
  - separate general or swamp tiers in Expand;
  - an exploration objective;
  - moves of half an army.
  The order switches on `counter % 500 >= 400` (state.js:44), and the model uses the same test.
