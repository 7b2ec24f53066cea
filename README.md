# breadquest client core in Dafny

This project models the world engine of the breadquest browser client
(`main.js`). It covers:

- the tile codes and the `walkable` rule;
- the non-negative `mod` and the chunk addressing;
- the sparse chunked tile store behind `getTile` and `setTile`, with each
  chunk's byte arrays and redraw flag;
- the server's `setTiles` block write;
- the weighted A* search `pathFind`;
- the client's per-frame decision step, which pops the walking path or
  obeys a held key and then places, breaks, collects or walks;
- the hunt-mode replanning and crack clearing of `tick`, the click and
  hunt-button handlers, and the server messages that change the same
  globals.

The code is laid out in modules:

- `Tiles`: the tile constants, `Walkable` and an independent
  classification of every byte.
- `Grid`: positions, the `directions` table, JavaScript's truncating `%`
  and the source's `mod`, chunk keys and in-chunk indices, entities.
- `ChunkSpec`: the chunk dictionary as a value. `ReadTile`, `WriteTile`
  and the row-major block write, with their read-back and frame lemmas.
- `ChunkStore`: the store as it is kept in memory. It has a `Chunk` class
  with two `Uint8Array`s (arrays of `Byte`) and a `needsRedraw` field, and
  a `Store` class whose `chunks` map it updates in place. Every method is
  proved against `ChunkSpec` through the ghost view `Store.View()`.
- `Pathfinder`: `pathFind` as an imperative search over `open` and
  `closed` sequences.
  - A node's parent is its index in `closed`, which the search never
    changes once a node is closed.
  - The loop invariant says that every node's `g` is its parent's `g`
    plus the weight of its cell, and that positions are never duplicated.
  - A found path replays from the start to a cell meeting the goal. It has
    a cost, and with `noGrief` it enters only walkable cells.
- `Executor`: the decision step as a function `DecideStep` with its
  lemmas, and a `Client` class holding the globals `mode`, `walkPath`,
  `localPlayer.pos`, `localCrack`, `entities`, `lastInput` and `cmdQueue`.
  Its methods are proved to follow `DecideStep` and the handlers.

## Model

| member | source | states |
|---|---|---|
| Tiles.Classify | main.js:3-15 | each byte falls into exactly one tile category; block, trail, resource and symbol hold exactly for their code ranges |
| Tiles.Walkable | main.js:17-24 | `walkable`, condition for condition; `Tiles.WalkableExactly` and `Tiles.WalkableByCategory` state what it accepts |
| Tiles.WalkableExactly | main.js:17-24 | a tile is unwalkable exactly when it is 0, the oven 149, the hospital 150 or a block 129..136 |
| Tiles.WalkableByCategory | main.js:17-24 | walkability depends on the category alone: void, block, oven and hospital stop a walker, every other category does not |
| Grid.Direction | main.js:404 | each entry of the `directions` table is a unit step |
| Grid.AdjacentByDirection | main.js:404 | two cells are adjacent exactly when one direction code leads from one to the other |
| Grid.JsRem | main.js:53 | JavaScript's `%` is smaller in magnitude than the divisor and takes the sign of the dividend |
| Grid.Mod | main.js:52-54 | `((n % m) + m) % m` over JavaScript's `%`; `Grid.ModIsEuclidean` states its range and congruence |
| Grid.ModIsEuclidean | main.js:52-54 | for a positive modulus, `mod(n, m)` lies in [0, m), is congruent to n and equals the floored remainder |
| Grid.CellIndex | main.js:131 | the in-chunk index is always within the 128 x 128 array |
| Grid.ChunkKey | main.js:118-120 | `y * 2 ** 16 + x`; `Grid.ChunkKeyInjective` and `Grid.ChunkKeyCollision` state when it tells chunks apart |
| Grid.ChunkKeyInjective | main.js:118-120 | chunk keys tell chunks apart when their columns are less than 2 ** 16 apart, in both directions of the iff |
| Grid.ChunkKeyCollision | main.js:118-120 | chunk (-1, 0) and chunk (65535, -1) share a key |
| Grid.ChunkDistance | main.js:123-125 | cells less than 2 ** 16 apart lie in chunk columns less than 2 ** 16 apart |
| Grid.CellAddressInjective | main.js:123-131 | two cells with the same chunk key and the same index are the same cell, and conversely, when their chunk columns are close enough |
| ChunkSpec.Blank | main.js:78-89 | a new chunk has two zeroed arrays of 128 x 128 cells |
| ChunkSpec.ToByte | main.js:149 | storing an integer in the `Uint8Array` keeps any value in 0..255 unchanged |
| ChunkSpec.ReadTile | main.js:122-134 | `getTile` on the value map; `ChunkSpec.ReadAbsent`, `ChunkSpec.ReadWrite` and `ChunkStore.Store.GetTile` state what it returns |
| ChunkSpec.WriteTile | main.js:136-150 | `setTile` on the value map keeps every chunk 128 x 128; its effect is stated by `ChunkSpec.ReadAfterWrite`, `ChunkSpec.WriteFrame`, `ChunkSpec.WriteKeys` and `ChunkSpec.WriteSameIsNoop` |
| ChunkSpec.WriteRow | main.js:752-754 | the first n writes of one block row keep the map well formed; `ChunkSpec.ReadWriteRow` states what they write |
| ChunkSpec.WriteRows | main.js:751-755 | the first rows of the block keep the map well formed; `ChunkSpec.ReadWriteRows` states what they write |
| ChunkSpec.ReadAbsent | main.js:122-128 | reading a cell of a chunk never created gives 0 |
| ChunkSpec.ReadAfterWrite | main.js:136-150 | after `setTile(x, y, t)` the cell reads back the stored byte of t |
| ChunkSpec.WriteFrame | main.js:136-150 | a write leaves every cell with another chunk key or another index reading as before |
| ChunkSpec.WriteKeys | main.js:140-142 | a write adds at most its own chunk key and leaves every other chunk untouched |
| ChunkSpec.WriteSameIsNoop | main.js:147 | writing the value an existing cell already holds changes nothing, the redraw flag included |
| ChunkSpec.WriteKeepsSynced | main.js:147-150 | a write keeps "no redraw pending implies the drawn copy equals the cells" |
| ChunkSpec.ReadWrite | main.js:122-150 | after a write, a cell less than 2 ** 16 columns from the written one reads the written byte if it is the written cell and its old value otherwise |
| ChunkSpec.WriteAliases | main.js:118-150 | the chunk key does alias cells: a write to cell (0, 0) is read at cell (2 ** 23, -128) |
| ChunkSpec.ReadWriteRow | main.js:752-754 | after the first n cells of a block row, each written cell holds its list entry and every other cell reads as before, for cells whose column is less than 2 ** 16 from every block column |
| ChunkSpec.ReadRowStep | main.js:753 | one more `setTile` in the row changes only the read of the cell it writes |
| ChunkSpec.ReadWriteRows | main.js:751-755 | after the first rows of the block, each written cell holds its list entry and every other cell reads as before, for cells whose column is less than 2 ** 16 from every block column |
| ChunkSpec.SetTilesReadsBack | main.js:750-756 | after the `setTiles` handler, cell (pos.x + x, pos.y + y) holds entry y * size + x of the list |
| ChunkSpec.SetTilesFrame | main.js:750-756 | the `setTiles` handler leaves every cell outside the block reading as before, for cells whose column is less than 2 ** 16 from every block column |
| ChunkSpec.Render | main.js:92-104 | rendering a chunk brings its drawn copy up to its cells, clears its flag and leaves every other chunk alone |
| ChunkStore.Chunk.constructor | main.js:78-89 | a new chunk is blank and owns two fresh arrays |
| ChunkStore.Chunk.Render | main.js:92-104 | after `render`, `oldData` equals `data`, `needsRedraw` is false and `data` is unchanged |
| ChunkStore.Store.View | main.js:116 | the dictionary of chunk objects seen as a value is well formed and synced, with the same keys |
| ChunkStore.Store.constructor | main.js:116 | the store starts with no chunk |
| ChunkStore.Store.GetTile | main.js:122-134 | `getTile` reads `ReadTile` of the view, and 0 for a key not in the map |
| ChunkStore.Store.SetTile | main.js:136-150 | `setTile` changes the view exactly as `WriteTile` and keeps the store's invariant |
| ChunkStore.Store.AddChunk | main.js:140-142 | creating a chunk adds a blank chunk under its key and nothing else |
| ChunkStore.Store.StoreCell | main.js:149-150 | storing a byte changes that one cell of that chunk, sets its flag, and leaves every other chunk as it was |
| ChunkStore.Store.SetTiles | main.js:750-756 | the handler's nested loop leaves the view equal to `WriteRows` of the whole block, and each block cell reads back its list entry |
| ChunkStore.Store.SetRow | main.js:752-754 | the inner loop leaves the view equal to `WriteRow` of the full row |
| ChunkStore.Store.SetCell | main.js:753 | one inner pass advances the view from `WriteRow(.., x)` to `WriteRow(.., x + 1)` |
| ChunkStore.Store.RenderChunk | main.js:92-104 | rendering one chunk object changes the view exactly as `Render` |
| Pathfinder.CellWeight | main.js:195-201 | a cell is pruned exactly when `noGrief` holds and it is unwalkable; otherwise it weighs 1000 near an Enemy, else 1 or 4 by walkability |
| Pathfinder.Satisfies | main.js:389-392 | the three `condition` callbacks: the clicked cell itself (main.js:660-662), tile 0 or flour..bread for hunting, a cell at Manhattan distance 1 from the target for placing (main.js:640-651); `Pathfinder.PathFind` ends its paths on such a cell |
| Pathfinder.EnemyNear | main.js:199-201 | some entity of class Enemy lies within Chebyshev distance 2; `Pathfinder.CellWeight` gives such a cell weight 1000 |
| Pathfinder.DirectionTo | main.js:178-183 | the code computed from a parent to its adjacent child is a direction leading from one to the other |
| Pathfinder.BestIndex | main.js:165-170 | the scan returns a node of least `f`, the first one among equals (`FirstLeast`) |
| Pathfinder.FirstLeastUnique | main.js:165-170 | the tie rule picks one index only: two first-least indices are equal |
| Pathfinder.FindNode | main.js:193 | `find` by position returns the first node at p, or reports that there is none |
| Pathfinder.RemoveAt | main.js:172 | `splice(i, 1)` removes exactly entry i and keeps the order of the others |
| Pathfinder.NeighborOffset | main.js:190 | the four neighbour offsets are unit steps |
| Pathfinder.Neighbor | main.js:190-192 | the k-th visited neighbour is adjacent to the expanded cell |
| Pathfinder.Lower | main.js:206-211 | an open node offered a route keeps its position and `h`, never gains `g`, and changes exactly when the new `g` is smaller |
| Pathfinder.LowerAt | main.js:206-211 | offering the route to every node at p keeps the open list's length |
| Pathfinder.LowerOnly | main.js:193-211 | with distinct open positions, updating the node `find` returns is the same as offering the route to every node at p |
| Pathfinder.RelaxSpec | main.js:191-222 | the open list after one visit: unchanged for a closed or pruned cell, one node at p pushed when none is open there, otherwise the node at p lowered or kept; never shorter, positions kept, `g` never raised, nodes at other positions equal |
| Pathfinder.RelaxAll | main.js:190-222 | the four visits in the source's order never shrink the open list, keep its positions and never raise a `g` |
| Pathfinder.RelaxAllStep | main.js:190 | each visit extends the fold by one relaxation at the next neighbour |
| Pathfinder.SpecClosed | main.js:193 | a visit to a closed cell leaves the open list as it is |
| Pathfinder.SpecPruned | main.js:197 | with `noGrief`, a visit to an unwalkable cell leaves the open list as it is |
| Pathfinder.SpecOffered | main.js:203-221 | a visit to an unclosed, unpruned cell pushes a node scored g = best.g + w, h = Manhattan distance, f = g + h, or offers that route to the open node at p |
| Pathfinder.Relax | main.js:190-222 | one neighbour visit turns `open` into exactly `RelaxSpec` of it, so it pushes a new scored node or lowers and re-parents a dearer open node; it also keeps the search invariant |
| Pathfinder.Offer | main.js:203-221 | once p is neither closed nor pruned, the visit gives exactly `RelaxSpec` and keeps the search invariant |
| Pathfinder.ScoreStep | main.js:203-204 | a node opened from the last closed node with that node's `g` plus the cell weight is correctly scored |
| Pathfinder.ReplaceKeeps | main.js:206-211 | lowering an open node's scores and re-parenting it keeps the search invariant |
| Pathfinder.PushKeeps | main.js:213-220 | pushing a node at a position neither open nor closed keeps the search invariant |
| Pathfinder.CloseBest | main.js:172-173 | moving the chosen open node to `closed` keeps the search invariant |
| Pathfinder.CloseScored | main.js:172-173 | moving the chosen node keeps every node's scores valid |
| Pathfinder.CloseScoredClosed | main.js:173 | after the move every closed node, the new one included, is correctly scored |
| Pathfinder.CloseScoredOpen | main.js:172 | after the move every remaining open node is correctly scored and has a parent |
| Pathfinder.CloseSeparate | main.js:172-173 | after the move positions stay pairwise distinct within and across the lists |
| Pathfinder.ScoredLinked | main.js:176-186 | correctly scored closed nodes form parent chains to the start |
| Pathfinder.NodeOkExtend | main.js:173 | appending to `closed` keeps what a node's scores say |
| Pathfinder.ChainPath | main.js:176-186 | the codes collected from a closed node up to the start are all in 0..3 |
| Pathfinder.ChainUnfold | main.js:177-185 | a non-root node's chain is its parent's chain with the step from the parent in front |
| Pathfinder.ChainReplay | main.js:176-187 | replaying the chain of a closed node from the start ends on that node |
| Pathfinder.ClosedStep | main.js:203 | a closed root has `g` 0; any other closed node has `g` equal to its parent's plus its cell weight |
| Pathfinder.ChainCost | main.js:196-204 | the total weight of the cells along a closed node's chain is that node's `g` |
| Pathfinder.CostStep | main.js:203 | one step onto an adjacent cell adds that cell's weight to a path's cost |
| Pathfinder.PathCostCons | main.js:203 | the cost of a path with one more step is the old cost plus the weight of the new cell |
| Pathfinder.CostedPathWalkable | main.js:197 | with `noGrief`, every cell a costed path enters is walkable |
| Pathfinder.CostAtLeastLength | main.js:196-201 | every step weighs at least 1, so a path costs at least its length |
| Pathfinder.Reconstruct | main.js:176-187 | the reconstruction loop returns exactly the chain of the goal node |
| Pathfinder.ChainLeads | main.js:175-187 | the chain of a closed node that meets the goal leads from the start to it |
| Pathfinder.Expand | main.js:190-223 | the expansion gives exactly `RelaxAll` of the open list (the four visits in order), keeps the search invariant and never shrinks `open` |
| Pathfinder.VisitNext | main.js:190-222 | visit k advances the open list from `RelaxAll(.., k)` to `RelaxAll(.., k + 1)` and keeps the search invariant |
| Pathfinder.Iterate | main.js:165-223 | one pass closes the first node of least `f`; it returns a path exactly when that node meets the goal, and the path is that node's parent chain and leads to the goal; otherwise `open` becomes the four relaxations of the rest, with the search invariant kept |
| Pathfinder.PathFind | main.js:158-226 | a path found has codes in 0..3, replays from the start to a cell meeting the goal, enters no pruned cell, and with `noGrief` enters only walkable cells |
| Executor.KeyDirection | main.js:409-418 | a held W, D, S or A key gives a direction code in 0..3, and no direction exactly when none is held |
| Executor.InputReady | main.js:408 | `Date.now() - lastInput > 1000 / 16` on whole milliseconds; `Executor.GateHoldsInput` states that nothing happens while it is false |
| Executor.EncodeStep | main.js:423-427 | a place step is stored as its direction plus 4; `Executor.DecodeEncode` and `Executor.EncodeDecode` state the round trip |
| Executor.DecodeStep | main.js:423-427 | a code of 4 or more is a place step towards code - 4; the same two lemmas state the round trip |
| Executor.DecodeEncode | main.js:423-427 | decoding an encoded step gives back its direction and place flag |
| Executor.EncodeDecode | main.js:423-427 | every path code 0..7 decodes to a direction in 0..3 and encodes back to itself |
| Executor.Choose | main.js:409-432 | the chosen step always has a direction in 0..3 |
| Executor.Act | main.js:434-467 | the place, break, collect or walk action on the chosen step; `Executor.Client.Perform` is proved equal to it and the lemmas below state its effects |
| Executor.DecideStep | main.js:408-469 | one frame of input handling; the lemmas `GateHoldsInput` to `FollowPathKeepsDestination` state its effects and `Executor.Client.Decide` is proved equal to it |
| Executor.GateHoldsInput | main.js:408 | nothing changes while the time gate is closed or a crack is pending |
| Executor.ManualOverride | main.js:429-432 | a held direction key empties `walkPath` and sets the mode to manual |
| Executor.PlaceFromPath | main.js:420-443 | a popped code c >= 4 queues a placement towards c - 4 and changes nothing else but the path |
| Executor.WalkIsOneStep | main.js:463-467 | a move goes exactly one `directions` vector, onto a walkable tile, and queues that walk |
| Executor.PathBreakRetries | main.js:444-455 | a path step into a block pushes the code back, sets the crack on the block, adds it to the entities and queues its removal |
| Executor.StuckStepDropped | main.js:434-467 | a path step towards a cell that is neither a block nor walkable is consumed with no move and no command |
| Executor.CommandsAppendOnly | main.js:442-467 | a frame queues at most one command and keeps the earlier ones |
| Executor.DecideKeepsCodes | main.js:420-454 | the path codes stay in 0..7 |
| Executor.FollowPathKeepsDestination | main.js:420-466 | after a walk or a break from the path, the rest of the path still ends where the whole path did |
| Executor.ReplayFirst | main.js:421 | replaying a path is taking its last code first |
| Executor.PlacePath | main.js:640-656 | the placing code put in front of a path to a cell next to the target places towards the target, and the path it is put in front of stays walkable |
| Executor.StepCodesOf | main.js:176-187 | direction codes are valid path codes |
| Executor.Client.constructor | main.js:59-74 | the initial globals: manual mode, an empty path, position (0, 0), no crack, only the local player as an entity, `lastInput` 0, no commands, no chunks |
| Executor.Client.Decide | main.js:406-469 | the input half of `render` changes the globals exactly as `DecideStep` |
| Executor.Client.PickStep | main.js:409-432 | the key or path-code choice returns `Choose` and pops the path or clears it as it says |
| Executor.Client.Perform | main.js:434-467 | the place, break, collect or walk action changes the globals exactly as `Act` |
| Executor.Client.Tick | main.js:388-400 | returns the hunt search's result exactly in hunt mode; a found path becomes `walkPath` and leads to an unexplored or resource cell, an unreachable goal empties it, a search out of fuel keeps it, and manual mode keeps it; the crack clears exactly when its cell reads empty; nothing else changes |
| Executor.Client.Replan | main.js:388-393 | returns the hunt search's result: a found path becomes `walkPath` and leads to a tile 0 or resource cell, an unreachable goal empties it, a search out of fuel keeps it; nothing else changes |
| Executor.Client.ClearCrack | main.js:398-400 | the crack becomes null exactly when its cell reads `emptyTile` |
| Executor.Client.StartHunt | main.js:619-621 | the hunt button sets the mode and nothing else |
| Executor.Client.Click | main.js:623-670 | returns the search's result; with an item selected a found path gets the placing code in front and anything else keeps the path; without one a found path to the clicked cell becomes `walkPath`, an unreachable target empties it and a search out of fuel keeps it |
| Executor.Client.ClickPlace | main.js:638-658 | a found path becomes `walkPath` with the code placing towards the target in front, walks only over walkable cells and ends next to the target; no path keeps `walkPath` |
| Executor.Client.ClickWalk | main.js:659-669 | a found path becomes `walkPath` and replays from the player to the clicked cell, an unreachable target empties it, and a search out of fuel keeps it |
| Executor.Client.SetLocalPlayerPos | main.js:737-741 | the position is replaced and the input gate restarts; nothing else changes |
| Executor.Client.RemoveAllEntities | main.js:743-746 | only the local player and a pending crack remain |
| Executor.Client.AddEntity | main.js:776-778 | the entity is appended and nothing else changes |
| Executor.Client.SetTiles | main.js:750-756 | the tile block is written as `WriteRows` and the client's globals are unchanged |

## Left out

- Canvas drawing, DOM, chat, inventory, statistics and notifications are
  not modelled. This includes the chunk canvas, `drawTile`, the drawing
  half of `render`, `resize`, `logChat`, the "Lucky" notification in
  `setTile` and the `setStats` handler. They are presentation and have no
  effect on the world state.
- The WebSocket transport is not modelled. Queued commands are appended to
  `commands` and never flushed. The `ws.send` of `tick` and the message
  framing are I/O.
- `Date.now()` is the `now` field of the input. The input gate is
  `(now - lastInput) * 16 > 1000` on whole milliseconds. The `setInterval`
  cadences are outside the model.
- The float camera, the zoom and the conversion from a click to a tile are
  not modelled. `Click` takes the tile it maps to.
- `Pathfinder.PathFind`: the source's loop has no bound. On the unbounded
  grid without `noGrief` it need not end. The model takes a `fuel` count of
  passes, and running out gives `OutOfFuel`. Callers then keep `walkPath`
  as it was.
- `Pathfinder.PathFind`: no contract describes `Unreachable` or
  `OutOfFuel`; only a found path is described, and nothing says it is
  the cheapest.
- `Executor.Client.ClickPlace`: when the target is unreachable the source
  logs and then fails on `false.unshift`. That leaves `walkPath` as it
  was, and the model leaves it unchanged without modelling the exception.
- `walkPath = false` is modelled as the empty path. Every reader of
  `walkPath` treats `false` like an empty array.
- Node objects and their `parent` pointers become records with an index
  into `closed`. Closed nodes are never mutated in the source, so the
  index always names the same node.
- The `LocalPlayer` entity stands for the `localPlayer` object. Its class
  name is "Player", so it never counts as an Enemy. Its `id`, `username`,
  `avatar`, `bread` and `health` fields are not modelled.
- Server entities are reduced to a class name and a position.
- `ChunkStore.Store.SetTiles`: the read-back of every block cell is
  stated only for blocks at most 2 ** 16 cells wide. That bound is a
  simple sufficient condition. Two cells really alias only when their
  chunk columns are 2 ** 16 apart, so their columns are about 2 ** 23
  apart (`Grid.ChunkKeyCollision`, `ChunkSpec.WriteAliases`).
- `ChunkSpec.SetTilesFrame`: the frame is stated only for cells whose
  column is less than 2 ** 16 from every column of the block. That bound
  is also only sufficient. Cells farther away are not covered, although
  the handler can overwrite only a cell whose chunk column is 2 ** 16
  from a block cell's.
- `ChunkStore.Store.SetTiles` requires `tileList` to hold at least
  size * size entries. A shorter list would make the source store
  `undefined`, which a `Uint8Array` turns into 0; the model does not
  cover that.
- Tile values are integers. A non-integer value sent by the server is
  not covered. `ToByte` is the `Uint8Array` conversion for integers.
