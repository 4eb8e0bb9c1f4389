# Tentai Show (Galaxies): a verified model of the solvers, the generator and the checker

Tentai Show, also called Galaxies, is a puzzle played on a W x H board of tiles with dots on it. The board has to be split into regions. Each region holds exactly one dot and is point-symmetric about it. Positions are written on the internal grid of (2W+1) x (2H+1) cells. There, a tile (tx, ty) has its centre at (2tx+1, 2ty+1), and a dot may sit on a tile centre, an edge or a vertex.

The repository has six parts, and this project models each of them in Dafny:

- **Five solvers.** There are two C++ depth-first solvers, a sequential one and an OpenMP one. There is one C++ breadth-first solver. There are two C breadth-first solvers, a sequential one and an OpenMP one.
  - All of them work on the same search state: an owner grid with -1 for an empty tile, a filled count and a 64-bit Zobrist hash.
  - Each first seeds the tiles that the dots force.
  - Each then grows regions only by pairs of tiles that are mirror images through their dot.
- **The descriptor codec.** A puzzle is written `WxH:<data>`. Here `M` is a white dot, `B` is a black dot, and `a`..`z` skip 1..26 cells, row-major over the internal grid. There is one encoder (`encode_game`) and three decoders (`Puzzle::fromGameId`, `parse_game_id` and `decode_puzzle`).
- **The generator's region logic.** This covers `blank_game`, `dot_is_possible`, `add_dot`, `space_opposite_dot`, `solver_obvious_dot`, `outline_tile_fordot`, `dot_expand_or_move` and `generate_try_block`, together with its random number generator and `shuffle`.
- **The rendering rule of `printSolution`.** Each cell of the printed grid gets one character: a wall, a corner, a blank or a dot glyph.
- **The decoder's visualization.** This is the character grid of `visualize_puzzle`.
- **The checker `check.py`.** It works in five steps:
  1. It parses the printed grid.
  2. It rebuilds the tile adjacency from the absence of walls.
  3. It splits the tiles into connected regions.
  4. It requires each region to be point-symmetric about exactly one dot.
  5. It requires every dot to be used exactly once.

## How the model is laid out

Each source file is modelled in the form its code takes.

- **The C++ depth-first solvers** change their grid, count and hash in place.
  - `Boards.Board` is a class holding those fields. Its methods `TryFill`, `SeedForcedTiles`, `ApplyMove`, `UndoMove` and `AllDotsUsed` carry `modifies` clauses.
  - `SeqDfs.Solver` and `OmpDfs.Solver` own a board and a visited set. Their `Dfs` methods recurse with backtracking.
- **The breadth-first solvers** copy states.
  - A state is the datatype `Tiles.State` (cells, filled count, hash).
  - Its meaning is given by spec functions: `Tiles.TryFillResult`, `Tiles.Applied`, `Tiles.Undone`, `Seeding.SeedDots` and `CSearch.CSeedDots`.
  - The methods are proved equal to those functions.
- **The C visited table and FIFO queue** are the classes `CSearch.VisitedTable` (an array of bucket chains) and `CSearch.FifoQueue`.
- **The generator's game state** is the class `Generator.Game`. Its grid is a `seq<seq<Space>>` that the methods update in place.
  - Each method is tied to a closed-form function of the old grid: `Regions.Obvious`, `Outlines.Outlined`, `Placement.AddedDot` and `Blocks.Expand`.
  - The properties are proved about those functions.
- **The hash** is a `Words.Word`: an `int` in [0, 2^64) with a bit-by-bit exclusive or (`Words.Xor`). This is exactly `^` on `uint64_t`.
- **The Zobrist table** is a parameter. The solvers draw it at random, and that is not modelled.
- **C and C++ `/` and `%`** truncate toward zero. They are written out where an operand can be negative: `Tiles.CHalf`, `GameId.CQuot` and `GameId.CRem`. Python's `//` and `%` floor: `Tiles.PyDiv`, `Tiles.PyMod`, and `GameId.PyDots` in the decoder.
- **check.py's scan** is parameterised by a flag `guard`.
  - With `guard` false, it is the code as written. That code raises `KeyError` on some inputs; see Findings.
  - With `guard` true, it also bounds the tile column in the horizontal-edge branch.

### Where the code differs from its design description

The model follows the code in each of these cases.

- **The C breadth-first solvers try the 3x3 window of tiles touching a dot for every dot** (solver/seq_solver.c:304-398, solver/openmp_solver.c). The window step is not limited to dots that own no tile yet: the `has_tiles` test has the same code in both branches. The C++ breadth-first solver has no window step.
- **The C solvers seed only dots on tile centres, one tile each.** The C++ solvers seed 1, 2 or 4 tiles by parity.
- **The depth-first solvers accept different mirror tiles.**
  - solver/seq_solver_dfs.cpp accepts a mirror that is an empty tile or the target itself.
  - solver/openmp_solver_dfs.cpp also accepts a mirror that its dot already owns.
- **With more than one thread, the OpenMP depth-first `solve` gives up when the seeded board has no move** (solver/openmp_solver_dfs.cpp:150-151). The sequential path instead accepts a seeded board that is already complete. So the outcome can depend on the thread count.

## Model

| member | source | states |
|---|---|---|
| Words.BitXorBound | solver/seq_solver_dfs.cpp:249-261 | the exclusive or of two values below 2^k is below 2^k, so the hash stays a 64-bit word |
| Words.XorAssoc | solver/seq_solver_dfs.cpp:249-275 | `^` on 64-bit words is associative |
| Words.XorComm | solver/seq_solver_dfs.cpp:249-275 | `^` on 64-bit words is commutative |
| Words.XorZero | solver/seq_solver_dfs.cpp:105-112 | 0, the starting hash, is neutral for `^` |
| Words.XorCancel | solver/seq_solver_dfs.cpp:263-275 | XORing the same key in twice cancels it, which is how undoMove restores the hash |
| Words.XorUndoTwo | solver/seq_solver_dfs.cpp:249-275 | two keys XORed in and then XORed out again, in the same order, leave the hash as it was |
| Words.AddHash | solver/seq_solver.cpp:256-258 | inserting a hash into the visited set grows it by one exactly when the hash was absent |
| Words.HashSetBound | solver/seq_solver.cpp:203-205 | a set of 64-bit hashes has at most 2^64 elements, which bounds every breadth-first search |
| Tiles.SymmetricTile | solver/seq_solver_dfs.cpp:345-351 | the mirror tile's centre is the reflection of the tile's centre through the dot |
| Tiles.GetSymmetricTile | solver/seq_solver.cpp:410-417 | the computation with C's truncating division always equals the reflection, because the difference it halves is even |
| Tiles.SymmetricTileInvolution | solver/seq_solver_dfs.cpp:345-351 | reflecting twice through the same dot gives the tile back |
| Tiles.ForcedTilesAreTouching | solver/seq_solver.c:171-175 | the tiles seeding forces onto a dot are exactly the tiles that touch it (Chebyshev distance at most 1 from the tile centre) |
| Tiles.ForcedTilesDistinct | solver/seq_solver.cpp:339-386 | the 1, 2 or 4 forced tiles of a dot are pairwise distinct |
| Tiles.ForcedTilesMirror | solver/seq_solver.cpp:339-386 | the mirror of a forced tile through its dot is a forced tile of that dot |
| Tiles.TouchingTilesInWindow | solver/seq_solver.c:310-315 | every tile touching a dot lies in the 3x3 window around ((dx-1)/2, (dy-1)/2) with truncating division, including for dx = 0 or dy = 0 |
| Tiles.CountUpdate | solver/seq_solver_dfs.cpp:277-287 | changing one owner changes the number of filled tiles by the change in that tile's filledness |
| Tiles.HashUpdate | solver/seq_solver_dfs.cpp:277-287 | changing one owner XORs the old owner's key out of the grid hash and the new owner's key in |
| Tiles.FullGrid | solver/seq_solver_dfs.cpp:182-184 | the filled count is at most w*h, and reaches w*h exactly when every tile has an owner |
| Tiles.EmptyGrid | solver/seq_solver_dfs.cpp:105-112 | the starting grid has h rows of w tiles and every tile is empty |
| Tiles.EmptyState | solver/seq_solver_dfs.cpp:105-112 | the starting state (count 0, hash 0) is consistent with its grid for every Zobrist table |
| Tiles.TryFillKeeps | solver/seq_solver_dfs.cpp:277-287 | tryFill keeps the grid's shape, keeps every owner a dot or -1, and keeps count and hash consistent |
| Tiles.FillOne | solver/seq_solver_dfs.cpp:249-253 | filling an empty tile adds one to the count and XORs in its key |
| Tiles.ClearOne | solver/seq_solver_dfs.cpp:263-266 | emptying a filled tile subtracts one from the count and XORs its key out |
| Tiles.AppliedConsistent | solver/seq_solver_dfs.cpp:249-261 | applying a move to empty tiles keeps count and hash consistent, and fills one tile, or two when the mirror is a different empty tile |
| Tiles.UndoneConsistent | solver/seq_solver_dfs.cpp:263-275 | undoing a move whose tiles its dot still owns keeps count and hash consistent |
| Tiles.LegalApplied | solver/seq_solver_dfs.cpp:249-261 | a legal move keeps shape, owner range and consistency, and leaves the move undoable |
| Tiles.UndoneKeeps | solver/seq_solver_dfs.cpp:263-275 | undoing keeps shape, owner range and consistency |
| Tiles.UndoneApplied | solver/seq_solver_dfs.cpp:249-275 | undoMove right after applyMove restores grid, count and hash exactly, with or without a separate mirror tile |
| Tiles.AppliedKeepsSymmetric | solver/seq_solver_dfs.cpp:249-261 | a legal move keeps every region symmetric about its own dot |
| Tiles.AppliedExtends | solver/seq_solver_dfs.cpp:249-261 | a legal move only fills empty tiles, so every owner already assigned stays |
| Tiles.ExtendsTrans | solver/seq_solver.cpp:237-258 | a grid reached by a chain of child states keeps every owner of the grid it started from |
| Seeding.SeedTiles | solver/seq_solver_dfs.cpp:304 | seeding a list of tiles keeps the grid's shape |
| Seeding.SeedTilesKeeps | solver/seq_solver_dfs.cpp:289-322 | seeding keeps shape, owner range and consistency, whether or not it succeeds |
| Seeding.SeedTilesOutcome | solver/seq_solver_dfs.cpp:300-319 | seeding a dot's distinct tiles succeeds exactly when each of them on the board is empty, and then gives exactly those tiles to the dot |
| Seeding.SeedDotsKeeps | solver/seq_solver_dfs.cpp:289-322 | seeding the dots keeps shape, owner range and consistency |
| Seeding.ClashStep | solver/seq_solver_dfs.cpp:289-322 | after the first d dots, dot d finds its forced tiles free exactly when it shares none with an earlier dot |
| Seeding.OwnersStep | solver/seq_solver_dfs.cpp:289-322 | giving dot d its forced tiles, without a clash, extends the seeded owners to d + 1 dots |
| Seeding.SeedDotsOutcome | solver/seq_solver_dfs.cpp:289-322 | seedForcedTiles succeeds exactly when no two dots force the same board tile, and then each tile is owned by the dot that forces it and the others stay empty |
| Boards.Board.constructor | solver/seq_solver_dfs.cpp:105-112 | the solver starts with every tile empty, count 0 and hash 0 |
| Boards.Board.TryFill | solver/seq_solver_dfs.cpp:277-287 | success and new state are TryFillResult: off the board, true and unchanged; empty, given to d; owned by d, true and unchanged; owned by another dot, false and unchanged |
| Boards.Board.SeedDot | solver/seq_solver_dfs.cpp:293-309 | one dot's forced tiles are tried in the source's order and stop at the first failure |
| Boards.Board.SeedVertex | solver/seq_solver_dfs.cpp:310-318 | a dot on a vertex tries its four tiles in the source's order and stops at the first failure |
| Boards.Board.SeedForcedTiles | solver/seq_solver_dfs.cpp:289-322 | the dots are seeded in order, stopping at the first conflict; the result is SeedDots |
| Boards.Board.ApplyMove | solver/seq_solver_dfs.cpp:249-261 | the board becomes Applied of the old state: the target gets d, and the mirror too when it was empty and differs |
| Boards.Board.UndoMove | solver/seq_solver_dfs.cpp:263-275 | the board becomes Undone of the old state: the tiles the move wrote are emptied and their keys XORed out |
| Boards.Board.AllDotsUsed | solver/seq_solver_dfs.cpp:353-362 | true exactly when every dot owns at least one tile |
| Boards.AllDotsUsedIn | solver/seq_solver_dfs.cpp:353-362 | marking the owners that are dot indices and requiring every mark is "every dot below n owns a tile" |
| Boards.AlreadyAdded | solver/seq_solver_dfs.cpp:203-211 | the duplicate scan finds a move with the same target and dot exactly when there is one |
| Boards.SeedStep | solver/seq_solver_dfs.cpp:304 | the short-circuit chain of tryFill calls is one tryFill followed by the rest only on success |
| Boards.SeedDotsStopped | solver/seq_solver_dfs.cpp:290-321 | once seeding has failed at dot k, later dots change nothing |
| Boards.PushMove | solver/seq_solver_dfs.cpp:203-222 | appending a move with a new key keeps keys unique and keeps every key already listed |
| SeqDfs.GeneratedLegal | solver/seq_solver_dfs.cpp:214-222 | a generated move is legal and its mirror is empty, so the skip at line 220 never fires |
| SeqDfs.MovesAt | solver/seq_solver_dfs.cpp:194-225 | scanning the four neighbours of an empty tile appends exactly its missing candidates, keeping keys unique |
| SeqDfs.MoveFrom | solver/seq_solver_dfs.cpp:198-223 | one direction appends the candidate for the neighbour's owner when it is new, keeping keys unique |
| SeqDfs.Solver.constructor | solver/seq_solver_dfs.cpp:105-112 | a fresh empty board and an empty visited set |
| SeqDfs.Solver.GenerateMoves | solver/seq_solver_dfs.cpp:190-228 | every generated move is a candidate (an empty tile next to a tile of d whose mirror is an empty board tile or itself), no two share (tx, ty, d), and every candidate is generated |
| SeqDfs.Solver.Dfs | solver/seq_solver_dfs.cpp:181-247 | true leaves a full board using every dot in place; false leaves board, count and hash as on entry; the visited set only grows; symmetric regions stay symmetric |
| SeqDfs.Solver.Solve | solver/seq_solver_dfs.cpp:114-122 | a seeding conflict gives false; true means a full board using every dot, symmetric when the seeded grid is |
| OmpDfs.GeneratedLegal | solver/openmp_solver_dfs.cpp:317-358 | a generated move is legal: the flag records whether the mirror was empty, and a filled mirror is the dot's own |
| OmpDfs.MovesAt | solver/openmp_solver_dfs.cpp:317-358 | scanning the four neighbours of an empty tile appends exactly its missing candidates |
| OmpDfs.MoveFrom | solver/openmp_solver_dfs.cpp:317-358 | one direction appends the candidate for the neighbour's owner when it is new |
| OmpDfs.Shared.constructor | solver/openmp_solver_dfs.cpp:247-262 | the shared visited set starts empty |
| OmpDfs.Shared.InsertIfNew | solver/openmp_solver_dfs.cpp:254-262 | returns true exactly when h was absent, and h is present afterwards |
| OmpDfs.Solver.constructor | solver/openmp_solver_dfs.cpp:110-118 | a fresh empty board and an empty shared set |
| OmpDfs.Solver.GenerateMoves | solver/openmp_solver_dfs.cpp:317-358 | every move is a candidate (mirror on the board and empty or owned by d), keys are unique, and every candidate is generated |
| OmpDfs.Solver.TryMarkVisited | solver/openmp_solver_dfs.cpp:360-362 | true exactly when h was new to the shared set, which then holds h |
| OmpDfs.Solver.TryMarkVisitedWithLocal | solver/openmp_solver_dfs.cpp:364-369 | true exactly when h is in neither the local cache nor the shared set, and then it is in both; on false the cache is unchanged; a cache inside the shared set stays inside it |
| OmpDfs.Solver.Dfs | solver/openmp_solver_dfs.cpp:275-315 | every return leaves board, count and hash as on entry, success included; the solution is written only by the call that raises found, and is then a full grid using every dot |
| OmpDfs.Solver.TryMove | solver/openmp_solver_dfs.cpp:298-312 | one iteration of the move loop restores the board and, when it finds a solution, writes a full grid using every dot |
| OmpDfs.Solver.Solve | solver/openmp_solver_dfs.cpp:132-194 | a seeding conflict gives false; success installs a full grid using every dot, symmetric when the seeded grid is, with the hash left at its seeded value |
| OmpDfs.Solver.SolveRootSplit | solver/openmp_solver_dfs.cpp:145-180 | the root split run by one worker has the same guarantees as the sequential path |
| SeqBfs.ChildMove | solver/seq_solver.cpp:229-236 | the expansion step's move is legal, fills the neighbour and its mirror for the owner, and always has an empty mirror |
| SeqBfs.ChildReached | solver/seq_solver.cpp:237-254 | a child of a reached state by a legal move is reached: consistent, extending the seeded grid, symmetric when that is |
| SeqBfs.QueuedPush | solver/seq_solver.cpp:256-258 | pushing a reached state whose hash is marked keeps the queue invariant |
| SeqBfs.QueuedAppend | solver/seq_solver.cpp:256-258 | two queues satisfying the invariant concatenate to one that does |
| SeqBfs.QueuedTail | solver/seq_solver.cpp:208-209 | popping the front keeps the queue invariant |
| SeqBfs.QueuedGrow | solver/seq_solver.cpp:256 | a growing visited set keeps the queue invariant |
| SeqBfs.StatesReached | solver/seq_solver.cpp:237-254 | every child of a reached state by legal moves is reached |
| SeqBfs.MoveCovered | solver/seq_solver.cpp:237-256 | the child of a listed legal move has its hash among the children's hashes |
| SeqBfs.ChildrenExact | solver/seq_solver.cpp:220-263 | Children of a reached state are all reached, and every child of an owned tile by a possible step is among them |
| SeqBfs.UnseenQueued | solver/seq_solver.cpp:256-258 | queueing exactly the new-hash children of reached states keeps the queue invariant, with one queued state per hash newly marked |
| SeqBfs.UnseenFresh | solver/seq_solver.cpp:256-258 | the states queued from a list of children are among them, carry hashes not seen before, and carry pairwise distinct hashes: no hash is queued twice |
| SeqBfs.UnseenCount | solver/seq_solver.cpp:256-258 | the visited set gains exactly the hashes of the states queued, one new hash per queued state |
| SeqBfs.UnseenChain | solver/seq_solver.cpp:220-263 | queueing the new-hash children of a list, then of a second list, queues the new-hash children of their concatenation |
| SeqBfs.Child | solver/seq_solver.cpp:237-254 | the copied child equals Applied of the parent; the `continue` for a filled mirror is never taken |
| SeqBfs.Solver.constructor | solver/seq_solver.cpp:172-191 | the solver starts with an empty visited set |
| SeqBfs.Solver.TryFill | solver/seq_solver.cpp:326-337 | tryFill on a state value is TryFillResult |
| SeqBfs.Solver.SeedDot | solver/seq_solver.cpp:339-386 | one dot's forced tiles are tried in order, stopping at the first failure |
| SeqBfs.Solver.SeedVertex | solver/seq_solver.cpp:339-386 | a vertex dot's four tiles are tried in order, stopping at the first failure |
| SeqBfs.Solver.SeedForcedTiles | solver/seq_solver.cpp:339-386 | seedForcedTiles on a state value is SeedDots |
| SeqBfs.Solver.Solve | solver/seq_solver.cpp:193-269 | a seeding conflict gives nullopt; a returned state is full, uses every dot, is consistent, extends the seeded grid, and is symmetric when that is |
| SeqBfs.Solver.Search | solver/seq_solver.cpp:207-268 | the queue loop returns only a reached goal state, and terminates because every push marks a new hash |
| SeqBfs.Solver.Expand | solver/seq_solver.cpp:220-263 | the queue gains exactly the children of Children whose hashes are new, the first of each hash, in loop order, and the visited set gains exactly their hashes; every queued state is reached with its hash marked, and every child of an owned tile has its hash marked |
| SeqBfs.Solver.ExpandAt | solver/seq_solver.cpp:226-260 | the four steps from one owned tile queue exactly the new-hash children of its moves, in direction order, and mark exactly their hashes |
| SeqBfs.Solver.ExpandRow | solver/seq_solver.cpp:221-261 | one row of the tile scan extends the queue and the visited set by exactly the new-hash children of that row's moves, in column order |
| SeqBfs.Solver.ExpandStep | solver/seq_solver.cpp:229-258 | one step queues its child exactly when the step is allowed and the hash is new, and marks exactly that hash |
| CSearch.CentreTileOf | solver/seq_solver.c:186-205 | a dot on a tile centre lies on the centre of the tile it seeds |
| CSearch.CentreOnBoard | solver/seq_solver.c:186-205 | a centred dot of a fitting puzzle is on a board tile, and that tile is its own mirror |
| CSearch.CSeedDots | solver/seq_solver.c:186-205 | seeding the centred dots keeps the grid's shape |
| CSearch.OnCentreCentred | solver/seq_solver.c:186-205 | a dot on a tile centre has two odd coordinates |
| CSearch.CSeedOutcome | solver/seq_solver.c:186-205 | the C seeding succeeds exactly when no two centred dots coincide, and then the owners are exactly the centre tiles, with count and hash consistent |
| CSearch.CSeedStep | solver/seq_solver.c:186-205 | one dot of the seeding, from the outcome for the dots before it |
| CSearch.CentreFree | solver/seq_solver.c:186-205 | a free centre tile means no earlier centred dot shares the position |
| CSearch.CentreTaken | solver/seq_solver.c:186-205 | a taken centre tile means an earlier centred dot shares the position |
| CSearch.CentreFill | solver/seq_solver.c:186-205 | giving a dot its free centre tile extends the centre owners by one dot |
| CSearch.CSeedStopped | solver/seq_solver.c:186-205 | once seeding has failed, later dots change nothing |
| CSearch.CSeedSymmetric | solver/seq_solver.c:186-205 | the seeded grid is symmetric, since each centre tile is its own mirror |
| CSearch.CentreOwnersSymmetric | solver/seq_solver.c:186-205 | a grid owning only centre tiles is symmetric |
| CSearch.SeedCentres | solver/seq_solver.c:186-205 | the pre-fill loop computes CSeedDots |
| CSearch.VisitedTable.constructor | solver/seq_solver.c:12 | the table of HASH_TABLE_SIZE chains starts empty |
| CSearch.VisitedTable.IsVisited | solver/seq_solver.c:70-78 | true exactly when h is stored; nothing changes |
| CSearch.VisitedTable.AddVisited | solver/seq_solver.c:80-86 | h is stored afterwards, in the chain h % HASH_TABLE_SIZE selects, and nothing else is added |
| CSearch.VisitedTable.CheckAndAddVisited | solver/openmp_solver.c:79-106 | true exactly when h was absent; afterwards h is stored and nothing else changed |
| CSearch.FifoQueue.constructor | solver/seq_solver.c:90-106 | the queue starts empty |
| CSearch.FifoQueue.Enqueue | solver/seq_solver.c:90-98 | the state is appended at the tail |
| CSearch.FifoQueue.Dequeue | solver/seq_solver.c:100-106 | None on an empty queue, otherwise the oldest state, removed |
| CSearch.FifoQueue.TakeAll | solver/openmp_solver.c:216-230 | the level is exactly the queued states in queue order, and the queue is left empty |
| CSearch.FifoQueue.Append | solver/openmp_solver.c:403-414 | a worker's local list is spliced onto the tail in order |
| CSearch.WindowMove | solver/seq_solver.c:313-346 | the window step's move is legal, fills the tile and its mirror for the dot, and has an empty mirror |
| CSearch.Offer | solver/seq_solver.c:293-298 | the child's hash is recorded, and the child is queued exactly when the hash was new |
| CSearch.OfferChild | solver/seq_solver.c:271-298 | when a step applies, its child's hash is recorded afterwards and out gains the child exactly when that hash was new; when the step does not apply, out and the table are unchanged |
| CSearch.NeighbourChild | solver/seq_solver.c:262-291 | a neighbour step applies exactly when the neighbour is an empty board tile whose mirror is an empty board tile or itself, and its child is Applied of the parent; the `free(next); continue` branch is unreachable |
| CSearch.WindowChild | solver/seq_solver.c:313-346 | a window step applies exactly when the tile touches the dot, is empty and has an empty or self mirror, and its child is Applied of the parent |
| CSearch.NeighbourStep | solver/seq_solver.c:262-300 | one neighbour step queues its child exactly when the step applies and the hash is new, and records exactly that hash; the child's hash is recorded whenever the step applies |
| CSearch.WindowStep | solver/seq_solver.c:313-346 | one window step queues its child exactly when the step applies and the hash is new, and records exactly that hash; the child's hash is recorded whenever the step applies |
| CSearch.ExpandState | solver/seq_solver.c:236-400 | out gains exactly the children of Expansion (every dot's neighbour steps, then its window steps) whose hashes are new, the first of each hash, in generation order; the table gains exactly their hashes; afterwards every neighbour child and every window child of every dot has its hash recorded |
| CSearch.ExpandDot | solver/seq_solver.c:236-398 | one dot's neighbour steps then window steps extend out and the table by exactly the new-hash children of that dot's moves |
| CSearch.ExpansionReached | solver/seq_solver.c:236-400 | every child in Expansion of a reached state is reached |
| CSearch.ExpansionCovers | solver/seq_solver.c:236-400 | once the hashes of Expansion are seen, every neighbour child and window child of every dot is seen: Expansion misses no child |
| CSearch.MovesQueued | solver/seq_solver.c:293-298 | queueing exactly the new-hash children of legal moves keeps the queue invariant, counts one queued state per new hash, and records each child's hash |
| CSearch.OwnedPartLegal | solver/seq_solver.c:256-304 | every move of a dot's neighbour part is legal |
| CSearch.OwnedPartCover | solver/seq_solver.c:256-304 | every possible neighbour step from a tile the dot owns is in its neighbour part |
| CSearch.WindowPartLegal | solver/seq_solver.c:306-398 | every move of a dot's window part is legal |
| CSearch.WindowPartCover | solver/seq_solver.c:306-398 | every window step the dot can take is in its window part |
| CSearch.ExpandOwned | solver/seq_solver.c:256-304 | the neighbour steps from the tiles a dot owns, in row order, queue exactly the new-hash children of OwnedPart and record exactly their hashes; every child from an owned tile is recorded |
| CSearch.NeighbourSteps | solver/seq_solver.c:261-301 | the four neighbour steps from one tile queue exactly the new-hash children of its moves, in direction order, and record every child |
| CSearch.ExpandWindow | solver/seq_solver.c:306-398 | the 3x3 window scan queues exactly the new-hash children of WindowPart, in scan order, and records the child of every tile touching the dot that can be taken |
| CSeq.Solve | solver/seq_solver.c:177-402 | an overlap is reported exactly when two centred dots share a position; a solution is full, uses every dot, is symmetric about every dot, is consistent, and extends the seeded grid |
| COmp.Solve | solver/openmp_solver.c:181-425 | the level-by-level search has the same guarantees as the sequential C solver: an overlap exactly when two centred dots share a position, and a solution only a full, symmetric, consistent goal state extending the seed |
| COmp.ProcessLevel | solver/openmp_solver.c:232-400 | a solution is found exactly when some state of the level solves, and it is the first such; the local list holds exactly the new-hash children the states before it offer, in order, and the table gains exactly their hashes; a solution is a reached goal state |
| COmp.RunLevel | solver/openmp_solver.c:215-414 | after one level the queue holds exactly the new-hash children of the states before the first solving one, in order; a solution is found exactly when the level holds a solving state |
| COmp.ProcessState | solver/openmp_solver.c:238-400 | a state solves exactly when it is full and uses every dot; otherwise the local list gains exactly the new-hash children of its expansion |
| COmp.FirstSolving | solver/openmp_solver.c:239-267 | the index of the first solving state: no state before it solves, and it solves when it is inside the level |
| COmp.LevelChildrenReached | solver/openmp_solver.c:238-400 | every child a level of reached states offers is reached |
| GameId.Step | solver/seq_solver.cpp:109-121 | a character advances the position by at most 26, and by a positive amount exactly for a dot or a letter |
| GameId.DotPositionsShape | generator/decoder.py:27-44 | one dot per M or B, at positions below the total advance that strictly increase |
| GameId.AdvanceAppend | generator/decoder.py:27-44 | the advance of a concatenation is the sum of the advances |
| GameId.DotPositionsAppend | generator/decoder.py:27-44 | decoding a + b decodes a, then b from where a left the counter |
| GameId.DivisionsAgree | generator/decoder.py:33-34 | on a grid of positive width, at non-negative positions, C's and Python's division both place every dot row-major |
| GameId.DivisionsDiffer | generator/decoder.py:33-34 | for a negative quotient C truncates and Python floors, so they can differ |
| GameId.DecodeC | solver/seq_solver.cpp:109-121 | the decoding loop appends (pos % sx, pos / sx) for each M or B, skips a letter's rank, ignores anything else, and yields one dot per M or B |
| GameId.DecodePy | generator/decoder.py:27-44 | the same loop with Python's floor division |
| GameId.FindFromFirst | solver/seq_solver.cpp:89-93 | find returns the first occurrence, and none only when there is none |
| GameId.FindAt | solver/seq_solver.cpp:89-93 | the first occurrence is at k exactly when the character is at k and not before |
| GameId.FindSubFrom | solver/seq_solver.cpp:460-467 | the pattern occurs at the index returned and nowhere between the start and it; none means it occurs nowhere from the start on |
| GameId.SplitPairOf | generator/decoder.py:20-21 | a split on a character that occurs once gives the two sides back |
| GameId.ScanInt | solver/seq_solver.cpp:95-101 | a successful scan of %d or std::stoi consumes at least one character and stops at the end or just before a non-digit |
| GameId.Stoi | solver/seq_solver.cpp:95-101 | std::stoi gives a value in int range, or fails when there is no digit or the value is out of range |
| GameId.PyStrip | generator/decoder.py:24 | strip never lengthens the text, and a nonempty result neither starts nor ends with whitespace |
| GameId.PyStripSlice | generator/decoder.py:24 | strip returns a slice s[a..b] of the text with only whitespace outside it |
| GameId.FromGameId | solver/seq_solver.cpp:88-122 | fromGameId computes ParseCpp: nothing without a ':', without an 'x' before it, or when a dimension fails std::stoi; otherwise sx = 2w+1, sy = 2h+1 and the decoded dots |
| GameId.ParseGameId | solver/seq_solver.c:110-147 | parse_game_id computes ParseC: nothing without a ':' or when sscanf does not read both dimensions; otherwise the decoded dots, at most MAX_DOTS |
| GameId.DecodePuzzle | generator/decoder.py:8-46 | decode_puzzle computes ParsePy: it raises unless there is exactly one ':' and exactly one 'x' before it, with two integers |
| GameId.SelectGameId | solver/seq_solver.cpp:460-467 | main's choice of descriptor: the text after "Game ID: ", else the whole line when it holds a ':', else nothing |
| GameId.SelectGeneratedLine | generator/simple_generator.c:668 | for the line the generator prints, the solvers select exactly the descriptor `WxH:<data>` |
| GameId.RunCharsFacts | generator/simple_generator.c:524-530 | a run of n skipped cells encodes an advance of exactly n, with letters only and no dot |
| GameId.EncodeRoundTrip | generator/simple_generator.c:514-558 | decoding encode_game's data gives exactly the dot cells in row-major order with their colours, and the advance equals the number of cells |
| GameId.ItoaValue | generator/simple_generator.c:668 | printf's %d of a non-negative number is a digit string with that value |
| GameId.StoiNumeral | solver/seq_solver.cpp:95-101 | std::stoi of a digit string in range is its value |
| GameId.ScanDimsOf | solver/seq_solver.c:116-118 | sscanf's "%dx%d" reads both numerals of a descriptor |
| GameId.PyIntDigits | generator/decoder.py:21 | int() of a plain digit string is its value |
| GameId.CppRoundTrip | solver/seq_solver.cpp:88-122 | fromGameId reads the generator's descriptor back: the dimensions and the dots of the encoded grid |
| GameId.CRoundTrip | solver/seq_solver.c:110-147 | parse_game_id reads the generator's descriptor back |
| GameId.PyRoundTrip | generator/decoder.py:8-46 | decode_puzzle reads the generator's descriptor back |
| GameId.DescriptorRoundTrip | generator/simple_generator.c:514-558 | the descriptor printed for a w x h board is read back alike by all three parsers, giving the dimensions and exactly the board's dots in row-major order |
| Spaces.KindAt | generator/simple_generator.c:160-167 | a space is a tile exactly when both coordinates are odd, a vertex exactly when both are even, an edge otherwise |
| Spaces.Opposite | generator/simple_generator.c:288-300 | space_opposite_dot is the point reflected through the dot, and nothing exactly when that falls off the grid |
| Spaces.OppositeInvolution | generator/simple_generator.c:288-300 | taking the opposite twice gives back the space |
| Spaces.OppositeKind | generator/simple_generator.c:288-300 | the opposite has the same type, so tiles mirror onto tiles |
| Spaces.RowCells | generator/simple_generator.c:519-521 | encode_game sees each space of a row as a dot with its colour or a blank |
| Spaces.SetSpaceSame | generator/simple_generator.c:304-343 | writing a space back unchanged leaves the grid as it was |
| Spaces.GridExt | generator/simple_generator.c:304-343 | two grids of the same size that agree everywhere are equal |
| Random.LowBitsBelow | generator/simple_generator.c:66-67 | the low k bits of a word are below 2^k |
| Random.LowBitsKeeps | generator/simple_generator.c:66-67 | a value below 2^k is its own low k bits |
| Random.Mask | generator/simple_generator.c:66-68 | random_bits' mask leaves a value below 2^bits when bits < 32 and keeps a value already below it |
| Random.Rng.constructor | generator/simple_generator.c:41-45 | the generator state is the four given words |
| Random.Rng.RandomBits | generator/simple_generator.c:54-69 | one xorshift step of the state; the result is the new last word, cut to its low bits bits when bits < 32 |
| Random.Rng.RandomUpto | generator/simple_generator.c:71-86 | 0 for a zero limit without a draw; otherwise a returned value is below the limit |
| Random.Halve | generator/simple_generator.c:76-80 | one halving of max keeps the bit count's invariant |
| Random.BitLength | generator/simple_generator.c:76-80 | the counted bits satisfy 2^(bits-1) <= limit < 2^bits |
| Random.Shuffle | generator/simple_generator.c:88-103 | Fisher-Yates leaves the array a permutation of its contents |
| Placement.PossibleIsolated | generator/simple_generator.c:240-281 | a possible position has no other dot within its box and, when associations are not allowed, no associated space in it |
| Placement.PossibleTileOpen | generator/simple_generator.c:273-276 | a tile position is possible only when its own space has no edge set |
| Placement.PossibleAllowing | generator/simple_generator.c:263-264 | forbidding associations only rules more positions out |
| Placement.AddedDot | generator/simple_generator.c:283-286 | add_dot makes the space a dot with count 0 and changes no other space |
| Placement.AddedDotKeeps | generator/simple_generator.c:283-286 | a dot put where dot_is_possible allowed one keeps the grid valid and the position still possible |
| Regions.Obvious | generator/simple_generator.c:304-343 | the grid after solver_obvious_dot keeps its dimensions |
| Regions.ObviousPoint | generator/simple_generator.c:314-336 | a tile is newly given to the dot exactly when it was unassociated and its opposite is on the grid and free or the dot's own |
| Regions.ObviousGrows | generator/simple_generator.c:324-336 | only unassociated spaces change, each to the dot; no other field changes, and the dot's count grows by the number of spaces newly associated (a self-opposite tile counted once) |
| Regions.ObviousPairs | generator/simple_generator.c:324-336 | a newly associated tile comes with its opposite, associated with the same dot |
| Regions.ObviousMaximal | generator/simple_generator.c:309-340 | afterwards no tile is left that the dot could still take |
| Regions.ObviousIdempotent | generator/simple_generator.c:304-343 | running solver_obvious_dot twice for the same dot changes nothing more |
| Regions.ObviousKeepsValid | generator/simple_generator.c:304-343 | every association still points at a dot, and the border stays closed |
| Regions.ObviousKeepsSymmetry | generator/simple_generator.c:304-343 | the dot's region stays point-symmetric about it |
| Regions.Give | generator/simple_generator.c:324-327 | giving a space to a dot keeps the grid's dimensions |
| Regions.GivePair | generator/simple_generator.c:397-409 | giving a space and its opposite keeps the grid's dimensions |
| Regions.TileStep | generator/simple_generator.c:311-338 | one tile of the scan keeps the grid's dimensions |
| Regions.ScanGrid | generator/simple_generator.c:309-340 | the grid partway through the scan keeps its dimensions |
| Regions.ScanStart | generator/simple_generator.c:309-310 | before the scan nothing is given away and the grid is as it was |
| Regions.ScanStep | generator/simple_generator.c:311-338 | one tile step turns the grid staged at (x, y) into the grid staged at (x, y + 2); a reported take means something has been given away, and no take leaves the given-away tiles as they were |
| Regions.ScanColumn | generator/simple_generator.c:309-340 | finishing a column is starting the next one |
| Regions.ScanFinish | generator/simple_generator.c:309-340 | once every column is scanned, exactly the obvious tiles are given away and the grid is Obvious |
| Outlines.Dir | generator/simple_generator.c:346 | the four directions of dxs and dys, each with its own index |
| Outlines.DirOfIndex | generator/simple_generator.c:346 | a step with an index is that direction |
| Outlines.MismatchBelowSome | generator/simple_generator.c:349-378 | some edge among the first n directions is wrong exactly when one of them is |
| Outlines.Outlined | generator/simple_generator.c:349-378 | the outlined grid keeps its dimensions |
| Outlines.OutlinedPoint | generator/simple_generator.c:349-378 | each space of the outlined grid is given by OutlinedSpace |
| Outlines.OutlinedNone | generator/simple_generator.c:349-378 | correcting no direction leaves the grid as it was |
| Outlines.OutlinedFields | generator/simple_generator.c:371-376 | outlining changes edge flags only |
| Outlines.SameOutlined | generator/simple_generator.c:361-369 | the same-region test reads no edge flag, so outlining does not change it |
| Outlines.OutlinedStep | generator/simple_generator.c:350-377 | step i changes only the edge in direction i, to its corrected flag, or nothing when it is off the grid |
| Outlines.OutlineSettles | generator/simple_generator.c:345-381 | after a marking call, a second call on the same tile reports no work |
| Outlines.OutlineChangesSome | generator/simple_generator.c:371-376 | a mismatched edge is corrected, so the grid changes |
| Outlines.OutlineChangesNone | generator/simple_generator.c:371-376 | with no mismatched edge every space keeps its value |
| Outlines.OutlineChanges | generator/simple_generator.c:345-381 | outline_tile_fordot reports work exactly when marking would change the grid |
| Outlines.OutlineKeepsValid | generator/simple_generator.c:345-381 | outlining a tile keeps the grid valid: a border edge has nothing beyond it and stays set |
| Blocks.OpenMirrored | generator/simple_generator.c:390-397 | when the test loop passes, every space's opposite is on the grid |
| Blocks.WidensSelf | generator/simple_generator.c:385-414 | a grid is a widening of itself |
| Blocks.WidensTrans | generator/simple_generator.c:385-414 | widening composes |
| Blocks.GiveWidens | generator/simple_generator.c:400-404 | giving one space to the dot widens the grid and leaves the space with the dot |
| Blocks.GivePairWidens | generator/simple_generator.c:399-410 | giving a space and its free or own opposite widens the grid and leaves both with the dot |
| Blocks.WidensValid | generator/simple_generator.c:385-414 | a widening of a valid grid is valid and keeps every dot |
| Blocks.Expand | generator/simple_generator.c:399-410 | the assignment loop keeps the grid's dimensions |
| Blocks.ExpandNext | generator/simple_generator.c:399-410 | the assignment loop one entry further gives the next pair to the dot |
| Blocks.ExpandBelongs | generator/simple_generator.c:399-410 | after the assignment loop every space of the block and its opposite belong to the dot |
| Blocks.ExpandFrame | generator/simple_generator.c:399-410 | the assignment loop changes no space it does not touch |
| Blocks.ExpandKeepsValid | generator/simple_generator.c:399-410 | the assignment loop keeps the grid valid and the dot in place |
| Blocks.BlockJoinsDot | generator/simple_generator.c:411-413 | after the assignment and solver_obvious_dot, every block tile and its opposite belong to the dot |
| Blocks.BlockInside | generator/simple_generator.c:436-444 | every tile of the block lies in the rectangle x1..x2 by y1..y2 |
| Blocks.Cap | generator/simple_generator.c:446-461 | the outside list holds at most MAX_OUTSIDE tiles, a prefix of the candidates |
| Blocks.CapAppend | generator/simple_generator.c:446-461 | adding candidates after the list is full changes nothing |
| Blocks.CandidatesOnGrid | generator/simple_generator.c:446-461 | every outside tile gathered around an in-range block is on the grid |
| Blocks.ShuffledOnGrid | generator/simple_generator.c:463 | a shuffled list of on-grid tiles holds on-grid tiles |
| Blocks.MaxSize | generator/simple_generator.c:432-433 | the size limit is at least 4, and above 4 only when it times ndots stays within w*h |
| Generator.Game.constructor | generator/simple_generator.c:146-185 | every space is zeroed and typed by parity, F_EDGE_SET is on exactly the border, and the grid is valid |
| Generator.Game.EncodeGame | generator/simple_generator.c:514-558 | the descriptor data is Encode of the grid's cells in row-major order |
| Generator.Game.SolverObviousDot | generator/simple_generator.c:304-343 | the grid becomes Obvious of the old grid, and the result is true exactly when some tile was taken |
| Generator.Game.ObviousColumn | generator/simple_generator.c:310-337 | the inner loop scans one column, staying at ScanGrid |
| Generator.Game.ObviousTile | generator/simple_generator.c:311-338 | one tile of the scan, written in place, is TileStep |
| Generator.Game.DotIsPossible | generator/simple_generator.c:240-281 | the result is Possible: every space in the box of the position is clear |
| Generator.Game.OutlineTileForDot | generator/simple_generator.c:345-381 | the result is true exactly when an edge around the tile is wrong; with mark the grid becomes Outlined, without it nothing changes |
| Generator.Game.OutlineEdges | generator/simple_generator.c:349-378 | the loop over the four directions reports exactly a mismatch among them |
| Generator.Game.OutlineEdge | generator/simple_generator.c:350-377 | one direction reports its mismatch and corrects it when marking |
| Generator.Game.AddDot | generator/simple_generator.c:283-286 | the grid becomes AddedDot |
| Generator.Game.OppositesFree | generator/simple_generator.c:390-397 | the test loop passes exactly when every block space has an opposite on the grid that is free or the dot's own |
| Generator.Game.ExpandAll | generator/simple_generator.c:399-410 | the assignment loop makes the grid Expand of the old grid |
| Generator.Game.GiveTile | generator/simple_generator.c:401-404 | one space is given to the dot and counted |
| Generator.Game.DotExpandOrMove | generator/simple_generator.c:385-414 | all or nothing: on failure the grid is unchanged; on success every block space and its opposite join the dot, followed by solver_obvious_dot |
| Generator.Game.CollectBlock | generator/simple_generator.c:435-444 | the block is gathered exactly when it has at most MAX_TOADD tiles and none is associated |
| Generator.Game.CollectOutside | generator/simple_generator.c:446-461 | the outside list is exactly the first MAX_OUTSIDE candidates in the source's order |
| Generator.Game.GenerateTryBlock | generator/simple_generator.c:425-475 | on failure the grid is unchanged and, for a free block, every outside tile was rejected; on success a dot next to the block with fewer than maxsz spaces took the whole block and its mirror |
| Generator.Game.OfferOutside | generator/simple_generator.c:446-474 | the gathered, shuffled outside tiles are offered the block in turn, with the same all-or-nothing outcome |
| Generator.Game.OfferBlock | generator/simple_generator.c:465-472 | the first outside tile whose dot can take the block ends the loop; otherwise every tile was rejected and nothing changed |
| Generator.EncodeRow | generator/simple_generator.c:519-539 | one row of encode_game extends the output and run as EncodeState does |
| Generator.EncodeSpace | generator/simple_generator.c:520-538 | a dot flushes the run and writes its letter; anything else lengthens the run |
| Generator.Flush | generator/simple_generator.c:524-530 | a pending run is written out as RunChars, 'z' while more than 26 cells remain and then the letter of the rest, and the run is reset |
| Render.FirstDotFrom | solver/seq_solver.cpp:131-136 | the search returns -1 or an index at or after i |
| Render.FirstDot | solver/seq_solver.cpp:131-136 | dotIndexAt returns -1 or a dot index |
| Render.FirstDotFromFinds | solver/seq_solver.cpp:131-136 | the search from i finds the first dot at the cell, and -1 only when there is none |
| Render.FirstDotFinds | solver/seq_solver.cpp:131-136 | dotIndexAt finds the first dot at the cell, and -1 exactly when there is none |
| Render.DotIndexAt | solver/seq_solver.cpp:131-136 | the linear search computes FirstDot |
| Render.Rendered | solver/seq_solver.cpp:278-316 | printSolution writes sy rows of exactly sx characters |
| Render.RenderVertical | solver/seq_solver.cpp:290-297 | a vertical edge cell without a dot shows a wall exactly when the owners left and right differ, an off-board side counting as -2 |
| Render.RenderHorizontal | solver/seq_solver.cpp:298-305 | a horizontal edge cell without a dot shows '-' exactly when the owners above and below differ |
| Render.RenderBorder | solver/seq_solver.cpp:290-305 | an edge cell on the border always shows a wall |
| Render.RenderDots | solver/seq_solver.cpp:284-289 | a cell shows a dot glyph exactly when a dot lies there, and then the first such dot's colour |
| Render.PyIndex | generator/decoder.py:79-83 | a valid Python index names an element of the list |
| Render.FrameGrid | generator/decoder.py:60-76 | the frame has sy rows of sx cells |
| Render.FrameStep | generator/decoder.py:60-76 | one more framed cell |
| Render.FrameDone | generator/decoder.py:60-76 | all rows framed is the frame |
| Render.DrawFrame | generator/decoder.py:60-76 | the first two loops build the frame: '+' at even-even cells, the vertical box character at even x, the horizontal one at even y, blank at tiles |
| Render.Visual | generator/decoder.py:49-88 | when drawn, the grid has the frame's dimensions |
| Render.VisualizeGrid | generator/decoder.py:60-83 | visualize_puzzle computes Visual: the frame, then the dots written over it in order |
| Render.VisualStaysNone | generator/decoder.py:79-83 | once a dot is out of range, visualize_puzzle has raised for good |
| Render.VisualCells | generator/decoder.py:60-83 | a grid is drawn exactly when every dot's indices are in range; each cell then shows the last dot landing on it, or its frame character |
| OutputText.SplitLines | check.py:5 | split('\n') gives at least one line |
| OutputText.SplitJoin | check.py:5 | splitting and joining gives the text back, and no line holds a newline |
| OutputText.JoinSplit | check.py:5 | splitting a join of newline-free lines gives the lines back |
| OutputText.SearchHeaderFinds | check.py:8-10 | re.search reports the leftmost match, and none only when there is none |
| OutputText.HeaderOfDims | check.py:8-13 | the header printSolution writes matches the pattern and gives back its dimensions |
| OutputText.TitleLineFrom | check.py:16-19 | the first line starting with the title, or none only when there is none |
| OutputText.GridStart | check.py:15-19 | the loop finds the title line and returns two lines past it, or -1 |
| OutputText.ParseOutput | check.py:4-37 | parse_output computes ParsedOutput |
| OutputText.ParsedOutputMeans | check.py:8-37 | no match gives the dimensions error; otherwise exactly 2h+1 rows starting two lines after the title line; the row-count error can never be raised |
| Adjacency.Pad | check.py:58-59 | a padded row is at least 2w+1 long and no shorter than the row |
| Adjacency.PadChars | check.py:58-59 | padding keeps the row's characters and adds blanks up to 2w+1 only |
| Adjacency.TileSetMembers | check.py:48-52 | the tile set holds exactly the board's tiles |
| Adjacency.TileListMembers | check.py:48-52 | the tile list holds exactly the board's tiles |
| Adjacency.InitTiles | check.py:47-52 | the tiles row by row, each with an empty neighbour list |
| Adjacency.ScanCell | check.py:62-87 | one character's dot check and edge branches, as CellStep |
| Adjacency.PadLine | check.py:58-59 | the padded row is Pad |
| Adjacency.ScanRow | check.py:61-87 | the loop over one padded row; a KeyError ends it |
| Adjacency.ScanRows | check.py:55-87 | the scan over all rows; a KeyError ends it |
| Adjacency.ConnectAdds | check.py:76-77 | appending to both lists adds exactly the pair in both directions |
| Adjacency.FoundRows | check.py:55-87 | after k rows the scan has found what the first k rows show |
| Adjacency.ScanCrashes | check.py:80-87 | the scan raises KeyError exactly when the flag is off and some open horizontal edge cell lies right of the board; the keys stay the board's tiles |
| Adjacency.ScanLinks | check.py:70-87 | when the scan ends normally, b is a neighbour of a exactly when the two board tiles are neighbours with an open edge cell (blank or dot glyph) between them |
| Adjacency.ScanDots | check.py:65-66 | when the scan ends normally, the dots are exactly the glyph cells, each once, in reading order |
| Adjacency.NarrowRowsNoOverhang | check.py:80-87 | rows no wider than the board have no overhang, so the scan never raises on them |
| Adjacency.ScanGuardAgrees | check.py:80-87 | whenever the scan as written ends normally, it computes what the guarded scan computes |
| Adjacency.TrailingBlankCrashes | check.py:80-87 | a 1 x 2 board whose middle rule carries one trailing blank raises KeyError as written, and not with the column check |
| Components.DistinctCard | check.py:153 | len(set(s)) is at most len(s), with equality exactly when no element is listed twice |
| Components.FlattenMembers | check.py:93-106 | a tile lies in the flattened regions exactly when it lies in one of them |
| Components.FreshHolds | check.py:102-105 | the neighbours queued are exactly the unvisited ones, each once |
| Components.Enqueue | check.py:102-105 | every neighbour is marked visited, and the unvisited ones are queued in order |
| Components.SearchStep | check.py:99-105 | taking the front of the queue keeps the search invariant and makes progress |
| Components.Explore | check.py:96-105 | the region starts from the tile, lists each tile once, none visited before, holds only tiles reachable from the tile, and every neighbour of its tiles is visited afterwards |
| Components.FindRegions | check.py:89-106 | the regions are nonempty, partition the tiles, and no link leaves a region; each region is the connected component of its first tile, and the regions are the components in the order of their first tiles in the tile list |
| Components.FoundAppend | check.py:93-106 | appending the region explored from an unvisited tile keeps the regions found, and that region is the component of its first tile |
| Components.RegionComponent | check.py:96-105 | a region of tiles reachable from its first tile that no edge leaves is exactly that tile's component |
| Components.ComponentsStep | check.py:93-95 | a visited tile starts no region; an unvisited one starts the next component in tile order |
| Components.ReachClosed | check.py:99-105 | a set no edge leaves holds every tile reachable from its tiles |
| Components.SameComponents | check.py:52 | two adjacencies with the same tiles and neighbour sets give the same components in the same order |
| Components.DistinctParts | check.py:93-106 | regions whose concatenation lists no tile twice each list no tile twice |
| Components.RegionClosed | check.py:93-106 | with symmetric adjacency, a region found outside earlier closed regions has no edge out |
| Validation.Mirror | check.py:120-131 | the mirror computed with Python's floor division is the tile the solvers' getSymmetricTile gives |
| Validation.IsSymmetric | check.py:119-135 | the loop reports symmetry exactly when every tile of the region has its mirror in the region |
| Validation.CentresMembers | check.py:115-141 | the centres are exactly the dots about which the region is symmetric, in increasing order |
| Validation.CentresPrefix | check.py:115-141 | the centres among the first m dots are a prefix of those among the first n |
| Validation.Final | check.py:149-156 | the final checks give a verdict, never a crash |
| Validation.Walk | check.py:111-156 | the region loop gives a verdict, never a crash |
| Validation.ValidateRegions | check.py:109-156 | the region checks compute Validated: multiple centres, no centre (with the region's size), region count, reuse of dots, or success |
| Validation.ValidatedBySets | check.py:109-156 | two splits with the same tile sets in the same order, each region listing its tiles once, get the same verdict |
| Validation.CentresBySets | check.py:115-141 | the centres of a region depend only on its tile set |
| Validation.CentreList | check.py:146 | one used dot per region, each a centre of its region |
| Validation.WalkPasses | check.py:111-156 | the region loop passes exactly when each region has one centre, the counts agree and no dot is used twice |
| Validation.ValidatedPass | check.py:109-156 | validation passes exactly when each region has exactly one centre, there are as many regions as dots, and the regions' centres are distinct |
| Validation.RightmostTile | check.py:120-135 | a nonempty region has a rightmost tile |
| Validation.LowestTile | check.py:120-135 | a nonempty region has a lowest tile |
| Validation.MirrorTwice | check.py:126-131 | mirroring through two dots in turn translates a tile by their difference |
| Validation.NoTwoCentres | check.py:137-141 | a nonempty region is symmetric about at most one of two distinct dots |
| Validation.AtMostOneCentre | check.py:137-141 | with distinct dots, a nonempty region has at most one centre |
| Validation.NeverMultiple | check.py:137-141 | with distinct dots and nonempty regions, "Region symmetric around multiple dots" is never returned |
| Checker.EmptyAdj | check.py:47-52 | an empty neighbour list for each tile of the board |
| Checker.EmptyOnUnique | check.py:47-52 | there is only one such map |
| Checker.LinkedSymmetric | check.py:76-87 | an open edge links two tiles in both directions |
| Checker.OrderedDistinct | check.py:65-66 | dots found in reading order are at distinct positions |
| Checker.ScanReady | check.py:55-87 | a scan that does not raise gives a closed, symmetric adjacency keyed by the tiles, linking exactly the tiles with open edges between them |
| Checker.FoundRegions | check.py:89-106 | the regions found split the board into nonempty regions, each tile in exactly one, with no open edge leading out, and they are the components of the open-edge links in the order of their first tiles in reading order |
| Checker.LinksOf | check.py:76-87 | the tiles linked to a tile are exactly its neighbours with no wall drawn between |
| Checker.LinkAdj | check.py:47-87 | the adjacency the printed grid draws: keyed by the board's tiles, listing exactly the linked tiles |
| Checker.VerdictDetermined | check.py:89-156 | any two splits RegionsOf admits get the same verdict |
| Checker.ValidateSolution | check.py:39-156 | KeyError exactly when the unguarded scan meets an open cell right of the board; otherwise the verdict of the region checks on the connected regions of the grid, in the order of their first tiles, with the grid's dots in reading order, and the same verdict for every split RegionsOf admits; never "multiple centres" |
| Checker.Check | check.py:158-166 | "No solution found" fails first; a parse error fails with its message; otherwise the verdict of validate_solution on the parsed grid, determined by the grid |
| Checker.RenderedScans | check.py:80-87 | the grid printSolution writes never raises KeyError, and the scan as written agrees with the guarded one on it |

## Findings

| source | as written | input that shows it | evidently intended | confidence | as-written member | corrected member |
|---|---|---|---|---|---|---|
| check.py:80-87 | the horizontal-edge branch bounds the tile rows ty1 and ty2 but not the tile column tx = (x-1)//2, so an open cell at x >= 2w+1 looks up a missing key in adj and raises KeyError | board 1 x 2 whose middle rule `+-+ ` carries one trailing blank: the cell (3, 2) sends the branch to the missing tile (1, 0) | an open cell past the board links nothing, as the vertical branch's check `0 <= tx1 < w and 0 <= tx2 < w` does for columns | not executed | Adjacency.TrailingBlankCrashes | Adjacency.ScanGuardAgrees |

The corrected scan is the one with `guard` true. `Adjacency.ScanCrashes` proves it never raises. `Adjacency.ScanGuardAgrees` proves it computes the same as the scan as written whenever that scan does not raise. `Checker.RenderedScans` proves that the grid printSolution writes never triggers the crash.

## Left out

- **The `main` functions.** File reading, argv handling, printing and exit codes are I/O and are not modelled. Only the descriptor selection is modelled (`GameId.SelectGameId`).
- **Zobrist table generation.** The tables come from `srand`/`rand`, or from `mt19937_64` seeded by `random_device`, and that is nondeterministic. The table is a parameter of every solver.
- **OpenMP parallel regions, locks, `critical` sections and atomics.** Concurrency is not modelled; each parallel loop is run by one worker in order.
- OmpDfs.Solver.Dfs: it does not state that `found` is unchanged on a false return. With several workers another thread may raise it, so the contract keeps the weaker multi-worker reading.
- OmpDfs.Solver.SolveRootSplit: it runs the worksharing loop with one worker and one local cache. It restores the board by undo instead of copying it per iteration. It does not model thread-count independence. The empty `root_moves` case returns false as the source does, even when the seeded board is already a solution.
- COmp.Solve: one worker processes every level. Lock striping and the per-thread lists are not modelled beyond the single local list.
- **Search completeness.** The visited sets hold 64-bit hashes, so a collision can prune an unexplored grid. No solver claims completeness; `SeqBfs.Solver.Solve`, `CSeq.Solve` and `COmp.Solve` make no claim when they return no solution.
- **The hash representation.** The hash is an `int` in [0, 2^64) with a bit-by-bit exclusive or rather than `bv64`; `Words.Xor` is exactly `^` on `uint64_t`.
- **Memory management.** `malloc`/`free`, `next` pointers and `unique_ptr` are not modelled. The C queue is a sequence of states inside a class, and the visited table is an array of key sequences.
- CSearch.SeedCentres: the fixed arrays are preconditions (`Fitting`): w and h at most MAX_W = MAX_H = 20, at most MAX_DOTS = 100 dots, and every dot on the internal grid. The C code writes them without checking.
- GameId.ParseGameId: it requires at most MAX_DOTS dot characters, because parse_game_id writes past `dots[MAX_DOTS]` otherwise.
- GameId.CppRoundTrip: it requires w and h to fit an `int`, because std::stoi throws out_of_range beyond it. The same bound is on GameId.DescriptorRoundTrip.
- GameId.CppRoundTrip: `ParseCpp` computes sx = 2w+1 and sy = 2h+1 on unbounded integers. fromGameId does this in `int` (solver/seq_solver.cpp:106-107), which overflows for w or h above 1073741823, so for such dimensions the lemma says nothing about the source. The same holds for GameId.DescriptorRoundTrip and for parse_game_id (solver/seq_solver.c:120-121) in GameId.CRoundTrip.
- GameId.ScanDims: sscanf's `%d` is read as an unbounded integer. A numeral beyond `int` range is undefined behaviour in C and is not modelled.
- **Owner width.** The C++ solvers store owners in `int16_t` grids (solver/seq_solver.cpp:157-169, solver/seq_solver_dfs.cpp:108, solver/openmp_solver_dfs.cpp:113), with `static_cast<int16_t>(d)` on every write. The model's owners are unbounded `int`s, so the wrap-around a dot index above 32767 would suffer is not modelled: with 32768 or more dots the model and the source part ways.
- **Character classes.** The digit tests of std::stoi, sscanf, Python's `int()` and the `\d` of check.py's pattern are taken as ASCII digits. Other Unicode digits that Python accepts are not modelled.
- Random.Rng.RandomUpto: the `while (1)` rejection loop takes a fuel bound and returns None when every draw fails. The source loops until a draw succeeds.
- Random.Shuffle: a position whose draw runs out of fuel keeps its element. Only the permutation is stated, not the distribution.
- **`random_new`.** It hashes the bytes of a `time_t` seed, and the width of `unsigned long` depends on the platform. The state is given directly, and an `unsigned long` is taken as 64 bits.
- Generator.Game.GenerateTryBlock: it requires `ndots > 0`. The source divides by `state->ndots`, and that is 0 throughout `generate_pass`.
- **The generation loop.** `generate_pass`, `generate_new_game`, `clear_game` and `game_update_dots` are not modelled, so whole-generator correctness is not claimed.
- **`print_grid`, `print_usage`, and the streaming in `printSolution`/`print_solution`.** These are output. Of printSolution only the per-cell rule is modelled (`Render.Rendered`).
- **visualizer.py.** It draws images with PIL, uses floating-point pixel coordinates and writes files.
- **grader.py.** It runs subprocesses with time limits.
- **decoder.py's `export_to_csv` and `main`.** These are file output and printing.
- **The dot colour check.py records.** check.py never reads it after recording it, so the model keeps only the dot positions.
- Checker.ValidateSolution: it requires exactly 2h+1 rows. That is what parse_output returns (`OutputText.ParsedOutputMeans`), and `Checker.Check` relies on it.
