# Path-painting tower defence: a Dafny model of the game logic

The game is a Unity tower-defence game. Before a wave, the player paints the enemies' path
cell by cell on a tile grid. The painter keeps the painted cells free of 2x2 blocks and
of crossings (a cell with more than two painted neighbours). It refuses cells once the
required length is reached. When the painting has exactly the required length, it is
ordered into a walk and handed to the enemy spawner. A wave manager starts waves on a
button press, runs a timed phase two, and moves on to the next wave. Turrets each occupy
a 2x2 block of cells and are paid for from a coin ledger. Enemies and bullets come from
object pools.

This project models that logic in Dafny and proves what each part promises.

- **Grid** (`grid.dfy`): cells are `Cell(x, y)` pairs. Every offset the game uses keeps z at 0.
- **Path queries** (`path_queries.dfy`): neighbour count, 2x2-block and crossing detection.
  Each is a method with the source's loop, proved equal to a specification function.
  Lemmas relate the neighbour count to the set of adjacent cells.
- **Path ordering** (`path_order.dfy`): `OrderPaintedCells` as a method with the source's
  loops, proved equal to the function `OrderCells`. The walk starts at the first
  listed cell with exactly one painted neighbour, or else at the first cell. It always
  steps to the first unvisited neighbour in the order right, left, up, down. Lemmas prove
  the walk is a simple path through painted cells.
- **Painting rules** (`path_rules.dfy`): one paint step (with its two rollbacks), one erase
  step and one frame of mouse input, as functions on the painted list. Lemmas prove each
  step keeps the shape: distinct allowed cells, no block, no crossing, at most the
  required length.
- **Live pathfinder** (`pathfinder_live.dfy`, the revision under `System/`): a class whose
  methods change `paintedCells`, `pathValid` and the spawner. Painting has a `placeAble`
  gate and refuses cells under a turret.
- **Legacy pathfinder** (`pathfinder_legacy.dfy`): the older revision. It has no gate and no
  turret check. Validation collects errors and runs the block and crossing checks on the
  ordered path.
- **Waves** (`wave_manager.dfy`): the wave state machine. Each resumption of the phase-two
  coroutine is an explicit step method. Events and calls to other components are appended
  to a `signals` log.
- **Spawner** (`enemy_spawner.dfy`): path assignment, one iteration of the spawn loop as a
  tick, and the enemy counter.
- **Turret placement** (`turret_placement.dfy`): the map from cells to turret ids, placing
  a turret on a free block, and bulldozing. The invariant says each live turret holds
  exactly its 2x2 block.
- **Coins** (`resources.dfy`): guarded add and spend.
- **Pools** (`enemy_pool.dfy`, `bullet_pool.dfy`): game objects are ids, each with an
  active flag. The enemy pool is a FIFO queue. The bullet pool searches for the first
  inactive object and grows by one when every object is active.

Behaviour of the source that the proofs make explicit:

- Holding both mouse buttons over a cell paints it and erases it again in the same frame.
  A capacity refusal or a 2x2 rollback ends the frame before the erase (`return`), so in
  those cases nothing is erased.
- Nothing requires the painted cells to be connected. Three cells, two touching and one
  apart, form a valid path of length 3, but the ordered walk handed to the spawner has
  only two cells (`PathRules.DisconnectedPaintingIsValid`).
- Because every paint keeps the painting free of blocks and crossings, validation can only
  fail on the length, in both revisions.
- No modelled source script writes the static `placeAble`; it starts false, so painting
  needs an outside writer, which `SetPlaceAble` stands for.
- After the last wave ends, the wave index stays on the last wave and `waveReady` is true,
  so the start button starts the last wave again. The code is followed here, not a reading
  in which the start is refused.
- A second phase-one-complete event during phase two's delay starts a second phase-two
  run: the guard only tests `phaseTwoActive`, which is set after the delay.
- `SpendCoins` refuses a non-positive amount, so a turret type that costs 0 can never be
  placed.
- `ReturnEnemyToPool` enqueues unconditionally, so an enemy returned twice is queued twice.
  `EnemyDestroyed` has no lower bound on the counter.

## Model

| member | source | states |
|---|---|---|
| Lists.RemoveFirst | Assets/Scripts/System/TilemapAStarPathfinder.cs:52 | `List.Remove` drops the first occurrence only: the part before it is kept, and the part after it is kept; a missing element leaves the list as it was |
| Lists.RemoveFirstDistinct | Assets/Scripts/System/TilemapAStarPathfinder.cs:71 | removing a cell from a duplicate-free list keeps it duplicate-free and takes exactly that cell out of its elements |
| Lists.RemoveFirstMultiset | Assets/Scripts/System/TilemapAStarPathfinder.cs:71 | `List.Remove` takes exactly one occurrence of the element out of the list, when there is one, and leaves every other count alone |
| Lists.RemoveAppended | Assets/Scripts/System/TilemapAStarPathfinder.cs:46-52 | adding a cell that was absent and then removing it restores the list exactly (the rollback) |
| Grid.BlockSize | Assets/Scripts/Turret/TurretPlacementManager.cs:149-158 | the 2x2 block a turret claims is exactly four distinct cells |
| PathQueries.NeighborCount | Assets/Scripts/System/TilemapAStarPathfinder.cs:133-142 | the neighbour count lies in 0..4 |
| PathQueries.NeighborCountIsAdjacentCount | Assets/Scripts/System/TilemapAStarPathfinder.cs:133-142 | the four-direction count equals the number of painted cells that share an edge with the cell |
| PathQueries.AdjacentIsShift | Assets/Scripts/System/TilemapAStarPathfinder.cs:135-140 | the only edge-sharing cells are the right, left, up and down shifts |
| PathQueries.SubsetKeepsShape | Assets/Scripts/TilemapAStarPathfinder.cs:184-190 | a subset of a block-free, crossing-free set is block-free and crossing-free |
| PathQueries.GetNeighborCount | Assets/Scripts/System/TilemapAStarPathfinder.cs:133-142 | the scan over right, left, up, down returns the number of those neighbours that are painted |
| PathQueries.Has2x2Block | Assets/Scripts/System/TilemapAStarPathfinder.cs:144-153 | true iff some listed cell has its right, up and up-right cells listed |
| PathQueries.HasIntersection | Assets/Scripts/System/TilemapAStarPathfinder.cs:155-164 | true iff some listed cell has more than two listed neighbours |
| PathOrder.FirstPresent | Assets/Scripts/System/TilemapAStarPathfinder.cs:116-127 | the first direction whose neighbour is unvisited: none exactly when no neighbour is unvisited, otherwise an unvisited neighbour with every earlier direction's neighbour visited |
| PathOrder.FirstEndpoint | Assets/Scripts/System/TilemapAStarPathfinder.cs:98-107 | the first listed cell from position i on with exactly one painted neighbour, if any |
| PathOrder.StartCell | Assets/Scripts/System/TilemapAStarPathfinder.cs:98-107 | the start is a listed cell: the first with exactly one neighbour, else the first cell |
| PathOrder.Walk | Assets/Scripts/System/TilemapAStarPathfinder.cs:109-129 | the walk from the current cell steps only onto cells not yet visited |
| PathOrder.OrderCells | Assets/Scripts/System/TilemapAStarPathfinder.cs:92-131 | the ordered path is empty iff the painting is, and holds only painted cells |
| PathOrder.WalkIsSimple | Assets/Scripts/System/TilemapAStarPathfinder.cs:109-129 | the walk visits distinct unvisited cells only; it is empty iff nothing is unvisited or the current cell has no unvisited neighbour; it starts next to the current cell and each step is to an adjacent cell |
| PathOrder.OrderCellsIsSimplePath | Assets/Scripts/System/TilemapAStarPathfinder.cs:92-131 | empty input gives an empty output; otherwise the output starts at StartCell, holds distinct painted cells, is no longer than the input and has adjacent consecutive cells |
| PathOrder.ScanNeighbors | Assets/Scripts/System/TilemapAStarPathfinder.cs:116-127 | the inner loop finds a neighbour iff one is unvisited, and finds the first in direction order |
| PathOrder.FindStart | Assets/Scripts/System/TilemapAStarPathfinder.cs:98-107 | the start-search loop returns StartCell |
| PathOrder.OrderPaintedCells | Assets/Scripts/System/TilemapAStarPathfinder.cs:92-131 | the method's loops compute OrderCells, whose properties OrderCellsIsSimplePath proves |
| PathRules.PaintStep | Assets/Scripts/System/TilemapAStarPathfinder.cs:36-62 | the outcome is fixed by the guards, each case an iff: at capacity iff the list holds the required length; refused iff under it and the cell is outside the area, painted or under a turret; undone as a square iff a legal cell would complete a 2x2 block; undone as a branch iff it would instead make a crossing; painted iff none of these, and then the cell is appended; every outcome but painted leaves the list exactly as it was |
| PathRules.FirstCellIsPainted | Assets/Scripts/System/TilemapAStarPathfinder.cs:36-62 | on an empty painting with a positive required length, an allowed free cell is painted |
| PathRules.PaintAddsAtMostCell | Assets/Scripts/System/TilemapAStarPathfinder.cs:36-62 | a paint step adds one listing of the cell when it paints and nothing otherwise |
| PathRules.EraseStep | Assets/Scripts/System/TilemapAStarPathfinder.cs:64-73 | an erase inside the area takes one listing of the cell out of the list; outside the area the list keeps every listing |
| PathRules.MouseStep | Assets/Scripts/System/TilemapAStarPathfinder.cs:32-75 | one mouse frame changes only how often the aimed cell is listed; without the right button nothing is lost, without the left button nothing is gained |
| PathRules.PathValid | Assets/Scripts/System/TilemapAStarPathfinder.cs:166-170 | valid iff the painting has the required length and every painted cell has at most two painted neighbours and is not the corner of a painted 2x2 block |
| PathRules.PaintPreservesShape | Assets/Scripts/System/TilemapAStarPathfinder.cs:36-62 | a paint step keeps the cells distinct, allowed, block-free, crossing-free and within the required length |
| PathRules.EraseKeepsShape | Assets/Scripts/System/TilemapAStarPathfinder.cs:64-73 | an erase keeps the shape and removes exactly the targeted cell, shortening the list by one when the cell was painted |
| PathRules.MouseStepPreservesShape | Assets/Scripts/System/TilemapAStarPathfinder.cs:32-75 | a whole frame of mouse input keeps the shape |
| PathRules.BothButtonsUndoPaint | Assets/Scripts/System/TilemapAStarPathfinder.cs:36-73 | with both buttons held, a cell the left button paints is erased in the same frame |
| PathRules.ValidIsLength | Assets/Scripts/System/TilemapAStarPathfinder.cs:166-170 | on a painting of the kept shape, validity is equivalent to having the required length |
| PathRules.ValidPathOrdersIntoWalk | Assets/Scripts/System/TilemapAStarPathfinder.cs:166-177 | a valid painting is ordered into a non-empty simple walk of allowed cells, starting at StartCell, no longer than required |
| PathRules.SquareCornerIsUndone | Assets/Scripts/System/TilemapAStarPathfinder.cs:49-54 | painting the fourth corner of a square is rolled back and ends the frame before any erase |
| PathRules.TeeIsUndone | Assets/Scripts/System/TilemapAStarPathfinder.cs:56-60 | painting beside the middle of a row of three is rolled back as a crossing |
| PathRules.WalkAlongRow | Assets/Scripts/System/TilemapAStarPathfinder.cs:109-129 | from the cell left of a straight row, the walk visits the whole row from left to right |
| PathRules.StraightRowIsOrderedInFull | Assets/Scripts/System/TilemapAStarPathfinder.cs:92-131 | a straight row painted left to right keeps the shape, is valid for its own length, and is ordered into exactly the painted list, every cell included |
| PathRules.DisconnectedPaintingIsValid | Assets/Scripts/System/TilemapAStarPathfinder.cs:166-177 | a painting with a detached cell has the kept shape and is valid, and its ordered walk omits the detached cell |
| LivePathfinder.OccupiedByTurret | Assets/Scripts/System/TilemapAStarPathfinder.cs:77-80 | without a placement manager no cell is occupied; with a consistent one, a cell is occupied iff it lies in some live turret's block |
| LivePathfinder.TilemapAStarPathfinder.SetPlaceAble | Assets/Scripts/System/TilemapAStarPathfinder.cs:24 | the gate takes the written value |
| LivePathfinder.TilemapAStarPathfinder.Paint | Assets/Scripts/System/TilemapAStarPathfinder.cs:36-62 | the left-button branch: outcome and new list are those of the paint step, with turret occupancy taken from the placement manager |
| LivePathfinder.TilemapAStarPathfinder.Erase | Assets/Scripts/System/TilemapAStarPathfinder.cs:64-73 | the right-button branch erases iff the cell is allowed and painted, with the list given by the erase step |
| LivePathfinder.TilemapAStarPathfinder.HandleMouseInput | Assets/Scripts/System/TilemapAStarPathfinder.cs:32-75 | with the gate closed nothing changes; otherwise the list is that of one mouse frame; the shape is kept |
| LivePathfinder.TilemapAStarPathfinder.ValidateAndStartPath | Assets/Scripts/System/TilemapAStarPathfinder.cs:166-177 | `pathValid` is length, no block and no crossing, which is equivalent to the length alone; the spawner receives the ordered cells iff the path is valid |
| LivePathfinder.TilemapAStarPathfinder.Update | Assets/Scripts/System/TilemapAStarPathfinder.cs:26-30 | one frame: the list is that of one mouse frame (none with the gate closed), `pathValid` is the length test, the shape is kept; a valid non-empty painting hands the spawner the ordered cells and their start cell, and otherwise the spawner's path and start tile are unchanged |
| LegacyPathfinder.PathErrors | Assets/Scripts/TilemapAStarPathfinder.cs:179-190 | at most three errors; none iff the length is right and the ordered path has no 2x2 block and no crossing; a wrong length is the first error recorded, with both counts |
| LegacyPathfinder.OnlyLengthCanFail | Assets/Scripts/TilemapAStarPathfinder.cs:177-204 | on a painting of the kept shape the only possible error is the length, so the revision accepts exactly the paintings the live one does |
| LegacyPathfinder.TilemapAStarPathfinder.Paint | Assets/Scripts/TilemapAStarPathfinder.cs:37-73 | the left-button branch without gate or turret check: outcome and list are those of the paint step |
| LegacyPathfinder.TilemapAStarPathfinder.Erase | Assets/Scripts/TilemapAStarPathfinder.cs:76-85 | erases iff the cell is allowed and painted, with the list given by the erase step |
| LegacyPathfinder.TilemapAStarPathfinder.HandleMouseInput | Assets/Scripts/TilemapAStarPathfinder.cs:34-86 | the list is that of one mouse frame, and the shape is kept |
| LegacyPathfinder.TilemapAStarPathfinder.ValidateAndStartPath | Assets/Scripts/TilemapAStarPathfinder.cs:177-204 | records length, block and crossing errors independently, the last two on the ordered path; no errors iff the length is right; the spawner receives the ordered cells iff no error was recorded |
| LegacyPathfinder.TilemapAStarPathfinder.Update | Assets/Scripts/TilemapAStarPathfinder.cs:23-32 | one frame of mouse input; validation and its errors only when the space key is pressed; an error-free non-empty painting hands the spawner the ordered cells and their start cell, and in every other case the spawner's path and start tile are unchanged |
| Waves.CeilToInt | Assets/Scripts/System/WaveManager.cs:137 | the least integer not below the duration |
| Waves.NextIndex | Assets/Scripts/System/WaveManager.cs:177-182 | the index grows by one only when a next wave exists, never decreases and stays inside the list |
| Waves.WaveManager.EnemyCountText | Assets/Scripts/System/WaveManager.cs:81-85 | the current wave's counts are read only when the index is inside the list, which it always is when there are waves |
| Waves.WaveManager.StartWave | Assets/Scripts/System/WaveManager.cs:94-113 | an out-of-range index changes nothing; otherwise the wave is marked running and the spawner is asked for that wave's two counts |
| Waves.WaveManager.StartWaveFromButton | Assets/Scripts/System/WaveManager.cs:46-71 | refused with no state change when the path is invalid, the waves are used up or a wave is running; otherwise starts the current wave |
| Waves.WaveManager.OnWavePhaseOneComplete | Assets/Scripts/System/WaveManager.cs:118-126 | ignored while phase two is active; otherwise announces the end of phase one and suspends a phase-two run with the wave's delay and duration |
| Waves.WaveManager.EndWave | Assets/Scripts/System/WaveManager.cs:169-187 | the wave ends once: ready again, phase two off, index advanced only if a wave is left |
| Waves.WaveManager.ResumeAfterDelay | Assets/Scripts/System/WaveManager.cs:133-141 | after the delay, phase two is active and the countdown starts at the duration rounded up; a countdown with nothing to count ends the wave at once |
| Waves.WaveManager.ResumeCountdown | Assets/Scripts/System/WaveManager.cs:141-147 | each second decreases `timeLeft` by exactly one and ends the wave when it reaches zero |
| Waves.WaveManager.RunPhaseTwo | Assets/Scripts/System/WaveManager.cs:131-148 | the countdown terminates after ceil(duration) seconds (or none) and ends the wave exactly once |
| Waves.WaveManager.PlayWave | Assets/Scripts/System/WaveManager.cs:46-187 | a full wave emits start, spawner request, phase-one end and wave end in that order and leaves the manager ready on the next wave, or on the last one |
| Spawning.EnemySpawner.SetPath | Assets/Scripts/Enemy/EnemySpawner.cs:21-31 | a null or empty path changes nothing; otherwise the path is stored and the start tile is its first cell |
| Spawning.EnemySpawner.SpawnTick | Assets/Scripts/Enemy/EnemySpawner.cs:35-59 | spawns only below the cap with a path set and an enemy in the pool; the counter rises by one exactly when an enemy is spawned, at the start tile with the stored path |
| Spawning.EnemySpawner.EnemyDestroyed | Assets/Scripts/Enemy/EnemySpawner.cs:64-67 | decrements the counter by exactly one, with no lower bound |
| Spawning.EnemySpawner.SpawnEnemies | Assets/Scripts/Enemy/EnemySpawner.cs:33-62 | over any number of ticks the counter grows by the number spawned and never passes the cap it did not already exceed |
| TurretPlacement.Consistent | Assets/Scripts/Turret/TurretPlacementManager.cs:149-158 | a consistent map assigns cells only to live turrets |
| TurretPlacement.ConsistentTurretsHoldFourCells | Assets/Scripts/Turret/TurretPlacementManager.cs:149-158 | in a consistent map every live turret occupies exactly four cells |
| TurretPlacement.AreaAvailable | Assets/Scripts/Turret/TurretPlacementManager.cs:165-184 | the block is available iff all four of its cells are allowed, none is mapped to a turret and, when a path tilemap exists, none is a path tile |
| TurretPlacement.Claim | Assets/Scripts/Turret/TurretPlacementManager.cs:149-158 | claiming listed cells maps exactly those cells, each to the turret |
| TurretPlacement.OccupiedIffInBlock | Assets/Scripts/Turret/TurretPlacementManager.cs:30-33 | in a consistent map, a cell is a key iff it lies in some live turret's block |
| TurretPlacement.PlaceKeepsConsistent | Assets/Scripts/Turret/TurretPlacementManager.cs:149-158 | adding a fresh turret on a free block keeps every turret holding exactly its block |
| TurretPlacement.RemoveKeepsConsistent | Assets/Scripts/Turret/TurretPlacementManager.cs:90-97 | removing all cells of a turret and the turret keeps the map consistent |
| TurretPlacement.PlaceThenBulldoze | Assets/Scripts/Turret/TurretPlacementManager.cs:79-158 | bulldozing a block right after claiming it for an unused turret id restores the cell map and the turret map |
| TurretPlacement.TurretPlacementManager.IsCellOccupied | Assets/Scripts/Turret/TurretPlacementManager.cs:30-33 | occupied iff the cell lies in some live turret's block |
| TurretPlacement.TurretPlacementManager.IsAreaAvailable | Assets/Scripts/Turret/TurretPlacementManager.cs:165-184 | available iff each of the four block cells is allowed, unoccupied and, when a path tilemap exists, not a path tile |
| TurretPlacement.TurretPlacementManager.PlaceTurret | Assets/Scripts/Turret/TurretPlacementManager.cs:133-159 | places iff the cost can be spent; a failed payment changes nothing; a placement adds exactly the four block cells, mapped to the new turret |
| TurretPlacement.TurretPlacementManager.ClaimCells | Assets/Scripts/Turret/TurretPlacementManager.cs:149-158 | the claiming loop adds exactly the block's four entries |
| TurretPlacement.TurretPlacementManager.Bulldoze | Assets/Scripts/Turret/TurretPlacementManager.cs:79-101 | a free cell changes neither map nor coins; an occupied one removes exactly the turret's block and the turret, refunding its cost when it carries data |
| TurretPlacement.TurretPlacementManager.CollectKeys | Assets/Scripts/Turret/TurretPlacementManager.cs:90-95 | collects every cell mapped to the turret, each once |
| TurretPlacement.TurretPlacementManager.RemoveKeys | Assets/Scripts/Turret/TurretPlacementManager.cs:96-97 | removes exactly the collected cells from the map |
| TurretPlacement.TurretPlacementManager.SetSelectedTurret | Assets/Scripts/Turret/TurretPlacementManager.cs:107-108 | the selected turret type is the one given |
| TurretPlacement.TurretPlacementManager.Update | Assets/Scripts/Turret/TurretPlacementManager.cs:45-102 | a turret is placed iff one is selected, the left button is down, the block is available and its cost can be spent; a removal happens iff the right button is down and the cell is occupied (by a turret placed this frame or earlier); in each of the four combinations the cell map, the turret map and the coins are stated exactly: a placement adds the block under a fresh id and debits the cost, a removal takes the turret's block and id out and refunds a turret with data, both together leave the maps as they were and the coins debited only for a turret without data |
| Resources.CanSpend | Assets/Scripts/ResourcesManager.cs:38 | a spend that is allowed leaves a non-negative balance strictly below the old one |
| Resources.Credit | Assets/Scripts/ResourcesManager.cs:27-34 | adding raises the balance by the amount or not at all, and not at all iff the amount is not positive |
| Resources.Debit | Assets/Scripts/ResourcesManager.cs:36-46 | spending lowers the balance by the amount or not at all, and not at all iff the spend is refused |
| Resources.LedgerStaysNonNegative | Assets/Scripts/ResourcesManager.cs:29-38 | a non-negative balance stays non-negative under add and spend |
| Resources.SpendThenRefund | Assets/Scripts/ResourcesManager.cs:27-43 | a successful spend followed by adding the same amount restores the balance |
| Resources.ResourceManager.GetCoins | Assets/Scripts/ResourcesManager.cs:22-25 | returns the balance |
| Resources.ResourceManager.AddCoins | Assets/Scripts/ResourcesManager.cs:27-34 | the balance grows by the amount when it is positive and is unchanged otherwise |
| Resources.ResourceManager.SpendCoins | Assets/Scripts/ResourcesManager.cs:36-46 | succeeds iff the amount is positive and covered; on success the balance drops by the amount, otherwise it is unchanged |
| EnemyPooling.IdsDistinct | Assets/Scripts/Enemy/EnemyObjectPool.cs:19-23 | the enemies the fill loop creates are distinct |
| EnemyPooling.EnemyObjectPool.InitializePool | Assets/Scripts/Enemy/EnemyObjectPool.cs:17-25 | appends `poolSize` new, distinct, inactive enemies to the queue |
| EnemyPooling.EnemyObjectPool.AddInactive | Assets/Scripts/Enemy/EnemyObjectPool.cs:21-23 | one fill iteration: a fresh enemy, inactive, at the back of the queue |
| EnemyPooling.EnemyObjectPool.GetEnemyFromPool | Assets/Scripts/Enemy/EnemyObjectPool.cs:27-40 | a non-empty queue yields its front enemy, now active, and loses it; an empty queue yields nothing and is unchanged |
| EnemyPooling.EnemyObjectPool.ReturnEnemyToPool | Assets/Scripts/Enemy/EnemyObjectPool.cs:42-46 | the enemy becomes inactive and is appended at the back |
| EnemyPooling.ReturnThenGet | Assets/Scripts/Enemy/EnemyObjectPool.cs:31-45 | FIFO: an enemy returned to an empty queue is the next one handed out, active again |
| EnemyPooling.ReturnTwiceQueuesTwice | Assets/Scripts/Enemy/EnemyObjectPool.cs:42-46 | returning the same enemy twice queues it twice |
| BulletPooling.FirstInactive | Assets/Scripts/Player/BulleetPool.cs:24-28 | the position of an inactive object with every earlier one active, or none when all are active |
| BulletPooling.BulletPool.NewInactive | Assets/Scripts/Player/BulleetPool.cs:31-33 | a fresh inactive object not yet in the pool |
| BulletPooling.BulletPool.Start | Assets/Scripts/Player/BulleetPool.cs:11-20 | the pool holds `poolSize` distinct, fresh, inactive objects |
| BulletPooling.BulletPool.GetPooledObject | Assets/Scripts/Player/BulleetPool.cs:22-35 | returns the first inactive object and leaves the list unchanged, or, when all are active, appends exactly one new inactive object and returns it; the result is always inactive |
| BulletPooling.BulletPool.SetActive | Assets/Scripts/Player/PlayerController.cs:76 | the caller's activation sets only that object's flag |

## Left out

- Rendering is not modelled: tiles, overlay and preview colours, TMP texts, animators, audio and `Debug.Log`. The painted tilemap is the set of elements of `paintedCells`.
- The conversion from mouse to cell (`ScreenToWorldPoint`, `WorldToCell`) is not modelled; the cell is a parameter of each input method.
- Floating-point time is not modelled. `WaitForSeconds` resumptions are step methods. Durations are exact reals, and `CeilToInt` is exact rounding, without float precision.
- Coroutine scheduling is not modelled: the order in which pending phase-two runs resume is chosen by the caller.
- The spawner's `StartWave(int, int)` is not part of this model: `Assets/Scripts/Enemy/EnemySpawner.cs` declares no `StartWave(int, int)`. The call is recorded as a `SpawnerStartWave` signal.
- Events (`OnWaveStart`, `OnPhaseOneComplete`, `OnWaveEnd`) are recorded as signals; their subscribers are left out.
- `UpdatePhaseTwoUI`, `ShowWaveError` and `swithcOffAnimation` are left out because they only drive UI. A refused start is reported as the `PathNotValid` result.
- `Instantiate`, `Destroy` and `SetActive` on engine objects are modelled by their effect: an id, removal from `turrets`, an active flag.
- Static singletons (`Instance`) are left out: the static `pathValid` and `placeAble` are instance fields, and the collaborators are passed in.
- `EnemyAIPathFollower` is left out: its end-of-path effect is a call to `EnemyDestroyed`.
- Spawning.EnemySpawner.SpawnEnemies: the `while (true)` loop runs for a given number of ticks instead of forever.
- Spawning.EnemySpawner.SpawnTick: the world position of a spawned enemy is not modelled; the spawn records the start tile.
- PathOrder.OrderCellsIsSimplePath: does not prove that the ordered path includes every painted cell of a connected painting; full coverage is proved only for a straight row (`PathRules.StraightRowIsOrderedInFull`), and `PathRules.DisconnectedPaintingIsValid` shows a painting whose ordered path leaves a cell out.
- TurretPlacement.TurretPlacementManager.PlaceTurret: requires the four block cells to be free, because `Dictionary.Add` would throw on a taken key; `Update` calls it only after `IsAreaAvailable`.
- TurretPlacement.TurretPlacementManager.Update: the preview object and its colouring are left out.
- Waves.WaveManager.OnWavePhaseOneComplete: requires at least one wave, because the source indexes `waves[currentWaveIndex]` and would throw on an empty list.
- BulletPooling.BulletPool.SetActive: requires the object to be in the pool, since only pooled bullets are activated.
- Resources.ResourceManager.AddCoins: does not model 32-bit wrap-around of `_coins`, because integers are unbounded here.
- Spawning.EnemySpawner.EnemyDestroyed: does not model 32-bit wrap-around of the counter, because integers are unbounded here.
