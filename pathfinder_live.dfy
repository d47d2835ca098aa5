/**
 * The live `TilemapAStarPathfinder`: the player paints path cells with the left button and
 * erases them with the right, only while `placeAble` is set, never on a cell under a
 * turret; every frame the painting is validated and, when valid, ordered and handed to
 * the enemy spawner. The painted overlay is the set of elements of `paintedCells`.
 * The static flags `pathValid` and `placeAble` are fields of the one pathfinder.
 */
module LivePathfinder {
  import opened Wrappers
  import opened Grid
  import opened Lists
  import opened PathQueries
  import opened PathOrder
  import opened PathRules
  import opened Spawning
  import opened TurretPlacement

  /**
   * `IsCellOccupiedByTurret`: there is a placement manager and the cell is a key of its map,
   * that is, the cell lies in the block of one of its turrets.
   */
  predicate OccupiedByTurret(cell: Cell, turrets: TurretPlacementManager?): (occupied: bool)
    reads turrets
    ensures turrets == null ==> !occupied
    ensures turrets != null && turrets.Valid() ==>
      (occupied <==> exists id :: id in turrets.turrets && cell in Block(turrets.turrets[id].anchor))
  {
    turrets != null && turrets.IsCellOccupied(cell)
  }

  class TilemapAStarPathfinder {
    const allowedAreaTilemap: set<Cell>
    const requiredPathLength: int
    const enemySpawner: EnemySpawner
    var paintedCells: seq<Cell>
    var pathValid: bool
    var placeAble: bool

    /** The painting keeps its shape: distinct allowed cells, no 2x2 block, no branch, not over length. */
    ghost predicate Valid()
      reads this
    {
      PathShape(paintedCells, requiredPathLength, allowedAreaTilemap)
    }

    constructor(allowedAreaTilemap: set<Cell>, requiredPathLength: int, enemySpawner: EnemySpawner)
      ensures this.allowedAreaTilemap == allowedAreaTilemap && this.requiredPathLength == requiredPathLength
      ensures this.enemySpawner == enemySpawner
      ensures paintedCells == [] && !pathValid && !placeAble
      ensures Valid()
    {
      this.allowedAreaTilemap := allowedAreaTilemap;
      this.requiredPathLength := requiredPathLength;
      this.enemySpawner := enemySpawner;
      paintedCells := [];
      pathValid := false;
      placeAble := false;
    }

    /** Other components switch painting on and off through the public static flag. */
    method SetPlaceAble(value: bool)
      modifies this`placeAble
      ensures placeAble == value
    {
      placeAble := value;
    }

    /** The left-button branch: refuse at capacity, add tentatively, roll back a 2x2 block or an intersection. */
    method Paint(cell: Cell, turrets: TurretPlacementManager?) returns (outcome: PaintOutcome)
      requires Valid()
      modifies this`paintedCells
      ensures Valid()
      ensures (outcome, paintedCells)
           == PaintStep(old(paintedCells), cell, requiredPathLength, allowedAreaTilemap, OccupiedByTurret(cell, turrets))
    {
      PaintPreservesShape(paintedCells, cell, requiredPathLength, allowedAreaTilemap, OccupiedByTurret(cell, turrets));
      if |paintedCells| >= requiredPathLength {
        return AtCapacity;
      }
      var occupied := turrets != null && turrets.IsCellOccupied(cell);
      if cell in allowedAreaTilemap && cell !in paintedCells && !occupied {
        paintedCells := paintedCells + [cell];
        var square := Has2x2Block(paintedCells);
        if square {
          paintedCells := RemoveFirst(paintedCells, cell);
          return UndoneSquare;
        }
        var branch := HasIntersection(paintedCells);
        if branch {
          paintedCells := RemoveFirst(paintedCells, cell);
          return UndoneBranch;
        }
        return Painted;
      }
      return Refused;
    }

    /** The right-button branch: a painted cell inside the allowed area is removed. */
    method Erase(cell: Cell) returns (erased: bool)
      requires Valid()
      modifies this`paintedCells
      ensures Valid()
      ensures erased == (cell in allowedAreaTilemap && cell in old(paintedCells))
      ensures paintedCells == EraseStep(old(paintedCells), cell, allowedAreaTilemap)
    {
      EraseKeepsShape(paintedCells, cell, requiredPathLength, allowedAreaTilemap);
      if cell in allowedAreaTilemap && cell in paintedCells {
        paintedCells := RemoveFirst(paintedCells, cell);
        return true;
      }
      return false;
    }

    /**
     * `HandleMouseInput` with both buttons aimed at `cell`: nothing happens unless `placeAble`;
     * a capacity refusal or a 2x2 rollback returns before the right button is looked at.
     */
    method HandleMouseInput(leftHeld: bool, rightHeld: bool, cell: Cell, turrets: TurretPlacementManager?)
      requires Valid()
      modifies this`paintedCells
      ensures Valid()
      ensures !placeAble ==> paintedCells == old(paintedCells)
      ensures placeAble ==> paintedCells == MouseStep(old(paintedCells), leftHeld, rightHeld, cell,
                                                       requiredPathLength, allowedAreaTilemap, OccupiedByTurret(cell, turrets))
    {
      if placeAble {
        if leftHeld {
          var outcome := Paint(cell, turrets);
          if outcome == AtCapacity || outcome == UndoneSquare {
            return;
          }
        }
        if rightHeld {
          var _ := Erase(cell);
        }
      }
    }

    /**
     * `ValidateAndStartPath`: records whether the painting is a valid path and, when it is,
     * hands the ordered path to the spawner (which ignores an empty one).
     */
    method ValidateAndStartPath()
      requires Valid()
      modifies this`pathValid, enemySpawner`pathToFollow, enemySpawner`startTile
      ensures pathValid == PathValid(paintedCells, requiredPathLength)
      ensures pathValid <==> |paintedCells| == requiredPathLength
      ensures !pathValid || paintedCells == [] ==>
        enemySpawner.pathToFollow == old(enemySpawner.pathToFollow) && enemySpawner.startTile == old(enemySpawner.startTile)
      ensures pathValid && paintedCells != [] ==>
        enemySpawner.pathToFollow == Some(OrderCells(paintedCells)) && enemySpawner.startTile == StartCell(paintedCells)
    {
      ValidIsLength(paintedCells, requiredPathLength, allowedAreaTilemap);
      OrderCellsIsSimplePath(paintedCells);
      var square := false;
      var branch := false;
      if |paintedCells| == requiredPathLength {
        square := Has2x2Block(paintedCells);
        if !square {
          branch := HasIntersection(paintedCells);
        }
      }
      if |paintedCells| != requiredPathLength || square || branch {
        pathValid := false;
      } else {
        pathValid := true;
        var ordered := OrderPaintedCells(paintedCells);
        enemySpawner.SetPath(Some(ordered));
      }
    }

    /** One frame: mouse input, then validation. */
    method Update(leftHeld: bool, rightHeld: bool, cell: Cell, turrets: TurretPlacementManager?)
      requires Valid()
      modifies this`paintedCells, this`pathValid, enemySpawner`pathToFollow, enemySpawner`startTile
      ensures Valid()
      ensures paintedCells == (if placeAble then MouseStep(old(paintedCells), leftHeld, rightHeld, cell,
                                 requiredPathLength, allowedAreaTilemap, OccupiedByTurret(cell, turrets))
                               else old(paintedCells))
      ensures pathValid <==> |paintedCells| == requiredPathLength
      ensures !pathValid || paintedCells == [] ==>
        enemySpawner.pathToFollow == old(enemySpawner.pathToFollow) && enemySpawner.startTile == old(enemySpawner.startTile)
      ensures pathValid && paintedCells != [] ==>
        enemySpawner.pathToFollow == Some(OrderCells(paintedCells)) && enemySpawner.startTile == StartCell(paintedCells)
    {
      HandleMouseInput(leftHeld, rightHeld, cell, turrets);
      ValidateAndStartPath();
    }
  }
}
