/**
 * The older `TilemapAStarPathfinder`: the same painting rules without the `placeAble`
 * gate and without the turret check; validation runs only when asked (the space key),
 * collects one error per failed check, and runs the block and crossing checks on the
 * ordered path rather than on the painted list.
 */
module LegacyPathfinder {
  import opened Wrappers
  import opened Grid
  import opened Lists
  import opened PathQueries
  import opened PathOrder
  import opened PathRules
  import opened Spawning

  datatype PathError =
    | WrongLength(count: int, required: int)
    | SquareBlock
    | SelfCrossing

  /** The errors validation records, in the order it checks: length, 2x2 block, crossing. */
  ghost function PathErrors(cells: seq<Cell>, required: int): (errors: seq<PathError>)
    ensures |errors| <= 3
    ensures errors == [] <==>
      && |cells| == required
      && !ContainsSquare(Elements(OrderCells(cells)))
      && !ContainsBranch(Elements(OrderCells(cells)))
    ensures |cells| != required ==> errors[0] == WrongLength(|cells|, required)
  {
    var ordered := OrderCells(cells);
    (if |cells| != required then [WrongLength(|cells|, required)] else [])
    + (if ContainsSquare(Elements(ordered)) then [SquareBlock] else [])
    + (if ContainsBranch(Elements(ordered)) then [SelfCrossing] else [])
  }

  /**
   * On a painting of the kept shape the ordered path, a subset of the painted cells, can
   * hold no block or crossing either: the only error left is the length, and the revision
   * accepts exactly the paintings the live revision accepts.
   */
  lemma OnlyLengthCanFail(cells: seq<Cell>, required: int, allowed: set<Cell>)
    requires PathShape(cells, required, allowed)
    ensures PathErrors(cells, required) == (if |cells| != required then [WrongLength(|cells|, required)] else [])
    ensures PathErrors(cells, required) == [] <==> PathValid(cells, required)
  {
    OrderCellsIsSimplePath(cells);
    SubsetKeepsShape(Elements(OrderCells(cells)), Elements(cells));
  }

  class TilemapAStarPathfinder {
    const allowedAreaTilemap: set<Cell>
    const requiredPathLength: int
    const enemySpawner: EnemySpawner
    var paintedCells: seq<Cell>

    ghost predicate Valid()
      reads this
    {
      PathShape(paintedCells, requiredPathLength, allowedAreaTilemap)
    }

    constructor(allowedAreaTilemap: set<Cell>, requiredPathLength: int, enemySpawner: EnemySpawner)
      ensures this.allowedAreaTilemap == allowedAreaTilemap && this.requiredPathLength == requiredPathLength
      ensures this.enemySpawner == enemySpawner && paintedCells == []
      ensures Valid()
    {
      this.allowedAreaTilemap := allowedAreaTilemap;
      this.requiredPathLength := requiredPathLength;
      this.enemySpawner := enemySpawner;
      paintedCells := [];
    }

    /** The left-button branch: as in the live revision, with no turret to consult. */
    method Paint(cell: Cell) returns (outcome: PaintOutcome)
      requires Valid()
      modifies this`paintedCells
      ensures Valid()
      ensures (outcome, paintedCells) == PaintStep(old(paintedCells), cell, requiredPathLength, allowedAreaTilemap, false)
    {
      PaintPreservesShape(paintedCells, cell, requiredPathLength, allowedAreaTilemap, false);
      if |paintedCells| >= requiredPathLength {
        return AtCapacity;
      }
      if cell in allowedAreaTilemap && cell !in paintedCells {
        paintedCells := paintedCells + [cell];
        var square := Has2x2Block(paintedCells);
        if square {
          paintedCells := RemoveFirst(paintedCells, cell);
          return UndoneSquare;
        }
        var branch := HasIntersection(paintedCells);
        if branch {
          paintedCells := RemoveFirst(paintedCells, cell);
          return UndoneBranch;
        }
        return Painted;
      }
      return Refused;
    }

    /** The right-button branch. */
    method Erase(cell: Cell) returns (erased: bool)
      requires Valid()
      modifies this`paintedCells
      ensures Valid()
      ensures erased == (cell in allowedAreaTilemap && cell in old(paintedCells))
      ensures paintedCells == EraseStep(old(paintedCells), cell, allowedAreaTilemap)
    {
      EraseKeepsShape(paintedCells, cell, requiredPathLength, allowedAreaTilemap);
      if cell in allowedAreaTilemap && cell in paintedCells {
        paintedCells := RemoveFirst(paintedCells, cell);
        return true;
      }
      return false;
    }

    /** `HandleMouseInput` with both buttons aimed at `cell`; there is no gate. */
    method HandleMouseInput(leftHeld: bool, rightHeld: bool, cell: Cell)
      requires Valid()
      modifies this`paintedCells
      ensures Valid()
      ensures paintedCells == MouseStep(old(paintedCells), leftHeld, rightHeld, cell,
                                        requiredPathLength, allowedAreaTilemap, false)
    {
      if leftHeld {
        var outcome := Paint(cell);
        if outcome == AtCapacity || outcome == UndoneSquare {
          return;
        }
      }
      if rightHeld {
        var _ := Erase(cell);
      }
    }

    /**
     * `ValidateAndStartPath`: orders the painting, collects the errors, and hands the ordered
     * path to the spawner exactly when there are none.
     */
    method ValidateAndStartPath() returns (errors: seq<PathError>)
      requires Valid()
      modifies enemySpawner`pathToFollow, enemySpawner`startTile
      ensures errors == PathErrors(paintedCells, requiredPathLength)
      ensures errors == [] <==> |paintedCells| == requiredPathLength
      ensures errors != [] || paintedCells == [] ==>
        enemySpawner.pathToFollow == old(enemySpawner.pathToFollow) && enemySpawner.startTile == old(enemySpawner.startTile)
      ensures errors == [] && paintedCells != [] ==>
        enemySpawner.pathToFollow == Some(OrderCells(paintedCells)) && enemySpawner.startTile == StartCell(paintedCells)
    {
      OnlyLengthCanFail(paintedCells, requiredPathLength, allowedAreaTilemap);
      OrderCellsIsSimplePath(paintedCells);
      errors := [];
      if |paintedCells| != requiredPathLength {
        errors := errors + [WrongLength(|paintedCells|, requiredPathLength)];
      }
      var orderedPath := OrderPaintedCells(paintedCells);
      var square := Has2x2Block(orderedPath);
      if square {
        errors := errors + [SquareBlock];
      }
      var branch := HasIntersection(orderedPath);
      if branch {
        errors := errors + [SelfCrossing];
      }
      if |errors| == 0 {
        enemySpawner.SetPath(Some(orderedPath));
      }
    }

    /** One frame: mouse input, then validation if space was pressed this frame. */
    method Update(leftHeld: bool, rightHeld: bool, cell: Cell, spacePressed: bool)
      returns (errors: Option<seq<PathError>>)
      requires Valid()
      modifies this`paintedCells, enemySpawner`pathToFollow, enemySpawner`startTile
      ensures Valid()
      ensures paintedCells == MouseStep(old(paintedCells), leftHeld, rightHeld, cell,
                                        requiredPathLength, allowedAreaTilemap, false)
      ensures errors.Some? <==> spacePressed
      ensures errors.Some? ==> errors.value == PathErrors(paintedCells, requiredPathLength)
      ensures !spacePressed ==> unchanged(enemySpawner)
      ensures spacePressed && (errors.value != [] || paintedCells == []) ==>
        enemySpawner.pathToFollow == old(enemySpawner.pathToFollow) && enemySpawner.startTile == old(enemySpawner.startTile)
      ensures spacePressed && errors.value == [] && paintedCells != [] ==>
        enemySpawner.pathToFollow == Some(OrderCells(paintedCells)) && enemySpawner.startTile == StartCell(paintedCells)
    {
      HandleMouseInput(leftHeld, rightHeld, cell);
      errors := None;
      if spacePressed {
        var found := ValidateAndStartPath();
        errors := Some(found);
      }
    }
  }
}
