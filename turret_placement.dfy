/**
 * `TurretPlacementManager`: the map from grid cells to the turret standing on them. A
 * turret claims the 2x2 block above and to the right of its anchor cell all at once, and
 * bulldozing one of its cells removes every cell it claims and refunds its cost.
 * Turret objects are ids; `turrets` holds the turrets not yet destroyed.
 */
module TurretPlacement {
  import opened Wrappers
  import opened Grid
  import opened Lists
  import opened Resources

  /** The parts of a turret type's data the placement logic reads. */
  datatype TurretData = TurretData(cost: int, prefabHasTurret: bool)

  /**
   * A placed turret: the bottom-left cell of its block and the data its `Turret` component
   * carries (None when the prefab has no `Turret` component).
   */
  datatype PlacedTurret = PlacedTurret(anchor: Cell, data: Option<TurretData>)

  /** The cells the map assigns to turret id. */
  function CellsOf(placed: map<Cell, nat>, id: nat): set<Cell> {
    set c | c in placed && placed[c] == id
  }

  /** Every mapped cell belongs to a live turret, and each live turret holds exactly its block. */
  ghost predicate Consistent(placed: map<Cell, nat>, turrets: map<nat, PlacedTurret>): (ok: bool)
    ensures ok ==> placed.Values <= turrets.Keys
  {
    && (forall c :: c in placed ==> placed[c] in turrets)
    && (forall id :: id in turrets ==> CellsOf(placed, id) == Block(turrets[id].anchor))
  }

  /** In a consistent map every live turret occupies exactly four cells. */
  lemma ConsistentTurretsHoldFourCells(placed: map<Cell, nat>, turrets: map<nat, PlacedTurret>)
    requires Consistent(placed, turrets)
    ensures forall id :: id in turrets ==> |CellsOf(placed, id)| == 4
  {
    forall id | id in turrets ensures |CellsOf(placed, id)| == 4 {
      BlockSize(turrets[id].anchor);
    }
  }

  /** The map entries a new turret adds: its four block cells, all mapped to it. */
  function BlockMap(p: Cell, id: nat): map<Cell, nat> {
    map[p := id, Shift(p, Right) := id, Shift(p, Up) := id, Shift(p, UpRight) := id]
  }

  /** The entries mapping each listed cell to id. */
  function Claim(cells: seq<Cell>, id: nat): (m: map<Cell, nat>)
    ensures m.Keys == set c | c in cells
    ensures forall c :: c in m ==> m[c] == id
  {
    if cells == [] then map[] else Claim(cells[..|cells| - 1], id)[cells[|cells| - 1] := id]
  }

  lemma ClaimStep(before: map<Cell, nat>, cells: seq<Cell>, i: nat, id: nat)
    requires i < |cells|
    ensures before + Claim(cells[..i + 1], id) == (before + Claim(cells[..i], id))[cells[i] := id]
  {
    assert cells[..i + 1][..i] == cells[..i];
  }

  /** Claiming the block's listed cells gives exactly the block's entries. */
  lemma ClaimBlock(p: Cell, id: nat)
    ensures Claim(BlockCells(p), id) == BlockMap(p, id)
  {
    var a := Claim(BlockCells(p), id);
    var b := BlockMap(p, id);
    assert a.Keys == Block(p) == b.Keys;
    assert forall c :: c in a ==> a[c] == b[c];
  }

  /** Each of the block's cells is in the allowed area, free of turrets and not painted as path. */
  predicate AreaAvailable(p: Cell, allowed: set<Cell>, placed: map<Cell, nat>, pathTiles: Option<set<Cell>>)
    : (available: bool)
    ensures available <==>
      && Block(p) <= allowed
      && Block(p) !! placed.Keys
      && (pathTiles.Some? ==> Block(p) !! pathTiles.value)
  {
    forall c :: c in Block(p) ==> c in allowed && c !in placed && (pathTiles.Some? ==> c !in pathTiles.value)
  }

  /** In a consistent map a cell is occupied exactly when it lies in some live turret's block. */
  lemma OccupiedIffInBlock(placed: map<Cell, nat>, turrets: map<nat, PlacedTurret>, c: Cell)
    ensures Consistent(placed, turrets) ==>
      (c in placed <==> exists id :: id in turrets && c in Block(turrets[id].anchor))
  {
    if Consistent(placed, turrets) && c in placed {
      var id := placed[c];
      assert c in CellsOf(placed, id);
    }
    if Consistent(placed, turrets) && exists id :: id in turrets && c in Block(turrets[id].anchor) {
      var id :| id in turrets && c in Block(turrets[id].anchor);
      assert c in CellsOf(placed, id);
    }
  }

  /** Adding a fresh turret on a free block keeps the map consistent and claims exactly that block. */
  lemma PlaceKeepsConsistent(placed: map<Cell, nat>, turrets: map<nat, PlacedTurret>, id: nat, t: PlacedTurret)
    requires Consistent(placed, turrets) && id !in turrets
    requires forall c :: c in Block(t.anchor) ==> c !in placed
    ensures Consistent(placed + BlockMap(t.anchor, id), turrets[id := t])
    ensures CellsOf(placed + BlockMap(t.anchor, id), id) == Block(t.anchor)
  {
    var placed' := placed + BlockMap(t.anchor, id);
    var turrets' := turrets[id := t];
    assert BlockMap(t.anchor, id).Keys == Block(t.anchor);
    forall other | other in turrets'
      ensures CellsOf(placed', other) == Block(turrets'[other].anchor)
    {
      if other == id {
        assert CellsOf(placed', id) == Block(t.anchor);
      } else {
        assert CellsOf(placed', other) == CellsOf(placed, other);
      }
    }
  }

  /** Removing every cell of a live turret, and the turret, keeps the map consistent. */
  lemma RemoveKeepsConsistent(placed: map<Cell, nat>, turrets: map<nat, PlacedTurret>, id: nat)
    requires Consistent(placed, turrets) && id in turrets
    ensures Consistent(placed - CellsOf(placed, id), turrets - {id})
  {
    var placed' := placed - CellsOf(placed, id);
    forall other | other in turrets - {id}
      ensures CellsOf(placed', other) == Block(turrets[other].anchor)
    {
      assert CellsOf(placed', other) == CellsOf(placed, other);
    }
  }

  /** Bulldozing a block right after claiming it, for a turret id not in use, restores both maps. */
  lemma PlaceThenBulldoze(p: Cell, placed: map<Cell, nat>, turrets: map<nat, PlacedTurret>, id: nat, t: PlacedTurret)
    requires forall c :: c in Block(p) ==> c !in placed
    requires id !in turrets
    ensures (placed + BlockMap(p, id)) - Block(p) == placed
    ensures turrets[id := t] - {id} == turrets
  {
    assert BlockMap(p, id).Keys == Block(p);
  }

  class TurretPlacementManager {
    const allowedTilemap: set<Cell>
    const resources: ResourceManager
    var selectedTurretData: Option<TurretData>
    var placedTurrets: map<Cell, nat>
    var turrets: map<nat, PlacedTurret>
    var nextTurretId: nat

    ghost predicate Valid()
      reads this
    {
      Consistent(placedTurrets, turrets) && forall id :: id in turrets ==> id < nextTurretId
    }

    constructor(allowedTilemap: set<Cell>, resources: ResourceManager)
      ensures this.allowedTilemap == allowedTilemap && this.resources == resources
      ensures selectedTurretData == None && placedTurrets == map[] && turrets == map[]
      ensures Valid()
    {
      this.allowedTilemap := allowedTilemap;
      this.resources := resources;
      selectedTurretData := None;
      placedTurrets := map[];
      turrets := map[];
      nextTurretId := 0;
    }

    /** `IsCellOccupied`: the cell is a key of the map, that is, it lies in some live turret's block. */
    predicate IsCellOccupied(cell: Cell): (occupied: bool)
      reads this
      ensures Valid() ==> (occupied <==> exists id :: id in turrets && cell in Block(turrets[id].anchor))
    {
      OccupiedIffInBlock(placedTurrets, turrets, cell);
      cell in placedTurrets
    }

    /** `IsAreaAvailable`: checks the four block cells in turn and stops at the first unusable one. */
    method IsAreaAvailable(gridPos: Cell, pathTiles: Option<set<Cell>>) returns (available: bool)
      ensures available == AreaAvailable(gridPos, allowedTilemap, placedTurrets, pathTiles)
    {
      var requiredCells := BlockCells(gridPos);
      for i := 0 to 4
        invariant forall j :: 0 <= j < i ==> var c := requiredCells[j];
          c in allowedTilemap && c !in placedTurrets && (pathTiles.Some? ==> c !in pathTiles.value)
      {
        var cell := requiredCells[i];
        if cell !in allowedTilemap || cell in placedTurrets {
          return false;
        }
        if pathTiles.Some? && cell in pathTiles.value {
          return false;
        }
      }
      assert forall c :: c in Block(gridPos) ==> c in requiredCells;
      return true;
    }

    /**
     * `PlaceTurret`: pays the selected turret's cost; when the payment fails nothing changes,
     * otherwise a new turret claims the four cells of its block. The caller has checked
     * that none of them is taken.
     */
    method PlaceTurret(gridPos: Cell) returns (placed: bool)
      requires Valid() && selectedTurretData.Some?
      requires forall c :: c in Block(gridPos) ==> c !in placedTurrets
      modifies this`placedTurrets, this`turrets, this`nextTurretId, resources
      ensures Valid()
      ensures placed == CanSpend(old(resources.coins), selectedTurretData.value.cost)
      ensures resources.coins == Debit(old(resources.coins), selectedTurretData.value.cost)
      ensures !placed ==> placedTurrets == old(placedTurrets) && turrets == old(turrets)
      ensures placed ==>
        var id := old(nextTurretId);
        var data := selectedTurretData.value;
        && placedTurrets == old(placedTurrets) + BlockMap(gridPos, id)
        && turrets == old(turrets)[id := PlacedTurret(gridPos, if data.prefabHasTurret then Some(data) else None)]
        && CellsOf(placedTurrets, id) == Block(gridPos)
    {
      var data := selectedTurretData.value;
      var spent := resources.SpendCoins(data.cost);
      if !spent {
        return false;
      }
      var id := nextTurretId;
      nextTurretId := nextTurretId + 1;
      var turret := PlacedTurret(gridPos, if data.prefabHasTurret then Some(data) else None);
      PlaceKeepsConsistent(placedTurrets, turrets, id, turret);
      turrets := turrets[id := turret];

      ClaimCells(gridPos, id);
      return true;
    }

    /** The claiming loop of `PlaceTurret`: each of the four block cells is mapped to the turret. */
    method ClaimCells(gridPos: Cell, id: nat)
      modifies this`placedTurrets
      ensures placedTurrets == old(placedTurrets) + BlockMap(gridPos, id)
    {
      var occupiedCells := BlockCells(gridPos);
      for i := 0 to 4
        invariant placedTurrets == old(placedTurrets) + Claim(occupiedCells[..i], id)
      {
        ClaimStep(old(placedTurrets), occupiedCells, i, id);
        placedTurrets := placedTurrets[occupiedCells[i] := id];
      }
      assert occupiedCells[..4] == occupiedCells;
      ClaimBlock(gridPos, id);
    }

    /**
     * The bulldoze branch of `Update`: on an occupied cell, refund the turret's cost when it
     * carries data, collect every cell mapped to that turret, remove them and destroy the
     * turret. On a free cell nothing happens.
     */
    method Bulldoze(gridPos: Cell) returns (removed: bool)
      requires Valid()
      modifies this`placedTurrets, this`turrets, resources
      ensures Valid()
      ensures removed == (gridPos in old(placedTurrets))
      ensures !removed ==> placedTurrets == old(placedTurrets) && turrets == old(turrets)
                           && resources.coins == old(resources.coins)
      ensures removed ==>
        var id := old(placedTurrets)[gridPos];
        var t := old(turrets)[id];
        && gridPos in Block(t.anchor)
        && placedTurrets == old(placedTurrets) - Block(t.anchor)
        && turrets == old(turrets) - {id}
        && resources.coins == (if t.data.Some? then Credit(old(resources.coins), t.data.value.cost)
                               else old(resources.coins))
    {
      if gridPos !in placedTurrets {
        return false;
      }
      var turretToRemove := placedTurrets[gridPos];
      var turret := turrets[turretToRemove];
      assert gridPos in CellsOf(placedTurrets, turretToRemove);
      if turret.data.Some? {
        resources.AddCoins(turret.data.value.cost);
      }

      var keysToRemove := CollectKeys(turretToRemove);
      RemoveKeepsConsistent(placedTurrets, turrets, turretToRemove);
      RemoveKeys(keysToRemove);
      turrets := turrets - {turretToRemove};
      return true;
    }

    /** The collecting loop of the bulldoze branch: every cell mapped to the turret, each once. */
    method CollectKeys(turretToRemove: nat) returns (keysToRemove: seq<Cell>)
      ensures Elements(keysToRemove) == CellsOf(placedTurrets, turretToRemove)
      ensures Distinct(keysToRemove)
    {
      keysToRemove := [];
      var unvisited := placedTurrets.Keys;
      while unvisited != {}
        invariant unvisited <= placedTurrets.Keys
        invariant Distinct(keysToRemove)
        invariant forall c :: c in keysToRemove ==> c in CellsOf(placedTurrets, turretToRemove) && c !in unvisited
        invariant forall c :: c in CellsOf(placedTurrets, turretToRemove) && c !in unvisited ==> c in keysToRemove
        decreases |unvisited|
      {
        var c :| c in unvisited;
        if placedTurrets[c] == turretToRemove {
          DistinctSnoc(keysToRemove, c);
          keysToRemove := keysToRemove + [c];
        }
        unvisited := unvisited - {c};
      }
    }

    /** The removing loop of the bulldoze branch. */
    method RemoveKeys(keysToRemove: seq<Cell>)
      modifies this`placedTurrets
      ensures placedTurrets == old(placedTurrets) - Elements(keysToRemove)
    {
      for i := 0 to |keysToRemove|
        invariant placedTurrets == old(placedTurrets) - Elements(keysToRemove[..i])
      {
        assert Elements(keysToRemove[..i + 1]) == Elements(keysToRemove[..i]) + {keysToRemove[i]} by {
          assert keysToRemove[..i + 1] == keysToRemove[..i] + [keysToRemove[i]];
        }
        placedTurrets := placedTurrets - {keysToRemove[i]};
      }
      assert keysToRemove[..|keysToRemove|] == keysToRemove;
    }

    method SetSelectedTurret(data: TurretData)
      modifies this`selectedTurretData
      ensures selectedTurretData == Some(data)
    {
      selectedTurretData := Some(data);
    }

    /**
     * One frame of `Update` with the mouse over gridPos: with a turret selected, a left click
     * on an available block places it if its cost can be paid; then a right click bulldozes
     * the turret under the mouse, which may be the one just placed.
     */
    method Update(gridPos: Cell, leftDown: bool, rightDown: bool, pathTiles: Option<set<Cell>>)
      returns (placed: bool, removed: bool)
      requires Valid()
      modifies this`placedTurrets, this`turrets, this`nextTurretId, resources
      ensures Valid()
      ensures var attempt := selectedTurretData.Some? && leftDown
                             && AreaAvailable(gridPos, allowedTilemap, old(placedTurrets), pathTiles);
        placed == (attempt && CanSpend(old(resources.coins), selectedTurretData.value.cost))
      ensures removed == (rightDown && (placed || gridPos in old(placedTurrets)))
      ensures !placed && !removed ==>
        placedTurrets == old(placedTurrets) && turrets == old(turrets) && resources.coins == old(resources.coins)
      ensures placed && !removed ==>
        var id := old(nextTurretId);
        var data := selectedTurretData.value;
        && placedTurrets == old(placedTurrets) + BlockMap(gridPos, id)
        && turrets == old(turrets)[id := PlacedTurret(gridPos, if data.prefabHasTurret then Some(data) else None)]
        && resources.coins == Debit(old(resources.coins), data.cost)
      ensures !placed && removed ==>
        var id := old(placedTurrets)[gridPos];
        var t := old(turrets)[id];
        && placedTurrets == old(placedTurrets) - Block(t.anchor)
        && turrets == old(turrets) - {id}
        && resources.coins == (if t.data.Some? then Credit(old(resources.coins), t.data.value.cost)
                               else old(resources.coins))
      ensures placed && removed ==>
        var data := selectedTurretData.value;
        && placedTurrets == old(placedTurrets) && turrets == old(turrets)
        && resources.coins == (if data.prefabHasTurret then old(resources.coins) else Debit(old(resources.coins), data.cost))
    {
      placed, removed := false, false;
      if selectedTurretData.Some? {
        var isValidPlacement := IsAreaAvailable(gridPos, pathTiles);
        if isValidPlacement && leftDown {
          placed := PlaceTurret(gridPos);
        }
      }
      if rightDown {
        if placed {
          var data := selectedTurretData.value;
          PlaceThenBulldoze(gridPos, old(placedTurrets), old(turrets), old(nextTurretId),
                            PlacedTurret(gridPos, if data.prefabHasTurret then Some(data) else None));
          SpendThenRefund(old(resources.coins), data.cost);
        }
        removed := Bulldoze(gridPos);
      }
    }
  }
}
