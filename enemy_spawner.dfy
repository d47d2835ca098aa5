/**
 * `EnemySpawner`: holds the path enemies follow and a count of live enemies. One pass of
 * the endless spawn loop is one SpawnTick; the interval between passes is not modelled.
 */
module Spawning {
  import opened Wrappers
  import opened Grid
  import opened EnemyPooling

  /** An enemy placed on the start tile and given the path. */
  datatype Spawn = Spawn(enemy: nat, at: Cell, path: seq<Cell>)

  class EnemySpawner {
    const enemyPool: EnemyObjectPool
    const maxEnemies: int
    var currentEnemyCount: int
    var pathToFollow: Option<seq<Cell>>    // None until a usable path arrives
    var startTile: Cell

    constructor(enemyPool: EnemyObjectPool, maxEnemies: int)
      ensures this.enemyPool == enemyPool && this.maxEnemies == maxEnemies
      ensures currentEnemyCount == 0 && pathToFollow == None && startTile == Cell(0, 0)
    {
      this.enemyPool := enemyPool;
      this.maxEnemies := maxEnemies;
      currentEnemyCount := 0;
      pathToFollow := None;
      startTile := Cell(0, 0);
    }

    /** A stored path is never empty, and enemies start on its first tile. */
    ghost predicate PathStored()
      reads this
    {
      pathToFollow.Some? ==> pathToFollow.value != [] && startTile == pathToFollow.value[0]
    }

    /** `SetPath`: a missing (null) or empty path is ignored; any other replaces the path and the start tile. */
    method SetPath(path: Option<seq<Cell>>)
      modifies this`pathToFollow, this`startTile
      ensures path.None? || path.value == [] ==> pathToFollow == old(pathToFollow) && startTile == old(startTile)
      ensures path.Some? && path.value != [] ==> pathToFollow == path && startTile == path.value[0]
      ensures old(PathStored()) ==> PathStored()
    {
      if path.None? || |path.value| == 0 {
        return;
      }
      pathToFollow := path;
      startTile := path.value[0];
    }

    /**
     * One pass of the spawn loop: below the cap and with a path, take an enemy from the pool
     * and, if there was one, place it on the start tile with the path and count it.
     */
    method SpawnTick() returns (spawned: Option<Spawn>)
      requires enemyPool.Valid()
      modifies this`currentEnemyCount, enemyPool`enemyPool, enemyPool`active
      ensures enemyPool.Valid()
      ensures !(old(currentEnemyCount) < maxEnemies && pathToFollow.Some?) ==>
        spawned == None && currentEnemyCount == old(currentEnemyCount) && unchanged(enemyPool)
      ensures old(currentEnemyCount) < maxEnemies && pathToFollow.Some? && old(enemyPool.enemyPool) == [] ==>
        spawned == None && currentEnemyCount == old(currentEnemyCount) && unchanged(enemyPool)
      ensures old(currentEnemyCount) < maxEnemies && pathToFollow.Some? && old(enemyPool.enemyPool) != [] ==>
        && spawned == Some(Spawn(old(enemyPool.enemyPool)[0], startTile, pathToFollow.value))
        && currentEnemyCount == old(currentEnemyCount) + 1
        && enemyPool.enemyPool == old(enemyPool.enemyPool)[1..]
        && enemyPool.active == old(enemyPool.active)[old(enemyPool.enemyPool)[0] := true]
    {
      spawned := None;
      if currentEnemyCount < maxEnemies && pathToFollow.Some? {
        var enemy := enemyPool.GetEnemyFromPool();
        if enemy.Some? {
          spawned := Some(Spawn(enemy.value, startTile, pathToFollow.value));
          currentEnemyCount := currentEnemyCount + 1;
        }
      }
    }

    /** `EnemyDestroyed`: one fewer live enemy, with no lower bound. */
    method EnemyDestroyed()
      modifies this`currentEnemyCount
      ensures currentEnemyCount == old(currentEnemyCount) - 1
    {
      currentEnemyCount := currentEnemyCount - 1;
    }

    /**
     * `ticks` passes of the spawn loop with nothing else in between: the count never
     * passes the cap unless it started above it, and each enemy spawned is counted once.
     */
    method SpawnEnemies(ticks: nat) returns (spawned: seq<Spawn>)
      requires enemyPool.Valid()
      modifies this`currentEnemyCount, enemyPool`enemyPool, enemyPool`active
      ensures enemyPool.Valid()
      ensures currentEnemyCount == old(currentEnemyCount) + |spawned|
      ensures currentEnemyCount <= (if old(currentEnemyCount) > maxEnemies then old(currentEnemyCount) else maxEnemies)
      ensures |spawned| <= ticks
      ensures forall s :: s in spawned ==> s.at == startTile && pathToFollow.Some? && s.path == pathToFollow.value
    {
      spawned := [];
      for t := 0 to ticks
        invariant enemyPool.Valid()
        invariant currentEnemyCount == old(currentEnemyCount) + |spawned|
        invariant currentEnemyCount <= (if old(currentEnemyCount) > maxEnemies then old(currentEnemyCount) else maxEnemies)
        invariant |spawned| <= t
        invariant forall s :: s in spawned ==> s.at == startTile && pathToFollow.Some? && s.path == pathToFollow.value
      {
        var s := SpawnTick();
        if s.Some? {
          spawned := spawned + [s.value];
        }
      }
    }
  }
}
