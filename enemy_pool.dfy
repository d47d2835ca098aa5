/**
 * `EnemyObjectPool`: a FIFO queue of enemy objects, filled once at start. Game objects are
 * ids; the pool hands out ids 0, 1, 2, ... as it instantiates them, and `active` records
 * each object's `SetActive` state.
 */
module EnemyPooling {
  import opened Wrappers
  import opened Lists

  /** The ids from, from + 1, ..., from + n - 1. */
  function Ids(from: nat, n: nat): (r: seq<nat>)
    ensures |r| == n && forall i :: 0 <= i < n ==> r[i] == from + i
  {
    if n == 0 then [] else Ids(from, n - 1) + [from + n - 1]
  }

  /** The ids from, ..., upto - 1, each mapped to inactive. */
  function Inactive(from: nat, upto: nat): (m: map<nat, bool>)
    decreases upto
    ensures forall e :: e in m <==> from <= e < upto
    ensures forall e :: e in m ==> !m[e]
  {
    if upto <= from then map[] else Inactive(from, upto - 1)[upto - 1 := false]
  }

  lemma InactiveStep(base: map<nat, bool>, from: nat, upto: nat)
    requires from <= upto
    ensures base + Inactive(from, upto + 1) == (base + Inactive(from, upto))[upto := false]
  {
  }

  lemma IdsDistinct(from: nat, n: nat)
    ensures Distinct(Ids(from, n))
  {
  }

  /** The enemies a fill appends are distinct, known and inactive. */
  lemma FreshQueue(before: seq<nat>, after: seq<nat>, activeBefore: map<nat, bool>, active: map<nat, bool>, from: nat, n: nat)
    requires after == before + Ids(from, n) && active == activeBefore + Inactive(from, from + n)
    ensures Distinct(after[|before|..]) && forall e :: e in after[|before|..] ==> e in active && !active[e]
  {
    assert after[|before|..] == Ids(from, n);
    IdsDistinct(from, n);
  }

  class EnemyObjectPool {
    const poolSize: int
    var enemyPool: seq<nat>        // front of the queue at index 0
    var active: map<nat, bool>
    var instantiated: nat          // how many enemies the pool has created

    /** Every queued object has an active flag. */
    ghost predicate Valid()
      reads this
    {
      forall e :: e in enemyPool ==> e in active
    }

    constructor(poolSize: int)
      ensures this.poolSize == poolSize && enemyPool == [] && active == map[] && instantiated == 0
      ensures Valid()
    {
      this.poolSize := poolSize;
      enemyPool := [];
      active := map[];
      instantiated := 0;
    }

    /** `InitializePool`: poolSize enemies with the next ids, each deactivated and queued (none for a non-positive size). */
    method InitializePool()
      requires Valid()
      modifies this
      ensures Valid()
      ensures var n := if poolSize > 0 then poolSize else 0;
        && instantiated == old(instantiated) + n
        && enemyPool == old(enemyPool) + Ids(old(instantiated), n)
        && active == old(active) + Inactive(old(instantiated), instantiated)
      ensures Distinct(enemyPool[|old(enemyPool)|..]) && forall e :: e in enemyPool[|old(enemyPool)|..] ==> e in active && !active[e]
    {
      var i := 0;
      while i < poolSize
        invariant 0 <= i <= (if poolSize > 0 then poolSize else 0)
        invariant Valid()
        invariant instantiated == old(instantiated) + i
        invariant enemyPool == old(enemyPool) + Ids(old(instantiated), i)
        invariant active == old(active) + Inactive(old(instantiated), instantiated)
      {
        var enemy := AddInactive();
        InactiveStep(old(active), old(instantiated), enemy);
        assert Ids(old(instantiated), i + 1) == Ids(old(instantiated), i) + [enemy];
        i := i + 1;
      }
      FreshQueue(old(enemyPool), enemyPool, old(active), active, old(instantiated), i);
    }

    /** One pass of the fill loop: instantiate an enemy, deactivate it, queue it. */
    method AddInactive() returns (enemy: nat)
      requires Valid()
      modifies this`instantiated, this`active, this`enemyPool
      ensures Valid()
      ensures enemy == old(instantiated) && instantiated == enemy + 1
      ensures active == old(active)[enemy := false] && enemyPool == old(enemyPool) + [enemy]
    {
      enemy := instantiated;
      instantiated := instantiated + 1;
      active := active[enemy := false];
      enemyPool := enemyPool + [enemy];
    }

    /** `GetEnemyFromPool`: dequeue the front enemy and activate it, or None when the queue is empty. */
    method GetEnemyFromPool() returns (enemy: Option<nat>)
      requires Valid()
      modifies this`enemyPool, this`active
      ensures Valid()
      ensures old(enemyPool) == [] ==> enemy == None && enemyPool == [] && active == old(active)
      ensures old(enemyPool) != [] ==>
        && enemy == Some(old(enemyPool)[0])
        && enemyPool == old(enemyPool)[1..]
        && active == old(active)[old(enemyPool)[0] := true]
    {
      if |enemyPool| > 0 {
        var e := enemyPool[0];
        assert e in enemyPool;
        enemyPool := enemyPool[1..];
        active := active[e := true];
        return Some(e);
      }
      return None;
    }

    /** `ReturnEnemyToPool`: deactivate the enemy and queue it at the back, whether or not it is queued already. */
    method ReturnEnemyToPool(enemy: nat)
      requires Valid()
      modifies this`enemyPool, this`active
      ensures Valid()
      ensures enemyPool == old(enemyPool) + [enemy]
      ensures active == old(active)[enemy := false]
    {
      active := active[enemy := false];
      enemyPool := enemyPool + [enemy];
    }
  }

  /** The queue is first in, first out: an enemy returned to an empty queue is the next one handed out. */
  method ReturnThenGet(pool: EnemyObjectPool, enemy: nat) returns (got: Option<nat>)
    requires pool.Valid() && pool.enemyPool == []
    modifies pool
    ensures got == Some(enemy) && pool.enemyPool == [] && enemy in pool.active && pool.active[enemy]
  {
    pool.ReturnEnemyToPool(enemy);
    got := pool.GetEnemyFromPool();
  }

  /** A queue whose front is already returned gets it twice: the return does not check for duplicates. */
  method ReturnTwiceQueuesTwice(pool: EnemyObjectPool, enemy: nat)
    requires pool.Valid()
    modifies pool
    ensures pool.enemyPool == old(pool.enemyPool) + [enemy, enemy]
  {
    pool.ReturnEnemyToPool(enemy);
    pool.ReturnEnemyToPool(enemy);
  }
}
