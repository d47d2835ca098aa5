/**
 * `BulletPool`: a growable list of bullet objects searched for the first inactive one.
 * Objects are ids handed out in creation order; `active` is each object's active state,
 * which the pool's callers switch on and off.
 */
module BulletPooling {
  import opened Wrappers
  import opened Lists

  /** The position of the first inactive object of the pool, if any. */
  function FirstInactive(pool: seq<nat>, active: map<nat, bool>): (r: Option<nat>)
    requires forall o :: o in pool ==> o in active
    ensures r.Some? ==> r.value < |pool| && !active[pool[r.value]]
                        && forall j :: 0 <= j < r.value ==> active[pool[j]]
    ensures r.None? ==> forall j :: 0 <= j < |pool| ==> active[pool[j]]
  {
    if pool == [] then None
    else if !active[pool[0]] then Some(0)
    else match FirstInactive(pool[1..], active)
      case None => None
      case Some(i) => Some(i + 1)
  }

  class BulletPool {
    const poolSize: int
    var pool: seq<nat>
    var active: map<nat, bool>
    var instantiated: nat

    ghost predicate Valid()
      reads this
    {
      Distinct(pool) &&
      (forall o :: o in pool ==> o in active) &&
      (forall o :: o in active ==> o < instantiated)
    }

    constructor(poolSize: int)
      ensures this.poolSize == poolSize && pool == [] && active == map[] && instantiated == 0
      ensures Valid()
    {
      this.poolSize := poolSize;
      pool := [];
      active := map[];
      instantiated := 0;
    }

    /** Creates one object and deactivates it. */
    method NewInactive() returns (obj: nat)
      requires Valid()
      modifies this`active, this`instantiated
      ensures obj == old(instantiated) && instantiated == obj + 1
      ensures active == old(active)[obj := false]
      ensures obj !in old(active) && obj !in pool
      ensures (forall o :: o in active ==> o < instantiated)
    {
      obj := instantiated;
      instantiated := instantiated + 1;
      active := active[obj := false];
    }

    /** `Start`: a new list of poolSize fresh objects, all inactive. */
    method Start()
      requires Valid()
      modifies this
      ensures Valid()
      ensures |pool| == (if poolSize > 0 then poolSize else 0)
      ensures forall o :: o in pool ==> !active[o] && o !in old(active)
    {
      pool := [];
      var i := 0;
      while i < poolSize
        invariant 0 <= i <= (if poolSize > 0 then poolSize else 0)
        invariant Valid() && |pool| == i
        invariant old(instantiated) <= instantiated
        invariant forall o :: o in pool ==> !active[o] && old(instantiated) <= o
        invariant forall o :: o in old(active) ==> o < old(instantiated)
      {
        var obj := NewInactive();
        DistinctSnoc(pool, obj);
        pool := pool + [obj];
        i := i + 1;
      }
    }

    /**
     * `GetPooledObject`: the first inactive object in list order, left inactive; when all are
     * active, one new inactive object appended to the list.
     */
    method GetPooledObject() returns (obj: nat)
      requires Valid()
      modifies this
      ensures Valid()
      ensures FirstInactive(old(pool), old(active)).Some? ==>
        && obj == old(pool)[FirstInactive(old(pool), old(active)).value]
        && pool == old(pool) && active == old(active) && instantiated == old(instantiated)
      ensures FirstInactive(old(pool), old(active)).None? ==>
        && obj == old(instantiated) && obj !in old(active)
        && pool == old(pool) + [obj] && active == old(active)[obj := false]
      ensures obj in active && !active[obj]
    {
      for i := 0 to |pool|
        invariant forall j :: 0 <= j < i ==> active[pool[j]]
      {
        if !active[pool[i]] {
          return pool[i];
        }
      }
      obj := NewInactive();
      DistinctSnoc(pool, obj);
      pool := pool + [obj];
    }

    /** `SetActive` as the pool's callers use it on a pooled object. */
    method SetActive(obj: nat, value: bool)
      requires Valid() && obj in pool
      modifies this`active
      ensures Valid() && active == old(active)[obj := value]
    {
      active := active[obj := value];
    }
  }
}
