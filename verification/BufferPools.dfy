/** The pool that connections take their read buffers from. */
module BufferPools {

  /** A buffer is only its identity here. */
  class Buffer {
    constructor () {}
  }

  class BufferPool {
    const bufferSize: nat
    const poolSize: nat
    var maxMemory: nat
    var totalAllocated: nat
    var pool: seq<Buffer>
    ghost var outstanding: set<Buffer>

    /** Nothing is pooled twice or pooled while out, and every buffer is accounted for. */
    ghost predicate Valid()
      reads this
    {
      && (forall i, j | 0 <= i < j < |pool| :: pool[i] != pool[j])
      && (forall b | b in pool :: b !in outstanding)
      && totalAllocated == |pool| + |outstanding|
      && |pool| <= poolSize <= totalAllocated
    }

    /** Under a positive limit, no more memory than the limit or the initial pool, whichever is larger. */
    ghost predicate WithinLimit()
      reads this
    {
      maxMemory > 0 ==> totalAllocated * bufferSize <= maxMemory || totalAllocated == poolSize
    }

    constructor (bufferSize: nat, poolSize: nat, maxMemory: nat)
      ensures Valid() && WithinLimit() && outstanding == {} && fresh(pool)
      ensures this.bufferSize == bufferSize && this.poolSize == poolSize && this.maxMemory == maxMemory
    {
      this.bufferSize, this.poolSize, this.maxMemory := bufferSize, poolSize, maxMemory;
      totalAllocated := poolSize;
      pool := [];
      outstanding := {};
      new;
      for i := 0 to poolSize
        invariant |pool| == i && fresh(pool) && outstanding == {} && totalAllocated == poolSize
            && this.maxMemory == maxMemory
        invariant forall j, k | 0 <= j < k < |pool| :: pool[j] != pool[k]
      {
        var b := new Buffer();
        pool := pool + [b];
      }
    }

    /** A buffer nobody holds, from the back of the pool if there is one; none exactly when it would pass the limit. */
    method Acquire() returns (b: Buffer?)
      requires Valid()
      modifies this`pool, this`totalAllocated, this`outstanding
      ensures Valid() && (old(WithinLimit()) ==> WithinLimit())
      ensures b == null <==> old(pool) == [] && maxMemory > 0 && (old(totalAllocated) + 1) * bufferSize > maxMemory
      ensures b == null ==> outstanding == old(outstanding) && pool == old(pool)
      ensures b != null ==> b !in old(outstanding) && outstanding == old(outstanding) + {b}
      ensures b != null ==> if old(pool) == [] then pool == [] && fresh(b) else old(pool) == pool + [b]
    {
      if pool != [] {
        b := pool[|pool| - 1];
        pool := pool[..|pool| - 1];
        outstanding := outstanding + {b};
        return;
      }
      if maxMemory > 0 && (totalAllocated + 1) * bufferSize > maxMemory {
        return null;
      }
      totalAllocated := totalAllocated + 1;
      b := new Buffer();
      outstanding := outstanding + {b};
    }

    /**
     * Takes a buffer back: pooled while there is room, freed otherwise. The accounts stay right exactly
     * when the buffer was out (or when the pool has never had any).
     */
    method Release(b: Buffer)
      modifies this`pool, this`totalAllocated, this`outstanding
      ensures outstanding == old(outstanding) - {b}
      ensures |old(pool)| < poolSize ==> pool == old(pool) + [b] && totalAllocated == old(totalAllocated)
      ensures |old(pool)| >= poolSize
          ==> pool == old(pool) && (old(totalAllocated) > 0 ==> totalAllocated == old(totalAllocated) - 1)
      ensures old(Valid()) ==> (Valid() <==> b in old(outstanding) || old(totalAllocated) == 0)
      ensures old(Valid() && WithinLimit()) && b in old(outstanding) ==> WithinLimit()
    {
      ghost var out := outstanding;
      outstanding := outstanding - {b};
      assert b !in out ==> outstanding == out;
      if |pool| < poolSize {
        pool := pool + [b];
      } else {
        if totalAllocated > 0 {
          totalAllocated := totalAllocated - 1;
        }
        LessMemory(totalAllocated, bufferSize);
      }
    }

    method SetMaxMemoryLimit(maxMemory: nat)
      requires Valid()
      modifies this`maxMemory
      ensures Valid() && this.maxMemory == maxMemory
    {
      this.maxMemory := maxMemory;
    }

    function CurrentMemoryUsage(): nat
      reads this
    {
      totalAllocated * bufferSize
    }

    /** The memory bound, and the pool as it was at the start once everything is back. */
    lemma PoolLaws()
      requires Valid()
      ensures outstanding == {} ==> |pool| == totalAllocated == poolSize
      ensures WithinLimit() && maxMemory > 0 ==>
                CurrentMemoryUsage() <= if maxMemory >= poolSize * bufferSize then maxMemory else poolSize * bufferSize
      ensures |pool| <= poolSize <= totalAllocated == |pool| + |outstanding|
    {
    }
  }

  lemma LessMemory(n: nat, size: nat)
    ensures n * size <= (n + 1) * size
  {
  }

  /** A client of a pool: takes a buffer, or gives back one of those it holds. */
  datatype Use = Take | Give(which: nat)

  /** Any run of a client that gives each buffer back at most once keeps the laws. */
  method UsePool(p: BufferPool, uses: seq<Use>) returns (held: seq<Buffer>)
    requires p.Valid() && p.WithinLimit() && p.outstanding == {}
    modifies p
    ensures p.Valid() && p.WithinLimit() && p.maxMemory == old(p.maxMemory)
    ensures (set b | b in held) == p.outstanding && |held| == |p.outstanding|
    ensures p.totalAllocated == |p.pool| + |held|
  {
    held := [];
    for i := 0 to |uses|
      invariant p.Valid() && p.WithinLimit() && p.maxMemory == old(p.maxMemory)
      invariant (forall b | b in held :: b in p.outstanding) && (forall b | b in p.outstanding :: b in held)
      invariant forall j, k | 0 <= j < k < |held| :: held[j] != held[k]
      invariant |held| == |p.outstanding|
    {
      match uses[i]
      case Take =>
        var b := p.Acquire();
        if b != null {
          held := held + [b];
        }
      case Give(which) =>
        if which < |held| {
          ghost var before := held;
          p.Release(held[which]);
          held := held[..which] + held[which + 1..];
          StillHeld(before, which, held);
        }
    }
  }

  lemma StillHeld(before: seq<Buffer>, which: nat, held: seq<Buffer>)
    requires which < |before| && held == before[..which] + before[which + 1..]
    requires forall j, k | 0 <= j < k < |before| :: before[j] != before[k]
    ensures forall b :: b in held <==> b in before && b != before[which]
    ensures forall j, k | 0 <= j < k < |held| :: held[j] != held[k]
  {
    forall b | b in before && b != before[which]
      ensures b in held
    {
      var i :| 0 <= i < |before| && before[i] == b;
      assert held[if i < which then i else i - 1] == b;
    }
  }
}
