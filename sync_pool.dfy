/** A pool of stream/event pairs over which tasks are dealt out round-robin
    (SyncInfoPool.hpp).  The pool only grows; its cursor is a position in
    the pool that `Next` advances cyclically before reading.

    Streams and events are opaque ids.  The accelerator runtime that makes
    them is not part of this model: `EnsureSize` receives the pairs it would
    create, in order, as a parameter. */
module SyncPool {
  import opened Types
  import opened GridMath

  /** One `SyncInfo`: a stream and an event, as opaque ids. */
  datatype SyncInfo = SyncInfo(stream: nat, event: nat)

  /** The position `Next` moves to from `pos` in a pool of `size` entries:
      one further on, back to the start past the end. */
  function NextPosition(pos: nat, size: nat): (r: nat)
    requires pos < size
    ensures r < size
    ensures pos + 1 < size ==> r == pos + 1
    ensures pos + 1 == size ==> r == 0
  {
    if pos + 1 == size then 0 else pos + 1
  }

  /** The position after `k` calls of `Next` from `pos`. */
  function Advance(pos: nat, k: nat, size: nat): nat
    requires pos < size
    decreases k
  {
    if k == 0 then pos else Advance(NextPosition(pos, size), k - 1, size)
  }

  /** `k` calls of `Next` move the cursor `k` places round the pool. */
  lemma {:induction false} AdvanceIsCyclic(pos: nat, k: nat, size: nat)
    requires pos < size
    ensures Advance(pos, k, size) < size
    ensures Advance(pos, k, size) == (pos + k) % size
    decreases k
  {
    if k == 0 {
      DivModUnique(pos, 0, pos, size);
    } else {
      var next := NextPosition(pos, size);
      AdvanceIsCyclic(next, k - 1, size);
      if pos + 1 == size {
        assert pos + k == (k - 1) + 1 * size;
        ModAddMultiple(k - 1, 1, size);
      }
    }
  }

  /** How many calls of `Next` from `pos` reach entry `i`: between 1 and
      `size`. */
  function StepsTo(pos: nat, i: nat, size: nat): (k: nat)
    requires pos < size && i < size
    ensures 1 <= k <= size
  {
    if i > pos then i - pos else i + size - pos
  }

  /** Round-robin fairness: in `size` consecutive calls every entry is
      handed out, and the cursor is then back where it was. */
  lemma {:induction false} FullCycleReturns(pos: nat, size: nat)
    requires pos < size
    ensures Advance(pos, size, size) == pos
    ensures forall i :: 0 <= i < size ==> Advance(pos, StepsTo(pos, i, size), size) == i
  {
    AdvanceIsCyclic(pos, size, size);
    DivModUnique(pos + size, 1, pos, size);
    forall i | 0 <= i < size
      ensures Advance(pos, StepsTo(pos, i, size), size) == i
    {
      var k := StepsTo(pos, i, size);
      AdvanceIsCyclic(pos, k, size);
      if i > pos {
        DivModUnique(pos + k, 0, i, size);
      } else {
        DivModUnique(pos + k, 1, i, size);
      }
    }
  }

  /** After `Reset`, the first `Next` hands out entry 1, or entry 0 of a
      pool of one. */
  lemma FirstAfterReset(size: nat)
    requires size > 0
    ensures NextPosition(0, size) == if size == 1 then 0 else 1
  {
  }

  class SyncInfoPool {
    /** The pool's entries, in the order they were created. */
    var pool: seq<SyncInfo>
    /** The cursor, as an offset into `pool`; meaningless while the pool
        is empty. */
    var pos: nat

    /** The cursor is within a nonempty pool. */
    ghost predicate Valid()
      reads this
    {
      |pool| > 0 ==> pos < |pool|
    }

    /** The empty pool. */
    constructor ()
      ensures Valid() && pool == [] && pos == 0
    {
      pool := [];
      pos := 0;
    }

    /** The pool of `poolSize` entries, the first ones of `created`. */
    constructor WithSize(poolSize: nat, created: seq<SyncInfo>)
      requires |created| >= poolSize
      ensures Valid() && pool == created[..poolSize] && pos == 0
    {
      pool := [];
      pos := 0;
      new;
      EnsureSize(poolSize, created);
    }

    /** `Size`. */
    function Size(): (r: nat)
      reads this
      ensures r == |pool|
    {
      |pool|
    }

    /** `EnsureSize(poolSize)`: nothing changes when the pool is already
        that large; otherwise the pool is extended to exactly `poolSize`
        entries by appending the pairs `created`, in order, and the cursor
        keeps its offset (0 for a pool that was empty). */
    method EnsureSize(poolSize: nat, created: seq<SyncInfo>)
      requires Valid()
      requires poolSize > |pool| ==> |created| >= poolSize - |pool|
      modifies this
      ensures Valid()
      ensures old(poolSize <= |pool|) ==> pool == old(pool) && pos == old(pos)
      ensures old(poolSize > |pool|) ==>
                |pool| == poolSize && pool == old(pool) + created[..poolSize - old(|pool|)]
      ensures old(poolSize > |pool|) ==> pos == if old(|pool|) == 0 then 0 else old(pos)
      ensures |pool| >= old(|pool|) && pool[..old(|pool|)] == old(pool)
    {
      if poolSize <= Size() {
        return;
      }
      var initialOffset := if Size() == 0 then 0 else pos;
      var newElements := poolSize - Size();
      ghost var before := pool;
      var ii := 0;
      while ii < newElements
        invariant ii <= newElements
        invariant pool == before + created[..ii]
      {
        pool := pool + [created[ii]];
        assert created[..ii + 1] == created[..ii] + [created[ii]];
        ii := ii + 1;
      }
      pos := initialOffset;
      assert pool[..|before|] == before;
    }

    /** `Swap`: the two pools exchange their entries and cursors. */
    method Swap(other: SyncInfoPool)
      modifies this, other
      ensures pool == old(other.pool) && pos == old(other.pos)
      ensures other.pool == old(pool) && other.pos == old(pos)
    {
      pool, other.pool := other.pool, pool;
      pos, other.pos := other.pos, pos;
    }

    /** `Reset`: the cursor goes back to the first entry. */
    method Reset()
      requires Valid()
      modifies this
      ensures Valid() && pool == old(pool) && pos == 0
    {
      pos := 0;
    }

    /** `Next`: on an empty pool a runtime error and nothing changes;
        otherwise the cursor moves to the next position, cyclically, and
        the entry there is handed out. */
    method Next() returns (r: Result<SyncInfo>)
      requires Valid()
      modifies this
      ensures Valid() && pool == old(pool)
      ensures old(|pool|) == 0 <==> r == Err(RuntimeError("SyncInfoPool: Cannot call Next() on empty pool."))
      ensures old(|pool|) == 0 ==> pos == old(pos)
      ensures old(|pool|) > 0 ==> pos == NextPosition(old(pos), |pool|) && r == Ok(pool[pos])
    {
      if Size() == 0 {
        return Err(RuntimeError("SyncInfoPool: Cannot call Next() on empty pool."));
      }
      pos := pos + 1;
      if pos == |pool| {
        pos := 0;
      }
      return Ok(pool[pos]);
    }
  }

  /** The free `swap(a, b)`. */
  method SwapPools(a: SyncInfoPool, b: SyncInfoPool)
    modifies a, b
    ensures a.pool == old(b.pool) && a.pos == old(b.pos)
    ensures b.pool == old(a.pool) && b.pos == old(a.pos)
  {
    a.Swap(b);
  }
}
