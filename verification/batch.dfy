/** The write batch: a staging area of Put and Delete operations and a
    counter of how many have been staged. Nothing reaches the store until the
    batch is committed. */
module Batch {
  import opened Bytes
  import opened Engine

  class WriteBatch {
    /** The staged operations, oldest first (the engine batch). */
    var ops: seq<Op>
    /** The wrapper's own operation counter. */
    var count: int

    /** The counter always equals the number of staged operations. */
    ghost predicate Valid()
      reads this
    {
      count == |ops|
    }

    /** A fresh, empty batch. */
    constructor ()
      ensures Valid() && ops == [] && count == 0
    {
      ops := [];
      count := 0;
    }

    /** Stages an upsert; no I/O happens yet. */
    method Put(key: Key, val: Value)
      requires Valid()
      modifies this
      ensures Valid()
      ensures ops == old(ops) + [Op.Put(key, val)]
      ensures count == old(count) + 1
    {
      ops := ops + [Op.Put(key, val)];
      count := count + 1;
    }

    /** Stages a deletion. */
    method Delete(key: Key)
      requires Valid()
      modifies this
      ensures Valid()
      ensures ops == old(ops) + [Del(key)]
      ensures count == old(count) + 1
    {
      ops := ops + [Del(key)];
      count := count + 1;
    }

    /** Swaps in a fresh engine batch: every staged operation is discarded. */
    method Clear()
      modifies this
      ensures Valid() && ops == [] && count == 0
    {
      ops := [];
      count := 0;
    }

    /** The number of staged operations. */
    method Count() returns (n: int)
      requires Valid()
      ensures n == |ops|
    {
      n := count;
    }
  }
}
