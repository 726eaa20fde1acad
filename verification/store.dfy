/** The store handle over the ordered engine: point reads and writes, batch
    commits, bounded range scans, range truncation, compaction and close.
    I/O outcomes the engine decides (a failed sync write, a failed read, an
    iteration error) are parameters of the operations that meet them. */
module Store {
  import opened Bytes
  import opened Engine
  import opened Batch
  import opened Scan

  /** A caller's answer to a point read: its state afterwards and an optional error. */
  datatype Consumed<S> = Consumed(state: S, err: Option<Err>)

  /** The consumer of a point read; None stands for Go's nil slice (key absent). */
  type Consumer<!S> = (S, Option<Value>) -> Consumed<S>

  /** The status a Go call returning `err` ends in. */
  function FromErr(err: Option<Err>): (st: Status)
    ensures st != Fatal
    ensures st == Nil <==> err.None?
  {
    if err.Some? then Failed(err.value) else Nil
  }

  /** A caller-supplied context that may hold a write batch for reuse. */
  class Context {
    var pooled: WriteBatch?

    constructor (pooled: WriteBatch?)
      ensures this.pooled == pooled
    {
      this.pooled := pooled;
    }
  }

  /** iteratorIsValid, made at validity check number `check` of a scan:
      None when the engine reports its iteration error there (the store
      panics), otherwise whether the cursor at position `i` rests on an entry. */
  function IteratorIsValid(e: seq<Entry>, i: nat, check: nat, fault: Option<nat>): Option<bool> {
    if fault == Some(check) then None else Some(i < |e|)
  }

  /** The cursor loop of a range scan, started at position `lo` of `e`: test
      the cursor (the engine may report its iteration error there), stop at the
      end or at a key past the bound, otherwise hand the entry to the visitor
      and step on. `hi` is where the run of keys inside the bound ends. */
  method Walk<S>(e: seq<Entry>, lo: nat, ghost hi: nat, lk: Key, inc: bool, fault: Option<nat>,
                 visit: Visitor<S>, s0: S) returns (st: Status, s: S)
    requires RunTo(e, lo, hi, lk, inc)
    ensures (st, s) == Outcome(e[lo..hi], fault, visit, s0)
  {
    ghost var w := e[lo..hi];
    var i := lo;
    s := s0;
    while true
      invariant lo <= i <= hi
      invariant fault.None? || fault.value >= i - lo
      invariant Reached(w, visit, s0, i - lo, s)
      decreases |e| - i
    {
      var valid := IteratorIsValid(e, i, i - lo, fault);
      if valid.None? {
        ScanAborts(w, fault, visit, s0, i - lo, s);
        return Fatal, s;
      }
      if !valid.value || PastBound(e[i].key, lk, inc) {
        ScanExhausted(w, fault, visit, s0, s);
        return Nil, s;
      }
      assert w[i - lo] == e[i];
      var answer := visit(s, e[i].key, e[i].value);
      if answer.err.Some? {
        ScanEndedByVisitor(w, fault, visit, s0, i - lo, s);
        return Failed(answer.err.value), answer.state;
      }
      if !answer.cont {
        ScanEndedByVisitor(w, fault, visit, s0, i - lo, s);
        s := answer.state;
        break;
      }
      ReachedNext(w, visit, s0, i - lo, s);
      s := answer.state;
      i := i + 1;
    }
    st := Nil;
  }

  /** The cursor loop of a range deletion, started at position `lo` of `e`:
      test the cursor (the engine may report its iteration error there), stop
      at the end or at the first key not below the bound, otherwise stage a
      delete of the key in `wb` and step on. */
  method StageDeletes(e: seq<Entry>, lo: nat, ghost hi: nat, lk: Key, fault: Option<nat>, wb: WriteBatch)
    returns (aborted: bool)
    requires RunTo(e, lo, hi, lk, false) && wb.Valid()
    modifies wb
    ensures wb.Valid()
    ensures aborted <==> fault.Some? && fault.value <= hi - lo
    ensures !aborted ==> wb.ops == old(wb.ops) + Dels(e[lo..hi])
  {
    var i := lo;
    while true
      invariant lo <= i <= hi
      invariant fault.None? || fault.value >= i - lo
      invariant wb.Valid() && wb.ops == old(wb.ops) + Dels(e[lo..i])
      decreases |e| - i
    {
      var valid := IteratorIsValid(e, i, i - lo, fault);
      if valid.None? {
        return true;
      }
      if !valid.value || Compare(e[i].key, lk) >= 0 {
        break;
      }
      wb.Delete(e[i].key);
      assert Dels(e[lo..i + 1]) == Dels(e[lo..i]) + [Del(e[i].key)];
      i := i + 1;
    }
    aborted := false;
  }

  class KV {
    /** The engine's logical content, in key order. */
    var entries: seq<Entry>
    /** The engine handle is set (not yet closed). */
    var open: bool
    /** How many batch commits have been issued to the engine. */
    ghost var commits: nat

    ghost predicate Valid()
      reads this
    {
      Sorted(entries)
    }

    /** A handle freshly opened over the engine's existing content. */
    constructor (content: seq<Entry>)
      requires Sorted(content)
      ensures Valid() && open && entries == content && commits == 0
    {
      entries := content;
      open := true;
      commits := 0;
    }

    /** Releases the engine once; afterwards and on every later call it only
        reports success. The stored content is untouched. */
    method Close() returns (st: Status)
      modifies this
      ensures !open && st == Nil
      ensures entries == old(entries) && commits == old(commits)
    {
      open := false;
      st := Nil;
    }

    /** Walks the keys from `fk` upwards, handing each one to `visit` until a
        key reaches the bound `lk` (inclusive when `inc`), the visitor stops or
        errs, or the keys run out. `fault` is the validity check, if any, at
        which the engine reports an iteration error. */
    method IterateValue<S>(fk: Key, lk: Key, inc: bool, fault: Option<nat>,
                           visit: Visitor<S>, s0: S) returns (st: Status, s: S)
      requires Valid() && open
      ensures (st, s) == IterateSpec(entries, fk, lk, inc, fault, visit, s0)
    {
      var e := entries;
      var lo := SeekGE(e, fk);
      ghost var hi := ScanEnd(e, lo, lk, inc);
      CursorRun(e, fk, lk, inc);
      st, s := Walk(e, lo, hi, lk, inc, fault, visit, s0);
    }

    /** Reads `key` and hands its value, or None when it is absent, to
        `consume`; absence is not an error. `readErr` is an engine read error
        other than "not found", which is returned without calling `consume`. */
    method GetValue<S>(key: Key, readErr: Option<Err>, consume: Consumer<S>, s0: S)
      returns (st: Status, s: S)
      requires open
      ensures readErr.Some? ==> st == Failed(readErr.value) && s == s0
      ensures readErr.None? ==>
                var c := consume(s0, Lookup(entries, key));
                st == FromErr(c.err) && s == c.state
    {
      if readErr.Some? {
        return Failed(readErr.value), s0;
      }
      var c := consume(s0, Lookup(entries, key));
      st, s := FromErr(c.err), c.state;
    }

    /** Durable upsert of one key; a failed write leaves the content as it was. */
    method SaveValue(key: Key, value: Value, io: Option<Err>) returns (st: Status)
      requires Valid() && open
      modifies this
      ensures Valid() && open && commits == old(commits)
      ensures st == FromErr(io)
      ensures entries == if io.Some? then old(entries) else Insert(old(entries), key, value)
    {
      if io.Some? {
        return Failed(io.value);
      }
      InsertSorted(entries, key, value);
      entries := Insert(entries, key, value);
      st := Nil;
    }

    /** Durable deletion of one key; deleting an absent key is not an error. */
    method DeleteValue(key: Key, io: Option<Err>) returns (st: Status)
      requires Valid() && open
      modifies this
      ensures Valid() && open && commits == old(commits)
      ensures st == FromErr(io)
      ensures entries == if io.Some? then old(entries) else Remove(old(entries), key)
    {
      if io.Some? {
        return Failed(io.value);
      }
      RemoveSorted(entries, key);
      entries := Remove(entries, key);
      st := Nil;
    }

    /** The batch the context holds, if it holds one; otherwise a fresh empty batch. */
    method GetWriteBatch(ctx: Context?) returns (wb: WriteBatch)
      ensures ctx != null && ctx.pooled != null ==> wb == ctx.pooled
      ensures ctx == null || ctx.pooled == null ==> fresh(wb) && wb.Valid() && wb.ops == []
    {
      if ctx != null {
        var pooled := ctx.pooled;
        if pooled != null {
          return ctx.pooled;
        }
      }
      wb := new WriteBatch();
    }

    /** Applies every staged operation of `wb` at once, oldest first; a failed
        commit applies none of them. The batch keeps its operations either way. */
    method CommitWriteBatch(wb: WriteBatch, io: Option<Err>) returns (st: Status)
      requires Valid() && open
      modifies this
      ensures Valid() && open && commits == old(commits) + 1
      ensures st == FromErr(io)
      ensures entries == if io.Some? then old(entries) else ApplyOps(old(entries), wb.ops)
    {
      commits := commits + 1;
      if io.Some? {
        return Failed(io.value);
      }
      ApplyOpsSorted(entries, wb.ops);
      entries := ApplyOps(entries, wb.ops);
      st := Nil;
    }

    /** The same commit, used after staging deletions. */
    method CommitDeleteBatch(wb: WriteBatch, io: Option<Err>) returns (st: Status)
      requires Valid() && open
      modifies this
      ensures Valid() && open && commits == old(commits) + 1
      ensures st == FromErr(io)
      ensures entries == if io.Some? then old(entries) else ApplyOps(old(entries), wb.ops)
    {
      st := CommitWriteBatch(wb, io);
    }

    /** Deletes every key in [fk, lk) with one batch, staging a delete per key
        the cursor passes; commits only when something was staged. An engine
        iteration error at validity check `fault` aborts before any commit. */
    method RemoveEntries(fk: Key, lk: Key, fault: Option<nat>, io: Option<Err>) returns (st: Status)
      requires Valid() && open
      modifies this
      ensures Valid() && open
      ensures var w := Window(old(entries), fk, lk, false);
              if fault.Some? && fault.value <= |w| then
                st == Fatal && entries == old(entries) && commits == old(commits)
              else if w == [] then
                st == Nil && entries == old(entries) && commits == old(commits)
              else
                st == FromErr(io) && commits == old(commits) + 1 &&
                entries == if io.Some? then old(entries) else Truncate(old(entries), fk, lk)
    {
      var e := entries;
      var lo := SeekGE(e, fk);
      ghost var hi := ScanEnd(e, lo, lk, false);
      CursorRun(e, fk, lk, false);
      var wb := GetWriteBatch(null);
      var aborted := StageDeletes(e, lo, hi, lk, fault, wb);
      if aborted {
        return Fatal;
      }
      assert wb.ops == Dels(Window(e, fk, lk, false)) by {
        assert [] + Dels(e[lo..hi]) == Dels(e[lo..hi]);
      }
      var n := wb.Count();
      if n > 0 {
        st := CommitDeleteBatch(wb, io);
      } else {
        st := Nil;
      }
    }

    /** Asks the engine to reorganise [fk, lk); the logical content does not change. */
    method Compaction(fk: Key, lk: Key, io: Option<Err>) returns (st: Status)
      requires open
      ensures st == FromErr(io)
    {
      st := FromErr(io);
    }
  }
}
