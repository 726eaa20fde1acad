/** The ordered key-value engine underneath the store, seen logically: its
    content is a sequence of entries with strictly ascending keys. Writes
    (single or batched) and the cursor positioning used by range scans are
    defined here as functions on that sequence. */
module Engine {
  import opened Bytes

  datatype Option<T> = None | Some(value: T)

  datatype Entry = Entry(key: Key, value: Value)

  /** A staged mutation of a write batch. */
  datatype Op = Put(key: Key, value: Value) | Del(key: Key)

  /** Strictly ascending keys: one value per key, kept in byte order. */
  predicate Sorted(e: seq<Entry>) {
    forall i, j {:trigger Less(e[i].key, e[j].key)} :: 0 <= i < j < |e| ==> Less(e[i].key, e[j].key)
  }

  /** Every key of `e` sorts strictly after `lo`. */
  predicate Bounded(lo: Key, e: seq<Entry>) {
    forall i :: 0 <= i < |e| ==> Less(lo, e[i].key)
  }

  /** The value stored under `k`, or None when `k` is absent. */
  function Lookup(e: seq<Entry>, k: Key): Option<Value> {
    if e == [] then None
    else if e[0].key == k then Some(e[0].value)
    else Lookup(e[1..], k)
  }

  /** A key is found exactly when some entry carries it, and what is found is
      that entry's value. */
  lemma {:induction false} LookupFound(e: seq<Entry>, k: Key)
    ensures Lookup(e, k).Some? <==> exists i :: 0 <= i < |e| && e[i].key == k
    ensures Lookup(e, k).Some? ==> exists i :: 0 <= i < |e| && e[i] == Entry(k, Lookup(e, k).value)
  {
    if e != [] && e[0].key != k {
      LookupFound(e[1..], k);
      assert forall i :: 1 <= i < |e| ==> e[i] == e[1..][i - 1];
      if exists i :: 0 <= i < |e| && e[i].key == k {
        var i :| 0 <= i < |e| && e[i].key == k;
        assert e[1..][i - 1].key == k;
      }
    }
  }

  /** Upsert of one key (the engine's Set). */
  function Insert(e: seq<Entry>, k: Key, v: Value): (r: seq<Entry>)
    ensures forall k' :: Lookup(r, k') == if k' == k then Some(v) else Lookup(e, k')
  {
    if e == [] then [Entry(k, v)]
    else if Less(k, e[0].key) then [Entry(k, v)] + e
    else if k == e[0].key then [Entry(k, v)] + e[1..]
    else [e[0]] + Insert(e[1..], k, v)
  }

  lemma {:induction false} InsertBounded(e: seq<Entry>, k: Key, v: Value, lo: Key)
    requires Bounded(lo, e) && Less(lo, k)
    ensures Bounded(lo, Insert(e, k, v))
  {
    if e != [] && !Less(k, e[0].key) && k != e[0].key {
      InsertBounded(e[1..], k, v, lo);
    }
  }

  /** Setting a key keeps the content sorted. */
  lemma {:induction false} InsertSorted(e: seq<Entry>, k: Key, v: Value)
    requires Sorted(e)
    ensures Sorted(Insert(e, k, v))
  {
    if e == [] {
    } else if Less(k, e[0].key) {
      forall j | 0 <= j < |e| ensures Less(k, e[j].key) {
        if j > 0 {
          assert Less(e[0].key, e[j].key);
          LessTrans(k, e[0].key, e[j].key);
        }
      }
    } else if k == e[0].key {
    } else {
      Trichotomy(k, e[0].key);
      InsertSorted(e[1..], k, v);
      InsertBounded(e[1..], k, v, e[0].key);
    }
  }

  /** Deletion of one key (the engine's Delete); deleting an absent key changes nothing. */
  function Remove(e: seq<Entry>, k: Key): (r: seq<Entry>)
    ensures |r| <= |e|
    ensures forall k' :: Lookup(r, k') == if k' == k then None else Lookup(e, k')
    ensures Lookup(e, k).None? ==> r == e
  {
    if e == [] then []
    else if e[0].key == k then Remove(e[1..], k)
    else [e[0]] + Remove(e[1..], k)
  }

  lemma {:induction false} RemoveBounded(e: seq<Entry>, k: Key, lo: Key)
    requires Bounded(lo, e)
    ensures Bounded(lo, Remove(e, k))
  {
    if e != [] {
      RemoveBounded(e[1..], k, lo);
    }
  }

  /** Deleting a key keeps the content sorted. */
  lemma {:induction false} RemoveSorted(e: seq<Entry>, k: Key)
    requires Sorted(e)
    ensures Sorted(Remove(e, k))
  {
    if e != [] {
      RemoveSorted(e[1..], k);
      RemoveBounded(e[1..], k, e[0].key);
    }
  }

  function ApplyOp(e: seq<Entry>, op: Op): seq<Entry> {
    match op
    case Put(k, v) => Insert(e, k, v)
    case Del(k) => Remove(e, k)
  }

  /** What an operation leaves stored under its own key. */
  function Effect(op: Op): Option<Value> {
    match op
    case Put(_, v) => Some(v)
    case Del(_) => None
  }

  /** The engine applying a batch: every staged operation, first to last. */
  function ApplyOps(e: seq<Entry>, ops: seq<Op>): seq<Entry>
    decreases |ops|
  {
    if ops == [] then e
    else ApplyOp(ApplyOps(e, ops[..|ops| - 1]), ops[|ops| - 1])
  }

  /** Applying a batch keeps the content sorted. */
  lemma {:induction false} ApplyOpsSorted(e: seq<Entry>, ops: seq<Op>)
    requires Sorted(e)
    ensures Sorted(ApplyOps(e, ops))
    decreases |ops|
  {
    if ops != [] {
      var before := ApplyOps(e, ops[..|ops| - 1]);
      ApplyOpsSorted(e, ops[..|ops| - 1]);
      match ops[|ops| - 1]
      case Put(k, v) => InsertSorted(before, k, v);
      case Del(k) => RemoveSorted(before, k);
    }
  }

  /** A key that no staged operation mentions keeps its value. */
  lemma {:induction false} ApplyOpsUnmentioned(e: seq<Entry>, ops: seq<Op>, k: Key)
    requires forall i :: 0 <= i < |ops| ==> ops[i].key != k
    ensures Lookup(ApplyOps(e, ops), k) == Lookup(e, k)
    decreases |ops|
  {
    if ops != [] {
      ApplyOpsUnmentioned(e, ops[..|ops| - 1], k);
    }
  }

  /** The last staged operation on a key decides what the key holds afterwards. */
  lemma {:induction false} ApplyOpsLaterWins(e: seq<Entry>, ops: seq<Op>, j: nat, k: Key)
    requires j < |ops| && ops[j].key == k
    requires forall i :: j < i < |ops| ==> ops[i].key != k
    ensures Lookup(ApplyOps(e, ops), k) == Effect(ops[j])
    decreases |ops|
  {
    if j < |ops| - 1 {
      ApplyOpsLaterWins(e, ops[..|ops| - 1], j, k);
    }
  }

  /** One Del per entry of `w`, in order: what a range deletion stages. */
  function Dels(w: seq<Entry>): seq<Op> {
    seq(|w|, i requires 0 <= i < |w| => Del(w[i].key))
  }

  /** Looking up in a sequence extended by one entry: the earlier entries take precedence. */
  lemma {:induction false} LookupSnoc(w: seq<Entry>, x: Entry, k: Key)
    ensures Lookup(w + [x], k) ==
            if Lookup(w, k).Some? then Lookup(w, k) else if x.key == k then Some(x.value) else None
  {
    if w != [] {
      assert (w + [x])[1..] == w[1..] + [x];
      LookupSnoc(w[1..], x, k);
    }
  }

  /** Applying the deletes staged for `w` removes exactly the keys of `w`. */
  lemma {:induction false} ApplyDels(e: seq<Entry>, w: seq<Entry>, k: Key)
    ensures Lookup(ApplyOps(e, Dels(w)), k) == if Lookup(w, k).Some? then None else Lookup(e, k)
    decreases |w|
  {
    if w != [] {
      var n := |w| - 1;
      assert Dels(w)[..n] == Dels(w[..n]);
      assert w == w[..n] + [w[n]];
      ApplyDels(e, w[..n], k);
      LookupSnoc(w[..n], w[n], k);
    }
  }

  /** The cursor position after SeekGE(fk): the first entry whose key is not
      below `fk`, or the end. */
  function SeekGE(e: seq<Entry>, fk: Key): (r: nat)
    ensures r <= |e|
    ensures r < |e| ==> !Less(e[r].key, fk)
  {
    if e == [] || !Less(e[0].key, fk) then 0
    else 1 + SeekGE(e[1..], fk)
  }

  /** Every entry SeekGE skips is below `fk`. */
  lemma {:induction false} SeekGESkipsBelow(e: seq<Entry>, fk: Key)
    ensures forall j :: 0 <= j < SeekGE(e, fk) ==> Less(e[j].key, fk)
  {
    if e != [] && Less(e[0].key, fk) {
      SeekGESkipsBelow(e[1..], fk);
    }
  }

  /** The bound test of a range scan: a key past `lk` ends the scan; with
      `inc` the key `lk` itself is still inside. */
  predicate PastBound(k: Key, lk: Key, inc: bool) {
    if inc then Compare(k, lk) > 0 else Compare(k, lk) >= 0
  }

  /** `k` lies in the scanned range [fk, lk) or, with `inc`, [fk, lk]. */
  predicate InRange(k: Key, fk: Key, lk: Key, inc: bool) {
    !Less(k, fk) && !PastBound(k, lk, inc)
  }

  /** Where a scan from position `i` stops: the first position at or after `i`
      whose key is past the bound, or the end of the content. */
  function ScanEnd(e: seq<Entry>, i: nat, lk: Key, inc: bool): (r: nat)
    requires i <= |e|
    ensures i <= r <= |e|
    ensures r < |e| ==> PastBound(e[r].key, lk, inc)
    decreases |e| - i
  {
    if i == |e| || PastBound(e[i].key, lk, inc) then i
    else ScanEnd(e, i + 1, lk, inc)
  }

  /** No key the scan passes before its end is past the bound. */
  lemma {:induction false} ScanEndInside(e: seq<Entry>, i: nat, lk: Key, inc: bool)
    requires i <= |e|
    ensures forall j :: i <= j < ScanEnd(e, i, lk, inc) ==> !PastBound(e[j].key, lk, inc)
    decreases |e| - i
  {
    if i < |e| && !PastBound(e[i].key, lk, inc) {
      ScanEndInside(e, i + 1, lk, inc);
    }
  }

  /** The entries a range scan is to see: those whose key is in range, in
      store order. Defined by filtering, independently of any cursor. */
  function Window(e: seq<Entry>, fk: Key, lk: Key, inc: bool): (r: seq<Entry>)
    ensures |r| <= |e|
    ensures forall x :: 0 <= x < |r| ==> InRange(r[x].key, fk, lk, inc)
  {
    if e == [] then []
    else if InRange(e[0].key, fk, lk, inc) then [e[0]] + Window(e[1..], fk, lk, inc)
    else Window(e[1..], fk, lk, inc)
  }

  /** A scan sees the stored value of every key in range and nothing else. */
  lemma {:induction false} WindowLookup(e: seq<Entry>, fk: Key, lk: Key, inc: bool, k: Key)
    ensures Lookup(Window(e, fk, lk, inc), k) == if InRange(k, fk, lk, inc) then Lookup(e, k) else None
  {
    if e != [] {
      WindowLookup(e[1..], fk, lk, inc, k);
    }
  }

  lemma {:induction false} WindowBounded(e: seq<Entry>, fk: Key, lk: Key, inc: bool, lo: Key)
    requires Bounded(lo, e)
    ensures Bounded(lo, Window(e, fk, lk, inc))
  {
    if e != [] {
      WindowBounded(e[1..], fk, lk, inc, lo);
    }
  }

  /** A scan of sorted content sees its keys in ascending order. */
  lemma {:induction false} WindowSorted(e: seq<Entry>, fk: Key, lk: Key, inc: bool)
    requires Sorted(e)
    ensures Sorted(Window(e, fk, lk, inc))
  {
    if e != [] {
      WindowSorted(e[1..], fk, lk, inc);
      WindowBounded(e[1..], fk, lk, inc, e[0].key);
    }
  }

  lemma {:induction false} WindowAppend(a: seq<Entry>, b: seq<Entry>, fk: Key, lk: Key, inc: bool)
    ensures Window(a + b, fk, lk, inc) == Window(a, fk, lk, inc) + Window(b, fk, lk, inc)
  {
    if a != [] {
      assert (a + b)[1..] == a[1..] + b;
      WindowAppend(a[1..], b, fk, lk, inc);
    } else {
      assert a + b == b;
    }
  }

  lemma {:induction false} WindowAll(e: seq<Entry>, fk: Key, lk: Key, inc: bool)
    requires forall i :: 0 <= i < |e| ==> InRange(e[i].key, fk, lk, inc)
    ensures Window(e, fk, lk, inc) == e
  {
    if e != [] {
      WindowAll(e[1..], fk, lk, inc);
    }
  }

  lemma {:induction false} WindowNone(e: seq<Entry>, fk: Key, lk: Key, inc: bool)
    requires forall i :: 0 <= i < |e| ==> !InRange(e[i].key, fk, lk, inc)
    ensures Window(e, fk, lk, inc) == []
  {
    if e != [] {
      WindowNone(e[1..], fk, lk, inc);
    }
  }

  /** Keys above a key that is past the bound are past it too. */
  lemma PastBoundUp(a: Key, b: Key, lk: Key, inc: bool)
    requires PastBound(a, lk, inc) && Compare(a, b) <= 0
    ensures PastBound(b, lk, inc)
  {
    CompareFlip(a, lk);
    CompareFlip(b, lk);
    if inc {
      LessTrans(lk, a, b);
    } else {
      CompareTrans(lk, a, b);
    }
  }

  /** Keys above a key that is not below `fk` are not below it either. */
  lemma NotBelowUp(a: Key, b: Key, fk: Key)
    requires !Less(a, fk) && Compare(a, b) <= 0
    ensures !Less(b, fk)
  {
    CompareFlip(a, fk);
    CompareFlip(b, fk);
    CompareTrans(fk, a, b);
  }

  /** On sorted content every entry from SeekGE(fk) up to the scan end is in range. */
  lemma CursorRunInRange(e: seq<Entry>, fk: Key, lk: Key, inc: bool)
    requires Sorted(e)
    ensures var lo := SeekGE(e, fk);
            forall j :: lo <= j < ScanEnd(e, lo, lk, inc) ==> InRange(e[j].key, fk, lk, inc)
  {
    var lo := SeekGE(e, fk);
    var hi := ScanEnd(e, lo, lk, inc);
    ScanEndInside(e, lo, lk, inc);
    forall j | lo < j < hi ensures !Less(e[j].key, fk) {
      assert Less(e[lo].key, e[j].key);
      NotBelowUp(e[lo].key, e[j].key, fk);
    }
  }

  /** On sorted content no entry from the scan end on is in range. */
  lemma CursorRestPast(e: seq<Entry>, fk: Key, lk: Key, inc: bool)
    requires Sorted(e)
    ensures var hi := ScanEnd(e, SeekGE(e, fk), lk, inc);
            forall j :: hi <= j < |e| ==> PastBound(e[j].key, lk, inc)
  {
    var hi := ScanEnd(e, SeekGE(e, fk), lk, inc);
    forall j | hi < j < |e| ensures PastBound(e[j].key, lk, inc) {
      assert Less(e[hi].key, e[j].key);
      PastBoundUp(e[hi].key, e[j].key, lk, inc);
    }
  }

  /** A sequence made of out-of-range entries, then in-range ones, then
      out-of-range ones again filters down to its middle part. */
  lemma WindowOfRun(e: seq<Entry>, lo: nat, hi: nat, fk: Key, lk: Key, inc: bool)
    requires lo <= hi <= |e|
    requires forall j :: 0 <= j < lo ==> !InRange(e[j].key, fk, lk, inc)
    requires forall j :: lo <= j < hi ==> InRange(e[j].key, fk, lk, inc)
    requires forall j :: hi <= j < |e| ==> !InRange(e[j].key, fk, lk, inc)
    ensures Window(e, fk, lk, inc) == e[lo..hi]
  {
    var below, run, rest := e[..lo], e[lo..hi], e[hi..];
    assert e == below + run + rest;
    WindowAppend(below + run, rest, fk, lk, inc);
    WindowAppend(below, run, fk, lk, inc);
    assert forall j :: 0 <= j < |below| ==> below[j] == e[j];
    WindowNone(below, fk, lk, inc);
    assert forall j :: 0 <= j < |run| ==> run[j] == e[lo + j];
    WindowAll(run, fk, lk, inc);
    assert forall j :: 0 <= j < |rest| ==> rest[j] == e[hi + j];
    WindowNone(rest, fk, lk, inc);
  }

  /** On sorted content, the filtered window is exactly the run of entries a
      cursor walks: from SeekGE(fk) up to the first key past the bound. */
  lemma WindowSlice(e: seq<Entry>, fk: Key, lk: Key, inc: bool)
    requires Sorted(e)
    ensures var lo := SeekGE(e, fk);
            Window(e, fk, lk, inc) == e[lo..ScanEnd(e, lo, lk, inc)]
  {
    var lo := SeekGE(e, fk);
    var hi := ScanEnd(e, lo, lk, inc);
    SeekGESkipsBelow(e, fk);
    CursorRunInRange(e, fk, lk, inc);
    CursorRestPast(e, fk, lk, inc);
    WindowOfRun(e, lo, hi, fk, lk, inc);
  }

  /** A cursor started at `lo` passes the keys at `lo` up to `hi` and stops
      at `hi`: at the end of `e`, or at the first key past the bound. */
  ghost predicate RunTo(e: seq<Entry>, lo: nat, hi: nat, lk: Key, inc: bool) {
    && lo <= hi <= |e|
    && (forall j :: lo <= j < hi ==> !PastBound(e[j].key, lk, inc))
    && (hi < |e| ==> PastBound(e[hi].key, lk, inc))
  }

  /** On sorted content, a cursor sought to `fk` runs over the window of
      [fk, lk) (or [fk, lk] with `inc`) and over nothing else. */
  lemma CursorRun(e: seq<Entry>, fk: Key, lk: Key, inc: bool)
    requires Sorted(e)
    ensures var lo := SeekGE(e, fk);
            var hi := ScanEnd(e, lo, lk, inc);
            RunTo(e, lo, hi, lk, inc) && Window(e, fk, lk, inc) == e[lo..hi]
  {
    WindowSlice(e, fk, lk, inc);
    ScanEndInside(e, SeekGE(e, fk), lk, inc);
  }

  /** Range truncation: the content once every key in [fk, lk) is deleted by one batch. */
  function Truncate(e: seq<Entry>, fk: Key, lk: Key): seq<Entry> {
    ApplyOps(e, Dels(Window(e, fk, lk, false)))
  }

  /** After truncation no key of [fk, lk) remains and every other key keeps its value. */
  lemma TruncateLookup(e: seq<Entry>, fk: Key, lk: Key, k: Key)
    ensures Lookup(Truncate(e, fk, lk), k) == if InRange(k, fk, lk, false) then None else Lookup(e, k)
  {
    ApplyDels(e, Window(e, fk, lk, false), k);
    WindowLookup(e, fk, lk, false, k);
  }

  /** A scan of [fk, lk) after truncating it sees nothing; a scan of [fk, lk]
      sees only the key `lk` itself, with the value it had before. */
  lemma TruncateEmptiesWindow(e: seq<Entry>, fk: Key, lk: Key)
    ensures Window(Truncate(e, fk, lk), fk, lk, false) == []
    ensures var w := Window(Truncate(e, fk, lk), fk, lk, true);
            (forall i :: 0 <= i < |w| ==> w[i].key == lk) &&
            (!Less(lk, fk) ==> Lookup(w, lk) == Lookup(e, lk))
  {
    var t := Truncate(e, fk, lk);
    var w0 := Window(t, fk, lk, false);
    if w0 != [] {
      var k := w0[0].key;
      assert Lookup(w0, k).Some?;
      WindowLookup(t, fk, lk, false, k);
      TruncateLookup(e, fk, lk, k);
      assert false;
    }
    var w := Window(t, fk, lk, true);
    forall i | 0 <= i < |w| ensures w[i].key == lk {
      var k := w[i].key;
      LookupFound(w, k);
      WindowLookup(t, fk, lk, true, k);
      TruncateLookup(e, fk, lk, k);
      CompareFlip(k, lk);
    }
    WindowLookup(t, fk, lk, true, lk);
    TruncateLookup(e, fk, lk, lk);
  }
}
