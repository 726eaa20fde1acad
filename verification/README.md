# Pebble-backed KV store of the log database

This project models `pebbleKV` and `pebbleWriteBatch`, the adapter that puts the
Pebble ordered key-value engine behind the log database's KV contract
(`internal/logdb/kv_pebble.go`).

- **Engine.** The engine is seen logically: its content is a sequence of entries
  whose keys strictly ascend under Go's `bytes.Compare` (module `Bytes`). Writes
  are `Insert`, `Remove` and `ApplyOps` on that sequence (module `Engine`).
- **Write batch.** `Batch.WriteBatch` is a class. Its `ops` field is the
  engine batch. Its `count` field is the adapter's own counter.
- **Store.** `Store.KV` is a class holding the content and whether the handle
  is still open. A ghost counter records how many batch commits were issued.
- **Range scan.** `IterateValue` and `RemoveEntries` walk a cursor over the
  content (`Store.Walk`, `Store.StageDeletes`). Each is proved against a
  specification that does not mention the cursor:
  - the window of keys in range is defined by filtering (`Engine.Window`);
  - the visitor protocol over that window is defined by a fold (`Scan.Drive`,
    `Scan.Outcome`).
- **Callbacks.** The visitor and the point-read consumer are pure functions.
  They thread a caller-chosen state, which stands for the side effects of the
  Go closures.
- **Engine-decided outcomes.** These are parameters of the operations that meet
  them:
  - a failed write, read or commit is `io` / `readErr`;
  - an iteration error is `fault`, the number of the validity check at which
    the engine reports it. `iteratorIsValid` panics there, and the model
    returns the explicit outcome `Fatal`.
- **`iteratorIsValid`** (`internal/logdb/kv_pebble.go:111-117`) is the helper
  function `Store.IteratorIsValid`. It yields no answer when the fault falls
  on the current check; otherwise it says whether the cursor rests on an
  entry. `Store.Walk` and `Store.StageDeletes` call it before every step.
  What its panic does is stated by `Scan.ScanAborts` and `Scan.Outcome`, and
  by the first case of `Store.KV.RemoveEntries`.

Range deletion removes exactly the half-open range `[fk, lk)`. A
later inclusive scan of `[fk, lk]` can therefore still see the key `lk`
itself. `Engine.TruncateEmptiesWindow` states this: such a scan sees at most the
key `lk`, with the value it had before. So `RemoveEntries(a, b)` followed by
an inclusive scan of `[a, b]` can still visit `b`.

## Model

| member | source | states |
|---|---|---|
| Bytes.Compare | internal/logdb/kv_pebble.go:127-133 | the key order used by the bound test yields -1, 0 or 1, and 0 exactly when the two keys are equal |
| Bytes.CompareFlip | internal/logdb/kv_pebble.go:127-133 | swapping the keys negates the comparison, so `>` and `>=` against the bound are the mirror of `<` and `<=` |
| Bytes.CompareTrans | internal/logdb/kv_pebble.go:123-133 | the order is transitive, and a chain that returns to its start is flat; the ascending walk relies on this |
| Batch.WriteBatch.constructor | internal/logdb/kv_pebble.go:170 | a new batch has no staged operations and a counter of 0 |
| Batch.WriteBatch.Put | internal/logdb/kv_pebble.go:45-48 | stages exactly one upsert at the end of the batch, raises the counter by exactly 1, and keeps counter and staged operations in step |
| Batch.WriteBatch.Delete | internal/logdb/kv_pebble.go:50-53 | stages exactly one deletion at the end of the batch, raises the counter by exactly 1, and keeps them in step |
| Batch.WriteBatch.Clear | internal/logdb/kv_pebble.go:55-58 | discards every staged operation and resets the counter to 0 |
| Batch.WriteBatch.Count | internal/logdb/kv_pebble.go:60-62 | returns the number of staged operations |
| Engine.LookupFound | internal/logdb/kv_pebble.go:146-153 | a point read finds a key exactly when some entry carries it, and returns that entry's value |
| Engine.Insert | internal/logdb/kv_pebble.go:155-157 | after an upsert the key holds the new value and every other key keeps its value |
| Engine.InsertSorted | internal/logdb/kv_pebble.go:155-157 | an upsert keeps the keys strictly ascending |
| Engine.Remove | internal/logdb/kv_pebble.go:159-161 | after a delete the key is absent, every other key keeps its value, and deleting an absent key changes nothing |
| Engine.RemoveSorted | internal/logdb/kv_pebble.go:159-161 | a delete keeps the keys strictly ascending |
| Engine.ApplyOpsSorted | internal/logdb/kv_pebble.go:173-179 | applying a whole batch keeps the keys strictly ascending |
| Engine.ApplyOpsUnmentioned | internal/logdb/kv_pebble.go:173-179 | a key that no staged operation mentions keeps its value through a commit |
| Engine.ApplyOpsLaterWins | internal/logdb/kv_pebble.go:173-179 | the last staged operation on a key decides what the key holds after a commit: its value for a Put, absence for a Delete |
| Engine.ApplyDels | internal/logdb/kv_pebble.go:185-198 | committing the deletions staged for a run of entries removes exactly those keys and keeps all others |
| Engine.SeekGE | internal/logdb/kv_pebble.go:123 | the cursor sought to `fk` rests on a key not below `fk`, or at the end (that it is the first such key is the next row) |
| Engine.SeekGESkipsBelow | internal/logdb/kv_pebble.go:123 | every key the seek skips is below `fk`, so the cursor rests on the first key not below `fk` |
| Engine.ScanEnd | internal/logdb/kv_pebble.go:126-134 | the walk stops at the end or at a key past the bound, never before the start (that it is the first such key is the next row) |
| Engine.ScanEndInside | internal/logdb/kv_pebble.go:126-134 | no key the walk passes before it stops is past the bound, so it stops at the first key past the bound |
| Engine.Window | internal/logdb/kv_pebble.go:119-134 | every key a scan is to see lies in `[fk, lk)`, or in `[fk, lk]` when `inc` |
| Engine.WindowLookup | internal/logdb/kv_pebble.go:119-134 | a scan sees every stored key in range, with its stored value, and no key outside the range; with `inc` this includes `lk` itself when present |
| Engine.WindowSorted | internal/logdb/kv_pebble.go:123-134 | a scan sees its keys in strictly ascending byte order |
| Engine.WindowSlice | internal/logdb/kv_pebble.go:123-134 | on sorted content, the entries a cursor passes from `SeekGE(fk)` up to the first key past the bound are exactly the filtered window |
| Engine.CursorRun | internal/logdb/kv_pebble.go:123-134 | a cursor sought to `fk` runs over the window and stops right after it |
| Engine.TruncateLookup | internal/logdb/kv_pebble.go:185-198 | after range deletion no key in `[fk, lk)` remains and every key outside keeps its value |
| Engine.TruncateEmptiesWindow | internal/logdb/kv_pebble.go:185-198 | after range deletion an exclusive scan of `[fk, lk)` sees nothing; an inclusive scan sees at most `lk`, with its old value |
| Scan.DriveProtocol | internal/logdb/kv_pebble.go:135-143 | the visitor gets the window's entries in order, at most one call each; every call before the last continued; a stop ends the scan with nil and an error ends it with that same error, so no later key is visited; a visitor that never stops sees the whole window and the scan returns nil |
| Scan.Outcome | internal/logdb/kv_pebble.go:111-117 | without an iteration error a scan never aborts |
| Scan.IterateSpec | internal/logdb/kv_pebble.go:119-144 | a range scan's result is the visitor protocol over the window; without an iteration error it never aborts |
| Scan.FatalNeverTruncates | internal/logdb/kv_pebble.go:111-117 | a scan that does not abort returns exactly what the error-free scan returns, so an iteration error never shows up as a shortened scan |
| Scan.ScanAborts | internal/logdb/kv_pebble.go:111-117 | an iteration error at the validity check the scan has reached aborts it with Fatal, leaving the caller's state as the earlier visits made it |
| Scan.ScanExhausted | internal/logdb/kv_pebble.go:123-134 | a scan that handed over the whole window with no iteration error returns nil |
| Scan.ScanEndedByVisitor | internal/logdb/kv_pebble.go:135-143 | when the visitor errs or says stop, the scan returns that error (or nil) and the state that call left |
| Store.FromErr | internal/logdb/kv_pebble.go:156 | a Go error result becomes a status that is nil exactly when there was no error, and never an abort |
| Store.Walk | internal/logdb/kv_pebble.go:123-143 | the cursor loop of a scan returns exactly the scan's specified outcome over the run of entries it walks |
| Store.StageDeletes | internal/logdb/kv_pebble.go:188-194 | the cursor loop of range deletion aborts exactly when the iteration error falls within the run; otherwise it stages one Delete per key in the run, in order |
| Store.KV.constructor | internal/logdb/kv_pebble.go:75-96 | a handle opened over sorted content is open and holds that content |
| Store.KV.Close | internal/logdb/kv_pebble.go:103-109 | closing always returns nil, leaves the handle closed, leaves the content alone, and needs no open handle, so it can be repeated |
| Store.KV.IterateValue | internal/logdb/kv_pebble.go:119-144 | the scan's status and the caller's final state are the specified outcome for the stored content |
| Store.KV.GetValue | internal/logdb/kv_pebble.go:146-153 | a read error other than not-found is returned without calling the consumer; otherwise the consumer gets the stored value, or nil for an absent key, and its error is returned |
| Store.KV.SaveValue | internal/logdb/kv_pebble.go:155-157 | a successful write upserts the key; a failed one returns the error and leaves the content as it was |
| Store.KV.DeleteValue | internal/logdb/kv_pebble.go:159-161 | a successful delete removes the key; a failed one returns the error and leaves the content as it was |
| Store.KV.GetWriteBatch | internal/logdb/kv_pebble.go:163-171 | a batch held by the context is returned as is; otherwise the result is a fresh, empty batch with count 0 |
| Store.KV.CommitWriteBatch | internal/logdb/kv_pebble.go:173-179 | one commit is issued; on success every staged operation is applied, oldest first; on failure none is applied and the error is returned |
| Store.KV.CommitDeleteBatch | internal/logdb/kv_pebble.go:181-183 | has exactly the contract of CommitWriteBatch |
| Store.KV.RemoveEntries | internal/logdb/kv_pebble.go:185-199 | an iteration error within the range aborts before any commit; an empty range returns nil and issues no commit; otherwise one commit deletes exactly the keys in `[fk, lk)`, or changes nothing when it fails |
| Store.KV.Compaction | internal/logdb/kv_pebble.go:201-203 | returns the engine's error and leaves the logical content unchanged |

## Left out

- Opening the engine and its options are not modelled: the WAL directory, level options, compression and the logged warning. This is engine configuration and I/O. The constructor takes the existing content instead.
- Durability of synchronous writes and crash behaviour are not modelled. A commit is modelled as applying its whole batch or nothing.
- `pebbleWriteBatch.Destroy` is not modelled. It only releases the engine batch's resources and has no logical effect.
- The `Name`/`LogDBType` constants and the build tag are not modelled.
- The type-assertion panics on a batch of a foreign type are not modelled. This covers `CommitWriteBatch` and a context batch in `GetWriteBatch`. The model has one batch type.
- Concurrent readers and writers and the engine's snapshot isolation are not modelled. Each operation sees the content as one value.
- Closing the iterator (`defer iter.Close()`) is not modelled. It has no logical effect.
- Store.KV.IterateValue, Store.KV.GetValue, Store.KV.SaveValue, Store.KV.DeleteValue, Store.KV.CommitWriteBatch, Store.KV.CommitDeleteBatch, Store.KV.RemoveEntries and Store.KV.Compaction require an open handle. In Go, calling them after `Close` dereferences a nil engine and panics. The model does not represent that panic.
- Store.KV.IterateValue: the visitor is a pure function of a threaded state. A closure's arbitrary side effects, and its reading of the store mid-scan, are not captured.
- Store.KV.Compaction: any physical effect of compaction is not modelled. Only the unchanged logical content and the error result are.
- Store.KV.IterateValue: Go hands the visitor `iter.Key()` and `iter.Value()`, slices the engine may reuse after `Next`. The model passes the key and value themselves.
- Store.KV.GetWriteBatch: Go asks the context for its batch twice and returns the second answer. The model's context holds a single batch, which both queries return.
- Store.KV.GetValue: Go passes the engine's value slice, which may alias engine memory. The model passes the value itself.
