# persistent_storage: a verified model of the store lifecycle controller

`steem::utilities::persistent_storage` is the object a plugin uses to keep its state in a
RocksDB store. It creates the store at the plugin's storage path, opens it, commits a staged
write batch, flushes the column families and shuts the store down. It also keeps two metadata
ledgers beside the plugin's data:
- the **version** ledger: keys that must hold given values, stored as `uint32_t`. An open
  refuses a store whose values differ.
- the **sequence** ledger: counters of type `size_t`. Every commit of the write batch writes
  them to the store.

The controller counts as open exactly when its `storage` pointer is non-null.

The model has four modules:

- `Codec` (Codec.dfy): the fixed-width integer codec standing in for `PrimitiveTypeSlice<size_t>`
  and `primitive_type_slice<uint32_t>`. Its header is not part of this model, so a little-endian
  layout is chosen. The rest of the model uses only two facts about it: an encoded value has the
  width of its C++ type, and it decodes back exactly. Both are proved: round trips both ways,
  and injectivity.
- `Engine` (Engine.dfy): an abstract RocksDB.
  - `Disk` is the store at the storage path. It records whether a store exists there, its
    partitions (column families), a map from (partition, key) to value, and a trace of the
    partition flushes.
  - Each engine call either succeeds or fails. The disk's fixed `faults` set decides which
    calls fail, so every outcome is a parameter of the model.
  - Apart from that set, a call fails where RocksDB refuses it:
    - Every store has the default family, and the controller keeps its metadata records there.
    - An open with a family list must name the default family and only families the store has.
      An open for writing must name all of them, while a read-only open may leave some out.
    - An open without a family list (`create_if_missing`) names only the default family.
    - Creating a family that already exists fails.
  - A write batch lands atomically, and the later put to a cell wins.
- `Ledger` (Ledger.dfy): the ledgers as values. It defines the records a commit stages, what
  verifying a stored version means, and what loading the counters does. The lemmas relate a
  commit to the store it leaves behind.
- `Storage` (PersistentStorage.dfy): the controller as a class, with the fields `storage`,
  `columnHandles`, `writeBuffer` (`write_buffer`), `collectedOps`, `version` and `sequences`.
  - Each member function of the C++ class is a method that updates those fields in place.
    Its contract gives its result and its new state in terms of the state before.
  - A fatal check (`check_status`, `FC_ASSERT`) ends the method at once with a `Fatal` or
    `Thrown` result. The state is left as it stands, as the exception would leave it.
  - `Action` turns such a result into `false` at the four public entry points.
  - `AlphaLifecycle`, `AlphaReopen`, `AlphaCommit` and `AlphaClose` walk one plugin through
    `create`, `open`, a staged put committed by `flush`, and two `close` calls, using only the
    contracts.
  - `Stage` stands in for the plugin built on the controller; that code is not part of this
    file. It appends a put to the write buffer and counts it as a pending operation, so that a
    later `flush_storage` has something to commit.

The storage_configuration_manager is a `Config` value: the column definitions for each
preparer flag, the expected version and the initial counters. The store at the storage path
is the controller's `location`.

### Behaviour of the code as written

The model follows the code. In five places the code does something other than what a caller
would expect:

- One might expect a successful `create()` to leave the store open. But `create_db` never
  assigns `storage` (persistent_storage.cpp:134-201), so the controller is still closed and the
  caller must `open()` it.
- One might expect a failed `create()` to leave no trace. But when a put or the write throws
  after the column families are created (lines 175-177), the cleanup on line 178 and the
  `delete db` are skipped. The write buffer keeps the puts staged so far, `collectedOps` keeps
  its value, and `columnHandles` keeps the handles of the temporary engine. In the model, which
  has no store lock, a flush with pending operations after a later `open()` commits those
  leftover puts.
- One might expect `open()` returning false to mean the controller is closed. But `open_db`
  sets `storage` before it checks the version (lines 235-237), so after a version mismatch
  `open()` returns false and `is_opened()` is true.
- One might expect `close()` always to close. But `shutdown_db` calls `flush_storage` before it
  releases anything (lines 127-129). If the flush throws, the handle cleanup and
  `storage.reset()` are skipped: `close()` returns false and the controller stays open with its
  handles.
- One might expect `open()` to restore the stored counters. But `load_seq_identifiers` assigns
  the decoded counter to `obj.first`, the key, not to `obj.second`, the counter (line 50).
  With `std::string` keys, the `size_t` goes through `std::string::operator=(char)`.
  - The key becomes the one-character string of the counter's low byte (`CounterAsKey`).
  - The in-memory counters keep the values they had before the load.
  - The next commit therefore writes those counters under the renamed keys
    (`Ledger.ReloadDoesNotRestoreCounter`).
  - Nothing in the model claims that storing and then loading restores the counters.

## Model

| member | source | states |
|---|---|---|
| Codec.Encode | libraries/utilities/persistent_storage.cpp:32 | a value packs into exactly as many bytes as its C++ type has |
| Codec.Decode | libraries/utilities/persistent_storage.cpp:50 | an unpacked value lies in the range of its fixed width |
| Codec.DecodeEncode | libraries/utilities/persistent_storage.cpp:50 | unpacking a packed value gives the value back |
| Codec.EncodeDecode | libraries/utilities/persistent_storage.cpp:77 | a buffer of the full width is the packing of what it unpacks to |
| Codec.EncodeInjective | libraries/utilities/persistent_storage.cpp:32 | two different values never pack to the same bytes |
| Codec.PackSize | libraries/utilities/persistent_storage.cpp:32 | a stored counter is 8 bytes wide |
| Codec.PackU32 | libraries/utilities/persistent_storage.cpp:62 | a stored version value is 4 bytes wide |
| Codec.SizeRoundTrip | libraries/utilities/persistent_storage.cpp:50 | a stored size_t counter reads back as itself |
| Codec.U32RoundTrip | libraries/utilities/persistent_storage.cpp:77 | a stored uint32_t version value reads back as itself |
| Codec.UnpackSizeExact | libraries/utilities/persistent_storage.cpp:50 | `unpackSlice` of an 8-byte counter record gives the counter whose packing is exactly that record |
| Codec.UnpackU32Exact | libraries/utilities/persistent_storage.cpp:77 | `unpackSlice` of a 4-byte version record gives the value whose packing is exactly that record |
| Codec.Narrow32 | libraries/utilities/persistent_storage.cpp:62 | the size_t-to-uint32_t conversion keeps a value below 2^32 and otherwise differs from it by a multiple of 2^32 |
| Engine.Read | libraries/utilities/persistent_storage.cpp:48-49 | a metadata read succeeds exactly when the engine does not fail and the key is stored, and then returns the stored value |
| Engine.LastWrite | libraries/utilities/persistent_storage.cpp:91 | the batch's last put to a cell is one of its puts to that cell; there is none exactly when no put touches the cell |
| Engine.ApplyBatch | libraries/utilities/persistent_storage.cpp:91 | a written batch removes no cell, and every cell it adds is one that some put of the batch names |
| Engine.ApplyBatchAt | libraries/utilities/persistent_storage.cpp:91 | after a batch is written, a cell holds the batch's last put to it, and a cell the batch does not touch is as it was |
| Engine.LastWriteAppend | libraries/utilities/persistent_storage.cpp:91 | in a batch extended by further puts, a later put to a cell overrides an earlier one |
| Engine.Disk.constructor | libraries/utilities/persistent_storage.cpp:142 | the location at the storage path holds a store with the given families plus the default family, or, when it holds none, no families and no data; no flushes yet |
| Engine.Disk.OpenForReadOnly | libraries/utilities/persistent_storage.cpp:149 | the read-only open succeeds exactly when a store exists, the list names the default family and only families the store has, and the call does not fail; it then yields one handle per family |
| Engine.Disk.OpenCreatingIfMissing | libraries/utilities/persistent_storage.cpp:160-161 | the open with create_if_missing succeeds exactly when the store has no family but the default one and the call does not fail; afterwards a store with the default family exists |
| Engine.Disk.CreateColumnFamilies | libraries/utilities/persistent_storage.cpp:167 | the creation succeeds exactly when no requested family exists or is named twice and the call does not fail; on success the families are added and one handle is yielded per family |
| Engine.Disk.OpenWithColumns | libraries/utilities/persistent_storage.cpp:229 | the open for writing succeeds exactly when a store exists, the list names the default family and exactly the families the store has, and the call does not fail |
| Engine.Disk.Get | libraries/utilities/persistent_storage.cpp:48 | defines the read as `Read` of the current store, whose contract gives when it succeeds and what it returns |
| Engine.Disk.Write | libraries/utilities/persistent_storage.cpp:91 | the whole batch lands or, when the write fails, nothing does |
| Engine.Disk.Flush | libraries/utilities/persistent_storage.cpp:109 | a successful flush of a family is recorded, and a failed one leaves no trace |
| Ledger.Leading | libraries/utilities/persistent_storage.cpp:29-36 | the count of leading successes: every call before it succeeded, and the call at it failed |
| Ledger.StagedCount | libraries/utilities/persistent_storage.cpp:29-36 | how many records are put into the batch before the first failing put; every earlier put succeeded and the one at the count failed |
| Ledger.FlushCount | libraries/utilities/persistent_storage.cpp:107-111 | how many handles are flushed before the first failing flush; every earlier flush succeeded and the one at the count failed |
| Ledger.Keys | libraries/utilities/persistent_storage.cpp:29-36 | defines the record keys of a ledger, in ledger order |
| Ledger.SequenceWrites | libraries/utilities/persistent_storage.cpp:27-37 | defines the puts, one per counter in ledger order, of the packed counter under its key in the default partition; `CommitStoresCounters` proves what they leave in the store |
| Ledger.VersionWrites | libraries/utilities/persistent_storage.cpp:58-66 | defines the puts, one per version entry in ledger order, of the value cut to uint32_t under its key in the default partition; `CreatedStoreVerifies` proves what they leave in the store |
| Ledger.VerifyOutcome | libraries/utilities/persistent_storage.cpp:68-82 | verification passes exactly when every expected key can be read and is stored with its expected value; otherwise it is fatal |
| Ledger.CounterAsKey | libraries/utilities/persistent_storage.cpp:50 | assigning a size_t to the std::string key leaves the one-character string of the counter's low byte |
| Ledger.Renamed | libraries/utilities/persistent_storage.cpp:45-50 | a loaded entry keeps its counter; its key becomes the stored counter when the read succeeds, and the entry is untouched when it fails |
| Ledger.Reload | libraries/utilities/persistent_storage.cpp:39-56 | loading keeps the ledger's length and every in-memory counter |
| Ledger.ReloadReads | libraries/utilities/persistent_storage.cpp:45-50 | a step whose read succeeds renames that entry and extends the readable prefix |
| Ledger.ReloadStops | libraries/utilities/persistent_storage.cpp:48-49 | a step whose read fails leaves that entry and all later ones as they were, and the load as a whole fails |
| Ledger.ReloadRenamesEveryKey | libraries/utilities/persistent_storage.cpp:39-56 | when every record can be read, every key becomes its stored counter and every counter keeps its in-memory value |
| Ledger.ReloadDoesNotRestoreCounter | libraries/utilities/persistent_storage.cpp:50 | with `next_id` stored as 5 and 0 in memory, a load keeps 0 under a renamed key, and the next commit writes 0 under that key, not under `next_id` |
| Ledger.LastPutWins | libraries/utilities/persistent_storage.cpp:91 | a put that no later put in the batch overrides is what the store holds after the write |
| Ledger.CommitStoresCounter | libraries/utilities/persistent_storage.cpp:84-92 | after a commit, each counter that no later ledger entry repeats is stored and reads back as its in-memory value |
| Ledger.CommitStoresCounters | libraries/utilities/persistent_storage.cpp:84-92 | with distinct counter keys, a commit stores every counter with its in-memory value |
| Ledger.CommitKeepsStagedPut | libraries/utilities/persistent_storage.cpp:84-92 | a commit lands every staged put to a cell the counters do not touch, and leaves every other such cell as it was |
| Ledger.CreatedStoreHolds | libraries/utilities/persistent_storage.cpp:58-66 | after the batch create_db commits, each version record is stored and reads back as its value cut to uint32_t |
| Ledger.CreatedStoreVerifies | libraries/utilities/persistent_storage.cpp:172-177 | the store create_db commits matches the version it staged exactly when every version value fits in a uint32_t |
| Ledger.WideVersionNeverVerifies | libraries/utilities/persistent_storage.cpp:77-78 | a version value too wide for uint32_t fails verification against any store, since a stored record unpacks to a uint32_t |
| Ledger.CreatedStoreRejectsOtherVersion | libraries/utilities/persistent_storage.cpp:75-78 | verifying a freshly created store against a ledger that expects, for one of its keys, a value other than the stored one is fatal |
| Storage.Action | libraries/utilities/persistent_storage.cpp:251-261 | the public result is true exactly when the call returned true; a thrown fault becomes false |
| Storage.PersistentStorage.constructor | libraries/utilities/persistent_storage.cpp:16-20 | a new controller is closed, with no handles, an empty batch and no pending operations |
| Storage.PersistentStorage.IsOpened | libraries/utilities/persistent_storage.cpp:283-286 | open exactly when `storage` is non-null |
| Storage.PersistentStorage.IsClosed | libraries/utilities/persistent_storage.cpp:288-291 | closed exactly when not open, so the two queries are complements |
| Storage.PersistentStorage.StoreSequenceIds | libraries/utilities/persistent_storage.cpp:27-37 | the buffer grows by the counter puts made before the first failing put, and the call is fatal exactly when a put fails |
| Storage.PersistentStorage.SaveStoreVersion | libraries/utilities/persistent_storage.cpp:58-66 | the buffer grows by the version puts made before the first failing put, and the call is fatal exactly when a put fails |
| Storage.PersistentStorage.VerifyStoreVersion | libraries/utilities/persistent_storage.cpp:68-82 | passes exactly when every expected version key can be read and holds its expected value; a missing key, a read failure or a mismatch is fatal |
| Storage.PersistentStorage.LoadSeqIdentifiers | libraries/utilities/persistent_storage.cpp:39-56 | the ledger becomes its load; it stops at the first unreadable record with that fault |
| Storage.PersistentStorage.FlushWriteBuffer | libraries/utilities/persistent_storage.cpp:84-95 | the counters are staged; the commit succeeds exactly when every put and the write succeed, and then the store holds every staged put and every counter, and the buffer and count are cleared; a failure is fatal and clears nothing |
| Storage.PersistentStorage.FlushColumnHandles | libraries/utilities/persistent_storage.cpp:106-111 | the handles are flushed in order up to the first failure, which is fatal |
| Storage.PersistentStorage.FlushStorage | libraries/utilities/persistent_storage.cpp:97-114 | a closed controller returns false and changes nothing; otherwise it commits only when operations are pending, then flushes every handle, returning true when none failed |
| Storage.PersistentStorage.CleanupColumnHandles | libraries/utilities/persistent_storage.cpp:116-122 | no handles are left |
| Storage.PersistentStorage.ShutdownDb | libraries/utilities/persistent_storage.cpp:124-132 | the result is flush_storage's; when that returns, the handles are gone and the controller is closed; when it throws, both are left as they were |
| Storage.PersistentStorage.CreateDb | libraries/utilities/persistent_storage.cpp:134-201 | a found store is left untouched, with the probe's handles released; a failed open or family creation returns false and writes nothing, though a successful open still leaves the default family; otherwise the configured ledgers are committed; `storage` never changes |
| Storage.PersistentStorage.OpenDb | libraries/utilities/persistent_storage.cpp:203-249 | the ledgers are reread from the configuration before the open; a failed open returns false and leaves the controller as it was; a successful one opens the controller, verifies the version and loads the counters only once the version verifies |
| Storage.PersistentStorage.Create | libraries/utilities/persistent_storage.cpp:263-266 | true exactly when create_db returns true; the controller is not opened, and a failed create writes nothing; a found store leaves everything but the handles as it was; a store it creates gets the families and the configured ledgers, and the batch and count are cleared, and the store is the old one with the whole staged batch (the earlier puts, the version records, then the counter records) applied; without a store, the open with create_if_missing leaves one with the default family behind even when the family creation then fails, and a failed open leaves `present` and the families as they were; a throw after the families are created leaves the puts staged so far in the buffer, the count as it was and the new families' handles in `columnHandles`; a store it creates holds the initial counters, and holds the expected version exactly when every version value fits in a uint32_t |
| Storage.PersistentStorage.Open | libraries/utilities/persistent_storage.cpp:268-271 | true exactly when open_db returns true; the ledgers are reread from the configuration in every case; a failed open keeps `storage` and the handles; a successful one opens the controller with the probe handles even when the version then fails; true means the version matches and every counter key is replaced by its stored value |
| Storage.PersistentStorage.Flush | libraries/utilities/persistent_storage.cpp:273-276 | true exactly when flush_storage returns true; false on a closed controller, which nothing changes |
| Storage.PersistentStorage.Close | libraries/utilities/persistent_storage.cpp:278-281 | true exactly when flush_storage would return true; when flush_storage returns, the controller is closed with no handles, so a second close is false; when it throws, the controller stays open with its handles |

## Left out

- RocksDB tuning (`IncreaseParallelism`, `OptimizeLevelStyleCompaction`) and the `Options`/`DBOptions` structures: these are internals of the foreign library with no effect on the controller's state.
- `LoadOptionsFromFile` for the optional configuration file, and its `assert`: this is foreign I/O, and a release build drops the assert.
- The byte layout of `PrimitiveTypeSlice`/`primitive_type_slice`: its header is not part of this model, so the codec is a little-endian fixed-width one, and only its width and round trips are used.
- Logging through `ilog`/`elog`: it has no effect on behaviour.
- The `delete` of each handle and of the temporary `db`: releasing handles is modelled as emptying `columnHandles`, and the engine object is not modelled apart from the store it opens.
- `get_storage` and its debug `assert`: this accessor hands out the raw pointer and is not part of the lifecycle.
- The destructor: it only calls `shutdown_db`, which is modelled; an exception escaping a destructor terminates the process, and that is not modelled.
- Concurrency: the code does no locking, and the model is sequential.
- The `key_value_pair` type's header is not part of this model. Both ledgers use that one type. Its key is taken to be a `std::string`, which gives `CounterAsKey` for the assignment on line 50. Its value is taken to be a `size_t`, as line 32 packs it; line 62 then cuts a version value to `uint32_t`, and line 78 compares the stored value with the full one.
- The plugin code that puts into the write buffer and increments `collectedOps` is not part of this file; `Stage` stands in for it.
- Keys are Dafny strings, whose elements are Unicode characters, while a `std::string` is a string of bytes. `CounterAsKey` yields character codes 0-255, so it can equal a one-character key with a code in 128-255 that, as a UTF-8 `std::string`, would be two bytes and differ from it. The model does not capture this byte-level difference.
- Engine.Disk.OpenForReadOnly: a failed RocksDB open is taken to hand out no handles, and the controller's `columnHandles` is then left as it was.
- Engine.Disk.OpenWithColumns: a failed open is taken to leave `columnHandles` as it was.
- Engine.Disk.CreateColumnFamilies: RocksDB creates the families one at a time and keeps those made before a failure, together with their handles. The model treats a failed creation as creating nothing and yielding no handles, and the controller's `columnHandles` is then left as it was.
- Engine: the rules under which RocksDB refuses an open or a creation come from RocksDB's documented behaviour, not from this file; other RocksDB refusals, such as a corrupt store, are covered only through the fault set.
- Engine: a failure is fixed per kind of call, for example "put of key k" or "flush of family f". The model cannot express a call that fails once and then succeeds.
- The storage_configuration_manager, the storage path and the column-definitions preparer are not modelled as code: they are the `Config` value and the `location` disk, which are inputs of the model.
- Storage.PersistentStorage.CreateDb: when a throw ends create_db, the temporary engine is not deleted. The model records no engine object, so this leak is not modelled, and neither is the lock it keeps on the store, under which a later open of the same store in the same process is refused.
