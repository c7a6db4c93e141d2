/** The lifecycle controller `persistent_storage`: it creates, opens, flushes and shuts down the
    store of one plugin, and keeps the version and sequence ledgers with it.

    The controller is open exactly when `storage` is non-null. Internal helpers end in a
    `Completion` or an `Outcome`; a `Fatal`/`Thrown` result is a fatal check that threw, and the
    caller returns at once with the state left as it stands, as an exception would. Only `Action`,
    at the four public entry points, turns a thrown fault into `false`. */
module Storage {
  import opened Codec
  import opened Engine
  import opened Ledger

  /** The flag passed to the column-definitions preparer. With `true` (Probe) it lists the
      families an open names, which for RocksDB must include the default family; with `false`
      (Full) it lists the families create_db creates, which must not, since an opened store
      already has the default family. */
  datatype Mode = Probe | Full

  /** What the storage_configuration_manager supplies for the plugin. */
  datatype Config = Config(probeColumns: seq<string>, fullColumns: seq<string>,
                           version: VersionLedger, sequences: SequenceLedger)
  {
    function Columns(mode: Mode): seq<string>
    {
      if mode == Probe then probeColumns else fullColumns
    }
  }

  /** How a bool-returning member ends: it returns, or a fatal check throws. */
  datatype Outcome = Returned(ok: bool) | Thrown(fault: Fault)

  /** persistent_storage::action: whatever is thrown becomes `false`. */
  function Action(o: Outcome): (r: bool)
    ensures r <==> o == Returned(true)
    ensures o.Thrown? ==> !r
  {
    match o
    case Returned(b) => b
    case Thrown(_) => false
  }

  class PersistentStorage {
    const config: Config
    /** The store at the configured storage path. */
    const location: Disk

    var storage: Disk?
    var columnHandles: seq<string>
    var writeBuffer: seq<Write>
    var collectedOps: nat
    var version: VersionLedger
    var sequences: SequenceLedger

    /** The only engine the controller ever holds is the one at its storage path. */
    ghost predicate Valid()
      reads this
    {
      storage == null || storage == location
    }

    constructor (config: Config, location: Disk)
      ensures Valid() && this.config == config && this.location == location
      ensures storage == null && columnHandles == [] && writeBuffer == [] && collectedOps == 0
      ensures version == [] && sequences == []
    {
      this.config := config;
      this.location := location;
      storage := null;
      columnHandles := [];
      writeBuffer := [];
      collectedOps := 0;
      version := [];
      sequences := [];
    }

    function IsOpened(): (r: bool)
      reads this
      ensures r <==> storage != null
    {
      storage != null
    }

    function IsClosed(): (r: bool)
      reads this
      ensures r <==> !IsOpened()
    {
      storage == null
    }

    /** What the plugin built on the controller does between commits: stage a put in the write
        buffer and count it as a pending operation. */
    method Stage(cell: Cell, value: Value)
      modifies this`writeBuffer, this`collectedOps
      ensures writeBuffer == old(writeBuffer) + [Put(cell, value)]
      ensures collectedOps == old(collectedOps) + 1
    {
      writeBuffer := writeBuffer + [Put(cell, value)];
      collectedOps := collectedOps + 1;
    }

    method StoreSequenceIds() returns (c: Completion)
      modifies this`writeBuffer
      ensures var n := StagedCount(location.faults, Keys(sequences));
              writeBuffer == old(writeBuffer) + SequenceWrites(sequences[..n]) &&
              c == if n == |sequences| then Normal else Fatal(DataAccessFailed)
    {
      var i := 0;
      while i < |sequences|
        invariant 0 <= i <= |sequences|
        invariant forall j :: 0 <= j < i ==> PutIntoBatch(sequences[j].0) !in location.faults
        invariant writeBuffer == old(writeBuffer) + SequenceWrites(sequences[..i])
      {
        var item := sequences[i];
        if PutIntoBatch(item.0) in location.faults {
          return Fatal(DataAccessFailed);
        }
        assert SequenceWrites(sequences[..i + 1]) == SequenceWrites(sequences[..i]) + [Put(MetaCell(item.0), PackSize(item.1))];
        writeBuffer := writeBuffer + [Put(MetaCell(item.0), PackSize(item.1))];
        i := i + 1;
      }
      assert sequences[..i] == sequences;
      return Normal;
    }

    method SaveStoreVersion() returns (c: Completion)
      modifies this`writeBuffer
      ensures var n := StagedCount(location.faults, Keys(version));
              writeBuffer == old(writeBuffer) + VersionWrites(version[..n]) &&
              c == if n == |version| then Normal else Fatal(DataAccessFailed)
    {
      var i := 0;
      while i < |version|
        invariant 0 <= i <= |version|
        invariant forall j :: 0 <= j < i ==> PutIntoBatch(version[j].0) !in location.faults
        invariant writeBuffer == old(writeBuffer) + VersionWrites(version[..i])
      {
        var item := version[i];
        if PutIntoBatch(item.0) in location.faults {
          return Fatal(DataAccessFailed);
        }
        assert VersionWrites(version[..i + 1]) == VersionWrites(version[..i]) + [Put(MetaCell(item.0), PackU32(Narrow32(item.1)))];
        writeBuffer := writeBuffer + [Put(MetaCell(item.0), PackU32(Narrow32(item.1)))];
        i := i + 1;
      }
      assert version[..i] == version;
      return Normal;
    }

    method VerifyStoreVersion() returns (c: Completion)
      requires Valid() && storage != null
      ensures c == VerifyOutcome(location.faults, location.data, version)
      ensures c.Normal? <==>
        (forall i :: 0 <= i < |version| ==> GetKey(version[i].0) !in location.faults) &&
        VersionMatches(version, location.data)
    {
      var i := 0;
      while i < |version|
        invariant 0 <= i <= |version|
        invariant VerifyOutcome(location.faults, location.data, version) ==
                  VerifyOutcome(location.faults, location.data, version[i..])
      {
        var item := version[i];
        assert version[i..][0] == item && version[i..][1..] == version[i + 1..];
        var r := storage.Get(item.0);
        if !r.Found? {
          return Fatal(DataAccessFailed);
        }
        var value := UnpackU32(r.value);
        if value != item.1 {
          return Fatal(VersionMismatch);
        }
        i := i + 1;
      }
      return Normal;
    }

    method LoadSeqIdentifiers() returns (c: Completion)
      requires Valid() && storage != null
      modifies this`sequences
      ensures sequences == Reload(location.faults, location.data, old(sequences))
      ensures c.Normal? <==> CountersReadable(location.faults, location.data, old(sequences))
      ensures c.Fatal? ==> c.fault == DataAccessFailed
    {
      ghost var initial := sequences;
      ghost var expected := Reload(location.faults, location.data, initial);
      var i := 0;
      while i < |sequences|
        invariant 0 <= i <= |sequences| == |initial|
        invariant CountersReadable(location.faults, location.data, initial[..i])
        invariant forall j :: 0 <= j < i ==> sequences[j] == expected[j]
        invariant forall j :: i <= j < |initial| ==> sequences[j] == initial[j]
      {
        var item := sequences[i];
        var r := storage.Get(item.0);
        if !r.Found? {
          ReloadStops(location.faults, location.data, initial, i);
          return Fatal(DataAccessFailed);
        }
        ReloadReads(location.faults, location.data, initial, i);
        sequences := sequences[i := (CounterAsKey(UnpackSize(r.value)), item.1)];
        i := i + 1;
      }
      assert initial[..i] == initial;
      return Normal;
    }

    /** Whether committing the write buffer with these counters appended succeeds. */
    predicate CommitSucceedsFor(counters: SequenceLedger)
      reads location
    {
      StagedCount(location.faults, Keys(counters)) == |counters| && WriteBatch !in location.faults
    }

    /** What flush_write_buffer leaves behind: the counters it managed to stage are in the
        buffer; a successful write lands the whole buffer and empties it, a failed one throws
        and leaves the buffer, the count and the store as they were. */
    twostate predicate CommitEffect()
      reads this, location
    {
      var n := StagedCount(location.faults, Keys(old(sequences)));
      var staged := old(writeBuffer) + SequenceWrites(old(sequences)[..n]);
      sequences == old(sequences) &&
      if n == |old(sequences)| && WriteBatch !in location.faults then
        writeBuffer == [] && collectedOps == 0 && location.data == ApplyBatch(old(location.data), staged)
      else
        writeBuffer == staged && collectedOps == old(collectedOps) && location.data == old(location.data)
    }

    method FlushWriteBuffer(db: Disk?) returns (c: Completion)
      requires Valid()
      requires db == null ==> storage != null
      requires db != null ==> db == location
      modifies this`writeBuffer, this`collectedOps, location`data
      ensures c.Normal? <==> old(CommitSucceedsFor(sequences))
      ensures c.Fatal? ==> c.fault == DataAccessFailed
      ensures CommitEffect()
      ensures c.Normal? && DistinctKeys(sequences) ==> SequencesStored(sequences, location.data)
    {
      c := StoreSequenceIds();
      if c.Fatal? {
        return;
      }
      var target := if db == null then storage else db;
      var s := target.Write(writeBuffer);
      if s.Failed? {
        return Fatal(DataAccessFailed);
      }
      writeBuffer := [];
      collectedOps := 0;
      assert sequences[..|sequences|] == sequences;
      if DistinctKeys(sequences) {
        CommitStoresCounters(old(location.data), old(writeBuffer), sequences);
      }
    }

    method FlushColumnHandles() returns (c: Completion)
      requires Valid() && storage != null
      modifies location`flushed
      ensures var n := FlushCount(location.faults, columnHandles);
              location.flushed == old(location.flushed) + columnHandles[..n] &&
              c == if n == |columnHandles| then Normal else Fatal(DataAccessFailed)
    {
      var i := 0;
      while i < |columnHandles|
        invariant 0 <= i <= |columnHandles|
        invariant forall j :: 0 <= j < i ==> FlushPartition(columnHandles[j]) !in location.faults
        invariant location.flushed == old(location.flushed) + columnHandles[..i]
      {
        var s := storage.Flush(columnHandles[i]);
        if s.Failed? {
          return Fatal(DataAccessFailed);
        }
        assert columnHandles[..i + 1] == columnHandles[..i] + [columnHandles[i]];
        i := i + 1;
      }
      assert columnHandles[..i] == columnHandles;
      return Normal;
    }

    /** The result flush_storage produces from the current state. */
    function FlushStorageOutcome(): Outcome
      reads this, location
    {
      if storage == null then Returned(false)
      else if collectedOps != 0 && !CommitSucceedsFor(sequences) then Thrown(DataAccessFailed)
      else if FlushCount(location.faults, columnHandles) < |columnHandles| then Thrown(DataAccessFailed)
      else Returned(true)
    }

    /** What flush_storage leaves behind: nothing at all when closed; otherwise the commit, made
        only when operations are pending, then one durable flush per handle until one fails. */
    twostate predicate FlushStorageEffect()
      reads this, location
    {
      sequences == old(sequences) &&
      if old(storage) == null then
        writeBuffer == old(writeBuffer) && collectedOps == old(collectedOps) &&
        location.data == old(location.data) && location.flushed == old(location.flushed)
      else
        (if old(collectedOps) != 0 then CommitEffect()
         else writeBuffer == old(writeBuffer) && collectedOps == old(collectedOps) && location.data == old(location.data)) &&
        location.flushed == old(location.flushed) +
          if old(collectedOps) != 0 && !old(CommitSucceedsFor(sequences)) then []
          else old(columnHandles)[..FlushCount(location.faults, old(columnHandles))]
    }

    method FlushStorage() returns (o: Outcome)
      requires Valid()
      modifies this`writeBuffer, this`collectedOps, location`data, location`flushed
      ensures o == old(FlushStorageOutcome())
      ensures FlushStorageEffect()
      ensures old(storage) == null ==> unchanged(this) && unchanged(location)
    {
      if storage == null {
        return Returned(false);
      }
      if collectedOps != 0 {
        var c := FlushWriteBuffer(null);
        if c.Fatal? {
          return Thrown(c.fault);
        }
      }
      var c := FlushColumnHandles();
      if c.Fatal? {
        return Thrown(c.fault);
      }
      return Returned(true);
    }

    /** Releasing the handles; deleting each handle object is not modelled. */
    method CleanupColumnHandles()
      modifies this`columnHandles
      ensures columnHandles == []
    {
      columnHandles := [];
    }

    method ShutdownDb() returns (o: Outcome)
      requires Valid()
      modifies this`writeBuffer, this`collectedOps, this`columnHandles, this`storage, location`data, location`flushed
      ensures Valid()
      ensures o == old(FlushStorageOutcome())
      ensures FlushStorageEffect()
      ensures o.Returned? ==> storage == null && columnHandles == []
      ensures o.Thrown? ==> storage == old(storage) && columnHandles == old(columnHandles)
    {
      o := FlushStorage();
      if o.Thrown? {
        return;
      }
      CleanupColumnHandles();
      storage := null;
    }

    /** Whether the read-only probe open of create_db finds a store. */
    predicate ProbeFindsStore()
      reads this, location
    {
      location.CanOpen(OpenReadOnly, config.Columns(Probe))
    }

    /** Whether create_db, its probe having failed, opens (and if need be creates) the store. */
    predicate OpensForCreation()
      reads this, location
    {
      !ProbeFindsStore() && location.CanOpenCreating()
    }

    /** Whether create_db gets as far as creating the column families, in the store that its
        open leaves with the default family. */
    predicate CreatesPartitions()
      reads this, location
    {
      OpensForCreation() && location.CanCreateIn(location.partitions + {DefaultPartition}, config.Columns(Full))
    }

    /** The result create_db produces from the current state. */
    function CreateDbOutcome(): Outcome
      reads this, location
    {
      if ProbeFindsStore() then Returned(true)
      else if !CreatesPartitions() then Returned(false)
      else if StagedCount(location.faults, Keys(config.version)) < |config.version| then Thrown(DataAccessFailed)
      else if !CommitSucceedsFor(config.sequences) then Thrown(DataAccessFailed)
      else Returned(true)
    }

    method CreateDb() returns (o: Outcome)
      requires Valid()
      modifies this`columnHandles, this`writeBuffer, this`collectedOps, this`version, this`sequences,
               location`present, location`partitions, location`data
      ensures Valid() && storage == old(storage)
      ensures o == old(CreateDbOutcome())
      // A store is already there: nothing is written and the probe's handles are released.
      ensures old(ProbeFindsStore()) ==>
        unchanged(location) && columnHandles == [] &&
        writeBuffer == old(writeBuffer) && collectedOps == old(collectedOps) &&
        version == old(version) && sequences == old(sequences)
      ensures !old(ProbeFindsStore()) ==> location.present == (old(location.present) || old(OpensForCreation()))
      // The open or the creation of the column families fails: nothing changes but the default
      // family a successful open brings with it.
      ensures !old(ProbeFindsStore()) && !old(CreatesPartitions()) ==>
        location.partitions == (if old(OpensForCreation()) then old(location.partitions) + {DefaultPartition}
                                else old(location.partitions)) &&
        location.data == old(location.data) &&
        columnHandles == old(columnHandles) && writeBuffer == old(writeBuffer) &&
        collectedOps == old(collectedOps) && version == old(version) && sequences == old(sequences)
      // The column families are created: the ledgers are the configured ones and are committed.
      ensures old(CreatesPartitions()) ==>
        location.partitions == old(location.partitions) + {DefaultPartition} +
                               (set i | 0 <= i < |config.fullColumns| :: config.fullColumns[i]) &&
        version == config.version && sequences == config.sequences &&
        var nv := StagedCount(location.faults, Keys(config.version));
        var ns := StagedCount(location.faults, Keys(config.sequences));
        if nv < |config.version| then
          writeBuffer == old(writeBuffer) + VersionWrites(config.version[..nv]) &&
          collectedOps == old(collectedOps) && location.data == old(location.data) &&
          columnHandles == config.fullColumns
        else
          var staged := old(writeBuffer) + VersionWrites(config.version) + SequenceWrites(config.sequences[..ns]);
          if ns == |config.sequences| && WriteBatch !in location.faults then
            writeBuffer == [] && collectedOps == 0 && columnHandles == [] &&
            location.data == ApplyBatch(old(location.data), staged)
          else
            writeBuffer == staged && collectedOps == old(collectedOps) &&
            location.data == old(location.data) && columnHandles == config.fullColumns
    {
      var s, handles := location.OpenForReadOnly(config.Columns(Probe));
      if s.Ok? {
        columnHandles := handles;
        CleanupColumnHandles();
        return Returned(true);
      }
      s := location.OpenCreatingIfMissing();
      if s.Failed? {
        return Returned(false);
      }
      s, handles := location.CreateColumnFamilies(config.Columns(Full));
      if s.Failed? {
        return Returned(false);
      }
      columnHandles := handles;
      version := config.version;
      sequences := config.sequences;
      var c := SaveStoreVersion();
      if c.Fatal? {
        return Thrown(c.fault);
      }
      assert version[..|version|] == version;
      c := FlushWriteBuffer(location);
      if c.Fatal? {
        return Thrown(c.fault);
      }
      CleanupColumnHandles();
      return Returned(true);
    }

    /** Whether open_db's open of the existing store succeeds. */
    predicate OpensStore()
      reads this, location
    {
      location.CanOpen(OpenExisting, config.Columns(Probe))
    }

    /** The result open_db produces from the current state. */
    function OpenDbOutcome(): Outcome
      reads this, location
    {
      if !OpensStore() then Returned(false)
      else
        match VerifyOutcome(location.faults, location.data, config.version)
        case Fatal(f) => Thrown(f)
        case Normal =>
          if CountersReadable(location.faults, location.data, config.sequences) then Returned(true)
          else Thrown(DataAccessFailed)
    }

    method OpenDb() returns (o: Outcome)
      requires Valid()
      modifies this`storage, this`columnHandles, this`version, this`sequences
      ensures Valid()
      ensures o == old(OpenDbOutcome())
      ensures version == config.version
      // The open fails: the controller stays as it was, apart from the freshly read ledgers.
      ensures !old(OpensStore()) ==>
        storage == old(storage) && columnHandles == old(columnHandles) && sequences == config.sequences
      // The open succeeds: the controller is open before the version is verified, and the
      // counters are loaded only once the version has been verified.
      ensures old(OpensStore()) ==>
        storage == location && columnHandles == config.Columns(Probe) &&
        if VerifyOutcome(location.faults, location.data, config.version).Fatal? then
          sequences == config.sequences
        else
          sequences == Reload(location.faults, location.data, config.sequences)
    {
      sequences := config.sequences;
      version := config.version;
      var s, handles := location.OpenWithColumns(config.Columns(Probe));
      if s.Failed? {
        return Returned(false);
      }
      columnHandles := handles;
      storage := location;
      var c := VerifyStoreVersion();
      if c.Fatal? {
        return Thrown(c.fault);
      }
      c := LoadSeqIdentifiers();
      if c.Fatal? {
        return Thrown(c.fault);
      }
      return Returned(true);
    }

    method Create() returns (r: bool)
      requires Valid()
      modifies this`columnHandles, this`writeBuffer, this`collectedOps, this`version, this`sequences,
               location`present, location`partitions, location`data
      ensures Valid()
      ensures r <==> old(CreateDbOutcome()) == Returned(true)
      // create() never opens the controller, whatever its outcome.
      ensures storage == old(storage)
      ensures r ==> columnHandles == []
      // A failed create() writes nothing to the store.
      ensures !r ==> location.data == old(location.data)
      // A store is already there: nothing changes but the probe's handles, which are released.
      ensures old(ProbeFindsStore()) ==>
        r && unchanged(location) &&
        writeBuffer == old(writeBuffer) && collectedOps == old(collectedOps) &&
        version == old(version) && sequences == old(sequences)
      // Without a store, the open with create_if_missing leaves one behind even when create()
      // then fails; a failed open or family creation adds no family but the default one.
      ensures !old(ProbeFindsStore()) ==> location.present == (old(location.present) || old(OpensForCreation()))
      ensures !old(ProbeFindsStore()) && !old(CreatesPartitions()) ==>
        location.partitions == (if old(OpensForCreation()) then old(location.partitions) + {DefaultPartition}
                                else old(location.partitions))
      ensures !old(ProbeFindsStore()) && !old(CreatesPartitions()) ==>
        !r && columnHandles == old(columnHandles) &&
        writeBuffer == old(writeBuffer) && collectedOps == old(collectedOps) &&
        version == old(version) && sequences == old(sequences)
      ensures old(CreatesPartitions()) ==>
        location.present && version == config.version && sequences == config.sequences &&
        location.partitions == old(location.partitions) + {DefaultPartition} +
                               (set i | 0 <= i < |config.fullColumns| :: config.fullColumns[i])
      ensures r && old(CreatesPartitions()) ==>
        writeBuffer == [] && collectedOps == 0 &&
        location.data == ApplyBatch(old(location.data),
                                    old(writeBuffer) + VersionWrites(config.version) + SequenceWrites(config.sequences))
      // A throw after the families are created leaves partial state: the puts staged so far stay
      // in the buffer, the count stays, and the new families' handles are never released.
      ensures old(CreatesPartitions()) && !r ==>
        columnHandles == config.fullColumns && collectedOps == old(collectedOps) &&
        var nv := StagedCount(location.faults, Keys(config.version));
        var ns := StagedCount(location.faults, Keys(config.sequences));
        writeBuffer == if nv < |config.version| then old(writeBuffer) + VersionWrites(config.version[..nv])
                       else old(writeBuffer) + VersionWrites(config.version) + SequenceWrites(config.sequences[..ns])
      // A store it creates holds the initial counters, and holds the expected version exactly
      // when every version value fits in a uint32_t.
      ensures r && old(CreatesPartitions()) &&
              DistinctKeys(config.version) && DistinctKeys(config.sequences) &&
              DisjointKeys(config.version, config.sequences) ==>
        (VersionMatches(config.version, location.data) <==> VersionFits(config.version)) &&
        SequencesStored(config.sequences, location.data)
    {
      var o := CreateDb();
      r := Action(o);
      if old(ProbeFindsStore()) {
        assert r && unchanged(location);
      } else if !old(CreatesPartitions()) {
        assert !r && location.data == old(location.data);
      } else if r {
        assert config.sequences[..|config.sequences|] == config.sequences;
        assert location.data == ApplyBatch(old(location.data),
                                           old(writeBuffer) + VersionWrites(config.version) + SequenceWrites(config.sequences));
      }
      if r && old(CreatesPartitions()) && DistinctKeys(config.version) && DistinctKeys(config.sequences) &&
         DisjointKeys(config.version, config.sequences) {
        assert (VersionMatches(config.version, location.data) <==> VersionFits(config.version)) &&
               SequencesStored(config.sequences, location.data) by {
          assert config.sequences[..|config.sequences|] == config.sequences;
          CreatedStoreVerifies(old(location.data), old(writeBuffer), config.version, config.sequences);
          CommitStoresCounters(old(location.data), old(writeBuffer) + VersionWrites(config.version), config.sequences);
        }
      }
    }

    method Open() returns (r: bool)
      requires Valid()
      modifies this`storage, this`columnHandles, this`version, this`sequences
      ensures Valid()
      ensures r <==> old(OpenDbOutcome()) == Returned(true)
      // The ledgers are reread from the configuration on every call, before the store is opened.
      ensures version == config.version
      ensures r ==> IsOpened() && VersionMatches(config.version, location.data)
      // Every counter key is replaced by its stored value; the counters keep their placeholders.
      ensures r ==> |sequences| == |config.sequences| &&
                    forall i :: 0 <= i < |config.sequences| ==>
                      sequences[i] == (CounterAsKey(UnpackSize(location.data[MetaCell(config.sequences[i].0)])),
                                       config.sequences[i].1)
      // The open fails: storage and handles stay, and the counters are the configured ones.
      ensures !old(OpensStore()) ==>
        !r && storage == old(storage) && columnHandles == old(columnHandles) && sequences == config.sequences
      // A verification failure is not undone: the controller stays open though open() is false.
      ensures old(OpensStore()) ==> IsOpened() && columnHandles == config.Columns(Probe)
      ensures old(OpensStore()) ==>
        if VerifyOutcome(location.faults, location.data, config.version).Fatal? then
          sequences == config.sequences
        else
          sequences == Reload(location.faults, location.data, config.sequences)
    {
      var o := OpenDb();
      r := Action(o);
      if r {
        ReloadRenamesEveryKey(location.faults, location.data, config.sequences);
      }
    }

    method Flush() returns (r: bool)
      requires Valid()
      modifies this`writeBuffer, this`collectedOps, location`data, location`flushed
      ensures r <==> old(FlushStorageOutcome()) == Returned(true)
      ensures old(IsClosed()) ==> !r && unchanged(this) && unchanged(location)
      ensures FlushStorageEffect()
    {
      var o := FlushStorage();
      r := Action(o);
    }

    method Close() returns (r: bool)
      requires Valid()
      modifies this`writeBuffer, this`collectedOps, this`columnHandles, this`storage, location`data, location`flushed
      ensures Valid()
      ensures r <==> old(FlushStorageOutcome()) == Returned(true)
      ensures FlushStorageEffect()
      ensures old(FlushStorageOutcome()).Returned? ==> IsClosed() && columnHandles == []
      // A throw inside the flush skips the release: the controller stays open with its handles.
      ensures old(FlushStorageOutcome()).Thrown? ==> storage == old(storage) && columnHandles == old(columnHandles)
      // Closing a closed controller is a well-defined failure.
      ensures old(IsClosed()) ==> !r && IsClosed()
    {
      var o := ShutdownDb();
      r := Action(o);
    }
  }

  /** The configuration of a plugin "alpha" with partitions "meta" and "data" beside the default
      one, version "schema" = 1 and counter "next_id" = 0. */
  function AlphaConfig(): Config
  {
    Config([DefaultPartition, "meta", "data"], ["meta", "data"], [("schema", 1)], [("next_id", 0)])
  }

  /** The lifecycle of plugin "alpha" at a location that holds no store yet, on an engine that
      never fails: what the contracts above let a caller conclude. The create phase is here,
      and the rest is in AlphaReopen. */
  method AlphaLifecycle()
  {
    var disk := new Disk({}, false, {}, map[]);
    var ps := new PersistentStorage(AlphaConfig(), disk);

    assert ps.CreatesPartitions();
    assert StagedCount(disk.faults, Keys(AlphaConfig().version)) == 1;
    assert StagedCount(disk.faults, Keys(AlphaConfig().sequences)) == 1;
    assert ps.CreateDbOutcome() == Returned(true);
    var created := ps.Create();
    assert created;
    assert ps.IsClosed();  // create() leaves the controller closed
    assert disk.partitions == {DefaultPartition, "meta", "data"} by {
      assert AlphaConfig().fullColumns[0] == "meta" && AlphaConfig().fullColumns[1] == "data";
    }
    assert UnpackU32(disk.data[MetaCell("schema")]) == 1;
    assert UnpackSize(disk.data[MetaCell("next_id")]) == 0;
    assert ps.config == AlphaConfig() && disk.present && disk.faults == {};
    assert ps.writeBuffer == [] && ps.collectedOps == 0;
    AlphaReopen(ps);
  }

  /** Opening the store of plugin "alpha" that create() has just made. */
  method AlphaReopen(ps: PersistentStorage)
    requires ps.Valid() && ps.IsClosed() && ps.config == AlphaConfig()
    requires ps.location.faults == {} && ps.location.present
    requires ps.location.partitions == {DefaultPartition, "meta", "data"}
    requires MetaCell("schema") in ps.location.data && UnpackU32(ps.location.data[MetaCell("schema")]) == 1
    requires MetaCell("next_id") in ps.location.data && UnpackSize(ps.location.data[MetaCell("next_id")]) == 0
    requires ps.writeBuffer == [] && ps.collectedOps == 0
    modifies ps, ps.location
  {
    var reopened := ps.Open();
    assert reopened && ps.IsOpened();
    assert ps.sequences[0] == (CounterAsKey(0), 0);
    assert ps.sequences == [(CounterAsKey(0), 0)];  // the key, not the counter, took the stored value
    AlphaCommit(ps);
    AlphaClose(ps);
  }

  /** On the opened store of plugin "alpha": the plugin stages one put, and flush() commits it
      together with the counter record, leaving the store open with nothing pending. */
  method AlphaCommit(ps: PersistentStorage)
    requires ps.Valid() && ps.IsOpened() && ps.location.faults == {}
    requires ps.sequences == [(CounterAsKey(0), 0)]
    requires ps.writeBuffer == [] && ps.collectedOps == 0
    modifies ps, ps.location
    ensures ps.Valid() && ps.IsOpened() && ps.location.faults == {}
    ensures ps.writeBuffer == [] && ps.collectedOps == 0
    ensures Cell("data", "k") in ps.location.data && ps.location.data[Cell("data", "k")] == [7]
    ensures MetaCell(CounterAsKey(0)) in ps.location.data
    ensures UnpackSize(ps.location.data[MetaCell(CounterAsKey(0))]) == 0
  {
    var cell := Cell("data", "k");
    ps.Stage(cell, [7]);
    ghost var before := ps.location.data;
    ghost var staged := ps.writeBuffer;
    assert StagedCount(ps.location.faults, Keys(ps.sequences)) == 1;
    assert FlushCount(ps.location.faults, ps.columnHandles) == |ps.columnHandles|;
    assert ps.FlushStorageOutcome() == Returned(true);
    var flushed := ps.Flush();
    assert flushed;
    assert ps.writeBuffer == [] && ps.collectedOps == 0;
    assert cell in ps.location.data && ps.location.data[cell] == [7] by {
      CommitKeepsStagedPut(before, staged, ps.sequences, cell);
    }
    assert UnpackSize(ps.location.data[MetaCell(CounterAsKey(0))]) == 0 by {
      CommitStoresCounters(before, staged, ps.sequences);
    }
    assert ps.storage == old(ps.storage);
  }

  /** Closing an opened store with nothing pending succeeds and closes the controller; closing
      it again is false. */
  method AlphaClose(ps: PersistentStorage)
    requires ps.Valid() && ps.IsOpened() && ps.location.faults == {} && ps.collectedOps == 0
    modifies ps, ps.location
  {
    assert FlushCount(ps.location.faults, ps.columnHandles) == |ps.columnHandles|;
    assert ps.FlushStorageOutcome() == Returned(true);
    var closed := ps.Close();
    assert closed && ps.IsClosed();
    var closedAgain := ps.Close();
    assert !closedAgain;
  }
}
