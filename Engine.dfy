/** An abstract stand-in for the RocksDB engine behind the controller.

    The store at the configured location is a `Disk` object: whether a store exists there, its
    named partitions (column families), a map from (partition, key) to value, and the trace of
    partition flushes made durable. Every engine call either succeeds or fails; which calls fail
    is fixed by the disk's `faults` set, so the outcome of each call is a parameter of the model
    rather than something the model decides. */
module Engine {
  import opened Codec

  datatype Option<T> = None | Some(value: T)

  type Key = string
  type Value = seq<byte>

  /** RocksDB's implicit partition, where the controller keeps its metadata records. */
  const DefaultPartition: string := "default"

  datatype Cell = Cell(partition: string, key: Key)

  /** Where a metadata record with this key lives. */
  function MetaCell(key: Key): Cell
  {
    Cell(DefaultPartition, key)
  }

  /** One staged mutation of a write batch. */
  datatype Write = Put(cell: Cell, value: Value)

  /** The engine calls whose outcome the fault set decides. */
  datatype Call =
    | PutIntoBatch(key: Key)          // WriteBatch::Put into the write buffer
    | GetKey(key: Key)                // DB::Get, an I/O failure (a missing key is reported apart)
    | WriteBatch                      // DB::Write of the whole batch
    | FlushPartition(name: string)    // DB::Flush of one column family
    | OpenReadOnly                    // DB::OpenForReadOnly
    | OpenCreating                    // DB::Open with create_if_missing
    | CreatePartitions                // DB::CreateColumnFamilies
    | OpenExisting                    // DB::Open with column families

  /** rocksdb::Status, reduced to whether it is ok(). */
  datatype Status = Ok | Failed

  datatype ReadResult = Found(value: Value) | NotFound | ReadFailed

  /** The outcome of DB::Get of a metadata record. */
  function Read(faults: set<Call>, data: map<Cell, Value>, key: Key): (r: ReadResult)
    ensures r.Found? <==> GetKey(key) !in faults && MetaCell(key) in data
    ensures r.Found? ==> r.value == data[MetaCell(key)]
  {
    if GetKey(key) in faults then ReadFailed
    else if MetaCell(key) in data then Found(data[MetaCell(key)])
    else NotFound
  }

  /** The store after a batch is applied atomically: its puts in order, the later one winning. */
  function ApplyBatch(data: map<Cell, Value>, batch: seq<Write>): (r: map<Cell, Value>)
    ensures data.Keys <= r.Keys
    ensures forall c :: c in r && c !in data ==> exists i :: 0 <= i < |batch| && batch[i].cell == c
  {
    if batch == [] then data
    else
      var last := batch[|batch| - 1];
      ApplyBatch(data, batch[..|batch| - 1])[last.cell := last.value]
  }

  /** The value of the last put to `c` in the batch, if any. */
  function LastWrite(batch: seq<Write>, c: Cell): (r: Option<Value>)
    ensures r.None? <==> forall i :: 0 <= i < |batch| ==> batch[i].cell != c
    ensures r.Some? ==> exists i :: 0 <= i < |batch| && batch[i] == Put(c, r.value)
  {
    if batch == [] then None
    else if batch[|batch| - 1].cell == c then
      assert batch[|batch| - 1] == Put(c, batch[|batch| - 1].value);
      Some(batch[|batch| - 1].value)
    else
      var r := LastWrite(batch[..|batch| - 1], c);
      assert forall i :: 0 <= i < |batch| - 1 ==> batch[..|batch| - 1][i] == batch[i];
      r
  }

  /** Applying a batch leaves every cell with the batch's last put to it, and every other cell as it was. */
  lemma {:induction false} ApplyBatchAt(data: map<Cell, Value>, batch: seq<Write>, c: Cell)
    ensures LastWrite(batch, c).Some? ==>
      c in ApplyBatch(data, batch) && ApplyBatch(data, batch)[c] == LastWrite(batch, c).value
    ensures LastWrite(batch, c).None? ==>
      (c in ApplyBatch(data, batch) <==> c in data) &&
      (c in data ==> ApplyBatch(data, batch)[c] == data[c])
  {
    if batch != [] {
      ApplyBatchAt(data, batch[..|batch| - 1], c);
    }
  }

  /** A put in a later part of a batch overrides the earlier part. */
  lemma {:induction false} LastWriteAppend(a: seq<Write>, b: seq<Write>, c: Cell)
    ensures LastWrite(a + b, c) == if LastWrite(b, c).Some? then LastWrite(b, c) else LastWrite(a, c)
  {
    if b != [] {
      assert (a + b)[..|a + b| - 1] == a + b[..|b| - 1];
      assert (a + b)[|a + b| - 1] == b[|b| - 1];
      LastWriteAppend(a, b[..|b| - 1], c);
    } else {
      assert a + b == a;
    }
  }

  class Disk {
    const faults: set<Call>
    var present: bool
    var partitions: set<string>
    var data: map<Cell, Value>
    var flushed: seq<string>

    /** A location that holds a store, with these families besides the default one, or an
        empty location (`present` false), which holds nothing. */
    constructor (faults: set<Call>, present: bool, partitions: set<string>, data: map<Cell, Value>)
      ensures this.faults == faults && this.present == present
      ensures this.partitions == if present then partitions + {DefaultPartition} else {}
      ensures this.data == (if present then data else map[]) && flushed == []
    {
      this.faults := faults;
      this.present := present;
      this.partitions := if present then partitions + {DefaultPartition} else {};
      this.data := if present then data else map[];
      flushed := [];
    }

    /** Whether an open of the existing store with these column families succeeds. RocksDB
        demands that the list name the default family and only families the store has; an open
        for writing must moreover name every family the store has, while a read-only open may
        leave some out. */
    predicate CanOpen(call: Call, columns: seq<string>)
      reads this
    {
      call !in faults && present && DefaultPartition in columns &&
      (forall i :: 0 <= i < |columns| ==> columns[i] in partitions) &&
      (call != OpenReadOnly ==> forall p :: p in partitions ==> p in columns)
    }

    /** Whether DB::Open with create_if_missing and no family list succeeds: such an open names
        only the default family, so RocksDB refuses it on a store that has other families. */
    predicate CanOpenCreating()
      reads this
    {
      OpenCreating !in faults && partitions <= {DefaultPartition}
    }

    /** Whether CreateColumnFamilies succeeds on a store with the `existing` families: RocksDB
        refuses a family that already exists, and so a list that names one family twice. */
    predicate CanCreateIn(existing: set<string>, columns: seq<string>)
    {
      CreatePartitions !in faults &&
      (forall i :: 0 <= i < |columns| ==> columns[i] !in existing) &&
      (forall i, j :: 0 <= i < j < |columns| ==> columns[i] != columns[j])
    }

    /** DB::OpenForReadOnly with column families; on success it hands out one handle per family. */
    method OpenForReadOnly(columns: seq<string>) returns (s: Status, handles: seq<string>)
      ensures s.Ok? <==> CanOpen(OpenReadOnly, columns)
      ensures s.Ok? ==> handles == columns
    {
      if CanOpen(OpenReadOnly, columns) {
        s, handles := Ok, columns;
      } else {
        s, handles := Failed, [];
      }
    }

    /** DB::Open of the existing store with column families. */
    method OpenWithColumns(columns: seq<string>) returns (s: Status, handles: seq<string>)
      ensures s.Ok? <==> CanOpen(OpenExisting, columns)
      ensures s.Ok? ==> handles == columns
    {
      if CanOpen(OpenExisting, columns) {
        s, handles := Ok, columns;
      } else {
        s, handles := Failed, [];
      }
    }

    /** DB::Open with create_if_missing: afterwards a store exists at the location, and a store
        it creates has the default family and no data. */
    method OpenCreatingIfMissing() returns (s: Status)
      modifies this`present, this`partitions
      ensures s.Ok? <==> old(CanOpenCreating())
      ensures present == (old(present) || s.Ok?)
      ensures partitions == if s.Ok? then old(partitions) + {DefaultPartition} else old(partitions)
    {
      if !CanOpenCreating() {
        s := Failed;
      } else {
        s := Ok;
        present := true;
        partitions := partitions + {DefaultPartition};
      }
    }

    /** DB::CreateColumnFamilies; on success it hands out one handle per new family. */
    method CreateColumnFamilies(columns: seq<string>) returns (s: Status, handles: seq<string>)
      modifies this`partitions
      ensures s.Ok? <==> CanCreateIn(old(partitions), columns)
      ensures s.Ok? ==> handles == columns
      ensures partitions == if s.Ok? then old(partitions) + set i | 0 <= i < |columns| :: columns[i]
                            else old(partitions)
    {
      if CanCreateIn(partitions, columns) {
        s, handles := Ok, columns;
        partitions := partitions + set i | 0 <= i < |columns| :: columns[i];
      } else {
        s, handles := Failed, [];
      }
    }

    /** DB::Get of a metadata record. */
    method Get(key: Key) returns (r: ReadResult)
      ensures r == Read(faults, data, key)
    {
      r := Read(faults, data, key);
    }

    /** DB::Write: the whole batch lands, or nothing does. */
    method Write(batch: seq<Write>) returns (s: Status)
      modifies this`data
      ensures s.Ok? <==> WriteBatch !in faults
      ensures data == if s.Ok? then ApplyBatch(old(data), batch) else old(data)
    {
      if WriteBatch in faults {
        s := Failed;
      } else {
        s := Ok;
        data := ApplyBatch(data, batch);
      }
    }

    /** DB::Flush of one column family; a successful flush is recorded in the trace. */
    method Flush(partition: string) returns (s: Status)
      modifies this`flushed
      ensures s.Ok? <==> FlushPartition(partition) !in faults
      ensures flushed == if s.Ok? then old(flushed) + [partition] else old(flushed)
    {
      if FlushPartition(partition) in faults {
        s := Failed;
      } else {
        s := Ok;
        flushed := flushed + [partition];
      }
    }
  }
}
