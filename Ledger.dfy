/** The version and sequence ledgers as values: which records a commit stages, what verifying a
    stored version means, and what loading the sequence counters does to them. */
module Ledger {
  import opened Codec
  import opened Engine

  /** Why a fatal check (check_status or FC_ASSERT) went off. */
  datatype Fault = DataAccessFailed | VersionMismatch

  /** How a helper that returns nothing ends: normally, or by a fatal check throwing. */
  datatype Completion = Normal | Fatal(fault: Fault)

  /** rocksdb_types::key_value_pair, the element type of both ledgers: a record key and a
      size_t value. */
  type KeyValuePair = (Key, u64)

  /** A version ledger: each record key with the value it must hold. */
  type VersionLedger = seq<KeyValuePair>

  /** A sequence ledger: each counter key with its value. */
  type SequenceLedger = seq<KeyValuePair>

  function Keys<V>(entries: seq<(Key, V)>): (r: seq<Key>)
    ensures |r| == |entries|
    ensures forall i :: 0 <= i < |r| ==> r[i] == entries[i].0
  {
    seq(|entries|, i requires 0 <= i < |entries| => entries[i].0)
  }

  /** How many leading calls succeed before the first failing one. */
  function Leading(oks: seq<bool>): (n: nat)
    ensures n <= |oks|
    ensures forall j :: 0 <= j < n ==> oks[j]
    ensures n < |oks| ==> !oks[n]
  {
    if oks == [] || !oks[0] then 0 else 1 + Leading(oks[1..])
  }

  /** How many of these keys are put into the write buffer before a put fails. */
  function StagedCount(faults: set<Call>, keys: seq<Key>): (n: nat)
    ensures n <= |keys|
    ensures forall j :: 0 <= j < n ==> PutIntoBatch(keys[j]) !in faults
    ensures n < |keys| ==> PutIntoBatch(keys[n]) in faults
  {
    var oks := seq(|keys|, i requires 0 <= i < |keys| => PutIntoBatch(keys[i]) !in faults);
    assert forall j :: 0 <= j < |keys| ==> oks[j] == (PutIntoBatch(keys[j]) !in faults);
    Leading(oks)
  }

  /** How many of these column families are flushed before a flush fails. */
  function FlushCount(faults: set<Call>, handles: seq<string>): (n: nat)
    ensures n <= |handles|
    ensures forall j :: 0 <= j < n ==> FlushPartition(handles[j]) !in faults
    ensures n < |handles| ==> FlushPartition(handles[n]) in faults
  {
    var oks := seq(|handles|, i requires 0 <= i < |handles| => FlushPartition(handles[i]) !in faults);
    assert forall j :: 0 <= j < |handles| ==> oks[j] == (FlushPartition(handles[j]) !in faults);
    Leading(oks)
  }

  /** The puts store_sequence_ids stages: one record per counter, in ledger order. */
  function SequenceWrites(sequences: SequenceLedger): (r: seq<Write>)
    ensures |r| == |sequences|
    ensures forall i :: 0 <= i < |r| ==> r[i] == Put(MetaCell(sequences[i].0), PackSize(sequences[i].1))
  {
    seq(|sequences|, i requires 0 <= i < |sequences| => Put(MetaCell(sequences[i].0), PackSize(sequences[i].1)))
  }

  /** The puts save_store_version stages: one record per version entry, in ledger order, each
      value packed as a uint32_t and so cut down to its low 32 bits. */
  function VersionWrites(version: VersionLedger): (r: seq<Write>)
    ensures |r| == |version|
    ensures forall i :: 0 <= i < |r| ==> r[i] == Put(MetaCell(version[i].0), PackU32(Narrow32(version[i].1)))
  {
    seq(|version|, i requires 0 <= i < |version| => Put(MetaCell(version[i].0), PackU32(Narrow32(version[i].1))))
  }

  /** Every version value of the ledger survives the cut to uint32_t. */
  predicate VersionFits(version: VersionLedger)
  {
    forall i :: 0 <= i < |version| ==> version[i].1 < 0x1_0000_0000
  }

  /** Every expected version record is stored and decodes to the expected value. */
  ghost predicate VersionMatches(version: VersionLedger, data: map<Cell, Value>)
  {
    forall i :: 0 <= i < |version| ==>
      MetaCell(version[i].0) in data && UnpackU32(data[MetaCell(version[i].0)]) == version[i].1
  }

  /** verify_store_version over a store: the first entry that cannot be read, or reads another
      value, throws; a read failure and a missing key both fail check_status. */
  function VerifyOutcome(faults: set<Call>, data: map<Cell, Value>, version: VersionLedger): (c: Completion)
    ensures c.Normal? <==>
      (forall i :: 0 <= i < |version| ==> GetKey(version[i].0) !in faults) && VersionMatches(version, data)
  {
    if version == [] then Normal
    else
      match Read(faults, data, version[0].0)
      case Found(v) =>
        if UnpackU32(v) == version[0].1 then
          var c := VerifyOutcome(faults, data, version[1..]);
          assert forall i :: 1 <= i < |version| ==> version[1..][i - 1] == version[i];
          c
        else Fatal(VersionMismatch)
      case _ => Fatal(DataAccessFailed)
  }

  /** `obj.first = PrimitiveTypeSlice<size_t>::unpackSlice(buffer)` with `first` a std::string:
      the decoded counter goes through std::string's assignment from a single char, so the key
      becomes the one-character string of the counter's low byte. */
  function CounterAsKey(counter: u64): (k: Key)
    ensures |k| == 1 && k[0] as int == counter % 256
  {
    [(counter % 256) as char]
  }

  /** Whether every counter record of the ledger can be read. */
  predicate CountersReadable(faults: set<Call>, data: map<Cell, Value>, sequences: SequenceLedger)
  {
    forall i :: 0 <= i < |sequences| ==> Read(faults, data, sequences[i].0).Found?
  }

  /** One entry after load_seq_identifiers reads its record: the key takes the stored counter
      and the in-memory counter stays; an entry whose record cannot be read is left alone. */
  function Renamed(faults: set<Call>, data: map<Cell, Value>, entry: (Key, u64)): (r: (Key, u64))
    ensures r.1 == entry.1
    ensures Read(faults, data, entry.0).Found? ==>
      r.0 == CounterAsKey(UnpackSize(data[MetaCell(entry.0)]))
    ensures !Read(faults, data, entry.0).Found? ==> r == entry
  {
    match Read(faults, data, entry.0)
    case Found(v) => (CounterAsKey(UnpackSize(v)), entry.1)
    case _ => entry
  }

  /** load_seq_identifiers over a store, as the code does it: it goes through the ledger in order
      and throws at the first record it cannot read, so an entry is renamed exactly when it and
      every entry before it can be read, and the rest are left as they were. */
  function Reload(faults: set<Call>, data: map<Cell, Value>, sequences: SequenceLedger): (r: SequenceLedger)
    ensures |r| == |sequences|
    ensures forall i :: 0 <= i < |r| ==> r[i].1 == sequences[i].1
  {
    seq(|sequences|, i requires 0 <= i < |sequences| =>
      if CountersReadable(faults, data, sequences[..i]) then Renamed(faults, data, sequences[i]) else sequences[i])
  }

  /** A step of the load that reads its record renames that entry, and the prefix read so far grows by one. */
  lemma ReloadReads(faults: set<Call>, data: map<Cell, Value>, sequences: SequenceLedger, i: nat)
    requires i < |sequences| && CountersReadable(faults, data, sequences[..i])
    requires Read(faults, data, sequences[i].0).Found?
    ensures Reload(faults, data, sequences)[i] == (CounterAsKey(UnpackSize(data[MetaCell(sequences[i].0)])), sequences[i].1)
    ensures CountersReadable(faults, data, sequences[..i + 1])
  {
  }

  /** A step of the load whose record cannot be read throws, and that entry and every later one are left as they were. */
  lemma ReloadStops(faults: set<Call>, data: map<Cell, Value>, sequences: SequenceLedger, i: nat)
    requires i < |sequences| && CountersReadable(faults, data, sequences[..i])
    requires !Read(faults, data, sequences[i].0).Found?
    ensures forall j :: i <= j < |sequences| ==> Reload(faults, data, sequences)[j] == sequences[j]
    ensures !CountersReadable(faults, data, sequences)
  {
  }

  /** When every record can be read, loading renames every key to its stored counter: the
      in-memory counters are the placeholders they were, not the stored values. */
  lemma ReloadRenamesEveryKey(faults: set<Call>, data: map<Cell, Value>, sequences: SequenceLedger)
    requires CountersReadable(faults, data, sequences)
    ensures forall i :: 0 <= i < |sequences| ==>
      Reload(faults, data, sequences)[i] == (CounterAsKey(UnpackSize(data[MetaCell(sequences[i].0)])), sequences[i].1)
  {
  }

  predicate DistinctKeys<V>(entries: seq<(Key, V)>)
  {
    forall i, j :: 0 <= i < j < |entries| ==> entries[i].0 != entries[j].0
  }

  /** No version record shares its key with a sequence record. */
  predicate DisjointKeys(version: VersionLedger, sequences: SequenceLedger)
  {
    forall i, j :: 0 <= i < |version| && 0 <= j < |sequences| ==> version[i].0 != sequences[j].0
  }

  /** Every counter of the ledger is stored and decodes to its in-memory value. */
  ghost predicate SequencesStored(sequences: SequenceLedger, data: map<Cell, Value>)
  {
    forall i :: 0 <= i < |sequences| ==>
      MetaCell(sequences[i].0) in data && UnpackSize(data[MetaCell(sequences[i].0)]) == sequences[i].1
  }

  /** A put that no later put of the batch overrides is what the store holds afterwards. */
  lemma {:induction false} LastPutWins(data: map<Cell, Value>, before: seq<Write>, w: Write, after: seq<Write>)
    requires forall j :: 0 <= j < |after| ==> after[j].cell != w.cell
    ensures w.cell in ApplyBatch(data, before + [w] + after)
    ensures ApplyBatch(data, before + [w] + after)[w.cell] == w.value
  {
    var front := before + [w];
    assert front[..|front| - 1] == before;
    assert LastWrite(front, w.cell) == Some(w.value);
    LastWriteAppend(front, after, w.cell);
    ApplyBatchAt(data, front + after, w.cell);
  }

  /** After flush_write_buffer commits `staged` followed by the sequence records, the store holds
      each counter that no later entry of the ledger repeats, decoding to its in-memory value. */
  lemma CommitStoresCounter(data: map<Cell, Value>, staged: seq<Write>, sequences: SequenceLedger, i: nat)
    requires i < |sequences|
    requires forall j :: i < j < |sequences| ==> sequences[j].0 != sequences[i].0
    ensures MetaCell(sequences[i].0) in ApplyBatch(data, staged + SequenceWrites(sequences))
    ensures UnpackSize(ApplyBatch(data, staged + SequenceWrites(sequences))[MetaCell(sequences[i].0)]) == sequences[i].1
  {
    var sw := SequenceWrites(sequences);
    var w := sw[i];
    assert staged + sw == (staged + sw[..i]) + [w] + sw[i + 1..];
    LastPutWins(data, staged + sw[..i], w, sw[i + 1..]);
    SizeRoundTrip(sequences[i].1);
  }

  /** With distinct counter keys, a commit stores every counter of the ledger. */
  lemma CommitStoresCounters(data: map<Cell, Value>, staged: seq<Write>, sequences: SequenceLedger)
    requires DistinctKeys(sequences)
    ensures SequencesStored(sequences, ApplyBatch(data, staged + SequenceWrites(sequences)))
  {
    forall i | 0 <= i < |sequences|
      ensures MetaCell(sequences[i].0) in ApplyBatch(data, staged + SequenceWrites(sequences))
      ensures UnpackSize(ApplyBatch(data, staged + SequenceWrites(sequences))[MetaCell(sequences[i].0)]) == sequences[i].1
    {
      CommitStoresCounter(data, staged, sequences, i);
    }
  }

  /** A commit lands every staged put: a cell the sequence records do not touch ends with its
      last staged put, or as it was when nothing was staged for it. */
  lemma {:induction false} CommitKeepsStagedPut(data: map<Cell, Value>, staged: seq<Write>, sequences: SequenceLedger, c: Cell)
    requires forall j :: 0 <= j < |sequences| ==> MetaCell(sequences[j].0) != c
    ensures LastWrite(staged, c).Some? ==>
      c in ApplyBatch(data, staged + SequenceWrites(sequences)) &&
      ApplyBatch(data, staged + SequenceWrites(sequences))[c] == LastWrite(staged, c).value
    ensures LastWrite(staged, c).None? ==>
      (c in ApplyBatch(data, staged + SequenceWrites(sequences)) <==> c in data) &&
      (c in data ==> ApplyBatch(data, staged + SequenceWrites(sequences))[c] == data[c])
  {
    var sw := SequenceWrites(sequences);
    assert LastWrite(sw, c).None?;
    LastWriteAppend(staged, sw, c);
    ApplyBatchAt(data, staged + sw, c);
  }

  /** The batch create_db commits leaves each version record holding its value cut to uint32_t,
      whatever else was staged before it. */
  lemma CreatedStoreHolds(data: map<Cell, Value>, staged: seq<Write>, version: VersionLedger,
                          sequences: SequenceLedger, i: nat)
    requires DistinctKeys(version)
    requires DisjointKeys(version, sequences)
    requires i < |version|
    ensures var after := ApplyBatch(data, staged + VersionWrites(version) + SequenceWrites(sequences));
            MetaCell(version[i].0) in after && UnpackU32(after[MetaCell(version[i].0)]) == Narrow32(version[i].1)
  {
    var vw, sw := VersionWrites(version), SequenceWrites(sequences);
    var rest := vw[i + 1..] + sw;
    forall j | 0 <= j < |rest| ensures rest[j].cell != vw[i].cell {
      if j < |vw| - i - 1 {
        assert rest[j] == vw[i + 1 + j];
      } else {
        assert rest[j] == sw[j - (|vw| - i - 1)];
      }
    }
    assert staged + vw + sw == (staged + vw[..i]) + [vw[i]] + rest;
    LastPutWins(data, staged + vw[..i], vw[i], rest);
    U32RoundTrip(Narrow32(version[i].1));
  }

  /** Verifying the store create_db commits against the version it staged passes exactly when
      every version value fits in a uint32_t; a wider one is stored cut down and then fails the
      comparison with its full value. */
  lemma CreatedStoreVerifies(data: map<Cell, Value>, staged: seq<Write>, version: VersionLedger, sequences: SequenceLedger)
    requires DistinctKeys(version)
    requires DisjointKeys(version, sequences)
    ensures VersionMatches(version, ApplyBatch(data, staged + VersionWrites(version) + SequenceWrites(sequences)))
            <==> VersionFits(version)
  {
    forall i | 0 <= i < |version| {
      CreatedStoreHolds(data, staged, version, sequences, i);
    }
  }

  /** A version value too wide for uint32_t never verifies, whatever the store holds: a stored
      record unpacks to a uint32_t, and line 78 compares it with the full value. Together with
      CreatedStoreVerifies, a store create_db commits for such a ledger is refused by every open. */
  lemma WideVersionNeverVerifies(faults: set<Call>, data: map<Cell, Value>, version: VersionLedger, i: nat)
    requires i < |version| && version[i].1 >= 0x1_0000_0000
    ensures VerifyOutcome(faults, data, version).Fatal?
  {
  }

  /** Opening a freshly created store while expecting, for one of its keys, a value other than the
      one stored there throws: verification is fatal against that ledger. */
  lemma CreatedStoreRejectsOtherVersion(faults: set<Call>, data: map<Cell, Value>, staged: seq<Write>,
                                        version: VersionLedger, sequences: SequenceLedger,
                                        expected: VersionLedger, i: nat, j: nat)
    requires DistinctKeys(version)
    requires DisjointKeys(version, sequences)
    requires i < |version| && j < |expected|
    requires expected[j].0 == version[i].0 && expected[j].1 != Narrow32(version[i].1)
    ensures VerifyOutcome(faults, ApplyBatch(data, staged + VersionWrites(version) + SequenceWrites(sequences)), expected).Fatal?
  {
    CreatedStoreHolds(data, staged, version, sequences, i);
  }

  /** load_seq_identifiers does not restore a stored counter: with `next_id` stored as 5 and the
      placeholder 0 in memory, the loaded ledger keeps 0 and renames the key, so the next commit
      writes the counter under the wrong key and `next_id` keeps its old record. */
  lemma ReloadDoesNotRestoreCounter(faults: set<Call>)
    requires GetKey("next_id") !in faults
    ensures var stored := map[MetaCell("next_id") := PackSize(5)];
            var loaded := Reload(faults, stored, [("next_id", 0)]);
            loaded == [(CounterAsKey(5), 0)] &&
            loaded[0].0 != "next_id" && loaded[0].1 != 5 &&
            SequenceWrites(loaded) == [Put(MetaCell(CounterAsKey(5)), PackSize(0))]
  {
    var stored := map[MetaCell("next_id") := PackSize(5)];
    var ledger: SequenceLedger := [("next_id", 0)];
    SizeRoundTrip(5);
    assert ledger[..0] == [];
    assert Reload(faults, stored, ledger)[0] == Renamed(faults, stored, ledger[0]) == (CounterAsKey(5), 0);
  }
}
