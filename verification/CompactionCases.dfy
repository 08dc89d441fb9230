// What compaction as written does to each record, and stores that show where it and the
// footprint of a reopened engine object part from what is meant
// (lib/ondisk/StorageEngine.hpp:420, lib/ondisk/IndexTable.hpp:197-205).

module CompactionCases {
  import opened Wrappers
  import opened Serialization
  import opened Records
  import opened LogDevices
  import opened IndexTables
  import opened Engines
  import opened Compaction
  import opened EngineRuns
  import opened Extents

  lemma RefusedPastEnd(d: Device, r: IndexRecord, now: int)
    requires d.blockSize > 0 && r.bytes > 0 && r.block + BlocksFor(r.bytes, d.blockSize) > d.blocks
    ensures LoadExtent(d, r, now) == Refused(InvalidArgument)
  {
  }

  /**
   * A load after compaction gives the record as before exactly when the length the new index
   * has for it is inside the new device; otherwise it is refused.
   */
  lemma CompactedLoads(e: Engine, s: Spec, order: seq<nat>, mode: Mode, i: nat, now: int)
    requires Refines(e, s) && IsOrder(order, e.table.entries) && CompactionRoom(e, order)
    requires i < |order| && order[i] != INVALID_HANDLE
    ensures order[i] in s.m
    ensures Load(Compact(e, order, mode).1, order[i], now)
            == if Fits(RecordsOf(e.table.entries, order), i, e.dev.blockSize, mode)
               then Loaded(Cleanup(s.m[order[i]], now))
               else Refused(InvalidArgument)
  {
    CompactedEntries(e, s, order, mode);
    CompactedInv(e, s, order, mode);
    AllEntriesGive(e, s, order, mode);
    var rs := RecordsOf(e.table.entries, order);
    var e1 := Compact(e, order, mode).1;
    assert HasNewEntry(e1, rs, order, i, mode);
    assert EntryGives(CopyAll(e.dev, rs, StartCopy(e.dev.blockSize), mode).1, rs, i, s.m[order[i]], mode);
    hide Refines;
    hide Compact;
    hide CopyAll;
    hide CompactionRoom;
    hide Decode;
    hide BlocksFor;
    hide CopyLength;
    hide LoadExtent;
    if Fits(rs, i, e.dev.blockSize, mode) {
      LoadDecodes(e1, order[i], now);
    } else {
      LengthNotEmpty(rs, i, mode);
      RefusedPastEnd(e1.dev, e1.table.entries[order[i]], now);
    }
  }

  lemma LengthNotEmpty(rs: seq<IndexRecord>, i: nat, mode: Mode)
    requires i < |rs| && rs[i].bytes > 0
    ensures CopyLength(rs, i, 0, mode) > 0
  {
    MaxBytesBounds(rs[..i + 1], 0);
    assert rs[..i + 1][i] == rs[i];
  }

  // ---------------------------------------------------------------------------
  // Stores of the root and one or two long records

  /** A record that prints to 5000 bytes, three blocks of 2048. */
  function LongRecord(key: nat): Rec {
    NewRec(key, Zeros(4952))
  }

  lemma LongLength(key: nat)
    requires key < TWO64
    ensures Cleanup(LongRecord(key), 0) == LongRecord(key)
    ensures TypedRec(LongRecord(key)) && Bijective(LongRecord(key).children) && AreOrders(NO_ORDERS, LongRecord(key))
    ensures |PrintRec(LongRecord(key), NO_ORDERS)| == 5000
  {
    assert ExpiredProps(LongRecord(key), 0) == {};
    assert |PrintHead(LongRecord(key))| == 4976;
    assert |PrintBody(LongRecord(key), NO_ORDERS)| == 24;
    hide PrintHead;
    hide PrintBody;
  }

  function SaveLong(key: nat): Op {
    SaveOp(LongRecord(key), 0, NO_ORDERS)
  }

  lemma RoomForLong(d: Device)
    requires d.blockSize == 2048 && d.blocks < 1000
    ensures Room(d, 5000) && BlocksFor(5000, 2048) == 3 && BlocksFor(48, 2048) == 1
  {
  }

  /** Saving one: three blocks more, and one entry. */
  lemma LongSaved(e: Engine, s: Spec, key: nat)
    requires Refines(e, s) && Tidy(e) && e.dev.blockSize == 2048 && e.dev.blocks < 1000 && INVALID_HANDLE < key < TWO64
    ensures Asked(e, SaveLong(key))
    ensures var e1 := Step(e, SaveLong(key)).1;
            && Refines(e1, s.(m := s.m[key := LongRecord(key)])) && Tidy(e1)
            && e1.dev.blockSize == 2048 && e1.dev.blocks == e.dev.blocks + 3
            && e1.table.entries == e.table.entries[key := IndexRecord(key, e.dev.blocks, 5000)]
  {
    LongLength(key);
    RoomForLong(e.dev);
    hide PrintRec;
    hide TypedRec;
    hide Bijective;
    hide LongRecord;
    hide Cleanup;
    SaveStepIs(e, LongRecord(key));
    hide Refines;
    hide Tidy;
    hide Room;
    StepRefines(e, s, SaveLong(key));
    StepTidy(e, s, SaveLong(key));
  }

  lemma SaveStepIs(e: Engine, r: Rec)
    requires Inv(e) && Asked(e, SaveOp(r, 0, NO_ORDERS)) && Cleanup(r, 0) == r
    ensures var e1 := Step(e, SaveOp(r, 0, NO_ORDERS)).1;
            var n := |PrintRec(r, NO_ORDERS)|;
            && e1.dev.blockSize == e.dev.blockSize && e1.dev.blocks == e.dev.blocks + BlocksFor(n, e.dev.blockSize)
            && e1.table.entries == e.table.entries[r.key := IndexRecord(r.key, e.dev.blocks, n)]
  {
    DecodeSaved(e.dev, r, NO_ORDERS, r.key);
    AppendAligned(e.dev, PrintRec(r, NO_ORDERS), 0);
    hide PrintRec;
    hide Decode;
    hide Append;
    hide BlocksFor;
    hide Padding;
  }

  const TWO_RECORDS: Spec := NEW_STORE.(m := NEW_STORE.m[2 := LongRecord(2)])
  const THREE_RECORDS: Spec := NEW_STORE.(m := NEW_STORE.m[2 := LongRecord(2)][3 := LongRecord(3)])

  /** A new store with one long record saved behind the root. */
  ghost function TwoRecords(e: Engine, opts: Options): (e1: Engine)
    requires IsNew(e, opts) && opts.blockSize == 2048
    ensures Refines(e1, TWO_RECORDS) && Tidy(e1) && e1.dev.blockSize == 2048 && e1.dev.blocks == 4
    ensures e1.table.entries == map[ROOT_HANDLE := ROOT_ENTRY, 2 := IndexRecord(2, 1, 5000)]
  {
    NewStoreOpens(e, opts, AsWritten);
    LongSaved(NewStore(e, opts, AsWritten), NEW_STORE, 2);
    Step(NewStore(e, opts, AsWritten), SaveLong(2)).1
  }

  /** The same with another long record behind it. */
  ghost function ThreeRecords(e: Engine, opts: Options): (e1: Engine)
    requires IsNew(e, opts) && opts.blockSize == 2048
    ensures Refines(e1, THREE_RECORDS) && Tidy(e1) && e1.dev.blockSize == 2048 && e1.dev.blocks == 7
    ensures e1.table.entries == map[ROOT_HANDLE := ROOT_ENTRY, 2 := IndexRecord(2, 1, 5000),
              3 := IndexRecord(3, 4, 5000)]
  {
    LongSaved(TwoRecords(e, opts), TWO_RECORDS, 3);
    Step(TwoRecords(e, opts), SaveLong(3)).1
  }

  lemma TwoLengths(a: IndexRecord, b: IndexRecord)
    requires a.bytes == 5000 && b.bytes == 48
    ensures var rs := [a, b];
            && SumBlocks(rs, 2048) == 4 && SumBlocks(rs[..1], 2048) == 3
            && CopyLength(rs, 1, 0, AsWritten) == 5000 && !Fits(rs, 1, 2048, AsWritten)
  {
    var rs := [a, b];
    assert rs[..1] == [a] && rs[..2] == rs && rs[1..] == [b] && [a][1..] == [] && [b][1..] == [];
    assert SumBlocks([b], 2048) == 1 && SumBlocks([a], 2048) == 3;
    assert MaxBytes(rs, 0) == MaxBytes([b], 5000) == MaxBytes([], 5000);
  }

  /** Options of an open that compacts a store without free blocks. */
  const EAGER: Options := Options(2048, true, 0, 1, 1)

  function Reopened(order: seq<nat>, mode: Mode): Op {
    ReopenOp(order, true, EAGER, order, mode)
  }

  /** A store that is all live records, closed and opened by a new object: it is compacted. */
  lemma ReopenCompacts(e: Engine, s: Spec, order: seq<nat>, mode: Mode)
    requires Refines(e, s) && e.dev.blockSize == 2048 && IsOrder(order, e.table.entries)
    requires SumBlocks(RecordsOf(e.table.entries, order), 2048) == e.dev.blocks < TWO32
    ensures var op := Reopened(order, mode);
            && Asked(e, op) && Refines(Reloaded(e, op), s)
            && Reloaded(e, op).table.entries == e.table.entries && Reloaded(e, op).dev == e.dev
            && NeedsCompaction(Reloaded(e, op), EAGER)
            && Step(e, op).1 == Compact(Reloaded(e, op), order, mode).1
            && Step(e, op).0 == Done(Compact(Reloaded(e, op), order, mode).0)
  {
    var op := Reopened(order, mode);
    assert Inv(e);
    hide Refines;
    hide Inv;
    ReopenSteps(e, op);
    hide Step;
    hide Compact;
    hide BlocksFor;
    ReloadedRefines(e, s, op);
    hide CompactionFits;
    hide CompactionRoom;
    FullFootprint(e, op);
    hide Reloaded;
  }

  lemma FullFootprint(e: Engine, op: Op)
    requires op.ReopenOp? && op.fresh_ && op.opts == EAGER && IsOrder(op.order, e.table.entries)
    requires SumBlocks(RecordsOf(e.table.entries, op.order), 2048) == e.dev.blocks < TWO32
    ensures NeedsCompaction(Reloaded(e, op), EAGER) && Reloaded(e, op).dev == e.dev
  {
    var rs := RecordsOf(e.table.entries, op.order);
    LoadAllFootprint(EMPTY_TABLE.(blockSize := 2048), rs);
    WrappedSum(0, SumBlocks(rs, 2048), e.dev.blocks);
    hide IsOrder;
    hide RecordsOf;
    hide SumBlocks;
    hide LoadAll;
    hide Reloaded;
    hide NeedsCompaction;
    ReloadedIs(e, op);
    FullIsCompacted(Reloaded(e, op));
  }

  lemma ReloadedIs(e: Engine, op: Op)
    requires op.ReopenOp? && op.fresh_ && op.opts == EAGER && IsOrder(op.order, e.table.entries)
    ensures Reloaded(e, op).dev == e.dev
    ensures Reloaded(e, op).table == LoadAll(EMPTY_TABLE.(blockSize := 2048), RecordsOf(e.table.entries, op.order))
  {
    hide LoadAll;
    hide PrintIndexFile;
    hide IsOrder;
    hide RecordsOf;
  }

  lemma FullIsCompacted(e: Engine)
    requires e.table.blockFootprint <= e.dev.blocks
    ensures NeedsCompaction(e, EAGER)
  {
  }

  /**
   * A store that loses its root. A long record is saved behind the root; the store is closed and
   * opened again, which compacts it, and compaction as written walks the long record first. The
   * root is given 5000 bytes from block 3 of a device of 4 blocks: open reports success, and
   * every load of the root is refused from then on.
   */
  lemma ShorterAfterLongerIsLost(e: Engine, opts: Options, now: int)
    requires IsNew(e, opts) && opts.blockSize == 2048
    ensures var e1 := TwoRecords(e, opts);
            var op, intended := Reopened([2, ROOT_HANDLE], AsWritten), Reopened([2, ROOT_HANDLE], AsIntended);
            && Refines(e1, TWO_RECORDS) && Asked(e1, op) && Asked(e1, intended)
            && Load(e1, ROOT_HANDLE, now) == Loaded(Cleanup(ROOT_RECORD, now))
            && Step(e1, op).0 == Done(Ok) && Inv(Step(e1, op).1)
            && Load(Step(e1, op).1, ROOT_HANDLE, now) == Refused(InvalidArgument)
            && Inv(Step(e1, intended).1)
            && Load(Step(e1, intended).1, ROOT_HANDLE, now) == Loaded(Cleanup(ROOT_RECORD, now))
  {
    var e1, order := TwoRecords(e, opts), [2, ROOT_HANDLE];
    assert Inv(e1);
    hide Refines;
    hide Tidy;
    hide Fits;
    hide SumBlocks;
    hide CopyLength;
    hide Compact;
    hide Load;
    TwoWalk(e1.table.entries);
    hide TwoRecords;
    hide IsOrder;
    var rs := RecordsOf(e1.table.entries, order);
    TwoLengths(rs[0], rs[1]);
    IntendedAlwaysFits(rs, 1, 2048);
    LoadRefines(e1, TWO_RECORDS, ROOT_HANDLE, now);
    assert rs == [rs[0], rs[1]];
    hide Step;
    hide Asked;
    hide Reloaded;
    hide Inv;
    forall mode | mode == AsWritten || mode == AsIntended
      ensures Asked(e1, Reopened(order, mode)) && Step(e1, Reopened(order, mode)).0 == Done(Ok)
      ensures Inv(Step(e1, Reopened(order, mode)).1)
      ensures Load(Step(e1, Reopened(order, mode)).1, ROOT_HANDLE, now)
              == if Fits(rs, 1, 2048, mode) then Loaded(Cleanup(ROOT_RECORD, now)) else Refused(InvalidArgument)
    {
      ReopenCompacts(e1, TWO_RECORDS, order, mode);
      var e2 := Reloaded(e1, Reopened(order, mode));
      CompactedInv(e2, TWO_RECORDS, order, mode);
      CompactedLoads(e2, TWO_RECORDS, order, mode, 1, now);
    }
  }

  lemma TwoWalk(entries: map<nat, IndexRecord>)
    requires entries == map[ROOT_HANDLE := ROOT_ENTRY, 2 := IndexRecord(2, 1, 5000)]
    ensures IsOrder([2, ROOT_HANDLE], entries)
    ensures RecordsOf(entries, [2, ROOT_HANDLE]) == [IndexRecord(2, 1, 5000), ROOT_ENTRY]
  {
  }

  lemma ThreeLengths(a: IndexRecord, b: IndexRecord, c: IndexRecord)
    requires a.bytes == 5000 && b.bytes == 48 && c.bytes == 5000
    ensures var rs := [a, b, c];
            && SumBlocks(rs, 2048) == 7 && SumBlocks(rs[..0], 2048) == 0 && SumBlocks(rs[..1], 2048) == 3
            && SumBlocks(rs[..2], 2048) == 4
            && forall i :: 0 <= i < 3 ==> CopyLength(rs, i, 0, AsWritten) == 5000 && Fits(rs, i, 2048, AsWritten)
  {
    var rs := [a, b, c];
    assert rs[..0] == [] && rs[..1] == [a] && rs[..2] == [a, b] && rs[..3] == rs;
    ThreeSums(a, b, c);
    ThreeMaxima(a, b, c);
    hide SumBlocks;
    hide MaxBytes;
  }

  lemma ThreeSums(a: IndexRecord, b: IndexRecord, c: IndexRecord)
    requires a.bytes == 5000 && b.bytes == 48 && c.bytes == 5000
    ensures BlocksFor(5000, 2048) == 3 && BlocksFor(48, 2048) == 1
    ensures SumBlocks([], 2048) == 0 && SumBlocks([a], 2048) == 3
    ensures SumBlocks([a, b], 2048) == 4 && SumBlocks([a, b, c], 2048) == 7
  {
    assert [c][1..] == [] && [b][1..] == [] && [a][1..] == [] && [b, c][1..] == [c];
    assert [a, b][1..] == [b] && [a, b, c][1..] == [b, c];
    assert SumBlocks([b], 2048) == 1 && SumBlocks([c], 2048) == 3 && SumBlocks([b, c], 2048) == 4;
  }

  lemma ThreeMaxima(a: IndexRecord, b: IndexRecord, c: IndexRecord)
    requires a.bytes == 5000 && b.bytes == 48 && c.bytes == 5000
    ensures MaxBytes([a], 0) == 5000 && MaxBytes([a, b], 0) == 5000 && MaxBytes([a, b, c], 0) == 5000
  {
    assert [c][1..] == [] && [b][1..] == [] && [a][1..] == [] && [b, c][1..] == [c];
    assert [a, b][1..] == [b] && [a, b, c][1..] == [b, c];
    assert MaxBytes([], 5000) == 5000 && MaxBytes([c], 5000) == 5000 && MaxBytes([b], 5000) == 5000;
  }

  /** The extent of the root runs into that of the third record. */
  predicate RootOverThird(e: Engine) {
    && ROOT_HANDLE in e.table.entries && e.table.entries[ROOT_HANDLE] == IndexRecord(ROOT_HANDLE, 3, 5000)
    && 3 in e.table.entries && e.table.entries[3] == IndexRecord(3, 4, 5000)
    && !Apart(e.table.entries[ROOT_HANDLE], e.table.entries[3], 2048)
  }

  /** The root walked between two long records, by a compaction as written. */
  lemma RootOverlaps(e: Engine)
    requires Refines(e, THREE_RECORDS) && e.dev.blockSize == 2048
    requires e.table.entries == map[ROOT_HANDLE := ROOT_ENTRY, 2 := IndexRecord(2, 1, 5000),
               3 := IndexRecord(3, 4, 5000)]
    ensures IsOrder([2, ROOT_HANDLE, 3], e.table.entries)
    ensures var (status, e2) := Compact(e, [2, ROOT_HANDLE, 3], AsWritten);
            && status == Ok && Refines(e2, THREE_RECORDS) && !Tidy(e2)
            && RootOverThird(e2)
  {
    var order := [2, ROOT_HANDLE, 3];
    ThreeWalk(e.table.entries);
    hide Refines;
    hide Tidy;
    hide Fits;
    hide SumBlocks;
    hide CopyLength;
    hide Compact;
    hide Inv;
    hide BlocksFor;
    hide IsOrder;
    var rs := RecordsOf(e.table.entries, order);
    ThreeLengths(rs[0], rs[1], rs[2]);
    CompactRefines(e, THREE_RECORDS, order, AsWritten);
    CompactTidy(e, THREE_RECORDS, order, AsWritten);
    CompactedEntries(e, THREE_RECORDS, order, AsWritten);
    var e2 := Compact(e, order, AsWritten).1;
    assert HasNewEntry(e2, rs, order, 1, AsWritten) && HasNewEntry(e2, rs, order, 2, AsWritten);
    hide HasNewEntry;
    ThirdUnderRoot();
    hide Apart;
  }

  lemma ThirdUnderRoot()
    ensures !Apart(IndexRecord(ROOT_HANDLE, 3, 5000), IndexRecord(3, 4, 5000), 2048)
  {
    RoomForLong(Device(2048, 0, []));
  }

  /**
   * A store whose extents overlap. With the root walked between two long records, the compaction
   * of an open loses nothing as written, but gives the root three blocks, of which the last two
   * are those of the record behind it.
   */
  lemma ShorterBetweenLongerOverlaps(e: Engine, opts: Options)
    requires IsNew(e, opts) && opts.blockSize == 2048
    ensures var e1, op := ThreeRecords(e, opts), Reopened([2, ROOT_HANDLE, 3], AsWritten);
            && Inv(e1) && Tidy(e1) && Asked(e1, op)
            && var e2 := Step(e1, op).1;
               Step(e1, op).0 == Done(Ok) && Refines(e2, THREE_RECORDS) && !Tidy(e2) && RootOverThird(e2)
  {
    var e1, order := ThreeRecords(e, opts), [2, ROOT_HANDLE, 3];
    assert Inv(e1);
    ThreeWalk(e1.table.entries);
    hide Refines;
    hide Tidy;
    hide Fits;
    hide SumBlocks;
    hide CopyLength;
    hide Compact;
    hide Inv;
    hide BlocksFor;
    hide ThreeRecords;
    hide IsOrder;
    hide Step;
    hide Asked;
    hide Reloaded;
    var rs := RecordsOf(e1.table.entries, order);
    ThreeLengths(rs[0], rs[1], rs[2]);
    ReopenCompacts(e1, THREE_RECORDS, order, AsWritten);
    RootOverlaps(Reloaded(e1, Reopened(order, AsWritten)));
  }

  lemma ThreeWalk(entries: map<nat, IndexRecord>)
    requires entries == map[ROOT_HANDLE := ROOT_ENTRY, 2 := IndexRecord(2, 1, 5000), 3 := IndexRecord(3, 4, 5000)]
    ensures IsOrder([2, ROOT_HANDLE, 3], entries)
    ensures RecordsOf(entries, [2, ROOT_HANDLE, 3]) == [IndexRecord(2, 1, 5000), ROOT_ENTRY, IndexRecord(3, 4, 5000)]
  {
  }

  // ---------------------------------------------------------------------------
  // One engine object opened again and again

  /** Close and open once more, with the same object and no compaction: the footprint counts the root again. */
  lemma CountedAgain(e: Engine, s: Spec, op: Op)
    requires Refines(e, s) && e.table.entries == map[ROOT_HANDLE := ROOT_ENTRY] && e.dev.blocks == 1
    requires op.ReopenOp? && !op.fresh_ && Asked(e, op) && op.order == [ROOT_HANDLE]
               && op.opts.minSize > e.dev.blockSize
    requires e.table.blockFootprint < 1000
    ensures var e1 := Step(e, op).1;
            && Refines(e1, s) && e1.dev == e.dev && e1.table.entries == e.table.entries
            && e1.table.blockFootprint == e.table.blockFootprint + 1
  {
    hide Step;
    hide Represents;
    hide Reloaded;
    hide BlocksFor;
    assert Inv(e) && e.dev.blockSize >= MIN_BLOCK_SIZE by { RootBlockSize(e); }
    ReopenSteps(e, op);
    ReloadedFootprint(e, op);
    ReloadedRefines(e, s, op);
    OneEntry(ROOT_ENTRY, e.dev.blockSize);
    OneBlockFits(48, e.dev.blockSize);
    hide Inv;
    hide Asked;
    ReloadedEntries(e, op);
  }

  lemma RootBlockSize(e: Engine)
    requires Inv(e)
    ensures e.dev.blockSize >= MIN_BLOCK_SIZE
  {
    assert e.dev.blockSize % MIN_BLOCK_SIZE == 0 && e.dev.blockSize > 0;
  }

  lemma ReloadedEntries(e: Engine, op: Op)
    requires op.ReopenOp? && IsOrder(op.order, e.table.entries)
    ensures Reloaded(e, op).dev == e.dev
  {
    hide LoadAll;
    hide PrintIndexFile;
  }

  /**
   * A root-only store closed and opened twice by one engine object: it counts two live blocks on
   * a device of one, a live share of 200 percent, so that no ratio up to that compacts it.
   */
  lemma ReopenedFootprintGrows(e: Engine, opts: Options, again: Options) returns (e1: Engine, e2: Engine)
    requires IsNew(e, opts) && ValidOptions(again) && again.blockSize == opts.blockSize
               && again.minSize > opts.blockSize
    ensures var e0, op := NewStore(e, opts, AsWritten),
              ReopenOp([ROOT_HANDLE], false, again, [ROOT_HANDLE], AsIntended);
            && Asked(e0, op) && e1 == Step(e0, op).1
            && Inv(e1) && Asked(e1, op) && e2 == Step(e1, op).1
            && e2.dev.blocks == 1 && e2.table.blockFootprint == 2
  {
    var e0, op := NewStore(e, opts, AsWritten), ReopenOp([ROOT_HANDLE], false, again, [ROOT_HANDLE], AsIntended);
    NewStoreOpens(e, opts, AsWritten);
    OneEntry(ROOT_ENTRY, opts.blockSize);
    hide NewStore;
    hide Represents;
    hide Tidy;
    hide Inv;
    hide Open;
    hide OpenFiles;
    hide NeedsCompaction;
    CountedAgain(e0, NEW_STORE, op);
    e1 := Step(e0, op).1;
    hide Step;
    CountedAgain(e1, NEW_STORE, op);
    e2 := Step(e1, op).1;
  }
}
