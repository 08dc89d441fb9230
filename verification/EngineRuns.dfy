// The engine refines a map from keys to records: over every run of saves, removals, loads,
// new keys, and close-and-reopen with or without compaction, it answers as the map does.

module EngineRuns {
  import opened Wrappers
  import opened Serialization
  import opened Records
  import opened LogDevices
  import opened IndexTables
  import opened Engines
  import opened Compaction

  /** Every live record fits the 32-bit arithmetic of an append, padding included. */
  ghost predicate AllPadded(entries: map<nat, IndexRecord>, bs: nat)
    requires bs > 0
  {
    forall k <- entries :: Padded(entries[k].bytes, bs)
  }

  /** What every state of an open engine keeps. */
  ghost predicate Inv(e: Engine) {
    && e.isOpen && e.logExists
    && Aligned(e.dev) && e.dev.blockSize % MIN_BLOCK_SIZE == 0
    && WellKeyed(e.table.entries) && AllPadded(e.table.entries, e.dev.blockSize)
    && |e.table.entries| <= e.dev.blocks
    && ROOT_HANDLE in e.table.entries
    && e.counter < TWO64
  }

  /** The abstract store. */
  datatype Spec = Spec(m: map<nat, Rec>, counter: nat)

  ghost predicate Represents(e: Engine, s: Spec)
    requires e.dev.blockSize > 0
  {
    && e.counter == s.counter
    && e.table.entries.Keys == s.m.Keys
    && forall k {:trigger Decode(e.dev, e.table.entries[k])} :: k in s.m ==>
        Decode(e.dev, e.table.entries[k]) == Some(s.m[k])
  }

  ghost predicate Refines(e: Engine, s: Spec) {
    Inv(e) && Represents(e, s)
  }

  datatype Op =
    | SaveOp(rec: Rec, now: int, orders: Orders)
    | RemoveOp(key: nat)
    | LoadOp(key: nat, now: int)
    | NewKeyOp
    | ReopenOp(order: seq<nat>, fresh_: bool, opts: Options, copyOrder: seq<nat>, mode: Mode)

  datatype Out = Done(status: Status) | NewKeyIs(key: nat) | LoadGave(result: Loaded)

  ghost function ReopenedFiles(e: Engine, order: seq<nat>, fresh_: bool): Engine
    requires IsOrder(order, e.table.entries)
  {
    if fresh_ then Fresh(Close(e, order)) else Close(e, order)
  }

  /** The engine after close and open, before any compaction. */
  ghost function Reloaded(e: Engine, op: Op): Engine
    requires op.ReopenOp? && IsOrder(op.order, e.table.entries)
  {
    var rs := RecordsOf(e.table.entries, op.order);
    e.(index := Some(PrintIndexFile(e.counter, rs)),
       table := LoadAll((if op.fresh_ then EMPTY_TABLE else e.table).(blockSize := op.opts.blockSize), rs))
  }

  /** The live records, one after the other, fit a 32-bit device. */
  ghost predicate CompactionRoom(e: Engine, order: seq<nat>)
    requires e.dev.blockSize > 0 && IsOrder(order, e.table.entries)
  {
    SumBlocks(RecordsOf(e.table.entries, order), e.dev.blockSize) < TWO32
  }

  /** The lengths compaction gives to the records stay within the new device. */
  ghost predicate AllFit(e: Engine, order: seq<nat>, mode: Mode)
    requires e.dev.blockSize > 0 && IsOrder(order, e.table.entries)
  {
    var rs := RecordsOf(e.table.entries, order);
    forall i :: 0 <= i < |rs| ==> Fits(rs, i, e.dev.blockSize, mode)
  }

  ghost predicate CompactionFits(e: Engine, order: seq<nat>, mode: Mode)
    requires e.dev.blockSize > 0 && IsOrder(order, e.table.entries)
  {
    CompactionRoom(e, order) && AllFit(e, order, mode)
  }

  /**
   * What any step asks of its environment, compaction apart: a save has room, the root is kept,
   * the block size stays.
   */
  ghost predicate Asked(e: Engine, op: Op)
    requires e.dev.blockSize > 0
  {
    match op
    case SaveOp(rec, now, orders) =>
      && TypedRec(rec) && Bijective(rec.children) && rec.key != INVALID_HANDLE
      && AreOrders(orders, Cleanup(rec, now))
      && Room(e.dev, |PrintRec(Cleanup(rec, now), orders)|)
    case RemoveOp(key) => key != ROOT_HANDLE
    case LoadOp(_, _) => true
    case NewKeyOp => e.counter + 1 < TWO64
    case ReopenOp(order, fresh_, opts, copyOrder, mode) =>
      && ValidOptions(opts) && opts.blockSize == e.dev.blockSize
      && IsOrder(order, e.table.entries) && IsOrder(copyOrder, e.table.entries)
  }

  /**
   * The condition under which a step is right: what it asks and, when it compacts, room for the
   * live records and lengths that fit. Lengths of line 410 always fit (IntendedFit), and there
   * is always room when live extents are disjoint (Extents.TidyHasRoom).
   */
  ghost predicate Guard(e: Engine, op: Op)
    requires e.dev.blockSize > 0
  {
    Asked(e, op) && (op.ReopenOp? && NeedsCompaction(Reloaded(e, op), op.opts) ==>
        CompactionFits(e, op.copyOrder, op.mode))
  }

  lemma IntendedFit(e: Engine, order: seq<nat>)
    requires e.dev.blockSize > 0 && IsOrder(order, e.table.entries)
    ensures AllFit(e, order, AsIntended)
  {
    var rs := RecordsOf(e.table.entries, order);
    forall i | 0 <= i < |rs| ensures Fits(rs, i, e.dev.blockSize, AsIntended) {
      IntendedAlwaysFits(rs, i, e.dev.blockSize);
    }
  }

  /** Loading the index file that close wrote puts the same entries back. */
  lemma ClosedIndexLoads(counter: nat, entries: map<nat, IndexRecord>, order: seq<nat>, e1: Engine, bs: nat)
    requires counter < TWO64 && WellKeyed(entries) && IsOrder(order, entries) && 2 * |order| < TWO64
    requires e1.index == Some(PrintIndexFile(counter, RecordsOf(entries, order)))
    requires e1.table.entries == entries || e1.table == EMPTY_TABLE
    ensures OpenIndexTable(e1, bs)
            == Outcome(Ok, e1.(counter := counter,
                table := LoadAll(e1.table.(blockSize := bs), RecordsOf(entries, order))))
    ensures LoadAll(e1.table.(blockSize := bs), RecordsOf(entries, order)).entries == entries
  {
    var t := e1.table.(blockSize := bs);
    IndexFileRoundTrip(counter, entries, order, t);
    assert t.entries + entries == entries;
    hide ParseIndexFile;
    hide PrintIndexFile;
  }

  /** Close and reopen, up to compaction: the same device, counter and entries. */
  lemma ReopenKeepsFiles(e: Engine, order: seq<nat>, fresh_: bool, opts: Options)
    requires Inv(e) && ValidOptions(opts) && opts.blockSize == e.dev.blockSize && IsOrder(order, e.table.entries)
    ensures var o := OpenFiles(ReopenedFiles(e, order, fresh_), opts);
            var rs := RecordsOf(e.table.entries, order);
            o == Outcome(Ok, e.(index := Some(PrintIndexFile(e.counter, rs)),
                                table := LoadAll((if fresh_ then EMPTY_TABLE else e.table)
                                                 .(blockSize := opts.blockSize), rs)))
            && o.engine.table.entries == e.table.entries
  {
    var e1 := ReopenedFiles(e, order, fresh_);
    OpenAligned(e.dev);
    OrderLength(order, e.table.entries);
    var e2 := e1.(dev := OpenDevice(opts.blockSize, e1.dev.file), logExists := true);
    ClosedIndexLoads(e.counter, e.table.entries, order, e2, opts.blockSize);
    hide PrintIndexFile;
    hide OpenIndexTable;
    hide LoadAll;
    hide CreateRoot;
  }

  // ---------------------------------------------------------------------------
  // Compaction

  lemma RecordsDistinct(e: Engine, order: seq<nat>)
    requires WellKeyed(e.table.entries) && IsOrder(order, e.table.entries)
    ensures DistinctKeys(RecordsOf(e.table.entries, order))
    ensures forall i :: 0 <= i < |order| ==> RecordsOf(e.table.entries, order)[i].key == order[i]
  {
  }

  lemma {:induction false} OneBlockEach(rs: seq<IndexRecord>, bs: nat)
    requires bs > 0 && forall i :: 0 <= i < |rs| ==> rs[i].bytes > 0
    ensures SumBlocks(rs, bs) >= |rs|
  {
    if rs != [] {
      assert forall i :: 0 <= i < |rs[1..]| ==> rs[1..][i] == rs[i + 1];
      OneBlockEach(rs[1..], bs);
      PaddedIsBlocks(rs[0].bytes, bs);
    }
  }

  /** A live record: readable, in range, and decoding to what the map holds. */
  predicate LiveRecord(d: Device, rs: seq<IndexRecord>, i: nat, k: nat, m: map<nat, Rec>)
    requires i < |rs| && d.blockSize > 0
  {
    && rs[i].key == k < TWO64 && 0 < rs[i].bytes < TWO32 && Padded(rs[i].bytes, d.blockSize)
    && k in m && Decode(d, rs[i]) == Some(m[k])
  }

  lemma RecordIsLive(e: Engine, s: Spec, order: seq<nat>, i: nat)
    requires Refines(e, s) && IsOrder(order, e.table.entries) && i < |order|
    ensures LiveRecord(e.dev, RecordsOf(e.table.entries, order), i, order[i], s.m)
  {
    hide Decode;
    hide Padded;
    assert e.dev.blockSize > 0;
    hide Aligned;
    assert order[i] in order && order[i] in s.m;
    assert Decode(e.dev, e.table.entries[order[i]]) == Some(s.m[order[i]]);
    DecodedNotEmpty(e.dev, e.table.entries[order[i]]);
  }

  lemma DecodedNotEmpty(d: Device, r: IndexRecord)
    requires d.blockSize > 0 && Decode(d, r).Some?
    ensures r.bytes > 0
  {
  }

  /** All live records of a represented store can be copied. */
  lemma LiveIsCopyable(e: Engine, s: Spec, order: seq<nat>)
    requires Refines(e, s) && IsOrder(order, e.table.entries)
    ensures Backed(e.dev) && e.table.entries.Keys == s.m.Keys
    ensures var rs := RecordsOf(e.table.entries, order);
            && Copyable(e.dev, rs) && DistinctKeys(rs) && |rs| <= SumBlocks(rs, e.dev.blockSize)
            && forall i :: 0 <= i < |rs| ==> LiveRecord(e.dev, rs, i, order[i], s.m)
  {
    var rs := RecordsOf(e.table.entries, order);
    RecordsDistinct(e, order);
    hide Padded;
    hide WellKeyed;
    forall i | 0 <= i < |rs| ensures LiveRecord(e.dev, rs, i, order[i], s.m) {
      RecordIsLive(e, s, order, i);
    }
    hide Represents;
    LiveCopies(e.dev, rs, order, s.m);
  }

  lemma LiveCopies(d: Device, rs: seq<IndexRecord>, order: seq<nat>, m: map<nat, Rec>)
    requires d.blockSize > 0 && |rs| == |order|
    requires forall i :: 0 <= i < |rs| ==> LiveRecord(d, rs, i, order[i], m)
    ensures Copyable(d, rs) && |rs| <= SumBlocks(rs, d.blockSize)
  {
    hide Padded;
    forall i | 0 <= i < |rs|
      ensures rs[i].bytes > 0 && Read(d, rs[i].block, rs[i].bytes).Some? && Padded(rs[i].bytes, d.blockSize)
    {
      assert LiveRecord(d, rs, i, order[i], m);
    }
    OneBlockEach(rs, d.blockSize);
  }

  lemma CopiedKeys(entries: map<nat, IndexRecord>, order: seq<nat>, rs: seq<IndexRecord>, copied: map<nat, IndexRecord>)
    requires IsOrder(order, entries) && |rs| == |order| && forall i :: 0 <= i < |rs| ==> rs[i].key == order[i]
    requires forall k :: k in copied <==> exists i :: 0 <= i < |rs| && rs[i].key == k
    ensures copied.Keys == entries.Keys
  {
  }

  /** What the copy loop leaves behind for a whole table. */
  lemma CopiedTable(e: Engine, order: seq<nat>, mode: Mode)
    requires Inv(e) && IsOrder(order, e.table.entries) && CompactionRoom(e, order)
    requires Copyable(e.dev, RecordsOf(e.table.entries, order))
    ensures var rs := RecordsOf(e.table.entries, order);
            var (status, c) := CopyAll(e.dev, rs, StartCopy(e.dev.blockSize), mode);
            && status == Ok && Aligned(c.device) && c.device.blocks == SumBlocks(rs, e.dev.blockSize)
            && c.entries.Keys == e.table.entries.Keys
            && forall i :: 0 <= i < |rs| ==> CopyDone(e.dev, rs, i, StartCopy(e.dev.blockSize), c, mode)
  {
    var rs := RecordsOf(e.table.entries, order);
    var start := StartCopy(e.dev.blockSize);
    RecordsDistinct(e, order);
    CopyStarts(e.dev.blockSize);
    assert SumBlocks(rs, e.dev.blockSize) < TWO32;
    hide Inv;
    hide CopyAll;
    hide CopyDone;
    hide BlocksFor;
    hide Copyable;
    hide Aligned;
    hide SumBlocks;
    hide RecordsOf;
    CopyAllWorks(e.dev, rs, start, mode);
    CopiedKeys(e.table.entries, order, rs, CopyAll(e.dev, rs, start, mode).1.entries);
  }

  lemma CopyStarts(bs: nat)
    requires 0 < bs < TWO32
    ensures Aligned(StartCopy(bs).device)
  {
  }

  /** An entry compaction writes: in the ranges of its C++ types, and small enough to be copied again. */
  predicate GoodEntry(x: IndexRecord, k: nat, bs: nat)
    requires bs > 0
  {
    x.key == k < TWO64 && x.block < TWO32 && x.bytes < TWO32 && Padded(x.bytes, bs)
  }

  /** The entry of the `i`-th record, and whether it gives the record back. */
  predicate EntryGives(c: Copy, rs: seq<IndexRecord>, i: nat, rec: Rec, mode: Mode)
    requires i < |rs| && c.device.blockSize > 0
  {
    && rs[i].key in c.entries && GoodEntry(c.entries[rs[i].key], rs[i].key, c.device.blockSize)
    && Decode(c.device, c.entries[rs[i].key]) == if Fits(rs, i, c.device.blockSize, mode) then Some(rec) else None
  }

  lemma NewEntryGives(old_: Device, rs: seq<IndexRecord>, mode: Mode, i: nat, rec: Rec)
    requires Backed(old_) && Copyable(old_, rs) && DistinctKeys(rs) && i < |rs|
    requires SumBlocks(rs, old_.blockSize) < TWO32 && rs[i].key < TWO64 && rs[i].bytes > 0
    requires forall j :: 0 <= j < |rs| ==> rs[j].bytes < TWO32
    requires Decode(old_, rs[i]) == Some(rec)
    ensures EntryGives(CopyAll(old_, rs, StartCopy(old_.blockSize), mode).1, rs, i, rec, mode)
  {
    hide CopyAll;
    hide Decode;
    hide Read;
    hide BlocksFor;
    hide Fits;
    hide Padded;
    hide GoodEntry;
    hide NewEntry;
    var start := StartCopy(old_.blockSize);
    var c := CopyAll(old_, rs, start, mode).1;
    CompactedDecodes(old_, rs, mode, i);
    CopyAllWorks(old_, rs, start, mode);
    assert CopyDone(old_, rs, i, start, c, mode);
    CopyLengthPadded(old_, rs, i, mode);
    NewEntryGood(rs, i, old_.blockSize, mode);
  }

  lemma NewEntryGood(rs: seq<IndexRecord>, i: nat, bs: nat, mode: Mode)
    requires bs > 0 && i < |rs| && SumBlocks(rs, bs) < TWO32 && rs[i].key < TWO64 && rs[i].bytes > 0
    requires (forall j :: 0 <= j < |rs| ==> rs[j].bytes < TWO32) && Padded(CopyLength(rs, i, 0, mode), bs)
    ensures GoodEntry(NewEntry(rs, i, 0, bs, 0, mode), rs[i].key, bs)
  {
    PaddedIsBlocks(rs[i].bytes, bs);
    SumBlocksNext(rs, i, bs);
    CopyLengthBounds(rs, i, mode);
    hide BlocksFor;
    hide Padded;
    hide CopyLength;
  }

  /** A length given by compaction is the length of some record, so it is padded like one. */
  lemma CopyLengthPadded(d: Device, rs: seq<IndexRecord>, i: nat, mode: Mode)
    requires d.blockSize > 0 && Copyable(d, rs) && i < |rs|
    ensures Padded(CopyLength(rs, i, 0, mode), d.blockSize)
  {
    hide Read;
    hide Padding;
    MaxBytesBounds(rs[..i + 1], 0);
    assert rs[..i + 1][i] == rs[i];
  }

  lemma AllEntriesGive(e: Engine, s: Spec, order: seq<nat>, mode: Mode)
    requires Refines(e, s) && IsOrder(order, e.table.entries) && CompactionRoom(e, order)
    ensures |order| == |RecordsOf(e.table.entries, order)|
    ensures var rs := RecordsOf(e.table.entries, order);
            var c := CopyAll(e.dev, rs, StartCopy(e.dev.blockSize), mode).1;
            forall i :: 0 <= i < |rs| ==>
                          order[i] in s.m && rs[i].key == order[i] && EntryGives(c, rs, i, s.m[order[i]], mode)
  {
    hide Refines;
    hide CopyAll;
    hide Decode;
    hide EntryGives;
    hide Copyable;
    LiveIsCopyable(e, s, order);
    var rs := RecordsOf(e.table.entries, order);
    var c := CopyAll(e.dev, rs, StartCopy(e.dev.blockSize), mode).1;
    forall i | 0 <= i < |rs|
      ensures order[i] in s.m && rs[i].key == order[i] && EntryGives(c, rs, i, s.m[order[i]], mode)
    {
      assert forall j :: 0 <= j < |rs| ==> LiveRecord(e.dev, rs, j, order[j], s.m);
      NewEntryGives(e.dev, rs, mode, i, s.m[order[i]]);
    }
  }

  /** The compacted engine, before the question whether its records still load. */
  lemma CompactedInv(e: Engine, s: Spec, order: seq<nat>, mode: Mode)
    requires Refines(e, s) && IsOrder(order, e.table.entries) && CompactionRoom(e, order)
    ensures var (status, e1) := Compact(e, order, mode);
            var rs := RecordsOf(e.table.entries, order);
            var c := CopyAll(e.dev, rs, StartCopy(e.dev.blockSize), mode).1;
            && status == Ok && e1 == e.(dev := c.device, table := Table(c.entries, 0, 0, 0)) && Inv(e1)
            && e1.dev.blockSize == e.dev.blockSize && e1.dev.blocks == SumBlocks(rs, e.dev.blockSize)
            && e1.table.entries.Keys == e.table.entries.Keys == s.m.Keys && e1.counter == s.counter
  {
    var rs := RecordsOf(e.table.entries, order);
    LiveIsCopyable(e, s, order);
    CopiedTable(e, order, mode);
    AllEntriesGive(e, s, order, mode);
    OrderLength(order, e.table.entries);
    var c := CopyAll(e.dev, rs, StartCopy(e.dev.blockSize), mode).1;
    assert |c.entries| == |c.entries.Keys| == |e.table.entries.Keys| == |e.table.entries|;
    OpenAligned(c.device);
    hide CopyAll;
    hide CopyDone;
    hide Copyable;
    hide CompactionRoom;
    hide LiveRecord;
    hide Decode;
    hide GoodEntry;
    hide Fits;
    assert e.counter == s.counter && e.table.entries.Keys == s.m.Keys;
    forall k | k in c.entries ensures GoodEntry(c.entries[k], k, e.dev.blockSize) {
      assert k in order;
      var i :| 0 <= i < |order| && order[i] == k;
      assert EntryGives(c, rs, i, s.m[order[i]], mode);
    }
    hide Represents;
    hide EntryGives;
    hide Aligned;
    hide OpenDevice;
    MakeInv(e, c.device, c.entries);
  }

  lemma MakeInv(e: Engine, d: Device, entries: map<nat, IndexRecord>)
    requires Inv(e) && Aligned(d) && d.blockSize == e.dev.blockSize && |entries| <= d.blocks
    requires entries.Keys == e.table.entries.Keys && forall k <- entries :: GoodEntry(entries[k], k, d.blockSize)
    ensures Inv(e.(dev := d, table := Table(entries, 0, 0, 0)))
  {
    hide Aligned;
    hide Padded;
  }

  /**
   * Compaction preserves meaning exactly when the lengths it gives fit the new device: then the
   * keys are the same and so are the records, on a device that is exactly the live records laid
   * side by side. Otherwise the record whose length does not fit is lost.
   */
  lemma CompactRefines(e: Engine, s: Spec, order: seq<nat>, mode: Mode)
    requires Refines(e, s) && IsOrder(order, e.table.entries) && CompactionRoom(e, order)
    ensures var (status, e1) := Compact(e, order, mode);
            && status == Ok && Inv(e1) && e1.dev.blockSize == e.dev.blockSize
            && e1.dev.blocks == SumBlocks(RecordsOf(e.table.entries, order), e.dev.blockSize)
            && (Refines(e1, s) <==> AllFit(e, order, mode))
  {
    CompactedInv(e, s, order, mode);
    AllEntriesGive(e, s, order, mode);
    var rs := RecordsOf(e.table.entries, order);
    var e1 := Compact(e, order, mode).1;
    var c := CopyAll(e.dev, rs, StartCopy(e.dev.blockSize), mode).1;
    hide Inv;
    hide Compact;
    hide CopyAll;
    hide CompactionRoom;
    hide Decode;
    hide GoodEntry;
    hide Fits;
    if AllFit(e, order, mode) {
      forall k | k in s.m ensures Decode(e1.dev, e1.table.entries[k]) == Some(s.m[k]) {
        assert k in order;
        var i :| 0 <= i < |order| && order[i] == k;
        assert EntryGives(c, rs, i, s.m[order[i]], mode);
      }
    }
    if Refines(e1, s) {
      forall i | 0 <= i < |rs| ensures Fits(rs, i, e.dev.blockSize, mode) {
        assert EntryGives(c, rs, i, s.m[order[i]], mode);
        assert Decode(e1.dev, e1.table.entries[order[i]]) == Some(s.m[order[i]]);
      }
    }
  }

  // ---------------------------------------------------------------------------
  // Steps and runs

  ghost function Step(e: Engine, op: Op): (Out, Engine)
    requires Inv(e) && Asked(e, op)
  {
    match op
    case SaveOp(rec, now, orders) =>
      var (status, e1) := SaveBytes(e, rec.key, PrintRec(Cleanup(rec, now), orders));
      (Done(status), e1)
    case RemoveOp(key) => var (status, e1) := Remove(e, key); (Done(status), e1)
    case LoadOp(key, now) => (LoadGave(Load(e, key, now)), e)
    case NewKeyOp => (NewKeyIs(e.counter), NewKey(e))
    case ReopenOp(order, fresh_, opts, copyOrder, mode) =>
      ReopenKeepsFiles(e, order, fresh_, opts);
      var o := Open(ReopenedFiles(e, order, fresh_), opts, copyOrder, mode);
      (Done(o.status), o.engine)
  }

  /** The same operations on the map. */
  function SpecStep(s: Spec, op: Op): (Out, Spec) {
    match op
    case SaveOp(rec, now, _) => (Done(Ok), s.(m := s.m[rec.key := Cleanup(rec, now)]))
    case RemoveOp(key) => (Done(if key in s.m then Ok else InvalidArgument), s.(m := s.m - {key}))
    case LoadOp(key, now) =>
      (LoadGave(if key != INVALID_HANDLE && key in s.m then Loaded(Cleanup(s.m[key], now))
          else Refused(InvalidArgument)), s)
    case NewKeyOp => (NewKeyIs(s.counter), s.(counter := s.counter + 1))
    case ReopenOp(_, _, _, _, _) => (Done(Ok), s)
  }

  lemma StillRepresents(e: Engine, e1: Engine, s: Spec)
    requires Backed(e.dev) && Backed(e1.dev) && Grown(e.dev, e1.dev) && Represents(e, s)
    requires e1 == e.(dev := e1.dev)
    ensures Represents(e1, s)
  {
    forall k | k in s.m ensures Decode(e1.dev, e.table.entries[k]) == Some(s.m[k]) {
      DecodeGrown(e.dev, e1.dev, e.table.entries[k]);
    }
  }

  lemma InsertRefines(e: Engine, s: Spec, x: IndexRecord, r: Rec)
    requires Refines(e, s) && |e.table.entries| < e.dev.blocks
    requires x.key < TWO64 && x.block < TWO32 && x.bytes < TWO32 && Padded(x.bytes, e.dev.blockSize)
               && Decode(e.dev, x) == Some(r)
    ensures Refines(e.(table := Insert(e.table, x)), s.(m := s.m[x.key := r]))
  {
    hide Decode;
    hide Padded;
    assert |e.table.entries[x.key := x]| <= |e.table.entries| + 1;
  }

  lemma GrowRefines(e: Engine, s: Spec, d: Device)
    requires Refines(e, s) && Aligned(d) && Grown(e.dev, d)
    ensures Refines(e.(dev := d), s)
  {
    StillRepresents(e, e.(dev := d), s);
    hide Decode;
  }

  /** Appending a record's bytes and indexing them changes the map at that key only. */
  lemma SaveBytesRefines(e: Engine, s: Spec, key: nat, buf: Bytes, r: Rec)
    requires Refines(e, s) && INVALID_HANDLE < key < TWO64 && buf != [] && |buf| < TWO32 && Room(e.dev, |buf|)
    requires Decode(Append(e.dev, buf, 0).device, IndexRecord(key, Append(e.dev, buf, 0).index, |buf|)) == Some(r)
    ensures var (status, e1) := SaveBytes(e, key, buf);
            status == Ok && Refines(e1, s.(m := s.m[key := r])) && Grown(e.dev, e1.dev)
  {
    var a := Append(e.dev, buf, 0);
    AppendAligned(e.dev, buf, 0);
    hide Append;
    hide Decode;
    hide Represents;
    hide Padding;
    hide BlocksFor;
    GrowRefines(e, s, a.device);
    InsertRefines(e.(dev := a.device), s, IndexRecord(key, a.index, |buf|), r);
  }

  lemma SaveRefines(e: Engine, s: Spec, rec: Rec, now: int, orders: Orders)
    requires Refines(e, s) && Asked(e, SaveOp(rec, now, orders))
    ensures var (status, e1) := SaveBytes(e, rec.key, PrintRec(Cleanup(rec, now), orders));
            status == Ok && Refines(e1, s.(m := s.m[rec.key := Cleanup(rec, now)])) && Grown(e.dev, e1.dev)
  {
    var r := Cleanup(rec, now);
    DecodeSaved(e.dev, r, orders, rec.key);
    hide PrintRec;
    hide Decode;
    hide Represents;
    SaveBytesRefines(e, s, rec.key, PrintRec(r, orders), r);
  }

  lemma RemoveRefines(e: Engine, s: Spec, key: nat)
    requires Refines(e, s) && key != ROOT_HANDLE
    ensures var (status, e1) := Remove(e, key);
            && status == (if key in s.m then Ok else InvalidArgument)
            && Refines(e1, s.(m := s.m - {key}))
  {
    hide Decode;
    var kept := e.table.entries - {key};
    SubsetSize(kept.Keys, e.table.entries.Keys);
    if key !in s.m {
      assert s.m - {key} == s.m;
    }
  }

  lemma LoadRefines(e: Engine, s: Spec, key: nat, now: int)
    requires Refines(e, s)
    ensures Load(e, key, now) == if key != INVALID_HANDLE && key in s.m then Loaded(Cleanup(s.m[key], now))
                                 else Refused(InvalidArgument)
  {
    if key != INVALID_HANDLE && key in s.m {
      LoadDecodes(e, key, now);
      hide Load;
      hide Decode;
    }
  }

  /** A loaded index with the same entries represents the same map, and compacts the same. */
  lemma SameEntries(e: Engine, e1: Engine, s: Spec, order: seq<nat>, mode: Mode)
    requires Refines(e, s) && e1 == e.(index := e1.index, table := e1.table) && e1.table.entries == e.table.entries
    requires IsOrder(order, e.table.entries)
    ensures Refines(e1, s)
    ensures CompactionFits(e1, order, mode) == CompactionFits(e, order, mode)
    ensures CompactionRoom(e1, order) == CompactionRoom(e, order)
  {
    hide Decode;
  }

  lemma ReopenSteps(e: Engine, op: Op)
    requires Inv(e) && op.ReopenOp? && Asked(e, op)
    ensures var e1 := Reloaded(e, op);
            && e1.table.entries == e.table.entries
            && Step(e, op) == if NeedsCompaction(e1, op.opts)
                              then (Done(Compact(e1, op.copyOrder, op.mode).0), Compact(e1, op.copyOrder, op.mode).1)
                              else (Done(Ok), e1)
  {
    hide OpenFiles;
    hide LoadAll;
    hide NeedsCompaction;
    hide Compact;
    hide PrintIndexFile;
    hide ReopenedFiles;
    hide AllPadded;
    ReopenKeepsFiles(e, op.order, op.fresh_, op.opts);
  }

  lemma ReloadedRefines(e: Engine, s: Spec, op: Op)
    requires Refines(e, s) && op.ReopenOp? && Asked(e, op)
    ensures Refines(Reloaded(e, op), s) && IsOrder(op.copyOrder, Reloaded(e, op).table.entries)
    ensures CompactionFits(Reloaded(e, op), op.copyOrder, op.mode) == CompactionFits(e, op.copyOrder, op.mode)
    ensures CompactionRoom(Reloaded(e, op), op.copyOrder) == CompactionRoom(e, op.copyOrder)
  {
    ReopenSteps(e, op);
    hide Step;
    hide Refines;
    hide CompactionFits;
    hide CompactionRoom;
    hide LoadAll;
    hide PrintIndexFile;
    SameEntries(e, Reloaded(e, op), s, op.copyOrder, op.mode);
  }

  lemma ReopenRefines(e: Engine, s: Spec, op: Op)
    requires Refines(e, s) && op.ReopenOp? && Guard(e, op)
    ensures Step(e, op).0 == Done(Ok) && Refines(Step(e, op).1, s)
  {
    ReopenSteps(e, op);
    ReloadedRefines(e, s, op);
    var e1 := Reloaded(e, op);
    hide Step;
    hide NeedsCompaction;
    hide Compact;
    hide Refines;
    hide Reloaded;
    hide CompactionRoom;
    hide AllFit;
    if NeedsCompaction(e1, op.opts) {
      CompactRefines(e1, s, op.copyOrder, op.mode);
    }
  }

  lemma SaveStepRefines(e: Engine, s: Spec, op: Op)
    requires Refines(e, s) && op.SaveOp? && Guard(e, op)
    ensures Step(e, op).0 == SpecStep(s, op).0 && Refines(Step(e, op).1, SpecStep(s, op).1)
  {
    hide Refines;
    SaveRefines(e, s, op.rec, op.now, op.orders);
  }

  lemma SmallStepRefines(e: Engine, s: Spec, op: Op)
    requires Refines(e, s) && (op.RemoveOp? || op.LoadOp?) && Guard(e, op)
    ensures Step(e, op).0 == SpecStep(s, op).0 && Refines(Step(e, op).1, SpecStep(s, op).1)
  {
    hide Refines;
    if op.RemoveOp? {
      RemoveRefines(e, s, op.key);
    } else {
      LoadRefines(e, s, op.key, op.now);
    }
  }

  lemma NewKeyRefines(e: Engine, s: Spec)
    requires Refines(e, s) && e.counter + 1 < TWO64
    ensures Refines(NewKey(e), s.(counter := s.counter + 1)) && e.counter == s.counter
  {
    hide Decode;
  }

  /** One step: the same answer, and the engine still represents the map. */
  lemma StepRefines(e: Engine, s: Spec, op: Op)
    requires Refines(e, s) && Guard(e, op)
    ensures Step(e, op).0 == SpecStep(s, op).0 && Refines(Step(e, op).1, SpecStep(s, op).1)
  {
    hide Refines;
    if op.SaveOp? {
      SaveStepRefines(e, s, op);
    } else if op.RemoveOp? || op.LoadOp? {
      SmallStepRefines(e, s, op);
    } else if op.ReopenOp? {
      ReopenRefines(e, s, op);
    } else {
      NewKeyRefines(e, s);
    }
  }

  /** A step that has room answers as the map in any case, and goes on representing it exactly when guarded. */
  lemma StepRefinesExactly(e: Engine, s: Spec, op: Op)
    requires Refines(e, s) && Asked(e, op)
    requires op.ReopenOp? ==> CompactionRoom(e, op.copyOrder)
    ensures Step(e, op).0 == SpecStep(s, op).0
    ensures Refines(Step(e, op).1, SpecStep(s, op).1) <==> Guard(e, op)
  {
    assert Inv(e);
    hide Inv;
    hide Refines;
    if op.ReopenOp? && NeedsCompaction(Reloaded(e, op), op.opts) {
      ReopenSteps(e, op);
      ReloadedRefines(e, s, op);
      hide Step;
      hide NeedsCompaction;
      hide Compact;
      hide Reloaded;
      hide CompactionRoom;
      hide AllFit;
      CompactRefines(Reloaded(e, op), s, op.copyOrder, op.mode);
    } else {
      hide Step;
      hide SpecStep;
      hide CompactionFits;
      StepRefines(e, s, op);
    }
  }

  lemma SubsetSize(a: set<nat>, b: set<nat>)
    requires a <= b
    ensures |a| <= |b|
  {
    assert b == a + (b - a);
  }

  /** A run every step of which meets its guard; that it goes on from a good state is proved, not asked. */
  ghost predicate Runs(e: Engine, s: Spec, ops: seq<Op>)
    requires Refines(e, s)
    decreases |ops|
  {
    ops == [] ||
    (Guard(e, ops[0]) && (StepRefines(e, s, ops[0]); Runs(Step(e, ops[0]).1, SpecStep(s, ops[0]).1, ops[1..])))
  }

  ghost function Run(e: Engine, s: Spec, ops: seq<Op>): (seq<Out>, Engine)
    requires Refines(e, s) && Runs(e, s, ops)
    decreases |ops|
  {
    if ops == [] then ([], e)
    else
      StepRefines(e, s, ops[0]);
      var (out, e1) := Step(e, ops[0]);
      var (outs, last) := Run(e1, SpecStep(s, ops[0]).1, ops[1..]);
      ([out] + outs, last)
  }

  function SpecRun(s: Spec, ops: seq<Op>): (seq<Out>, Spec)
    decreases |ops|
  {
    if ops == [] then ([], s)
    else
      var (out, s1) := SpecStep(s, ops[0]);
      var (outs, last) := SpecRun(s1, ops[1..]);
      ([out] + outs, last)
  }

  /** Over any run the engine and the map give the same answers, and still agree at the end. */
  lemma {:induction false} RunRefines(e: Engine, s: Spec, ops: seq<Op>)
    requires Refines(e, s) && Runs(e, s, ops)
    ensures Run(e, s, ops).0 == SpecRun(s, ops).0
    ensures Refines(Run(e, s, ops).1, SpecRun(s, ops).1)
    decreases |ops|
  {
    assert Inv(e);
    hide Step;
    hide SpecStep;
    hide Inv;
    hide Represents;
    hide Asked;
    hide CompactionFits;
    if ops != [] {
      StepRefines(e, s, ops[0]);
      RunRefines(Step(e, ops[0]).1, SpecStep(s, ops[0]).1, ops[1..]);
    }
  }

  // ---------------------------------------------------------------------------
  // A new store

  const NEW_STORE: Spec := Spec(map[ROOT_HANDLE := ROOT_RECORD], ROOT_HANDLE + 1)

  /** An engine object just constructed, over a directory without the files, to be opened with these options. */
  predicate IsNew(e: Engine, opts: Options) {
    && !e.isOpen && !e.logExists && e.index == None && e.table == EMPTY_TABLE
    && ValidOptions(opts) && opts.blockSize % MIN_BLOCK_SIZE == 0 && opts.createNew
  }

  lemma RootRecordFits(d: Device)
    requires Aligned(d) && d.blocks == 0 && d.blockSize % MIN_BLOCK_SIZE == 0
    ensures AreOrders(NO_ORDERS, ROOT_RECORD) && TypedRec(ROOT_RECORD) && Bijective(ROOT_RECORD.children)
    ensures Room(d, |PrintRec(ROOT_RECORD, NO_ORDERS)|)
              && BlocksFor(|PrintRec(ROOT_RECORD, NO_ORDERS)|, d.blockSize) == 1
  {
    NoPairs();
    RootLength();
    hide PrintRec;
    assert d.blockSize >= 48 by { AlignedSize(d); }
    OneBlockFits(48, d.blockSize);
    hide BlocksFor;
    hide Padding;
  }

  lemma NoPairs()
    ensures AreOrders(NO_ORDERS, ROOT_RECORD) && TypedRec(ROOT_RECORD) && Bijective(ROOT_RECORD.children)
  {
  }

  lemma RootLength()
    requires AreOrders(NO_ORDERS, ROOT_RECORD)
    ensures |PrintRec(ROOT_RECORD, NO_ORDERS)| == 48
  {
  }

  lemma OneBlockFits(n: nat, bs: nat)
    requires 0 < n < bs
    ensures BlocksFor(n, bs) == 1 && n + Padding(n, bs) == bs
  {
  }

  lemma EmptyDevice(bs: nat)
    requires 0 < bs < TWO32
    ensures OpenDevice(bs, []) == Device(bs, 0, []) && Aligned(Device(bs, 0, []))
  {
  }

  /** Without the files, open comes down to saving the root. */
  lemma NewFiles(e: Engine, opts: Options)
    requires IsNew(e, opts)
    ensures var e2 := Engine(true, Device(opts.blockSize, 0, []), true, EMPTY_TABLE.(blockSize := opts.blockSize),
              e.counter, None);
            var (status, e3) := CreateRoot(e2);
            OpenFiles(e, opts) == Outcome(status, e3.(isOpen := status.Ok?))
  {
  }

  lemma RootAppended(d: Device)
    requires Aligned(d) && d.blocks == 0 && d.blockSize % MIN_BLOCK_SIZE == 0 && AreOrders(NO_ORDERS, ROOT_RECORD)
    ensures var buf := PrintRec(ROOT_RECORD, NO_ORDERS);
            var a := Append(d, buf, 0);
            && buf != [] && |buf| < TWO32 && a.index == 0 && a.device.blockSize == d.blockSize && a.device.blocks == 1
            && Aligned(a.device) && Decode(a.device, IndexRecord(ROOT_HANDLE, 0, |buf|)) == Some(ROOT_RECORD)
            && Padded(|buf|, d.blockSize)
  {
    RootRecordFits(d);
    DecodeSaved(d, ROOT_RECORD, NO_ORDERS, ROOT_HANDLE);
    AppendAligned(d, PrintRec(ROOT_RECORD, NO_ORDERS), 0);
    hide *;
    Grows(d, Append(d, PrintRec(ROOT_RECORD, NO_ORDERS), 0).device);
    Whole(PrintRec(ROOT_RECORD, NO_ORDERS));
  }

  lemma Grows(d1: Device, d2: Device)
    requires Grown(d1, d2)
    ensures d1.blockSize == d2.blockSize
  {
  }

  lemma Whole(buf: Bytes)
    ensures AppendSize(buf, 0) == |buf|
  {
  }

  lemma RootSaved(e: Engine)
    requires e.isOpen && e.logExists && e.table.entries == map[] && Aligned(e.dev) && e.dev.blocks == 0
    requires e.dev.blockSize % MIN_BLOCK_SIZE == 0
    ensures var (status, e1) := CreateRoot(e);
            status == Ok && Refines(e1, NEW_STORE) && e1.isOpen && e1.dev.blocks == 1
  {
    AlignedSize(e.dev);
    hide *;
    RootRecordFits(e.dev);
    RootAppended(e.dev);
    var buf := PrintRec(ROOT_RECORD, NO_ORDERS);
    var a := Append(e.dev, buf, 0);
    CreateRootUnfolds(e);
    RootIndexed(e.(dev := a.device, counter := ROOT_HANDLE + 1), IndexRecord(ROOT_HANDLE, 0, |buf|));
  }

  lemma AlignedSize(d: Device)
    requires Aligned(d)
    ensures 0 < d.blockSize < TWO32
  {
  }

  lemma CreateRootUnfolds(e: Engine)
    requires e.isOpen && e.dev.blockSize > 0 && AreOrders(NO_ORDERS, ROOT_RECORD)
    requires PrintRec(ROOT_RECORD, NO_ORDERS) != [] && |PrintRec(ROOT_RECORD, NO_ORDERS)| < TWO32
    ensures var buf := PrintRec(ROOT_RECORD, NO_ORDERS);
            var a := Append(e.dev, buf, 0);
            CreateRoot(e) == (Ok, e.(dev := a.device, counter := ROOT_HANDLE + 1,
                                     table := Insert(e.table, IndexRecord(ROOT_HANDLE, a.index, |buf|))))
  {
  }

  lemma RootIndexed(e: Engine, x: IndexRecord)
    requires e.isOpen && e.logExists && e.table.entries == map[] && Aligned(e.dev) && e.dev.blocks == 1
    requires e.dev.blockSize % MIN_BLOCK_SIZE == 0 && e.counter == ROOT_HANDLE + 1
    requires x.key == ROOT_HANDLE && x.block < TWO32 && x.bytes < TWO32 && Decode(e.dev, x) == Some(ROOT_RECORD)
    requires e.dev.blockSize > 0 && Padded(x.bytes, e.dev.blockSize)
    ensures Refines(e.(table := Insert(e.table, x)), NEW_STORE) && e.isOpen
  {
    hide Decode;
    hide Padded;
    hide Aligned;
    assert e.table.entries[x.key := x] == map[ROOT_HANDLE := x];
  }

  /** open on a directory without the files: a store of the root alone, on one block. */
  lemma NewStoreRefines(e: Engine, opts: Options)
    requires IsNew(e, opts)
    ensures var o := OpenFiles(e, opts);
            o.Outcome? && o.status == Ok && Refines(o.engine, NEW_STORE) && o.engine.dev.blocks == 1
  {
    EmptyDevice(opts.blockSize);
    hide *;
    NewFiles(e, opts);
    RootSaved(Engine(true, Device(opts.blockSize, 0, []), true, EMPTY_TABLE.(blockSize := opts.blockSize),
        e.counter, None));
  }
}
