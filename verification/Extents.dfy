// Live extents: pairwise disjoint and inside the device, in every state of a run, exactly as
// long as every compaction with the lengths as written walks the table by ascending block counts.

module Extents {
  import opened Wrappers
  import opened Serialization
  import opened Records
  import opened LogDevices
  import opened IndexTables
  import opened Engines
  import opened Compaction
  import opened EngineRuns

  function End(r: IndexRecord, bs: nat): nat
    requires bs > 0
  {
    r.block + BlocksFor(r.bytes, bs)
  }

  predicate Apart(a: IndexRecord, b: IndexRecord, bs: nat)
    requires bs > 0
  {
    End(a, bs) <= b.block || End(b, bs) <= a.block
  }

  ghost predicate Tidy(e: Engine) {
    && e.dev.blockSize > 0
    && (forall k <- e.table.entries :: End(e.table.entries[k], e.dev.blockSize) <= e.dev.blocks)
    && (forall j, k :: j in e.table.entries && k in e.table.entries && j != k ==>
          Apart(e.table.entries[j], e.table.entries[k], e.dev.blockSize))
  }

  // ---------------------------------------------------------------------------
  // Disjoint extents inside a device cannot cover more than the device

  predicate AllApart(rs: seq<IndexRecord>, bs: nat)
    requires bs > 0
  {
    forall i, j :: 0 <= i < j < |rs| ==> Apart(rs[i], rs[j], bs)
  }

  lemma {:induction false} LastExtent(rs: seq<IndexRecord>) returns (last: nat)
    requires rs != []
    ensures last < |rs| && forall i :: 0 <= i < |rs| ==> rs[i].block <= rs[last].block
  {
    if |rs| == 1 {
      last := 0;
    } else {
      var x := LastExtent(rs[1..]);
      assert forall i :: 1 <= i < |rs| ==> rs[i] == rs[1..][i - 1];
      last := if rs[0].block > rs[x + 1].block then 0 else x + 1;
    }
  }

  /** Without the record at `i`. */
  function Without(rs: seq<IndexRecord>, i: nat): (others: seq<IndexRecord>)
    requires i < |rs|
    ensures |others| == |rs| - 1
    ensures forall j :: 0 <= j < |others| ==> others[j] == if j < i then rs[j] else rs[j + 1]
  {
    rs[..i] + rs[i + 1..]
  }

  lemma SumWithout(rs: seq<IndexRecord>, i: nat, bs: nat)
    requires bs > 0 && i < |rs|
    ensures SumBlocks(rs, bs) == SumBlocks(Without(rs, i), bs) + BlocksFor(rs[i].bytes, bs)
  {
    SumBlocksSplit(rs, i + 1, bs);
    SumBlocksNext(rs, i, bs);
    SumBlocksSplit(Without(rs, i), i, bs);
    assert Without(rs, i)[..i] == rs[..i] && Without(rs, i)[i..] == rs[i + 1..];
  }

  lemma {:induction false} Packing(rs: seq<IndexRecord>, bs: nat, blocks: nat)
    requires bs > 0 && AllApart(rs, bs)
    requires forall i :: 0 <= i < |rs| ==> rs[i].bytes > 0 && End(rs[i], bs) <= blocks
    ensures SumBlocks(rs, bs) <= blocks
    decreases |rs|
  {
    if rs != [] {
      var last := LastExtent(rs);
      PaddedIsBlocks(rs[last].bytes, bs);
      hide BlocksFor;
      var others := Without(rs, last);
      forall i | 0 <= i < |others| ensures End(others[i], bs) <= rs[last].block {
        var x := if i < last then i else i + 1;
        assert Apart(rs[if x < last then x else last], rs[if x < last then last else x], bs);
      }
      Packing(others, bs, rs[last].block);
      SumWithout(rs, last, bs);
    }
  }

  lemma OrderedApart(e: Engine, order: seq<nat>)
    requires Tidy(e) && IsOrder(order, e.table.entries)
    ensures AllApart(RecordsOf(e.table.entries, order), e.dev.blockSize)
    ensures forall i :: 0 <= i < |order| ==> End(RecordsOf(e.table.entries, order)[i], e.dev.blockSize) <= e.dev.blocks
  {
  }

  /** What an engine object has counted before it loads the index: nothing, if it is new. */
  function CountedBefore(e: Engine, op: Op): nat
    requires op.ReopenOp?
  {
    if op.fresh_ then 0 else e.table.blockFootprint
  }

  /** The footprint loaded at open: the live blocks, on top of what the object had counted before. */
  lemma ReloadedFootprint(e: Engine, op: Op)
    requires op.ReopenOp? && op.opts.blockSize > 0 && IsOrder(op.order, e.table.entries)
               && e.table.blockFootprint < TWO64
    ensures Reloaded(e, op).dev == e.dev
    ensures Reloaded(e, op).table.blockFootprint
            == (CountedBefore(e, op) + SumBlocks(RecordsOf(e.table.entries, op.order), op.opts.blockSize)) % TWO64
  {
    var t := if op.fresh_ then EMPTY_TABLE else e.table;
    LoadAllFootprint(t.(blockSize := op.opts.blockSize), RecordsOf(e.table.entries, op.order));
    hide LoadAll;
    hide SumBlocks;
    hide PrintIndexFile;
  }

  /**
   * The footprint loaded at open is at most the blocks of the device, a live share of at most
   * one, exactly when the live blocks and those counted before are (or when their 64-bit sum
   * wraps around). For a new engine object that is always so.
   */
  lemma FootprintWithinDevice(e: Engine, s: Spec, op: Op)
    requires Refines(e, s) && Tidy(e) && op.ReopenOp? && Asked(e, op) && e.table.blockFootprint < TWO64
    ensures var e1 := Reloaded(e, op);
            var live := SumBlocks(RecordsOf(e.table.entries, op.order), e.dev.blockSize);
            && live <= e1.dev.blocks
            && e1.table.blockFootprint == (CountedBefore(e, op) + live) % TWO64
            && (e1.table.blockFootprint <= e1.dev.blocks
                <==> CountedBefore(e, op) + live <= e1.dev.blocks || CountedBefore(e, op) + live >= TWO64)
            && (op.fresh_ ==> e1.table.blockFootprint == live)
  {
    hide *;
    TidySize(e);
    ReopenAsks(e, op);
    LiveFitsDevice(e, s, op.order);
    ReloadedFootprint(e, op);
    CountedBeforeBound(e, op);
    WrappedSum(CountedBefore(e, op), SumBlocks(RecordsOf(e.table.entries, op.order), e.dev.blockSize), e.dev.blocks);
  }

  lemma TidySize(e: Engine)
    requires Tidy(e)
    ensures e.dev.blockSize > 0
  {
  }

  lemma ReopenAsks(e: Engine, op: Op)
    requires e.dev.blockSize > 0 && op.ReopenOp? && Asked(e, op)
    ensures op.opts.blockSize == e.dev.blockSize && IsOrder(op.order, e.table.entries)
  {
  }

  lemma CountedBeforeBound(e: Engine, op: Op)
    requires op.ReopenOp? && e.table.blockFootprint < TWO64
    ensures CountedBefore(e, op) < TWO64 && (op.fresh_ ==> CountedBefore(e, op) == 0)
  {
  }

  lemma WrappedSum(before: nat, live: nat, blocks: nat)
    requires before < TWO64 && live <= blocks < TWO32
    ensures (before + live) % TWO64 <= blocks <==> before + live <= blocks || before + live >= TWO64
    ensures before == 0 ==> (before + live) % TWO64 == live
  {
  }

  lemma LiveFitsDevice(e: Engine, s: Spec, order: seq<nat>)
    requires Refines(e, s) && Tidy(e) && IsOrder(order, e.table.entries)
    ensures 0 < e.dev.blockSize && SumBlocks(RecordsOf(e.table.entries, order), e.dev.blockSize) <= e.dev.blocks < TWO32
  {
    OrderedApart(e, order);
    LiveNotEmpty(e, s, order);
    hide Tidy;
    hide BlocksFor;
    hide Represents;
    Packing(RecordsOf(e.table.entries, order), e.dev.blockSize, e.dev.blocks);
  }

  lemma LiveNotEmpty(e: Engine, s: Spec, order: seq<nat>)
    requires e.dev.blockSize > 0 && Represents(e, s) && IsOrder(order, e.table.entries)
    ensures forall i :: 0 <= i < |order| ==> RecordsOf(e.table.entries, order)[i].bytes > 0
  {
    hide Decode;
    forall i | 0 <= i < |order| ensures e.table.entries[order[i]].bytes > 0 {
      assert order[i] in order && order[i] in s.m;
      assert Decode(e.dev, e.table.entries[order[i]]) == Some(s.m[order[i]]);
      DecodedNotEmpty(e.dev, e.table.entries[order[i]]);
    }
  }

  // ---------------------------------------------------------------------------
  // Steps keep the extents tidy

  /** The blocks of the records never go down along the walk. */
  predicate BlocksAscending(rs: seq<IndexRecord>, bs: nat)
    requires bs > 0
  {
    forall i, j :: 0 <= i < j < |rs| ==> BlocksFor(rs[i].bytes, bs) <= BlocksFor(rs[j].bytes, bs)
  }

  /** The lengths given to the records take the blocks the records take. */
  ghost predicate OwnBlocks(e: Engine, order: seq<nat>, mode: Mode)
    requires e.dev.blockSize > 0 && IsOrder(order, e.table.entries)
  {
    mode.AsWritten? ==> BlocksAscending(RecordsOf(e.table.entries, order), e.dev.blockSize)
  }

  /** A step that does not compact, or compacts with lengths that take each record's own blocks. */
  ghost predicate KeepsOwnBlocks(e: Engine, op: Op)
    requires e.dev.blockSize > 0 && Asked(e, op)
  {
    op.ReopenOp? && NeedsCompaction(Reloaded(e, op), op.opts) ==> OwnBlocks(e, op.copyOrder, op.mode)
  }

  lemma SaveTidy(e: Engine, key: nat, buf: Bytes)
    requires Inv(e) && Tidy(e) && key != INVALID_HANDLE && buf != [] && |buf| < TWO32 && Room(e.dev, |buf|)
    ensures Tidy(SaveBytes(e, key, buf).1)
  {
    AppendAligned(e.dev, buf, 0);
    hide BlocksFor;
    hide Append;
  }

  /** The `i`-th new entry begins where the one before it ends, and the last ends with the device. */
  predicate Tile(rs: seq<IndexRecord>, i: nat, entries: map<nat, IndexRecord>, order: seq<nat>, bs: nat)
    requires bs > 0 && i < |rs| == |order|
  {
    && order[i] in entries
    && entries[order[i]].block == SumBlocks(rs[..i], bs)
    && End(entries[order[i]], bs) == SumBlocks(rs[..i + 1], bs)
  }

  lemma OwnBlocksTile(rs: seq<IndexRecord>, i: nat, entries: map<nat, IndexRecord>, order: seq<nat>, bs: nat,
      mode: Mode)
    requires bs > 0 && i < |rs| == |order| && order[i] in entries
    requires entries[order[i]] == NewEntry(rs, i, 0, bs, 0, mode)
    requires BlocksFor(CopyLength(rs, i, 0, mode), bs) == BlocksFor(rs[i].bytes, bs)
    ensures Tile(rs, i, entries, order, bs)
  {
    SumBlocksNext(rs, i, bs);
  }

  lemma BlocksMonotone(a: nat, b: nat, bs: nat)
    requires bs > 0 && a <= b
    ensures BlocksFor(a, bs) <= BlocksFor(b, bs)
  {
    PaddedIsBlocks(a, bs);
    PaddedIsBlocks(b, bs);
    if BlocksFor(b, bs) < BlocksFor(a, bs) {
      MulMonotone(BlocksFor(b, bs) + 1, BlocksFor(a, bs), bs);
    }
  }

  /** The blocks of a running maximum are those of the record itself when blocks only ascend. */
  lemma AscendingOwnBlocks(rs: seq<IndexRecord>, i: nat, bs: nat, mode: Mode)
    requires bs > 0 && i < |rs| && (mode.AsWritten? ==> BlocksAscending(rs, bs))
    ensures BlocksFor(CopyLength(rs, i, 0, mode), bs) == BlocksFor(rs[i].bytes, bs)
  {
    MaxBytesBounds(rs[..i + 1], 0);
    assert rs[..i + 1][i] == rs[i];
    hide BlocksFor;
    if mode.AsWritten? {
      BlocksMonotone(rs[i].bytes, CopyLength(rs, i, 0, mode), bs);
      if CopyLength(rs, i, 0, mode) != 0 {
        var j :| 0 <= j < i + 1 && CopyLength(rs, i, 0, mode) == rs[..i + 1][j].bytes;
        assert BlocksFor(rs[j].bytes, bs) <= BlocksFor(rs[i].bytes, bs);
      }
    }
  }

  /** Entries laid side by side, each with its own length, are tidy. */
  lemma TilesAreTidy(rs: seq<IndexRecord>, order: seq<nat>, e: Engine)
    requires e.dev.blockSize > 0 && e.dev.blocks == SumBlocks(rs, e.dev.blockSize)
    requires IsOrder(order, e.table.entries) && |order| == |rs|
    requires forall i :: 0 <= i < |rs| ==> Tile(rs, i, e.table.entries, order, e.dev.blockSize)
    ensures Tidy(e)
  {
    var bs := e.dev.blockSize;
    hide BlocksFor;
    forall j, k | j in e.table.entries && k in e.table.entries && j != k
      ensures Apart(e.table.entries[j], e.table.entries[k], bs)
    {
      assert j in order && k in order;
      var x :| 0 <= x < |order| && order[x] == j;
      var y :| 0 <= y < |order| && order[y] == k;
      assert Tile(rs, x, e.table.entries, order, bs) && Tile(rs, y, e.table.entries, order, bs);
      if x < y {
        SumBlocksGrow(rs, x + 1, y, bs);
      } else {
        SumBlocksGrow(rs, y + 1, x, bs);
      }
    }
    forall k | k in e.table.entries ensures End(e.table.entries[k], bs) <= e.dev.blocks {
      assert k in order;
      var i :| 0 <= i < |order| && order[i] == k;
      assert Tile(rs, i, e.table.entries, order, bs);
      SumBlocksGrow(rs, i + 1, |rs|, bs);
      assert rs[..|rs|] == rs;
    }
  }

  lemma SumBlocksGrow(rs: seq<IndexRecord>, i: nat, j: nat, bs: nat)
    requires bs > 0 && i <= j <= |rs|
    ensures SumBlocks(rs[..i], bs) <= SumBlocks(rs[..j], bs)
  {
    SumBlocksSplit(rs[..j], i, bs);
    assert rs[..j][..i] == rs[..i];
  }

  /** The entry that compaction gives to the `i`-th record, which is not empty. */
  predicate HasNewEntry(e1: Engine, rs: seq<IndexRecord>, order: seq<nat>, i: nat, mode: Mode)
    requires e1.dev.blockSize > 0 && i < |rs| == |order|
  {
    && order[i] in e1.table.entries && rs[i].bytes > 0
    && e1.table.entries[order[i]] == NewEntry(rs, i, 0, e1.dev.blockSize, 0, mode)
  }

  /** What compaction writes, entry by entry. */
  lemma CompactedEntries(e: Engine, s: Spec, order: seq<nat>, mode: Mode)
    requires Refines(e, s) && IsOrder(order, e.table.entries) && CompactionRoom(e, order)
    ensures var rs := RecordsOf(e.table.entries, order);
            var e1 := Compact(e, order, mode).1;
            && Compact(e, order, mode).0 == Ok
            && Inv(e1) && e1.dev.blockSize == e.dev.blockSize && e1.dev.blocks == SumBlocks(rs, e.dev.blockSize)
            && IsOrder(order, e1.table.entries)
            && forall i :: 0 <= i < |rs| ==> HasNewEntry(e1, rs, order, i, mode)
  {
    CompactedInv(e, s, order, mode);
    LiveIsCopyable(e, s, order);
    CopiedTable(e, order, mode);
    RecordsDistinct(e, order);
    hide Refines;
    hide Inv;
    hide Compact;
    hide CompactionRoom;
    hide CopyAll;
    hide BlocksFor;
    hide Copyable;
    hide Copied;
    hide Decode;
    hide Padded;
    var rs := RecordsOf(e.table.entries, order);
    var start := StartCopy(e.dev.blockSize);
    var c := CopyAll(e.dev, rs, start, mode).1;
    forall i | 0 <= i < |rs| ensures HasNewEntry(Compact(e, order, mode).1, rs, order, i, mode) {
      assert CopyDone(e.dev, rs, i, start, c, mode) && LiveRecord(e.dev, rs, i, order[i], s.m);
    }
  }

  /** Where blocks go down, the shorter record's new extent runs into the next one, or past the end of the device. */
  lemma DescentOverlaps(e1: Engine, rs: seq<IndexRecord>, order: seq<nat>, i: nat, j: nat)
    requires e1.dev.blockSize > 0 && e1.dev.blocks == SumBlocks(rs, e1.dev.blockSize)
    requires IsOrder(order, e1.table.entries) && |order| == |rs| && i < j < |rs|
    requires forall x :: 0 <= x < |rs| ==> HasNewEntry(e1, rs, order, x, AsWritten)
    requires BlocksFor(rs[i].bytes, e1.dev.blockSize) > BlocksFor(rs[j].bytes, e1.dev.blockSize)
    ensures !Tidy(e1)
  {
    var bs := e1.dev.blockSize;
    MaxBytesBounds(rs[..j + 1], 0);
    assert rs[..j + 1][i] == rs[i];
    BlocksMonotone(rs[i].bytes, CopyLength(rs, j, 0, AsWritten), bs);
    SumBlocksNext(rs, j, bs);
    assert HasNewEntry(e1, rs, order, j, AsWritten);
    var a := e1.table.entries[order[j]];
    assert End(a, bs) > SumBlocks(rs[..j + 1], bs);
    if j + 1 < |rs| {
      assert HasNewEntry(e1, rs, order, j + 1, AsWritten);
      var b := e1.table.entries[order[j + 1]];
      NotEmptyBlocks(CopyLength(rs, j + 1, 0, AsWritten), rs, j + 1, bs);
      hide BlocksFor;
      assert order[j] != order[j + 1] && !Apart(a, b, bs);
    } else {
      hide BlocksFor;
      assert rs[..j + 1] == rs;
    }
  }

  lemma NotEmptyBlocks(length: nat, rs: seq<IndexRecord>, i: nat, bs: nat)
    requires bs > 0 && i < |rs| && rs[i].bytes > 0 && length == CopyLength(rs, i, 0, AsWritten)
    ensures BlocksFor(length, bs) > 0
  {
    MaxBytesBounds(rs[..i + 1], 0);
    assert rs[..i + 1][i] == rs[i];
    BlocksMonotone(rs[i].bytes, length, bs);
    PaddedIsBlocks(rs[i].bytes, bs);
  }

  /**
   * Compaction leaves live extents disjoint and inside the device exactly when the lengths it
   * gives take each record's own blocks: always with the lengths of line 410, and with those of
   * line 420 exactly when the table is walked by ascending block counts. The extents then tile
   * the new device without a gap.
   */
  lemma CompactTidy(e: Engine, s: Spec, order: seq<nat>, mode: Mode)
    requires Refines(e, s) && IsOrder(order, e.table.entries) && CompactionRoom(e, order)
    ensures Tidy(Compact(e, order, mode).1) <==> OwnBlocks(e, order, mode)
    ensures Compact(e, order, mode).1.dev.blocks == SumBlocks(RecordsOf(e.table.entries, order), e.dev.blockSize)
    ensures OwnBlocks(e, order, mode) ==> forall i :: 0 <= i < |order| ==>
              Tile(RecordsOf(e.table.entries, order), i, Compact(e, order, mode).1.table.entries, order,
                  e.dev.blockSize)
  {
    CompactedEntries(e, s, order, mode);
    hide Refines;
    hide Compact;
    hide CompactionRoom;
    hide Inv;
    hide Tidy;
    hide BlocksFor;
    hide CopyLength;
    var rs, bs := RecordsOf(e.table.entries, order), e.dev.blockSize;
    var e1 := Compact(e, order, mode).1;
    if OwnBlocks(e, order, mode) {
      forall i | 0 <= i < |rs| ensures Tile(rs, i, e1.table.entries, order, bs) {
        assert HasNewEntry(e1, rs, order, i, mode);
        AscendingOwnBlocks(rs, i, bs, mode);
        OwnBlocksTile(rs, i, e1.table.entries, order, bs, mode);
      }
      TilesAreTidy(rs, order, e1);
    } else {
      var i, j :| 0 <= i < j < |rs| && BlocksFor(rs[i].bytes, bs) > BlocksFor(rs[j].bytes, bs);
      DescentOverlaps(e1, rs, order, i, j);
    }
  }

  /** Records with their own blocks fit: ascending walks lose nothing. */
  lemma OwnBlocksFit(e: Engine, order: seq<nat>, mode: Mode)
    requires e.dev.blockSize > 0 && IsOrder(order, e.table.entries) && OwnBlocks(e, order, mode)
    ensures AllFit(e, order, mode)
  {
    var rs, bs := RecordsOf(e.table.entries, order), e.dev.blockSize;
    hide BlocksFor;
    hide CopyLength;
    forall i | 0 <= i < |rs| ensures Fits(rs, i, bs, mode) {
      AscendingOwnBlocks(rs, i, bs, mode);
      SumBlocksNext(rs, i, bs);
    }
  }

  /** Disjoint extents inside a 32-bit device have room on a new one. */
  lemma TidyHasRoom(e: Engine, s: Spec, order: seq<nat>)
    requires Refines(e, s) && Tidy(e) && IsOrder(order, e.table.entries)
    ensures CompactionRoom(e, order)
  {
    LiveFitsDevice(e, s, order);
  }

  /**
   * From a tidy state nothing need be assumed about the state: whatever meets what it asks of its
   * environment, and does not compact with lengths that take other blocks, meets the guard.
   */
  lemma TidyGuard(e: Engine, s: Spec, op: Op)
    requires Refines(e, s) && Tidy(e) && Asked(e, op) && KeepsOwnBlocks(e, op)
    ensures Guard(e, op)
  {
    hide Refines;
    hide Tidy;
    hide NeedsCompaction;
    hide OwnBlocks;
    hide AllFit;
    hide CompactionRoom;
    if op.ReopenOp? && NeedsCompaction(Reloaded(e, op), op.opts) {
      TidyHasRoom(e, s, op.copyOrder);
      OwnBlocksFit(e, op.copyOrder, op.mode);
    }
  }

  /** A step keeps live extents apart and inside the device exactly when it keeps each record's own blocks. */
  lemma StepTidy(e: Engine, s: Spec, op: Op)
    requires Refines(e, s) && Tidy(e) && Asked(e, op)
    ensures Tidy(Step(e, op).1) <==> KeepsOwnBlocks(e, op)
  {
    if op.SaveOp? {
      SaveStepTidy(e, op);
    } else if op.ReopenOp? {
      ReopenTidy(e, s, op);
    } else {
      hide BlocksFor;
      hide Represents;
      SmallStepTidy(e, op);
    }
  }

  lemma SmallStepTidy(e: Engine, op: Op)
    requires Inv(e) && Tidy(e) && (op.RemoveOp? || op.LoadOp? || op.NewKeyOp?) && Asked(e, op)
    ensures Tidy(Step(e, op).1)
  {
    hide BlocksFor;
    hide Inv;
  }

  lemma SaveStepTidy(e: Engine, op: Op)
    requires Inv(e) && Tidy(e) && op.SaveOp? && Asked(e, op)
    ensures Tidy(Step(e, op).1)
  {
    DecodeSaved(e.dev, Cleanup(op.rec, op.now), op.orders, op.rec.key);
    hide PrintRec;
    hide Tidy;
    hide Decode;
    SaveTidy(e, op.rec.key, PrintRec(Cleanup(op.rec, op.now), op.orders));
  }

  lemma ReopenTidy(e: Engine, s: Spec, op: Op)
    requires Refines(e, s) && Tidy(e) && op.ReopenOp? && Asked(e, op)
    ensures Tidy(Step(e, op).1) <==> KeepsOwnBlocks(e, op)
  {
    ReopenSteps(e, op);
    ReloadedRefines(e, s, op);
    TidyHasRoom(e, s, op.copyOrder);
    var e1 := Reloaded(e, op);
    assert e1.dev == e.dev;
    SameTidy(e, e1);
    hide Step;
    hide NeedsCompaction;
    hide CompactionFits;
    hide CompactionRoom;
    hide Compact;
    hide Refines;
    hide Tidy;
    hide Reloaded;
    hide BlocksAscending;
    if NeedsCompaction(e1, op.opts) {
      CompactTidy(e1, s, op.copyOrder, op.mode);
    }
  }

  lemma SameTidy(e: Engine, e1: Engine)
    requires Tidy(e) && e1.dev == e.dev && e1.table.entries == e.table.entries
    ensures Tidy(e1)
  {
  }

  lemma TidyStep(e: Engine, s: Spec, op: Op)
    requires Refines(e, s) && Tidy(e) && Asked(e, op) && KeepsOwnBlocks(e, op)
    ensures Guard(e, op) && Refines(Step(e, op).1, SpecStep(s, op).1) && Tidy(Step(e, op).1)
  {
    hide Tidy;
    hide Step;
    hide SpecStep;
    hide Represents;
    hide Asked;
    hide KeepsOwnBlocks;
    TidyGuard(e, s, op);
    StepTidy(e, s, op);
    StepRefines(e, s, op);
  }

  /**
   * A run of which only the environment is asked anything; all it says of the state is how
   * compactions as written walk.
   */
  ghost predicate TidyRuns(e: Engine, s: Spec, ops: seq<Op>)
    requires Refines(e, s) && Tidy(e)
    decreases |ops|
  {
    ops == [] ||
    (&& Asked(e, ops[0]) && KeepsOwnBlocks(e, ops[0])
     && (TidyStep(e, s, ops[0]); TidyRuns(Step(e, ops[0]).1, SpecStep(s, ops[0]).1, ops[1..])))
  }

  /** Such a run meets every guard, and keeps live extents disjoint and inside a file of exactly the counted blocks. */
  lemma {:induction false} RunTidy(e: Engine, s: Spec, ops: seq<Op>)
    requires Refines(e, s) && Tidy(e) && TidyRuns(e, s, ops)
    ensures Runs(e, s, ops) && Tidy(Run(e, s, ops).1) && Aligned(Run(e, s, ops).1.dev)
    decreases |ops|
  {
    assert Inv(e) && Aligned(e.dev);
    hide Step;
    hide SpecStep;
    hide Inv;
    hide Represents;
    hide Asked;
    hide CompactionFits;
    hide KeepsOwnBlocks;
    hide Tidy;
    if ops != [] {
      TidyStep(e, s, ops[0]);
      RunTidy(Step(e, ops[0]).1, SpecStep(s, ops[0]).1, ops[1..]);
    }
  }

  // ---------------------------------------------------------------------------
  // From a new store

  /** The extents of a new store are tidy: one, on the one block of the device. */
  lemma NewStoreTidy(e: Engine, opts: Options)
    requires IsNew(e, opts)
    ensures Tidy(OpenFiles(e, opts).engine)
  {
    var d := Device(opts.blockSize, 0, []);
    EmptyDevice(opts.blockSize);
    NewFiles(e, opts);
    RootRecordFits(d);
    RootAppended(d);
    hide PrintRec;
    hide Decode;
    hide Append;
    hide Padding;
    hide BlocksFor;
    hide OpenFiles;
    hide AreOrders;
  }

  const ROOT_ENTRY: IndexRecord := IndexRecord(ROOT_HANDLE, 0, 48)

  lemma NewStoreTable(e: Engine, opts: Options)
    requires IsNew(e, opts)
    ensures OpenFiles(e, opts).Outcome? && OpenFiles(e, opts).status == Ok
    ensures OpenFiles(e, opts).engine.table == Table(map[ROOT_HANDLE := ROOT_ENTRY], opts.blockSize, 0, 0)
    ensures OpenFiles(e, opts).engine.dev.blockSize == opts.blockSize && OpenFiles(e, opts).engine.index == None
  {
    var d := Device(opts.blockSize, 0, []);
    NewFiles(e, opts);
    EmptyDevice(opts.blockSize);
    RootRecordFits(d);
    RootAppended(d);
    RootLength();
    CreateRootUnfolds(Engine(true, d, true, EMPTY_TABLE.(blockSize := opts.blockSize), e.counter, None));
    hide PrintRec;
    hide Append;
    hide Decode;
    hide OpenFiles;
    hide CreateRoot;
    hide Refines;
    hide Tidy;
  }

  lemma OneEntry(x: IndexRecord, bs: nat)
    requires bs > 0
    ensures RecordsOf(map[x.key := x], [x.key]) == [x] && SumBlocks([x], bs) == BlocksFor(x.bytes, bs)
    ensures IsOrder([x.key], map[x.key := x])
  {
    assert [x][1..] == [];
  }

  /** Compacting a store of the root alone moves nothing, with either length. */
  lemma RootCompacts(e: Engine, mode: Mode)
    requires Refines(e, NEW_STORE) && Tidy(e) && e.table.entries == map[ROOT_HANDLE := ROOT_ENTRY]
    ensures IsOrder([ROOT_HANDLE], e.table.entries)
    ensures var (status, e1) := Compact(e, [ROOT_HANDLE], mode);
            && status == Ok && Refines(e1, NEW_STORE) && Tidy(e1)
            && e1.dev.blocks == 1 && e1.dev.blockSize == e.dev.blockSize
            && e1.table == Table(map[ROOT_HANDLE := ROOT_ENTRY], 0, 0, 0) && e1.index == e.index
  {
    var order, bs := [ROOT_HANDLE], e.dev.blockSize;
    assert Inv(e) && bs >= 48 by { AlignedSize(e.dev); }
    OneEntry(ROOT_ENTRY, bs);
    OneBlockFits(48, bs);
    var rs := RecordsOf(e.table.entries, order);
    assert rs == [ROOT_ENTRY];
    hide Refines;
    hide Tidy;
    hide Inv;
    hide BlocksFor;
    TidyHasRoom(e, NEW_STORE, order);
    OwnBlocksFit(e, order, mode);
    CompactRefines(e, NEW_STORE, order, mode);
    CompactTidy(e, NEW_STORE, order, mode);
    CompactedEntries(e, NEW_STORE, order, mode);
    var e1 := Compact(e, order, mode).1;
    assert HasNewEntry(e1, rs, order, 0, mode);
    RootLengthKept(rs, mode);
    RootOnly(e1);
    CompactedTable(e, order, mode);
  }

  lemma RootLengthKept(rs: seq<IndexRecord>, mode: Mode)
    requires rs == [ROOT_ENTRY]
    ensures CopyLength(rs, 0, 0, mode) == 48 && rs[..0] == []
  {
    assert rs[..1] == rs && rs[1..] == [];
    assert MaxBytes(rs, 0) == MaxBytes([], 48) == 48;
  }

  lemma RootOnly(e: Engine)
    requires IsOrder([ROOT_HANDLE], e.table.entries) && e.table.entries[ROOT_HANDLE] == ROOT_ENTRY
    ensures e.table.entries == map[ROOT_HANDLE := ROOT_ENTRY]
  {
    forall k | k in e.table.entries ensures k == ROOT_HANDLE {
      assert k in [ROOT_HANDLE];
    }
  }

  lemma CompactedTable(e: Engine, order: seq<nat>, mode: Mode)
    requires e.dev.blockSize > 0 && IsOrder(order, e.table.entries) && Compact(e, order, mode).0 == Ok
    ensures var t := Compact(e, order, mode).1.table; t == Table(t.entries, 0, 0, 0)
    ensures Compact(e, order, mode).1.index == e.index
  {
    hide CopyAll;
  }

  /**
   * open on a directory without the files, to its end: when the minimum size allows it, the new
   * store is compacted at once, for it has counted no live block.
   */
  lemma NewStoreOpens(e: Engine, opts: Options, mode: Mode)
    requires IsNew(e, opts)
    ensures OpenFiles(e, opts).Outcome? && IsOrder([ROOT_HANDLE], OpenFiles(e, opts).engine.table.entries)
    ensures NeedsCompaction(OpenFiles(e, opts).engine, opts) <==> opts.minSize <= opts.blockSize
    ensures var o := Open(e, opts, [ROOT_HANDLE], mode);
            && o.Outcome? && o.status == Ok && Refines(o.engine, NEW_STORE) && Tidy(o.engine)
            && o.engine.dev.blocks == 1 && o.engine.dev.blockSize == opts.blockSize
            && o.engine.table.entries == map[ROOT_HANDLE := ROOT_ENTRY] && o.engine.table.blockFootprint == 0
            && o.engine.index == None
  {
    NewStoreRefines(e, opts);
    NewStoreTidy(e, opts);
    NewStoreTable(e, opts);
    hide OpenFiles;
    hide Refines;
    hide Tidy;
    hide Compact;
    RootCompacts(OpenFiles(e, opts).engine, mode);
  }

  ghost function NewStore(e: Engine, opts: Options, mode: Mode): (e1: Engine)
    requires IsNew(e, opts)
    ensures Refines(e1, NEW_STORE) && Tidy(e1) && e1.dev.blocks == 1
  {
    NewStoreOpens(e, opts, mode);
    Open(e, opts, [ROOT_HANDLE], mode).engine
  }

  /**
   * The engine refines a map, from a new store on and with nothing assumed about any state on
   * the way: saves that have room, a root that is kept, one block size, and compactions that
   * give the lengths of line 410, or those of line 420 along ascending block counts.
   */
  lemma NewStoreRuns(e: Engine, opts: Options, mode: Mode, ops: seq<Op>)
    requires IsNew(e, opts) && TidyRuns(NewStore(e, opts, mode), NEW_STORE, ops)
    ensures var e1 := NewStore(e, opts, mode);
            && Runs(e1, NEW_STORE, ops)
            && Run(e1, NEW_STORE, ops).0 == SpecRun(NEW_STORE, ops).0
            && Refines(Run(e1, NEW_STORE, ops).1, SpecRun(NEW_STORE, ops).1)
            && Tidy(Run(e1, NEW_STORE, ops).1)
  {
    hide Refines;
    hide Tidy;
    hide TidyRuns;
    hide Runs;
    hide SpecRun;
    hide NewStore;
    RunTidy(NewStore(e, opts, mode), NEW_STORE, ops);
    RunRefines(NewStore(e, opts, mode), NEW_STORE, ops);
  }
}
