// When open refuses, when it compacts, and what it makes of a store that was never closed or has
// lost its root (lib/ondisk/StorageEngine.hpp:210-246, 371-383).

module EngineOpens {
  import opened Wrappers
  import opened Serialization
  import opened Records
  import opened LogDevices
  import opened IndexTables
  import opened Engines
  import opened Compaction
  import opened EngineRuns
  import opened Extents
  import opened StaleIndex

  // ---------------------------------------------------------------------------
  // An engine that is not open

  /** A closed engine refuses every call and is left as it is. */
  lemma ClosedRefuses(e: Engine, key: nat, buf: Bytes, now: int, order: seq<nat>)
    requires !e.isOpen && IsOrder(order, e.table.entries)
    ensures Load(e, key, now) == Refused(if key == INVALID_HANDLE then InvalidArgument else IOError)
    ensures !SaveBytes(e, key, buf).0.Ok? && SaveBytes(e, key, buf).1 == e
    ensures key != INVALID_HANDLE && buf != [] ==> SaveBytes(e, key, buf).0 == IOError
    ensures Remove(e, key) == (IOError, e)
    ensures Close(e, order) == e
  {
    hide PrintIndexFile;
    hide Append;
    hide LoadExtent;
  }

  /** What an open engine refuses to save: the null key, nothing, and 4 GiB or more. */
  lemma SaveRefuses(e: Engine, key: nat, buf: Bytes)
    requires e.isOpen && e.dev.blockSize > 0
    ensures SaveBytes(e, key, buf).0.Ok? <==> key != INVALID_HANDLE && 0 < |buf| < TWO32
    ensures !SaveBytes(e, key, buf).0.Ok? ==>
              SaveBytes(e, key, buf)
              == (if key == INVALID_HANDLE then InvalidArgument else if buf == [] then Fatal else IOError, e)
  {
    hide Append;
  }

  /** The key counter goes up by one, and after the last 64-bit key starts over at the null key. */
  lemma KeysGoRound(e: Engine)
    requires e.counter < TWO64
    ensures NewKey(e) == e.(counter := if e.counter == TWO64 - 1 then INVALID_HANDLE else e.counter + 1)
  {
  }

  /** close leaves the log as it is and writes counter and table; nothing else does. */
  lemma CloseWrites(e: Engine, order: seq<nat>)
    requires e.isOpen && IsOrder(order, e.table.entries)
    ensures var e1 := Close(e, order);
            && !e1.isOpen && e1.dev.file == e.dev.file && e1.logExists == e.logExists
            && e1.index == Some(PrintIndexFile(e.counter, RecordsOf(e.table.entries, order)))
  {
    hide PrintIndexFile;
  }

  // ---------------------------------------------------------------------------
  // Broken storage

  /** A count that, as a signed number, is not positive. */
  predicate NoCount(count: nat) {
    count == 0 || TWO64 <= 2 * count < 2 * TWO64
  }

  /** The index file is missing, or holds a key counter and no entries. */
  ghost predicate NoEntries(e: Engine) {
    && e.table.entries == map[]
    && (e.index == None
        || exists counter: nat, count: nat, rest: Bytes ::
             counter < TWO64 && NoCount(count) && e.index == Some(PrintUInt(counter, 8) + PrintUInt(count, 8) + rest))
  }

  lemma NothingLoaded(counter: nat, count: nat, rest: Bytes, t: Table)
    requires counter < TWO64 && NoCount(count)
    ensures ParseIndexFile(PrintUInt(counter, 8) + PrintUInt(count, 8) + rest, t) == Got((counter, t), rest)
  {
    Pow256Values();
    var b := PrintUInt(counter, 8) + PrintUInt(count, 8) + rest;
    assert b == PrintUInt(counter, 8) + (PrintUInt(count, 8) + rest);
    ParsePrintUInt(counter, 8, PrintUInt(count, 8) + rest);
    ParsePrintUInt(count, 8, rest);
    hide ParseUInt;
    hide PrintUInt;
  }

  /** Loading such an index puts nothing in the table. */
  lemma NoEntriesLoad(e: Engine, bs: nat)
    requires NoEntries(e)
    ensures var o := OpenIndexTable(e, bs);
            && o.Outcome? && o.status == Ok
            && o.engine == e.(counter := o.engine.counter, table := e.table.(blockSize := bs))
  {
    var t := e.table.(blockSize := bs);
    if e.index.Some? {
      var counter: nat, count: nat, rest: Bytes :|
        counter < TWO64 && NoCount(count) && e.index == Some(PrintUInt(counter, 8) + PrintUInt(count, 8) + rest);
      NothingLoaded(counter, count, rest, t);
    }
    hide ParseIndexFile;
    hide PrintUInt;
  }

  lemma FilesUnfold(e: Engine, opts: Options, e1: Engine)
    requires ValidOptions(opts) && opts.blockSize % MIN_BLOCK_SIZE == 0 && (opts.createNew || e.logExists)
    requires var file := if e.logExists then e.dev.file else [];
             OpenIndexTable(e.(dev := OpenDevice(opts.blockSize, file), logExists := true), opts.blockSize)
             == Outcome(Ok, e1)
    requires e1.dev.blockSize > 0
    ensures OpenFiles(e, opts)
            == if e1.table.entries == map[] && e1.dev.blocks > 0 then Outcome(Fatal, e1)
               else if ROOT_HANDLE in e1.table.entries then Outcome(Ok, e1.(isOpen := true))
               else
                 var (status, e3) := CreateRoot(e1.(isOpen := true));
                 Outcome(status, e3.(isOpen := status.Ok?))
  {
    hide OpenIndexTable;
    hide CreateRoot;
    hide OpenDevice;
  }

  lemma RootCreated(e: Engine)
    requires e.isOpen && e.dev.blockSize > 0
    ensures var (status, e1) := CreateRoot(e);
            && status == Ok && e1.isOpen && e1.counter == ROOT_HANDLE + 1 && e1.dev.blockSize == e.dev.blockSize
            && e1.table.entries.Keys == e.table.entries.Keys + {ROOT_HANDLE}
            && forall k <- e.table.entries :: k != ROOT_HANDLE ==> e1.table.entries[k] == e.table.entries[k]
  {
    NoPairs();
    RootLength();
    CreateRootUnfolds(e);
    hide CreateRoot;
    hide PrintRec;
    hide AreOrders;
  }

  /**
   * A log without entries in its index is broken storage: open is fatal, exactly when the log has a
   * whole block (in the 32 bits of the count), and then it touches neither file.
   */
  lemma BrokenStorage(e: Engine, opts: Options, order: seq<nat>, mode: Mode)
    requires !e.isOpen && e.logExists && NoEntries(e)
    requires ValidOptions(opts) && opts.blockSize % MIN_BLOCK_SIZE == 0
    requires var o := OpenFiles(e, opts); o.Outcome? ==> IsOrder(order, o.engine.table.entries)
    ensures var o := Open(e, opts, order, mode);
            && o.Outcome?
            && (o.status == Fatal <==> |e.dev.file| / opts.blockSize % TWO32 > 0)
            && (o.status == Fatal ==>
                  o.engine.dev.file == e.dev.file && o.engine.index == e.index
                  && !o.engine.isOpen && o.engine.table.entries == map[])
  {
    var e0 := e.(dev := OpenDevice(opts.blockSize, e.dev.file), logExists := true);
    NoEntriesLoad(e0, opts.blockSize);
    var e1 := OpenIndexTable(e0, opts.blockSize).engine;
    FilesUnfold(e, opts, e1);
    if e1.dev.blocks == 0 {
      RootCreated(e1.(isOpen := true));
    }
    hide OpenIndexTable;
    hide NoEntries;
    hide CreateRoot;
    hide OpenFiles;
    hide CopyAll;
    hide NeedsCompaction;
  }

  /** What a process that opens the files after a crash starts from, when there is no index file. */
  function NeverClosed(blockSize: nat, log: Bytes): Engine {
    Engine(false, Device(blockSize, 0, log), true, EMPTY_TABLE, 0, None)
  }

  lemma FilesAreFatal(e: Engine, opts: Options)
    requires !e.isOpen && e.logExists && NoEntries(e)
    requires ValidOptions(opts) && opts.blockSize % MIN_BLOCK_SIZE == 0 && |e.dev.file| / opts.blockSize % TWO32 > 0
    ensures OpenFiles(e, opts).Outcome? && OpenFiles(e, opts).engine.table.entries == map[]
  {
    var e0 := e.(dev := OpenDevice(opts.blockSize, e.dev.file), logExists := true);
    NoEntriesLoad(e0, opts.blockSize);
    FilesUnfold(e, opts, OpenIndexTable(e0, opts.blockSize).engine);
    hide OpenIndexTable;
    hide NoEntries;
    hide CreateRoot;
  }

  /** Opening this log with no index file is fatal, and leaves the log as it is and writes no index. */
  ghost predicate OpenIsFatal(log: Bytes, opts: Options, mode: Mode) {
    && ValidOptions(opts)
    && var crashed := NeverClosed(opts.blockSize, log);
       && (OpenFiles(crashed, opts).Outcome? ==> IsOrder([], OpenFiles(crashed, opts).engine.table.entries))
       && var o := Open(crashed, opts, [], mode);
          o.Outcome? && o.status == Fatal && o.engine.dev.file == log && o.engine.index == None
  }

  /**
   * A first session that never closes. Whatever it saved, and with any part of a further append
   * on disk, the store cannot be opened again: open is fatal, and leaves log and index as they are.
   */
  lemma FirstSessionLost(e: Engine, opts: Options, mode: Mode, ops: seq<Op>, torn: Bytes, again: Options, later: Mode)
    requires IsNew(e, opts) && Runs(NewStore(e, opts, mode), NEW_STORE, ops) && InSession(ops)
    requires ValidOptions(again) && again.blockSize == opts.blockSize
    requires (|Run(NewStore(e, opts, mode), NEW_STORE, ops).1.dev.file| + |torn|) / opts.blockSize < TWO32
    ensures var last := Run(NewStore(e, opts, mode), NEW_STORE, ops).1;
            last.index == None && OpenIsFatal(last.dev.file + torn, again, later)
  {
    hide *;
    var e1 := NewStore(e, opts, mode);
    NewStoreFacts(e, opts, mode);
    SessionGrows(e1, NEW_STORE, ops);
    var last := Run(e1, NEW_STORE, ops).1;
    WholeBlock(e1.dev, last.dev, torn);
    SameBlockSize(opts, again);
    NoIndexIsFatal(last.dev.file + torn, again, later);
  }

  lemma NewStoreFacts(e: Engine, opts: Options, mode: Mode)
    requires IsNew(e, opts)
    ensures var e1 := NewStore(e, opts, mode);
            && Aligned(e1.dev) && e1.dev.blocks >= 1 && e1.dev.blockSize == opts.blockSize > 0 && e1.index == None
    ensures opts.blockSize % MIN_BLOCK_SIZE == 0
  {
    NewStoreOpens(e, opts, mode);
    assert Inv(NewStore(e, opts, mode));
    hide Represents;
    hide Tidy;
    hide Open;
    hide OpenFiles;
  }

  lemma SameBlockSize(opts: Options, again: Options)
    requires again.blockSize == opts.blockSize
    ensures again.blockSize % MIN_BLOCK_SIZE == opts.blockSize % MIN_BLOCK_SIZE
  {
  }

  lemma NoIndexIsFatal(log: Bytes, opts: Options, mode: Mode)
    requires ValidOptions(opts) && opts.blockSize % MIN_BLOCK_SIZE == 0 && |log| / opts.blockSize % TWO32 > 0
    ensures OpenIsFatal(log, opts, mode)
  {
    var crashed := NeverClosed(opts.blockSize, log);
    NoIndexNoEntries(crashed);
    FilesAreFatal(crashed, opts);
    hide OpenFiles;
    hide NoEntries;
    BrokenStorage(crashed, opts, [], mode);
    hide Open;
  }

  lemma NoIndexNoEntries(e: Engine)
    requires e.table.entries == map[] && e.index == None
    ensures NoEntries(e)
  {
  }

  /** A device of at least one block has grown: its log, torn or not, has a whole block. */
  lemma WholeBlock(d: Device, d1: Device, torn: Bytes)
    requires Aligned(d) && d.blocks >= 1 && Grown(d, d1)
    requires (|d1.file| + |torn|) / d.blockSize < TWO32
    ensures |d1.file + torn| / d.blockSize % TWO32 > 0
  {
    hide Padding;
    assert |d.file| <= |d1.file + torn|;
    assert d.blocks * d.blockSize >= d.blockSize by { MulMonotone(1, d.blocks, d.blockSize); }
    AtLeastOne(|d1.file + torn|, d.blockSize);
  }

  lemma AtLeastOne(n: nat, bs: nat)
    requires 0 < bs <= n
    ensures n / bs >= 1
  {
  }

  // ---------------------------------------------------------------------------
  // When open compacts

  /** The sum of live blocks does not depend on the walk. */
  lemma {:induction false} SumAnyOrder(entries: map<nat, IndexRecord>, a: seq<nat>, b: seq<nat>, bs: nat)
    requires bs > 0 && IsOrder(a, entries) && IsOrder(b, entries)
    ensures SumBlocks(RecordsOf(entries, a), bs) == SumBlocks(RecordsOf(entries, b), bs)
    decreases |a|
  {
    hide *;
    OrderIn(entries, a);
    OrderIn(entries, b);
    if a != [] {
      var j := PlaceOf(entries, a, b);
      WithoutOrder(entries, a, 0);
      WithoutOrder(entries, b, j);
      SumWithout(RecordsOf(entries, a), 0, bs);
      SumWithout(RecordsOf(entries, b), j, bs);
      SumAnyOrder(entries - {a[0]}, a[..0] + a[1..], b[..j] + b[j + 1..], bs);
    } else {
      NoneLeft(entries, a, b);
    }
  }

  lemma NoneLeft(entries: map<nat, IndexRecord>, a: seq<nat>, b: seq<nat>)
    requires IsOrder(a, entries) && IsOrder(b, entries) && a == []
    ensures b == []
  {
    OrderLength(a, entries);
    OrderLength(b, entries);
  }

  lemma OrderIn(entries: map<nat, IndexRecord>, order: seq<nat>)
    requires IsOrder(order, entries)
    ensures forall k :: k in order ==> k in entries
  {
  }

  lemma PlaceOf(entries: map<nat, IndexRecord>, a: seq<nat>, b: seq<nat>) returns (j: nat)
    requires IsOrder(a, entries) && IsOrder(b, entries) && a != []
    ensures j < |b| && b[j] == a[0]
    ensures RecordsOf(entries, a)[0] == RecordsOf(entries, b)[j]
  {
    assert a[0] in a && a[0] in b;
    j :| 0 <= j < |b| && b[j] == a[0];
  }

  lemma WithoutOrder(entries: map<nat, IndexRecord>, order: seq<nat>, i: nat)
    requires IsOrder(order, entries) && i < |order|
    ensures var rest, others := entries - {order[i]}, order[..i] + order[i + 1..];
            IsOrder(others, rest) && RecordsOf(rest, others) == Extents.Without(RecordsOf(entries, order), i)
  {
    OthersOnce(order, i, entries);
    var rest, others := entries - {order[i]}, order[..i] + order[i + 1..];
    OrderIn(entries, order);
    OrderIn(rest, others);
    hide IsOrder;
    var a, b := RecordsOf(rest, others), Extents.Without(RecordsOf(entries, order), i);
    forall j | 0 <= j < |others| ensures a[j] == b[j] {
      assert others[j] == order[if j < i then j else j + 1];
    }
    assert |a| == |b|;
  }

  lemma OthersOnce(order: seq<nat>, i: nat, entries: map<nat, IndexRecord>)
    requires IsOrder(order, entries) && i < |order|
    ensures IsOrder(order[..i] + order[i + 1..], entries - {order[i]})
  {
    var others := order[..i] + order[i + 1..];
    forall k | k in entries && k != order[i] ensures k in others {
      var j :| 0 <= j < |order| && order[j] == k;
      assert others[if j < i then j else j - 1] == k;
    }
    forall j | 0 <= j < |others| ensures others[j] in entries && others[j] != order[i] {
      assert others[j] == order[if j < i then j else j + 1];
    }
  }

  /** What a close and open answers and leaves, by the numbers it looks at. */
  ghost predicate OpensBySize(e: Engine, op: Op, answer: Out, e1: Engine)
    requires op.ReopenOp? && e.dev.blockSize > 0 && IsOrder(op.order, e.table.entries)
  {
    var bs, blocks := e.dev.blockSize, e.dev.blocks;
    var live := SumBlocks(RecordsOf(e.table.entries, op.order), bs);
    var counted := ((if op.fresh_ then 0 else e.table.blockFootprint) + live) % TWO64;
    && answer == Done(Ok) && (op.fresh_ ==> counted == live)
    && if bs * blocks < op.opts.minSize || counted * op.opts.ratioDen > op.opts.ratioNum * blocks
       then e1.dev == e.dev && e1.table.entries == e.table.entries && e1.table.blockFootprint == counted
       else e1.dev.blocks == live && e1.table.entries.Keys == e.table.entries.Keys && e1.table.blockFootprint == 0
  }

  /**
   * Exactly when an open compacts: the log has at least the minimum size, and the share of it
   * that the engine has counted as live is at most the ratio. Then the device is just the live
   * blocks; otherwise log and entries are as before. For a new object the count is the live blocks.
   */
  lemma OpenCompactsExactly(e: Engine, s: Spec, op: Op)
    requires Refines(e, s) && Tidy(e) && op.ReopenOp? && Asked(e, op) && e.table.blockFootprint < TWO64
    ensures OpensBySize(e, op, Step(e, op).0, Step(e, op).1)
  {
    hide *;
    OpenedParts(e, s, op);
    var e1 := Reloaded(e, op);
    FootprintWithinDevice(e, s, op);
    ReopenSteps(e, op);
    ReloadedRefines(e, s, op);
    ReloadedFootprint(e, op);
    TidyHasRoom(e, s, op.copyOrder);
    SumAnyOrder(e.table.entries, op.order, op.copyOrder, e.dev.blockSize);
    CompactsIs(e1, op.opts);
    if NeedsCompaction(e1, op.opts) {
      Compacted(e1, s, op.copyOrder, op.mode);
    }
    MakeOpensBySize(e, op, Step(e, op).0, Step(e, op).1);
  }

  lemma OpenedParts(e: Engine, s: Spec, op: Op)
    requires Refines(e, s) && op.ReopenOp? && Asked(e, op)
    ensures Inv(e) && op.opts.blockSize == e.dev.blockSize > 0
    ensures IsOrder(op.order, e.table.entries) && IsOrder(op.copyOrder, e.table.entries)
  {
    hide Aligned;
    hide Represents;
  }

  lemma MakeOpensBySize(e: Engine, op: Op, answer: Out, e1: Engine)
    requires op.ReopenOp? && e.dev.blockSize > 0 && IsOrder(op.order, e.table.entries)
    requires answer == Done(Ok)
    requires var live := SumBlocks(RecordsOf(e.table.entries, op.order), e.dev.blockSize);
             var counted := (CountedBefore(e, op) + live) % TWO64;
             && (op.fresh_ ==> counted == live)
             && if e.dev.blockSize * e.dev.blocks < op.opts.minSize
                   || counted * op.opts.ratioDen > op.opts.ratioNum * e.dev.blocks
                then e1.dev == e.dev && e1.table.entries == e.table.entries && e1.table.blockFootprint == counted
                else e1.dev.blocks == live && e1.table.entries.Keys == e.table.entries.Keys
                     && e1.table.blockFootprint == 0
    ensures OpensBySize(e, op, answer, e1)
  {
    hide SumBlocks;
    hide RecordsOf;
    hide IsOrder;
  }

  /** What a compaction leaves: the live blocks, the keys, and nothing counted. */
  lemma Compacted(e: Engine, s: Spec, order: seq<nat>, mode: Mode)
    requires Refines(e, s) && IsOrder(order, e.table.entries) && CompactionRoom(e, order)
    ensures var (status, e1) := Compact(e, order, mode);
            && status == Ok && e1.dev.blocks == SumBlocks(RecordsOf(e.table.entries, order), e.dev.blockSize)
            && e1.table.entries.Keys == e.table.entries.Keys && e1.table.blockFootprint == 0
  {
    CompactedEntries(e, s, order, mode);
    hide Compact;
    hide Refines;
    hide CompactionRoom;
    CompactedTable(e, order, mode);
    SameKeys(e.table.entries, Compact(e, order, mode).1.table.entries, order);
  }

  lemma CompactsIs(e: Engine, opts: Options)
    ensures NeedsCompaction(e, opts)
            <==> !(e.dev.blockSize * e.dev.blocks < opts.minSize
                   || e.table.blockFootprint * opts.ratioDen > opts.ratioNum * e.dev.blocks)
  {
  }

  lemma SameKeys(a: map<nat, IndexRecord>, b: map<nat, IndexRecord>, order: seq<nat>)
    requires IsOrder(order, a) && IsOrder(order, b)
    ensures a.Keys == b.Keys
  {
    assert forall k :: k in a <==> k in order;
  }

  // ---------------------------------------------------------------------------
  // The other answers of open

  /** A bad block size, and a missing log that may not be created, are refused and nothing changes. */
  lemma OpenRefuses(e: Engine, opts: Options, order: seq<nat>, mode: Mode)
    requires !e.isOpen && ValidOptions(opts)
    requires var o := OpenFiles(e, opts); o.Outcome? ==> IsOrder(order, o.engine.table.entries)
    ensures opts.blockSize % MIN_BLOCK_SIZE != 0 ==> Open(e, opts, order, mode) == Outcome(InvalidArgument, e)
    ensures opts.blockSize % MIN_BLOCK_SIZE == 0 && !opts.createNew && !e.logExists ==>
              Open(e, opts, order, mode) == Outcome(IOError, e)
  {
    hide OpenIndexTable;
    hide CreateRoot;
    hide Compact;
  }

  /**
   * A store that has lost its root. Remove it, close and open: with other records left, open gives
   * the store a root again and starts the key counter over, so that keys in use are handed out
   * again; with none left it is fatal.
   */
  lemma RootRecreated(e: Engine, s: Spec, order: seq<nat>, opts: Options)
    requires Refines(e, s) && ValidOptions(opts) && opts.blockSize == e.dev.blockSize
    requires IsOrder(order, Remove(e, ROOT_HANDLE).1.table.entries)
    ensures Remove(e, ROOT_HANDLE).0 == Ok
    ensures var e1 := Remove(e, ROOT_HANDLE).1;
            var o := OpenFiles(Fresh(Close(e1, order)), opts);
            && o.Outcome?
            && (order == [] ==> o.status == Fatal)
            && (order != [] ==>
                  o.status == Ok && o.engine.table.entries.Keys == e.table.entries.Keys
                  && o.engine.counter == ROOT_HANDLE + 1)
  {
    var e1 := Remove(e, ROOT_HANDLE).1;
    assert Inv(e) && e1.table.entries == e.table.entries - {ROOT_HANDLE};
    assert |e1.table.entries| <= |e.table.entries| by { SubsetSize(e1.table.entries.Keys, e.table.entries.Keys); }
    OrderLength(order, e1.table.entries);
    var bs := opts.blockSize;
    var closed := Fresh(Close(e1, order));
    CloseWrites(e1, order);
    var e2 := closed.(dev := OpenDevice(bs, closed.dev.file), logExists := true);
    OpenAligned(e.dev);
    ClosedIndexLoads(e1.counter, e1.table.entries, order, e2, bs);
    hide Refines;
    hide LoadAll;
    hide PrintIndexFile;
    hide OpenIndexTable;
    var loaded := OpenIndexTable(e2, bs).engine;
    FilesUnfold(closed, opts, loaded);
    hide OpenFiles;
    hide CreateRoot;
    hide Close;
    if order != [] {
      assert order[0] in order && order[0] in e1.table.entries;
      RootCreated(loaded.(isOpen := true));
    } else {
      assert e1.table.entries == map[];
    }
  }
}
