// The index file is only written by close. Between two closes it is stale, but it stays
// safe: the log only grows, so the old index read against the new log, even one cut off in
// the middle of an append, still decodes to the store as of the last close.

module StaleIndex {
  import opened Wrappers
  import opened Serialization
  import opened Records
  import opened LogDevices
  import opened IndexTables
  import opened Engines
  import opened EngineRuns

  /** What a process that opens the files after a crash starts from. */
  function Crashed(blockSize: nat, log: Bytes, index: Bytes): Engine {
    Engine(false, Device(blockSize, 0, log), true, EMPTY_TABLE, 0, Some(index))
  }

  /** A session between two closes: no reopening, hence no compaction and no index write. */
  predicate InSession(ops: seq<Op>) {
    forall i :: 0 <= i < |ops| ==> !ops[i].ReopenOp?
  }

  /** Footprints are counted when the index is loaded, and at no other time. */
  predicate SameFootprint(e: Engine, e1: Engine) {
    && e1.table.blockSize == e.table.blockSize
    && e1.table.blockFootprint == e.table.blockFootprint && e1.table.diskFootprint == e.table.diskFootprint
  }

  lemma SaveGrows(e: Engine, op: Op)
    requires Inv(e) && op.SaveOp? && Asked(e, op)
    ensures Grown(e.dev, Step(e, op).1.dev) && Step(e, op).1.index == e.index
    ensures SameFootprint(e, Step(e, op).1)
  {
    DecodeSaved(e.dev, Cleanup(op.rec, op.now), op.orders, op.rec.key);
    hide PrintRec;
    hide Decode;
    hide BlocksFor;
    hide Padding;
    AppendAligned(e.dev, PrintRec(Cleanup(op.rec, op.now), op.orders), 0);
  }

  lemma OpGrows(e: Engine, op: Op)
    requires Inv(e) && Asked(e, op) && !op.ReopenOp?
    ensures Grown(e.dev, Step(e, op).1.dev) && Step(e, op).1.index == e.index
    ensures SameFootprint(e, Step(e, op).1)
  {
    if op.SaveOp? {
      hide Asked;
      SaveGrows(e, op);
    }
  }

  lemma {:induction false} SessionGrows(e: Engine, s: Spec, ops: seq<Op>)
    requires Refines(e, s) && Runs(e, s, ops) && InSession(ops)
    ensures var last := Run(e, s, ops).1; Grown(e.dev, last.dev) && last.index == e.index && SameFootprint(e, last)
    decreases |ops|
  {
    assert Inv(e);
    hide Step;
    hide SpecStep;
    hide Asked;
    hide CompactionFits;
    hide Inv;
    hide Represents;
    if ops != [] {
      OpGrows(e, ops[0]);
      StepRefines(e, s, ops[0]);
      SessionGrows(Step(e, ops[0]).1, SpecStep(s, ops[0]).1, ops[1..]);
    }
  }

  lemma DivMonotone(a: nat, b: nat, m: nat)
    requires m > 0 && a <= b
    ensures a / m <= b / m
  {
    if b / m < a / m {
      MulMonotone(b / m + 1, a / m, m);
    }
  }

  /** A device and any longer log behind it. */
  lemma OpenGrown(d: Device, log: Bytes)
    requires Aligned(d) && d.file <= log && |log| / d.blockSize < TWO32
    ensures Backed(OpenDevice(d.blockSize, log)) && Grown(d, OpenDevice(d.blockSize, log))
  {
    OpenBacked(d.blockSize, log);
    DivMonotone(|d.file|, |log|, d.blockSize);
    OpenAligned(d);
    hide Aligned;
    hide Backed;
  }

  /** The index of a closed store opens against any longer log, to the store as of the close. */
  lemma OldIndexOpens(e: Engine, order: seq<nat>, log: Bytes, opts: Options)
    requires Inv(e) && IsOrder(order, e.table.entries)
    requires ValidOptions(opts) && opts.blockSize == e.dev.blockSize
    requires e.dev.file <= log && |log| / opts.blockSize < TWO32
    ensures var index := PrintIndexFile(e.counter, RecordsOf(e.table.entries, order));
            var o := OpenFiles(Crashed(opts.blockSize, log, index), opts);
            o.Outcome? && o.status == Ok && o.engine.isOpen
            && o.engine.dev == OpenDevice(opts.blockSize, log)
            && o.engine.counter == e.counter && o.engine.table.entries == e.table.entries
  {
    hide OpenIndexTable;
    hide PrintIndexFile;
    hide LoadAll;
    hide CreateRoot;
    var index := PrintIndexFile(e.counter, RecordsOf(e.table.entries, order));
    OrderLength(order, e.table.entries);
    var e1 := Crashed(opts.blockSize, log, index).(dev := OpenDevice(opts.blockSize, log));
    ClosedIndexLoads(e.counter, e.table.entries, order, e1, opts.blockSize);
  }

  /** A store of the old entries over a grown device still holds every record. */
  lemma OldEntriesDecode(e: Engine, s: Spec, e1: Engine)
    requires Refines(e, s) && Backed(e1.dev) && Grown(e.dev, e1.dev)
    requires e1.counter == e.counter && e1.table.entries == e.table.entries
    ensures Represents(e1, s)
  {
    forall k | k in s.m ensures Decode(e1.dev, e.table.entries[k]) == Some(s.m[k]) {
      DecodeGrown(e.dev, e1.dev, e.table.entries[k]);
    }
  }

  /** Opening this index file against this log file gives an open engine that holds the map. */
  ghost predicate Recovers(index: Option<Bytes>, log: Bytes, opts: Options, s: Spec) {
    && index.Some? && ValidOptions(opts)
    && var o := OpenFiles(Crashed(opts.blockSize, log, index.value), opts);
       o.Outcome? && o.status == Ok && o.engine.isOpen && o.engine.dev.blockSize > 0 && Represents(o.engine, s)
  }

  /** A session begins: the store is closed and opened again, without a compaction. */
  ghost function Session(e: Engine, s: Spec, op: Op): (e1: Engine)
    requires Refines(e, s) && op.ReopenOp? && Asked(e, op) && !NeedsCompaction(Reloaded(e, op), op.opts)
    ensures Refines(e1, s) && e1.dev == e.dev
    ensures e1.index == Some(PrintIndexFile(e.counter, RecordsOf(e.table.entries, op.order)))
  {
    StepRefines(e, s, op);
    ReopenSteps(e, op);
    ReloadedFacts(e, op);
    Step(e, op).1
  }

  lemma ReloadedFacts(e: Engine, op: Op)
    requires op.ReopenOp? && IsOrder(op.order, e.table.entries)
    ensures Reloaded(e, op).dev == e.dev
    ensures Reloaded(e, op).index == Some(PrintIndexFile(e.counter, RecordsOf(e.table.entries, op.order)))
  {
    hide PrintIndexFile;
    hide LoadAll;
  }

  /**
   * Stale index safety. Close a store `e`, reopen it without compaction, run any session, and
   * stop anywhere, with any part of a further append (`torn`) on disk: opening the files then
   * succeeds and gives back the keys, the records and the key counter as of the close.
   */
  lemma StaleIndexSafe(e: Engine, s: Spec, op: Op, ops: seq<Op>, torn: Bytes)
    requires Refines(e, s) && op.ReopenOp? && Asked(e, op) && !NeedsCompaction(Reloaded(e, op), op.opts)
    requires Runs(Session(e, s, op), s, ops) && InSession(ops)
    requires (|Run(Session(e, s, op), s, ops).1.dev.file| + |torn|) / op.opts.blockSize < TWO32
    ensures var last := Run(Session(e, s, op), s, ops).1; Recovers(last.index, last.dev.file + torn, op.opts, s)
  {
    hide NeedsCompaction;
    hide Runs;
    hide PrintIndexFile;
    hide Recovers;
    hide Refines;
    hide Reloaded;
    hide Step;
    var e1 := Session(e, s, op);
    SessionGrows(e1, s, ops);
    hide Session;
    LongerLogOpens(e, s, op.order, Run(e1, s, ops).1.dev.file + torn, op.opts);
  }

  lemma LongerLogOpens(e: Engine, s: Spec, order: seq<nat>, log: Bytes, opts: Options)
    requires Refines(e, s) && IsOrder(order, e.table.entries)
    requires ValidOptions(opts) && opts.blockSize == e.dev.blockSize
    requires e.dev.file <= log && |log| / opts.blockSize < TWO32
    ensures Recovers(Some(PrintIndexFile(e.counter, RecordsOf(e.table.entries, order))), log, opts, s)
  {
    OpenGrown(e.dev, log);
    OldIndexOpens(e, order, log, opts);
    hide OpenFiles;
    hide PrintIndexFile;
    hide OpenDevice;
    hide Represents;
    var index := PrintIndexFile(e.counter, RecordsOf(e.table.entries, order));
    OldEntriesDecode(e, s, OpenFiles(Crashed(opts.blockSize, log, index), opts).engine);
  }
}
