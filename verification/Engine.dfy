// The storage engine as a value: an index over the log device, the key counter, and the two
// files on disk (lib/ondisk/StorageEngine.hpp). Each operation is a function of that value.

module Engines {
  import opened Wrappers
  import opened Serialization
  import opened Records
  import opened LogDevices
  import opened IndexTables

  /** `dev.file` is the log file and `index` the index file; both outlive a close. */
  datatype Engine = Engine(
    isOpen: bool,
    dev: Device,
    logExists: bool,
    table: Table,
    counter: nat,
    index: Option<Bytes>)

  /** The compaction ratio is the fraction ratioNum / ratioDen. */
  datatype Options = Options(blockSize: nat, createNew: bool, minSize: nat, ratioNum: nat, ratioDen: nat)

  predicate ValidOptions(opts: Options) {
    0 < opts.blockSize < TWO32 && opts.ratioDen > 0
  }

  /** How compaction fills in a record's length: the size of its growing buffer, or the record's own. */
  datatype Mode = AsWritten | AsIntended

  datatype Loaded = Loaded(rec: Rec) | Garbled | Refused(status: Status)

  /** A truncated index file leaves the engine in no definite state. */
  datatype Outcome = Outcome(status: Status, engine: Engine) | Indeterminate

  /** The record an extent of the device holds, before expired properties are dropped. */
  function Decode(d: Device, r: IndexRecord): Option<Rec>
    requires d.blockSize > 0
  {
    match Read(d, r.block, r.bytes)
    case None => None
    case Some(b) => match ParseRaw(b) case Short => None case Got(x, _) => Some(x.0)
  }

  function Load(e: Engine, key: nat, now: int): Loaded
    requires e.isOpen ==> e.dev.blockSize > 0
  {
    if key == INVALID_HANDLE then Refused(InvalidArgument)
    else if !e.isOpen then Refused(IOError)
    else if key !in e.table.entries then Refused(InvalidArgument)
    else LoadExtent(e.dev, e.table.entries[key], now)
  }

  /** The part of load that follows the index lookup. */
  function LoadExtent(d: Device, r: IndexRecord, now: int): Loaded
    requires d.blockSize > 0
  {
    var (status, b) := ReadInto(d, r.block, [], r.bytes);
    if !status.Ok? then Refused(status)
    else match ParseRec(b, now) case Short => Garbled case Got(x, _) => Loaded(x.0)
  }

  /** Saving a printed record under a key. */
  function SaveBytes(e: Engine, key: nat, buf: Bytes): (Status, Engine)
    requires e.isOpen ==> e.dev.blockSize > 0
  {
    if key == INVALID_HANDLE then (InvalidArgument, e)
    else if buf == [] then (Fatal, e)
    else if |buf| >= TWO32 then (IOError, e)
    else if !e.isOpen then (IOError, e)
    else
      var a := Append(e.dev, buf, 0);
      (Ok, e.(dev := a.device, table := Insert(e.table, IndexRecord(key, a.index, |buf|))))
  }

  function Remove(e: Engine, key: nat): (Status, Engine) {
    if !e.isOpen then (IOError, e)
    else if key !in e.table.entries then (InvalidArgument, e)
    else (Ok, e.(table := Erase(e.table, key)))
  }

  /** The key handed out is the counter before the step. */
  function NewKey(e: Engine): Engine {
    e.(counter := (e.counter + 1) % TWO64)
  }

  /** Writes the index file, walking the table in the given order. */
  ghost function Close(e: Engine, order: seq<nat>): Engine
    requires IsOrder(order, e.table.entries)
  {
    if !e.isOpen then e
    else e.(isOpen := false, dev := e.dev.(blocks := 0),
            index := Some(PrintIndexFile(e.counter, RecordsOf(e.table.entries, order))))
  }

  /** A newly constructed engine over the same files. */
  function Fresh(e: Engine): Engine {
    Engine(false, Device(e.dev.blockSize, 0, e.dev.file), e.logExists, EMPTY_TABLE, 0, e.index)
  }

  function OpenIndexTable(e: Engine, bs: nat): Outcome {
    var t := e.table.(blockSize := bs);
    match e.index
    case None => Outcome(Ok, e.(table := t))
    case Some(b) =>
      match ParseIndexFile(b, t)
      case Short => Indeterminate
      case Got(ct, _) => Outcome(Ok, e.(counter := ct.0, table := ct.1))
  }

  const ROOT_RECORD: Rec := NewRec(ROOT_HANDLE, [])
  const NO_ORDERS: Orders := Orders([], [], [])

  ghost function CreateRoot(e: Engine): (Status, Engine)
    requires e.isOpen && e.dev.blockSize > 0
  {
    SaveBytes(NewKey(e.(counter := ROOT_HANDLE)), ROOT_HANDLE, PrintRec(ROOT_RECORD, NO_ORDERS))
  }

  /** Everything open does before it considers compaction. */
  ghost function OpenFiles(e: Engine, opts: Options): Outcome
    requires ValidOptions(opts)
  {
    if opts.blockSize % MIN_BLOCK_SIZE != 0 then Outcome(InvalidArgument, e)
    else if !opts.createNew && !e.logExists then Outcome(IOError, e)
    else
      var file := if e.logExists then e.dev.file else [];
      match OpenIndexTable(e.(dev := OpenDevice(opts.blockSize, file), logExists := true), opts.blockSize)
      case Indeterminate => Indeterminate
      case Outcome(_, e1) =>
        if e1.table.entries == map[] && e1.dev.blocks > 0 then Outcome(Fatal, e1)
        else
          var e2 := e1.(isOpen := true);
          if ROOT_HANDLE in e2.table.entries then Outcome(Ok, e2)
          else
            var (status, e3) := CreateRoot(e2);
            Outcome(status, e3.(isOpen := status.Ok?))
  }

  /** The ratio test in integers; the live share is what the last load of the index counted. */
  predicate NeedsCompaction(e: Engine, opts: Options) {
    && e.dev.blockSize * e.dev.blocks >= opts.minSize
    && e.table.blockFootprint * opts.ratioDen <= opts.ratioNum * e.dev.blocks
  }

  /** The new device, the new index, and the buffer shared by all copies. */
  datatype Copy = Copy(device: Device, entries: map<nat, IndexRecord>, buffer: Bytes)

  function CopyOne(old_: Device, r: IndexRecord, c: Copy, mode: Mode): (Status, Copy)
    requires old_.blockSize > 0 && c.device.blockSize > 0
  {
    var (status, buffer) := ReadInto(old_, r.block, c.buffer, r.bytes);
    if !status.Ok? then (status, c.(buffer := buffer))
    else
      var a := Append(c.device, buffer, r.bytes);
      var length := if mode.AsWritten? then |buffer| % TWO32 else r.bytes;
      (Ok, Copy(a.device, c.entries[r.key := IndexRecord(r.key, a.index, length)], buffer))
  }

  /** Copies the records in turn; the first failing read stops the loop. */
  function CopyAll(old_: Device, rs: seq<IndexRecord>, c: Copy, mode: Mode): (r: (Status, Copy))
    requires old_.blockSize > 0 && c.device.blockSize > 0
    ensures r.1.device.blockSize == c.device.blockSize
    decreases |rs|
  {
    if rs == [] then (Ok, c)
    else
      var (status, c1) := CopyOne(old_, rs[0], c, mode);
      if !status.Ok? then (status, c1) else CopyAll(old_, rs[1..], c1, mode)
  }

  function StartCopy(bs: nat): Copy {
    Copy(Device(bs, 0, []), map[], [])
  }

  /** Compaction replaces the log file and the index; the new table has no block size and no footprint yet. */
  ghost function Compact(e: Engine, order: seq<nat>, mode: Mode): (Status, Engine)
    requires e.dev.blockSize > 0 && IsOrder(order, e.table.entries)
  {
    var (status, c) := CopyAll(e.dev, RecordsOf(e.table.entries, order), StartCopy(e.dev.blockSize), mode);
    if !status.Ok? then (IOError, e)
    else (Ok, e.(dev := OpenDevice(e.dev.blockSize, c.device.file), table := Table(c.entries, 0, 0, 0)))
  }

  /** open, with the order in which compaction, if it comes to that, walks the table. */
  ghost function Open(e: Engine, opts: Options, order: seq<nat>, mode: Mode): Outcome
    requires ValidOptions(opts)
    requires var o := OpenFiles(e, opts); o.Outcome? ==> IsOrder(order, o.engine.table.entries)
  {
    var o := OpenFiles(e, opts);
    if o.Indeterminate? || !o.status.Ok? || !NeedsCompaction(o.engine, opts) then o
    else var (status, e1) := Compact(o.engine, order, mode); Outcome(status, e1)
  }

  // ---------------------------------------------------------------------------
  // Decoding survives growth of the device, and ignores a length that is too long

  lemma DecodeGrown(d1: Device, d2: Device, r: IndexRecord)
    requires Backed(d1) && Backed(d2) && Grown(d1, d2) && Decode(d1, r).Some?
    ensures Decode(d2, r) == Decode(d1, r)
  {
    ReadGrown(d1, d2, r.block, r.bytes);
  }

  /** A just saved record decodes to itself. */
  lemma DecodeSaved(d: Device, r: Rec, o: Orders, key: nat)
    requires Aligned(d) && TypedRec(r) && Bijective(r.children) && AreOrders(o, r)
    requires Room(d, |PrintRec(r, o)|)
    ensures var buf := PrintRec(r, o);
            buf != [] && |buf| < TWO32
            && Decode(Append(d, buf, 0).device, IndexRecord(key, Append(d, buf, 0).index, |buf|)) == Some(r)
  {
    var buf := PrintRec(r, o);
    AppendReadsBack(d, buf, 0);
    assert buf[..|buf|] == buf;
    assert buf + [] == buf;
    ParsePrintRaw(r, o, []);
  }

  /** An extent whose bytes begin with those of another decodes to the same record. */
  lemma DecodeLonger(d1: Device, r1: IndexRecord, d2: Device, r2: IndexRecord)
    requires d1.blockSize > 0 && d2.blockSize > 0
    requires Decode(d1, r1).Some? && Read(d2, r2.block, r2.bytes).Some?
    requires Read(d1, r1.block, r1.bytes).value <= Read(d2, r2.block, r2.bytes).value
    ensures Decode(d2, r2) == Decode(d1, r1)
  {
    var b1, b2 := Read(d1, r1.block, r1.bytes).value, Read(d2, r2.block, r2.bytes).value;
    assert b2 == b1 + b2[|b1|..];
    ParseRawLonger(b1, b2[|b1|..]);
  }

  lemma LoadExtentDecodes(d: Device, r: IndexRecord, now: int)
    requires d.blockSize > 0 && Decode(d, r).Some?
    ensures LoadExtent(d, r, now) == Loaded(Cleanup(Decode(d, r).value, now))
  {
  }

  /** load is decoding, with the properties expired by now dropped. */
  lemma LoadDecodes(e: Engine, key: nat, now: int)
    requires e.isOpen && e.dev.blockSize > 0 && key != INVALID_HANDLE && key in e.table.entries
    requires Decode(e.dev, e.table.entries[key]).Some?
    ensures Load(e, key, now) == Loaded(Cleanup(Decode(e.dev, e.table.entries[key]).value, now))
  {
  }
}
