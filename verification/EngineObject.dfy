// The storage engine object (lib/ondisk/StorageEngine.hpp): its methods do step by step what
// the functions of module Engines say.

module EngineObject {
  import opened Wrappers
  import opened Serialization
  import opened Records
  import opened RecordObject
  import opened LogDevices
  import opened IndexTables
  import opened Engines
  import opened StorageObjects

  class StorageEngine {
    const logFile: File
    const indexFile: File
    const logDevice: LogDevice
    const indexTable: IndexTable
    var keyCounter: nat
    var isOpen: bool

    ghost predicate Valid()
      reads this, logDevice
    {
      && logFile != indexFile
      && (isOpen ==> logDevice.isOpen && logDevice.file == logFile && logDevice.blockSize > 0)
    }

    ghost function View(): Engine
      reads this, logDevice, logFile, indexTable, indexFile
    {
      Engine(isOpen, Device(logDevice.blockSize, logDevice.blocks, logFile.bytes), logFile.exists_,
             indexTable.View(), keyCounter, if indexFile.exists_ then Some(indexFile.bytes) else None)
    }

    /** A new engine over the files of a store. */
    constructor (log: File, index: File)
      requires log != index
      ensures Valid() && logFile == log && indexFile == index
      ensures fresh(logDevice) && fresh(indexTable)
      ensures View() == Fresh(View()) && logDevice.blocks == 0
    {
      logFile := log;
      indexFile := index;
      logDevice := new LogDevice();
      indexTable := new IndexTable();
      keyCounter := 0;
      isOpen := false;
    }

    method NewKey() returns (key: nat)
      requires Valid()
      modifies `keyCounter
      ensures Valid() && key == old(keyCounter) && View() == Engines.NewKey(old(View()))
    {
      key := keyCounter;
      keyCounter := (keyCounter + 1) % TWO64;
    }

    /** Prints the record, which drops its expired properties, then appends and indexes it. */
    method Save(r: Record, now: int) returns (status: Status, ghost o: Orders)
      requires Valid()
      modifies logDevice`blocks, logFile`bytes, indexTable`entries, r`props, r`expiry
      ensures Valid()
      ensures r.key == INVALID_HANDLE ==>
                status == InvalidArgument && View() == old(View()) && r.View() == old(r.View())
      ensures r.key != INVALID_HANDLE ==>
                && r.View() == Cleanup(old(r.View()), now) && AreOrders(o, r.View())
                && (status, View()) == SaveBytes(old(View()), r.key, PrintRec(r.View(), o))
    {
      hide PrintRec;
      o := NO_ORDERS;
      if r.key == INVALID_HANDLE {
        return InvalidArgument, o;
      }
      var s := new Serializer();
      o := r.Print(s, now);
      assert s.out == PrintRec(r.View(), o);
      status := StoreBytes(r.key, s.out);
    }

    method StoreBytes(key: nat, buf: Bytes) returns (status: Status)
      requires Valid() && key != INVALID_HANDLE
      modifies logDevice`blocks, logFile`bytes, indexTable`entries
      ensures Valid() && (status, View()) == SaveBytes(old(View()), key, buf)
    {
      if buf == [] {
        return Fatal;
      }
      if |buf| >= TWO32 {
        return IOError;
      }
      if !isOpen {
        return IOError;
      }
      hide LogDevices.Append;
      var appended, index, _ := logDevice.Append(buf, 0);
      indexTable.InsertRecord(IndexRecord(key, index, |buf|));
      status := Ok;
    }

    /** `good` tells whether the stored bytes were long enough for a record. */
    method Load(key: nat, now: int) returns (status: Status, good: bool, r: Record?)
      requires Valid()
      ensures status.Ok? && good ==> r != null
      ensures Engines.Load(View(), key, now)
              == if !status.Ok? then Refused(status) else if !good then Garbled else Loaded(r.View())
    {
      if key == INVALID_HANDLE {
        return InvalidArgument, false, null;
      }
      if !isOpen {
        return IOError, false, null;
      }
      if key !in indexTable.entries {
        return InvalidArgument, false, null;
      }
      hide ParseRec;
      var entry := indexTable.entries[key];
      var readStatus, buffer := logDevice.ReadBuffer(entry.block, [], entry.bytes);
      if !readStatus.Ok? {
        return readStatus, false, null;
      }
      var d := new Deserializer(buffer);
      var parsed, _ := Parse(d, now);
      return Ok, d.good, parsed;
    }

    method Remove(key: nat) returns (status: Status)
      requires Valid()
      modifies indexTable`entries
      ensures Valid() && (status, View()) == Engines.Remove(old(View()), key)
    {
      if !isOpen {
        return IOError;
      }
      if key !in indexTable.entries {
        return InvalidArgument;
      }
      indexTable.EraseKey(key);
      status := Ok;
    }

    /** Closes the device, then writes the index file. */
    method Close() returns (ghost order: seq<nat>)
      requires Valid()
      modifies `isOpen, logDevice`isOpen, logDevice`blocks, indexFile
      ensures Valid() && IsOrder(order, old(indexTable.entries))
      ensures View() == Engines.Close(old(View()), order)
    {
      if !isOpen {
        order := AnyOrder(indexTable.entries);
        return;
      }
      logDevice.Close();
      var s := new Serializer();
      s.PutUInt(keyCounter, 8);
      order := indexTable.Print(s);
      assert s.out == PrintIndexFile(keyCounter, RecordsOf(indexTable.entries, order));
      indexFile.exists_ := true;
      indexFile.bytes := s.out;
      isOpen := false;
    }

    /** `truncated` reports an index file that ended too early; the engine is then in no definite state. */
    method OpenIndexTable(bs: nat) returns (truncated: bool)
      requires Valid()
      modifies `keyCounter, indexTable
      ensures Valid()
      ensures Engines.OpenIndexTable(old(View()), bs) == if truncated then Indeterminate else Outcome(Ok, View())
    {
      indexTable.blockSize := bs;
      if !indexFile.exists_ {
        return false;
      }
      hide ParseTable;
      var d := new Deserializer(indexFile.bytes);
      var counter := d.GetUInt(8);
      if !d.good {
        return true;
      }
      keyCounter := counter;
      indexTable.Parse(d);
      truncated := !d.good;
    }

    method CreateRoot(now: int) returns (status: Status)
      requires Valid() && isOpen
      modifies `keyCounter, logDevice`blocks, logFile`bytes, indexTable`entries
      ensures Valid() && (status, View()) == Engines.CreateRoot(old(View()))
    {
      keyCounter := ROOT_HANDLE;
      var key := NewKey();
      var root := new Record(key, []);
      ghost var o: Orders;
      status, o := Save(root, now);
      RootPrintsOneWay(root.View(), now, o);
    }

    /** Opens the device and the index and creates the root of a new store. */
    method OpenFiles(opts: Options, now: int) returns (status: Status, truncated: bool)
      requires Valid() && ValidOptions(opts)
      modifies this, logDevice, logFile, indexTable
      ensures Valid()
      ensures Engines.OpenFiles(old(View()), opts) == if truncated then Indeterminate else Outcome(status, View())
    {
      truncated := false;
      status := logDevice.Open(logFile, opts.blockSize, opts.createNew);
      if !status.Ok? {
        return;
      }
      truncated := OpenIndexTable(opts.blockSize);
      if truncated {
        return;
      }
      if indexTable.entries == map[] && logDevice.blocks > 0 {
        return Fatal, false;
      }
      isOpen := true;
      if ROOT_HANDLE !in indexTable.entries {
        status := CreateRoot(now);
        isOpen := status.Ok?;
      }
    }

    /**
     * Copies every live record to a new device and puts that device and a new index in place of
     * the old ones. The new length of a record is the size of the buffer all copies share.
     */
    method DoOfflineCompaction() returns (status: Status, ghost order: seq<nat>)
      requires Valid() && isOpen && logDevice.blockSize % MIN_BLOCK_SIZE == 0 && logDevice.blockSize < TWO32
                 && logFile.exists_
      modifies logDevice, logFile, indexTable
      ensures Valid() && IsOrder(order, old(indexTable.entries))
      ensures (status, View()) == Compact(old(View()), order, AsWritten)
    {
      var bs := logDevice.blockSize;
      var copyFile := new File();
      var device := new LogDevice();
      var _ := device.Open(copyFile, bs, true);
      var copied: map<nat, IndexRecord>;
      assert device.View() == StartCopy(bs).device;
      status, copied, order := CopyRecords(device);
      if !status.Ok? {
        device.Close();
        return IOError, order;
      }
      logDevice.Close();
      device.Close();
      logFile.bytes := copyFile.bytes;
      var _ := logDevice.Open(logFile, bs, true);
      indexTable.entries := copied;
      indexTable.blockSize, indexTable.diskFootprint, indexTable.blockFootprint := 0, 0, 0;
    }

    method CopyRecords(device: LogDevice) returns (status: Status, copied: map<nat, IndexRecord>, ghost order: seq<nat>)
      requires Valid() && isOpen && device != logDevice
      requires device.isOpen && device.file != null && device.file != logFile
      requires device.View() == StartCopy(logDevice.blockSize).device
      modifies device`blocks, device.file
      ensures device.isOpen && device.file == old(device.file)
      ensures IsOrder(order, indexTable.entries)
      ensures var (st, c) := CopyAll(logDevice.View(), RecordsOf(indexTable.entries, order),
                StartCopy(logDevice.blockSize), AsWritten);
              status == st && (status.Ok? ==> c.device == device.View() && c.entries == copied)
    {
      hide CopyAll;
      hide CopyOne;
      ghost var source, start := logDevice.View(), StartCopy(logDevice.blockSize);
      ghost var entries := indexTable.entries;
      copied := map[];
      order := [];
      var buffer: Bytes := [];
      var todo := indexTable.entries.Keys;
      NothingCopied(source, start);
      while todo != {}
        invariant WalkedSoFar(order, entries, todo)
        invariant device.isOpen && device.file == old(device.file) && device.blockSize == logDevice.blockSize
        invariant logDevice.View() == source && indexTable.entries == entries
        invariant CopyAll(source, RecordsOf(entries, order), start, AsWritten)
                    == (Ok, Copy(device.View(), copied, buffer))
        decreases |todo|
      {
        var key :| key in todo;
        WalkStep(order, entries, todo, key);
        CopyAllLast(source, RecordsOf(entries, order), entries[key], start, AsWritten);
        assert RecordsOf(entries, order + [key]) == RecordsOf(entries, order) + [entries[key]];
        todo := todo - {key};
        order := order + [key];
        status, copied, buffer := CopyRecord(device, indexTable.entries[key], copied, buffer);
        if !status.Ok? {
          order := FailedCopy(source, entries, order, todo, start);
          return;
        }
      }
      status := Ok;
    }

    /** One record: read it into the shared buffer, append its bytes, index it. */
    method CopyRecord(device: LogDevice, entry: IndexRecord, copied: map<nat, IndexRecord>, buffer: Bytes)
      returns (status: Status, copied': map<nat, IndexRecord>, buffer': Bytes)
      requires Valid() && isOpen && device != logDevice
      requires device.isOpen && device.file != null && device.file != logFile && device.blockSize == logDevice.blockSize
      modifies device`blocks, device.file`bytes
      ensures (status, Copy(device.View(), copied', buffer'))
              == CopyOne(logDevice.View(), entry, Copy(old(device.View()), copied, buffer), AsWritten)
    {
      hide ReadInto;
      hide LogDevices.Append;
      copied' := copied;
      status, buffer' := logDevice.ReadBuffer(entry.block, buffer, entry.bytes);
      if !status.Ok? {
        return;
      }
      ReadGrowsBuffer(logDevice.View(), entry.block, buffer, entry.bytes);
      var _, index, _ := device.Append(buffer', entry.bytes);
      copied' := copied[entry.key := IndexRecord(entry.key, index, |buffer'| % TWO32)];
    }

    method Open(opts: Options, now: int) returns (status: Status, truncated: bool, ghost order: seq<nat>)
      requires Valid() && ValidOptions(opts)
      modifies this, logDevice, logFile, indexTable
      ensures Valid()
      ensures var o := Engines.OpenFiles(old(View()), opts);
              && (o.Outcome? ==> IsOrder(order, o.engine.table.entries))
              && Engines.Open(old(View()), opts, order, AsWritten) == if truncated then Indeterminate
                  else Outcome(status, View())
    {
      hide Compact;
      hide Engines.OpenFiles;
      ghost var start := View();
      status, truncated := OpenFiles(opts, now);
      order := AnyOrder(indexTable.entries);
      if truncated || !status.Ok? {
        return;
      }
      ghost var loaded := View();
      assert Engines.OpenFiles(start, opts) == Outcome(Ok, loaded);
      OpenFilesIsOpen(start, opts);
      if logDevice.blockSize * logDevice.blocks < opts.minSize {
        return;
      }
      if indexTable.blockFootprint * opts.ratioDen > opts.ratioNum * logDevice.blocks {
        return;
      }
      status, order := DoOfflineCompaction();
    }
  }

  /** A successful open leaves a usable device. */
  lemma OpenFilesIsOpen(e: Engine, opts: Options)
    requires ValidOptions(opts)
    ensures var o := Engines.OpenFiles(e, opts);
            o.Outcome? && o.status.Ok? ==>
              && o.engine.isOpen && o.engine.logExists && o.engine.dev.blockSize == opts.blockSize
              && opts.blockSize % MIN_BLOCK_SIZE == 0
  {
  }

  lemma NothingCopied(d: Device, c: Copy)
    requires d.blockSize > 0 && c.device.blockSize > 0
    ensures CopyAll(d, [], c, AsWritten) == (Ok, c)
  {
  }

  /** A read that succeeds leaves at least the bytes asked for in the buffer. */
  lemma ReadGrowsBuffer(d: Device, n: nat, buffer: Bytes, cnt: nat)
    requires d.blockSize > 0 && ReadInto(d, n, buffer, cnt).0.Ok?
    ensures ReadInto(d, n, buffer, cnt).1 != []
  {
  }

  /** A failed copy fails for every way of walking the records it did not reach. */
  lemma FailedCopy(d: Device, entries: map<nat, IndexRecord>, order: seq<nat>, todo: set<nat>,
      c: Copy) returns (full: seq<nat>)
    requires d.blockSize > 0 && c.device.blockSize > 0 && WalkedSoFar(order, entries, todo)
    requires !CopyAll(d, RecordsOf(entries, order), c, AsWritten).0.Ok?
    ensures IsOrder(full, entries)
    ensures CopyAll(d, RecordsOf(entries, full), c, AsWritten) == CopyAll(d, RecordsOf(entries, order), c, AsWritten)
  {
    full := CompleteWalk(order, entries, todo);
    var rs := RecordsOf(entries, full);
    assert rs == RecordsOf(entries, order) + rs[|order|..];
    CopyAllStops(d, RecordsOf(entries, order), rs[|order|..], c, AsWritten);
  }

  lemma RootPrintsOneWay(r: Rec, now: int, o: Orders)
    requires r == Cleanup(ROOT_RECORD, now) && AreOrders(o, r)
    ensures r == ROOT_RECORD && o == NO_ORDERS
  {
    assert ExpiredProps(ROOT_RECORD, now) == {};
    OrderLength(o.props, r.props);
    OrderLength<Bytes, nat>(o.children, r.children);
    OrderLength(o.expiry, r.expiry);
  }

  lemma AnyOrder<V>(m: map<nat, V>) returns (order: seq<nat>)
    ensures IsOrder(order, m)
  {
    assert WalkedSoFar([], m, m.Keys);
    order := CompleteWalk([], m, m.Keys);
  }
}
