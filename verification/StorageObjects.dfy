// The stateful objects of the engine: files, the log device, the index table and the
// storage engine over them. Every method is tied to a function of module LogDevices,
// IndexTables or Engines, where the properties are proved.

module StorageObjects {
  import opened Wrappers
  import opened Serialization
  import opened Records
  import opened LogDevices
  import opened IndexTables
  import opened Engines

  class File {
    var exists_: bool
    var bytes: Bytes

    constructor ()
      ensures !exists_ && bytes == []
    {
      exists_ := false;
      bytes := [];
    }
  }

  class LogDevice {
    var isOpen: bool
    var blockSize: nat
    var blocks: nat
    var file: File?

    ghost function View(): Device
      requires file != null
      reads this, file
    {
      Device(blockSize, blocks, file.bytes)
    }

    constructor ()
      ensures !isOpen && file == null && blocks == 0 && blockSize == MIN_BLOCK_SIZE
    {
      isOpen := false;
      blockSize := MIN_BLOCK_SIZE;
      blocks := 0;
      file := null;
    }

    method Open(f: File, bs: nat, createNew: bool) returns (status: Status)
      requires 0 < bs < TWO32
      modifies this, f
      ensures status == if bs % MIN_BLOCK_SIZE != 0 then InvalidArgument
                        else if !createNew && !old(f.exists_) then IOError else Ok
      ensures status.Ok? ==> isOpen && file == f && f.exists_
                             && View() == OpenDevice(bs, if old(f.exists_) then old(f.bytes) else [])
      ensures !status.Ok? ==> unchanged(this) && unchanged(f)
    {
      if bs % MIN_BLOCK_SIZE != 0 {
        return InvalidArgument;
      }
      if !createNew && !f.exists_ {
        return IOError;
      }
      if !f.exists_ {
        f.exists_ := true;
        f.bytes := [];
      }
      file := f;
      blockSize := bs;
      isOpen := true;
      blocks := |f.bytes| / bs % TWO32;
      status := Ok;
    }

    method Close()
      modifies `isOpen, `blocks
      ensures !isOpen && blocks == if old(isOpen) then 0 else old(blocks)
    {
      if isOpen {
        isOpen := false;
        blocks := 0;
      }
    }

    /** Reads into the front of `buffer`, growing it if it is too short. */
    method ReadBuffer(n: nat, buffer: Bytes, cnt: nat) returns (status: Status, b: Bytes)
      requires isOpen ==> file != null && blockSize > 0
      ensures isOpen ==> (status, b) == ReadInto(View(), n, buffer, cnt)
      ensures !isOpen ==> status == if cnt == 0 then InvalidArgument else IOError
      ensures !isOpen ==> b == buffer + Zeros(if |buffer| < cnt then cnt - |buffer| else 0)
    {
      if cnt == 0 {
        return InvalidArgument, buffer;
      }
      b := buffer;
      if |b| < cnt {
        b := b + Zeros(cnt - |b|);
      }
      if !isOpen {
        return IOError, b;
      }
      if n + BlocksFor(cnt, blockSize) > blocks {
        return InvalidArgument, b;
      }
      var got := Available(file.bytes, n * blockSize, cnt);
      if got == 0 {
        return IOError, b;
      }
      b := file.bytes[n * blockSize..n * blockSize + got] + b[got..];
      status := Ok;
    }

    /** The record's bytes, then the fill up to a whole number of blocks. */
    method WritePadded(buf: Bytes, size: nat)
      requires file != null && blockSize > 0 && size <= |buf|
      modifies file`bytes
      ensures file.bytes == old(file.bytes) + buf[..size] + Zeros(Padding(size, blockSize))
    {
      file.bytes := file.bytes + buf[..size];
      if size % blockSize != 0 {
        file.bytes := file.bytes + Zeros(blockSize - size % blockSize);
      } else {
        assert file.bytes + Zeros(0) == file.bytes;
      }
    }

    method Append(buf: Bytes, count: nat) returns (status: Status, index: nat, added: nat)
      requires isOpen ==> file != null && blockSize > 0
      modifies `blocks, (if file == null then {} else {file})`bytes
      ensures buf == [] ==> status == InvalidArgument
      ensures buf != [] && !isOpen ==> status == IOError
      ensures buf == [] || !isOpen ==> unchanged(this) && (file != null ==> unchanged(file))
      ensures buf != [] && isOpen ==>
                status == Ok && LogDevices.Append(old(View()), buf, count) == Appended(View(), index, added)
    {
      hide Padding;
      if buf == [] {
        return InvalidArgument, 0, 0;
      }
      if !isOpen {
        return IOError, 0, 0;
      }
      var start := |file.bytes|;
      var size := AppendSize(buf, count);
      WritePadded(buf, size);
      added := (|file.bytes| - start) % TWO32 / blockSize;
      blocks := (blocks + added) % TWO32;
      index := start / blockSize % TWO32;
      status := Ok;
    }
  }

  class IndexTable {
    var entries: map<nat, IndexRecord>
    var blockSize: nat
    var diskFootprint: nat
    var blockFootprint: nat

    ghost function View(): Table
      reads this
    {
      Table(entries, blockSize, diskFootprint, blockFootprint)
    }

    constructor ()
      ensures View() == EMPTY_TABLE
    {
      entries := map[];
      blockSize, diskFootprint, blockFootprint := 0, 0, 0;
    }

    method InsertRecord(r: IndexRecord)
      modifies `entries
      ensures View() == Insert(old(View()), r)
    {
      entries := entries[r.key := r];
    }

    method EraseKey(key: nat)
      modifies `entries
      ensures View() == Erase(old(View()), key)
    {
      entries := entries - {key};
    }

    /** operator<<: the count, then the records in the order of the hash table. */
    method Print(s: Serializer) returns (ghost order: seq<nat>)
      modifies s
      ensures IsOrder(order, entries)
      ensures s.out == old(s.out) + PrintTable(RecordsOf(entries, order))
    {
      s.PutUInt(|entries|, 8);
      order := PrintEntries(s);
      OrderLength(order, entries);
      RegroupTwo(old(s.out), PrintUInt(|entries|, 8), PrintRecords(RecordsOf(entries, order)));
    }

    method PrintEntries(s: Serializer) returns (ghost order: seq<nat>)
      modifies s
      ensures IsOrder(order, entries)
      ensures s.out == old(s.out) + PrintRecords(RecordsOf(entries, order))
    {
      order := [];
      var todo := entries.Keys;
      while todo != {}
        invariant WalkedSoFar(order, entries, todo)
        invariant s.out == old(s.out) + PrintRecords(RecordsOf(entries, order))
        decreases |todo|
      {
        var k :| k in todo;
        WalkStep(order, entries, todo, k);
        PrintRecordsLast(RecordsOf(entries, order), entries[k]);
        assert RecordsOf(entries, order + [k]) == RecordsOf(entries, order) + [entries[k]];
        RegroupTwo(old(s.out), PrintRecords(RecordsOf(entries, order)), PrintIndexRecord(entries[k]));
        PutIndexRecord(s, entries[k]);
        todo := todo - {k};
        order := order + [k];
      }
    }

    /** operator>>: adds to the table and to its footprints. */
    method Parse(d: Deserializer)
      requires d.good
      modifies this, d
      ensures d.good <==> ParseTable(old(d.rest), old(View())).Got?
      ensures d.good ==> ParseTable(old(d.rest), old(View())) == Got(View(), d.rest)
    {
      hide ParseIndexRecord;
      ghost var whole := ParseTable(d.rest, View());
      var n := d.GetUInt(8);
      var count := ToSigned(n, TWO64);
      var i := 0;
      while i < count && d.good
        invariant 0 <= i && (count >= 0 ==> i <= count) && (count < 0 ==> i == 0)
        invariant whole == if d.good then (if count <= 0 then Got(View(), d.rest)
                    else ParseRecords(count - i, d.rest, View()))
                           else Short
        decreases count - i, d.good
      {
        var r := GetIndexRecord(d);
        if d.good {
          diskFootprint := (diskFootprint + r.bytes) % TWO64;
          if blockSize > 0 {
            blockFootprint := (blockFootprint + BlocksFor(r.bytes, blockSize)) % TWO64;
          }
          InsertRecord(r);
          i := i + 1;
        }
      }
    }
  }

  method PutIndexRecord(s: Serializer, r: IndexRecord)
    modifies s
    ensures s.out == old(s.out) + PrintIndexRecord(r)
  {
    s.PutUInt(r.key, 8);
    s.PutUInt(r.block, 4);
    s.PutUInt(r.bytes, 4);
    Regroup(old(s.out), PrintUInt(r.key, 8), PrintUInt(r.block, 4), PrintUInt(r.bytes, 4));
    RegroupTwo(PrintUInt(r.key, 8), PrintUInt(r.block, 4), PrintUInt(r.bytes, 4));
  }

  method GetIndexRecord(d: Deserializer) returns (r: IndexRecord)
    requires d.good
    modifies d
    ensures d.good <==> ParseIndexRecord(old(d.rest)).Got?
    ensures d.good ==> ParseIndexRecord(old(d.rest)) == Got(r, d.rest)
  {
    var key := d.GetUInt(8);
    var block := d.GetUInt(4);
    var bytes := d.GetUInt(4);
    r := IndexRecord(key, block, bytes);
  }

  lemma {:induction false} PrintRecordsLast(rs: seq<IndexRecord>, r: IndexRecord)
    ensures PrintRecords(rs + [r]) == PrintRecords(rs) + PrintIndexRecord(r)
  {
    if rs == [] {
      assert PrintRecords([r]) == PrintIndexRecord(r) + PrintRecords([r][1..]);
    } else {
      assert (rs + [r])[1..] == rs[1..] + [r];
      PrintRecordsLast(rs[1..], r);
    }
  }

  // ---------------------------------------------------------------------------
  // The copy loop of compaction, one record at a time

  lemma {:induction false} CopyAllLast(old_: Device, rs: seq<IndexRecord>, r: IndexRecord, c: Copy, mode: Mode)
    requires old_.blockSize > 0 && c.device.blockSize > 0
    ensures var (status, c1) := CopyAll(old_, rs, c, mode);
            CopyAll(old_, rs + [r], c, mode) == if status.Ok? then CopyOne(old_, r, c1, mode) else (status, c1)
    decreases |rs|
  {
    hide CopyOne;
    if rs == [] {
      assert [r][1..] == [];
      assert CopyAll(old_, [r], c, mode) == CopyOne(old_, r, c, mode) by {
        CopyAllOne(old_, r, c, mode);
      }
    } else {
      assert (rs + [r])[1..] == rs[1..] + [r];
      CopyOneKeepsBlockSize(old_, rs[0], c, mode);
      CopyAllLast(old_, rs[1..], r, CopyOne(old_, rs[0], c, mode).1, mode);
    }
  }

  lemma CopyOneKeepsBlockSize(old_: Device, r: IndexRecord, c: Copy, mode: Mode)
    requires old_.blockSize > 0 && c.device.blockSize > 0
    ensures CopyOne(old_, r, c, mode).1.device.blockSize == c.device.blockSize
  {
  }

  lemma CopyAllOne(old_: Device, r: IndexRecord, c: Copy, mode: Mode)
    requires old_.blockSize > 0 && c.device.blockSize > 0
    ensures CopyAll(old_, [r], c, mode) == CopyOne(old_, r, c, mode)
  {
  }

  /** Once a read has failed, the records behind it do not matter. */
  lemma {:induction false} CopyAllStops(old_: Device, rs: seq<IndexRecord>, more: seq<IndexRecord>, c: Copy, mode: Mode)
    requires old_.blockSize > 0 && c.device.blockSize > 0 && !CopyAll(old_, rs, c, mode).0.Ok?
    ensures CopyAll(old_, rs + more, c, mode) == CopyAll(old_, rs, c, mode)
    decreases |rs|
  {
    hide CopyOne;
    if rs != [] {
      CopyOneKeepsBlockSize(old_, rs[0], c, mode);
      assert (rs + more)[0] == rs[0] && (rs + more)[1..] == rs[1..] + more;
      if CopyOne(old_, rs[0], c, mode).0.Ok? {
        CopyAllStops(old_, rs[1..], more, CopyOne(old_, rs[0], c, mode).1, mode);
      }
    }
  }
}
