// Offline compaction (lib/ondisk/StorageEngine.hpp, doOfflineCompaction): what the copy
// loop writes, and exactly when the compacted store still gives every record back.
//
// The loop stores the size of a buffer it shares between iterations and that only grows, so
// a record's new length is the longest length copied so far. Mode AsIntended stores the
// length it read instead. Both write the same device.

module Compaction {
  import opened Wrappers
  import opened Serialization
  import opened LogDevices
  import opened IndexTables
  import opened Engines

  function Max(a: nat, b: nat): nat {
    if a < b then b else a
  }

  /** The size of the shared buffer after these records, started at `start`. */
  function MaxBytes(rs: seq<IndexRecord>, start: nat): nat
    decreases |rs|
  {
    if rs == [] then start else MaxBytes(rs[1..], Max(start, rs[0].bytes))
  }

  /** The length the new index gives the `i`-th record. */
  function CopyLength(rs: seq<IndexRecord>, i: nat, start: nat, mode: Mode): nat
    requires i < |rs|
  {
    if mode.AsIntended? then rs[i].bytes else MaxBytes(rs[..i + 1], start)
  }

  /** The new entry of the `i`-th record: right behind the blocks of those before it. */
  function NewEntry(rs: seq<IndexRecord>, i: nat, first: nat, bs: nat, start: nat, mode: Mode): IndexRecord
    requires i < |rs| && bs > 0
  {
    IndexRecord(rs[i].key, first + SumBlocks(rs[..i], bs), CopyLength(rs, i, start, mode))
  }

  predicate DistinctKeys(rs: seq<IndexRecord>) {
    forall i, j :: 0 <= i < j < |rs| ==> rs[i].key != rs[j].key
  }

  /** The padded length fits the 32-bit arithmetic of an append. */
  predicate Padded(bytes: nat, bs: nat)
    requires bs > 0
  {
    bytes + Padding(bytes, bs) < TWO32
  }

  /** Every record to copy can be read, and the copies fit in 32-bit arithmetic. */
  predicate Copyable(d: Device, rs: seq<IndexRecord>)
    requires d.blockSize > 0
  {
    forall i :: 0 <= i < |rs| ==>
      Read(d, rs[i].block, rs[i].bytes).Some? && Padded(rs[i].bytes, d.blockSize)
  }

  /** `block` of the new device holds the bytes of `r` on the old one. */
  predicate Copied(old_: Device, r: IndexRecord, new_: Device, block: nat)
    requires old_.blockSize > 0 && new_.blockSize > 0
  {
    Read(new_, block, r.bytes) == Read(old_, r.block, r.bytes)
  }

  /** What one iteration of the copy loop leaves. */
  predicate OneCopied(old_: Device, r: IndexRecord, c: Copy, c1: Copy, mode: Mode)
    requires 0 < old_.blockSize == c1.device.blockSize
  {
    && Aligned(c1.device) && Grown(c.device, c1.device)
    && c1.device.blocks == c.device.blocks + BlocksFor(r.bytes, old_.blockSize)
    && |c1.buffer| == Max(|c.buffer|, r.bytes) < TWO32
    && c1.entries == c.entries[r.key := IndexRecord(r.key, c.device.blocks,
                                          if mode.AsWritten? then Max(|c.buffer|, r.bytes) else r.bytes)]
    && Copied(old_, r, c1.device, c.device.blocks)
  }

  lemma CopyOneWorks(old_: Device, r: IndexRecord, c: Copy, mode: Mode)
    requires Backed(old_) && Aligned(c.device) && old_.blockSize == c.device.blockSize
    requires Read(old_, r.block, r.bytes).Some? && |c.buffer| < TWO32
    requires Room(c.device, r.bytes)
    ensures CopyOne(old_, r, c, mode).0 == Ok && CopyOne(old_, r, c, mode).1.device.blockSize == old_.blockSize
    ensures OneCopied(old_, r, c, CopyOne(old_, r, c, mode).1, mode)
  {
    hide *;
    RoomGives(c.device, r.bytes);
    ReadIntoFront(old_, r.block, c.buffer, r.bytes);
    CopyOneUnfolds(old_, r, c, mode);
    BufferAppended(c.device, ReadInto(old_, r.block, c.buffer, r.bytes).1, r.bytes);
    MakeOneCopied(old_, r, c, CopyOne(old_, r, c, mode).1, mode);
  }

  lemma RoomGives(d: Device, n: nat)
    requires Aligned(d) && Room(d, n)
    ensures 0 < d.blockSize && n < TWO32
  {
  }

  lemma CopyOneUnfolds(old_: Device, r: IndexRecord, c: Copy, mode: Mode)
    requires old_.blockSize > 0 && c.device.blockSize > 0 && ReadInto(old_, r.block, c.buffer, r.bytes).0.Ok?
    ensures var buffer := ReadInto(old_, r.block, c.buffer, r.bytes).1;
            var a := Append(c.device, buffer, r.bytes);
            CopyOne(old_, r, c, mode)
            == (Ok, Copy(a.device, c.entries[r.key := IndexRecord(r.key, a.index,
                                             if mode.AsWritten? then |buffer| % TWO32 else r.bytes)],
                  buffer))
  {
  }

  lemma MakeOneCopied(old_: Device, r: IndexRecord, c: Copy, c1: Copy, mode: Mode)
    requires 0 < old_.blockSize == c1.device.blockSize
    requires Aligned(c1.device) && Grown(c.device, c1.device) && |c.buffer| < TWO32 && r.bytes < TWO32
    requires c1.device.blocks == c.device.blocks + BlocksFor(r.bytes, old_.blockSize)
    requires |c1.buffer| == (if |c.buffer| < r.bytes then r.bytes else |c.buffer|)
    requires c1.entries == c.entries[r.key := IndexRecord(r.key, c.device.blocks,
                                                  if mode.AsWritten? then |c1.buffer| % TWO32 else r.bytes)]
    requires Read(c1.device, c.device.blocks, r.bytes) == Read(old_, r.block, r.bytes)
    ensures OneCopied(old_, r, c, c1, mode)
  {
  }

  /** Appending the front of the shared buffer. */
  lemma BufferAppended(d: Device, buffer: Bytes, cnt: nat)
    requires Aligned(d) && 0 < cnt <= |buffer| && Room(d, cnt)
    ensures var a := Append(d, buffer, cnt);
            && a.index == d.blocks && Aligned(a.device) && Grown(d, a.device) && a.device.blockSize == d.blockSize
            && a.device.blocks == d.blocks + BlocksFor(cnt, d.blockSize)
            && Read(a.device, d.blocks, cnt) == Some(buffer[..cnt])
  {
    assert AppendSize(buffer, cnt) == cnt;
    AppendAligned(d, buffer, cnt);
    AppendReadsBack(d, buffer, cnt);
    hide Append;
    hide Read;
    hide BlocksFor;
    hide Aligned;
  }

  lemma CopyLengthLater(rs: seq<IndexRecord>, i: nat, start: nat, mode: Mode)
    requires 0 < i < |rs|
    ensures CopyLength(rs, i, start, mode) == CopyLength(rs[1..], i - 1, Max(start, rs[0].bytes), mode)
  {
    assert rs[..i + 1][1..] == rs[1..][..i];
  }

  lemma NewEntryLater(rs: seq<IndexRecord>, i: nat, first: nat, bs: nat, start: nat, mode: Mode)
    requires 0 < i < |rs| && bs > 0
    ensures NewEntry(rs, i, first, bs, start, mode)
            == NewEntry(rs[1..], i - 1, first + BlocksFor(rs[0].bytes, bs), bs, Max(start, rs[0].bytes), mode)
  {
    CopyLengthLater(rs, i, start, mode);
    assert rs[..i][0] == rs[0] && rs[..i][1..] == rs[1..][..i - 1];
  }

  lemma NewEntryFirst(rs: seq<IndexRecord>, first: nat, bs: nat, start: nat, mode: Mode)
    requires rs != [] && bs > 0
    ensures NewEntry(rs, 0, first, bs, start, mode)
            == IndexRecord(rs[0].key, first, if mode.AsWritten? then Max(start, rs[0].bytes) else rs[0].bytes)
  {
    assert rs[..1] == [rs[0]] && rs[..0] == [];
    assert MaxBytes([rs[0]], start) == MaxBytes([], Max(start, rs[0].bytes));
  }

  /** One entry of the result of the copy loop. */
  predicate CopyDone(old_: Device, rs: seq<IndexRecord>, i: nat, c: Copy, c1: Copy, mode: Mode)
    requires i < |rs| && 0 < old_.blockSize == c1.device.blockSize
  {
    var entry := NewEntry(rs, i, c.device.blocks, old_.blockSize, |c.buffer|, mode);
    && rs[i].key in c1.entries && c1.entries[rs[i].key] == entry
    && Copied(old_, rs[i], c1.device, entry.block)
  }

  /** The copy loop lays the records side by side, in order, and indexes each of them. */
  lemma {:induction false} CopyAllWorks(old_: Device, rs: seq<IndexRecord>, c: Copy, mode: Mode)
    requires Backed(old_) && Aligned(c.device) && old_.blockSize == c.device.blockSize
    requires Copyable(old_, rs) && DistinctKeys(rs) && |c.buffer| < TWO32
    requires c.device.blocks + SumBlocks(rs, old_.blockSize) < TWO32
    ensures var (status, c1) := CopyAll(old_, rs, c, mode);
            && status == Ok
            && Aligned(c1.device) && Grown(c.device, c1.device)
            && c1.device.blocks == c.device.blocks + SumBlocks(rs, old_.blockSize)
            && (forall k :: k in c1.entries <==> k in c.entries || exists i :: 0 <= i < |rs| && rs[i].key == k)
            && (forall k <- c.entries :: (forall i :: 0 <= i < |rs| ==> rs[i].key != k) ==>
                c1.entries[k] == c.entries[k])
            && forall i :: 0 <= i < |rs| ==> CopyDone(old_, rs, i, c, c1, mode)
    decreases |rs|
  {
    hide CopyOne;
    hide Padding;
    hide BlocksFor;
    hide Read;
    if rs != [] {
      var r, more := rs[0], rs[1..];
      var c1 := CopyOne(old_, r, c, mode).1;
      CopyOneWorks(old_, r, c, mode);
      assert forall i :: 0 <= i < |more| ==> more[i] == rs[i + 1];
      CopyAllWorks(old_, more, c1, mode);
      var c2 := CopyAll(old_, more, c1, mode).1;
      NewEntryFirst(rs, c.device.blocks, old_.blockSize, |c.buffer|, mode);
      CopyStep(old_, rs, c, c1, c2, mode);
    }
  }

  lemma CopyStep(old_: Device, rs: seq<IndexRecord>, c: Copy, c1: Copy, c2: Copy, mode: Mode)
    requires Backed(old_) && rs != [] && DistinctKeys(rs)
    requires Aligned(c1.device) && Aligned(c2.device) && Grown(c1.device, c2.device)
    requires old_.blockSize == c1.device.blockSize
    requires c1.device.blocks == c.device.blocks + BlocksFor(rs[0].bytes, old_.blockSize)
    requires |c1.buffer| == Max(|c.buffer|, rs[0].bytes)
    requires c1.entries == c.entries[rs[0].key := NewEntry(rs, 0, c.device.blocks, old_.blockSize, |c.buffer|, mode)]
    requires Read(old_, rs[0].block, rs[0].bytes).Some? && Copied(old_, rs[0], c1.device, c.device.blocks)
    requires rs[0].key in c2.entries
    requires (forall i :: 0 <= i < |rs[1..]| ==> rs[1..][i].key != rs[0].key) ==>
               c2.entries[rs[0].key] == c1.entries[rs[0].key]
    requires forall i :: 0 <= i < |rs[1..]| ==> CopyDone(old_, rs[1..], i, c1, c2, mode)
    ensures forall i :: 0 <= i < |rs| ==> CopyDone(old_, rs, i, c, c2, mode)
  {
    hide BlocksFor;
    hide Read;
    assert rs[..0] == [];
    ReadGrown(c1.device, c2.device, c.device.blocks, rs[0].bytes);
    forall i | 0 < i < |rs| ensures CopyDone(old_, rs, i, c, c2, mode) {
      assert CopyDone(old_, rs[1..], i - 1, c1, c2, mode);
      NewEntryLater(rs, i, c.device.blocks, old_.blockSize, |c.buffer|, mode);
    }
    assert CopyDone(old_, rs, 0, c, c2, mode);
  }

  // ---------------------------------------------------------------------------
  // What the compacted store gives back

  lemma {:induction false} SumBlocksLast(rs: seq<IndexRecord>, r: IndexRecord, bs: nat)
    requires bs > 0
    ensures SumBlocks(rs + [r], bs) == SumBlocks(rs, bs) + BlocksFor(r.bytes, bs)
  {
    if rs == [] {
      assert [r][1..] == [];
    } else {
      assert (rs + [r])[1..] == rs[1..] + [r];
      SumBlocksLast(rs[1..], r, bs);
    }
  }

  lemma {:induction false} SumBlocksSplit(rs: seq<IndexRecord>, i: nat, bs: nat)
    requires bs > 0 && i <= |rs|
    ensures SumBlocks(rs, bs) == SumBlocks(rs[..i], bs) + SumBlocks(rs[i..], bs)
  {
    if i > 0 {
      SumBlocksSplit(rs[1..], i - 1, bs);
      assert rs[..i][1..] == rs[1..][..i - 1] && rs[1..][i - 1..] == rs[i..];
    } else {
      assert rs[0..] == rs && rs[..0] == [];
    }
  }

  /** Each record's own blocks end where those of the next begin. */
  lemma SumBlocksNext(rs: seq<IndexRecord>, i: nat, bs: nat)
    requires bs > 0 && i < |rs|
    ensures SumBlocks(rs[..i + 1], bs) == SumBlocks(rs[..i], bs) + BlocksFor(rs[i].bytes, bs)
    ensures SumBlocks(rs[..i + 1], bs) <= SumBlocks(rs, bs)
  {
    SumBlocksLast(rs[..i], rs[i], bs);
    assert rs[..i + 1] == rs[..i] + [rs[i]];
    SumBlocksSplit(rs, i + 1, bs);
  }

  /** The length given to the `i`-th record stays within the compacted device. */
  predicate Fits(rs: seq<IndexRecord>, i: nat, bs: nat, mode: Mode)
    requires i < |rs| && bs > 0
  {
    SumBlocks(rs[..i], bs) + BlocksFor(CopyLength(rs, i, 0, mode), bs) <= SumBlocks(rs, bs)
  }

  lemma IntendedAlwaysFits(rs: seq<IndexRecord>, i: nat, bs: nat)
    requires i < |rs| && bs > 0
    ensures Fits(rs, i, bs, AsIntended)
  {
    SumBlocksNext(rs, i, bs);
  }

  lemma {:induction false} MaxBytesBounds(rs: seq<IndexRecord>, start: nat)
    ensures MaxBytes(rs, start) >= start
    ensures forall i :: 0 <= i < |rs| ==> MaxBytes(rs, start) >= rs[i].bytes
    ensures MaxBytes(rs, start) == start || exists i :: 0 <= i < |rs| && MaxBytes(rs, start) == rs[i].bytes
    decreases |rs|
  {
    if rs != [] {
      MaxBytesBounds(rs[1..], Max(start, rs[0].bytes));
      assert forall i :: 1 <= i < |rs| ==> rs[i] == rs[1..][i - 1];
      if MaxBytes(rs, start) != start && MaxBytes(rs, start) != rs[0].bytes {
        var i :| 0 <= i < |rs[1..]| && MaxBytes(rs, start) == rs[1..][i].bytes;
        assert rs[i + 1].bytes == MaxBytes(rs, start);
      }
    }
  }

  lemma CopyLengthBounds(rs: seq<IndexRecord>, i: nat, mode: Mode)
    requires i < |rs| && forall j :: 0 <= j < |rs| ==> rs[j].bytes < TWO32
    ensures rs[i].bytes <= CopyLength(rs, i, 0, mode) < TWO32
  {
    MaxBytesBounds(rs[..i + 1], 0);
    assert rs[..i + 1][i] == rs[i];
  }

  /** A read of the copy, at a length at least the record's own. */
  lemma CopiedReads(old_: Device, r: IndexRecord, new_: Device, block: nat, length: nat)
    requires Backed(old_) && Backed(new_) && old_.blockSize == new_.blockSize && Copied(old_, r, new_, block)
    requires Read(old_, r.block, r.bytes).Some? && r.bytes <= length
    ensures Read(new_, block, length).Some? <==> block + BlocksFor(length, new_.blockSize) <= new_.blocks
    ensures Read(new_, block, length).Some? ==> Read(old_, r.block, r.bytes).value <= Read(new_, block, length).value
  {
    ReadExact(old_, r.block, r.bytes);
    ReadExact(new_, block, r.bytes);
    ReadExact(new_, block, length);
  }

  lemma CopiedDecodes(old_: Device, r: IndexRecord, new_: Device, entry: IndexRecord)
    requires Backed(old_) && Backed(new_) && old_.blockSize == new_.blockSize && Copied(old_, r, new_, entry.block)
    requires Decode(old_, r).Some? && r.bytes <= entry.bytes
    ensures Decode(new_, entry) == if entry.block + BlocksFor(entry.bytes, new_.blockSize) <= new_.blocks
                                   then Decode(old_, r) else None
  {
    CopiedReads(old_, r, new_, entry.block, entry.bytes);
    hide Read;
    if Read(new_, entry.block, entry.bytes).Some? {
      DecodeLonger(old_, r, new_, entry);
    }
  }

  /**
   * A compacted record still loads, and loads the same, exactly when the length the new
   * index gives it stays within the new device; otherwise the read is refused.
   */
  lemma CompactedDecodes(old_: Device, rs: seq<IndexRecord>, mode: Mode, i: nat)
    requires Backed(old_) && Copyable(old_, rs) && DistinctKeys(rs) && i < |rs|
    requires SumBlocks(rs, old_.blockSize) < TWO32 && Decode(old_, rs[i]).Some?
    ensures var c := CopyAll(old_, rs, StartCopy(old_.blockSize), mode).1;
            && rs[i].key in c.entries
            && Decode(c.device, c.entries[rs[i].key])
               == if Fits(rs, i, old_.blockSize, mode) then Decode(old_, rs[i]) else None
  {
    var start := StartCopy(old_.blockSize);
    CopyAllWorks(old_, rs, start, mode);
    var c := CopyAll(old_, rs, start, mode).1;
    forall j | 0 <= j < |rs| ensures rs[j].bytes < TWO32 {
      assert Read(old_, rs[j].block, rs[j].bytes).Some?;
    }
    hide Read;
    hide Decode;
    hide CopyAll;
    hide BlocksFor;
    assert CopyDone(old_, rs, i, start, c, mode);
    CopyLengthBounds(rs, i, mode);
    CopiedDecodes(old_, rs[i], c.device, c.entries[rs[i].key]);
  }

  predicate Nondecreasing(rs: seq<IndexRecord>) {
    forall i, j :: 0 <= i < j < |rs| ==> rs[i].bytes <= rs[j].bytes
  }

  /** The index written is the intended one exactly when the table is walked by nondecreasing length. */
  lemma WrittenIsIntended(rs: seq<IndexRecord>)
    ensures (forall i :: 0 <= i < |rs| ==> CopyLength(rs, i, 0, AsWritten) == CopyLength(rs, i, 0, AsIntended))
            <==> Nondecreasing(rs)
  {
    if Nondecreasing(rs) {
      forall i | 0 <= i < |rs| ensures CopyLength(rs, i, 0, AsWritten) == rs[i].bytes {
        MaxBytesBounds(rs[..i + 1], 0);
        assert rs[..i + 1][i] == rs[i];
      }
    }
    if forall i :: 0 <= i < |rs| ==> CopyLength(rs, i, 0, AsWritten) == CopyLength(rs, i, 0, AsIntended) {
      forall i, j | 0 <= i < j < |rs| ensures rs[i].bytes <= rs[j].bytes {
        assert CopyLength(rs, j, 0, AsWritten) == CopyLength(rs, j, 0, AsIntended);
        MaxBytesBounds(rs[..j + 1], 0);
        assert rs[..j + 1][i] == rs[i];
      }
    }
  }
}
