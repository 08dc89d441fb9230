// The index table: where on the device each record lives, and its byte form
// (lib/ondisk/IndexTable.hpp, lib/ondisk/IndexRecord.hpp).

module IndexTables {
  import opened Serialization
  import opened LogDevices
  import opened Records

  datatype IndexRecord = IndexRecord(key: nat, block: nat, bytes: nat)

  datatype Table = Table(entries: map<nat, IndexRecord>, blockSize: nat, diskFootprint: nat, blockFootprint: nat)

  const EMPTY_TABLE := Table(map[], 0, 0, 0)

  /** Entries sit under their own key, in the ranges of their C++ types. */
  ghost predicate WellKeyed(entries: map<nat, IndexRecord>) {
    forall k <- entries :: entries[k].key == k < TWO64 && entries[k].block < TWO32 && entries[k].bytes < TWO32
  }

  predicate InRange(r: IndexRecord) {
    r.key < TWO64 && r.block < TWO32 && r.bytes < TWO32
  }

  function Insert(t: Table, r: IndexRecord): Table {
    t.(entries := t.entries[r.key := r])
  }

  function Erase(t: Table, key: nat): Table {
    t.(entries := t.entries - {key})
  }

  /** What loading one entry from the file does to the table: footprints count it, even over an old entry. */
  function LoadEntry(t: Table, r: IndexRecord): Table {
    Table(t.entries[r.key := r], t.blockSize,
          (t.diskFootprint + r.bytes) % TWO64,
          if t.blockSize > 0 then (t.blockFootprint + BlocksFor(r.bytes, t.blockSize)) % TWO64 else t.blockFootprint)
  }

  function LoadAll(t: Table, rs: seq<IndexRecord>): Table
    decreases |rs|
  {
    if rs == [] then t else LoadAll(LoadEntry(t, rs[0]), rs[1..])
  }

  function PrintIndexRecord(r: IndexRecord): Bytes {
    PrintUInt(r.key, 8) + (PrintUInt(r.block, 4) + PrintUInt(r.bytes, 4))
  }

  function ParseIndexRecord(b: Bytes): Parsed<IndexRecord> {
    var (key, b1) :- ParseUInt(b, 8);
    var (block, b2) :- ParseUInt(b1, 4);
    var (bytes, b3) :- ParseUInt(b2, 4);
    Got(IndexRecord(key, block, bytes), b3)
  }

  function PrintRecords(rs: seq<IndexRecord>): Bytes {
    if rs == [] then [] else PrintIndexRecord(rs[0]) + PrintRecords(rs[1..])
  }

  function ParseRecords(n: nat, b: Bytes, t: Table): Parsed<Table> {
    if n == 0 then Got(t, b)
    else
      var (r, b1) :- ParseIndexRecord(b);
      ParseRecords(n - 1, b1, LoadEntry(t, r))
  }

  function PrintTable(rs: seq<IndexRecord>): Bytes {
    PrintUInt(|rs|, 8) + PrintRecords(rs)
  }

  /** The count is a signed 64-bit number; a negative one loads nothing. */
  function ParseTable(b: Bytes, t: Table): Parsed<Table> {
    var (n, b1) :- ParseUInt(b, 8);
    var d := ToSigned(n, TWO64);
    if d <= 0 then Got(t, b1) else ParseRecords(d, b1, t)
  }

  /** The index file: the key counter, then the table. */
  function PrintIndexFile(counter: nat, rs: seq<IndexRecord>): Bytes {
    PrintUInt(counter, 8) + PrintTable(rs)
  }

  function ParseIndexFile(b: Bytes, t: Table): Parsed<(nat, Table)> {
    var (counter, b1) :- ParseUInt(b, 8);
    var (table, b2) :- ParseTable(b1, t);
    Got((counter, table), b2)
  }

  /** The entries in the order in which the hash table is walked. */
  function RecordsOf(entries: map<nat, IndexRecord>, order: seq<nat>): (rs: seq<IndexRecord>)
    requires forall k :: k in order ==> k in entries
    ensures |rs| == |order|
    ensures forall i :: 0 <= i < |rs| ==> order[i] in order && rs[i] == entries[order[i]]
  {
    seq(|order|, i requires 0 <= i < |order| => assert order[i] in order; entries[order[i]])
  }

  function SumBlocks(rs: seq<IndexRecord>, bs: nat): nat
    requires bs > 0
  {
    if rs == [] then 0 else BlocksFor(rs[0].bytes, bs) + SumBlocks(rs[1..], bs)
  }

  lemma ParsePrintIndexRecord(r: IndexRecord, tail: Bytes)
    requires InRange(r)
    ensures ParseIndexRecord(PrintIndexRecord(r) + tail) == Got(r, tail)
  {
    Pow256Values();
    var t2 := PrintUInt(r.bytes, 4) + tail;
    var t1 := PrintUInt(r.block, 4) + t2;
    assert PrintIndexRecord(r) + tail == PrintUInt(r.key, 8) + t1;
    ParsePrintUInt(r.key, 8, t1);
    ParsePrintUInt(r.block, 4, t2);
    ParsePrintUInt(r.bytes, 4, tail);
  }

  lemma {:induction false} ParsePrintRecords(rs: seq<IndexRecord>, t: Table, tail: Bytes)
    requires forall i :: 0 <= i < |rs| ==> InRange(rs[i])
    ensures ParseRecords(|rs|, PrintRecords(rs) + tail, t) == Got(LoadAll(t, rs), tail)
  {
    if rs == [] {
      assert PrintRecords(rs) + tail == tail;
    } else {
      var more := PrintRecords(rs[1..]) + tail;
      assert PrintRecords(rs) + tail == PrintIndexRecord(rs[0]) + more;
      ParsePrintIndexRecord(rs[0], more);
      hide ParseIndexRecord;
      ParsePrintRecords(rs[1..], LoadEntry(t, rs[0]), tail);
    }
  }

  lemma ParsePrintTable(rs: seq<IndexRecord>, t: Table, tail: Bytes)
    requires 2 * |rs| < TWO64 && forall i :: 0 <= i < |rs| ==> InRange(rs[i])
    ensures ParseTable(PrintTable(rs) + tail, t) == Got(LoadAll(t, rs), tail)
  {
    Pow256Values();
    ParsePrintUInt(|rs|, 8, PrintRecords(rs) + tail);
    assert PrintTable(rs) + tail == PrintUInt(|rs|, 8) + (PrintRecords(rs) + tail);
    ParsePrintRecords(rs, t, tail);
    if rs == [] {
      assert PrintRecords(rs) + tail == tail;
    }
  }

  lemma OverlayStep<V>(m: map<nat, V>, base: map<nat, V>, k: nat, more: seq<nat>)
    requires k in m && forall x :: x in more ==> x in m
    ensures base[k := m[k]] + (map x | x in more :: m[x]) == base + (map x | x in [k] + more :: m[x])
  {
  }

  /** Loading the entries of a table, in any order, lays it over what was there. */
  lemma {:induction false} LoadAllEntries(t: Table, entries: map<nat, IndexRecord>, order: seq<nat>)
    requires WellKeyed(entries) && forall k :: k in order ==> k in entries
    ensures LoadAll(t, RecordsOf(entries, order)).entries == t.entries + (map k | k in order :: entries[k])
    ensures LoadAll(t, RecordsOf(entries, order)).blockSize == t.blockSize
    decreases |order|
  {
    if order != [] {
      var k, more := order[0], order[1..];
      assert order == [k] + more;
      assert RecordsOf(entries, order)[1..] == RecordsOf(entries, more);
      var t' := LoadEntry(t, entries[k]);
      assert t'.entries == t.entries[k := entries[k]] && t'.blockSize == t.blockSize;
      LoadAllEntries(t', entries, more);
      OverlayStep(entries, t.entries, k, more);
    }
  }

  lemma ModAdd(a: nat, b: nat)
    ensures (a % TWO64 + b) % TWO64 == (a + b) % TWO64
  {
  }

  /** The block footprint of a load is the sum of the loaded lengths in blocks. */
  lemma {:induction false} LoadAllFootprint(t: Table, rs: seq<IndexRecord>)
    requires t.blockSize > 0 && t.blockFootprint < TWO64
    ensures LoadAll(t, rs).blockFootprint == (t.blockFootprint + SumBlocks(rs, t.blockSize)) % TWO64
    decreases |rs|
  {
    if rs != [] {
      LoadAllFootprint(LoadEntry(t, rs[0]), rs[1..]);
      ModAdd(t.blockFootprint + BlocksFor(rs[0].bytes, t.blockSize), SumBlocks(rs[1..], t.blockSize));
    }
  }

  /** The byte footprint of a load is the sum of the loaded lengths. */
  lemma {:induction false} LoadAllBytes(t: Table, rs: seq<IndexRecord>)
    requires t.diskFootprint < TWO64
    ensures LoadAll(t, rs).diskFootprint == (t.diskFootprint + SumBytes(rs)) % TWO64
    decreases |rs|
  {
    if rs != [] {
      LoadAllBytes(LoadEntry(t, rs[0]), rs[1..]);
      ModAdd(t.diskFootprint + rs[0].bytes, SumBytes(rs[1..]));
    }
  }

  function SumBytes(rs: seq<IndexRecord>): nat {
    if rs == [] then 0 else rs[0].bytes + SumBytes(rs[1..])
  }

  /** An index record takes 16 bytes: key, block and length. */
  lemma IndexRecordLayout(r: IndexRecord)
    ensures |PrintIndexRecord(r)| == 16
    ensures PrintIndexRecord(r)[..8] == PrintUInt(r.key, 8)
    ensures PrintIndexRecord(r)[8..12] == PrintUInt(r.block, 4)
    ensures PrintIndexRecord(r)[12..] == PrintUInt(r.bytes, 4)
  {
    hide PrintUInt;
  }

  lemma {:induction false} RecordsLayout(rs: seq<IndexRecord>, i: nat)
    requires i < |rs|
    ensures 16 * i + 16 <= |PrintRecords(rs)|
    ensures PrintRecords(rs)[16 * i..16 * i + 16] == PrintIndexRecord(rs[i])
  {
    IndexRecordLayout(rs[0]);
    hide PrintIndexRecord;
    if i > 0 {
      RecordsLayout(rs[1..], i - 1);
      var b, more := PrintRecords(rs), PrintRecords(rs[1..]);
      assert b[16 * i..16 * i + 16] == more[16 * i - 16..16 * i];
    }
  }

  /** The index file: key counter, count of records, and the records 16 bytes apart. */
  lemma IndexFileLayout(counter: nat, rs: seq<IndexRecord>, i: nat)
    requires i < |rs|
    ensures var b := PrintIndexFile(counter, rs);
            && |b| >= 32 + 16 * i
            && b[..8] == PrintUInt(counter, 8) && b[8..16] == PrintUInt(|rs|, 8)
            && b[16 + 16 * i..32 + 16 * i] == PrintIndexRecord(rs[i])
  {
    RecordsLayout(rs, i);
    hide PrintUInt;
    hide PrintIndexRecord;
    hide PrintRecords;
    var head, records := PrintUInt(counter, 8) + PrintUInt(|rs|, 8), PrintRecords(rs);
    assert PrintIndexFile(counter, rs) == head + records;
    SliceBehind(head, records, 16 * i);
  }

  lemma SliceBehind(head: Bytes, tail: Bytes, at: nat)
    requires |head| == 16 && at + 16 <= |tail|
    ensures (head + tail)[16 + at..32 + at] == tail[at..at + 16]
  {
  }

  /** The whole index file round-trips, in whatever order the table was walked. */
  lemma IndexFileRoundTrip(counter: nat, entries: map<nat, IndexRecord>, order: seq<nat>, t: Table)
    requires counter < TWO64 && WellKeyed(entries) && IsOrder(order, entries) && 2 * |order| < TWO64
    ensures var rs := RecordsOf(entries, order);
            ParseIndexFile(PrintIndexFile(counter, rs), t) == Got((counter, LoadAll(t, rs)), [])
    ensures LoadAll(t, RecordsOf(entries, order)).entries == t.entries + entries
    ensures LoadAll(t, RecordsOf(entries, order)).blockSize == t.blockSize
  {
    var rs := RecordsOf(entries, order);
    Pow256Values();
    LoadAllEntries(t, entries, order);
    assert t.entries + (map k | k in order :: entries[k]) == t.entries + entries;
    ParsePrintUInt(counter, 8, PrintTable(rs));
    ParsePrintTable(rs, t, []);
    assert PrintTable(rs) + [] == PrintTable(rs);
    hide ParseTable;
    hide PrintTable;
  }
}
