// The log-structured block device (lib/ondisk/LogDevice.hpp): records are padded to whole
// blocks and appended; nothing is ever overwritten. Block numbers and counts are 32-bit.

module LogDevices {
  import opened Wrappers
  import opened Serialization

  const MIN_BLOCK_SIZE: nat := 2048

  /** An open device: its block size, its block counter and the file behind it. */
  datatype Device = Device(blockSize: nat, blocks: nat, file: Bytes)

  function Zeros(n: nat): (z: Bytes)
    ensures |z| == n
  {
    seq(n, _ => 0)
  }

  function BlocksFor(n: nat, bs: nat): nat
    requires bs > 0
  {
    n / bs + if n % bs != 0 then 1 else 0
  }

  function Padding(n: nat, bs: nat): nat
    requires bs > 0
  {
    if n % bs != 0 then bs - n % bs else 0
  }

  /** What append counts: the growth in bytes, cut to 32 bits before the division. */
  function BlocksAdded(n: nat, bs: nat): nat
    requires bs > 0
  {
    (n + Padding(n, bs)) % TWO32 / bs
  }

  function OpenDevice(blockSize: nat, file: Bytes): Device
    requires blockSize > 0
  {
    Device(blockSize, |file| / blockSize % TWO32, file)
  }

  /** Zero asks for the whole buffer; otherwise at most the buffer is written. */
  function AppendSize(buf: Bytes, count: nat): nat {
    if count == 0 then |buf| else Min(count, |buf|)
  }

  datatype Appended = Appended(device: Device, index: nat, count: nat)

  function Append(d: Device, buf: Bytes, count: nat): Appended
    requires d.blockSize > 0
  {
    var size := AppendSize(buf, count);
    var added := BlocksAdded(size, d.blockSize);
    Appended(
      d.(file := d.file + buf[..size] + Zeros(Padding(size, d.blockSize)), blocks := (d.blocks + added) % TWO32),
      |d.file| / d.blockSize % TWO32,
      added)
  }

  /** Bytes fread delivers from this offset: fewer than asked for at the end of the file. */
  function Available(file: Bytes, offset: nat, cnt: nat): nat {
    if offset >= |file| then 0 else Min(cnt, |file| - offset)
  }

  function Resized(buffer: Bytes, cnt: nat): (r: Bytes)
    ensures |r| >= cnt && |r| >= |buffer|
  {
    if |buffer| < cnt then buffer + Zeros(cnt - |buffer|) else buffer
  }

  /** Reads into the front of a buffer that grows when too short and never shrinks. */
  function ReadInto(d: Device, n: nat, buffer: Bytes, cnt: nat): (Status, Bytes)
    requires d.blockSize > 0
  {
    if cnt == 0 then (InvalidArgument, buffer)
    else
      var b := Resized(buffer, cnt);
      if n + BlocksFor(cnt, d.blockSize) > d.blocks then (InvalidArgument, b)
      else
        var got := Available(d.file, n * d.blockSize, cnt);
        if got == 0 then (IOError, b)
        else (Ok, d.file[n * d.blockSize..n * d.blockSize + got] + b[got..])
  }

  function Read(d: Device, n: nat, cnt: nat): Option<Bytes>
    requires d.blockSize > 0
  {
    var (status, b) := ReadInto(d, n, [], cnt);
    if status.Ok? then Some(b) else None
  }

  /** Every counted block is in the file. */
  predicate Backed(d: Device) {
    0 < d.blockSize < TWO32 && d.blocks < TWO32 && d.blocks * d.blockSize <= |d.file|
  }

  /** The file is exactly the counted blocks. */
  predicate Aligned(d: Device) {
    0 < d.blockSize < TWO32 && d.blocks < TWO32 && d.blocks * d.blockSize == |d.file|
  }

  /** `d2` is `d1` after appends, whole or in part. */
  predicate Grown(d1: Device, d2: Device) {
    d1.blockSize == d2.blockSize && d1.blocks <= d2.blocks && d1.file <= d2.file
  }

  /** Room in 32-bit arithmetic for one more record of `n` bytes. */
  predicate Room(d: Device, n: nat)
    requires d.blockSize > 0
  {
    n + Padding(n, d.blockSize) < TWO32 && d.blocks + BlocksFor(n, d.blockSize) < TWO32
  }

  // ---------------------------------------------------------------------------
  // Block arithmetic

  lemma MulDiv(k: nat, m: nat)
    requires m > 0
    ensures k * m / m == k
  {
    var q := k * m / m;
    assert k * m == q * m + k * m % m;
    if q < k {
      MulMonotone(q + 1, k, m);
    } else if k < q {
      MulMonotone(k + 1, q, m);
    }
  }

  lemma DivBound(x: nat, k: nat, m: nat)
    requires m > 0 && x < k * m
    ensures x / m < k
  {
  }

  lemma MulMonotone(a: nat, b: nat, m: nat)
    requires a <= b
    ensures a * m <= b * m
  {
  }

  lemma PaddedIsBlocks(n: nat, bs: nat)
    requires bs > 0
    ensures n + Padding(n, bs) == BlocksFor(n, bs) * bs
    ensures n > 0 ==> BlocksFor(n, bs) > 0
  {
  }

  /** The 32-bit count is right exactly when the padded record is below 4 GiB. */
  lemma BlocksAddedExact(n: nat, bs: nat)
    requires 0 < bs < TWO32
    ensures BlocksAdded(n, bs) == BlocksFor(n, bs) <==> n + Padding(n, bs) < TWO32
  {
    PaddedIsBlocks(n, bs);
    var padded, k := n + Padding(n, bs), BlocksFor(n, bs);
    if padded < TWO32 {
      MulDiv(k, bs);
    } else {
      assert padded % TWO32 <= padded - TWO32 < k * bs;
      DivBound(padded % TWO32, k, bs);
    }
  }

  /** A record whose padded length is exactly 4 GiB counts as no block at all. */
  lemma FourGibibytesCountAsNothing(buf: Bytes, d: Device)
    requires d.blockSize == 2048 && Aligned(d)
    requires |buf| == 0xFFFF_FFFF
    ensures Append(d, buf, 0).count == 0 && BlocksFor(|buf|, 2048) == 0x20_0000
    ensures Append(d, buf, 0).device.blocks == d.blocks
    ensures Read(Append(d, buf, 0).device, d.blocks, |buf|) == None
  {
  }

  // ---------------------------------------------------------------------------
  // Reads after appends

  /** A read within the counted blocks delivers the bytes of the file. */
  lemma ReadInside(d: Device, n: nat, buffer: Bytes, cnt: nat)
    requires Backed(d) && cnt > 0 && n + BlocksFor(cnt, d.blockSize) <= d.blocks
    ensures var (status, b) := ReadInto(d, n, buffer, cnt);
            && status == Ok
            && n * d.blockSize + cnt <= |d.file|
            && b == d.file[n * d.blockSize..n * d.blockSize + cnt] + Resized(buffer, cnt)[cnt..]
  {
    PaddedIsBlocks(cnt, d.blockSize);
    MulMonotone(n + BlocksFor(cnt, d.blockSize), d.blocks, d.blockSize);
    assert (n + BlocksFor(cnt, d.blockSize)) * d.blockSize
        == n * d.blockSize + BlocksFor(cnt, d.blockSize) * d.blockSize;
  }

  /** Nothing to read, and anything past the counted blocks, is an invalid argument; all else is read. */
  lemma ReadAnswers(d: Device, n: nat, buffer: Bytes, cnt: nat)
    requires Backed(d)
    ensures ReadInto(d, n, buffer, cnt).0
            == if cnt == 0 || n + BlocksFor(cnt, d.blockSize) > d.blocks then InvalidArgument else Ok
  {
    if cnt > 0 && n + BlocksFor(cnt, d.blockSize) <= d.blocks {
      ReadInside(d, n, buffer, cnt);
    }
  }

  /** A read succeeds exactly within the counted blocks, and then gives the bytes at that place. */
  lemma ReadExact(d: Device, n: nat, cnt: nat)
    requires Backed(d)
    ensures Read(d, n, cnt).Some? <==> cnt > 0 && n + BlocksFor(cnt, d.blockSize) <= d.blocks
    ensures Read(d, n, cnt).Some? ==>
              n * d.blockSize + cnt <= |d.file|
                  && Read(d, n, cnt) == Some(d.file[n * d.blockSize..n * d.blockSize + cnt])
  {
    if cnt > 0 && n + BlocksFor(cnt, d.blockSize) <= d.blocks {
      ReadInside(d, n, [], cnt);
      var bytes := d.file[n * d.blockSize..n * d.blockSize + cnt];
      assert bytes + Resized([], cnt)[cnt..] == bytes;
    }
  }

  lemma PrefixSlice(a: Bytes, b: Bytes, lo: nat, hi: nat)
    requires a <= b && lo <= hi <= |a|
    ensures b[lo..hi] == a[lo..hi]
  {
  }

  /** What could be read stays readable, with the same bytes, however the device grows. */
  lemma ReadGrown(d1: Device, d2: Device, n: nat, cnt: nat)
    requires Backed(d1) && Backed(d2) && Grown(d1, d2) && Read(d1, n, cnt).Some?
    ensures Read(d2, n, cnt) == Read(d1, n, cnt)
  {
    hide BlocksFor;
    hide ReadInto;
    hide Read;
    ReadExact(d1, n, cnt);
    ReadExact(d2, n, cnt);
    PrefixSlice(d1.file, d2.file, n * d1.blockSize, n * d1.blockSize + cnt);
  }

  /** Reading into a used buffer puts the same bytes at its front as a fresh read returns. */
  lemma ReadIntoFront(d: Device, n: nat, buffer: Bytes, cnt: nat)
    requires Backed(d) && Read(d, n, cnt).Some?
    ensures var (status, b) := ReadInto(d, n, buffer, cnt);
            && status == Ok && |b| == (if |buffer| < cnt then cnt else |buffer|)
            && cnt > 0 && b[..cnt] == Read(d, n, cnt).value
  {
    hide BlocksFor;
    hide ReadInto;
    hide Read;
    ReadExact(d, n, cnt);
    ReadInside(d, n, buffer, cnt);
    var bytes := d.file[n * d.blockSize..n * d.blockSize + cnt];
    var later := Resized(buffer, cnt)[cnt..];
    assert (bytes + later)[..cnt] == bytes;
  }

  lemma AppendAligned(d: Device, buf: Bytes, count: nat)
    requires Aligned(d) && buf != [] && Room(d, AppendSize(buf, count))
    ensures var a := Append(d, buf, count);
            && a.index == d.blocks
            && a.count == BlocksFor(AppendSize(buf, count), d.blockSize) > 0
            && a.device.blocks == d.blocks + a.count
            && Aligned(a.device) && Grown(d, a.device)
  {
    var size, bs := AppendSize(buf, count), d.blockSize;
    var k := BlocksFor(size, bs);
    PaddedIsBlocks(size, bs);
    BlocksAddedExact(size, bs);
    MulDiv(d.blocks, bs);
    hide BlocksFor;
    hide Padding;
    hide BlocksAdded;
    Distribute(d.blocks, k, bs);
    assert |Append(d, buf, count).device.file| == |d.file| + (size + Padding(size, bs));
  }

  lemma Distribute(a: nat, b: nat, m: nat)
    ensures (a + b) * m == a * m + b * m
  {
  }

  lemma AppendReadsBack(d: Device, buf: Bytes, count: nat)
    requires Aligned(d) && buf != [] && Room(d, AppendSize(buf, count))
    ensures var a := Append(d, buf, count);
            Read(a.device, a.index, AppendSize(buf, count)) == Some(buf[..AppendSize(buf, count)])
  {
    var size := AppendSize(buf, count);
    var a := Append(d, buf, count);
    AppendAligned(d, buf, count);
    ReadExact(a.device, a.index, size);
    assert a.device.file[d.blocks * d.blockSize..d.blocks * d.blockSize + size] == buf[..size];
  }

  /** Reopening an aligned device counts the same blocks. */
  lemma OpenAligned(d: Device)
    requires Aligned(d)
    ensures OpenDevice(d.blockSize, d.file) == d
  {
    MulDiv(d.blocks, d.blockSize);
  }

  /** A file cut anywhere, even inside a block, still opens to a backed device. */
  lemma OpenBacked(bs: nat, file: Bytes)
    requires 0 < bs < TWO32
    ensures Backed(OpenDevice(bs, file))
  {
    var n := |file| / bs;
    assert n * bs <= |file|;
    MulMonotone(n % TWO32, n, bs);
  }

  // ---------------------------------------------------------------------------
  // Histories of appends

  function TotalBlocks(bufs: seq<Bytes>, bs: nat): nat
    requires bs > 0
  {
    if bufs == [] then 0 else BlocksFor(|bufs[0]|, bs) + TotalBlocks(bufs[1..], bs)
  }

  predicate RoomForAll(d: Device, bufs: seq<Bytes>)
    requires d.blockSize > 0
  {
    && d.blocks + TotalBlocks(bufs, d.blockSize) < TWO32
    && forall i :: 0 <= i < |bufs| ==> bufs[i] != [] && |bufs[i]| + Padding(|bufs[i]|, d.blockSize) < TWO32
  }

  /** The device after a sequence of appends, and the (index, count) each of them returned. */
  function AppendAll(d: Device, bufs: seq<Bytes>): (r: (Device, seq<(nat, nat)>))
    requires d.blockSize > 0
    ensures |r.1| == |bufs| && r.0.blockSize == d.blockSize
    decreases |bufs|
  {
    if bufs == [] then (d, [])
    else
      var a := Append(d, bufs[0], 0);
      var (last, extents) := AppendAll(a.device, bufs[1..]);
      (last, [(a.index, a.count)] + extents)
  }

  /** The `i`-th record of a history lies behind the ones before it and reads back byte for byte. */
  predicate Kept(d: Device, bufs: seq<Bytes>, i: nat, last: Device, extent: (nat, nat))
    requires i < |bufs| && d.blockSize > 0 && last.blockSize > 0
  {
    && extent == (d.blocks + TotalBlocks(bufs[..i], d.blockSize), BlocksFor(|bufs[i]|, d.blockSize))
    && Read(last, extent.0, |bufs[i]|) == Some(bufs[i])
  }

  /** The first append of a history, and what it leaves for the others. */
  lemma FirstAppend(d: Device, bufs: seq<Bytes>)
    requires Aligned(d) && RoomForAll(d, bufs) && bufs != []
    ensures var a := Append(d, bufs[0], 0);
            && a.index == d.blocks && a.count == BlocksFor(|bufs[0]|, d.blockSize)
            && a.device.blocks == d.blocks + a.count
            && Aligned(a.device) && Grown(d, a.device) && RoomForAll(a.device, bufs[1..])
            && Read(a.device, a.index, |bufs[0]|) == Some(bufs[0])
  {
    AppendAligned(d, bufs[0], 0);
    AppendReadsBack(d, bufs[0], 0);
    assert bufs[0][..|bufs[0]|] == bufs[0];
    assert forall i :: 0 <= i < |bufs[1..]| ==> bufs[1..][i] == bufs[i + 1];
  }

  lemma KeptLater(d: Device, d1: Device, bufs: seq<Bytes>, i: nat, last: Device, extent: (nat, nat))
    requires 0 < i < |bufs| && 0 < d.blockSize == d1.blockSize && last.blockSize > 0
    requires d1.blocks == d.blocks + BlocksFor(|bufs[0]|, d.blockSize)
    requires Kept(d1, bufs[1..], i - 1, last, extent)
    ensures Kept(d, bufs, i, last, extent)
  {
    assert bufs[..i][0] == bufs[0] && bufs[..i][1..] == bufs[1..][..i - 1];
  }

  /**
   * Every append of a history returns the block count it found and the length of its record
   * in blocks, and at the end every record is still there.
   */
  lemma {:induction false} AppendHistory(d: Device, bufs: seq<Bytes>)
    requires Aligned(d) && RoomForAll(d, bufs)
    ensures var (last, extents) := AppendAll(d, bufs);
            && Aligned(last) && Grown(d, last) && last.blocks == d.blocks + TotalBlocks(bufs, d.blockSize)
            && forall i :: 0 <= i < |bufs| ==> Kept(d, bufs, i, last, extents[i])
    decreases |bufs|
  {
    if bufs != [] {
      FirstAppend(d, bufs);
      hide BlocksFor;
      hide Padding;
      hide Read;
      hide Append;
      var a := Append(d, bufs[0], 0);
      AppendHistory(a.device, bufs[1..]);
      var (last, extents) := AppendAll(d, bufs);
      ReadGrown(a.device, last, a.index, |bufs[0]|);
      assert bufs[..0] == [];
      forall i | 0 < i < |bufs| ensures Kept(d, bufs, i, last, extents[i]) {
        KeptLater(d, a.device, bufs, i, last, extents[i]);
      }
    }
  }
}
