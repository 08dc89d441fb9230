// load fetches the index entry under a shared lock and reads the device after releasing it
// (lib/ondisk/StorageEngine.hpp). Threads are interleaved step by step; a save is as many
// steps as its bytes, the block counter and the index need.

module UnlockedLoads {
  import opened Wrappers
  import opened Serialization
  import opened Records
  import opened LogDevices
  import opened IndexTables
  import opened Engines
  import E = EngineRuns

  /** The holder of the exclusive lock, and how far its save has come. */
  datatype Writer =
    | Idle
    | Writing(key: nat, rec: Rec, index: nat, size: nat, todo: Bytes)
    | Indexing(entry: IndexRecord, newRec: Rec)

  /**
   * The engine's shared state; `fetched` holds the index entry of every load between its two
   * steps. The last two fields are bookkeeping for the statement: the map the store stands
   * for, and what it held for a load's key when the load fetched its entry.
   */
  datatype Shared = Shared(
    dev: Device,
    entries: map<nat, IndexRecord>,
    writer: Writer,
    fetched: map<nat, IndexRecord>,
    m: map<nat, Rec>,
    promised: map<nat, Rec>)

  datatype Move =
    | Fetch(tid: nat, key: nat)
    | ReadDevice(tid: nat, now: int)
    | BeginSave(rec: Rec, orders: Orders)
    | WriteSome(n: nat)
    | CountBlocks
    | InsertIndex
    | RemoveKey(key: nat)

  ghost predicate Enabled(s: Shared, a: Move)
    requires s.dev.blockSize > 0
  {
    match a
    case Fetch(tid, key) => s.writer.Idle? && tid !in s.fetched && key in s.entries && key in s.m
    case ReadDevice(tid, _) => tid in s.fetched && tid in s.promised
    case BeginSave(rec, orders) =>
      && s.writer.Idle? && TypedRec(rec) && Bijective(rec.children) && AreOrders(orders, rec)
      && Room(s.dev, |PrintRec(rec, orders)|)
    case WriteSome(n) => s.writer.Writing? && n <= |s.writer.todo|
    case CountBlocks => s.writer.Writing? && s.writer.todo == []
    case InsertIndex => s.writer.Indexing?
    case RemoveKey(_) => s.writer.Idle?
  }

  /** The device once the remaining bytes are out and the blocks are counted. */
  function Finished(dev: Device, size: nat, todo: Bytes): Device
    requires dev.blockSize > 0
  {
    dev.(file := dev.file + todo, blocks := (dev.blocks + BlocksAdded(size, dev.blockSize)) % TWO32)
  }

  ghost function Take(s: Shared, a: Move): Shared
    requires s.dev.blockSize > 0 && Enabled(s, a)
  {
    match a
    case Fetch(tid, key) => s.(fetched := s.fetched[tid := s.entries[key]], promised := s.promised[tid := s.m[key]])
    case ReadDevice(tid, _) => s.(fetched := s.fetched - {tid}, promised := s.promised - {tid})
    case BeginSave(rec, orders) =>
      var buf := PrintRec(rec, orders);
      s.(writer := Writing(rec.key, rec, |s.dev.file| / s.dev.blockSize % TWO32, |buf|,
                           buf + Zeros(Padding(|buf|, s.dev.blockSize))))
    case WriteSome(n) =>
      s.(dev := s.dev.(file := s.dev.file + s.writer.todo[..n]), writer := s.writer.(todo := s.writer.todo[n..]))
    case CountBlocks =>
      s.(dev := Finished(s.dev, s.writer.size, []),
         writer := Indexing(IndexRecord(s.writer.key, s.writer.index, s.writer.size), s.writer.rec))
    case InsertIndex =>
      s.(entries := s.entries[s.writer.entry.key := s.writer.entry], writer := Idle,
         m := s.m[s.writer.entry.key := s.writer.newRec])
    case RemoveKey(key) => s.(entries := s.entries - {key}, m := s.m - {key})
  }

  /** What a load's second step returns. */
  function ReadResult(s: Shared, tid: nat, now: int): Loaded
    requires s.dev.blockSize > 0 && tid in s.fetched
  {
    LoadExtent(s.dev, s.fetched[tid], now)
  }

  ghost predicate WriterOk(dev: Device, w: Writer)
    requires dev.blockSize > 0
  {
    match w
    case Idle => Aligned(dev)
    case Writing(_, _, _, _, _) => WritingOk(dev, w)
    case Indexing(entry, rec) => Aligned(dev) && Decode(dev, entry) == Some(rec)
  }

  /** Once all bytes are out, the device is the one a whole append would have left. */
  ghost predicate WritingOk(dev: Device, w: Writer)
    requires dev.blockSize > 0 && w.Writing?
  {
    var done := Finished(dev, w.size, w.todo);
    Room(dev, w.size) && Aligned(done) && Decode(done, IndexRecord(w.key, w.index, w.size)) == Some(w.rec)
  }

  ghost predicate Inv(s: Shared) {
    && Backed(s.dev) && WriterOk(s.dev, s.writer)
    && s.entries.Keys == s.m.Keys && s.fetched.Keys == s.promised.Keys
    && (forall k <- s.m :: Decode(s.dev, s.entries[k]) == Some(s.m[k]))
    && (forall t <- s.promised :: Decode(s.dev, s.fetched[t]) == Some(s.promised[t]))
  }

  lemma BeginSaveOk(dev: Device, rec: Rec, orders: Orders)
    requires Aligned(dev) && TypedRec(rec) && Bijective(rec.children) && AreOrders(orders, rec)
    requires Room(dev, |PrintRec(rec, orders)|)
    ensures var buf := PrintRec(rec, orders);
            WritingOk(dev, Writing(rec.key, rec, |dev.file| / dev.blockSize % TWO32, |buf|,
                                   buf + Zeros(Padding(|buf|, dev.blockSize))))
  {
    var buf := PrintRec(rec, orders);
    DecodeSaved(dev, rec, orders, rec.key);
    AppendAligned(dev, buf, 0);
    hide PrintRec;
    hide BlocksFor;
    hide Padding;
    hide BlocksAdded;
    hide Decode;
    hide Room;
    FinishedAppend(dev, buf);
  }

  lemma FinishedAppend(dev: Device, buf: Bytes)
    requires dev.blockSize > 0
    ensures Finished(dev, |buf|, buf + Zeros(Padding(|buf|, dev.blockSize))) == Append(dev, buf, 0).device
  {
  }

  lemma WriteSomeOk(dev: Device, w: Writer, n: nat)
    requires dev.blockSize > 0 && w.Writing? && WritingOk(dev, w) && n <= |w.todo|
    ensures WritingOk(dev.(file := dev.file + w.todo[..n]), w.(todo := w.todo[n..]))
  {
    hide Decode;
    hide Padding;
    hide BlocksFor;
    hide Aligned;
    hide BlocksAdded;
    assert dev.file + w.todo[..n] + w.todo[n..] == dev.file + w.todo;
    assert Finished(dev.(file := dev.file + w.todo[..n]), w.size, w.todo[n..]) == Finished(dev, w.size, w.todo);
  }

  /** A step only ever grows the device, so whatever decoded still decodes to the same. */
  lemma StillDecodes(s: Shared, d: Device)
    requires Inv(s) && Backed(d) && Grown(s.dev, d)
    ensures forall k <- s.m :: Decode(d, s.entries[k]) == Some(s.m[k])
    ensures forall t <- s.promised :: Decode(d, s.fetched[t]) == Some(s.promised[t])
  {
    forall k | k in s.m ensures Decode(d, s.entries[k]) == Some(s.m[k]) {
      DecodeGrown(s.dev, d, s.entries[k]);
    }
    forall t | t in s.promised ensures Decode(d, s.fetched[t]) == Some(s.promised[t]) {
      DecodeGrown(s.dev, d, s.fetched[t]);
    }
  }

  lemma WriteSomeKeeps(s: Shared, n: nat)
    requires Inv(s) && Enabled(s, WriteSome(n))
    ensures Inv(Take(s, WriteSome(n)))
  {
    hide WritingOk;
    hide Decode;
    WriteSomeOk(s.dev, s.writer, n);
    StillDecodes(s, s.dev.(file := s.dev.file + s.writer.todo[..n]));
  }

  lemma CountedOk(dev: Device, w: Writer)
    requires Backed(dev) && w.Writing? && WritingOk(dev, w) && w.todo == []
    ensures var d := Finished(dev, w.size, []);
            Aligned(d) && Grown(dev, d) && Decode(d, IndexRecord(w.key, w.index, w.size)) == Some(w.rec)
  {
    hide BlocksFor;
    hide BlocksAdded;
    hide Padding;
    hide Decode;
    BlocksAddedExact(w.size, dev.blockSize);
    assert dev.file + w.todo == dev.file + [];
  }

  lemma CountBlocksKeeps(s: Shared)
    requires Inv(s) && Enabled(s, CountBlocks)
    ensures Inv(Take(s, CountBlocks))
  {
    hide Finished;
    hide Decode;
    hide WritingOk;
    CountedOk(s.dev, s.writer);
    StillDecodes(s, Finished(s.dev, s.writer.size, []));
  }

  lemma BeginSaveKeeps(s: Shared, rec: Rec, orders: Orders)
    requires Inv(s) && Enabled(s, BeginSave(rec, orders))
    ensures Inv(Take(s, BeginSave(rec, orders)))
  {
    BeginSaveOk(s.dev, rec, orders);
    hide WritingOk;
    hide Decode;
    hide PrintRec;
  }

  lemma IndexMovesKeep(s: Shared, a: Move)
    requires Inv(s) && Enabled(s, a) && (a.Fetch? || a.ReadDevice? || a.InsertIndex? || a.RemoveKey?)
    ensures Inv(Take(s, a))
  {
    hide WritingOk;
    hide Decode;
  }

  lemma TakeKeeps(s: Shared, a: Move)
    requires Inv(s) && Enabled(s, a)
    ensures Inv(Take(s, a))
  {
    assert s.dev.blockSize > 0;
    hide Inv;
    hide Enabled;
    hide Take;
    match a {
      case BeginSave(rec, orders) => BeginSaveKeeps(s, rec, orders);
      case WriteSome(n) => WriteSomeKeeps(s, n);
      case CountBlocks => CountBlocksKeeps(s);
      case _ => IndexMovesKeep(s, a);
    }
  }

  /** An interleaving: the states between moves, each move enabled where it is taken. */
  ghost predicate Interleaving(states: seq<Shared>, moves: seq<Move>) {
    && |states| == |moves| + 1
    && Inv(states[0])
    && forall i :: 0 <= i < |moves| ==>
         states[i].dev.blockSize > 0 && Enabled(states[i], moves[i]) && states[i + 1] == Take(states[i], moves[i])
  }

  lemma {:induction false} InvThroughout(states: seq<Shared>, moves: seq<Move>, i: nat)
    requires Interleaving(states, moves) && i < |states|
    ensures Inv(states[i])
  {
    hide Inv;
    hide Enabled;
    hide Take;
    if i > 0 {
      InvThroughout(states, moves, i - 1);
      TakeKeeps(states[i - 1], moves[i - 1]);
    }
  }

  lemma PromiseStep(s: Shared, a: Move, tid: nat)
    requires Inv(s) && Enabled(s, a) && tid in s.promised && !(a.ReadDevice? && a.tid == tid)
    ensures tid in Take(s, a).promised && Take(s, a).promised[tid] == s.promised[tid]
  {
    hide WriterOk;
    hide Decode;
    hide Finished;
    hide Room;
  }

  /** Between its two steps a load keeps its promise, whatever the other threads do. */
  lemma {:induction false} PromiseKept(states: seq<Shared>, moves: seq<Move>, i: nat, j: nat, tid: nat, key: nat)
    requires Interleaving(states, moves) && i < j < |states| && moves[i] == Fetch(tid, key)
    requires forall x :: i < x < j ==> !(moves[x].ReadDevice? && moves[x].tid == tid)
    ensures key in states[i].m && tid in states[j].promised && states[j].promised[tid] == states[i].m[key]
  {
    hide Inv;
    hide Room;
    if j > i + 1 {
      PromiseKept(states, moves, i, j - 1, tid, key);
      InvThroughout(states, moves, j - 1);
      hide Take;
      hide Enabled;
      PromiseStep(states[j - 1], moves[j - 1], tid);
      assert states[j] == Take(states[j - 1], moves[j - 1]);
    }
  }

  /**
   * Unlocked loads are atomic at the fetch: however the two steps of a load interleave with
   * the saves, removals and loads of other threads, it returns what the store held for its
   * key when it fetched the index entry, less what has expired since.
   */
  lemma UnlockedLoadIsAtomic(states: seq<Shared>, moves: seq<Move>, i: nat, j: nat, tid: nat, key: nat, now: int)
    requires Interleaving(states, moves) && i < j < |moves|
    requires moves[i] == Fetch(tid, key) && moves[j] == ReadDevice(tid, now)
    requires forall x :: i < x < j ==> !(moves[x].ReadDevice? && moves[x].tid == tid)
    ensures states[j].dev.blockSize > 0 && tid in states[j].fetched && key in states[i].m
    ensures ReadResult(states[j], tid, now) == Loaded(Cleanup(states[i].m[key], now))
  {
    InvThroughout(states, moves, j);
    PromiseKept(states, moves, i, j, tid, key);
    LoadExtentDecodes(states[j].dev, states[j].fetched[tid], now);
  }

  // ---------------------------------------------------------------------------
  // The moves of one thread, taken alone, are the operations of the engine

  /** An engine between operations, and the map it stands for. */
  function AtRest(e: Engine, s: E.Spec): Shared {
    Shared(e.dev, e.table.entries, Idle, map[], s.m, map[])
  }

  /** Interleavings can begin wherever the engine refines its map. */
  lemma RestingInv(e: Engine, s: E.Spec)
    requires E.Refines(e, s)
    ensures Inv(AtRest(e, s))
  {
    hide Decode;
  }

  ghost predicate AllEnabled(s: Shared, moves: seq<Move>)
    decreases |moves|
  {
    moves == [] || (s.dev.blockSize > 0 && Enabled(s, moves[0]) && AllEnabled(Take(s, moves[0]), moves[1..]))
  }

  ghost function TakeAll(s: Shared, moves: seq<Move>): Shared
    requires AllEnabled(s, moves)
    decreases |moves|
  {
    if moves == [] then s else TakeAll(Take(s, moves[0]), moves[1..])
  }

  /** What follows the beginning of a save: its bytes in pieces, the count, the index. */
  function Finish(pieces: seq<nat>): seq<Move> {
    if pieces == [] then [CountBlocks, InsertIndex] else [WriteSome(pieces[0])] + Finish(pieces[1..])
  }

  lemma FinishHead(pieces: seq<nat>)
    ensures Finish(pieces) != []
    ensures pieces != [] ==> Finish(pieces)[0] == WriteSome(pieces[0]) && Finish(pieces)[1..] == Finish(pieces[1..])
    ensures Finish([]) == [CountBlocks, InsertIndex]
  {
  }

  function Indexed(s: Shared): Shared
    requires s.dev.blockSize > 0 && s.writer.Writing?
  {
    var w := s.writer;
    s.(dev := Finished(s.dev, w.size, w.todo), entries := s.entries[w.key := IndexRecord(w.key, w.index, w.size)],
       writer := Idle, m := s.m[w.key := w.rec])
  }

  lemma CountAndIndex(s: Shared)
    requires s.dev.blockSize > 0 && s.writer.Writing? && AllEnabled(s, [CountBlocks, InsertIndex])
    ensures TakeAll(s, [CountBlocks, InsertIndex]) == Indexed(s)
  {
    hide Finished;
    hide PrintRec;
    hide Room;
    hide TypedRec;
    hide Bijective;
    hide AreOrders;
    var s1 := Take(s, CountBlocks);
    assert [CountBlocks, InsertIndex][1..] == [InsertIndex] && [InsertIndex][1..] == [];
    assert TakeAll(s, [CountBlocks, InsertIndex]) == Take(s1, InsertIndex);
    assert s.writer.todo == [];
  }

  lemma {:induction false} FinishIndexes(s: Shared, pieces: seq<nat>)
    requires s.dev.blockSize > 0 && s.writer.Writing? && AllEnabled(s, Finish(pieces))
    ensures TakeAll(s, Finish(pieces)) == Indexed(s)
    decreases |pieces|
  {
    FinishHead(pieces);
    hide Finish;
    hide BlocksAdded;
    if pieces == [] {
      CountAndIndex(s);
    } else {
      var n, todo := pieces[0], s.writer.todo;
      FinishIndexes(Take(s, WriteSome(n)), pieces[1..]);
      assert s.dev.file + todo[..n] + todo[n..] == s.dev.file + todo;
    }
  }

  /**
   * A save, in however many pieces its bytes reach the file, leaves the device, the index and
   * the map as the save of the engine does.
   */
  lemma SaveInPieces(e: Engine, s: E.Spec, rec: Rec, now: int, orders: Orders, pieces: seq<nat>)
    requires E.Refines(e, s) && E.Asked(e, E.SaveOp(rec, now, orders))
    requires AllEnabled(AtRest(e, s), [BeginSave(Cleanup(rec, now), orders)] + Finish(pieces))
    ensures var moves := [BeginSave(Cleanup(rec, now), orders)] + Finish(pieces);
            var (e1, s1) := (E.Step(e, E.SaveOp(rec, now, orders)).1, E.SpecStep(s, E.SaveOp(rec, now, orders)).1);
            TakeAll(AtRest(e, s), moves) == AtRest(e1, s1)
  {
    var r := Cleanup(rec, now);
    var buf, begun := PrintRec(r, orders), Take(AtRest(e, s), BeginSave(r, orders));
    var moves := [BeginSave(r, orders)] + Finish(pieces);
    assert moves[1..] == Finish(pieces);
    hide E.Refines;
    hide E.Inv;
    hide Finish;
    hide Padding;
    FinishIndexes(begun, pieces);
    FinishedAppend(e.dev, buf);
  }

  /** The two steps of a load, with nothing between them, are the load of the engine. */
  lemma LoadInSteps(e: Engine, s: E.Spec, tid: nat, key: nat, now: int)
    requires E.Refines(e, s) && key != INVALID_HANDLE && key in s.m
    ensures var x := AtRest(e, s);
            && Enabled(x, Fetch(tid, key)) && Enabled(Take(x, Fetch(tid, key)), ReadDevice(tid, now))
            && ReadResult(Take(x, Fetch(tid, key)), tid, now) == Load(e, key, now)
            && Take(Take(x, Fetch(tid, key)), ReadDevice(tid, now)) == x
  {
    hide Decode;
    hide LoadExtent;
    var x := AtRest(e, s);
    assert Take(x, Fetch(tid, key)).fetched - {tid} == map[];
    assert Take(x, Fetch(tid, key)).promised - {tid} == map[];
  }
}
