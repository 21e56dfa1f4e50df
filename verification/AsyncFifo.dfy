/** The dual-clock FIFO of common/src/async_fifo.v: its registers, its two clocked blocks as
    next-state functions, and its runs under any interleaving of the two clocks. */
module AsyncFifo {
  import opened Bits

  type Word = int

  /** Number of slots. The parameter p is POINTER_WIDTH throughout; pointers have p + 1 bits. */
  function Depth(p: nat): nat { Pow2(p) }

  /** Registers written on the write clock. */
  datatype WriteSide = WriteSide(
    bin: nat, ptr: nat,           // write_bin, write_ptr
    readPtr: nat, readPtr1: nat,  // write_read_ptr, write_read_ptr1
    readBin: nat,                 // write_read_bin
    full: bool,                   // write_full
    almostFull: bool,             // O_write_full
    halfFull: bool)               // O_half_full

  /** Registers written on the read clock. */
  datatype ReadSide = ReadSide(
    bin: nat, ptr: nat,             // read_bin, read_ptr
    writePtr: nat, writePtr1: nat,  // read_write_ptr, read_write_ptr1
    empty: bool,                    // O_read_empty
    data: Word)                     // O_read_data

  datatype Fifo = Fifo(wr: WriteSide, rd: ReadSide, mem: seq<Word>)

  /** Inputs of a write edge. The sample is what the first synchroniser register captures of
      the reader's pointer; lagging says whether nb_data_val still sees the write_read_bin of
      the previous edge, since the source assigns it with a blocking assignment and reads it
      through a wire. */
  datatype WriteIn = WriteIn(cmd: bool, data: Word, sample: nat, lagging: bool)

  /** Inputs of a read edge. */
  datatype ReadIn = ReadIn(cmd: bool, sample: nat)

  /** A write edge, a read edge, or both clocks rising together. */
  datatype Event =
    | WriteEdge(w: WriteIn)
    | ReadEdge(r: ReadIn)
    | BothEdges(w: WriteIn, r: ReadIn)

  // ---- Wires of the write side ------------------------------------------------------------

  function WriteBinNext(p: nat, w: WriteSide, cmd: bool): nat {
    (w.bin + if cmd && !w.full then 1 else 0) % (2 * Depth(p))
  }

  predicate FullNext(p: nat, w: WriteSide, cmd: bool)
    requires p >= 2
  {
    Gray(WriteBinNext(p, w, cmd)) == FlipTop(p, w.readPtr)
  }

  /** nb_data_val: the p-bit difference of the two addresses. */
  function Used(p: nat, w: WriteSide, seen: nat): nat {
    (w.bin % Depth(p) + Depth(p) - seen % Depth(p)) % Depth(p)
  }

  function NextWrite(p: nat, w: WriteSide, i: WriteIn): WriteSide
    requires p >= 2
  {
    var next := WriteBinNext(p, w, i.cmd);
    var decoded := XorShifts(w.readPtr, p + 1);
    var used := Used(p, w, if i.lagging then w.readBin else decoded);
    WriteSide(next, Gray(next), w.readPtr1, i.sample, decoded,
              FullNext(p, w, i.cmd), used >= Depth(p) - 2, used >= Depth(p) / 2)
  }

  /** The store is guarded by the combinational full test, not by the registered one. */
  function NextMem(p: nat, w: WriteSide, mem: seq<Word>, i: WriteIn): seq<Word>
    requires p >= 2 && |mem| == Depth(p)
  {
    if i.cmd && !FullNext(p, w, i.cmd) then mem[w.bin % Depth(p) := i.data] else mem
  }

  // ---- Wires of the read side -------------------------------------------------------------

  function ReadBinNext(p: nat, r: ReadSide, cmd: bool): nat {
    (r.bin + if cmd && !r.empty then 1 else 0) % (2 * Depth(p))
  }

  function NextRead(p: nat, r: ReadSide, mem: seq<Word>, i: ReadIn): ReadSide
    requires |mem| == Depth(p)
  {
    var next := ReadBinNext(p, r, i.cmd);
    ReadSide(next, Gray(next), r.writePtr1, i.sample, Gray(next) == r.writePtr,
             if i.cmd then mem[r.bin % Depth(p)] else r.data)
  }

  // ---- Runs -------------------------------------------------------------------------------

  /** All state after both resets. The memory, O_half_full and O_read_data are not reset and may hold
      anything; nor is write_read_bin, which is taken to be 0, as at power-up. */
  function Reset(mem: seq<Word>, half: bool, data: Word): Fifo {
    Fifo(WriteSide(0, 0, 0, 0, 0, false, false, half), ReadSide(0, 0, 0, 0, false, data), mem)
  }

  function Step(p: nat, s: Fifo, e: Event): (t: Fifo)
    requires p >= 2 && |s.mem| == Depth(p)
    ensures |t.mem| == Depth(p)
  {
    match e
    case WriteEdge(w) => Fifo(NextWrite(p, s.wr, w), s.rd, NextMem(p, s.wr, s.mem, w))
    case ReadEdge(r) => s.(rd := NextRead(p, s.rd, s.mem, r))
    case BothEdges(w, r) =>
      Fifo(NextWrite(p, s.wr, w), NextRead(p, s.rd, s.mem, r), NextMem(p, s.wr, s.mem, w))
  }

  /** A synchroniser that samples while the other side moves may capture any bitwise mix of the
      pointer before and after the move. */
  predicate SamplesOk(p: nat, s: Fifo, e: Event) {
    match e
    case WriteEdge(w) => w.sample == s.rd.ptr
    case ReadEdge(r) => r.sample == s.wr.ptr
    case BothEdges(w, r) =>
      Mix(w.sample, s.rd.ptr, Gray(ReadBinNext(p, s.rd, r.cmd))) &&
      Mix(r.sample, s.wr.ptr, Gray(WriteBinNext(p, s.wr, w.cmd)))
  }

  /** What an observer has seen: the words accepted by the write side, which of them met a
      closed store guard, the words returned by accepted reads, and whether the reader has had a
      clock edge since reset. The five counts are the pointer positions the two synchroniser
      chains and write_read_bin stand for. */
  datatype History = History(
    sent: seq<Word>, lost: set<nat>, got: seq<Word>, clocked: bool,
    r1: nat, r2: nat, r3: nat, w1: nat, w2: nat)

  const NOTHING: History := History([], {}, [], false, 0, 0, 0, 0, 0)

  function Observe(p: nat, s: Fifo, h: History, e: Event): History
    requires p >= 2 && |s.mem| == Depth(p)
  {
    match e
    case WriteEdge(w) => ObserveWrite(p, s, h, w)
    case ReadEdge(r) => ObserveRead(p, s, h, r)
    case BothEdges(w, r) =>
      var a, b := ObserveWrite(p, s, h, w), ObserveRead(p, s, h, r);
      a.(got := b.got, clocked := b.clocked, w1 := b.w1, w2 := b.w2)
  }

  function ObserveWrite(p: nat, s: Fifo, h: History, w: WriteIn): History
    requires p >= 2
  {
    h.(sent := if w.cmd && !s.wr.full then h.sent + [w.data] else h.sent,
       lost := if w.cmd && !s.wr.full && FullNext(p, s.wr, w.cmd) then h.lost + {|h.sent|} else h.lost,
       r1 := if w.sample == s.rd.ptr then |h.got| else |h.got| + 1,
       r2 := h.r1,
       r3 := h.r2)
  }

  function ObserveRead(p: nat, s: Fifo, h: History, r: ReadIn): History
    requires |s.mem| == Depth(p)
  {
    h.(got := if r.cmd && !s.rd.empty then h.got + [s.mem[s.rd.bin % Depth(p)]] else h.got,
       clocked := true,
       w1 := if r.sample == s.wr.ptr then |h.sent| else |h.sent| + 1,
       w2 := h.w1)
  }

  predicate Reads(e: Event) { e.ReadEdge? || e.BothEdges? }

  predicate WritesCmd(e: Event) { !e.ReadEdge? && e.w.cmd }

  /** O_read_empty is low after reset. The reader reads on its first edge only if that edge samples
      a write pointer that has counted at least three words. */
  predicate ReaderOk(p: nat, s: Fifo, h: History, e: Event)
    requires |s.mem| == Depth(p)
  {
    Reads(e) && !h.clocked && e.r.cmd ==> ObserveRead(p, s, h, e.r).w1 >= 3
  }

  /** The producer does not write while O_write_full is high. */
  predicate WriterOk(s: Fifo, e: Event) { WritesCmd(e) ==> !s.wr.almostFull }

  datatype Sys = Sys(f: Fifo, h: History)

  function Next(p: nat, s: Sys, e: Event): (t: Sys)
    requires p >= 2 && |s.f.mem| == Depth(p)
    ensures |t.f.mem| == Depth(p)
  {
    Sys(Step(p, s.f, e), Observe(p, s.f, s.h, e))
  }

  function Run(p: nat, s: Sys, es: seq<Event>): (t: Sys)
    requires p >= 2 && |s.f.mem| == Depth(p)
    ensures |t.f.mem| == Depth(p)
    decreases |es|
  {
    if es == [] then s else Run(p, Next(p, s, es[0]), es[1..])
  }

  /** A run any producer may take part in. */
  ghost predicate Fair(p: nat, s: Sys, es: seq<Event>)
    requires p >= 2 && |s.f.mem| == Depth(p)
    decreases |es|
  {
    es == [] ||
    (SamplesOk(p, s.f, es[0]) && ReaderOk(p, s.f, s.h, es[0]) && Fair(p, Next(p, s, es[0]), es[1..]))
  }

  /** Every write of the run respects the early full flag. */
  ghost predicate Polite(p: nat, s: Sys, es: seq<Event>)
    requires p >= 2 && |s.f.mem| == Depth(p)
    decreases |es|
  {
    es == [] || (WriterOk(s.f, es[0]) && Polite(p, Next(p, s, es[0]), es[1..]))
  }
}
