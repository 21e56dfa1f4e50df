/** The module async_fifo with its registers as fields and its two clocked blocks as methods,
    proved to take the steps of AsyncFifo. */
module AsyncFifoDevice {
  import opened Bits
  import opened AsyncFifo

  class Device {
    const pointerWidth: nat

    var writeBin: nat
    var writePtr: nat
    var writeReadPtr: nat
    var writeReadPtr1: nat
    var writeReadBin: nat
    var writeFull: bool
    var oWriteFull: bool
    var oHalfFull: bool

    var readBin: nat
    var readPtr: nat
    var readWritePtr: nat
    var readWritePtr1: nat
    var oReadEmpty: bool
    var oReadData: Word

    const mem: array<Word>

    ghost predicate Valid()
    {
      pointerWidth >= 2 && mem.Length == Depth(pointerWidth)
    }

    ghost function View(): (s: Fifo)
      requires Valid()
      reads this, mem
      ensures |s.mem| == Depth(pointerWidth)
    {
      Fifo(WriteSide(writeBin, writePtr, writeReadPtr, writeReadPtr1, writeReadBin, writeFull, oWriteFull, oHalfFull),
           ReadSide(readBin, readPtr, readWritePtr, readWritePtr1, oReadEmpty, oReadData),
           mem[..])
    }

    /** Power-up: every register 0, the memory as it comes. */
    constructor (p: nat, m: array<Word>)
      requires p >= 2 && m.Length == Depth(p)
      ensures Valid() && pointerWidth == p && mem == m
      ensures View() == Reset(m[..], false, 0)
    {
      pointerWidth := p;
      mem := m;
      writeBin, writePtr, writeReadPtr, writeReadPtr1, writeReadBin := 0, 0, 0, 0, 0;
      writeFull, oWriteFull, oHalfFull := false, false, false;
      readBin, readPtr, readWritePtr, readWritePtr1 := 0, 0, 0, 0;
      oReadEmpty, oReadData := false, 0;
    }

    /** The loop that turns the synchronised Gray code back into a count. */
    method DecodeReadPointer()
      modifies `writeReadBin
      ensures writeReadBin == XorShifts(writeReadPtr, pointerWidth + 1)
    {
      writeReadBin := 0;
      for k := 0 to pointerWidth + 1
        invariant writeReadBin == XorShifts(writeReadPtr, k)
      {
        writeReadBin := Xor(writeReadBin, Shift(writeReadPtr, k));
      }
    }

    /** The block clocked by I_write_clk. */
    method WriteClock(i: WriteIn)
      requires Valid()
      modifies this, mem
      ensures View() == Step(pointerWidth, old(View()), WriteEdge(i))
    {
      ghost var s := View();
      var seen := writeReadBin;
      var binNext, grayNext, fullVal := WriteWires(i.cmd);
      DecodeReadPointer();
      if !i.lagging { seen := writeReadBin; }
      var used := NbData(seen);
      Store(i, fullVal);
      Latch(binNext, grayNext, i.sample, fullVal, used);
    }

    /** The register updates of the write block. */
    method Latch(binNext: nat, grayNext: nat, sample: nat, fullVal: bool, used: nat)
      requires Valid()
      modifies this
      ensures View() == old(View()).(wr := WriteSide(binNext, grayNext, old(writeReadPtr1), sample, old(writeReadBin),
                                     fullVal, used >= Depth(pointerWidth) - 2, used >= Depth(pointerWidth) / 2))
    {
      writeBin, writePtr := binNext, grayNext;
      writeReadPtr, writeReadPtr1 := writeReadPtr1, sample;
      writeFull := fullVal;
      oWriteFull := used >= Depth(pointerWidth) - 2;
      oHalfFull := used >= Depth(pointerWidth) / 2;
    }

    /** write_bin_next, write_gray_next and write_full_val. */
    method WriteWires(cmd: bool) returns (binNext: nat, grayNext: nat, fullVal: bool)
      requires Valid()
      ensures binNext == WriteBinNext(pointerWidth, View().wr, cmd) && grayNext == Gray(binNext)
      ensures fullVal == FullNext(pointerWidth, View().wr, cmd)
    {
      binNext := (writeBin + if cmd && !writeFull then 1 else 0) % (2 * Depth(pointerWidth));
      grayNext := Xor(binNext / 2, binNext);
      fullVal := grayNext == FlipTop(pointerWidth, writeReadPtr);
    }

    /** nb_data_val. */
    method NbData(seen: nat) returns (used: nat)
      requires Valid()
      ensures used == Used(pointerWidth, View().wr, seen)
    {
      var depth := Depth(pointerWidth);
      used := (writeBin % depth + depth - seen % depth) % depth;
    }

    method Store(i: WriteIn, fullVal: bool)
      requires Valid()
      modifies mem
      ensures mem[..] == if i.cmd && !fullVal then old(mem[..])[writeBin % mem.Length := i.data] else old(mem[..])
    {
      if i.cmd && !fullVal { mem[writeBin % mem.Length] := i.data; }
    }

    /** The block clocked by I_read_clk. */
    method ReadClock(i: ReadIn)
      requires Valid()
      modifies this
      ensures View() == Step(pointerWidth, old(View()), ReadEdge(i))
    {
      var binNext := (readBin + if i.cmd && !oReadEmpty then 1 else 0) % (2 * Depth(pointerWidth));
      var grayNext := Xor(binNext / 2, binNext);
      var emptyVal := grayNext == readWritePtr;
      if i.cmd { oReadData := mem[readBin % Depth(pointerWidth)]; }
      readBin, readPtr := binNext, grayNext;
      readWritePtr, readWritePtr1 := readWritePtr1, i.sample;
      oReadEmpty := emptyVal;
    }

    /** Both clocks at once: nonblocking assignments, so the read block sees the memory before
        the store. */
    method BothClocks(w: WriteIn, r: ReadIn)
      requires Valid()
      modifies this, mem
      ensures View() == Step(pointerWidth, old(View()), BothEdges(w, r))
    {
      ReadClock(r);
      WriteClock(w);
    }
  }
}
