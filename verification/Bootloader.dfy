/** The device side of BootloaderHID.c: the HID report handler that erases, fills and writes a
    flash page, the start command, and the timer that ends the bootloader. */
module Bootloader {
  import opened Bits
  import opened IntelHex

  const COMMAND_STARTAPPLICATION := 0xFFFF
  const BOOTLOADER_TIMEOUT := 20

  /** The flash memory, RunBootloader and boottime. */
  datatype State = State(flash: seq<Byte>, running: bool, boottime: nat)

  /** Control requests as the handler tells them apart. */
  datatype Request = SetReport(report: seq<Byte>) | OtherHid | NotHid

  /** Endpoint_Read_16_LE at a position of the report. */
  function Word(report: seq<Byte>, i: nat): (w: nat)
    requires i + 2 <= |report|
    ensures w < 0x1_0000
  {
    var low: int, high: int := report[i], report[i + 1];
    low + 256 * high
  }

  /** Parts with more than 64K of flash take the address divided by 256. */
  function PageAddress(flashSize: nat, word: nat): nat { if flashSize > 0x1_0000 then word * 256 else word }

  function PageStart(a: nat, page: nat): (s: nat)
    requires page > 0
    ensures s <= a
  {
    a - a % page
  }

  function Erased(flash: seq<Byte>, start: nat, page: nat): seq<Byte> {
    seq(|flash|, i requires 0 <= i < |flash| => if start <= i < start + page then 255 else flash[i])
  }

  /** The byte of the temporary page buffer that word w of the page lands on; words wrap around
      within the page as the buffer ignores the upper address bits. */
  function Slot(a: nat, page: nat, w: nat): (s: nat)
    requires page > 0 && page % 2 == 0
    ensures s + 1 < page
  {
    var r := (a + 2 * w) % page;
    r - r % 2
  }

  /** The buffer after the first n words of the report's data. */
  function Filled(report: seq<Byte>, a: nat, page: nat, n: nat): (b: seq<Byte>)
    requires page > 0 && page % 2 == 0 && 2 + 2 * n <= |report|
    ensures |b| == page
  {
    if n == 0 then seq(page, i => 255) else
    var s := Slot(a, page, n - 1);
    Filled(report, a, page, n - 1)[s := report[2 * n]][s + 1 := report[2 * n + 1]]
  }

  lemma FilledNone(report: seq<Byte>, a: nat, page: nat)
    requires page > 0 && page % 2 == 0 && 2 <= |report|
    ensures Filled(report, a, page, 0) == seq(page, i => 255)
  {
  }

  lemma FilledNext(report: seq<Byte>, a: nat, page: nat, n: nat)
    requires page > 0 && page % 2 == 0 && 4 + 2 * n <= |report|
    ensures var s := Slot(a, page, n);
      Filled(report, a, page, n + 1) == Filled(report, a, page, n)[s := report[2 + 2 * n]][s + 1 := report[3 + 2 * n]]
  {
  }

  function AndByte(x: Byte, y: Byte): (z: Byte)
    ensures z == And(x, y)
  {
    AndBound(8, x, y);
    assert Pow2(8) == 256;
    And(x, y)
  }

  lemma {:induction false} AndBound(n: nat, x: nat, y: nat)
    requires x < Pow2(n)
    ensures And(x, y) < Pow2(n)
  {
    if x != 0 && y != 0 { AndBound(n - 1, x / 2, y / 2); }
  }

  /** Programming can only clear bits. */
  function Written(flash: seq<Byte>, start: nat, buffer: seq<Byte>): seq<Byte> {
    seq(|flash|, i requires 0 <= i < |flash| =>
      if start <= i < start + |buffer| then AndByte(flash[i], buffer[i - start]) else flash[i])
  }

  /** Reports carry at least a page of data, and page commands name a page of the flash. */
  predicate Accepts(flashSize: nat, page: nat, q: Request) {
    page > 0 && page % 2 == 0 &&
    (q.SetReport? ==>
      |q.report| >= 2 + page &&
      (Word(q.report, 0) == COMMAND_STARTAPPLICATION ||
       PageStart(PageAddress(flashSize, Word(q.report, 0)), page) + page <= flashSize))
  }

  function Handle(d: State, page: nat, q: Request): (e: State)
    requires Accepts(|d.flash|, page, q)
    ensures |e.flash| == |d.flash|
  {
    if !q.SetReport? then d
    else if Word(q.report, 0) == COMMAND_STARTAPPLICATION then d.(running := false)
    else
      var a := PageAddress(|d.flash|, Word(q.report, 0));
      var start := PageStart(a, page);
      d.(boottime := BOOTLOADER_TIMEOUT,
         flash := Written(Erased(d.flash, start, page), start, Filled(q.report, a, page, page / 2)))
  }

  function Overflow(d: State): State {
    if d.boottime != 0 then d.(boottime := d.boottime - 1) else d.(running := false)
  }

  // ---- One page -----------------------------------------------------------------------------------

  function EvenPart(x: nat): (r: nat)
    ensures r % 2 == 0 && r <= x <= r + 1
  {
    x - x % 2
  }

  /** The even part of an address's offset in its page. */
  function Offset(a: nat, page: nat): (r: nat)
    requires page > 0 && page % 2 == 0
    ensures r % 2 == 0 && r < page
  {
    EvenPart(a % page)
  }

  /** The position o places behind r, cyclically. */
  function Turned(page: nat, r: nat, o: nat): (i: nat)
    requires r < page && o < page
    ensures i < page
  {
    if o + r < page then o + r else o + r - page
  }

  lemma SlotTurned(a: nat, page: nat, w: nat)
    requires page > 0 && page % 2 == 0 && 2 * w + 1 < page
    ensures var r := Offset(a, page); var s := Slot(a, page, w);
      s == Turned(page, r, 2 * w) && s + 1 == Turned(page, r, 2 * w + 1)
  {
    var o := a % page;
    SumMod(a, page, 2 * w);
    EvenTurn(o, page, w, page / 2, o / 2);
    assert Slot(a, page, w) == EvenPart((a + 2 * w) % page);
  }

  lemma SumMod(a: nat, page: nat, v: nat)
    requires v < page
    ensures (a + v) % page == if a % page + v < page then a % page + v else a % page + v - page
  {
    var q, o := a / page, a % page;
    if o + v < page {
      ModUnique(a + v, page, q, o + v);
    } else {
      ModUnique(a + v, page, q + 1, o + v - page);
    }
  }

  lemma EvenTurn(o: nat, page: nat, w: nat, h: nat, x: nat)
    requires page == 2 * h && o < page && 2 * w + 1 < page && x == o / 2
    ensures EvenPart(o) == 2 * x < page
    ensures EvenPart(if o + 2 * w < page then o + 2 * w else o + 2 * w - page) == Turned(page, 2 * x, 2 * w)
    ensures Turned(page, 2 * x, 2 * w) + 1 == Turned(page, 2 * x, 2 * w + 1)
  {
  }

  /** Word w of the data lands 2w places behind the offset of the address, around the end of the page. */
  lemma {:induction false} FilledTurned(report: seq<Byte>, a: nat, page: nat, n: nat)
    requires page > 0 && page % 2 == 0 && 2 * n <= page && 2 + page <= |report|
    ensures var b := Filled(report, a, page, n); var r := Offset(a, page);
      forall o :: 0 <= o < page ==> b[Turned(page, r, o)] == if o < 2 * n then report[2 + o] else 255
  {
    hide *;
    if n == 0 {
      FilledNone(report, a, page);
    } else {
      FilledTurned(report, a, page, n - 1);
      SlotTurned(a, page, n - 1);
      FilledNext(report, a, page, n - 1);
      FilledStep(report, page, n - 1, Offset(a, page), Filled(report, a, page, n - 1), Filled(report, a, page, n));
    }
  }

  lemma FilledStep(report: seq<Byte>, page: nat, n: nat, r: nat, b: seq<Byte>, c: seq<Byte>)
    requires |b| == page && 2 * n + 2 <= page && 2 + page <= |report| && r < page
    requires forall o :: 0 <= o < page ==> b[Turned(page, r, o)] == if o < 2 * n then report[2 + o] else 255
    requires c == b[Turned(page, r, 2 * n) := report[2 + 2 * n]][Turned(page, r, 2 * n + 1) := report[3 + 2 * n]]
    ensures |c| == page
    ensures forall o :: 0 <= o < page ==> c[Turned(page, r, o)] == if o < 2 * (n + 1) then report[2 + o] else 255
  {
    hide Turned;
    forall o | 0 <= o < page ensures c[Turned(page, r, o)] == if o < 2 * (n + 1) then report[2 + o] else 255 {
      TurnedApart(page, r, o, 2 * n);
      TurnedApart(page, r, o, 2 * n + 1);
    }
  }

  lemma TurnedApart(page: nat, r: nat, o: nat, p: nat)
    requires r < page && o < page && p < page
    ensures Turned(page, r, o) == Turned(page, r, p) <==> o == p
  {
  }

  lemma AndErased(b: Byte)
    ensures AndByte(255, b) == b
  {
    assert Pow2(8) == 256;
    AndOnes(8, b);
  }

  /** Any page command, aligned or not: its page holds the report's data, turned by the even part of the
      address's offset, and the rest of the flash is as it was. */
  lemma PageCommandTurned(d: State, page: nat, q: Request)
    requires Accepts(|d.flash|, page, q) && q.SetReport? && Word(q.report, 0) != 0xFFFF
    ensures var a, e := PageAddress(|d.flash|, Word(q.report, 0)), Handle(d, page, q);
      var start, r := a - a % page, a % page - a % page % 2;
      e.running == d.running && |e.flash| == |d.flash| && start + page <= |d.flash| &&
      (forall o :: 0 <= o < page ==> e.flash[start + Turned(page, r, o)] == q.report[2 + o]) &&
      (forall i :: 0 <= i < start || start + page <= i < |d.flash| ==> e.flash[i] == d.flash[i])
  {
    hide Filled;
    var a := PageAddress(|d.flash|, Word(q.report, 0));
    var start, r := PageStart(a, page), Offset(a, page);
    var e := Handle(d, page, q);
    FilledTurned(q.report, a, page, page / 2);
    forall o | 0 <= o < page ensures e.flash[start + Turned(page, r, o)] == q.report[2 + o] {
      AndErased(q.report[2 + o]);
    }
  }

  lemma NotTurned(page: nat, o: nat)
    requires o < page
    ensures Turned(page, 0, o) == o
  {
  }

  /** A page command for an aligned address leaves exactly the report's data in that page, and the
      rest of the flash as it was. */
  lemma PageCommandExact(d: State, page: nat, q: Request)
    requires Accepts(|d.flash|, page, q) && q.SetReport? && Word(q.report, 0) != 0xFFFF
    requires PageAddress(|d.flash|, Word(q.report, 0)) % page == 0
    ensures var a, e := PageAddress(|d.flash|, Word(q.report, 0)), Handle(d, page, q);
      e.running == d.running && |e.flash| == |d.flash| &&
      forall i :: 0 <= i < |d.flash| ==> e.flash[i] == if a <= i < a + page then q.report[2 + i - a] else d.flash[i]
  {
    hide Handle, PageAddress, Word, Turned;
    PageCommandTurned(d, page, q);
    var a := PageAddress(|d.flash|, Word(q.report, 0));
    var e := Handle(d, page, q);
    forall i | a <= i < a + page ensures i < |d.flash| && e.flash[i] == q.report[2 + i - a] {
      NotTurned(page, i - a);
      assert e.flash[a + Turned(page, 0, i - a)] == q.report[2 + (i - a)];
    }
  }

  /** No request touches anything outside the page it names. */
  lemma HandleElsewhere(d: State, page: nat, q: Request, i: nat)
    requires Accepts(|d.flash|, page, q) && i < |d.flash|
    requires q.SetReport? && Word(q.report, 0) != COMMAND_STARTAPPLICATION ==>
      var start := PageStart(PageAddress(|d.flash|, Word(q.report, 0)), page); i < start || i >= start + page
    ensures Handle(d, page, q).flash[i] == d.flash[i]
  {
  }

  // ---- Packets ------------------------------------------------------------------------------------

  /** A report as it arrives: packets of an even number of bytes, none of them empty. */
  predicate Even(packets: seq<seq<Byte>>) { forall p :: p in packets ==> |p| >= 2 && |p| % 2 == 0 }

  function Join(packets: seq<seq<Byte>>): seq<Byte> {
    if packets == [] then [] else packets[0] + Join(packets[1..])
  }

  /** The host's side: packets of the given size, the last one with what remains. */
  function Split(report: seq<Byte>, size: nat): seq<seq<Byte>>
    requires size >= 2
    decreases |report|
  {
    if |report| <= size then [report] else [report[..size]] + Split(report[size..], size)
  }

  /** Cutting a report into packets loses nothing. */
  lemma {:induction false} SplitJoin(report: seq<Byte>, size: nat)
    requires size >= 2 && size % 2 == 0 && |report| >= 2 && |report| % 2 == 0
    ensures Join(Split(report, size)) == report && Even(Split(report, size))
    decreases |report|
  {
    hide Even, Join;
    if |report| > size {
      SplitJoin(report[size..], size);
      JoinCons(report[..size], Split(report[size..], size));
      assert report[..size] + report[size..] == report;
    } else {
      JoinCons(report, []);
      NoPackets();
      assert [report] + [] == [report] && report + [] == report;
    }
  }

  lemma JoinCons(p: seq<Byte>, ps: seq<seq<Byte>>)
    ensures Join([p] + ps) == p + Join(ps)
    ensures Even([p] + ps) <==> |p| >= 2 && |p| % 2 == 0 && Even(ps)
  {
    var qs := [p] + ps;
    assert qs[0] == p && qs[1..] == ps;
    assert forall q :: q in qs <==> q == p || q in ps;
  }

  lemma NoPackets()
    ensures Join([]) == [] && Even([])
  {
  }

  /** The control endpoint while a report is read: the packet at hand and those to come. */
  class Endpoint {
    var packet: seq<Byte>
    var pending: seq<seq<Byte>>

    ghost function Left(): seq<Byte>
      reads this
    {
      packet + Join(pending)
    }

    ghost predicate Valid()
      reads this
    {
      |packet| % 2 == 0 && Even(pending)
    }

    /** The first packet has been received. */
    constructor (packets: seq<seq<Byte>>)
      requires packets != [] && Even(packets)
      ensures Valid() && packet != [] && Left() == Join(packets)
    {
      packet, pending := packets[0], packets[1..];
    }

    /** Endpoint_ClearOUT, then wait for the next packet. */
    method NextPacket()
      requires Valid() && packet == [] && Left() != []
      modifies this
      ensures Valid() && packet != [] && Left() == old(Left())
    {
      packet, pending := pending[0], pending[1..];
    }

    /** Endpoint_Read_16_LE. */
    method ReadWord() returns (low: Byte, high: Byte)
      requires Valid() && packet != []
      modifies this
      ensures Valid() && |old(Left())| >= 2 && low == old(Left())[0] && high == old(Left())[1]
      ensures Left() == old(Left())[2..]
    {
      low, high := packet[0], packet[1];
      packet := packet[2..];
    }
  }

  // ---- The device ---------------------------------------------------------------------------------

  class Device {
    const page: nat
    const flash: array<Byte>
    const buffer: array<Byte>
    var runBootloader: bool
    var boottime: nat

    ghost predicate Valid() {
      page > 0 && page % 2 == 0 && page <= 510 && buffer.Length == page && buffer != flash
    }

    ghost function View(): State
      reads this, flash
    {
      State(flash[..], runBootloader, boottime)
    }

    constructor (pageSize: nat, memory: array<Byte>)
      requires 0 < pageSize <= 510 && pageSize % 2 == 0
      ensures Valid() && flash == memory && page == pageSize && fresh(buffer)
      ensures View() == State(memory[..], true, 20)
    {
      page, flash := pageSize, memory;
      runBootloader, boottime := true, BOOTLOADER_TIMEOUT;
      buffer := new Byte[pageSize](i => 255);
    }

    method PageErase(start: nat)
      requires Valid() && start + page <= flash.Length
      modifies flash, buffer
      ensures flash[..] == Erased(old(flash[..]), start, page)
      ensures forall k :: 0 <= k < page ==> buffer[k] == 255
    {
      for i := 0 to page
        invariant forall k :: 0 <= k < flash.Length ==>
          flash[k] == if start <= k < start + i then 255 else old(flash[k])
      {
        flash[start + i] := 255;
      }
      for i := 0 to page
        invariant flash[..] == Erased(old(flash[..]), start, page)
        invariant forall k :: 0 <= k < i ==> buffer[k] == 255
      {
        buffer[i] := 255;
      }
    }

    method PageFill(s: nat, low: Byte, high: Byte)
      requires Valid() && s + 1 < page
      modifies buffer
      ensures buffer[..] == old(buffer[..])[s := low][s + 1 := high]
    {
      buffer[s] := low;
      buffer[s + 1] := high;
    }

    method PageWrite(start: nat)
      requires Valid() && start + page <= flash.Length
      modifies flash
      ensures flash[..] == Written(old(flash[..]), start, buffer[..])
    {
      for i := 0 to page
        invariant buffer[..] == old(buffer[..])
        invariant forall k :: 0 <= k < flash.Length ==>
          flash[k] == if start <= k < start + i then AndByte(old(flash[k]), buffer[k - start]) else old(flash[k])
      {
        flash[start + i] := AndByte(flash[start + i], buffer[i]);
      }
    }

    /** The handler. A report comes in packets and is read from the endpoint a word at a time. */
    method ControlRequest(q: Request, packets: seq<seq<Byte>>)
      requires Valid() && Accepts(flash.Length, page, q)
      requires q.SetReport? ==> Even(packets) && Join(packets) == q.report
      modifies this, flash, buffer
      ensures View() == Handle(old(View()), page, q)
    {
      if !q.SetReport? { return; }
      var endpoint := new Endpoint(packets);
      var low, high := endpoint.ReadWord();
      var l: int, h: int := low, high;
      var word: nat := l + 256 * h;
      if word == COMMAND_STARTAPPLICATION {
        runBootloader := false;
      } else {
        var a := PageAddress(flash.Length, word);
        boottime := BOOTLOADER_TIMEOUT;
        ProgramPage(a, endpoint, q.report);
      }
    }

    method ProgramPage(a: nat, endpoint: Endpoint, ghost report: seq<Byte>)
      requires Valid() && |report| >= 2 + page && PageStart(a, page) + page <= flash.Length
      requires endpoint.Valid() && endpoint.Left() == report[2..]
      modifies flash, buffer, endpoint
      ensures flash[..] == Written(Erased(old(flash[..]), PageStart(a, page), page), PageStart(a, page),
                                   Filled(report, a, page, page / 2))
    {
      hide Filled, Written, Slot, Join;
      var start := PageStart(a, page);
      PageErase(start);
      FillPage(a, endpoint, report);
      PageWrite(start);
    }

    /** The loop over the words of a page. */
    method FillPage(a: nat, endpoint: Endpoint, ghost report: seq<Byte>)
      requires Valid() && |report| >= 2 + page && endpoint.Valid() && endpoint.Left() == report[2..]
      requires forall k :: 0 <= k < page ==> buffer[k] == 255
      modifies buffer, endpoint
      ensures buffer[..] == Filled(report, a, page, page / 2)
    {
      hide Filled, Slot, Join;
      FilledNone(report, a, page);
      var pageWord := 0;
      while pageWord < page / 2
        invariant 0 <= pageWord <= page / 2
        invariant buffer[..] == Filled(report, a, page, pageWord)
        invariant endpoint.Valid() && endpoint.Left() == report[2 + 2 * pageWord..]
      {
        if endpoint.packet == [] { endpoint.NextPacket(); }
        var low, high := endpoint.ReadWord();
        FilledNext(report, a, page, pageWord);
        PageFill(Slot(a, page, pageWord), low, high);
        pageWord := pageWord + 1;
      }
    }

    /** The TIMER0 overflow interrupt. */
    method TimerOverflow()
      modifies this
      ensures View() == Overflow(old(View()))
    {
      if boottime != 0 { boottime := boottime - 1; } else { runBootloader := false; }
    }
  }

  // ---- When the bootloader ends ---------------------------------------------------------------------

  datatype Event = Tick | Control(q: Request)

  /** RunBootloader and boottime, apart from the flash. */
  datatype Mode = Mode(running: bool, boottime: nat)

  function ModeOf(d: State): Mode { Mode(d.running, d.boottime) }

  /** Reports hold at least the two bytes of the address. */
  predicate Readable(q: Request) { q.SetReport? ==> |q.report| >= 2 }

  predicate AllReadable(es: seq<Event>) { forall e :: e in es && e.Control? ==> Readable(e.q) }

  function StepMode(m: Mode, e: Event): Mode
    requires e.Control? ==> Readable(e.q)
  {
    match e
    case Tick => if m.boottime != 0 then m.(boottime := m.boottime - 1) else m.(running := false)
    case Control(q) =>
      if !q.SetReport? then m
      else if Word(q.report, 0) == COMMAND_STARTAPPLICATION then m.(running := false)
      else m.(boottime := BOOTLOADER_TIMEOUT)
  }

  function RunMode(m: Mode, es: seq<Event>): Mode
    requires AllReadable(es)
  {
    if es == [] then m else StepMode(RunMode(m, es[..|es| - 1]), es[|es| - 1])
  }

  predicate AllAccepted(flashSize: nat, page: nat, es: seq<Event>) {
    forall e :: e in es && e.Control? ==> Accepts(flashSize, page, e.q)
  }

  /** The device over a run whose page commands all name pages of the flash. */
  function Run(d: State, page: nat, es: seq<Event>): (e: State)
    requires AllAccepted(|d.flash|, page, es)
    ensures |e.flash| == |d.flash|
  {
    if es == [] then d else
    var n := |es| - 1;
    var r := Run(d, page, es[..n]);
    match es[n]
    case Tick => Overflow(r)
    case Control(q) => Handle(r, page, q)
  }

  /** On such a run the device goes through the same modes. */
  lemma {:induction false} RunHasMode(d: State, page: nat, es: seq<Event>)
    requires AllAccepted(|d.flash|, page, es)
    ensures AllReadable(es) && ModeOf(Run(d, page, es)) == RunMode(ModeOf(d), es)
  {
    if es != [] {
      assert es[|es| - 1] in es;
      RunHasMode(d, page, es[..|es| - 1]);
    }
  }

  /** The report begins with two bytes 0xFF. */
  predicate IsStart(e: Event) {
    e.Control? && e.q.SetReport? && |e.q.report| >= 2 && e.q.report[0] == e.q.report[1] == 0xFF
  }

  predicate IsPage(e: Event) { e.Control? && e.q.SetReport? && !IsStart(e) }

  /** Timer overflows since the last page command, or since the beginning. */
  function Idle(es: seq<Event>): nat {
    if es == [] || IsPage(es[|es| - 1]) then 0
    else Idle(es[..|es| - 1]) + if es[|es| - 1].Tick? then 1 else 0
  }

  /** The last event is a start command, or more than 20 overflows have passed. */
  predicate Ending(es: seq<Event>) { es != [] && (IsStart(es[|es| - 1]) || Idle(es) > 20) }

  /** The run has had such a moment. */
  ghost predicate Ended(es: seq<Event>) { exists p :: p <= es && Ending(p) }

  lemma EndedSnoc(es: seq<Event>)
    requires es != []
    ensures Ended(es) <==> Ended(es[..|es| - 1]) || Ending(es)
  {
    var fs := es[..|es| - 1];
    if p :| p <= fs && Ending(p) { assert p <= es; }
    if p :| p <= es && Ending(p) { assert p == es || p <= fs; }
  }

  lemma ExitStep(r: Mode, es: seq<Event>)
    requires es != [] && (es[|es| - 1].Control? ==> Readable(es[|es| - 1].q))
    requires r.boottime ==
      if Idle(es[..|es| - 1]) > 20 then 0 else 20 - Idle(es[..|es| - 1])
    requires Idle(es[..|es| - 1]) > 20 ==> !r.running
    ensures var e := es[|es| - 1];
      var s := StepMode(r, e);
      (!s.running <==> !r.running || IsStart(e) || Idle(es) > 20) &&
      s.boottime == if Idle(es) > 20 then 0 else 20 - Idle(es)
  {
  }

  /** Over every run from power-up, whatever pages its commands name, RunBootloader is false exactly when
      a start command has arrived or a 21st overflow has happened with no page command in between. It
      never becomes true again: what has ended stays ended. */
  lemma {:induction false} ExitExactly(es: seq<Event>)
    requires AllReadable(es)
    ensures var r := RunMode(Mode(true, 20), es);
      (!r.running <==> Ended(es)) &&
      r.boottime == (if Idle(es) > 20 then 0 else 20 - Idle(es))
  {
    if es != [] {
      var n := |es| - 1;
      ExitExactly(es[..n]);
      EndedSnoc(es);
      if n > 0 { EndedSnoc(es[..n]); }
      ExitStep(RunMode(Mode(true, 20), es[..n]), es);
    }
  }
}
