/** The programming loop of hid_bootloader_cli.c composed with the device: from the text of a HEX
    file to the contents of the flash. */
module Programming {
  import opened Options
  import opened Bits
  import opened IntelHex
  import opened HexReader
  import HexLines
  import B = Bootloader

  /** code_size and block_size. */
  datatype Part = Part(codeSize: nat, page: nat)

  /** The parts the command line can name. */
  predicate Supported(t: Part) {
    (t.page == 128 && (t.codeSize == 0x2000 || t.codeSize == 0x4000 || t.codeSize == 0x8000)) ||
    (t.page == 256 && (t.codeSize == 0x1_0000 || t.codeSize == 0x2_0000))
  }

  /** The two address bytes the host puts in front of a block. */
  function Header(t: Part, addr: nat): seq<Byte> {
    if t.codeSize < 0x1_0000 then [addr % 256, (addr / 256) % 256]
    else [(addr / 256) % 256, (addr / 65536) % 256]
  }

  function Packet(t: Part, image: Image, addr: nat): seq<Byte> { Header(t, addr) + Block(image, addr, t.page) }

  /** The page is sent: it is the first one or holds firmware. */
  predicate Sent(t: Part, image: Image, addr: nat) { addr == 0 || Within(image, addr, addr + t.page - 1) }

  /** The device's address for the block at addr. */
  function Target(t: Part, addr: nat): nat { B.PageAddress(t.codeSize, B.Word(Header(t, addr), 0)) }

  /** The device after the blocks from addr on. */
  function ProgramFrom(t: Part, image: Image, d: B.State, addr: nat): (e: B.State)
    requires Supported(t) && |d.flash| == t.codeSize && addr % t.page == 0
    ensures |e.flash| == t.codeSize
    decreases t.codeSize - addr
  {
    if addr >= t.codeSize then d else
    NextBlock(t, addr);
    ProgramFrom(t, image, AfterBlock(t, image, d, addr), addr + t.page)
  }

  /** The device after one turn of the loop. */
  function AfterBlock(t: Part, image: Image, d: B.State, addr: nat): (e: B.State)
    requires Supported(t) && |d.flash| == t.codeSize && addr % t.page == 0 && addr < t.codeSize
    ensures |e.flash| == t.codeSize
  {
    PacketAccepted(t, image, addr);
    if Sent(t, image, addr) then B.Handle(d, t.page, B.SetReport(Packet(t, image, addr))) else d
  }

  lemma ProgramEnd(t: Part, image: Image, d: B.State, addr: nat)
    requires Supported(t) && |d.flash| == t.codeSize && addr % t.page == 0 && addr >= t.codeSize
    ensures ProgramFrom(t, image, d, addr) == d
  {
  }

  lemma ProgramStep(t: Part, image: Image, d: B.State, addr: nat)
    requires Supported(t) && |d.flash| == t.codeSize && addr % t.page == 0 && addr < t.codeSize
    ensures (addr + t.page) % t.page == 0
    ensures ProgramFrom(t, image, d, addr) == ProgramFrom(t, image, AfterBlock(t, image, d, addr), addr + t.page)
  {
    NextBlock(t, addr);
  }

  lemma NextBlock(t: Part, addr: nat)
    requires Supported(t) && addr % t.page == 0
    ensures (addr + t.page) % t.page == 0
    ensures addr < t.codeSize ==> addr + t.page <= t.codeSize
  {
    if t.page == 128 { assert (addr + 128) % 128 == 0; } else { assert (addr + 256) % 256 == 0; }
  }

  /** Block addresses arrive unchanged, and none is taken for the start command, on every part but
      the one with exactly 64K of flash: there the host sends the address divided by 256 while the
      device takes it as it is. */
  lemma TransportExactly(t: Part)
    requires Supported(t)
    ensures (forall addr: nat :: addr < t.codeSize && addr % t.page == 0 ==> Target(t, addr) == addr) <==>
      t.codeSize != 0x1_0000
    ensures forall addr: nat :: addr < t.codeSize && addr % t.page == 0 ==>
      B.Word(Header(t, addr), 0) != 0xFFFF
  {
    forall addr: nat | addr < t.codeSize && addr % t.page == 0
      ensures Target(t, addr) == if t.codeSize == 0x1_0000 then addr / 256 else addr
      ensures B.Word(Header(t, addr), 0) != 0xFFFF
    {
      TargetOf(t, addr);
    }
    if t.codeSize == 0x1_0000 { assert 256 % t.page == 0 && Target(t, 256) == 1; }
  }

  lemma TargetOf(t: Part, addr: nat)
    requires Supported(t) && addr < t.codeSize && addr % t.page == 0
    ensures Target(t, addr) == if t.codeSize == 0x1_0000 then addr / 256 else addr
    ensures B.Word(Header(t, addr), 0) != 0xFFFF
  {
    var low, mid, high := addr % 256, (addr / 256) % 256, (addr / 65536) % 256;
    assert addr == low + 256 * mid + 65536 * (addr / 65536);
  }

  lemma PacketAccepted(t: Part, image: Image, addr: nat)
    requires Supported(t) && addr < t.codeSize && addr % t.page == 0
    ensures B.Accepts(t.codeSize, t.page, B.SetReport(Packet(t, image, addr)))
    ensures B.Word(Packet(t, image, addr), 0) == B.Word(Header(t, addr), 0)
    ensures t.codeSize == 0x1_0000 ==> B.PageStart(Target(t, addr), t.page) == 0
  {
    TargetOf(t, addr);
    NextBlock(t, addr);
    var a := Target(t, addr);
    if t.codeSize == 0x1_0000 { assert a < 256 && a % 256 == a; } else { assert B.PageStart(a, t.page) == a; }
  }

  // ---- End to end -----------------------------------------------------------------------------------

  /** The page of a is the first one or holds a byte of the image. */
  predicate Touched(t: Part, image: Image, a: nat)
    requires t.page > 0
  {
    a < t.page || exists x :: x in image && x / t.page == a / t.page
  }

  /** The byte a programmed part should hold at a. */
  function Wanted(image: Image, flash: seq<Byte>, t: Part, a: nat): Byte
    requires t.page > 0 && a < |flash|
  {
    if !Touched(t, image, a) then flash[a] else if a in image then image[a] else 255
  }

  lemma SamePage(t: Part, a: nat, x: int)
    requires Supported(t)
    ensures x / t.page == a / t.page <==> B.PageStart(a, t.page) <= x <= B.PageStart(a, t.page) + t.page - 1
    ensures B.PageStart(a, t.page) == 0 <==> a < t.page
    ensures B.PageStart(a, t.page) + t.page <= 0x1_0000 || B.PageStart(a, t.page) >= 0x1_0000
  {
    if t.page == 128 {
      assert B.PageStart(a, 128) == 128 * (a / 128);
    } else {
      assert B.PageStart(a, 256) == 256 * (a / 256);
    }
  }

  /** The pages that are sent are the first one and those that hold a byte of the image. */
  lemma SentExactly(t: Part, image: Image, a: nat)
    requires Supported(t) && forall x :: x in image ==> 0 <= x < 0x1_0000
    ensures Sent(t, image, B.PageStart(a, t.page)) <==> Touched(t, image, a)
  {
    hide B.PageStart;
    forall x ensures x / t.page == a / t.page <==> B.PageStart(a, t.page) <= x <= B.PageStart(a, t.page) + t.page - 1 {
      SamePage(t, a, x);
    }
    SamePage(t, a, 0);
    assert MAX_MEMORY_SIZE == 0x1_0000;
  }

  /** The byte the last packet for its page carries for a. */
  function Carried(image: Image, t: Part, a: nat): Byte
    requires t.page > 0
  {
    if B.PageStart(a, t.page) + t.page < MAX_MEMORY_SIZE && a in image then image[a] else 255
  }

  /** What blocks from addr on leave at a. */
  function Expected(t: Part, image: Image, d: B.State, addr: nat, a: nat): Byte
    requires t.page > 0 && a < |d.flash|
  {
    if a < addr || !Sent(t, image, B.PageStart(a, t.page)) then d.flash[a] else Carried(image, t, a)
  }

  lemma StartOf(t: Part, a: nat, addr: nat)
    requires Supported(t) && addr % t.page == 0 && addr <= a < addr + t.page
    ensures B.PageStart(a, t.page) == addr
  {
    ModUnique(a, t.page, addr / t.page, a - addr);
  }

  lemma {:induction false} ProgramFromExact(t: Part, image: Image, d: B.State, addr: nat, a: nat)
    requires Supported(t) && t.codeSize != 0x1_0000 && |d.flash| == t.codeSize && addr % t.page == 0 && a < t.codeSize
    ensures var e := ProgramFrom(t, image, d, addr);
      e.running == d.running && e.flash[a] == Expected(t, image, d, addr, a)
    decreases t.codeSize - addr
  {
    if addr < t.codeSize {
      ProgramStep(t, image, d, addr);
      AfterBlockExact(t, image, d, addr, a);
      ProgramFromExact(t, image, AfterBlock(t, image, d, addr), addr + t.page, a);
    }
  }

  lemma AfterBlockExact(t: Part, image: Image, d: B.State, addr: nat, a: nat)
    requires Supported(t) && t.codeSize != 0x1_0000 && |d.flash| == t.codeSize && addr % t.page == 0
    requires addr < t.codeSize
    requires a < t.codeSize
    ensures var e := AfterBlock(t, image, d, addr);
      e.running == d.running && Expected(t, image, e, addr + t.page, a) == Expected(t, image, d, addr, a)
  {
    PacketAccepted(t, image, addr);
    TargetOf(t, addr);
    if Sent(t, image, addr) { BlockExact(t, image, d, addr); }
    if addr <= a < addr + t.page { StartOf(t, a, addr); }
  }

  lemma BlockExact(t: Part, image: Image, d: B.State, addr: nat)
    requires Supported(t) && |d.flash| == t.codeSize && addr % t.page == 0 && addr < t.codeSize
    requires Target(t, addr) == addr
    requires B.Accepts(t.codeSize, t.page, B.SetReport(Packet(t, image, addr)))
    ensures var e := B.Handle(d, t.page, B.SetReport(Packet(t, image, addr)));
      e.running == d.running && |e.flash| == |d.flash| &&
      forall a :: 0 <= a < t.codeSize ==>
        e.flash[a] == if addr <= a < addr + t.page then Carried(image, t, a) else d.flash[a]
  {
    hide *;
    var q := B.SetReport(Packet(t, image, addr));
    TargetOf(t, addr);
    TargetIs(t, addr);
    PacketAccepted(t, image, addr);
    B.PageCommandExact(d, t.page, q);
    forall a | addr <= a < addr + t.page ensures q.report[2 + a - addr] == Carried(image, t, a) {
      PacketByte(t, image, addr, a);
    }
  }

  lemma TargetIs(t: Part, addr: nat)
    requires Supported(t)
    ensures Target(t, addr) == B.PageAddress(t.codeSize, B.Word(Header(t, addr), 0)) && t.page > 0
  {
  }

  lemma PacketByte(t: Part, image: Image, addr: nat, a: nat)
    requires Supported(t) && addr % t.page == 0 && addr <= a < addr + t.page
    ensures Packet(t, image, addr)[2 + a - addr] == Carried(image, t, a)
  {
    StartOf(t, a, addr);
    assert Packet(t, image, addr)[2 + a - addr] == Block(image, addr, t.page)[a - addr];
  }

  /** The flash holds what it should: the firmware, 0xFF around it in the pages that were sent, and
      its old contents elsewhere. */
  ghost predicate Programmed(t: Part, image: Image, d: B.State)
    requires Supported(t) && |d.flash| == t.codeSize
  {
    forall a :: 0 <= a < t.codeSize ==> ProgramFrom(t, image, d, 0).flash[a] == Wanted(image, d.flash, t, a)
  }

  /** The images that can be programmed: on the 64K part those within the first page; on others those
      that want no byte but 0xFF in the last page of the host's 64K image, which smaller parts do not
      have. */
  ghost predicate Programmable(t: Part, image: Image) {
    if t.codeSize == 0x1_0000 then forall a :: a in image ==> a < t.page
    else forall a :: a in image && 0x1_0000 - t.page <= a < t.codeSize ==> image[a] == 255
  }

  /** Host and device together, for every supported part and every image: all devices end up holding
      what they should if and only if the image is programmable. But for the 64K part the same holds
      of each single device, whatever its flash held before. */
  lemma EndToEnd(t: Part, image: Image)
    requires Supported(t) && forall a :: a in image ==> 0 <= a < MAX_MEMORY_SIZE
    ensures (forall d: B.State | |d.flash| == t.codeSize :: Programmed(t, image, d)) <==> Programmable(t, image)
    ensures t.codeSize != 0x1_0000 ==>
      forall d: B.State | |d.flash| == t.codeSize :: Programmed(t, image, d) <==> Programmable(t, image)
    ensures forall d: B.State | |d.flash| == t.codeSize :: ProgramFrom(t, image, d, 0).running == d.running
  {
    hide Programmed, Programmable, ProgramFrom;
    forall d: B.State | |d.flash| == t.codeSize ensures ProgramFrom(t, image, d, 0).running == d.running {
      NeverStarted(t, image, d, 0);
    }
    if t.codeSize == 0x1_0000 {
      SixtyFourKExactly(t, image);
    } else {
      forall d: B.State | |d.flash| == t.codeSize ensures Programmed(t, image, d) <==> Programmable(t, image) {
        TransportedExactly(t, image, d);
      }
      var d := B.State(seq(t.codeSize, i => 255), true, 0);
      assert |d.flash| == t.codeSize;
    }
  }

  /** No block is taken for the start command. */
  lemma {:induction false} NeverStarted(t: Part, image: Image, d: B.State, addr: nat)
    requires Supported(t) && |d.flash| == t.codeSize && addr % t.page == 0
    ensures ProgramFrom(t, image, d, addr).running == d.running
    decreases t.codeSize - addr
  {
    if addr < t.codeSize {
      NextBlock(t, addr);
      PacketAccepted(t, image, addr);
      TargetOf(t, addr);
      NeverStarted(t, image, AfterBlock(t, image, d, addr), addr + t.page);
    }
  }

  lemma TransportedExactly(t: Part, image: Image, d: B.State)
    requires Supported(t) && t.codeSize != 0x1_0000 && |d.flash| == t.codeSize
    requires forall a :: a in image ==> 0 <= a < MAX_MEMORY_SIZE
    ensures Programmed(t, image, d) <==> Programmable(t, image)
  {
    hide ProgramFrom, Wanted, Within;
    forall a | 0 <= a < t.codeSize
      ensures ProgramFrom(t, image, d, 0).flash[a] == Wanted(image, d.flash, t, a) <==> TopBlank(t, image, a)
    {
      AddressExactly(t, image, d, a);
    }
    AllTopBlank(t, image);
  }

  /** If the address lies in the last page of the 64K image, no byte but 0xFF is wanted there. */
  predicate TopBlank(t: Part, image: Image, a: int) { a in image && MAX_MEMORY_SIZE - t.page <= a ==> image[a] == 255 }

  lemma AllTopBlank(t: Part, image: Image)
    requires t.codeSize != 0x1_0000 && forall a :: a in image ==> 0 <= a < MAX_MEMORY_SIZE
    ensures Programmable(t, image) <==> forall a :: 0 <= a < t.codeSize ==> TopBlank(t, image, a)
  {
    if Programmable(t, image) {
      forall a | 0 <= a < t.codeSize ensures TopBlank(t, image, a) { }
    } else {
      var a :| a in image && MAX_MEMORY_SIZE - t.page <= a < t.codeSize && image[a] != 255;
      assert !TopBlank(t, image, a);
    }
  }

  lemma AddressExactly(t: Part, image: Image, d: B.State, a: nat)
    requires Supported(t) && t.codeSize != 0x1_0000 && |d.flash| == t.codeSize && a < t.codeSize
    requires forall x :: x in image ==> 0 <= x < MAX_MEMORY_SIZE
    ensures ProgramFrom(t, image, d, 0).flash[a] == Wanted(image, d.flash, t, a) <==> TopBlank(t, image, a)
  {
    hide ProgramFrom, Within, Sent, B.PageStart, Touched;
    SentExactly(t, image, a);
    ProgramFromExact(t, image, d, 0, a);
    if a in image { MaskedPageIsSent(t, image, a); }
  }

  /** The flash, address by address, on every part but the 64K one: a page that is not the first and holds
      no byte of the image keeps its contents; in all others an address without a byte holds 0xFF, and one
      with a byte holds it, but in the last page of the 64K image. */
  lemma FlashExactly(t: Part, image: Image, d: B.State, a: nat)
    requires Supported(t) && t.codeSize != 0x1_0000 && |d.flash| == t.codeSize && a < t.codeSize
    requires forall x :: x in image ==> 0 <= x < 0x1_0000
    ensures a >= t.page && (forall x :: x in image ==> x / t.page != a / t.page) ==>
      ProgramFrom(t, image, d, 0).flash[a] == d.flash[a]
    ensures (a < t.page || exists x :: x in image && x / t.page == a / t.page) && a !in image ==>
      ProgramFrom(t, image, d, 0).flash[a] == 255
    ensures a in image && a < 0x1_0000 - t.page ==> ProgramFrom(t, image, d, 0).flash[a] == image[a]
  {
    hide ProgramFrom;
    AddressExactly(t, image, d, a);
    if a in image { assert Touched(t, image, a); }
  }

  lemma SixtyFourKExactly(t: Part, image: Image)
    requires Supported(t) && t.codeSize == 0x1_0000 && forall a :: a in image ==> 0 <= a < MAX_MEMORY_SIZE
    ensures (forall d: B.State | |d.flash| == t.codeSize :: Programmed(t, image, d)) <==> Programmable(t, image)
  {
    if Programmable(t, image) {
      forall d: B.State | |d.flash| == t.codeSize ensures Programmed(t, image, d) { FirstPageOnly(t, image, d); }
    } else {
      hide Programmed, Wanted, Sent, ProgramFrom;
      var a :| a in image && a >= t.page;
      var other: Byte := if image[a] == 0 then 1 else 0;
      var d := B.State(seq(t.codeSize, i => other), true, 0);
      BeyondFirstPage(t, image, d, a);
    }
  }

  /** A device whose flash differs from the image beyond the first page keeps differing. */
  lemma BeyondFirstPage(t: Part, image: Image, d: B.State, a: nat)
    requires Supported(t) && t.codeSize == 0x1_0000 && |d.flash| == t.codeSize
    requires a in image && t.page <= a < t.codeSize && d.flash[a] != image[a]
    requires forall x :: x in image ==> 0 <= x < 0x1_0000
    ensures !Programmed(t, image, d)
  {
    hide ProgramFrom, Sent, Touched;
    SixtyFourKStaysInPageZero(t, image, d, 0);
    MaskedPageIsSent(t, image, a);
    SentExactly(t, image, a);
    assert ProgramFrom(t, image, d, 0).flash[a] != Wanted(image, d.flash, t, a);
  }

  lemma {:induction false} NothingMoreSent(t: Part, image: Image, d: B.State, addr: nat)
    requires Supported(t) && |d.flash| == t.codeSize && addr % t.page == 0 && addr >= t.page
    requires forall a :: a in image ==> a < t.page
    ensures ProgramFrom(t, image, d, addr) == d
    decreases t.codeSize - addr
  {
    if addr < t.codeSize {
      NextBlock(t, addr);
      assert !Sent(t, image, addr);
      NothingMoreSent(t, image, d, addr + t.page);
    }
  }

  lemma FirstPageOnly(t: Part, image: Image, d: B.State)
    requires Supported(t) && t.codeSize == 0x1_0000 && |d.flash| == t.codeSize
    requires forall a :: a in image ==> 0 <= a < t.page
    ensures Programmed(t, image, d)
  {
    hide ProgramFrom, AfterBlock, Within, Carried;
    TargetOf(t, 0);
    PacketAccepted(t, image, 0);
    BlockExact(t, image, d, 0);
    FirstBlock(t, image, d);
    NothingMoreSent(t, image, AfterBlock(t, image, d, 0), t.page);
    forall a | 0 <= a < t.codeSize ensures ProgramFrom(t, image, d, 0).flash[a] == Wanted(image, d.flash, t, a) {
      SentExactly(t, image, a);
      PageOf(t, image, a);
    }
  }

  lemma FirstBlock(t: Part, image: Image, d: B.State)
    requires Supported(t) && |d.flash| == t.codeSize
    requires B.Accepts(t.codeSize, t.page, B.SetReport(Packet(t, image, 0)))
    ensures AfterBlock(t, image, d, 0) == B.Handle(d, t.page, B.SetReport(Packet(t, image, 0)))
    ensures t.page % t.page == 0
    ensures ProgramFrom(t, image, d, 0) == ProgramFrom(t, image, AfterBlock(t, image, d, 0), t.page)
  {
    ProgramStep(t, image, d, 0);
  }

  /** Where the page of an address starts, and whether it is sent when only the first page is used. */
  lemma PageOf(t: Part, image: Image, a: nat)
    requires Supported(t) && a < t.codeSize && forall x :: x in image ==> 0 <= x < t.page
    ensures Sent(t, image, B.PageStart(a, t.page)) <==> a < t.page
    ensures a < t.page ==> B.PageStart(a, t.page) == 0
    ensures a < t.page && t.codeSize == 0x1_0000 ==> Carried(image, t, a) == if a in image then image[a] else 255
  {
    if a < t.page {
      StartOf(t, a, 0);
    } else {
      var s := B.PageStart(a, t.page);
      if t.page == 128 { assert s == 128 * (a / 128); } else { assert s == 256 * (a / 256); }
      assert s >= t.page;
    }
  }

  lemma MaskedPageIsSent(t: Part, image: Image, a: nat)
    requires Supported(t) && a in image && a < MAX_MEMORY_SIZE
    ensures Sent(t, image, B.PageStart(a, t.page))
    ensures B.PageStart(a, t.page) + t.page >= MAX_MEMORY_SIZE <==> MAX_MEMORY_SIZE - t.page <= a
  {
    var s := B.PageStart(a, t.page);
    if t.page == 128 { assert s == 128 * (a / 128); } else { assert s == 256 * (a / 256); }
    assert s <= a <= s + t.page - 1;
  }

  /** On the 64K part nothing outside the first page is ever programmed, whatever the image. */
  lemma {:induction false} SixtyFourKStaysInPageZero(t: Part, image: Image, d: B.State, addr: nat)
    requires Supported(t) && t.codeSize == 0x1_0000 && |d.flash| == t.codeSize && addr % t.page == 0
    ensures forall a :: t.page <= a < t.codeSize ==> ProgramFrom(t, image, d, addr).flash[a] == d.flash[a]
    decreases t.codeSize - addr
  {
    if addr < t.codeSize {
      NextBlock(t, addr);
      PacketAccepted(t, image, addr);
      TargetOf(t, addr);
      forall a | t.page <= a < t.codeSize ensures AfterBlock(t, image, d, addr).flash[a] == d.flash[a] {
        B.HandleElsewhere(d, t.page, B.SetReport(Packet(t, image, addr)), a);
      }
      SixtyFourKStaysInPageZero(t, image, AfterBlock(t, image, d, addr), addr + t.page);
    }
  }

  // ---- The program ------------------------------------------------------------------------------------

  /** The size of the packets a report is sent in. */
  predicate Packets(size: nat) { size >= 2 && size % 2 == 0 }

  /** teensy_write: one report, in packets. */
  method Write(t: Part, size: nat, device: B.Device, buf: array<Byte>)
    requires Packets(size) && Supported(t) && device.Valid() && device.page == t.page && buf.Length == 260
    requires B.Accepts(device.flash.Length, t.page, B.SetReport(buf[..t.page + 2]))
    modifies device, device.flash, device.buffer
    ensures device.View() == B.Handle(old(device.View()), t.page, B.SetReport(old(buf[..t.page + 2])))
  {
    var report := buf[..t.page + 2];
    B.SplitJoin(report, size);
    device.ControlRequest(B.SetReport(report), B.Split(report, size));
  }

  /** Send the blocks, then the start command if asked to. */
  method Program(t: Part, size: nat, reader: Reader, device: B.Device, reboot: bool)
    requires Packets(size)
    requires Supported(t) && reader.Valid() && device.Valid()
    requires device.page == t.page && device.flash.Length == t.codeSize
    requires reader.image !in {device.flash, device.buffer}
    modifies device, device.flash, device.buffer
    ensures var e := ProgramFrom(t, old(reader.Contents()), old(device.View()), 0);
      device.View() == if reboot then e.(running := false) else e
  {
    hide ProgramFrom;
    ghost var image, d := reader.Contents(), device.View();
    var buf := new Byte[260];
    assert reader.Contents() == image && device.View() == d;
    SendBlocks(t, size, reader, device, buf);
    if reboot { SendStart(t, size, device, buf); }
  }

  method SendBlocks(t: Part, size: nat, reader: Reader, device: B.Device, buf: array<Byte>)
    requires Packets(size)
    requires Supported(t) && reader.Valid() && device.Valid() && buf.Length == 260
    requires device.page == t.page && device.flash.Length == t.codeSize
    requires reader.image !in {device.flash, device.buffer}
    requires buf !in {device.flash, device.buffer, reader.image}
    modifies buf, device, device.flash, device.buffer
    ensures device.View() == ProgramFrom(t, old(reader.Contents()), old(device.View()), 0)
  {
    hide ProgramFrom, AfterBlock, Block, Within;
    ghost var image, d := reader.Contents(), device.View();
    ghost var all := ProgramFrom(t, image, d, 0);
    var addr := 0;
    while addr < t.codeSize
      invariant addr % t.page == 0
      invariant reader.Contents() == image
      invariant device.View() == d
      invariant |d.flash| == t.codeSize && ProgramFrom(t, image, d, addr) == all
    {
      ProgramStep(t, image, d, addr);
      SendBlock(t, size, reader, device, buf, addr);
      d := device.View();
      addr := addr + t.page;
    }
    ProgramEnd(t, image, d, addr);
  }

  method SendStart(t: Part, size: nat, device: B.Device, buf: array<Byte>)
    requires Packets(size)
    requires Supported(t) && device.Valid() && device.page == t.page && buf.Length == 260
    requires buf !in {device.flash, device.buffer}
    modifies buf, device, device.flash, device.buffer
    ensures device.View() == old(device.View()).(running := false)
  {
    buf[0], buf[1] := 255, 255;
    for i := 2 to 260
      invariant buf[0] == 255 && buf[1] == 255
      invariant device.View() == old(device.View())
    {
      buf[i] := 0;
    }
    ghost var report := buf[..t.page + 2];
    assert report[0] == 255 && report[1] == 255;
    Write(t, size, device, buf);
  }

  /** One turn of the loop: blocks without firmware are skipped, except the first. */
  method SendBlock(t: Part, size: nat, reader: Reader, device: B.Device, buf: array<Byte>, addr: nat)
    requires Packets(size)
    requires Supported(t) && reader.Valid() && device.Valid() && buf.Length == 260
    requires device.page == t.page && device.flash.Length == t.codeSize
    requires reader.image !in {device.flash, device.buffer}
    requires buf !in {device.flash, device.buffer, reader.image}
    requires addr < t.codeSize && addr % t.page == 0
    modifies buf, device, device.flash, device.buffer
    ensures device.View() == AfterBlock(t, old(reader.Contents()), old(device.View()), addr)
    ensures reader.Contents() == old(reader.Contents())
  {
    hide B.Handle, B.Accepts, Block, Within, Header, Target, B.Filled, B.Written;
    var used := reader.BytesWithinRange(addr, addr + t.page - 1);
    if addr > 0 && !used { return; }
    PacketAccepted(t, reader.Contents(), addr);
    FillPacket(t, reader, buf, addr);
    Write(t, size, device, buf);
  }

  method FillPacket(t: Part, reader: Reader, buf: array<Byte>, addr: nat)
    requires Supported(t) && reader.Valid() && buf.Length == 260 && buf != reader.image
    modifies buf
    ensures buf[..t.page + 2] == Packet(t, old(reader.Contents()), addr)
  {
    if t.codeSize < 0x1_0000 {
      buf[0] := addr % 256;
      buf[1] := (addr / 256) % 256;
    } else {
      buf[0] := (addr / 256) % 256;
      buf[1] := (addr / 65536) % 256;
    }
    assert buf[..2] == Header(t, addr);
    reader.GetData(addr, t.page, buf, 2);
    ghost var block := Block(reader.Contents(), addr, t.page);
    assert buf[..2 + t.page] == Header(t, addr) + block;
  }

  /** main: read the file, and program the device only if it was read without an error. */
  method Load(lines: seq<string>, t: Part, size: nat, reader: Reader, device: B.Device,
              reboot: bool) returns (v: Verdict)
    requires Packets(size) && Supported(t) && reader.Valid() && device.Valid()
    requires device.page == t.page && device.flash.Length == t.codeSize
    requires reader.image !in {device.flash, device.buffer}
    modifies reader, reader.image, reader.mask, device, device.flash, device.buffer
    ensures v == ReadLines(EMPTY, lines).0
    ensures v != Fine <==> exists i: nat :: HexLines.RefusedAt(EMPTY, lines, i)
    ensures v != Fine ==> device.View() == old(device.View())
    ensures v == Fine ==>
      var e := ProgramFrom(t, ReadLines(EMPTY, lines).1.image, old(device.View()), 0);
      device.View() == if reboot then e.(running := false) else e
  {
    HexLines.ReadFailsExactly(EMPTY, lines);
    v := reader.ReadIntelHex(lines);
    if v == Fine { Program(t, size, reader, device, reboot); }
  }

  /** The byte the last data record that covers a gives it, before the end record. */
  function LastByte(rs: seq<Record>, a: int): Option<Byte> {
    match LastCover(0, rs, BeforeEnd(rs), a)
    case Some(i) => Some(rs[i].bytes[a - (rs[i].addr + Base(0, rs, i))])
    case None => None
  }

  /** What the records ask for at a: the byte of the last data record that covers it; without one, 0xFF
      in the first page and in pages with a byte that some record covers, and what the flash held in all
      others. */
  ghost function Recorded(t: Part, rs: seq<Record>, flash: seq<Byte>, a: nat): Byte
    requires t.page > 0 && a < |flash|
  {
    match LastByte(rs, a)
    case Some(b) => b
    case None =>
      if a < t.page || exists x: int :: x / t.page == a / t.page && LastByte(rs, x).Some? then 255 else flash[a]
  }

  /** From records to flash: on parts below 64K the flash ends up holding the last byte the records
      give each address, for every list of records that reads without an error. */
  lemma RecordsToFlash(t: Part, rs: seq<Record>, lines: seq<string>, d: B.State)
    requires Supported(t) && t.codeSize < 0x1_0000 && |d.flash| == t.codeSize
    requires AllShow(lines, rs) && Fold(EMPTY, rs).0 == Fine
    ensures ReadLines(EMPTY, lines) == Fold(EMPTY, rs)
    ensures forall a :: 0 <= a < t.codeSize ==>
      ProgramFrom(t, Fold(EMPTY, rs).1.image, d, 0).flash[a] == Recorded(t, rs, d.flash, a)
  {
    hide ProgramFrom, Fold, Recorded, Programmable, B.PageStart, BelowTop, Wanted, LastByte;
    var image := Fold(EMPTY, rs).1.image;
    ReadIsFold(EMPTY, rs, lines);
    ImageBelowTop(lines);
    TransportedExactly(t, image, d);
    SmallPart(t, image);
    forall x: int ensures x in image <==> LastByte(rs, x).Some?
      ensures x in image ==> LastByte(rs, x) == Some(image[x])
    {
      FoldExactly(EMPTY, rs, x);
      ImageIsLast(rs, x);
    }
    forall a | 0 <= a < t.codeSize
      ensures ProgramFrom(t, image, d, 0).flash[a] == Recorded(t, rs, d.flash, a)
    {
      WantedIsRecorded(t, rs, image, d.flash, a);
    }
  }

  lemma ImageIsLast(rs: seq<Record>, a: int)
    requires After(EMPTY, Fold(EMPTY, rs).1, rs, BeforeEnd(rs), a)
    ensures var image := Fold(EMPTY, rs).1.image;
      (a in image <==> LastByte(rs, a).Some?) && (a in image ==> LastByte(rs, a) == Some(image[a]))
  {
    hide Fold, LastCover, Base, DataCount;
  }

  lemma ImageBelowTop(lines: seq<string>)
    ensures forall a :: a in ReadLines(EMPTY, lines).1.image ==> 0 <= a < MAX_MEMORY_SIZE
  {
    ReadLinesBelowTop(EMPTY, lines);
  }

  lemma SmallPart(t: Part, image: Image)
    requires Supported(t) && t.codeSize < 0x1_0000
    ensures Programmable(t, image)
  {
  }

  lemma WantedIsRecorded(t: Part, rs: seq<Record>, image: Image, flash: seq<Byte>, a: nat)
    requires t.page > 0 && a < |flash|
    requires forall x: int :: x in image <==> LastByte(rs, x).Some?
    requires forall x: int :: x in image ==> LastByte(rs, x) == Some(image[x])
    ensures Wanted(image, flash, t, a) == Recorded(t, rs, flash, a)
  {
    hide LastByte;
  }
}
