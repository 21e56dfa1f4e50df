/** The host's firmware buffers as mutable state: read_intel_hex, parse_hex_line,
    ihex_bytes_within_range and ihex_get_data of hid_bootloader_cli.c. */
module HexReader {
  import opened Options
  import opened IntelHex

  /** Whether any address from begin to end is part of the image; ranges outside memory hold none. */
  predicate Within(image: Image, begin: int, end: int) {
    0 <= begin < MAX_MEMORY_SIZE && 0 <= end < MAX_MEMORY_SIZE && exists a :: begin <= a <= end && a in image
  }

  /** len bytes of the image from addr on, 0xFF where it has none; all 0xFF for a range that does
      not end below the last address. */
  function Block(image: Image, addr: int, len: nat): (b: seq<Byte>)
    ensures |b| == len
  {
    seq(len, i => if 0 <= addr && addr + len < MAX_MEMORY_SIZE && addr + i in image then image[addr + i] else 255)
  }

  class Reader {
    const image: array<Byte>
    const mask: array<bool>
    var byteCount: nat
    var extendedAddr: nat
    var endRecordSeen: bool

    ghost predicate Valid() {
      image.Length == mask.Length == MAX_MEMORY_SIZE
    }

    ghost function Contents(): Image
      requires Valid()
      reads image, mask
    {
      map a | 0 <= a < MAX_MEMORY_SIZE && mask[a] :: image[a]
    }

    ghost function View(): Loader
      requires Valid()
      reads this, image, mask
    {
      Loader(Contents(), byteCount, extendedAddr, endRecordSeen)
    }

    constructor ()
      ensures Valid() && fresh(image) && fresh(mask)
    {
      image := new Byte[MAX_MEMORY_SIZE];
      mask := new bool[MAX_MEMORY_SIZE];
      byteCount, extendedAddr, endRecordSeen := 0, 0, false;
    }

    /** Put one byte of firmware in place. */
    method Put(a: nat, b: Byte)
      requires Valid() && a < MAX_MEMORY_SIZE
      modifies image, mask
      ensures Contents() == old(Contents())[a := b]
    {
      image[a] := b;
      mask[a] := true;
    }

    method ParseDataBytes(line: string, base: nat, len: nat, sum: nat) returns (ok: bool, total: nat)
      requires Valid() && base + len < MAX_MEMORY_SIZE
      modifies image, mask
      ensures (ok, Contents(), total) == DataLoop(old(Contents()), line, base, 0, len, sum)
    {
      total := sum;
      var num := 0;
      while num != len
        invariant 0 <= num <= len
        invariant DataLoop(Contents(), line, base, num, len, total) ==
          DataLoop(old(Contents()), line, base, 0, len, sum)
        decreases len - num
      {
        var b := ByteAt(line, 9 + 2 * num);
        if b.None? { return false, total; }
        Put(base + num, b.value);
        total := total + b.value;
        num := num + 1;
      }
      ok := true;
    }

    method ParseHexLine(line: string) returns (v: Verdict)
      requires Valid()
      modifies this, image, mask
      ensures (v, View()) == ParseLine(old(View()), line)
    {
      if |line| < 11 || line[0] != ':' { return Bad; }
      var len := ByteAt(line, 1);
      if len.None? || |line| < 11 + 2 * len.value { return Bad; }
      var addr, code := Field(line, 3, 4), ByteAt(line, 7);
      if addr.None? || code.None? { return Bad; }
      if (addr.value + extendedAddr + len.value) % WORD >= MAX_MEMORY_SIZE { return Bad; }
      v := ParseRecord(line, len.value, addr.value, code.value);
    }

    method ParseRecord(line: string, len: nat, addr: nat, code: nat) returns (v: Verdict)
      requires Valid() && (addr + extendedAddr + len) % WORD < MAX_MEMORY_SIZE
      modifies this, image, mask
      ensures (v, View()) == ParseBody(old(View()), line, len, addr, code)
    {
      var sum := len + WordSum(addr) + code;
      if code != 0 {
        if code == 1 { endRecordSeen := true; return Fine; }
        if code == 2 && len == 2 { ParseBaseRecord(line, 0x10, sum); }
        if code == 4 && len == 2 { ParseBaseRecord(line, 0x1_0000, sum); }
        return Fine;
      }
      if addr + extendedAddr + len >= WORD { return Wild; }
      byteCount := byteCount + len;
      var ok, total := ParseDataBytes(line, addr + extendedAddr, len, sum);
      if !ok { return Bad; }
      var ck := ByteAt(line, 9 + 2 * len);
      if ck.None? || (total + ck.value) % 256 != 0 { return Bad; }
      v := Fine;
    }

    method ParseBaseRecord(line: string, scale: nat, sum: nat)
      requires Valid()
      modifies `extendedAddr
      ensures View() == ParseBase(old(View()), line, scale, sum)
    {
      var value, ck := Field(line, 9, 4), ByteAt(line, 13);
      if value.None? || ck.None? { return; }
      if (sum + WordSum(value.value) + ck.value) % 256 != 0 { return; }
      extendedAddr := (value.value * scale) % WORD;
    }

    method Clear()
      requires Valid()
      modifies this, image, mask
      ensures View() == EMPTY
    {
      byteCount, endRecordSeen, extendedAddr := 0, false, 0;
      for i := 0 to MAX_MEMORY_SIZE
        invariant forall j :: 0 <= j < i ==> !mask[j]
        invariant byteCount == 0 && !endRecordSeen && extendedAddr == 0
      {
        image[i], mask[i] := 255, false;
      }
    }

    /** Read a file given as its lines; an empty line stands for one that starts with NUL. */
    method ReadIntelHex(lines: seq<string>) returns (v: Verdict)
      requires Valid()
      modifies this, image, mask
      ensures (v, View()) == ReadLines(EMPTY, lines)
    {
      Clear();
      var i := 0;
      while i < |lines|
        invariant 0 <= i <= |lines|
        invariant ReadLines(View(), lines[i..]) == ReadLines(EMPTY, lines)
      {
        assert lines[i..][1..] == lines[i + 1..];
        if lines[i] != "" {
          v := ParseHexLine(lines[i]);
          if v != Fine || endRecordSeen { return; }
        }
        i := i + 1;
      }
      v := Fine;
    }

    method BytesWithinRange(begin: int, end: int) returns (found: bool)
      requires Valid()
      ensures found <==> Within(Contents(), begin, end)
    {
      if begin < 0 || begin >= MAX_MEMORY_SIZE || end < 0 || end >= MAX_MEMORY_SIZE { return false; }
      var i := begin;
      while i <= end
        invariant begin <= i
        invariant forall a :: begin <= a < i && a <= end ==> a !in Contents()
      {
        if mask[i] {
          assert i in Contents();
          return true;
        }
        i := i + 1;
      }
      return false;
    }

    /** Fill bytes[at..at + len] with a block of the image. */
    method GetData(addr: int, len: nat, bytes: array<Byte>, at: nat)
      requires Valid() && at + len <= bytes.Length && bytes != image
      modifies bytes
      ensures bytes[..] == old(bytes[..at]) + Block(Contents(), addr, len) + old(bytes[at + len..])
    {
      if addr < 0 || addr + len >= MAX_MEMORY_SIZE {
        CopyBlank(len, bytes, at);
        assert Block(Contents(), addr, len) == seq(len, i => 255);
      } else {
        CopyImage(addr, len, bytes, at);
      }
    }

    method CopyBlank(len: nat, bytes: array<Byte>, at: nat)
      requires at + len <= bytes.Length
      modifies bytes
      ensures bytes[..] == old(bytes[..at]) + seq(len, i => 255) + old(bytes[at + len..])
    {
      for i := 0 to len
        invariant forall k :: at <= k < at + i ==> bytes[k] == 255
        invariant forall k :: 0 <= k < bytes.Length && !(at <= k < at + i) ==> bytes[k] == old(bytes[k])
      {
        bytes[at + i] := 255;
      }
    }

    method CopyImage(addr: nat, len: nat, bytes: array<Byte>, at: nat)
      requires Valid() && at + len <= bytes.Length && bytes != image && addr + len < MAX_MEMORY_SIZE
      modifies bytes
      ensures bytes[..] == old(bytes[..at]) + Block(Contents(), addr, len) + old(bytes[at + len..])
    {
      ghost var block := Block(Contents(), addr, len);
      for i := 0 to len
        invariant unchanged(image) && unchanged(mask)
        invariant forall k :: at <= k < at + i ==> bytes[k] == block[k - at]
        invariant forall k :: 0 <= k < bytes.Length && !(at <= k < at + i) ==> bytes[k] == old(bytes[k])
      {
        bytes[at + i] := if mask[addr + i] then image[addr + i] else 255;
      }
      assert bytes[at..at + len] == block;
    }
  }
}
