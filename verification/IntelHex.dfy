/** The Intel HEX reader of hid_bootloader_cli.c: parse_hex_line and read_intel_hex over text
    lines, and the meaning of records they implement. */
module IntelHex {
  import opened Options

  type Byte = b: int | 0 <= b < 256

  const MAX_MEMORY_SIZE := 0x1_0000
  const WORD := 0x1_0000_0000

  /** The image: the addresses whose mask is set, with their bytes. */
  type Image = map<int, Byte>

  datatype Loader = Loader(image: Image, count: nat, ext: nat, ended: bool)

  const EMPTY: Loader := Loader(map[], 0, 0, false)

  /** Bad is a return value of 0. Wild is a data record whose address sum wraps in 32 bits and so
      passes the range test although its bytes lie outside the image; C leaves it undefined. */
  datatype Verdict = Fine | Bad | Wild

  // ---- Hexadecimal fields -----------------------------------------------------------------------

  predicate IsHex(c: char) { '0' <= c <= '9' || 'A' <= c <= 'F' || 'a' <= c <= 'f' }

  function HexValue(c: char): (v: nat)
    requires IsHex(c)
    ensures v < 16
  {
    if '0' <= c <= '9' then c as int - '0' as int
    else if 'A' <= c <= 'F' then c as int - 'A' as int + 10
    else c as int - 'a' as int + 10
  }

  /** A field of w hexadecimal digits at a position. */
  function Field(line: string, at: nat, w: nat): Option<nat> {
    if w == 0 then Some(0)
    else if at + w > |line| || !IsHex(line[at + w - 1]) then None
    else
      var high := Field(line, at, w - 1);
      if high.None? then None else Some(16 * high.value + HexValue(line[at + w - 1]))
  }

  lemma {:induction false} FieldBound(line: string, at: nat, w: nat)
    ensures Field(line, at, w).Some? ==> Field(line, at, w).value < Limit(w)
  {
    if w > 0 { FieldBound(line, at, w - 1); }
  }

  function Limit(w: nat): nat { if w == 0 then 1 else 16 * Limit(w - 1) }

  function ByteAt(line: string, at: nat): (r: Option<Byte>)
    ensures r.Some? <==> Field(line, at, 2).Some?
    ensures r.Some? ==> r.value == Field(line, at, 2).value
  {
    FieldBound(line, at, 2);
    assert Limit(2) == 256;
    match Field(line, at, 2)
    case None => None
    case Some(v) => Some(v)
  }

  // ---- One line -----------------------------------------------------------------------------------

  /** The byte sum of a word. */
  function WordSum(v: nat): nat { (v / 256) % 256 + v % 256 }

  /** The data loop from byte num on; the length is at most 255, so its guard on 256 never fires. */
  function DataLoop(image: Image, line: string, base: nat, num: nat, len: nat, sum: nat): (bool, Image, nat)
    requires num <= len
    decreases len - num
  {
    if num == len then (true, image, sum) else
    match ByteAt(line, 9 + 2 * num)
    case None => (false, image, sum)
    case Some(b) => DataLoop(image[base + num := b], line, base, num + 1, len, sum + b)
  }

  function ParseData(l: Loader, line: string, base: nat, len: nat, sum: nat): (Verdict, Loader) {
    var (ok, image, total) := DataLoop(l.image, line, base, 0, len, sum);
    var l' := l.(image := image, count := l.count + len);
    if !ok then (Bad, l') else
    match ByteAt(line, 9 + 2 * len)
    case None => (Bad, l')
    case Some(ck) => if (total + ck) % 256 != 0 then (Bad, l') else (Fine, l')
  }

  /** Types 2 and 4 move the base address when their checksum is right and are skipped otherwise. */
  function ParseBase(l: Loader, line: string, scale: nat, sum: nat): Loader {
    var value := Field(line, 9, 4);
    var ck := ByteAt(line, 13);
    if value.None? || ck.None? || (sum + WordSum(value.value) + ck.value) % 256 != 0 then l
    else l.(ext := (value.value * scale) % WORD)
  }

  function ParseLine(l: Loader, line: string): (Verdict, Loader) {
    if |line| < 11 || line[0] != ':' then (Bad, l) else
    var len := ByteAt(line, 1);
    if len.None? || |line| < 11 + 2 * len.value then (Bad, l) else
    var addr := Field(line, 3, 4);
    var code := ByteAt(line, 7);
    if addr.None? || code.None? then (Bad, l)
    else if (addr.value + l.ext + len.value) % WORD >= MAX_MEMORY_SIZE then (Bad, l)
    else ParseBody(l, line, len.value, addr.value, code.value)
  }

  /** What is done with a record whose header has been accepted. */
  function ParseBody(l: Loader, line: string, len: nat, addr: nat, code: nat): (Verdict, Loader) {
    var sum := len + WordSum(addr) + code;
    if code == 1 then (Fine, l.(ended := true))
    else if code == 2 && len == 2 then (Fine, ParseBase(l, line, 0x10, sum))
    else if code == 4 && len == 2 then (Fine, ParseBase(l, line, 0x1_0000, sum))
    else if code != 0 then (Fine, l)
    else if addr + l.ext + len >= WORD then (Wild, l)
    else ParseData(l, line, addr + l.ext, len, sum)
  }

  /** read_intel_hex after its reset: lines up to the first error, the end record or the end. */
  function ReadLines(l: Loader, lines: seq<string>): (Verdict, Loader)
    decreases |lines|
  {
    if lines == [] then (Fine, l)
    else if lines[0] == "" then ReadLines(l, lines[1..])
    else
      var (v, l') := ParseLine(l, lines[0]);
      if v != Fine || l'.ended then (v, l') else ReadLines(l', lines[1..])
  }

  // ---- Records ------------------------------------------------------------------------------------

  type Address = a: int | 0 <= a < 0x1_0000

  datatype RawRecord = Record(code: Byte, addr: Address, bytes: seq<Byte>)

  type Record = r: RawRecord | |r.bytes| < 256 witness RawRecord.Record(1, 0, [])

  const DIGITS: string := "0123456789ABCDEF"

  function Hex(n: nat, w: nat): (s: string)
    ensures |s| == w
  {
    if w == 0 then "" else Hex(n / 16, w - 1) + [DIGITS[n % 16]]
  }

  function HexBytes(bytes: seq<Byte>): (s: string)
    ensures |s| == 2 * |bytes|
  {
    if bytes == [] then "" else HexBytes(bytes[..|bytes| - 1]) + Hex(bytes[|bytes| - 1], 2)
  }

  function ByteSum(bytes: seq<Byte>): nat {
    if bytes == [] then 0 else ByteSum(bytes[..|bytes| - 1]) + bytes[|bytes| - 1]
  }

  function HeaderSum(r: Record): nat { |r.bytes| + WordSum(r.addr) + r.code }

  /** The checksum byte that makes all bytes of the record sum to 0 modulo 256. */
  function Checksum(r: Record): Byte { (256 - (HeaderSum(r) + ByteSum(r.bytes)) % 256) % 256 }

  function EncodeWith(r: Record, ck: Byte): string {
    ":" + Hex(|r.bytes|, 2) + Hex(r.addr, 4) + Hex(r.code, 2) + HexBytes(r.bytes) + Hex(ck, 2)
  }

  function Encode(r: Record): string { EncodeWith(r, Checksum(r)) }

  /** Bytes written at successive addresses; later bytes win. */
  function Store(image: Image, base: nat, bytes: seq<Byte>): Image {
    if bytes == [] then image
    else Store(image, base, bytes[..|bytes| - 1])[base + |bytes| - 1 := bytes[|bytes| - 1]]
  }

  /** A two-byte value, most significant byte first. */
  function BigEndian(bytes: seq<Byte>): (v: nat)
    requires |bytes| == 2
    ensures v < 0x1_0000
  {
    var high: int, low: int := bytes[0], bytes[1];
    256 * high + low
  }

  predicate Fits(l: Loader, r: Record) { (r.addr + l.ext + |r.bytes|) % WORD < MAX_MEMORY_SIZE }

  /** What a well-formed record means. */
  function Apply(l: Loader, r: Record): (Verdict, Loader) {
    if !Fits(l, r) then (Bad, l)
    else if r.code == 0 then
      if r.addr + l.ext + |r.bytes| >= WORD then (Wild, l)
      else (Fine, l.(image := Store(l.image, r.addr + l.ext, r.bytes), count := l.count + |r.bytes|))
    else if r.code == 1 then (Fine, l.(ended := true))
    else if r.code == 2 && |r.bytes| == 2 then (Fine, l.(ext := BigEndian(r.bytes) * 0x10))
    else if r.code == 4 && |r.bytes| == 2 then (Fine, l.(ext := BigEndian(r.bytes) * 0x1_0000))
    else (Fine, l)
  }

  function Fold(l: Loader, rs: seq<Record>): (Verdict, Loader)
    decreases |rs|
  {
    if rs == [] then (Fine, l) else
    var (v, l') := Apply(l, rs[0]);
    if v != Fine || l'.ended then (v, l') else Fold(l', rs[1..])
  }

  /** Each record followed by a line ending of its own. */
  function Lines(rs: seq<Record>, ends: seq<string>): (lines: seq<string>)
    requires |ends| == |rs|
    ensures |lines| == |rs|
  {
    if rs == [] then [] else [Encode(rs[0]) + ends[0]] + Lines(rs[1..], ends[1..])
  }

  // ---- Reading back an encoded record ---------------------------------------------------------------

  lemma DigitValue(n: nat)
    requires n < 16
    ensures IsHex(DIGITS[n]) && HexValue(DIGITS[n]) == n
  {
  }

  lemma LastDigit(line: string, at: nat, head: string, c: char)
    requires at + |head| + 1 <= |line| && line[at..at + (|head| + 1)] == head + [c]
    ensures line[at..at + |head|] == head && line[at + |head|] == c
  {
    var s := line[at..at + (|head| + 1)];
    assert s[|head|] == line[at + |head|];
    SliceOfSlice(line, at, at + (|head| + 1), 0, |head|);
    assert s[0..|head|] == head;
  }

  lemma FieldStep(line: string, at: nat, n: nat, w: nat)
    requires w > 0 && at + w <= |line| && line[at + w - 1] == DIGITS[n % 16] && Field(line, at, w - 1) == Some(n / 16)
    ensures Field(line, at, w) == Some(n)
  {
    DigitValue(n % 16);
  }

  lemma {:induction false} FieldOfHex(line: string, at: nat, n: nat, w: nat)
    requires n < Limit(w) && at + w <= |line| && line[at..at + w] == Hex(n, w)
    ensures Field(line, at, w) == Some(n)
  {
    hide IsHex, HexValue;
    if w > 0 {
      LastDigit(line, at, Hex(n / 16, w - 1), DIGITS[n % 16]);
      FieldOfHex(line, at, n / 16, w - 1);
      FieldStep(line, at, n, w);
    }
  }

  /** The fields of the record, with the given checksum, can be read off the line. */
  ghost predicate Shows(line: string, r: Record, ck: Byte) {
    var n := |r.bytes|;
    |line| >= 11 + 2 * n && line[0] == ':' &&
    ByteAt(line, 1) == Some(n) && Field(line, 3, 4) == Some(r.addr) && ByteAt(line, 7) == Some(r.code) &&
    ByteAt(line, 9 + 2 * n) == Some(ck) &&
    forall i :: 0 <= i < n ==> ByteAt(line, 9 + 2 * i) == Some(r.bytes[i])
  }

  /** Where the fields of an encoded record are. */
  lemma Layout(r: Record, ck: Byte, tail: string)
    ensures var line := EncodeWith(r, ck) + tail; var n := |r.bytes|;
      |line| == 11 + 2 * n + |tail| && line[0] == ':' &&
      line[1..3] == Hex(n, 2) && line[3..7] == Hex(r.addr, 4) && line[7..9] == Hex(r.code, 2) &&
      line[9..9 + 2 * n] == HexBytes(r.bytes) && line[9 + 2 * n..11 + 2 * n] == Hex(ck, 2)
  {
    hide Hex, HexBytes;
    LayoutOf(Hex(|r.bytes|, 2), Hex(r.addr, 4), Hex(r.code, 2), HexBytes(r.bytes), Hex(ck, 2), tail);
  }

  lemma LayoutOf(a: string, b: string, c: string, d: string, e: string, tail: string)
    requires |a| == |c| == |e| == 2 && |b| == 4
    ensures var line := ":" + a + b + c + d + e + tail; var n := 9 + |d|;
      |line| == n + 2 + |tail| && line[0] == ':' && line[1..3] == a && line[3..7] == b && line[7..9] == c &&
      line[9..n] == d && line[n..n + 2] == e
  {
    var head := ":" + a + b + c;
    var line := head + d + e + tail;
    assert line == ":" + a + b + c + d + e + tail;
    assert line[1..3] == a;
    assert line[3..7] == b;
    assert line[7..9] == c;
    assert line[9..9 + |d|] == d;
    assert line[9 + |d|..11 + |d|] == e;
  }

  lemma ByteOfHex(line: string, at: nat, b: Byte)
    requires at + 2 <= |line| && line[at..at + 2] == Hex(b, 2)
    ensures ByteAt(line, at) == Some(b)
  {
    assert Limit(2) == 256;
    FieldOfHex(line, at, b, 2);
  }

  lemma SliceOfSlice(s: string, a: nat, b: nat, c: nat, d: nat)
    requires a <= b <= |s| && c <= d <= b - a
    ensures s[a..b][c..d] == s[a + c..a + d]
  {
    var t := s[a..b];
    forall k | 0 <= k < d - c ensures t[c..d][k] == s[a + c..a + d][k] {
      assert t[c..d][k] == t[c + k] == s[a + (c + k)];
    }
    assert t[c..d] == s[a + c..a + d];
  }

  lemma EncodingShows(r: Record, ck: Byte, tail: string)
    ensures Shows(EncodeWith(r, ck) + tail, r, ck)
  {
    Layout(r, ck, tail);
    SlicesShow(EncodeWith(r, ck) + tail, r, ck);
  }

  lemma SlicesShow(line: string, r: Record, ck: Byte)
    requires |line| >= 11 + 2 * |r.bytes| && line[0] == ':'
    requires line[1..3] == Hex(|r.bytes|, 2) && line[3..7] == Hex(r.addr, 4) && line[7..9] == Hex(r.code, 2)
    requires line[9..9 + 2 * |r.bytes|] == HexBytes(r.bytes)
    requires line[9 + 2 * |r.bytes|..11 + 2 * |r.bytes|] == Hex(ck, 2)
    ensures Shows(line, r, ck)
  {
    hide Field, Hex, HexBytes, ByteAt;
    assert Limit(4) == 256 * Limit(2) && Limit(2) == 256;
    ByteOfHex(line, 1, |r.bytes|);
    FieldOfHex(line, 3, r.addr, 4);
    ByteOfHex(line, 7, r.code);
    ByteOfHex(line, 9 + 2 * |r.bytes|, ck);
    BytesShow(line, r.bytes);
  }

  lemma {:induction false} BytesShow(line: string, bytes: seq<Byte>)
    requires 9 + 2 * |bytes| <= |line| && line[9..9 + 2 * |bytes|] == HexBytes(bytes)
    ensures forall i :: 0 <= i < |bytes| ==> ByteAt(line, 9 + 2 * i) == Some(bytes[i])
  {
    hide Hex, ByteAt, Field;
    if bytes != [] {
      var n := |bytes| - 1;
      SplitHex(line, HexBytes(bytes[..n]), Hex(bytes[n], 2));
      BytesShow(line, bytes[..n]);
      ByteOfHex(line, 9 + 2 * n, bytes[n]);
    }
  }

  lemma SplitHex(line: string, head: string, last: string)
    requires 9 + |head| + |last| <= |line| && line[9..9 + |head| + |last|] == head + last
    ensures line[9..9 + |head|] == head && line[9 + |head|..9 + |head| + |last|] == last
  {
    var m := 9 + |head| + |last|;
    SliceOfSlice(line, 9, m, 0, |head|);
    SliceOfSlice(line, 9, m, |head|, |head| + |last|);
    assert (head + last)[0..|head|] == head;
    assert (head + last)[|head|..|head| + |last|] == last;
  }

  lemma {:induction false} DataLoopReads(image: Image, line: string, base: nat, bytes: seq<Byte>, num: nat, sum: nat)
    requires num <= |bytes|
    requires forall i :: 0 <= i < |bytes| ==> ByteAt(line, 9 + 2 * i) == Some(bytes[i])
    ensures DataLoop(Store(image, base, bytes[..num]), line, base, num, |bytes|, sum + ByteSum(bytes[..num]))
         == (true, Store(image, base, bytes), sum + ByteSum(bytes))
    decreases |bytes| - num
  {
    if num == |bytes| {
      assert bytes[..num] == bytes;
    } else {
      assert bytes[..num + 1][..num] == bytes[..num];
      DataLoopReads(image, line, base, bytes, num + 1, sum);
    }
  }

  lemma DataLoopWhole(image: Image, line: string, base: nat, bytes: seq<Byte>, sum: nat)
    requires forall i :: 0 <= i < |bytes| ==> ByteAt(line, 9 + 2 * i) == Some(bytes[i])
    ensures DataLoop(image, line, base, 0, |bytes|, sum) == (true, Store(image, base, bytes), sum + ByteSum(bytes))
  {
    hide DataLoop;
    assert bytes[..0] == [];
    DataLoopReads(image, line, base, bytes, 0, sum);
  }

  /** A line that shows a record with its checksum is read for what the record means. */
  lemma ParseShown(l: Loader, r: Record, line: string)
    requires l.ext < WORD && Shows(line, r, Checksum(r))
    ensures ParseLine(l, line) == Apply(l, r) && line != ""
  {
    hide ParseBody, ByteAt, Field;
    if Fits(l, r) { BodyShown(l, r, line); }
  }

  lemma BodyShown(l: Loader, r: Record, line: string)
    requires l.ext < WORD && Shows(line, r, Checksum(r)) && Fits(l, r)
    ensures ParseBody(l, line, |r.bytes|, r.addr, r.code) == Apply(l, r)
  {
    hide ParseData, ParseBase, Shows, Checksum, ByteSum;
    ChecksumOk(r, Checksum(r));
    if r.code == 0 {
      DataShown(l, r, line);
    } else if |r.bytes| == 2 {
      BaseShown(l, r, line, 0x10);
      BaseShown(l, r, line, 0x1_0000);
    }
  }

  lemma DataShown(l: Loader, r: Record, line: string)
    requires Shows(line, r, Checksum(r)) && (HeaderSum(r) + ByteSum(r.bytes) + Checksum(r)) % 256 == 0
    ensures ParseData(l, line, r.addr + l.ext, |r.bytes|, HeaderSum(r)) ==
      (Fine, l.(image := Store(l.image, r.addr + l.ext, r.bytes), count := l.count + |r.bytes|))
  {
    hide DataLoop, Store, ByteSum, Checksum, HeaderSum;
    DataLoopWhole(l.image, line, r.addr + l.ext, r.bytes, HeaderSum(r));
  }

  lemma BaseShown(l: Loader, r: Record, line: string, scale: nat)
    requires |r.bytes| == 2 && (scale == 0x10 || scale == 0x1_0000)
    requires Shows(line, r, Checksum(r)) && (HeaderSum(r) + ByteSum(r.bytes) + Checksum(r)) % 256 == 0
    ensures ParseBase(l, line, scale, HeaderSum(r)) == l.(ext := BigEndian(r.bytes) * scale)
  {
    hide Field, ByteSum, Checksum, BigEndian, HeaderSum;
    BaseField(line, r);
    ScaleFits(BigEndian(r.bytes), scale);
  }

  lemma ScaleFits(v: nat, scale: nat)
    requires v < 0x1_0000 && (scale == 0x10 || scale == 0x1_0000)
    ensures (v * scale) % WORD == v * scale
  {
    if scale == 0x10 { assert v * 0x10 < WORD; } else { assert v * 0x1_0000 < WORD; }
  }

  lemma ChecksumOk(r: Record, ck: Byte)
    ensures (HeaderSum(r) + ByteSum(r.bytes) + ck) % 256 == 0 <==> ck == Checksum(r)
  {
    hide HeaderSum, ByteSum;
    ChecksumExact(HeaderSum(r) + ByteSum(r.bytes), ck);
  }

  lemma ChecksumExact(s: nat, ck: Byte)
    ensures (s + ck) % 256 == 0 <==> ck == (256 - s % 256) % 256
  {
  }

  lemma BaseField(line: string, r: Record)
    requires |r.bytes| == 2 && Shows(line, r, Checksum(r))
    ensures Field(line, 9, 4) == Some(BigEndian(r.bytes)) && WordSum(BigEndian(r.bytes)) == ByteSum(r.bytes)
  {
    assert ByteAt(line, 9 + 2 * 0) == Some(r.bytes[0]) && ByteAt(line, 9 + 2 * 1) == Some(r.bytes[1]);
    FourDigits(line, 9);
    TwoByteSum(r.bytes);
  }

  lemma TwoByteSum(bytes: seq<Byte>)
    requires |bytes| == 2
    ensures WordSum(BigEndian(bytes)) == ByteSum(bytes)
  {
    var high: int, low: int := bytes[0], bytes[1];
    assert bytes[..1] == [bytes[0]] && bytes[..1][..0] == [];
    assert ByteSum(bytes[..1]) == high;
    assert (256 * high + low) / 256 == high;
  }

  lemma FourDigits(line: string, at: nat)
    requires Field(line, at, 2).Some? && Field(line, at + 2, 2).Some?
    ensures Field(line, at, 4) == Some(256 * Field(line, at, 2).value + Field(line, at + 2, 2).value)
  {
    var a, b := Field(line, at, 3), Field(line, at + 2, 1);
    assert Field(line, at + 2, 0) == Some(0);
    assert b == Some(HexValue(line[at + 2]));
    assert a == Some(16 * Field(line, at, 2).value + b.value);
  }

  /** An encoded record, whatever follows it on the line, is read for what it means. */
  lemma ParseEncoded(l: Loader, r: Record, tail: string)
    requires l.ext < WORD
    ensures ParseLine(l, Encode(r) + tail) == Apply(l, r)
    ensures Encode(r) + tail != ""
  {
    EncodingShows(r, Checksum(r), tail);
    ParseShown(l, r, Encode(r) + tail);
  }

  /** A data record with any other checksum byte is refused. */
  lemma WrongChecksum(l: Loader, r: Record, ck: Byte, line: string)
    requires r.code == 0 && ck != Checksum(r) && r.addr + l.ext + |r.bytes| < WORD && Shows(line, r, ck)
    ensures ParseLine(l, line).0 == Bad && line != ""
  {
    hide ParseData, ByteAt, Field;
    WrongData(l, r, ck, line);
  }

  lemma WrongData(l: Loader, r: Record, ck: Byte, line: string)
    requires ck != Checksum(r) && Shows(line, r, ck)
    ensures ParseData(l, line, r.addr + l.ext, |r.bytes|, HeaderSum(r)).0 == Bad
  {
    hide DataLoop, Store, ByteSum, Checksum, HeaderSum;
    DataLoopWhole(l.image, line, r.addr + l.ext, r.bytes, HeaderSum(r));
    ChecksumOk(r, ck);
  }

  lemma ApplyKeepsBase(l: Loader, r: Record)
    requires l.ext < WORD
    ensures Apply(l, r).1.ext < WORD
  {
  }

  /** The lines show the records, each with its own checksum. */
  ghost predicate AllShow(lines: seq<string>, rs: seq<Record>) {
    |lines| == |rs| && forall i :: 0 <= i < |rs| ==> Shows(lines[i], rs[i], Checksum(rs[i]))
  }

  /** Reading lines that show some records is folding the meanings of the records: the last writer
      of an address wins, data counts add up, the end record stops. */
  lemma {:induction false} ReadIsFold(l: Loader, rs: seq<Record>, lines: seq<string>)
    requires AllShow(lines, rs) && l.ext < WORD
    ensures ReadLines(l, lines) == Fold(l, rs)
    decreases |rs|
  {
    hide ParseLine, Apply, Shows;
    if rs != [] {
      ParseShown(l, rs[0], lines[0]);
      ApplyKeepsBase(l, rs[0]);
      var (v, l') := Apply(l, rs[0]);
      if v == Fine && !l'.ended { ReadIsFold(l', rs[1..], lines[1..]); }
    }
  }

  lemma {:induction false} LinesShow(rs: seq<Record>, ends: seq<string>)
    requires |ends| == |rs|
    ensures AllShow(Lines(rs, ends), rs)
  {
    if rs != [] {
      EncodingShows(rs[0], Checksum(rs[0]), ends[0]);
      LinesShow(rs[1..], ends[1..]);
    }
  }

  /** One wrong data checksum after good records makes the whole reading fail. */
  lemma {:induction false} WrongChecksumFails(l: Loader, rs: seq<Record>, lines: seq<string>, r: Record, ck: Byte,
                                              line: string, rest: seq<string>)
    requires AllShow(lines, rs) && l.ext < WORD && Fold(l, rs).0 == Fine && !Fold(l, rs).1.ended && !l.ended
    requires Shows(line, r, ck) && r.code == 0 && ck != Checksum(r) && r.addr + Fold(l, rs).1.ext + |r.bytes| < WORD
    ensures ReadLines(l, lines + [line] + rest).0 == Bad
    decreases |rs|
  {
    hide ParseLine, Shows;
    var all := lines + [line] + rest;
    if rs == [] {
      WrongChecksum(l, r, ck, line);
      assert all[0] == line;
    } else {
      ParseShown(l, rs[0], lines[0]);
      ApplyKeepsBase(l, rs[0]);
      assert all[0] == lines[0] && all[1..] == lines[1..] + [line] + rest;
      WrongChecksumFails(Apply(l, rs[0]).1, rs[1..], lines[1..], r, ck, line, rest);
    }
  }

  // ---- What a fold is, address by address ---------------------------------------------------------------

  /** The base address in force before record i. */
  function Base(ext: nat, rs: seq<Record>, i: nat): nat
    requires i <= |rs|
  {
    if i == 0 then ext
    else if rs[i - 1].code == 2 && |rs[i - 1].bytes| == 2 then BigEndian(rs[i - 1].bytes) * 0x10
    else if rs[i - 1].code == 4 && |rs[i - 1].bytes| == 2 then BigEndian(rs[i - 1].bytes) * 0x1_0000
    else Base(ext, rs, i - 1)
  }

  /** The number of records before the end record, or of all if there is none. */
  function BeforeEnd(rs: seq<Record>): (n: nat)
    ensures n <= |rs|
  {
    if rs == [] || rs[0].code == 1 then 0 else 1 + BeforeEnd(rs[1..])
  }

  /** Record i is a data record with a byte for address a. */
  predicate Covers(ext: nat, rs: seq<Record>, i: nat, a: int)
    requires i < |rs|
  {
    rs[i].code == 0 && 0 <= a - (rs[i].addr + Base(ext, rs, i)) < |rs[i].bytes|
  }

  /** The last record before n with a byte for a. */
  function LastCover(ext: nat, rs: seq<Record>, n: nat, a: int): (r: Option<nat>)
    requires n <= |rs|
    ensures r.Some? ==> r.value < n && Covers(ext, rs, r.value, a)
    ensures r.Some? ==> forall j :: r.value < j < n ==> !Covers(ext, rs, j, a)
    ensures r.None? ==> forall j :: 0 <= j < n ==> !Covers(ext, rs, j, a)
  {
    if n == 0 then None else if Covers(ext, rs, n - 1, a) then Some(n - 1) else LastCover(ext, rs, n - 1, a)
  }

  function DataCount(rs: seq<Record>, n: nat): nat
    requires n <= |rs|
  {
    if n == 0 then 0 else DataCount(rs, n - 1) + if rs[n - 1].code == 0 then |rs[n - 1].bytes| else 0
  }

  lemma {:induction false} StoreAt(image: Image, base: nat, bytes: seq<Byte>, a: int)
    ensures if 0 <= a - base < |bytes|
      then a in Store(image, base, bytes) && Store(image, base, bytes)[a] == bytes[a - base]
      else a in Store(image, base, bytes) <==> a in image
    ensures !(0 <= a - base < |bytes|) && a in image ==> Store(image, base, bytes)[a] == image[a]
  {
    if bytes != [] { StoreAt(image, base, bytes[..|bytes| - 1], a); }
  }

  lemma {:induction false} BaseShift(ext: nat, rs: seq<Record>, i: nat)
    requires 1 <= i <= |rs|
    ensures Base(ext, rs, i) == Base(Base(ext, rs, 1), rs[1..], i - 1)
  {
    if i > 1 { BaseShift(ext, rs, i - 1); }
  }

  lemma {:induction false} CountShift(rs: seq<Record>, n: nat)
    requires 1 <= n <= |rs|
    ensures DataCount(rs, n) == DataCount(rs, 1) + DataCount(rs[1..], n - 1)
  {
    if n > 1 { CountShift(rs, n - 1); }
  }

  lemma {:induction false} CoverShift(ext: nat, rs: seq<Record>, n: nat, a: int)
    requires 1 <= n <= |rs|
    ensures var r := LastCover(Base(ext, rs, 1), rs[1..], n - 1, a);
      LastCover(ext, rs, n, a) ==
        if r.Some? then Some(r.value + 1) else if Covers(ext, rs, 0, a) then Some(0) else None
  {
    if n > 1 {
      BaseShift(ext, rs, n - 1);
      CoverShift(ext, rs, n - 1, a);
    }
  }

  /** The loader m is l after the first n records, as far as address a goes. */
  ghost predicate After(l: Loader, m: Loader, rs: seq<Record>, n: nat, a: int)
    requires n <= |rs|
  {
    m.count == l.count + DataCount(rs, n) && m.ext == Base(l.ext, rs, n) &&
    match LastCover(l.ext, rs, n, a)
    case Some(i) => a in m.image && m.image[a] == rs[i].bytes[a - (rs[i].addr + Base(l.ext, rs, i))]
    case None => (a in m.image <==> a in l.image) && (a in l.image ==> m.image[a] == l.image[a])
  }

  /** Last writer wins, and counts add up: after a fold that succeeds an address holds the byte that the
      last data record covering it, at its base, gives it; an address that none covers is as before; and
      the count has grown by the lengths of the data records. */
  lemma {:induction false} FoldExactly(l: Loader, rs: seq<Record>, a: int)
    requires Fold(l, rs).0 == Fine && !l.ended
    ensures After(l, Fold(l, rs).1, rs, BeforeEnd(rs), a)
    decreases |rs|
  {
    hide Apply, After, Base, DataCount, LastCover;
    if rs == [] {
      AfterNone(l, l, rs, a);
    } else {
      var (v, l') := Apply(l, rs[0]);
      ApplyFine(l, rs[0]);
      if rs[0].code == 1 {
        AfterNone(l, l', rs, a);
      } else {
        FoldExactly(l', rs[1..], a);
        AfterCons(l, l', Fold(l', rs[1..]).1, rs, BeforeEnd(rs), a);
      }
    }
  }

  lemma AfterNone(l: Loader, m: Loader, rs: seq<Record>, a: int)
    requires m.image == l.image && m.count == l.count && m.ext == l.ext
    ensures After(l, m, rs, 0, a)
  {
  }

  lemma AfterCons(l: Loader, l': Loader, m: Loader, rs: seq<Record>, n: nat, a: int)
    requires 1 <= n <= |rs| && After(l', m, rs[1..], n - 1, a) && l'.ext == Base(l.ext, rs, 1)
    requires l'.image == if rs[0].code == 0 then Store(l.image, rs[0].addr + l.ext, rs[0].bytes) else l.image
    requires l'.count == l.count + if rs[0].code == 0 then |rs[0].bytes| else 0
    ensures After(l, m, rs, n, a)
  {
    hide Store, BigEndian, LastCover, Base, DataCount, Covers;
    BaseShift(l.ext, rs, n);
    CountShift(rs, n);
    CoverShift(l.ext, rs, n, a);
    StoreAt(l.image, rs[0].addr + l.ext, rs[0].bytes, a);
    FirstRecord(l.ext, rs, a);
    var r := LastCover(l'.ext, rs[1..], n - 1, a);
    if r.Some? { BaseShift(l.ext, rs, r.value + 1); }
  }

  lemma FirstRecord(ext: nat, rs: seq<Record>, a: int)
    requires rs != []
    ensures Base(ext, rs, 0) == ext && DataCount(rs, 1) == (if rs[0].code == 0 then |rs[0].bytes| else 0)
    ensures Covers(ext, rs, 0, a) <==> rs[0].code == 0 && 0 <= a - (rs[0].addr + ext) < |rs[0].bytes|
  {
  }

  lemma ApplyFine(l: Loader, r: Record)
    ensures Apply(l, r).0 == Fine ==>
      var m := Apply(l, r).1;
      m.image == (if r.code == 0 then Store(l.image, r.addr + l.ext, r.bytes) else l.image) &&
      m.count == l.count + (if r.code == 0 then |r.bytes| else 0) &&
      m.ended == (l.ended || r.code == 1) && (r.code == 1 ==> m.ext == l.ext) &&
      forall rs: seq<Record> :: rs != [] && rs[0] == r ==> m.ext == Base(l.ext, rs, 1)
  {
    hide Store, BigEndian;
    if Apply(l, r).0 == Fine {
      forall rs: seq<Record> | rs != [] && rs[0] == r ensures Apply(l, r).1.ext == Base(l.ext, rs, 1) {
        assert Base(l.ext, rs, 0) == l.ext;
      }
    }
  }

  // ---- What every reading keeps -----------------------------------------------------------------------

  /** Images never reach the last address: the range test refuses a record that ends at it. The base
      address is a multiple of at most 0xFFFF. */
  ghost predicate BelowTop(l: Loader) {
    l.ext <= 0xFFFF_0000 && forall a :: a in l.image ==> 0 <= a < MAX_MEMORY_SIZE - 1
  }

  lemma {:induction false} DataLoopBelowTop(image: Image, line: string, base: nat, num: nat, len: nat, sum: nat)
    requires num <= len && base + len < MAX_MEMORY_SIZE
    requires forall a :: a in image ==> 0 <= a < MAX_MEMORY_SIZE - 1
    ensures forall a :: a in DataLoop(image, line, base, num, len, sum).1 ==> 0 <= a < MAX_MEMORY_SIZE - 1
    decreases len - num
  {
    if num < len && ByteAt(line, 9 + 2 * num).Some? {
      var b := ByteAt(line, 9 + 2 * num).value;
      DataLoopBelowTop(image[base + num := b], line, base, num + 1, len, sum + b);
    }
  }

  lemma ParseLineBelowTop(l: Loader, line: string)
    requires BelowTop(l)
    ensures BelowTop(ParseLine(l, line).1)
  {
    hide ParseBody, ByteAt, Field;
    var len, addr, code := ByteAt(line, 1), Field(line, 3, 4), ByteAt(line, 7);
    if len.Some? && addr.Some? && code.Some? && (addr.value + l.ext + len.value) % WORD < MAX_MEMORY_SIZE {
      ParseBodyBelowTop(l, line, len.value, addr.value, code.value);
    }
  }

  lemma BaseBelowTop(l: Loader, line: string, scale: nat, sum: nat)
    requires BelowTop(l) && (scale == 0x10 || scale == 0x1_0000)
    ensures BelowTop(ParseBase(l, line, scale, sum))
  {
    hide Field, ByteAt;
    FieldBound(line, 9, 4);
    assert Limit(4) == 0x1_0000;
    if Field(line, 9, 4).Some? { ScaleFits(Field(line, 9, 4).value, scale); }
  }

  lemma ParseBodyBelowTop(l: Loader, line: string, len: nat, addr: nat, code: nat)
    requires BelowTop(l) && (addr + l.ext + len) % WORD < MAX_MEMORY_SIZE
    ensures BelowTop(ParseBody(l, line, len, addr, code).1)
  {
    hide DataLoop, ByteAt, Field, ParseBase;
    var sum := len + WordSum(addr) + code;
    BaseBelowTop(l, line, 0x10, sum);
    BaseBelowTop(l, line, 0x1_0000, sum);
    if addr + l.ext + len < WORD {
      DataLoopBelowTop(l.image, line, addr + l.ext, 0, len, len + WordSum(addr) + code);
    }
  }

  /** For every text whatsoever, the byte at 0xFFFF is never part of the image. */
  lemma {:induction false} ReadLinesBelowTop(l: Loader, lines: seq<string>)
    requires BelowTop(l)
    ensures BelowTop(ReadLines(l, lines).1)
    decreases |lines|
  {
    if lines != [] {
      if lines[0] == "" {
        ReadLinesBelowTop(l, lines[1..]);
      } else {
        ParseLineBelowTop(l, lines[0]);
        ReadLinesBelowTop(ParseLine(l, lines[0]).1, lines[1..]);
      }
    }
  }

  /** A data record is stored, every byte inside the image, exactly when it ends below the last
      address; it is wild exactly when its address sum wraps in 32 bits. */
  lemma DataRecordExactly(l: Loader, r: Record)
    requires r.code == 0 && BelowTop(l)
    ensures Apply(l, r).0 == Fine <==> r.addr + l.ext + |r.bytes| < MAX_MEMORY_SIZE
    ensures Apply(l, r).0 == Wild <==> r.addr + l.ext + |r.bytes| >= WORD
  {
    var end := r.addr + l.ext + |r.bytes|;
    if end >= WORD { assert end % WORD == end - WORD; }
  }

  // ---- A reference encoding -----------------------------------------------------------------------------

  /** One data record per masked address from a up to n, then the end record. */
  function ImageRecords(image: Image, a: nat, n: nat): seq<Record>
    requires n < MAX_MEMORY_SIZE
    decreases n - a
  {
    if a >= n then [Record(1, 0, [])]
    else (if a in image then [Record(0, a, [image[a]])] else []) + ImageRecords(image, a + 1, n)
  }

  /** The part of an image below address a. */
  function Part(image: Image, a: int): Image { map x | x in image && x < a :: image[x] }

  lemma PartNext(image: Image, a: int)
    ensures a in image ==> a !in Part(image, a) && Part(image, a + 1) == Part(image, a)[a := image[a]]
    ensures a in image ==> |Part(image, a + 1)| == |Part(image, a)| + 1
    ensures a !in image ==> Part(image, a + 1) == Part(image, a)
  {
  }

  lemma ApplyByte(l: Loader, a: nat, b: Byte)
    requires a < MAX_MEMORY_SIZE - 1 && l.ext == 0
    ensures Apply(l, Record(0, a, [b])) == (Fine, l.(image := l.image[a := b], count := l.count + 1))
  {
    var r: Record := Record(0, a, [b]);
    assert r.bytes[..0] == [];
    assert Store(l.image, a, r.bytes) == l.image[a := b];
  }

  /** The reader after the records of all addresses below a. */
  function Halfway(image: Image, a: int): Loader { Loader(Part(image, a), |Part(image, a)|, 0, false) }

  lemma {:induction false} FoldImage(image: Image, a: nat, n: nat)
    requires n < MAX_MEMORY_SIZE && a <= n && forall x :: x in image ==> 0 <= x < n
    ensures Fold(Halfway(image, a), ImageRecords(image, a, n)) == (Fine, Loader(image, |image|, 0, true))
    decreases n - a
  {
    hide Fold, Apply, Part;
    if a == n {
      WholePart(image, n);
      EndRecord(Halfway(image, a));
    } else {
      FoldImageStep(image, a, n);
      FoldImage(image, a + 1, n);
    }
  }

  lemma WholePart(image: Image, n: int)
    requires forall x :: x in image ==> x < n
    ensures Part(image, n) == image
  {
  }

  lemma FoldImageStep(image: Image, a: nat, n: nat)
    requires a < n < MAX_MEMORY_SIZE
    ensures Fold(Halfway(image, a), ImageRecords(image, a, n)) ==
      Fold(Halfway(image, a + 1), ImageRecords(image, a + 1, n))
  {
    hide Fold, Apply;
    var rs := ImageRecords(image, a, n);
    PartNext(image, a);
    if a in image {
      assert rs[0] == Record(0, a, [image[a]]) && rs[1..] == ImageRecords(image, a + 1, n);
      ApplyByte(Halfway(image, a), a, image[a]);
      FoldCons(Halfway(image, a), rs, Halfway(image, a + 1));
    } else {
      assert rs == ImageRecords(image, a + 1, n);
    }
  }

  lemma FoldCons(l: Loader, rs: seq<Record>, l': Loader)
    requires rs != [] && Apply(l, rs[0]) == (Fine, l') && !l'.ended
    ensures Fold(l, rs) == Fold(l', rs[1..])
  {
  }

  lemma EndRecord(l: Loader)
    requires l.ext == 0
    ensures Fold(l, [Record(1, 0, [])]) == (Fine, l.(ended := true))
  {
    var end: Record := Record(1, 0, []);
    assert Apply(l, end) == (Fine, l.(ended := true));
  }

  /** Every image below the last address has a text that reads back as exactly that image, with
      the number of its bytes as the result. */
  lemma ImageRoundTrip(image: Image, n: nat, ends: seq<string>)
    requires n < MAX_MEMORY_SIZE && forall x :: x in image ==> 0 <= x < n
    requires |ends| == |ImageRecords(image, 0, n)|
    ensures ReadLines(EMPTY, Lines(ImageRecords(image, 0, n), ends)) == (Fine, Loader(image, |image|, 0, true))
  {
    hide ReadLines, Lines, Fold, ImageRecords, Shows;
    LinesShow(ImageRecords(image, 0, n), ends);
    ReadIsFold(EMPTY, ImageRecords(image, 0, n), Lines(ImageRecords(image, 0, n), ends));
    assert Part(image, 0) == map[];
    assert Halfway(image, 0) == EMPTY;
    FoldImage(image, 0, n);
  }
}
