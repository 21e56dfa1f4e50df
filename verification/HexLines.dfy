/** Which lines of a HEX file are accepted, and what each of them does, written out on the characters of
    the line; and which files are refused. */
module HexLines {
  import opened Options
  import opened IntelHex

  // ---- Characters -----------------------------------------------------------------------------------

  /** The value of a hexadecimal digit. */
  function Digit(c: char): Option<nat> {
    match c
    case '0' => Some(0) case '1' => Some(1) case '2' => Some(2) case '3' => Some(3)
    case '4' => Some(4) case '5' => Some(5) case '6' => Some(6) case '7' => Some(7)
    case '8' => Some(8) case '9' => Some(9)
    case 'A' => Some(10) case 'B' => Some(11) case 'C' => Some(12)
    case 'D' => Some(13) case 'E' => Some(14) case 'F' => Some(15)
    case 'a' => Some(10) case 'b' => Some(11) case 'c' => Some(12)
    case 'd' => Some(13) case 'e' => Some(14) case 'f' => Some(15)
    case _ => None
  }

  /** A field of w hexadecimal digits stands at a position. */
  predicate HexField(line: string, at: nat, w: nat) {
    at + w <= |line| && forall i :: at <= i < at + w ==> Digit(line[i]).Some?
  }

  /** The number it shows; a character that is no digit counts as 0. */
  function Number(line: string, at: nat, w: nat): nat {
    if w == 0 then 0
    else 16 * Number(line, at, w - 1) +
         if at + w <= |line| && Digit(line[at + w - 1]).Some? then Digit(line[at + w - 1]).value else 0
  }

  /** The sum of the first n bytes behind the colon. */
  function SumOf(line: string, n: nat): nat {
    if n == 0 then 0 else SumOf(line, n - 1) + Number(line, 2 * n - 1, 2)
  }

  lemma DigitIs(c: char)
    ensures Digit(c) == if IsHex(c) then Some(HexValue(c)) else None
  {
  }

  lemma FieldSnoc(line: string, at: nat, w: nat)
    requires w > 0
    ensures HexField(line, at, w) <==>
      HexField(line, at, w - 1) && at + w <= |line| && Digit(line[at + w - 1]).Some?
  {
    hide Digit;
  }

  lemma {:induction false} FieldIs(line: string, at: nat, w: nat)
    ensures w > 0 || at <= |line| ==>
      Field(line, at, w) == if HexField(line, at, w) then Some(Number(line, at, w)) else None
  {
    hide IsHex, HexValue, Digit, HexField;
    if w > 0 {
      FieldIs(line, at, w - 1);
      FieldSnoc(line, at, w);
      if at + w <= |line| { DigitIs(line[at + w - 1]); }
      NoField(line, at);
    } else {
      NoField(line, at);
    }
  }

  lemma NoField(line: string, at: nat)
    ensures HexField(line, at, 0) <==> at <= |line|
  {
  }

  lemma ByteIs(line: string, at: nat)
    ensures ByteAt(line, at).Some? <==> HexField(line, at, 2)
    ensures HexField(line, at, 2) ==> ByteAt(line, at).value == Number(line, at, 2) < 256
  {
    FieldIs(line, at, 2);
  }

  lemma SplitField(line: string, at: nat, v: nat, w: nat)
    ensures HexField(line, at, v + w) <==> HexField(line, at, v) && HexField(line, at + v, w)
  {
    hide Digit;
    if HexField(line, at, v) && HexField(line, at + v, w) {
      forall i | at <= i < at + (v + w) ensures Digit(line[i]).Some? { }
    }
  }

  // ---- One line -------------------------------------------------------------------------------------

  function Len(line: string): nat { Number(line, 1, 2) }

  function Addr(line: string): nat { Number(line, 3, 4) }

  function Code(line: string): nat { Number(line, 7, 2) }

  /** A colon; length, address and type in hexadecimal; room for the bytes announced and a checksum; and
      an end below 64K, in 32-bit arithmetic. */
  predicate Header(l: Loader, line: string) {
    |line| >= 11 && line[0] == ':' && HexField(line, 1, 8) && |line| >= 11 + 2 * Len(line) &&
    (Addr(line) + l.ext + Len(line)) % 0x1_0000_0000 < 0x1_0000
  }

  /** The bytes announced and the checksum are hexadecimal, and all bytes of the line sum to 0 modulo 256. */
  predicate Checked(line: string) {
    HexField(line, 9, 2 * Len(line) + 2) && SumOf(line, Len(line) + 5) % 256 == 0
  }

  /** What is returned for a line. */
  function Judge(l: Loader, line: string): Verdict {
    if !Header(l, line) then Bad
    else if Code(line) != 0 then Fine
    else if Addr(line) + l.ext + Len(line) >= 0x1_0000_0000 then Wild
    else if Checked(line) then Fine
    else Bad
  }

  /** The image after a data line: its bytes at their addresses, all else as before. */
  ghost predicate Stored(l: Loader, m: Loader, line: string) {
    forall a :: var i := a - (Addr(line) + l.ext);
      if 0 <= i < Len(line) then a in m.image && m.image[a] == Number(line, 9 + 2 * i, 2)
      else (a in m.image <==> a in l.image) && (a in l.image ==> m.image[a] == l.image[a])
  }

  /** What an accepted line does. Lines of type 2 and 4 with a wrong checksum change nothing, nor do lines
      of any other type but 0 and 1. */
  ghost predicate Does(l: Loader, m: Loader, line: string) {
    if Code(line) == 0 then Stored(l, m, line) && m.count == l.count + Len(line) && m.ext == l.ext && m.ended == l.ended
    else if Code(line) == 1 then m == l.(ended := true)
    else if Code(line) == 2 && Len(line) == 2 && Checked(line) then m == l.(ext := Number(line, 9, 4) * 16)
    else if Code(line) == 4 && Len(line) == 2 && Checked(line) then m == l.(ext := Number(line, 9, 4) * 65536)
    else m == l
  }

  lemma TwoBytes(line: string, at: nat)
    requires HexField(line, at, 4)
    ensures HexField(line, at, 2) && HexField(line, at + 2, 2)
    ensures Number(line, at, 4) == 256 * Number(line, at, 2) + Number(line, at + 2, 2) < 0x1_0000
    ensures WordSum(Number(line, at, 4)) == Number(line, at, 2) + Number(line, at + 2, 2)
  {
    hide Digit, Number;
    SplitField(line, at, 2, 2);
    FieldIs(line, at, 4);
    FieldIs(line, at, 2);
    FieldIs(line, at + 2, 2);
    FourDigits(line, at);
    ByteIs(line, at);
    ByteIs(line, at + 2);
    WordOfBytes(Number(line, at, 2), Number(line, at + 2, 2));
  }

  lemma WordOfBytes(h: nat, b: nat)
    requires h < 256 && b < 256
    ensures WordSum(256 * h + b) == h + b && 256 * h + b < 0x1_0000
  {
    assert (256 * h + b) / 256 == h;
  }

  /** The header of a line as the parser reads it. */
  lemma HeaderIs(line: string)
    requires |line| >= 11
    ensures HexField(line, 1, 8) <==> ByteAt(line, 1).Some? && Field(line, 3, 4).Some? && ByteAt(line, 7).Some?
    ensures HexField(line, 1, 8) ==>
      ByteAt(line, 1) == Some(Len(line)) && Field(line, 3, 4) == Some(Addr(line)) &&
      ByteAt(line, 7) == Some(Code(line)) &&
      SumOf(line, 4) == Len(line) + WordSum(Addr(line)) + Code(line)
    ensures ByteAt(line, 1).Some? ==> ByteAt(line, 1).value == Len(line)
  {
    hide Digit, Number, HexField;
    SplitField(line, 1, 2, 6);
    SplitField(line, 3, 4, 2);
    ByteIs(line, 1);
    ByteIs(line, 7);
    FieldIs(line, 3, 4);
    if HexField(line, 3, 4) {
      TwoBytes(line, 3);
      HeaderSumIs(line);
    }
  }

  lemma HeaderSumIs(line: string)
    ensures SumOf(line, 4) == Number(line, 1, 2) + Number(line, 3, 2) + Number(line, 5, 2) + Number(line, 7, 2)
  {
    hide Number;
    assert SumOf(line, 1) == Number(line, 1, 2) && SumOf(line, 0) == 0;
    assert SumOf(line, 2) == SumOf(line, 1) + Number(line, 3, 2);
    assert SumOf(line, 3) == SumOf(line, 2) + Number(line, 5, 2);
  }

  /** The data loop, from byte num on. */
  lemma {:induction false} LoopIs(image: Image, line: string, base: nat, num: nat, len: nat, sum: nat)
    requires num <= len && 9 + 2 * num <= |line|
    ensures var (ok, m, total) := DataLoop(image, line, base, num, len, sum);
      (ok <==> HexField(line, 9 + 2 * num, 2 * (len - num))) &&
      (ok ==> total + SumOf(line, num + 4) == sum + SumOf(line, len + 4)) &&
      (ok ==> forall a ::
        if num <= a - base < len then a in m && m[a] == Number(line, 9 + 2 * (a - base), 2)
        else (a in m <==> a in image) && (a in image ==> m[a] == image[a]))
    decreases len - num
  {
    hide Digit, Number, HexField;
    if num < len {
      var at := 9 + 2 * num;
      ByteIs(line, at);
      SplitField(line, at, 2, 2 * (len - num) - 2);
      if HexField(line, at, 2) {
        FieldWithin(line, at, 2);
        var b := ByteAt(line, at).value;
        LoopIs(image[base + num := b], line, base, num + 1, len, sum + b);
        assert SumOf(line, num + 5) == SumOf(line, num + 4) + Number(line, 9 + 2 * num, 2);
      }
    } else {
      EmptyField(line, 9 + 2 * num);
    }
  }

  lemma FieldWithin(line: string, at: nat, w: nat)
    requires HexField(line, at, w)
    ensures at + w <= |line|
  {
  }

  lemma EmptyField(line: string, at: nat)
    requires at <= |line|
    ensures HexField(line, at, 0)
  {
  }

  lemma DataIs(l: Loader, line: string)
    requires |line| >= 11 + 2 * Len(line)
    ensures var (v, m) := ParseData(l, line, Addr(line) + l.ext, Len(line), SumOf(line, 4));
      v == (if Checked(line) then Fine else Bad) &&
      (v == Fine ==> Stored(l, m, line) && m.count == l.count + Len(line) && m.ext == l.ext && m.ended == l.ended)
  {
    hide Digit, Number, HexField, DataLoop;
    var n := Len(line);
    LoopIs(l.image, line, Addr(line) + l.ext, 0, n, SumOf(line, 4));
    SplitField(line, 9, 2 * n, 2);
    ByteIs(line, 9 + 2 * n);
    assert SumOf(line, n + 5) == SumOf(line, n + 4) + Number(line, 9 + 2 * n, 2);
  }

  lemma BaseIs(l: Loader, line: string, scale: nat)
    requires |line| >= 11 + 2 * Len(line) && Len(line) == 2 && (scale == 0x10 || scale == 0x1_0000)
    ensures ParseBase(l, line, scale, SumOf(line, 4)) ==
      if Checked(line) then l.(ext := Number(line, 9, 4) * scale) else l
  {
    hide Digit, Number, HexField;
    SplitField(line, 9, 4, 2);
    FieldIs(line, 9, 4);
    ByteIs(line, 13);
    if HexField(line, 9, 4) {
      TwoBytes(line, 9);
      BaseSumIs(line);
      ScaleFits(Number(line, 9, 4), scale);
    }
  }

  lemma BaseSumIs(line: string)
    ensures SumOf(line, 7) == SumOf(line, 4) + Number(line, 9, 2) + Number(line, 11, 2) + Number(line, 13, 2)
  {
    hide Number;
    assert SumOf(line, 5) == SumOf(line, 4) + Number(line, 9, 2);
    assert SumOf(line, 6) == SumOf(line, 5) + Number(line, 11, 2);
  }

  /** Every line whatsoever: what parse_hex_line returns for it, and what it does if it is accepted. */
  lemma LineExactly(l: Loader, line: string)
    ensures ParseLine(l, line).0 == Judge(l, line)
    ensures Judge(l, line) == Fine ==> Does(l, ParseLine(l, line).1, line)
  {
    hide Digit, Number, HexField, ParseData, ParseBase, ByteAt, Field, Checked, Stored, SumOf;
    if |line| >= 11 {
      HeaderIs(line);
      if |line| >= 11 + 2 * Len(line) {
        DataIs(l, line);
        if Len(line) == 2 {
          BaseIs(l, line, 0x10);
          BaseIs(l, line, 0x1_0000);
        }
      }
    }
  }

  // ---- Whole files ------------------------------------------------------------------------------------

  /** The reading of the lines before i has gone well and not come to an end record, and line i is
      neither empty nor acceptable. */
  ghost predicate RefusedAt(l: Loader, lines: seq<string>, i: nat) {
    i < |lines| &&
    var (v, m) := ReadLines(l, lines[..i]);
    v == Fine && !m.ended && lines[i] != "" && Judge(m, lines[i]) != Fine
  }

  lemma RefusedShift(l: Loader, m: Loader, lines: seq<string>, i: nat)
    requires lines != [] && !m.ended
    requires if lines[0] == "" then m == l else ParseLine(l, lines[0]) == (Fine, m)
    ensures RefusedAt(l, lines, i + 1) <==> RefusedAt(m, lines[1..], i)
  {
    hide ParseLine, Judge;
    if i + 1 < |lines| {
      var p := lines[..i + 1];
      assert p[0] == lines[0] && p[1..] == lines[1..][..i];
    }
  }

  /** A file is refused if and only if it holds, before any end record and behind acceptable lines only,
      a line that is neither empty nor acceptable. */
  lemma {:induction false} ReadFailsExactly(l: Loader, lines: seq<string>)
    requires !l.ended
    ensures ReadLines(l, lines).0 != Fine <==> exists i: nat :: RefusedAt(l, lines, i)
    decreases |lines|
  {
    hide ParseLine, Judge;
    if lines != [] {
      LineExactly(l, lines[0]);
      var m := if lines[0] == "" then l else ParseLine(l, lines[0]).1;
      assert lines[..0] == [];
      if lines[0] != "" && Judge(l, lines[0]) != Fine {
        assert RefusedAt(l, lines, 0);
      } else if m.ended {
        forall i: nat ensures !RefusedAt(l, lines, i) { EndedStays(l, lines, i); }
      } else {
        ReadFailsExactly(m, lines[1..]);
        assert !RefusedAt(l, lines, 0);
        if i: nat :| RefusedAt(l, lines, i) {
          RefusedShift(l, m, lines, i - 1);
          assert RefusedAt(m, lines[1..], i - 1);
        }
        if i: nat :| RefusedAt(m, lines[1..], i) {
          RefusedShift(l, m, lines, i);
          assert RefusedAt(l, lines, i + 1);
        }
      }
    }
  }

  lemma EndedStays(l: Loader, lines: seq<string>, i: nat)
    requires lines != [] && lines[0] != "" && ParseLine(l, lines[0]).0 == Fine && ParseLine(l, lines[0]).1.ended
    requires Judge(l, lines[0]) == Fine
    ensures !RefusedAt(l, lines, i)
  {
    hide ParseLine, Judge;
    if 0 < i < |lines| { assert lines[..i][0] == lines[0]; } else if i == 0 { assert lines[..0] == []; }
  }

  // ---- Files that are refused ---------------------------------------------------------------------------

  /** A line without a colon, with a character that is no digit where one belongs, or too short for the
      bytes it announces, is never accepted. */
  lemma MalformedLines(l: Loader, line: string)
    requires |line| < 11 + 2 * Len(line) || line[0] != ':' || exists i :: 1 <= i < 9 && Digit(line[i]).None?
    ensures Judge(l, line) == Bad
  {
    hide Digit, Number;
  }

  /** A text file that is no HEX file. */
  lemma HelloWorld()
    ensures ReadLines(EMPTY, ["hello world\n"]).0 == Bad
  {
    hide ParseLine;
    LineExactly(EMPTY, "hello world\n");
  }
}
