/** The parser of tools/build.c in its own form: a fixed array of records, never set before the first
    use, changed in place while the NUL-terminated text is scanned. Every method is tied to the machine
    of module Json. Parsing and visiting stay within bounds whatever the text and whatever the records
    held; printing does unless the root is a bare scalar. */
module JsonParser {
  import opened Options
  import opened Json
  import opened JsonScan
  import opened JsonCursor
  import opened JsonAnyText
  import opened JsonRoot
  import opened JsonDump
  import opened JsonDumpEnds

  class Parser {
    const buf: array<char>
    const stack: array<Obj>
    var log: seq<Entry>
    var out: string

    /** A text in memory, and records as they come. */
    constructor (text: string, records: array<Obj>)
      requires records.Length == MAX_DEPTH + 2
      ensures Valid() && fresh(buf) && stack == records && Text() == text && log == [] && out == ""
    {
      buf := new char[|text| + 1](i => if 0 <= i < |text| then text[i] else '\0');
      stack := records;
      log, out := [], "";
    }

    ghost predicate Valid()
      reads buf
    {
      stack.Length == MAX_DEPTH + 2 && buf.Length >= 1 && buf[buf.Length - 1] == '\0'
    }

    /** The text, without its terminating NUL. */
    ghost function Text(): string
      requires buf.Length >= 1
      reads buf
    {
      buf[..buf.Length - 1]
    }

    ghost function Records(): Stack
      requires stack.Length == MAX_DEPTH + 2
      reads stack
    {
      stack[..]
    }

    /** No name or value of the records up to k reaches past the text. */
    ghost predicate Safe(k: nat)
      requires k <= MAX_DEPTH + 1
      reads buf, stack
    {
      Valid() && Bounded(stack[..], k, |Text()|)
    }

    /** The machine of module Json for the locals of json__get. */
    ghost function Now(cur: nat, i: nat, nameStart: nat, nameEnd: nat): Machine
      requires stack.Length == MAX_DEPTH + 2
      reads stack
    {
      Machine(stack[..], cur, i, nameStart, nameEnd)
    }

    /** The records and locals are those of the outcome of a turn. */
    ghost predicate After(t: Turn, failed: bool, cur: nat, i: nat, nameStart: nat, nameEnd: nat)
      requires stack.Length == MAX_DEPTH + 2
      reads stack
    {
      match t
      case Error(s) => failed && stack[..] == s
      case Ok(m) => !failed && m == Machine(stack[..], cur, i, nameStart, nameEnd)
    }

    // ---- The operations on records ------------------------------------------------------------------

    method SetStateOf(k: nat, s: State)
      requires Valid() && k <= MAX_DEPTH
      modifies stack
      ensures Records() == old(Records())[k := old(stack[k]).(state := s)]
    {
      stack[k] := stack[k].(state := s);
    }

    /** json__prepare_member */
    method PrepareMember(k: nat, kind: Kind, nameStart: nat, nameEnd: nat)
      requires Valid() && k <= MAX_DEPTH
      modifies stack
      ensures Records() ==
        old(Records())[k := old(stack[k]).(childNameStart := nameStart, childNameEnd := nameEnd, childKind := kind)]
    {
      stack[k] := stack[k].(childNameStart := nameStart, childNameEnd := nameEnd, childKind := kind);
    }

    /** json__add_member */
    method Add(k: nat, kind: Kind, start: nat, end: nat)
      requires Valid() && k <= MAX_DEPTH
      modifies stack
      ensures Records() == AddMember(old(Records()), k, kind, start, end)
    {
      if stack[k].childKind != Undefined && (stack[k].childKind != kind || stack[k].kind != Object) { return; }
      stack[k + 1] := stack[k + 1].(nameStart := stack[k].childNameStart, nameEnd := stack[k].childNameEnd,
                                    kind := kind,
                                    valueStart := start, valueEnd := end);
      stack[k] := stack[k].(childKind := Undefined, count := stack[k].count + 1);
      if stack[k].state == ArrayBody || stack[k].state == ArrayAfterComma {
        stack[k] := stack[k].(state := ArrayAfterMember);
      } else {
        stack[k] := stack[k].(state := ObjectAfterMember);
      }
    }

    /** json__push, with the kind and state its caller then sets. */
    method PushRecord(k: nat, offset: nat, kind: Kind, ghost ns: nat, ghost ne: nat) returns (failed: bool, cur: nat)
      requires Valid() && k <= MAX_DEPTH && IsContainer(kind)
      modifies stack
      ensures After(Push(old(Now(k, offset, ns, ne)), kind), failed, cur, offset, ns, ne)
    {
      failed, cur := k >= MAX_DEPTH, k;
      if failed { return; }
      var named := stack[k].childKind != Undefined;
      stack[k + 1] := Obj(if kind == Object then ObjectBody else ArrayBody, 0, 0, Undefined, kind,
                          if named then stack[k].childNameStart else 0, if named then stack[k].childNameEnd else 0,
                          offset + 1, 0, 0);
      stack[k] := stack[k].(count := stack[k].count + 1, childKind := Undefined);
      cur := k + 1;
    }

    /** json__pop */
    method PopRecord(k: nat, offset: nat) returns (failed: bool, cur: nat)
      requires Valid() && k <= MAX_DEPTH
      modifies stack
      ensures failed <==> k < 1
      ensures cur == if failed then k else k - 1
      ensures failed ==> Records() == old(Records())
      ensures !failed ==>
        Records() == old(Records())[k := old(stack[k]).(valueEnd := if offset > 0 then offset - 1 else WRAP)]
    {
      failed, cur := k < 1, k;
      if failed { return; }
      stack[k] := stack[k].(valueEnd := if offset > 0 then offset - 1 else WRAP);
      cur := k - 1;
    }

    // ---- The cases of the switch ----------------------------------------------------------------------

    method Open(k: nat, i: nat, ns: nat, ne: nat, kind: Kind) returns (failed: bool, cur: nat)
      requires Valid() && k <= MAX_DEPTH && IsContainer(kind)
      modifies stack
      ensures After(OpenBracket(old(Now(k, i, ns, ne)), kind), failed, cur, i, ns, ne)
    {
      failed, cur := true, k;
      var state := stack[k].state;
      if state == Init {
        if kind == Array { return; }
        SetStateOf(k, ObjectAfterMember);
      } else if state == ObjectAfterColon {
        PrepareMember(k, kind, ns, ne);
        SetStateOf(k, ObjectAfterMember);
      } else if state == ArrayAfterComma || state == ArrayBody {
        SetStateOf(k, ArrayAfterMember);
      } else {
        return;
      }
      failed, cur := PushRecord(k, i, kind, ns, ne);
    }

    method Close(k: nat, i: nat, ns: nat, ne: nat, od: nat, kind: Kind) returns (failed: bool, cur: nat)
      requires Valid() && k <= MAX_DEPTH && IsContainer(kind)
      modifies stack
      ensures After(CloseBracket(old(Now(k, i, ns, ne)), od, kind), failed, cur, i, ns, ne)
    {
      failed, cur := true, k;
      var state := stack[k].state;
      if kind == Object {
        if state != ObjectBody && state != ObjectAfterMember && state != ObjectAfterComma { return; }
      } else {
        if state != ArrayBody && state != ArrayAfterMember && state != ArrayAfterComma { return; }
      }
      failed, cur := PopRecord(k, i);
      if !failed && cur < od { SetStateOf(cur, End); }
    }

    method AtComma(k: nat, i: nat, ns: nat, ne: nat) returns (failed: bool)
      requires Valid() && k <= MAX_DEPTH
      modifies stack
      ensures After(Comma(old(Now(k, i, ns, ne))), failed, k, i, ns, ne)
    {
      failed := false;
      if stack[k].state == ArrayAfterMember {
        SetStateOf(k, ArrayAfterComma);
      } else if stack[k].state == ObjectAfterMember {
        SetStateOf(k, ObjectAfterComma);
      } else {
        failed := true;
      }
    }

    method AtColon(k: nat, i: nat, ns: nat, ne: nat) returns (failed: bool)
      requires Valid() && k <= MAX_DEPTH
      modifies stack
      ensures After(Colon(old(Now(k, i, ns, ne))), failed, k, i, ns, ne)
    {
      failed := stack[k].state != ObjectAfterName;
      if !failed { SetStateOf(k, ObjectAfterColon); }
    }

    /** The loop over a string body: it stops on its quote or at end, never past the NUL. */
    method SkipString(start: nat, end: nat) returns (i: nat)
      requires Valid() && start <= end < buf.Length
      ensures i == StringEnd(Text(), start, end)
    {
      i := start;
      while buf[i] != '"' && i < end
        invariant i < buf.Length && StringEnd(Text(), i, end) == StringEnd(Text(), start, end)
        decreases buf.Length - i
      {
        if buf[i] == '\\' {
          if buf[i + 1] == '"' || buf[i + 1] == '\\' { i := i + 1; }
        }
        i := i + 1;
      }
    }

    method AtQuote(k: nat, j: nat, ns: nat, ne: nat, end: nat) returns (failed: bool, i: nat, nameStart: nat,
                                                                        nameEnd: nat)
      requires Valid() && k <= MAX_DEPTH && j < end < buf.Length
      modifies stack
      ensures After(Quote(Text(), old(Now(k, j, ns, ne)), end), failed, k, i, nameStart, nameEnd)
    {
      i, nameStart, nameEnd := j + 1, j + 1, ne;
      var state := stack[k].state;
      if state == ObjectAfterColon { PrepareMember(k, String, ns, ne); }
      i := SkipString(i, end);
      failed := i > end;
      if failed { return; }
      nameEnd := i;
      if state == ObjectAfterColon {
        Add(k, String, nameStart, nameEnd);
        SetStateOf(k, ObjectAfterMember);
      } else if state == ObjectAfterComma {
        SetStateOf(k, ObjectAfterName);
      } else if state == ArrayBody || state == ArrayAfterComma {
        Add(k, String, nameStart, nameEnd);
        SetStateOf(k, ArrayAfterMember);
      } else if state == ObjectBody {
        SetStateOf(k, ObjectAfterName);
      } else {
        failed := true;
      }
    }

    /** The comparison with a keyword, character by character up to the first that differs. */
    method SameWord(i: nat, word: string) returns (same: bool)
      requires Valid() && i < buf.Length && forall j :: 0 <= j < |word| ==> word[j] != '\0'
      ensures same <==> Matches(Text(), i, word)
    {
      var j := 0;
      while j < |word| && buf[i + j] == word[j]
        invariant j <= |word| && i + j < buf.Length && Text()[i..i + j] == word[..j]
      {
        SliceSnoc(Text(), i, j, word);
        j := j + 1;
      }
      same := j == |word|;
      if !same && i + |word| < buf.Length { assert Text()[i..i + |word|][j] != word[j]; }
    }

    method AtWord(k: nat, j: nat, ns: nat, ne: nat, kind: Kind, word: string) returns (failed: bool, i: nat)
      requires Valid() && k <= MAX_DEPTH && j < buf.Length
      requires |word| >= 1 && forall c :: 0 <= c < |word| ==> word[c] != '\0'
      modifies stack
      ensures After(Keyword(Text(), old(Now(k, j, ns, ne)), kind, word), failed, k, i, ns, ne)
    {
      i := j;
      if stack[k].state == ObjectAfterColon { PrepareMember(k, kind, ns, ne); }
      var same := SameWord(j, word);
      failed := !same;
      if failed { return; }
      Add(k, kind, j, j + |word|);
      i := j + |word| - 1;
      SetStateOf(k, ObjectAfterMember);
    }

    method SkipDigits(start: nat) returns (i: nat)
      requires Valid() && start < buf.Length
      ensures i < buf.Length && i == Digits(Text(), start)
    {
      i := start;
      while '0' <= buf[i] <= '9'
        invariant i < buf.Length && Digits(Text(), i) == Digits(Text(), start)
        decreases buf.Length - i
      {
        i := i + 1;
      }
    }

    method SkipOne(start: nat, a: char, b: char) returns (i: nat)
      requires Valid() && start < buf.Length && a != '\0' && b != '\0'
      ensures i < buf.Length && i == Skip(Text(), start, a, b)
    {
      i := if buf[start] == a || buf[start] == b then start + 1 else start;
    }

    method SkipNumber(start: nat) returns (i: nat)
      requires Valid() && start < buf.Length
      ensures i < buf.Length && i == NumberEnd(Text(), start)
    {
      i := SkipOne(start, '-', '-');
      i := SkipDigits(i);
      i := SkipOne(i, '.', '.');
      i := SkipDigits(i);
      i := SkipOne(i, 'e', 'E');
      i := SkipOne(i, '-', '+');
      i := SkipDigits(i);
    }

    method AtNumber(k: nat, j: nat, ns: nat, ne: nat) returns (failed: bool, i: nat, nameStart: nat)
      requires Valid() && k <= MAX_DEPTH && j < buf.Length && (buf[j] == '-' || IsDigit(buf[j]))
      modifies stack
      ensures NumberEnd(Text(), j) > j
      ensures After(Numeral(Text(), old(Now(k, j, ns, ne))), failed, k, i, nameStart, ne)
    {
      hide NumberEnd, AddMember;
      NumberEndGrows(Text(), j);
      i, nameStart := j, j;
      if stack[k].state == ObjectAfterColon { PrepareMember(k, Number, ns, ne); }
      i := SkipNumber(j);
      failed := i == nameStart + 1 && buf[i - 1] == '-';
      if failed { return; }
      Add(k, Number, nameStart, i);
      i := i - 1;
      SetStateOf(k, ObjectAfterMember);
    }

    /** The switch. */
    method Switch(k: nat, j: nat, ns: nat, ne: nat, od: nat, end: nat) returns (failed: bool, cur: nat, i: nat,
                                                                                nameStart: nat, nameEnd: nat)
      requires Valid() && k <= MAX_DEPTH && j < end < buf.Length
      modifies stack
      ensures After(Token(Text(), old(Now(k, j, ns, ne)), od, end), failed, cur, i, nameStart, nameEnd)
    {
      hide OpenBracket, CloseBracket, Comma, Colon, Quote, Keyword, Numeral, NumberEnd;
      failed, cur, i, nameStart, nameEnd := false, k, j, ns, ne;
      var c := buf[j];
      if c == '{' { failed, cur := Open(k, j, ns, ne, Object); }
      else if c == '[' { failed, cur := Open(k, j, ns, ne, Array); }
      else if c == '}' { failed, cur := Close(k, j, ns, ne, od, Object); }
      else if c == ']' { failed, cur := Close(k, j, ns, ne, od, Array); }
      else if c == ',' { failed := AtComma(k, j, ns, ne); }
      else if c == ':' { failed := AtColon(k, j, ns, ne); }
      else if c == '"' { failed, i, nameStart, nameEnd := AtQuote(k, j, ns, ne, end); }
      else if IsSpace(c) { }
      else if c == 'n' { failed, i := AtWord(k, j, ns, ne, Null, "null"); }
      else if c == 't' { failed, i := AtWord(k, j, ns, ne, True, "true"); }
      else if c == 'f' { failed, i := AtWord(k, j, ns, ne, False, "false"); }
      else if c == '-' || IsDigit(c) { failed, i, nameStart := AtNumber(k, j, ns, ne); }
      else { failed := true; }
    }

    // ---- json__get and its callers --------------------------------------------------------------------

    /** json__get, in a record whose value ends within the text. */
    method Get(od: nat, child: Ret) returns (ret: Ret)
      requires Valid() && od <= MAX_DEPTH && (child.Slot? ==> child.k <= MAX_DEPTH + 1)
      requires stack[od].valueEnd < buf.Length
      modifies stack
      ensures (ret, Records()) == Json.Get(Text(), old(Records()), od, old(StartOf(Records(), od, child)))
      ensures ret.Slot? ==> ret.k <= MAX_DEPTH + 1
    {
      hide Token;
      var end := stack[od].valueEnd;
      var start;
      if child.Slot? {
        var c := stack[child.k];
        if c.kind == Object || c.kind == Array {
          start := c.valueEnd + 2;
        } else if c.kind == True || c.kind == False || c.kind == Null || c.kind == Number {
          start := c.valueEnd;
        } else {
          start := c.valueEnd + 1;
        }
      } else {
        start := stack[od].valueStart;
      }
      if od >= MAX_DEPTH { return Slot(0); }
      ret := Scan(od, start, end);
    }

    /** The loop of json__get. */
    method Scan(od: nat, start: nat, end: nat) returns (ret: Ret)
      requires Valid() && od < MAX_DEPTH && end == stack[od].valueEnd < buf.Length
      modifies stack
      ensures (ret, Records()) == Json.Get(Text(), old(Records()), od, start)
      ensures ret.Slot? ==> ret.k <= MAX_DEPTH + 1
    {
      hide Token;
      stack[od] := stack[od].(count := 0);
      var cur: nat, i: nat, ns: nat, ne: nat := od, start, 0, 0;
      ghost var m := Now(cur, i, ns, ne);
      while i < end
        invariant cur <= MAX_DEPTH && Run(Text(), Now(cur, i, ns, ne), od, end) == Run(Text(), m, od, end)
        decreases end - i
      {
        ghost var n := Now(cur, i, ns, ne);
        var failed;
        failed, cur, i, ns, ne := Switch(cur, i, ns, ne, od, end);
        if failed { return Slot(0); }
        if cur == od && stack[cur].count == 1 { return Slot(cur + 1); }
        if cur < od || stack[cur].state == End { return Nothing; }
        i := i + 1;
      }
      ret := if cur == od && stack[cur].count == 1 then Slot(cur + 1) else Nothing;
    }

    /** json__get_next */
    method Next(od: nat, child: Ret) returns (ret: Ret)
      requires Valid() && od <= MAX_DEPTH && (child.Slot? ==> child.k <= MAX_DEPTH + 1)
      requires stack[od].valueEnd < buf.Length
      modifies stack
      ensures (ret, Records()) == GetNext(Text(), old(Records()), od, child)
      ensures od >= 1 && old(Safe(od) && IsContainer(stack[od].kind) && StartOf(Records(), od, child) >= 1) ==>
        BoundedResult((ret, Records()), od, |Text()|) && Safe(od)
      ensures ret.Slot? ==> ret.k <= MAX_DEPTH + 1
    {
      hide Json.Get, Bounded;
      ghost var s := Records();
      if od >= 1 && Safe(od) && IsContainer(stack[od].kind) && StartOf(s, od, child) >= 1 {
        GetNextBounded(Text(), s, od, child);
      }
      if child.Nothing? {
        if stack[od].kind == Array {
          stack[od] := stack[od].(state := ArrayBody);
        } else if stack[od].kind == Object {
          stack[od] := stack[od].(state := ObjectBody);
        } else {
          stack[od] := stack[od].(state := Init);
        }
      }
      stack[od] := stack[od].(count := 0);
      assert stack[..] == s[od := stack[od]];
      assert StartOf(Records(), od, child) == StartOf(s, od, child);
      ret := Get(od, child);
    }

    /** json__parse */
    method ParseText() returns (ret: Ret)
      requires Valid()
      modifies stack
      ensures (ret, Records()) == Parse(Text(), old(Records())) && BoundedResult((ret, Records()), 0, |Text()|)
      ensures ret.Slot? ==> ret.k <= MAX_DEPTH + 1
    {
      hide Json.Get, Bounded;
      ghost var s := Records();
      stack[0] := stack[0].(state := Init, childKind := Undefined, kind := Undefined, nameStart := 0, nameEnd := 0,
                            valueStart := 0, valueEnd := buf.Length - 1, count := 0);
      assert stack[..] == s[0 := stack[0]];
      ParseBounded(Text(), s);
      ret := Get(0, Nothing);
    }

    // ---- json__visitor and json__dump -----------------------------------------------------------------

    /** json__parse and json__visitor on any text on which the visit ends, over records that may never
        have been set. */
    method ParseAndVisit() returns (ret: Ret)
      requires Valid()
      requires var (r, t) := Parse(Text(), Records()); r.Slot? ==> !Tops(Text(), t, r.k, |Text()| + 2)
      modifies stack, this`log
      ensures ret == Parse(Text(), old(Records())).0
      ensures ret.Slot? ==>
        var v := Visit(Text(), Parse(Text(), old(Records())).1, ret.k, |Text()| + 2);
        v.Some? && log == old(log) + v.value.0
      ensures ret.Nothing? ==> log == old(log)
    {
      hide Parse, Visit, Tops, Bounded;
      VisitorEnds(Text(), Records());
      ParseProgress(Text(), Records());
      ret := ParseText();
      if ret.Slot? {
        ContainerSafe(Records(), ret.k, |Text()|);
        Visitor(ret.k, buf.Length + 1);
      }
    }

    /** json__parse and json__dump on any text; failed stands for the exit. On a scalar root, and on no
        other, the name fields of the first record have to be within the text beforehand. */
    method ParseAndDump(copy: array<char>) returns (ret: Ret, failed: bool)
      requires Valid() && copy != buf && copy.Length >= 1
      requires ScalarFirst(Text()) ==> stack[0].childNameEnd <= |Text()|
      modifies stack, copy, this`out
      ensures ret == Parse(Text(), old(Records())).0
      ensures ret.Slot? ==>
        var d := Dump(Text(), Parse(Text(), old(Records())).1, ret.k, copy.Length, |Text()| + 2);
        d.Some? && (failed <==> d.value.Exit?) && (!failed ==> out == old(out) + d.value.text)
      ensures ret.Nothing? ==> !failed && out == old(out)
    {
      hide Parse, Dump, Bounded, ScalarFirst;
      PrinterEnds(Text(), Records(), copy.Length, |Text()| + 2);
      RootSafe(Text(), Records());
      ParseProgress(Text(), Records());
      failed := false;
      ret := ParseText();
      if ret.Slot? { failed := Printer(ret.k, copy, buf.Length + 1); }
    }

    /** json__visitor, for a visit that ends; the callback appends what it is shown to the log. */
    method Visitor(k: nat, ghost fuel: nat)
      requires Valid() && k <= MAX_DEPTH + 1 && Ready(Records(), k) && Visit(Text(), Records(), k, fuel).Some?
      requires IsContainer(stack[k].kind) ==> Safe(k)
      modifies stack, this`log
      ensures old(IsContainer(stack[k].kind)) ==> Safe(k)
      ensures var (entries, records) := Visit(Text(), old(Records()), k, fuel).value;
        log == old(log) + entries && Records() == records
      decreases fuel
    {
      hide Visit, VisitRest, GetNext, StartOf, Looping, Ready, AfterNext, Bounded, Steady, EntryOf;
      ghost var text, s := Text(), Records();
      if stack[k].kind != Object && stack[k].kind != Array {
        VisitScalar(text, s, k, fuel);
        ShowEntry(k);
        return;
      }
      VisitLoops(text, s, k, fuel);
      ghost var prev, start, f, done := s, s[k].valueStart, fuel, [];
      LoopStarts(text, s, k);
      EndBounded(s, k, |text|);
      var child := Next(k, Nothing);
      while child.Slot?
        invariant Safe(k) && Text() == text && 1 <= k < MAX_DEPTH && f > 0
        invariant (child.Slot? ==> child.k <= MAX_DEPTH + 1) && BoundedResult((child, Records()), k, |text|)
        invariant Looping(s, prev, Records(), k, child, start)
        invariant log == old(log) + done
        invariant VisitRest(text, s, k, Nothing, fuel) == Prefixed(done, AfterNext(text, Records(), k, child, f))
        decreases f
      {
        ghost var t := Records();
        LoopMember(s, prev, t, k, child, start);
        MemberSafe(t, k, child, |text|);
        AfterMember(text, t, k, child, f, done);
        VisitSteady(text, t, child.k, f - 1);
        Visitor(child.k, f - 1);
        ghost var u := Records();
        SafeBelow(t, u, k, child, |text|);
        LoopNext(text, s, prev, t, u, k, child, start);
        done := done + Visit(text, t, child.k, f - 1).value.0;
        prev, start, f := u, StartOf(u, k, child), f - 1;
        EndBounded(u, k, |text|);
        child := Next(k, child);
      }
      AfterLast(text, Records(), k, f, done);
      ShowEntry(k);
    }

    /** The callback. */
    method ShowEntry(k: nat)
      requires Valid() && k <= MAX_DEPTH + 1
      modifies this`log
      ensures log == old(log) + [EntryOf(Records(), k)]
    {
      log := log + [Entry(k, stack[k].kind, stack[k].nameStart, stack[k].nameEnd, stack[k].valueStart,
                          stack[k].valueEnd)];
    }

    /** json__copy_string; failed stands for its exit. */
    method CopyString(start: nat, end: nat, copy: array<char>) returns (failed: bool)
      requires Valid() && copy != buf && copy.Length >= 1 && end < buf.Length
      modifies copy
      ensures failed <==> Copied(Text(), start, end, copy.Length).None?
      ensures !failed ==> start <= end && end - start < copy.Length && copy[end - start] == '\0'
      ensures !failed ==> Copied(Text(), start, end, copy.Length) == Some(Shown(copy[..end - start]))
    {
      copy[0] := '\0';
      failed := end < start || end - start >= copy.Length - 1;
      if failed { return; }
      var j := start;
      while j < end
        invariant start <= j <= end && copy[..j - start] == buf[start..j]
      {
        copy[j - start] := buf[j];
        j := j + 1;
      }
      copy[end - start] := '\0';
      ghost var text := Text();
      forall i | 0 <= i < end - start ensures copy[i] == At(text, start + i) {
        assert copy[i] == copy[..end - start][i] == buf[start..end][i] == text[start + i];
      }
      assert copy[..end - start] == seq(end - start, i requires i >= 0 => At(text, start + i));
    }

    /** A %s conversion: up to the first NUL. */
    method PrintString(copy: array<char>, ghost n: nat)
      requires copy != buf && n < copy.Length && copy[n] == '\0'
      modifies this`out
      ensures out == old(out) + Shown(copy[..n])
    {
      ghost var whole := copy[..n];
      var i := 0;
      while copy[i] != '\0'
        invariant i <= n && out + Shown(whole[i..]) == old(out) + Shown(whole)
        decreases n - i
      {
        assert whole[i..][1..] == whole[i + 1..];
        out := out + [copy[i]];
        i := i + 1;
      }
      ShownStops(whole[i..]);
    }

    method Print(text: string)
      modifies this`out
      ensures out == old(out) + text
    {
      out := out + text;
    }

    method PrintSpaces(n: nat)
      modifies this`out
      ensures out == old(out) + Spaces(n)
    {
      var i := 0;
      while i < n
        invariant i <= n && out == old(out) + Spaces(i)
      {
        out := out + " ";
        i := i + 1;
        assert Spaces(i) == Spaces(i - 1) + " ";
      }
    }

    /** The name of a member, its quotes and its colon. */
    method PrintName(k: nat, copy: array<char>) returns (failed: bool)
      requires k <= MAX_DEPTH + 1 && Safe(k) && copy != buf && copy.Length >= 1
      modifies copy, this`out
      ensures failed <==> NamePart(Text(), Records()[k], k, copy.Length).None?
      ensures !failed ==> out == old(out) + NamePart(Text(), Records()[k], k, copy.Length).value
    {
      hide Copied, Spaces;
      failed := false;
      if stack[k].nameEnd > 0 {
        PrintSpaces(k);
        failed := CopyString(stack[k].nameStart, stack[k].nameEnd, copy);
        if failed { return; }
        Print("\"");
        PrintString(copy, stack[k].nameEnd - stack[k].nameStart);
        Print("\":");
        assert out == old(out) + (Spaces(k) + "\"" + Shown(copy[..stack[k].nameEnd - stack[k].nameStart]) + "\":");
      }
    }

    /** The name and value of a scalar. */
    method PrintScalar(k: nat, copy: array<char>) returns (failed: bool)
      requires k <= MAX_DEPTH + 1 && Safe(k) && copy != buf && copy.Length >= 1
      modifies copy, this`out
      ensures failed <==> DumpScalar(Text(), Records(), k, copy.Length).Exit?
      ensures !failed ==>
        DumpScalar(Text(), Records(), k, copy.Length) ==
          Printed(DumpScalar(Text(), Records(), k, copy.Length).text, Records())
      ensures !failed ==> out == old(out) + DumpScalar(Text(), Records(), k, copy.Length).text
    {
      hide Copied, NamePart, Spaces, Shown;
      failed := PrintName(k, copy);
      if failed { return; }
      var named, quoted := stack[k].nameEnd > 0, stack[k].kind == String;
      if !named { PrintSpaces(k); }
      failed := CopyString(stack[k].valueStart, stack[k].valueEnd, copy);
      if failed { return; }
      if quoted { Print("\""); }
      PrintString(copy, stack[k].valueEnd - stack[k].valueStart);
      if quoted { Print("\""); }
      ghost var text := Text();
      ScalarJoin(old(out), NamePart(text, stack[k], k, copy.Length).value, if named then "" else Spaces(k), quoted,
                 Copied(text, stack[k].valueStart, stack[k].valueEnd, copy.Length).value);
    }

    /** json__dump, where it ends; failed stands for its exit. */
    method Printer(k: nat, copy: array<char>, ghost fuel: nat) returns (failed: bool)
      requires k <= MAX_DEPTH + 1 && Safe(k) && copy != buf && copy.Length >= 1 && Ready(Records(), k)
      requires Dump(Text(), Records(), k, copy.Length, fuel).Some?
      modifies stack, copy, this`out
      ensures var d := Dump(Text(), old(Records()), k, copy.Length, fuel).value;
        (failed <==> d.Exit?) && (!failed ==> Safe(k) && out == old(out) + d.text && Records() == d.stack)
      decreases fuel, 2
    {
      hide DumpScalar, DumpMembers, NamePart, Spaces, Bounded, Ready;
      ghost var text, s := Text(), Records();
      var kind := stack[k].kind;
      if kind == String || kind == Null || kind == True || kind == False || kind == Number {
        failed := PrintScalar(k, copy);
        return;
      }
      failed := PrintName(k, copy);
      if failed { return; }
      if kind != Object && kind != Array { return true; }
      ReadyDepth(s, k);
      failed := PrintContainer(k, copy, fuel);
      DumpFramed(text, s, k, copy.Length, fuel);
      if !failed {
        Appended(old(out), NamePart(text, s[k], k, copy.Length).value,
                 Framed(s[k], k, DumpMembers(text, s, k, Nothing, copy.Length, fuel).value.text));
      }
    }

    /** A container after its name. */
    method PrintContainer(k: nat, copy: array<char>, ghost fuel: nat) returns (failed: bool)
      requires k <= MAX_DEPTH && Safe(k) && copy != buf && copy.Length >= 1 && IsContainer(stack[k].kind)
      requires Ready(Records(), k)
      requires DumpMembers(Text(), Records(), k, Nothing, copy.Length, fuel).Some?
      modifies stack, copy, this`out
      ensures var d := DumpMembers(Text(), old(Records()), k, Nothing, copy.Length, fuel).value;
        (failed <==> d.Exit?) &&
        (!failed ==> Safe(k) && out == old(out) + Framed(old(stack[k]), k, d.text) && Records() == d.stack)
      decreases fuel, 1
    {
      hide DumpMembers, Spaces, Bounded, Ready;
      var kind, named := stack[k].kind, stack[k].nameEnd > 0;
      if named { Print("\n"); }
      PrintSpaces(k);
      Print(if kind == Object then "{\n" else "[\n");
      ghost var text, s := Text(), Records();
      failed := PrintMembers(k, copy, fuel);
      if failed { return; }
      Print("\n");
      PrintSpaces(k);
      Print(if kind == Object then "}" else "]");
      FrameJoin(old(out), if named then "\n" else "", Spaces(k), if kind == Object then "{\n" else "[\n",
                DumpMembers(text, s, k, Nothing, copy.Length, fuel).value.text, if kind == Object then "}" else "]");
    }

    /** The loop of json__dump. */
    method PrintMembers(k: nat, copy: array<char>, ghost fuel: nat) returns (failed: bool)
      requires k <= MAX_DEPTH && Safe(k) && copy != buf && copy.Length >= 1 && IsContainer(stack[k].kind)
      requires Ready(Records(), k)
      requires DumpMembers(Text(), Records(), k, Nothing, copy.Length, fuel).Some?
      modifies stack, copy, this`out
      ensures var d := DumpMembers(Text(), old(Records()), k, Nothing, copy.Length, fuel).value;
        (failed <==> d.Exit?) && (!failed ==> Safe(k) && out == old(out) + d.text && Records() == d.stack)
      decreases fuel, 0
    {
      hide Dump, DumpMembers, GetNext, StartOf, Looping, Ready, DumpRest, Bounded, Steady;
      failed := false;
      ghost var text, s, limit := Text(), Records(), copy.Length;
      MembersAreRest(text, s, k, Nothing, limit, fuel);
      ReadyDepth(s, k);
      ghost var prev, start, f, done := s, s[k].valueStart, fuel, "";
      LoopStarts(text, s, k);
      EndBounded(s, k, |text|);
      var child := Next(k, Nothing);
      while child.Slot?
        invariant Safe(k) && Text() == text && f > 0 && f <= fuel
        invariant (child.Slot? ==> child.k <= MAX_DEPTH + 1) && BoundedResult((child, Records()), k, |text|)
        invariant Looping(s, prev, Records(), k, child, start)
        invariant out == old(out) + done
        invariant DumpMembers(text, s, k, Nothing, limit, fuel) ==
          Before(done, DumpRest(text, Records(), k, child, limit, f))
        decreases f
      {
        ghost var t := Records();
        LoopMember(s, prev, t, k, child, start);
        MemberSafe(t, k, child, |text|);
        RestDumped(text, t, k, child, limit, f, done);
        failed := Printer(child.k, copy, f - 1);
        if failed { return; }
        ghost var u := Records();
        NotTop(text, s, prev, t, k, child, start, limit, f - 1);
        DumpSteady(text, t, child.k, limit, f - 1);
        SafeBelow(t, u, k, child, |text|);
        LoopNext(text, s, prev, t, u, k, child, start);
        done := done + Dump(text, t, child.k, limit, f - 1).value.text;
        prev, start, f := u, StartOf(u, k, child), f - 1;
        EndBounded(u, k, |text|);
        child := Next(k, child);
        if child.Slot? {
          Print(",\n");
          done := done + ",\n";
        }
      }
      LastDumped(text, Records(), k, limit, f, done);
    }
  }

  lemma ContainerSafe(t: Stack, k: nat, n: nat)
    requires BoundedResult((Slot(k), t), 0, n) && k <= 1
    ensures IsContainer(t[k].kind) ==> Bounded(t, k, n)
  {
  }

  lemma RootSafe(text: string, s: Stack)
    requires ScalarFirst(text) ==> s[0].childNameEnd <= |text|
    ensures var (r, t) := Parse(text, s); r == Slot(1) ==> Bounded(t, 1, |text|)
  {
    hide Parse, ScalarFirst;
    RootExactly(text, s);
    ParseBounded(text, s);
  }

  /** The record handed back by a search in record k of at least 1. */
  lemma MemberSafe(t: Stack, k: nat, child: Ret, n: nat)
    requires 1 <= k <= MAX_DEPTH && BoundedResult((child, t), k, n) && child.Slot? && (child.k == 0 || child.k == k + 1)
    ensures child.k <= MAX_DEPTH + 1 && Bounded(t, child.k, n)
  {
  }

  /** After the member has been dealt with, the records up to k are still bounded. */
  lemma SafeBelow(t: Stack, u: Stack, k: nat, child: Ret, n: nat)
    requires 1 <= k <= MAX_DEPTH && Bounded(t, k, n) && child.Slot? && (child.k == 0 || child.k == k + 1)
    requires if IsContainer(t[child.k].kind) then child.k == k + 1 && Bounded(u, child.k, n) else u == t
    ensures Bounded(u, k, n)
  {
  }

  // ---- The loop over the members of a record ----------------------------------------------------------

  /** In the loop over the members of record k of s: a search from start on prev has left t. */
  ghost predicate Looping(s: Stack, prev: Stack, t: Stack, k: nat, child: Ret, start: nat) {
    1 <= k <= MAX_DEPTH && IsContainer(s[k].kind) && Ready(s, k) && SameUpTo(s, prev, k) && s[k].valueStart <= start &&
    Outcome(prev, k, start, s[k].valueEnd, (child, t)) &&
    if k == MAX_DEPTH then child == Slot(0) else child.Slot? ==> child.k <= MAX_DEPTH + 1 && start < s[k].valueEnd
  }

  lemma ReadyDepth(s: Stack, k: nat)
    requires k <= MAX_DEPTH + 1 && IsContainer(s[k].kind) && Ready(s, k)
    ensures 1 <= k <= MAX_DEPTH
  {
  }

  lemma LoopStarts(buf: string, s: Stack, k: nat)
    requires 1 <= k <= MAX_DEPTH && IsContainer(s[k].kind) && Ready(s, k)
    ensures StartOf(s, k, Nothing) == s[k].valueStart >= 1
    ensures Looping(s, s, GetNext(buf, s, k, Nothing).1, k, GetNext(buf, s, k, Nothing).0, s[k].valueStart)
  {
    hide GetNext;
    GetNextProgress(buf, s, k, Nothing);
    if k == MAX_DEPTH { TopIsEndless(buf, s, Nothing, 0); }
  }

  lemma LoopMember(s: Stack, prev: Stack, t: Stack, k: nat, child: Ret, start: nat)
    requires Looping(s, prev, t, k, child, start) && child.Slot?
    ensures child.k <= MAX_DEPTH && Ready(t, child.k) && (child.k == 0 ==> t[0].kind == Undefined)
    ensures child.k == 0 || child.k == k + 1
  {
    if k < MAX_DEPTH { MemberReady(prev, t, k, child, start, s[k].valueEnd); }
  }

  lemma LoopNext(buf: string, s: Stack, prev: Stack, t: Stack, u: Stack, k: nat, child: Ret, start: nat)
    requires Looping(s, prev, t, k, child, start) && child.Slot? && k < MAX_DEPTH && child.k <= MAX_DEPTH + 1
    requires Steady(t, u, child.k) && (!IsContainer(t[child.k].kind) ==> u == t)
    ensures StartOf(u, k, child) >= 1 && IsContainer(u[k].kind)
    ensures Looping(s, u, GetNext(buf, u, k, child).1, k, GetNext(buf, u, k, child).0, StartOf(u, k, child))
  {
    hide GetNext, Steady, Restart;
    MemberReady(prev, t, k, child, start, s[k].valueEnd);
    NextReady(prev, t, u, k, child, start, s[k].valueEnd);
    GetNextProgress(buf, u, k, child);
  }

  function Prefixed(done: seq<Entry>, v: Option<(seq<Entry>, Stack)>): Option<(seq<Entry>, Stack)> {
    match v
    case None => None
    case Some((log, u)) => Some((done + log, u))
  }

  /** What the loop still does once the next member has been fetched. */
  function AfterNext(buf: string, t: Stack, k: nat, next: Ret, fuel: nat): Option<(seq<Entry>, Stack)>
    requires k <= MAX_DEPTH && (next.Slot? ==> next.k <= MAX_DEPTH + 1) && fuel > 0
  {
    if next.Nothing? then Some(([], t)) else
    match Visit(buf, t, next.k, fuel - 1)
    case None => None
    case Some((log, u)) => Prefixed(log, VisitRest(buf, u, k, next, fuel - 1))
  }

  lemma RestIsNext(buf: string, s: Stack, k: nat, child: Ret, fuel: nat)
    requires k <= MAX_DEPTH && (child.Slot? ==> child.k <= MAX_DEPTH + 1) && VisitRest(buf, s, k, child, fuel).Some?
    ensures fuel > 0
    ensures VisitRest(buf, s, k, child, fuel) ==
      AfterNext(buf, GetNext(buf, s, k, child).1, k, GetNext(buf, s, k, child).0, fuel)
  {
    hide GetNext, Visit;
  }

  /** A visit of a container that ends is its loop, then its own callback. */
  lemma VisitLoops(buf: string, s: Stack, k: nat, fuel: nat)
    requires k <= MAX_DEPTH + 1 && IsContainer(s[k].kind) && Ready(s, k) && Visit(buf, s, k, fuel).Some?
    ensures 1 <= k < MAX_DEPTH && fuel > 0
    ensures var whole := VisitRest(buf, s, k, Nothing, fuel);
      whole.Some? && Visit(buf, s, k, fuel) == Some((whole.value.0 + [EntryOf(whole.value.1, k)], whole.value.1)) &&
      whole == Prefixed([], AfterNext(buf, GetNext(buf, s, k, Nothing).1, k, GetNext(buf, s, k, Nothing).0, fuel))
  {
    hide GetNext, VisitRest;
    if k == MAX_DEPTH { TopVisit(buf, s, fuel); }
    RestIsNext(buf, s, k, Nothing, fuel);
    var log := VisitRest(buf, s, k, Nothing, fuel).value.0;
    assert [] + log == log;
  }

  lemma AfterMember(buf: string, t: Stack, k: nat, child: Ret, fuel: nat, done: seq<Entry>)
    requires k <= MAX_DEPTH && child.Slot? && child.k <= MAX_DEPTH + 1 && fuel > 0
    requires AfterNext(buf, t, k, child, fuel).Some?
    ensures Visit(buf, t, child.k, fuel - 1).Some?
    ensures var (log, u) := Visit(buf, t, child.k, fuel - 1).value;
      fuel > 1 && Prefixed(done, AfterNext(buf, t, k, child, fuel)) ==
        Prefixed(done + log, AfterNext(buf, GetNext(buf, u, k, child).1, k, GetNext(buf, u, k, child).0, fuel - 1))
  {
    hide GetNext, Visit;
    var (log, u) := Visit(buf, t, child.k, fuel - 1).value;
    RestIsNext(buf, u, k, child, fuel - 1);
    var rest := VisitRest(buf, u, k, child, fuel - 1).value.0;
    assert done + (log + rest) == (done + log) + rest;
  }

  lemma AfterLast(buf: string, t: Stack, k: nat, fuel: nat, done: seq<Entry>)
    requires k <= MAX_DEPTH && fuel > 0
    ensures Prefixed(done, AfterNext(buf, t, k, Nothing, fuel)) == Some((done, t))
  {
    assert done + [] == done;
  }

  lemma SliceSnoc(text: string, i: nat, j: nat, word: string)
    requires i + j < |text| && j < |word| && text[i..i + j] == word[..j] && text[i + j] == word[j]
    ensures text[i..i + (j + 1)] == word[..j + 1]
  {
    assert text[i..i + (j + 1)] == text[i..i + j] + [text[i + j]];
    assert word[..j + 1] == word[..j] + [word[j]];
  }

  // ---- The loop of json__dump -------------------------------------------------------------------------

  lemma ShownStops(text: string)
    requires text != "" ==> text[0] == '\0'
    ensures Shown(text) == ""
  {
  }

  lemma Appended(o: string, a: string, b: string)
    ensures o + a + b == o + (a + b)
  {
  }

  lemma ScalarJoin(o: string, tag: string, lead: string, quoted: bool, value: string)
    ensures var q := if quoted then "\"" else "";
      o + tag + "" == o + tag &&
      o + tag + lead + q + value + q == o + (tag + lead + (if quoted then "\"" + value + "\"" else value))
    ensures !quoted ==> o + tag + lead + value == o + (tag + lead + value)
  {
  }

  /** A container as printed after its name. */
  function Framed(o: Obj, k: nat, members: string): string {
    (if o.nameEnd == 0 then "" else "\n") + Spaces(k) + (if o.kind == Object then "{\n" else "[\n") +
    members + "\n" + Spaces(k) + (if o.kind == Object then "}" else "]")
  }

  lemma FrameJoin(o: string, line: string, w: string, open: string, members: string, close: string)
    ensures o + "" == o
    ensures o + line + w + open + members + "\n" + w + close == o + (line + w + open + members + "\n" + w + close)
  {
  }

  lemma DumpFramed(buf: string, s: Stack, k: nat, limit: Size, fuel: nat)
    requires k <= MAX_DEPTH && IsContainer(s[k].kind) && NamePart(buf, s[k], k, limit).Some?
    requires DumpMembers(buf, s, k, Nothing, limit, fuel).Some?
    ensures match DumpMembers(buf, s, k, Nothing, limit, fuel).value {
      case Exit => Dump(buf, s, k, limit, fuel) == Some(Exit)
      case Printed(members, t) =>
        Dump(buf, s, k, limit, fuel) == Some(Printed(NamePart(buf, s[k], k, limit).value + Framed(s[k], k, members), t))
    }
  {
    hide DumpMembers, NamePart, Spaces;
    match DumpMembers(buf, s, k, Nothing, limit, fuel).value
    case Exit =>
    case Printed(members, t) =>
      BranchJoin(NamePart(buf, s[k], k, limit).value, if s[k].nameEnd == 0 then "" else "\n", Spaces(k),
                 if s[k].kind == Object then "{\n" else "[\n", members, if s[k].kind == Object then "}" else "]");
  }

  function Before(done: string, v: Option<Output>): Option<Output> {
    match v
    case Some(Printed(text, u)) => Some(Printed(done + text, u))
    case _ => v
  }

  /** What the loop of json__dump still does once the next member has been fetched and the comma
      before it printed. */
  function DumpRest(buf: string, t: Stack, k: nat, next: Ret, limit: Size, fuel: nat): Option<Output>
    requires k <= MAX_DEPTH && (next.Slot? ==> next.k <= MAX_DEPTH + 1) && fuel > 0
  {
    if next.Nothing? then Some(Printed("", t)) else
    match Dump(buf, t, next.k, limit, fuel - 1)
    case Some(Printed(text, u)) => Before(text, DumpMembers(buf, u, k, next, limit, fuel - 1))
    case v => v
  }

  lemma MembersAreRest(buf: string, s: Stack, k: nat, child: Ret, limit: Size, fuel: nat)
    requires k <= MAX_DEPTH && (child.Slot? ==> child.k <= MAX_DEPTH + 1)
    requires DumpMembers(buf, s, k, child, limit, fuel).Some?
    ensures fuel > 0
    ensures var (next, t) := GetNext(buf, s, k, child);
      DumpMembers(buf, s, k, child, limit, fuel) ==
        Before(if child.Slot? && next.Slot? then ",\n" else "", DumpRest(buf, t, k, next, limit, fuel))
  {
    hide GetNext, Dump;
    var (next, t) := GetNext(buf, s, k, child);
    if next.Slot? {
      match Dump(buf, t, next.k, limit, fuel - 1)
      case Some(Printed(text, u)) =>
        match DumpMembers(buf, u, k, next, limit, fuel - 1) {
          case Some(Printed(rest, v)) =>
            var comma := if child.Slot? then ",\n" else "";
            assert comma + text + rest == comma + (text + rest);
          case _ =>
        }
      case _ =>
    } else {
      assert "" + "" == "";
    }
  }

  lemma RestDumped(buf: string, t: Stack, k: nat, child: Ret, limit: Size, fuel: nat, done: string)
    requires k <= MAX_DEPTH && child.Slot? && child.k <= MAX_DEPTH + 1 && fuel > 0
    requires DumpRest(buf, t, k, child, limit, fuel).Some?
    ensures Dump(buf, t, child.k, limit, fuel - 1).Some?
    ensures match Dump(buf, t, child.k, limit, fuel - 1).value {
      case Exit => Before(done, DumpRest(buf, t, k, child, limit, fuel)) == Some(Exit)
      case Printed(text, u) =>
        var (next, v) := GetNext(buf, u, k, child);
        fuel > 1 && Before(done, DumpRest(buf, t, k, child, limit, fuel)) ==
          Before(if next.Slot? then (done + text) + ",\n" else done + text, DumpRest(buf, v, k, next, limit, fuel - 1))
    }
  {
    hide GetNext, Dump, DumpMembers;
    match Dump(buf, t, child.k, limit, fuel - 1).value
    case Exit =>
    case Printed(text, u) =>
      MembersAreRest(buf, u, k, child, limit, fuel - 1);
      var (next, v) := GetNext(buf, u, k, child);
      RestUnfold(buf, t, u, k, child, limit, fuel, text);
      BeforeTwice(done, text, DumpMembers(buf, u, k, child, limit, fuel - 1));
      if next.Slot? {
        BeforeTwice(done + text, ",\n", DumpRest(buf, v, k, next, limit, fuel - 1));
      } else {
        BeforeTwice(done + text, "", DumpRest(buf, v, k, next, limit, fuel - 1));
      }
  }

  lemma RestUnfold(buf: string, t: Stack, u: Stack, k: nat, child: Ret, limit: Size, fuel: nat, text: string)
    requires k <= MAX_DEPTH && child.Slot? && child.k <= MAX_DEPTH + 1 && fuel > 0
    requires Dump(buf, t, child.k, limit, fuel - 1) == Some(Printed(text, u))
    ensures DumpRest(buf, t, k, child, limit, fuel) == Before(text, DumpMembers(buf, u, k, child, limit, fuel - 1))
  {
    hide Dump, DumpMembers;
  }

  lemma BeforeTwice(a: string, b: string, v: Option<Output>)
    ensures Before(a, Before(b, v)) == Before(a + b, v)
    ensures b == "" ==> a + b == a
  {
    if v.Some? && v.value.Printed? {
      assert a + (b + v.value.text) == (a + b) + v.value.text;
    }
  }

  lemma LastDumped(buf: string, t: Stack, k: nat, limit: Size, fuel: nat, done: string)
    requires k <= MAX_DEPTH && fuel > 0
    ensures Before(done, DumpRest(buf, t, k, Nothing, limit, fuel)) == Some(Printed(done, t))
  {
    assert done + "" == done;
  }

  /** In record 20 the first member handed back is the first record, of no kind: json__dump exits. */
  lemma NotTop(buf: string, s: Stack, prev: Stack, t: Stack, k: nat, child: Ret, start: nat, limit: Size, fuel: nat)
    requires Looping(s, prev, t, k, child, start) && child.Slot? && child.k <= MAX_DEPTH + 1
    requires Dump(buf, t, child.k, limit, fuel).Some? && Dump(buf, t, child.k, limit, fuel).value.Printed?
    ensures k < MAX_DEPTH
  {
    hide NamePart;
    LoopMember(s, prev, t, k, child, start);
  }
}
