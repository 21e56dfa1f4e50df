/** The scanning loop crosses well-laid-out text exactly as its layout says. */
module JsonScan {
  import opened Json
  import opened JsonLayout

  // ---- Tokens -------------------------------------------------------------------------------------

  lemma MatchesAt(buf: string, i: nat, w: string, k: nat)
    requires Matches(buf, i, w) && k < |w|
    ensures At(buf, i + k) == w[k]
  {
    assert buf[i..i + |w|][k] == buf[i + k];
  }

  lemma {:induction false} StringEndAt(buf: string, s: nat, text: string, k: nat, end: nat)
    requires Matches(buf, s, text) && Is(buf, s + |text|, '"') && k <= |text| && s + |text| <= end
    requires StringEnd(text + "\"", k, |text| + 1) == |text|
    ensures StringEnd(buf, s + k, end) == s + |text|
    decreases |text| - k
  {
    var u := text + "\"";
    if k < |text| {
      MatchesAt(buf, s, text, k);
      if k + 1 < |text| { MatchesAt(buf, s, text, k + 1); }
      assert At(u, k) == At(buf, s + k) && At(u, k + 1) == At(buf, s + k + 1);
      if At(u, k) == '\\' && (At(u, k + 1) == '"' || At(u, k + 1) == '\\') {
        assert k + 2 <= |text|;
        StringEndAt(buf, s, text, k + 2, end);
      } else {
        StringEndAt(buf, s, text, k + 1, end);
      }
    }
  }

  /** The characters that may follow a value. */
  predicate IsStop(c: char) { IsSpace(c) || c == ',' || c == ']' || c == '}' }

  lemma {:induction false} DigitsAt(buf: string, s: nat, text: string, k: nat)
    requires Matches(buf, s, text) && IsStop(At(buf, s + |text|)) && k <= |text|
    ensures Digits(buf, s + k) == s + Digits(text + " ", k) && Digits(text + " ", k) <= |text|
    decreases |text| - k
  {
    var u := text + " ";
    if k < |text| {
      MatchesAt(buf, s, text, k);
      assert u[k] == text[k];
      if IsDigit(text[k]) { DigitsAt(buf, s, text, k + 1); }
    } else {
      assert u[k] == ' ';
    }
  }

  lemma SkipAt(buf: string, s: nat, text: string, k: nat, a: char, b: char)
    requires Matches(buf, s, text) && IsStop(At(buf, s + |text|)) && k <= |text|
    requires !IsStop(a) && !IsStop(b) && a != '\0' && b != '\0'
    ensures Skip(buf, s + k, a, b) == s + Skip(text + " ", k, a, b) && Skip(text + " ", k, a, b) <= |text|
  {
    var u := text + " ";
    if k < |text| {
      MatchesAt(buf, s, text, k);
      assert At(u, k) == text[k];
    } else {
      assert At(u, k) == ' ';
    }
  }

  lemma NumberEndAt(buf: string, s: nat, text: string)
    requires Matches(buf, s, text) && IsStop(At(buf, s + |text|))
    ensures NumberEnd(buf, s) == s + NumberEnd(text + " ", 0)
  {
    hide Digits, Skip, Matches;
    var u := text + " ";
    SkipAt(buf, s, text, 0, '-', '-');
    var a := Skip(u, 0, '-', '-');
    DigitsAt(buf, s, text, a);
    var b := Digits(u, a);
    SkipAt(buf, s, text, b, '.', '.');
    var c := Skip(u, b, '.', '.');
    DigitsAt(buf, s, text, c);
    var d := Digits(u, c);
    SkipAt(buf, s, text, d, 'e', 'E');
    var e := Skip(u, d, 'e', 'E');
    SkipAt(buf, s, text, e, '-', '+');
    DigitsAt(buf, s, text, Skip(u, e, '-', '+'));
  }

  // ---- Turns of the loop ----------------------------------------------------------------------------

  /** What the loop does with the outcome of a turn. */
  function Continue(buf: string, n: Machine, od: nat, end: nat): (Ret, Stack)
    requires InRange(n)
  {
    if n.cur == od && n.stack[n.cur].count == 1 then (Slot(n.cur + 1), n.stack)
    else if n.cur < od || n.stack[n.cur].state == End then (Nothing, n.stack)
    else Run(buf, n.(i := n.i + 1), od, end)
  }

  /** The loop neither returns here nor is about to. */
  ghost predicate Live(m: Machine, od: nat) {
    od <= m.cur <= MAX_DEPTH && (m.cur == od ==> m.stack[m.cur].count == 0) && m.stack[m.cur].state != End
  }

  lemma Turns(buf: string, m: Machine, n: Machine, od: nat, end: nat)
    requires InRange(m) && m.i < end && Token(buf, m, od, end) == Ok(n)
    ensures Run(buf, m, od, end) == Continue(buf, n, od, end)
    ensures Live(n, od) ==> Run(buf, m, od, end) == Run(buf, n.(i := n.i + 1), od, end)
  {
    hide Token;
  }

  /** A turn that reports an error ends the loop with the first record. */
  lemma FailsHere(buf: string, m: Machine, od: nat, end: nat)
    requires InRange(m) && m.i < end && Token(buf, m, od, end).Error?
    ensures Run(buf, m, od, end).0 == Slot(0)
  {
    hide Token;
  }

  lemma SpaceToken(buf: string, m: Machine, od: nat, end: nat)
    requires InRange(m) && IsSpace(At(buf, m.i))
    ensures Token(buf, m, od, end) == Ok(m)
  {
  }

  lemma {:induction false} SpaceRun(buf: string, m: Machine, od: nat, end: nat, w: string)
    requires Live(m, od) && Matches(buf, m.i, w) && AllSpace(w) && m.i + |w| <= end
    ensures Run(buf, m, od, end) == Run(buf, m.(i := m.i + |w|), od, end)
    decreases |w|
  {
    hide Token;
    if w != "" {
      MatchesAt(buf, m.i, w, 0);
      SpaceToken(buf, m, od, end);
      Turns(buf, m, m, od, end);
      assert buf[m.i + 1..m.i + 1 + |w[1..]|] == w[1..];
      SpaceRun(buf, m.(i := m.i + 1), od, end, w[1..]);
    } else {
      assert m.(i := m.i + |w|) == m;
    }
  }

  /** The record before the first item, or after an item. */
  predicate AtItem(o: Obj, arr: bool, first: bool) {
    o.kind == BranchKind(arr) &&
    o.state == if first then BodyState(o.kind) else if arr then ArrayAfterMember else ObjectAfterMember
  }

  /** The state in which a value may start. */
  predicate AtValue(o: Obj, arr: bool) {
    o.kind == BranchKind(arr) &&
    if arr then o.state == ArrayBody || o.state == ArrayAfterComma else o.state == ObjectAfterColon
  }

  /** Nothing but the parser state, and the announced member, of record c has changed up to c. */
  ghost predicate Kept(s: Stack, t: Stack, c: nat)
    requires c <= MAX_DEPTH + 1
  {
    (forall k :: 0 <= k < c ==> t[k] == s[k]) && SameRecord(s[c], t[c])
  }

  ghost predicate SameRecord(o: Obj, p: Obj) {
    p.kind == o.kind && p.nameStart == o.nameStart && p.nameEnd == o.nameEnd &&
    p.valueStart == o.valueStart && p.valueEnd == o.valueEnd
  }

  lemma CommaRun(buf: string, m: Machine, od: nat, end: nat, arr: bool)
    requires Live(m, od) && m.i < end && Is(buf, m.i, ',') && AtItem(m.stack[m.cur], arr, false)
    ensures var n := SetState(m, if arr then ArrayAfterComma else ObjectAfterComma).(i := m.i + 1);
      Live(n, od) && Run(buf, m, od, end) == Run(buf, n, od, end)
  {
    hide Run;
    Turns(buf, m, SetState(m, if arr then ArrayAfterComma else ObjectAfterComma), od, end);
  }

  lemma NameToken(buf: string, m: Machine, od: nat, end: nat, name: string)
    requires InRange(m) && (m.stack[m.cur].state == ObjectBody || m.stack[m.cur].state == ObjectAfterComma)
    requires Is(buf, m.i, '"') && Matches(buf, m.i + 1, name) && Is(buf, m.i + 1 + |name|, '"') && StringBody(name)
    requires m.i + 1 + |name| <= end
    ensures Token(buf, m, od, end) ==
      Ok(SetState(m.(i := m.i + 1 + |name|, nameStart := m.i + 1, nameEnd := m.i + 1 + |name|), ObjectAfterName))
  {
    StringEndAt(buf, m.i + 1, name, 0, end);
  }

  lemma ColonToken(buf: string, m: Machine, od: nat, end: nat)
    requires InRange(m) && Is(buf, m.i, ':') && m.stack[m.cur].state == ObjectAfterName
    ensures Token(buf, m, od, end) == Ok(SetState(m, ObjectAfterColon))
  {
  }

  /** A member name up to and including its colon. */
  lemma NameRun(buf: string, m: Machine, od: nat, end: nat, name: string, mid1: string)
    requires Live(m, od) && (m.stack[m.cur].state == ObjectBody || m.stack[m.cur].state == ObjectAfterComma)
    requires Is(buf, m.i, '"') && Matches(buf, m.i + 1, name) && Is(buf, m.i + 1 + |name|, '"') && StringBody(name)
    requires Matches(buf, m.i + 2 + |name|, mid1) && AllSpace(mid1) && Is(buf, m.i + 2 + |name| + |mid1|, ':')
    requires m.i + 2 + |name| + |mid1| < end
    ensures var n := SetState(m, ObjectAfterColon).(i := m.i + 3 + |name| + |mid1|, nameStart := m.i + 1,
                                                    nameEnd := m.i + 1 + |name|);
      Live(n, od) && Run(buf, m, od, end) == Run(buf, n, od, end)
  {
    hide Run, Token;
    NameToken(buf, m, od, end, name);
    var n1 := SetState(m.(i := m.i + 1 + |name|, nameStart := m.i + 1, nameEnd := m.i + 1 + |name|), ObjectAfterName);
    Turns(buf, m, n1, od, end);
    var n2 := n1.(i := n1.i + 1);
    SpaceRun(buf, n2, od, end, mid1);
    var n3 := n2.(i := n2.i + |mid1|);
    ColonToken(buf, n3, od, end);
    Turns(buf, n3, SetState(n3, ObjectAfterColon), od, end);
    assert SetState(n3, ObjectAfterColon).(i := n3.i + 1).stack == SetState(m, ObjectAfterColon).stack;
  }

  /** The machine in front of an item's value. */
  function AtHeadEnd(m: Machine, arr: bool, items: Items, first: bool): (n: Machine)
    requires InRange(m) && items.Cons?
    ensures InRange(n)
  {
    var s := if !arr then ObjectAfterColon else if first then ArrayBody else ArrayAfterComma;
    var n := SetState(m, s).(i := m.i + HeadLen(arr, items, first));
    if arr then n
    else n.(nameStart := NameStart(arr, items, m.i, first), nameEnd := NameEnd(arr, items, m.i, first))
  }

  /** The comma and the white space before an item. */
  lemma LeadRun(buf: string, m: Machine, od: nat, end: nat, arr: bool, first: bool, before: string)
    requires Live(m, od) && AtItem(m.stack[m.cur], arr, first) && (!first ==> Is(buf, m.i, ','))
    requires Matches(buf, m.i + (if first then 0 else 1), before) && AllSpace(before)
    requires m.i + (if first then 0 else 1) + |before| <= end
    ensures var s := if first then BodyState(BranchKind(arr)) else if arr then ArrayAfterComma else ObjectAfterComma;
      var n := SetState(m, s).(i := m.i + (if first then 0 else 1) + |before|);
      Live(n, od) && Run(buf, m, od, end) == Run(buf, n, od, end)
  {
    hide Token, Run;
    if first {
      assert SetState(m, BodyState(BranchKind(arr))) == m;
      SpaceRun(buf, m, od, end, before);
    } else {
      CommaRun(buf, m, od, end, arr);
      SpaceRun(buf, SetState(m, if arr then ArrayAfterComma else ObjectAfterComma).(i := m.i + 1), od, end, before);
    }
  }

  lemma HeadRun(buf: string, m: Machine, od: nat, end: nat, arr: bool, items: Items, first: bool)
    requires items.Cons? && Live(m, od) && AtItem(m.stack[m.cur], arr, first)
    requires HeadAt(buf, m.i, arr, items, first) && m.i + HeadLen(arr, items, first) <= end
    requires AllSpace(items.before) && (!arr ==> StringBody(items.name) && AllSpace(items.mid1) && AllSpace(items.mid2))
    ensures Live(AtHeadEnd(m, arr, items, first), od)
    ensures Run(buf, m, od, end) == Run(buf, AtHeadEnd(m, arr, items, first), od, end)
  {
    hide Token, Run, StringBody, AllSpace, Matches;
    LeadRun(buf, m, od, end, arr, first, items.before);
    if !arr {
      var n := SetState(m, if first then ObjectBody else ObjectAfterComma).(i := m.i + NameOffset(items, first));
      ObjectHeadRun(buf, m, n, od, end, items, first);
    }
  }

  lemma ObjectHeadRun(buf: string, m: Machine, n: Machine, od: nat, end: nat, items: Items, first: bool)
    requires items.Cons? && InRange(m) && HeadAt(buf, m.i, false, items, first)
    requires m.i + HeadLen(false, items, first) <= end
    requires n == SetState(m, if first then ObjectBody else ObjectAfterComma).(i := m.i + NameOffset(items, first))
    requires Live(n, od)
    requires StringBody(items.name) && AllSpace(items.mid1) && AllSpace(items.mid2)
    ensures Live(AtHeadEnd(m, false, items, first), od)
    ensures Run(buf, n, od, end) == Run(buf, AtHeadEnd(m, false, items, first), od, end)
  {
    hide Token, Run, StringBody, AllSpace, Matches;
    NameRun(buf, n, od, end, items.name, items.mid1);
    var q := SetState(n, ObjectAfterColon).(i := n.i + 3 + |items.name| + |items.mid1|,
                                            nameStart := n.i + 1, nameEnd := n.i + 1 + |items.name|);
    SpaceRun(buf, q, od, end, items.mid2);
    assert q.stack == AtHeadEnd(m, false, items, first).stack;
  }

  // ---- Values ---------------------------------------------------------------------------------------

  /** The machine just after a value: its record is one deeper, the enclosing one has counted it. */
  ghost predicate ValueRead(m: Machine, n: Machine, arr: bool, t: Tree) {
    InRange(m) && n.cur == m.cur && n.i + 1 == m.i + TreeLen(t) && Kept(m.stack, n.stack, m.cur) &&
    n.stack[m.cur].count == m.stack[m.cur].count + 1 && Quiet(n.stack[m.cur]) &&
    AtItem(n.stack[m.cur], arr, false) &&
    Describes(n.stack[m.cur + 1], t, m.i, if arr then 0 else m.nameStart, if arr then 0 else m.nameEnd)
  }

  /** What a member read by one token leaves, given the machine it was prepared on. */
  lemma MemberRead(m: Machine, arr: bool, t: Tree, start: nat, end: nat, i: nat, ns: nat, ne: nat)
    requires t.Scalar? && (arr ==> t.kind == String) && t.kind != Undefined && !IsContainer(t.kind)
    requires m.cur <= MAX_DEPTH && AtValue(m.stack[m.cur], arr) && Quiet(m.stack[m.cur])
    requires start == ValueStart(t, m.i) && end == ValueEnd(t, m.i) && i + 1 == m.i + TreeLen(t)
    ensures var p := Prepare(m, t.kind);
      var s := if arr then ArrayAfterMember else ObjectAfterMember;
      ValueRead(m, SetState(p.(stack := AddMember(p.stack, p.cur, t.kind, start, end), i := i, nameStart := ns,
                               nameEnd := ne), s), arr, t)
  {
  }

  lemma StringToken(buf: string, m: Machine, od: nat, end: nat, arr: bool, text: string)
    requires m.cur <= MAX_DEPTH && AtValue(m.stack[m.cur], arr) && StringBody(text)
    requires TreeAt(buf, m.i, Scalar(String, text)) && m.i + |text| + 1 <= end
    ensures var p := Prepare(m, String); var e := m.i + 1 + |text|;
      var s := if arr then ArrayAfterMember else ObjectAfterMember;
      Token(buf, m, od, end) ==
        Ok(SetState(p.(stack := AddMember(p.stack, p.cur, String, m.i + 1, e), i := e, nameStart := m.i + 1,
                       nameEnd := e), s))
  {
    StringEndAt(buf, m.i + 1, text, 0, end);
  }

  lemma NumberToken(buf: string, m: Machine, od: nat, end: nat, text: string)
    requires InRange(m) && NumberText(text) && Matches(buf, m.i, text) && IsStop(At(buf, m.i + |text|))
    ensures var p := Prepare(m, Number); var e := m.i + |text|;
      Token(buf, m, od, end) ==
        Ok(SetState(p.(stack := AddMember(p.stack, p.cur, Number, m.i, e), i := e - 1, nameStart := m.i),
                    ObjectAfterMember))
  {
    hide Digits, Skip;
    MatchesAt(buf, m.i, text, 0);
    NumberTextEnd(buf, m.i, text);
    if |text| == 1 { assert text == [text[0]]; }
  }

  lemma NumberTextEnd(buf: string, i: nat, text: string)
    requires NumberText(text) && Matches(buf, i, text) && IsStop(At(buf, i + |text|))
    ensures NumberEnd(buf, i) == i + |text|
  {
    hide NumberEnd, StringEnd;
    NumberEndAt(buf, i, text);
  }

  lemma WordToken(buf: string, m: Machine, od: nat, end: nat, kind: Kind, word: string)
    requires InRange(m) && Matches(buf, m.i, word)
    requires (kind == Null && word == "null") || (kind == True && word == "true") || (kind == False && word == "false")
    ensures var p := Prepare(m, kind); var e := m.i + |word|;
      Token(buf, m, od, end) ==
        Ok(SetState(p.(stack := AddMember(p.stack, p.cur, kind, m.i, e), i := e - 1), ObjectAfterMember))
  {
    MatchesAt(buf, m.i, word, 0);
  }

  /** The scan from i to end covers enough of the value: all of a container, and of a scalar all but
      its last character, which is read from the buffer. */
  predicate Fits(t: Tree, i: nat, end: nat) { i < end && i + TreeLen(t) <= end + (if t.Scalar? then 1 else 0) }

  lemma ScalarRun(buf: string, m: Machine, od: nat, end: nat, arr: bool, t: Tree) returns (n: Machine)
    requires t.Scalar? && TreeOk(t, m.cur + 1) && (arr ==> t.kind == String)
    requires od <= m.cur <= MAX_DEPTH && AtValue(m.stack[m.cur], arr) && Quiet(m.stack[m.cur])
    requires TreeAt(buf, m.i, t) && Fits(t, m.i, end) && IsStop(At(buf, m.i + TreeLen(t)))
    ensures ValueRead(m, n, arr, t) && InRange(n) && Run(buf, m, od, end) == Continue(buf, n, od, end)
  {
    hide Token, Run, Continue, Prepare, AddMember, SetState, ValueRead, StringEnd, NumberEnd;
    var e := ValueEnd(t, m.i);
    var p := Prepare(m, t.kind);
    var s := if arr then ArrayAfterMember else ObjectAfterMember;
    var stack := AddMember(p.stack, p.cur, t.kind, ValueStart(t, m.i), e);
    if t.kind == String {
      StringToken(buf, m, od, end, arr, t.text);
      MemberRead(m, arr, t, m.i + 1, e, e, m.i + 1, e);
      n := SetState(p.(stack := stack, i := e, nameStart := m.i + 1, nameEnd := e), s);
    } else if t.kind == Number {
      NumberToken(buf, m, od, end, t.text);
      MemberRead(m, arr, t, m.i, e, e - 1, m.i, p.nameEnd);
      n := SetState(p.(stack := stack, i := e - 1, nameStart := m.i), s);
    } else {
      WordToken(buf, m, od, end, t.kind, t.text);
      MemberRead(m, arr, t, m.i, e, e - 1, p.nameStart, p.nameEnd);
      n := SetState(p.(stack := stack, i := e - 1), s);
    }
    Turns(buf, m, n, od, end);
  }

  // ---- Containers -----------------------------------------------------------------------------------

  /** The current record is a container just opened at position i. */
  ghost predicate Inside(o: Machine, inner: bool, i: nat, ns: nat, ne: nat) {
    InRange(o) && o.i == i &&
    var r := o.stack[o.cur];
    AtItem(r, inner, true) && Quiet(r) && r.valueStart == i + 1 && r.nameStart == ns && r.nameEnd == ne
  }

  /** The machine just inside an opening bracket, and the enclosing record. */
  ghost predicate Opened(m: Machine, n: Machine, arr: bool, inner: bool) {
    m.cur < MAX_DEPTH && n.cur == m.cur + 1 && Kept(m.stack, n.stack, m.cur) &&
    n.stack[m.cur].count == m.stack[m.cur].count + 1 && Quiet(n.stack[m.cur]) && AtItem(n.stack[m.cur], arr, false) &&
    Inside(n, inner, m.i, if arr then 0 else m.nameStart, if arr then 0 else m.nameEnd)
  }

  lemma OpenToken(buf: string, m: Machine, od: nat, end: nat, arr: bool, inner: bool) returns (n: Machine)
    requires m.cur < MAX_DEPTH && AtValue(m.stack[m.cur], arr) && Quiet(m.stack[m.cur])
    requires Is(buf, m.i, if inner then '[' else '{')
    ensures Token(buf, m, od, end) == Ok(n) && Opened(m, n, arr, inner)
  {
    n := OpenBracket(m, BranchKind(inner)).m;
  }

  lemma CloseToken(buf: string, m: Machine, od: nat, end: nat, inner: bool) returns (n: Machine)
    requires od < m.cur <= MAX_DEPTH && m.i > 0
    requires AtItem(m.stack[m.cur], inner, true) || AtItem(m.stack[m.cur], inner, false)
    requires Is(buf, m.i, if inner then ']' else '}')
    ensures Token(buf, m, od, end) == Ok(n)
    ensures n == m.(stack := m.stack[m.cur := m.stack[m.cur].(valueEnd := m.i - 1)], cur := m.cur - 1)
  {
    n := CloseBracket(m, od, BranchKind(inner)).m;
  }

  /** The machine after some items, within their container. */
  ghost predicate ItemsRead(m: Machine, n: Machine, arr: bool, items: Items, first: bool) {
    InRange(m) && n.cur == m.cur && n.i == m.i + ItemsLen(arr, items, first) && Kept(m.stack, n.stack, m.cur) &&
    Quiet(n.stack[m.cur]) && AtItem(n.stack[m.cur], arr, first && items.Nil?)
  }

  /** An item taken apart: what well-formedness and position say of its pieces. */
  lemma ItemParts(buf: string, i: nat, arr: bool, items: Items, first: bool, depth: nat)
    requires items.Cons? && ItemsOk(arr, items, depth) && ItemsAt(buf, i, arr, items, first)
    ensures var v := i + HeadLen(arr, items, first); var e := v + TreeLen(items.value);
      HeadAt(buf, i, arr, items, first) && TreeAt(buf, v, items.value) && Matches(buf, e, items.after) &&
      ItemsAt(buf, e + |items.after|, arr, items.rest, false) &&
      i + ItemsLen(arr, items, first) == e + |items.after| + ItemsLen(arr, items.rest, false)
    ensures AllSpace(items.before) && AllSpace(items.after)
    ensures !arr ==> StringBody(items.name) && AllSpace(items.mid1) && AllSpace(items.mid2)
    ensures TreeOk(items.value, depth + 1) && ItemsOk(arr, items.rest, depth)
    ensures arr && items.value.Scalar? ==> items.value.kind == String
  {
    hide StringBody, TreeOk, TreeAt, HeadAt, HeadLen, TreeLen, AllSpace, Matches;
  }

  /** A value inside a container is followed by white space or a comma. */
  lemma ItemFollowed(buf: string, e: nat, arr: bool, after: string, rest: Items)
    requires Matches(buf, e, after) && AllSpace(after) && ItemsAt(buf, e + |after|, arr, rest, false)
    requires IsStop(At(buf, e + |after| + ItemsLen(arr, rest, false)))
    ensures IsStop(At(buf, e))
  {
    hide TreeAt;
    if after != "" {
      MatchesAt(buf, e, after, 0);
    } else if rest.Cons? {
      assert HeadAt(buf, e, arr, rest, false);
    }
  }

  /** In front of a value the record is ready for it. */
  lemma HeadReady(m: Machine, od: nat, arr: bool, items: Items, first: bool)
    requires items.Cons? && od <= m.cur <= MAX_DEPTH && AtItem(m.stack[m.cur], arr, first) && Quiet(m.stack[m.cur])
    ensures InRange(m)
    ensures var h := AtHeadEnd(m, arr, items, first);
      InRange(h) && h.cur == m.cur && h.i == m.i + HeadLen(arr, items, first) &&
      AtValue(h.stack[h.cur], arr) && Quiet(h.stack[h.cur]) && Kept(m.stack, h.stack, m.cur)
    ensures !arr ==> AtHeadEnd(m, arr, items, first).nameStart == NameStart(arr, items, m.i, first)
    ensures !arr ==> AtHeadEnd(m, arr, items, first).nameEnd == NameEnd(arr, items, m.i, first)
  {
  }

  /** After a value below the cursor's own level the loop goes on. */
  lemma ValueContinues(buf: string, m: Machine, n: Machine, od: nat, end: nat, arr: bool, t: Tree)
    requires od < m.cur <= MAX_DEPTH && ValueRead(m, n, arr, t)
    ensures Live(n.(i := n.i + 1), od) && InRange(n) && n.cur == m.cur && n.i + 1 == m.i + TreeLen(t)
    ensures Continue(buf, n, od, end) == Run(buf, n.(i := n.i + 1), od, end)
    ensures Kept(m.stack, n.stack, m.cur) && AtItem(n.stack[n.cur], arr, false) && Quiet(n.stack[n.cur])
  {
    hide Run;
  }

  lemma KeptTransitive(s: Stack, t: Stack, u: Stack, c: nat)
    requires c <= MAX_DEPTH + 1 && Kept(s, t, c) && Kept(t, u, c)
    ensures Kept(s, u, c)
  {
  }

  lemma ItemsJoin(m: Machine, h: Machine, v: Machine, n: Machine, arr: bool, items: Items, first: bool)
    requires items.Cons? && InRange(m) && h.cur == m.cur && Kept(m.stack, h.stack, m.cur)
    requires v.cur == m.cur && Kept(h.stack, v.stack, m.cur) && ItemsRead(v, n, arr, items.rest, false)
    requires m.i + ItemsLen(arr, items, first) == v.i + ItemsLen(arr, items.rest, false)
    ensures ItemsRead(m, n, arr, items, first)
  {
    hide ItemsLen;
    KeptTransitive(m.stack, h.stack, v.stack, m.cur);
    KeptTransitive(m.stack, v.stack, n.stack, m.cur);
  }

  lemma {:induction false} ValueRun(buf: string, m: Machine, od: nat, end: nat, arr: bool, t: Tree) returns (n: Machine)
    requires TreeOk(t, m.cur + 1) && (arr && t.Scalar? ==> t.kind == String)
    requires od <= m.cur <= MAX_DEPTH && AtValue(m.stack[m.cur], arr) && Quiet(m.stack[m.cur])
    requires TreeAt(buf, m.i, t) && Fits(t, m.i, end) && IsStop(At(buf, m.i + TreeLen(t)))
    ensures ValueRead(m, n, arr, t) && InRange(n) && Run(buf, m, od, end) == Continue(buf, n, od, end)
    decreases t, 1
  {
    if t.Scalar? {
      hide Token, Run, Continue, StringEnd, NumberEnd;
      n := ScalarRun(buf, m, od, end, arr, t);
    } else {
      hide Token, Run, Continue, ItemsOk, ItemsAt;
      var o := OpenToken(buf, m, od, end, arr, t.arr);
      Turns(buf, m, o, od, end);
      n := BranchRun(buf, o, od, end, t, m.i, if arr then 0 else m.nameStart, if arr then 0 else m.nameEnd);
      assert ValueRead(m, n, arr, t);
    }
  }

  /** A branch taken apart. */
  lemma BranchParts(buf: string, i: nat, t: Tree, depth: nat)
    requires t.Branch? && TreeOk(t, depth) && TreeAt(buf, i, t)
    ensures var j := i + 1 + ItemsLen(t.arr, t.items, true);
      ItemsOk(t.arr, t.items, depth) && ItemsAt(buf, i + 1, t.arr, t.items, true) && depth <= MAX_DEPTH &&
      AllSpace(t.tail) && Matches(buf, j, t.tail) && IsStop(At(buf, j)) &&
      Is(buf, j + |t.tail|, if t.arr then ']' else '}') && Is(buf, i, if t.arr then '[' else '{') &&
      i + TreeLen(t) == j + |t.tail| + 1
  {
    hide ItemsOk, ItemsAt, ItemsLen;
    if t.tail != "" { MatchesAt(buf, i + 1 + ItemsLen(t.arr, t.items, true), t.tail, 0); }
  }

  lemma InsideReady(o: Machine, od: nat, inner: bool, i: nat, ns: nat, ne: nat)
    requires od < o.cur && Inside(o, inner, i, ns, ne)
    ensures var m1 := o.(i := o.i + 1);
      InRange(o) && Live(m1, od) && m1.cur == o.cur && m1.i == i + 1 &&
      AtItem(m1.stack[m1.cur], inner, true) && Quiet(m1.stack[m1.cur])
  {
  }

  lemma ItemsContinue(m: Machine, n: Machine, od: nat, arr: bool, items: Items, first: bool)
    requires od < m.cur && ItemsRead(m, n, arr, items, first)
    ensures Live(n, od) && n.cur == m.cur <= MAX_DEPTH && n.i == m.i + ItemsLen(arr, items, first)
    ensures AtItem(n.stack[n.cur], arr, true) || AtItem(n.stack[n.cur], arr, false)
  {
  }

  lemma TurnsAnyway(buf: string, m: Machine, n: Machine, od: nat, end: nat)
    requires InRange(m) && m.i < end && Token(buf, m, od, end) == Ok(n)
    ensures InRange(n) && Run(buf, m, od, end) == Continue(buf, n, od, end)
  {
    hide Token;
  }

  lemma ContinueLive(buf: string, n: Machine, od: nat, end: nat)
    requires InRange(n) && Live(n.(i := n.i + 1), od)
    ensures Continue(buf, n, od, end) == Run(buf, n.(i := n.i + 1), od, end)
  {
    hide Run;
  }

  /** The container has been closed: its record describes it, the records below are untouched. */
  ghost predicate Closed(o: Machine, n: Machine, t: Tree, i: nat, ns: nat, ne: nat) {
    1 <= o.cur <= MAX_DEPTH && n.cur == o.cur - 1 && n.i + 1 == i + TreeLen(t) &&
    (forall k :: 0 <= k < o.cur ==> n.stack[k] == o.stack[k]) && Describes(n.stack[o.cur], t, i, ns, ne)
  }

  /** From just inside an opening bracket to just after the closing one. */
  lemma {:induction false} BranchRun(buf: string, o: Machine, od: nat, end: nat, t: Tree, i: nat, ns: nat,
                                     ne: nat) returns (n: Machine)
    requires t.Branch? && TreeOk(t, o.cur) && od < o.cur && Inside(o, t.arr, i, ns, ne)
    requires TreeAt(buf, i, t) && i + TreeLen(t) <= end
    ensures InRange(o) && InRange(n) && Closed(o, n, t, i, ns, ne)
    ensures Continue(buf, o, od, end) == Continue(buf, n, od, end)
    decreases t, 0
  {
    hide *;
    BranchParts(buf, i, t, o.cur);
    InsideReady(o, od, t.arr, i, ns, ne);
    ContinueLive(buf, o, od, end);
    var m1 := o.(i := o.i + 1);
    var q := ItemsRun(buf, m1, od, end, t.arr, t.items, true);
    ItemsContinue(m1, q, od, t.arr, t.items, true);
    SpaceRun(buf, q, od, end, t.tail);
    var q1 := q.(i := q.i + |t.tail|);
    LiveAnywhere(q, q1, od);
    n := CloseToken(buf, q1, od, end, t.arr);
    TurnsAnyway(buf, q1, n, od, end);
    BranchClosed(o, q, n, t, i, ns, ne);
  }

  lemma BranchClosed(o: Machine, q: Machine, n: Machine, t: Tree, i: nat, ns: nat, ne: nat)
    requires t.Branch? && Inside(o, t.arr, i, ns, ne) && o.cur >= 1
    requires ItemsRead(o.(i := o.i + 1), q, t.arr, t.items, true)
    requires n.stack == q.stack[q.cur := q.stack[q.cur].(valueEnd := q.i + |t.tail| - 1)]
    requires n.cur == q.cur - 1 && n.i == q.i + |t.tail|
    ensures Closed(o, n, t, i, ns, ne)
  {
    hide ItemsLen;
  }

  lemma {:induction false} ItemsRun(buf: string, m: Machine, od: nat, end: nat, arr: bool, items: Items,
                                    first: bool) returns (n: Machine)
    requires od < m.cur <= MAX_DEPTH && ItemsOk(arr, items, m.cur)
    requires Live(m, od) && AtItem(m.stack[m.cur], arr, first) && Quiet(m.stack[m.cur])
    requires ItemsAt(buf, m.i, arr, items, first)
    requires m.i + ItemsLen(arr, items, first) <= end && IsStop(At(buf, m.i + ItemsLen(arr, items, first)))
    ensures ItemsRead(m, n, arr, items, first) && InRange(n) && Run(buf, m, od, end) == Run(buf, n, od, end)
    decreases items, 1
  {
    hide Token, Run;
    if items.Nil? { n := m; } else { n := ItemsRunCons(buf, m, od, end, arr, items, first); }
  }

  lemma {:induction false} ItemsRunCons(buf: string, m: Machine, od: nat, end: nat, arr: bool, items: Items,
                                        first: bool) returns (n: Machine)
    requires items.Cons? && od < m.cur <= MAX_DEPTH && ItemsOk(arr, items, m.cur)
    requires Live(m, od) && AtItem(m.stack[m.cur], arr, first) && Quiet(m.stack[m.cur])
    requires ItemsAt(buf, m.i, arr, items, first)
    requires m.i + ItemsLen(arr, items, first) <= end && IsStop(At(buf, m.i + ItemsLen(arr, items, first)))
    ensures ItemsRead(m, n, arr, items, first) && InRange(n) && Run(buf, m, od, end) == Run(buf, n, od, end)
    decreases items, 0
  {
    hide *;
    ItemParts(buf, m.i, arr, items, first, m.cur);
    HeadRun(buf, m, od, end, arr, items, first);
    HeadReady(m, od, arr, items, first);
    var h := AtHeadEnd(m, arr, items, first);
    ItemFollowed(buf, h.i + TreeLen(items.value), arr, items.after, items.rest);
    ItemFits(arr, items, first, m.i, end, m.cur);
    var v := ValueRun(buf, h, od, end, arr, items.value);
    ValueContinues(buf, h, v, od, end, arr, items.value);
    var v1 := v.(i := v.i + 1);
    SpaceRun(buf, v1, od, end, items.after);
    var v2 := v1.(i := v1.i + |items.after|);
    LiveAnywhere(v1, v2, od);
    n := ItemsRun(buf, v2, od, end, arr, items.rest, false);
    ItemsJoin(m, h, v2, n, arr, items, first);
  }

  lemma ItemFits(arr: bool, items: Items, first: bool, i: nat, end: nat, depth: nat)
    requires items.Cons? && TreeOk(items.value, depth + 1) && i + ItemsLen(arr, items, first) <= end
    ensures Fits(items.value, i + HeadLen(arr, items, first), end)
  {
    TreeLenPositive(items.value, depth + 1);
  }

  lemma LiveAnywhere(m: Machine, n: Machine, od: nat)
    requires Live(m, od) && n.stack == m.stack && n.cur == m.cur
    ensures Live(n, od) && InRange(n)
  {
  }
}
