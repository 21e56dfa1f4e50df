/** What the parser does with any text at all, well formed or not: every json__get_next makes
    progress inside its container, so json__visitor ends unless it enters a container in record 20. */
module JsonAnyText {
  import opened Options
  import opened Json
  import opened JsonScan
  import opened JsonCursor

  // ---- One turn -------------------------------------------------------------------------------------

  /** Kind, name and value of every record up to c are the same. */
  ghost predicate SameUpTo(s: Stack, t: Stack, c: int)
    requires c <= MAX_DEPTH + 1
  {
    forall j :: 0 <= j <= c ==> SameRecord(s[j], t[j])
  }

  /** A scalar member whose text ends after position i. */
  ghost predicate ScalarAfter(o: Obj, i: nat) { IsScalarKind(o.kind) && Restart(o) > i }

  /** The current record stays; it may have got one more member, a scalar. */
  ghost predicate Stays(m: Machine, n: Machine) {
    InRange(m) && n.cur == m.cur && n.i >= m.i && Kept(m.stack, n.stack, m.cur) &&
    (n.stack[m.cur].count == m.stack[m.cur].count ||
     (n.stack[m.cur].count == m.stack[m.cur].count + 1 && ScalarAfter(n.stack[m.cur + 1], m.i)))
  }

  /** A record is opened one deeper, as the next member. */
  ghost predicate Opens(m: Machine, n: Machine) {
    m.cur < MAX_DEPTH && n.cur == m.cur + 1 && n.i == m.i && Kept(m.stack, n.stack, m.cur) &&
    n.stack[m.cur].count == m.stack[m.cur].count + 1 &&
    IsContainer(n.stack[n.cur].kind) && n.stack[n.cur].valueStart == m.i + 1
  }

  /** The current record is closed: only the end of its value, and parser states, are new. */
  ghost predicate Closes(m: Machine, n: Machine) {
    1 <= m.cur <= MAX_DEPTH && n.cur == m.cur - 1 && n.i == m.i && Kept(m.stack, n.stack, n.cur) &&
    n.stack[n.cur].count == m.stack[n.cur].count &&
    n.stack[m.cur].(valueEnd := 0) == m.stack[m.cur].(valueEnd := 0) && (m.i > 0 ==> n.stack[m.cur].valueEnd == m.i - 1)
  }

  lemma PushOpens(m: Machine, kind: Kind)
    requires InRange(m) && IsContainer(kind)
    ensures match Push(m, kind) { case Error(s) => s == m.stack case Ok(n) => Opens(m, n) }
  {
  }

  lemma OpenEffect(m: Machine, kind: Kind)
    requires InRange(m) && IsContainer(kind)
    ensures match OpenBracket(m, kind) { case Error(s) => Kept(m.stack, s, m.cur) case Ok(n) => Opens(m, n) }
  {
    hide Push;
    PushOpens(SetState(m, ObjectAfterMember), kind);
    PushOpens(SetState(Prepare(m, kind), ObjectAfterMember), kind);
    PushOpens(SetState(m, ArrayAfterMember), kind);
  }

  lemma CloseEffect(m: Machine, od: nat, kind: Kind)
    requires InRange(m)
    ensures match CloseBracket(m, od, kind) { case Error(s) => s == m.stack case Ok(n) => Closes(m, n) }
  {
  }

  lemma AddEffect(m: Machine, kind: Kind, start: nat, end: nat, i: nat, state: State, ns: nat, ne: nat)
    requires InRange(m) && i >= m.i && IsScalarKind(kind) && (if kind == String then end >= m.i else end > m.i)
    ensures var p := Prepare(m, kind);
      Stays(m, SetState(p.(stack := AddMember(p.stack, p.cur, kind, start, end), i := i, nameStart := ns,
                           nameEnd := ne), state))
  {
  }

  lemma QuoteEffect(buf: string, m: Machine, end: nat)
    requires InRange(m)
    ensures match Quote(buf, m, end) { case Error(s) => Kept(m.stack, s, m.cur) case Ok(n) => Stays(m, n) }
  {
    hide AddMember, StringEnd;
    var e := StringEnd(buf, m.i + 1, end);
    AddEffect(m, String, m.i + 1, e, e, ObjectAfterMember, m.i + 1, e);
    AddEffect(m, String, m.i + 1, e, e, ArrayAfterMember, m.i + 1, e);
  }

  lemma KeywordEffect(buf: string, m: Machine, kind: Kind, word: string)
    requires InRange(m) && |word| >= 1 && IsScalarKind(kind) && kind != String
    ensures match Keyword(buf, m, kind, word) { case Error(s) => Kept(m.stack, s, m.cur) case Ok(n) => Stays(m, n) }
  {
    hide AddMember, Matches;
    var p := Prepare(m, kind);
    AddEffect(m, kind, m.i, m.i + |word|, m.i + |word| - 1, ObjectAfterMember, p.nameStart, p.nameEnd);
  }

  lemma NumeralEffect(buf: string, m: Machine)
    requires InRange(m) && NumberEnd(buf, m.i) > m.i
    ensures match Numeral(buf, m) { case Error(s) => Kept(m.stack, s, m.cur) case Ok(n) => Stays(m, n) }
  {
    hide AddMember, NumberEnd;
    var e := NumberEnd(buf, m.i);
    var p := Prepare(m, Number);
    AddEffect(m, Number, m.i, e, e - 1, ObjectAfterMember, m.i, p.nameEnd);
  }

  lemma PlainEffect(m: Machine)
    requires InRange(m)
    ensures match Comma(m) { case Error(s) => s == m.stack case Ok(n) => Stays(m, n) }
    ensures match Colon(m) { case Error(s) => s == m.stack case Ok(n) => Stays(m, n) }
    ensures Stays(m, m) && Kept(m.stack, m.stack, m.cur)
  {
  }

  lemma TokenEffect(buf: string, m: Machine, od: nat, end: nat)
    requires InRange(m)
    ensures match Token(buf, m, od, end) {
      case Error(s) => Kept(m.stack, s, m.cur)
      case Ok(n) => Stays(m, n) || Opens(m, n) || Closes(m, n)
    }
  {
    hide Stays, Opens, Closes, Kept, OpenBracket, CloseBracket, Comma, Colon, Quote, Keyword, Numeral, NumberEnd, At;
    PlainEffect(m);
    var c := At(buf, m.i);
    if c == '{' { OpenEffect(m, Object); }
    else if c == '[' { OpenEffect(m, Array); }
    else if c == '}' { CloseEffect(m, od, Object); }
    else if c == ']' { CloseEffect(m, od, Array); }
    else if c == '"' { QuoteEffect(buf, m, end); }
    else if c == 'n' { KeywordEffect(buf, m, Null, "null"); }
    else if c == 't' { KeywordEffect(buf, m, True, "true"); }
    else if c == 'f' { KeywordEffect(buf, m, False, "false"); }
    else if c == '-' || IsDigit(c) { NumberEndGrows(buf, m.i); NumeralEffect(buf, m); }
  }

  // ---- json__get_next -------------------------------------------------------------------------------

  /** A member found by a search that began at start, in a value that ends at end: its text lies
      strictly after start, and a container's region strictly inside. */
  ghost predicate Member(o: Obj, start: nat, end: nat) {
    if IsContainer(o.kind) then start < o.valueStart <= o.valueEnd + 1 < end else ScalarAfter(o, start)
  }

  /** What a search in record od can do: records below keep kind, name and value; it hands back the
      record above, or the first record after an error, or nothing. */
  ghost predicate Outcome(s: Stack, od: nat, start: nat, end: nat, r: (Ret, Stack)) {
    od <= MAX_DEPTH && SameUpTo(s, r.1, od - 1) && SameButEnd(s[od], r.1[od]) &&
    match r.0
    case Slot(k) => SameRecord(s[od], r.1[od]) && (k == 0 || (k == od + 1 && Member(r.1[k], start, end)))
    case Nothing => SameRecord(s[od], r.1[od]) || (od >= 1 && start <= r.1[od].valueEnd + 1)
  }

  ghost predicate SameButEnd(o: Obj, p: Obj) {
    p.kind == o.kind && p.nameStart == o.nameStart && p.nameEnd == o.nameEnd && p.valueStart == o.valueStart
  }

  /** Between turns: open records above od are containers entered since start. */
  ghost predicate Scanning(s: Stack, m: Machine, od: nat, start: nat) {
    od <= m.cur <= MAX_DEPTH && start <= m.i && SameUpTo(s, m.stack, od) &&
    m.stack[od].count == (if m.cur == od then 0 else 1) &&
    forall j :: od < j <= m.cur ==> IsContainer(m.stack[j].kind) && start < m.stack[j].valueStart <= m.i
  }

  lemma {:induction false} RunEffect(buf: string, s: Stack, m: Machine, od: nat, start: nat, end: nat)
    requires Scanning(s, m, od, start) && (od >= 1 ==> start >= 1)
    ensures InRange(m) && Outcome(s, od, start, end, Run(buf, m, od, end))
    decreases end - m.i
  {
    hide Token, Stays, Opens, Closes, Outcome, Run, Continue, Scanning;
    ScanningRange(s, m, od, start);
    if m.i >= end {
      RunOut(buf, s, m, od, start, end);
    } else {
      TokenEffect(buf, m, od, end);
      match Token(buf, m, od, end)
      case Error(t) =>
        FailureOutcome(buf, s, m, t, od, start, end);
      case Ok(n) =>
        TurnsAnyway(buf, m, n, od, end);
        if Stays(m, n) {
          StayScanning(buf, s, m, n, od, start, end);
        } else if Opens(m, n) {
          OpenScanning(buf, s, m, n, od, start, end);
        } else {
          CloseScanning(buf, s, m, n, od, start, end);
        }
        if Scanning(s, n.(i := n.i + 1), od, start) &&
        Continue(buf, n, od, end) == Run(buf, n.(i := n.i + 1), od, end) {
          RunEffect(buf, s, n.(i := n.i + 1), od, start, end);
        }
    }
  }

  lemma ScanningRange(s: Stack, m: Machine, od: nat, start: nat)
    requires Scanning(s, m, od, start)
    ensures InRange(m) && od <= m.cur && start <= m.i
  {
  }

  lemma RunOut(buf: string, s: Stack, m: Machine, od: nat, start: nat, end: nat)
    requires Scanning(s, m, od, start) && m.i >= end
    ensures InRange(m) && Outcome(s, od, start, end, Run(buf, m, od, end))
  {
  }

  lemma FailureOutcome(buf: string, s: Stack, m: Machine, t: Stack, od: nat, start: nat, end: nat)
    requires Scanning(s, m, od, start) && m.i < end && InRange(m) && Token(buf, m, od, end) == Error(t)
    requires Kept(m.stack, t, m.cur)
    ensures Outcome(s, od, start, end, Run(buf, m, od, end))
  {
    hide Token;
  }

  lemma StayScanning(buf: string, s: Stack, m: Machine, n: Machine, od: nat, start: nat, end: nat)
    requires Scanning(s, m, od, start) && Stays(m, n)
    ensures InRange(n) && n.i >= m.i
    ensures Outcome(s, od, start, end, Continue(buf, n, od, end))
         || (Scanning(s, n.(i := n.i + 1), od, start) &&
             Continue(buf, n, od, end) == Run(buf, n.(i := n.i + 1), od, end))
  {
    hide Run;
  }

  lemma OpenScanning(buf: string, s: Stack, m: Machine, n: Machine, od: nat, start: nat, end: nat)
    requires Scanning(s, m, od, start) && Opens(m, n)
    ensures InRange(n) && n.i >= m.i
    ensures Outcome(s, od, start, end, Continue(buf, n, od, end))
         || (Scanning(s, n.(i := n.i + 1), od, start) &&
             Continue(buf, n, od, end) == Run(buf, n.(i := n.i + 1), od, end))
  {
    hide Run;
  }

  lemma CloseScanning(buf: string, s: Stack, m: Machine, n: Machine, od: nat, start: nat, end: nat)
    requires Scanning(s, m, od, start) && Closes(m, n) && m.i < end && (od >= 1 ==> start >= 1)
    ensures InRange(n) && n.i >= m.i
    ensures Outcome(s, od, start, end, Continue(buf, n, od, end))
         || (Scanning(s, n.(i := n.i + 1), od, start) &&
             Continue(buf, n, od, end) == Run(buf, n.(i := n.i + 1), od, end))
  {
    hide Run;
  }

  /** Every json__get_next on any text makes progress or is the last. */
  lemma GetNextProgress(buf: string, s: Stack, od: nat, child: Ret)
    requires od <= MAX_DEPTH && (child.Slot? ==> child.k <= MAX_DEPTH + 1)
    requires od >= 1 ==> StartOf(s, od, child) >= 1
    ensures Outcome(s, od, StartOf(s, od, child), s[od].valueEnd, GetNext(buf, s, od, child))
    ensures od < MAX_DEPTH && StartOf(s, od, child) >= s[od].valueEnd ==> GetNext(buf, s, od, child).0.Nothing?
  {
    hide Run, SameUpTo, Outcome;
    var start, end := StartOf(s, od, child), s[od].valueEnd;
    var t := Started(s, od, child);
    var m := Machine(t, od, start, 0, 0);
    StartedSame(s, od, child);
    if od < MAX_DEPTH {
      assert Get(buf, Started(s, od, child), od, start) == Run(buf, m, od, end) by {
        assert m.stack[od := m.stack[od].(count := 0)] == m.stack;
      }
      RunEffect(buf, s, m, od, start, end);
      if start >= end { RunDry(buf, m, od, end); }
    } else {
      TopOutcome(buf, s, child);
    }
  }

  lemma StartedSame(s: Stack, od: nat, child: Ret)
    requires od <= MAX_DEPTH
    ensures SameUpTo(s, Started(s, od, child), od) && Started(s, od, child)[od].count == 0
    ensures forall start: nat :: Scanning(s, Machine(Started(s, od, child), od, start, 0, 0), od, start)
  {
  }

  lemma TopOutcome(buf: string, s: Stack, child: Ret)
    requires child.Slot? ==> child.k <= MAX_DEPTH + 1
    ensures Outcome(s, MAX_DEPTH, StartOf(s, MAX_DEPTH, child), s[MAX_DEPTH].valueEnd,
                    GetNext(buf, s, MAX_DEPTH, child))
  {
  }

  lemma ParseProgress(buf: string, s: Stack)
    ensures var (r, t) := Parse(buf, s);
      t[0].kind == Undefined && t[0].valueEnd == |buf| &&
      (r.Slot? ==> r.k == 0 || (r.k == 1 && Member(t[1], 0, |buf|)))
  {
    hide Run;
    var root := Root(s[0], |buf|);
    var m := Machine(s[0 := root], 0, 0, 0, 0);
    assert m.stack[0 := m.stack[0].(count := 0)] == m.stack;
    assert Parse(buf, s) == Run(buf, m, 0, |buf|);
    RunEffect(buf, m.stack, m, 0, 0, |buf|);
  }

  // ---- Offsets within the text ------------------------------------------------------------------------

  /** A record's name and value do not reach past the text, nor does the name pending in a container. */
  predicate BoundedObj(o: Obj, n: nat) {
    o.nameEnd <= n && o.valueEnd <= n && (IsContainer(o.kind) ==> o.childNameEnd <= n)
  }

  /** The same of the records up to c. Nothing is said of those above, which may never have been set. */
  predicate Bounded(s: Stack, c: int, n: nat)
    requires c <= MAX_DEPTH + 1
  {
    forall j :: 0 <= j <= c ==> BoundedObj(s[j], n)
  }

  /** The current record is a container, or the first record before its first token. */
  predicate Underway(o: Obj) {
    IsContainer(o.kind) || (o.kind == Undefined && o.state == Init && o.childKind == Undefined)
  }

  predicate BoundedMachine(m: Machine, n: nat) {
    InRange(m) && Bounded(m.stack, m.cur, n) && m.nameEnd <= n && (m.cur >= 1 ==> m.i >= 1) && Underway(m.stack[m.cur])
  }

  /** What a turn leaves: the records up to the current one are bounded, and so is the one it has
      closed, or has added to a container. */
  predicate BoundedTurn(m: Machine, t: Turn, n: nat) {
    InRange(m) &&
    match t
    case Error(s) => Bounded(s, m.cur, n)
    case Ok(v) =>
      InRange(v) && v.nameEnd <= n && Bounded(v.stack, v.cur, n) &&
      (v.cur < m.cur ==> Bounded(v.stack, m.cur, n)) &&
      (v.cur == m.cur && v.stack[m.cur].count != m.stack[m.cur].count && IsContainer(m.stack[m.cur].kind) ==>
        BoundedObj(v.stack[m.cur + 1], n)) &&
      (v.cur == m.cur && v.stack[m.cur].count == m.stack[m.cur].count && !IsContainer(m.stack[m.cur].kind) ==>
        v.stack == m.stack)
  }

  lemma BoundedPush(m: Machine, kind: Kind, n: nat)
    requires InRange(m) && Bounded(m.stack, m.cur, n) && m.nameEnd <= n && IsContainer(kind)
    requires m.stack[m.cur].childKind == Undefined || m.stack[m.cur].childNameEnd <= n
    ensures match Push(m, kind) {
      case Error(s) => Bounded(s, m.cur, n)
      case Ok(v) => v.cur == m.cur + 1 && InRange(v) && v.nameEnd <= n && Bounded(v.stack, v.cur, n)
    }
  {
  }

  lemma BoundedOpen(m: Machine, kind: Kind, n: nat)
    requires BoundedMachine(m, n) && IsContainer(kind)
    ensures BoundedTurn(m, OpenBracket(m, kind), n)
  {
    hide Push;
    BoundedPush(SetState(m, ObjectAfterMember), kind, n);
    if m.stack[m.cur].state != Init {
      BoundedPush(SetState(Prepare(m, kind), ObjectAfterMember), kind, n);
      BoundedPush(SetState(m, ArrayAfterMember), kind, n);
    }
  }

  lemma BoundedClose(m: Machine, od: nat, kind: Kind, n: nat)
    requires BoundedMachine(m, n) && m.i <= n
    ensures BoundedTurn(m, CloseBracket(m, od, kind), n)
  {
  }

  /** A member added to the current record; to a container, or to the first record. */
  lemma BoundedAdd(m: Machine, kind: Kind, start: nat, end: nat, i: nat, state: State, ns: nat, ne: nat, n: nat)
    requires BoundedMachine(m, n) && IsScalarKind(kind) && end <= n && ne <= n
    ensures var p := Prepare(m, kind);
      BoundedTurn(m, Ok(SetState(p.(stack := AddMember(p.stack, p.cur, kind, start, end), i := i, nameStart := ns,
                                    nameEnd := ne), state)), n)
    ensures Bounded(Prepare(m, kind).stack, m.cur, n)
  {
  }

  lemma BoundedQuote(buf: string, m: Machine, end: nat)
    requires BoundedMachine(m, |buf|) && end <= |buf|
    ensures BoundedTurn(m, Quote(buf, m, end), |buf|)
  {
    hide AddMember, StringEnd, Bounded;
    var e := StringEnd(buf, m.i + 1, end);
    BoundedAdd(m, String, m.i + 1, if e <= end then e else end, e, ObjectAfterMember, m.i + 1,
               if e <= end then e else end, |buf|);
    BoundedAdd(m, String, m.i + 1, if e <= end then e else end, e, ArrayAfterMember, m.i + 1,
               if e <= end then e else end, |buf|);
    if e <= end {
      BoundedName(m, e, m.i + 1, e, |buf|);
    }
  }

  lemma BoundedName(m: Machine, i: nat, ns: nat, ne: nat, n: nat)
    requires BoundedMachine(m, n) && ne <= n
    ensures IsContainer(m.stack[m.cur].kind) ==>
      BoundedTurn(m, Ok(SetState(m.(i := i, nameStart := ns, nameEnd := ne), ObjectAfterName)), n)
  {
  }

  lemma BoundedKeyword(buf: string, m: Machine, kind: Kind, word: string)
    requires BoundedMachine(m, |buf|) && |word| >= 1 && IsScalarKind(kind)
    ensures BoundedTurn(m, Keyword(buf, m, kind, word), |buf|)
  {
    hide AddMember, Bounded;
    var p := Prepare(m, kind);
    var e := if Matches(buf, m.i, word) then m.i + |word| else 0;
    BoundedAdd(m, kind, m.i, e, if e > 0 then e - 1 else 0, ObjectAfterMember, p.nameStart, p.nameEnd, |buf|);
  }

  lemma BoundedNumeral(buf: string, m: Machine)
    requires BoundedMachine(m, |buf|) && NumberEnd(buf, m.i) > m.i && m.i < |buf|
    ensures BoundedTurn(m, Numeral(buf, m), |buf|)
  {
    hide AddMember, Bounded, NumberEnd;
    var p := Prepare(m, Number);
    var e := NumberEnd(buf, m.i);
    BoundedAdd(m, Number, m.i, e, e - 1, ObjectAfterMember, m.i, p.nameEnd, |buf|);
  }

  lemma BoundedPlain(m: Machine, n: nat)
    requires BoundedMachine(m, n)
    ensures BoundedTurn(m, Comma(m), n) && BoundedTurn(m, Colon(m), n)
    ensures BoundedTurn(m, Ok(m), n) && BoundedTurn(m, Error(m.stack), n)
  {
  }

  lemma TokenBounded(buf: string, m: Machine, od: nat, end: nat)
    requires BoundedMachine(m, |buf|) && m.i < end <= |buf|
    ensures BoundedTurn(m, Token(buf, m, od, end), |buf|)
  {
    hide Bounded, BoundedTurn, OpenBracket, CloseBracket, Comma, Colon, Quote, Keyword, Numeral, NumberEnd, At,
         Underway;
    BoundedPlain(m, |buf|);
    var c := At(buf, m.i);
    if c == '{' { BoundedOpen(m, Object, |buf|); }
    else if c == '[' { BoundedOpen(m, Array, |buf|); }
    else if c == '}' { BoundedClose(m, od, Object, |buf|); }
    else if c == ']' { BoundedClose(m, od, Array, |buf|); }
    else if c == '"' { BoundedQuote(buf, m, end); }
    else if c == 'n' { BoundedKeyword(buf, m, Null, "null"); }
    else if c == 't' { BoundedKeyword(buf, m, True, "true"); }
    else if c == 'f' { BoundedKeyword(buf, m, False, "false"); }
    else if c == '-' || IsDigit(c) { NumberEndGrows(buf, m.i); BoundedNumeral(buf, m); }
  }

  /** The records up to od are bounded, and so is a member handed back, unless it is a scalar found in
      the first record. */
  predicate BoundedResult(r: (Ret, Stack), od: nat, n: nat) {
    od <= MAX_DEPTH && Bounded(r.1, od, n) &&
    (r.0 == Slot(od + 1) && (od >= 1 || IsContainer(r.1[od + 1].kind)) ==> BoundedObj(r.1[od + 1], n))
  }

  /** The scan goes on after a turn. */
  lemma StillScanning(s: Stack, m: Machine, n: Machine, od: nat, start: nat)
    requires Scanning(s, m, od, start) && (Stays(m, n) || Opens(m, n) || Closes(m, n))
    requires n.cur >= od && !(n.cur == od && n.stack[od].count == 1)
    ensures Scanning(s, n.(i := n.i + 1), od, start)
  {
  }

  /** A turn of a scan whose first record is underway leaves a result or a machine to go on with. */
  lemma BoundedStep(s: Stack, m: Machine, n: Machine, od: nat, start: nat, len: nat)
    requires Scanning(s, m, od, start) && BoundedMachine(m, len) && BoundedTurn(m, Ok(n), len)
    requires Stays(m, n) || Opens(m, n) || Closes(m, n)
    requires od >= 1 ==> IsContainer(s[od].kind)
    ensures InRange(n)
    ensures n.cur == od && n.stack[od].count == 1 ==> BoundedResult((Slot(od + 1), n.stack), od, len)
    ensures n.cur < od || n.stack[n.cur].state == End ==> BoundedResult((Nothing, n.stack), od, len)
    ensures n.cur >= od && !(n.cur == od && n.stack[od].count == 1) ==> BoundedMachine(n.(i := n.i + 1), len)
  {
  }

  lemma {:induction false} RunBounded(buf: string, s: Stack, m: Machine, od: nat, start: nat, end: nat)
    requires Scanning(s, m, od, start) && BoundedMachine(m, |buf|) && end <= |buf|
    requires od >= 1 ==> IsContainer(s[od].kind)
    ensures BoundedResult(Run(buf, m, od, end), od, |buf|)
    decreases end - m.i
  {
    hide Token, Bounded, BoundedTurn, BoundedMachine, BoundedResult, Scanning, Stays, Opens, Closes, Run;
    ScanningRange(s, m, od, start);
    if m.i >= end {
      BoundedOut(buf, s, m, od, start, end);
    } else {
      BoundedRange(m, |buf|);
      TokenBounded(buf, m, od, end);
      TokenEffect(buf, m, od, end);
      match Token(buf, m, od, end)
      case Error(t) => BoundedFailure(buf, s, m, t, od, start, end);
      case Ok(n) =>
        TurnsAnyway(buf, m, n, od, end);
        BoundedStep(s, m, n, od, start, |buf|);
        if n.cur >= od && !(n.cur == od && n.stack[od].count == 1) {
          StillScanning(s, m, n, od, start);
          RunBounded(buf, s, n.(i := n.i + 1), od, start, end);
        }
    }
  }

  lemma BoundedRange(m: Machine, n: nat)
    requires BoundedMachine(m, n)
    ensures InRange(m)
  {
  }

  lemma BoundedOut(buf: string, s: Stack, m: Machine, od: nat, start: nat, end: nat)
    requires Scanning(s, m, od, start) && BoundedMachine(m, |buf|) && m.i >= end
    ensures BoundedResult(Run(buf, m, od, end), od, |buf|)
  {
  }

  lemma BoundedFailure(buf: string, s: Stack, m: Machine, t: Stack, od: nat, start: nat, end: nat)
    requires Scanning(s, m, od, start) && BoundedMachine(m, |buf|) && m.i < end && Token(buf, m, od, end) == Error(t)
    requires BoundedTurn(m, Error(t), |buf|)
    ensures BoundedResult(Run(buf, m, od, end), od, |buf|)
  {
    hide Token;
  }

  /** json__get_next on any text, whatever the records above od hold: it leaves names and values within
      the text up to od, and in the member it hands back. */
  lemma GetNextBounded(buf: string, s: Stack, od: nat, child: Ret)
    requires 1 <= od <= MAX_DEPTH && (child.Slot? ==> child.k <= MAX_DEPTH + 1)
    requires Bounded(s, od, |buf|) && IsContainer(s[od].kind) && StartOf(s, od, child) >= 1
    ensures BoundedResult(GetNext(buf, s, od, child), od, |buf|)
  {
    hide Run, Bounded, BoundedResult, Scanning;
    var start, t := StartOf(s, od, child), Started(s, od, child);
    var m := Machine(t, od, start, 0, 0);
    StartedBounded(buf, s, od, child);
    StartedSame(s, od, child);
    if od < MAX_DEPTH {
      assert Get(buf, Started(s, od, child), od, start) == Run(buf, m, od, s[od].valueEnd) by {
        assert m.stack[od := m.stack[od].(count := 0)] == m.stack;
      }
      RunBounded(buf, s, m, od, start, s[od].valueEnd);
    } else {
      NoMember(t, od, |buf|);
    }
  }

  lemma StartedBounded(buf: string, s: Stack, od: nat, child: Ret)
    requires 1 <= od <= MAX_DEPTH && (child.Slot? ==> child.k <= MAX_DEPTH + 1)
    requires Bounded(s, od, |buf|) && IsContainer(s[od].kind) && StartOf(s, od, child) >= 1
    ensures Bounded(Started(s, od, child), od, |buf|) && s[od].valueEnd <= |buf|
    ensures BoundedMachine(Machine(Started(s, od, child), od, StartOf(s, od, child), 0, 0), |buf|)
  {
  }

  lemma NoMember(t: Stack, od: nat, n: nat)
    requires 1 <= od <= MAX_DEPTH && Bounded(t, od, n)
    ensures BoundedResult((Slot(0), t), od, n)
  {
  }

  lemma EndBounded(s: Stack, k: nat, n: nat)
    requires k <= MAX_DEPTH + 1 && Bounded(s, k, n)
    ensures s[k].valueEnd <= n && s[k].nameEnd <= n
  {
  }

  /** json__parse on any text, over records that may never have been set: the first record, and a root
      container, have their name and value within the text. */
  lemma ParseBounded(buf: string, s: Stack)
    ensures BoundedResult(Parse(buf, s), 0, |buf|)
  {
    hide Run, BoundedResult;
    var m := Machine(s[0 := Root(s[0], |buf|)], 0, 0, 0, 0);
    assert m.stack[0 := m.stack[0].(count := 0)] == m.stack;
    assert Parse(buf, s) == Run(buf, m, 0, |buf|);
    RunBounded(buf, m.stack, m, 0, 0, |buf|);
  }

  // ---- json__visitor --------------------------------------------------------------------------------

  /** Within the allowed calls the visit comes to a container in record 20. */
  ghost predicate Tops(buf: string, s: Stack, k: nat, fuel: nat)
    requires k <= MAX_DEPTH + 1
    decreases fuel, 1
  {
    IsContainer(s[k].kind) && k <= MAX_DEPTH && (k == MAX_DEPTH || TopsRest(buf, s, k, Nothing, fuel))
  }

  ghost predicate TopsRest(buf: string, s: Stack, k: nat, child: Ret, fuel: nat)
    requires k <= MAX_DEPTH && (child.Slot? ==> child.k <= MAX_DEPTH + 1)
    decreases fuel, 0
  {
    fuel > 0 &&
    var (next, t) := GetNext(buf, s, k, child);
    next.Slot? &&
    (Tops(buf, t, next.k, fuel - 1) ||
     match Visit(buf, t, next.k, fuel - 1)
     case None => false
     case Some((log, u)) => TopsRest(buf, u, k, next, fuel - 1))
  }

  /** What every visit of record k keeps: kind, name and value of the records below, and of its own
      record all but the end of its value, which stays behind its start. */
  ghost predicate Steady(s: Stack, u: Stack, k: nat)
    requires k <= MAX_DEPTH + 1
  {
    SameUpTo(s, u, k - 1) && SameButEnd(s[k], u[k]) &&
    (u[k].valueEnd == s[k].valueEnd || (IsContainer(u[k].kind) && u[k].valueStart <= u[k].valueEnd + 1))
  }

  /** The first record is never a container and its value is the whole text; the records up to k
      hold values within it. */
  ghost predicate Rooted(s: Stack, k: nat, end: nat) { s[0].kind == Undefined && end <= s[0].valueEnd && k >= 1 }

  /** Record k holds a scalar, or a container whose value lies behind its opening bracket, below a
      first record that spans it. */
  ghost predicate Ready(s: Stack, k: nat)
    requires k <= MAX_DEPTH + 1
  {
    IsContainer(s[k].kind) ==>
      k <= MAX_DEPTH && Rooted(s, k, s[k].valueEnd) && 1 <= s[k].valueStart <= s[k].valueEnd + 1
  }

  lemma ReadyParts(s: Stack, k: nat)
    requires k <= MAX_DEPTH + 1 && IsContainer(s[k].kind) && Ready(s, k)
    ensures 1 <= k <= MAX_DEPTH && Rooted(s, k, s[k].valueEnd) && 1 <= s[k].valueStart <= s[k].valueEnd + 1
  {
  }

  lemma MemberIsReady(t: Stack, k: nat)
    requires k <= MAX_DEPTH
    requires IsContainer(t[k].kind) ==> Rooted(t, k, t[k].valueEnd) && 1 <= t[k].valueStart <= t[k].valueEnd + 1
    ensures Ready(t, k)
  {
  }

  /** Calls enough to search from start to end. */
  function Calls(start: nat, end: nat): (n: nat)
    ensures n >= 1
  {
    if start < end then end - start + 2 else 1
  }

  lemma {:induction false} VisitEnds(buf: string, s: Stack, k: nat, fuel: nat)
    requires k <= MAX_DEPTH + 1
    requires IsContainer(s[k].kind) ==>
      k <= MAX_DEPTH && Rooted(s, k, s[k].valueEnd) && 1 <= s[k].valueStart <= s[k].valueEnd + 1 &&
      fuel >= Calls(s[k].valueStart, s[k].valueEnd)
    ensures Tops(buf, s, k, fuel) <==> Visit(buf, s, k, fuel).None?
    ensures Visit(buf, s, k, fuel).Some? ==> Steady(s, Visit(buf, s, k, fuel).value.1, k)
    decreases fuel, 1
  {
    hide VisitRest, TopsRest, GetNext, Restart;
    if IsContainer(s[k].kind) {
      if k == MAX_DEPTH { TopVisit(buf, s, fuel); } else { VisitRestEnds(buf, s, k, Nothing, fuel); }
    }
  }

  lemma {:induction false} VisitRestEnds(buf: string, s: Stack, k: nat, child: Ret, fuel: nat)
    requires k < MAX_DEPTH && (child.Slot? ==> child.k <= MAX_DEPTH + 1) && IsContainer(s[k].kind)
    requires Rooted(s, k, s[k].valueEnd)
    requires 1 <= s[k].valueStart <= s[k].valueEnd + 1 && s[k].valueStart <= StartOf(s, k, child)
    requires fuel >= Calls(StartOf(s, k, child), s[k].valueEnd)
    ensures TopsRest(buf, s, k, child, fuel) <==> VisitRest(buf, s, k, child, fuel).None?
    ensures VisitRest(buf, s, k, child, fuel).Some? ==> Steady(s, VisitRest(buf, s, k, child, fuel).value.1, k)
    decreases fuel, 0
  {
    hide *;
    var start, end := StartOf(s, k, child), s[k].valueEnd;
    var (next, t) := GetNext(buf, s, k, child);
    RootedDepth(s, k, end);
    GetNextProgress(buf, s, k, child);
    if next.Nothing? {
      LastCall(buf, s, t, k, child, start, end, fuel);
    } else {
      MemberReady(s, t, k, next, start, end);
      VisitEnds(buf, t, next.k, fuel - 1);
      RestStep(buf, s, t, k, child, next, fuel);
      if Visit(buf, t, next.k, fuel - 1).Some? {
        var u := Visit(buf, t, next.k, fuel - 1).value.1;
        VisitScalar(buf, t, next.k, fuel - 1);
        NextReady(s, t, u, k, next, start, end);
        VisitRestEnds(buf, u, k, next, fuel - 1);
        if VisitRest(buf, u, k, next, fuel - 1).Some? {
          SteadyJoin(s, u, VisitRest(buf, u, k, next, fuel - 1).value.1, k);
        }
      }
    }
  }

  lemma RootedDepth(s: Stack, k: nat, end: nat)
    requires Rooted(s, k, end)
    ensures k >= 1
  {
  }

  lemma LastCall(buf: string, s: Stack, t: Stack, k: nat, child: Ret, start: nat, end: nat, fuel: nat)
    requires k <= MAX_DEPTH && (child.Slot? ==> child.k <= MAX_DEPTH + 1) && GetNext(buf, s, k, child) == (Nothing, t)
    requires Outcome(s, k, start, end, (Nothing, t)) && fuel >= Calls(start, end) && IsContainer(s[k].kind)
    requires s[k].valueStart <= start
    ensures !TopsRest(buf, s, k, child, fuel) && VisitRest(buf, s, k, child, fuel) == Some(([], t)) && Steady(s, t, k)
  {
    hide GetNext, Visit, Tops;
  }

  lemma MemberReady(s: Stack, t: Stack, k: nat, next: Ret, start: nat, end: nat)
    requires Outcome(s, k, start, end, (next, t)) && next.Slot? && k < MAX_DEPTH && Rooted(s, k, end)
    ensures next.k <= MAX_DEPTH && (next.k == 0 ==> !IsContainer(t[0].kind))
    ensures IsContainer(t[next.k].kind) ==>
      Rooted(t, next.k, t[next.k].valueEnd) && 1 <= t[next.k].valueStart <= t[next.k].valueEnd + 1
    ensures IsContainer(t[next.k].kind) && start < end ==>
      Calls(t[next.k].valueStart, t[next.k].valueEnd) < Calls(start, end)
  {
  }

  lemma RestStep(buf: string, s: Stack, t: Stack, k: nat, child: Ret, next: Ret, fuel: nat)
    requires k <= MAX_DEPTH && (child.Slot? ==> child.k <= MAX_DEPTH + 1) && fuel > 0
    requires GetNext(buf, s, k, child) == (next, t) && next.Slot? && next.k <= MAX_DEPTH + 1
    ensures match Visit(buf, t, next.k, fuel - 1) {
      case None =>
        VisitRest(buf, s, k, child, fuel).None? &&
        (TopsRest(buf, s, k, child, fuel) <==> Tops(buf, t, next.k, fuel - 1))
      case Some((log, u)) =>
        (TopsRest(buf, s, k, child, fuel) <==> Tops(buf, t, next.k, fuel - 1) || TopsRest(buf, u, k, next, fuel - 1)) &&
        match VisitRest(buf, u, k, next, fuel - 1) {
          case None => VisitRest(buf, s, k, child, fuel).None?
          case Some((logs, v)) => VisitRest(buf, s, k, child, fuel) == Some((log + logs, v))
        }
    }
  {
    hide GetNext, Visit, Tops;
  }

  lemma VisitScalar(buf: string, s: Stack, k: nat, fuel: nat)
    requires k <= MAX_DEPTH + 1
    ensures !IsContainer(s[k].kind) ==> Visit(buf, s, k, fuel) == Some(([EntryOf(s, k)], s))
  {
  }

  /** After a member the search resumes further on. */
  lemma NextReady(s: Stack, t: Stack, u: Stack, k: nat, next: Ret, start: nat, end: nat)
    requires Outcome(s, k, start, end, (next, t)) && next.Slot? && k < MAX_DEPTH && Rooted(s, k, end)
    requires end == s[k].valueEnd
    requires start < end && s[k].valueStart <= start && IsContainer(s[k].kind)
    requires next.k <= MAX_DEPTH && Steady(t, u, next.k) && (next.k == 0 ==> u == t)
    ensures SameUpTo(s, u, k) && IsContainer(u[k].kind) && Rooted(u, k, u[k].valueEnd) && u[k].valueEnd == end
    ensures u[k].valueStart == s[k].valueStart
    ensures start < StartOf(u, k, next) && Calls(StartOf(u, k, next), end) < Calls(start, end)
  {
  }

  lemma SteadyJoin(s: Stack, u: Stack, v: Stack, k: nat)
    requires k <= MAX_DEPTH && SameUpTo(s, u, k) && Steady(u, v, k)
    ensures Steady(s, v, k)
  {
  }

  // ---- More calls change nothing ----------------------------------------------------------------------

  lemma {:induction false} VisitMore(buf: string, s: Stack, k: nat, fuel: nat, more: nat)
    requires k <= MAX_DEPTH + 1 && fuel <= more
    ensures Visit(buf, s, k, fuel).Some? ==> Visit(buf, s, k, more) == Visit(buf, s, k, fuel)
    ensures Tops(buf, s, k, fuel) ==> Tops(buf, s, k, more)
    decreases fuel, 1
  {
    hide VisitRest, TopsRest;
    if IsContainer(s[k].kind) && k <= MAX_DEPTH { VisitRestMore(buf, s, k, Nothing, fuel, more); }
  }

  lemma {:induction false} VisitRestMore(buf: string, s: Stack, k: nat, child: Ret, fuel: nat, more: nat)
    requires k <= MAX_DEPTH && (child.Slot? ==> child.k <= MAX_DEPTH + 1) && fuel <= more
    ensures VisitRest(buf, s, k, child, fuel).Some? ==>
      VisitRest(buf, s, k, child, more) == VisitRest(buf, s, k, child, fuel)
    ensures TopsRest(buf, s, k, child, fuel) ==> TopsRest(buf, s, k, child, more)
    decreases fuel, 0
  {
    hide GetNext, Visit, Tops;
    if fuel > 0 {
      var (next, t) := GetNext(buf, s, k, child);
      if next.Slot? {
        VisitMore(buf, t, next.k, fuel - 1, more - 1);
        match Visit(buf, t, next.k, fuel - 1)
        case None =>
        case Some((log, u)) => VisitRestMore(buf, u, k, next, fuel - 1, more - 1);
      }
    }
  }

  /** Whatever the number of calls, a visit that ends is steady. */
  lemma VisitSteady(buf: string, s: Stack, k: nat, fuel: nat)
    requires k <= MAX_DEPTH + 1 && Visit(buf, s, k, fuel).Some?
    requires IsContainer(s[k].kind) ==>
      k <= MAX_DEPTH && Rooted(s, k, s[k].valueEnd) && 1 <= s[k].valueStart <= s[k].valueEnd + 1
    ensures Steady(s, Visit(buf, s, k, fuel).value.1, k)
    ensures !IsContainer(s[k].kind) ==> Visit(buf, s, k, fuel).value.1 == s
  {
    hide Visit;
    var more := fuel + Calls(s[k].valueStart, s[k].valueEnd);
    VisitMore(buf, s, k, fuel, more);
    VisitEnds(buf, s, k, more);
    VisitScalar(buf, s, k, fuel);
  }

  /** json__parse and json__visitor on any text, well formed or not: the visit ends, within a number
      of nested calls bounded by the length of the text, unless it comes to a container in
      record 20; in that case it never ends. */
  lemma VisitorEnds(buf: string, s: Stack)
    ensures var (r, t) := Parse(buf, s);
      r.Slot? ==> (
        if Tops(buf, t, r.k, |buf| + 2) then forall fuel: nat :: Visit(buf, t, r.k, fuel).None?
        else forall fuel: nat :: fuel >= |buf| + 2 ==> Visit(buf, t, r.k, fuel).Some?)
  {
    hide Parse, Visit, Tops;
    var (r, t) := Parse(buf, s);
    ParseProgress(buf, s);
    if r.Slot? {
      VisitEnds(buf, t, r.k, |buf| + 2);
      forall fuel: nat
        ensures Tops(buf, t, r.k, |buf| + 2) ==> Visit(buf, t, r.k, fuel).None?
        ensures !Tops(buf, t, r.k, |buf| + 2) && fuel >= |buf| + 2 ==> Visit(buf, t, r.k, fuel).Some?
      {
        if fuel >= |buf| + 2 {
          VisitMore(buf, t, r.k, |buf| + 2, fuel);
          VisitEnds(buf, t, r.k, fuel);
        } else {
          VisitMore(buf, t, r.k, fuel, |buf| + 2);
        }
      }
    }
  }
}
