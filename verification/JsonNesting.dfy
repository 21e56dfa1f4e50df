/** A condition on the text alone under which json__visitor ends: record 20 takes 20 opening brackets. */
module JsonNesting {
  import opened Options
  import opened Json
  import opened JsonScan
  import opened JsonCursor
  import opened JsonAnyText

  predicate IsOpen(c: char) { c == '{' || c == '[' }

  /** The number of opening brackets among the first i characters. */
  function Brackets(buf: string, i: nat): nat
    requires i <= |buf|
  {
    if i == 0 then 0 else Brackets(buf, i - 1) + if IsOpen(buf[i - 1]) then 1 else 0
  }

  lemma {:induction false} OpensGrow(buf: string, i: nat, j: nat)
    requires i <= j <= |buf|
    ensures Brackets(buf, i) <= Brackets(buf, j)
  {
    if i < j { OpensGrow(buf, i, j - 1); }
  }

  // ---- Containers begin behind brackets -------------------------------------------------------------

  /** A record is opened at an opening bracket only. */
  lemma OpenedAtBracket(buf: string, m: Machine, od: nat, end: nat, n: Machine)
    requires InRange(m) && Token(buf, m, od, end) == Ok(n) && n.cur > m.cur
    ensures IsOpen(At(buf, m.i))
  {
    hide OpenBracket, CloseBracket, Comma, Colon, Quote, Keyword, Numeral, NumberEnd, At;
    PlainEffect(m);
    var c := At(buf, m.i);
    if c == '}' { CloseEffect(m, od, Object); }
    else if c == ']' { CloseEffect(m, od, Array); }
    else if c == '"' { QuoteEffect(buf, m, end); }
    else if c == 'n' { KeywordEffect(buf, m, Null, "null"); }
    else if c == 't' { KeywordEffect(buf, m, True, "true"); }
    else if c == 'f' { KeywordEffect(buf, m, False, "false"); }
    else if c == '-' || IsDigit(c) { NumberEndGrows(buf, m.i); NumeralEffect(buf, m); }
  }

  predicate Behind(buf: string, o: Obj) { o.valueStart >= 1 && IsOpen(At(buf, o.valueStart - 1)) }

  lemma BehindStep(buf: string, s: Stack, m: Machine, n: Machine, od: nat, start: nat, end: nat)
    requires Scanning(s, m, od, start) && (Stays(m, n) || Opens(m, n) || Closes(m, n)) && m.i < end
    requires n.cur > m.cur ==> IsOpen(At(buf, m.i))
    requires forall j :: od < j <= m.cur ==> Behind(buf, m.stack[j])
    ensures InRange(n)
    ensures n.cur >= od && !(n.cur == od && n.stack[od].count == 1) ==>
      forall j :: od < j <= n.cur ==> Behind(buf, n.stack[j])
    ensures n.cur == od && n.stack[od].count == 1 && IsContainer(n.stack[od + 1].kind) ==> Behind(buf, n.stack[od + 1])
  {
  }

  lemma {:induction false} RunBehind(buf: string, s: Stack, m: Machine, od: nat, start: nat, end: nat)
    requires Scanning(s, m, od, start) && forall j :: od < j <= m.cur ==> Behind(buf, m.stack[j])
    ensures var (r, t) := Run(buf, m, od, end); r == Slot(od + 1) && IsContainer(t[od + 1].kind) ==>
      Behind(buf, t[od + 1])
    decreases end - m.i
  {
    hide Token, Run, Stays, Opens, Closes, Scanning, Behind;
    ScanningRange(s, m, od, start);
    if m.i >= end {
      DryOutcome(buf, s, m, od, start, end);
    } else {
      TokenEffect(buf, m, od, end);
      match Token(buf, m, od, end)
      case Error(t) => FailsHere(buf, m, od, end);
      case Ok(n) =>
        TurnsAnyway(buf, m, n, od, end);
        if n.cur > m.cur { OpenedAtBracket(buf, m, od, end, n); }
        BehindStep(buf, s, m, n, od, start, end);
        if n.cur >= od && !(n.cur == od && n.stack[od].count == 1) {
          StillScanning(s, m, n, od, start);
          RunBehind(buf, s, n.(i := n.i + 1), od, start, end);
        }
    }
  }

  lemma DryOutcome(buf: string, s: Stack, m: Machine, od: nat, start: nat, end: nat)
    requires Scanning(s, m, od, start) && m.i >= end
    ensures InRange(m) && Run(buf, m, od, end).0.Nothing?
  {
  }

  lemma GetNextBehind(buf: string, s: Stack, od: nat, child: Ret)
    requires od < MAX_DEPTH && (child.Slot? ==> child.k <= MAX_DEPTH + 1)
    ensures var (r, t) := GetNext(buf, s, od, child);
      r == Slot(od + 1) && IsContainer(t[od + 1].kind) ==> Behind(buf, t[od + 1])
  {
    hide Run, Scanning, Behind;
    var start, t := StartOf(s, od, child), Started(s, od, child);
    var m := Machine(t, od, start, 0, 0);
    StartedSame(s, od, child);
    assert Get(buf, t, od, start) == Run(buf, m, od, s[od].valueEnd) by {
      assert m.stack[od := m.stack[od].(count := 0)] == m.stack;
    }
    RunBehind(buf, s, m, od, start, s[od].valueEnd);
  }

  lemma ParseBehind(buf: string, s: Stack)
    ensures var (r, t) := Parse(buf, s); r == Slot(1) && IsContainer(t[1].kind) ==> Behind(buf, t[1])
  {
    hide Run, Behind;
    var m := Machine(s[0 := Root(s[0], |buf|)], 0, 0, 0, 0);
    assert m.stack[0 := m.stack[0].(count := 0)] == m.stack;
    assert Parse(buf, s) == Run(buf, m, 0, |buf|);
    RunBehind(buf, m.stack, m, 0, 0, |buf|);
  }

  // ---- Nested containers ------------------------------------------------------------------------------

  /** Records 1 to k are containers, each begun behind a bracket of its own, further and further on. */
  predicate Nested(buf: string, s: Stack, k: nat)
    requires k <= MAX_DEPTH + 1
  {
    forall j :: 1 <= j <= k ==>
      IsContainer(s[j].kind) && Behind(buf, s[j]) && (j > 1 ==> s[j - 1].valueStart < s[j].valueStart)
  }

  lemma {:induction false} NestedOpens(buf: string, s: Stack, k: nat)
    requires 1 <= k <= MAX_DEPTH + 1 && Nested(buf, s, k)
    ensures s[k].valueStart <= |buf| && Brackets(buf, s[k].valueStart) >= k
    decreases k
  {
    var v := s[k].valueStart;
    if k > 1 {
      NestedOpens(buf, s, k - 1);
      OpensGrow(buf, s[k - 1].valueStart, v - 1);
    }
  }

  lemma {:induction false} TopsNested(buf: string, s: Stack, k: nat, fuel: nat)
    requires 1 <= k <= MAX_DEPTH && Nested(buf, s, k) && Ready(s, k) && Tops(buf, s, k, fuel)
    ensures Brackets(buf, |buf|) >= MAX_DEPTH
    decreases fuel, 1
  {
    hide TopsRest, Nested, Behind, Brackets;
    if k == MAX_DEPTH {
      NestedOpens(buf, s, k);
      OpensGrow(buf, s[k].valueStart, |buf|);
    } else {
      TopsRestNested(buf, s, k, Nothing, fuel);
    }
  }

  lemma {:induction false} TopsRestNested(buf: string, s: Stack, k: nat, child: Ret, fuel: nat)
    requires 1 <= k < MAX_DEPTH && (child.Slot? ==> child.k <= MAX_DEPTH + 1) && IsContainer(s[k].kind)
    requires Nested(buf, s, k) && Ready(s, k) && s[k].valueStart <= StartOf(s, k, child)
    requires TopsRest(buf, s, k, child, fuel)
    ensures Brackets(buf, |buf|) >= MAX_DEPTH
    decreases fuel, 0
  {
    hide *;
    var start, end := StartOf(s, k, child), s[k].valueEnd;
    var (next, t) := GetNext(buf, s, k, child);
    ReadyParts(s, k);
    GetNextProgress(buf, s, k, child);
    GetNextBehind(buf, s, k, child);
    RestTops(buf, s, t, k, child, next, fuel);
    MemberReady(s, t, k, next, start, end);
    MemberIsReady(t, next.k);
    NestedMember(buf, s, t, k, next, start, end);
    if Tops(buf, t, next.k, fuel - 1) {
      TopsContainer(buf, t, next.k, fuel - 1);
      TopsNested(buf, t, next.k, fuel - 1);
    } else {
      VisitSteady(buf, t, next.k, fuel - 1);
      var u := Visit(buf, t, next.k, fuel - 1).value.1;
      NextReady(s, t, u, k, next, start, end);
      NestedAfter(buf, s, u, k, start, StartOf(u, k, next));
      TopsRestNested(buf, u, k, next, fuel - 1);
    }
  }

  lemma RestTops(buf: string, s: Stack, t: Stack, k: nat, child: Ret, next: Ret, fuel: nat)
    requires k <= MAX_DEPTH && (child.Slot? ==> child.k <= MAX_DEPTH + 1) && TopsRest(buf, s, k, child, fuel)
    requires GetNext(buf, s, k, child) == (next, t)
    ensures fuel > 0 && next.Slot? && next.k <= MAX_DEPTH + 1
    ensures Tops(buf, t, next.k, fuel - 1) || (Visit(buf, t, next.k, fuel - 1).Some? &&
      TopsRest(buf, Visit(buf, t, next.k, fuel - 1).value.1, k, next, fuel - 1))
  {
    hide GetNext, Visit, Tops;
  }

  lemma TopsContainer(buf: string, s: Stack, k: nat, fuel: nat)
    requires k <= MAX_DEPTH + 1 && Tops(buf, s, k, fuel)
    ensures IsContainer(s[k].kind) && k <= MAX_DEPTH
  {
  }

  lemma NestedMember(buf: string, s: Stack, t: Stack, k: nat, next: Ret, start: nat, end: nat)
    requires 1 <= k < MAX_DEPTH && Nested(buf, s, k) && Outcome(s, k, start, end, (next, t)) && next.Slot?
    requires next.k <= MAX_DEPTH
    requires s[k].valueStart <= start && Rooted(s, k, end)
    requires next == Slot(k + 1) && IsContainer(t[k + 1].kind) ==> Behind(buf, t[k + 1])
    ensures IsContainer(t[next.k].kind) ==> next.k == k + 1 && Nested(buf, t, next.k)
  {
    hide Restart;
  }

  lemma NestedAfter(buf: string, s: Stack, u: Stack, k: nat, start: nat, next: nat)
    requires 1 <= k < MAX_DEPTH && Nested(buf, s, k) && SameUpTo(s, u, k) && Ready(s, k) && IsContainer(s[k].kind)
    requires Rooted(u, k, u[k].valueEnd) && s[k].valueStart <= start < next
    ensures Nested(buf, u, k) && Ready(u, k) && IsContainer(u[k].kind) && u[k].valueStart <= next
  {
  }

  /** With fewer than 20 opening brackets in the text, quoted ones included, json__visitor ends, whatever
      else the text is. */
  lemma FewBracketsEnd(buf: string, s: Stack, fuel: nat)
    requires Brackets(buf, |buf|) < MAX_DEPTH && fuel >= |buf| + 2
    ensures var (r, t) := Parse(buf, s); r.Slot? ==> Visit(buf, t, r.k, fuel).Some?
  {
    hide Parse, Visit, Tops, Brackets, Behind, Nested;
    var (r, t) := Parse(buf, s);
    ParseProgress(buf, s);
    ParseBehind(buf, s);
    VisitorEnds(buf, s);
    if r.Slot? && Tops(buf, t, r.k, |buf| + 2) {
      TopsContainer(buf, t, r.k, |buf| + 2);
      RootNested(buf, t);
      TopsNested(buf, t, 1, |buf| + 2);
    }
  }

  lemma RootNested(buf: string, t: Stack)
    requires IsContainer(t[1].kind) && Behind(buf, t[1]) && t[0].kind == Undefined && t[0].valueEnd == |buf|
    requires Member(t[1], 0, |buf|)
    ensures Nested(buf, t, 1) && Ready(t, 1)
  {
  }
}
