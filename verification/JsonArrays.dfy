/** Names in arrays: a scalar with a name in front of it is no element. */
module JsonArrays {
  import opened Options
  import opened Json
  import opened JsonScan
  import opened JsonCursor
  import opened JsonAnyText
  import opened JsonRoot

  /** An array whose next scalar element will carry the given name fields, unless a name is pending, and
      then there is no next scalar element. */
  ghost predicate Carries(o: Obj, ns: nat, ne: nat) {
    o.kind == Array && (o.childKind == Undefined ==> o.childNameStart == ns && o.childNameEnd == ne)
  }

  /** A turn that stays in the array keeps this, and what it adds carries the name fields. */
  ghost predicate Unnamed(m: Machine, n: Machine, ns: nat, ne: nat) {
    InRange(m) && (n.cur == m.cur ==> Carries(n.stack[m.cur], ns, ne)) &&
    (n.cur == m.cur && n.stack[m.cur].count != m.stack[m.cur].count ==>
       n.stack[m.cur + 1].nameStart == ns && n.stack[m.cur + 1].nameEnd == ne)
  }

  lemma AddUnnamed(m: Machine, kind: Kind, start: nat, end: nat, i: nat, state: State, a: nat, b: nat, ns: nat, ne: nat)
    requires InRange(m) && Carries(m.stack[m.cur], ns, ne) && kind != Undefined
    ensures var p := Prepare(m, kind);
      Unnamed(m, SetState(p.(stack := AddMember(p.stack, p.cur, kind, start, end), i := i, nameStart := a,
                             nameEnd := b), state), ns, ne)
  {
  }

  lemma QuoteUnnamed(buf: string, m: Machine, end: nat, ns: nat, ne: nat)
    requires InRange(m) && Carries(m.stack[m.cur], ns, ne)
    ensures Quote(buf, m, end).Ok? ==> Unnamed(m, Quote(buf, m, end).m, ns, ne)
  {
    hide AddMember, StringEnd;
    var e := StringEnd(buf, m.i + 1, end);
    AddUnnamed(m, String, m.i + 1, e, e, ObjectAfterMember, m.i + 1, e, ns, ne);
    AddUnnamed(m, String, m.i + 1, e, e, ArrayAfterMember, m.i + 1, e, ns, ne);
  }

  lemma KeywordUnnamed(buf: string, m: Machine, kind: Kind, word: string, ns: nat, ne: nat)
    requires InRange(m) && |word| >= 1 && kind != Undefined && Carries(m.stack[m.cur], ns, ne)
    ensures Keyword(buf, m, kind, word).Ok? ==> Unnamed(m, Keyword(buf, m, kind, word).m, ns, ne)
  {
    hide AddMember, Matches;
    var p := Prepare(m, kind);
    AddUnnamed(m, kind, m.i, m.i + |word|, m.i + |word| - 1, ObjectAfterMember, p.nameStart, p.nameEnd, ns, ne);
  }

  lemma NumeralUnnamed(buf: string, m: Machine, ns: nat, ne: nat)
    requires InRange(m) && NumberEnd(buf, m.i) > m.i && Carries(m.stack[m.cur], ns, ne)
    ensures Numeral(buf, m).Ok? ==> Unnamed(m, Numeral(buf, m).m, ns, ne)
  {
    hide AddMember, NumberEnd;
    var e := NumberEnd(buf, m.i);
    var p := Prepare(m, Number);
    AddUnnamed(m, Number, m.i, e, e - 1, ObjectAfterMember, m.i, p.nameEnd, ns, ne);
  }

  lemma PlainUnnamed(m: Machine, ns: nat, ne: nat)
    requires InRange(m) && Carries(m.stack[m.cur], ns, ne)
    ensures Comma(m).Ok? ==> Unnamed(m, Comma(m).m, ns, ne)
    ensures Colon(m).Ok? ==> Unnamed(m, Colon(m).m, ns, ne)
    ensures Unnamed(m, m, ns, ne)
  {
  }

  lemma MovedAway(m: Machine, n: Machine, ns: nat, ne: nat)
    requires Opens(m, n) || Closes(m, n)
    ensures Unnamed(m, n, ns, ne)
  {
  }

  lemma TokenUnnamed(buf: string, m: Machine, od: nat, end: nat, ns: nat, ne: nat)
    requires InRange(m) && Carries(m.stack[m.cur], ns, ne)
    ensures Token(buf, m, od, end).Ok? ==> Unnamed(m, Token(buf, m, od, end).m, ns, ne)
  {
    hide Opens, Closes, Carries, Unnamed, OpenBracket, CloseBracket, Comma, Colon, Quote, Keyword, Numeral, NumberEnd,
         At;
    PlainUnnamed(m, ns, ne);
    var c := At(buf, m.i);
    if c == '{' || c == '[' || c == '}' || c == ']' {
      BracketMoves(buf, m, od, end, c);
      if Token(buf, m, od, end).Ok? { MovedAway(m, Token(buf, m, od, end).m, ns, ne); }
    }
    else if c == '"' { QuoteUnnamed(buf, m, end, ns, ne); }
    else if c == 'n' { KeywordUnnamed(buf, m, Null, "null", ns, ne); }
    else if c == 't' { KeywordUnnamed(buf, m, True, "true", ns, ne); }
    else if c == 'f' { KeywordUnnamed(buf, m, False, "false", ns, ne); }
    else if c == '-' || IsDigit(c) { NumberEndGrows(buf, m.i); NumeralUnnamed(buf, m, ns, ne); }
  }

  lemma BracketMoves(buf: string, m: Machine, od: nat, end: nat, c: char)
    requires InRange(m) && At(buf, m.i) == c && (c == '{' || c == '[' || c == '}' || c == ']')
    ensures Token(buf, m, od, end).Ok? ==>
      Opens(m, Token(buf, m, od, end).m) || Closes(m, Token(buf, m, od, end).m)
  {
    hide Opens, Closes, Kept, OpenBracket, CloseBracket, At;
    OpenEffect(m, Object);
    OpenEffect(m, Array);
    CloseEffect(m, od, Object);
    CloseEffect(m, od, Array);
  }

  lemma {:induction false} RunUnnamed(buf: string, s: Stack, m: Machine, od: nat, start: nat, end: nat, ns: nat,
                                      ne: nat)
    requires Scanning(s, m, od, start) && m.cur == od && Carries(m.stack[od], ns, ne)
    ensures var (r, t) := Run(buf, m, od, end);
      r == Slot(od + 1) && !IsContainer(t[od + 1].kind) ==> t[od + 1].nameStart == ns && t[od + 1].nameEnd == ne
    decreases end - m.i
  {
    hide Token, Run, Stays, Opens, Closes, Carries, Scanning;
    ScanningRange(s, m, od, start);
    CountIsZero(s, m, od, start);
    if m.i >= end {
      RunDry(buf, m, od, end);
    } else {
      TokenEffect(buf, m, od, end);
      TokenUnnamed(buf, m, od, end, ns, ne);
      match Token(buf, m, od, end)
      case Error(t) => FailsHere(buf, m, od, end);
      case Ok(n) =>
        TurnsAnyway(buf, m, n, od, end);
        if n.cur >= od && !(n.cur == od && n.stack[od].count == 1) {
          StillScanning(s, m, n, od, start);
          if n.cur == od {
            RunUnnamed(buf, s, n.(i := n.i + 1), od, start, end, ns, ne);
          } else {
            InsideIsContainer(buf, s, n.(i := n.i + 1), od, start, end);
          }
        }
    }
  }

  lemma CountIsZero(s: Stack, m: Machine, od: nat, start: nat)
    requires Scanning(s, m, od, start) && m.cur == od
    ensures m.stack[od].count == 0
  {
  }

  /** A scalar that json__get_next hands back from an array carries the name fields the record held before
      the search, whatever names the text has in front of it: for every text, well formed or not. */
  lemma ElementsUnnamed(buf: string, s: Stack, od: nat, child: Ret)
    requires od <= MAX_DEPTH && (child.Slot? ==> child.k <= MAX_DEPTH + 1)
    requires s[od].kind == Array && s[od].childKind == Undefined
    ensures var (r, t) := GetNext(buf, s, od, child);
      r == Slot(od + 1) && !IsContainer(t[od + 1].kind) ==>
        t[od + 1].nameStart == s[od].childNameStart && t[od + 1].nameEnd == s[od].childNameEnd
  {
    hide Run, Scanning;
    if od < MAX_DEPTH {
      var start, t := StartOf(s, od, child), Started(s, od, child);
      var m := Machine(t, od, start, 0, 0);
      StartedSame(s, od, child);
      assert Get(buf, t, od, start) == Run(buf, m, od, s[od].valueEnd) by {
        assert m.stack[od := m.stack[od].(count := 0)] == m.stack;
      }
      RunUnnamed(buf, s, m, od, start, s[od].valueEnd, s[od].childNameStart, s[od].childNameEnd);
    }
  }

  /** A search that meets the bracket of its own container hands back nothing, closes the container there,
      and leaves the one around it at its end. */
  lemma OwnBracket(buf: string, m: Machine, od: nat, end: nat)
    requires 1 <= od == m.cur <= MAX_DEPTH && 0 < m.i < end && m.i < |buf|
    requires (buf[m.i] == '}' && m.stack[od].state in {ObjectBody, ObjectAfterMember, ObjectAfterComma}) ||
             (buf[m.i] == ']' && m.stack[od].state in {ArrayBody, ArrayAfterMember, ArrayAfterComma})
    ensures var (r, t) := Run(buf, m, od, end);
      r == Nothing && t[od].valueEnd + 1 == m.i && t[od - 1].state == State.End
  {
    assert Token(buf, m, od, end) == CloseBracket(m, od, if buf[m.i] == '}' then Object else Array);
  }
}
