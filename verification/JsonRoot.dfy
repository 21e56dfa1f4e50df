/** What json__parse returns over records that have never been set, decided on the first token. A bare
    scalar gets its name from fields of the first record that the program leaves unset. */
module JsonRoot {
  import opened Options
  import opened Json
  import opened JsonScan
  import opened JsonCursor
  import opened JsonAnyText

  /** Where the first token from i on begins. */
  function FirstToken(buf: string, i: nat): nat
    decreases |buf| - i
  {
    if i < |buf| && IsSpace(buf[i]) then FirstToken(buf, i + 1) else i
  }

  /** The first token is null, true, false or a number. */
  predicate ScalarFirst(buf: string) {
    var i := FirstToken(buf, 0);
    i < |buf| &&
    (Matches(buf, i, "null") || Matches(buf, i, "true") || Matches(buf, i, "false") ||
     IsDigit(buf[i]) || (buf[i] == '-' && NumberEnd(buf, i) > i + 1))
  }

  lemma {:induction false} ToFirstToken(buf: string, m: Machine)
    requires Live(m, 0) && m.i <= |buf|
    ensures Run(buf, m, 0, |buf|) == Run(buf, m.(i := FirstToken(buf, m.i)), 0, |buf|)
    decreases |buf| - m.i
  {
    hide Token, Run;
    if m.i < |buf| && IsSpace(buf[m.i]) {
      SpaceToken(buf, m, 0, |buf|);
      Turns(buf, m, m, 0, |buf|);
      ToFirstToken(buf, m.(i := m.i + 1));
    } else {
      assert m.(i := FirstToken(buf, m.i)) == m;
    }
  }

  /** json__parse at its first token. */
  function AtFirst(buf: string, s: Stack): Machine { Machine(s[0 := Root(s[0], |buf|)], 0, FirstToken(buf, 0), 0, 0) }

  lemma ParseAtFirst(buf: string, s: Stack)
    ensures InRange(AtFirst(buf, s)) && Parse(buf, s) == Run(buf, AtFirst(buf, s), 0, |buf|)
  {
    hide Run;
    var m := Machine(s[0 := Root(s[0], |buf|)], 0, 0, 0, 0);
    assert m.stack[0 := m.stack[0].(count := 0)] == m.stack;
    assert Parse(buf, s) == Run(buf, m, 0, |buf|);
    ToFirstToken(buf, m);
  }

  /** A scalar as the root takes over the name fields of the first record. */
  lemma ScalarAdded(m: Machine, kind: Kind, start: nat, end: nat, i: nat, ns: nat, ne: nat)
    requires m.cur == 0 && m.stack[0].state == Init && m.stack[0].childKind == Undefined && m.stack[0].count == 0
    requires IsScalarKind(kind)
    ensures var p := Prepare(m, kind);
      var v := SetState(p.(stack := AddMember(p.stack, p.cur, kind, start, end), i := i, nameStart := ns,
                           nameEnd := ne),
                        ObjectAfterMember);
      v.cur == 0 && v.stack[0].count == 1 && v.stack[1].kind == kind && v.stack[1].valueEnd == end &&
      v.stack[1].nameStart == m.stack[0].childNameStart && v.stack[1].nameEnd == m.stack[0].childNameEnd
  {
  }

  /** The outcome of a turn on a scalar root. */
  ghost predicate ScalarRoot(t: Turn, o: Obj, len: nat) {
    t.Ok? && t.m.cur == 0 && t.m.stack[0].count == 1 && IsScalarKind(t.m.stack[1].kind) &&
    t.m.stack[1].valueEnd <= len &&
    t.m.stack[1].nameStart == o.childNameStart && t.m.stack[1].nameEnd == o.childNameEnd
  }

  lemma WordFirst(buf: string, s: Stack, kind: Kind, word: string)
    requires Matches(buf, FirstToken(buf, 0), word)
    requires (kind == Null && word == "null") || (kind == True && word == "true") || (kind == False && word == "false")
    ensures InRange(AtFirst(buf, s)) && ScalarRoot(Token(buf, AtFirst(buf, s), 0, |buf|), s[0], |buf|)
    ensures Token(buf, AtFirst(buf, s), 0, |buf|).m.stack[1].kind == kind
  {
    hide Token, AddMember, FirstToken, SetState, Prepare;
    var m := AtFirst(buf, s);
    var p := Prepare(m, kind);
    WordToken(buf, m, 0, |buf|, kind, word);
    ScalarAdded(m, kind, m.i, m.i + |word|, m.i + |word| - 1, p.nameStart, p.nameEnd);
  }

  lemma NumberFirst(buf: string, s: Stack)
    requires var i := FirstToken(buf, 0);
      i < |buf| && (IsDigit(buf[i]) || (buf[i] == '-' && NumberEnd(buf, i) > i + 1))
    ensures InRange(AtFirst(buf, s)) && ScalarRoot(Token(buf, AtFirst(buf, s), 0, |buf|), s[0], |buf|)
  {
    hide AddMember, NumberEnd, FirstToken, SetState, Prepare, OpenBracket, CloseBracket, Comma, Colon, Quote, Keyword;
    var m := AtFirst(buf, s);
    var p := Prepare(m, Number);
    NumberEndGrows(buf, m.i);
    var e := NumberEnd(buf, m.i);
    ScalarAdded(m, Number, m.i, e, e - 1, m.i, p.nameEnd);
  }

  lemma ScalarToken(buf: string, s: Stack)
    requires ScalarFirst(buf)
    ensures FirstToken(buf, 0) < |buf|
    ensures InRange(AtFirst(buf, s)) && ScalarRoot(Token(buf, AtFirst(buf, s), 0, |buf|), s[0], |buf|)
  {
    hide Token, FirstToken, NumberEnd, AtFirst, ScalarRoot;
    var i := FirstToken(buf, 0);
    if Matches(buf, i, "null") {
      WordFirst(buf, s, Null, "null");
    } else if Matches(buf, i, "true") {
      WordFirst(buf, s, True, "true");
    } else if Matches(buf, i, "false") {
      WordFirst(buf, s, False, "false");
    } else {
      NumberFirst(buf, s);
    }
  }

  /** Before the first token only an opening brace is accepted, or a scalar. */
  lemma FirstTurns(buf: string, m: Machine, end: nat)
    requires InRange(m) && m.cur == 0 && m.stack[0].state == Init
    ensures match OpenBracket(m, Object) { case Error(_) => false case Ok(n) => n.cur == 1 }
    ensures OpenBracket(m, Array).Error? && CloseBracket(m, 0, Object).Error? && CloseBracket(m, 0, Array).Error?
    ensures Comma(m).Error? && Colon(m).Error? && Quote(buf, m, end).Error?
  {
    hide AddMember, StringEnd;
  }

  lemma OtherToken(buf: string, s: Stack)
    requires !ScalarFirst(buf) && FirstToken(buf, 0) < |buf|
    ensures InRange(AtFirst(buf, s))
    ensures match Token(buf, AtFirst(buf, s), 0, |buf|) { case Error(_) => true case Ok(n) => n.cur == 1 }
  {
    hide AddMember, NumberEnd, FirstToken, SetState, Prepare, OpenBracket, CloseBracket, Comma, Colon, Quote, Matches;
    var m := AtFirst(buf, s);
    NotSpace(buf, 0);
    FirstTurns(buf, m, |buf|);
    if At(buf, m.i) == '-' || IsDigit(At(buf, m.i)) { NumberEndGrows(buf, m.i); }
  }

  lemma {:induction false} NotSpace(buf: string, i: nat)
    requires FirstToken(buf, i) < |buf|
    ensures !IsSpace(buf[FirstToken(buf, i)])
    decreases |buf| - i
  {
    if i < |buf| && IsSpace(buf[i]) { NotSpace(buf, i + 1); }
  }

  /** Once a record has been opened, the only member that can be handed back is that record. */
  lemma {:induction false} InsideIsContainer(buf: string, s: Stack, m: Machine, od: nat, start: nat, end: nat)
    requires Scanning(s, m, od, start) && m.cur > od
    ensures Run(buf, m, od, end).0 == Slot(od + 1) ==> IsContainer(Run(buf, m, od, end).1[od + 1].kind)
    decreases end - m.i
  {
    hide Token, Run, Stays, Opens, Closes, Scanning;
    ScanningRange(s, m, od, start);
    if m.i >= end {
      RunDry(buf, m, od, end);
    } else {
      TokenEffect(buf, m, od, end);
      match Token(buf, m, od, end)
      case Error(t) => FailsHere(buf, m, od, end);
      case Ok(n) =>
        TurnsAnyway(buf, m, n, od, end);
        InsideStep(buf, s, m, n, od, start, end);
        if n.cur > od {
          StillScanning(s, m, n, od, start);
          InsideIsContainer(buf, s, n.(i := n.i + 1), od, start, end);
        }
    }
  }

  lemma InsideStep(buf: string, s: Stack, m: Machine, n: Machine, od: nat, start: nat, end: nat)
    requires Scanning(s, m, od, start) && m.cur > od && (Stays(m, n) || Opens(m, n) || Closes(m, n))
    ensures InRange(n) && n.cur >= od
    ensures n.cur == od ==> Continue(buf, n, od, end) == (Slot(od + 1), n.stack) && IsContainer(n.stack[od + 1].kind)
    ensures n.cur > od ==>
      Continue(buf, n, od, end).0.Nothing? || Continue(buf, n, od, end) == Run(buf, n.(i := n.i + 1), od, end)
  {
    hide Run;
  }

  /** The root is a scalar exactly when the first token is one, and then its name is whatever the
      first record held. */
  lemma RootExactly(buf: string, s: Stack)
    ensures var (r, t) := Parse(buf, s);
      if ScalarFirst(buf) then
        r == Slot(1) && IsScalarKind(t[1].kind) && t[1].valueEnd <= |buf| &&
        t[1].nameStart == s[0].childNameStart && t[1].nameEnd == s[0].childNameEnd
      else r == Slot(1) ==> IsContainer(t[1].kind)
  {
    hide Token, Run, Parse, ScalarFirst, FirstToken, Scanning, Stays, Opens, Closes;
    ParseAtFirst(buf, s);
    var m := AtFirst(buf, s);
    if ScalarFirst(buf) {
      ScalarToken(buf, s);
      TurnsAnyway(buf, m, Token(buf, m, 0, |buf|).m, 0, |buf|);
      FoundHere(buf, Token(buf, m, 0, |buf|).m, 0, |buf|);
    } else if FirstToken(buf, 0) >= |buf| {
      RunDry(buf, m, 0, |buf|);
    } else {
      OtherToken(buf, s);
      FirstScanning(buf, s);
      TokenEffect(buf, m, 0, |buf|);
      match Token(buf, m, 0, |buf|)
      case Error(_) => FailsHere(buf, m, 0, |buf|);
      case Ok(n) =>
        TurnsAnyway(buf, m, n, 0, |buf|);
        EnteredScanning(buf, s, n);
        InsideIsContainer(buf, m.stack, n.(i := n.i + 1), 0, 0, |buf|);
    }
  }

  lemma FirstScanning(buf: string, s: Stack)
    ensures Scanning(AtFirst(buf, s).stack, AtFirst(buf, s), 0, 0)
  {
    hide FirstToken;
  }

  lemma EnteredScanning(buf: string, s: Stack, n: Machine)
    requires var m := AtFirst(buf, s); n.cur == 1 && (Stays(m, n) || Opens(m, n) || Closes(m, n))
    ensures InRange(n) && Scanning(AtFirst(buf, s).stack, n.(i := n.i + 1), 0, 0)
    ensures Continue(buf, n, 0, |buf|).0.Nothing? || Continue(buf, n, 0, |buf|) == Run(buf, n.(i := n.i + 1), 0, |buf|)
  {
    hide FirstToken, Run;
  }

  /** The name and value of the root lie within the text whatever the records held before json__parse,
      if and only if the first token is not a scalar. */
  lemma RootWithinExactly(buf: string)
    ensures (forall s: Stack :: RootWithin(buf, s)) <==> !ScalarFirst(buf)
  {
    hide Parse, ScalarFirst, RootWithin;
    if ScalarFirst(buf) {
      var o := BLANK.(childNameEnd := |buf| + 1);
      var s: Stack := seq(MAX_DEPTH + 2, i => o);
      NameBeyond(buf, s);
    } else {
      forall s: Stack ensures RootWithin(buf, s) { ContainerWithin(buf, s); }
    }
  }

  predicate RootWithin(buf: string, s: Stack) {
    var (r, t) := Parse(buf, s);
    r == Slot(1) ==> t[1].nameEnd <= |buf| && t[1].valueEnd <= |buf|
  }

  /** On a scalar root, how far its name reaches is up to what the first record held. */
  lemma NameBeyond(buf: string, s: Stack)
    requires ScalarFirst(buf)
    ensures RootWithin(buf, s) <==> s[0].childNameEnd <= |buf|
  {
    hide Parse, ScalarFirst;
    RootExactly(buf, s);
  }

  lemma ContainerWithin(buf: string, s: Stack)
    requires !ScalarFirst(buf)
    ensures RootWithin(buf, s)
  {
    hide Parse, ScalarFirst;
    RootExactly(buf, s);
    ParseBounded(buf, s);
  }

  /** The text null over a first record that happens to hold 100: json__dump would copy a name that
      ends 96 characters behind the text. */
  lemma NullReadsPastTheText(s: Stack)
    requires s[0].childNameEnd == 100
    ensures var (r, t) := Parse("null", s); r == Slot(1) && t[1].kind == Null && t[1].nameEnd == 100
  {
    hide Parse;
    assert FirstToken("null", 0) == 0 && Matches("null", 0, "null");
    RootExactly("null", s);
    NullKind(s);
  }

  lemma NullKind(s: Stack)
    ensures Parse("null", s).1[1].kind == Null
  {
    hide Parse, Run, Token;
    ParseAtFirst("null", s);
    assert FirstToken("null", 0) == 0 && Matches("null", 0, "null");
    WordFirst("null", s, Null, "null");
    var m := AtFirst("null", s);
    var n := Token("null", m, 0, 4).m;
    TurnsAnyway("null", m, n, 0, 4);
    FoundHere("null", n, 0, 4);
  }
}
