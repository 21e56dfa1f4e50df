/** Which texts json__parse takes, which it refuses and which it reads to the end without a result:
    for every text whatsoever, by a recursive descent over its characters. */
module JsonLanguage {
  import opened Options
  import opened Json
  import opened JsonScan
  import opened JsonCursor
  import opened JsonAnyText
  import opened JsonRoot

  // ---- The descent ----------------------------------------------------------------------------------

  predicate Blank(c: char) { c == ' ' || c == '\t' || c == '\n' || c == '\r' }

  /** The reading of a container from some position on: it fails, the text ends within, or the
      container is closed by the bracket at j. */
  datatype End = Fails | Open | Closed(j: nat)

  /** Where a keyword or a number ends. */
  function WordEnd(buf: string, i: nat): (e: Option<nat>)
    ensures e.Some? ==> e.value > i
  {
    if i + 4 <= |buf| && (buf[i..i + 4] == "null" || buf[i..i + 4] == "true") then Some(i + 4)
    else if i + 5 <= |buf| && buf[i..i + 5] == "false" then Some(i + 5)
    else if i < |buf| && (buf[i] == '-' || '0' <= buf[i] <= '9') && NumberEnd(buf, i) > i &&
      buf[i..NumberEnd(buf, i)] != "-" then Some(NumberEnd(buf, i))
    else None
  }

  /** A token that neither opens nor closes a container: the state and the position behind it. A keyword
      or a number is taken in every state, and leaves the state behind a member of an object. */
  function Leaf(buf: string, i: nat, q: State): (r: Option<(State, nat)>)
    requires i < |buf|
    ensures r.Some? ==> r.value.1 > i
  {
    match buf[i]
    case ',' =>
      if q == ObjectAfterMember then Some((ObjectAfterComma, i + 1))
      else if q == ArrayAfterMember then Some((ArrayAfterComma, i + 1))
      else None
    case ':' => if q == ObjectAfterName then Some((ObjectAfterColon, i + 1)) else None
    case '"' =>
      var e := StringEnd(buf, i + 1, |buf|);
      match q {
        case ObjectBody => Some((ObjectAfterName, e + 1))
        case ObjectAfterComma => Some((ObjectAfterName, e + 1))
        case ObjectAfterColon => Some((ObjectAfterMember, e + 1))
        case ArrayBody => Some((ArrayAfterMember, e + 1))
        case ArrayAfterComma => Some((ArrayAfterMember, e + 1))
        case _ => None
      }
    case _ => if WordEnd(buf, i).Some? then Some((ObjectAfterMember, WordEnd(buf, i).value)) else None
  }

  /** The states in which a closing bracket is taken: in front of the first item, behind an item and
      behind a comma. */
  predicate MayClose(q: State, c: char) {
    if c == '}' then q == ObjectBody || q == ObjectAfterMember || q == ObjectAfterComma
    else q == ArrayBody || q == ArrayAfterMember || q == ArrayAfterComma
  }

  /** The state behind a container that begins in state q. */
  function AfterContainer(q: State): Option<State> {
    match q
    case ObjectAfterColon => Some(ObjectAfterMember)
    case ArrayBody => Some(ArrayAfterMember)
    case ArrayAfterComma => Some(ArrayAfterMember)
    case _ => None
  }

  /** The rest of a container at a depth, from position i on. */
  function Read(buf: string, i: nat, q: State, depth: nat): (r: End)
    ensures r.Closed? ==> i <= r.j < |buf|
    decreases |buf| - i
  {
    if i >= |buf| then Open
    else if Blank(buf[i]) then Read(buf, i + 1, q, depth)
    else if buf[i] == '}' || buf[i] == ']' then (if MayClose(q, buf[i]) then Closed(i) else Fails)
    else if buf[i] == '{' || buf[i] == '[' then
      if AfterContainer(q).None? || depth >= 20 then Fails else
      match Read(buf, i + 1, if buf[i] == '{' then ObjectBody else ArrayBody, depth + 1) {
        case Closed(j) => Read(buf, j + 1, AfterContainer(q).value, depth)
        case r => r
      }
    else
      match Leaf(buf, i, q)
      case Some((p, j)) => Read(buf, j, p, depth)
      case None => Fails
  }

  // ---- Tokens ---------------------------------------------------------------------------------------

  /** Within a container: the current record is in a state between its brackets. */
  ghost predicate Within(m: Machine, q: State, depth: nat) {
    1 <= m.cur == depth <= MAX_DEPTH && m.stack[m.cur].state == q && m.stack[0].count == 1 &&
    q != Init && q != State.End
  }

  /** Nothing is changed below record c; record c keeps its kind and where its value starts. */
  ghost predicate Frame(s: Stack, t: Stack, c: nat)
    requires c <= MAX_DEPTH
  {
    (forall k :: 0 <= k < c ==> t[k] == s[k]) && t[c].kind == s[c].kind && t[c].valueStart == s[c].valueStart
  }

  /** A turn that stays in the record. */
  ghost predicate Moves(m: Machine, t: Turn, q: State, i: nat) {
    InRange(m) && t.Ok? && t.m.cur == m.cur && t.m.stack[m.cur].state == q && t.m.i + 1 == i &&
    Frame(m.stack, t.m.stack, m.cur)
  }

  lemma StringLeaf(buf: string, m: Machine, q: State, depth: nat)
    requires Within(m, q, depth) && m.i < |buf| && buf[m.i] == '"'
    ensures match Leaf(buf, m.i, q)
      case Some((p, j)) => Moves(m, Token(buf, m, 0, |buf|), p, j)
      case None => Token(buf, m, 0, |buf|).Error?
  {
    hide StringEnd;
    StringStays(buf, m.i + 1);
  }

  /** Within the text an escape never leads past its end. */
  lemma {:induction false} StringStays(buf: string, i: nat)
    requires i <= |buf|
    ensures StringEnd(buf, i, |buf|) <= |buf|
    decreases |buf| - i
  {
    if i < |buf| && buf[i] != '"' {
      if buf[i] == '\\' && (At(buf, i + 1) == '"' || At(buf, i + 1) == '\\') {
        StringStays(buf, i + 2);
      } else {
        StringStays(buf, i + 1);
      }
    }
  }

  /** A number begins at i, and is more than a minus. */
  predicate NumberAt(buf: string, i: nat)
    requires i < |buf|
  {
    (buf[i] == '-' || IsDigit(buf[i])) && !(NumberEnd(buf, i) == i + 1 && buf[i] == '-')
  }

  lemma WordCases(buf: string, i: nat)
    requires i < |buf|
    ensures WordEnd(buf, i) ==
      if Matches(buf, i, "null") || Matches(buf, i, "true") then Some(i + 4)
      else if Matches(buf, i, "false") then Some(i + 5)
      else if NumberAt(buf, i) then Some(NumberEnd(buf, i))
      else None
    ensures Matches(buf, i, "null") ==> buf[i] == 'n'
    ensures Matches(buf, i, "true") ==> buf[i] == 't'
    ensures Matches(buf, i, "false") ==> buf[i] == 'f'
  {
    hide NumberEnd;
    if i + 4 <= |buf| { assert buf[i..i + 4][0] == buf[i]; }
    if i + 5 <= |buf| { assert buf[i..i + 5][0] == buf[i]; }
    if buf[i] == '-' || IsDigit(buf[i]) { NumberIsMore(buf, i); }
  }

  lemma NumberIsMore(buf: string, i: nat)
    requires i < |buf| && (buf[i] == '-' || IsDigit(buf[i]))
    ensures NumberEnd(buf, i) > i && (buf[i..NumberEnd(buf, i)] != "-" <==> NumberAt(buf, i))
  {
    hide NumberEnd;
    NumberEndGrows(buf, i);
    var e := NumberEnd(buf, i);
    assert buf[i..e][0] == buf[i];
    if e == i + 1 { assert buf[i..e] == [buf[i]]; }
  }

  lemma KeywordLeaf(buf: string, m: Machine, q: State, depth: nat, kind: Kind, word: string)
    requires Within(m, q, depth) && |word| >= 1
    ensures var t := Keyword(buf, m, kind, word);
      if Matches(buf, m.i, word) then Moves(m, t, ObjectAfterMember, m.i + |word|) else t.Error?
  {
    hide Matches;
  }

  lemma NumberLeaf(buf: string, m: Machine, q: State, depth: nat)
    requires Within(m, q, depth) && m.i < |buf| && (buf[m.i] == '-' || IsDigit(buf[m.i])) && NumberEnd(buf, m.i) > m.i
    ensures var t := Numeral(buf, m);
      if NumberAt(buf, m.i) then Moves(m, t, ObjectAfterMember, NumberEnd(buf, m.i)) else t.Error?
  {
    hide NumberEnd;
  }

  lemma WordLeaf(buf: string, m: Machine, q: State, depth: nat)
    requires Within(m, q, depth) && m.i < |buf| && !Blank(buf[m.i])
    requires buf[m.i] !in {'{', '}', '[', ']', ',', ':', '"'}
    ensures match WordEnd(buf, m.i)
      case Some(j) => Moves(m, Token(buf, m, 0, |buf|), ObjectAfterMember, j)
      case None => Token(buf, m, 0, |buf|).Error?
  {
    hide NumberEnd, WordEnd, Keyword, Numeral, Moves, Matches, OpenBracket, CloseBracket, Comma, Colon, Quote, Within;
    WithinRange(m, q, depth);
    WordCases(buf, m.i);
    if buf[m.i] == 'n' { KeywordLeaf(buf, m, q, depth, Null, "null"); }
    else if buf[m.i] == 't' { KeywordLeaf(buf, m, q, depth, True, "true"); }
    else if buf[m.i] == 'f' { KeywordLeaf(buf, m, q, depth, False, "false"); }
    else if buf[m.i] == '-' || IsDigit(buf[m.i]) {
      NumberIsMore(buf, m.i);
      NumberLeaf(buf, m, q, depth);
    }
  }

  lemma WithinRange(m: Machine, q: State, depth: nat)
    requires Within(m, q, depth)
    ensures InRange(m)
  {
  }

  lemma LeafToken(buf: string, m: Machine, q: State, depth: nat)
    requires Within(m, q, depth) && m.i < |buf| && !Blank(buf[m.i])
    requires buf[m.i] !in {'{', '}', '[', ']'}
    ensures match Leaf(buf, m.i, q)
      case Some((p, j)) => Moves(m, Token(buf, m, 0, |buf|), p, j)
      case None => Token(buf, m, 0, |buf|).Error?
  {
    if buf[m.i] == '"' {
      StringLeaf(buf, m, q, depth);
    } else if buf[m.i] != ',' && buf[m.i] != ':' {
      WordLeaf(buf, m, q, depth);
    }
  }

  lemma BlankToken(buf: string, m: Machine)
    requires InRange(m) && m.i < |buf| && Blank(buf[m.i])
    ensures Token(buf, m, 0, |buf|) == Ok(m)
  {
  }

  /** A turn that opens a container. */
  ghost predicate Enters(m: Machine, t: Turn, c: char, after: State) {
    m.cur < MAX_DEPTH && t.Ok? && t.m.cur == m.cur + 1 && t.m.i == m.i && Frame(m.stack, t.m.stack, m.cur) &&
    t.m.stack[m.cur].state == after && t.m.stack[m.cur].count == m.stack[m.cur].count + 1 &&
    t.m.stack[m.cur + 1].state == (if c == '{' then ObjectBody else ArrayBody) &&
    t.m.stack[m.cur + 1].kind == (if c == '{' then Object else Array) && t.m.stack[m.cur + 1].valueStart == m.i + 1
  }

  lemma OpenToken(buf: string, m: Machine, q: State, depth: nat)
    requires Within(m, q, depth) && m.i < |buf| && (buf[m.i] == '{' || buf[m.i] == '[')
    ensures
      if AfterContainer(q).None? || depth >= 20 then Token(buf, m, 0, |buf|).Error?
      else Enters(m, Token(buf, m, 0, |buf|), buf[m.i], AfterContainer(q).value)
  {
  }

  /** A turn that closes the container. */
  ghost predicate Leaves(m: Machine, n: Machine, j: nat) {
    1 <= m.cur <= MAX_DEPTH && n.cur == m.cur - 1 && n.i == j && Frame(m.stack, n.stack, m.cur) &&
    n.stack[m.cur].valueEnd + 1 == j
  }

  lemma CloseToken(buf: string, m: Machine, q: State, depth: nat)
    requires Within(m, q, depth) && 0 < m.i < |buf| && (buf[m.i] == '}' || buf[m.i] == ']')
    ensures var t := Token(buf, m, 0, |buf|);
      if MayClose(q, buf[m.i]) then t.Ok? && Leaves(m, t.m, m.i) else t.Error?
  {
  }

  // ---- The loop ---------------------------------------------------------------------------------------

  /** The loop follows the descent. */
  lemma {:induction false} ReadRun(buf: string, m: Machine, q: State, depth: nat) returns (n: Machine)
    requires Within(m, q, depth) && m.i > 0
    ensures match Read(buf, m.i, q, depth)
      case Fails => Run(buf, m, 0, |buf|).0 == Slot(0)
      case Open => Run(buf, m, 0, |buf|).0 == Nothing
      case Closed(j) => Leaves(m, n, j) && InRange(n) && Run(buf, m, 0, |buf|) == Continue(buf, n, 0, |buf|)
    decreases |buf| - m.i
  {
    hide Token, Run, Continue, Leaf, Blank, MayClose;
    var end := |buf|;
    n := m;
    if m.i >= end {
      RunDry(buf, m, 0, end);
    } else if Blank(buf[m.i]) {
      BlankToken(buf, m);
      GoesOn(buf, m, m, q, depth);
      n := ReadRun(buf, m.(i := m.i + 1), q, depth);
    } else if buf[m.i] == '}' || buf[m.i] == ']' {
      CloseToken(buf, m, q, depth);
      if MayClose(q, buf[m.i]) {
        n := Token(buf, m, 0, end).m;
        TurnsAnyway(buf, m, n, 0, end);
      } else {
        FailsHere(buf, m, 0, end);
      }
    } else if buf[m.i] == '{' || buf[m.i] == '[' {
      n := ContainerRun(buf, m, q, depth);
    } else {
      LeafToken(buf, m, q, depth);
      match Leaf(buf, m.i, q)
      case None => FailsHere(buf, m, 0, end);
      case Some((p, j)) =>
        var v := Token(buf, m, 0, end).m;
        LeafStates(buf, m.i, q);
        GoesOn(buf, m, v, p, depth);
        n := ReadRun(buf, v.(i := j), p, depth);
        if Read(buf, m.i, q, depth).Closed? { StillLeaves(m, v.(i := j), n, Read(buf, m.i, q, depth).j); }
    }
  }

  lemma LeafStates(buf: string, i: nat, q: State)
    requires i < |buf|
    ensures Leaf(buf, i, q).Some? ==> Leaf(buf, i, q).value.0 != Init && Leaf(buf, i, q).value.0 != State.End
  {
  }

  lemma StillLeaves(m: Machine, v: Machine, n: Machine, j: nat)
    requires v.cur == m.cur <= MAX_DEPTH && Frame(m.stack, v.stack, m.cur) && Leaves(v, n, j)
    ensures Leaves(m, n, j)
  {
  }

  /** After a turn that stays in the record the loop goes on. */
  lemma GoesOn(buf: string, m: Machine, v: Machine, q: State, depth: nat)
    requires InRange(m) && m.i < |buf| && Token(buf, m, 0, |buf|) == Ok(v) && q != Init && q != State.End
    requires 1 <= m.cur == v.cur == depth && m.stack[0].count == 1 && Frame(m.stack, v.stack, m.cur)
    requires v.stack[v.cur].state == q
    ensures Within(v.(i := v.i + 1), q, depth)
    ensures Run(buf, m, 0, |buf|) == Run(buf, v.(i := v.i + 1), 0, |buf|)
  {
    hide Token, Run;
    TurnsAnyway(buf, m, v, 0, |buf|);
    ContinueLive(buf, v, 0, |buf|);
  }

  /** A container is opened, crossed, and the loop goes on behind it. */
  lemma {:induction false} ContainerRun(buf: string, m: Machine, q: State, depth: nat) returns (n: Machine)
    requires Within(m, q, depth) && 0 < m.i < |buf| && (buf[m.i] == '{' || buf[m.i] == '[')
    ensures match Read(buf, m.i, q, depth)
      case Fails => Run(buf, m, 0, |buf|).0 == Slot(0)
      case Open => Run(buf, m, 0, |buf|).0 == Nothing
      case Closed(j) => Leaves(m, n, j) && InRange(n) && Run(buf, m, 0, |buf|) == Continue(buf, n, 0, |buf|)
    decreases |buf| - m.i, 0
  {
    hide Token, Run, Continue, Leaf, MayClose;
    var end := |buf|;
    n := m;
    OpenToken(buf, m, q, depth);
    if AfterContainer(q).None? || depth >= 20 {
      FailsHere(buf, m, 0, end);
    } else {
      var t := Token(buf, m, 0, end).m;
      var inner := if buf[m.i] == '{' then ObjectBody else ArrayBody;
      EnteredWithin(m, t, buf[m.i], AfterContainer(q).value, depth);
      TurnsAnyway(buf, m, t, 0, end);
      ContinueLive(buf, t, 0, end);
      var v := ReadRun(buf, t.(i := m.i + 1), inner, depth + 1);
      match Read(buf, m.i + 1, inner, depth + 1)
      case Fails =>
      case Open =>
      case Closed(j) =>
        BackWithin(m, t, v, buf[m.i], AfterContainer(q).value, depth, j);
        ContinueLive(buf, v, 0, end);
        n := ReadRun(buf, v.(i := j + 1), AfterContainer(q).value, depth);
        if Read(buf, m.i, q, depth).Closed? { StillLeaves(m, v.(i := j + 1), n, Read(buf, m.i, q, depth).j); }
    }
  }

  lemma EnteredWithin(m: Machine, t: Machine, c: char, after: State, depth: nat)
    requires 1 <= m.cur == depth && m.stack[0].count == 1 && Enters(m, Ok(t), c, after)
    ensures InRange(t) && Within(t.(i := m.i + 1), if c == '{' then ObjectBody else ArrayBody, depth + 1)
    ensures Live(t.(i := t.i + 1), 0)
  {
  }

  lemma BackWithin(m: Machine, t: Machine, v: Machine, c: char, after: State, depth: nat, j: nat)
    requires 1 <= m.cur == depth && m.stack[0].count == 1 && Enters(m, Ok(t), c, after)
    requires after != Init && after != State.End && Leaves(t.(i := m.i + 1), v, j)
    ensures InRange(v) && v.cur == m.cur && Within(v.(i := j + 1), after, depth) && Live(v.(i := v.i + 1), 0)
    ensures Frame(m.stack, v.stack, m.cur)
  {
  }

  // ---- json__parse ------------------------------------------------------------------------------------

  /** The outcome of json__parse from position i on, with nothing but white space before: an object, a
      keyword or a number, an error, or no object. */
  datatype Parsed = Whole(start: nat, end: nat) | Bare | Refused | Unfinished

  function Outline(buf: string, i: nat): Parsed
    decreases |buf| - i
  {
    if i >= |buf| then Unfinished
    else if Blank(buf[i]) then Outline(buf, i + 1)
    else if buf[i] == '{' then
      match Read(buf, i + 1, ObjectBody, 1)
      case Fails => Refused
      case Open => Unfinished
      case Closed(j) => Whole(i, j)
    else if WordEnd(buf, i).Some? then Bare
    else Refused
  }

  lemma {:induction false} FirstOutline(buf: string, i: nat)
    ensures FirstToken(buf, i) < |buf| ==> !Blank(buf[FirstToken(buf, i)])
    ensures Outline(buf, i) == if FirstToken(buf, i) < |buf| then Outline(buf, FirstToken(buf, i)) else Unfinished
    decreases |buf| - i
  {
    hide WordEnd, Read;
    if i < |buf| && IsSpace(buf[i]) { FirstOutline(buf, i + 1); }
  }

  lemma WordIsScalar(buf: string)
    requires var i := FirstToken(buf, 0); i < |buf|
    ensures WordEnd(buf, FirstToken(buf, 0)).Some? <==> ScalarFirst(buf)
  {
    hide NumberEnd, FirstToken, WordEnd, Matches;
    var i := FirstToken(buf, 0);
    WordCases(buf, i);
    if buf[i] == '-' || IsDigit(buf[i]) { NumberIsMore(buf, i); }
  }

  /** Every text whatsoever: what json__parse returns for it. An object runs from one bracket to the
      other; a keyword or a number is returned as it stands; all else is an error, or, when the text ends
      too early, no object. */
  lemma LanguageExactly(buf: string, s: Stack)
    ensures var (r, t) := Parse(buf, s);
      match Outline(buf, 0)
      case Whole(i, j) => r == Slot(1) && t[1].kind == Object && t[1].valueStart == i + 1 && t[1].valueEnd + 1 == j
      case Bare => r == Slot(1) && IsScalarKind(t[1].kind)
      case Refused => r == Slot(0)
      case Unfinished => r == Nothing
  {
    hide Token, Run, Continue, Parse, ScalarFirst, FirstToken, Read, WordEnd, Blank;
    ParseAtFirst(buf, s);
    FirstOutline(buf, 0);
    var m, i := AtFirst(buf, s), FirstToken(buf, 0);
    if i >= |buf| {
      RunDry(buf, m, 0, |buf|);
    } else if buf[i] == '{' {
      RootOpens(buf, s);
      var t := Token(buf, m, 0, |buf|).m;
      TurnsAnyway(buf, m, t, 0, |buf|);
      ContinueLive(buf, t, 0, |buf|);
      var n := ReadRun(buf, t.(i := i + 1), ObjectBody, 1);
      if Read(buf, i + 1, ObjectBody, 1).Closed? { RootCloses(buf, t, n, Read(buf, i + 1, ObjectBody, 1).j); }
    } else {
      WordIsScalar(buf);
      RootExactly(buf, s);
      if !ScalarFirst(buf) {
        OtherRoot(buf, s);
        FailsHere(buf, m, 0, |buf|);
      }
    }
  }

  lemma RootOpens(buf: string, s: Stack)
    requires var i := FirstToken(buf, 0); i < |buf| && buf[i] == '{'
    ensures var m := AtFirst(buf, s); var t := Token(buf, m, 0, |buf|);
      InRange(m) && Enters(m, t, '{', ObjectAfterMember) && Within(t.m.(i := m.i + 1), ObjectBody, 1) &&
      Live(t.m.(i := m.i + 1), 0)
  {
    hide FirstToken, Prepare, CloseBracket, Comma, Colon, Quote, Keyword, Numeral, NumberEnd;
    var m := AtFirst(buf, s);
    assert m.stack[0].state == Init && m.stack[0].count == 0 && m.cur == 0;
    assert Token(buf, m, 0, |buf|) == OpenBracket(m, Object);
    RootRecord(m);
  }

  lemma RootRecord(m: Machine)
    requires m.cur == 0 && m.stack[0].state == Init && m.stack[0].count == 0
    ensures var t := OpenBracket(m, Object);
      Enters(m, t, '{', ObjectAfterMember) && Within(t.m.(i := m.i + 1), ObjectBody, 1) && Live(t.m.(i := m.i + 1), 0)
  {
  }

  lemma RootCloses(buf: string, t: Machine, n: Machine, j: nat)
    requires Within(t.(i := t.i + 1), ObjectBody, 1) && Leaves(t.(i := t.i + 1), n, j) && InRange(n)
    ensures Continue(buf, n, 0, |buf|) == (Slot(1), n.stack)
    ensures n.stack[1].kind == t.stack[1].kind && n.stack[1].valueStart == t.stack[1].valueStart
    ensures n.stack[1].valueEnd + 1 == j
  {
    hide Run;
    FoundHere(buf, n, 0, |buf|);
  }

  lemma OtherRoot(buf: string, s: Stack)
    requires !ScalarFirst(buf)
    requires var i := FirstToken(buf, 0); i < |buf| && buf[i] != '{'
    ensures InRange(AtFirst(buf, s)) && Token(buf, AtFirst(buf, s), 0, |buf|).Error?
  {
    hide AddMember, NumberEnd, FirstToken, SetState, Prepare, CloseBracket, Comma, Colon, Quote, Matches;
    var m := AtFirst(buf, s);
    NotSpace(buf, 0);
    FirstTurns(buf, m, |buf|);
    if At(buf, m.i) == '-' || IsDigit(At(buf, m.i)) { NumberEndGrows(buf, m.i); }
  }
}
