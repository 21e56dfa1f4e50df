/** The cursor-style JSON parser of tools/build.c: the stack of json__object records, one turn of
    the scanning loop of json__get, and the operations built on it. The depth of a record is its
    index in the stack; text is a sequence of characters followed by NUL. */
module Json {
  import opened Options

  const MAX_DEPTH := 20

  /** The JSON types the parser produces. */
  datatype Kind = Undefined | Null | True | False | Number | String | Object | Array

  datatype State =
    | Init
    | ObjectBody | ObjectAfterName | ObjectAfterColon | ObjectAfterComma | ObjectAfterMember
    | ArrayBody | ArrayAfterComma | ArrayAfterMember
    | End

  /** A stack record: parser state, the announced member, and its own kind, name and value. */
  datatype Obj = Obj(
    state: State, childNameStart: nat, childNameEnd: nat, childKind: Kind,
    kind: Kind, nameStart: nat, nameEnd: nat, valueStart: nat, valueEnd: nat, count: nat)

  const BLANK: Obj := Obj(Init, 0, 0, Undefined, Undefined, 0, 0, 0, 0, 0)

  type Stack = s: seq<Obj> | |s| == MAX_DEPTH + 2 witness seq(MAX_DEPTH + 2, i => BLANK)

  predicate IsContainer(k: Kind) { k == Object || k == Array }

  predicate IsScalarKind(k: Kind) { k == String || k == Null || k == True || k == False || k == Number }

  // ---- Characters -------------------------------------------------------------------------------

  /** The character at i, NUL from the end of the text on. */
  function At(buf: string, i: nat): char { if i < |buf| then buf[i] else '\0' }

  predicate IsSpace(c: char) { c == '\n' || c == ' ' || c == '\t' || c == '\r' }

  predicate IsDigit(c: char) { '0' <= c <= '9' }

  /** The end of the string body that starts at i: the first quote that is not escaped, or end. */
  function StringEnd(buf: string, i: nat, end: nat): (e: nat)
    ensures e >= i
    decreases end - i
  {
    if At(buf, i) == '"' || i >= end then i
    else if At(buf, i) == '\\' && (At(buf, i + 1) == '"' || At(buf, i + 1) == '\\') then StringEnd(buf, i + 2, end)
    else StringEnd(buf, i + 1, end)
  }

  function Digits(buf: string, i: nat): (e: nat)
    ensures e >= i && (i <= |buf| ==> e <= |buf|)
    decreases |buf| - i
  {
    if i < |buf| && IsDigit(buf[i]) then Digits(buf, i + 1) else i
  }

  function Skip(buf: string, i: nat, a: char, b: char): (e: nat)
    requires a != '\0' && b != '\0'
    ensures i <= e <= i + 1 && (i <= |buf| ==> e <= |buf|)
  {
    if At(buf, i) == a || At(buf, i) == b then i + 1 else i
  }

  /** The end of the number that starts at i: sign, digits, point, digits, exponent. */
  function NumberEnd(buf: string, i: nat): (e: nat)
    ensures e >= i && (i <= |buf| ==> e <= |buf|)
  {
    var whole := Digits(buf, Skip(buf, i, '-', '-'));
    var fraction := Digits(buf, Skip(buf, whole, '.', '.'));
    Digits(buf, Skip(buf, Skip(buf, fraction, 'e', 'E'), '-', '+'))
  }

  lemma NumberEndGrows(buf: string, i: nat)
    requires At(buf, i) == '-' || IsDigit(At(buf, i))
    ensures NumberEnd(buf, i) > i
  {
  }

  predicate Matches(buf: string, i: nat, word: string) { i + |word| <= |buf| && buf[i..i + |word|] == word }

  // ---- One turn of the loop ---------------------------------------------------------------------

  /** The locals of json__get: the record ret, the index i, name_start and name_end. */
  datatype Machine = Machine(stack: Stack, cur: nat, i: nat, nameStart: nat, nameEnd: nat)

  /** A turn either reports an error, for which json__get returns the first record, or goes on. */
  datatype Turn = Error(stack: Stack) | Ok(m: Machine)

  predicate InRange(m: Machine) { m.cur <= MAX_DEPTH }

  function Prepared(o: Obj, kind: Kind, m: Machine): Obj {
    o.(childNameStart := m.nameStart, childNameEnd := m.nameEnd, childKind := kind)
  }

  /** json__prepare_member, called only after a colon. */
  function Prepare(m: Machine, kind: Kind): (n: Machine)
    requires InRange(m)
    ensures n == m.(stack := n.stack)
  {
    var o := m.stack[m.cur];
    if o.state == ObjectAfterColon then m.(stack := m.stack[m.cur := Prepared(o, kind, m)]) else m
  }

  /** json__add_member; a refused member leaves the stack as it is and the callers go on. */
  function AddMember(s: Stack, cur: nat, kind: Kind, start: nat, end: nat): Stack
    requires cur <= MAX_DEPTH
  {
    var o := s[cur];
    if o.childKind != Undefined && (o.childKind != kind || o.kind != Object) then s else
    var child := s[cur + 1].(nameStart := o.childNameStart, nameEnd := o.childNameEnd, kind := kind,
                             valueStart := start, valueEnd := end);
    var after := if o.state == ArrayBody || o.state == ArrayAfterComma then ArrayAfterMember else ObjectAfterMember;
    s[cur := o.(childKind := Undefined, count := o.count + 1, state := after)][cur + 1 := child]
  }

  function SetState(m: Machine, s: State): (n: Machine)
    requires InRange(m)
    ensures n == m.(stack := n.stack)
  {
    m.(stack := m.stack[m.cur := m.stack[m.cur].(state := s)])
  }

  /** json__push: open a record one level deeper. */
  function Push(m: Machine, kind: Kind): Turn
    requires InRange(m)
  {
    if m.cur >= MAX_DEPTH then Error(m.stack) else
    var o := m.stack[m.cur];
    var named := o.childKind != Undefined;
    var child := Obj(if kind == Object then ObjectBody else ArrayBody, 0, 0, Undefined, kind,
                     if named then o.childNameStart else 0, if named then o.childNameEnd else 0,
                     m.i + 1, 0, 0);
    Ok(m.(stack := m.stack[m.cur := o.(count := o.count + 1, childKind := Undefined)][m.cur + 1 := child],
          cur := m.cur + 1))
  }

  function OpenBracket(m: Machine, kind: Kind): Turn
    requires InRange(m)
  {
    var o := m.stack[m.cur];
    if o.state == Init then
      if kind == Array then Error(m.stack) else Push(SetState(m, ObjectAfterMember), kind)
    else if o.state == ObjectAfterColon then Push(SetState(Prepare(m, kind), ObjectAfterMember), kind)
    else if o.state == ArrayAfterComma || o.state == ArrayBody then Push(SetState(m, ArrayAfterMember), kind)
    else Error(m.stack)
  }

  const WRAP: nat := 0xFFFF_FFFF_FFFF_FFFF

  /** json__pop, and the end mark when the cursor's own record has been closed. */
  function CloseBracket(m: Machine, od: nat, kind: Kind): Turn
    requires InRange(m)
  {
    var o := m.stack[m.cur];
    var allowed :=
      if kind == Object then o.state == ObjectBody || o.state == ObjectAfterMember || o.state == ObjectAfterComma
      else o.state == ArrayBody || o.state == ArrayAfterMember || o.state == ArrayAfterComma;
    if !allowed || m.cur < 1 then Error(m.stack) else
    var popped := m.(stack := m.stack[m.cur := o.(valueEnd := if m.i > 0 then m.i - 1 else WRAP)], cur := m.cur - 1);
    Ok(if popped.cur < od then SetState(popped, End) else popped)
  }

  function Comma(m: Machine): Turn
    requires InRange(m)
  {
    match m.stack[m.cur].state
    case ArrayAfterMember => Ok(SetState(m, ArrayAfterComma))
    case ObjectAfterMember => Ok(SetState(m, ObjectAfterComma))
    case _ => Error(m.stack)
  }

  function Colon(m: Machine): Turn
    requires InRange(m)
  {
    if m.stack[m.cur].state == ObjectAfterName then Ok(SetState(m, ObjectAfterColon)) else Error(m.stack)
  }

  /** A quoted string: a member value, an array element or a member name. */
  function Quote(buf: string, m: Machine, end: nat): Turn
    requires InRange(m)
  {
    var start := m.i + 1;
    var state := m.stack[m.cur].state;
    var e := StringEnd(buf, start, end);
    var p := Prepare(m, String).(i := e, nameStart := start);
    if e > end then Error(p.stack) else
    var q := p.(nameEnd := e);
    match state
    case ObjectAfterColon => Ok(SetState(q.(stack := AddMember(q.stack, q.cur, String, start, e)), ObjectAfterMember))
    case ArrayBody => Ok(SetState(q.(stack := AddMember(q.stack, q.cur, String, start, e)), ArrayAfterMember))
    case ArrayAfterComma => Ok(SetState(q.(stack := AddMember(q.stack, q.cur, String, start, e)), ArrayAfterMember))
    case ObjectAfterComma => Ok(SetState(q, ObjectAfterName))
    case ObjectBody => Ok(SetState(q, ObjectAfterName))
    case _ => Error(q.stack)
  }

  /** null, true or false. */
  function Keyword(buf: string, m: Machine, kind: Kind, word: string): Turn
    requires InRange(m) && |word| >= 1
  {
    var p := Prepare(m, kind);
    if !Matches(buf, m.i, word) then Error(p.stack) else
    Ok(SetState(p.(stack := AddMember(p.stack, p.cur, kind, m.i, m.i + |word|), i := m.i + |word| - 1),
                ObjectAfterMember))
  }

  function Numeral(buf: string, m: Machine): Turn
    requires InRange(m) && NumberEnd(buf, m.i) > m.i
  {
    var p := Prepare(m, Number).(nameStart := m.i);
    var e := NumberEnd(buf, m.i);
    if e == m.i + 1 && At(buf, m.i) == '-' then Error(p.stack) else
    Ok(SetState(p.(stack := AddMember(p.stack, p.cur, Number, m.i, e), i := e - 1), ObjectAfterMember))
  }

  /** The switch on the current character. */
  function Token(buf: string, m: Machine, od: nat, end: nat): (t: Turn)
    requires InRange(m)
    ensures t.Ok? ==> InRange(t.m) && t.m.i >= m.i
  {
    var c := At(buf, m.i);
    if c == '{' then OpenBracket(m, Object)
    else if c == '[' then OpenBracket(m, Array)
    else if c == '}' then CloseBracket(m, od, Object)
    else if c == ']' then CloseBracket(m, od, Array)
    else if c == ',' then Comma(m)
    else if c == ':' then Colon(m)
    else if c == '"' then Quote(buf, m, end)
    else if IsSpace(c) then Ok(m)
    else if c == 'n' then Keyword(buf, m, Null, "null")
    else if c == 't' then Keyword(buf, m, True, "true")
    else if c == 'f' then Keyword(buf, m, False, "false")
    else if c == '-' || IsDigit(c) then NumberEndGrows(buf, m.i); Numeral(buf, m)
    else Error(m.stack)
  }

  /** What json__get hands back: no object, or the object in a slot of the stack. Errors hand back
      slot 0. */
  datatype Ret = Nothing | Slot(k: nat)

  // ---- json__get and its callers ------------------------------------------------------------------

  /** The loop from the machine's index on. */
  function Run(buf: string, m: Machine, od: nat, end: nat): (r: (Ret, Stack))
    requires InRange(m)
    ensures r.0.Slot? ==> r.0.k <= MAX_DEPTH + 1
    decreases end - m.i
  {
    if m.i >= end then
      (if m.cur == od && m.stack[m.cur].count == 1 then Slot(m.cur + 1) else Nothing, m.stack)
    else
      match Token(buf, m, od, end)
      case Error(s) => (Slot(0), s)
      case Ok(n) =>
        if n.cur == od && n.stack[n.cur].count == 1 then (Slot(n.cur + 1), n.stack)
        else if n.cur < od || n.stack[n.cur].state == End then (Nothing, n.stack)
        else Run(buf, n.(i := n.i + 1), od, end)
  }

  /** Where the search for the next member starts after a child. */
  function Restart(o: Obj): nat {
    if IsContainer(o.kind) then o.valueEnd + 2
    else if o.kind == Undefined || o.kind == String then o.valueEnd + 1
    else o.valueEnd
  }

  function Get(buf: string, s: Stack, od: nat, start: nat): (r: (Ret, Stack))
    requires od <= MAX_DEPTH
    ensures r.0.Slot? ==> r.0.k <= MAX_DEPTH + 1
  {
    if od >= MAX_DEPTH then (Slot(0), s) else
    Run(buf, Machine(s[od := s[od].(count := 0)], od, start, 0, 0), od, s[od].valueEnd)
  }

  function BodyState(k: Kind): State { if k == Array then ArrayBody else if k == Object then ObjectBody else Init }

  /** The stack a call of json__get_next starts scanning with. */
  function Started(s: Stack, od: nat, child: Ret): Stack
    requires od <= MAX_DEPTH
  {
    s[od := (if child.Slot? then s[od] else s[od].(state := BodyState(s[od].kind))).(count := 0)]
  }

  /** Where a call of json__get_next starts to search. */
  function StartOf(s: Stack, od: nat, child: Ret): nat
    requires od <= MAX_DEPTH && (child.Slot? ==> child.k <= MAX_DEPTH + 1)
  {
    if child.Slot? then Restart(s[child.k]) else s[od].valueStart
  }

  function GetNext(buf: string, s: Stack, od: nat, child: Ret): (r: (Ret, Stack))
    requires od <= MAX_DEPTH && (child.Slot? ==> child.k <= MAX_DEPTH + 1)
    ensures r.0.Slot? ==> r.0.k <= MAX_DEPTH + 1
  {
    Get(buf, Started(s, od, child), od, StartOf(s, od, child))
  }

  /** The record json__parse starts with, over whatever the first record held. */
  function Root(o: Obj, len: nat): Obj {
    o.(state := Init, childKind := Undefined, kind := Undefined, nameStart := 0, nameEnd := 0,
       valueStart := 0, valueEnd := len, count := 0)
  }

  function Parse(buf: string, s: Stack): (r: (Ret, Stack))
    ensures r.0.Slot? ==> r.0.k <= MAX_DEPTH + 1
  {
    Get(buf, s[0 := Root(s[0], |buf|)], 0, 0)
  }

  // ---- json__visitor ------------------------------------------------------------------------------

  /** What the callback sees: the depth, kind, name and value of an object. */
  datatype Entry = Entry(depth: nat, kind: Kind, nameStart: nat, nameEnd: nat, valueStart: nat, valueEnd: nat)

  function EntryOf(s: Stack, k: nat): Entry
    requires k <= MAX_DEPTH + 1
  {
    Entry(k, s[k].kind, s[k].nameStart, s[k].nameEnd, s[k].valueStart, s[k].valueEnd)
  }

  /** The callbacks in order and the stack left behind; None when the allowed number of calls is
      used up. The callback itself always returns 0. */
  function Visit(buf: string, s: Stack, k: nat, fuel: nat): Option<(seq<Entry>, Stack)>
    requires k <= MAX_DEPTH + 1
    decreases fuel, 1
  {
    if !IsContainer(s[k].kind) then Some(([EntryOf(s, k)], s))
    else if k > MAX_DEPTH then None
    else
      match VisitRest(buf, s, k, Nothing, fuel)
      case None => None
      case Some((log, t)) => Some((log + [EntryOf(t, k)], t))
  }

  /** The loop over the members after a child. */
  function VisitRest(buf: string, s: Stack, k: nat, child: Ret, fuel: nat): Option<(seq<Entry>, Stack)>
    requires k <= MAX_DEPTH && (child.Slot? ==> child.k <= MAX_DEPTH + 1)
    decreases fuel, 0
  {
    if fuel == 0 then None else
    var (next, t) := GetNext(buf, s, k, child);
    if next.Nothing? then Some(([], t)) else
    match Visit(buf, t, next.k, fuel - 1)
    case None => None
    case Some((log, u)) =>
      match VisitRest(buf, u, k, next, fuel - 1)
      case None => None
      case Some((logs, v)) => Some((log + logs, v))
  }
}
