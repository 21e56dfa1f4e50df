/** Which JSON texts the scanner refuses: those with a container in record 21 or deeper, and those
    with a bare scalar other than a string in an array. */
module JsonRefusal {
  import opened Json
  import opened JsonLayout
  import opened JsonScan
  import opened JsonCursor

  lemma {:induction false} OkIsValid(t: Tree, depth: nat)
    requires TreeOk(t, depth)
    ensures Valid(t)
    decreases t
  {
    hide ItemOk, ScalarOk, AllSpace;
    if t.Branch? { OkItemsAreValid(t.arr, t.items, depth); }
  }

  lemma {:induction false} OkItemsAreValid(arr: bool, items: Items, depth: nat)
    requires ItemsOk(arr, items, depth)
    ensures ValidItems(arr, items)
    decreases items
  {
    hide ItemOk, ScalarOk, AllSpace;
    if items.Cons? {
      OkIsValid(items.value, depth + 1);
      OkItemsAreValid(arr, items.rest, depth);
    }
  }

  // ---- An array whose record has been put into an object state ----------------------------------------

  /** A bare scalar leaves its array in the state of an object. */
  ghost predicate Derailed(m: Machine, od: nat, state: State) {
    od < m.cur <= MAX_DEPTH && m.stack[m.cur].kind == Array && m.stack[m.cur].state == state &&
    m.stack[m.cur].childKind == Undefined
  }

  lemma DerailedLive(m: Machine, od: nat, state: State)
    requires Derailed(m, od, state) && state != End
    ensures InRange(m) && Live(m, od)
  {
  }

  /** Neither a comma after a name nor a closing bracket in an object state is accepted. */
  lemma DerailedStop(buf: string, m: Machine, od: nat, end: nat, state: State)
    requires Derailed(m, od, state) && m.i < end
    requires match state {
      case ObjectAfterMember => Is(buf, m.i, ']')
      case ObjectAfterName => Is(buf, m.i, ']') || Is(buf, m.i, ',')
      case ObjectAfterComma => Is(buf, m.i, '[') || Is(buf, m.i, '{')
      case _ => false
    }
    ensures Run(buf, m, od, end).0 == Slot(0)
  {
    hide Run;
    FailsHere(buf, m, od, end);
  }

  lemma BareToken(buf: string, m: Machine, od: nat, end: nat, t: Tree, state: State) returns (n: Machine)
    requires Derailed(m, od, state) && (state == ArrayBody || state == ArrayAfterComma || state == ObjectAfterComma)
    requires t.Scalar? && t.kind != String && ScalarOk(t.kind, t.text)
    requires TreeAt(buf, m.i, t) && IsStop(At(buf, m.i + TreeLen(t)))
    ensures Token(buf, m, od, end) == Ok(n) && Derailed(n, od, ObjectAfterMember) && n.i + 1 == m.i + TreeLen(t)
  {
    hide Token, NumberText, StringBody, IsStop, Matches, NumberEnd;
    var e := m.i + |t.text|;
    var p := Prepare(m, t.kind);
    var stack := AddMember(p.stack, p.cur, t.kind, m.i, e);
    if t.kind == Number {
      NumberToken(buf, m, od, end, t.text);
      n := SetState(p.(stack := stack, i := e - 1, nameStart := m.i), ObjectAfterMember);
    } else {
      WordToken(buf, m, od, end, t.kind, t.text);
      n := SetState(p.(stack := stack, i := e - 1), ObjectAfterMember);
    }
  }

  /** A bare scalar, read; the scan goes on behind it. */
  lemma BareRun(buf: string, m: Machine, od: nat, end: nat, t: Tree, state: State) returns (n: Machine)
    requires Derailed(m, od, state) && (state == ArrayBody || state == ArrayAfterComma || state == ObjectAfterComma)
    requires m.i < end
    requires t.Scalar? && t.kind != String && ScalarOk(t.kind, t.text)
    requires TreeAt(buf, m.i, t) && IsStop(At(buf, m.i + TreeLen(t)))
    ensures Derailed(n, od, ObjectAfterMember) && n.i == m.i + TreeLen(t)
    ensures InRange(m) && InRange(n) && Run(buf, m, od, end) == Run(buf, n, od, end)
  {
    hide *;
    n := BareToken(buf, m, od, end, t, state);
    var n1 := n.(i := n.i + 1);
    DerailedAnywhere(m, m, od, state);
    DerailedAnywhere(n, n1, od, ObjectAfterMember);
    DerailedLive(n1, od, ObjectAfterMember);
    TurnsAnyway(buf, m, n, od, end);
    ContinueLive(buf, n, od, end);
    n := n1;
  }

  lemma DerailedAnywhere(m: Machine, n: Machine, od: nat, state: State)
    requires Derailed(m, od, state) && n.stack == m.stack && n.cur == m.cur
    ensures Derailed(n, od, state) && InRange(m) && InRange(n)
  {
  }

  /** A string where a name could stand is taken for one. */
  lemma BareString(buf: string, m: Machine, od: nat, end: nat, text: string) returns (n: Machine)
    requires Derailed(m, od, ObjectAfterComma) && StringBody(text) && TreeAt(buf, m.i, Scalar(String, text))
    requires m.i + |text| + 2 <= end
    ensures Derailed(n, od, ObjectAfterName) && n.i == m.i + |text| + 2
    ensures InRange(m) && InRange(n) && Run(buf, m, od, end) == Run(buf, n, od, end)
  {
    hide Token, Run, Continue, StringBody, Matches;
    NameToken(buf, m, od, end, text);
    var v := SetState(m.(i := m.i + 1 + |text|, nameStart := m.i + 1, nameEnd := m.i + 1 + |text|), ObjectAfterName);
    n := v.(i := v.i + 1);
    DerailedLive(n, od, ObjectAfterName);
    Turns(buf, m, v, od, end);
  }

  /** White space in a derailed array. */
  lemma DerailedSpaces(buf: string, m: Machine, od: nat, end: nat, state: State, w: string) returns (n: Machine)
    requires Derailed(m, od, state) && state != End && Matches(buf, m.i, w) && AllSpace(w) && m.i + |w| <= end
    ensures Derailed(n, od, state) && n.i == m.i + |w|
    ensures InRange(m) && InRange(n) && Run(buf, m, od, end) == Run(buf, n, od, end)
  {
    hide *;
    DerailedLive(m, od, state);
    SpaceRun(buf, m, od, end, w);
    n := m.(i := m.i + |w|);
    DerailedAnywhere(m, n, od, state);
  }

  lemma DerailedComma(buf: string, m: Machine, od: nat, end: nat) returns (n: Machine)
    requires Derailed(m, od, ObjectAfterMember) && Is(buf, m.i, ',') && m.i < end
    ensures Derailed(n, od, ObjectAfterComma) && n.i == m.i + 1
    ensures InRange(m) && InRange(n) && Run(buf, m, od, end) == Run(buf, n, od, end)
  {
    hide Run;
    var v := SetState(m, ObjectAfterComma);
    n := v.(i := v.i + 1);
    Turns(buf, m, v, od, end);
  }

  /** An array's items from position i on, its tail and its closing bracket. */
  ghost predicate ArrayEnds(buf: string, i: nat, items: Items, tail: string, end: nat) {
    var j := i + ItemsLen(true, items, false);
    ItemsAt(buf, i, true, items, false) && ValidItems(true, items) &&
    Matches(buf, j, tail) && AllSpace(tail) && Is(buf, j + |tail|, ']') && j + |tail| < end
  }

  lemma ArrayEndsNil(buf: string, i: nat, items: Items, tail: string, end: nat)
    requires ArrayEnds(buf, i, items, tail, end) && items.Nil?
    ensures Matches(buf, i, tail) && AllSpace(tail) && Is(buf, i + |tail|, ']') && i + |tail| < end
  {
  }

  lemma ArrayEndsCons(buf: string, i: nat, items: Items, tail: string, end: nat)
    requires ArrayEnds(buf, i, items, tail, end) && items.Cons?
    ensures var v := i + 1 + |items.before|; var e := v + TreeLen(items.value);
      Is(buf, i, ',') && Matches(buf, i + 1, items.before) && AllSpace(items.before) && Valid(items.value) &&
      TreeAt(buf, v, items.value) &&
      Matches(buf, e, items.after) && AllSpace(items.after) &&
      ArrayEnds(buf, e + |items.after|, items.rest, tail, end) &&
      e + |items.after| < end && IsStop(At(buf, e))
  {
    hide TreeAt, Valid, TreeLen, AllSpace, Matches;
    var e := i + 1 + |items.before| + TreeLen(items.value);
    ArrayEndsStop(buf, e + |items.after| + ItemsLen(true, items.rest, false), tail);
    ItemFollowed(buf, e, true, items.after, items.rest);
  }

  lemma ArrayEndsStop(buf: string, j: nat, tail: string)
    requires Matches(buf, j, tail) && AllSpace(tail) && Is(buf, j + |tail|, ']')
    ensures IsStop(At(buf, j))
  {
    if tail != "" { MatchesAt(buf, j, tail, 0); }
  }

  /** Once derailed, an array is refused at its end or before. */
  lemma {:induction false} ArrayRefused(buf: string, m: Machine, od: nat, end: nat, items: Items, tail: string)
    requires Derailed(m, od, ObjectAfterMember) && ArrayEnds(buf, m.i, items, tail, end)
    ensures InRange(m) && Run(buf, m, od, end).0 == Slot(0)
    decreases items
  {
    hide *;
    DerailedLive(m, od, ObjectAfterMember);
    if items.Nil? {
      ArrayEndsNil(buf, m.i, items, tail, end);
      var n := DerailedSpaces(buf, m, od, end, ObjectAfterMember, tail);
      DerailedStop(buf, n, od, end, ObjectAfterMember);
    } else {
      ArrayEndsCons(buf, m.i, items, tail, end);
      var c := DerailedComma(buf, m, od, end);
      var v := DerailedSpaces(buf, c, od, end, ObjectAfterComma, items.before);
      ValidParts(buf, v.i, items.value);
      if items.value.Branch? {
        DerailedStop(buf, v, od, end, ObjectAfterComma);
      } else if items.value.kind == String {
        var n := BareString(buf, v, od, end, items.value.text);
        var e := DerailedSpaces(buf, n, od, end, ObjectAfterName, items.after);
        NameRefused(buf, e, od, end, items.rest, tail);
      } else {
        var n := BareRun(buf, v, od, end, items.value, ObjectAfterComma);
        var e := DerailedSpaces(buf, n, od, end, ObjectAfterMember, items.after);
        ArrayRefused(buf, e, od, end, items.rest, tail);
      }
    }
  }

  lemma ValidParts(buf: string, i: nat, t: Tree)
    requires Valid(t) && TreeAt(buf, i, t)
    ensures t.Branch? ==> Is(buf, i, if t.arr then '[' else '{')
    ensures t.Scalar? ==> ScalarOk(t.kind, t.text) && TreeLen(t) >= 1
    ensures t.Scalar? && t.kind == String ==>
      StringBody(t.text) && TreeAt(buf, i, Scalar(String, t.text)) && TreeLen(t) == |t.text| + 2
    ensures TreeLen(t) >= 1
  {
    hide StringBody, NumberEnd;
  }

  lemma NameRefused(buf: string, m: Machine, od: nat, end: nat, items: Items, tail: string)
    requires Derailed(m, od, ObjectAfterName) && ArrayEnds(buf, m.i, items, tail, end)
    ensures InRange(m) && Run(buf, m, od, end).0 == Slot(0)
  {
    hide *;
    DerailedLive(m, od, ObjectAfterName);
    if items.Nil? {
      ArrayEndsNil(buf, m.i, items, tail, end);
      var n := DerailedSpaces(buf, m, od, end, ObjectAfterName, tail);
      DerailedStop(buf, n, od, end, ObjectAfterName);
    } else {
      ArrayEndsCons(buf, m.i, items, tail, end);
      DerailedStop(buf, m, od, end, ObjectAfterName);
    }
  }

  // ---- Refused texts ----------------------------------------------------------------------------------

  /** The rest of a container: items, tail, bracket. */
  ghost predicate Rest(buf: string, i: nat, arr: bool, items: Items, first: bool, tail: string, end: nat) {
    var j := i + ItemsLen(arr, items, first);
    ItemsAt(buf, i, arr, items, first) && ValidItems(arr, items) &&
    Matches(buf, j, tail) && AllSpace(tail) && Is(buf, j + |tail|, if arr then ']' else '}') && j + |tail| < end
  }

  lemma RestCons(buf: string, i: nat, arr: bool, items: Items, first: bool, tail: string, end: nat)
    requires Rest(buf, i, arr, items, first, tail, end) && items.Cons?
    ensures var v := i + HeadLen(arr, items, first); var e := v + TreeLen(items.value);
      HeadAt(buf, i, arr, items, first) && ItemOk(arr, items) && Valid(items.value) && TreeAt(buf, v, items.value) &&
      Matches(buf, e, items.after) && IsStop(At(buf, e)) &&
      Rest(buf, e + |items.after|, arr, items.rest, false, tail, end) &&
      e + |items.after| < end
    ensures AllSpace(items.before) && AllSpace(items.after)
    ensures !arr ==> StringBody(items.name) && AllSpace(items.mid1) && AllSpace(items.mid2)
  {
    hide TreeAt, Valid, TreeLen, AllSpace, Matches, HeadAt, HeadLen, StringBody;
    var e := i + HeadLen(arr, items, first) + TreeLen(items.value);
    RestStop(buf, e + |items.after| + ItemsLen(arr, items.rest, false), tail, arr);
    ItemFollowed(buf, e, arr, items.after, items.rest);
  }

  lemma RestStop(buf: string, j: nat, tail: string, arr: bool)
    requires Matches(buf, j, tail) && AllSpace(tail) && Is(buf, j + |tail|, if arr then ']' else '}')
    ensures IsStop(At(buf, j))
  {
    if tail != "" { MatchesAt(buf, j, tail, 0); }
  }

  lemma RestOfArray(buf: string, i: nat, items: Items, tail: string, end: nat)
    requires Rest(buf, i, true, items, false, tail, end)
    ensures ArrayEnds(buf, i, items, tail, end)
  {
    hide ItemsAt, ItemsLen, ValidItems, Matches, AllSpace;
  }

  lemma {:induction false} ItemsRefused(buf: string, m: Machine, od: nat, end: nat, arr: bool, items: Items,
                                        first: bool, tail: string)
    requires od < m.cur <= MAX_DEPTH && Live(m, od) && AtItem(m.stack[m.cur], arr, first) && Quiet(m.stack[m.cur])
    requires Rest(buf, m.i, arr, items, first, tail, end) && !ItemsOk(arr, items, m.cur)
    ensures InRange(m) && Run(buf, m, od, end).0 == Slot(0)
    decreases items, 1
  {
    hide *;
    NotOk(arr, items, m.cur);
    RestCons(buf, m.i, arr, items, first, tail, end);
    HeadReady(m, od, arr, items, first);
    HeadRun(buf, m, od, end, arr, items, first);
    var h := AtHeadEnd(m, arr, items, first);
    ValidParts(buf, h.i, items.value);
    if !TreeOk(items.value, m.cur + 1) {
      ValueRefused(buf, h, od, end, arr, items.value);
    } else if arr && items.value.Scalar? && items.value.kind != String {
      HeadDerailed(h, od);
      var n := BareRun(buf, h, od, end, items.value, h.stack[h.cur].state);
      var e := DerailedSpaces(buf, n, od, end, ObjectAfterMember, items.after);
      RestOfArray(buf, e.i, items.rest, tail, end);
      ArrayRefused(buf, e, od, end, items.rest, tail);
    } else {
      EarlierFits(items.value, h.i, end);
      var v := ValueRun(buf, h, od, end, arr, items.value);
      ValueContinues(buf, h, v, od, end, arr, items.value);
      var v1 := v.(i := v.i + 1);
      SpaceRun(buf, v1, od, end, items.after);
      var v2 := v1.(i := v1.i + |items.after|);
      LiveAnywhere(v1, v2, od);
      ItemsRefused(buf, v2, od, end, arr, items.rest, false, tail);
    }
  }

  lemma EarlierFits(t: Tree, i: nat, end: nat)
    requires i + TreeLen(t) < end
    ensures Fits(t, i, end)
  {
    hide TreeLen;
  }

  lemma HeadDerailed(h: Machine, od: nat)
    requires od < h.cur <= MAX_DEPTH && AtValue(h.stack[h.cur], true) && Quiet(h.stack[h.cur])
    ensures Derailed(h, od, h.stack[h.cur].state)
    ensures h.stack[h.cur].state == ArrayBody || h.stack[h.cur].state == ArrayAfterComma
  {
  }

  lemma NotOk(arr: bool, items: Items, depth: nat)
    requires !ItemsOk(arr, items, depth)
    ensures items.Cons?
    ensures ItemOk(arr, items) && TreeOk(items.value, depth + 1) &&
      !(arr && items.value.Scalar? && items.value.kind != String)
      ==> !ItemsOk(arr, items.rest, depth)
  {
    hide ItemOk, TreeOk;
  }

  lemma {:induction false} ValueRefused(buf: string, m: Machine, od: nat, end: nat, arr: bool, t: Tree)
    requires od < m.cur <= MAX_DEPTH && AtValue(m.stack[m.cur], arr) && Quiet(m.stack[m.cur])
    requires TreeAt(buf, m.i, t) && Valid(t) && m.i + TreeLen(t) <= end && !TreeOk(t, m.cur + 1)
    ensures InRange(m) && Run(buf, m, od, end).0 == Slot(0)
    decreases t, 1
  {
    hide *;
    BranchRest(buf, m.i, t, m.cur + 1, end);
    RangeOf(m);
    if m.cur == MAX_DEPTH {
      TooDeep(buf, m, od, end, arr, t.arr);
      FailsHere(buf, m, od, end);
    } else {
      var o := OpenToken(buf, m, od, end, arr, t.arr);
      OpenedParts(m, o, arr, t.arr);
      TurnsAnyway(buf, m, o, od, end);
      BranchRefused(buf, o, od, end, t, m.i, if arr then 0 else m.nameStart, if arr then 0 else m.nameEnd);
    }
  }

  lemma RangeOf(m: Machine)
    requires m.cur <= MAX_DEPTH
    ensures InRange(m)
  {
  }

  lemma TooDeep(buf: string, m: Machine, od: nat, end: nat, arr: bool, inner: bool)
    requires m.cur == MAX_DEPTH && AtValue(m.stack[m.cur], arr) && Is(buf, m.i, if inner then '[' else '{')
    ensures Token(buf, m, od, end).Error?
  {
  }

  lemma BranchRest(buf: string, i: nat, t: Tree, depth: nat, end: nat)
    requires TreeAt(buf, i, t) && Valid(t) && i + TreeLen(t) <= end && !TreeOk(t, depth)
    ensures t.Branch? && Is(buf, i, if t.arr then '[' else '{') && i < end
    ensures Rest(buf, i + 1, t.arr, t.items, true, t.tail, end)
    ensures depth <= MAX_DEPTH ==> !ItemsOk(t.arr, t.items, depth)
  {
    hide ItemsOk, ValidItems, ItemsAt, ItemsLen, ScalarOk, AllSpace, Matches;
  }

  lemma {:induction false} BranchRefused(buf: string, o: Machine, od: nat, end: nat, t: Tree, i: nat, ns: nat, ne: nat)
    requires od < o.cur && Inside(o, t.Branch? && t.arr, i, ns, ne)
    requires TreeAt(buf, i, t) && Valid(t) && i + TreeLen(t) <= end && !TreeOk(t, o.cur)
    ensures InRange(o) && Continue(buf, o, od, end).0 == Slot(0)
    decreases t, 0
  {
    hide *;
    BranchRest(buf, i, t, o.cur, end);
    InsideReady(o, od, t.arr, i, ns, ne);
    InsideRange(o, t.arr, i, ns, ne);
    ContinueLive(buf, o, od, end);
    ItemsRefused(buf, o.(i := o.i + 1), od, end, t.arr, t.items, true, t.tail);
  }

  lemma InsideRange(o: Machine, inner: bool, i: nat, ns: nat, ne: nat)
    requires Inside(o, inner, i, ns, ne)
    ensures o.cur <= MAX_DEPTH && o.i == i
  {
  }

  /** json__parse on every JSON object text, whatever the stack held: it returns the root object if
      every container sits in record 20 or above and every bare element of an array is a string;
      otherwise it reports an error. */
  lemma ParseExactly(buf: string, lead: string, t: Tree, s: Stack)
    requires JsonText(buf, lead, t)
    ensures Parse(buf, s).0 == if TreeOk(t, 1) then Slot(1) else Slot(0)
  {
    hide Run, Continue, Parse, TreeOk, Valid, Inside, AllSpace;
    if TreeOk(t, 1) {
      var u := ParseDocument(buf, lead, t, s);
    } else {
      var o := ParseStarts(buf, lead, s);
      TextEnds(buf, |lead|, t);
      BranchRefused(buf, o, 0, |buf|, t, |lead|, 0, 0);
    }
  }

  lemma TextEnds(buf: string, i: nat, t: Tree)
    requires t.Branch? && TreeAt(buf, i, t)
    ensures i + TreeLen(t) <= |buf|
  {
    hide ItemsAt, ItemsLen;
  }
}
