/** Enumerating a container with json__get_next, and walking a whole text with json__visitor, give
    what a recursive descent gives. */
module JsonCursor {
  import opened Options
  import opened Json
  import opened JsonLayout
  import opened JsonScan

  // ---- json__get_next -------------------------------------------------------------------------------

  /** The cursor's container is at od and ends in white space tail and its bracket; the search
      resumes at p, and after white space w the items from position i on remain. */
  ghost predicate CursorAt(buf: string, s: Stack, od: nat, child: Ret, p: nat, w: string, i: nat, arr: bool,
                           items: Items, first: bool, tail: string) {
    1 <= od < MAX_DEPTH && s[od].kind == BranchKind(arr) && Quiet(s[od]) &&
    p + |w| == i && Matches(buf, p, w) && AllSpace(w) &&
    ItemsAt(buf, i, arr, items, first) && ItemsOk(arr, items, od) && IsStop(At(buf, i + ItemsLen(arr, items, first))) &&
    AllSpace(tail) && Matches(buf, i + ItemsLen(arr, items, first), tail) &&
    i + ItemsLen(arr, items, first) + |tail| == s[od].valueEnd + 1 &&
    if first then child.Nothing? && p == s[od].valueStart
    else child == Slot(od + 1) && p == Restart(s[od + 1]) && AtItem(s[od], arr, false)
  }

  /** The machine of a call of json__get_next, at position i. */
  function Resumed(s: Stack, od: nat, child: Ret, i: nat): (m: Machine)
    requires od <= MAX_DEPTH
    ensures InRange(m)
  {
    Machine(Started(s, od, child), od, i, 0, 0)
  }

  lemma GetNextStarts(buf: string, s: Stack, od: nat, child: Ret, p: nat, w: string, i: nat, arr: bool, items: Items,
                      first: bool, tail: string)
    requires CursorAt(buf, s, od, child, p, w, i, arr, items, first, tail)
    ensures var m := Resumed(s, od, child, p);
      Live(m, od) && m.cur == od && m.i == p && AtItem(m.stack[od], arr, first) && Quiet(m.stack[od]) &&
      Kept(s, m.stack, od) && m.stack[od].count == 0 &&
      GetNext(buf, s, od, child) == Run(buf, m, od, s[od].valueEnd)
  {
    hide Run, ItemsAt, ItemsOk, ItemsLen, IsStop;
    var m := Resumed(s, od, child, p);
    assert Get(buf, Started(s, od, child), od, p) == Run(buf, m, od, s[od].valueEnd) by {
      assert m.stack[od := m.stack[od].(count := 0)] == m.stack;
    }
  }

  lemma GetNextRuns(buf: string, s: Stack, od: nat, child: Ret, p: nat, w: string, i: nat, arr: bool, items: Items,
                    first: bool, tail: string)
    requires CursorAt(buf, s, od, child, p, w, i, arr, items, first, tail) && i <= s[od].valueEnd
    ensures var m := Resumed(s, od, child, i);
      Live(m, od) && m.cur == od && m.i == i && AtItem(m.stack[od], arr, first) && Quiet(m.stack[od]) &&
      Kept(s, m.stack, od) && m.stack[od].count == 0 &&
      GetNext(buf, s, od, child) == Run(buf, m, od, s[od].valueEnd)
  {
    hide Run, GetNext, ItemsAt, ItemsOk, ItemsLen, IsStop, Restart;
    GetNextStarts(buf, s, od, child, p, w, i, arr, items, first, tail);
    SpaceRun(buf, Resumed(s, od, child, p), od, s[od].valueEnd, w);
  }

  /** The record of the next member and the cursor after json__get_next has found it. */
  ghost predicate Found(s: Stack, t: Stack, od: nat, arr: bool, items: Items, first: bool, i: nat) {
    items.Cons? && od < MAX_DEPTH && Kept(s, t, od) && Quiet(t[od]) && AtItem(t[od], arr, false) &&
    Describes(t[od + 1], items.value, i + HeadLen(arr, items, first),
              NameStart(arr, items, i, first), NameEnd(arr, items, i, first))
  }

  /** The scan covers the head of the next item, and its value unless it is lost. */
  lemma MemberFits(arr: bool, items: Items, first: bool, i: nat, tail: string, end: nat, depth: nat)
    requires items.Cons? && TreeOk(items.value, depth) && i + ItemsLen(arr, items, first) + |tail| == end + 1
    ensures i + HeadLen(arr, items, first) <= end
    ensures !Lost(items, tail) ==> Fits(items.value, i + HeadLen(arr, items, first), end)
    ensures Lost(items, tail) ==> i + HeadLen(arr, items, first) + TreeLen(items.value) == end + 1
  {
    TreeLenPositive(items.value, depth);
  }

  /** json__get_next returns the next item in text order, with its exact name and value. */
  lemma NextMember(buf: string, s: Stack, od: nat, child: Ret, p: nat, w: string, i: nat, arr: bool, items: Items,
                   first: bool, tail: string) returns (t: Stack)
    requires CursorAt(buf, s, od, child, p, w, i, arr, items, first, tail) && items.Cons? && !Lost(items, tail)
    ensures GetNext(buf, s, od, child) == (Slot(od + 1), t) && Found(s, t, od, arr, items, first, i)
  {
    hide *;
    CursorDepth(buf, s, od, child, p, w, i, arr, items, first, tail);
    ItemParts(buf, i, arr, items, first, od);
    var m, end := Resumed(s, od, child, i), s[od].valueEnd;
    MemberFits(arr, items, first, i, tail, end, od + 1);
    GetNextRuns(buf, s, od, child, p, w, i, arr, items, first, tail);
    ItemFollowed(buf, i + HeadLen(arr, items, first) + TreeLen(items.value), arr, items.after, items.rest);
    HeadRun(buf, m, od, end, arr, items, first);
    HeadReady(m, od, arr, items, first);
    var h := AtHeadEnd(m, arr, items, first);
    var v := ValueRun(buf, h, od, end, arr, items.value);
    HeadKeepsCount(m, arr, items, first);
    ValueFound(s, m, h, v, od, arr, items, first, i);
    FoundHere(buf, v, od, end);
    t := v.stack;
  }

  lemma ValueFound(s: Stack, m: Machine, h: Machine, v: Machine, od: nat, arr: bool, items: Items, first: bool, i: nat)
    requires items.Cons? && od < MAX_DEPTH && h.cur == m.cur == od && m.i == i && Kept(s, m.stack, od)
    requires Kept(m.stack, h.stack, od)
    requires ValueRead(h, v, arr, items.value) && h.stack[od].count == 0 && h.i == i + HeadLen(arr, items, first)
    requires !arr ==> h.nameStart == NameStart(arr, items, i, first) && h.nameEnd == NameEnd(arr, items, i, first)
    ensures Found(s, v.stack, od, arr, items, first, i) && InRange(v) && v.cur == od && v.stack[od].count == 1
  {
    hide HeadLen, TreeLen;
    KeptTransitive(s, m.stack, h.stack, od);
    KeptTransitive(s, h.stack, v.stack, od);
  }

  lemma HeadKeepsCount(m: Machine, arr: bool, items: Items, first: bool)
    requires items.Cons? && InRange(m)
    ensures AtHeadEnd(m, arr, items, first).stack[m.cur].count == m.stack[m.cur].count
  {
  }

  lemma FoundHere(buf: string, v: Machine, od: nat, end: nat)
    requires InRange(v) && v.cur == od && v.stack[od].count == 1
    ensures Continue(buf, v, od, end) == (Slot(od + 1), v.stack)
  {
    hide Run;
  }

  /** The loop has covered its text without completing a member. */
  lemma RunDry(buf: string, m: Machine, od: nat, end: nat)
    requires InRange(m) && m.i >= end && (m.cur == od ==> m.stack[od].count == 0)
    ensures Run(buf, m, od, end) == (Nothing, m.stack)
  {
  }

  /** After the last item json__get_next returns no object. */
  lemma NoMoreMembers(buf: string, s: Stack, od: nat, child: Ret, p: nat, w: string, i: nat, arr: bool, first: bool,
                      tail: string) returns (t: Stack)
    requires CursorAt(buf, s, od, child, p, w, i, arr, Nil, first, tail)
    ensures GetNext(buf, s, od, child) == (Nothing, t) && Kept(s, t, od) && Quiet(t[od])
  {
    hide Token, GetNext, Run, Restart, Matches, AllSpace;
    GetNextStarts(buf, s, od, child, p, w, i, arr, Nil, first, tail);
    var m, space := Resumed(s, od, child, p), w + tail;
    SpacesJoin(buf, p, w, tail);
    var w1 := space[..if space == "" then 0 else |space| - 1];
    if space != "" { SpaceRun(buf, m, od, s[od].valueEnd, w1); }
    RunDry(buf, m.(i := p + |w1|), od, s[od].valueEnd);
    t := m.stack;
  }

  lemma SpacesJoin(buf: string, p: nat, w: string, tail: string)
    requires Matches(buf, p, w) && AllSpace(w) && Matches(buf, p + |w|, tail) && AllSpace(tail)
    ensures forall n :: 0 <= n <= |w + tail| ==> Matches(buf, p, (w + tail)[..n]) && AllSpace((w + tail)[..n])
  {
    forall n | 0 <= n <= |w + tail| ensures Matches(buf, p, (w + tail)[..n]) && AllSpace((w + tail)[..n]) {
      forall k | 0 <= k < n ensures buf[p + k] == (w + tail)[k] {
        if k < |w| { MatchesAt(buf, p, w, k); } else { MatchesAt(buf, p + |w|, tail, k - |w|); }
      }
      assert buf[p..p + n] == (w + tail)[..n];
    }
  }

  /** A lost item is not returned either. */
  lemma LostMember(buf: string, s: Stack, od: nat, child: Ret, p: nat, w: string, i: nat, arr: bool, items: Items,
                   first: bool, tail: string) returns (t: Stack)
    requires CursorAt(buf, s, od, child, p, w, i, arr, items, first, tail) && Lost(items, tail)
    ensures GetNext(buf, s, od, child) == (Nothing, t) && Kept(s, t, od) && Quiet(t[od])
  {
    hide Run, Token, Continue, GetNext, ItemsAt, ItemsOk, ItemsLen, IsStop, TreeAt, TreeOk, TreeLen, HeadAt, StringBody,
         AllSpace, Matches, Fits, HeadLen, Restart, AtHeadEnd;
    ItemParts(buf, i, arr, items, first, od);
    var m, end := Resumed(s, od, child, i), s[od].valueEnd;
    MemberFits(arr, items, first, i, tail, end, od + 1);
    GetNextRuns(buf, s, od, child, p, w, i, arr, items, first, tail);
    HeadRun(buf, m, od, end, arr, items, first);
    HeadReady(m, od, arr, items, first);
    HeadKeepsCount(m, arr, items, first);
    var h := AtHeadEnd(m, arr, items, first);
    t := LostValue(buf, h, od, end, arr, items.value);
    KeptTransitive(s, m.stack, h.stack, od);
    KeptTransitive(s, h.stack, t, od);
  }

  lemma LostValue(buf: string, h: Machine, od: nat, end: nat, arr: bool, t: Tree) returns (u: Stack)
    requires 1 <= od == h.cur < MAX_DEPTH && h.stack[od].count == 0 && AtValue(h.stack[od], arr) && Quiet(h.stack[od])
    requires TreeAt(buf, h.i, t) && TreeOk(t, od + 1) && h.i + TreeLen(t) == end + 1
    requires t.Branch? || (t.kind != String && |t.text| <= 1)
    ensures Run(buf, h, od, end) == (Nothing, u) && Kept(h.stack, u, od) && Quiet(u[od])
  {
    if t.Scalar? {
      hide Run;
      RunDry(buf, h, od, end);
      u := h.stack;
    } else {
      hide *;
      u := LostBranch(buf, h, od, end, arr, t);
    }
  }

  lemma LostBranch(buf: string, h: Machine, od: nat, end: nat, arr: bool, t: Tree) returns (u: Stack)
    requires t.Branch? && 1 <= od == h.cur < MAX_DEPTH && AtValue(h.stack[od], arr) && Quiet(h.stack[od])
    requires TreeAt(buf, h.i, t) && TreeOk(t, od + 1) && h.i + TreeLen(t) == end + 1
    ensures Run(buf, h, od, end) == (Nothing, u) && Kept(h.stack, u, od) && Quiet(u[od])
  {
    hide *;
    BranchParts(buf, h.i, t, od + 1);
    var o := OpenToken(buf, h, od, end, arr, t.arr);
    OpenedParts(h, o, arr, t.arr);
    TurnsAnyway(buf, h, o, od, end);
    var ns, ne := if arr then 0 else h.nameStart, if arr then 0 else h.nameEnd;
    InsideReady(o, od, t.arr, h.i, ns, ne);
    ContinueLive(buf, o, od, end);
    var m1 := o.(i := o.i + 1);
    var q := ItemsRun(buf, m1, od, end, t.arr, t.items, true);
    ItemsContinue(m1, q, od, t.arr, t.items, true);
    SpaceRun(buf, q, od, end, t.tail);
    RunDry(buf, q.(i := q.i + |t.tail|), od, end);
    u := q.stack;
    KeptBelow(h, o, m1, q, t.arr, t.items);
  }

  lemma OpenedParts(m: Machine, n: Machine, arr: bool, inner: bool)
    requires Opened(m, n, arr, inner)
    ensures n.cur == m.cur + 1 && InRange(m) && InRange(n) && n.i == m.i && Kept(m.stack, n.stack, m.cur)
    ensures Quiet(n.stack[m.cur])
    ensures Inside(n, inner, m.i, if arr then 0 else m.nameStart, if arr then 0 else m.nameEnd)
  {
  }

  lemma KeptBelow(h: Machine, o: Machine, m: Machine, q: Machine, arr: bool, items: Items)
    requires o.cur == h.cur + 1 <= MAX_DEPTH && m.cur == o.cur && m.stack == o.stack && Kept(h.stack, o.stack, h.cur)
    requires ItemsRead(m, q, arr, items, true) && Quiet(o.stack[h.cur])
    ensures Kept(h.stack, q.stack, h.cur) && Quiet(q.stack[h.cur])
  {
  }

  // ---- json__visitor --------------------------------------------------------------------------------

  /** The number of nested calls a visit takes. */
  function Need(t: Tree): nat
    decreases t
  {
    if t.Scalar? then 0 else NeedItems(t.items, t.tail)
  }

  function NeedItems(items: Items, tail: string): (n: nat)
    ensures n >= 1
    decreases items
  {
    if NoneSeen(items, tail) then 1 else
    var v, r := Need(items.value), NeedItems(items.rest, tail);
    1 + if v < r then r else v
  }

  lemma RestartAfter(o: Obj, t: Tree, i: nat, ns: nat, ne: nat, depth: nat)
    requires Describes(o, t, i, ns, ne) && TreeOk(t, depth)
    ensures Restart(o) == i + TreeLen(t)
  {
  }

  /** Everything below record k is as before, and record k still describes the same value. */
  ghost predicate Untouched(s: Stack, t: Stack, k: nat)
    requires k <= MAX_DEPTH + 1
  {
    (forall j :: 0 <= j < k ==> t[j] == s[j]) && SameRecord(s[k], t[k])
  }

  /** In record 20 every json__get_next is an error, which hands back the first record: no visit of
      such a container ever ends. */
  lemma {:induction false} TopIsEndless(buf: string, s: Stack, child: Ret, fuel: nat)
    requires child.Slot? ==> child.k <= MAX_DEPTH + 1
    ensures GetNext(buf, s, MAX_DEPTH, child).0 == Slot(0)
    ensures VisitRest(buf, s, MAX_DEPTH, child, fuel) == None
    decreases fuel
  {
    hide Run, Visit;
    if fuel > 0 {
      var t := GetNext(buf, s, MAX_DEPTH, child).1;
      match Visit(buf, t, 0, fuel - 1)
      case None =>
      case Some((log, u)) => TopIsEndless(buf, u, Slot(0), fuel - 1);
    }
  }

  lemma TopVisit(buf: string, s: Stack, fuel: nat)
    requires IsContainer(s[MAX_DEPTH].kind)
    ensures Visit(buf, s, MAX_DEPTH, fuel) == None
  {
    hide VisitRest;
    TopIsEndless(buf, s, Nothing, fuel);
  }

  /** A visit does what recursive descent does with the items that are seen, or never ends. */
  ghost predicate Visits(v: Option<(seq<Entry>, Stack)>, ends: bool, log: seq<Entry>, u: Stack) {
    v == if ends then Some((log, u)) else None
  }

  lemma {:induction false} VisitTree(buf: string, s: Stack, k: nat, t: Tree, i: nat, ns: nat, ne: nat,
                                     fuel: nat) returns (u: Stack)
    requires 1 <= k <= MAX_DEPTH && Describes(s[k], t, i, ns, ne) && TreeAt(buf, i, t) && TreeOk(t, k)
    ensures Visits(Visit(buf, s, k, fuel), !Endless(t, k) && fuel >= Need(t), SeenLog(t, i, k, ns, ne), u)
    ensures Untouched(s, u, k) && (!Endless(t, k) && fuel >= Need(t) ==> Describes(u[k], t, i, ns, ne))
    decreases t, 1
  {
    u := s;
    if t.Scalar? {
      assert SeenLog(t, i, k, ns, ne) == [TreeEntry(t, i, k, ns, ne)];
    } else if k == MAX_DEPTH {
      TopVisit(buf, s, fuel);
    } else {
      u := VisitBranch(buf, s, k, t, i, ns, ne, fuel);
    }
  }

  lemma {:induction false} VisitBranch(buf: string, s: Stack, k: nat, t: Tree, i: nat, ns: nat, ne: nat,
                                       fuel: nat) returns (u: Stack)
    requires t.Branch? && 1 <= k < MAX_DEPTH && Describes(s[k], t, i, ns, ne) && TreeAt(buf, i, t) && TreeOk(t, k)
    ensures Visits(Visit(buf, s, k, fuel), !Endless(t, k) && fuel >= Need(t), SeenLog(t, i, k, ns, ne), u)
    ensures Untouched(s, u, k) && (!Endless(t, k) && fuel >= Need(t) ==> Describes(u[k], t, i, ns, ne))
    decreases t, 0
  {
    hide *;
    BranchCursor(buf, s, k, t, i);
    u := VisitItems(buf, s, k, Nothing, i + 1, "", i + 1, t.arr, t.items, true, t.tail, fuel);
    BranchVisited(buf, s, u, k, t, i, ns, ne, fuel);
  }

  /** A described branch is ready to be enumerated. */
  lemma BranchCursor(buf: string, s: Stack, k: nat, t: Tree, i: nat)
    requires t.Branch? && 1 <= k < MAX_DEPTH && TreeOk(t, k) && TreeAt(buf, i, t)
    requires exists ns, ne :: Describes(s[k], t, i, ns, ne)
    ensures CursorAt(buf, s, k, Nothing, i + 1, "", i + 1, t.arr, t.items, true, t.tail)
  {
    hide ItemsAt, ItemsOk, ItemsLen, IsStop;
    BranchParts(buf, i, t, k);
    EmptyMatches(buf, i + 1);
  }

  lemma BranchVisited(buf: string, s: Stack, u: Stack, k: nat, t: Tree, i: nat, ns: nat, ne: nat, fuel: nat)
    requires t.Branch? && 1 <= k < MAX_DEPTH && Describes(s[k], t, i, ns, ne) && Kept(s, u, k)
    requires !EndlessItems(t.items, t.tail, k + 1) && fuel >= NeedItems(t.items, t.tail) ==> Quiet(u[k])
    requires Visits(VisitRest(buf, s, k, Nothing, fuel),
                    !EndlessItems(t.items, t.tail, k + 1) && fuel >= NeedItems(t.items, t.tail),
                    SeenItemsLog(t.arr, t.items, t.tail, i + 1, true, k + 1), u)
    ensures Visits(Visit(buf, s, k, fuel), !Endless(t, k) && fuel >= Need(t), SeenLog(t, i, k, ns, ne), u)
    ensures Untouched(s, u, k)
    ensures !Endless(t, k) && fuel >= Need(t) ==> Describes(u[k], t, i, ns, ne)
  {
    hide VisitRest, SeenItemsLog, EndlessItems, NeedItems, ItemsLen;
  }

  lemma EmptyMatches(buf: string, i: nat)
    requires i <= |buf|
    ensures Matches(buf, i, "") && AllSpace("")
  {
  }

  lemma {:induction false} VisitItems(buf: string, s: Stack, k: nat, child: Ret, p: nat, w: string, i: nat,
                                      arr: bool, items: Items, first: bool, tail: string, fuel: nat) returns (u: Stack)
    requires CursorAt(buf, s, k, child, p, w, i, arr, items, first, tail)
    ensures 1 <= k < MAX_DEPTH && (child.Slot? ==> child.k <= MAX_DEPTH + 1)
    ensures Visits(VisitRest(buf, s, k, child, fuel),
                   !EndlessItems(items, tail, k + 1) && fuel >= NeedItems(items, tail),
                   SeenItemsLog(arr, items, tail, i, first, k + 1), u)
    ensures Kept(s, u, k) && (!EndlessItems(items, tail, k + 1) && fuel >= NeedItems(items, tail) ==> Quiet(u[k]))
    decreases items, 1
  {
    hide *;
    CursorDepth(buf, s, k, child, p, w, i, arr, items, first, tail);
    u := s;
    if fuel == 0 {
      NoFuel(buf, s, k, child, p, w, i, arr, items, first, tail, SeenItemsLog(arr, items, tail, i, first, k + 1));
    } else if NoneSeen(items, tail) {
      u := Exhausted(buf, s, k, child, p, w, i, arr, items, first, tail);
      NoneVisited(buf, s, u, k, child, arr, items, tail, i, first, fuel);
    } else {
      u := VisitMember(buf, s, k, child, p, w, i, arr, items, first, tail, fuel);
    }
  }

  lemma NoFuel(buf: string, s: Stack, k: nat, child: Ret, p: nat, w: string, i: nat, arr: bool, items: Items,
               first: bool, tail: string, log: seq<Entry>)
    requires CursorAt(buf, s, k, child, p, w, i, arr, items, first, tail)
    ensures 1 <= k < MAX_DEPTH && (child.Slot? ==> child.k <= MAX_DEPTH + 1) && Kept(s, s, k)
    ensures Visits(VisitRest(buf, s, k, child, 0), !EndlessItems(items, tail, k + 1) && 0 >= NeedItems(items, tail),
                   log, s)
  {
    hide NeedItems, EndlessItems, ItemsAt, ItemsOk, ItemsLen;
  }

  /** Nothing more is seen. */
  lemma Exhausted(buf: string, s: Stack, k: nat, child: Ret, p: nat, w: string, i: nat, arr: bool, items: Items,
                  first: bool, tail: string) returns (t: Stack)
    requires CursorAt(buf, s, k, child, p, w, i, arr, items, first, tail) && NoneSeen(items, tail)
    ensures k <= MAX_DEPTH && (child.Slot? ==> child.k <= MAX_DEPTH + 1)
    ensures GetNext(buf, s, k, child) == (Nothing, t) && Kept(s, t, k) && Quiet(t[k])
  {
    hide GetNext, ItemsAt, ItemsOk, ItemsLen, Matches, AllSpace, Lost, IsStop, Restart;
    if items.Nil? {
      t := NoMoreMembers(buf, s, k, child, p, w, i, arr, first, tail);
    } else {
      t := LostMember(buf, s, k, child, p, w, i, arr, items, first, tail);
    }
  }

  lemma NoneVisited(buf: string, s: Stack, t: Stack, k: nat, child: Ret, arr: bool, items: Items, tail: string, i: nat,
                    first: bool, fuel: nat)
    requires k < MAX_DEPTH && (child.Slot? ==> child.k <= MAX_DEPTH + 1) && fuel > 0 && NoneSeen(items, tail)
    requires GetNext(buf, s, k, child) == (Nothing, t)
    ensures Visits(VisitRest(buf, s, k, child, fuel),
                   !EndlessItems(items, tail, k + 1) && fuel >= NeedItems(items, tail),
                   SeenItemsLog(arr, items, tail, i, first, k + 1), t)
  {
    hide GetNext, Visit, Lost;
  }

  lemma CursorDepth(buf: string, s: Stack, k: nat, child: Ret, p: nat, w: string, i: nat, arr: bool, items: Items,
                    first: bool, tail: string)
    requires CursorAt(buf, s, k, child, p, w, i, arr, items, first, tail)
    ensures 1 <= k < MAX_DEPTH && (child.Slot? ==> child.k <= MAX_DEPTH + 1) && (first <==> child.Nothing?)
    ensures Kept(s, s, k)
    ensures ItemsOk(arr, items, k) && ItemsAt(buf, i, arr, items, first)
    ensures IsStop(At(buf, i + ItemsLen(arr, items, first)))
    ensures i + ItemsLen(arr, items, first) + |tail| == s[k].valueEnd + 1
  {
  }

  lemma SomeSeen(items: Items, tail: string)
    ensures NoneSeen(items, tail) <==> items.Nil? || Lost(items, tail)
  {
  }

  lemma {:induction false} VisitMember(buf: string, s: Stack, k: nat, child: Ret, p: nat, w: string, i: nat,
                                       arr: bool, items: Items, first: bool, tail: string, fuel: nat) returns (u: Stack)
    requires CursorAt(buf, s, k, child, p, w, i, arr, items, first, tail) && !NoneSeen(items, tail) && fuel > 0
    ensures 1 <= k < MAX_DEPTH && (child.Slot? ==> child.k <= MAX_DEPTH + 1)
    ensures Visits(VisitRest(buf, s, k, child, fuel),
                   !EndlessItems(items, tail, k + 1) && fuel >= NeedItems(items, tail),
                   SeenItemsLog(arr, items, tail, i, first, k + 1), u)
    ensures Kept(s, u, k) && (!EndlessItems(items, tail, k + 1) && fuel >= NeedItems(items, tail) ==> Quiet(u[k]))
    decreases items, 0
  {
    hide *;
    CursorDepth(buf, s, k, child, p, w, i, arr, items, first, tail);
    SomeSeen(items, tail);
    ItemParts(buf, i, arr, items, first, k);
    var v := i + HeadLen(arr, items, first);
    var ns, ne := NameStart(arr, items, i, first), NameEnd(arr, items, i, first);
    var t := NextMember(buf, s, k, child, p, w, i, arr, items, first, tail);
    FoundParts(s, t, k, arr, items, first, i);
    var m := VisitTree(buf, t, k + 1, items.value, v, ns, ne, fuel - 1);
    var q := v + TreeLen(items.value);
    CursorMoves(buf, s, t, m, k, child, p, w, i, arr, items, first, tail);
    u := VisitItems(buf, m, k, Slot(k + 1), q, items.after, q + |items.after|, arr, items.rest, false, tail, fuel - 1);
    MemberVisited(buf, s, t, m, u, k, child, arr, items, tail, i, first, fuel);
    RestEnds(items, tail, k + 1);
    KeptJoin(s, t, m, u, k);
  }

  lemma RestEnds(items: Items, tail: string, depth: nat)
    requires !NoneSeen(items, tail)
    ensures items.Cons? && NeedItems(items, tail) >= 1 + NeedItems(items.rest, tail)
    ensures EndlessItems(items.rest, tail, depth) ==> EndlessItems(items, tail, depth)
  {
    hide Lost, Need, Endless;
  }

  lemma FoundParts(s: Stack, t: Stack, k: nat, arr: bool, items: Items, first: bool, i: nat)
    requires Found(s, t, k, arr, items, first, i)
    ensures k < MAX_DEPTH && items.Cons? && Kept(s, t, k)
    ensures Describes(t[k + 1], items.value, i + HeadLen(arr, items, first),
                      NameStart(arr, items, i, first), NameEnd(arr, items, i, first))
  {
  }

  /** When a member has been visited the cursor stands right after it. */
  lemma CursorMoves(buf: string, s: Stack, t: Stack, m: Stack, k: nat, child: Ret, p: nat, w: string, i: nat,
                    arr: bool, items: Items, first: bool, tail: string)
    requires CursorAt(buf, s, k, child, p, w, i, arr, items, first, tail) && Found(s, t, k, arr, items, first, i)
    requires Untouched(t, m, k + 1)
    ensures var q := i + HeadLen(arr, items, first) + TreeLen(items.value);
      CursorAt(buf, m, k, Slot(k + 1), q, items.after, q + |items.after|, arr, items.rest, false, tail)
  {
    hide ItemsAt, ItemsOk, ItemsLen, IsStop, TreeAt, TreeOk, HeadAt, StringBody, AllSpace, Matches, HeadLen, TreeLen;
    ItemParts(buf, i, arr, items, first, k);
    var v := i + HeadLen(arr, items, first);
    RestartAfter(t[k + 1], items.value, v, NameStart(arr, items, i, first), NameEnd(arr, items, i, first), k + 1);
    assert SameRecord(t[k + 1], m[k + 1]) && m[k] == t[k];
  }

  lemma MemberVisited(buf: string, s: Stack, t: Stack, m: Stack, u: Stack, k: nat, child: Ret, arr: bool, items: Items,
                      tail: string, i: nat, first: bool, fuel: nat)
    requires k < MAX_DEPTH && (child.Slot? ==> child.k <= MAX_DEPTH + 1) && fuel > 0 && !NoneSeen(items, tail)
    requires GetNext(buf, s, k, child) == (Slot(k + 1), t)
    requires var v := i + HeadLen(arr, items, first);
      Visits(Visit(buf, t, k + 1, fuel - 1), !Endless(items.value, k + 1) && fuel - 1 >= Need(items.value),
             SeenLog(items.value, v, k + 1, NameStart(arr, items, i, first), NameEnd(arr, items, i, first)), m) &&
      Visits(VisitRest(buf, m, k, Slot(k + 1), fuel - 1),
             !EndlessItems(items.rest, tail, k + 1) && fuel - 1 >= NeedItems(items.rest, tail),
             SeenItemsLog(arr, items.rest, tail, v + TreeLen(items.value) + |items.after|, false, k + 1), u)
    ensures Visits(VisitRest(buf, s, k, child, fuel),
                   !EndlessItems(items, tail, k + 1) && fuel >= NeedItems(items, tail),
                   SeenItemsLog(arr, items, tail, i, first, k + 1), u)
  {
    hide GetNext, Visit, NoneSeen, HeadLen, TreeLen, Need, Endless, SeenLog;
  }

  lemma KeptJoin(s: Stack, t: Stack, m: Stack, u: Stack, k: nat)
    requires k < MAX_DEPTH && Kept(s, t, k) && Untouched(t, m, k + 1) && Kept(m, u, k)
    ensures Kept(s, u, k)
  {
    assert m[k] == t[k];
  }

  // ---- Whole texts ----------------------------------------------------------------------------------

  /** White space, then a JSON object, then anything. */
  ghost predicate JsonText(buf: string, lead: string, t: Tree) {
    AllSpace(lead) && Matches(buf, 0, lead) && t.Branch? && !t.arr && TreeAt(buf, |lead|, t) && Valid(t)
  }

  /** Such a text that the scanner accepts. */
  ghost predicate Document(buf: string, lead: string, t: Tree) {
    JsonText(buf, lead, t) && TreeOk(t, 1)
  }

  /** json__parse up to the opening bracket, whatever the stack held. */
  lemma ParseStarts(buf: string, lead: string, s: Stack) returns (o: Machine)
    requires AllSpace(lead) && Matches(buf, 0, lead) && Is(buf, |lead|, '{')
    ensures InRange(o) && Parse(buf, s) == Continue(buf, o, 0, |buf|)
    ensures o.cur == 1 && Inside(o, false, |lead|, 0, 0) && o.stack[0].count == 1
  {
    hide Run, Token, Continue;
    var root := Root(s[0], |buf|);
    var m := Machine(s[0 := root], 0, 0, 0, 0);
    assert m.stack[0 := m.stack[0].(count := 0)] == m.stack;
    assert Parse(buf, s) == Run(buf, m, 0, |buf|);
    SpaceRun(buf, m, 0, |buf|, lead);
    var m1 := m.(i := |lead|);
    o := OpenRoot(buf, m1);
    Turns(buf, m1, o, 0, |buf|);
  }

  /** json__parse: the root object, described exactly. */
  lemma ParseDocument(buf: string, lead: string, t: Tree, s: Stack) returns (u: Stack)
    requires Document(buf, lead, t)
    ensures Parse(buf, s) == (Slot(1), u) && Describes(u[1], t, |lead|, 0, 0)
  {
    hide Run, Token, Continue, TreeAt, TreeOk, TreeLen, Parse, Inside, Describes;
    BranchParts(buf, |lead|, t, 1);
    var o := ParseStarts(buf, lead, s);
    var n := BranchRun(buf, o, 0, |buf|, t, |lead|, 0, 0);
    FoundHere(buf, n, 0, |buf|);
    u := n.stack;
  }

  lemma OpenRoot(buf: string, m: Machine) returns (o: Machine)
    requires m.cur == 0 && m.stack[0].state == Init && m.stack[0].childKind == Undefined && m.stack[0].count == 0
    requires Is(buf, m.i, '{')
    ensures Token(buf, m, 0, |buf|) == Ok(o) && o.cur == 1 && Inside(o, false, m.i, 0, 0) && o.stack[0].count == 1
  {
    o := OpenBracket(m, Object).m;
  }

  /** json__parse followed by json__visitor, on every text the scanner accepts: the visit ends if
      and only if no container is seen in record 20, and then its callbacks are, in order, those of
      a recursive descent over what is seen, with exact depths, kinds, names and values, although
      every deeper record is reused and overwritten on the way. */
  lemma VisitDocument(buf: string, lead: string, t: Tree, s: Stack, fuel: nat) returns (u: Stack)
    requires Document(buf, lead, t)
    ensures Parse(buf, s).0 == Slot(1)
    ensures Visits(Visit(buf, Parse(buf, s).1, 1, fuel), !Endless(t, 1) && fuel >= Need(t), SeenLog(t, |lead|, 1, 0, 0),
                   u)
    ensures !Endless(t, 1) && fuel >= Need(t) ==> Describes(u[1], t, |lead|, 0, 0)
  {
    hide Run, Visit, Visits, SeenLog, TreeAt, TreeOk, Parse, Endless;
    var p := ParseDocument(buf, lead, t, s);
    DocumentParts(buf, lead, t);
    u := VisitTree(buf, p, 1, t, |lead|, 0, 0, fuel);
  }

  lemma DocumentParts(buf: string, lead: string, t: Tree)
    requires Document(buf, lead, t)
    ensures TreeAt(buf, |lead|, t) && TreeOk(t, 1)
  {
  }
}
