/** json__dump, the tree an enumeration stands for, and the round trip between the two. */
module JsonDump {
  import opened Options
  import opened Json
  import opened JsonLayout
  import opened JsonScan
  import opened JsonCursor

  // ---- The printer ----------------------------------------------------------------------------------

  /** The length of the copy buffer; it has room for a NUL at least. */
  type Size = n: nat | n >= 1 witness 1

  /** The text written and the stack left behind, or the exit taken for a name or value that does
      not fit the buffer or an object of unknown kind. */
  datatype Output = Exit | Printed(text: string, stack: Stack)

  function Spaces(n: nat): (w: string)
    ensures |w| == n && AllSpace(w) && forall i :: 0 <= i < n ==> w[i] == ' '
  {
    seq(n, i => ' ')
  }

  /** What printf shows of a copied string: everything before the first NUL. */
  function Shown(text: string): string {
    if text == "" || text[0] == '\0' then "" else [text[0]] + Shown(text[1..])
  }

  /** json__copy_string; the length is an unsigned difference. */
  function Copied(buf: string, start: nat, end: nat, limit: Size): Option<string> {
    if end < start || end - start + 1 >= limit then None
    else Some(Shown(seq(end - start, i requires i >= 0 => At(buf, start + i))))
  }

  /** The name of a member and its colon. */
  function NamePart(buf: string, o: Obj, k: nat, limit: Size): Option<string> {
    if o.nameEnd == 0 then Some("") else
    match Copied(buf, o.nameStart, o.nameEnd, limit)
    case None => None
    case Some(name) => Some(Spaces(k) + "\"" + name + "\":")
  }

  function DumpScalar(buf: string, s: Stack, k: nat, limit: Size): Output
    requires k <= MAX_DEPTH + 1
  {
    var o := s[k];
    var name, value := NamePart(buf, o, k, limit), Copied(buf, o.valueStart, o.valueEnd, limit);
    if name.None? || value.None? then Exit else
    Printed(name.value + (if o.nameEnd == 0 then Spaces(k) else "") +
            (if o.kind == String then "\"" + value.value + "\"" else value.value), s)
  }

  function Dump(buf: string, s: Stack, k: nat, limit: Size, fuel: nat): Option<Output>
    requires k <= MAX_DEPTH + 1
    decreases fuel, 1
  {
    var o := s[k];
    if IsScalarKind(o.kind) then Some(DumpScalar(buf, s, k, limit)) else
    var name := NamePart(buf, o, k, limit);
    if name.None? || !IsContainer(o.kind) then Some(Exit)
    else if k > MAX_DEPTH then None
    else
      match DumpMembers(buf, s, k, Nothing, limit, fuel)
      case None => None
      case Some(Exit) => Some(Exit)
      case Some(Printed(members, t)) =>
        Some(Printed(name.value + (if o.nameEnd == 0 then "" else "\n") + Spaces(k) +
                     (if o.kind == Object then "{\n" else "[\n") +
                     members + "\n" + Spaces(k) + (if o.kind == Object then "}" else "]"), t))
  }

  /** The loop: get the next member; if there is one, a comma unless it is the first, and dump it. */
  function DumpMembers(buf: string, s: Stack, k: nat, child: Ret, limit: Size, fuel: nat): Option<Output>
    requires k <= MAX_DEPTH && (child.Slot? ==> child.k <= MAX_DEPTH + 1)
    decreases fuel, 0
  {
    if fuel == 0 then None else
    var (next, t) := GetNext(buf, s, k, child);
    if next.Nothing? then Some(Printed("", t)) else
    match Dump(buf, t, next.k, limit, fuel - 1)
    case None => None
    case Some(Exit) => Some(Exit)
    case Some(Printed(text, u)) =>
      match DumpMembers(buf, u, k, next, limit, fuel - 1)
      case None => None
      case Some(Exit) => Some(Exit)
      case Some(Printed(rest, v)) => Some(Printed((if child.Slot? then ",\n" else "") + text + rest, v))
  }

  // ---- What it should print -------------------------------------------------------------------------

  function Label(name: Option<string>, depth: nat): string {
    if name.Some? then Spaces(depth) + "\"" + name.value + "\":" else ""
  }

  function ScalarText(t: Tree): string
    requires t.Scalar?
  {
    if t.kind == String then "\"" + t.text + "\"" else t.text
  }

  /** The printed form of a tree: one member a line, indented by depth. */
  function Show(t: Tree, depth: nat, name: Option<string>): string
    decreases t
  {
    Label(name, depth) +
    match t
    case Scalar(kind, text) => (if name.Some? then "" else Spaces(depth)) + ScalarText(t)
    case Branch(arr, items, tail) =>
      (if name.Some? then "\n" else "") + Spaces(depth) + (if arr then "[\n" else "{\n") +
      ShowItems(arr, items, depth + 1, true) + "\n" + Spaces(depth) + (if arr then "]" else "}")
  }

  function ItemName(arr: bool, items: Items): Option<string>
    requires items.Cons?
  {
    if arr then None else Some(items.name)
  }

  function ShowItems(arr: bool, items: Items, depth: nat, first: bool): string
    decreases items
  {
    if items.Nil? then "" else
    (if first then "" else ",\n") + Show(items.value, depth, ItemName(arr, items)) +
    ShowItems(arr, items.rest, depth, false)
  }

  lemma Indents()
    ensures Spaces(1) == " " && Spaces(2) == "  " && Spaces(3) == "   "
  {
  }

  function Element(value: Tree, rest: Items): Items { Cons("", "", "", "", value, "", rest) }

  lemma TwoShown(v: Tree, w: Tree, depth: nat)
    ensures ShowItems(true, Element(v, Element(w, Nil)), depth, true) ==
      Show(v, depth, None) + ",\n" + Show(w, depth, None)
  {
    var last := Element(w, Nil);
    assert last.rest == Nil && ShowItems(true, Nil, depth, false) == "";
    assert ShowItems(true, last, depth, false) == ",\n" + Show(w, depth, None);
    assert Element(v, last).rest == last && Element(v, last).value == v;
  }

  lemma ElementsJoin(x: string, body: string)
    ensures x + ("\n" + "  " + "[\n" + body + "\n" + "  " + "]") == x + "\n" + "  " + "[\n" + body + "\n" + "  " + "]"
    ensures "" + ("" + "  " + "{\n" + body + "\n" + "  " + "}") == "  " + "{\n" + body + "\n" + "  " + "}"
  {
  }

  /** The layout of scalars at depth 2, with and without a name. */
  lemma ScalarLayout()
    ensures Show(Scalar(Null, "null"), 2, Some("b")) == "  \"b\":null"
    ensures Show(Scalar(String, "d"), 2, None) == "  \"d\""
  {
    hide Spaces;
    Indents();
  }

  /** The layout of containers at depth 2: a blank for each level, one value a line, the brackets on
      lines of their own below the name. */
  lemma Layout(v: Tree, w: Tree)
    ensures Show(Branch(true, Element(v, Element(w, Nil)), ""), 2, Some("a")) ==
      "  \"a\":" + "\n" + "  " + "[\n" + (Show(v, 3, None) + ",\n" + Show(w, 3, None)) + "\n" + "  " + "]"
    ensures Show(Branch(false, Nil, ""), 2, None) == "  " + "{\n" + "" + "\n" + "  " + "}"
  {
    hide Spaces;
    Indents();
    var items := Element(v, Element(w, Nil));
    TwoShown(v, w, 3);
    assert Label(Some("a"), 2) == "  \"a\":";
    ElementsJoin("  \"a\":", ShowItems(true, items, 3, true));
    ElementsJoin("", "");
    assert ShowItems(false, Nil, 3, true) == "";
  }

  // ---- What fits the copy buffer, and what %s shows of it -----------------------------------------------

  predicate Short(text: string, limit: Size) { |text| + 1 < limit }

  predicate NulFree(text: string) { forall i :: 0 <= i < |text| ==> text[i] != '\0' }

  predicate NameShort(name: Option<string>, limit: Size) { name.Some? ==> Short(name.value, limit) }

  /** Every name and scalar fits the copy buffer. */
  predicate TreeShort(t: Tree, limit: Size)
    decreases t
  {
    match t
    case Scalar(kind, text) => Short(text, limit)
    case Branch(arr, items, tail) => ItemsShort(arr, items, limit)
  }

  predicate ItemsShort(arr: bool, items: Items, limit: Size)
    decreases items
  {
    items.Cons? ==>
      NameShort(ItemName(arr, items), limit) && TreeShort(items.value, limit) && ItemsShort(arr, items.rest, limit)
  }

  /** No name or scalar holds a NUL. */
  predicate TreeNulFree(t: Tree)
    decreases t
  {
    match t
    case Scalar(kind, text) => NulFree(text)
    case Branch(arr, items, tail) => ItemsNulFree(arr, items)
  }

  predicate ItemsNulFree(arr: bool, items: Items)
    decreases items
  {
    items.Cons? ==> (!arr ==> NulFree(items.name)) && TreeNulFree(items.value) && ItemsNulFree(arr, items.rest)
  }

  predicate TreePrintable(t: Tree, limit: Size) { TreeShort(t, limit) && TreeNulFree(t) }

  /** The tree with every name and scalar cut off at its first NUL. */
  function Trim(t: Tree): Tree
    decreases t
  {
    match t
    case Scalar(kind, text) => Scalar(kind, Shown(text))
    case Branch(arr, items, tail) => Branch(arr, TrimItems(arr, items), tail)
  }

  function TrimItems(arr: bool, items: Items): Items
    decreases items
  {
    if items.Nil? then Nil else
    items.(name := if arr then items.name else Shown(items.name), value := Trim(items.value),
           rest := TrimItems(arr, items.rest))
  }

  function TrimName(name: Option<string>): Option<string> { if name.None? then None else Some(Shown(name.value)) }

  // ---- The printer prints the tree ------------------------------------------------------------------

  lemma CopiedText(buf: string, i: nat, text: string, limit: Size)
    requires Matches(buf, i, text)
    ensures Copied(buf, i, i + |text|, limit) == if Short(text, limit) then Some(Shown(text)) else None
  {
    hide Shown;
    var slice := seq(|text|, j requires j >= 0 => At(buf, i + j));
    forall j | 0 <= j < |text| ensures slice[j] == text[j] { MatchesAt(buf, i, text, j); }
    assert slice == text;
  }

  /** The name of a record, if it has one, stands in the buffer. */
  ghost predicate NameAt(buf: string, name: Option<string>, ns: nat, ne: nat) {
    match name
    case None => ns == ne == 0
    case Some(n) => ns > 0 && ne == ns + |n| && Matches(buf, ns, n)
  }

  lemma NamePartShown(buf: string, o: Obj, k: nat, name: Option<string>, limit: Size)
    requires NameAt(buf, name, o.nameStart, o.nameEnd)
    ensures NamePart(buf, o, k, limit) == if NameShort(name, limit) then Some(Label(TrimName(name), k)) else None
    ensures o.nameEnd == 0 <==> name.None?
    ensures TrimName(name).None? <==> name.None?
  {
    hide Shown, Spaces, Copied;
    if name.Some? { CopiedText(buf, o.nameStart, name.value, limit); }
  }

  /** A dump prints the text and leaves the records u, or exits. */
  ghost predicate Dumps(v: Option<Output>, prints: bool, text: string, u: Stack) {
    v == Some(if prints then Printed(text, u) else Exit)
  }

  lemma ScalarDumped(buf: string, s: Stack, k: nat, t: Tree, i: nat, name: Option<string>, limit: Size, fuel: nat)
    requires k <= MAX_DEPTH + 1 && t.Scalar? && TreeOk(t, k) && TreeAt(buf, i, t)
    requires Describes(s[k], t, i, s[k].nameStart, s[k].nameEnd) && NameAt(buf, name, s[k].nameStart, s[k].nameEnd)
    ensures Dumps(Dump(buf, s, k, limit, fuel), NameShort(name, limit) && TreeShort(t, limit),
                  Show(Trim(t), k, TrimName(name)), s)
  {
    hide NamePart, Copied, StringBody, NumberText, NameAt, Shown, Spaces, Label, Short, NameShort, TrimName, Matches;
    NamePartShown(buf, s[k], k, name, limit);
    ScalarSlice(buf, t, i, k);
    CopiedText(buf, ValueStart(t, i), t.text, limit);
    var tag, lead, text := Label(TrimName(name), k), if name.Some? then "" else Spaces(k), ScalarText(Trim(t));
    assert tag + lead + text == tag + (lead + text);
  }

  lemma ScalarSlice(buf: string, t: Tree, i: nat, k: nat)
    requires t.Scalar? && TreeOk(t, k) && TreeAt(buf, i, t)
    ensures Matches(buf, ValueStart(t, i), t.text) && ValueEnd(t, i) == ValueStart(t, i) + |t.text|
    ensures IsScalarKind(t.kind)
  {
    hide Matches, StringBody, NumberText;
  }

  /** json__dump on a described record: if no container is seen in record 20 and everything seen fits
      the copy buffer, it prints the tree seen, each name and scalar up to its first NUL; otherwise it
      exits. */
  lemma {:induction false} DumpTree(buf: string, s: Stack, k: nat, t: Tree, i: nat, name: Option<string>, limit: Size,
                                    fuel: nat) returns (u: Stack)
    requires 1 <= k <= MAX_DEPTH && TreeOk(t, k) && TreeAt(buf, i, t) && fuel >= Need(t) && s[0].kind == Undefined
    requires Describes(s[k], t, i, s[k].nameStart, s[k].nameEnd) && NameAt(buf, name, s[k].nameStart, s[k].nameEnd)
    ensures Dumps(Dump(buf, s, k, limit, fuel), NameShort(name, limit) && !Endless(t, k) && TreeShort(Seen(t), limit),
                  Show(Trim(Seen(t)), k, TrimName(name)), u)
    ensures Untouched(s, u, k)
    decreases t, 1
  {
    hide *;
    u := s;
    UntouchedSelf(s, k);
    if t.Scalar? {
      SeenScalar(t, k);
      ScalarDumped(buf, s, k, t, i, name, limit, fuel);
    } else if k == MAX_DEPTH {
      TopDumped(buf, s, t, i, name, limit, fuel, Show(Trim(Seen(t)), k, TrimName(name)));
    } else {
      u := DumpBranch(buf, s, k, t, i, name, limit, fuel);
    }
  }

  lemma SeenScalar(t: Tree, k: nat)
    requires t.Scalar?
    ensures Seen(t) == t && !Endless(t, k)
  {
  }

  lemma UntouchedSelf(s: Stack, k: nat)
    requires k <= MAX_DEPTH + 1
    ensures Untouched(s, s, k)
  {
  }

  /** In record 20 the first member handed back is the first record, of no kind. */
  lemma TopDumped(buf: string, s: Stack, t: Tree, i: nat, name: Option<string>, limit: Size, fuel: nat, text: string)
    requires t.Branch? && Describes(s[MAX_DEPTH], t, i, s[MAX_DEPTH].nameStart, s[MAX_DEPTH].nameEnd) && fuel >= Need(t)
    requires s[0].kind == Undefined
    ensures Dumps(Dump(buf, s, MAX_DEPTH, limit, fuel),
                  NameShort(name, limit) && !Endless(t, MAX_DEPTH) && TreeShort(Seen(t), limit), text, s)
  {
    hide NamePart, TreeShort, Seen;
    TopMembers(buf, s, limit, fuel);
  }

  lemma TopMembers(buf: string, s: Stack, limit: Size, fuel: nat)
    requires s[0].kind == Undefined && fuel >= 1
    ensures DumpMembers(buf, s, MAX_DEPTH, Nothing, limit, fuel) == Some(Exit)
  {
    hide NamePart;
  }

  lemma {:induction false} DumpBranch(buf: string, s: Stack, k: nat, t: Tree, i: nat, name: Option<string>, limit: Size,
                                      fuel: nat) returns (u: Stack)
    requires t.Branch? && 1 <= k < MAX_DEPTH && TreeOk(t, k) && TreeAt(buf, i, t) && fuel >= Need(t)
    requires s[0].kind == Undefined
    requires Describes(s[k], t, i, s[k].nameStart, s[k].nameEnd) && NameAt(buf, name, s[k].nameStart, s[k].nameEnd)
    ensures Dumps(Dump(buf, s, k, limit, fuel), NameShort(name, limit) && !Endless(t, k) && TreeShort(Seen(t), limit),
                  Show(Trim(Seen(t)), k, TrimName(name)), u)
    ensures Untouched(s, u, k)
    decreases t, 0
  {
    hide *;
    NeedOfBranch(t);
    BranchCursor(buf, s, k, t, i);
    u := DumpItems(buf, s, k, Nothing, i + 1, "", i + 1, t.arr, t.items, true, t.tail, limit, fuel);
    BranchDumped(buf, s, u, k, t, i, name, limit, fuel);
  }

  lemma NeedOfBranch(t: Tree)
    requires t.Branch?
    ensures Need(t) == NeedItems(t.items, t.tail)
  {
  }

  lemma BranchDumped(buf: string, s: Stack, u: Stack, k: nat, t: Tree, i: nat, name: Option<string>, limit: Size,
                     fuel: nat)
    requires t.Branch? && k < MAX_DEPTH && Describes(s[k], t, i, s[k].nameStart, s[k].nameEnd)
    requires NameAt(buf, name, s[k].nameStart, s[k].nameEnd) && Kept(s, u, k)
    requires Dumps(DumpMembers(buf, s, k, Nothing, limit, fuel),
                   !EndlessItems(t.items, t.tail, k + 1) && ItemsShort(t.arr, SeenItems(t.items, t.tail), limit),
                   ShowItems(t.arr, TrimItems(t.arr, SeenItems(t.items, t.tail)), k + 1, true), u)
    ensures Dumps(Dump(buf, s, k, limit, fuel), NameShort(name, limit) && !Endless(t, k) && TreeShort(Seen(t), limit),
                  Show(Trim(Seen(t)), k, TrimName(name)), u)
    ensures Untouched(s, u, k)
  {
    hide *;
    DescribedKind(s[k], t, i);
    NamePartShown(buf, s[k], k, name, limit);
    SeenOfBranch(t, k, limit);
    KeptUntouched(s, u, k);
    var items := TrimItems(t.arr, SeenItems(t.items, t.tail));
    var members := ShowItems(t.arr, items, k + 1, true);
    ShowBranch(t.arr, items, t.tail, k, TrimName(name));
    DumpUnfold(buf, s, u, k, t.arr,
               !EndlessItems(t.items, t.tail, k + 1) &&
               ItemsShort(t.arr, SeenItems(t.items, t.tail), limit), members, limit, fuel);
    DumpsParts(Dump(buf, s, k, limit, fuel), Show(Trim(Seen(t)), k, TrimName(name)), u);
    var line, open, close := if name.Some? then "\n" else "", if t.arr then "[\n" else "{\n",
      if t.arr then "]" else "}";
    BranchJoin(Label(TrimName(name), k), line, Spaces(k), open, members, close);
  }

  lemma DumpsParts(v: Option<Output>, text: string, u: Stack)
    ensures Dumps(v, true, text, u) <==> v == Some(Printed(text, u))
    ensures Dumps(v, false, text, u) <==> v == Some(Exit)
  {
  }

  lemma DescribedKind(o: Obj, t: Tree, i: nat)
    requires t.Branch? && Describes(o, t, i, o.nameStart, o.nameEnd)
    ensures o.kind == BranchKind(t.arr)
  {
  }

  lemma KeptUntouched(s: Stack, u: Stack, k: nat)
    requires k <= MAX_DEPTH && Kept(s, u, k)
    ensures Untouched(s, u, k)
  {
  }

  lemma SeenOfBranch(t: Tree, k: nat, limit: Size)
    requires t.Branch? && k < MAX_DEPTH
    ensures Trim(Seen(t)) == Branch(t.arr, TrimItems(t.arr, SeenItems(t.items, t.tail)), t.tail)
    ensures TreeShort(Seen(t), limit) <==> ItemsShort(t.arr, SeenItems(t.items, t.tail), limit)
    ensures Endless(t, k) <==> EndlessItems(t.items, t.tail, k + 1)
  {
    hide ItemsShort, SeenItems, TrimItems, EndlessItems;
  }

  lemma BranchJoin(tag: string, line: string, w: string, open: string, members: string, close: string)
    ensures tag + line + w + open + members + "\n" + w + close == tag + (line + w + open + members + "\n" + w + close)
  {
  }

  lemma DumpUnfold(buf: string, s: Stack, u: Stack, k: nat, arr: bool, prints: bool, members: string, limit: Size,
                   fuel: nat)
    requires k <= MAX_DEPTH && s[k].kind == BranchKind(arr)
    requires Dumps(DumpMembers(buf, s, k, Nothing, limit, fuel), prints, members, u)
    ensures NamePart(buf, s[k], k, limit).None? || !prints ==> Dump(buf, s, k, limit, fuel) == Some(Exit)
    ensures NamePart(buf, s[k], k, limit).Some? && prints ==>
      Dump(buf, s, k, limit, fuel) ==
        Some(Printed(NamePart(buf, s[k], k, limit).value + (if s[k].nameEnd == 0 then "" else "\n") + Spaces(k) +
                     (if arr then "[\n" else "{\n") +
                     members + "\n" + Spaces(k) + (if arr then "]" else "}"), u))
  {
    hide DumpMembers, NamePart, Spaces;
  }

  lemma ShowBranch(arr: bool, items: Items, tail: string, depth: nat, name: Option<string>)
    ensures Show(Branch(arr, items, tail), depth, name) == Label(name, depth) +
      ((if name.Some? then "\n" else "") + Spaces(depth) + (if arr then "[\n" else "{\n") +
       ShowItems(arr, items, depth + 1, true) + "\n" + Spaces(depth) + (if arr then "]" else "}"))
  {
    hide ShowItems, Spaces, Label;
  }

  lemma {:induction false} DumpItems(buf: string, s: Stack, k: nat, child: Ret, p: nat, w: string, i: nat,
                                     arr: bool, items: Items, first: bool, tail: string, limit: Size,
                                       fuel: nat) returns (u: Stack)
    requires CursorAt(buf, s, k, child, p, w, i, arr, items, first, tail) && fuel >= NeedItems(items, tail)
    requires s[0].kind == Undefined
    ensures 1 <= k < MAX_DEPTH && (child.Slot? ==> child.k <= MAX_DEPTH + 1)
    ensures Dumps(DumpMembers(buf, s, k, child, limit, fuel),
                  !EndlessItems(items, tail, k + 1) && ItemsShort(arr, SeenItems(items, tail), limit),
                  ShowItems(arr, TrimItems(arr, SeenItems(items, tail)), k + 1, first), u)
    ensures Kept(s, u, k)
    decreases items, 1
  {
    hide *;
    CursorDepth(buf, s, k, child, p, w, i, arr, items, first, tail);
    if NoneSeen(items, tail) {
      u := Exhausted(buf, s, k, child, p, w, i, arr, items, first, tail);
      NoneDumped(buf, s, u, k, child, arr, items, tail, first, limit, fuel);
    } else {
      u := DumpMember(buf, s, k, child, p, w, i, arr, items, first, tail, limit, fuel);
    }
  }

  lemma NoneDumped(buf: string, s: Stack, u: Stack, k: nat, child: Ret, arr: bool, items: Items, tail: string,
                   first: bool, limit: Size, fuel: nat)
    requires k < MAX_DEPTH && (child.Slot? ==> child.k <= MAX_DEPTH + 1) && fuel > 0 && NoneSeen(items, tail)
    requires GetNext(buf, s, k, child) == (Nothing, u)
    ensures Dumps(DumpMembers(buf, s, k, child, limit, fuel),
                  !EndlessItems(items, tail, k + 1) && ItemsShort(arr, SeenItems(items, tail), limit),
                  ShowItems(arr, TrimItems(arr, SeenItems(items, tail)), k + 1, first), u)
  {
    hide GetNext, Dump, Lost;
  }

  lemma {:induction false} DumpMember(buf: string, s: Stack, k: nat, child: Ret, p: nat, w: string, i: nat,
                                      arr: bool, items: Items, first: bool, tail: string, limit: Size,
                                        fuel: nat) returns (u: Stack)
    requires CursorAt(buf, s, k, child, p, w, i, arr, items, first, tail) && fuel >= NeedItems(items, tail)
    requires s[0].kind == Undefined
    requires !NoneSeen(items, tail)
    ensures 1 <= k < MAX_DEPTH && (child.Slot? ==> child.k <= MAX_DEPTH + 1)
    ensures Dumps(DumpMembers(buf, s, k, child, limit, fuel),
                  !EndlessItems(items, tail, k + 1) && ItemsShort(arr, SeenItems(items, tail), limit),
                  ShowItems(arr, TrimItems(arr, SeenItems(items, tail)), k + 1, first), u)
    ensures Kept(s, u, k)
    decreases items, 0
  {
    hide *;
    CursorDepth(buf, s, k, child, p, w, i, arr, items, first, tail);
    SomeSeen(items, tail);
    ItemParts(buf, i, arr, items, first, k);
    NeedOfItem(items, tail);
    var v := i + HeadLen(arr, items, first);
    var t := NextMember(buf, s, k, child, p, w, i, arr, items, first, tail);
    FoundParts(s, t, k, arr, items, first, i);
    ItemNamed(buf, t[k + 1], i, arr, items, first);
    RootKept(s, t, k);
    var m := DumpTree(buf, t, k + 1, items.value, v, ItemName(arr, items), limit, fuel - 1);
    var q := v + TreeLen(items.value);
    CursorMoves(buf, s, t, m, k, child, p, w, i, arr, items, first, tail);
    KeptJoin(s, t, m, m, k) by { KeptSelf(m, k); }
    RootKept(s, m, k);
    u := DumpItems(buf, m, k, Slot(k + 1), q, items.after, q + |items.after|, arr, items.rest, false, tail, limit,
                   fuel - 1);
    MemberDumped(buf, s, t, m, u, k, child, arr, items, tail, first, limit, fuel);
    KeptJoin(s, t, m, u, k);
  }

  lemma KeptSelf(s: Stack, k: nat)
    requires k <= MAX_DEPTH
    ensures Kept(s, s, k)
  {
  }

  lemma RootKept(s: Stack, t: Stack, k: nat)
    requires 1 <= k <= MAX_DEPTH && Kept(s, t, k)
    ensures t[0] == s[0]
  {
  }

  lemma NeedOfItem(items: Items, tail: string)
    requires !NoneSeen(items, tail)
    ensures items.Cons?
    ensures NeedItems(items, tail) >= 1 + Need(items.value) && NeedItems(items, tail) >= 1 + NeedItems(items.rest, tail)
  {
    hide Lost, Need;
  }

  lemma ItemNamed(buf: string, o: Obj, i: nat, arr: bool, items: Items, first: bool)
    requires items.Cons? && HeadAt(buf, i, arr, items, first)
    requires Describes(o, items.value, i + HeadLen(arr, items, first), NameStart(arr, items, i, first),
                       NameEnd(arr, items, i, first))
    ensures NameAt(buf, ItemName(arr, items), o.nameStart, o.nameEnd)
    ensures Describes(o, items.value, i + HeadLen(arr, items, first), o.nameStart, o.nameEnd)
  {
    hide Matches;
  }

  /** A member and the rest of the loop. */
  lemma MemberDumped(buf: string, s: Stack, t: Stack, m: Stack, u: Stack, k: nat, child: Ret,
                     arr: bool, items: Items, tail: string, first: bool, limit: Size, fuel: nat)
    requires k < MAX_DEPTH && (child.Slot? ==> child.k <= MAX_DEPTH + 1) && fuel > 0 && !NoneSeen(items, tail)
    requires (first <==> child.Nothing?)
    requires GetNext(buf, s, k, child) == (Slot(k + 1), t) && items.Cons?
    requires Dumps(Dump(buf, t, k + 1, limit, fuel - 1),
                   NameShort(ItemName(arr, items), limit) && !Endless(items.value, k + 1) &&
                   TreeShort(Seen(items.value), limit),
                   Show(Trim(Seen(items.value)), k + 1, TrimName(ItemName(arr, items))), m)
    requires Dumps(DumpMembers(buf, m, k, Slot(k + 1), limit, fuel - 1),
                   !EndlessItems(items.rest, tail, k + 1) && ItemsShort(arr, SeenItems(items.rest, tail), limit),
                   ShowItems(arr, TrimItems(arr, SeenItems(items.rest, tail)), k + 1, false), u)
    ensures Dumps(DumpMembers(buf, s, k, child, limit, fuel),
                  !EndlessItems(items, tail, k + 1) && ItemsShort(arr, SeenItems(items, tail), limit),
                  ShowItems(arr, TrimItems(arr, SeenItems(items, tail)), k + 1, first), u)
  {
    hide *;
    var here := NameShort(ItemName(arr, items), limit) && !Endless(items.value, k + 1) &&
      TreeShort(Seen(items.value), limit);
    var there := !EndlessItems(items.rest, tail, k + 1) && ItemsShort(arr, SeenItems(items.rest, tail), limit);
    var text := Show(Trim(Seen(items.value)), k + 1, TrimName(ItemName(arr, items)));
    var rest := ShowItems(arr, TrimItems(arr, SeenItems(items.rest, tail)), k + 1, false);
    SeenItemIs(arr, items, tail, k + 1, limit);
    MembersUnfold(buf, s, t, m, u, k, child, limit, fuel, here, text, there, rest);
    ShowUnfold(arr, TrimItems(arr, SeenItems(items, tail)), k + 1, first);
  }

  lemma SeenItemIs(arr: bool, items: Items, tail: string, depth: nat, limit: Size)
    requires !NoneSeen(items, tail) && items.Cons?
    ensures EndlessItems(items, tail, depth) <==> Endless(items.value, depth) || EndlessItems(items.rest, tail, depth)
    ensures ItemsShort(arr, SeenItems(items, tail), limit) <==>
      NameShort(ItemName(arr, items), limit) && TreeShort(Seen(items.value), limit) &&
      ItemsShort(arr, SeenItems(items.rest, tail), limit)
    ensures var n := TrimItems(arr, SeenItems(items, tail));
      n.Cons? && n.value == Trim(Seen(items.value)) && n.rest == TrimItems(arr, SeenItems(items.rest, tail)) &&
      ItemName(arr, n) == TrimName(ItemName(arr, items))
  {
    hide Lost, Endless, Seen, Trim, TreeShort, Short, Shown;
  }

  lemma MembersUnfold(buf: string, s: Stack, t: Stack, m: Stack, u: Stack, k: nat, child: Ret, limit: Size, fuel: nat,
                      here: bool, text: string, there: bool, rest: string)
    requires k < MAX_DEPTH && (child.Slot? ==> child.k <= MAX_DEPTH + 1) && fuel > 0
    requires GetNext(buf, s, k, child) == (Slot(k + 1), t)
    requires Dumps(Dump(buf, t, k + 1, limit, fuel - 1), here, text, m)
    requires Dumps(DumpMembers(buf, m, k, Slot(k + 1), limit, fuel - 1), there, rest, u)
    ensures Dumps(DumpMembers(buf, s, k, child, limit, fuel), here && there,
                  (if child.Slot? then ",\n" else "") + text + rest, u)
  {
    hide GetNext, Dump;
  }

  lemma ShowUnfold(arr: bool, items: Items, depth: nat, first: bool)
    requires items.Cons?
    ensures ShowItems(arr, items, depth, first) ==
      (if first then "" else ",\n") + Show(items.value, depth, ItemName(arr, items)) +
      ShowItems(arr, items.rest, depth, false)
  {
  }

  // ---- Where the print is the tree -------------------------------------------------------------------

  lemma {:induction false} ShownLength(text: string)
    ensures |Shown(text)| <= |text| && (|Shown(text)| == |text| <==> NulFree(text))
    ensures (NulFree(text) ==> Shown(text) == text)
  {
    if text != "" {
      ShownLength(text[1..]);
      if NulFree(text) {
        assert NulFree(text[1..]);
      } else if text[0] != '\0' {
        assert !NulFree(text[1..]) by {
          var i :| 0 <= i < |text| && text[i] == '\0';
          assert text[1..][i - 1] == '\0';
        }
      }
    }
  }

  lemma LabelLength(name: Option<string>, depth: nat)
    ensures |Label(TrimName(name), depth)| <= |Label(name, depth)|
    ensures |Label(TrimName(name), depth)| == |Label(name, depth)| <==> (name.Some? ==> NulFree(name.value))
    ensures TrimName(name).None? <==> name.None?
  {
    if name.Some? { ShownLength(name.value); }
  }

  /** Cutting at NULs never makes the print longer, and leaves it as it is only if there are none. */
  lemma {:induction false} TrimLength(t: Tree, depth: nat, name: Option<string>)
    ensures |Show(Trim(t), depth, TrimName(name))| <= |Show(t, depth, name)|
    ensures |Show(Trim(t), depth, TrimName(name))| == |Show(t, depth, name)| ==>
      TreeNulFree(t) && (name.Some? ==> NulFree(name.value))
    decreases t
  {
    hide Shown, NulFree, Label, Spaces;
    LabelLength(name, depth);
    match t
    case Scalar(kind, text) => ShownLength(text);
    case Branch(arr, items, tail) => TrimItemsLength(arr, items, depth + 1, true);
  }

  lemma {:induction false} TrimItemsLength(arr: bool, items: Items, depth: nat, first: bool)
    ensures |ShowItems(arr, TrimItems(arr, items), depth, first)| <= |ShowItems(arr, items, depth, first)|
    ensures |ShowItems(arr, TrimItems(arr, items), depth, first)| == |ShowItems(arr, items, depth, first)| ==>
      ItemsNulFree(arr, items)
    decreases items
  {
    hide Shown, NulFree, Show, Trim;
    if items.Cons? {
      TrimLength(items.value, depth, ItemName(arr, items));
      TrimItemsLength(arr, items.rest, depth, false);
    }
  }

  lemma {:induction false} TrimNothing(t: Tree)
    requires TreeNulFree(t)
    ensures Trim(t) == t
    decreases t
  {
    hide Shown, NulFree;
    match t
    case Scalar(kind, text) => ShownLength(text);
    case Branch(arr, items, tail) => TrimNoItems(arr, items);
  }

  lemma {:induction false} TrimNoItems(arr: bool, items: Items)
    requires ItemsNulFree(arr, items)
    ensures TrimItems(arr, items) == items
    decreases items
  {
    hide Shown, NulFree, Trim;
    if items.Cons? {
      ShownLength(items.name);
      TrimNothing(items.value);
      TrimNoItems(arr, items.rest);
    }
  }

  /** The print of the trimmed tree is that of the tree if and only if no NUL is in it. */
  lemma TrimExactly(t: Tree, depth: nat)
    ensures Show(Trim(t), depth, None) == Show(t, depth, None) <==> TreeNulFree(t)
  {
    hide Show, Trim;
    TrimLength(t, depth, None);
    if TreeNulFree(t) { TrimNothing(t); }
  }

  /** A dump that ends without its exit leaves the records as a visit does. */
  lemma {:induction false} DumpVisits(buf: string, s: Stack, k: nat, limit: Size, fuel: nat)
    requires k <= MAX_DEPTH + 1 && Dump(buf, s, k, limit, fuel).Some? && Dump(buf, s, k, limit, fuel).value.Printed?
    ensures Visit(buf, s, k, fuel).Some? && Visit(buf, s, k, fuel).value.1 == Dump(buf, s, k, limit, fuel).value.stack
    decreases fuel, 1
  {
    hide DumpMembers, VisitRest, NamePart, Copied, Spaces;
    if IsContainer(s[k].kind) { MembersVisit(buf, s, k, Nothing, limit, fuel); }
  }

  lemma {:induction false} MembersVisit(buf: string, s: Stack, k: nat, child: Ret, limit: Size, fuel: nat)
    requires k <= MAX_DEPTH && (child.Slot? ==> child.k <= MAX_DEPTH + 1)
    requires DumpMembers(buf, s, k, child, limit, fuel).Some?
    requires DumpMembers(buf, s, k, child, limit, fuel).value.Printed?
    ensures VisitRest(buf, s, k, child, fuel).Some?
    ensures VisitRest(buf, s, k, child, fuel).value.1 == DumpMembers(buf, s, k, child, limit, fuel).value.stack
    decreases fuel, 0
  {
    hide Dump, Visit, GetNext;
    var (next, t) := GetNext(buf, s, k, child);
    if next.Slot? {
      DumpVisits(buf, t, next.k, limit, fuel - 1);
      MembersVisit(buf, Dump(buf, t, next.k, limit, fuel - 1).value.stack, k, next, limit, fuel - 1);
    }
  }
}
