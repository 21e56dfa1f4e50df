/** JSON texts with their white space, and where each part of one stands in a buffer. */
module JsonLayout {
  import opened Json

  /** A value with its layout. A branch is an object or an array; its tail is the white space
      before the closing bracket. */
  datatype Tree =
    | Scalar(kind: Kind, text: string)
    | Branch(arr: bool, items: Items, tail: string)

  /** The members of an object or the elements of an array, in order. Elements have no name. */
  datatype Items =
    | Nil
    | Cons(before: string, name: string, mid1: string, mid2: string, value: Tree, after: string, rest: Items)

  predicate AllSpace(w: string) { forall i :: 0 <= i < |w| ==> IsSpace(w[i]) }

  /** A raw string body: no unescaped quote inside, and the quote after it ends it. */
  predicate StringBody(text: string) { StringEnd(text + "\"", 0, |text| + 1) == |text| }

  /** A number as the scanner reads it. */
  predicate NumberText(text: string) {
    text != "" && text != "-" && (text[0] == '-' || IsDigit(text[0])) && NumberEnd(text + " ", 0) == |text|
  }

  predicate ScalarOk(kind: Kind, text: string) {
    match kind
    case String => StringBody(text)
    case Number => NumberText(text)
    case Null => text == "null"
    case True => text == "true"
    case False => text == "false"
    case _ => false
  }

  function BranchKind(arr: bool): Kind { if arr then Array else Object }

  function KindOf(t: Tree): Kind { if t.Scalar? then t.kind else BranchKind(t.arr) }

  /** A JSON text: scalars and names are in form and only white space stands between tokens. */
  predicate Valid(t: Tree)
    decreases t
  {
    match t
    case Scalar(kind, text) => ScalarOk(kind, text)
    case Branch(arr, items, tail) => AllSpace(tail) && ValidItems(arr, items)
  }

  predicate ItemOk(arr: bool, items: Items)
    requires items.Cons?
  {
    AllSpace(items.before) && AllSpace(items.after) &&
    (!arr ==> StringBody(items.name) && AllSpace(items.mid1) && AllSpace(items.mid2))
  }

  predicate ValidItems(arr: bool, items: Items)
    decreases items
  {
    items.Cons? ==> ItemOk(arr, items) && Valid(items.value) && ValidItems(arr, items.rest)
  }

  /** The JSON texts the scanner accepts, for a value in record depth: a container sits in record 20
      at most, and an array holds no bare scalar but strings. */
  predicate TreeOk(t: Tree, depth: nat)
    decreases t
  {
    match t
    case Scalar(kind, text) => ScalarOk(kind, text)
    case Branch(arr, items, tail) => depth <= MAX_DEPTH && AllSpace(tail) && ItemsOk(arr, items, depth)
  }

  predicate ItemsOk(arr: bool, items: Items, depth: nat)
    decreases items
  {
    items.Cons? ==>
      ItemOk(arr, items) && (arr && items.value.Scalar? ==> items.value.kind == String) &&
      TreeOk(items.value, depth + 1) && ItemsOk(arr, items.rest, depth)
  }

  lemma {:induction false} TreeLenPositive(t: Tree, depth: nat)
    requires TreeOk(t, depth)
    ensures TreeLen(t) >= 1
  {
  }

  /** The last item, unseen by json__get_next: nothing separates it from the closing bracket, whose
      preceding character is not scanned, and the item cannot do without that character. */
  predicate Lost(items: Items, tail: string) {
    items.Cons? && items.rest.Nil? && items.after == "" && tail == "" &&
    (items.value.Branch? || (items.value.kind != String && |items.value.text| <= 1))
  }

  predicate NoneSeen(items: Items, tail: string) { items.Nil? || Lost(items, tail) }

  /** Nothing is lost. */
  predicate Whole(t: Tree)
    decreases t
  {
    t.Branch? ==> WholeItems(t.items, t.tail)
  }

  predicate WholeItems(items: Items, tail: string)
    decreases items
  {
    items.Cons? ==> !Lost(items, tail) && Whole(items.value) && WholeItems(items.rest, tail)
  }

  /** The tree without what is lost. */
  function Seen(t: Tree): Tree
    decreases t
  {
    match t
    case Scalar(_, _) => t
    case Branch(arr, items, tail) => Branch(arr, SeenItems(items, tail), tail)
  }

  function SeenItems(items: Items, tail: string): Items
    decreases items
  {
    if NoneSeen(items, tail) then Nil else items.(value := Seen(items.value), rest := SeenItems(items.rest, tail))
  }

  /** A container in record 20 is seen: its own members can never be fetched. */
  predicate Endless(t: Tree, depth: nat)
    decreases t
  {
    t.Branch? && (depth >= MAX_DEPTH || EndlessItems(t.items, t.tail, depth + 1))
  }

  predicate EndlessItems(items: Items, tail: string, depth: nat)
    decreases items
  {
    !NoneSeen(items, tail) && (Endless(items.value, depth) || EndlessItems(items.rest, tail, depth))
  }

  // ---- Lengths and positions ----------------------------------------------------------------------

  function TreeLen(t: Tree): (n: nat)
    decreases t
  {
    match t
    case Scalar(kind, text) => if kind == String then |text| + 2 else |text|
    case Branch(arr, items, tail) => 1 + ItemsLen(arr, items, true) + |tail| + 1
  }

  /** The length of what precedes an item's value: comma, white space, name and colon. */
  function HeadLen(arr: bool, items: Items, first: bool): nat
    requires items.Cons?
  {
    NameOffset(items, first) + if arr then 0 else |items.name| + 2 + |items.mid1| + |items.mid2| + 1
  }

  /** How far into an item its opening quote or its value is. */
  function NameOffset(items: Items, first: bool): nat
    requires items.Cons?
  {
    (if first then 0 else 1) + |items.before|
  }

  function ItemsLen(arr: bool, items: Items, first: bool): nat
    decreases items
  {
    if items.Nil? then 0 else
    HeadLen(arr, items, first) + TreeLen(items.value) + |items.after| + ItemsLen(arr, items.rest, false)
  }

  predicate Is(buf: string, i: nat, c: char) { i < |buf| && buf[i] == c }

  predicate HeadAt(buf: string, i: nat, arr: bool, items: Items, first: bool)
    requires items.Cons?
  {
    (!first ==> Is(buf, i, ',')) && Matches(buf, i + (if first then 0 else 1), items.before) &&
    (!arr ==>
      var q := i + NameOffset(items, first);
      Is(buf, q, '"') && Matches(buf, q + 1, items.name) && Is(buf, q + 1 + |items.name|, '"') &&
      Matches(buf, q + 2 + |items.name|, items.mid1) && Is(buf, q + 2 + |items.name| + |items.mid1|, ':') &&
      Matches(buf, q + 3 + |items.name| + |items.mid1|, items.mid2))
  }

  /** The tree stands at position i of the buffer. */
  predicate TreeAt(buf: string, i: nat, t: Tree)
    decreases t
  {
    match t
    case Scalar(kind, text) =>
      if kind == String then Is(buf, i, '"') && Matches(buf, i + 1, text) && Is(buf, i + 1 + |text|, '"')
      else Matches(buf, i, text)
    case Branch(arr, items, tail) =>
      var j := i + 1 + ItemsLen(arr, items, true);
      Is(buf, i, if arr then '[' else '{') && ItemsAt(buf, i + 1, arr, items, true) &&
      Matches(buf, j, tail) && Is(buf, j + |tail|, if arr then ']' else '}')
  }

  predicate ItemsAt(buf: string, i: nat, arr: bool, items: Items, first: bool)
    decreases items
  {
    items.Cons? ==>
      var v := i + HeadLen(arr, items, first);
      HeadAt(buf, i, arr, items, first) && TreeAt(buf, v, items.value) &&
      Matches(buf, v + TreeLen(items.value), items.after) &&
      ItemsAt(buf, v + TreeLen(items.value) + |items.after|, arr, items.rest, false)
  }

  // ---- What the parser should report ----------------------------------------------------------------

  function ValueStart(t: Tree, i: nat): nat { if t.Scalar? && t.kind != String then i else i + 1 }

  /** One past the last character of a scalar; for a branch, one before its closing bracket. */
  function ValueEnd(t: Tree, i: nat): nat {
    if t.Branch? then i + ItemsLen(t.arr, t.items, true) + |t.tail|
    else if t.kind == String then i + 1 + |t.text| else i + |t.text|
  }

  function NameStart(arr: bool, items: Items, i: nat, first: bool): nat
    requires items.Cons?
  {
    if arr then 0 else i + NameOffset(items, first) + 1
  }

  function NameEnd(arr: bool, items: Items, i: nat, first: bool): nat
    requires items.Cons?
  {
    if arr then 0 else i + NameOffset(items, first) + 1 + |items.name|
  }

  function TreeEntry(t: Tree, i: nat, depth: nat, ns: nat, ne: nat): Entry {
    Entry(depth, KindOf(t), ns, ne, ValueStart(t, i), ValueEnd(t, i))
  }

  /** The callbacks a recursive descent makes: members in text order, then the container. */
  function LogTree(t: Tree, i: nat, depth: nat, ns: nat, ne: nat): seq<Entry>
    decreases t
  {
    (if t.Scalar? then [] else LogItems(t.arr, t.items, i + 1, true, depth + 1)) + [TreeEntry(t, i, depth, ns, ne)]
  }

  function LogItems(arr: bool, items: Items, i: nat, first: bool, depth: nat): seq<Entry>
    decreases items
  {
    if items.Nil? then [] else
    var v := i + HeadLen(arr, items, first);
    LogTree(items.value, v, depth, NameStart(arr, items, i, first), NameEnd(arr, items, i, first)) +
    LogItems(arr, items.rest, v + TreeLen(items.value) + |items.after|, false, depth)
  }

  /** The callbacks json__visitor makes: those of the descent, without what is lost. */
  function SeenLog(t: Tree, i: nat, depth: nat, ns: nat, ne: nat): seq<Entry>
    decreases t
  {
    (if t.Scalar? then [] else SeenItemsLog(t.arr, t.items, t.tail, i + 1, true, depth + 1)) +
    [TreeEntry(t, i, depth, ns, ne)]
  }

  function SeenItemsLog(arr: bool, items: Items, tail: string, i: nat, first: bool, depth: nat): seq<Entry>
    decreases items
  {
    if NoneSeen(items, tail) then [] else
    var v := i + HeadLen(arr, items, first);
    SeenLog(items.value, v, depth, NameStart(arr, items, i, first), NameEnd(arr, items, i, first)) +
    SeenItemsLog(arr, items.rest, tail, v + TreeLen(items.value) + |items.after|, false, depth)
  }

  /** The record describes the tree at position i, with its name. */
  ghost predicate Describes(o: Obj, t: Tree, i: nat, ns: nat, ne: nat) {
    o.kind == KindOf(t) && o.nameStart == ns && o.nameEnd == ne &&
    o.valueStart == ValueStart(t, i) && o.valueEnd == ValueEnd(t, i) && (t.Branch? ==> Quiet(o))
  }

  /** No member is announced, and in an array no name is pending. */
  ghost predicate Quiet(o: Obj) {
    o.childKind == Undefined && (o.kind == Array ==> o.childNameStart == o.childNameEnd == 0)
  }
}
