/** Exactly when parsing and enumerating a JSON text gives back the whole text. */
module JsonExact {
  import opened Options
  import opened Json
  import opened JsonLayout
  import opened JsonScan
  import opened JsonCursor
  import opened JsonRefusal
  import opened JsonAnyText
  import opened JsonDump
  import opened JsonRoundTrip

  /** The number of values in a tree. */
  function Nodes(t: Tree): nat
    decreases t
  {
    1 + if t.Scalar? then 0 else NodesOf(t.items)
  }

  function NodesOf(items: Items): nat
    decreases items
  {
    if items.Nil? then 0 else Nodes(items.value) + NodesOf(items.rest)
  }

  lemma {:induction false} BareNodes(t: Tree)
    ensures Nodes(Bare(t)) == Nodes(t)
    decreases t
  {
    if t.Branch? { BareItemsNodes(t.arr, t.items); }
  }

  lemma {:induction false} BareItemsNodes(arr: bool, items: Items)
    ensures NodesOf(BareItems(arr, items)) == NodesOf(items)
    decreases items
  {
    if items.Cons? {
      BareNodes(items.value);
      BareItemsNodes(arr, items.rest);
    }
  }

  /** Everything is seen if and only if nothing is lost. */
  lemma {:induction false} SeenExactly(t: Tree)
    ensures Seen(t) == t <==> Whole(t)
    ensures Nodes(Seen(t)) == Nodes(t) <==> Whole(t)
    ensures Nodes(Seen(t)) <= Nodes(t)
    decreases t
  {
    hide Lost;
    if t.Branch? { SeenItemsExactly(t.items, t.tail); }
  }

  lemma {:induction false} SeenItemsExactly(items: Items, tail: string)
    ensures SeenItems(items, tail) == items <==> WholeItems(items, tail)
    ensures NodesOf(SeenItems(items, tail)) == NodesOf(items) <==> WholeItems(items, tail)
    ensures NodesOf(SeenItems(items, tail)) <= NodesOf(items)
    decreases items
  {
    hide Seen, Whole, Lost;
    if items.Cons? {
      NodesPositive(items.value);
      SeenExactly(items.value);
      SeenItemsExactly(items.rest, tail);
    }
  }

  lemma NodesPositive(t: Tree)
    ensures Nodes(t) >= 1
  {
  }

  lemma {:induction false} LogNodes(t: Tree, i: nat, depth: nat, ns: nat, ne: nat)
    ensures |LogTree(t, i, depth, ns, ne)| == Nodes(t)
    ensures LogTree(t, i, depth, ns, ne)[Nodes(t) - 1] == TreeEntry(t, i, depth, ns, ne)
    decreases t
  {
    if t.Branch? { LogItemsNodes(t.arr, t.items, i + 1, true, depth + 1); }
  }

  lemma {:induction false} LogItemsNodes(arr: bool, items: Items, i: nat, first: bool, depth: nat)
    ensures |LogItems(arr, items, i, first, depth)| == NodesOf(items)
    decreases items
  {
    hide HeadLen, TreeLen;
    if items.Cons? {
      var v := i + HeadLen(arr, items, first);
      LogNodes(items.value, v, depth, NameStart(arr, items, i, first), NameEnd(arr, items, i, first));
      LogItemsNodes(arr, items.rest, v + TreeLen(items.value) + |items.after|, false, depth);
    }
  }

  /** What is seen has as many callbacks as values; with nothing lost they are those of the full
      descent. */
  lemma {:induction false} SeenLogNodes(t: Tree, i: nat, depth: nat, ns: nat, ne: nat)
    ensures |SeenLog(t, i, depth, ns, ne)| == Nodes(Seen(t))
    ensures Whole(t) ==> SeenLog(t, i, depth, ns, ne) == LogTree(t, i, depth, ns, ne)
    decreases t
  {
    hide Lost;
    if t.Branch? { SeenItemsLogNodes(t.arr, t.items, t.tail, i + 1, true, depth + 1); }
  }

  lemma {:induction false} SeenItemsLogNodes(arr: bool, items: Items, tail: string, i: nat, first: bool, depth: nat)
    ensures |SeenItemsLog(arr, items, tail, i, first, depth)| == NodesOf(SeenItems(items, tail))
    ensures WholeItems(items, tail) ==>
      SeenItemsLog(arr, items, tail, i, first, depth) == LogItems(arr, items, i, first, depth)
    decreases items
  {
    hide HeadLen, TreeLen, Lost, Seen, Whole, SeenLog, LogTree, Nodes, NameStart, NameEnd, NameOffset;
    if items.Cons? {
      var v := i + HeadLen(arr, items, first);
      SeenLogNodes(items.value, v, depth, NameStart(arr, items, i, first), NameEnd(arr, items, i, first));
      SeenItemsLogNodes(arr, items.rest, tail, v + TreeLen(items.value) + |items.after|, false, depth);
    }
  }

  /** When the parser reports an error the visitor makes one callback, for the first record. */
  lemma RefusedVisit(buf: string, s: Stack, fuel: nat)
    requires Parse(buf, s).0 == Slot(0)
    ensures exists e: Entry :: e.depth == 0 && !IsContainer(e.kind) && VisitText(buf, s, fuel) == Some([e])
  {
    hide Parse;
    ParseProgress(buf, s);
    var t := Parse(buf, s).1;
    VisitScalar(buf, t, 0, fuel);
    assert EntryOf(t, 0).depth == 0;
  }

  /** json__parse and json__visitor against recursive descent, on every JSON object text: the
      callbacks are exactly those of the descent if and only if the scanner accepts the text, no
      container sits in record 20, and no last item runs into its closing bracket. */
  lemma EnumerationExactly(buf: string, lead: string, t: Tree, s: Stack, fuel: nat)
    requires JsonText(buf, lead, t) && fuel >= Need(t)
    ensures VisitText(buf, s, fuel) == Some(LogTree(t, |lead|, 1, 0, 0)) <==> TreeOk(t, 1) && !Endless(t, 1) && Whole(t)
  {
    hide *;
    ParseExactly(buf, lead, t, s);
    LogNodes(t, |lead|, 1, 0, 0);
    if TreeOk(t, 1) {
      AcceptedVisit(buf, lead, t, s, fuel);
      SeenLogNodes(t, |lead|, 1, 0, 0);
      SeenExactly(t);
    } else {
      RefusedVisit(buf, s, fuel);
      RootEntry(t, |lead|);
      assert forall e: Entry :: e.depth == 0 ==> [e] != LogTree(t, |lead|, 1, 0, 0);
    }
  }

  lemma AcceptedVisit(buf: string, lead: string, t: Tree, s: Stack, fuel: nat)
    requires JsonText(buf, lead, t) && TreeOk(t, 1) && fuel >= Need(t)
    ensures VisitText(buf, s, fuel) == if Endless(t, 1) then None else Some(SeenLog(t, |lead|, 1, 0, 0))
  {
    hide Parse, Visit, SeenLog, TreeAt, TreeOk, Endless, Need, JsonText;
    var u := VisitDocument(buf, lead, t, s, fuel);
  }

  lemma RootEntry(t: Tree, i: nat)
    ensures TreeEntry(t, i, 1, 0, 0).depth == 1
  {
  }

  /** The same for the values alone: a caller that collects the callbacks gets the tree of the text
      back, names, scalar slices, order and kinds, under exactly the same condition. */
  lemma RebuildExactly(buf: string, lead: string, t: Tree, s: Stack, fuel: nat)
    requires JsonText(buf, lead, t) && fuel >= Need(t)
    ensures (VisitText(buf, s, fuel).Some? && Rebuild(buf, [],
                                                      VisitText(buf, s, fuel).value) == [Pending(1, "", Bare(t))])
       <==> TreeOk(t, 1) && !Endless(t, 1) && Whole(t)
  {
    hide *;
    ParseExactly(buf, lead, t, s);
    if TreeOk(t, 1) {
      AcceptedVisit(buf, lead, t, s, fuel);
      if !Endless(t, 1) {
        AcceptedDocument(buf, lead, t);
        VisitRebuilds(buf, lead, t, s, fuel);
        SeenExactly(t);
        BareNodes(t);
        BareNodes(Seen(t));
      }
    } else {
      RefusedVisit(buf, s, fuel);
      RefusedRebuild(buf, VisitText(buf, s, fuel).value);
    }
  }

  lemma AcceptedDocument(buf: string, lead: string, t: Tree)
    requires JsonText(buf, lead, t) && TreeOk(t, 1)
    ensures Document(buf, lead, t)
  {
  }

  lemma RefusedRebuild(buf: string, log: seq<Entry>)
    requires exists e: Entry :: e.depth == 0 && !IsContainer(e.kind) && log == [e]
    ensures |Rebuild(buf, [], log)| == 1 && Rebuild(buf, [], log)[0].depth == 0
  {
    RebuildOne(buf, [], log[0]);
  }

  // ---- Printer and parser ---------------------------------------------------------------------------

  lemma RefusedDump(buf: string, s: Stack, limit: Size, fuel: nat)
    requires Parse(buf, s).0 == Slot(0)
    ensures DumpText(buf, s, limit, fuel) == None
  {
    hide Parse, NamePart;
    ParseProgress(buf, s);
  }

  lemma {:induction false} SeenNulFree(t: Tree)
    requires TreeNulFree(t)
    ensures TreeNulFree(Seen(t))
    decreases t
  {
    hide NulFree, Lost;
    if t.Branch? { SeenItemsNulFree(t.arr, t.items, t.tail); }
  }

  lemma {:induction false} SeenItemsNulFree(arr: bool, items: Items, tail: string)
    requires ItemsNulFree(arr, items)
    ensures ItemsNulFree(arr, SeenItems(items, tail))
    decreases items
  {
    hide NulFree, Lost, Seen;
    if items.Cons? {
      SeenNulFree(items.value);
      SeenItemsNulFree(arr, items.rest, tail);
    }
  }

  /** Printer and parser undo each other, on every JSON object text: what json__dump prints, parsed
      and enumerated again, rebuilds the whole tree of the text if and only if the scanner accepts it,
      no container sits in record 20, no last item runs into its closing bracket, and every name and
      scalar fits the copy buffer and holds no NUL. */
  lemma RoundTripExactly(buf: string, lead: string, t: Tree, s: Stack, limit: Size, fuel: nat)
    requires JsonText(buf, lead, t) && fuel >= Need(t)
    ensures RoundTrips(buf, s, limit, fuel, t, Need(Neat(Seen(t), 1)))
       <==> TreeOk(t, 1) && !Endless(t, 1) && Whole(t) && TreePrintable(t, limit)
  {
    hide JsonText, Document, Parse, TreeOk, Endless, Whole, TreeShort, TreeNulFree, Show, Neat, Need, Seen, Trim, Bare,
         Rebuilds, DumpText;
    ParseExactly(buf, lead, t, s);
    if TreeOk(t, 1) {
      AcceptedDocument(buf, lead, t);
      SeenExactly(t);
      RoundTrip(buf, lead, t, s, limit, fuel);
      if !Whole(t) && RoundTrips(buf, s, limit, fuel, t, Need(Neat(Seen(t), 1))) {
        assert Rebuilds(DumpText(buf, s, limit, fuel).value, s, Need(Neat(Seen(t), 1)), t);
        PartRebuilds(buf, lead, t, s, limit, fuel);
      }
    } else {
      RefusedDump(buf, s, limit, fuel);
    }
  }

  /** The print of a text with something lost does not rebuild the whole tree. */
  lemma PartRebuilds(buf: string, lead: string, t: Tree, s: Stack, limit: Size, fuel: nat)
    requires Document(buf, lead, t) && fuel >= Need(t) && DumpText(buf, s, limit, fuel).Some?
    requires Rebuilds(DumpText(buf, s, limit, fuel).value, s, Need(Neat(Seen(t), 1)), t)
    ensures Whole(t)
  {
    hide Document, Endless, Whole, TreeShort, TreeNulFree, Show, Neat, Need, Seen, Trim, Bare, DumpText, VisitText,
         Rebuild;
    DumpPrints(buf, lead, t, s, limit, fuel);
    PrintHasNoNul(Seen(t), t, s, Need(Neat(Seen(t), 1)));
    SeenNulFree(t);
    PrintRebuilds(buf, lead, t, s, Need(Neat(Seen(t), 1)));
    assert [Pending(1, "", Bare(t))][0] == [Pending(1, "", Bare(Seen(t)))][0];
    BareNodes(t);
    BareNodes(Seen(t));
    SeenExactly(t);
  }

  // ---- Texts on which the parser falls short --------------------------------------------------------

  function Item(value: Tree): Items { Cons("", "a", "", "", value, "", Nil) }

  /** {"a":[1 ] } */
  const NUMBER_IN_ARRAY := Branch(false, Item(Branch(true, Item(Scalar(Number, "1")), " ")), " ")

  /** {"a":{}} */
  const NO_SPACE_BEFORE_BRACKET := Branch(false, Item(Branch(false, Nil, "")), "")

  lemma TextIsJson(t: Tree)
    requires t.Branch? && !t.arr && Valid(t)
    ensures JsonText(Text(t), "", t)
  {
    hide TreeAt, Text, Valid;
    assert Text(t)[0..0 + |Text(t)|] == Text(t);
    TextAt(Text(t), 0, t);
  }

  lemma ItemIsOk(arr: bool, value: Tree)
    ensures ItemOk(arr, Item(value))
  {
    assert StringEnd("a\"", 1, 2) == 1;
    assert "a" + "\"" == "a\"";
  }

  lemma OneItem(arr: bool, value: Tree, tail: string, depth: nat)
    requires AllSpace(tail)
    ensures Valid(Branch(arr, Item(value), tail)) <==> Valid(value)
    ensures TreeOk(Branch(arr, Item(value), tail), depth) <==>
      depth <= MAX_DEPTH && (arr && value.Scalar? ==> value.kind == String) && TreeOk(value, depth + 1)
  {
    hide ItemOk, AllSpace, ScalarOk;
    ItemIsOk(arr, value);
    assert ValidItems(arr, Nil) && ItemsOk(arr, Nil, depth);
    assert Item(value).rest == Nil;
  }

  lemma OneItemSeen(arr: bool, value: Tree, tail: string, depth: nat)
    requires !Lost(Item(value), tail)
    ensures Endless(Branch(arr, Item(value), tail), depth) <==> depth >= MAX_DEPTH || Endless(value, depth + 1)
    ensures Need(Branch(arr, Item(value), tail)) == if Need(value) == 0 then 2 else 1 + Need(value)
  {
    hide Lost;
    var items := Item(value);
    assert items.rest == Nil && items.value == value && !NoneSeen(items, tail);
    assert NeedItems(Nil, tail) == 1 && !EndlessItems(Nil, tail, depth + 1);
  }

  lemma OneItemText(arr: bool, value: Tree, tail: string)
    ensures Text(Branch(arr, Item(value), tail)) ==
      (if arr then "[" else "{\"a\":") + Text(value) + tail + (if arr then "]" else "}")
  {
    var items := Item(value);
    OneItemHead(arr, value);
    ItemsTextUnfold(arr, items, true);
    BranchTextIs(arr, items, tail);
    hide *;
    var head := HeadText(arr, items, true);
    OneItemJoin(if arr then "[" else "{", head, Text(value), tail, if arr then "]" else "}");
  }

  lemma OneItemHead(arr: bool, value: Tree)
    ensures HeadText(arr, Item(value), true) == if arr then "" else "\"a\":"
    ensures ItemsText(arr, Item(value).rest, false) == "" && Item(value).value == value && Item(value).after == ""
  {
  }

  lemma BranchTextIs(arr: bool, items: Items, tail: string)
    ensures Text(Branch(arr, items, tail)) ==
      (if arr then "[" else "{") + ItemsText(arr, items, true) + tail + (if arr then "]" else "}")
  {
    hide ItemsText;
  }

  lemma OneItemJoin(open: string, head: string, value: string, tail: string, close: string)
    ensures open + (head + value + "" + "") + tail + close == (open + head) + value + tail + close
    ensures "[" + "" == "[" && "{" + "\"a\":" == "{\"a\":"
  {
  }

  lemma OneIsNumber()
    ensures Valid(Scalar(Number, "1"))
  {
    assert "1" + " " == "1 ";
    assert Digits("1 ", 1) == 1 && Digits("1 ", 0) == 1;
  }

  /** A number in an array: json__parse reports an error. */
  lemma NumberInArrayFails(s: Stack)
    ensures Text(NUMBER_IN_ARRAY) == "{\"a\":[1 ] }" && Valid(NUMBER_IN_ARRAY)
    ensures Parse(Text(NUMBER_IN_ARRAY), s).0 == Slot(0)
  {
    hide Parse, Valid, TreeOk, Text;
    var number := Scalar(Number, "1");
    OneIsNumber();
    OneItem(true, number, " ", 2);
    OneItem(false, Branch(true, Item(number), " "), " ", 1);
    OneItemText(true, number, " ");
    OneItemText(false, Branch(true, Item(number), " "), " ");
    assert Text(number) == "1" by { NumberShown(); }
    TextIsJson(NUMBER_IN_ARRAY);
    ParseExactly(Text(NUMBER_IN_ARRAY), "", NUMBER_IN_ARRAY, s);
  }

  lemma NumberShown()
    ensures Text(Scalar(Number, "1")) == "1"
  {
  }

  /** An empty object right before the closing bracket: the visitor reports the root alone. */
  lemma NoSpaceBeforeBracketFails(s: Stack, fuel: nat)
    requires fuel >= 1
    ensures Text(NO_SPACE_BEFORE_BRACKET) == "{\"a\":{}}" && Valid(NO_SPACE_BEFORE_BRACKET)
    ensures VisitText(Text(NO_SPACE_BEFORE_BRACKET), s, fuel) == Some([Entry(1, Object, 0, 0, 1, 6)])
  {
    hide VisitText, Valid, TreeOk, Text, Endless, Need, SeenLog, JsonText, Lost, Parse;
    var t, empty := NO_SPACE_BEFORE_BRACKET, Branch(false, Nil, "");
    EmptyObject(2);
    OneItem(false, empty, "", 1);
    OneItemText(false, empty, "");
    NoSpaceLog();
    TextIsJson(t);
    AcceptedVisit(Text(t), "", t, s, fuel);
  }

  lemma EmptyObject(depth: nat)
    requires depth <= MAX_DEPTH
    ensures Valid(Branch(false, Nil, "")) && TreeOk(Branch(false, Nil, ""), depth)
    ensures Text(Branch(false, Nil, "")) == "{}"
  {
  }

  lemma NoSpaceLog()
    ensures var t := NO_SPACE_BEFORE_BRACKET;
      Lost(t.items, t.tail) && !Endless(t, 1) && Need(t) == 1 &&
      SeenLog(t, 0, 1, 0, 0) == [Entry(1, Object, 0, 0, 1, 6)]
  {
    var t := NO_SPACE_BEFORE_BRACKET;
    assert Lost(t.items, t.tail);
    assert TreeLen(Branch(false, Nil, "")) == 2;
    assert ItemsLen(false, t.items, true) == 6;
  }

  /** A string with an escaped quote. */
  const ESCAPED := Scalar(String, "x\\\"y")

  lemma EscapedIsOk(depth: nat)
    ensures Valid(ESCAPED) && TreeOk(ESCAPED, depth) && Text(ESCAPED) == "\"x\\\"y\""
    ensures !Endless(ESCAPED, depth) && Need(ESCAPED) == 0
  {
    var u := "x\\\"y\"";
    assert ESCAPED.text + "\"" == u;
    assert StringEnd(u, 4, 5) == 4 && StringEnd(u, 3, 5) == 4;
    assert StringEnd(u, 1, 5) == StringEnd(u, 3, 5) && StringEnd(u, 0, 5) == StringEnd(u, 1, 5);
  }

  /** An escaped quote does not end a string: the value of a runs from character 6 to the quote at
      character 10. */
  lemma EscapedQuote(s: Stack, fuel: nat)
    requires fuel >= 2
    ensures var buf := "{\"a\":\"x\\\"y\" }";
      Parse(buf, s).0 == Slot(1) && buf[6..10] == "x\\\"y" &&
      VisitText(buf, s, fuel) == Some([Entry(2, String, 2, 3, 6, 10), Entry(1, Object, 0, 0, 1, 11)])
  {
    hide VisitText, Valid, TreeOk, Text, Endless, Need, SeenLog, JsonText, Lost, Parse;
    var t := Branch(false, Item(ESCAPED), " ");
    EscapedIsOk(2);
    OneItem(false, ESCAPED, " ", 1);
    OneItemText(false, ESCAPED, " ");
    EscapedLog();
    OneItemSeen(false, ESCAPED, " ", 1);
    TextIsJson(t);
    ParseExactly(Text(t), "", t, s);
    AcceptedVisit(Text(t), "", t, s, fuel);
    assert Text(t) == "{\"a\":\"x\\\"y\" }";
  }

  lemma EscapedLog()
    ensures var t := Branch(false, Item(ESCAPED), " ");
      !Lost(t.items, t.tail) &&
      SeenLog(t, 0, 1, 0, 0) == [Entry(2, String, 2, 3, 6, 10), Entry(1, Object, 0, 0, 1, 11)]
  {
    var t := Branch(false, Item(ESCAPED), " ");
    assert TreeLen(ESCAPED) == 6 && HeadLen(false, t.items, true) == 4 && NameOffset(t.items, true) == 0;
    assert ItemsLen(false, Nil, false) == 0;
    assert SeenItemsLog(false, Nil, " ", 11, false, 2) == [];
    assert SeenLog(ESCAPED, 5, 2, 2, 3) == [Entry(2, String, 2, 3, 6, 10)];
  }

  /** n arrays inside one another, an empty string within. */
  function Tower(n: nat): Tree {
    if n == 0 then Scalar(String, "") else Branch(true, Item(Tower(n - 1)), " ")
  }

  lemma {:induction false} TowerShape(n: nat, depth: nat)
    ensures Valid(Tower(n))
    ensures TreeOk(Tower(n), depth) <==> n == 0 || depth + n <= MAX_DEPTH + 1
    ensures Endless(Tower(n), depth) <==> n > 0 && depth + n > MAX_DEPTH
    ensures Need(Tower(n)) == if n == 0 then 0 else n + 1
    decreases n
  {
    hide Valid, TreeOk, Endless, Need;
    if n > 0 {
      TowerShape(n - 1, depth + 1);
      OneItem(true, Tower(n - 1), " ", depth);
      OneItemSeen(true, Tower(n - 1), " ", depth);
    } else {
      EmptyString(depth);
    }
  }

  lemma EmptyString(depth: nat)
    ensures var t := Scalar(String, ""); Valid(t) && TreeOk(t, depth) && !Endless(t, depth) && Need(t) == 0
  {
    assert "" + "\"" == "\"" && StringEnd("\"", 0, 1) == 0;
  }

  /** n nested arrays in the root object: json__parse accepts up to 19 of them, but with 19 the
      visitor never ends. */
  lemma TowerExactly(n: nat, s: Stack, fuel: nat)
    requires n >= 1 && fuel >= n + 2
    ensures var t := Branch(false, Item(Tower(n)), " "); var buf := Text(t);
      (Parse(buf, s).0 == if n <= 19 then Slot(1) else Slot(0)) &&
      (n <= 19 ==> (VisitText(buf, s, fuel).Some? <==> n <= 18))
  {
    hide Parse, VisitText, Text, Tower, Valid, TreeOk, Endless, Need;
    var t := Branch(false, Item(Tower(n)), " ");
    TowerShape(n, 2);
    OneItem(false, Tower(n), " ", 1);
    OneItemSeen(false, Tower(n), " ", 1);
    TextIsJson(t);
    ParseExactly(Text(t), "", t, s);
    if n <= 19 { AcceptedVisit(Text(t), "", t, s, fuel); }
  }

  // ---- Texts on which the printer falls short ---------------------------------------------------------

  /** {"a":"x" } with any character for x */
  function OneChar(c: char): Tree { Branch(false, Item(Scalar(String, [c])), " ") }

  lemma OneCharTree(c: char, limit: Size)
    requires c != '"' && c != '\\'
    ensures var t := OneChar(c);
      Valid(t) && TreeOk(t, 1) && !Endless(t, 1) && Need(t) == 2 && Whole(t)
    ensures TreePrintable(OneChar(c), limit) <==> c != '\0' && limit > 2
  {
    hide ItemOk, TreePrintable;
    var value := Scalar(String, [c]);
    assert [c] + "\"" == [c, '"'] && StringEnd([c, '"'], 1, 2) == 1 && StringEnd([c, '"'], 0, 2) == 1;
    OneItem(false, value, " ", 1);
    OneItemSeen(false, value, " ", 1);
    OneItemWhole(false, value, " ");
    OneItemPrintable(value, " ", limit);
    if limit > 2 { OneCharPrintable(c, limit); }
  }

  lemma OneItemWhole(arr: bool, value: Tree, tail: string)
    requires tail != ""
    ensures Whole(Branch(arr, Item(value), tail)) <==> Whole(value)
  {
    var items := Item(value);
    assert items.rest == Nil && items.value == value && WholeItems(Nil, tail);
  }

  lemma OneItemPrintable(value: Tree, tail: string, limit: Size)
    ensures TreePrintable(Branch(false, Item(value), tail), limit) <==> limit > 2 && TreePrintable(value, limit)
  {
    hide NulFree, Short;
    var items := Item(value);
    assert items.rest == Nil && items.value == value && ItemsShort(false, Nil, limit) && ItemsNulFree(false, Nil);
    assert ItemsShort(false, items, limit) <==> Short("a", limit) && TreeShort(value, limit);
    assert ItemsNulFree(false, items) <==> NulFree("a") && TreeNulFree(value);
    NameFits(limit);
  }

  lemma NameFits(limit: Size)
    ensures NulFree("a") && (Short("a", limit) <==> limit > 2)
  {
  }

  lemma OneCharPrintable(c: char, limit: Size)
    requires limit > 2
    ensures TreePrintable(Scalar(String, [c]), limit) <==> c != '\0'
  {
    assert NulFree([c]) <==> [c][0] != '\0';
  }

  /** A NUL inside a string, or a copy buffer of two bytes: the text does not survive printing. */
  lemma NulAndShortBufferFail(c: char, s: Stack, limit: Size, fuel: nat)
    requires c != '"' && c != '\\' && fuel >= 2
    ensures var t := OneChar(c);
      RoundTrips(Text(t), s, limit, fuel, t, Need(Neat(Seen(t), 1))) <==> c != '\0' && limit > 2
  {
    hide Valid, TreeOk, Endless, Need, Whole, TreePrintable, Text, Neat, Seen, RoundTrips, OneChar;
    OneCharTree(c, limit);
    OneCharRoot(c);
    TextIsJson(OneChar(c));
    RoundTripExactly(Text(OneChar(c)), "", OneChar(c), s, limit, fuel);
  }

  lemma OneCharRoot(c: char)
    ensures OneChar(c).Branch? && !OneChar(c).arr
  {
  }
}
