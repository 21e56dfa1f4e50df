/** Printing and parsing undo each other: what json__dump prints is again a well-laid-out text, of
    the same tree, and the callbacks of json__visitor determine the tree. */
module JsonRoundTrip {
  import opened Options
  import opened Json
  import opened JsonLayout
  import opened JsonScan
  import opened JsonCursor
  import opened JsonAnyText
  import opened JsonRefusal
  import opened JsonDump

  // ---- The text of a layout -------------------------------------------------------------------------

  function Text(t: Tree): (s: string)
    ensures |s| == TreeLen(t)
    decreases t
  {
    match t
    case Scalar(kind, text) => if kind == String then "\"" + text + "\"" else text
    case Branch(arr, items, tail) =>
      (if arr then "[" else "{") + ItemsText(arr, items, true) + tail + (if arr then "]" else "}")
  }

  function HeadText(arr: bool, items: Items, first: bool): (s: string)
    requires items.Cons?
    ensures |s| == HeadLen(arr, items, first)
  {
    (if first then "" else ",") + items.before +
    (if arr then "" else "\"" + items.name + "\"" + items.mid1 + ":" + items.mid2)
  }

  function ItemsText(arr: bool, items: Items, first: bool): (s: string)
    ensures |s| == ItemsLen(arr, items, first)
    decreases items
  {
    if items.Nil? then "" else
    HeadText(arr, items, first) + Text(items.value) + items.after + ItemsText(arr, items.rest, false)
  }

  /** A match of a concatenation is a match of both parts. */
  lemma MatchesSplit(buf: string, i: nat, a: string, b: string)
    ensures Matches(buf, i, a + b) <==> Matches(buf, i, a) && Matches(buf, i + |a|, b)
  {
    if i + |a| + |b| <= |buf| {
      var s := buf[i..i + |a| + |b|];
      assert s == buf[i..i + |a|] + buf[i + |a|..i + |a| + |b|];
      assert s[..|a|] == buf[i..i + |a|] && s[|a|..] == buf[i + |a|..i + |a| + |b|];
      assert (a + b)[..|a|] == a && (a + b)[|a|..] == b;
    }
  }

  lemma MatchesChar(buf: string, i: nat, c: char)
    ensures Matches(buf, i, [c]) <==> Is(buf, i, c)
  {
    if i < |buf| { assert buf[i..i + 1] == [buf[i]]; }
  }

  lemma MatchesThree(buf: string, i: nat, a: char, b: string, c: char)
    requires Matches(buf, i, [a] + b + [c])
    ensures Is(buf, i, a) && Matches(buf, i + 1, b) && Is(buf, i + 1 + |b|, c)
  {
    hide Matches, Is;
    MatchesSplit(buf, i, [a] + b, [c]);
    MatchesSplit(buf, i, [a], b);
    MatchesChar(buf, i, a);
    MatchesChar(buf, i + 1 + |b|, c);
  }

  lemma HeadTextAt(buf: string, i: nat, arr: bool, items: Items, first: bool)
    requires items.Cons? && Matches(buf, i, HeadText(arr, items, first))
    ensures HeadAt(buf, i, arr, items, first)
  {
    hide Matches, Is;
    var lead := if first then "" else ",";
    var name := if arr then "" else "\"" + items.name + "\"" + items.mid1 + ":" + items.mid2;
    MatchesSplit(buf, i, lead + items.before, name);
    MatchesSplit(buf, i, lead, items.before);
    if !first { MatchesChar(buf, i, ','); }
    if !arr {
      var q := i + NameOffset(items, first);
      var quoted := ['"'] + items.name + ['"'];
      assert name == quoted + items.mid1 + [':'] + items.mid2;
      MatchesSplit(buf, q, quoted + items.mid1 + [':'], items.mid2);
      MatchesSplit(buf, q, quoted + items.mid1, [':']);
      MatchesSplit(buf, q, quoted, items.mid1);
      MatchesThree(buf, q, '"', items.name, '"');
      MatchesChar(buf, q + 2 + |items.name| + |items.mid1|, ':');
    }
  }

  /** A buffer that holds the text of a tree holds the tree. */
  lemma {:induction false} TextAt(buf: string, i: nat, t: Tree)
    requires Matches(buf, i, Text(t))
    ensures TreeAt(buf, i, t)
    decreases t
  {
    hide Matches, Is, ItemsText, ItemsAt, ItemsLen, TreeLen;
    match t
    case Scalar(kind, text) =>
      if kind == String { MatchesThree(buf, i, '"', text, '"'); }
    case Branch(arr, items, tail) =>
      var inner := ItemsText(arr, items, true);
      var open, close := if arr then '[' else '{', if arr then ']' else '}';
      assert Text(t) == [open] + (inner + tail) + [close];
      MatchesThree(buf, i, open, inner + tail, close);
      MatchesSplit(buf, i + 1, inner, tail);
      ItemsTextAt(buf, i + 1, arr, items, true);
  }

  lemma {:induction false} ItemsTextAt(buf: string, i: nat, arr: bool, items: Items, first: bool)
    requires Matches(buf, i, ItemsText(arr, items, first))
    ensures ItemsAt(buf, i, arr, items, first)
    decreases items
  {
    hide Matches, HeadAt, HeadText, Text, TreeAt;
    if items.Cons? {
      var v := i + HeadLen(arr, items, first);
      ItemTextParts(buf, i, arr, items, first);
      HeadTextAt(buf, i, arr, items, first);
      TextAt(buf, v, items.value);
      ItemsTextAt(buf, v + TreeLen(items.value) + |items.after|, arr, items.rest, false);
    }
  }

  lemma ItemTextParts(buf: string, i: nat, arr: bool, items: Items, first: bool)
    requires items.Cons? && Matches(buf, i, ItemsText(arr, items, first))
    ensures var v := i + HeadLen(arr, items, first); var e := v + TreeLen(items.value);
      Matches(buf, i, HeadText(arr, items, first)) && Matches(buf, v, Text(items.value)) &&
      Matches(buf, e, items.after) &&
      Matches(buf, e + |items.after|, ItemsText(arr, items.rest, false))
  {
    hide *;
    var head, value, rest := HeadText(arr, items, first), Text(items.value), ItemsText(arr, items.rest, false);
    ItemsTextUnfold(arr, items, first);
    MatchesSplit(buf, i, head + value + items.after, rest);
    MatchesSplit(buf, i, head + value, items.after);
    MatchesSplit(buf, i, head, value);
  }

  lemma ItemsTextUnfold(arr: bool, items: Items, first: bool)
    requires items.Cons?
    ensures ItemsText(arr, items, first) ==
      HeadText(arr, items, first) + Text(items.value) + items.after + ItemsText(arr, items.rest, false)
  {
  }

  // ---- The layout json__dump uses -------------------------------------------------------------------

  /** The same tree with the white space json__dump writes at the given depth. */
  function Neat(t: Tree, depth: nat): Tree
    decreases t
  {
    match t
    case Scalar(_, _) => t
    case Branch(arr, items, tail) =>
      Branch(arr, NeatItems(arr, items, depth + 1), (if items.Nil? then "\n\n" else "\n") + Spaces(depth))
  }

  function NeatItems(arr: bool, items: Items, depth: nat): Items
    decreases items
  {
    if items.Nil? then Nil else
    Cons("\n" + Spaces(depth), if arr then "" else items.name, "",
         if !arr && items.value.Branch? then "\n" + Spaces(depth) else "",
         Neat(items.value, depth), "", NeatItems(arr, items.rest, depth))
  }

  lemma SpaceJoin(v: string, w: string)
    ensures AllSpace(v) && AllSpace(w) <==> AllSpace(v + w)
    ensures AllSpace("") && AllSpace("\n") && AllSpace("\n\n")
  {
    if AllSpace(v + w) {
      forall i | 0 <= i < |v| ensures IsSpace(v[i]) { assert (v + w)[i] == v[i]; }
      forall i | 0 <= i < |w| ensures IsSpace(w[i]) { assert (v + w)[|v| + i] == w[i]; }
    }
  }

  lemma {:induction false} NeatOk(t: Tree, depth: nat)
    requires TreeOk(t, depth)
    ensures TreeOk(Neat(t, depth), depth)
    decreases t
  {
    hide ScalarOk, AllSpace;
    if t.Branch? {
      SpaceJoin(if t.items.Nil? then "\n\n" else "\n", Spaces(depth));
      NeatItemsOk(t.arr, t.items, depth);
    }
  }

  lemma {:induction false} NeatItemsOk(arr: bool, items: Items, depth: nat)
    requires ItemsOk(arr, items, depth)
    ensures ItemsOk(arr, NeatItems(arr, items, depth + 1), depth)
    decreases items
  {
    hide StringBody, AllSpace;
    if items.Cons? {
      SpaceJoin("\n", Spaces(depth + 1));
      NeatOk(items.value, depth + 1);
      NeatItemsOk(arr, items.rest, depth);
    }
  }

  /** A value as printed is its label, then the text of its neat layout behind white space. */
  function Lead(t: Tree, depth: nat, name: Option<string>): string {
    Label(name, depth) + (if name.None? then Spaces(depth) else if t.Branch? then "\n" + Spaces(depth) else "")
  }

  lemma {:induction false} ShowIsText(t: Tree, depth: nat, name: Option<string>)
    ensures Show(t, depth, name) == Lead(t, depth, name) + Text(Neat(t, depth))
    decreases t, 1
  {
    hide Label, Spaces, ShowItems, NeatItems, ItemsText;
    if t.Branch? {
      hide *;
      ShowBranchIsText(t, depth, name);
    } else {
      ScalarShow(Label(name, depth), if name.Some? then "" else Spaces(depth), ScalarText(t));
    }
  }

  lemma {:induction false} ShowBranchIsText(t: Tree, depth: nat, name: Option<string>)
    requires t.Branch?
    ensures Show(t, depth, name) == Lead(t, depth, name) + Text(Neat(t, depth))
    decreases t, 0
  {
    hide *;
    ShowItemsText(t.arr, t.items, depth + 1, true);
    var open, close := if t.arr then "[" else "{", if t.arr then "]" else "}";
    var body := ShowItems(t.arr, t.items, depth + 1, true);
    var neat := ItemsText(t.arr, NeatItems(t.arr, t.items, depth + 1), true);
    NeatNil(t.arr, t.items, depth + 1);
    BranchText(Label(name, depth), if name.Some? then "\n" else "", Spaces(depth), open, body, close, neat,
               t.items.Nil?);
    ShowApart(t, depth, name);
    NeatBranch(t, depth);
    LeadBranch(t, depth, name);
  }

  lemma ShowApart(t: Tree, depth: nat, name: Option<string>)
    requires t.Branch?
    ensures Show(t, depth, name) == Label(name, depth) +
      ((if name.Some? then "\n" else "") + Spaces(depth) + ((if t.arr then "[" else "{") + "\n") +
       ShowItems(t.arr, t.items, depth + 1, true) + "\n" + Spaces(depth) + (if t.arr then "]" else "}"))
  {
    hide ShowItems, Spaces, Label;
    assert "[" + "\n" == "[\n" && "{" + "\n" == "{\n";
  }

  lemma NeatBranch(t: Tree, depth: nat)
    requires t.Branch?
    ensures Text(Neat(t, depth)) ==
      (if t.arr then "[" else "{") + ItemsText(t.arr, NeatItems(t.arr, t.items, depth + 1), true) +
      ((if t.items.Nil? then "\n\n" else "\n") + Spaces(depth)) + (if t.arr then "]" else "}")
  {
    hide NeatItems, ItemsText, Spaces;
  }

  lemma LeadBranch(t: Tree, depth: nat, name: Option<string>)
    requires t.Branch?
    ensures Lead(t, depth, name) == Label(name, depth) + ((if name.Some? then "\n" else "") + Spaces(depth))
  {
    hide Spaces;
    assert "" + Spaces(depth) == Spaces(depth);
  }

  lemma ScalarShow(tag: string, lead: string, text: string)
    ensures tag + (lead + text) == (tag + lead) + text
  {
  }

  lemma BranchText(tag: string, line: string, w: string, open: string, body: string, close: string, items: string,
                   none: bool)
    requires if none then body == "" && items == "" else "\n" + body == items
    ensures tag + (line + w + (open + "\n") + body + "\n" + w + close)
         == (tag + (line + w)) + (open + items + ((if none then "\n\n" else "\n") + w) + close)
  {
  }

  lemma NeatNil(arr: bool, items: Items, depth: nat)
    ensures NeatItems(arr, items, depth).Nil? <==> items.Nil?
    ensures items.Nil? ==>
      ItemsText(arr, NeatItems(arr, items, depth), true) == "" && ShowItems(arr, items, depth, true) == ""
  {
  }

  lemma {:induction false} ShowItemsText(arr: bool, items: Items, depth: nat, first: bool)
    ensures items.Cons? ==>
      (if first then "\n" else "") + ShowItems(arr, items, depth, first) ==
        ItemsText(arr, NeatItems(arr, items, depth), first)
    ensures items.Nil? && !first ==>
      ShowItems(arr, items, depth, first) == ItemsText(arr, NeatItems(arr, items, depth), first)
    decreases items, 1
  {
    if items.Cons? {
      hide *;
      ShowItemIsText(arr, items, depth, first);
    }
  }

  lemma {:induction false} ShowItemIsText(arr: bool, items: Items, depth: nat, first: bool)
    requires items.Cons?
    ensures (if first then "\n" else "") + ShowItems(arr, items, depth, first) ==
      ItemsText(arr, NeatItems(arr, items, depth), first)
    decreases items, 0
  {
    hide *;
    var name := ItemName(arr, items);
    ShowIsText(items.value, depth, name);
    ShowItemsText(arr, items.rest, depth, false);
    assert ShowItems(arr, items.rest, depth, false) == ItemsText(arr, NeatItems(arr, items.rest, depth), false) by {
      assert "" + ShowItems(arr, items.rest, depth, false) == ShowItems(arr, items.rest, depth, false);
    }
    NeatHead(arr, items, depth, first);
    NeatCons(arr, items, depth);
    ShowUnfold(arr, items, depth, first);
    ItemsTextUnfold(arr, NeatItems(arr, items, depth), first);
    ItemJoin(if first then "" else ",", Lead(items.value, depth, name), Text(Neat(items.value, depth)),
             ShowItems(arr, items.rest, depth, false), first);
  }

  lemma NeatCons(arr: bool, items: Items, depth: nat)
    requires items.Cons?
    ensures var n := NeatItems(arr, items, depth);
      n.Cons? && n.value == Neat(items.value, depth) && n.after == "" && n.rest == NeatItems(arr, items.rest, depth)
  {
    hide Neat;
  }

  lemma NeatHead(arr: bool, items: Items, depth: nat, first: bool)
    requires items.Cons?
    ensures HeadText(arr, NeatItems(arr, items, depth), first) ==
      (if first then "" else ",") + "\n" + Lead(items.value, depth, ItemName(arr, items))
  {
    hide Spaces, Neat;
    var comma, w := if first then "" else ",", Spaces(depth);
    if arr {
      assert HeadText(arr, NeatItems(arr, items, depth), first) == comma + ("\n" + w) + "";
    } else {
      var mid := if items.value.Branch? then "\n" + w else "";
      NamedHead(comma, w, items.name, mid);
    }
  }

  lemma NamedHead(comma: string, w: string, name: string, mid: string)
    ensures comma + ("\n" + w) + ("\"" + name + "\"" + "" + ":" + mid) ==
      comma + "\n" + ((w + "\"" + name + "\":") + mid)
  {
  }

  lemma ItemJoin(comma: string, lead: string, text: string, rest: string, first: bool)
    requires comma == if first then "" else ","
    ensures (if first then "\n" else "") + ((if first then "" else ",\n") + (lead + text) + rest) ==
      (comma + "\n" + lead) + text + "" + rest
  {
  }

  // ---- The tree behind a log ------------------------------------------------------------------------

  /** A tree without its white space. */
  function Bare(t: Tree): Tree
    decreases t
  {
    match t
    case Scalar(_, _) => t
    case Branch(arr, items, _) => Branch(arr, BareItems(arr, items), "")
  }

  function BareItems(arr: bool, items: Items): Items
    decreases items
  {
    if items.Nil? then Nil else Cons("", if arr then "" else items.name, "", "", Bare(items.value), "",
                                     BareItems(arr, items.rest))
  }

  lemma {:induction false} BareNeat(t: Tree, depth: nat)
    ensures Bare(Neat(t, depth)) == Bare(t)
    decreases t
  {
    if t.Branch? { BareNeatItems(t.arr, t.items, depth + 1); }
  }

  lemma {:induction false} BareNeatItems(arr: bool, items: Items, depth: nat)
    ensures BareItems(arr, NeatItems(arr, items, depth)) == BareItems(arr, items)
    decreases items
  {
    if items.Cons? {
      BareNeat(items.value, depth);
      BareNeatItems(arr, items.rest, depth);
    }
  }

  /** A finished value waiting for its container. */
  datatype Pending = Pending(depth: nat, name: string, value: Tree)

  function Cut(buf: string, start: nat, end: nat): string {
    if start <= end <= |buf| then buf[start..end] else ""
  }

  /** Where the trailing values one deeper than depth begin. */
  function RunStart(ps: seq<Pending>, depth: nat): (n: nat)
    ensures n <= |ps|
  {
    if ps == [] || ps[|ps| - 1].depth != depth + 1 then |ps| else RunStart(ps[..|ps| - 1], depth)
  }

  function ItemsOf(ps: seq<Pending>): Items {
    if ps == [] then Nil else Cons("", ps[0].name, "", "", ps[0].value, "", ItemsOf(ps[1..]))
  }

  /** Rebuild values from the callbacks alone: a container collects the values one deeper. */
  function Absorb(buf: string, ps: seq<Pending>, e: Entry): seq<Pending> {
    var name := Cut(buf, e.nameStart, e.nameEnd);
    if IsContainer(e.kind) then
      var n := RunStart(ps, e.depth);
      ps[..n] + [Pending(e.depth, name, Branch(e.kind == Array, ItemsOf(ps[n..]), ""))]
    else ps + [Pending(e.depth, name, Scalar(e.kind, Cut(buf, e.valueStart, e.valueEnd)))]
  }

  function Rebuild(buf: string, ps: seq<Pending>, log: seq<Entry>): seq<Pending> {
    if log == [] then ps else Absorb(buf, Rebuild(buf, ps, log[..|log| - 1]), log[|log| - 1])
  }

  lemma {:induction false} RebuildAppend(buf: string, ps: seq<Pending>, a: seq<Entry>, b: seq<Entry>)
    ensures Rebuild(buf, ps, a + b) == Rebuild(buf, Rebuild(buf, ps, a), b)
  {
    hide Absorb;
    if b == [] {
      assert a + b == a;
    } else {
      var c := b[..|b| - 1];
      assert (a + b)[..|a + b| - 1] == a + c;
      RebuildAppend(buf, ps, a, c);
    }
  }

  /** The pending values the items of a container leave. */
  function PendingItems(arr: bool, items: Items, depth: nat): (ps: seq<Pending>)
    ensures forall i :: 0 <= i < |ps| ==> ps[i].depth == depth
    decreases items
  {
    if items.Nil? then [] else
    [Pending(depth, if arr then "" else items.name, Bare(items.value))] + PendingItems(arr, items.rest, depth)
  }

  /** Nothing pending is deeper than depth. */
  predicate Shallow(ps: seq<Pending>, depth: nat) { ps == [] || ps[|ps| - 1].depth <= depth }

  lemma {:induction false} RunStartAppend(ps: seq<Pending>, qs: seq<Pending>, depth: nat)
    requires Shallow(ps, depth) && forall i :: 0 <= i < |qs| ==> qs[i].depth == depth + 1
    ensures RunStart(ps + qs, depth) == |ps|
  {
    if qs == [] {
      assert ps + qs == ps;
    } else {
      var c := qs[..|qs| - 1];
      assert (ps + qs)[..|ps + qs| - 1] == ps + c;
      RunStartAppend(ps, c, depth);
    }
  }

  lemma {:induction false} ItemsOfPending(arr: bool, items: Items, depth: nat)
    ensures ItemsOf(PendingItems(arr, items, depth)) == BareItems(arr, items)
    decreases items
  {
    if items.Cons? {
      ItemsOfPending(arr, items.rest, depth);
      assert PendingItems(arr, items, depth)[1..] == PendingItems(arr, items.rest, depth);
    }
  }

  lemma CutMatches(buf: string, i: nat, text: string)
    requires Matches(buf, i, text)
    ensures Cut(buf, i, i + |text|) == text
  {
  }

  /** The callbacks of one value add what is seen of that value, without white space. */
  lemma {:induction false} RebuildTree(buf: string, ps: seq<Pending>, t: Tree, i: nat, depth: nat, ns: nat, ne: nat)
    requires TreeAt(buf, i, t) && TreeOk(t, depth) && Shallow(ps, depth)
    ensures Rebuild(buf, ps, SeenLog(t, i, depth, ns, ne)) == ps + [Pending(depth, Cut(buf, ns, ne), Bare(Seen(t)))]
    decreases t, 1
  {
    hide *;
    if t.Scalar? {
      ScalarParts(buf, t, i, depth);
      CutMatches(buf, ValueStart(t, i), t.text);
      OneEntry(buf, ps, t, i, depth, ns, ne);
    } else {
      RebuildBranch(buf, ps, t, i, depth, ns, ne);
    }
  }

  lemma ScalarParts(buf: string, t: Tree, i: nat, depth: nat)
    requires t.Scalar? && TreeAt(buf, i, t) && TreeOk(t, depth)
    ensures Matches(buf, ValueStart(t, i), t.text) && ValueEnd(t, i) == ValueStart(t, i) + |t.text|
    ensures !IsContainer(t.kind) && Bare(Seen(t)) == Scalar(t.kind, t.text)
  {
    hide StringBody, NumberText, Matches;
  }

  lemma OneEntry(buf: string, ps: seq<Pending>, t: Tree, i: nat, depth: nat, ns: nat, ne: nat)
    requires t.Scalar? && !IsContainer(t.kind)
    ensures Rebuild(buf, ps, SeenLog(t, i, depth, ns, ne)) ==
      ps + [Pending(depth, Cut(buf, ns, ne), Scalar(t.kind, Cut(buf, ValueStart(t, i), ValueEnd(t, i))))]
  {
    hide Cut;
    var log := SeenLog(t, i, depth, ns, ne);
    assert log == [TreeEntry(t, i, depth, ns, ne)] && log[..0] == [];
  }

  lemma {:induction false} RebuildBranch(buf: string, ps: seq<Pending>, t: Tree, i: nat, depth: nat, ns: nat, ne: nat)
    requires t.Branch? && TreeAt(buf, i, t) && TreeOk(t, depth) && Shallow(ps, depth)
    ensures Rebuild(buf, ps, SeenLog(t, i, depth, ns, ne)) == ps + [Pending(depth, Cut(buf, ns, ne), Bare(Seen(t)))]
    decreases t, 0
  {
    hide *;
    BranchParts(buf, i, t, depth);
    var log := SeenItemsLog(t.arr, t.items, t.tail, i + 1, true, depth + 1);
    var qs := PendingItems(t.arr, SeenItems(t.items, t.tail), depth + 1);
    var e := TreeEntry(t, i, depth, ns, ne);
    LogBranch(t, i, depth, ns, ne);
    ShallowUp(ps, depth);
    RebuildItems(buf, ps, t.arr, t.items, t.tail, i + 1, true, depth + 1);
    RebuildAppend(buf, ps, log, [e]);
    RebuildOne(buf, ps + qs, e);
    AbsorbBranch(buf, ps, qs, t, i, depth, ns, ne);
  }

  lemma LogBranch(t: Tree, i: nat, depth: nat, ns: nat, ne: nat)
    requires t.Branch?
    ensures SeenLog(t, i, depth, ns, ne) ==
      SeenItemsLog(t.arr, t.items, t.tail, i + 1, true, depth + 1) + [TreeEntry(t, i, depth, ns, ne)]
  {
  }

  lemma AbsorbBranch(buf: string, ps: seq<Pending>, qs: seq<Pending>, t: Tree, i: nat, depth: nat, ns: nat, ne: nat)
    requires t.Branch? && Shallow(ps, depth) && qs == PendingItems(t.arr, SeenItems(t.items, t.tail), depth + 1)
    ensures Absorb(buf, ps + qs, TreeEntry(t, i, depth, ns, ne)) ==
      ps + [Pending(depth, Cut(buf, ns, ne), Bare(Seen(t)))]
  {
    hide Cut, RunStart, ItemsOf, BareItems, PendingItems, ItemsLen, Shallow, SeenItems;
    RunStartAppend(ps, qs, depth);
    ItemsOfPending(t.arr, SeenItems(t.items, t.tail), depth + 1);
    assert (ps + qs)[..|ps|] == ps && (ps + qs)[|ps|..] == qs;
  }

  lemma RebuildOne(buf: string, ps: seq<Pending>, e: Entry)
    ensures Rebuild(buf, ps, [e]) == Absorb(buf, ps, e)
  {
    hide Absorb;
    assert [e][..0] == [];
  }

  lemma ShallowUp(ps: seq<Pending>, depth: nat)
    requires Shallow(ps, depth)
    ensures Shallow(ps, depth + 1)
  {
  }

  lemma ShallowNext(ps: seq<Pending>, q: Pending)
    ensures Shallow(ps + [q], q.depth)
  {
  }

  lemma {:induction false} RebuildItems(buf: string, ps: seq<Pending>, arr: bool, items: Items, tail: string, i: nat,
                                        first: bool, depth: nat)
    requires ItemsAt(buf, i, arr, items, first) && depth >= 1 && ItemsOk(arr, items, depth - 1) && Shallow(ps, depth)
    ensures Rebuild(buf, ps, SeenItemsLog(arr, items, tail, i, first, depth)) ==
      ps + PendingItems(arr, SeenItems(items, tail), depth)
    decreases items, 1
  {
    if NoneSeen(items, tail) {
      hide Lost;
      assert ps + PendingItems(arr, Nil, depth) == ps;
    } else {
      hide *;
      RebuildItem(buf, ps, arr, items, tail, i, first, depth);
    }
  }

  lemma {:induction false} RebuildItem(buf: string, ps: seq<Pending>, arr: bool, items: Items, tail: string, i: nat,
                                       first: bool, depth: nat)
    requires !NoneSeen(items, tail) && ItemsAt(buf, i, arr, items, first)
    requires depth >= 1 && ItemsOk(arr, items, depth - 1) && Shallow(ps, depth)
    ensures Rebuild(buf, ps, SeenItemsLog(arr, items, tail, i, first, depth)) ==
      ps + PendingItems(arr, SeenItems(items, tail), depth)
    decreases items, 0
  {
    hide *;
    SomeSeen(items, tail);
    ItemParts(buf, i, arr, items, first, depth - 1);
    var v := i + HeadLen(arr, items, first);
    var r := v + TreeLen(items.value) + |items.after|;
    var ns, ne := NameStart(arr, items, i, first), NameEnd(arr, items, i, first);
    NameCut(buf, i, arr, items, first);
    RebuildTree(buf, ps, items.value, v, depth, ns, ne);
    var q := Pending(depth, if arr then "" else items.name, Bare(Seen(items.value)));
    ShallowNext(ps, q);
    RebuildItems(buf, ps + [q], arr, items.rest, tail, r, false, depth);
    LogUnfold(arr, items, tail, i, first, depth);
    RebuildAppend(buf, ps, SeenLog(items.value, v, depth, ns, ne),
                  SeenItemsLog(arr, items.rest, tail, r, false, depth));
    PendingUnfold(arr, items, tail, depth);
    assert (ps + [q]) + PendingItems(arr, SeenItems(items.rest, tail), depth) ==
      ps + ([q] + PendingItems(arr, SeenItems(items.rest, tail), depth));
  }

  lemma LogUnfold(arr: bool, items: Items, tail: string, i: nat, first: bool, depth: nat)
    requires !NoneSeen(items, tail)
    ensures items.Cons?
    ensures var v := i + HeadLen(arr, items, first);
      SeenItemsLog(arr, items, tail, i, first, depth) ==
        SeenLog(items.value, v, depth, NameStart(arr, items, i, first), NameEnd(arr, items, i, first)) +
        SeenItemsLog(arr, items.rest, tail, v + TreeLen(items.value) + |items.after|, false, depth)
  {
    hide SeenLog, HeadLen, TreeLen, Lost;
  }

  lemma PendingUnfold(arr: bool, items: Items, tail: string, depth: nat)
    requires !NoneSeen(items, tail)
    ensures items.Cons? && PendingItems(arr, SeenItems(items, tail), depth) ==
      [Pending(depth, if arr then "" else items.name, Bare(Seen(items.value)))] +
      PendingItems(arr, SeenItems(items.rest, tail), depth)
  {
    hide Lost, Seen, Bare;
  }

  lemma NameCut(buf: string, i: nat, arr: bool, items: Items, first: bool)
    requires items.Cons? && HeadAt(buf, i, arr, items, first)
    ensures Cut(buf, NameStart(arr, items, i, first), NameEnd(arr, items, i, first)) == if arr then "" else items.name
  {
    if arr { assert buf[0..0] == ""; }
  }

  // ---- Round trips ----------------------------------------------------------------------------------

  /** json__parse, then json__visitor with the given number of calls allowed. */
  function VisitText(buf: string, s: Stack, fuel: nat): Option<seq<Entry>> {
    var (root, t) := Parse(buf, s);
    if root.Nothing? then None else
    match Visit(buf, t, root.k, fuel)
    case None => None
    case Some((log, _)) => Some(log)
  }

  /** json__parse, then json__dump. */
  function DumpText(buf: string, s: Stack, limit: Size, fuel: nat): Option<string> {
    var (root, t) := Parse(buf, s);
    if root.Nothing? then None else
    match Dump(buf, t, root.k, limit, fuel)
    case Some(Printed(text, _)) => Some(text)
    case _ => None
  }

  /** The callbacks for any accepted text on which the visit ends determine what is seen of its tree. */
  lemma VisitRebuilds(buf: string, lead: string, t: Tree, s: Stack, fuel: nat)
    requires Document(buf, lead, t) && !Endless(t, 1) && fuel >= Need(t)
    ensures VisitText(buf, s, fuel) == Some(SeenLog(t, |lead|, 1, 0, 0))
    ensures Rebuild(buf, [], SeenLog(t, |lead|, 1, 0, 0)) == [Pending(1, "", Bare(Seen(t)))]
  {
    hide Parse, Visit, Rebuild, SeenLog, TreeAt, TreeOk, Bare, Seen, Endless, Need;
    var u := VisitDocument(buf, lead, t, s, fuel);
    DocumentParts(buf, lead, t);
    RebuildTree(buf, [], t, |lead|, 1, 0, 0);
    assert [] + [Pending(1, Cut(buf, 0, 0), Bare(Seen(t)))] == [Pending(1, "", Bare(Seen(t)))];
  }

  /** json__parse, then json__dump, on every accepted text: the printer prints what is seen of the
      tree, each name and scalar up to its first NUL, if no container is seen in record 20 and
      everything seen fits the copy buffer; otherwise the program exits. */
  lemma DumpDocument(buf: string, lead: string, t: Tree, s: Stack, limit: Size, fuel: nat) returns (u: Stack)
    requires Document(buf, lead, t) && fuel >= Need(t)
    ensures Parse(buf, s).0 == Slot(1)
    ensures Dumps(Dump(buf, Parse(buf, s).1, 1, limit, fuel), !Endless(t, 1) && TreeShort(Seen(t), limit),
                  Show(Trim(Seen(t)), 1, None), u)
  {
    hide Parse, Dump, TreeAt, TreeOk, TreeShort, Show, Seen, Trim, Endless, Need, Describes, Dumps;
    var p := ParseDocument(buf, lead, t, s);
    ParseProgress(buf, s);
    DocumentParts(buf, lead, t);
    RootDescribed(p[1], t, |lead|);
    u := DumpTree(buf, p, 1, t, |lead|, None, limit, fuel);
  }

  /** The print is that of the tree seen if and only if no container is seen in record 20, and every
      name and scalar seen fits the copy buffer and holds no NUL. */
  lemma DumpPrints(buf: string, lead: string, t: Tree, s: Stack, limit: Size, fuel: nat)
    requires Document(buf, lead, t) && fuel >= Need(t)
    ensures DumpText(buf, s, limit, fuel) ==
      if !Endless(t, 1) && TreeShort(Seen(t), limit) then Some(Show(Trim(Seen(t)), 1, None)) else None
    ensures DumpText(buf, s, limit, fuel) == Some(Show(Seen(t), 1, None)) <==>
      !Endless(t, 1) && TreePrintable(Seen(t), limit)
  {
    hide Parse, Dump, TreeShort, TreeNulFree, Show, Seen, Trim, Endless, Need;
    var u := DumpDocument(buf, lead, t, s, limit, fuel);
    TrimExactly(Seen(t), 1);
  }

  /** A json__dump between json__parse and json__visitor, where main has one commented out: if it
      does not exit, the visit of the records it has left makes the same callbacks as without it. */
  lemma DumpThenVisit(buf: string, lead: string, t: Tree, s: Stack, limit: Size, fuel: nat) returns (u: Stack)
    requires Document(buf, lead, t) && fuel >= Need(t)
    ensures Parse(buf, s).0 == Slot(1)
    ensures var v := Dump(buf, Parse(buf, s).1, 1, limit, fuel);
      v == Some(Exit) ||
      (v.Some? && v.value.stack == u && Visit(buf, u, 1, fuel).Some? &&
       Visit(buf, u, 1, fuel).value.0 == SeenLog(t, |lead|, 1, 0, 0))
  {
    hide Parse, Dump, Visit, TreeAt, TreeOk, TreeShort, Show, Seen, Trim, Endless, Need, SeenLog, Describes;
    u := DumpDocument(buf, lead, t, s, limit, fuel);
    if !Endless(t, 1) && TreeShort(Seen(t), limit) {
      DumpVisits(buf, Parse(buf, s).1, 1, limit, fuel);
      DocumentParts(buf, lead, t);
      var v := VisitDocument(buf, lead, t, s, fuel);
      var w := VisitTree(buf, u, 1, t, |lead|, 0, 0, fuel);
    }
  }

  lemma RootDescribed(o: Obj, t: Tree, i: nat)
    requires Describes(o, t, i, 0, 0)
    ensures Describes(o, t, i, o.nameStart, o.nameEnd) && o.nameStart == o.nameEnd == 0
  {
  }

  /** What is printed for a tree is an accepted text of that tree, and nothing of it is lost. */
  lemma ShowIsDocument(t: Tree)
    requires t.Branch? && !t.arr && TreeOk(t, 1)
    ensures Document(Show(t, 1, None), " ", Neat(t, 1)) && Bare(Neat(t, 1)) == Bare(t) && Seen(Neat(t, 1)) == Neat(t, 1)
  {
    hide TreeAt, TreeOk, Show, Text, ItemsText, NeatItems, BareItems, Valid, Seen;
    NeatOk(t, 1);
    OkIsValid(Neat(t, 1), 1);
    BareNeat(t, 1);
    NeatWhole(t, 1);
    ShowIsText(t, 1, None);
    var text, body := Show(t, 1, None), Text(Neat(t, 1));
    assert Lead(t, 1, None) == " ";
    assert text[0..1] == " " && text[1..1 + |body|] == body;
    TextAt(text, 1, Neat(t, 1));
  }

  lemma {:induction false} NeatWhole(t: Tree, depth: nat)
    ensures Seen(Neat(t, depth)) == Neat(t, depth)
    decreases t
  {
    hide Spaces;
    if t.Branch? { NeatItemsWhole(t.arr, t.items, depth + 1, (if t.items.Nil? then "\n\n" else "\n") + Spaces(depth)); }
  }

  lemma {:induction false} NeatItemsWhole(arr: bool, items: Items, depth: nat, tail: string)
    requires tail != ""
    ensures SeenItems(NeatItems(arr, items, depth), tail) == NeatItems(arr, items, depth)
    decreases items
  {
    hide Spaces;
    if items.Cons? {
      NeatWhole(items.value, depth);
      NeatItemsWhole(arr, items.rest, depth, tail);
    }
  }

  /** What is seen is accepted too, and so is its neat layout: no container is deeper. */
  lemma {:induction false} SeenOk(t: Tree, depth: nat, at: nat)
    requires TreeOk(t, depth) && !Endless(t, depth)
    ensures TreeOk(Seen(t), depth) && !Endless(Neat(Seen(t), at), depth)
    decreases t
  {
    hide ItemOk, ScalarOk, AllSpace, Lost, Spaces, Endless, EndlessItems, SeenItems, NeatItems, ItemsOk;
    EndlessUnfold(t, depth);
    EndlessUnfold(Neat(Seen(t), at), depth);
    if t.Branch? {
      SeenItemsOk(t.arr, t.items, t.tail, depth, at + 1,
                  (if SeenItems(t.items, t.tail).Nil? then "\n\n" else "\n") + Spaces(at));
    }
  }

  lemma EndlessUnfold(t: Tree, depth: nat)
    ensures Endless(t, depth) <==> t.Branch? && (depth >= MAX_DEPTH || EndlessItems(t.items, t.tail, depth + 1))
  {
  }

  lemma {:induction false} SeenItemsOk(arr: bool, items: Items, tail: string, depth: nat, at: nat, w: string)
    requires ItemsOk(arr, items, depth) && !EndlessItems(items, tail, depth + 1) && w != ""
    ensures ItemsOk(arr, SeenItems(items, tail), depth)
    ensures !EndlessItems(NeatItems(arr, SeenItems(items, tail), at), w, depth + 1)
    decreases items
  {
    hide ItemOk, ScalarOk, AllSpace, Spaces, Endless, Seen, Neat, TreeOk, Lost;
    if !NoneSeen(items, tail) {
      SeenOk(items.value, depth + 1, at);
      SeenItemsOk(arr, items.rest, tail, depth, at, w);
      SeenHead(arr, items, tail, depth);
    }
  }

  lemma SeenHead(arr: bool, items: Items, tail: string, depth: nat)
    requires !NoneSeen(items, tail)
    ensures items.Cons?
    ensures SeenItems(items, tail) == items.(value := Seen(items.value), rest := SeenItems(items.rest, tail))
    ensures ItemOk(arr, items) <==> ItemOk(arr, SeenItems(items, tail))
    ensures Seen(items.value).Scalar? <==> items.value.Scalar?
    ensures items.value.Scalar? ==> Seen(items.value) == items.value
  {
    hide StringBody, AllSpace, Lost;
  }

  /** What is printed for a text, parsed and enumerated again from whatever records, rebuilds the
      tree. */
  ghost predicate RoundTrips(buf: string, s: Stack, limit: Size, fuel: nat, t: Tree, calls: nat) {
    var text := DumpText(buf, s, limit, fuel);
    text.Some? && forall r: Stack, f: nat :: f >= calls ==> Rebuilds(text.value, r, f, t)
  }

  ghost predicate Rebuilds(text: string, r: Stack, f: nat, t: Tree) {
    VisitText(text, r, f).Some? && Rebuild(text, [], VisitText(text, r, f).value) == [Pending(1, "", Bare(t))]
  }

  /** Printer and parser undo each other. For every accepted text, what json__dump prints for it,
      parsed and enumerated again, gives callbacks that rebuild exactly what was seen of the original
      text, with the same names, scalar slices, order and kinds, if and only if no container is seen
      in record 20 and every name and scalar seen fits the copy buffer and holds no NUL. */
  lemma RoundTrip(buf: string, lead: string, t: Tree, s: Stack, limit: Size, fuel: nat)
    requires Document(buf, lead, t) && fuel >= Need(t)
    ensures RoundTrips(buf, s, limit, fuel, Seen(t), Need(Neat(Seen(t), 1))) <==>
      !Endless(t, 1) && TreePrintable(Seen(t), limit)
  {
    hide Document, Endless, TreeShort, TreeNulFree, Show, VisitText, DumpText, Rebuild, Neat, Need, Seen, Trim, Bare;
    DumpPrints(buf, lead, t, s, limit, fuel);
    var calls := Need(Neat(Seen(t), 1));
    if !Endless(t, 1) && TreePrintable(Seen(t), limit) {
      forall r: Stack, f: nat | f >= calls ensures Rebuilds(Show(Seen(t), 1, None), r, f, Seen(t)) {
        PrintRebuilds(buf, lead, t, r, f);
      }
    } else if RoundTrips(buf, s, limit, fuel, Seen(t), calls) {
      assert Rebuilds(Show(Trim(Seen(t)), 1, None), s, calls, Seen(t));
      PrintHasNoNul(Seen(t), Seen(t), s, calls);
    }
  }

  lemma PrintRebuilds(buf: string, lead: string, t: Tree, r: Stack, f: nat)
    requires Document(buf, lead, t) && !Endless(t, 1) && f >= Need(Neat(Seen(t), 1))
    ensures Rebuilds(Show(Seen(t), 1, None), r, f, Seen(t))
  {
    hide Document, Endless, Show, VisitText, Rebuild, Neat, Need, Seen, Bare, SeenLog;
    SeenDocument(buf, lead, t);
    ShowIsDocument(Seen(t));
    VisitRebuilds(Show(Seen(t), 1, None), " ", Neat(Seen(t), 1), r, f);
  }

  /** Printing what was printed gives the same text again. */
  lemma PrintIsStable(buf: string, lead: string, t: Tree, limit: Size, r: Stack, f: nat)
    requires Document(buf, lead, t) && !Endless(t, 1) && TreePrintable(Seen(t), limit) && f >= Need(Neat(Seen(t), 1))
    ensures DumpText(Show(Seen(t), 1, None), r, limit, f) == Some(Show(Seen(t), 1, None))
  {
    hide *;
    var u := Seen(t);
    SeenDocument(buf, lead, t);
    ShowIsDocument(u);
    NeatPrintable(u, limit, 1);
    ShowNeat(u, 1, None);
    DumpPrints(Show(u, 1, None), " ", Neat(u, 1), r, limit, f);
  }

  // ---- NUL does not survive -------------------------------------------------------------------------

  lemma NulJoin(a: string, b: string)
    ensures NulFree(a + b) <==> NulFree(a) && NulFree(b)
    ensures NulFree("") && NulFree("\n") && NulFree("\"") && NulFree("\":") && NulFree(",\n")
    ensures NulFree("{\n") && NulFree("[\n") && NulFree("}") && NulFree("]")
  {
    if NulFree(a + b) {
      forall i | 0 <= i < |a| ensures a[i] != '\0' { assert (a + b)[i] == a[i]; }
      forall i | 0 <= i < |b| ensures b[i] != '\0' { assert (a + b)[|a| + i] == b[i]; }
    }
  }

  lemma {:induction false} ShownNulFree(text: string)
    ensures NulFree(Shown(text))
  {
    if text != "" && text[0] != '\0' {
      ShownNulFree(text[1..]);
      NulJoin([text[0]], Shown(text[1..]));
    }
  }

  lemma LabelNulFree(name: Option<string>, depth: nat)
    ensures NulFree(Label(TrimName(name), depth)) && NulFree(Spaces(depth))
  {
    hide Shown;
    assert NulFree(Spaces(depth));
    if name.Some? {
      ShownNulFree(name.value);
      LabelJoin(Shown(name.value), depth);
    }
  }

  lemma LabelJoin(name: string, depth: nat)
    requires NulFree(name)
    ensures NulFree(Label(Some(name), depth))
  {
    hide NulFree;
    var w := Spaces(depth);
    assert NulFree(w) by { SpacesNulFree(depth); }
    NulJoin(w, "\"");
    NulJoin(w + "\"", name);
    NulJoin(w + "\"" + name, "\":");
  }

  lemma SpacesNulFree(depth: nat)
    ensures NulFree(Spaces(depth))
  {
  }

  lemma {:induction false} PrintNulFree(t: Tree, depth: nat, name: Option<string>)
    ensures NulFree(Show(Trim(t), depth, TrimName(name)))
    decreases t
  {
    hide NulFree, Label, Spaces, ShowItems, Shown, TrimName;
    LabelNulFree(name, depth);
    LabelLength(name, depth);
    match t
    case Scalar(kind, text) =>
      ShownNulFree(text);
      var quoted := ScalarText(Trim(t));
      NulJoin("\"", Shown(text));
      NulJoin("\"" + Shown(text), "\"");
      var lead := if name.Some? then "" else Spaces(depth);
      NulJoin(lead, quoted);
      NulJoin(Label(TrimName(name), depth), lead + quoted);
    case Branch(arr, items, tail) =>
      ItemsNulFreePrint(arr, items, depth + 1, true);
      ShowBranch(arr, TrimItems(arr, items), tail, depth, TrimName(name));
      var line, open, close := if name.Some? then "\n" else "", if arr then "[\n" else "{\n", if arr then "]" else "}";
      BranchNulFree(Label(TrimName(name), depth), line, Spaces(depth), open,
                    ShowItems(arr, TrimItems(arr, items), depth + 1, true), close);
  }

  lemma BranchNulFree(tag: string, line: string, w: string, open: string, members: string, close: string)
    requires NulFree(tag) && NulFree(w) && NulFree(members)
    requires (line == "" || line == "\n") && (open == "[\n" || open == "{\n") && (close == "]" || close == "}")
    ensures NulFree(tag + (line + w + open + members + "\n" + w + close))
  {
    hide NulFree;
    NulJoin(line, w);
    NulJoin(line + w, open);
    NulJoin(line + w + open, members);
    NulJoin(line + w + open + members, "\n");
    NulJoin(line + w + open + members + "\n", w);
    NulJoin(line + w + open + members + "\n" + w, close);
    NulJoin(tag, line + w + open + members + "\n" + w + close);
  }

  lemma {:induction false} ItemsNulFreePrint(arr: bool, items: Items, depth: nat, first: bool)
    ensures NulFree(ShowItems(arr, TrimItems(arr, items), depth, first))
    decreases items
  {
    hide NulFree, Show, Shown, Trim;
    NulJoin("", "");
    if items.Cons? {
      PrintNulFree(items.value, depth, ItemName(arr, items));
      ItemsNulFreePrint(arr, items.rest, depth, false);
      var head, value, rest := if first then "" else ",\n",
        Show(Trim(items.value), depth, TrimName(ItemName(arr, items))),
                               ShowItems(arr, TrimItems(arr, items.rest), depth, false);
      NulJoin(head, value);
      NulJoin(head + value, rest);
    }
  }

  predicate PendingNulFree(ps: seq<Pending>) {
    forall i :: 0 <= i < |ps| ==> NulFree(ps[i].name) && TreeNulFree(ps[i].value)
  }

  lemma CutNulFree(buf: string, start: nat, end: nat)
    requires NulFree(buf)
    ensures NulFree(Cut(buf, start, end))
  {
  }

  lemma {:induction false} ItemsOfNulFree(arr: bool, ps: seq<Pending>)
    requires PendingNulFree(ps)
    ensures ItemsNulFree(arr, ItemsOf(ps))
  {
    hide NulFree, TreeNulFree;
    if ps != [] { ItemsOfNulFree(arr, ps[1..]); }
  }

  /** From a text without NUL nothing with a NUL is rebuilt. */
  lemma {:induction false} RebuildNulFree(buf: string, log: seq<Entry>)
    requires NulFree(buf)
    ensures PendingNulFree(Rebuild(buf, [], log))
  {
    hide NulFree, Cut, RunStart, ItemsOf;
    if log != [] {
      var ps, e := Rebuild(buf, [], log[..|log| - 1]), log[|log| - 1];
      RebuildNulFree(buf, log[..|log| - 1]);
      CutNulFree(buf, e.nameStart, e.nameEnd);
      CutNulFree(buf, e.valueStart, e.valueEnd);
      ItemsOfNulFree(e.kind == Array, ps[RunStart(ps, e.depth)..]);
    }
  }

  lemma {:induction false} BareNulFree(t: Tree)
    requires TreeNulFree(Bare(t))
    ensures TreeNulFree(t)
    decreases t
  {
    hide NulFree;
    if t.Branch? { BareItemsNulFree(t.arr, t.items); }
  }

  lemma {:induction false} BareItemsNulFree(arr: bool, items: Items)
    requires ItemsNulFree(arr, BareItems(arr, items))
    ensures ItemsNulFree(arr, items)
    decreases items
  {
    hide NulFree;
    if items.Cons? {
      BareNulFree(items.value);
      BareItemsNulFree(arr, items.rest);
    }
  }

  lemma PrintHasNoNul(u: Tree, t: Tree, r: Stack, f: nat)
    requires Rebuilds(Show(Trim(u), 1, None), r, f, t)
    ensures TreeNulFree(t)
  {
    hide Show, Trim, VisitText, Rebuild, Bare, TreeNulFree, NulFree;
    var text := Show(Trim(u), 1, None);
    PrintNulFree(u, 1, None);
    RebuildNulFree(text, VisitText(text, r, f).value);
    assert [Pending(1, "", Bare(t))][0].value == Bare(t);
    BareNulFree(t);
  }

  lemma SeenDocument(buf: string, lead: string, t: Tree)
    requires Document(buf, lead, t) && !Endless(t, 1)
    ensures Seen(t).Branch? && !Seen(t).arr && TreeOk(Seen(t), 1) && !Endless(Neat(Seen(t), 1), 1)
  {
    hide TreeAt, TreeOk, Endless, Neat, Valid, SeenItems;
    SeenOk(t, 1, 1);
  }

  lemma {:induction false} NeatPrintable(t: Tree, limit: Size, depth: nat)
    requires TreePrintable(t, limit)
    ensures TreePrintable(Neat(t, depth), limit)
    decreases t
  {
    hide Short, NulFree;
    if t.Branch? { NeatItemsPrintable(t.arr, t.items, limit, depth + 1); }
  }

  lemma {:induction false} NeatItemsPrintable(arr: bool, items: Items, limit: Size, depth: nat)
    requires ItemsShort(arr, items, limit) && ItemsNulFree(arr, items)
    ensures ItemsShort(arr, NeatItems(arr, items, depth), limit) && ItemsNulFree(arr, NeatItems(arr, items, depth))
    decreases items
  {
    hide Short, NulFree, Neat;
    if items.Cons? {
      NeatPrintable(items.value, limit, depth);
      NeatItemsPrintable(arr, items.rest, limit, depth);
    }
  }

  lemma {:induction false} ShowNeat(t: Tree, depth: nat, name: Option<string>)
    ensures Show(Neat(t, depth), depth, name) == Show(t, depth, name)
    decreases t
  {
    if t.Branch? { ShowNeatItems(t.arr, t.items, depth + 1, true); }
  }

  lemma {:induction false} ShowNeatItems(arr: bool, items: Items, depth: nat, first: bool)
    ensures ShowItems(arr, NeatItems(arr, items, depth), depth, first) == ShowItems(arr, items, depth, first)
    decreases items
  {
    if items.Cons? {
      ShowNeat(items.value, depth, ItemName(arr, items));
      ShowNeatItems(arr, items.rest, depth, false);
    }
  }
}
