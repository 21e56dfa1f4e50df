/** Strings and numbers by their grammar, and where the scanner ends them. */
module JsonGrammar {
  import opened Json
  import opened JsonLayout
  import opened JsonScan

  // ---- Strings --------------------------------------------------------------------------------------

  /** What a string body is made of: a character other than quote and backslash, a backslash with the
      quote or backslash it escapes, or a backslash in front of any other character. */
  datatype Piece = Plain(c: char) | Escape(c: char) | Backslash

  function Letters(p: Piece): string {
    match p
    case Plain(c) => [c]
    case Escape(c) => ['\\', c]
    case Backslash => ['\\']
  }

  function Spell(ps: seq<Piece>): string { if ps == [] then "" else Letters(ps[0]) + Spell(ps[1..]) }

  predicate PieceOk(ps: seq<Piece>, i: nat)
    requires i < |ps|
  {
    match ps[i]
    case Plain(c) => c != '"' && c != '\\'
    case Escape(c) => c == '"' || c == '\\'
    case Backslash => i + 1 < |ps| && ps[i + 1].Plain?
  }

  predicate WellFormed(ps: seq<Piece>) { forall i :: 0 <= i < |ps| ==> PieceOk(ps, i) }

  ghost predicate Body(text: string) { exists ps :: WellFormed(ps) && Spell(ps) == text }

  lemma WellFormedTail(ps: seq<Piece>)
    requires WellFormed(ps) && ps != []
    ensures PieceOk(ps, 0) && WellFormed(ps[1..])
  {
    forall i | 0 <= i < |ps[1..]| ensures PieceOk(ps[1..], i) { assert PieceOk(ps, i + 1); }
  }

  lemma WellFormedCons(p: Piece, ps: seq<Piece>)
    requires WellFormed(ps) && PieceOk([p] + ps, 0)
    ensures WellFormed([p] + ps) && Spell([p] + ps) == Letters(p) + Spell(ps)
  {
    var qs := [p] + ps;
    assert qs[1..] == ps;
    forall i | 0 <= i < |qs| ensures PieceOk(qs, i) {
      if i > 0 { assert PieceOk(ps, i - 1); }
    }
  }

  lemma SpellCons(ps: seq<Piece>)
    requires ps != []
    ensures Spell(ps) == Letters(ps[0]) + Spell(ps[1..])
    ensures |Letters(ps[0])| == (if ps[0].Escape? then 2 else 1)
    ensures Letters(ps[0])[0] == if ps[0].Plain? then ps[0].c else '\\'
    ensures ps[0].Escape? ==> Letters(ps[0])[1] == ps[0].c
  {
  }

  /** The characters of a slice that is a concatenation. */
  lemma SliceOf(buf: string, i: nat, u: string, v: string)
    requires i + |u + v| <= |buf| && buf[i..i + |u + v|] == u + v
    ensures forall k :: 0 <= k < |u| ==> buf[i + k] == u[k]
    ensures buf[i + |u|..i + |u| + |v|] == v
  {
    forall k | 0 <= k < |u| ensures buf[i + k] == u[k] { assert buf[i..i + |u + v|][k] == (u + v)[k]; }
    assert buf[i + |u|..i + |u| + |v|] == (u + v)[|u|..];
  }

  /** The scan of a spelt body stops at its closing quote. */
  lemma {:induction false} SpeltEnd(buf: string, i: nat, end: nat, ps: seq<Piece>)
    requires WellFormed(ps) && i + |Spell(ps)| < |buf| && i + |Spell(ps)| <= end
    requires buf[i..i + |Spell(ps)|] == Spell(ps) && buf[i + |Spell(ps)|] == '"'
    ensures StringEnd(buf, i, end) == i + |Spell(ps)|
    decreases |ps|
  {
    hide WellFormed, Spell, Letters;
    if ps == [] {
      EmptySpelling();
    } else {
      var u, rest := Letters(ps[0]), ps[1..];
      SpellCons(ps);
      WellFormedTail(ps);
      SliceOf(buf, i, u, Spell(rest));
      assert At(buf, i) == u[0];
      if ps[0].Escape? { assert At(buf, i + 1) == u[1]; }
      if ps[0].Backslash? { PlainNext(buf, i, rest); }
      SpeltEnd(buf, i + |u|, end, rest);
    }
  }

  lemma EmptySpelling()
    ensures Spell([]) == "" && WellFormed([])
  {
  }

  lemma PlainNext(buf: string, i: nat, rest: seq<Piece>)
    requires rest != [] && rest[0].Plain? && WellFormed(rest)
    requires i + 1 + |Spell(rest)| <= |buf| && buf[i + 1..i + 1 + |Spell(rest)|] == Spell(rest)
    ensures At(buf, i + 1) != '"' && At(buf, i + 1) != '\\'
  {
    hide WellFormed, Spell, Letters;
    SpellCons(rest);
    WellFormedTail(rest);
    SliceOf(buf, i + 1, Letters(rest[0]), Spell(rest[1..]));
    assert buf[i + 1 + 0] == Letters(rest[0])[0];
  }

  /** What the scan has passed when it stops before end is the spelling of a body. */
  lemma {:induction false} Cut(buf: string, i: nat, end: nat) returns (ps: seq<Piece>)
    requires i <= |buf| && StringEnd(buf, i, end) < end
    ensures var e := StringEnd(buf, i, end);
      e < |buf| && buf[e] == '"' && WellFormed(ps) && Spell(ps) == buf[i..e]
    ensures ps != [] && ps[0].Plain? <==> At(buf, i) != '"' && At(buf, i) != '\\'
    decreases end - i
  {
    hide WellFormed, Spell, Letters;
    EmptySpelling();
    if At(buf, i) == '"' {
      ps := [];
    } else {
      OnText(buf, i, end);
      var p := if At(buf, i) != '\\' then Plain(buf[i])
        else if At(buf, i + 1) == '"' || At(buf, i + 1) == '\\' then Escape(buf[i + 1]) else Backslash;
      var w := if p.Escape? then 2 else 1;
      var rest := Cut(buf, i + w, end);
      ps := [p] + rest;
      if p.Backslash? { assert ps[1] == rest[0]; }
      WellFormedCons(p, rest);
      LettersAre(buf, i, p);
      assert buf[i..StringEnd(buf, i, end)] == buf[i..i + w] + buf[i + w..StringEnd(buf, i, end)];
    }
  }

  lemma LettersAre(buf: string, i: nat, p: Piece)
    requires i < |buf| && buf[i] == (if p.Plain? then p.c else '\\')
    requires p.Escape? ==> i + 1 < |buf| && buf[i + 1] == p.c
    ensures Letters(p) == buf[i..i + if p.Escape? then 2 else 1]
  {
  }

  /** A scan that stops before end has stopped within the text. */
  lemma {:induction false} OnText(buf: string, i: nat, end: nat)
    requires StringEnd(buf, i, end) < end
    ensures i <= StringEnd(buf, i, end) < |buf|
    decreases end - i
  {
    if At(buf, i) != '"' {
      if At(buf, i) == '\\' && (At(buf, i + 1) == '"' || At(buf, i + 1) == '\\') {
        OnText(buf, i + 2, end);
      } else {
        OnText(buf, i + 1, end);
      }
    }
  }

  /** Where the scanner ends a string: at e if and only if a quote stands there and the characters
      before it are a string body. */
  lemma StringExactly(buf: string, i: nat, e: nat, end: nat)
    requires i <= e < end && e < |buf|
    ensures StringEnd(buf, i, end) == e <==> buf[e] == '"' && Body(buf[i..e])
  {
    hide StringEnd, WellFormed, Spell;
    if StringEnd(buf, i, end) == e {
      var ps := Cut(buf, i, end);
    }
    if buf[e] == '"' && Body(buf[i..e]) {
      var ps :| WellFormed(ps) && Spell(ps) == buf[i..e];
      SpeltEnd(buf, i, end, ps);
    }
  }

  /** The texts taken for string bodies are those of the grammar. */
  lemma StringBodyExactly(text: string)
    ensures StringBody(text) <==> Body(text)
  {
    hide StringEnd, Body;
    var u := text + "\"";
    assert u[0..|text|] == text && u[|text|] == '"';
    StringExactly(u, 0, |text|, |text| + 1);
  }

  // ---- Numbers --------------------------------------------------------------------------------------

  predicate AllDigits(text: string, i: nat, j: nat) {
    i <= j <= |text| && forall k :: i <= k < j ==> '0' <= text[k] <= '9'
  }

  /** One of two characters stands at i, or nothing. */
  predicate Maybe(text: string, i: nat, j: nat, a: char, b: char) {
    i <= j <= |text| && (j == i || (j == i + 1 && (text[i] == a || text[i] == b)))
  }

  /** The parts of a number: a minus up to a, digits up to b, a point up to c, digits up to d, e or E up to
      x, a sign up to y, digits. It begins with a minus or a digit; there are no second digits without a
      point and no third ones without e or sign. */
  predicate Parts(text: string, a: nat, b: nat, c: nat, d: nat, x: nat, y: nat) {
    Maybe(text, 0, a, '-', '-') && AllDigits(text, a, b) && Maybe(text, b, c, '.', '.') && AllDigits(text, c, d) &&
    Maybe(text, d, x, 'e', 'E') && Maybe(text, x, y, '-', '+') && AllDigits(text, y, |text|) &&
    b > 0 && (c == b ==> d == c) && (y == d ==> y == |text|)
  }

  ghost predicate IsNumber(text: string) {
    text != "-" && exists a, b, c, d, x, y :: Parts(text, a, b, c, d, x, y)
  }

  lemma {:induction false} DigitsEnd(text: string, i: nat, j: nat)
    requires AllDigits(text, i, j)
    requires j < |text| ==> !('0' <= text[j] <= '9')
    ensures Digits(text + " ", i) == j
    decreases j - i
  {
    var u := text + " ";
    if i < j { DigitsEnd(text, i + 1, j); } else if j == |text| { assert u[j] == ' '; } else { assert u[j] == text[j]; }
  }

  lemma {:induction false} DigitsAre(text: string, i: nat)
    requires i <= |text|
    ensures var e := Digits(text + " ", i);
      AllDigits(text, i, e) && (e < |text| ==> !('0' <= text[e] <= '9'))
    decreases |text| - i
  {
    var u := text + " ";
    if i == |text| { assert u[i] == ' '; }
    else {
      assert u[i] == text[i];
      if IsDigit(text[i]) { DigitsAre(text, i + 1); }
    }
  }

  lemma SkipIs(text: string, i: nat, a: char, b: char)
    requires i <= |text| && a !in {'\0', ' '} && b !in {'\0', ' '}
    ensures Skip(text + " ", i, a, b) == if i < |text| && (text[i] == a || text[i] == b) then i + 1 else i
  {
    assert At(text + " ", i) == if i < |text| then text[i] else ' ';
  }

  lemma PartsEnd(text: string, a: nat, b: nat, c: nat, d: nat, x: nat, y: nat)
    requires text != "-" && Parts(text, a, b, c, d, x, y)
    ensures NumberText(text)
  {
    hide Digits, Skip;
    SkipIs(text, 0, '-', '-');
    DigitsEnd(text, a, b);
    SkipIs(text, b, '.', '.');
    DigitsEnd(text, c, d);
    SkipIs(text, d, 'e', 'E');
    SkipIs(text, x, '-', '+');
    DigitsEnd(text, y, |text|);
  }

  /** The texts taken for numbers are those of the grammar. */
  lemma NumberTextExactly(text: string)
    ensures NumberText(text) <==> IsNumber(text)
  {
    hide Digits, Skip, Parts;
    if IsNumber(text) {
      var a, b, c, d, x, y :| Parts(text, a, b, c, d, x, y);
      PartsEnd(text, a, b, c, d, x, y);
    }
    if NumberText(text) { PartsOf(text); }
  }

  lemma PartsOf(text: string)
    requires NumberText(text)
    ensures exists a, b, c, d, x, y :: Parts(text, a, b, c, d, x, y)
  {
    hide Digits, Skip;
    var u := text + " ";
    SkipIs(text, 0, '-', '-');
    var a := Skip(u, 0, '-', '-');
    DigitsAre(text, a);
    var b := Digits(u, a);
    SkipIs(text, b, '.', '.');
    var c := Skip(u, b, '.', '.');
    DigitsAre(text, c);
    var d := Digits(u, c);
    SkipIs(text, d, 'e', 'E');
    var x := Skip(u, d, 'e', 'E');
    SkipIs(text, x, '-', '+');
    var y := Skip(u, x, '-', '+');
    DigitsAre(text, y);
    assert Parts(text, a, b, c, d, x, y);
  }
}
