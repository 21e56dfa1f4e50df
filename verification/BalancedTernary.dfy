/** The balanced ternary encoder and table generator of tools/bin2ter.c, for any number of trits. */
module BalancedTernary {

  function Pow(b: nat, k: nat): (p: nat)
    requires b >= 1
    ensures p >= 1 && (b % 2 == 1 ==> p % 2 == 1)
  {
    if k == 0 then 1 else OddProduct(b, Pow(b, k - 1)); b * Pow(b, k - 1)
  }

  lemma OddProduct(a: nat, b: nat)
    ensures a >= 1 && b >= 1 ==> a * b >= 1
    ensures a % 2 == 1 && b % 2 == 1 ==> (a * b) % 2 == 1
  {
    if a % 2 == 1 && b % 2 == 1 {
      assert a * b == 2 * ((a / 2) * b + b / 2) + 1;
    }
  }

  type Trit = t: int | -1 <= t <= 1

  /** The largest value k trits can represent, (3^k - 1) / 2. */
  function Bound(k: nat): int { (Pow(3, k) - 1) / 2 }

  predicate InBound(k: nat, v: int) { -Bound(k) <= v <= Bound(k) }

  /** The two-bit code of a trit. */
  function Pair(t: Trit): nat { if t == -1 then 2 else t }

  /** The digit the encoder chooses for weight n. */
  function Digit(v: int, n: nat): Trit {
    if v > n / 2 then 1 else if v < -(n / 2) then -1 else 0
  }

  /** The k digits chosen for v, most significant first. */
  function Trits(k: nat, v: int): (ts: seq<Trit>)
    ensures |ts| == k
  {
    if k == 0 then [] else
    var n := Pow(3, k - 1);
    var t := Digit(v, n);
    [t] + Trits(k - 1, v - t * n)
  }

  /** The weighted sum of a row of trits. */
  function Sum(ts: seq<Trit>): int {
    if ts == [] then 0 else ts[0] * Pow(3, |ts| - 1) + Sum(ts[1..])
  }

  /** The word made of the digit pairs. */
  function Pack(ts: seq<Trit>): nat {
    if ts == [] then 0 else Pair(ts[0]) * Pow(4, |ts| - 1) + Pack(ts[1..])
  }

  /** b2t with max3 = 3^(trits - 1). The low pair of t is clear after the shift, so the bitwise or
      is an addition. */
  method B2t(max3: nat, ghost trits: nat, value: int) returns (t: nat)
    requires trits >= 1 && max3 == Pow(3, trits - 1)
    ensures t == Pack(Trits(trits, value))
    ensures InBound(trits, value) ==> Sum(Trits(trits, value)) == value
    ensures t < Pow(4, trits)
  {
    hide Pack, Trits, Sum, Pow;
    t := 0;
    var n: int, v := max3, value;
    ghost var k := trits;
    while n > 0
      invariant 0 <= k <= trits && n == (if k == 0 then 0 else Pow(3, k - 1))
      invariant t * Pow(4, k) + Pack(Trits(k, v)) == Pack(Trits(trits, value))
      decreases k
    {
      var next := n / 3;
      ghost var t0, v0 := t, v;
      t := t * 4;
      if v == 0 {
      } else if v > n / 2 {
        v := v - n;
        t := t + 1;
      } else if v < -(n / 2) {
        v := v + n;
        t := t + 2;
      }
      EncodeStep(k, v0, t0, t, v);
      n := next;
      k := k - 1;
    }
    EncodeEnd(t, v);
    PackBound(Trits(trits, value));
    if InBound(trits, value) { SumOfTrits(trits, value); }
  }

  lemma EncodeEnd(t: nat, v: int)
    ensures t * Pow(4, 0) + Pack(Trits(0, v)) == t
  {
  }

  lemma EncodeStep(k: nat, v: int, t: nat, t': nat, v': int)
    requires k >= 1
    requires v' == v - Digit(v, Pow(3, k - 1)) * Pow(3, k - 1)
    requires t' == 4 * t + Pair(Digit(v, Pow(3, k - 1)))
    ensures t' * Pow(4, k - 1) + Pack(Trits(k - 1, v')) == t * Pow(4, k) + Pack(Trits(k, v))
    ensures Pow(3, k - 1) / 3 == if k == 1 then 0 else Pow(3, k - 2)
  {
    hide *;
    var d := Digit(v, Pow(3, k - 1));
    PackTrits(k, v);
    Regroup(t, Pair(d), Pow(4, k - 1));
    PowersFall(k);
  }

  lemma PackTrits(k: nat, v: int)
    requires k >= 1
    ensures var n := Pow(3, k - 1); var d := Digit(v, n);
      Pack(Trits(k, v)) == Pair(d) * Pow(4, k - 1) + Pack(Trits(k - 1, v - d * n))
  {
    hide Pow, Digit, Pair;
    var n := Pow(3, k - 1);
    assert Trits(k, v)[1..] == Trits(k - 1, v - Digit(v, n) * n);
  }

  lemma Regroup(t: nat, d: nat, q: nat)
    ensures (4 * t + d) * q == t * (4 * q) + d * q
  {
  }

  lemma PowersFall(k: nat)
    requires k >= 1
    ensures Pow(4, k) == 4 * Pow(4, k - 1)
    ensures Pow(3, k - 1) / 3 == if k == 1 then 0 else Pow(3, k - 2)
  {
  }

  lemma {:induction false} PackBound(ts: seq<Trit>)
    ensures Pack(ts) < Pow(4, |ts|)
  {
    if ts != [] {
      PackBound(ts[1..]);
      var q := Pow(4, |ts| - 1);
      assert Pair(ts[0]) * q <= 2 * q;
    }
  }

  // ---- Exactness ------------------------------------------------------------------------------

  lemma BoundStep(k: nat)
    requires k >= 1
    ensures Bound(k) == Pow(3, k - 1) + Bound(k - 1)
    ensures Pow(3, k - 1) == 2 * Bound(k - 1) + 1
  {
    hide Pow;
    PowStep(k);
    HalfOfThrice(Pow(3, k - 1));
  }

  lemma PowStep(k: nat)
    requires k >= 1
    ensures Pow(3, k) == 3 * Pow(3, k - 1) && Pow(3, k - 1) % 2 == 1
  {
  }

  lemma HalfOfThrice(q: nat)
    requires q % 2 == 1
    ensures q == 2 * ((q - 1) / 2) + 1 && (3 * q - 1) / 2 == q + (q - 1) / 2
  {
    var m := q / 2;
    Half(q - 1, m);
    Half(3 * q - 1, 3 * m + 1);
  }

  lemma Half(x: nat, m: nat)
    requires x == 2 * m
    ensures x / 2 == m
  {
  }

  lemma {:induction false} SumInBound(ts: seq<Trit>)
    ensures InBound(|ts|, Sum(ts))
  {
    if ts != [] {
      SumInBound(ts[1..]);
      BoundStep(|ts|);
      var n := Pow(3, |ts| - 1);
      var t: int := ts[0];
      assert t * n == n || t * n == 0 || t * n + n == 0;
    }
  }

  lemma {:induction false} SumOfTrits(k: nat, v: int)
    requires InBound(k, v)
    ensures Sum(Trits(k, v)) == v
  {
    if k > 0 {
      BoundStep(k);
      var n := Pow(3, k - 1);
      var t := Digit(v, n);
      SumOfTrits(k - 1, v - t * n);
      assert Trits(k, v)[1..] == Trits(k - 1, v - t * n);
    }
  }

  /** The digits sum to the value exactly when the value is within the bound. */
  lemma ExactlyInBound(k: nat, v: int)
    ensures Sum(Trits(k, v)) == v <==> InBound(k, v)
  {
    SumInBound(Trits(k, v));
    if InBound(k, v) { SumOfTrits(k, v); }
  }

  /** Every row of trits is the encoding of its own sum, so the encoder is onto the legal codes. */
  lemma {:induction false} TritsOfSum(ts: seq<Trit>)
    ensures Trits(|ts|, Sum(ts)) == ts
  {
    hide Pow, Bound;
    if ts != [] {
      TritsOfSum(ts[1..]);
      SumInBound(ts[1..]);
      BoundStep(|ts|);
      assert ts == [ts[0]] + ts[1..];
    }
  }

  /** Words whose k lowest base-4 digits are 0, 1 or 2 and that have no others. */
  predicate Legal(k: nat, c: nat) {
    if k == 0 then c == 0 else c % 4 != 3 && Legal(k - 1, c / 4)
  }

  /** The trits of a legal word, read from its low end. */
  function Unpack(k: nat, c: nat): (ts: seq<Trit>)
    requires Legal(k, c)
    ensures |ts| == k
  {
    if k == 0 then [] else Unpack(k - 1, c / 4) + [if c % 4 == 2 then -1 else c % 4]
  }

  lemma {:induction false} PackSnoc(ts: seq<Trit>, t: Trit)
    ensures Pack(ts + [t]) == 4 * Pack(ts) + Pair(t)
  {
    if ts == [] {
      assert [t][1..] == [] && Pow(4, 0) == 1;
    } else {
      PackSnoc(ts[1..], t);
      assert (ts + [t])[1..] == ts[1..] + [t];
      var q := Pow(4, |ts| - 1);
      assert Pair(ts[0]) * (4 * q) == 4 * (Pair(ts[0]) * q);
    }
  }

  lemma {:induction false} PackInjective(ts: seq<Trit>, us: seq<Trit>)
    requires |ts| == |us| && Pack(ts) == Pack(us)
    ensures ts == us
  {
    hide Pack;
    if ts != [] {
      var n := |ts| - 1;
      assert ts == ts[..n] + [ts[n]] && us == us[..n] + [us[n]];
      PackSnoc(ts[..n], ts[n]);
      PackSnoc(us[..n], us[n]);
      PackInjective(ts[..n], us[..n]);
    }
  }

  lemma {:induction false} PackUnpack(k: nat, c: nat)
    requires Legal(k, c)
    ensures Pack(Unpack(k, c)) == c
  {
    if k > 0 {
      PackUnpack(k - 1, c / 4);
      PackSnoc(Unpack(k - 1, c / 4), if c % 4 == 2 then -1 else c % 4);
    }
  }

  lemma {:induction false} PackLegal(ts: seq<Trit>)
    ensures Legal(|ts|, Pack(ts))
  {
    if ts != [] {
      var us, t := ts[..|ts| - 1], ts[|ts| - 1];
      assert ts == us + [t];
      PackSnoc(us, t);
      PackLegal(us);
    }
  }

  /** The encoder is a bijection between the values in bound and the legal codes. */
  lemma Bijection(k: nat)
    ensures forall v :: InBound(k, v) ==> Legal(k, Pack(Trits(k, v)))
    ensures forall v, w :: (InBound(k, v) && InBound(k, w) && Pack(Trits(k, v)) == Pack(Trits(k, w))) ==> v == w
    ensures forall c :: Legal(k, c) ==>
              var v := Sum(Unpack(k, c)); InBound(k, v) && Pack(Trits(k, v)) == c
  {
    forall v ensures Legal(k, Pack(Trits(k, v))) { PackLegal(Trits(k, v)); }
    forall v, w | InBound(k, v) && InBound(k, w) && Pack(Trits(k, v)) == Pack(Trits(k, w))
      ensures v == w
    {
      PackInjective(Trits(k, v), Trits(k, w));
      SumOfTrits(k, v);
      SumOfTrits(k, w);
    }
    forall c | Legal(k, c)
      ensures var v := Sum(Unpack(k, c)); InBound(k, v) && Pack(Trits(k, v)) == c
    {
      SumInBound(Unpack(k, c));
      TritsOfSum(Unpack(k, c));
      PackUnpack(k, c);
    }
  }

  /** The number a word of k pairs shows in base 3: the pair 01 is a one, 10 a minus one, 00 a zero. */
  function Shows(k: nat, c: nat): int {
    if k == 0 then 0 else
    3 * Shows(k - 1, c / 4) + (if c % 4 == 1 then 1 else if c % 4 == 2 then -1 else 0)
  }

  lemma {:induction false} SumSnoc(ts: seq<Trit>, t: Trit)
    ensures Sum(ts + [t]) == 3 * Sum(ts) + t
  {
    if ts == [] {
      assert [t][1..] == [] && Pow(3, 0) == 1;
    } else {
      SumSnoc(ts[1..], t);
      assert (ts + [t])[1..] == ts[1..] + [t];
      var q := Pow(3, |ts| - 1);
      assert ts[0] * (3 * q) == 3 * (ts[0] * q);
    }
  }

  lemma {:induction false} PackShows(ts: seq<Trit>)
    ensures Shows(|ts|, Pack(ts)) == Sum(ts)
  {
    hide Pack, Sum;
    if ts == [] {
      assert Sum([]) == 0 by { EmptySum(); }
    } else {
      var us, t := ts[..|ts| - 1], ts[|ts| - 1];
      assert ts == us + [t];
      PackSnoc(us, t);
      SumSnoc(us, t);
      PackShows(us);
    }
  }

  lemma EmptySum()
    ensures Sum([]) == 0
  {
  }

  /** The code of v is a legal word, and shows v if and only if v is in bound; it is the only legal
      word that shows v. */
  lemma CodeShows(k: nat, v: int)
    ensures Legal(k, Pack(Trits(k, v)))
    ensures Shows(k, Pack(Trits(k, v))) == v <==> InBound(k, v)
    ensures forall c :: Legal(k, c) && Shows(k, c) == v ==> c == Pack(Trits(k, v))
  {
    PackLegal(Trits(k, v));
    PackShows(Trits(k, v));
    ExactlyInBound(k, v);
    forall c | Legal(k, c) && Shows(k, c) == v ensures c == Pack(Trits(k, v)) {
      PackUnpack(k, c);
      PackShows(Unpack(k, c));
      TritsOfSum(Unpack(k, c));
    }
  }

  /** Swapping 01 and 10 in every pair of a legal word. */
  function Swapped(k: nat, c: nat): nat
    requires Legal(k, c)
  {
    if k == 0 then 0 else 4 * Swapped(k - 1, c / 4) + (if c % 4 == 0 then 0 else 3 - c % 4)
  }

  function Negated(ts: seq<Trit>): (us: seq<Trit>)
    ensures |us| == |ts|
  {
    seq(|ts|, i requires 0 <= i < |ts| => -ts[i])
  }

  lemma {:induction false} TritsOfNegative(k: nat, v: int)
    ensures Trits(k, -v) == Negated(Trits(k, v))
  {
    hide Pow, Digit, Negated;
    if k == 0 {
      NegatedEmpty();
    } else {
      var n := Pow(3, k - 1);
      NegativeDigit(v, n);
      TritsOfNegative(k - 1, v - Digit(v, n) * n);
      NegatedCons(Digit(v, n), Trits(k - 1, v - Digit(v, n) * n));
    }
  }

  lemma NegativeDigit(v: int, n: nat)
    ensures Digit(-v, n) == -Digit(v, n)
    ensures -v - Digit(-v, n) * n == -(v - Digit(v, n) * n)
  {
  }

  lemma NegatedCons(t: Trit, ts: seq<Trit>)
    ensures Negated([t] + ts) == [-t] + Negated(ts)
  {
  }

  lemma {:induction false} PackNegated(ts: seq<Trit>)
    ensures Legal(|ts|, Pack(ts)) && Pack(Negated(ts)) == Swapped(|ts|, Pack(ts))
  {
    hide Pack, Legal, Negated;
    PackLegal(ts);
    if ts == [] {
      NegatedEmpty();
    } else {
      var us, t := ts[..|ts| - 1], ts[|ts| - 1];
      assert ts == us + [t];
      PackLegal(us);
      PackNegated(us);
      NegatedSnoc(us, t);
      PackSnoc(us, t);
      PackSnoc(Negated(us), -t);
      SwappedSnoc(|us|, Pack(us), t);
    }
  }

  lemma NegatedEmpty()
    ensures Negated([]) == [] && Pack([]) == 0
  {
  }

  lemma NegatedSnoc(us: seq<Trit>, t: Trit)
    ensures Negated(us + [t]) == Negated(us) + [-t]
  {
  }

  lemma SwappedSnoc(k: nat, c: nat, t: Trit)
    requires Legal(k, c) && Legal(k + 1, 4 * c + Pair(t))
    ensures Swapped(k + 1, 4 * c + Pair(t)) == 4 * Swapped(k, c) + Pair(-t)
  {
    assert (4 * c + Pair(t)) / 4 == c && (4 * c + Pair(t)) % 4 == Pair(t);
  }

  /** Negating a value swaps the pairs 01 and 10 of its code; no bound on the value is needed. */
  lemma NegationSwapsPairs(k: nat, v: int)
    ensures Legal(k, Pack(Trits(k, v)))
    ensures Pack(Trits(k, -v)) == Swapped(k, Pack(Trits(k, v)))
  {
    TritsOfNegative(k, v);
    PackNegated(Trits(k, v));
  }

  // ---- The two generated tables ---------------------------------------------------------------

  /** A value that fits in j trits has the same code in any wider word. */
  lemma {:induction false} LeadingZeros(j: nat, k: nat, v: int)
    requires j <= k && InBound(j, v)
    ensures Pack(Trits(k, v)) == Pack(Trits(j, v))
  {
    hide Bound;
    if j < k {
      BoundMonotone(j, k - 1);
      BoundStep(k);
      assert Trits(k, v) == [0] + Trits(k - 1, v);
      LeadingZeros(j, k - 1, v);
    }
  }

  lemma {:induction false} BoundMonotone(j: nat, k: nat)
    requires j <= k
    ensures Bound(j) <= Bound(k)
  {
    if j < k {
      BoundMonotone(j, k - 1);
      BoundStep(k);
    }
  }

  const TRITS := 16

  /** The value main leaves in max3 after fifteen multiplications. */
  method ComputeMax3() returns (max3: nat)
    ensures max3 == Pow(3, TRITS - 1)
  {
    max3 := 1;
    for i := 0 to 15
      invariant max3 == Pow(3, i)
    {
      max3 := max3 * 3;
    }
  }

  /** A case of a generated table: its key and the value assigned. */
  datatype Case = Case(key: nat, value: nat)

  type Table = seq<Case>

  ghost predicate Functional(t: Table) {
    forall i, j :: 0 <= i < |t| && 0 <= j < |t| && t[i].key == t[j].key ==> t[i] == t[j]
  }

  /** The table row for v: its six low bits and its sixteen-trit code. */
  function Row(v: int): Case { Case(v % 64, Pack(Trits(TRITS, v))) }

  function Swap(c: Case): Case { Case(c.value, c.key) }

  lemma RowIs(v: int)
    ensures Row(v).key == v % 64 && Row(v).value == Pack(Trits(TRITS, v))
  {
  }

  /** The rows written to b2t.v. */
  method BinaryToTernary(max3: nat) returns (table: Table)
    requires max3 == Pow(3, TRITS - 1)
    ensures |table| == 63 && forall i :: 0 <= i < 63 ==> table[i] == Row(i - 31)
  {
    hide Pack, Trits, Row, Sum, Pow, Bound, InBound;
    table := [];
    var i := -31;
    while i < 32
      invariant -31 <= i <= 32 && |table| == i + 31
      invariant forall j :: 0 <= j < i + 31 ==> table[j] == Row(j - 31)
    {
      var t := B2t(max3, TRITS, i);
      RowIs(i);
      var row := Case(i % 64, t);
      assert row == Row(i);
      table := table + [row];
      i := i + 1;
    }
  }

  /** The rows written to t2b.v. */
  method TernaryToBinary(max3: nat) returns (table: Table)
    requires max3 == Pow(3, TRITS - 1)
    ensures |table| == 63 && forall i :: 0 <= i < 63 ==> table[i] == Swap(Row(i - 31))
  {
    hide Pack, Trits, Row, Sum, Pow, Bound, InBound;
    table := [];
    var t3 := Limit();
    var i := -31;
    while i <= t3 && i < 32
      invariant -31 <= i <= 32 && |table| == i + 31
      invariant forall j :: 0 <= j < i + 31 ==> table[j] == Swap(Row(j - 31))
    {
      var t := B2t(max3, TRITS, i);
      RowIs(i);
      var row := Case(t, i % 64);
      assert row == Swap(Row(i));
      table := table + [row];
      i := i + 1;
    }
  }

  /** The bound main computes for the second table: five multiplications by 3. */
  method Limit() returns (t3: int)
    ensures t3 == 243
  {
    t3 := 1;
    for i := 0 to 5
      invariant t3 == Pow(3, i)
    {
      t3 := t3 * 3;
    }
    assert Pow(3, 3) == 27 && Pow(3, 4) == 81;
  }

  /** Each table is a function of its key, each is the other read backwards, and every key fits
      the width it is printed with. */
  lemma TablesAreInverse(b2t: Table, t2b: Table)
    requires |b2t| == 63 && forall i :: 0 <= i < 63 ==> b2t[i] == Row(i - 31)
    requires |t2b| == 63 && forall i :: 0 <= i < 63 ==> t2b[i] == Swap(Row(i - 31))
    ensures Functional(b2t) && Functional(t2b)
    ensures forall c :: c in b2t <==> Swap(c) in t2b
    ensures forall c :: c in b2t ==> c.key < 64 && c.value < 256
  {
    TableKeys();
    forall i, j | 0 <= i < 63 && 0 <= j < 63 && b2t[i].value == b2t[j].value ensures i == j {
      assert Row(i - 31).value == Row(j - 31).value;
    }
    DistinctRows(b2t, t2b);
  }

  lemma DistinctRows(t: Table, u: Table)
    requires |t| == |u| == 63 && forall i :: 0 <= i < 63 ==> u[i] == Swap(t[i])
    requires forall i :: 0 <= i < 63 ==> t[i].key == (i - 31) % 64 && t[i].value < 256
    requires forall i, j :: 0 <= i < 63 && 0 <= j < 63 && t[i].value == t[j].value ==> i == j
    ensures Functional(t) && Functional(u)
    ensures forall c :: c in t <==> Swap(c) in u
    ensures forall c :: c in t ==> c.key < 64 && c.value < 256
  {
    forall c ensures c in t <==> Swap(c) in u {
      RowsReversed(t, u, c);
      RowsReversed(u, t, Swap(c));
    }
    forall i, j | 0 <= i < 63 && 0 <= j < 63 && t[i].key == t[j].key ensures i == j {
      assert (i - 31) % 64 == (j - 31) % 64;
    }
  }

  lemma RowsReversed(t: Table, u: Table, c: Case)
    requires |t| == |u| == 63 && forall i :: 0 <= i < 63 ==> u[i] == Swap(t[i])
    ensures c in t ==> Swap(c) in u
  {
    if c in t {
      var i :| 0 <= i < |t| && t[i] == c;
      assert u[i] == Swap(c);
    }
  }

  /** A row of the first table holds the six low bits of v and a word of sixteen pairs that shows v. */
  lemma RowShows(v: int)
    requires -31 <= v <= 31
    ensures Row(v).key == if v < 0 then v + 64 else v
    ensures Legal(16, Row(v).value) && Shows(16, Row(v).value) == v && Row(v).value < 256
  {
    hide Pack, Trits, Shows, Legal;
    TableKeys();
    SmallInBound(v);
    RowIs(v);
    CodeShows(16, v);
  }

  lemma SmallInBound(v: int)
    requires -31 <= v <= 31
    ensures InBound(16, v)
  {
    assert Pow(3, 4) == 3 * Pow(3, 3) && Pow(3, 3) == 27 && Bound(4) == 40;
    BoundMonotone(4, 16);
  }

  lemma TableKeys()
    ensures forall v :: -31 <= v <= 31 ==> Row(v).value < 256
    ensures forall v, w :: (-31 <= v <= 31 && -31 <= w <= 31 && Row(v).value == Row(w).value) ==> v == w
  {
    assert Pow(3, 4) == 3 * Pow(3, 3) && Pow(3, 3) == 27 && Bound(4) == 40;
    assert Pow(4, 4) == 4 * Pow(4, 3) && Pow(4, 3) == 64;
    BoundMonotone(4, TRITS);
    forall v | -31 <= v <= 31 ensures Pack(Trits(TRITS, v)) < 256 {
      LeadingZeros(4, TRITS, v);
      PackBound(Trits(4, v));
    }
    Bijection(TRITS);
  }
}
