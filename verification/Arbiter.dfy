/** The round-robin arbiter of common/src/c5_arbiter.v for any WIDTH: the bit-vector machine of
    the source, an index machine it refines, and fairness over whole runs. */
module Arbiter {
  import opened Options

  type Bits = seq<bool>

  // ---- The bit-vector machine -----------------------------------------------------------------

  datatype Input = Reset | Stall | Clock(request: Bits)

  datatype State = State(mask: Bits, found: Bits, grant: Bits)

  function Zeros(n: nat): Bits { seq(n, i => false) }

  function OneHot(n: nat, k: nat): Bits { seq(n, i => i == k) }

  predicate Any(b: Bits) { exists i :: 0 <= i < |b| && b[i] }

  function BitAnd(a: Bits, b: Bits): Bits
    requires |a| == |b|
  {
    seq(|a|, i requires 0 <= i < |a| => a[i] && b[i])
  }

  /** {mask[WIDTH-2:0], mask[WIDTH-1]}, with bit 0 first in the sequence. */
  function Rotate(m: Bits): (r: Bits)
    requires |m| >= 1
    ensures |r| == |m|
  {
    [m[|m| - 1]] + m[..|m| - 1]
  }

  /** The scan loop after k iterations from a cleared grant: the rotated mask and the first hit. */
  function Scan(start: Bits, request: Bits, k: nat): (r: (Bits, Bits))
    requires |start| == |request| >= 1
    ensures |r.0| == |r.1| == |start|
  {
    if k == 0 then (start, Zeros(|start|)) else
    var (m, found) := Scan(start, request, k - 1);
    var mask := Rotate(m);
    (mask, if !Any(found) && Any(BitAnd(mask, request)) then mask else found)
  }

  predicate Sized(n: nat, s: State) { |s.mask| == |s.found| == |s.grant| == n }

  predicate Fits(n: nat, i: Input) { i.Clock? ==> |i.request| == n }

  function Step(n: nat, s: State, i: Input): (t: State)
    requires n >= 2 && Sized(n, s) && Fits(n, i)
    ensures Sized(n, t)
  {
    match i
    case Reset => State(OneHot(n, 0), Zeros(n), Zeros(n))
    case Stall => s.(grant := s.mask)
    case Clock(request) =>
      var start := if Any(s.found) then s.found else OneHot(n, 0);
      var (mask, found) := Scan(start, request, n);
      State(mask, found, found)
  }

  /** The arbiter with its registers as fields and its clocked block as a method. */
  class Device {
    const n: nat
    var mask: Bits
    var found: Bits
    var grant: Bits

    ghost predicate Valid()
      reads this
    {
      n >= 2 && Sized(n, View())
    }

    ghost function View(): State
      reads this
    {
      State(mask, found, grant)
    }

    constructor (width: nat)
      requires width >= 2
      ensures Valid() && n == width
      ensures View() == State(OneHot(n, 0), Zeros(n), Zeros(n))
    {
      n := width;
      mask, found, grant := OneHot(width, 0), Zeros(width), Zeros(width);
    }

    method Tick(i: Input)
      requires Valid() && Fits(n, i)
      modifies this
      ensures Valid() && View() == Step(n, old(View()), i)
    {
      match i
      case Reset =>
        mask, grant, found := OneHot(n, 0), Zeros(n), Zeros(n);
      case Stall =>
        grant := mask;
      case Clock(request) =>
        Grant(request);
    }

    /** A clock that is neither a reset nor stalled. */
    method Grant(request: Bits)
      requires Valid() && |request| == n
      modifies this
      ensures Valid() && View() == Step(n, old(View()), Clock(request))
    {
      hide Any, BitAnd, Rotate, Scan;
      grant := Zeros(n);
      mask := if Any(found) then found else OneHot(n, 0);
      found := Zeros(n);
      ghost var start := mask;
      ScanStart(start, request);
      for k := 0 to n
        invariant |mask| == n && (mask, found) == Scan(start, request, k)
        invariant grant == found
      {
        ScanNext(start, request, k);
        mask := Rotate(mask);
        if !Any(found) && Any(BitAnd(mask, request)) {
          grant := mask;
          found := mask;
        }
      }
    }
  }

  lemma ScanStart(start: Bits, request: Bits)
    requires |start| == |request| >= 1
    ensures Scan(start, request, 0) == (start, Zeros(|start|))
  {
  }

  lemma ScanNext(start: Bits, request: Bits, k: nat)
    requires |start| == |request| >= 1
    ensures var (m, found) := Scan(start, request, k); var mask := Rotate(m);
      Scan(start, request, k + 1) == (mask, if !Any(found) && Any(BitAnd(mask, request)) then mask else found)
  {
    hide Any, BitAnd, Rotate;
  }

  // ---- The index machine ----------------------------------------------------------------------

  datatype Index = Index(start: nat, winner: Option<nat>, grant: Option<nat>)

  /** The position d places after a, cyclically. */
  function After(n: nat, a: nat, d: nat): nat
    requires a < n && d <= n
  {
    if a + d < n then a + d else a + d - n
  }

  /** The smallest cyclic distance from d up to n at which somebody requests. */
  function Nearest(n: nat, a: nat, request: Bits, d: nat): (r: Option<nat>)
    requires a < n == |request| && 1 <= d <= n + 1
    ensures r.Some? ==> d <= r.value <= n && request[After(n, a, r.value)]
    ensures r.Some? ==> forall e :: d <= e < r.value ==> !request[After(n, a, e)]
    ensures r.None? ==> forall e :: d <= e <= n ==> !request[After(n, a, e)]
    decreases n - d
  {
    if d > n then None
    else if request[After(n, a, d)] then Some(d)
    else Nearest(n, a, request, d + 1)
  }

  function Last(x: Index): nat { if x.winner.Some? then x.winner.value else 0 }

  predicate Ranged(n: nat, x: Index) {
    x.start < n && (x.winner.Some? ==> x.winner.value < n) && (x.grant.Some? ==> x.grant.value < n)
  }

  function IndexStep(n: nat, x: Index, i: Input): (y: Index)
    requires n >= 2 && Ranged(n, x) && Fits(n, i)
    ensures Ranged(n, y)
  {
    match i
    case Reset => Index(0, None, None)
    case Stall => x.(grant := Some(x.start))
    case Clock(request) =>
      var d := Nearest(n, Last(x), request, 1);
      var w := if d.Some? then Some(After(n, Last(x), d.value)) else None;
      Index(Last(x), w, w)
  }

  function BitsOf(n: nat, o: Option<nat>): Bits {
    if o.Some? then OneHot(n, o.value) else Zeros(n)
  }

  function Represent(n: nat, x: Index): State {
    State(OneHot(n, x.start), BitsOf(n, x.winner), BitsOf(n, x.grant))
  }

  lemma RotateOneHot(n: nat, k: nat)
    requires k < n
    ensures Rotate(OneHot(n, k)) == OneHot(n, After(n, k, 1))
  {
  }

  lemma AnyOneHot(n: nat, k: nat, request: Bits)
    requires k < n == |request|
    ensures Any(OneHot(n, k)) && !Any(Zeros(n))
    ensures Any(BitAnd(OneHot(n, k), request)) <==> request[k]
  {
    assert OneHot(n, k)[k];
    if request[k] { assert BitAnd(OneHot(n, k), request)[k]; }
  }

  /** What the scan has found after k rotations. */
  function FoundBy(n: nat, a: nat, request: Bits, k: nat): Option<nat>
    requires a < n == |request|
  {
    var d := Nearest(n, a, request, 1);
    if d.Some? && d.value <= k then Some(After(n, a, d.value)) else None
  }

  lemma {:induction false} ScanExact(n: nat, a: nat, request: Bits, k: nat)
    requires a < n == |request| && k <= n
    ensures Scan(OneHot(n, a), request, k) == (OneHot(n, After(n, a, k)), BitsOf(n, FoundBy(n, a, request, k)))
  {
    hide Any, BitAnd, Rotate;
    if k > 0 {
      ScanExact(n, a, request, k - 1);
      RotateOneHot(n, After(n, a, k - 1));
      var here := After(n, a, k);
      AnyOneHot(n, here, request);
      var f := FoundBy(n, a, request, k - 1);
      if f.Some? { AnyOneHot(n, f.value, request); }
    }
  }

  /** The bit vectors of the source are exactly the index machine, one clock at a time: mask is
      one-hot, grant and found are zero or one-hot. */
  lemma Refines(n: nat, x: Index, i: Input)
    requires n >= 2 && Ranged(n, x) && Fits(n, i)
    ensures Step(n, Represent(n, x), i) == Represent(n, IndexStep(n, x, i))
  {
    if i.Clock? {
      AnyOneHot(n, Last(x), i.request);
      ScanExact(n, Last(x), i.request, n);
    }
  }

  // ---- Runs -----------------------------------------------------------------------------------

  predicate AllFit(n: nat, es: seq<Input>) { forall e :: e in es ==> Fits(n, e) }

  function Run(n: nat, s: State, es: seq<Input>): (t: State)
    requires n >= 2 && Sized(n, s) && AllFit(n, es)
    ensures Sized(n, t)
  {
    if es == [] then s else Step(n, Run(n, s, es[..|es| - 1]), es[|es| - 1])
  }

  /** The grants seen after each clock of a run that is not stalled. */
  function LiveGrants(n: nat, s: State, es: seq<Input>): seq<Bits>
    requires n >= 2 && Sized(n, s) && AllFit(n, es)
    decreases |es|
  {
    if es == [] then [] else
    var t := Step(n, s, es[0]);
    (if es[0].Stall? then [] else [t.grant]) + LiveGrants(n, t, es[1..])
  }

  function WithoutStalls(es: seq<Input>): (fs: seq<Input>)
    ensures forall e :: e in fs ==> e in es
  {
    if es == [] then [] else (if es[0].Stall? then [] else [es[0]]) + WithoutStalls(es[1..])
  }

  /** Deleting the stalled clocks of a run changes no grant on the other clocks. */
  lemma {:induction false} StallsAreInvisible(n: nat, s: State, s': State, es: seq<Input>)
    requires n >= 2 && Sized(n, s) && Sized(n, s') && AllFit(n, es)
    requires s.mask == s'.mask && s.found == s'.found
    ensures LiveGrants(n, s, es) == LiveGrants(n, s', WithoutStalls(es))
    decreases |es|
  {
    if es != [] {
      if es[0].Stall? {
        StallsAreInvisible(n, Step(n, s, es[0]), s', es[1..]);
        assert WithoutStalls(es) == WithoutStalls(es[1..]);
      } else {
        StallsAreInvisible(n, Step(n, s, es[0]), Step(n, s', es[0]), es[1..]);
        assert WithoutStalls(es) == [es[0]] + WithoutStalls(es[1..]);
      }
    }
  }

  function IndexRun(n: nat, x: Index, es: seq<Input>): (y: Index)
    requires n >= 2 && Ranged(n, x) && AllFit(n, es)
    ensures Ranged(n, y)
  {
    if es == [] then x else IndexStep(n, IndexRun(n, x, es[..|es| - 1]), es[|es| - 1])
  }

  lemma {:induction false} RunRefines(n: nat, x: Index, es: seq<Input>)
    requires n >= 2 && Ranged(n, x) && AllFit(n, es)
    ensures Run(n, Represent(n, x), es) == Represent(n, IndexRun(n, x, es))
  {
    if es != [] {
      RunRefines(n, x, es[..|es| - 1]);
      Refines(n, IndexRun(n, x, es[..|es| - 1]), es[|es| - 1]);
    }
  }

  /** On every clock of every run that is neither stalled nor reset, the grant is zero or one-hot,
      within the request, and nonzero exactly when something is requested. */
  lemma GrantExact(n: nat, es: seq<Input>, request: Bits)
    requires n >= 2 && AllFit(n, es) && |request| == n
    ensures var g := Run(n, State(OneHot(n, 0), Zeros(n), Zeros(n)), es + [Clock(request)]).grant;
      (Any(g) <==> Any(request)) &&
      (Any(g) ==> exists k :: 0 <= k < n && request[k] && g == OneHot(n, k))
  {
    var x := Index(0, None, None);
    var fs := es + [Clock(request)];
    assert fs[..|fs| - 1] == es;
    RunRefines(n, x, fs);
    var y := IndexRun(n, x, es);
    var d := Nearest(n, Last(y), request, 1);
    AnyOneHot(n, 0, request);
    if d.Some? {
      AnyOneHot(n, After(n, Last(y), d.value), request);
    } else {
      forall k | 0 <= k < n ensures !request[k] {
        assert k == After(n, Last(y), Gap(n, Last(y), k));
      }
    }
  }

  // ---- The next grant -------------------------------------------------------------------------------

  /** The bit the turn starts behind: the bit granted by the last clock that was not stalled; bit 0 if that
      granted nothing, if it was a reset, and at the beginning. */
  ghost predicate TurnBehind(n: nat, es: seq<Input>, k: nat)
    requires n >= 2 && AllFit(n, es)
    decreases |es|
  {
    if es == [] then k == 0 else
    match es[|es| - 1]
    case Reset => k == 0
    case Stall => TurnBehind(n, es[..|es| - 1], k)
    case Clock(_) =>
      var g := Run(n, State(OneHot(n, 0), Zeros(n), Zeros(n)), es).grant;
      k < n && (if g[k] then true else k == 0 && forall j :: 0 <= j < n ==> !g[j])
  }

  lemma {:induction false} TurnIsLast(n: nat, es: seq<Input>, k: nat)
    requires n >= 2 && AllFit(n, es)
    ensures TurnBehind(n, es, k) <==> k == Last(IndexRun(n, Index(0, None, None), es))
    decreases |es|
  {
    hide IndexStep, Represent, Nearest;
    if es != [] {
      var x := Index(0, None, None);
      var fs, i := es[..|es| - 1], es[|es| - 1];
      TurnIsLast(n, fs, k);
      LastMoves(n, IndexRun(n, x, fs), i);
      FromReset(n);
      RunRefines(n, x, es);
      var y := IndexRun(n, x, es);
      GrantBits(n, y);
    }
  }

  lemma LastMoves(n: nat, x: Index, i: Input)
    requires n >= 2 && Ranged(n, x) && Fits(n, i)
    ensures var y := IndexStep(n, x, i);
      match i
      case Reset => Last(y) == 0
      case Stall => Last(y) == Last(x)
      case Clock(_) => Last(y) == if y.grant.Some? then y.grant.value else 0
  {
  }

  lemma GrantBits(n: nat, y: Index)
    requires Ranged(n, y)
    ensures var g := Represent(n, y).grant;
      |g| == n && forall j :: 0 <= j < n ==> (g[j] <==> y.grant == Some(j))
  {
  }

  /** Round robin, on the bit vectors: in every run from reset, whatever has been requested, stalled or
      reset before, a clock grants the first requested bit behind the one the turn starts behind, cyclically
      and that one last; without a request it grants nothing. There is always exactly one such start. */
  lemma RoundRobin(n: nat, es: seq<Input>, request: Bits, k: nat)
    requires n >= 2 && AllFit(n, es) && |request| == n && TurnBehind(n, es, k)
    ensures k < n && forall j: nat :: TurnBehind(n, es, j) ==> j == k
    ensures var g := Run(n, State(OneHot(n, 0), Zeros(n), Zeros(n)), es + [Clock(request)]).grant;
      forall j :: 0 <= j < n ==>
        (g[j] <==> request[j] && forall i :: 0 <= i < n && request[i] ==> Gap(n, k, j) <= Gap(n, k, i))
  {
    hide Represent, IndexStep, TurnBehind;
    var x := Index(0, None, None);
    var fs := es + [Clock(request)];
    assert fs[..|fs| - 1] == es;
    FromReset(n);
    RunRefines(n, x, fs);
    TurnIsLast(n, es, k);
    var y, z := IndexRun(n, x, es), IndexRun(n, x, fs);
    forall j: nat | TurnBehind(n, es, j) ensures j == k { TurnIsLast(n, es, j); }
    LastInRange(n, y);
    GrantBits(n, z);
    forall j | 0 <= j < n
      ensures z.grant == Some(j) <==>
        request[j] && forall i :: 0 <= i < n && request[i] ==> Gap(n, k, j) <= Gap(n, k, i)
    {
      WinnerIsNearest(n, y, request, j);
    }
  }

  lemma WinnerIsNearest(n: nat, y: Index, request: Bits, j: nat)
    requires n >= 2 && Ranged(n, y) && |request| == n && j < n
    ensures var k := Last(y);
      IndexStep(n, y, Clock(request)).grant == Some(j) <==>
      request[j] && forall i :: 0 <= i < n && request[i] ==> Gap(n, k, j) <= Gap(n, k, i)
  {
    var k := Last(y);
    var r := Nearest(n, k, request, 1);
    forall i | 0 <= i < n && request[i] ensures r.Some? && r.value <= Gap(n, k, i) {
      assert request[After(n, k, Gap(n, k, i))];
    }
    if r.Some? { assert Gap(n, k, After(n, k, r.value)) == r.value; }
  }

  /** A reset leaves nothing of what was before: the run goes on as from the start, with no grant. */
  lemma {:induction false} ResetForgets(n: nat, s: State, es: seq<Input>, fs: seq<Input>)
    requires n >= 2 && Sized(n, s) && AllFit(n, es + [Reset] + fs) && AllFit(n, fs)
    ensures Run(n, s, es + [Reset] + fs) == Run(n, State(OneHot(n, 0), Zeros(n), Zeros(n)), fs)
    decreases |fs|
  {
    var all := es + [Reset] + fs;
    if fs == [] {
      assert all == es + [Reset] && all[..|all| - 1] == es;
    } else {
      assert all[..|all| - 1] == es + [Reset] + fs[..|fs| - 1];
      ResetForgets(n, s, es, fs[..|fs| - 1]);
    }
  }

  // ---- What a stall grants ------------------------------------------------------------------------

  /** A stalled clock grants the winner before last: the one the scan of the last clock started from. */
  lemma StalledIndex(n: nat, y: Index, request: Bits)
    requires n >= 2 && Ranged(n, y) && |request| == n
    ensures var x := IndexStep(n, y, Clock(request)); var z := IndexStep(n, x, Stall);
      z.grant == Some(Last(y)) && (z.grant == x.grant <==> request == OneHot(n, Last(y)))
  {
    var a := Last(y);
    var d := Nearest(n, a, request, 1);
    if request == OneHot(n, a) {
      assert request[After(n, a, n)];
      forall e | 1 <= e < n ensures !request[After(n, a, e)] { }
    }
    if d.Some? && After(n, a, d.value) == a {
      assert d.value == n;
      forall k | 0 <= k < n ensures request[k] == OneHot(n, a)[k] {
        if k != a { assert After(n, a, Gap(n, a, k)) == k; }
      }
      assert request == OneHot(n, a);
    }
  }

  function Stalls(m: nat): seq<Input> { seq(m, i => Stall) }

  lemma {:induction false} StalledRun(n: nat, x: Index, es: seq<Input>, m: nat)
    requires n >= 2 && Ranged(n, x) && AllFit(n, es) && m >= 1
    ensures AllFit(n, es + Stalls(m)) && IndexRun(n, x, es + Stalls(m)) == IndexStep(n, IndexRun(n, x, es), Stall)
    decreases m
  {
    var fs := es + Stalls(m);
    assert fs[..|fs| - 1] == es + Stalls(m - 1);
    if m > 1 {
      StalledRun(n, x, es, m - 1);
    } else {
      assert es + Stalls(0) == es;
    }
  }

  /** Bit k was the last winner, or is bit 0 when nobody has won. */
  predicate WonBefore(n: nat, s: State, k: nat) {
    k < n && (if Any(s.found) then s.found else OneHot(n, 0)) == OneHot(n, k)
  }

  /** The grant after a stall is bit k, and how it compares with the grant before and the request. */
  predicate GrantsStalled(n: nat, k: nat, request: Bits, before: Bits, after: Bits)
    requires k < n == |request|
  {
    after == OneHot(n, k) && (after == before <==> request == OneHot(n, k)) &&
    (BitAnd(after, request) == after <==> request[k])
  }

  /** Stalls, exactly. In every run from reset, after a clock with some request and any number of
      stalled clocks the grant is the winner k before that request, or bit 0 if there was none. It is the
      grant from before the stall if and only if k alone was requested, and it lies within the request if
      and only if k was requested. */
  lemma StallExactly(n: nat, es: seq<Input>, request: Bits, m: nat)
    requires n >= 2 && AllFit(n, es) && |request| == n && m >= 1
    ensures var reset := State(OneHot(n, 0), Zeros(n), Zeros(n));
      var before := Run(n, reset, es + [Clock(request)]).grant;
      var after := Run(n, reset, es + [Clock(request)] + Stalls(m)).grant;
      exists k: nat :: WonBefore(n, Run(n, reset, es), k) && GrantsStalled(n, k, request, before, after)
  {
    hide WonBefore, GrantsStalled, OneHot, Zeros, Step, IndexStep, BitsOf, Last, Sized, Any, BitAnd;
    var x := Index(0, None, None);
    var fs := es + [Clock(request)];
    assert fs[..|fs| - 1] == es;
    FromReset(n);
    RunRefines(n, x, es);
    RunRefines(n, x, fs);
    StalledRun(n, x, fs, m);
    RunRefines(n, x, fs + Stalls(m));
    var y := IndexRun(n, x, es);
    LastInRange(n, y);
    StalledBits(n, y, request);
    assert WonBefore(n, Run(n, State(OneHot(n, 0), Zeros(n), Zeros(n)), es), Last(y));
  }

  lemma FromReset(n: nat)
    ensures Represent(n, Index(0, None, None)) == State(OneHot(n, 0), Zeros(n), Zeros(n))
    ensures Sized(n, State(OneHot(n, 0), Zeros(n), Zeros(n)))
  {
  }

  lemma LastInRange(n: nat, y: Index)
    requires n >= 1 && Ranged(n, y)
    ensures Last(y) < n
  {
  }

  lemma StalledBits(n: nat, y: Index, request: Bits)
    requires n >= 2 && Ranged(n, y) && |request| == n
    ensures var x := IndexStep(n, y, Clock(request)); var z := IndexStep(n, x, Stall);
      WonBefore(n, Represent(n, y), Last(y)) &&
      GrantsStalled(n, Last(y), request, Represent(n, x).grant, Represent(n, z).grant)
  {
    hide IndexStep, Nearest;
    var k := Last(y);
    var x := IndexStep(n, y, Clock(request));
    StalledIndex(n, y, request);
    AnyOneHot(n, k, request);
    assert OneHot(n, k)[k];
    if x.grant.Some? { assert OneHot(n, x.grant.value)[k] <==> x.grant.value == k; } else { assert !Zeros(n)[k]; }
    if request[k] {
      assert BitAnd(OneHot(n, k), request) == OneHot(n, k);
    } else {
      assert !BitAnd(OneHot(n, k), request)[k];
    }
  }

  // ---- Fairness -------------------------------------------------------------------------------

  /** The cyclic distance from a forward to k, between 1 and n. */
  function Gap(n: nat, a: nat, k: nat): (d: nat)
    requires a < n && k < n
    ensures 1 <= d <= n && After(n, a, d) == k
  {
    if k > a then k - a else k + n - a
  }

  predicate Holds(n: nat, k: nat, es: seq<Input>)
    requires k < n && AllFit(n, es)
  {
    forall e :: e in es ==> !e.Reset? && (e.Clock? ==> e.request[k])
  }

  function Unstalled(es: seq<Input>): nat {
    if es == [] then 0 else Unstalled(es[..|es| - 1]) + (if es[|es| - 1].Stall? then 0 else 1)
  }

  /** The first j + 1 inputs end in an unstalled clock that grants k. */
  ghost predicate GrantedAt(n: nat, x: Index, es: seq<Input>, k: nat, j: nat)
    requires n >= 2 && Ranged(n, x) && AllFit(n, es)
  {
    j < |es| && es[j].Clock? && IndexRun(n, x, es[..j + 1]).grant == Some(k)
  }

  lemma GapStep(n: nat, y: Index, i: Input, k: nat)
    requires n >= 2 && Ranged(n, y) && k < n && Fits(n, i) && !i.Reset? && (i.Clock? ==> i.request[k])
    requires i.Clock? ==> IndexStep(n, y, i).grant != Some(k)
    ensures Gap(n, Last(IndexStep(n, y, i)), k) + (if i.Stall? then 0 else 1) <= Gap(n, Last(y), k)
  {
    if i.Clock? {
      var d := Nearest(n, Last(y), i.request, 1);
      assert i.request[After(n, Last(y), Gap(n, Last(y), k))];
      assert d.Some? && d.value <= Gap(n, Last(y), k);
    }
  }

  lemma PrefixHolds(n: nat, es: seq<Input>, k: nat)
    requires es != [] && k < n && AllFit(n, es) && Holds(n, k, es)
    ensures var fs := es[..|es| - 1]; var i := es[|es| - 1];
      AllFit(n, fs) && Holds(n, k, fs) && Fits(n, i) && !i.Reset? && (i.Clock? ==> i.request[k])
  {
    assert es[|es| - 1] in es;
  }

  /** Each unstalled clock that does not grant k brings the last winner closer to k. */
  lemma {:induction false} GapShrinks(n: nat, x: Index, es: seq<Input>, k: nat)
    requires n >= 2 && Ranged(n, x) && k < n && AllFit(n, es) && Holds(n, k, es)
    requires forall j: nat :: !GrantedAt(n, x, es, k, j)
    ensures Gap(n, Last(IndexRun(n, x, es)), k) + Unstalled(es) <= Gap(n, Last(x), k)
    decreases |es|
  {
    hide AllFit, Holds, Gap, IndexStep, Nearest;
    if es != [] {
      var fs, i := es[..|es| - 1], es[|es| - 1];
      PrefixHolds(n, es, k);
      forall j: nat ensures !GrantedAt(n, x, fs, k, j) {
        if j < |fs| { assert fs[..j + 1] == es[..j + 1]; assert !GrantedAt(n, x, es, k, j); }
      }
      GapShrinks(n, x, fs, k);
      assert es[..|es| - 1 + 1] == es;
      assert !GrantedAt(n, x, es, k, |es| - 1);
      GapStep(n, IndexRun(n, x, fs), i, k);
    }
  }

  /** Bounded wait on the bit vectors: from every state the arbiter can be in, a request bit held
      through as many unstalled clocks as its distance from the last winner, hence through WIDTH
      of them, is granted on one of them; stalled clocks may come in between. */
  lemma BoundedWait(n: nat, x: Index, es: seq<Input>, k: nat)
    requires n >= 2 && Ranged(n, x) && k < n && AllFit(n, es) && Holds(n, k, es)
    requires Unstalled(es) >= Gap(n, Last(x), k)
    ensures exists j :: 0 <= j < |es| && es[j].Clock? && Run(n, Represent(n, x), es[..j + 1]).grant == OneHot(n, k)
  {
    if j: nat :| GrantedAt(n, x, es, k, j) {
      RunRefines(n, x, es[..j + 1]);
    } else {
      GapShrinks(n, x, es, k);
    }
  }

  /** All bits requested on m clocks in a row. */
  function Flood(n: nat, m: nat): seq<Input> { seq(m, i => Clock(seq(n, j => true))) }

  /** The bound is met: from reset with everything requested, clock m grants bit m modulo WIDTH, so
      bit 0 waits for exactly WIDTH clocks. */
  lemma {:induction false} FloodGrants(n: nat, m: nat)
    requires n >= 2 && 1 <= m <= n
    ensures Run(n, State(OneHot(n, 0), Zeros(n), Zeros(n)), Flood(n, m)).grant == OneHot(n, if m == n then 0 else m)
  {
    var x := Index(0, None, None);
    RunRefines(n, x, Flood(n, m));
    FloodIndex(n, m);
  }

  lemma {:induction false} FloodIndex(n: nat, m: nat)
    requires n >= 2 && 1 <= m <= n
    ensures var y := IndexRun(n, Index(0, None, None), Flood(n, m));
      y.winner == y.grant == Some(if m == n then 0 else m)
  {
    var es := Flood(n, m);
    assert es[..m - 1] == Flood(n, m - 1);
    assert es[m - 1] == Clock(seq(n, j => true));
    if m > 1 { FloodIndex(n, m - 1); }
  }
}
