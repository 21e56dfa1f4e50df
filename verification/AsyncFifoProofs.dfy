/** What every run of the dual-clock FIFO keeps. */
module AsyncFifoProofs {
  import opened Bits
  import opened AsyncFifo

  // ---- Pointers and counts ----------------------------------------------------------------

  function Turn(p: nat): (m: nat)
    ensures m >= 2 && m == 2 * Depth(p)
  {
    2 * Depth(p)
  }

  lemma {:induction false} ModAdd(a: nat, b: nat, m: nat)
    requires m >= 1
    ensures (a % m + b) % m == (a + b) % m
  {
    if a < m {
      ModSmall(a, m);
    } else {
      ModDown(a, m);
      ModDown(a + b, m);
      ModAdd(a - m, b, m);
    }
  }

  lemma {:induction false} ModDistance(a: nat, b: nat, m: nat)
    requires a <= b < a + m
    ensures a % m == b % m <==> a == b
  {
    if a >= m {
      ModDown(a, m);
      ModDown(b, m);
      ModDistance(a - m, b - m, m);
    } else {
      ModSmall(a, m);
      if b >= m { ModDown(b, m); ModSmall(b - m, m); } else { ModSmall(b, m); }
    }
  }

  lemma {:induction false} ModOfDouble(a: nat, d: nat)
    requires d >= 1
    ensures (a % (2 * d)) % d == a % d
  {
    if a < 2 * d {
      ModSmall(a, 2 * d);
    } else {
      ModDown(a, 2 * d);
      ModDown(a, d);
      ModDown(a - d, d);
      ModOfDouble(a - 2 * d, d);
    }
  }

  lemma {:induction false} ModDifference(w: nat, r: nat, d: nat)
    requires r <= w < r + d
    ensures (w % d + d - r % d) % d == w - r
  {
    if r >= d {
      ModDown(r, d);
      ModDown(w, d);
      ModDifference(w - d, r - d, d);
    } else {
      ModSmall(r, d);
      ModSmall(w - r, d);
      if w < d { ModSmall(w, d); ModDown(w + d - r, d); } else { ModDown(w, d); ModSmall(w - d, d); }
    }
  }

  /** The value of a pointer register that has counted to n. */
  function Wrap(p: nat, n: nat): nat { if n < Turn(p) then n else Wrap(p, n - Turn(p)) }

  lemma {:induction false} WrapIs(p: nat, n: nat)
    ensures Wrap(p, n) == n % Turn(p) < Turn(p)
    decreases n
  {
    if n < Turn(p) {
      ModSmall(n, Turn(p));
    } else {
      ModDown(n, Turn(p));
      WrapIs(p, n - Turn(p));
    }
  }

  /** The Gray code a pointer register holds when its count is n. */
  function Code(p: nat, n: nat): nat { Gray(Wrap(p, n)) }

  lemma CodesEqual(p: nat, a: nat, b: nat)
    requires a <= b < a + Turn(p)
    ensures Code(p, a) == Code(p, b) <==> a == b
  {
    WrapIs(p, a);
    WrapIs(p, b);
    GrayInjective(Wrap(p, a), Wrap(p, b));
    ModDistance(a, b, Turn(p));
  }

  lemma CodeNext(p: nat, n: nat)
    ensures Gray((Wrap(p, n) + 1) % Turn(p)) == Code(p, n + 1)
    ensures Distance(Code(p, n), Code(p, n + 1)) == 1
  {
    var m := Turn(p);
    assert m == Pow2(p + 1);
    WrapIs(p, n);
    WrapIs(p, n + 1);
    ModAdd(n, 1, m);
    GrayNeighbours(p + 1, Wrap(p, n));
  }

  /** Whatever mix of the pointer's two values a synchroniser captures, it is one of the two. */
  lemma SafeCrossing(p: nat, n: nat, moved: bool, sample: nat)
    requires Mix(sample, Code(p, n), Code(p, if moved then n + 1 else n))
    ensures sample == Code(p, n) || (moved && sample == Code(p, n + 1))
  {
    if moved {
      CodeNext(p, n);
      MixOfNeighbours(sample, Code(p, n), Code(p, n + 1));
    } else {
      MixOfEqual(sample, Code(p, n));
    }
  }

  lemma FlipIsHalfTurn(p: nat, r: nat)
    requires p >= 1
    ensures FlipTop(p, Code(p, r)) == Code(p, r + Depth(p))
  {
    var x, d := Wrap(p, r), Depth(p);
    WrapIs(p, r);
    WrapIs(p, r + d);
    GrayHalfTurn(p, x);
    ModAdd(r, d, 2 * d);
  }

  /** The full test holds exactly when the two counts are a whole depth apart. */
  lemma FullTestExact(p: nat, r: nat, w: nat)
    requires p >= 2 && r <= w < r + Turn(p)
    ensures Code(p, w) == FlipTop(p, Code(p, r)) <==> w == r + Depth(p)
  {
    var d := Depth(p);
    FlipIsHalfTurn(p, r);
    if w <= r + d { CodesEqual(p, w, r + d); } else { CodesEqual(p, r + d, w); }
  }

  /** The p-bit subtraction of addresses is the true count while it stays below the depth. */
  lemma UsedExact(p: nat, ws: WriteSide, w: nat, r: nat)
    requires r <= w < r + Depth(p) && ws.bin == Wrap(p, w)
    ensures Used(p, ws, Wrap(p, r)) == w - r
  {
    WrapIs(p, w);
    WrapIs(p, r);
    ModOfDouble(w, Depth(p));
    ModOfDouble(r, Depth(p));
    ModDifference(w, r, Depth(p));
  }

  // ---- The invariant of every run -----------------------------------------------------------

  ghost predicate WriteInv(p: nat, w: WriteSide, h: History)
    requires p >= 2
  {
    var n := |h.sent|;
    w.bin == Wrap(p, n) && w.ptr == Code(p, n) &&
    w.readPtr1 == Code(p, h.r1) && w.readPtr == Code(p, h.r2) && w.readBin == Wrap(p, h.r3) &&
    h.r3 <= h.r2 <= h.r1 <= |h.got| &&
    n <= h.r2 + Depth(p) && (n == h.r2 + Depth(p) ==> w.full)
  }

  /** The reader read on its first edge, and has had no edge since; three words are on their way. */
  ghost predicate Early(r: ReadSide, h: History) { |h.got| == 1 && h.w2 == 0 && h.w1 >= 3 && !r.empty }

  ghost predicate ReadInv(p: nat, r: ReadSide, h: History) {
    var n := |h.got|;
    r.bin == Wrap(p, n) && r.ptr == Code(p, n) &&
    r.writePtr1 == Code(p, h.w1) && r.writePtr == Code(p, h.w2) &&
    n <= |h.sent| && h.w2 <= h.w1 <= |h.sent| &&
    (h.clocked ==> (n <= h.w2 && (!r.empty ==> n < h.w2)) || Early(r, h)) &&
    (!h.clocked ==> n == 0 && h.w1 == 0 && !r.empty)
  }

  /** Each unread word that the store guard let through is still in its slot. */
  ghost predicate MemInv(p: nat, mem: seq<Word>, h: History)
    requires |mem| == Depth(p)
  {
    forall k :: |h.got| <= k < |h.sent| && k !in h.lost ==> mem[k % Depth(p)] == h.sent[k]
  }

  ghost predicate LogInv(h: History) {
    |h.got| <= |h.sent| &&
    (forall k :: k in h.lost ==> k < |h.sent|) &&
    (forall k :: 0 <= k < |h.got| && k !in h.lost ==> h.got[k] == h.sent[k])
  }

  ghost predicate Inv(p: nat, s: Sys)
    requires p >= 2 && |s.f.mem| == Depth(p)
  {
    WriteInv(p, s.f.wr, s.h) && ReadInv(p, s.f.rd, s.h) && MemInv(p, s.f.mem, s.h) && LogInv(s.h)
  }

  lemma ResetInv(p: nat, mem: seq<Word>, half: bool, data: Word)
    requires p >= 2 && |mem| == Depth(p)
    ensures Inv(p, Sys(Reset(mem, half, data), NOTHING))
  {
    assert Gray(0) == 0;
  }

  /** The write side after a write edge, for a history in which the reader has since moved on to
      at least the sampled position. */
  lemma WriteSideStep(p: nat, s: Sys, w: WriteIn, h: History)
    requires p >= 2 && |s.f.mem| == Depth(p) && Inv(p, s)
    requires h.sent == ObserveWrite(p, s.f, s.h, w).sent
    requires h.r1 == ObserveWrite(p, s.f, s.h, w).r1 && h.r2 == s.h.r1 && h.r3 == s.h.r2
    requires w.sample == Code(p, h.r1) && h.r1 <= |h.got| && |s.h.got| <= |h.got|
    ensures WriteInv(p, NextWrite(p, s.f.wr, w), h)
    ensures FullNext(p, s.f.wr, w.cmd) <==> |h.sent| == s.h.r2 + Depth(p)
  {
    hide Gray, XorShifts, FlipTop, Pow2;
    var n := |h.sent|;
    WriteNextCode(p, s, w);
    DecodesReadPointer(p, s);
    FullTestExact(p, s.h.r2, n);
  }

  lemma WriteNextCode(p: nat, s: Sys, w: WriteIn)
    requires p >= 2 && |s.f.mem| == Depth(p) && Inv(p, s)
    ensures WriteBinNext(p, s.f.wr, w.cmd) == Wrap(p, |ObserveWrite(p, s.f, s.h, w).sent|)
  {
    hide Wrap, Gray, MemInv, LogInv, Pow2;
    WrapIs(p, |s.h.sent|);
    WrapIs(p, |s.h.sent| + 1);
    ModAdd(|s.h.sent|, 1, Turn(p));
    ModSmall(s.f.wr.bin, Turn(p));
  }

  lemma ReadNextCode(p: nat, s: Sys, r: ReadIn)
    requires p >= 2 && |s.f.mem| == Depth(p) && Inv(p, s)
    ensures ReadBinNext(p, s.f.rd, r.cmd) == Wrap(p, |ObserveRead(p, s.f, s.h, r).got|)
  {
    hide Wrap, Gray, MemInv, LogInv, Pow2;
    WrapIs(p, |s.h.got|);
    WrapIs(p, |s.h.got| + 1);
    ModAdd(|s.h.got|, 1, Turn(p));
    ModSmall(s.f.rd.bin, Turn(p));
  }

  lemma ReadSideStep(p: nat, s: Sys, r: ReadIn, h: History)
    requires p >= 2 && |s.f.mem| == Depth(p) && Inv(p, s)
    requires !s.h.clocked && r.cmd ==> h.w1 >= 3
    requires h.got == ObserveRead(p, s.f, s.h, r).got && h.clocked
    requires h.w1 == ObserveRead(p, s.f, s.h, r).w1 && h.w2 == s.h.w1
    requires r.sample == Code(p, h.w1) && h.w1 <= |h.sent| && |s.h.sent| <= |h.sent|
    ensures ReadInv(p, NextRead(p, s.f.rd, s.f.mem, r), h)
    ensures NextRead(p, s.f.rd, s.f.mem, r).empty <==> |h.got| == s.h.w2
  {
    hide Gray, XorShifts, FlipTop, Pow2, Distance, Mix;
    ReadNextCode(p, s, r);
    var n := |h.got|;
    if n <= s.h.w2 {
      assert s.h.w2 <= |s.h.sent| <= s.h.r2 + Depth(p) < n + Turn(p);
      CodesEqual(p, n, s.h.w2);
    } else {
      assert n <= 2 && s.h.w2 == 0;
      CodesEqual(p, s.h.w2, n);
    }
  }

  /** A store never lands in the slot of a word that has been accepted and not yet read. */
  lemma StoreIsSafe(p: nat, s: Sys, w: WriteIn)
    requires p >= 2 && |s.f.mem| == Depth(p) && Inv(p, s)
    requires w.cmd && !FullNext(p, s.f.wr, w.cmd)
    ensures s.f.wr.bin % Depth(p) == |s.h.sent| % Depth(p)
    ensures forall k :: |s.h.got| <= k < |s.h.sent| ==> k % Depth(p) != s.f.wr.bin % Depth(p)
  {
    hide Gray, XorShifts, FlipTop, Pow2, Distance, Mix;
    var n := |s.h.sent|;
    var h := ObserveWrite(p, s.f, s.h, w);
    WriteNextCode(p, s, w);
    FullTestExact(p, s.h.r2, |h.sent|);
    WrapIs(p, n);
    ModOfDouble(n, Depth(p));
    forall k | |s.h.got| <= k < n ensures k % Depth(p) != n % Depth(p) {
      ModDistance(k, n, Depth(p));
    }
  }

  lemma ReadSlot(p: nat, s: Sys)
    requires p >= 2 && |s.f.mem| == Depth(p) && Inv(p, s)
    ensures s.f.rd.bin % Depth(p) == |s.h.got| % Depth(p)
  {
    WrapIs(p, |s.h.got|);
    ModOfDouble(|s.h.got|, Depth(p));
  }

  /** An accepted read puts the next word in order on O_read_data, unless that word was never stored. */
  lemma WordReturned(p: nat, s: Sys, e: Event)
    requires p >= 2 && |s.f.mem| == Depth(p) && Inv(p, s) && ReaderOk(p, s.f, s.h, e)
    requires Reads(e) && e.r.cmd && !s.f.rd.empty
    ensures |s.h.got| < |s.h.sent| && Next(p, s, e).h.got == s.h.got + [Next(p, s, e).f.rd.data]
    ensures |s.h.got| !in s.h.lost ==> Next(p, s, e).f.rd.data == s.h.sent[|s.h.got|]
  {
    hide Gray, XorShifts, FlipTop, Pow2, Distance, Mix, NextMem, NextWrite, FullNext;
    ReadSlot(p, s);
  }

  /** The event holds a read edge with a read command. */
  predicate ReadsCmd(e: Event) { Reads(e) && e.r.cmd }

  /** In every state whatsoever: without a read command O_read_data stays. */
  lemma DataIdle(p: nat, s: Fifo, e: Event)
    requires p >= 2 && |s.mem| == Depth(p) && !ReadsCmd(e)
    ensures Step(p, s, e).rd.data == s.rd.data
  {
  }

  /** O_read_data moves on a read edge with a command only, and then takes the slot of the next word to
      read, whether or not O_read_empty is high; while it is high nothing else changes for the reader. */
  lemma DataStep(p: nat, s: Sys, e: Event)
    requires p >= 2 && |s.f.mem| == Depth(p) && Inv(p, s)
    ensures var t := Next(p, s, e);
      t.f.rd.data == (if ReadsCmd(e) then s.f.mem[|s.h.got| % Depth(p)] else s.f.rd.data) &&
      (ReadsCmd(e) && s.f.rd.empty ==> t.h.got == s.h.got && t.f.rd.bin == s.f.rd.bin) &&
      (!ReadsCmd(e) ==> t.h.got == s.h.got)
  {
    hide Gray, XorShifts, FlipTop, Pow2, Distance, Mix, Wrap, NextMem, NextWrite, FullNext;
    ReadSlot(p, s);
    if ReadsCmd(e) && s.f.rd.empty { ReadNextCode(p, s, e.r); }
  }

  /** Over runs: O_read_data is what the last edge with a read command put there, and after an accepted
      read it stays the last word returned until the next command. */
  lemma {:induction false} DataHolds(p: nat, s: Sys, e: Event, es: seq<Event>)
    requires p >= 2 && |s.f.mem| == Depth(p) && Inv(p, s) && Fair(p, s, [e] + es) && ReadsCmd(e)
    requires forall f :: f in es ==> !ReadsCmd(f)
    ensures var t := Run(p, s, [e] + es);
      t.f.rd.data == s.f.mem[|s.h.got| % Depth(p)] && t.h.got == Next(p, s, e).h.got &&
      (!s.f.rd.empty ==> t.h.got == s.h.got + [t.f.rd.data])
  {
    hide Next, Inv, Run, Fair, SamplesOk, ReaderOk;
    FirstEvent(p, s, e, es);
    StepKeepsInv(p, s, e);
    DataStep(p, s, e);
    DataKept(p, Next(p, s, e), es);
    if !s.f.rd.empty { WordReturned(p, s, e); }
  }

  lemma FirstEvent(p: nat, s: Sys, e: Event, es: seq<Event>)
    requires p >= 2 && |s.f.mem| == Depth(p)
    ensures Run(p, s, [e] + es) == Run(p, Next(p, s, e), es)
    ensures Fair(p, s, [e] + es) <==> SamplesOk(p, s.f, e) && ReaderOk(p, s.f, s.h, e) && Fair(p, Next(p, s, e), es)
  {
    hide Next, SamplesOk, ReaderOk;
    assert ([e] + es)[0] == e && ([e] + es)[1..] == es;
  }

  lemma {:induction false} DataKept(p: nat, s: Sys, es: seq<Event>)
    requires p >= 2 && |s.f.mem| == Depth(p) && Inv(p, s) && Fair(p, s, es) && forall f :: f in es ==> !ReadsCmd(f)
    ensures Run(p, s, es).f.rd.data == s.f.rd.data && Run(p, s, es).h.got == s.h.got
    decreases |es|
  {
    hide Next, Inv, SamplesOk, ReaderOk;
    if es != [] {
      StepKeepsInv(p, s, es[0]);
      DataStep(p, s, es[0]);
      DataKept(p, Next(p, s, es[0]), es[1..]);
    }
  }

  lemma MemStep(p: nat, s: Sys, w: WriteIn)
    requires p >= 2 && |s.f.mem| == Depth(p) && Inv(p, s)
    ensures MemInv(p, NextMem(p, s.f.wr, s.f.mem, w), ObserveWrite(p, s.f, s.h, w))
  {
    hide Gray, XorShifts, FlipTop, Pow2, Distance, Mix;
    if w.cmd && !FullNext(p, s.f.wr, w.cmd) { StoreIsSafe(p, s, w); }
  }

  /** The samples of a legal event are the codes of counts the other side has reached. */
  lemma SamplesAreCounts(p: nat, s: Sys, e: Event)
    requires p >= 2 && |s.f.mem| == Depth(p) && Inv(p, s) && SamplesOk(p, s.f, e)
    ensures !e.ReadEdge? ==> e.w.sample == Code(p, Observe(p, s.f, s.h, e).r1)
    ensures !e.ReadEdge? ==> |s.h.got| <= Observe(p, s.f, s.h, e).r1 <= |Observe(p, s.f, s.h, e).got|
    ensures !e.WriteEdge? ==> e.r.sample == Code(p, Observe(p, s.f, s.h, e).w1)
    ensures !e.WriteEdge? ==> |s.h.sent| <= Observe(p, s.f, s.h, e).w1 <= |Observe(p, s.f, s.h, e).sent|
  {
    hide Gray, XorShifts, FlipTop, Pow2, Distance, Mix;
    if e.BothEdges? {
      WriteNextCode(p, s, e.w);
      ReadNextCode(p, s, e.r);
      SafeCrossing(p, |s.h.sent|, e.w.cmd && !s.f.wr.full, e.r.sample);
      SafeCrossing(p, |s.h.got|, e.r.cmd && !s.f.rd.empty, e.w.sample);
    }
  }

  /** One event of any producer and any reader that keeps to ReaderOk. */
  lemma StepKeepsInv(p: nat, s: Sys, e: Event)
    requires p >= 2 && |s.f.mem| == Depth(p) && Inv(p, s)
    requires SamplesOk(p, s.f, e) && ReaderOk(p, s.f, s.h, e)
    ensures Inv(p, Next(p, s, e))
  {
    hide Gray, XorShifts, FlipTop, Pow2, Distance, Mix, Wrap, NextMem, NextWrite, FullNext, ReadBinNext, WriteBinNext;
    WriteInvStep(p, s, e);
    ReadInvStep(p, s, e);
    if !e.ReadEdge? { MemStep(p, s, e.w); }
    if !e.WriteEdge? { ReadSlot(p, s); }
  }

  lemma WriteInvStep(p: nat, s: Sys, e: Event)
    requires p >= 2 && |s.f.mem| == Depth(p) && Inv(p, s) && SamplesOk(p, s.f, e)
    ensures WriteInv(p, Step(p, s.f, e).wr, Observe(p, s.f, s.h, e))
  {
    hide Gray, XorShifts, FlipTop, Pow2, Distance, Mix, Wrap, NextMem, NextWrite, NextRead, FullNext, ReadBinNext,
         WriteBinNext, MemInv, LogInv;
    SamplesAreCounts(p, s, e);
    if !e.ReadEdge? { WriteSideStep(p, s, e.w, Observe(p, s.f, s.h, e)); }
  }

  lemma ReadInvStep(p: nat, s: Sys, e: Event)
    requires p >= 2 && |s.f.mem| == Depth(p) && Inv(p, s)
    requires SamplesOk(p, s.f, e) && ReaderOk(p, s.f, s.h, e)
    ensures ReadInv(p, Step(p, s.f, e).rd, Observe(p, s.f, s.h, e))
  {
    hide Gray, XorShifts, FlipTop, Pow2, Distance, Mix, Wrap, NextMem, NextWrite, NextRead, FullNext, ReadBinNext,
         WriteBinNext, MemInv, LogInv;
    SamplesAreCounts(p, s, e);
    if !e.WriteEdge? { ReadSideStep(p, s, e.r, Observe(p, s.f, s.h, e)); }
  }

  lemma {:induction false} RunKeepsInv(p: nat, s: Sys, es: seq<Event>)
    requires p >= 2 && |s.f.mem| == Depth(p) && Inv(p, s) && Fair(p, s, es)
    ensures Inv(p, Run(p, s, es))
    decreases |es|
  {
    hide Gray, XorShifts, FlipTop, Pow2, Distance, Mix;
    if es != [] {
      StepKeepsInv(p, s, es[0]);
      RunKeepsInv(p, Next(p, s, es[0]), es[1..]);
    }
  }

  /** Any producer, polite or not: the words returned are the words accepted, in order, except
      possibly at the positions that met a closed store guard. The pointers never overrun. */
  lemma ReceivedAreSent(p: nat, mem: seq<Word>, half: bool, data: Word, es: seq<Event>)
    requires p >= 2 && |mem| == Depth(p)
    requires Fair(p, Sys(Reset(mem, half, data), NOTHING), es)
    ensures var h := Run(p, Sys(Reset(mem, half, data), NOTHING), es).h;
      |h.got| <= |h.sent| <= |h.got| + Depth(p) &&
      forall k :: 0 <= k < |h.got| && k !in h.lost ==> h.got[k] == h.sent[k]
  {
    hide Gray, XorShifts, FlipTop, Pow2, Distance, Mix;
    ResetInv(p, mem, half, data);
    RunKeepsInv(p, Sys(Reset(mem, half, data), NOTHING), es);
  }

  // ---- What is returned for a word that was not stored ------------------------------------------------

  /** A store: the slot and the word. */
  datatype Store = Store(slot: nat, word: Word)

  /** The stores of a run, in order. A write refused by the pointer guard may still store. */
  ghost function Stores(p: nat, s: Sys, es: seq<Event>): seq<Store>
    requires p >= 2 && |s.f.mem| == Depth(p)
    decreases |es|
  {
    if es == [] then [] else
    (if WritesCmd(es[0]) && !FullNext(p, s.f.wr, true) then [Store(s.f.wr.bin % Depth(p), es[0].w.data)] else []) +
    Stores(p, Next(p, s, es[0]), es[1..])
  }

  /** The newest word stored in the slot, or what it held before. */
  function Newest(before: Word, stores: seq<Store>, slot: nat): Word {
    if stores == [] then before
    else if stores[|stores| - 1].slot == slot then stores[|stores| - 1].word
    else Newest(before, stores[..|stores| - 1], slot)
  }

  lemma {:induction false} NewestAfter(before: Word, a: Store, stores: seq<Store>, slot: nat)
    ensures Newest(before, [a] + stores, slot) == Newest(if a.slot == slot then a.word else before, stores, slot)
  {
    if stores == [] {
      assert ([a] + stores)[..0] == [];
    } else {
      var n := |stores| - 1;
      assert ([a] + stores)[..|[a] + stores| - 1] == [a] + stores[..n];
      NewestAfter(before, a, stores[..n], slot);
    }
  }

  lemma {:induction false} MemIsNewest(p: nat, s: Sys, es: seq<Event>, slot: nat)
    requires p >= 2 && |s.f.mem| == Depth(p) && slot < Depth(p)
    ensures Run(p, s, es).f.mem[slot] == Newest(s.f.mem[slot], Stores(p, s, es), slot)
    decreases |es|
  {
    hide Gray, XorShifts, FlipTop, Pow2, NextWrite, NextRead, FullNext, Observe;
    if es != [] {
      var t := Next(p, s, es[0]);
      MemIsNewest(p, t, es[1..], slot);
      if WritesCmd(es[0]) && !FullNext(p, s.f.wr, true) {
        NewestAfter(s.f.mem[slot], Store(s.f.wr.bin % Depth(p), es[0].w.data), Stores(p, t, es[1..]), slot);
      } else {
        assert Stores(p, s, es) == Stores(p, t, es[1..]);
      }
    }
  }

  /** The word of position k: still in its slot, or returned. */
  ghost predicate Holds(p: nat, s: Sys, k: nat, word: Word)
    requires p >= 2 && |s.f.mem| == Depth(p)
  {
    k < |s.h.sent| && if k < |s.h.got| then s.h.got[k] == word else s.f.mem[k % Depth(p)] == word
  }

  lemma HoldsStep(p: nat, s: Sys, e: Event, k: nat, word: Word)
    requires p >= 2 && |s.f.mem| == Depth(p) && Inv(p, s) && Holds(p, s, k, word)
    ensures Holds(p, Next(p, s, e), k, word)
  {
    hide Gray, XorShifts, FlipTop, Pow2, Distance, Mix, Wrap, NextWrite, NextRead, FullNext;
    ReadSlot(p, s);
    if !e.ReadEdge? && e.w.cmd && !FullNext(p, s.f.wr, e.w.cmd) { StoreIsSafe(p, s, e.w); }
  }

  lemma {:induction false} HoldsRun(p: nat, s: Sys, es: seq<Event>, k: nat, word: Word)
    requires p >= 2 && |s.f.mem| == Depth(p) && Inv(p, s) && Fair(p, s, es) && Holds(p, s, k, word)
    ensures Holds(p, Run(p, s, es), k, word)
    decreases |es|
  {
    hide Inv, Next, Holds, SamplesOk, ReaderOk;
    if es != [] {
      StepKeepsInv(p, s, es[0]);
      HoldsStep(p, s, es[0], k, word);
      HoldsRun(p, Next(p, s, es[0]), es[1..], k, word);
    }
  }

  /** The event that accepts word k: from then on its slot holds the word, or what was there before. */
  lemma AcceptedHolds(p: nat, s: Sys, e: Event)
    requires p >= 2 && |s.f.mem| == Depth(p) && Inv(p, s) && WritesCmd(e) && !s.f.wr.full && ReaderOk(p, s.f, s.h, e)
    ensures var k := |s.h.sent|;
      Holds(p, Next(p, s, e), k, if FullNext(p, s.f.wr, true) then s.f.mem[k % Depth(p)] else e.w.data) &&
      (k in Next(p, s, e).h.lost <==> FullNext(p, s.f.wr, true))
  {
    hide Gray, XorShifts, FlipTop, Pow2, Distance, Mix, Wrap, NextWrite, NextRead, FullNext;
    var k := |s.h.sent|;
    WrapIs(p, k);
    ModOfDouble(k, Depth(p));
    ReadsBelow(p, s, e);
  }

  lemma ReadsBelow(p: nat, s: Sys, e: Event)
    requires p >= 2 && |s.f.mem| == Depth(p) && Inv(p, s) && ReaderOk(p, s.f, s.h, e)
    ensures |Observe(p, s.f, s.h, e).got| <= |s.h.sent|
  {
    hide Gray, XorShifts, FlipTop, Pow2, Distance, Mix, Wrap, NextWrite, NextRead, FullNext, MemInv, WriteInv;
  }

  lemma {:induction false} RunJoin(p: nat, s: Sys, a: seq<Event>, b: seq<Event>)
    requires p >= 2 && |s.f.mem| == Depth(p)
    ensures Run(p, s, a + b) == Run(p, Run(p, s, a), b)
    ensures Fair(p, s, a + b) <==> Fair(p, s, a) && Fair(p, Run(p, s, a), b)
    decreases |a|
  {
    hide Next, SamplesOk, ReaderOk;
    if a == [] {
      assert a + b == b;
    } else {
      assert (a + b)[1..] == a[1..] + b;
      RunJoin(p, Next(p, s, a[0]), a[1..], b);
    }
  }

  /** Every word returned, exactly, for any producer. Where the event e after the run es accepts word k,
      what the reader later gets at position k is that word if the store guard let it through; if not, the
      newest word stored in its slot before, accepted or not, or what the slot held at power-up. */
  lemma ReturnedExactly(p: nat, mem: seq<Word>, half: bool, data: Word, es: seq<Event>, e: Event, fs: seq<Event>)
    requires p >= 2 && |mem| == Depth(p)
    requires Fair(p, Sys(Reset(mem, half, data), NOTHING), es + [e] + fs)
    requires var s := Run(p, Sys(Reset(mem, half, data), NOTHING), es); WritesCmd(e) && !s.f.wr.full
    ensures var reset := Sys(Reset(mem, half, data), NOTHING);
      var s, t := Run(p, reset, es), Run(p, reset, es + [e] + fs);
      var k := |s.h.sent|;
      k < |t.h.got| ==>
        t.h.got[k] ==
          if FullNext(p, s.f.wr, true) then Newest(mem[k % Depth(p)], Stores(p, reset, es), k % Depth(p)) else e.w.data
  {
    hide Gray, XorShifts, FlipTop, Pow2, Distance, Mix, Wrap, Next, Inv, FullNext, Stores, Newest;
    var reset := Sys(Reset(mem, half, data), NOTHING);
    var s := Run(p, reset, es);
    var k := |s.h.sent|;
    assert es + [e] + fs == es + ([e] + fs);
    RunJoin(p, reset, es, [e] + fs);
    ResetInv(p, mem, half, data);
    RunKeepsInv(p, reset, es);
    assert ([e] + fs)[0] == e && ([e] + fs)[1..] == fs;
    StepKeepsInv(p, s, e);
    AcceptedHolds(p, s, e);
    MemIsNewest(p, reset, es, k % Depth(p));
    HoldsRun(p, Next(p, s, e), fs, k, if FullNext(p, s.f.wr, true) then s.f.mem[k % Depth(p)] else e.w.data);
  }

  // ---- Which producers lose words -------------------------------------------------------------

  /** The event makes the count the writer sees reach the full depth. */
  predicate Fills(p: nat, s: Sys, e: Event) {
    WritesCmd(e) && !s.f.wr.full && |s.h.sent| + 1 - s.h.r2 == Depth(p)
  }

  ghost predicate NeverFills(p: nat, s: Sys, es: seq<Event>)
    requires p >= 2 && |s.f.mem| == Depth(p)
    decreases |es|
  {
    es == [] || (!Fills(p, s, es[0]) && NeverFills(p, Next(p, s, es[0]), es[1..]))
  }

  lemma FillingLoses(p: nat, s: Sys, e: Event)
    requires p >= 2 && |s.f.mem| == Depth(p) && Inv(p, s)
    ensures Next(p, s, e).h.lost == if Fills(p, s, e) then s.h.lost + {|s.h.sent|} else s.h.lost
  {
    hide Gray, XorShifts, FlipTop, Pow2, Distance, Mix;
    if !e.ReadEdge? {
      WriteNextCode(p, s, e.w);
      FullTestExact(p, s.h.r2, |ObserveWrite(p, s.f, s.h, e.w).sent|);
    }
  }

  lemma {:induction false} LostOnlyGrows(p: nat, s: Sys, es: seq<Event>)
    requires p >= 2 && |s.f.mem| == Depth(p)
    ensures s.h.lost <= Run(p, s, es).h.lost
    decreases |es|
  {
    if es != [] { LostOnlyGrows(p, Next(p, s, es[0]), es[1..]); }
  }

  /** No accepted word is lost exactly in the runs that never fill the queue to its depth. */
  lemma {:induction false} LosslessExactly(p: nat, s: Sys, es: seq<Event>)
    requires p >= 2 && |s.f.mem| == Depth(p) && Inv(p, s) && Fair(p, s, es)
    ensures Run(p, s, es).h.lost == s.h.lost <==> NeverFills(p, s, es)
    decreases |es|
  {
    hide Gray, XorShifts, FlipTop, Pow2, Distance, Mix;
    if es != [] {
      var t := Next(p, s, es[0]);
      StepKeepsInv(p, s, es[0]);
      FillingLoses(p, s, es[0]);
      LosslessExactly(p, t, es[1..]);
      LostOnlyGrows(p, t, es[1..]);
      if Fills(p, s, es[0]) { assert |s.h.sent| in t.h.lost && |s.h.sent| !in s.h.lost; }
    }
  }

  // ---- Producers that obey O_write_full ---------------------------------------------------------

  ghost predicate PoliteInv(p: nat, s: Sys)
    requires p >= 2 && |s.f.mem| == Depth(p)
  {
    Inv(p, s) && s.h.lost == {} && !s.f.wr.full &&
    |s.h.sent| <= s.h.r3 + Depth(p) - (if s.f.wr.almostFull then 1 else 2)
  }

  /** Under the early flag nothing is lost, write_full stays low, the store guard and the pointer
      guard agree, and nb_data_val is the true count the writer sees. */
  lemma PoliteStep(p: nat, s: Sys, e: Event)
    requires p >= 2 && |s.f.mem| == Depth(p) && PoliteInv(p, s)
    requires SamplesOk(p, s.f, e) && ReaderOk(p, s.f, s.h, e) && WriterOk(s.f, e)
    ensures PoliteInv(p, Next(p, s, e))
    ensures WritesCmd(e) ==> !s.f.wr.full && !FullNext(p, s.f.wr, e.w.cmd)
    ensures !e.ReadEdge? ==>
      var seen := if e.w.lagging then s.h.r3 else s.h.r2;
      Used(p, s.f.wr, if e.w.lagging then s.f.wr.readBin else XorShifts(s.f.wr.readPtr, p + 1))
        == |s.h.sent| - seen < Depth(p) &&
      (Next(p, s, e).f.wr.almostFull <==> |s.h.sent| - seen >= Depth(p) - 2) &&
      (Next(p, s, e).f.wr.halfFull <==> |s.h.sent| - seen >= Depth(p) / 2)
  {
    hide Gray, XorShifts, FlipTop, Pow2, Distance, Mix, NextMem, NextRead, Used, FullNext;
    StepKeepsInv(p, s, e);
    FillingLoses(p, s, e);
    DepthEven(p);
    if !e.ReadEdge? {
      PoliteGuards(p, s, e.w);
      PoliteUsed(p, s, e.w);
    }
  }

  lemma DepthEven(p: nat)
    requires p >= 2
    ensures Depth(p) >= 4 && Depth(p) % 2 == 0
  {
    assert Depth(p) == 2 * Pow2(p - 1) && Pow2(p - 1) == 2 * Pow2(p - 2);
  }

  lemma PoliteGuards(p: nat, s: Sys, w: WriteIn)
    requires p >= 2 && |s.f.mem| == Depth(p) && PoliteInv(p, s) && (w.cmd ==> !s.f.wr.almostFull)
    ensures !FullNext(p, s.f.wr, w.cmd)
  {
    hide Gray, XorShifts, FlipTop, Pow2, Distance, Mix;
    DepthEven(p);
    WriteNextCode(p, s, w);
    FullTestExact(p, s.h.r2, |ObserveWrite(p, s.f, s.h, w).sent|);
  }

  lemma PoliteUsed(p: nat, s: Sys, w: WriteIn)
    requires p >= 2 && |s.f.mem| == Depth(p) && PoliteInv(p, s)
    ensures Used(p, s.f.wr, if w.lagging then s.f.wr.readBin else XorShifts(s.f.wr.readPtr, p + 1))
         == |s.h.sent| - (if w.lagging then s.h.r3 else s.h.r2) < Depth(p)
  {
    hide Gray, XorShifts, Used, Pow2;
    var n := |s.h.sent|;
    DecodesReadPointer(p, s);
    UsedExact(p, s.f.wr, n, s.h.r2);
    UsedExact(p, s.f.wr, n, s.h.r3);
  }

  /** The decoding loop recovers the count of the synchronised pointer. */
  lemma DecodesReadPointer(p: nat, s: Sys)
    requires p >= 2 && |s.f.mem| == Depth(p) && Inv(p, s)
    ensures XorShifts(s.f.wr.readPtr, p + 1) == Wrap(p, s.h.r2)
  {
    hide Gray, XorShifts;
    WrapIs(p, s.h.r2);
    assert Turn(p) == Pow2(p + 1);
    XorShiftsInvertsGray(p + 1, Wrap(p, s.h.r2));
  }

  lemma {:induction false} PoliteRun(p: nat, s: Sys, es: seq<Event>)
    requires p >= 2 && |s.f.mem| == Depth(p) && PoliteInv(p, s) && Fair(p, s, es) && Polite(p, s, es)
    ensures PoliteInv(p, Run(p, s, es))
    decreases |es|
  {
    hide Gray, XorShifts, FlipTop, Pow2, Distance, Mix;
    if es != [] {
      PoliteStep(p, s, es[0]);
      PoliteRun(p, Next(p, s, es[0]), es[1..]);
    }
  }

  /** The FIFO refines a queue: for every interleaving of the two clocks, the words returned are
      a prefix of the words accepted, and at most all but one of the slots are in use. */
  lemma QueueRefinement(p: nat, mem: seq<Word>, half: bool, data: Word, es: seq<Event>)
    requires p >= 2 && |mem| == Depth(p)
    requires Fair(p, Sys(Reset(mem, half, data), NOTHING), es)
    requires Polite(p, Sys(Reset(mem, half, data), NOTHING), es)
    ensures var t := Run(p, Sys(Reset(mem, half, data), NOTHING), es);
      t.h.got <= t.h.sent && |t.h.sent| - |t.h.got| <= Depth(p) - 1 && !t.f.wr.full
  {
    ResetInv(p, mem, half, data);
    assert Depth(p) == 2 * Pow2(p - 1);
    PoliteRun(p, Sys(Reset(mem, half, data), NOTHING), es);
  }

  // ---- Progress -----------------------------------------------------------------------------------

  function ReadEdges(es: seq<Event>): nat {
    if es == [] then 0 else (if Reads(es[0]) then 1 else 0) + ReadEdges(es[1..])
  }

  function WriteEdges(es: seq<Event>): nat {
    if es == [] then 0 else (if es[0].ReadEdge? then 0 else 1) + WriteEdges(es[1..])
  }

  /** How far the news of the first n words has travelled after j read edges. */
  ghost predicate NewsAt(s: Sys, n: nat, j: nat) {
    n <= |s.h.sent| &&
    (j >= 1 ==> n <= s.h.w1) && (j >= 2 ==> n <= s.h.w2) &&
    (j >= 3 ==> n <= |s.h.got| || !s.f.rd.empty)
  }

  lemma NewsStep(p: nat, s: Sys, e: Event, n: nat, j: nat)
    requires p >= 2 && |s.f.mem| == Depth(p) && Inv(p, s) && SamplesOk(p, s.f, e) && ReaderOk(p, s.f, s.h, e)
    requires NewsAt(s, n, j)
    ensures NewsAt(Next(p, s, e), n, j + if Reads(e) then 1 else 0)
  {
    hide Gray, XorShifts, FlipTop, Pow2, Distance, Mix, NextMem, NextWrite, FullNext;
    SamplesAreCounts(p, s, e);
    if Reads(e) { ReadSideStep(p, s, e.r, Observe(p, s.f, s.h, e)); }
  }

  lemma {:induction false} NewsTravels(p: nat, s: Sys, es: seq<Event>, n: nat, j: nat)
    requires p >= 2 && |s.f.mem| == Depth(p) && Inv(p, s) && Fair(p, s, es) && NewsAt(s, n, j)
    ensures NewsAt(Run(p, s, es), n, j + ReadEdges(es))
    decreases |es|
  {
    hide Next, Inv, NewsAt, SamplesOk, ReaderOk;
    if es != [] {
      var e, t := es[0], Next(p, s, es[0]);
      StepKeepsInv(p, s, e);
      NewsStep(p, s, e, n, j);
      NewsTravels(p, t, es[1..], n, j + if Reads(e) then 1 else 0);
    }
  }

  /** Three read edges after a word was accepted it has been read or O_read_empty is low. */
  lemma BoundedVisibility(p: nat, s: Sys, es: seq<Event>, k: nat)
    requires p >= 2 && |s.f.mem| == Depth(p) && Inv(p, s) && Fair(p, s, es)
    requires k < |s.h.sent| && ReadEdges(es) >= 3
    ensures var t := Run(p, s, es); k < |t.h.got| || !t.f.rd.empty
  {
    hide Next, Inv, Fair;
    NewsTravels(p, s, es, k + 1, 0);
  }

  /** How far the news that n words have been read has travelled after j write edges. */
  ghost predicate RoomAt(p: nat, s: Sys, n: nat, j: nat) {
    n <= |s.h.got| &&
    (j >= 1 ==> n <= s.h.r1) && (j >= 2 ==> n <= s.h.r2) && (j >= 3 ==> n <= s.h.r3) &&
    (j >= 4 ==> s.f.wr.almostFull ==> |s.h.sent| >= n + Depth(p) - 2)
  }

  lemma RoomStep(p: nat, s: Sys, e: Event, n: nat, j: nat)
    requires p >= 2 && |s.f.mem| == Depth(p) && PoliteInv(p, s)
    requires SamplesOk(p, s.f, e) && ReaderOk(p, s.f, s.h, e) && WriterOk(s.f, e) && RoomAt(p, s, n, j)
    ensures RoomAt(p, Next(p, s, e), n, j + if e.ReadEdge? then 0 else 1)
  {
    hide Gray, XorShifts, FlipTop, Pow2, Distance, Mix, NextMem, NextRead, FullNext, Used;
    PoliteStep(p, s, e);
    SamplesAreCounts(p, s, e);
  }

  lemma {:induction false} RoomTravels(p: nat, s: Sys, es: seq<Event>, n: nat, j: nat)
    requires p >= 2 && |s.f.mem| == Depth(p) && PoliteInv(p, s)
    requires Fair(p, s, es) && Polite(p, s, es) && RoomAt(p, s, n, j)
    ensures RoomAt(p, Run(p, s, es), n, j + WriteEdges(es))
    decreases |es|
  {
    hide Next, PoliteInv, RoomAt, SamplesOk, ReaderOk, WriterOk, Used;
    if es != [] {
      var e, t := es[0], Next(p, s, es[0]);
      PoliteStep(p, s, e);
      RoomStep(p, s, e, n, j);
      RoomTravels(p, t, es[1..], n, j + if e.ReadEdge? then 0 else 1);
    }
  }

  /** Four write edges after n words have been read, O_write_full is high only if the producer
      has since come within two slots of the depth again. */
  lemma BoundedRelease(p: nat, s: Sys, es: seq<Event>)
    requires p >= 2 && |s.f.mem| == Depth(p) && PoliteInv(p, s) && Fair(p, s, es) && Polite(p, s, es)
    requires WriteEdges(es) >= 4
    ensures var t := Run(p, s, es);
      t.f.wr.almostFull ==> |t.h.sent| >= |s.h.got| + Depth(p) - 2
  {
    hide Next, Inv, Fair, Polite;
    RoomTravels(p, s, es, |s.h.got|, 0);
  }

  // ---- Where the environment assumptions are needed -------------------------------------------------

  /** A burst of write commands while the reader's clock stands still. */
  function Burst(p: nat, s: Sys, words: seq<Word>): seq<Event>
    requires p >= 2 && |s.f.mem| == Depth(p)
    decreases |words|
  {
    if words == [] then [] else
    var e := WriteEdge(WriteIn(true, words[0], s.f.rd.ptr, false));
    [e] + Burst(p, Next(p, s, e), words[1..])
  }

  lemma {:induction false} BurstRun(p: nat, s: Sys, words: seq<Word>)
    requires p >= 2 && |s.f.mem| == Depth(p) && Inv(p, s) && !s.f.wr.full
    requires s.h.got == [] && s.h.lost == {} && |s.h.sent| + |words| == Depth(p)
    requires words != []
    ensures Fair(p, s, Burst(p, s, words))
    ensures var t := Run(p, s, Burst(p, s, words));
      t.h.sent == s.h.sent + words && t.h.lost == {Depth(p) - 1} &&
      t.f.mem[Depth(p) - 1] == s.f.mem[Depth(p) - 1]
    decreases |words|
  {
    hide Next, Inv, SamplesOk, ReaderOk, Pow2;
    var e := WriteEdge(WriteIn(true, words[0], s.f.rd.ptr, false));
    var t := Next(p, s, e);
    var es := Burst(p, s, words);
    assert es[0] == e && es[1..] == Burst(p, t, words[1..]);
    BurstStep(p, s, e);
    if |words| > 1 {
      BurstRun(p, t, words[1..]);
      assert s.h.sent + [words[0]] + words[1..] == s.h.sent + words;
    } else {
      assert words == [words[0]] && es[1..] == [];
    }
  }

  lemma BurstStep(p: nat, s: Sys, e: Event)
    requires p >= 2 && |s.f.mem| == Depth(p) && Inv(p, s) && !s.f.wr.full
    requires s.h.got == [] && |s.h.sent| < Depth(p)
    requires e.WriteEdge? && e.w.cmd && e.w.sample == s.f.rd.ptr
    ensures Inv(p, Next(p, s, e)) && SamplesOk(p, s.f, e) && ReaderOk(p, s.f, s.h, e)
    ensures var t := Next(p, s, e);
      t.h.sent == s.h.sent + [e.w.data] && t.h.got == [] &&
      t.f.wr.full == (|t.h.sent| == Depth(p)) &&
      t.h.lost == (if t.f.wr.full then s.h.lost + {|s.h.sent|} else s.h.lost) &&
      t.f.mem[Depth(p) - 1] == s.f.mem[Depth(p) - 1]
  {
    hide Gray, XorShifts, FlipTop, Pow2, Distance, Mix, NextRead, Used;
    var t := Next(p, s, e);
    StepKeepsInv(p, s, e);
    FillingLoses(p, s, e);
    WriteNextCode(p, s, e.w);
    FullTestExact(p, s.h.r2, |t.h.sent|);
    WrapIs(p, |s.h.sent|);
    ModOfDouble(|s.h.sent|, Depth(p));
    ModSmall(|s.h.sent|, Depth(p));
  }

  /** For every depth: a producer that ignores O_write_full and writes a full depth of words
      straight after reset has its last word accepted but not stored. */
  lemma ImpoliteProducerLosesAWord(p: nat, mem: seq<Word>, half: bool, data: Word, words: seq<Word>)
    requires p >= 2 && |mem| == Depth(p) && |words| == Depth(p)
    ensures var s := Sys(Reset(mem, half, data), NOTHING);
      Fair(p, s, Burst(p, s, words)) &&
      var t := Run(p, s, Burst(p, s, words));
      t.h.sent == words && t.h.lost == {Depth(p) - 1} && t.f.mem[Depth(p) - 1] == mem[Depth(p) - 1]
  {
    var s := Sys(Reset(mem, half, data), NOTHING);
    ResetInv(p, mem, half, data);
    BurstRun(p, s, words);
    assert [] + words == words;
  }

  /** A read on the very first edge after reset returns a word that was never written. */
  lemma FirstReadReturnsGarbage(p: nat, mem: seq<Word>, half: bool, data: Word)
    requires p >= 2 && |mem| == Depth(p)
    ensures var t := Next(p, Sys(Reset(mem, half, data), NOTHING), ReadEdge(ReadIn(true, 0)));
      t.h.got == [mem[0]] && t.h.sent == []
  {
  }

  /** The reader has returned k words without a pause and its empty flag is still low. */
  ghost predicate Racing(p: nat, s: Sys, k: nat) {
    s.h.clocked && !s.f.rd.empty && |s.h.got| == k && s.f.rd.bin == Wrap(p, k) &&
    s.f.rd.writePtr1 == Code(p, s.h.w1) && s.f.rd.writePtr == Code(p, s.h.w2) &&
    s.f.wr.ptr == Code(p, |s.h.sent|)
  }

  function Again(s: Sys): Event { ReadEdge(ReadIn(true, s.f.wr.ptr)) }

  lemma RaceStep(p: nat, s: Sys, k: nat)
    requires p >= 2 && |s.f.mem| == Depth(p) && Racing(p, s, k) && s.h.w2 <= k <= 3
    ensures var t := Next(p, s, Again(s));
      Racing(p, t, k + 1) && t.h.sent == s.h.sent && t.h.w1 == |s.h.sent| && t.h.w2 == s.h.w1
    ensures SamplesOk(p, s.f, Again(s)) && ReaderOk(p, s.f, s.h, Again(s)) && WriterOk(s.f, Again(s))
  {
    hide Gray, XorShifts, FlipTop, Pow2, Wrap;
    DepthEven(p);
    WrapIs(p, k);
    WrapIs(p, k + 1);
    ModAdd(k, 1, Turn(p));
    CodesEqual(p, s.h.w2, k + 1);
  }

  /** Three more reads in a row, with nothing written meanwhile. */
  function Race(p: nat, s: Sys, k: nat): seq<Event>
    requires p >= 2 && |s.f.mem| == Depth(p)
    decreases k
  {
    if k == 0 then [] else [Again(s)] + Race(p, Next(p, s, Again(s)), k - 1)
  }

  lemma {:induction false} RaceOverruns(p: nat, s: Sys, k: nat)
    requires p >= 2 && |s.f.mem| == Depth(p) && Racing(p, s, k) && 1 <= k <= 4
    requires k == 1 ==> s.h.w2 == 0 && s.h.w1 <= 2
    requires k == 2 ==> s.h.w2 <= 2 && s.h.w1 <= 3
    requires k == 3 ==> s.h.w2 <= 3
    requires k <= 3 ==> |s.h.sent| <= 3
    ensures Fair(p, s, Race(p, s, 4 - k)) && Polite(p, s, Race(p, s, 4 - k))
    ensures |Run(p, s, Race(p, s, 4 - k)).h.got| == 4 && Run(p, s, Race(p, s, 4 - k)).h.sent == s.h.sent
    decreases 4 - k
  {
    hide Next, Racing, SamplesOk, ReaderOk, WriterOk;
    if k < 4 {
      RaceStep(p, s, k);
      var t := Next(p, s, Again(s));
      RaceOverruns(p, t, k + 1);
      assert Race(p, s, 4 - k)[1..] == Race(p, t, 3 - k);
    } else {
      RacingCount(p, s, k);
    }
  }

  lemma RacingCount(p: nat, s: Sys, k: nat)
    requires Racing(p, s, k)
    ensures |s.h.got| == k
  {
  }

  /** A first read edge that reads while fewer than three words are known to the reader. */
  lemma EarlyReadRaces(p: nat, s: Sys, e: Event)
    requires p >= 2 && |s.f.mem| == Depth(p) && PoliteInv(p, s) && !s.h.clocked
    requires SamplesOk(p, s.f, e) && WriterOk(s.f, e) && Reads(e) && e.r.cmd && ObserveRead(p, s.f, s.h, e.r).w1 < 3
    ensures var t := Next(p, s, e); Racing(p, t, 1) && t.h.w2 == 0 && t.h.w1 <= 2 && |t.h.sent| <= 3
  {
    hide Gray, XorShifts, FlipTop, Pow2, Wrap, MemInv, LogInv, NextMem, FullNext, Distance, Mix;
    DepthEven(p);
    SamplesAreCounts(p, s, e);
    ReadNextCode(p, s, e.r);
    CodesEqual(p, 0, 1);
    if e.BothEdges? { WriteNextCode(p, s, e.w); }
  }

  /** A well-behaved continuation from s returns only words that were accepted, in order. */
  ghost predicate Orderly(p: nat, s: Sys)
    requires p >= 2 && |s.f.mem| == Depth(p)
  {
    forall es :: Fair(p, s, es) && Polite(p, s, es) ==> Run(p, s, es).h.got <= Run(p, s, es).h.sent
  }

  lemma PoliteIsOrderly(p: nat, s: Sys)
    requires p >= 2 && |s.f.mem| == Depth(p) && PoliteInv(p, s)
    ensures Orderly(p, s)
  {
    hide Run, Fair, Polite, Inv;
    forall es | Fair(p, s, es) && Polite(p, s, es) ensures Run(p, s, es).h.got <= Run(p, s, es).h.sent {
      PoliteRun(p, s, es);
      PoliteOrder(p, Run(p, s, es));
    }
  }

  lemma PoliteOrder(p: nat, s: Sys)
    requires p >= 2 && |s.f.mem| == Depth(p) && PoliteInv(p, s)
    ensures s.h.got <= s.h.sent
  {
  }

  lemma FirstEdgeExactly(p: nat, s: Sys, e: Event)
    requires p >= 2 && |s.f.mem| == Depth(p) && PoliteInv(p, s) && !s.h.clocked
    requires SamplesOk(p, s.f, e) && WriterOk(s.f, e) && Reads(e)
    ensures Orderly(p, Next(p, s, e)) <==> (e.r.cmd ==> ObserveRead(p, s.f, s.h, e.r).w1 >= 3)
  {
    hide *;
    var t := Next(p, s, e);
    FirstEdgeCases(p, s, e);
    if ReaderOk(p, s.f, s.h, e) {
      PoliteStep(p, s, e);
      PoliteIsOrderly(p, t);
    } else {
      EarlyReadRaces(p, s, e);
      RaceOverruns(p, t, 1);
      NotOrderly(p, t, Race(p, t, 3));
    }
  }

  lemma FirstEdgeCases(p: nat, s: Sys, e: Event)
    requires |s.f.mem| == Depth(p) && !s.h.clocked && Reads(e)
    ensures !e.WriteEdge?
    ensures ReaderOk(p, s.f, s.h, e) <==> (e.r.cmd ==> ObserveRead(p, s.f, s.h, e.r).w1 >= 3)
  {
  }

  lemma NotOrderly(p: nat, s: Sys, es: seq<Event>)
    requires p >= 2 && |s.f.mem| == Depth(p) && Fair(p, s, es) && Polite(p, s, es)
    requires |Run(p, s, es).h.got| > |Run(p, s, es).h.sent|
    ensures !Orderly(p, s)
  {
    hide Run, Fair, Polite;
  }

  /** The reader's first edge after reset, exactly. After any polite run in which the reader had no
      edge, a first read edge leaves the FIFO a queue in every fair and polite continuation if and
      only if the reader is silent on it or it samples a pointer that has counted three words. */
  lemma FirstReadEdgeExactly(p: nat, mem: seq<Word>, half: bool, data: Word, es: seq<Event>, e: Event)
    requires p >= 2 && |mem| == Depth(p)
    requires Fair(p, Sys(Reset(mem, half, data), NOTHING), es)
    requires Polite(p, Sys(Reset(mem, half, data), NOTHING), es)
    requires var s := Run(p, Sys(Reset(mem, half, data), NOTHING), es);
      !s.h.clocked && SamplesOk(p, s.f, e) && WriterOk(s.f, e) && Reads(e)
    ensures var s := Run(p, Sys(Reset(mem, half, data), NOTHING), es);
      Orderly(p, Next(p, s, e)) <==> (e.r.cmd ==> ObserveRead(p, s.f, s.h, e.r).w1 >= 3)
  {
    hide *;
    var s := Sys(Reset(mem, half, data), NOTHING);
    ResetPolite(p, mem, half, data);
    PoliteRun(p, s, es);
    FirstEdgeExactly(p, Run(p, s, es), e);
  }

  lemma ResetPolite(p: nat, mem: seq<Word>, half: bool, data: Word)
    requires p >= 2 && |mem| == Depth(p)
    ensures |Reset(mem, half, data).mem| == Depth(p) && PoliteInv(p, Sys(Reset(mem, half, data), NOTHING))
  {
    ResetInv(p, mem, half, data);
    DepthEven(p);
  }
}
