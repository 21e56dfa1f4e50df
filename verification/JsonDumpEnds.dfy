/** json__dump on any text at all: unlike the visitor it always ends, because in record 20 it meets
    the first record, which is of no kind, and exits. */
module JsonDumpEnds {
  import opened Options
  import opened Json
  import opened JsonCursor
  import opened JsonAnyText
  import opened JsonDump

  /** A dump that prints keeps what a visit keeps. */
  lemma DumpSteady(buf: string, s: Stack, k: nat, limit: Size, fuel: nat)
    requires k <= MAX_DEPTH + 1 && Ready(s, k)
    requires Dump(buf, s, k, limit, fuel).Some? && Dump(buf, s, k, limit, fuel).value.Printed?
    ensures Steady(s, Dump(buf, s, k, limit, fuel).value.stack, k)
    ensures !IsContainer(s[k].kind) ==> Dump(buf, s, k, limit, fuel).value.stack == s
  {
    hide Dump, Visit, Steady;
    DumpVisits(buf, s, k, limit, fuel);
    VisitSteady(buf, s, k, fuel);
  }

  lemma {:induction false} DumpEnds(buf: string, s: Stack, k: nat, limit: Size, fuel: nat)
    requires k <= MAX_DEPTH + 1 && Ready(s, k)
    requires IsContainer(s[k].kind) ==> fuel >= Calls(s[k].valueStart, s[k].valueEnd)
    ensures Dump(buf, s, k, limit, fuel).Some?
    decreases fuel, 1
  {
    hide DumpMembers, DumpScalar, NamePart, Spaces;
    if IsContainer(s[k].kind) {
      if k == MAX_DEPTH { TopMembers(buf, s, limit, fuel); } else { MembersEnd(buf, s, k, Nothing, limit, fuel); }
    }
  }

  lemma {:induction false} MembersEnd(buf: string, s: Stack, k: nat, child: Ret, limit: Size, fuel: nat)
    requires k < MAX_DEPTH && (child.Slot? ==> child.k <= MAX_DEPTH + 1) && IsContainer(s[k].kind) && Ready(s, k)
    requires s[k].valueStart <= StartOf(s, k, child) && fuel >= Calls(StartOf(s, k, child), s[k].valueEnd)
    ensures DumpMembers(buf, s, k, child, limit, fuel).Some?
    decreases fuel, 0
  {
    hide *;
    var start, end := StartOf(s, k, child), s[k].valueEnd;
    var (next, t) := GetNext(buf, s, k, child);
    ReadyParts(s, k);
    GetNextProgress(buf, s, k, child);
    if next.Nothing? {
      MembersStep(buf, s, t, k, child, next, limit, fuel);
    } else {
      MemberReady(s, t, k, next, start, end);
      MemberIsReady(t, next.k);
      DumpEnds(buf, t, next.k, limit, fuel - 1);
      MembersStep(buf, s, t, k, child, next, limit, fuel);
      match Dump(buf, t, next.k, limit, fuel - 1).value
      case Exit =>
      case Printed(text, u) =>
        DumpSteady(buf, t, next.k, limit, fuel - 1);
        NextReady(s, t, u, k, next, start, end);
        StillReady(s, u, k, start, StartOf(u, k, next));
        MembersEnd(buf, u, k, next, limit, fuel - 1);
    }
  }

  lemma StillReady(s: Stack, u: Stack, k: nat, start: nat, next: nat)
    requires k < MAX_DEPTH && Ready(s, k) && IsContainer(s[k].kind) && Rooted(u, k, u[k].valueEnd)
    requires u[k].valueEnd == s[k].valueEnd && u[k].valueStart == s[k].valueStart && s[k].valueStart <= start < next
    ensures Ready(u, k) && u[k].valueStart <= next
  {
  }

  lemma MembersStep(buf: string, s: Stack, t: Stack, k: nat, child: Ret, next: Ret, limit: Size, fuel: nat)
    requires k <= MAX_DEPTH && (child.Slot? ==> child.k <= MAX_DEPTH + 1) && fuel > 0
    requires GetNext(buf, s, k, child) == (next, t)
    ensures next.Nothing? ==> DumpMembers(buf, s, k, child, limit, fuel).Some?
    ensures next.Slot? ==>
      match Dump(buf, t, next.k, limit, fuel - 1) {
        case None => true
        case Some(Exit) => DumpMembers(buf, s, k, child, limit, fuel).Some?
        case Some(Printed(_, u)) =>
          DumpMembers(buf, s, k, child, limit, fuel).Some? <==> DumpMembers(buf, u, k, next, limit, fuel - 1).Some?
      }
  {
    hide GetNext, Dump;
  }

  /** json__parse and json__dump on any text, well formed or not: the dump ends, within a number of
      nested calls bounded by the length of the text. */
  lemma PrinterEnds(buf: string, s: Stack, limit: Size, fuel: nat)
    requires fuel >= |buf| + 2
    ensures var (r, t) := Parse(buf, s); r.Slot? ==> Dump(buf, t, r.k, limit, fuel).Some?
  {
    hide Parse, Dump;
    var (r, t) := Parse(buf, s);
    ParseProgress(buf, s);
    if r.Slot? { DumpEnds(buf, t, r.k, limit, fuel); }
  }
}
