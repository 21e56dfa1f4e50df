/** The dependency runner of tools/build.c: bld__depends, bld__exec and bld__make. A command is
    represented by whether it succeeds; running one appends its task to a log. */
module TaskRunner {
  import opened Options

  type Label = string

  datatype Task = Task(name: Label, dependsOn: seq<Label>)

  const MAX_CHILDREN := 60

  // ---- The dependency graph -------------------------------------------------------------------

  /** Slot i of depends_on; unused slots hold the empty string. */
  function Entry(t: Task, i: nat): Label { if i < |t.dependsOn| then t.dependsOn[i] else "" }

  /** The labels bld__depends visits from slot i on: up to the first empty slot. */
  function Labels(t: Task, i: nat): seq<Label>
    decreases t, MAX_CHILDREN - i
  {
    if i >= MAX_CHILDREN || Entry(t, i) == "" then [] else [Entry(t, i)] + Labels(t, i + 1)
  }

  /** Task b carries a label task a depends on. */
  predicate Edge(tasks: seq<Task>, a: nat, b: nat) {
    a < |tasks| && b < |tasks| && tasks[b].name in Labels(tasks[a], 0)
  }

  ghost predicate Path(tasks: seq<Task>, p: seq<nat>) {
    p != [] && (forall i :: 0 <= i < |p| ==> p[i] < |tasks|) &&
    forall i :: 0 <= i < |p| - 1 ==> Edge(tasks, p[i], p[i + 1])
  }

  ghost predicate Reaches(tasks: seq<Task>, a: nat, b: nat) {
    exists p :: Path(tasks, p) && p[0] == a && p[|p| - 1] == b
  }

  /** Every cycle that can be reached from t is a task depending on itself. */
  ghost predicate OnlySelfLoops(tasks: seq<Task>, t: nat) {
    forall x, y :: Reaches(tasks, t, x) && Reaches(tasks, x, y) && Reaches(tasks, y, x) ==> x == y
  }

  ghost predicate SelfDependencyBelow(tasks: seq<Task>, t: nat) {
    exists x :: Reaches(tasks, t, x) && Edge(tasks, x, x)
  }

  ghost predicate FailureBelow(tasks: seq<Task>, ok: nat -> bool, t: nat) {
    exists x :: Reaches(tasks, t, x) && !ok(x)
  }

  // ---- Which labels count ---------------------------------------------------------------------------

  /** The label stands in dependsOn among the first 60, before any empty one. */
  predicate Counts(t: Task, l: Label) {
    exists i ::
      0 <= i < 60 && i < |t.dependsOn| && t.dependsOn[i] == l && forall j :: 0 <= j <= i ==> t.dependsOn[j] != ""
  }

  lemma {:induction false} LabelsFrom(t: Task, k: nat, l: Label)
    requires k <= 60
    ensures l in Labels(t, k) <==>
      exists i ::
        k <= i < 60 && i < |t.dependsOn| && t.dependsOn[i] == l && forall j :: k <= j <= i ==> t.dependsOn[j] != ""
    decreases 60 - k
  {
    if k < 60 && Entry(t, k) != "" {
      LabelsFrom(t, k + 1, l);
      if l != t.dependsOn[k] && l in Labels(t, k) {
        var i :| k + 1 <= i < 60 && i < |t.dependsOn| && t.dependsOn[i] == l &&
          forall j :: k + 1 <= j <= i ==> t.dependsOn[j] != "";
        assert forall j :: k <= j <= i ==> t.dependsOn[j] != "";
      }
    }
  }

  /** The labels that count are those before the first empty one among the first 60. */
  lemma EdgeExactly(tasks: seq<Task>, a: nat, b: nat)
    requires a < |tasks| && b < |tasks|
    ensures Edge(tasks, a, b) <==> Counts(tasks[a], tasks[b].name)
    ensures |tasks[a].dependsOn| <= 60 && "" !in tasks[a].dependsOn ==>
      (Edge(tasks, a, b) <==> tasks[b].name in tasks[a].dependsOn)
  {
    LabelsFrom(tasks[a], 0, tasks[b].name);
    if |tasks[a].dependsOn| <= 60 && "" !in tasks[a].dependsOn && tasks[b].name in tasks[a].dependsOn {
      var i :| 0 <= i < |tasks[a].dependsOn| && tasks[a].dependsOn[i] == tasks[b].name;
      assert forall j :: 0 <= j <= i ==> tasks[a].dependsOn[j] in tasks[a].dependsOn;
    }
  }

  // ---- The recursion --------------------------------------------------------------------------

  /** The result code and the tasks executed so far, or Endless when the allowed depth of
      recursion is used up. */
  datatype Result = Endless | Done(code: int, log: seq<nat>)

  function Exec(ok: nat -> bool, t: nat, log: seq<nat>): Result {
    if t in log then Done(0, log) else Done(if ok(t) then 0 else -1, log + [t])
  }

  /** bld__depends: a task is refused only when its direct parent is the task itself. */
  function Depends(tasks: seq<Task>, ok: nat -> bool, t: nat, parent: Option<nat>, log: seq<nat>, fuel: nat): Result
    requires t < |tasks|
    decreases fuel, 0, 0
  {
    if fuel == 0 then Endless
    else if parent == Some(t) then Done(1, log)
    else
      var r := Slots(tasks, ok, t, 0, log, fuel - 1);
      if r.Done? && r.code == 0 then Exec(ok, t, r.log) else r
  }

  /** The outer loop, over the dependsOn slots of t from slot i on. */
  function Slots(tasks: seq<Task>, ok: nat -> bool, t: nat, i: nat, log: seq<nat>, fuel: nat): Result
    requires t < |tasks|
    decreases fuel, 2, MAX_CHILDREN - i
  {
    if i >= MAX_CHILDREN || Entry(tasks[t], i) == "" then Done(0, log) else
    var r := Carriers(tasks, ok, t, Entry(tasks[t], i), 0, log, fuel);
    if r.Done? && r.code == 0 then Slots(tasks, ok, t, i + 1, r.log, fuel) else r
  }

  /** The inner loop, over the tasks from position c on that carry the label. */
  function Carriers(tasks: seq<Task>, ok: nat -> bool, t: nat, wanted: Label, c: nat, log: seq<nat>, fuel: nat): Result
    requires t < |tasks| && c <= |tasks|
    decreases fuel, 1, |tasks| - c
  {
    if c == |tasks| then Done(0, log)
    else if tasks[c].name != wanted then Carriers(tasks, ok, t, wanted, c + 1, log, fuel)
    else
      var r := Depends(tasks, ok, c, Some(t), log, fuel);
      if r.Done? && r.code == 0 then Carriers(tasks, ok, t, wanted, c + 1, r.log, fuel) else r
  }

  // ---- Reachability ---------------------------------------------------------------------------

  lemma ReachesSelf(tasks: seq<Task>, a: nat)
    requires a < |tasks|
    ensures Reaches(tasks, a, a)
  {
    assert Path(tasks, [a]);
  }

  lemma ReachesEdge(tasks: seq<Task>, a: nat, b: nat)
    requires Edge(tasks, a, b)
    ensures Reaches(tasks, a, b)
  {
    var p := [a, b];
    assert Path(tasks, p) && p[0] == a && p[|p| - 1] == b;
  }

  lemma ReachesTransitive(tasks: seq<Task>, a: nat, b: nat, c: nat)
    requires Reaches(tasks, a, b) && Reaches(tasks, b, c)
    ensures Reaches(tasks, a, c)
  {
    var p :| Path(tasks, p) && p[0] == a && p[|p| - 1] == b;
    var q :| Path(tasks, q) && q[0] == b && q[|q| - 1] == c;
    var r := p + q[1..];
    forall i | 0 <= i < |r| - 1 ensures Edge(tasks, r[i], r[i + 1]) {
      if i + 1 < |p| {
        assert r[i] == p[i] && r[i + 1] == p[i + 1];
      } else {
        assert r[i] == q[i + 1 - |p|] && r[i + 1] == q[i + 2 - |p|];
      }
    }
    assert Path(tasks, r) && r[0] == a && r[|r| - 1] == c;
  }

  // ---- What a call leaves in the log ----------------------------------------------------------

  /** Everything t depends on is in the log. */
  predicate Ready(tasks: seq<Task>, t: nat, log: seq<nat>) {
    forall b :: 0 <= b < |tasks| && Edge(tasks, t, b) ==> b in log
  }

  /** Each task ran once, after everything it depends on, and succeeded. */
  ghost predicate Good(tasks: seq<Task>, ok: nat -> bool, log: seq<nat>) {
    forall i :: 0 <= i < |log| ==>
      log[i] < |tasks| && ok(log[i]) && log[i] !in log[..i] && Ready(tasks, log[i], log[..i])
  }

  /** All runs were good but the last, whose command failed. */
  ghost predicate EndsInFailure(tasks: seq<Task>, ok: nat -> bool, log: seq<nat>) {
    log != [] &&
    var n := |log| - 1;
    Good(tasks, ok, log[..n]) && log[n] < |tasks| && !ok(log[n]) && log[n] !in log[..n] &&
    Ready(tasks, log[n], log[..n])
  }

  lemma GoodSnoc(tasks: seq<Task>, ok: nat -> bool, log: seq<nat>, t: nat)
    requires Good(tasks, ok, log) && t < |tasks| && t !in log && Ready(tasks, t, log)
    ensures ok(t) ==> Good(tasks, ok, log + [t])
    ensures !ok(t) ==> EndsInFailure(tasks, ok, log + [t])
  {
    var l := log + [t];
    assert l[..|log|] == log;
    forall i | 0 <= i < |log| ensures l[..i] == log[..i] { }
  }

  /** The tasks executed between two logs are reachable from t. */
  ghost predicate NewBelow(tasks: seq<Task>, t: nat, old': seq<nat>, log: seq<nat>) {
    old' <= log && forall i :: |old'| <= i < |log| ==> Reaches(tasks, t, log[i])
  }

  /** What a finished call below t with the given result guarantees. */
  ghost predicate Outcome(tasks: seq<Task>, ok: nat -> bool, t: nat, before: seq<nat>, r: Result) {
    r.Done? ==>
      NewBelow(tasks, t, before, r.log) &&
      (r.code == 0 ==> Good(tasks, ok, r.log)) &&
      (r.code == 1 ==> Good(tasks, ok, r.log)) &&
      (r.code == -1 ==> EndsInFailure(tasks, ok, r.log) && FailureBelow(tasks, ok, t)) &&
      -1 <= r.code <= 1
  }

  lemma OutcomeUp(tasks: seq<Task>, ok: nat -> bool, t: nat, c: nat, before: seq<nat>, mid: seq<nat>, r: Result)
    requires Reaches(tasks, t, c) && Outcome(tasks, ok, c, mid, r) && NewBelow(tasks, t, before, mid)
    ensures Outcome(tasks, ok, t, before, r)
    ensures SelfDependencyBelow(tasks, c) ==> SelfDependencyBelow(tasks, t)
  {
    forall x | Reaches(tasks, c, x) ensures Reaches(tasks, t, x) { ReachesTransitive(tasks, t, c, x); }
    if r.Done? {
      forall i | |before| <= i < |r.log| ensures Reaches(tasks, t, r.log[i]) {
        if i < |mid| { assert r.log[i] == mid[i]; }
      }
    }
  }

  /** Logs only grow, and a call that returns 0 leaves its task in the log. */
  lemma {:induction false} DependsGrows(tasks: seq<Task>, ok: nat -> bool, t: nat, parent: Option<nat>, log: seq<nat>,
                                        fuel: nat)
    requires t < |tasks|
    ensures var r := Depends(tasks, ok, t, parent, log, fuel);
      r.Done? ==> log <= r.log && (r.code == 0 ==> t in r.log)
    decreases fuel, 0, 0
  {
    if fuel > 0 && parent != Some(t) { SlotsGrow(tasks, ok, t, 0, log, fuel - 1); }
  }

  lemma {:induction false} SlotsGrow(tasks: seq<Task>, ok: nat -> bool, t: nat, i: nat, log: seq<nat>, fuel: nat)
    requires t < |tasks|
    ensures var r := Slots(tasks, ok, t, i, log, fuel);
      (r.Done? ==> log <= r.log) &&
      (r.Done? && r.code == 0 ==> forall b :: 0 <= b < |tasks| && tasks[b].name in Labels(tasks[t], i) ==> b in r.log)
    decreases fuel, 2, MAX_CHILDREN - i
  {
    if i < MAX_CHILDREN && Entry(tasks[t], i) != "" {
      var r := Carriers(tasks, ok, t, Entry(tasks[t], i), 0, log, fuel);
      CarriersGrow(tasks, ok, t, Entry(tasks[t], i), 0, log, fuel);
      if r.Done? && r.code == 0 { SlotsGrow(tasks, ok, t, i + 1, r.log, fuel); }
    }
  }

  lemma {:induction false} CarriersGrow(tasks: seq<Task>, ok: nat -> bool, t: nat, wanted: Label, c: nat, log: seq<nat>,
                                        fuel: nat)
    requires t < |tasks| && c <= |tasks|
    ensures var r := Carriers(tasks, ok, t, wanted, c, log, fuel);
      (r.Done? ==> log <= r.log) &&
      (r.Done? && r.code == 0 ==> forall b :: c <= b < |tasks| && tasks[b].name == wanted ==> b in r.log)
    decreases fuel, 1, |tasks| - c
  {
    if c < |tasks| {
      if tasks[c].name != wanted {
        CarriersGrow(tasks, ok, t, wanted, c + 1, log, fuel);
      } else {
        var r := Depends(tasks, ok, c, Some(t), log, fuel);
        DependsGrows(tasks, ok, c, Some(t), log, fuel);
        if r.Done? && r.code == 0 { CarriersGrow(tasks, ok, t, wanted, c + 1, r.log, fuel); }
      }
    }
  }

  /** A finished call of either loop of task t. */
  ghost predicate LoopOutcome(tasks: seq<Task>, ok: nat -> bool, t: nat, before: seq<nat>, r: Result) {
    Outcome(tasks, ok, t, before, r) && (r.Done? && r.code == 1 ==> SelfDependencyBelow(tasks, t))
  }

  lemma {:induction false} DependsOutcome(tasks: seq<Task>, ok: nat -> bool, t: nat, parent: Option<nat>, log: seq<nat>,
                                          fuel: nat)
    requires t < |tasks| && Good(tasks, ok, log)
    ensures var r := Depends(tasks, ok, t, parent, log, fuel);
      Outcome(tasks, ok, t, log, r) &&
      (r.Done? && r.code == 1 ==> parent == Some(t) || SelfDependencyBelow(tasks, t))
    decreases fuel, 0, 0
  {
    if fuel > 0 && parent != Some(t) {
      var r := Slots(tasks, ok, t, 0, log, fuel - 1);
      SlotsOutcome(tasks, ok, t, 0, log, log, fuel - 1);
      if r.Done? && r.code == 0 {
        SlotsGrow(tasks, ok, t, 0, log, fuel - 1);
        ExecOutcome(tasks, ok, t, log, r.log);
      }
    }
  }

  lemma ExecOutcome(tasks: seq<Task>, ok: nat -> bool, t: nat, before: seq<nat>, log: seq<nat>)
    requires t < |tasks| && Good(tasks, ok, log) && NewBelow(tasks, t, before, log) && Ready(tasks, t, log)
    ensures Outcome(tasks, ok, t, before, Exec(ok, t, log)) && Exec(ok, t, log).code <= 0
  {
    ReachesSelf(tasks, t);
    if t !in log { GoodSnoc(tasks, ok, log, t); }
  }

  lemma {:induction false} SlotsOutcome(tasks: seq<Task>, ok: nat -> bool, t: nat, i: nat, before: seq<nat>,
                                        log: seq<nat>, fuel: nat)
    requires t < |tasks| && Good(tasks, ok, log) && NewBelow(tasks, t, before, log)
    requires forall l :: l in Labels(tasks[t], i) ==> l in Labels(tasks[t], 0)
    ensures LoopOutcome(tasks, ok, t, before, Slots(tasks, ok, t, i, log, fuel))
    decreases fuel, 2, MAX_CHILDREN - i
  {
    if i < MAX_CHILDREN && Entry(tasks[t], i) != "" {
      var s := Entry(tasks[t], i);
      assert Labels(tasks[t], i) == [s] + Labels(tasks[t], i + 1);
      var r := Carriers(tasks, ok, t, s, 0, log, fuel);
      CarriersOutcome(tasks, ok, t, s, 0, before, log, fuel);
      if r.Done? && r.code == 0 { SlotsOutcome(tasks, ok, t, i + 1, before, r.log, fuel); }
    }
  }

  lemma {:induction false} CarriersOutcome(tasks: seq<Task>, ok: nat -> bool, t: nat, wanted: Label, c: nat,
                                           before: seq<nat>, log: seq<nat>, fuel: nat)
    requires t < |tasks| && c <= |tasks| && Good(tasks, ok, log) && NewBelow(tasks, t, before, log)
    requires wanted in Labels(tasks[t], 0)
    ensures LoopOutcome(tasks, ok, t, before, Carriers(tasks, ok, t, wanted, c, log, fuel))
    decreases fuel, 1, |tasks| - c
  {
    if c < |tasks| {
      if tasks[c].name != wanted {
        CarriersOutcome(tasks, ok, t, wanted, c + 1, before, log, fuel);
      } else {
        var r := Depends(tasks, ok, c, Some(t), log, fuel);
        DependsOutcome(tasks, ok, c, Some(t), log, fuel);
        CalleeOutcome(tasks, ok, t, c, before, log, r);
        if r.Done? && r.code == 0 {
          CarriersOutcome(tasks, ok, t, wanted, c + 1, before, r.log, fuel);
        }
      }
    }
  }

  lemma CalleeOutcome(tasks: seq<Task>, ok: nat -> bool, t: nat, c: nat, before: seq<nat>, log: seq<nat>, r: Result)
    requires Edge(tasks, t, c) && NewBelow(tasks, t, before, log) && Outcome(tasks, ok, c, log, r)
    requires r.Done? && r.code == 1 ==> t == c || SelfDependencyBelow(tasks, c)
    ensures LoopOutcome(tasks, ok, t, before, r)
  {
    ReachesEdge(tasks, t, c);
    OutcomeUp(tasks, ok, t, c, before, log, r);
    if t == c { ReachesSelf(tasks, t); }
  }

  // ---- Success and failure, exactly -----------------------------------------------------------

  /** A good log holds, before each task, every other task it reaches. */
  lemma {:induction false} TransitivelyOrdered(tasks: seq<Task>, ok: nat -> bool, log: seq<nat>, i: nat, p: seq<nat>)
    requires Good(tasks, ok, log) && i < |log| && Path(tasks, p) && p[0] == log[i]
    ensures |p| == 1 || p[|p| - 1] in log[..i]
    decreases |p|
  {
    if |p| > 1 {
      assert Edge(tasks, p[0], p[1]);
      assert p[1] in log[..i];
      var j :| 0 <= j < i && log[j] == p[1];
      TransitivelyOrdered(tasks, ok, log, j, p[1..]);
    }
  }

  lemma GoodLogIsClosed(tasks: seq<Task>, ok: nat -> bool, log: seq<nat>, a: nat, b: nat)
    requires Good(tasks, ok, log) && a in log && Reaches(tasks, a, b)
    ensures b in log && ok(b)
    ensures !Edge(tasks, a, a)
    ensures Reaches(tasks, b, a) ==> a == b
  {
    var i :| 0 <= i < |log| && log[i] == a;
    var p :| Path(tasks, p) && p[0] == a && p[|p| - 1] == b;
    TransitivelyOrdered(tasks, ok, log, i, p);
    if Reaches(tasks, b, a) && a != b {
      var j :| 0 <= j < i && log[j] == b;
      var q :| Path(tasks, q) && q[0] == b && q[|q| - 1] == a;
      TransitivelyOrdered(tasks, ok, log, j, q);
    }
  }

  /** Result 0: exactly the tasks reachable from the target ran, each once, each after all the
      tasks it transitively depends on, and all succeeded. */
  lemma SuccessRunsTheClosure(tasks: seq<Task>, ok: nat -> bool, t: nat, fuel: nat)
    requires t < |tasks|
    ensures var r := Depends(tasks, ok, t, None, [], fuel);
      r.Done? && r.code == 0 ==>
        (forall x :: x in r.log <==> Reaches(tasks, t, x)) &&
        (forall i, j :: 0 <= i < j < |r.log| ==> r.log[i] != r.log[j]) &&
        (forall i, x :: 0 <= i < |r.log| && Reaches(tasks, r.log[i], x) && x != r.log[i] ==> x in r.log[..i])
  {
    var r := Depends(tasks, ok, t, None, [], fuel);
    DependsOutcome(tasks, ok, t, None, [], fuel);
    DependsGrows(tasks, ok, t, None, [], fuel);
    if r.Done? && r.code == 0 {
      forall x ensures x in r.log <==> Reaches(tasks, t, x) {
        if Reaches(tasks, t, x) { GoodLogIsClosed(tasks, ok, r.log, t, x); }
      }
      forall i, j | 0 <= i < j < |r.log| ensures r.log[i] != r.log[j] {
        assert r.log[i] in r.log[..j];
      }
      forall i, x | 0 <= i < |r.log| && Reaches(tasks, r.log[i], x) && x != r.log[i] ensures x in r.log[..i] {
        var p :| Path(tasks, p) && p[0] == r.log[i] && p[|p| - 1] == x;
        TransitivelyOrdered(tasks, ok, r.log, i, p);
      }
    }
  }

  /** A finished run from an empty log returns 0 exactly when no task below the target depends on
      itself and every command below it succeeds. */
  lemma ResultExact(tasks: seq<Task>, ok: nat -> bool, t: nat, fuel: nat)
    requires t < |tasks| && Depends(tasks, ok, t, None, [], fuel).Done?
    ensures Depends(tasks, ok, t, None, [], fuel).code == 0 <==>
            !SelfDependencyBelow(tasks, t) && !FailureBelow(tasks, ok, t)
  {
    var r := Depends(tasks, ok, t, None, [], fuel);
    DependsOutcome(tasks, ok, t, None, [], fuel);
    DependsGrows(tasks, ok, t, None, [], fuel);
    if r.code == 0 {
      forall x | Reaches(tasks, t, x) ensures ok(x) && !Edge(tasks, x, x) {
        GoodLogIsClosed(tasks, ok, r.log, t, x);
        ReachesSelf(tasks, x);
        GoodLogIsClosed(tasks, ok, r.log, x, x);
      }
    }
  }

  /** If dependsOn of the task run at i names task b by a label that counts, then b has run before. */
  predicate Follows(tasks: seq<Task>, log: seq<nat>, i: nat, b: nat)
    requires i < |log| && b < |tasks|
  {
    log[i] < |tasks| && (Counts(tasks[log[i]], tasks[b].name) ==> b in log[..i])
  }

  /** Result 0 in the words of the task file: the target ran, and every task named by a dependency of a
      task that ran has run before it. */
  lemma SuccessInOrder(tasks: seq<Task>, ok: nat -> bool, t: nat, fuel: nat)
    requires t < |tasks|
    ensures var r := Depends(tasks, ok, t, None, [], fuel);
      r.Done? && r.code == 0 ==>
        t in r.log &&
        forall i, b :: 0 <= i < |r.log| && 0 <= b < |tasks| ==>
          Follows(tasks, r.log, i, b)
  {
    hide Depends, Edge, Counts;
    var r := Depends(tasks, ok, t, None, [], fuel);
    DependsOutcome(tasks, ok, t, None, [], fuel);
    DependsGrows(tasks, ok, t, None, [], fuel);
    if r.Done? && r.code == 0 {
      forall i, b | 0 <= i < |r.log| && 0 <= b < |tasks|
        ensures Follows(tasks, r.log, i, b)
      {
        EdgeExactly(tasks, r.log[i], b);
      }
    }
  }

  /** A failing command is the last one run; everything before it succeeded, once each and in
      dependency order. A refused self-dependency leaves only good runs behind. */
  lemma FailureStopsTheRun(tasks: seq<Task>, ok: nat -> bool, t: nat, fuel: nat)
    requires t < |tasks|
    ensures var r := Depends(tasks, ok, t, None, [], fuel);
      r.Done? && r.code != 0 ==>
        if r.code == -1 then EndsInFailure(tasks, ok, r.log)
        else r.code == 1 && Good(tasks, ok, r.log) && SelfDependencyBelow(tasks, t)
  {
    DependsOutcome(tasks, ok, t, None, [], fuel);
  }

  // ---- Termination ----------------------------------------------------------------------------

  /** The tasks reachable from t; its size ranks the recursion. */
  ghost function Below(tasks: seq<Task>, t: nat): set<nat> {
    set x | 0 <= x < |tasks| && Reaches(tasks, t, x)
  }

  lemma SubsetSize(a: set<nat>, b: set<nat>)
    requires a <= b
    ensures |a| <= |b|
  {
    assert b == a + (b - a);
  }

  lemma RankFalls(tasks: seq<Task>, t: nat, c: nat)
    requires t < |tasks| && Edge(tasks, t, c) && c != t && OnlySelfLoops(tasks, t)
    ensures |Below(tasks, c)| < |Below(tasks, t)| && OnlySelfLoops(tasks, c)
  {
    ReachesEdge(tasks, t, c);
    ReachesSelf(tasks, t);
    forall x | Reaches(tasks, c, x) ensures Reaches(tasks, t, x) { ReachesTransitive(tasks, t, c, x); }
    assert t in Below(tasks, t) && t !in Below(tasks, c);
    SubsetSize(Below(tasks, c), Below(tasks, t) - {t});
  }

  lemma RankPositive(tasks: seq<Task>, t: nat)
    requires t < |tasks|
    ensures |Below(tasks, t)| >= 1
  {
    ReachesSelf(tasks, t);
    assert t in Below(tasks, t);
  }

  /** Every chain of calls below t, none of them refused, is shorter than n. */
  ghost predicate Shallow(tasks: seq<Task>, t: nat, n: nat)
    requires t < |tasks|
    decreases n
  {
    n > 0 && forall c :: 0 <= c < |tasks| && Edge(tasks, t, c) && c != t ==> Shallow(tasks, c, n - 1)
  }

  lemma {:induction false} OnlySelfLoopsIsShallow(tasks: seq<Task>, t: nat, n: nat)
    requires t < |tasks| && OnlySelfLoops(tasks, t) && n >= |Below(tasks, t)|
    ensures Shallow(tasks, t, n)
    decreases n
  {
    RankPositive(tasks, t);
    forall c | 0 <= c < |tasks| && Edge(tasks, t, c) && c != t ensures Shallow(tasks, c, n - 1) {
      RankFalls(tasks, t, c);
      OnlySelfLoopsIsShallow(tasks, c, n - 1);
    }
  }

  lemma {:induction false} ShallowEnds(tasks: seq<Task>, ok: nat -> bool, t: nat, parent: Option<nat>, log: seq<nat>,
                                       fuel: nat)
    requires t < |tasks| && fuel > 0 && Shallow(tasks, t, fuel - 1)
    ensures Depends(tasks, ok, t, parent, log, fuel).Done?
    decreases fuel, 0, 0
  {
    if parent != Some(t) { SlotsEnd(tasks, ok, t, 0, log, fuel - 1); }
  }

  lemma {:induction false} SlotsEnd(tasks: seq<Task>, ok: nat -> bool, t: nat, i: nat, log: seq<nat>, fuel: nat)
    requires t < |tasks| && fuel > 0 && Shallow(tasks, t, fuel)
    requires forall l :: l in Labels(tasks[t], i) ==> l in Labels(tasks[t], 0)
    ensures Slots(tasks, ok, t, i, log, fuel).Done?
    decreases fuel, 2, MAX_CHILDREN - i
  {
    if i < MAX_CHILDREN && Entry(tasks[t], i) != "" {
      assert Labels(tasks[t], i) == [Entry(tasks[t], i)] + Labels(tasks[t], i + 1);
      CarriersEnd(tasks, ok, t, Entry(tasks[t], i), 0, log, fuel);
      var r := Carriers(tasks, ok, t, Entry(tasks[t], i), 0, log, fuel);
      SlotsEnd(tasks, ok, t, i + 1, r.log, fuel);
    }
  }

  lemma {:induction false} CarriersEnd(tasks: seq<Task>, ok: nat -> bool, t: nat, wanted: Label, c: nat, log: seq<nat>,
                                       fuel: nat)
    requires t < |tasks| && fuel > 0 && Shallow(tasks, t, fuel) && c <= |tasks| && wanted in Labels(tasks[t], 0)
    ensures Carriers(tasks, ok, t, wanted, c, log, fuel).Done?
    decreases fuel, 1, |tasks| - c
  {
    if c < |tasks| {
      if tasks[c].name != wanted {
        CarriersEnd(tasks, ok, t, wanted, c + 1, log, fuel);
      } else {
        if c != t {
          assert Edge(tasks, t, c);
          ShallowEnds(tasks, ok, c, Some(t), log, fuel);
        }
        var r := Depends(tasks, ok, c, Some(t), log, fuel);
        CarriersEnd(tasks, ok, t, wanted, c + 1, r.log, fuel);
      }
    }
  }

  /** The recursion ends whenever every cycle below the target is a self-dependency. */
  lemma Terminates(tasks: seq<Task>, ok: nat -> bool, t: nat, parent: Option<nat>, log: seq<nat>)
    requires t < |tasks| && OnlySelfLoops(tasks, t)
    ensures Depends(tasks, ok, t, parent, log, |Below(tasks, t)| + 1).Done?
  {
    OnlySelfLoopsIsShallow(tasks, t, |Below(tasks, t)|);
    ShallowEnds(tasks, ok, t, parent, log, |Below(tasks, t)| + 1);
  }

  // ---- When the recursion ends --------------------------------------------------------------------

  /** Below the task every cycle is a self-loop, nothing depends on itself and no command fails. */
  ghost predicate Clean(tasks: seq<Task>, ok: nat -> bool, t: nat) {
    OnlySelfLoops(tasks, t) && !SelfDependencyBelow(tasks, t) && !FailureBelow(tasks, ok, t)
  }

  /** A clean dependency returns 0 from every good log. */
  lemma CleanSucceeds(tasks: seq<Task>, ok: nat -> bool, t: nat, parent: Option<nat>, log: seq<nat>, fuel: nat)
    requires t < |tasks| && Clean(tasks, ok, t) && parent != Some(t) && Good(tasks, ok, log) && fuel > |tasks|
    ensures var r := Depends(tasks, ok, t, parent, log, fuel); r.Done? && r.code == 0 && Good(tasks, ok, r.log)
  {
    hide Depends, Good, Reaches, OnlySelfLoops;
    Terminates(tasks, ok, t, parent, log);
    BelowFits(tasks, t);
    FuelIrrelevant(tasks, ok, t, parent, log, |Below(tasks, t)| + 1, fuel);
    DependsOutcome(tasks, ok, t, parent, log, fuel);
  }

  /** The first n task numbers. */
  ghost function Numbers(n: nat): (r: set<nat>)
    ensures |r| == n && forall x :: x in r <==> 0 <= x < n
  {
    if n == 0 then {} else Numbers(n - 1) + {n - 1}
  }

  lemma BelowFits(tasks: seq<Task>, t: nat)
    ensures |Below(tasks, t)| <= |tasks|
  {
    SubsetSize(Below(tasks, t), Numbers(|tasks|));
  }

  /** A call that returns 0 from a good log was for a clean task. */
  lemma SuccessIsClean(tasks: seq<Task>, ok: nat -> bool, t: nat, parent: Option<nat>, log: seq<nat>, fuel: nat)
    requires t < |tasks| && Good(tasks, ok, log)
    requires var r := Depends(tasks, ok, t, parent, log, fuel); r.Done? && r.code == 0
    ensures Clean(tasks, ok, t)
  {
    hide Depends, Good, Reaches;
    var r := Depends(tasks, ok, t, parent, log, fuel);
    DependsOutcome(tasks, ok, t, parent, log, fuel);
    DependsGrows(tasks, ok, t, parent, log, fuel);
    forall x | Reaches(tasks, t, x) ensures ok(x) && !Edge(tasks, x, x) && x in r.log {
      GoodLogIsClosed(tasks, ok, r.log, t, x);
      ReachedTask(tasks, t, x);
      ReachesSelf(tasks, x);
      GoodLogIsClosed(tasks, ok, r.log, x, x);
    }
    forall x, y | Reaches(tasks, t, x) && Reaches(tasks, x, y) && Reaches(tasks, y, x) ensures x == y {
      GoodLogIsClosed(tasks, ok, r.log, x, y);
    }
  }

  lemma ReachedTask(tasks: seq<Task>, t: nat, x: nat)
    requires Reaches(tasks, t, x)
    ensures x < |tasks|
  {
  }

  /** The first task from c on that carries the label and is not clean. */
  ghost function FirstCarrier(tasks: seq<Task>, ok: nat -> bool, wanted: Label, c: nat): (r: Option<nat>)
    requires c <= |tasks|
    ensures r.Some? ==> r.value < |tasks|
    decreases |tasks| - c
  {
    if c == |tasks| then None
    else if tasks[c].name == wanted && !Clean(tasks, ok, c) then Some(c)
    else FirstCarrier(tasks, ok, wanted, c + 1)
  }

  /** The first unclean task that t comes to from slot i on, in slot order and then list order. */
  ghost function FirstUnclean(tasks: seq<Task>, ok: nat -> bool, t: nat, i: nat): (r: Option<nat>)
    requires t < |tasks|
    ensures r.Some? ==> r.value < |tasks|
    decreases MAX_CHILDREN - i
  {
    if i >= MAX_CHILDREN || Entry(tasks[t], i) == "" then None else
    var r := FirstCarrier(tasks, ok, Entry(tasks[t], i), 0);
    if r.Some? then r else FirstUnclean(tasks, ok, t, i + 1)
  }

  /** From t, at most n steps to the first unclean dependency lead to a task that has none, or whose
      first one is itself. */
  ghost predicate Stops(tasks: seq<Task>, ok: nat -> bool, t: nat, n: nat)
    requires t < |tasks|
    decreases n
  {
    var c := FirstUnclean(tasks, ok, t, 0);
    c.None? || c.value == t || (n > 0 && Stops(tasks, ok, c.value, n - 1))
  }

  lemma {:induction false} StoppingEnds(tasks: seq<Task>, ok: nat -> bool, t: nat, n: nat, parent: Option<nat>,
                                        log: seq<nat>)
    requires t < |tasks| && Stops(tasks, ok, t, n) && Good(tasks, ok, log)
    ensures Depends(tasks, ok, t, parent, log, |tasks| + 2 + n).Done?
    decreases n, 2, 0
  {
    hide Good, Clean;
    if parent != Some(t) { SlotsStop(tasks, ok, t, 0, n, log); }
  }

  /** The first unclean task ahead, if any, is t itself or ends when called. */
  ghost predicate Ending(tasks: seq<Task>, ok: nat -> bool, t: nat, c: Option<nat>, n: nat)
    requires c.Some? ==> c.value < |tasks|
  {
    c.None? || c.value == t || (n > 0 && Stops(tasks, ok, c.value, n - 1))
  }

  lemma {:induction false} SlotsStop(tasks: seq<Task>, ok: nat -> bool, t: nat, i: nat, n: nat, log: seq<nat>)
    requires t < |tasks| && Good(tasks, ok, log) && Ending(tasks, ok, t, FirstUnclean(tasks, ok, t, i), n)
    ensures Slots(tasks, ok, t, i, log, |tasks| + 1 + n).Done?
    decreases n, 1, MAX_CHILDREN - i
  {
    hide Good, Clean, Stops, Carriers, Depends;
    if i < MAX_CHILDREN && Entry(tasks[t], i) != "" {
      var wanted := Entry(tasks[t], i);
      CarriersStop(tasks, ok, t, wanted, 0, n, log);
      var r := Carriers(tasks, ok, t, wanted, 0, log, |tasks| + 1 + n);
      if r.code == 0 { SlotsStop(tasks, ok, t, i + 1, n, r.log); }
    }
  }

  lemma {:induction false} CarriersStop(tasks: seq<Task>, ok: nat -> bool, t: nat, wanted: Label, c: nat, n: nat,
                                        log: seq<nat>)
    requires t < |tasks| && c <= |tasks| && Good(tasks, ok, log)
    requires FirstCarrier(tasks, ok, wanted, c).Some? ==> Ending(tasks, ok, t, FirstCarrier(tasks, ok, wanted, c), n)
    ensures var r := Carriers(tasks, ok, t, wanted, c, log, |tasks| + 1 + n);
      r.Done? && (r.code == 0 ==> Good(tasks, ok, r.log) && FirstCarrier(tasks, ok, wanted, c).None?)
    decreases n, 0, |tasks| - c
  {
    hide Good, Clean, Stops, Depends;
    if c < |tasks| {
      if tasks[c].name != wanted {
        CarriersStop(tasks, ok, t, wanted, c + 1, n, log);
      } else {
        CalleeStops(tasks, ok, t, c, n, log);
        var r := Depends(tasks, ok, c, Some(t), log, |tasks| + 1 + n);
        if r.code == 0 { CarriersStop(tasks, ok, t, wanted, c + 1, n, r.log); }
      }
    }
  }

  lemma {:induction false} CalleeStops(tasks: seq<Task>, ok: nat -> bool, t: nat, c: nat, n: nat, log: seq<nat>)
    requires t < |tasks| && c < |tasks| && Good(tasks, ok, log)
    requires !Clean(tasks, ok, c) ==> c == t || (n > 0 && Stops(tasks, ok, c, n - 1))
    ensures var r := Depends(tasks, ok, c, Some(t), log, |tasks| + 1 + n);
      r.Done? && (r.code == 0 ==> Good(tasks, ok, r.log) && Clean(tasks, ok, c))
    decreases n, 0, 0
  {
    hide Good, Clean, Stops, Depends;
    var fuel := |tasks| + 1 + n;
    if c == t {
      RefusedCall(tasks, ok, t, log, fuel);
    } else if Clean(tasks, ok, c) {
      CleanSucceeds(tasks, ok, c, Some(t), log, fuel);
    } else {
      StoppingEnds(tasks, ok, c, n - 1, Some(t), log);
      if Depends(tasks, ok, c, Some(t), log, fuel).code == 0 { SuccessIsClean(tasks, ok, c, Some(t), log, fuel); }
    }
  }

  lemma RefusedCall(tasks: seq<Task>, ok: nat -> bool, t: nat, log: seq<nat>, fuel: nat)
    requires t < |tasks| && fuel > 0
    ensures Depends(tasks, ok, t, Some(t), log, fuel) == Done(1, log)
  {
  }

  lemma {:induction false} EndingStops(tasks: seq<Task>, ok: nat -> bool, t: nat, parent: Option<nat>, log: seq<nat>,
                                       fuel: nat)
    requires t < |tasks| && Good(tasks, ok, log) && parent != Some(t) && Depends(tasks, ok, t, parent, log, fuel).Done?
    ensures Stops(tasks, ok, t, fuel)
    decreases fuel, 0, 0
  {
    hide Good, Clean;
    SlotsReach(tasks, ok, t, 0, log, fuel - 1);
  }

  /** The loop over the slots comes to the first unclean task, and that call ends. */
  lemma {:induction false} SlotsReach(tasks: seq<Task>, ok: nat -> bool, t: nat, i: nat, log: seq<nat>, fuel: nat)
    requires t < |tasks| && Good(tasks, ok, log) && Slots(tasks, ok, t, i, log, fuel).Done?
    requires forall l :: l in Labels(tasks[t], i) ==> l in Labels(tasks[t], 0)
    ensures Ending(tasks, ok, t, FirstUnclean(tasks, ok, t, i), fuel + 1)
    decreases fuel, 2, MAX_CHILDREN - i
  {
    hide Good, Clean, Stops, Carriers, Depends;
    if i < MAX_CHILDREN && Entry(tasks[t], i) != "" {
      var wanted := Entry(tasks[t], i);
      assert wanted in Labels(tasks[t], i);
      CarriersReach(tasks, ok, t, wanted, 0, log, fuel);
      var r := Carriers(tasks, ok, t, wanted, 0, log, fuel);
      if FirstCarrier(tasks, ok, wanted, 0).None? { SlotsReach(tasks, ok, t, i + 1, r.log, fuel); }
    }
  }

  lemma {:induction false} CarriersReach(tasks: seq<Task>, ok: nat -> bool, t: nat, wanted: Label, c: nat,
                                         log: seq<nat>, fuel: nat)
    requires t < |tasks| && c <= |tasks| && Good(tasks, ok, log) && wanted in Labels(tasks[t], 0)
    requires Carriers(tasks, ok, t, wanted, c, log, fuel).Done?
    ensures FirstCarrier(tasks, ok, wanted, c).Some? ==>
      Ending(tasks, ok, t, FirstCarrier(tasks, ok, wanted, c), fuel + 1)
    ensures var r := Carriers(tasks, ok, t, wanted, c, log, fuel);
      FirstCarrier(tasks, ok, wanted, c).None? ==> r.code == 0 && Good(tasks, ok, r.log)
    decreases fuel, 1, |tasks| - c
  {
    hide Good, Clean, Stops, Depends;
    if c < |tasks| {
      if tasks[c].name != wanted {
        CarriersReach(tasks, ok, t, wanted, c + 1, log, fuel);
      } else if Clean(tasks, ok, c) {
        CleanCall(tasks, ok, c, t, log, fuel);
        CarriersReach(tasks, ok, t, wanted, c + 1, Depends(tasks, ok, c, Some(t), log, fuel).log, fuel);
      } else if c != t {
        EndingStops(tasks, ok, c, Some(t), log, fuel);
      }
    }
  }

  lemma SelfEdge(tasks: seq<Task>, t: nat)
    requires Edge(tasks, t, t)
    ensures SelfDependencyBelow(tasks, t)
  {
    ReachesSelf(tasks, t);
  }

  /** A clean dependency whose call ends returns 0. */
  lemma CleanCall(tasks: seq<Task>, ok: nat -> bool, c: nat, t: nat, log: seq<nat>, fuel: nat)
    requires c < |tasks| && Clean(tasks, ok, c) && Edge(tasks, t, c) && Good(tasks, ok, log)
    requires Depends(tasks, ok, c, Some(t), log, fuel).Done?
    ensures var r := Depends(tasks, ok, c, Some(t), log, fuel); r.code == 0 && Good(tasks, ok, r.log)
  {
    hide Depends, Good, Reaches, OnlySelfLoops, Labels;
    if c == t { SelfEdge(tasks, t); }
    DependsOutcome(tasks, ok, c, Some(t), log, fuel);
  }

  // ---- The walk needs no more steps than there are tasks ----------------------------------------------

  ghost function Stopping(tasks: seq<Task>, ok: nat -> bool, n: nat): set<nat> {
    set x | 0 <= x < |tasks| && Stops(tasks, ok, x, n)
  }

  lemma {:induction false} StopsMore(tasks: seq<Task>, ok: nat -> bool, t: nat, n: nat)
    requires t < |tasks| && Stops(tasks, ok, t, n)
    ensures Stops(tasks, ok, t, n + 1)
    decreases n
  {
    hide FirstUnclean;
    var c := FirstUnclean(tasks, ok, t, 0);
    if c.Some? && c.value != t { StopsMore(tasks, ok, c.value, n - 1); }
  }

  lemma {:induction false} StoppingSettles(tasks: seq<Task>, ok: nat -> bool, n: nat, m: nat)
    requires Stopping(tasks, ok, n + 1) <= Stopping(tasks, ok, n) && m >= n
    ensures Stopping(tasks, ok, m) <= Stopping(tasks, ok, n)
    decreases m
  {
    hide FirstUnclean;
    if m > n {
      StoppingSettles(tasks, ok, n, m - 1);
      forall x | x in Stopping(tasks, ok, m) ensures x in Stopping(tasks, ok, n) {
        var c := FirstUnclean(tasks, ok, x, 0);
        if c.Some? && c.value != x {
          assert c.value in Stopping(tasks, ok, m - 1);
          assert c.value in Stopping(tasks, ok, n);
          assert x in Stopping(tasks, ok, n + 1);
        }
      }
    }
  }

  /** After n steps either more than n tasks are known to stop, or no more steps will add any. */
  lemma {:induction false} StoppingGrows(tasks: seq<Task>, ok: nat -> bool, n: nat)
    ensures |Stopping(tasks, ok, n)| > n || Stopping(tasks, ok, n + 1) <= Stopping(tasks, ok, n)
  {
    hide FirstUnclean, Stops;
    var now, next := Stopping(tasks, ok, n), Stopping(tasks, ok, n + 1);
    if !(next <= now) {
      forall x | x in now ensures x in next { StopsMore(tasks, ok, x, n); }
      if n == 0 {
        var x :| x in next && x !in now;
        FirstStep(tasks, ok, x);
      } else {
        StoppingGrows(tasks, ok, n - 1);
        if next != now && Stopping(tasks, ok, n) <= Stopping(tasks, ok, n - 1) {
          StoppingSettles(tasks, ok, n - 1, n + 1);
          forall x | x in Stopping(tasks, ok, n - 1) ensures x in now { StopsMore(tasks, ok, x, n - 1); }
        } else {
          forall x | x in Stopping(tasks, ok, n - 1) ensures x in now { StopsMore(tasks, ok, x, n - 1); }
          StrictSubset(Stopping(tasks, ok, n - 1), now);
        }
      }
    }
  }

  lemma FirstStep(tasks: seq<Task>, ok: nat -> bool, x: nat)
    requires x < |tasks| && Stops(tasks, ok, x, 1) && !Stops(tasks, ok, x, 0)
    ensures |Stopping(tasks, ok, 0)| > 0
  {
    var c := FirstUnclean(tasks, ok, x, 0).value;
    assert c in Stopping(tasks, ok, 0);
  }

  lemma StrictSubset(a: set<nat>, b: set<nat>)
    requires a <= b && !(b <= a)
    ensures |a| < |b|
  {
    var x :| x in b && x !in a;
    SubsetSize(a + {x}, b);
  }

  /** As many steps as there are tasks decide whether the walk stops. */
  lemma StopsWithin(tasks: seq<Task>, ok: nat -> bool, t: nat, n: nat)
    requires t < |tasks| && Stops(tasks, ok, t, n)
    ensures Stops(tasks, ok, t, |tasks|)
  {
    hide FirstUnclean, Stops;
    SubsetSize(Stopping(tasks, ok, |tasks|), Numbers(|tasks|));
    StoppingGrows(tasks, ok, |tasks|);
    if n <= |tasks| {
      StopsUpTo(tasks, ok, t, n, |tasks|);
    } else {
      StoppingSettles(tasks, ok, |tasks|, n);
      assert t in Stopping(tasks, ok, n);
    }
  }

  lemma {:induction false} StopsUpTo(tasks: seq<Task>, ok: nat -> bool, t: nat, n: nat, m: nat)
    requires t < |tasks| && Stops(tasks, ok, t, n) && n <= m
    ensures Stops(tasks, ok, t, m)
    decreases m
  {
    hide Stops;
    if n < m {
      StopsUpTo(tasks, ok, t, n, m - 1);
      StopsMore(tasks, ok, t, m - 1);
    }
  }

  /** The recursion ends if and only if following, from the target, each task's first unclean
      dependency leads to a task that has none, or whose first one is itself. */
  lemma TerminatesExactly(tasks: seq<Task>, ok: nat -> bool, t: nat)
    requires t < |tasks|
    ensures (exists fuel :: Depends(tasks, ok, t, None, [], fuel).Done?) <==> Stops(tasks, ok, t, |tasks|)
  {
    hide Depends, Stops, FirstUnclean;
    assert Good(tasks, ok, []);
    if Stops(tasks, ok, t, |tasks|) { StoppingEnds(tasks, ok, t, |tasks|, None, []); }
    if fuel :| Depends(tasks, ok, t, None, [], fuel).Done? {
      EndingStops(tasks, ok, t, None, [], fuel);
      StopsWithin(tasks, ok, t, fuel);
    }
  }

  predicate Succeeds(r: Result) { r.Done? && r.code == 0 }

  /** The run succeeds if and only if the target is clean. */
  lemma SucceedsExactly(tasks: seq<Task>, ok: nat -> bool, t: nat)
    requires t < |tasks|
    ensures (exists fuel :: Succeeds(Depends(tasks, ok, t, None, [], fuel))) <==> Clean(tasks, ok, t)
  {
    hide Depends, Clean;
    assert Good(tasks, ok, []);
    if Clean(tasks, ok, t) { CleanSucceeds(tasks, ok, t, None, [], |tasks| + 1); }
    if fuel :| Succeeds(Depends(tasks, ok, t, None, [], fuel)) {
      SuccessIsClean(tasks, ok, t, None, [], fuel);
    }
  }

  /** Two tasks that depend on each other, the first also on itself: whether the run ends depends on
      which of the two dependencies comes first. */
  lemma OrderDecides(fuel: nat)
    ensures Depends([Task("a", ["b", "a"]), Task("b", ["a"])], (x: nat) => true, 0, None, [], fuel) == Endless
    ensures fuel >= 2 ==>
      Depends([Task("a", ["a", "b"]), Task("b", ["a"])], (x: nat) => true, 0, None, [], fuel) == Done(1, [])
  {
    CrossNeverEnds(["b", "a"], fuel);
    if fuel >= 2 { SelfFirst(fuel); }
  }

  lemma SelfFirst(fuel: nat)
    requires fuel >= 2
    ensures Depends([Task("a", ["a", "b"]), Task("b", ["a"])], (x: nat) => true, 0, None, [], fuel) == Done(1, [])
  {
    var tasks, ok := [Task("a", ["a", "b"]), Task("b", ["a"])], (x: nat) => true;
    RefusedCall(tasks, ok, 0, [], fuel - 1);
    assert Carriers(tasks, ok, 0, "a", 0, [], fuel - 1) == Done(1, []);
    assert Slots(tasks, ok, 0, 0, [], fuel - 1) == Done(1, []);
  }

  /** Tasks a and b depend on each other, a on b first. */
  lemma CrossNeverEnds(labels: seq<Label>, fuel: nat)
    requires |labels| > 0 && labels[0] == "b"
    ensures Depends([Task("a", labels), Task("b", ["a"])], (x: nat) => true, 0, None, [], fuel) == Endless
  {
    var tasks, ok := [Task("a", labels), Task("b", ["a"])], (x: nat) => true;
    CrossUnclean(tasks, ok);
    if Depends(tasks, ok, 0, None, [], fuel).Done? {
      assert Good(tasks, ok, []);
      EndingStops(tasks, ok, 0, None, [], fuel);
      CrossNeverStops(tasks, ok, 0, fuel);
    }
  }

  lemma CrossUnclean(tasks: seq<Task>, ok: nat -> bool)
    requires |tasks| == 2 && tasks[0].name == "a" && tasks[1] == Task("b", ["a"])
    requires |tasks[0].dependsOn| > 0 && tasks[0].dependsOn[0] == "b"
    ensures FirstUnclean(tasks, ok, 0, 0) == Some(1) && FirstUnclean(tasks, ok, 1, 0) == Some(0)
  {
    hide Reaches;
    assert "b" in Labels(tasks[0], 0) && "a" in Labels(tasks[1], 0);
    ReachesEdge(tasks, 0, 1);
    ReachesEdge(tasks, 1, 0);
    ReachesSelf(tasks, 0);
    ReachesSelf(tasks, 1);
    assert !Clean(tasks, ok, 0) && !Clean(tasks, ok, 1);
    assert FirstCarrier(tasks, ok, "b", 1) == Some(1) && FirstCarrier(tasks, ok, "b", 0) == Some(1);
    assert FirstCarrier(tasks, ok, "a", 0) == Some(0);
  }

  lemma {:induction false} CrossNeverStops(tasks: seq<Task>, ok: nat -> bool, t: nat, n: nat)
    requires |tasks| == 2 && t < 2 && FirstUnclean(tasks, ok, 0, 0) == Some(1)
    requires FirstUnclean(tasks, ok, 1, 0) == Some(0)
    ensures !Stops(tasks, ok, t, n)
    decreases n
  {
    hide FirstUnclean;
    if n > 0 { CrossNeverStops(tasks, ok, 1 - t, n - 1); }
  }

  /** Two tasks that depend on each other keep the recursion going whatever depth it is given. */
  lemma MutualDependencyNeverEnds(fuel: nat)
    ensures Depends([Task("a", ["b"]), Task("b", ["a"])], (x: nat) => true, 0, None, [], fuel) == Endless
  {
    CrossNeverEnds(["b"], fuel);
  }

  /** More depth never changes a finished result. */
  lemma {:induction false} FuelIrrelevant(tasks: seq<Task>, ok: nat -> bool, t: nat, parent: Option<nat>, log: seq<nat>,
                                          fuel: nat, more: nat)
    requires t < |tasks| && fuel <= more && Depends(tasks, ok, t, parent, log, fuel).Done?
    ensures Depends(tasks, ok, t, parent, log, more) == Depends(tasks, ok, t, parent, log, fuel)
    decreases fuel, 0, 0
  {
    if parent != Some(t) { SlotsFuel(tasks, ok, t, 0, log, fuel - 1, more - 1); }
  }

  lemma {:induction false} SlotsFuel(tasks: seq<Task>, ok: nat -> bool, t: nat, i: nat, log: seq<nat>, fuel: nat,
                                     more: nat)
    requires t < |tasks| && fuel <= more && Slots(tasks, ok, t, i, log, fuel).Done?
    ensures Slots(tasks, ok, t, i, log, more) == Slots(tasks, ok, t, i, log, fuel)
    decreases fuel, 2, MAX_CHILDREN - i
  {
    if i < MAX_CHILDREN && Entry(tasks[t], i) != "" {
      CarriersFuel(tasks, ok, t, Entry(tasks[t], i), 0, log, fuel, more);
      var r := Carriers(tasks, ok, t, Entry(tasks[t], i), 0, log, fuel);
      if r.code == 0 { SlotsFuel(tasks, ok, t, i + 1, r.log, fuel, more); }
    }
  }

  lemma {:induction false} CarriersFuel(tasks: seq<Task>, ok: nat -> bool, t: nat, wanted: Label, c: nat, log: seq<nat>,
                                        fuel: nat, more: nat)
    requires t < |tasks| && c <= |tasks| && fuel <= more && Carriers(tasks, ok, t, wanted, c, log, fuel).Done?
    ensures Carriers(tasks, ok, t, wanted, c, log, more) == Carriers(tasks, ok, t, wanted, c, log, fuel)
    decreases fuel, 1, |tasks| - c
  {
    if c < |tasks| {
      if tasks[c].name != wanted {
        CarriersFuel(tasks, ok, t, wanted, c + 1, log, fuel, more);
      } else {
        FuelIrrelevant(tasks, ok, c, Some(t), log, fuel, more);
        var r := Depends(tasks, ok, c, Some(t), log, fuel);
        if r.code == 0 { CarriersFuel(tasks, ok, t, wanted, c + 1, r.log, fuel, more); }
      }
    }
  }

  // ---- The program ----------------------------------------------------------------------------

  /** bld__dep_tree: the chain of callers. */
  datatype DepTree = Root | Node(current: nat, parent: DepTree)

  function Parent(p: DepTree): Option<nat> { if p.Node? then Some(p.current) else None }

  /** The first task with the label. */
  predicate IsFirst(tasks: seq<Task>, target: Label, t: nat) {
    t < |tasks| && tasks[t].name == target && forall u :: 0 <= u < t ==> tasks[u].name != target
  }

  class Builder {
    const tasks: seq<Task>
    const ok: nat -> bool
    const done: array<bool>
    var log: seq<nat>

    ghost predicate Valid()
      reads this, done
    {
      done.Length == |tasks| && (forall i :: 0 <= i < |log| ==> log[i] < |tasks|) &&
      forall i :: 0 <= i < |tasks| ==> (done[i] <==> i in log)
    }

    constructor (ts: seq<Task>, succeeds: nat -> bool)
      ensures Valid() && tasks == ts && ok == succeeds && log == [] && fresh(done)
    {
      tasks, ok, log := ts, succeeds, [];
      done := new bool[|ts|](i => false);
    }

    /** Run the command of task t unless it has been run. */
    method Execute(t: nat) returns (code: int)
      requires Valid() && t < |tasks|
      modifies this, done
      ensures Valid() && Done(code, log) == Exec(ok, t, old(log))
    {
      if done[t] { return 0; }
      done[t] := true;
      log := log + [t];
      if !ok(t) { return -1; }
      return 0;
    }

    /** The walk up the chain of callers compares the same caller every time. */
    method Refused(t: nat, p: DepTree) returns (refused: bool)
      ensures refused <==> Parent(p) == Some(t)
    {
      var tr := p;
      while tr.Node?
        decreases tr
        invariant tr == p || (p.Node? && p.current != t)
      {
        if p.current == t { return true; }
        tr := tr.parent;
      }
      return false;
    }

    /** Run what t depends on, then t. The ghost fuel bounds the recursion. */
    method RunDependencies(t: nat, p: DepTree, ghost fuel: nat) returns (code: int)
      requires Valid() && t < |tasks| && Depends(tasks, ok, t, Parent(p), log, fuel).Done?
      modifies this, done
      ensures Valid() && Done(code, log) == Depends(tasks, ok, t, Parent(p), old(log), fuel)
      decreases fuel
    {
      var refused := Refused(t, p);
      if refused { return 1; }
      ghost var all := Slots(tasks, ok, t, 0, log, fuel - 1);
      var i := 0;
      while i < MAX_CHILDREN
        invariant Valid() && 0 <= i <= MAX_CHILDREN
        invariant Slots(tasks, ok, t, i, log, fuel - 1) == all
      {
        var s := Entry(tasks[t], i);
        if s == "" { break; }
        var c := 0;
        ghost var row := Carriers(tasks, ok, t, s, 0, log, fuel - 1);
        while c < |tasks|
          invariant Valid() && 0 <= c <= |tasks|
          invariant Carriers(tasks, ok, t, s, c, log, fuel - 1) == row
        {
          if s == tasks[c].name {
            code := RunDependencies(c, Node(t, p), fuel - 1);
            if code != 0 { return; }
          }
          c := c + 1;
        }
        i := i + 1;
      }
      code := Execute(t);
    }

    /** Run the first task with the given label; -1 when there is none. */
    method Make(target: Label) returns (code: int)
      requires Valid() && log == []
      requires forall t :: IsFirst(tasks, target, t) ==> Stops(tasks, ok, t, |tasks|)
      modifies this, done
      ensures (forall t :: 0 <= t < |tasks| ==> tasks[t].name != target) ==> code == -1 && log == []
      ensures forall t :: IsFirst(tasks, target, t) ==>
        exists fuel :: Depends(tasks, ok, t, None, [], fuel) == Done(code, log)
    {
      var t := 0;
      while t < |tasks| && tasks[t].name != target
        invariant 0 <= t <= |tasks|
        invariant forall u :: 0 <= u < t ==> tasks[u].name != target
      {
        t := t + 1;
      }
      if t < |tasks| {
        TerminatesExactly(tasks, ok, t);
        ghost var fuel :| Depends(tasks, ok, t, None, [], fuel).Done?;
        code := RunDependencies(t, Root, fuel);
        assert Depends(tasks, ok, t, None, [], fuel) == Done(code, log);
      } else {
        code := -1;
      }
    }
  }
}
