/** How a run goes: what it gets done, in which order, and behind which gate. */
module ContainmentRuns {
  import opened Common
  import opened Containment

  // --- what every run gets done ---------------------------------------

  function LauncherOf(f: Finding): Target { OnLauncher(f.path, f.line) }

  function ProcessOf(f: Finding): Target { OnProcess(f.pid) }

  function FileOf(f: Finding): Target { OnFile(f.path) }

  function OnEach(fs: seq<Finding>, on: Finding -> Target): (ts: seq<Target>)
    ensures |ts| == |fs| && forall i :: 0 <= i < |fs| ==> ts[i] == on(fs[i])
  {
    seq(|fs|, i requires 0 <= i < |fs| => on(fs[i]))
  }

  // A run's targets, and the order in which it takes them.
  datatype Plan = Plan(launchers: seq<Finding>, procs: seq<Finding>, files: seq<Finding>) {
    function Order(): seq<Target> {
      OnEach(launchers, LauncherOf) + OnEach(procs, ProcessOf) + OnEach(files, FileOf)
    }
  }

  function PlanOf(c: Config): Plan {
    Plan(Filter(c.findings, IsLauncher), Filter(c.findings, IsProcTarget), Filter(c.findings, IsFileTarget))
  }

  // The entry at k begins the work on target t. A process that could be stopped is
  // captured and killed next.
  ghost predicate WorkAt(log: Log, dry: bool, k: nat, t: Target)
    requires k < |log|
  {
    var e := log[k].what;
    match t
    case OnLauncher(p, line) =>
      if dry then e == Planned(Some(t)) else e.Neutralize? && e.launcher == p && e.line == line
    case OnProcess(pid) => e == Refused(pid) || if dry then e == Planned(Some(t)) else StopsAt(log, k, pid)
    case OnFile(p) => if dry then e == Planned(Some(t)) else (e.Skipped? || e.Quarantine?) && e.path == p
  }

  ghost predicate StopsAt(log: Log, k: nat, pid: int)
    requires k < |log|
  {
    || log[k].what == Stop(pid, false)
    || (&& log[k].what == Stop(pid, true)
        && k + 2 < |log| && log[k + 1].what.Capture? && log[k + 1].what.pid == pid
        && log[k + 2].what.Kill? && log[k + 2].what.pid == pid)
  }

  ghost predicate Worked(log: Log, dry: bool, action: nat, t: Target) {
    exists k :: 0 <= k < |log| && log[k].action == action && WorkAt(log, dry, k, t)
  }

  // Action number a + 1 is the work on target number a, for the first n; closed.
  ghost predicate Taken(log: Log, dry: bool, ts: seq<Target>, n: nat)
    requires n <= |ts|
  {
    forall m {:trigger Shown(OfWork, m)} :: Shown(OfWork, m) ==>
      forall a :: 0 <= a < n ==> Worked(log, dry, a + 1, ts[a])
  }

  lemma TakenStays(log: Log, log': Log, dry: bool, ts: seq<Target>, n: nat)
    requires n <= |ts| && Taken(log, dry, ts, n) && log <= log'
    ensures Taken(log', dry, ts, n)
  {
    assert Shown(OfWork, 0);
    forall a | 0 <= a < n
      ensures Worked(log', dry, a + 1, ts[a])
    {
      assert Worked(log, dry, a + 1, ts[a]);
      var k :| 0 <= k < |log| && log[k].action == a + 1 && WorkAt(log, dry, k, ts[a]);
      assert log'[k].action == a + 1 && WorkAt(log', dry, k, ts[a]);
    }
  }

  lemma NoneTaken(log: Log, dry: bool, ts: seq<Target>)
    ensures Taken(log, dry, ts, 0)
  {
  }

  lemma TakenMore(log: Log, log': Log, dry: bool, ts: seq<Target>, n: nat)
    requires n < |ts| && Taken(log, dry, ts, n) && log < log'
    requires log'[|log|].action == n + 1 && WorkAt(log', dry, |log|, ts[n])
    ensures Taken(log', dry, ts, n + 1)
  {
    TakenStays(log, log', dry, ts, n);
    assert Shown(OfWork, 0) && Worked(log', dry, n + 1, ts[n]);
  }

  // The run ended because the limit was reached, or because the site no longer served
  // without a file and the file was put back.
  ghost predicate CutShort(log: Log, c: Config, actions: nat) {
    || (log != [] && log[|log| - 1].what == Breaker && actions == Limit(c))
    || (|log| >= 4 && RollsBackAt(log, |log| - 4))
  }

  ghost predicate RollsBackAt(log: Log, k: nat)
    requires k + 3 < |log|
  {
    && log[k].what.Quarantine? && log[k].what.ok
    && log[k + 1].what == Probe(false)
    && log[k + 2].what.Restore? && log[k + 2].what.path == log[k].what.path
    && log[k + 3].what == RolledBack(log[k].what.path, !log[k + 2].what.ok)
  }

  // There is nothing to contain, or nowhere to put the evidence.
  ghost predicate NeverBegan(log: Log, plan: Plan) {
    && log != []
    && (|| log[|log| - 1].what == SetupFailed
        || (log[|log| - 1].what == NothingToDo && plan.procs == [] && plan.files == []))
  }

  // The last file target is followed by the flush, and everything by a probe.
  ghost predicate Closed(log: Log, dry: bool, flush: bool) {
    && log != [] && log[|log| - 1].what.Probe?
    && (flush ==> |log| >= 2 && log[|log| - 2].what == if dry then Planned(None) else Flush)
  }

  // A run takes its targets one after the other, and all of them unless it is cut short
  // or never begins.
  ghost predicate Finished(log: Log, c: Config, plan: Plan, actions: nat) {
    && actions <= |plan.Order()| && Taken(log, c.dry, plan.Order(), actions)
    && (|| CutShort(log, c, actions)
        || (actions == 0 && NeverBegan(log, plan))
        || (actions == |plan.Order()| && Closed(log, c.dry, plan.files != [])))
  }

  ghost predicate Killed(log: Log, pid: int) {
    exists k :: 0 <= k < |log| && log[k].what == Kill(pid, true)
  }

  lemma KilledStays(log: Log, log': Log, pid: int)
    requires Killed(log, pid) && log <= log'
    ensures Killed(log', pid)
  {
    var k :| 0 <= k < |log| && log[k].what == Kill(pid, true);
    assert log'[k].what == Kill(pid, true);
  }

  // The first n, as far as they may be signalled.
  ghost predicate AllKilled(log: Log, c: Config, procs: seq<Finding>, n: nat)
    requires n <= |procs|
  {
    forall i :: 0 <= i < n && MaySignal(c, procs[i].pid, procs[i].comm) ==> Killed(log, procs[i].pid)
  }

  lemma AllKilledStays(log: Log, log': Log, c: Config, procs: seq<Finding>, n: nat)
    requires n <= |procs| && AllKilled(log, c, procs, n) && log <= log'
    ensures AllKilled(log', c, procs, n)
  {
    forall i | 0 <= i < n && MaySignal(c, procs[i].pid, procs[i].comm)
      ensures Killed(log', procs[i].pid)
    {
      KilledStays(log, log', procs[i].pid);
    }
  }

  // The plan of a run with its order and its files' paths, closed.
  ghost predicate Set(c: Config, plan: Plan, order: seq<Target>, paths: seq<Path>) {
    forall n {:trigger Shown(OfPlan, n)} :: Shown(OfPlan, n) ==>
      plan == PlanOf(c) && order == plan.Order() && paths == Paths(plan.files)
  }

  lemma SetOut(c: Config) returns (plan: Plan, order: seq<Target>, paths: seq<Path>)
    ensures Set(c, plan, order, paths)
  {
    plan := PlanOf(c);
    order, paths := plan.Order(), Paths(plan.files);
  }

  lemma SetSizes(c: Config, plan: Plan, order: seq<Target>, paths: seq<Path>)
    requires Set(c, plan, order, paths)
    ensures |order| == |plan.launchers| + |plan.procs| + |plan.files| && |paths| == |plan.files|
  {
    assert Shown(OfPlan, 0);
  }

  lemma LauncherIsSet(c: Config, plan: Plan, order: seq<Target>, paths: seq<Path>, i: nat)
    requires Set(c, plan, order, paths) && i < |plan.launchers| <= |order|
    ensures var f := plan.launchers[i]; LauncherFound(c, f.path, f.line) && order[i] == OnLauncher(f.path, f.line)
  {
    assert Shown(OfPlan, 0);
    FilterHolds(c.findings, IsLauncher);
  }

  lemma ProcessIsSet(c: Config, plan: Plan, order: seq<Target>, paths: seq<Path>, i: nat)
    requires Set(c, plan, order, paths) && i < |plan.procs| && |plan.launchers| + |plan.procs| <= |order|
    ensures var f := plan.procs[i];
            f in c.findings && IsProcTarget(f) && order[|plan.launchers| + i] == OnProcess(f.pid)
  {
    assert Shown(OfPlan, 0);
    FilterHolds(c.findings, IsProcTarget);
  }

  lemma FileIsSet(c: Config, plan: Plan, order: seq<Target>, paths: seq<Path>, i: nat)
    requires Set(c, plan, order, paths) && i < |plan.files| == |paths|
    requires |plan.launchers| + |plan.procs| + |plan.files| == |order|
    ensures var f := plan.files[i];
            && FileConfirmed(c, f.path) && f.path != [] && paths[i] == f.path
            && order[|plan.launchers| + |plan.procs| + i] == OnFile(f.path)
  {
    assert Shown(OfPlan, 0);
    FilterHolds(c.findings, IsFileTarget);
  }

  // --- the health gate -------------------------------------------------

  // A quarantined file is probed at once.  If the site no longer serves, the
  // file is put back, a failure to do so is recorded, and the run is over.
  ghost predicate GateKept(log: Log) {
    forall k :: 0 <= k < |log| && log[k].what.Quarantine? && log[k].what.ok ==> GateAt(log, k)
  }

  ghost predicate GateAt(log: Log, k: int)
    requires 0 <= k < |log| && log[k].what.Quarantine?
  {
    && k + 1 < |log| && log[k + 1].what.Probe?
    && (log[k + 1].what.serving || (
        && k + 4 == |log|
        && log[k + 2].what.Restore? && log[k + 2].what.path == log[k].what.path
        && log[k + 3].what == RolledBack(log[k].what.path, !log[k + 2].what.ok)))
  }

  // The same, closed.
  ghost predicate GateDone(log: Log) {
    forall n {:trigger Shown(OfGate, n)} :: Shown(OfGate, n) ==> GateKept(log)
  }

  // Every quarantine so far was followed by a serving probe.
  ghost predicate GateOpen(log: Log) {
    forall n {:trigger Shown(OfGate, n)} :: Shown(OfGate, n) ==>
      forall k :: 0 <= k < |log| && log[k].what.Quarantine? && log[k].what.ok ==>
        k + 1 < |log| && log[k + 1].what == Probe(true)
  }

  lemma GateOpenMore(log: Log, entry: Entry)
    requires GateOpen(log) && !(entry.what.Quarantine? && entry.what.ok)
    ensures GateOpen(log + [entry])
  {
    assert Shown(OfGate, 0);
  }

  lemma GateOpenServing(log: Log, q: Entry, p: Entry)
    requires GateOpen(log) && p.what == Probe(true)
    ensures GateOpen(log + [q, p])
  {
    assert Shown(OfGate, 0);
  }

  lemma GateOpenKept(log: Log)
    requires GateOpen(log)
    ensures GateDone(log)
  {
    assert Shown(OfGate, 0);
  }

  lemma RollBackKept(log: Log, q: Entry, p: Entry, r: Entry, v: Entry)
    requires GateOpen(log) && q.what.Quarantine? && p.what == Probe(false)
    requires r.what.Restore? && r.what.path == q.what.path
    requires v.what == RolledBack(q.what.path, !r.what.ok)
    ensures GateDone(log + [q, p, r, v])
  {
    assert Shown(OfGate, 0);
    var all := log + [q, p, r, v];
    forall k | 0 <= k < |all| && all[k].what.Quarantine? && all[k].what.ok
      ensures GateAt(all, k)
    {
      assert k <= |log|;
    }
  }

  lemma GateOpenNoFiles(log: Log, log': Log)
    requires log <= log' && GateOpen(log) && NoFileEvents(log', |log|)
    ensures GateOpen(log')
  {
    assert Shown(OfGate, 0);
    forall k | 0 <= k < |log'| && log'[k].what.Quarantine? && log'[k].what.ok
      ensures k + 1 < |log'| && log'[k + 1].what == Probe(true)
    {
      assert log'[k] == log[k] && log'[k + 1] == log[k + 1];
    }
  }

  ghost predicate NoFileEvents(log: Log, from: nat) {
    forall k :: from <= k < |log| ==> !log[k].what.Quarantine?
  }
}
