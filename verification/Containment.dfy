/** Containment: neutralise persistence, then freeze, capture and kill, then quarantine
    files behind a health gate, with roll-back. Here are the findings, the files and the
    log of a run, and what keeps a log safe. */
module Containment {
  import opened Common

  // ---------------------------------------------------------------------
  // Findings, and which of them may be acted on
  // ---------------------------------------------------------------------

  type Path = seq<string>     // the components of a slash-separated path

  datatype Confidence = Confirmed | Likely | Review

  datatype Finding = Finding(rule: string, confidence: Confidence, path: Path, line: int,
                             pid: int, comm: string, actionable: bool, digest: string)

  const PROTECTED: seq<string> := [
    "systemd", "init", "sshd", "php-fpm", "nginx", "apache2", "httpd", "mysqld", "mariadbd", "lsphp",
    "litespeed", "dbus", "cron", "crond", "rsyslog", "docker", "containerd", "kthreadd"]

  const LAUNCHERS: seq<string> := [
    "osp.cron_persistence", "osp.shellrc_persistence", "osp.systemd_user_unit", "osp.git_hook"]

  function Lower(s: string): string {
    seq(|s|, i requires 0 <= i < |s| => if 'A' <= s[i] <= 'Z' then s[i] + (32 as char) else s[i])
  }

  predicate HasProtectedName(comm: string) {
    exists k :: 0 <= k < |PROTECTED| && PROTECTED[k] <= Lower(comm)
  }

  predicate IsProcTarget(f: Finding) { f.confidence == Confirmed && f.pid > 0 }

  predicate IsFileTarget(f: Finding) { f.confidence == Confirmed && f.pid <= 0 && f.actionable && f.path != [] }

  predicate IsLauncher(f: Finding) { f.rule in LAUNCHERS && f.confidence != Review }

  function Filter(fs: seq<Finding>, p: Finding -> bool): seq<Finding> {
    if fs == [] then [] else (if p(fs[0]) then [fs[0]] else []) + Filter(fs[1..], p)
  }

  lemma {:induction false} FilterMore(fs: seq<Finding>, f: Finding, p: Finding -> bool)
    ensures Filter(fs + [f], p) == Filter(fs, p) + (if p(f) then [f] else [])
  {
    if fs == [] {
      assert fs + [f] == [f];
    } else {
      assert (fs + [f])[1..] == fs[1..] + [f] && (fs + [f])[0] == fs[0];
      FilterMore(fs[1..], f, p);
      var head, tail, last := if p(fs[0]) then [fs[0]] else [], Filter(fs[1..], p), if p(f) then [f] else [];
      assert head + (tail + last) == (head + tail) + last;
    }
  }

  lemma {:induction false} FilterHolds(fs: seq<Finding>, p: Finding -> bool)
    ensures forall f :: f in Filter(fs, p) <==> f in fs && p(f)
  {
    if fs != [] {
      FilterHolds(fs[1..], p);
    }
  }

  method SelectTargets(findings: seq<Finding>) returns (procs: seq<Finding>, files: seq<Finding>)
    ensures procs == Filter(findings, IsProcTarget) && files == Filter(findings, IsFileTarget)
  {
    procs, files := [], [];
    for i := 0 to |findings|
      invariant procs == Filter(findings[..i], IsProcTarget) && files == Filter(findings[..i], IsFileTarget)
    {
      var f := findings[i];
      assert findings[..i + 1] == findings[..i] + [f];
      FilterMore(findings[..i], f, IsProcTarget);
      FilterMore(findings[..i], f, IsFileTarget);
      if f.confidence != Confirmed { continue; }
      if f.pid > 0 {
        procs := procs + [f];
        continue;
      }
      if f.actionable && f.path != [] {
        files := files + [f];
      }
    }
    assert findings[..|findings|] == findings;
  }

  method PersistenceTargets(findings: seq<Finding>) returns (out: seq<Finding>)
    ensures out == Filter(findings, IsLauncher)
  {
    out := [];
    for i := 0 to |findings|
      invariant out == Filter(findings[..i], IsLauncher)
    {
      var f := findings[i];
      assert findings[..i + 1] == findings[..i] + [f];
      FilterMore(findings[..i], f, IsLauncher);
      if f.rule in LAUNCHERS && (f.confidence == Confirmed || f.confidence == Likely) {
        out := out + [f];
      }
    }
    assert findings[..|findings|] == findings;
  }

  // ---------------------------------------------------------------------
  // Files
  // ---------------------------------------------------------------------

  type Content = seq<string>  // the lines of a file

  datatype Loc =
    | Site(path: Path)        // below the web root
    | Held(path: Path)        // below the evidence directory's quarantine
    | Launcher(path: Path)    // a crontab, rc file, unit or hook
    | Backup(path: Path)
    | Stub                    // the one-shot cache-flush script

  type Files = map<Loc, Content>

  // A file with one line commented out.
  function Commented(lines: Content, line: int, stamp: string): Content
    requires 0 < line <= |lines|
  {
    lines[line - 1 := "# wordeye-contained " + stamp + " # " + lines[line - 1]]
  }

  const META_SUFFIX := ".wordeye.json"
  const CUSTODY: Content := ["custody record"]

  function AfterColon(part: string): string {
    if exists i :: 0 <= i < |part| && part[i] == ':' then part[FirstColon(part) + 1..] else part
  }

  function FirstColon(part: string): (i: nat)
    requires exists i :: 0 <= i < |part| && part[i] == ':'
    ensures i < |part| && part[i] == ':'
  {
    if part[0] == ':' then 0 else
      assert exists i :: 0 <= i < |part[1..]| && part[1..][i] == ':' by {
        var i :| 0 <= i < |part| && part[i] == ':';
        assert part[1..][i - 1] == ':';
      }
      1 + FirstColon(part[1..])
  }

  function KeptParts(p: Path): Path {
    if p == [] then [] else
      var part := AfterColon(p[0]);
      (if p[0] in {"", ".", ".."} || part == "" then [] else [part]) + KeptParts(p[1..])
  }

  // The library's join: a part ".." takes back the one before it.
  function Joined(parts: Path, done: Path): Path
    decreases |parts|
  {
    if parts == [] then done
    else if parts[0] == "." then Joined(parts[1..], done)
    else if parts[0] == ".." && done != [] && done[|done| - 1] != ".." then Joined(parts[1..], done[..|done| - 1])
    else Joined(parts[1..], done + [parts[0]])
  }

  // Where in the evidence store a finding's path is put.
  function SafeRelPath(p: Path): (q: Path)
    ensures q != []
  {
    if KeptParts(p) == [] then ["unnamed"]
    else if Joined(KeptParts(p), []) == [] then ["."]
    else Joined(KeptParts(p), [])
  }

  // The chain-of-custody file beside a quarantined file.
  function MetaPath(p: Path): Path
    requires p != []
  {
    p[..|p| - 1] + [p[|p| - 1] + META_SUFFIX]
  }

  // ---------------------------------------------------------------------
  // The log of a run
  // ---------------------------------------------------------------------

  datatype Target = OnLauncher(path: Path, line: int) | OnProcess(pid: int) | OnFile(path: Path)

  datatype Event =
    | SetupFailed
    | Probe(serving: bool)
    | NoGate
    | NothingToDo
    | Breaker
    | Neutralize(launcher: Path, line: int, ok: bool)
    | Refused(pid: int)
    | Stop(pid: int, ok: bool)
    | Capture(pid: int, ok: bool)
    | Kill(pid: int, ok: bool)
    | Respawn(pid: int, seen: bool)
    | Skipped(path: Path)                     // missing, changed, or no room to put it
    | Quarantine(path: Path, ok: bool)
    | Restore(path: Path, ok: bool)
    | RolledBack(path: Path, error: bool)
    | Flush
    | Planned(target: Option<Target>)         // a dry run's description of a step

  // action numbers the target being worked on; 0 is before and after all targets.
  datatype Entry = Entry(action: nat, what: Event)

  type Log = seq<Entry>

  predicate IsEffect(e: Event) {
    e.Neutralize? || e.Stop? || e.Capture? || e.Kill? || e.Quarantine? || e.Restore? || e.Flush?
  }

  function TargetOf(e: Event): Option<Target> {
    match e
    case Neutralize(p, l, _) => Some(OnLauncher(p, l))
    case Stop(pid, _) => Some(OnProcess(pid))
    case Capture(pid, _) => Some(OnProcess(pid))
    case Kill(pid, _) => Some(OnProcess(pid))
    case Quarantine(p, _) => Some(OnFile(p))
    case Restore(p, _) => Some(OnFile(p))
    case _ => None
  }

  // 1 persistence, 2 processes, 3 files.
  function Stage(e: Event): nat {
    if e.Neutralize? then 1
    else if e.Stop? || e.Capture? || e.Kill? then 2
    else if e.Quarantine? || e.Restore? then 3
    else 0
  }

  datatype Config = Config(dry: bool, maxActions: int, findings: seq<Finding>, self: int, parent: int)

  // The limit in force: a limit that is not positive means 25.
  function Limit(c: Config): nat {
    if c.maxActions <= 0 then 25 else c.maxActions
  }

  predicate MaySignal(c: Config, pid: int, comm: string) {
    pid > 1 && pid != c.self && pid != c.parent && !HasProtectedName(comm)
  }

  // --- what every log satisfies --------------------------------------

  // Before position k, pid was stopped for certain and then a capture was tried.
  ghost predicate FrozenBefore(log: Log, k: int, pid: int) {
    exists i, j :: 0 <= i < j < k && k <= |log| && log[i].what == Stop(pid, true) && IsCaptureOf(log[j].what, pid)
  }

  predicate IsCaptureOf(e: Event, pid: int) {
    e.Capture? && e.pid == pid
  }

  ghost predicate SignalAllowed(c: Config, pid: int) {
    exists f :: f in c.findings && IsProcTarget(f) && f.pid == pid && MaySignal(c, f.pid, f.comm)
  }

  ghost predicate FileConfirmed(c: Config, path: Path) {
    exists f :: f in c.findings && IsFileTarget(f) && f.path == path
  }

  ghost predicate LauncherFound(c: Config, path: Path, line: int) {
    exists f :: f in c.findings && IsLauncher(f) && f.path == path && f.line == line
  }

  // A kill comes after a successful stop and a capture attempt of the same process.
  ghost predicate KillsAreFrozen(log: Log) {
    forall k :: 0 <= k < |log| && log[k].what.Kill? ==> FrozenBefore(log, k, log[k].what.pid)
  }

  // Signals go to confirmed process findings outside the never-touch list.
  ghost predicate SignalsAreAllowed(log: Log, c: Config) {
    forall k :: 0 <= k < |log| && (log[k].what.Stop? || log[k].what.Kill?) ==> SignalAllowed(c, log[k].what.pid)
  }

  // Only confirmed, actionable findings are quarantined.
  ghost predicate FilesAreConfirmed(log: Log, c: Config) {
    forall k :: 0 <= k < |log| && (log[k].what.Quarantine? || log[k].what.Restore?) ==>
                  FileConfirmed(c, log[k].what.path)
  }

  // Only the recorded lines of launcher findings are commented out.
  ghost predicate LaunchersAreFound(log: Log, c: Config) {
    forall k :: 0 <= k < |log| && log[k].what.Neutralize? ==> LauncherFound(c, log[k].what.launcher, log[k].what.line)
  }

  // Persistence before signals before files.
  ghost predicate StagesInOrder(log: Log) {
    forall i, j :: 0 <= i < j < |log| && Stage(log[j].what) != 0 ==> Stage(log[i].what) <= Stage(log[j].what)
  }

  ghost predicate StagesUpTo(log: Log, stage: nat) {
    StagesInOrder(log) && forall k :: 0 <= k < |log| ==> Stage(log[k].what) <= stage
  }

  // Under action number a nothing but t was touched.
  ghost predicate OnlyTouched(log: Log, a: nat, t: Option<Target>) {
    forall k :: 0 <= k < |log| && log[k].action == a ==> TargetOf(log[k].what) in {None, t}
  }

  // Every effect on a target carries an action number within the limit, and an
  // action number stands for one target: so at most Limit(c) targets are touched.
  ghost predicate ActionsAreBounded(log: Log, c: Config, actions: nat) {
    && actions <= Limit(c)
    && (forall k :: 0 <= k < |log| ==> log[k].action <= actions && (TargetOf(log[k].what).Some? ==> 0 < log[k].action))
    && (forall k :: 0 <= k < |log| && TargetOf(log[k].what).Some? ==>
          OnlyTouched(log, log[k].action, TargetOf(log[k].what)))
  }

  ghost predicate DryIsHarmless(log: Log, c: Config) {
    c.dry ==> forall k :: 0 <= k < |log| ==> !IsEffect(log[k].what)
  }

  ghost predicate Safe(log: Log, c: Config, actions: nat, stage: nat) {
    && KillsAreFrozen(log) && SignalsAreAllowed(log, c) && FilesAreConfirmed(log, c) && LaunchersAreFound(log, c)
    && StagesUpTo(log, stage) && ActionsAreBounded(log, c, actions) && DryIsHarmless(log, c)
  }

  // What must hold of an event for it to be appended.
  ghost predicate MayAppend(log: Log, c: Config, actions: nat, stage: nat, e: Event) {
    && (e.Kill? ==> FrozenBefore(log, |log|, e.pid))
    && (e.Stop? || e.Kill? ==> SignalAllowed(c, e.pid))
    && (e.Quarantine? || e.Restore? ==> FileConfirmed(c, e.path))
    && (e.Neutralize? ==> LauncherFound(c, e.launcher, e.line))
    && (Stage(e) == 0 || Stage(e) == stage)
    && (TargetOf(e).Some? ==> 0 < actions && OnlyTouched(log, actions, TargetOf(e)))
    && (c.dry ==> !IsEffect(e))
  }

  lemma AppendIsSafe(log: Log, c: Config, actions: nat, stage: nat, e: Event)
    requires Safe(log, c, actions, stage) && MayAppend(log, c, actions, stage, e)
    ensures Safe(log + [Entry(actions, e)], c, actions, stage)
  {
    var log' := log + [Entry(actions, e)];
    forall k | 0 <= k < |log'| && log'[k].what.Kill?
      ensures FrozenBefore(log', k, log'[k].what.pid)
    {
      FrozenStays(log, Entry(actions, e), k, log'[k].what.pid);
    }
    AppendActions(log, c, actions, e);
    AppendStage(log, stage, actions, e);
  }

  lemma FrozenStays(log: Log, entry: Entry, k: int, pid: int)
    requires FrozenBefore(log, k, pid)
    ensures FrozenBefore(log + [entry], k, pid)
  {
    var i, j :| 0 <= i < j < k && k <= |log| && log[i].what == Stop(pid, true) && IsCaptureOf(log[j].what, pid);
    assert (log + [entry])[i] == log[i] && (log + [entry])[j] == log[j];
  }

  lemma AppendStage(log: Log, stage: nat, actions: nat, e: Event)
    requires StagesUpTo(log, stage) && (Stage(e) == 0 || Stage(e) == stage)
    ensures StagesUpTo(log + [Entry(actions, e)], stage)
  {
  }

  lemma AppendActions(log: Log, c: Config, actions: nat, e: Event)
    requires ActionsAreBounded(log, c, actions)
    requires TargetOf(e).Some? ==> 0 < actions && OnlyTouched(log, actions, TargetOf(e))
    ensures ActionsAreBounded(log + [Entry(actions, e)], c, actions)
  {
    var log' := log + [Entry(actions, e)];
    forall k | 0 <= k < |log'| && TargetOf(log'[k].what).Some?
      ensures OnlyTouched(log', log'[k].action, TargetOf(log'[k].what))
    {
      if k < |log| {
        assert OnlyTouched(log, log[k].action, TargetOf(log[k].what));
        if log[k].action == actions && TargetOf(e).Some? {
          assert TargetOf(log[k].what) in {None, TargetOf(e)};
        }
      }
    }
  }

  lemma RaiseStage(log: Log, c: Config, actions: nat, stage: nat)
    requires Safe(log, c, actions, stage)
    ensures Safe(log, c, actions, stage + 1)
  {
  }

  // Some predicates are closed, each kind by a mention of its own that brings it up.
  datatype Kind = OfPlan | OfWork | OfFiles | OfGate

  ghost predicate Shown(kind: Kind, n: int) {
    true
  }

  function Paths(fs: seq<Finding>): (ps: seq<Path>)
    ensures |ps| == |fs| && forall i :: 0 <= i < |fs| ==> ps[i] == fs[i].path
  {
    seq(|fs|, i requires 0 <= i < |fs| => fs[i].path)
  }
}
