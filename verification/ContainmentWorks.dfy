/** What the safety of a run, and its getting done, come to for each finding. */
module ContainmentWorks {
  import opened Common
  import opened Containment
  import opened ContainmentFiles
  import opened ContainmentRuns
  import opened ContainmentEngine
  import opened ContainmentLaws

  // ---------------------------------------------------------------------
  // Who is touched, and who is not
  // ---------------------------------------------------------------------

  // x is the letter y of a name in lower case, in either case.
  predicate IsLetter(x: char, y: char) {
    x == y || ('A' <= x <= 'Z' && x as int + 32 == y as int)
  }

  predicate StartsWithName(comm: string, name: string) {
    |name| <= |comm| && forall i :: 0 <= i < |name| ==> IsLetter(comm[i], name[i])
  }

  /** A process may be signalled exactly if it is neither init nor the agent nor its parent, and
      its name does not start, in whatever case, with one of the protected names. */
  lemma NeverTouched(c: Config, pid: int, comm: string)
    ensures MaySignal(c, pid, comm) <==>
      && pid > 1 && pid != c.self && pid != c.parent
      && forall k :: 0 <= k < |PROTECTED| ==> !StartsWithName(comm, PROTECTED[k])
  {
    forall k | 0 <= k < |PROTECTED|
      ensures PROTECTED[k] <= Lower(comm) <==> StartsWithName(comm, PROTECTED[k])
    {
      NamesAreLower(k);
      LowerIsLetter(comm, PROTECTED[k]);
    }
  }

  lemma NamesAreLower(k: nat)
    requires k < |PROTECTED|
    ensures forall i :: 0 <= i < |PROTECTED[k]| ==> !('A' <= PROTECTED[k][i] <= 'Z')
  {
  }

  lemma LowerIsLetter(comm: string, name: string)
    requires forall i :: 0 <= i < |name| ==> !('A' <= name[i] <= 'Z')
    ensures name <= Lower(comm) <==> StartsWithName(comm, name)
  {
    if StartsWithName(comm, name) {
      assert forall i :: 0 <= i < |name| ==> Lower(comm)[i] == name[i];
    }
    if name <= Lower(comm) {
      forall i | 0 <= i < |name|
        ensures IsLetter(comm[i], name[i])
      {
        assert Lower(comm)[i] == name[i];
      }
    }
  }

  predicate HasLauncherRule(f: Finding) {
    f.rule in {"osp.cron_persistence", "osp.shellrc_persistence", "osp.systemd_user_unit", "osp.git_hook"}
  }

  ghost predicate SignalHasACause(c: Config, pid: int) {
    exists f :: f in c.findings && f.confidence == Confirmed && f.pid == pid && MaySignal(c, pid, f.comm)
  }

  ghost predicate MoveHasACause(c: Config, path: Path) {
    exists f :: f in c.findings && f.confidence == Confirmed && f.actionable && f.path == path && f.pid <= 0
  }

  ghost predicate RewriteHasACause(c: Config, path: Path, line: int) {
    exists f :: f in c.findings && f.confidence in {Confirmed, Likely} && HasLauncherRule(f)
                && f.path == path && f.line == line
  }

  /** In a safe log signals and moves go back to confirmed findings, and rewritten launchers to
      confirmed or likely ones of the four launcher rules. */
  lemma TouchedWasFound(log: Log, c: Config, actions: nat, stage: nat, k: nat)
    requires Safe(log, c, actions, stage) && k < |log|
    ensures var e := log[k].what;
            && (e.Stop? || e.Kill? ==> SignalHasACause(c, e.pid))
            && (e.Quarantine? || e.Restore? ==> MoveHasACause(c, e.path))
            && (e.Neutralize? ==> RewriteHasACause(c, e.launcher, e.line))
  {
    var e := log[k].what;
    if e.Stop? || e.Kill? {
      var f :| f in c.findings && IsProcTarget(f) && f.pid == e.pid && MaySignal(c, f.pid, f.comm);
      assert SignalHasACause(c, e.pid);
    } else if e.Quarantine? || e.Restore? {
      var f :| f in c.findings && IsFileTarget(f) && f.path == e.path;
      assert MoveHasACause(c, e.path);
    } else if e.Neutralize? {
      var f :| f in c.findings && IsLauncher(f) && f.path == e.launcher && f.line == e.line;
      LauncherRules(f);
      assert RewriteHasACause(c, e.launcher, e.line);
    }
  }

  lemma LauncherRules(f: Finding)
    ensures IsLauncher(f) <==>
      f.confidence in {Confirmed, Likely} && HasLauncherRule(f)
  {
  }

  // ---------------------------------------------------------------------
  // Every finding that calls for it is seen to
  // ---------------------------------------------------------------------

  // The log holds a step on the launcher line, a plan of one in a dry run.
  ghost predicate LauncherSeenTo(log: Log, dry: bool, path: Path, line: int) {
    exists k :: 0 <= k < |log| &&
      if dry then log[k].what == Planned(Some(OnLauncher(path, line)))
      else log[k].what in {Neutralize(path, line, true), Neutralize(path, line, false)}
  }

  // It was refused, or could not be stopped, or was stopped and then captured and killed.
  ghost predicate ProcessSeenTo(log: Log, dry: bool, pid: int) {
    exists k :: 0 <= k < |log| &&
      (|| log[k].what == Refused(pid)
       || (dry && log[k].what == Planned(Some(OnProcess(pid))))
       || (!dry && log[k].what == Stop(pid, false))
       || (!dry && k + 2 < |log| && log[k].what == Stop(pid, true)
           && log[k + 1].what in {Capture(pid, true), Capture(pid, false)}
           && log[k + 2].what in {Kill(pid, true), Kill(pid, false)}))
  }

  ghost predicate FileSeenTo(log: Log, dry: bool, path: Path) {
    exists k :: 0 <= k < |log| &&
      if dry then log[k].what == Planned(Some(OnFile(path)))
      else log[k].what in {Skipped(path), Quarantine(path, true), Quarantine(path, false)}
  }

  // The evidence directory is there, the limit was not reached, no file was put back, and
  // there was something to contain.
  predicate RanThrough(log: Log) {
    log != [] && var e := log[|log| - 1].what;
    !e.SetupFailed? && !e.Breaker? && !e.RolledBack? && !e.NothingToDo?
  }

  /** A run that runs through sees to every finding: every launcher line recorded, every
      confirmed process, every confirmed and actionable file. */
  lemma EveryFindingIsSeenTo(log: Log, c: Config, actions: nat, f: Finding)
    requires Finished(log, c, PlanOf(c), actions) && RanThrough(log) && f in c.findings
    ensures HasLauncherRule(f) && f.confidence in {Confirmed, Likely} ==> LauncherSeenTo(log, c.dry, f.path, f.line)
    ensures f.confidence == Confirmed && f.pid > 0 ==> ProcessSeenTo(log, c.dry, f.pid)
    ensures f.confidence == Confirmed && f.pid <= 0 && f.actionable && f.path != [] ==> FileSeenTo(log, c.dry, f.path)
  {
    LauncherRules(f);
    if IsLauncher(f) { LauncherIsSeenTo(log, c, actions, f); }
    if IsProcTarget(f) { ProcessIsSeenTo(log, c, actions, f); }
    if IsFileTarget(f) { FileIsSeenTo(log, c, actions, f); }
  }

  lemma LauncherIsSeenTo(log: Log, c: Config, actions: nat, f: Finding)
    requires Finished(log, c, PlanOf(c), actions) && RanThrough(log) && f in c.findings && IsLauncher(f)
    ensures LauncherSeenTo(log, c.dry, f.path, f.line)
  {
    var plan, order := PlanOf(c), PlanOf(c).Order();
    FilterHolds(c.findings, IsLauncher);
    var i :| 0 <= i < |plan.launchers| && plan.launchers[i] == f;
    assert order[i] == OnLauncher(f.path, f.line);
    var k := TakenIsWorked(log, c.dry, order, actions, i);
    var e := log[k].what;
    assert e.Neutralize? ==> e in {Neutralize(f.path, f.line, true), Neutralize(f.path, f.line, false)};
  }

  lemma ProcessIsSeenTo(log: Log, c: Config, actions: nat, f: Finding)
    requires Finished(log, c, PlanOf(c), actions) && RanThrough(log) && f in c.findings && IsProcTarget(f)
    ensures ProcessSeenTo(log, c.dry, f.pid)
  {
    var plan, order := PlanOf(c), PlanOf(c).Order();
    FilterHolds(c.findings, IsProcTarget);
    var i :| 0 <= i < |plan.procs| && plan.procs[i] == f;
    assert order[|plan.launchers| + i] == OnProcess(f.pid);
    var k := TakenIsWorked(log, c.dry, order, actions, |plan.launchers| + i);
    StopGoesOn(log, c.dry, k, f.pid);
  }

  lemma StopGoesOn(log: Log, dry: bool, k: nat, pid: int)
    requires k < |log| && WorkAt(log, dry, k, OnProcess(pid))
    ensures ProcessSeenTo(log, dry, pid)
  {
    if log[k].what == Stop(pid, true) {
      assert log[k + 1].what in {Capture(pid, true), Capture(pid, false)};
      assert log[k + 2].what in {Kill(pid, true), Kill(pid, false)};
    }
  }

  lemma FileIsSeenTo(log: Log, c: Config, actions: nat, f: Finding)
    requires Finished(log, c, PlanOf(c), actions) && RanThrough(log) && f in c.findings && IsFileTarget(f)
    ensures FileSeenTo(log, c.dry, f.path)
  {
    var plan, order := PlanOf(c), PlanOf(c).Order();
    FilterHolds(c.findings, IsFileTarget);
    var i :| 0 <= i < |plan.files| && plan.files[i] == f;
    assert order[|plan.launchers| + |plan.procs| + i] == OnFile(f.path);
    var k := TakenIsWorked(log, c.dry, order, actions, |plan.launchers| + |plan.procs| + i);
    assert log[k].what.Quarantine? ==> log[k].what in {Quarantine(f.path, true), Quarantine(f.path, false)};
  }

  lemma TakenIsWorked(log: Log, dry: bool, ts: seq<Target>, n: nat, a: nat) returns (k: nat)
    requires n <= |ts| && Taken(log, dry, ts, n) && a < n
    ensures k < |log| && log[k].action == a + 1 && WorkAt(log, dry, k, ts[a])
  {
    assert Shown(OfWork, 0);
    assert Worked(log, dry, a + 1, ts[a]);
    k :| 0 <= k < |log| && log[k].action == a + 1 && WorkAt(log, dry, k, ts[a]);
  }

  /** It does not run through only if there was nowhere to put evidence, or no process and no
      file to contain, or as many targets were taken as the limit allows, or a file without
      which the site did not serve was put back, or an attempt made. */
  lemma EndingHasACause(log: Log, c: Config, actions: nat)
    requires Finished(log, c, PlanOf(c), actions) && !RanThrough(log)
    ensures log != [] && var e := log[|log| - 1].what;
            || e == SetupFailed
            || (e == NothingToDo && forall f :: f in c.findings && f.confidence == Confirmed ==>
                                      f.pid <= 0 && !(f.actionable && f.path != []))
            || (e == Breaker && actions == if c.maxActions > 0 then c.maxActions else 25)
            || (&& |log| >= 4 && e.RolledBack? && log[|log| - 3].what == Probe(false)
                && log[|log| - 4].what == Quarantine(e.path, true)
                && log[|log| - 2].what == Restore(e.path, !e.error))
  {
    if log[|log| - 1].what == NothingToDo {
      forall f | f in c.findings && f.confidence == Confirmed
        ensures f.pid <= 0 && !(f.actionable && f.path != [])
      {
        FilterHolds(c.findings, IsProcTarget);
        FilterHolds(c.findings, IsFileTarget);
        assert f !in Filter(c.findings, IsProcTarget) && f !in Filter(c.findings, IsFileTarget);
      }
    }
  }

  // ---------------------------------------------------------------------
  // What a run that nothing hinders leaves behind
  // ---------------------------------------------------------------------

  function Times(text: string, n: nat): string {
    if n == 0 then "" else text + Times(text, n - 1)
  }

  // How many findings record this line.
  function Recorded(fs: seq<Finding>, path: Path, line: int): nat
    decreases |fs|
  {
    if fs == [] then 0 else
      var n := |fs| - 1;
      Recorded(fs[..n], path, line) + if fs[n].path == path && fs[n].line == line then 1 else 0
  }

  /** Each line of a launcher is commented out once for every finding that records it, and
      no other line changes. */
  lemma {:induction false} LinesAreCommentedOut(fs: Files, launchers: seq<Finding>, stamp: string, p: Path, i: nat)
    requires p != [] && Launcher(p) in fs && i < |fs[Launcher(p)]|
    ensures var gs := NeutralizedAll(fs, launchers, stamp);
            && Launcher(p) in gs && |gs[Launcher(p)]| == |fs[Launcher(p)]|
            && gs[Launcher(p)][i] ==
               Times("# wordeye-contained " + stamp + " # ", Recorded(launchers, p, i + 1)) + fs[Launcher(p)][i]
    decreases |launchers|
  {
    if launchers == [] {
      assert "" + fs[Launcher(p)][i] == fs[Launcher(p)][i];
    } else {
      var n := |launchers| - 1;
      LinesAreCommentedOut(fs, launchers[..n], stamp, p, i);
      var mark, m := "# wordeye-contained " + stamp + " # ", Recorded(launchers[..n], p, i + 1);
      assert mark + (Times(mark, m) + fs[Launcher(p)][i]) == (mark + Times(mark, m)) + fs[Launcher(p)][i];
    }
  }

  lemma {:induction false} LauncherStays(fs: Files, launchers: seq<Finding>, stamp: string, p: Path)
    requires Launcher(p) in fs
    ensures var gs := NeutralizedAll(fs, launchers, stamp);
            Launcher(p) in gs && |gs[Launcher(p)]| == |fs[Launcher(p)]|
    decreases |launchers|
  {
    if launchers != [] { LauncherStays(fs, launchers[..|launchers| - 1], stamp, p); }
  }

  // Finding number n is the last one that has its launcher copied.
  predicate IsLastCopied(launchers: seq<Finding>, n: nat) {
    && n < |launchers| && launchers[n].path != [] && launchers[n].line > 0
    && forall m :: n < m < |launchers| ==> launchers[m].path != launchers[n].path || launchers[m].line <= 0
  }

  // The copy is of the launcher as the findings before have left it.
  lemma {:induction false} CopyIsOfBefore(fs: Files, launchers: seq<Finding>, stamp: string, n: nat)
    requires IsLastCopied(launchers, n) && Launcher(launchers[n].path) in fs
    ensures var p, gs, mid := launchers[n].path, NeutralizedAll(fs, launchers, stamp),
                              NeutralizedAll(fs, launchers[..n], stamp);
            Launcher(p) in mid && Backup(p) in gs && gs[Backup(p)] == mid[Launcher(p)]
    decreases |launchers|
  {
    var last := |launchers| - 1;
    LauncherStays(fs, launchers[..n], stamp, launchers[n].path);
    if n < last {
      assert launchers[..last][..n] == launchers[..n];
      CopyIsOfBefore(fs, launchers[..last], stamp, n);
    }
  }

  /** The copy of a launcher that is kept is the original exactly if no finding before the last
      one for it records a line that it has. */
  lemma CopyIsTheOriginal(fs: Files, launchers: seq<Finding>, stamp: string, n: nat)
    requires IsLastCopied(launchers, n) && Launcher(launchers[n].path) in fs
    ensures var p, gs := launchers[n].path, NeutralizedAll(fs, launchers, stamp);
            && Backup(p) in gs
            && (gs[Backup(p)] == fs[Launcher(p)] <==>
                forall m :: 0 <= m < n && launchers[m].path == p ==> !(0 < launchers[m].line <= |fs[Launcher(p)]|))
  {
    var p, gs := launchers[n].path, NeutralizedAll(fs, launchers, stamp);
    CopyIsOfBefore(fs, launchers, stamp, n);
    LauncherStays(fs, launchers[..n], stamp, p);
    var orig, copy := fs[Launcher(p)], NeutralizedAll(fs, launchers[..n], stamp)[Launcher(p)];
    if m :| 0 <= m < n && launchers[m].path == p && 0 < launchers[m].line <= |orig| {
      var i := launchers[m].line - 1;
      assert launchers[..n][m] == launchers[m];
      IsRecorded(launchers[..n], launchers[m]);
      LinesAreCommentedOut(fs, launchers[..n], stamp, p, i);
      assert |copy[i]| > |orig[i]|;
    } else {
      forall i | 0 <= i < |orig|
        ensures copy[i] == orig[i]
      {
        LinesAreCommentedOut(fs, launchers[..n], stamp, p, i);
        IsNotRecorded(launchers[..n], p, i + 1);
        assert "" + orig[i] == orig[i];
      }
      assert copy == orig;
    }
  }

  lemma {:induction false} IsNotRecorded(fs: seq<Finding>, path: Path, line: int)
    requires forall m :: 0 <= m < |fs| && fs[m].path == path ==> fs[m].line != line
    ensures Recorded(fs, path, line) == 0
    decreases |fs|
  {
    if fs != [] { IsNotRecorded(fs[..|fs| - 1], path, line); }
  }

  lemma {:induction false} NeutralizedElsewhere(fs: Files, launchers: seq<Finding>, stamp: string, p: Path)
    ensures SameAt(fs, NeutralizedAll(fs, launchers, stamp), Site(p))
    decreases |launchers|
  {
    if launchers != [] { NeutralizedElsewhere(fs, launchers[..|launchers| - 1], stamp, p); }
  }

  lemma {:induction false} MovedElsewhere(fs: Files, files: seq<Finding>, hash: Content -> string, l: Loc)
    requires !l.Site? && !l.Held?
    ensures SameAt(fs, MovedAll(fs, files, hash), l)
    decreases |files|
  {
    if files != [] { MovedElsewhere(MovedOne(fs, files[0], hash), files[1..], hash, l); }
  }

  // No place below the web root comes to hold anything.
  lemma {:induction false} NothingComesBack(fs: Files, files: seq<Finding>, hash: Content -> string, p: Path)
    requires Site(p) !in fs
    ensures Site(p) !in MovedAll(fs, files, hash)
    decreases |files|
  {
    if files != [] { NothingComesBack(MovedOne(fs, files[0], hash), files[1..], hash, p); }
  }

  lemma {:induction false} InDateIsMoved(fs: Files, files: seq<Finding>, hash: Content -> string, i: nat)
    requires i < |files| && Site(files[i].path) in fs
    requires files[i].digest == "" || files[i].digest == hash(fs[Site(files[i].path)])
    ensures Site(files[i].path) !in MovedAll(fs, files, hash)
    decreases |files|
  {
    var p, next := files[i].path, MovedOne(fs, files[0], hash);
    if Site(p) !in next {
      NothingComesBack(next, files[1..], hash, p);
    } else {
      assert i > 0 && next[Site(p)] == fs[Site(p)];
      assert files[1..][i - 1] == files[i];
      InDateIsMoved(next, files[1..], hash, i - 1);
    }
  }

  /** After a run that nothing hinders: every recorded line of a launcher is commented out,
      every confirmed process that may be signalled has been killed, and every confirmed file
      in date is gone from below the web root, and in evidence where no target replaces another
      one before it. */
  lemma NothingIsLeft(e: Engine, fs0: Files, stamp: string, f: Finding)
    requires e.Contained(fs0, PlanOf(e.c), stamp) && f in e.c.findings
    requires exists g :: g in e.c.findings && g.confidence == Confirmed && (g.pid > 0 || (g.actionable && g.path != []))
    ensures (&& HasLauncherRule(f) && f.confidence in {Confirmed, Likely} && f.path != []
             && Launcher(f.path) in fs0 && 0 < f.line <= |fs0[Launcher(f.path)]|) ==>
              && Launcher(f.path) in e.fs && |e.fs[Launcher(f.path)]| == |fs0[Launcher(f.path)]|
              && "# wordeye-contained " + stamp + " # " <= e.fs[Launcher(f.path)][f.line - 1]
    ensures f.confidence == Confirmed && f.pid > 0 && MaySignal(e.c, f.pid, f.comm) ==>
              exists k :: 0 <= k < |e.log| && e.log[k].what == Kill(f.pid, true)
    ensures (&& f.confidence == Confirmed && f.pid <= 0 && f.actionable && f.path != []
             && Site(f.path) in fs0 && (f.digest == "" || f.digest == e.hash(fs0[Site(f.path)]))) ==>
              && Site(f.path) !in e.fs
              && (Apart(Paths(PlanOf(e.c).files)) ==>
                    Evidence(f.path) in e.fs && e.fs[Evidence(f.path)] == fs0[Site(f.path)])
  {
    var plan := PlanOf(e.c);
    SomethingIsPlanned(e.c);
    if IsLauncher(f) && f.path != [] && Launcher(f.path) in fs0 && 0 < f.line <= |fs0[Launcher(f.path)]| {
      LaunchersLeft(e.c, fs0, stamp, f, e.hash);
    }
    if IsProcTarget(f) && MaySignal(e.c, f.pid, f.comm) {
      FilterHolds(e.c.findings, IsProcTarget);
      var i :| 0 <= i < |plan.procs| && plan.procs[i] == f;
      assert Killed(e.log, f.pid);
    }
    if IsFileTarget(f) && Site(f.path) in fs0 && (f.digest == "" || f.digest == e.hash(fs0[Site(f.path)])) {
      FileLeft(e.c, fs0, stamp, f, e.hash);
    }
    LauncherRules(f);
  }

  lemma SomethingIsPlanned(c: Config)
    requires exists g :: g in c.findings && g.confidence == Confirmed && (g.pid > 0 || (g.actionable && g.path != []))
    ensures PlanOf(c).procs != [] || PlanOf(c).files != []
  {
    FilterHolds(c.findings, IsProcTarget);
    FilterHolds(c.findings, IsFileTarget);
    var g :| g in c.findings && g.confidence == Confirmed && (g.pid > 0 || (g.actionable && g.path != []));
    assert IsProcTarget(g) || IsFileTarget(g);
  }

  lemma LaunchersLeft(c: Config, fs0: Files, stamp: string, f: Finding, hash: Content -> string)
    requires f in c.findings && IsLauncher(f) && f.path != []
    requires Launcher(f.path) in fs0 && 0 < f.line <= |fs0[Launcher(f.path)]|
    ensures var plan := PlanOf(c);
            var fs := MovedAll(NeutralizedAll(fs0, plan.launchers, stamp), plan.files, hash);
            && Launcher(f.path) in fs && |fs[Launcher(f.path)]| == |fs0[Launcher(f.path)]|
            && "# wordeye-contained " + stamp + " # " <= fs[Launcher(f.path)][f.line - 1]
  {
    var plan := PlanOf(c);
    FilterHolds(c.findings, IsLauncher);
    LinesAreCommentedOut(fs0, plan.launchers, stamp, f.path, f.line - 1);
    IsRecorded(plan.launchers, f);
    MovedElsewhere(NeutralizedAll(fs0, plan.launchers, stamp), plan.files, hash, Launcher(f.path));
  }

  lemma FileLeft(c: Config, fs0: Files, stamp: string, f: Finding, hash: Content -> string)
    requires f in c.findings && IsFileTarget(f) && Site(f.path) in fs0
    requires f.digest == "" || f.digest == hash(fs0[Site(f.path)])
    ensures var plan := PlanOf(c);
            var fs := MovedAll(NeutralizedAll(fs0, plan.launchers, stamp), plan.files, hash);
            && Site(f.path) !in fs
            && (Apart(Paths(plan.files)) ==> Evidence(f.path) in fs && fs[Evidence(f.path)] == fs0[Site(f.path)])
  {
    var plan := PlanOf(c);
    var mid := NeutralizedAll(fs0, plan.launchers, stamp);
    FilterHolds(c.findings, IsFileTarget);
    var i :| 0 <= i < |plan.files| && plan.files[i] == f;
    NeutralizedElsewhere(fs0, plan.launchers, stamp, f.path);
    InDateIsMoved(mid, plan.files, hash, i);
    if Apart(Paths(plan.files)) {
      ApartKeeps(mid, plan.files, hash);
      assert Kept(MovedAll(mid, plan.files, hash), Paths(plan.files)[i], mid[Site(f.path)]);
    }
  }

  lemma {:induction false} IsRecorded(fs: seq<Finding>, f: Finding)
    requires f in fs
    ensures Recorded(fs, f.path, f.line) > 0
    decreases |fs|
  {
    var n := |fs| - 1;
    if fs[n] != f {
      assert fs == fs[..n] + [fs[n]];
      IsRecorded(fs[..n], f);
    }
  }

  // ---------------------------------------------------------------------
  // Where evidence is put
  // ---------------------------------------------------------------------

  // Going down the parts one goes up more often than down, from depth d.
  predicate Climbs(parts: Path, d: nat)
    decreases |parts|
  {
    if parts == [] then false
    else if parts[0] == "." then Climbs(parts[1..], d)
    else if parts[0] == ".." then d == 0 || Climbs(parts[1..], d - 1)
    else Climbs(parts[1..], d + 1)
  }

  lemma {:induction false} JoinedStaysUp(parts: Path, done: Path)
    requires done != [] && done[0] == ".."
    ensures Joined(parts, done) != [] && Joined(parts, done)[0] == ".."
    decreases |parts|
  {
    if parts != [] {
      if parts[0] == "." {
        JoinedStaysUp(parts[1..], done);
      } else if parts[0] == ".." && done[|done| - 1] != ".." {
        JoinedStaysUp(parts[1..], done[..|done| - 1]);
      } else {
        JoinedStaysUp(parts[1..], done + [parts[0]]);
      }
    }
  }

  lemma {:induction false} JoinedClimbs(parts: Path, done: Path)
    requires ".." !in done
    ensures (Joined(parts, done) != [] && Joined(parts, done)[0] == "..") <==> Climbs(parts, |done|)
    ensures !Climbs(parts, |done|) ==> ".." !in Joined(parts, done)
    decreases |parts|
  {
    if parts == [] {
      assert done != [] ==> done[0] in done;
    } else {
      if parts[0] == "." {
        JoinedClimbs(parts[1..], done);
      } else if parts[0] == ".." {
        if done == [] {
          assert done + [parts[0]] == [".."];
          JoinedStaysUp(parts[1..], [".."]);
        } else {
          JoinedClimbs(parts[1..], done[..|done| - 1]);
        }
      } else {
        JoinedClimbs(parts[1..], done + [parts[0]]);
      }
    }
  }

  /** Evidence is put outside of its directory exactly if the parts that are kept of the path go
      up more often than down at some point; and none does unless ".." stands behind a colon. */
  lemma EvidenceStaysInside(p: Path)
    ensures SafeRelPath(p)[0] == ".." <==> Climbs(KeptParts(p), 0)
    ensures SafeRelPath(p)[0] != ".." ==> ".." !in SafeRelPath(p)
    ensures (forall k :: 0 <= k < |p| ==> !EndsInUp(p[k])) ==> ".." !in SafeRelPath(p)
  {
    JoinedClimbs(KeptParts(p), []);
    if forall k :: 0 <= k < |p| ==> !EndsInUp(p[k]) {
      NoUpIsKept(p);
      NoUpStays(KeptParts(p), 0);
    }
  }

  predicate EndsInUp(part: string) {
    var n := |part|;
    n >= 3 && part[n - 3] == ':' && part[n - 2] == '.' && part[n - 1] == '.'
  }

  lemma {:induction false} NoUpIsKept(p: Path)
    requires forall k :: 0 <= k < |p| ==> !EndsInUp(p[k])
    ensures ".." !in KeptParts(p)
  {
    if p != [] {
      NoUpIsKept(p[1..]);
      UpEndsIt(p[0]);
    }
  }

  lemma UpEndsIt(part: string)
    ensures AfterColon(part) == ".." ==> part == ".." || EndsInUp(part)
  {
    if exists i :: 0 <= i < |part| && part[i] == ':' {
      var i := FirstColon(part);
      if part[i + 1..] == ".." {
        assert part[i + 1] == part[i + 1..][0] && part[i + 2] == part[i + 1..][1];
      }
    }
  }

  lemma {:induction false} NoUpStays(parts: Path, d: nat)
    requires ".." !in parts
    ensures !Climbs(parts, d)
    decreases |parts|
  {
    if parts != [] {
      NoUpStays(parts[1..], if parts[0] == "." then d else d + 1);
    }
  }
}
