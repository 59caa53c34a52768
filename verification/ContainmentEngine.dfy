/** The containment engine. Every answer the outside world gives (signals, health probes,
    file calls) is drawn from an arbitrary sequence, so what is proved holds in all of them. */
module ContainmentEngine {
  import opened Common
  import opened Containment
  import opened ContainmentFiles
  import opened ContainmentRuns

  class Engine {
    const c: Config
    const answers: nat -> bool
    const junk: nat -> Content        // what a failed write leaves behind
    const hash: Content -> string
    var asked: nat
    var log: Log
    var actions: nat
    var fs: Files
    ghost var history: seq<Files>     // every state of the files, in order
    ghost var current: Option<Target> // the target the action number stands for
    ghost var origin: Files           // the files before the run

    constructor (c: Config, answers: nat -> bool, junk: nat -> Content, hash: Content -> string, fs: Files)
      ensures this.c == c && this.answers == answers && this.hash == hash && this.fs == fs && history == []
      ensures log == [] && actions == 0 && current == None
    {
      this.c, this.answers, this.junk, this.hash := c, answers, junk, hash;
      this.fs, log, actions, asked, history, current, origin := fs, [], 0, 0, [], None, fs;
    }

    ghost predicate Invariant(stage: nat)
      reads this
    {
      && Safe(log, c, actions, stage) && OnlyTouched(log, actions, current) && (current.Some? ==> 0 < actions)
      && Framed(c, origin, fs) && forall k :: 0 <= k < |history| ==> Framed(c, origin, history[k])
    }

    // The invariant, closed.
    ghost predicate Ok(stage: nat)
      reads this
    {
      forall n {:trigger Unfolded(n)} :: Unfolded(n) ==> Invariant(stage)
    }

    // Nothing goes wrong.
    ghost predicate Smooth() {
      forall n :: answers(n)
    }

    // Nothing goes wrong, nor is there too much to do.
    ghost predicate Unhindered() {
      Smooth() && !c.dry && |PlanOf(c).Order()| <= Limit(c)
    }

    ghost predicate Easy(order: seq<Target>) {
      Smooth() && !c.dry && |order| <= Limit(c)
    }

    // The outside world's next answer.
    method Ask() returns (b: bool)
      modifies this`asked
      ensures Smooth() ==> b
    {
      b := answers(asked);
      asked := asked + 1;
    }

    method Emit(e: Event, ghost stage: nat)
      requires Ok(stage) && TargetOf(e) in {None, current}
      requires e.Kill? ==> FrozenBefore(log, |log|, e.pid)
      requires e.Stop? || e.Kill? ==> SignalAllowed(c, e.pid)
      requires e.Quarantine? || e.Restore? ==> FileConfirmed(c, e.path)
      requires e.Neutralize? ==> LauncherFound(c, e.launcher, e.line)
      requires Stage(e) == 0 || Stage(e) == stage
      requires c.dry ==> !IsEffect(e)
      modifies this`log
      ensures Ok(stage) && log == old(log) + [Entry(actions, e)]
    {
      assert Unfolded(0);
      AppendIsSafe(log, c, actions, stage, e);
      log := log + [Entry(actions, e)];
      assert Invariant(stage);
    }

    method ProbeHealth(ghost stage: nat) returns (serving: bool)
      requires Ok(stage)
      modifies this`log, this`asked
      ensures Ok(stage) && log == old(log) + [Entry(actions, Probe(serving))]
      ensures Smooth() ==> serving
    {
      serving := Ask();
      Emit(Probe(serving), stage);
    }

    // The circuit breaker; t is the target that asks.
    method Budget(ghost stage: nat, ghost t: Target) returns (ok: bool)
      requires Ok(stage)
      modifies this`log, this`actions, this`current
      ensures Ok(stage)
      ensures ok <==> old(actions) < Limit(c)
      ensures ok ==> log == old(log) && actions == old(actions) + 1 && current == Some(t)
      ensures !ok ==> actions == old(actions) == Limit(c) && log == old(log) + [Entry(actions, Breaker)]
    {
      if actions >= Limit(c) {
        assert Unfolded(0);
        Emit(Breaker, stage);
        return false;
      }
      assert Unfolded(0);
      actions := actions + 1;
      current := Some(t);
      assert Invariant(stage);
      return true;
    }

    // --- file system calls

    method Become(fs': Files, ghost a: Loc, ghost b: Loc, ghost stage: nat)
      requires Ok(stage) && Place(c, a) && Place(c, b) && SameExcept(fs, fs', {a, b})
      modifies this`fs, this`history
      ensures Ok(stage) && fs == fs' && history == old(history) + [fs']
    {
      assert Unfolded(0);
      StillFramed(c, origin, fs, fs', a, b);
      fs := fs';
      history := history + [fs'];
      assert Invariant(stage);
    }

    // Renames, or copies and removes when renaming fails.
    method MoveFile(from: Loc, to: Loc, ghost stage: nat) returns (ok: bool)
      requires Ok(stage) && from != to && Place(c, from) && Place(c, to)
      modifies this`fs, this`history, this`asked
      ensures Ok(stage) && old(history) <= history
      ensures forall k :: |old(history)| <= k < |history| ==> MidMove(old(fs), from, to, history[k])
      ensures MidMove(old(fs), from, to, fs)
      ensures ok ==> from in old(fs) && fs == (old(fs) - {from})[to := old(fs)[from]]
      ensures !ok ==> SameAt(old(fs), fs, from)
      ensures from !in old(fs) ==> !ok && fs == old(fs)
      ensures Smooth() && from in old(fs) ==> ok
    {
      if from !in fs { return false; }
      var renamed := Ask();
      if renamed {
        MoveStates(fs, from, to, []);
        Become((fs - {from})[to := fs[from]], from, to, stage);
        return true;
      }
      var readable := Ask();
      if !readable { return false; }
      var data := fs[from];
      var open := Ask();
      if !open { return false; }
      var written := Ask();
      if !written {
        MoveStates(fs, from, to, junk(asked));
        Become(fs[to := junk(asked)], from, to, stage);
        return false;
      }
      MoveStates(fs, from, to, data);
      Become(fs[to := data], from, to, stage);
      ok := Ask();
      if ok {
        Become(fs - {from}, from, to, stage);
      }
    }

    // A file that cannot be opened for writing stays as it was.
    method WriteFile(to: Loc, data: Content, ghost stage: nat) returns (ok: bool, ghost left: Content)
      requires Ok(stage) && Place(c, to)
      modifies this`fs, this`history, this`asked
      ensures Ok(stage)
      ensures || (!ok && fs == old(fs) && history == old(history))
              || (fs == old(fs)[to := left] && history == old(history) + [fs])
      ensures ok ==> fs == old(fs)[to := left] && left == data
      ensures Smooth() ==> ok
    {
      var open := Ask();
      if !open { return false, []; }
      ok := Ask();
      left := if ok then data else junk(asked);
      Become(fs[to := if ok then data else junk(asked)], to, to, stage);
    }

    // --- persistence

    // Comments out one line of a launcher, after keeping a copy of the whole file.
    method NeutralizePersistence(f: Finding, stamp: string)
      requires Ok(1) && current == Some(OnLauncher(f.path, f.line)) && LauncherFound(c, f.path, f.line)
      modifies this`log, this`asked, this`fs, this`history
      ensures Ok(1) && NoFileEvents(log, |old(log)|) && old(log) <= log && |log| == |old(log)| + 1
      ensures log[|old(log)|].action == actions && WorkAt(log, c.dry, |old(log)|, OnLauncher(f.path, f.line))
      ensures Smooth() && !c.dry ==> fs == NeutralizedOne(old(fs), f, stamp)
      ensures c.dry ==> fs == old(fs) && history == old(history)
      ensures old(history) <= history
      ensures SameExcept(old(fs), fs, {Launcher(f.path), Backup(f.path)})
      ensures forall k :: |old(history)| <= k < |history| ==>
                SameExcept(old(fs), history[k], {Launcher(f.path), Backup(f.path)})
      ensures log[|log| - 1].what == Neutralize(f.path, f.line, true) ==>
        && Launcher(f.path) in old(fs) && 0 < f.line <= |old(fs)[Launcher(f.path)]|
        && Launcher(f.path) in fs && fs[Launcher(f.path)] == Commented(old(fs)[Launcher(f.path)], f.line, stamp)
    {
      if c.dry {
        Emit(Planned(Some(OnLauncher(f.path, f.line))), 1);
        return;
      }
      var there := Ask();
      if f.path == [] || f.line <= 0 || Launcher(f.path) !in fs || !there {
        Emit(Neutralize(f.path, f.line, false), 1);
        return;
      }
      CommentOut(f, stamp);
    }

    // Keeps a copy and rewrites the file, unless it has become too short.
    method CommentOut(f: Finding, stamp: string)
      requires Ok(1) && current == Some(OnLauncher(f.path, f.line)) && !c.dry && LauncherFound(c, f.path, f.line)
      requires Launcher(f.path) in fs && 0 < f.line
      modifies this`log, this`asked, this`fs, this`history
      ensures Ok(1) && exists ok :: log == old(log) + [Entry(actions, Neutralize(f.path, f.line, ok))]
      ensures Smooth() && f.path != [] ==> fs == NeutralizedOne(old(fs), f, stamp)
      ensures old(history) <= history
      ensures SameExcept(old(fs), fs, {Launcher(f.path), Backup(f.path)})
      ensures forall k :: |old(history)| <= k < |history| ==>
                SameExcept(old(fs), history[k], {Launcher(f.path), Backup(f.path)})
      ensures log[|log| - 1].what == Neutralize(f.path, f.line, true) ==>
        && f.line <= |old(fs)[Launcher(f.path)]| && Launcher(f.path) in fs
        && fs[Launcher(f.path)] == Commented(old(fs)[Launcher(f.path)], f.line, stamp)
    {
      var orig := fs[Launcher(f.path)];
      var dir := Ask();
      LauncherPlaces(c, f.path, f.line);
      if dir {
        var _, _ := WriteFile(Backup(f.path), orig, 1);
      }
      if f.line > |orig| {
        Emit(Neutralize(f.path, f.line, false), 1);
        return;
      }
      var _, _ := RewriteLauncher(f, stamp);
    }

    method RewriteLauncher(f: Finding, stamp: string) returns (ok: bool, ghost data: Content)
      requires Ok(1) && current == Some(OnLauncher(f.path, f.line)) && !c.dry && LauncherFound(c, f.path, f.line)
      requires Launcher(f.path) in fs && 0 < f.line <= |fs[Launcher(f.path)]|
      modifies this`log, this`asked, this`fs, this`history
      ensures Ok(1) && log == old(log) + [Entry(actions, Neutralize(f.path, f.line, ok))]
      ensures || (!ok && fs == old(fs) && history == old(history))
              || (fs == old(fs)[Launcher(f.path) := data] && history == old(history) + [fs])
      ensures ok ==> fs == old(fs)[Launcher(f.path) := data]
      ensures ok ==> data == Commented(old(fs)[Launcher(f.path)], f.line, stamp)
      ensures Smooth() ==> ok
    {
      var orig := fs[Launcher(f.path)];
      var lines := orig[f.line - 1 := "# wordeye-contained " + stamp + " # " + orig[f.line - 1]];
      LauncherPlaces(c, f.path, f.line);
      ok, data := WriteFile(Launcher(f.path), lines, 1);
      Emit(Neutralize(f.path, f.line, ok), 1);
    }

    // --- processes

    method ProcessIsProtected(pid: int, comm: string) returns (allowed: bool)
      ensures allowed <==> MaySignal(c, pid, comm)
    {
      if pid <= 1 { return false; }
      if pid == c.self || pid == c.parent { return false; }
      var lc := Lower(comm);
      for k := 0 to |PROTECTED|
        invariant forall l :: 0 <= l < k ==> !(PROTECTED[l] <= lc)
      {
        if PROTECTED[k] <= lc { return false; }
      }
      return true;
    }

    // Freeze, capture, kill, look for a respawn; unless the process may not be touched,
    // or is no longer the one that was found.
    method ContainProcess(f: Finding)
      requires Ok(2) && current == Some(OnProcess(f.pid))
      requires f in c.findings && IsProcTarget(f)
      modifies this`log, this`asked
      ensures Ok(2) && old(log) < log && NoFileEvents(log, |old(log)|)
      ensures log[|old(log)|].action == actions && WorkAt(log, c.dry, |old(log)|, OnProcess(f.pid))
      ensures !MaySignal(c, f.pid, f.comm) ==> log == old(log) + [Entry(actions, Refused(f.pid))]
      ensures MaySignal(c, f.pid, f.comm) && (c.dry || Smooth()) ==> !log[|old(log)|].what.Refused?
      ensures MaySignal(c, f.pid, f.comm) && !c.dry && Smooth() ==> Killed(log, f.pid)
    {
      var pid := f.pid;
      var allowed := ProcessIsProtected(pid, f.comm);
      if !allowed {
        Emit(Refused(pid), 2);
        return;
      }
      if c.dry {
        PlanProcess(pid);
        return;
      }
      var same := Ask();
      if f.comm != "" && !same {
        Emit(Refused(pid), 2);
        return;
      }
      assert SignalAllowed(c, pid);
      ghost var k := |log|;
      var stopped, killed, _, _ := FreezeCaptureKill(pid);
      assert stopped ==> log[k + 2].what == Kill(pid, killed);
    }

    // What a dry run says of the four steps.
    method PlanProcess(pid: int)
      requires Ok(2) && current == Some(OnProcess(pid))
      modifies this`log
      ensures Ok(2)
      ensures var plan := Entry(actions, Planned(Some(OnProcess(pid)))); log == old(log) + [plan, plan, plan, plan]
    {
      Emit(Planned(Some(OnProcess(pid))), 2);
      Emit(Planned(Some(OnProcess(pid))), 2);
      Emit(Planned(Some(OnProcess(pid))), 2);
      Emit(Planned(Some(OnProcess(pid))), 2);
    }

    // A process that was stopped is captured and killed, whatever the capture says.
    method FreezeCaptureKill(pid: int) returns (stopped: bool, killed: bool, ghost captured: bool, ghost rest: Log)
      requires Ok(2) && !c.dry && current == Some(OnProcess(pid)) && SignalAllowed(c, pid)
      modifies this`log, this`asked
      ensures Ok(2) && NoFileEvents(log, |old(log)|)
      ensures !stopped ==> log == old(log) + [Entry(actions, Stop(pid, false))]
      ensures stopped ==>
                log == old(log) + [Entry(actions, Stop(pid, true)), Entry(actions, Capture(pid, captured)),
                                   Entry(actions, Kill(pid, killed))] + rest
      ensures rest == [] || exists seen :: rest == [Entry(actions, Respawn(pid, seen))]
      ensures Smooth() ==> stopped && killed
    {
      stopped, captured := FreezeCapture(pid);
      killed, rest := false, [];
      if stopped { killed, rest := KillVerify(pid); }
    }

    method FreezeCapture(pid: int) returns (stopped: bool, ghost captured: bool)
      requires Ok(2) && !c.dry && current == Some(OnProcess(pid)) && SignalAllowed(c, pid)
      modifies this`log, this`asked
      ensures Ok(2)
      ensures !stopped ==> log == old(log) + [Entry(actions, Stop(pid, false))]
      ensures stopped ==> log == old(log) + [Entry(actions, Stop(pid, true)), Entry(actions, Capture(pid, captured))]
      ensures stopped ==> FrozenBefore(log, |log|, pid)
      ensures Smooth() ==> stopped
    {
      stopped := Ask();
      captured := false;
      Emit(Stop(pid, stopped), 2);
      if !stopped { return; }
      ghost var i := |log| - 1;
      var done := Ask();
      captured := done;
      Emit(Capture(pid, done), 2);
      assert log[i].what == Stop(pid, true) && IsCaptureOf(log[i + 1].what, pid);
    }

    // The kill, and unless the run is cancelled meanwhile a look for a respawn.
    method KillVerify(pid: int) returns (killed: bool, ghost rest: Log)
      requires Ok(2) && !c.dry && current == Some(OnProcess(pid)) && SignalAllowed(c, pid)
      requires FrozenBefore(log, |log|, pid)
      modifies this`log, this`asked
      ensures Ok(2) && log == old(log) + [Entry(actions, Kill(pid, killed))] + rest
      ensures rest == [] || exists seen :: rest == [Entry(actions, Respawn(pid, seen))]
      ensures Smooth() ==> killed && rest == [Entry(actions, Respawn(pid, false))]
    {
      killed := Ask();
      rest := [];
      Emit(Kill(pid, killed), 2);
      var waited := Ask();
      if !waited { return; }
      var gone := Ask();
      rest := [Entry(actions, Respawn(pid, !gone))];
      Emit(Respawn(pid, !gone), 2);
    }

    // --- files

    // Moves a file into the evidence store, if it is still what the scan saw.
    method QuarantineFile(f: Finding) returns (ok: bool)
      requires Ok(3) && current == Some(OnFile(f.path)) && FileConfirmed(c, f.path) && f.path != []
      modifies this`log, this`asked, this`fs, this`history
      ensures Ok(3) && old(log) <= log && |log| == |old(log)| + 1 && log[|old(log)|].action == actions
      ensures ok <==> log[|old(log)|].what == Quarantine(f.path, true)
      ensures WorkAt(log, c.dry, |old(log)|, OnFile(f.path))
      ensures c.dry ==> !ok && fs == old(fs) && history == old(history)
      ensures ok ==> InDate(old(fs), f, hash) && Site(f.path) !in fs
      ensures ok ==> Held(SafeRelPath(f.path)) in fs && fs[Held(SafeRelPath(f.path))] == old(fs)[Site(f.path)]
      ensures old(history) <= history
      ensures QuarantineStates(old(fs), f.path, history[|old(history)|..], fs)
      ensures Smooth() && !c.dry ==> fs == MovedOne(old(fs), f, hash)
    {
      var p := f.path;
      var dest := SafeRelPath(p);
      if c.dry {
        Emit(Planned(Some(OnFile(p))), 3);
        return false;
      }
      var same := StillThere(f);
      if !same {
        Emit(Skipped(p), 3);
        return false;
      }
      ok := StoreEvidence(p, dest);
      Emit(Quarantine(p, ok), 3);
    }

    // There, with the digest the scan saw, and with room in the evidence store.
    method StillThere(f: Finding) returns (same: bool)
      modifies this`asked
      ensures same ==> InDate(fs, f, hash)
      ensures Smooth() ==> same == InDate(fs, f, hash)
    {
      var stat := Ask();
      if Site(f.path) !in fs || !stat { return false; }
      if f.digest != "" {
        var readable := Ask();
        var now := if readable then hash(fs[Site(f.path)]) else "";
        if now != f.digest { return false; }
      }
      same := Ask();
    }

    // The move itself and the custody file, whose own failure is ignored.
    method StoreEvidence(p: Path, dest: Path) returns (ok: bool)
      requires Ok(3) && FileConfirmed(c, p) && dest == SafeRelPath(p) && Site(p) in fs
      modifies this`asked, this`fs, this`history
      ensures Ok(3)
      ensures Smooth() ==> fs == Moved(old(fs), p)
      ensures ok ==> Held(dest) in fs && fs[Held(dest)] == old(fs)[Site(p)] && Site(p) !in fs
      ensures old(history) <= history
      ensures QuarantineStates(old(fs), p, history[|old(history)|..], fs)
    {
      FilePlaces(c, p);
      ok := MoveFile(Site(p), Held(dest), 3);
      if ok {
        CustodyPathDiffers(dest);
        ghost var before, moved, h := old(fs), fs, history;
        var _, _ := WriteFile(Held(MetaPath(dest)), CUSTODY, 3);
        assert MidMove(before, Site(p), Evidence(p), moved) && SameExcept(moved, fs, {Custody(p)});
        assert QuarantineState(before, p, fs);
        assert history == h || history == h + [fs];
      }
    }

    // Puts a quarantined file back where it came from.
    method RestoreQuarantine(p: Path) returns (ok: bool)
      requires Ok(3) && !c.dry && current == Some(OnFile(p)) && FileConfirmed(c, p)
      modifies this`log, this`asked, this`fs, this`history
      ensures Ok(3) && log == old(log) + [Entry(actions, Restore(p, ok))]
      ensures ok ==> Held(SafeRelPath(p)) in old(fs) && Site(p) in fs && fs[Site(p)] == old(fs)[Held(SafeRelPath(p))]
      ensures old(history) <= history
      ensures forall k :: |old(history)| <= k < |history| ==>
                MidMove(old(fs), Held(SafeRelPath(p)), Site(p), history[k])
      ensures MidMove(old(fs), Held(SafeRelPath(p)), Site(p), fs)
    {
      FilePlaces(c, p);
      ok := MoveFile(Held(SafeRelPath(p)), Site(p), 3);
      Emit(Restore(p, ok), 3);
    }

    // Quarantines target number i without losing any target.
    method QuarantineKept(f: Finding, ghost start: Files, ghost targets: seq<Path>, ghost i: nat) returns (ok: bool)
      requires Ok(3) && current == Some(OnFile(f.path)) && FileConfirmed(c, f.path) && f.path != []
      requires i < |targets| && targets[i] == f.path
      modifies this`log, this`asked, this`fs, this`history
      ensures Ok(3) && old(log) <= log && |log| == |old(log)| + 1 && log[|old(log)|].action == actions
      ensures WorkAt(log, c.dry, |old(log)|, OnFile(f.path))
      ensures ok <==> log[|old(log)|].what == Quarantine(f.path, true)
      ensures c.dry ==> !ok && fs == old(fs) && history == old(history)
      ensures Tracked(old(fs), old(history), start, targets, i) ==>
        Tracked(fs, history, start, targets, i + 1) && (ok ==> SavedWith(fs, history, start, targets, i))
      ensures Smooth() && !c.dry ==> fs == MovedOne(old(fs), f, hash)
    {
      ghost var fs0, h0 := fs, history;
      ok := QuarantineFile(f);
      if Tracked(fs0, h0, start, targets, i) {
        QuarantineConserves(fs0, h0, fs, history, start, targets, i);
        if ok { QuarantineStores(fs0, h0, fs, history, start, targets, i); }
      }
    }

    method RollBack(f: Finding, ghost start: Files, ghost targets: seq<Path>, ghost i: nat) returns (restored: bool)
      requires Ok(3) && !c.dry && current == Some(OnFile(f.path)) && FileConfirmed(c, f.path)
      requires i < |targets| && targets[i] == f.path
      modifies this`log, this`asked, this`fs, this`history
      ensures Ok(3)
      ensures log == old(log) +
                [Entry(actions, Restore(f.path, restored)), Entry(actions, RolledBack(f.path, !restored))]
      ensures SavedWith(old(fs), old(history), start, targets, i) ==> Saved(fs, history, start, targets)
    {
      ghost var fs0, h0 := fs, history;
      restored := RestoreQuarantine(f.path);
      Emit(RolledBack(f.path, !restored), 3);
      if SavedWith(fs0, h0, start, targets, i) {
        RestoreConserves(fs0, h0, fs, history, start, targets, i);
      }
    }

    // One file: quarantine it, probe, and put it back if the site went down.
    method HandleFile(f: Finding, gate: bool, ghost start: Files, ghost targets: seq<Path>, ghost i: nat)
      returns (stop: bool)
      requires Ok(3) && FileConfirmed(c, f.path) && f.path != []
      requires i < |targets| && targets[i] == f.path
      requires gate ==> GateOpen(log)
      modifies this`log, this`actions, this`current, this`asked, this`fs, this`history
      ensures Ok(3) && old(log) <= log
      ensures gate ==> GateDone(log) && (!stop ==> GateOpen(log))
      ensures c.dry ==> fs == old(fs) && history == old(history)
      ensures Tracked(old(fs), old(history), start, targets, i) ==>
        if stop then Saved(fs, history, start, targets) else Tracked(fs, history, start, targets, i + 1)
      ensures stop ==> CutShort(log, c, actions)
      ensures actions == old(actions) || actions == old(actions) + 1
      ensures !stop || actions > old(actions) ==>
                && actions == old(actions) + 1 && old(log) < log && log[|old(log)|].action == actions
                && WorkAt(log, c.dry, |old(log)|, OnFile(f.path))
      ensures Smooth() && !c.dry && old(actions) < Limit(c) ==> !stop && fs == MovedOne(old(fs), f, hash)
    {
      ghost var log0 := log;
      var ok := Budget(3, OnFile(f.path));
      if !ok {
        if gate { GateOpenMore(log0, log[|log0|]); GateOpenKept(log); }
        return true;
      }
      stop := HandleAdmitted(f, gate, start, targets, i);
    }

    method HandleAdmitted(f: Finding, gate: bool, ghost start: Files, ghost targets: seq<Path>, ghost i: nat)
      returns (stop: bool)
      requires Ok(3) && current == Some(OnFile(f.path)) && FileConfirmed(c, f.path) && f.path != []
      requires i < |targets| && targets[i] == f.path
      requires gate ==> GateOpen(log)
      modifies this`log, this`asked, this`fs, this`history
      ensures Ok(3) && old(log) < log
      ensures gate ==> GateDone(log) && (!stop ==> GateOpen(log))
      ensures c.dry ==> fs == old(fs) && history == old(history)
      ensures Tracked(old(fs), old(history), start, targets, i) ==>
        if stop then Saved(fs, history, start, targets) else Tracked(fs, history, start, targets, i + 1)
      ensures stop ==> CutShort(log, c, actions)
      ensures log[|old(log)|].action == actions && WorkAt(log, c.dry, |old(log)|, OnFile(f.path))
      ensures Smooth() && !c.dry ==> !stop && fs == MovedOne(old(fs), f, hash)
    {
      ghost var log0 := log;
      var q := QuarantineKept(f, start, targets, i);
      ghost var entry := log[|log0|];
      assert log == log0 + [entry];
      if !q || c.dry || !gate {
        if gate { GateOpenMore(log0, entry); GateOpenKept(log); }
        return false;
      }
      stop := CheckGate(f, log0, entry, start, targets, i);
    }

    // The probe straight after a quarantine, and the roll-back if it fails.
    method CheckGate(f: Finding, ghost log0: Log, ghost entry: Entry,
                     ghost start: Files, ghost targets: seq<Path>, ghost i: nat) returns (stop: bool)
      requires Ok(3) && !c.dry && current == Some(OnFile(f.path)) && FileConfirmed(c, f.path)
      requires GateOpen(log0) && log == log0 + [entry] && entry.what == Quarantine(f.path, true)
      requires i < |targets| && targets[i] == f.path
      modifies this`log, this`asked, this`fs, this`history
      ensures Ok(3) && old(log) <= log && GateDone(log) && (!stop ==> GateOpen(log))
      ensures stop ==> CutShort(log, c, actions)
      ensures SavedWith(old(fs), old(history), start, targets, i) ==> Saved(fs, history, start, targets)
      ensures !stop ==> fs == old(fs) && history == old(history)
      ensures Smooth() ==> !stop
    {
      var serving := ProbeHealth(3);
      ghost var probe := Entry(actions, Probe(serving));
      assert log == log0 + [entry, probe];
      if serving {
        GateOpenServing(log0, entry, probe);
        GateOpenKept(log);
        return false;
      }
      var restored := RollBack(f, start, targets, i);
      ghost var r, v := Entry(actions, Restore(f.path, restored)), Entry(actions, RolledBack(f.path, !restored));
      assert log == log0 + [entry, probe, r, v];
      RollBackKept(log0, entry, probe, r, v);
      assert RollsBackAt(log, |log0|);
      return true;
    }

    // --- the run

    // One launcher, if the limit allows.
    method HandleLauncher(f: Finding, stamp: string, ghost start: Files, ghost targets: seq<Path>) returns (ok: bool)
      requires Ok(1) && GateOpen(log) && LauncherFound(c, f.path, f.line)
      modifies this`log, this`actions, this`current, this`asked, this`fs, this`history
      ensures Ok(1) && GateOpen(log) && old(log) < log && (ok <==> old(actions) < Limit(c))
      ensures !ok ==> actions == old(actions) && CutShort(log, c, actions)
      ensures ok ==>
                && actions == old(actions) + 1 && log[|old(log)|].action == actions
                && WorkAt(log, c.dry, |old(log)|, OnLauncher(f.path, f.line))
      ensures c.dry ==> fs == old(fs)
      ensures ok && Smooth() && !c.dry ==> fs == NeutralizedOne(old(fs), f, stamp)
      ensures Tracked(old(fs), old(history), start, targets, 0) ==> Tracked(fs, history, start, targets, 0)
    {
      ghost var log0, fs0, h0 := log, fs, history;
      ok := Budget(1, OnLauncher(f.path, f.line));
      if !ok {
        GateOpenMore(log0, log[|log0|]);
        return;
      }
      NeutralizePersistence(f, stamp);
      GateOpenNoFiles(log0, log);
      LauncherConserves(fs0, h0, fs, history, start, targets, f.path);
    }

    method NeutralizeAll(stamp: string, ghost plan: Plan, ghost order: seq<Target>,
                         ghost start: Files, ghost targets: seq<Path>)
      returns (stop: bool)
      requires Ok(1) && GateOpen(log) && actions == 0
      requires Set(c, plan, order, targets) && |plan.launchers| <= |order|
      modifies this`log, this`actions, this`current, this`asked, this`fs, this`history
      ensures Ok(1) && GateOpen(log) && old(log) <= log
      ensures c.dry ==> fs == old(fs)
      ensures Tracked(old(fs), old(history), start, targets, 0) ==> Tracked(fs, history, start, targets, 0)
      ensures actions <= |order| && Taken(log, c.dry, order, actions)
      ensures if stop then CutShort(log, c, actions) else actions == |plan.launchers|
      ensures Easy(order) ==> !stop && AreNeutralized(old(fs), fs, plan.launchers, stamp, actions)
    {
      var launchers := SelectLaunchers(plan, order, targets);
      NeutralizedNone(fs, launchers, stamp);
      for i := 0 to |launchers|
        invariant Ok(1) && GateOpen(log) && old(log) <= log
        invariant c.dry ==> fs == old(fs)
        invariant actions == i && Taken(log, c.dry, order, i)
        invariant Easy(order) ==> AreNeutralized(old(fs), fs, launchers, stamp, i)
        invariant Tracked(old(fs), old(history), start, targets, 0) ==> Tracked(fs, history, start, targets, 0)
      {
        LauncherIsSet(c, plan, order, targets, i);
        ghost var log0, fs0 := log, fs;
        var ok := HandleLauncher(launchers[i], stamp, start, targets);
        if !ok {
          TakenStays(log0, log, c.dry, order, i);
          return true;
        }
        TakenMore(log0, log, c.dry, order, i);
        if Easy(order) { NeutralizedMore(old(fs), fs0, fs, launchers, stamp, i); }
      }
      return false;
    }

    method SelectLaunchers(ghost plan: Plan, ghost order: seq<Target>, ghost paths: seq<Path>)
      returns (launchers: seq<Finding>)
      requires Set(c, plan, order, paths)
      ensures launchers == plan.launchers
    {
      launchers := PersistenceTargets(c.findings);
      assert Shown(OfPlan, 0);
    }

    // One process, if the limit allows.
    method HandleProcess(f: Finding) returns (ok: bool)
      requires Ok(2) && GateOpen(log) && f in c.findings && IsProcTarget(f)
      modifies this`log, this`actions, this`current, this`asked
      ensures Ok(2) && GateOpen(log) && old(log) < log && (ok <==> old(actions) < Limit(c))
      ensures !ok ==> actions == old(actions) && CutShort(log, c, actions)
      ensures ok ==>
                && actions == old(actions) + 1 && log[|old(log)|].action == actions
                && WorkAt(log, c.dry, |old(log)|, OnProcess(f.pid))
      ensures ok && Smooth() && !c.dry && MaySignal(c, f.pid, f.comm) ==> Killed(log, f.pid)
    {
      ghost var log0 := log;
      ok := Budget(2, OnProcess(f.pid));
      if !ok {
        GateOpenMore(log0, log[|log0|]);
        return;
      }
      ContainProcess(f);
      GateOpenNoFiles(log0, log);
    }

    method ContainAll(procs: seq<Finding>, ghost plan: Plan, ghost order: seq<Target>, ghost paths: seq<Path>)
      returns (stop: bool)
      requires Ok(2) && GateOpen(log) && Set(c, plan, order, paths) && procs == plan.procs
      requires actions == |plan.launchers| && actions + |procs| <= |order| && Taken(log, c.dry, order, actions)
      modifies this`log, this`actions, this`current, this`asked
      ensures Ok(2) && GateOpen(log) && old(log) <= log
      ensures actions <= |order| && Taken(log, c.dry, order, actions)
      ensures if stop then CutShort(log, c, actions) else actions == |plan.launchers| + |procs|
      ensures Easy(order) ==> !stop && AllKilled(log, c, procs, |procs|)
    {
      for i := 0 to |procs|
        invariant Ok(2) && GateOpen(log) && old(log) <= log
        invariant actions == |plan.launchers| + i && Taken(log, c.dry, order, actions)
        invariant Easy(order) ==> AllKilled(log, c, procs, i)
      {
        ghost var log0, a := log, actions;
        ProcessIsSet(c, plan, order, paths, i);
        var ok := HandleProcess(procs[i]);
        if !ok {
          TakenStays(log0, log, c.dry, order, a);
          return true;
        }
        TakenMore(log0, log, c.dry, order, a);
        if Easy(order) { AllKilledStays(log0, log, c, procs, i); }
      }
      return false;
    }

    method QuarantineAll(files: seq<Finding>, gate: bool, ghost plan: Plan, ghost order: seq<Target>,
                         ghost start: Files, ghost targets: seq<Path>)
      returns (stop: bool)
      requires Ok(3) && GateOpen(log) && Set(c, plan, order, targets) && files == plan.files
      requires actions == |plan.launchers| + |plan.procs| && actions + |files| == |order| && |targets| == |files|
      requires Taken(log, c.dry, order, actions)
      modifies this`log, this`actions, this`current, this`asked, this`fs, this`history
      ensures Ok(3) && old(log) <= log
      ensures gate ==> GateDone(log) && (!stop ==> GateOpen(log))
      ensures c.dry ==> fs == old(fs)
      ensures Tracked(old(fs), old(history), start, targets, 0) ==> Saved(fs, history, start, targets)
      ensures actions <= |order| && Taken(log, c.dry, order, actions)
      ensures if stop then CutShort(log, c, actions) else actions == |order|
      ensures Easy(order) ==> !stop && AreMoved(old(fs), fs, files, hash, |files|)
    {
      GateOpenKept(log);
      NoneMoved(fs, files, hash);
      for i := 0 to |files|
        invariant actions == |plan.launchers| + |plan.procs| + i && Taken(log, c.dry, order, actions)
        invariant Easy(order) ==> AreMoved(old(fs), fs, files, hash, i)
        invariant Ok(3) && old(log) <= log
        invariant gate ==> GateOpen(log) && GateDone(log)
        invariant c.dry ==> fs == old(fs)
        invariant Tracked(old(fs), old(history), start, targets, 0) ==> Tracked(fs, history, start, targets, i)
      {
        ghost var log0, fs0, a := log, fs, actions;
        FileIsSet(c, plan, order, targets, i);
        stop := HandleFile(files[i], gate, start, targets, i);
        if actions == a {
          TakenStays(log0, log, c.dry, order, a);
        } else {
          TakenMore(log0, log, c.dry, order, a);
        }
        if stop { return; }
        if Easy(order) { OneMoreMoved(old(fs), fs0, fs, files, hash, i); }
      }
      TrackedIsSaved(fs, history, start, targets, |files|);
      return false;
    }

    // The one-shot script: once written whole it is removed again; either call can fail.
    method DropStub() returns (written: bool, removed: bool)
      requires Ok(3)
      modifies this`asked, this`fs, this`history
      ensures Ok(3) && old(history) <= history
      ensures SameExcept(old(fs), fs, {Stub})
      ensures forall k :: |old(history)| <= k < |history| ==> SameExcept(old(fs), history[k], {Stub})
      ensures written ==> |history| > |old(history)| && Stub in history[|old(history)|]
      ensures written && removed ==> Stub !in fs
      ensures Smooth() ==> written && removed
    {
      StubPlace(c);
      var ok, _ := WriteFile(Stub, [], 3);
      written, removed := ok, false;
      if ok {
        removed := Ask();
        if removed { Become(fs - {Stub}, Stub, Stub, 3); }
      }
    }

    // It asks the site to drop its compiled code.
    method FlushOPcache(ghost start: Files, ghost targets: seq<Path>) returns (written: bool, removed: bool)
      requires Ok(3)
      modifies this`log, this`asked, this`fs, this`history
      ensures Ok(3) && log == old(log) + [Entry(actions, if c.dry then Planned(None) else Flush)]
      ensures c.dry ==> fs == old(fs) && !written
      ensures Saved(old(fs), old(history), start, targets) ==> Saved(fs, history, start, targets)
      ensures SameExcept(old(fs), fs, {Stub})
      ensures written ==> |history| > |old(history)| && Stub in history[|old(history)|]
      ensures written && removed ==> Stub !in fs
      ensures Smooth() && !c.dry ==> written && removed
    {
      if c.dry {
        Emit(Planned(None), 3);
        return false, false;
      }
      ghost var fs0, h0 := fs, history;
      written, removed := DropStub();
      StubConserves(fs0, h0, fs, history, start, targets);
      Emit(Flush, 3);
    }

    /** One run, from an empty log, in any environment. It takes its targets one after the
        other, all of them unless it is cut short. Where nothing goes wrong, and there is
        a process or a file to contain, every launcher line is commented out, every
        process that may be signalled is killed, and every file in date is moved. */
    method RunContainment(stamp: string)
      requires log == [] && actions == 0 && current == None && history == []
      modifies this
      ensures Safe(log, c, actions, 3) && origin == old(fs)
      ensures c.dry ==> fs == old(fs)
      ensures log != [] && log[0].what == Probe(true) ==> GateKept(log)
      ensures var targets := Paths(Filter(c.findings, IsFileTarget));
              Apart(targets) ==>
                && AllKept(fs, old(fs), targets)
                && forall k :: 0 <= k < |history| ==> AllKept(history[k], old(fs), targets)
      ensures Framed(c, old(fs), fs) && forall k :: 0 <= k < |history| ==> Framed(c, old(fs), history[k])
      ensures Finished(log, c, PlanOf(c), actions)
      ensures Unhindered() ==> Contained(old(fs), PlanOf(c), stamp)
    {
      origin := fs;
      FreshIsOk();
      ghost var plan, order, paths := Run(stamp);
      OkIsSafe(3);
      assert Shown(OfPlan, 0) && Shown(OfFiles, 0) && Shown(OfGate, 0);
    }

    // What a run that nothing hinders makes of the processes and the files.
    ghost predicate Contained(fs0: Files, plan: Plan, stamp: string)
      reads this
    {
      if plan.procs == [] && plan.files == [] then fs == fs0
      else
        && AllKilled(log, c, plan.procs, |plan.procs|)
        && SameExcept(MovedAll(NeutralizedAll(fs0, plan.launchers, stamp), plan.files, hash), fs, {Stub})
    }

    // The same, closed.
    ghost predicate IsContained(fs0: Files, plan: Plan, stamp: string)
      reads this
    {
      if plan.procs == [] && plan.files == [] then fs == fs0
      else
        && AllKilled(log, c, plan.procs, |plan.procs|)
        && AreHandled(fs0, fs, plan.launchers, stamp, plan.files, hash)
    }

    // How a run ends, with the order at hand.
    ghost predicate Over(plan: Plan, order: seq<Target>)
      reads this
    {
      && actions <= |order| && Taken(log, c.dry, order, actions)
      && (|| CutShort(log, c, actions)
          || (actions == 0 && NeverBegan(log, plan))
          || (actions == |order| && Closed(log, c.dry, plan.files != [])))
    }

    lemma FreshIsOk()
      requires log == [] && actions == 0 && current == None && origin == fs && history == []
      ensures Ok(1)
    {
      assert Invariant(1);
    }

    lemma OkIsSafe(stage: nat)
      requires Ok(stage)
      ensures Safe(log, c, actions, stage)
      ensures Framed(c, origin, fs) && forall k :: 0 <= k < |history| ==> Framed(c, origin, history[k])
    {
      assert Unfolded(0);
    }

    lemma OkLater(stage: nat, later: nat)
      requires Ok(stage) && stage <= later
      ensures Ok(later)
      decreases later - stage
    {
      if stage < later {
        assert Unfolded(0);
        RaiseStage(log, c, actions, stage);
        assert Invariant(stage + 1);
        OkLater(stage + 1, later);
      }
    }

    method Run(stamp: string) returns (ghost plan: Plan, ghost order: seq<Target>, ghost paths: seq<Path>)
      requires Ok(1) && log == [] && history == [] && actions == 0
      modifies this`log, this`actions, this`current, this`asked, this`fs, this`history
      ensures Ok(3) && Set(c, plan, order, paths)
      ensures c.dry ==> fs == old(fs)
      ensures log != [] && log[0].what == Probe(true) ==> GateDone(log)
      ensures Saved(fs, history, old(fs), paths)
      ensures Over(plan, order)
      ensures Easy(order) ==> IsContained(old(fs), plan, stamp)
    {
      plan, order, paths := SetOut(c);
      ghost var start := fs;
      StartIsTracked(fs, paths);
      TrackedIsSaved(fs, history, fs, paths, 0);
      var go, gate := Begin();
      if !go {
        OkLater(1, 3);
        NoneTaken(log, c.dry, order);
        return;
      }
      var procs, files := Select(plan, order, paths);
      if |procs| == 0 && |files| == 0 {
        GateOpenMore(log, Entry(actions, NothingToDo));
        Emit(NothingToDo, 1);
        GateOpenKept(log);
        OkLater(1, 3);
        NoneTaken(log, c.dry, order);
        return;
      }
      RunStages(procs, files, gate, stamp, plan, order, start, paths);
    }

    method Select(ghost plan: Plan, ghost order: seq<Target>, ghost paths: seq<Path>)
      returns (procs: seq<Finding>, files: seq<Finding>)
      requires Set(c, plan, order, paths)
      ensures procs == plan.procs && files == plan.files
    {
      procs, files := SelectTargets(c.findings);
      assert Shown(OfPlan, 0);
    }

    // The evidence directory and the health baseline.
    method Begin() returns (go: bool, gate: bool)
      requires Ok(1) && log == []
      modifies this`log, this`asked
      ensures Ok(1) && GateOpen(log) && log != []
      ensures Smooth() ==> go
      ensures !go ==> |log| == 1 && log[0].what == SetupFailed
      ensures go ==> log[0].what == Probe(gate)
    {
      if !c.dry {
        var dir := Ask();
        if !dir {
          Emit(SetupFailed, 1);
          return false, false;
        }
      }
      gate := ProbeHealth(1);
      if !gate { Emit(NoGate, 1); }
      return true, gate;
    }

    method RunStages(procs: seq<Finding>, files: seq<Finding>, gate: bool, stamp: string,
                     ghost plan: Plan, ghost order: seq<Target>, ghost start: Files, ghost targets: seq<Path>)
      requires Ok(1) && GateOpen(log) && actions == 0 && Set(c, plan, order, targets)
      requires procs == plan.procs && files == plan.files && (procs != [] || files != [])
      modifies this`log, this`actions, this`current, this`asked, this`fs, this`history
      ensures Ok(3) && old(log) <= log
      ensures gate ==> GateDone(log)
      ensures c.dry ==> fs == old(fs)
      ensures Tracked(old(fs), old(history), start, targets, 0) ==> Saved(fs, history, start, targets)
      ensures Over(plan, order)
      ensures Easy(order) ==> IsContained(old(fs), plan, stamp)
    {
      GateOpenKept(log);
      SetSizes(c, plan, order, targets);
      ghost var fs0 := fs;
      var stop := NeutralizeAll(stamp, plan, order, start, targets);
      OkLater(1, 2);
      if stop {
        OkLater(2, 3);
        GateOpenKept(log);
        TrackedIsSaved(fs, history, start, targets, 0);
        return;
      }
      ghost var fs1 := fs;
      RunTargets(procs, files, gate, plan, order, stamp, start, targets);
      if Easy(order) { NeutralizedAndHandled(fs0, fs1, fs, plan.launchers, stamp, files, hash); }
    }

    // Processes and then files, with the launchers done.
    method RunTargets(procs: seq<Finding>, files: seq<Finding>, gate: bool, ghost plan: Plan, ghost order: seq<Target>,
                      ghost stamp: string, ghost start: Files, ghost targets: seq<Path>)
      requires Ok(2) && GateOpen(log) && Set(c, plan, order, targets)
      requires procs == plan.procs && files == plan.files && |targets| == |files|
      requires actions == |plan.launchers| && actions + |procs| + |files| == |order|
      requires Taken(log, c.dry, order, actions)
      modifies this`log, this`actions, this`current, this`asked, this`fs, this`history
      ensures Ok(3) && old(log) <= log
      ensures gate ==> GateDone(log)
      ensures c.dry ==> fs == old(fs)
      ensures Tracked(old(fs), old(history), start, targets, 0) ==> Saved(fs, history, start, targets)
      ensures Over(plan, order)
      ensures Easy(order) ==>
                AllKilled(log, c, procs, |procs|) && AreHandled(old(fs), fs, [], stamp, files, hash)
    {
      var stop := ContainAll(procs, plan, order, targets);
      OkLater(2, 3);
      if stop {
        GateOpenKept(log);
        TrackedIsSaved(fs, history, start, targets, 0);
        return;
      }
      ghost var log0 := log;
      RunFiles(files, gate, plan, order, stamp, start, targets);
      if Easy(order) { AllKilledStays(log0, log, c, procs, |procs|); }
    }

    method RunFiles(files: seq<Finding>, gate: bool, ghost plan: Plan, ghost order: seq<Target>,
                    ghost stamp: string, ghost start: Files, ghost targets: seq<Path>)
      requires Ok(3) && GateOpen(log) && Set(c, plan, order, targets) && files == plan.files
      requires actions == |plan.launchers| + |plan.procs| && actions + |files| == |order| && |targets| == |files|
      requires Taken(log, c.dry, order, actions)
      modifies this`log, this`actions, this`current, this`asked, this`fs, this`history
      ensures Ok(3) && old(log) <= log
      ensures gate ==> GateDone(log)
      ensures c.dry ==> fs == old(fs)
      ensures Tracked(old(fs), old(history), start, targets, 0) ==> Saved(fs, history, start, targets)
      ensures Over(plan, order)
      ensures Easy(order) ==> AreHandled(old(fs), fs, [], stamp, files, hash)
    {
      var stop := QuarantineAll(files, gate, plan, order, start, targets);
      if !stop {
        ghost var log0, fs1 := log, fs;
        FinishRun(|files| > 0, gate, start, targets);
        TakenStays(log0, log, c.dry, order, actions);
        if Easy(order) { MovedAndFlushed(old(fs), fs1, fs, files, stamp, hash); }
      }
    }

    method FinishRun(flush: bool, ghost gate: bool, ghost start: Files, ghost targets: seq<Path>)
      requires Ok(3) && (gate ==> GateOpen(log))
      modifies this`log, this`asked, this`fs, this`history
      ensures Ok(3) && old(log) <= log && (gate ==> GateDone(log))
      ensures c.dry ==> fs == old(fs)
      ensures Saved(old(fs), old(history), start, targets) ==> Saved(fs, history, start, targets)
      ensures SameExcept(old(fs), fs, {Stub})
      ensures Closed(log, c.dry, flush)
    {
      ghost var log0 := log;
      if flush {
        var _, _ := FlushOPcache(start, targets);
        if gate { GateOpenMore(log0, log[|log0|]); }
      }
      ghost var log1 := log;
      var _ := ProbeHealth(3);
      if gate { GateOpenMore(log1, log[|log1|]); GateOpenKept(log); }
    }
  }
}
