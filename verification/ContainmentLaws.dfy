/** What follows from the safety of a run's log, and where conservation ends. */
module ContainmentLaws {
  import opened Common
  import opened Containment
  import opened ContainmentFiles
  import opened ContainmentRuns
  import opened ContainmentEngine

  ghost function Touched(log: Log, a: nat): set<Target> {
    set k | 0 <= k < |log| && log[k].action <= a && TargetOf(log[k].what).Some? :: TargetOf(log[k].what).value
  }

  /** At most as many different targets are touched in a run as the limit says, 25 if there
      is none. */
  lemma {:induction false} TargetsAreBounded(log: Log, c: Config, actions: nat)
    requires ActionsAreBounded(log, c, actions)
    ensures |Touched(log, actions)| <= if c.maxActions > 0 then c.maxActions else 25
  {
    TouchedUpTo(log, c, actions, actions);
  }

  lemma {:induction false} TouchedUpTo(log: Log, c: Config, actions: nat, a: nat)
    requires ActionsAreBounded(log, c, actions)
    ensures |Touched(log, a)| <= a
  {
    if a == 0 {
      assert Touched(log, 0) == {};
    } else {
      TouchedUpTo(log, c, actions, a - 1);
      var less := Touched(log, a - 1);
      if k :| 0 <= k < |log| && log[k].action == a && TargetOf(log[k].what).Some? {
        var t := TargetOf(log[k].what);
        assert OnlyTouched(log, a, t);
        assert Touched(log, a) <= less + {t.value};
        SubsetSize(Touched(log, a), less + {t.value});
      } else {
        assert Touched(log, a) <= less;
        SubsetSize(Touched(log, a), less);
      }
    }
  }

  lemma {:induction false} SubsetSize(x: set<Target>, y: set<Target>)
    requires x <= y
    ensures |x| <= |y|
  {
    if x != {} {
      var t :| t in x;
      SubsetSize(x - {t}, y - {t});
    }
  }

  // ---------------------------------------------------------------------
  // Which paths meet in the evidence store
  // ---------------------------------------------------------------------

  lemma {:induction false} AfterFirstColon(front: string, rest: string)
    requires ':' !in front
    ensures AfterColon(front + ":" + rest) == rest
  {
    var part := front + ":" + rest;
    assert part[|front|] == ':';
    ColonIsFirst(front, rest);
  }

  lemma {:induction false} ColonIsFirst(front: string, rest: string)
    requires ':' !in front
    ensures var part := front + ":" + rest;
            (exists i :: 0 <= i < |part| && part[i] == ':') && FirstColon(part) == |front|
  {
    var part := front + ":" + rest;
    assert part[|front|] == ':';
    if front != "" {
      assert front[0] in front;
      ColonIsFirst(front[1..], rest);
      assert part[1..] == front[1..] + ":" + rest;
    }
  }

  lemma {:induction false} KeptPartsMore(dir: Path, name: string)
    ensures KeptParts(dir + [name]) == KeptParts(dir) + KeptParts([name])
  {
    if dir == [] {
      assert dir + [name] == [name];
    } else {
      assert (dir + [name])[1..] == dir[1..] + [name];
      KeptPartsMore(dir[1..], name);
    }
  }

  /** Names that differ only before a colon meet in the evidence store. */
  lemma ColonNamesMeet(dir: Path, a: string, b: string, name: string)
    requires ':' !in a && ':' !in b
    ensures SafeRelPath(dir + [a + ":" + name]) == SafeRelPath(dir + [b + ":" + name])
    ensures Replaces(dir + [b + ":" + name], dir + [a + ":" + name])
  {
    AfterFirstColon(a, name);
    AfterFirstColon(b, name);
    KeptPartsMore(dir, a + ":" + name);
    KeptPartsMore(dir, b + ":" + name);
    assert (a + ":" + name)[|a|] == ':' && (b + ":" + name)[|b|] == ':';
  }

  // A path of names that are stored as they are.
  predicate Plain(p: Path) {
    p != [] && forall k :: 0 <= k < |p| ==> p[k] !in {"", ".", ".."} && ':' !in p[k]
  }

  lemma {:induction false} PlainIsKept(p: Path)
    requires forall k :: 0 <= k < |p| ==> p[k] !in {"", ".", ".."} && ':' !in p[k]
    ensures KeptParts(p) == p
  {
    if p != [] {
      PlainIsKept(p[1..]);
      assert p == [p[0]] + p[1..];
    }
  }

  lemma {:induction false} PlainIsJoined(p: Path, done: Path)
    requires forall k :: 0 <= k < |p| ==> p[k] !in {"", ".", ".."}
    ensures Joined(p, done) == done + p
    decreases |p|
  {
    if p != [] {
      PlainIsJoined(p[1..], done + [p[0]]);
      assert done + [p[0]] + p[1..] == done + p;
    }
  }

  lemma PlainIsStored(p: Path)
    requires Plain(p)
    ensures SafeRelPath(p) == p
  {
    PlainIsKept(p);
    PlainIsJoined(p, []);
    assert [] + p == p;
  }

  /** Different paths without a colon meet exactly when one is the other's custody file. */
  lemma PlainPathsMeet(q: Path, p: Path)
    requires Plain(p) && Plain(q) && p != q
    ensures Replaces(q, p) <==> p == MetaPath(q)
  {
    PlainIsStored(p);
    PlainIsStored(q);
  }

  // ---------------------------------------------------------------------
  // Where conservation ends
  // ---------------------------------------------------------------------

  // A digest that all contents share, and findings that record another one, or none.
  function SameHash(x: Content): (h: string)
    ensures h != "old"
  {
    assert "new"[0] != "old"[0];
    "new"
  }

  predicate OldOrNone(files: seq<Finding>) {
    forall i :: 0 <= i < |files| ==> files[i].digest in {"", "old"}
  }

  /** Moving targets, with any of them out of date, keeps them all, whatever the files hold,
      exactly when no target replaces another one before it. */
  lemma EvidenceClashIsExact(targets: seq<Path>)
    ensures (forall fs, files, hash {:trigger MovedAll(fs, files, hash)} | Paths(files) == targets ::
               AllKept(MovedAll(fs, files, hash), fs, targets)) <==> Apart(targets)
  {
    if Apart(targets) {
      forall fs, files, hash {:trigger MovedAll(fs, files, hash)} | Paths(files) == targets
        ensures AllKept(MovedAll(fs, files, hash), fs, targets)
      {
        ApartKeeps(fs, files, hash);
      }
    } else {
      var fs, files := ClashIsFound(targets);
    }
  }

  lemma ApartKeeps(fs: Files, files: seq<Finding>, hash: Content -> string)
    requires Apart(Paths(files))
    ensures AllKept(MovedAll(fs, files, hash), fs, Paths(files))
  {
    assert files[0..] == files;
    MovedKeeps(fs, fs, files, hash, 0);
  }

  lemma ClashIsFound(targets: seq<Path>) returns (fs: Files, files: seq<Finding>)
    requires !Apart(targets)
    ensures Paths(files) == targets && !AllKept(MovedAll(fs, files, SameHash), fs, targets)
  {
    var j, k := Clash(targets);
    files := FilesFound(targets, j);
    ClashLoses(files, j, k);
    fs := TwoFiles(targets[j], targets[k]);
  }

  lemma Clash(targets: seq<Path>) returns (j: nat, k: nat)
    requires !Apart(targets)
    ensures j < k < |targets| && targets[j] != targets[k] && Replaces(targets[k], targets[j])
  {
    j, k :| 0 <= j < k < |targets| && targets[j] != targets[k] && Replaces(targets[k], targets[j]);
  }

  /** With no path twice and nothing out of date, all the same. */
  lemma DistinctClashIsExact(targets: seq<Path>)
    requires forall j, k :: 0 <= j < k < |targets| ==> targets[j] != targets[k]
    ensures var files := FilesFound(targets, 0);
            (forall fs, hash {:trigger MovedAll(fs, files, hash)} ::
               AllKept(MovedAll(fs, files, hash), fs, targets)) <==> Apart(targets)
  {
    var files := FilesFound(targets, 0);
    if Apart(targets) {
      forall fs, hash {:trigger MovedAll(fs, files, hash)}
        ensures AllKept(MovedAll(fs, files, hash), fs, targets)
      {
        ApartKeeps(fs, files, hash);
      }
    } else {
      var fs := DistinctClash(targets, files);
    }
  }

  lemma DistinctClash(targets: seq<Path>, files: seq<Finding>) returns (fs: Files)
    requires forall j, k :: 0 <= j < k < |targets| ==> targets[j] != targets[k]
    requires !Apart(targets) && Paths(files) == targets && forall i :: 0 <= i < |files| ==> files[i].digest == ""
    ensures !AllKept(MovedAll(fs, files, SameHash), fs, targets)
  {
    var j, k := Clash(targets);
    ClashLoses(files, j, k);
    fs := TwoFiles(targets[j], targets[k]);
  }

  lemma {:induction false} MovedKeeps(fs: Files, start: Files, files: seq<Finding>, hash: Content -> string, i: nat)
    requires Apart(Paths(files)) && i <= |files|
    requires AllKept(fs, start, Paths(files)) && InPlace(fs, start, Paths(files), i)
    ensures AllKept(MovedAll(fs, files[i..], hash), start, Paths(files))
    decreases |files| - i
  {
    if i < |files| {
      var p, next := files[i].path, MovedOne(fs, files[i], hash);
      if next != fs {
        var mid := (fs - {Site(p)})[Evidence(p) := fs[Site(p)]];
        assert MidMove(fs, Site(p), Evidence(p), mid) && SameExcept(mid, next, {Custody(p)});
      }
      QuarantineKeeps(fs, next, start, Paths(files), i);
      assert files[i..][1..] == files[i + 1..];
      MovedKeeps(next, start, files, hash, i + 1);
    }
  }

  // Two files, of a line each.
  function TwoFiles(p: Path, q: Path): Files {
    map[Site(p) := ["a"], Site(q) := ["b"]]
  }

  // Moving them loses the first, if the second is not moved before it.
  lemma ClashLoses(files: seq<Finding>, j: nat, k: nat)
    requires OldOrNone(files)
    requires j < k < |files| && files[j].digest == "" && files[k].digest == ""
    requires files[j].path != files[k].path && Replaces(files[k].path, files[j].path)
    requires forall n :: 0 <= n < j ==> files[n].digest != "" || files[n].path != files[k].path
    ensures var fs := TwoFiles(files[j].path, files[k].path); !AllKept(MovedAll(fs, files, SameHash), fs, Paths(files))
  {
    var fs := TwoFiles(files[j].path, files[k].path);
    FirstMoves(fs, files, j, k);
    LostIsNotKept(MovedAll(fs, files, SameHash), fs, Paths(files), j);
  }

  lemma LostIsNotKept(fs: Files, start: Files, targets: seq<Path>, j: nat)
    requires j < |targets| && Lost(fs, targets[j])
    requires Site(targets[j]) in start && start[Site(targets[j])] == ["a"]
    ensures !AllKept(fs, start, targets)
  {
    assert !Kept(fs, targets[j], start[Site(targets[j])]);
  }

  ghost predicate Lost(fs: Files, p: Path) {
    Site(p) !in fs && (Evidence(p) in fs ==> fs[Evidence(p)] != ["a"])
  }

  lemma {:induction false} FirstMoves(fs: Files, files: seq<Finding>, j: nat, k: nat)
    requires OldOrNone(files)
    requires j < k < |files| && files[j].digest == "" && files[k].digest == ""
    requires files[j].path != files[k].path && Replaces(files[k].path, files[j].path)
    requires forall n :: 0 <= n < j ==> files[n].digest != "" || files[n].path != files[k].path
    requires fs == TwoFiles(files[j].path, files[k].path)
    ensures Lost(MovedAll(fs, files, SameHash), files[j].path)
    decreases |files|
  {
    var p, q := files[j].path, files[k].path;
    assert files[1..][k - 1] == files[k];
    if files[0].path == p && files[0].digest == "" {
      SecondMoves(Moved(fs, p), files[1..], p, k - 1);
    } else {
      assert files[1..][j - 1] == files[j];
      FirstMoves(fs, files[1..], j - 1, k - 1);
    }
  }

  lemma {:induction false} SecondMoves(fs: Files, files: seq<Finding>, p: Path, k: nat)
    requires OldOrNone(files)
    requires k < |files| && files[k].digest == "" && p != files[k].path && Replaces(files[k].path, p)
    requires fs == Moved(TwoFiles(p, files[k].path), p)
    ensures Lost(MovedAll(fs, files, SameHash), p)
    decreases |files|
  {
    var q := files[k].path;
    if files[0].path == q && files[0].digest == "" {
      CustodyPathDiffers(SafeRelPath(q));
      var last := Moved(fs, q);
      assert Lost(last, p);
      NothingMoves(last, files[1..]);
    } else {
      assert files[1..][k - 1] == files[k];
      SecondMoves(fs, files[1..], p, k - 1);
    }
  }

  lemma {:induction false} NothingMoves(fs: Files, files: seq<Finding>)
    requires forall p :: Site(p) !in fs
    ensures MovedAll(fs, files, SameHash) == fs
    decreases |files|
  {
    if files != [] { NothingMoves(fs, files[1..]); }
  }

  // ---------------------------------------------------------------------
  // A run that loses a file
  // ---------------------------------------------------------------------

  // A confirmed finding for each path, none of them a launcher or a process; the
  // first few have a digest.
  function FilesFound(targets: seq<Path>, stale: nat): (fs: seq<Finding>)
    ensures Paths(fs) == targets
    ensures forall i :: 0 <= i < |fs| ==> fs[i].digest == if i < stale then "old" else ""
  {
    seq(|targets|, i requires 0 <= i < |targets| =>
      Finding("", Confirmed, targets[i], 0, 0, "", true, if i < stale then "old" else ""))
  }

  lemma {:induction false} FilesFoundAreFiles(targets: seq<Path>, stale: nat)
    requires forall k :: 0 <= k < |targets| ==> targets[k] != []
    ensures var fs := FilesFound(targets, stale);
            Filter(fs, IsFileTarget) == fs && Filter(fs, IsLauncher) == [] && Filter(fs, IsProcTarget) == []
    decreases |targets|
  {
    if targets != [] {
      var n := |targets| - 1;
      var fs, less := FilesFound(targets, stale), FilesFound(targets[..n], stale);
      FilesFoundAreFiles(targets[..n], stale);
      assert fs == less + [fs[n]];
      FilterMore(less, fs[n], IsFileTarget);
      FilterMore(less, fs[n], IsLauncher);
      FilterMore(less, fs[n], IsProcTarget);
    }
  }

  method Find(targets: seq<Path>, stale: nat) returns (fs: seq<Finding>)
    requires forall k :: 0 <= k < |targets| ==> targets[k] != []
    ensures Paths(fs) == targets
    ensures Filter(fs, IsFileTarget) == fs && Filter(fs, IsLauncher) == [] && Filter(fs, IsProcTarget) == []
    ensures forall i :: 0 <= i < |fs| ==> fs[i].digest == if i < stale then "old" else ""
  {
    fs := FilesFound(targets, stale);
    FilesFoundAreFiles(targets, stale);
  }

  // A run on these files and for these findings in which no call fails.
  method RunOnFiles(found: seq<Finding>, fs: Files) returns (e: Engine)
    requires found != [] && Filter(found, IsFileTarget) == found
    requires Filter(found, IsLauncher) == [] && Filter(found, IsProcTarget) == []
    requires forall k :: 0 <= k < |found| ==> found[k].digest in {"", "old"}
    ensures fresh(e) && e.Smooth() && e.c.findings == found && e.origin == fs
    ensures Safe(e.log, e.c, e.actions, 3)
    ensures SameExcept(MovedAll(fs, found, SameHash), e.fs, {Stub})
  {
    var c := Config(false, |found|, found, 0, 0);
    e := new Engine(c, _ => true, _ => [], SameHash, fs);
    assert NeutralizedAll(fs, [], "") == fs;
    e.RunContainment("");
  }

  // So one that loses a file if moving them does.
  method RunAndLose(found: seq<Finding>, fs: Files) returns (e: Engine)
    requires found != [] && Filter(found, IsFileTarget) == found
    requires Filter(found, IsLauncher) == [] && Filter(found, IsProcTarget) == []
    requires forall k :: 0 <= k < |found| ==> found[k].digest in {"", "old"}
    requires !AllKept(MovedAll(fs, found, SameHash), fs, Paths(found))
    ensures fresh(e) && e.Smooth() && e.c.findings == found && e.origin == fs
    ensures Safe(e.log, e.c, e.actions, 3) && !AllKept(e.fs, fs, Paths(found))
  {
    e := RunOnFiles(found, fs);
    StubIsNoTarget(MovedAll(fs, found, SameHash), e.fs, fs, Paths(found));
  }

  /** For every two targets of which the later replaces the earlier there is a run, with files
      there are and no call failing, after which the earlier file's content is nowhere. */
  method ClashLosesAFile(targets: seq<Path>, j: nat, k: nat) returns (e: Engine)
    requires forall n :: 0 <= n < |targets| ==> targets[n] != []
    requires j < k < |targets| && targets[j] != targets[k] && Replaces(targets[k], targets[j])
    ensures fresh(e) && e.Smooth() && Paths(Filter(e.c.findings, IsFileTarget)) == targets
    ensures Safe(e.log, e.c, e.actions, 3)
    ensures e.origin == TwoFiles(targets[j], targets[k]) && !AllKept(e.fs, e.origin, targets)
  {
    var files := Find(targets, j);
    ClashLoses(files, j, k);
    e := RunAndLose(files, TwoFiles(targets[j], targets[k]));
  }

  lemma StubIsNoTarget(fs: Files, gs: Files, start: Files, targets: seq<Path>)
    requires SameExcept(fs, gs, {Stub}) && !AllKept(fs, start, targets)
    ensures !AllKept(gs, start, targets)
  {
    var k :| 0 <= k < |targets| && Site(targets[k]) in start && !Kept(fs, targets[k], start[Site(targets[k])]);
    assert !Kept(gs, targets[k], start[Site(targets[k])]);
  }
}
