/** What containment does to files, and why no content is lost. */
module ContainmentFiles {
  import opened Common
  import opened Containment

  // A target's place in evidence.
  function Evidence(p: Path): Loc {
    Held(SafeRelPath(p))
  }

  function Custody(p: Path): Loc {
    Held(MetaPath(SafeRelPath(p)))
  }

  ghost predicate Kept(fs: Files, p: Path, content: Content) {
    || (Site(p) in fs && fs[Site(p)] == content)
    || (Evidence(p) in fs && fs[Evidence(p)] == content)
  }

  // Every target that was there at the start is at its own path or in evidence.
  ghost predicate AllKept(fs: Files, start: Files, targets: seq<Path>) {
    forall k :: 0 <= k < |targets| && Site(targets[k]) in start ==> Kept(fs, targets[k], start[Site(targets[k])])
  }

  ghost predicate SameAt(fs: Files, gs: Files, l: Loc) {
    (l in fs <==> l in gs) && (l in fs ==> fs[l] == gs[l])
  }

  ghost predicate SameExcept(fs: Files, gs: Files, ls: set<Loc>) {
    forall l {:trigger l in gs} {:trigger l in fs} :: l !in ls ==>
      (l in fs <==> l in gs) && (l in fs ==> fs[l] == gs[l])
  }

  // The places that a run may change: launchers found, with their backups; confirmed
  // files, with their evidence and custody files; the flush script.
  ghost predicate MayChange(c: Config, l: Loc) {
    match l
    case Launcher(p) => exists line :: LauncherFound(c, p, line)
    case Backup(p) => exists line :: LauncherFound(c, p, line)
    case Site(p) => FileConfirmed(c, p)
    case Held(q) => exists p :: FileConfirmed(c, p) && q in {SafeRelPath(p), MetaPath(SafeRelPath(p))}
    case Stub => true
  }

  ghost predicate Framed(c: Config, fs: Files, gs: Files) {
    forall l {:trigger l in gs} {:trigger l in fs} :: !MayChange(c, l) ==>
      (l in fs <==> l in gs) && (l in fs ==> fs[l] == gs[l])
  }

  ghost predicate Place(c: Config, l: Loc) {
    forall n {:trigger Unfolded(n)} :: Unfolded(n) ==> MayChange(c, l)
  }

  lemma FilePlaces(c: Config, p: Path)
    requires FileConfirmed(c, p)
    ensures Place(c, Site(p)) && Place(c, Held(SafeRelPath(p))) && Place(c, Held(MetaPath(SafeRelPath(p))))
  {
    assert MayChange(c, Site(p)) && MayChange(c, Held(SafeRelPath(p))) && MayChange(c, Held(MetaPath(SafeRelPath(p))));
  }

  lemma LauncherPlaces(c: Config, p: Path, line: int)
    requires LauncherFound(c, p, line)
    ensures Place(c, Launcher(p)) && Place(c, Backup(p))
  {
    assert MayChange(c, Launcher(p)) && MayChange(c, Backup(p));
  }

  lemma StubPlace(c: Config)
    ensures Place(c, Stub)
  {
    assert MayChange(c, Stub);
  }

  lemma StillFramed(c: Config, fs: Files, gs: Files, hs: Files, a: Loc, b: Loc)
    requires Framed(c, fs, gs) && Place(c, a) && Place(c, b) && SameExcept(gs, hs, {a, b})
    ensures Framed(c, fs, hs)
  {
    assert Unfolded(0);
    assert MayChange(c, a) && MayChange(c, b);
  }

  // A state a move of from to to can pass through: the content is at one of the two,
  // and nothing else is ever at the first.
  ghost predicate MidMove(before: Files, from: Loc, to: Loc, fs: Files) {
    && SameExcept(before, fs, {from, to})
    && (from in fs ==> SameAt(before, fs, from))
    && (from in before ==> from in fs || (to in fs && fs[to] == before[from]))
  }

  lemma MoveStates(before: Files, from: Loc, to: Loc, x: Content)
    requires from != to && from in before
    ensures MidMove(before, from, to, before[to := x])
    ensures MidMove(before, from, to, (before - {from})[to := before[from]])
    ensures before[to := before[from]] - {from} == (before - {from})[to := before[from]]
  {
  }

  // Storing q would replace what is stored of p: they meet in the evidence store, or q's
  // custody file meets p.
  predicate Replaces(q: Path, p: Path) {
    SafeRelPath(q) == SafeRelPath(p) || MetaPath(SafeRelPath(q)) == SafeRelPath(p)
  }

  // No target replaces another one before it.  A path can be a target several times.
  ghost predicate Apart(targets: seq<Path>) {
    forall j, k :: 0 <= j < k < |targets| && targets[j] != targets[k] ==> !Replaces(targets[k], targets[j])
  }

  ghost predicate Conserved(fs: Files, history: seq<Files>, start: Files, targets: seq<Path>) {
    AllKept(fs, start, targets) && forall k :: 0 <= k < |history| ==> AllKept(history[k], start, targets)
  }

  // Targets before number i have been dealt with: the others are where they were, and no
  // target's own path holds anything new.
  ghost predicate InPlace(fs: Files, start: Files, targets: seq<Path>, i: nat) {
    && (forall k :: 0 <= k < |targets| && Site(targets[k]) in fs ==> SameAt(start, fs, Site(targets[k])))
    && (forall k :: i <= k < |targets| && targets[k] !in targets[..i] ==> SameAt(start, fs, Site(targets[k])))
  }

  ghost predicate Underway(fs: Files, history: seq<Files>, start: Files, targets: seq<Path>, i: nat)
    requires i <= |targets|
  {
    Conserved(fs, history, start, targets) && InPlace(fs, start, targets, i)
  }

  // The same for targets of which none replaces another one before it, closed: before
  // target number i is dealt with, and at any time.
  ghost predicate Tracked(fs: Files, history: seq<Files>, start: Files, targets: seq<Path>, i: nat) {
    forall n {:trigger Shown(OfFiles, n)} :: Shown(OfFiles, n) ==>
      i <= |targets| && (Apart(targets) ==> Underway(fs, history, start, targets, i))
  }

  ghost predicate Saved(fs: Files, history: seq<Files>, start: Files, targets: seq<Path>) {
    forall n {:trigger Shown(OfFiles, n)} :: Shown(OfFiles, n) ==>
      Apart(targets) ==> Conserved(fs, history, start, targets)
  }

  // And with target number i in evidence, if it was there at the start.
  ghost predicate SavedWith(fs: Files, history: seq<Files>, start: Files, targets: seq<Path>, i: nat) {
    forall n {:trigger Shown(OfFiles, n)} :: Shown(OfFiles, n) ==>
      i < |targets| && (Apart(targets) ==> Conserved(fs, history, start, targets) && Stored(fs, start, targets[i]))
  }

  lemma TrackedIsSaved(fs: Files, history: seq<Files>, start: Files, targets: seq<Path>, i: nat)
    ensures Tracked(fs, history, start, targets, i) ==> Saved(fs, history, start, targets)
  {
    assert Shown(OfFiles, 0);
  }

  lemma StartIsTracked(start: Files, targets: seq<Path>)
    ensures Tracked(start, [], start, targets, 0)
  {
  }

  // Moving a target between its two places, either way, keeps every target.
  lemma MoveKeeps(before: Files, fs: Files, start: Files, targets: seq<Path>, i: nat, from: Loc, to: Loc)
    requires Apart(targets) && i < |targets| && AllKept(before, start, targets)
    requires {from, to} == {Site(targets[i]), Evidence(targets[i])}
    requires Site(targets[i]) in start ==> from in before && before[from] == start[Site(targets[i])]
    requires MidMove(before, from, to, fs)
    ensures AllKept(fs, start, targets)
  {
    forall k | 0 <= k < |targets| && Site(targets[k]) in start
      ensures Kept(fs, targets[k], start[Site(targets[k])])
    {
      assert Kept(before, targets[k], start[Site(targets[k])]);
      if targets[k] != targets[i] {
        assert !Replaces(targets[Max(i, k)], targets[Min(i, k)]);
        assert Site(targets[k]) !in {from, to} && Evidence(targets[k]) !in {from, to};
      }
    }
  }

  lemma CustodyPathDiffers(p: Path)
    requires p != []
    ensures MetaPath(p) != p
  {
    assert |MetaPath(p)[|p| - 1]| == |p[|p| - 1]| + |META_SUFFIX|;
  }

  // Writing the custody file keeps every target: no evidence stored so far is in its way.
  lemma CustodyKeeps(before: Files, fs: Files, start: Files, targets: seq<Path>, i: nat)
    requires Apart(targets) && i < |targets|
    requires AllKept(before, start, targets) && InPlace(before, start, targets, i + 1)
    requires SameExcept(before, fs, {Custody(targets[i])})
    ensures AllKept(fs, start, targets) && InPlace(fs, start, targets, i + 1)
  {
    forall k | 0 <= k < |targets| && Site(targets[k]) in start
      ensures Kept(fs, targets[k], start[Site(targets[k])])
    {
      assert Kept(before, targets[k], start[Site(targets[k])]);
      if targets[k] in targets[..i + 1] {
        CustodyElsewhere(targets, i, targets[k]);
      } else {
        assert SameAt(start, before, Site(targets[k]));
      }
    }
    forall k | 0 <= k < |targets| ensures SameAt(before, fs, Site(targets[k])) {}
  }

  // A target's custody file is no evidence of a target up to it.
  lemma CustodyElsewhere(targets: seq<Path>, i: nat, p: Path)
    requires Apart(targets) && i < |targets| && p in targets[..i + 1]
    ensures Custody(targets[i]) != Evidence(p)
  {
    CustodyPathDiffers(SafeRelPath(p));
    var j :| 0 <= j <= i && targets[j] == p;
    assert targets[j] != targets[i] ==> !Replaces(targets[i], targets[j]);
  }

  lemma QuarantineKeeps(before: Files, fs: Files, start: Files, targets: seq<Path>, i: nat)
    requires Apart(targets) && i < |targets| && AllKept(before, start, targets) && InPlace(before, start, targets, i)
    requires QuarantineState(before, targets[i], fs)
    ensures AllKept(fs, start, targets) && InPlace(fs, start, targets, i + 1)
  {
    var p := targets[i];
    if fs == before {
      NoneLeft(targets, i);
    } else if MidMove(before, Site(p), Evidence(p), fs) {
      MovedKeepsAll(before, fs, start, targets, i);
    } else {
      var mid :| MidMove(before, Site(p), Evidence(p), mid) && SameExcept(mid, fs, {Custody(p)});
      MovedKeepsAll(before, mid, start, targets, i);
      CustodyKeeps(mid, fs, start, targets, i);
    }
  }

  lemma NoneLeft(targets: seq<Path>, i: nat)
    requires i < |targets|
    ensures forall p :: p !in targets[..i + 1] ==> p !in targets[..i] && p != targets[i]
  {
    assert targets[..i + 1] == targets[..i] + [targets[i]];
  }

  lemma MovedKeepsAll(before: Files, fs: Files, start: Files, targets: seq<Path>, i: nat)
    requires Apart(targets) && i < |targets| && AllKept(before, start, targets) && InPlace(before, start, targets, i)
    requires Site(targets[i]) in before && MidMove(before, Site(targets[i]), Evidence(targets[i]), fs)
    ensures AllKept(fs, start, targets) && InPlace(fs, start, targets, i + 1)
  {
    assert SameAt(start, before, Site(targets[i]));
    MoveKeeps(before, fs, start, targets, i, Site(targets[i]), Evidence(targets[i]));
    MoveLeaves(before, fs, start, targets, i);
  }

  lemma MoveLeaves(before: Files, fs: Files, start: Files, targets: seq<Path>, i: nat)
    requires i < |targets| && InPlace(before, start, targets, i) && Site(targets[i]) in before
    requires MidMove(before, Site(targets[i]), Evidence(targets[i]), fs)
    ensures InPlace(fs, start, targets, i + 1)
  {
    forall k | 0 <= k < |targets| && Site(targets[k]) in fs
      ensures SameAt(start, fs, Site(targets[k]))
    {
      assert SameAt(before, fs, Site(targets[k]));
    }
    forall k | i < k < |targets| && targets[k] !in targets[..i + 1]
      ensures SameAt(start, fs, Site(targets[k]))
    {
      NoneLeft(targets, i);
    }
  }

  lemma RestoreKeeps(before: Files, fs: Files, start: Files, targets: seq<Path>, i: nat)
    requires Apart(targets) && i < |targets| && AllKept(before, start, targets)
    requires Stored(before, start, targets[i])
    requires MidMove(before, Evidence(targets[i]), Site(targets[i]), fs)
    ensures AllKept(fs, start, targets)
  {
    MoveKeeps(before, fs, start, targets, i, Evidence(targets[i]), Site(targets[i]));
  }

  // A target that was there at the start is in evidence.
  ghost predicate Stored(fs: Files, start: Files, p: Path) {
    Site(p) in start ==> Evidence(p) in fs && fs[Evidence(p)] == start[Site(p)]
  }

  lemma LauncherConserves(fs0: Files, h0: seq<Files>, fs: Files, h: seq<Files>,
                          start: Files, targets: seq<Path>, p: Path)
    requires h0 <= h && SameExcept(fs0, fs, {Launcher(p), Backup(p)})
    requires forall k :: |h0| <= k < |h| ==> SameExcept(fs0, h[k], {Launcher(p), Backup(p)})
    ensures Tracked(fs0, h0, start, targets, 0) ==> Tracked(fs, h, start, targets, 0)
  {
    if Tracked(fs0, h0, start, targets, 0) && Apart(targets) {
      assert Shown(OfFiles, 0);
      ElsewhereKeeps(fs0, fs, start, targets, p);
      forall k | |h0| <= k < |h|
        ensures AllKept(h[k], start, targets)
      {
        ElsewhereKeeps(fs0, h[k], start, targets, p);
      }
    }
  }

  lemma StubConserves(fs0: Files, h0: seq<Files>, fs: Files, h: seq<Files>, start: Files, targets: seq<Path>)
    requires h0 <= h && SameExcept(fs0, fs, {Stub})
    requires forall k :: |h0| <= k < |h| ==> SameExcept(fs0, h[k], {Stub})
    ensures Saved(fs0, h0, start, targets) ==> Saved(fs, h, start, targets)
  {
    if Saved(fs0, h0, start, targets) && Apart(targets) {
      assert Shown(OfFiles, 0);
      StubKeeps(fs0, fs, start, targets);
      forall k | |h0| <= k < |h|
        ensures AllKept(h[k], start, targets)
      {
        StubKeeps(fs0, h[k], start, targets);
      }
    }
  }

  lemma StubKeeps(fs0: Files, fs: Files, start: Files, targets: seq<Path>)
    requires AllKept(fs0, start, targets) && SameExcept(fs0, fs, {Stub})
    ensures AllKept(fs, start, targets)
  {
    forall k | 0 <= k < |targets| && Site(targets[k]) in start
      ensures Kept(fs, targets[k], start[Site(targets[k])])
    {
      assert Kept(fs0, targets[k], start[Site(targets[k])]);
    }
  }

  lemma ElsewhereKeeps(fs0: Files, fs: Files, start: Files, targets: seq<Path>, p: Path)
    requires AllKept(fs0, start, targets) && SameExcept(fs0, fs, {Launcher(p), Backup(p)})
    ensures AllKept(fs, start, targets)
    ensures forall k :: 0 <= k < |targets| && SameAt(start, fs0, Site(targets[k])) ==>
              SameAt(start, fs, Site(targets[k]))
  {
    forall k | 0 <= k < |targets| && Site(targets[k]) in start
      ensures Kept(fs, targets[k], start[Site(targets[k])])
    {
      assert Kept(fs0, targets[k], start[Site(targets[k])]);
    }
  }

  lemma QuarantineConserves(fs0: Files, h0: seq<Files>, fs: Files, h: seq<Files>,
                            start: Files, targets: seq<Path>, i: nat)
    requires Tracked(fs0, h0, start, targets, i) && i < |targets|
    requires h0 <= h && QuarantineStates(fs0, targets[i], h[|h0|..], fs)
    ensures Tracked(fs, h, start, targets, i + 1)
  {
    if Apart(targets) {
      assert Shown(OfFiles, 0);
      QuarantineKeeps(fs0, fs, start, targets, i);
      forall k | 0 <= k < |h|
        ensures AllKept(h[k], start, targets)
      {
        if k >= |h0| {
          assert h[k] == h[|h0|..][k - |h0|];
          QuarantineKeeps(fs0, h[k], start, targets, i);
        }
      }
    }
  }

  lemma QuarantineStores(fs0: Files, h0: seq<Files>, fs: Files, h: seq<Files>,
                         start: Files, targets: seq<Path>, i: nat)
    requires Tracked(fs0, h0, start, targets, i) && i < |targets| && Tracked(fs, h, start, targets, i + 1)
    requires Site(targets[i]) in fs0 && Evidence(targets[i]) in fs
    requires fs[Evidence(targets[i])] == fs0[Site(targets[i])]
    ensures SavedWith(fs, h, start, targets, i)
  {
    if Apart(targets) {
      assert Shown(OfFiles, 0);
      assert SameAt(start, fs0, Site(targets[i]));
    }
  }

  lemma RestoreConserves(fs0: Files, h0: seq<Files>, fs: Files, h: seq<Files>, start: Files, targets: seq<Path>, i: nat)
    requires SavedWith(fs0, h0, start, targets, i) && i < |targets|
    requires h0 <= h
    requires forall k :: |h0| <= k < |h| ==> MidMove(fs0, Evidence(targets[i]), Site(targets[i]), h[k])
    requires MidMove(fs0, Evidence(targets[i]), Site(targets[i]), fs)
    ensures Saved(fs, h, start, targets)
  {
    if Apart(targets) {
      assert Shown(OfFiles, 0);
      RestoreKeeps(fs0, fs, start, targets, i);
      forall k | |h0| <= k < |h|
        ensures AllKept(h[k], start, targets)
      {
        RestoreKeeps(fs0, h[k], start, targets, i);
      }
    }
  }

  // What moving a file into evidence does when no call fails.
  function Moved(fs: Files, p: Path): Files
    requires Site(p) in fs
  {
    (fs - {Site(p)})[Evidence(p) := fs[Site(p)]][Custody(p) := CUSTODY]
  }

  // The file is there, and what the scan recorded of its content, if anything, is true.
  predicate InDate(fs: Files, f: Finding, hash: Content -> string) {
    Site(f.path) in fs && (f.digest != "" ==> hash(fs[Site(f.path)]) == f.digest)
  }

  // And quarantining one.
  function MovedOne(fs: Files, f: Finding, hash: Content -> string): Files {
    if InDate(fs, f, hash) then Moved(fs, f.path) else fs
  }

  // And one file after another.
  function MovedAll(fs: Files, files: seq<Finding>, hash: Content -> string): Files
    decreases |files|
  {
    if files == [] then fs else MovedAll(MovedOne(fs, files[0], hash), files[1..], hash)
  }

  lemma {:induction false} MovedAllMore(fs: Files, files: seq<Finding>, hash: Content -> string, i: nat)
    requires i < |files|
    ensures MovedAll(fs, files[..i + 1], hash) == MovedOne(MovedAll(fs, files[..i], hash), files[i], hash)
    decreases i
  {
    if i == 0 {
      assert files[..1][1..] == [];
    } else {
      assert files[..i + 1][1..] == files[1..][..i] && files[..i][1..] == files[1..][..i - 1];
      MovedAllMore(MovedOne(fs, files[0], hash), files[1..], hash, i - 1);
    }
  }

  // The first i files have been seen to, closed.
  ghost predicate AreMoved(fs0: Files, fs: Files, files: seq<Finding>, hash: Content -> string, i: int) {
    forall n {:trigger Shown(OfFiles, n)} :: Shown(OfFiles, n) ==>
      0 <= i <= |files| && fs == MovedAll(fs0, files[..i], hash)
  }

  lemma NoneMoved(fs: Files, files: seq<Finding>, hash: Content -> string)
    ensures AreMoved(fs, fs, files, hash, 0)
  {
  }

  lemma OneMoreMoved(fs0: Files, fs: Files, fs': Files, files: seq<Finding>, hash: Content -> string, i: nat)
    requires i < |files| && AreMoved(fs0, fs, files, hash, i) && fs' == MovedOne(fs, files[i], hash)
    ensures AreMoved(fs0, fs', files, hash, i + 1)
  {
    assert Shown(OfFiles, 0);
    MovedAllMore(fs0, files, hash, i);
  }

  // The launchers and then the files have been seen to, and the flush script perhaps
  // left behind, closed.
  ghost predicate AreHandled(fs0: Files, fs: Files, launchers: seq<Finding>, stamp: string,
                             files: seq<Finding>, hash: Content -> string) {
    forall n {:trigger Shown(OfFiles, n)} :: Shown(OfFiles, n) ==>
      SameExcept(MovedAll(NeutralizedAll(fs0, launchers, stamp), files, hash), fs, {Stub})
  }

  lemma MovedAndFlushed(fs0: Files, fs: Files, fs': Files, files: seq<Finding>, stamp: string, hash: Content -> string)
    requires AreMoved(fs0, fs, files, hash, |files|) && SameExcept(fs, fs', {Stub})
    ensures AreHandled(fs0, fs', [], stamp, files, hash)
  {
    assert Shown(OfFiles, 0) && files[..|files|] == files;
  }

  lemma NeutralizedAndHandled(fs0: Files, fs: Files, fs': Files, launchers: seq<Finding>, stamp: string,
                              files: seq<Finding>, hash: Content -> string)
    requires AreNeutralized(fs0, fs, launchers, stamp, |launchers|) && AreHandled(fs, fs', [], stamp, files, hash)
    ensures AreHandled(fs0, fs', launchers, stamp, files, hash)
  {
    assert Shown(OfFiles, 0) && launchers[..|launchers|] == launchers;
  }

  // What commenting out a launcher line does when no call fails.
  function NeutralizedOne(fs: Files, f: Finding, stamp: string): Files {
    if f.path == [] || f.line <= 0 || Launcher(f.path) !in fs then fs
    else
      var orig := fs[Launcher(f.path)];
      var kept := fs[Backup(f.path) := orig];
      if f.line > |orig| then kept else kept[Launcher(f.path) := Commented(orig, f.line, stamp)]
  }

  // One launcher after another.
  function NeutralizedAll(fs: Files, launchers: seq<Finding>, stamp: string): Files
    decreases |launchers|
  {
    if launchers == [] then fs else
      var n := |launchers| - 1;
      NeutralizedOne(NeutralizedAll(fs, launchers[..n], stamp), launchers[n], stamp)
  }

  // The first i launchers have been seen to, closed.
  ghost predicate AreNeutralized(fs0: Files, fs: Files, launchers: seq<Finding>, stamp: string, i: int) {
    forall n {:trigger Shown(OfFiles, n)} :: Shown(OfFiles, n) ==>
      0 <= i <= |launchers| && fs == NeutralizedAll(fs0, launchers[..i], stamp)
  }

  lemma NeutralizedNone(fs: Files, launchers: seq<Finding>, stamp: string)
    ensures AreNeutralized(fs, fs, launchers, stamp, 0)
  {
  }

  lemma NeutralizedMore(fs0: Files, fs: Files, fs': Files, launchers: seq<Finding>, stamp: string, i: nat)
    requires i < |launchers| && AreNeutralized(fs0, fs, launchers, stamp, i)
    requires fs' == NeutralizedOne(fs, launchers[i], stamp)
    ensures AreNeutralized(fs0, fs', launchers, stamp, i + 1)
  {
    assert Shown(OfFiles, 0);
    assert launchers[..i + 1][..i] == launchers[..i];
  }

  // The states a quarantine passes through, ending in fs: those of a move, and
  // if the move went through, those with the custody file written.
  ghost predicate QuarantineStates(before: Files, p: Path, states: seq<Files>, fs: Files) {
    QuarantineState(before, p, fs) && forall k :: 0 <= k < |states| ==> QuarantineState(before, p, states[k])
  }

  ghost predicate QuarantineState(before: Files, p: Path, fs: Files) {
    || fs == before
    || (&& Site(p) in before
        && (|| MidMove(before, Site(p), Evidence(p), fs)
            || exists mid :: MidMove(before, Site(p), Evidence(p), mid) && SameExcept(mid, fs, {Custody(p)})))
  }
}
