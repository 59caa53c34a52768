/** The monitor's persistence checks: an event in a watched directory runs the
    check that could care about it, at most once per debounce period; a run that
    comes too soon is owed, not dropped. */
module Debounce {
  import opened Common

  // A check's rate limit: when it last ran, and whether a run is owed.
  datatype Slot = Slot(last: Option<int>, pending: bool)

  predicate Closed(debounce: nat, s: Slot, now: int) {
    s.last.Some? && now - s.last.value < debounce
  }

  // An event arrives; a drain comes by.
  datatype Op = Event(now: int) | Drain(now: int)

  predicate Runs(debounce: nat, s: Slot, op: Op) {
    !Closed(debounce, s, op.now) && (op.Event? || s.pending)
  }

  function Step(debounce: nat, s: Slot, op: Op): Slot {
    if Runs(debounce, s, op) then Slot(Some(op.now), false)
    else if op.Event? then s.(pending := true)
    else s
  }

  // ---------------------------------------------------------------------
  // The checks and the guard
  // ---------------------------------------------------------------------

  class OsCheck {
    const debounce: nat
    var last: Option<int>
    var pending: bool
    var ran: seq<int>    // when the check ran

    function Now(): Slot
      reads this
    {
      Slot(last, pending)
    }

    // A run is owed only to a check that has run.
    ghost predicate Valid()
      reads this
    {
      pending ==> last.Some?
    }

    constructor (debounce: nat)
      ensures this.debounce == debounce && Now() == Slot(None, false) && ran == [] && Valid()
    {
      this.debounce := debounce;
      last, pending, ran := None, false, [];
    }

    method Due(now: int) returns (ok: bool)
      requires Valid()
      modifies this
      ensures Valid() && ran == old(ran)
      ensures ok == Runs(debounce, old(Now()), Event(now))
      ensures Now() == Step(debounce, old(Now()), Event(now))
    {
      if last.Some? && now - last.value < debounce {
        pending := true;
        return false;
      }
      last := Some(now);
      pending := false;
      return true;
    }

    method TakePending(now: int) returns (ok: bool)
      requires Valid()
      modifies this
      ensures Valid() && ran == old(ran)
      ensures ok == Runs(debounce, old(Now()), Drain(now))
      ensures Now() == Step(debounce, old(Now()), Drain(now))
    {
      if !pending || now - last.value < debounce { return false; }
      last := Some(now);
      pending := false;
      return true;
    }

    method Run(now: int)
      modifies this`ran
      ensures ran == old(ran) + [now]
    {
      ran := ran + [now];
    }
  }

  // What an operation does to one check, its runs included.
  twostate predicate Served(c: OsCheck, op: Op)
    reads c
  {
    && c.Now() == Step(c.debounce, old(c.Now()), op)
    && c.ran == old(c.ran) + (if Runs(c.debounce, old(c.Now()), op) then [op.now] else [])
  }

  twostate predicate Same(c: OsCheck)
    reads c
  {
    c.Now() == old(c.Now()) && c.ran == old(c.ran)
  }

  // What a sequence of operations does to one check.
  twostate predicate Driven(c: OsCheck, ops: seq<Op>)
    reads c
  {
    && c.Now() == At(c.debounce, old(c.Now()), ops, |ops|)
    && c.ran == old(c.ran) + RanAt(c.debounce, old(c.Now()), ops)
  }

  class OsGuard {
    const byDir: map<string, OsCheck>
    const skipOS: bool

    ghost predicate Valid()
      reads byDir.Values
    {
      forall c :: c in byDir.Values ==> c.Valid()
    }

    constructor (targets: seq<(string, OsCheck)>, skipOS: bool)
      requires forall t :: t in targets ==> t.1.Valid()
      ensures this.skipOS == skipOS && Valid()
      ensures forall t :: t in targets ==> t.0 in byDir
      ensures forall dir :: dir in byDir ==> IsBound(targets, dir, byDir[dir])
    {
      var m: map<string, OsCheck> := map[];
      var i := 0;
      while i < |targets|
        invariant 0 <= i <= |targets|
        invariant forall j :: 0 <= j < i ==> targets[j].0 in m
        invariant forall dir :: dir in m ==> IsBound(targets[..i], dir, m[dir])
      {
        ghost var was := m;
        m := m[targets[i].0 := targets[i].1];
        forall dir | dir in m ensures IsBound(targets[..i + 1], dir, m[dir]) {
          if dir == targets[i].0 {
            assert Bound(targets[..i + 1], dir, m[dir], i);
          } else {
            var n :| Bound(targets[..i], dir, was[dir], n);
            assert Bound(targets[..i + 1], dir, m[dir], n);
          }
        }
        i := i + 1;
      }
      assert targets[..|targets|] == targets;
      byDir := m;
      this.skipOS := skipOS;
      new;
      forall c | c in byDir.Values ensures c.Valid() {
        var dir :| dir in byDir && byDir[dir] == c;
        var n :| Bound(targets, dir, byDir[dir], n);
        assert targets[n] in targets;
      }
    }

    // An event in dir: only the check bound to it, which other directories may share.
    method Handle(dir: string, now: int) returns (ran: bool)
      requires Valid()
      modifies byDir.Values
      ensures Valid()
      ensures skipOS || dir !in byDir ==> !ran && forall c :: c in byDir.Values ==> Same(c)
      ensures !skipOS && dir in byDir ==>
                && ran == Runs(byDir[dir].debounce, old(byDir[dir].Now()), Event(now))
                && Served(byDir[dir], Event(now))
                && forall c :: c in byDir.Values && c != byDir[dir] ==> Same(c)
    {
      if skipOS { return false; }
      if dir !in byDir { return false; }
      var c := byDir[dir];
      var due := c.Due(now);
      if !due { return false; }
      c.Run(now);
      return true;
    }

    /** Every check, however many directories share it, is drained once. */
    method DrainAll(now: int)
      requires Valid()
      modifies byDir.Values
      ensures Valid()
      ensures forall c :: c in byDir.Values ==> if skipOS then Same(c) else Served(c, Drain(now))
    {
      if skipOS { return; }
      var seen: set<OsCheck> := {};
      var rest := byDir.Keys;
      while rest != {}
        invariant rest <= byDir.Keys && seen <= byDir.Values && Valid()
        invariant forall dir :: dir in byDir && dir !in rest ==> byDir[dir] in seen
        invariant forall c :: c in byDir.Values ==> if c in seen then Served(c, Drain(now)) else Same(c)
        decreases |rest|
      {
        var dir :| dir in rest;
        rest := rest - {dir};
        var c := byDir[dir];
        if c !in seen {
          seen := seen + {c};
          var owed := c.TakePending(now);
          if owed { c.Run(now); }
        }
      }
    }

    // What a call means to one check: an operation, or nothing.
    function OpOf(c: OsCheck, call: Call): (ops: seq<Op>)
      ensures |ops| <= 1
    {
      if skipOS then []
      else match call
        case In(dir, now) => if dir in byDir && byDir[dir] == c then [Event(now)] else []
        case By(now) => [Drain(now)]
    }

    function OpsOf(c: OsCheck, calls: seq<Call>): seq<Op> {
      if calls == [] then [] else OpsOf(c, calls[..|calls| - 1]) + OpOf(c, calls[|calls| - 1])
    }

    method Turn(call: Call)
      requires Valid()
      modifies byDir.Values
      ensures Valid()
      ensures forall c :: c in byDir.Values ==> Driven(c, OpOf(c, call))
    {
      match call {
        case In(dir, now) =>
          var _ := Handle(dir, now);
        case By(now) =>
          DrainAll(now);
      }
      forall c | c in byDir.Values ensures Driven(c, OpOf(c, call)) {
        if OpOf(c, call) == [] {
          assert Same(c);
        } else {
          var op := OpOf(c, call)[0];
          assert OpOf(c, call) == [op] && Served(c, op);
          OneMoreOp(c.debounce, old(c.Now()), [], op);
          assert [] + [op] == [op];
        }
      }
    }

    /** Over any sequence of events and drains each check goes through its own operations,
        and runs exactly when they say: what holds of every run of one check holds of all. */
    method Drive(calls: seq<Call>)
      requires Valid()
      modifies byDir.Values
      ensures Valid()
      ensures forall c :: c in byDir.Values ==> Driven(c, OpsOf(c, calls))
    {
      for i := 0 to |calls|
        invariant Valid()
        invariant forall c :: c in byDir.Values ==> Driven(c, OpsOf(c, calls[..i]))
      {
        assert calls[..i + 1][..i] == calls[..i];
        label before:
        Turn(calls[i]);
        forall c | c in byDir.Values ensures Driven(c, OpsOf(c, calls[..i + 1])) {
          var ops, more := OpsOf(c, calls[..i]), OpOf(c, calls[i]);
          assert OpsOf(c, calls[..i + 1]) == ops + more;
          assert Driven@before(c, more);
          MoreOps(c.debounce, old(c.Now()), ops, more);
        }
      }
      assert calls[..|calls|] == calls;
    }
  }

  // One turn of the event loop: an event in a directory, or the loop comes by.
  datatype Call = In(dir: string, now: int) | By(now: int)

  // The n-th target binds dir to check c and no later one binds it again.
  ghost predicate Bound(targets: seq<(string, OsCheck)>, dir: string, c: OsCheck, n: int) {
    && 0 <= n < |targets| && targets[n] == (dir, c)
    && forall j :: n < j < |targets| ==> targets[j].0 != dir
  }

  ghost predicate IsBound(targets: seq<(string, OsCheck)>, dir: string, c: OsCheck) {
    exists n :: Bound(targets, dir, c, n)
  }

  // ---------------------------------------------------------------------
  // Runs of one check
  // ---------------------------------------------------------------------

  ghost predicate Ticking(ops: seq<Op>) {
    forall i, j :: 0 <= i <= j < |ops| ==> ops[i].now <= ops[j].now
  }

  // The slot before operation n.
  function At(debounce: nat, s: Slot, ops: seq<Op>, n: nat): Slot
    requires n <= |ops|
  {
    if n == 0 then s else Step(debounce, At(debounce, s, ops, n - 1), ops[n - 1])
  }

  predicate RunsAt(debounce: nat, s: Slot, ops: seq<Op>, n: nat)
    requires n < |ops|
  {
    Runs(debounce, At(debounce, s, ops, n), ops[n])
  }

  // When the check runs.
  function RanAt(debounce: nat, s: Slot, ops: seq<Op>): seq<int> {
    if ops == [] then []
    else
      var n := |ops| - 1;
      RanAt(debounce, s, ops[..n]) + (if RunsAt(debounce, s, ops, n) then [ops[n].now] else [])
  }

  lemma {:induction false} AtPrefix(debounce: nat, s: Slot, ops: seq<Op>, op: Op, n: nat)
    requires n <= |ops|
    ensures At(debounce, s, ops + [op], n) == At(debounce, s, ops, n)
  {
    if n > 0 { AtPrefix(debounce, s, ops, op, n - 1); }
  }

  lemma OneMoreOp(debounce: nat, s: Slot, ops: seq<Op>, op: Op)
    ensures var slot := At(debounce, s, ops, |ops|);
            && At(debounce, s, ops + [op], |ops| + 1) == Step(debounce, slot, op)
            && RanAt(debounce, s, ops + [op]) ==
                 RanAt(debounce, s, ops) + if Runs(debounce, slot, op) then [op.now] else []
  {
    AtPrefix(debounce, s, ops, op, |ops|);
    assert (ops + [op])[..|ops|] == ops;
  }

  // Operations one after the other, the second lot of at most one.
  lemma MoreOps(debounce: nat, s: Slot, ops: seq<Op>, more: seq<Op>)
    requires |more| <= 1
    ensures var slot := At(debounce, s, ops, |ops|);
            && At(debounce, s, ops + more, |ops + more|) == At(debounce, slot, more, |more|)
            && RanAt(debounce, s, ops + more) == RanAt(debounce, s, ops) + RanAt(debounce, slot, more)
  {
    if more == [] {
      assert ops + more == ops;
    } else {
      assert more == [more[0]] && [] + more == more;
      OneMoreOp(debounce, s, ops, more[0]);
      OneMoreOp(debounce, At(debounce, s, ops, |ops|), [], more[0]);
    }
  }

  ghost predicate Sane(s: Slot, ops: seq<Op>) {
    && (s.pending ==> s.last.Some?)
    && (s.last.Some? && ops != [] ==> s.last.value <= ops[0].now)
  }

  // The first operation from i on that comes when the window is no longer closed.
  ghost predicate FirstOpen(debounce: nat, s: Slot, ops: seq<Op>, i: nat, j: nat)
    requires i <= j < |ops|
  {
    && !Closed(debounce, At(debounce, s, ops, i), ops[j].now)
    && forall k :: i <= k < j ==> Closed(debounce, At(debounce, s, ops, i), ops[k].now)
  }

  // While the window is closed after an event, the run stays owed.
  lemma {:induction false} StaysOwed(debounce: nat, s: Slot, ops: seq<Op>, i: nat, j: nat)
    requires i < j <= |ops| && ops[i].Event?
    requires forall k :: i <= k < j ==> Closed(debounce, At(debounce, s, ops, i), ops[k].now)
    ensures At(debounce, s, ops, j) == At(debounce, s, ops, i).(pending := true)
    decreases j
  {
    if j > i + 1 {
      StaysOwed(debounce, s, ops, i, j - 1);
    }
    assert Closed(debounce, At(debounce, s, ops, i), ops[j - 1].now);
  }

  /** No event is lost: the check runs at the first operation, the event itself, a later
      event or a drain, that finds the window open; and not before. */
  lemma EventIsServed(debounce: nat, s: Slot, ops: seq<Op>, i: nat, j: nat)
    requires i <= j < |ops| && ops[i].Event? && FirstOpen(debounce, s, ops, i, j)
    ensures RunsAt(debounce, s, ops, j)
    ensures forall k :: i <= k < j ==> !RunsAt(debounce, s, ops, k)
  {
    if i < j { StaysOwed(debounce, s, ops, i, j); }
    forall k | i <= k < j ensures !RunsAt(debounce, s, ops, k) {
      assert Closed(debounce, At(debounce, s, ops, i), ops[k].now);
      if i < k { StaysOwed(debounce, s, ops, i, k); }
    }
  }

  /** An event whose window has not opened again by the end of the run is still owed. */
  lemma EventIsOwed(debounce: nat, s: Slot, ops: seq<Op>, i: nat)
    requires i < |ops| && ops[i].Event?
    requires forall k :: i <= k < |ops| ==> Closed(debounce, At(debounce, s, ops, i), ops[k].now)
    ensures At(debounce, s, ops, |ops|).pending
  {
    StaysOwed(debounce, s, ops, i, |ops|);
  }

  lemma {:induction false} LastIsPast(debounce: nat, s: Slot, ops: seq<Op>, n: nat)
    requires Ticking(ops) && Sane(s, ops) && n < |ops|
    ensures var last := At(debounce, s, ops, n).last; last.Some? ==> last.value <= ops[n].now
  {
    if n > 0 {
      LastIsPast(debounce, s, ops, n - 1);
      assert ops[n - 1].now <= ops[n].now;
    }
  }

  /** Where the loop comes by at least every gap, the delay is bounded: an event at t is
      served by t + debounce + gap, if the run goes on that long. */
  lemma {:induction false} DelayIsBounded(debounce: nat, s: Slot, ops: seq<Op>, i: nat, gap: nat) returns (j: nat)
    requires Ticking(ops) && Sane(s, ops) && i < |ops| && ops[i].Event?
    requires forall k :: i < k < |ops| ==> ops[k].now - ops[k - 1].now <= gap
    requires ops[|ops| - 1].now >= ops[i].now + debounce
    ensures i <= j < |ops| && RunsAt(debounce, s, ops, j)
    ensures ops[j].now <= ops[i].now + debounce + gap
  {
    LastIsPast(debounce, s, ops, i);
    var slot := At(debounce, s, ops, i);
    j := i;
    while Closed(debounce, slot, ops[j].now)
      invariant i <= j < |ops|
      invariant forall k :: i <= k < j ==> Closed(debounce, slot, ops[k].now)
      decreases |ops| - j
    {
      assert ops[j].now < ops[i].now + debounce;
      j := j + 1;
    }
    assert j > i ==> Closed(debounce, slot, ops[j - 1].now);
    EventIsServed(debounce, s, ops, i, j);
  }

  // After a run at i and until the next one, last is its time.
  lemma {:induction false} LastIsTheRun(debounce: nat, s: Slot, ops: seq<Op>, i: nat, j: nat)
    requires i < j <= |ops| && RunsAt(debounce, s, ops, i)
    ensures At(debounce, s, ops, j).last.Some?
    ensures Ticking(ops) ==> At(debounce, s, ops, j).last.value >= ops[i].now
    decreases j
  {
    if j > i + 1 { LastIsTheRun(debounce, s, ops, i, j - 1); }
  }

  /** Any two runs of one check are at least the debounce apart. */
  lemma RunsAreSpaced(debounce: nat, s: Slot, ops: seq<Op>, i: nat, j: nat)
    requires Ticking(ops) && i < j < |ops| && RunsAt(debounce, s, ops, i) && RunsAt(debounce, s, ops, j)
    ensures ops[j].now - ops[i].now >= debounce
  {
    LastIsTheRun(debounce, s, ops, i, j);
  }

  /** A drain runs a check only for an event that came too soon and has not been served. */
  lemma {:induction false} OwedHasACause(debounce: nat, s: Slot, ops: seq<Op>, j: nat) returns (i: nat)
    requires !s.pending && j <= |ops| && At(debounce, s, ops, j).pending
    ensures i < j && ops[i].Event? && forall k :: i <= k < j ==> !RunsAt(debounce, s, ops, k)
    decreases j
  {
    if At(debounce, s, ops, j - 1).pending && !ops[j - 1].Event? {
      i := OwedHasACause(debounce, s, ops, j - 1);
    } else {
      i := j - 1;
    }
  }
}
