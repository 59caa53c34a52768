/** The console's fixed-window rate limiter.

    Every call holds the limiter's lock, so a run is a sequence of calls; the
    clock they read does not go back. */
module Limiter {
  import opened Common

  datatype Window = Window(start: int, n: int)

  type Counts = map<string, Window>

  // A limiter's two settings.
  datatype Quota = Quota(max: int, period: nat)

  predicate Fresh(q: Quota, m: Counts, key: string, now: int) {
    key !in m || now - m[key].start > q.period
  }

  predicate Allows(q: Quota, m: Counts, key: string, now: int) {
    Fresh(q, m, key, now) || m[key].n < q.max
  }

  function Charged(q: Quota, m: Counts, key: string, now: int): Counts {
    if Fresh(q, m, key, now) then m[key := Window(now, 1)]
    else if m[key].n < q.max then m[key := m[key].(n := m[key].n + 1)]
    else m
  }

  // A sweep reads the clock once per key; at(k) is what it reads for k.
  function Swept(q: Quota, m: Counts, at: string -> int): Counts {
    map k | k in m && at(k) - m[k].start <= 2 * q.period :: m[k]
  }

  class Limiter {
    const quota: Quota
    var counts: Counts

    constructor (max: int, period: nat)
      ensures quota == Quota(max, period) && counts == map[]
    {
      quota := Quota(max, period);
      counts := map[];
    }

    // Whether key is under its quota at time now; consumes one unit if so.
    method Allow(key: string, now: int) returns (ok: bool)
      modifies this
      ensures ok == Allows(quota, old(counts), key, now)
      ensures counts == Charged(quota, old(counts), key, now)
      ensures !ok ==> counts == old(counts)
      ensures forall k :: k != key ==>
                (k in counts <==> k in old(counts)) && (k in counts ==> counts[k] == old(counts)[k])
    {
      if key !in counts || now - counts[key].start > quota.period {
        counts := counts[key := Window(now, 1)];
        return true;
      }
      var w := counts[key];
      if w.n >= quota.max { return false; }
      counts := counts[key := w.(n := w.n + 1)];
      return true;
    }

    method Sweep(at: string -> int)
      modifies this
      ensures counts == Swept(quota, old(counts), at)
    {
      ghost var was := counts;
      var rest := counts.Keys;
      while rest != {}
        invariant rest <= was.Keys
        invariant forall k :: k in counts <==> k in was && (k in rest || at(k) - was[k].start <= 2 * quota.period)
        invariant forall k :: k in counts ==> counts[k] == was[k]
        decreases |rest|
      {
        var k :| k in rest;
        rest := rest - {k};
        if at(k) - counts[k].start > 2 * quota.period {
          counts := counts - {k};
        }
      }
    }
  }

  // ---------------------------------------------------------------------
  // Runs
  // ---------------------------------------------------------------------

  datatype Event =
    | Ask(now: int, key: string)
    | Clean(now: int, at: string -> int)   // a sweep that ends at time now

  ghost predicate Ticking(clock: int, run: seq<Event>)
    decreases |run|
  {
    run != [] ==>
      && clock <= run[0].now
      && (run[0].Clean? ==> forall k {:trigger run[0].at(k)} :: clock <= run[0].at(k) <= run[0].now)
      && Ticking(run[0].now, run[1..])
  }

  function Next(q: Quota, m: Counts, e: Event): Counts {
    if e.Ask? then Charged(q, m, e.key, e.now) else Swept(q, m, e.at)
  }

  // What each Ask of a run is told.
  function Answers(q: Quota, m: Counts, run: seq<Event>): seq<bool>
    decreases |run|
  {
    if run == [] then []
    else (if run[0].Ask? then [Allows(q, m, run[0].key, run[0].now)] else []) + Answers(q, Next(q, m, run[0]), run[1..])
  }

  // How many calls for key are let through in t1..t2.
  function Admitted(q: Quota, m: Counts, run: seq<Event>, key: string, t1: int, t2: int): nat
    decreases |run|
  {
    if run == [] then 0
    else
      var e := run[0];
      (if e.Ask? && e.key == key && t1 <= e.now <= t2 && Allows(q, m, key, e.now) then 1 else 0)
      + Admitted(q, Next(q, m, e), run[1..], key, t1, t2)
  }

  function Unswept(run: seq<Event>): seq<Event>
    decreases |run|
  {
    if run == [] then [] else (if run[0].Ask? then [run[0]] else []) + Unswept(run[1..])
  }

  // ---------------------------------------------------------------------
  // Sweeping is invisible
  // ---------------------------------------------------------------------

  // What a sweep may have forgotten is out of date.
  ghost predicate Forgot(q: Quota, m: Counts, full: Counts, clock: int) {
    && (forall k :: k in m ==> k in full && full[k] == m[k])
    && forall k :: k in full && k !in m ==> clock - full[k].start > 2 * q.period
  }

  lemma {:induction false} SweptTellsTheSame(q: Quota, m: Counts, full: Counts, clock: int, run: seq<Event>)
    requires Forgot(q, m, full, clock) && Ticking(clock, run)
    ensures Answers(q, m, run) == Answers(q, full, Unswept(run))
    decreases |run|
  {
    if run != [] {
      var e := run[0];
      if e.Ask? {
        SweptTellsTheSame(q, Next(q, m, e), Next(q, full, e), e.now, run[1..]);
        assert ([e] + Unswept(run[1..]))[1..] == Unswept(run[1..]);
      } else {
        forall k | k in m && k !in Swept(q, m, e.at)
          ensures e.now - full[k].start > 2 * q.period
        {
          assert e.at(k) <= e.now;
        }
        SweptTellsTheSame(q, Next(q, m, e), full, e.now, run[1..]);
        assert Unswept(run) == Unswept(run[1..]);
      }
    }
  }

  /** Inserting sweeps anywhere in a run changes no answer. */
  lemma SweepingIsInvisible(q: Quota, m: Counts, clock: int, run: seq<Event>)
    requires Ticking(clock, run)
    ensures Answers(q, m, run) == Answers(q, m, Unswept(run))
  {
    SweptTellsTheSame(q, m, m, clock, run);
  }

  // ---------------------------------------------------------------------
  // The bound
  // ---------------------------------------------------------------------

  // What a window can let through: its opening call is always let through.
  function Most(q: Quota): int {
    Max(q.max, 1)
  }

  ghost predicate Sound(q: Quota, m: Counts, clock: int) {
    forall k :: k in m ==> 1 <= m[k].n <= Most(q) && m[k].start <= clock
  }

  lemma NextIsSound(q: Quota, m: Counts, clock: int, e: Event)
    requires Sound(q, m, clock) && clock <= e.now
    ensures Sound(q, Next(q, m, e), e.now)
  {
  }

  lemma {:induction false} NothingAfter(q: Quota, m: Counts, clock: int, run: seq<Event>, key: string, t1: int, t2: int)
    requires Ticking(clock, run) && t2 < clock
    ensures Admitted(q, m, run, key, t1, t2) == 0
    decreases |run|
  {
    if run != [] {
      NothingAfter(q, Next(q, m, run[0]), run[0].now, run[1..], key, t1, t2);
    }
  }

  // A window opened in t1..t2 is the last one there.
  lemma {:induction false} RestOfWindow(q: Quota, m: Counts, clock: int, run: seq<Event>, key: string, t1: int, t2: int)
    requires Sound(q, m, clock) && Ticking(clock, run) && t2 - t1 <= q.period
    requires key in m && t1 <= m[key].start
    ensures Admitted(q, m, run, key, t1, t2) <= Most(q) - m[key].n
    decreases |run|
  {
    if run != [] {
      var e, next := run[0], Next(q, m, run[0]);
      NextIsSound(q, m, clock, e);
      if e.now > t2 {
        NothingAfter(q, next, e.now, run[1..], key, t1, t2);
      } else {
        RestOfWindow(q, next, e.now, run[1..], key, t1, t2);
      }
    }
  }

  // From the first call in t1..t2 on: what an old window still has, and a new one.
  lemma {:induction false} FromInside(q: Quota, m: Counts, clock: int, run: seq<Event>, key: string, t1: int, t2: int)
    requires Sound(q, m, clock) && Ticking(clock, run) && t2 - t1 <= q.period
    requires run != [] ==> t1 <= run[0].now
    ensures Admitted(q, m, run, key, t1, t2) <= Most(q) + if key in m then Most(q) - m[key].n else 0
    decreases |run|
  {
    if run != [] {
      var e, next := run[0], Next(q, m, run[0]);
      NextIsSound(q, m, clock, e);
      if e.Ask? && e.key == key && Fresh(q, m, key, e.now) {
        RestOfWindow(q, next, e.now, run[1..], key, t1, t2);
      } else {
        FromInside(q, next, e.now, run[1..], key, t1, t2);
      }
    }
  }

  /** An interval no longer than the period lets through at most one call short of
      two full windows, for each key and from every state a limiter reaches. */
  lemma {:induction false} BoundedInEveryInterval(q: Quota, m: Counts, clock: int, run: seq<Event>,
                                                  key: string, t1: int, t2: int)
    requires Sound(q, m, clock) && Ticking(clock, run) && t2 - t1 <= q.period
    ensures Admitted(q, m, run, key, t1, t2) <= 2 * Most(q) - 1
    decreases |run|
  {
    if run != [] {
      if t1 <= run[0].now {
        FromInside(q, m, clock, run, key, t1, t2);
      } else {
        NextIsSound(q, m, clock, run[0]);
        BoundedInEveryInterval(q, Next(q, m, run[0]), run[0].now, run[1..], key, t1, t2);
      }
    }
  }

  // ---------------------------------------------------------------------
  // A refusal has its cause
  // ---------------------------------------------------------------------

  function After(q: Quota, m: Counts, run: seq<Event>): Counts
    decreases |run|
  {
    if run == [] then m else After(q, Next(q, m, run[0]), run[1..])
  }

  // No event is later than t.
  ghost predicate Until(run: seq<Event>, t: int) {
    forall e :: e in run ==> e.now <= t
  }

  // A window of the end of a run is one of its start, or was opened in the run after that was over.
  lemma {:induction false} WindowsAdvance(q: Quota, m: Counts, clock: int, run: seq<Event>, key: string)
    requires Sound(q, m, clock) && Ticking(clock, run) && key in After(q, m, run)
    ensures var s := After(q, m, run)[key].start;
            if key in m then s == m[key].start || s - m[key].start > q.period
            else run != [] && s >= run[0].now
    decreases |run|
  {
    if run != [] {
      NextIsSound(q, m, clock, run[0]);
      WindowsAdvance(q, Next(q, m, run[0]), run[0].now, run[1..], key);
    }
  }

  // A window's count is of the calls let through since it was opened.
  lemma {:induction false} WindowsCount(q: Quota, m: Counts, clock: int, run: seq<Event>, key: string, t2: int)
    requires Sound(q, m, clock) && Ticking(clock, run) && Until(run, t2) && key in After(q, m, run)
    ensures var w := After(q, m, run)[key];
            Admitted(q, m, run, key, w.start, t2) == w.n - if key in m && m[key].start == w.start then m[key].n else 0
    decreases |run|
  {
    if run != [] {
      var e, next := run[0], Next(q, m, run[0]);
      NextIsSound(q, m, clock, e);
      WindowsAdvance(q, next, e.now, run[1..], key);
      WindowsCount(q, next, e.now, run[1..], key, t2);
      assert e in run;
    }
  }

  lemma {:induction false} MoreIsAdmitted(q: Quota, m: Counts, run: seq<Event>, key: string, t0: int, t1: int, t2: int)
    requires t0 <= t1
    ensures Admitted(q, m, run, key, t1, t2) <= Admitted(q, m, run, key, t0, t2)
    decreases |run|
  {
    if run != [] { MoreIsAdmitted(q, Next(q, m, run[0]), run[1..], key, t0, t1, t2); }
  }

  lemma {:induction false} StaysSound(q: Quota, m: Counts, clock: int, run: seq<Event>, t2: int)
    requires Sound(q, m, clock) && Ticking(clock, run) && Until(run, t2) && clock <= t2
    ensures Sound(q, After(q, m, run), t2)
    decreases |run|
  {
    if run != [] {
      NextIsSound(q, m, clock, run[0]);
      assert run[0] in run;
      StaysSound(q, Next(q, m, run[0]), run[0].now, run[1..], t2);
    }
  }

  /** Over any run of a new limiter, sweeps included: a call is refused only if a whole
      window's calls for its key were let through within the period before it. */
  lemma RefusalHasACause(q: Quota, clock: int, run: seq<Event>, key: string, now: int)
    requires Ticking(clock, run) && Until(run, now) && clock <= now
    requires !Allows(q, After(q, map[], run), key, now)
    ensures Admitted(q, map[], run, key, now - q.period, now) >= Most(q)
  {
    var w := After(q, map[], run)[key];
    StaysSound(q, map[], clock, run, now);
    WindowsCount(q, map[], clock, run, key, now);
    MoreIsAdmitted(q, map[], run, key, now - q.period, w.start, now);
  }

  // What a call is told at the end of a run.
  lemma {:induction false} LastAnswer(q: Quota, m: Counts, run: seq<Event>, key: string, now: int)
    ensures Answers(q, m, run + [Ask(now, key)]) == Answers(q, m, run) + [Allows(q, After(q, m, run), key, now)]
    decreases |run|
  {
    if run == [] {
      assert run + [Ask(now, key)] == [Ask(now, key)] && [Ask(now, key)][1..] == [];
    } else {
      assert (run + [Ask(now, key)])[1..] == run[1..] + [Ask(now, key)];
      LastAnswer(q, Next(q, m, run[0]), run[1..], key, now);
    }
  }

  /** So whoever has been let through less often in the last period is let through. */
  lemma QuotaIsGranted(q: Quota, clock: int, run: seq<Event>, key: string, now: int)
    requires Ticking(clock, run) && Until(run, now) && clock <= now
    requires Admitted(q, map[], run, key, now - q.period, now) < Most(q)
    ensures Answers(q, map[], run + [Ask(now, key)]) == Answers(q, map[], run) + [true]
  {
    LastAnswer(q, map[], run, key, now);
    if !Allows(q, After(q, map[], run), key, now) { RefusalHasACause(q, clock, run, key, now); }
  }

  // ---------------------------------------------------------------------
  // The bound is reached
  // ---------------------------------------------------------------------

  // No run of a new limiter lets more than bound calls for one key through
  // in an interval no longer than the period.
  ghost predicate NeverOver(q: Quota, bound: int) {
    forall clock, run, key, t1, t2 ::
      Ticking(clock, run) && t2 - t1 <= q.period ==> Admitted(q, map[], run, key, t1, t2) <= bound
  }

  ghost function Asks(n: nat, now: int, key: string, rest: seq<Event>): seq<Event> {
    if n == 0 then rest else [Ask(now, key)] + Asks(n - 1, now, key, rest)
  }

  lemma {:induction false} AsksTick(n: nat, now: int, key: string, rest: seq<Event>, clock: int)
    requires clock <= now && Ticking(now, rest)
    ensures Ticking(clock, Asks(n, now, key, rest))
  {
    if n > 0 {
      AsksTick(n - 1, now, key, rest, now);
      assert Asks(n, now, key, rest)[1..] == Asks(n - 1, now, key, rest);
    } else if rest != [] && rest[0].Clean? {
      assert forall k {:trigger rest[0].at(k)} :: now <= rest[0].at(k);
    }
  }

  // A window with room for n more calls lets n through.
  lemma {:induction false} AsksAreAdmitted(q: Quota, m: Counts, n: nat, now: int, key: string,
                                           rest: seq<Event>, t1: int, t2: int)
    requires !Fresh(q, m, key, now) && m[key].n + n <= Max(q.max, m[key].n) && t1 <= now <= t2
    ensures Admitted(q, m, Asks(n, now, key, rest), key, t1, t2)
         == n + Admitted(q, m[key := m[key].(n := m[key].n + n)], rest, key, t1, t2)
    decreases n
  {
    if n == 0 {
      assert m[key := m[key].(n := m[key].n + n)] == m;
    } else {
      var e, next := Ask(now, key), Charged(q, m, key, now);
      AsksAreAdmitted(q, next, n - 1, now, key, rest, t1, t2);
      assert Asks(n, now, key, rest)[1..] == Asks(n - 1, now, key, rest);
      assert next[key := next[key].(n := next[key].n + (n - 1))] == m[key := m[key].(n := m[key].n + n)];
    }
  }

  // A window opened long before its last moment, and the next one right after it.
  ghost function Burst(q: Quota): seq<Event> {
    [Ask(0, "k")] + Asks(Most(q) - 1, q.period, "k", Asks(Most(q), q.period + 1, "k", []))
  }

  lemma BurstTicks(q: Quota)
    ensures Ticking(0, Burst(q))
  {
    AsksTick(Most(q), q.period + 1, "k", [], q.period);
    var rest := Asks(Most(q) - 1, q.period, "k", Asks(Most(q), q.period + 1, "k", []));
    AsksTick(Most(q) - 1, q.period, "k", Asks(Most(q), q.period + 1, "k", []), 0);
    assert Burst(q)[1..] == rest;
  }

  lemma NewWindow(q: Quota, m: Counts, now: int, key: string, t1: int, t2: int)
    requires Fresh(q, m, key, now) && t1 <= now <= t2
    ensures Admitted(q, m, Asks(Most(q), now, key, []), key, t1, t2) == Most(q)
  {
    var run := Asks(Most(q), now, key, []);
    assert run[1..] == Asks(Most(q) - 1, now, key, []);
    AsksAreAdmitted(q, Charged(q, m, key, now), Most(q) - 1, now, key, [], t1, t2);
  }

  lemma BurstIsAdmitted(q: Quota)
    requires q.period >= 1
    ensures Admitted(q, map[], Burst(q), "k", q.period, q.period + 1) == 2 * Most(q) - 1
  {
    var M, p, key := Most(q), q.period, "k";
    var second := Asks(M, p + 1, key, []);
    var m0: Counts := map[key := Window(0, 1)];
    assert Burst(q)[1..] == Asks(M - 1, p, key, second);
    assert Charged(q, map[], key, 0) == m0;
    AsksAreAdmitted(q, m0, M - 1, p, key, second, p, p + 1);
    NewWindow(q, m0[key := m0[key].(n := M)], p + 1, key, p, p + 1);
  }

  /** One short of two full windows is the best bound there is. */
  lemma BoundIsExact(q: Quota, bound: int)
    requires q.period >= 1
    ensures NeverOver(q, bound) <==> bound >= 2 * Most(q) - 1
  {
    if bound >= 2 * Most(q) - 1 {
      forall clock, run, key, t1, t2 | Ticking(clock, run) && t2 - t1 <= q.period
        ensures Admitted(q, map[], run, key, t1, t2) <= bound
      {
        BoundedInEveryInterval(q, map[], clock, run, key, t1, t2);
      }
    } else {
      BurstTicks(q);
      BurstIsAdmitted(q);
    }
  }

  /** So twice the quota is a bound exactly when the quota is positive: a quota of
      zero still lets the opening call of a window through. */
  lemma TwiceTheQuota(q: Quota)
    requires q.period >= 1
    ensures NeverOver(q, 2 * q.max) <==> q.max >= 1
  {
    BoundIsExact(q, 2 * q.max);
  }
}
