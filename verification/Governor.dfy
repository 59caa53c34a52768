/** The IO governor's token bucket, in exact arithmetic.

    Gate holds a lock while it refills the bucket and either takes the tokens
    or works out how long to sleep; a run is an interleaving of such locked
    sections by any number of callers, with a clock that does not go back. */
module Governor {

  const SECOND := 1_000_000_000        // durations are whole nanoseconds
  const MILLISECOND := 1_000_000

  datatype Bucket = Bucket(tokens: real, last: int)

  // One locked section: what was asked, when.
  datatype Call = Call(now: int, n: nat)

  function Capacity(rate: nat): real {
    rate as real * 2.0
  }

  function Earned(rate: nat, from: int, to: int): real {
    (to - from) as real / SECOND as real * rate as real
  }

  function Refill(rate: nat, b: Bucket, now: int): Bucket {
    var t := b.tokens + Earned(rate, b.last, now);
    Bucket(if t > Capacity(rate) then Capacity(rate) else t, now)
  }

  // A request larger than the bucket is let through once the bucket is full.
  function Want(rate: nat, n: nat): real {
    if n as real > Capacity(rate) then Capacity(rate) else n as real
  }

  predicate Granted(rate: nat, b: Bucket, c: Call) {
    Refill(rate, b, c.now).tokens >= Want(rate, c.n)
  }

  function Charge(rate: nat, b: Bucket, c: Call): real {
    if Granted(rate, b, c) then Want(rate, c.n) else 0.0
  }

  function After(rate: nat, b: Bucket, c: Call): Bucket {
    Bucket(Refill(rate, b, c.now).tokens - Charge(rate, b, c), c.now)
  }

  function Deficit(rate: nat, b: Bucket, c: Call): real {
    Want(rate, c.n) - Refill(rate, b, c.now).tokens
  }

  // The sleep before the next try: the deficit's duration cut to whole
  // nanoseconds, between a millisecond and two seconds.
  function Wait(rate: nat, deficit: real): int
    requires rate > 0
  {
    var w := (deficit / rate as real * SECOND as real).Floor;
    if w < MILLISECOND then MILLISECOND else if w > 2 * SECOND then 2 * SECOND else w
  }

  // ---------------------------------------------------------------------
  // The governor
  // ---------------------------------------------------------------------

  class Governor {
    const rate: nat
    const capacity: real
    var tokens: real
    var last: int

    ghost predicate Valid()
      reads this
    {
      capacity == Capacity(rate) && 0.0 <= tokens <= capacity
    }

    function Now(): Bucket
      reads this
    {
      Bucket(tokens, last)
    }

    // A rate that is not positive means unlimited.
    constructor (bytesPerSec: int, now: int)
      ensures rate == (if bytesPerSec <= 0 then 0 else bytesPerSec)
      ensures Valid() && Now() == Bucket(Capacity(rate), now)
    {
      var r := if bytesPerSec <= 0 then 0 else bytesPerSec;
      rate := r;
      capacity := r as real * 2.0;
      tokens := r as real * 2.0;
      last := now;
    }

    // The locked section of Gate at time now; wait is how long to sleep if refused.
    method Take(now: int, n: nat) returns (granted: bool, wait: int)
      requires Valid() && last <= now
      modifies this
      ensures Valid()
      ensures rate == 0 ==> granted && Now() == old(Now())
      ensures rate > 0 ==>
                && granted == Granted(rate, old(Now()), Call(now, n))
                && Now() == After(rate, old(Now()), Call(now, n))
      ensures rate > 0 && !granted ==> wait == Wait(rate, Deficit(rate, old(Now()), Call(now, n)))
    {
      wait := 0;
      if rate == 0 { return true, 0; }
      tokens := tokens + (now - last) as real / SECOND as real * rate as real;
      last := now;
      if tokens > capacity { tokens := capacity; }
      var want := n as real;
      if want > capacity { want := capacity; }
      if tokens >= want {
        tokens := tokens - want;
        return true, 0;
      }
      granted := false;
      wait := ((want - tokens) / rate as real * SECOND as real).Floor;
      if wait < MILLISECOND { wait := MILLISECOND; }
      if wait > 2 * SECOND { wait := 2 * SECOND; }
    }
  }

  // ---------------------------------------------------------------------
  // Runs
  // ---------------------------------------------------------------------

  ghost predicate Full(rate: nat, b: Bucket) {
    0.0 <= b.tokens <= Capacity(rate)
  }

  // The clock does not go back.
  ghost predicate Ticking(from: int, calls: seq<Call>)
    decreases |calls|
  {
    calls == [] || (from <= calls[0].now && Ticking(calls[0].now, calls[1..]))
  }

  function RunOf(rate: nat, b: Bucket, calls: seq<Call>): Bucket
    decreases |calls|
  {
    if calls == [] then b else RunOf(rate, After(rate, b, calls[0]), calls[1..])
  }

  // Tokens charged to calls made in t1..t2.
  function Charged(rate: nat, b: Bucket, calls: seq<Call>, t1: int, t2: int): real
    decreases |calls|
  {
    if calls == [] then 0.0
    else (if t1 <= calls[0].now <= t2 then Charge(rate, b, calls[0]) else 0.0)
         + Charged(rate, After(rate, b, calls[0]), calls[1..], t1, t2)
  }

  // Bytes let through in t1..t2.
  function Bytes(rate: nat, b: Bucket, calls: seq<Call>, t1: int, t2: int): real
    decreases |calls|
  {
    if calls == [] then 0.0
    else (if t1 <= calls[0].now <= t2 && Granted(rate, b, calls[0]) then calls[0].n as real else 0.0)
         + Bytes(rate, After(rate, b, calls[0]), calls[1..], t1, t2)
  }

  /** What one locked section does, for a request no larger than the bucket: the tokens there
      were and those earned since, up to two seconds' worth, cover it or do not; only if they
      do are they spent, and the clock moves on either way. A larger one waits for a full bucket. */
  lemma TakeMeans(rate: nat, b: Bucket, c: Call)
    ensures var held := b.tokens + (c.now - b.last) as real * rate as real / 1000000000.0;
            var next := After(rate, b, c);
            && next.last == c.now
            && (!Granted(rate, b, c) ==>
                  next.tokens <= held && next.tokens <= 2.0 * rate as real && next.tokens in {held, 2.0 * rate as real})
            && (c.n <= 2 * rate ==>
                  && (Granted(rate, b, c) <==> held >= c.n as real)
                  && (Granted(rate, b, c) && held <= 2.0 * rate as real ==> next.tokens == held - c.n as real)
                  && (held >= 2.0 * rate as real ==> next.tokens == 2.0 * rate as real - c.n as real))
            && (c.n > 2 * rate ==>
                  && (Granted(rate, b, c) <==> held >= 2.0 * rate as real)
                  && (Granted(rate, b, c) ==> next.tokens == 0.0))
  {
    var d, r := (c.now - b.last) as real, rate as real;
    assert d / 1000000000.0 * r == d * r / 1000000000.0;
  }

  lemma EarnedIsAdditive(rate: nat, x: int, y: int, z: int)
    ensures Earned(rate, x, z) == Earned(rate, x, y) + Earned(rate, y, z)
  {
    var s, r := SECOND as real, rate as real;
    assert (z - x) as real == (y - x) as real + (z - y) as real;
    assert (z - x) as real / s == (y - x) as real / s + (z - y) as real / s;
  }

  lemma EarnedIsPositive(rate: nat, x: int, y: int)
    requires x <= y
    ensures Earned(rate, x, y) >= 0.0
  {
    assert (y - x) as real / SECOND as real >= 0.0;
  }

  lemma AfterIsFull(rate: nat, b: Bucket, c: Call)
    requires Full(rate, b) && b.last <= c.now
    ensures Full(rate, After(rate, b, c))
  {
    EarnedIsPositive(rate, b.last, c.now);
  }

  lemma {:induction false} RunStaysFull(rate: nat, b: Bucket, calls: seq<Call>)
    requires Full(rate, b) && Ticking(b.last, calls)
    ensures Full(rate, RunOf(rate, b, calls))
    decreases |calls|
  {
    if calls != [] {
      AfterIsFull(rate, b, calls[0]);
      RunStaysFull(rate, After(rate, b, calls[0]), calls[1..]);
    }
  }

  lemma {:induction false} NothingBefore(rate: nat, b: Bucket, calls: seq<Call>, t1: int, t2: int)
    requires Ticking(b.last, calls) && t2 < b.last
    ensures Charged(rate, b, calls, t1, t2) == 0.0
    decreases |calls|
  {
    if calls != [] {
      NothingBefore(rate, After(rate, b, calls[0]), calls[1..], t1, t2);
    }
  }

  // From a state inside the interval: what is in the bucket and what is earned.
  lemma {:induction false} ChargedFrom(rate: nat, b: Bucket, calls: seq<Call>, t1: int, t2: int)
    requires Full(rate, b) && Ticking(b.last, calls) && t1 <= b.last <= t2
    ensures Charged(rate, b, calls, t1, t2) <= b.tokens + Earned(rate, b.last, t2)
    decreases |calls|
  {
    EarnedIsPositive(rate, b.last, t2);
    if calls != [] {
      var c, next := calls[0], After(rate, b, calls[0]);
      AfterIsFull(rate, b, c);
      if c.now <= t2 {
        ChargedFrom(rate, next, calls[1..], t1, t2);
        EarnedIsAdditive(rate, b.last, c.now, t2);
      } else {
        NothingBefore(rate, next, calls[1..], t1, t2);
      }
    }
  }

  /** Whatever the interleaving, the tokens charged in t1..t2 are at most a full
      bucket and what the rate earns in that time. */
  lemma {:induction false} ChargedIsBounded(rate: nat, b: Bucket, calls: seq<Call>, t1: int, t2: int)
    requires Full(rate, b) && Ticking(b.last, calls) && t1 <= t2
    ensures Charged(rate, b, calls, t1, t2) <= Capacity(rate) + Earned(rate, t1, t2)
    decreases |calls|
  {
    EarnedIsPositive(rate, t1, t2);
    if calls != [] {
      var c, next := calls[0], After(rate, b, calls[0]);
      AfterIsFull(rate, b, c);
      if c.now < t1 {
        ChargedIsBounded(rate, next, calls[1..], t1, t2);
      } else if c.now <= t2 {
        ChargedFrom(rate, next, calls[1..], t1, t2);
        EarnedIsAdditive(rate, t1, c.now, t2);
        EarnedIsPositive(rate, t1, c.now);
      } else {
        NothingBefore(rate, next, calls[1..], t1, t2);
      }
    }
  }

  lemma {:induction false} BytesAreCharged(rate: nat, b: Bucket, calls: seq<Call>, t1: int, t2: int)
    requires forall k :: 0 <= k < |calls| ==> calls[k].n as real <= Capacity(rate)
    ensures Bytes(rate, b, calls, t1, t2) == Charged(rate, b, calls, t1, t2)
    decreases |calls|
  {
    if calls != [] {
      assert forall k :: 0 <= k < |calls[1..]| ==> calls[1..][k] == calls[k + 1];
      BytesAreCharged(rate, After(rate, b, calls[0]), calls[1..], t1, t2);
    }
  }

  ghost predicate BytesBounded(rate: nat, b: Bucket, calls: seq<Call>, t1: int, t2: int) {
    Bytes(rate, b, calls, t1, t2) <= Capacity(rate) + Earned(rate, t1, t2)
  }

  // Every run of requests of at most n bytes is within the bound at all times.
  ghost predicate RequestsBounded(rate: nat, n: nat) {
    forall b: Bucket, calls: seq<Call>, t1, t2 ::
      (Full(rate, b) && Ticking(b.last, calls) && t1 <= t2 && AtMost(calls, n)) ==> BytesBounded(rate, b, calls, t1, t2)
  }

  ghost predicate AtMost(calls: seq<Call>, n: nat) {
    forall k :: 0 <= k < |calls| ==> calls[k].n <= n
  }

  /** The bound holds for bytes, and not only for tokens, exactly while no request
      is larger than the bucket. */
  lemma ByteBoundIsExact(rate: nat, n: nat)
    ensures RequestsBounded(rate, n) <==> n as real <= Capacity(rate)
  {
    if n as real <= Capacity(rate) {
      forall b: Bucket, calls: seq<Call>, t1, t2 |
        Full(rate, b) && Ticking(b.last, calls) && t1 <= t2 && AtMost(calls, n)
        ensures BytesBounded(rate, b, calls, t1, t2)
      {
        BytesAreCharged(rate, b, calls, t1, t2);
        ChargedIsBounded(rate, b, calls, t1, t2);
      }
    } else {
      var b, calls := Bucket(Capacity(rate), 0), [Call(0, n)];
      assert calls[1..] == [];
      assert Full(rate, b) && Ticking(b.last, calls) && AtMost(calls, n);
      assert Earned(rate, 0, 0) == 0.0;
      assert Bytes(rate, b, calls, 0, 0) == n as real;
      assert !BytesBounded(rate, b, calls, 0, 0);
    }
  }

  // ---------------------------------------------------------------------
  // Sleeping
  // ---------------------------------------------------------------------

  /** The two-second ceiling never shortens a sleep. */
  lemma CeilingIsIdle(rate: nat, b: Bucket, c: Call)
    requires rate > 0 && Full(rate, b) && b.last <= c.now && !Granted(rate, b, c)
    ensures (Deficit(rate, b, c) / rate as real * SECOND as real).Floor <= 2 * SECOND
  {
    AfterIsFull(rate, b, c);
    var d, r := Deficit(rate, b, c), rate as real;
    assert d <= 2.0 * r;
    assert d / r <= 2.0;
  }

  // Alone since being refused at c.now, the next try succeeds exactly when
  // enough has been earned for the deficit.
  lemma NextTry(rate: nat, b: Bucket, c: Call, now': int)
    requires rate > 0 && Full(rate, b) && b.last <= c.now <= now' && !Granted(rate, b, c)
    ensures Granted(rate, After(rate, b, c), Call(now', c.n)) <==> Earned(rate, c.now, now') >= Deficit(rate, b, c)
  {
  }

  lemma MulLess(x: real, y: real, r: real)
    requires x < y && r > 0.0
    ensures x * r < y * r
  {
  }

  lemma DivLess(x: real, y: real, r: real)
    requires x < y && r > 0.0
    ensures x / r < y / r
  {
    assert y / r - x / r == (y - x) / r;
  }

  // x seconds' worth of nanoseconds earn x * r.
  lemma EarnedOver(rate: nat, q: real, deficit: real)
    requires rate > 0 && q == deficit / rate as real * SECOND as real
    ensures q / SECOND as real * rate as real == deficit
    ensures (q - 1.0) / SECOND as real * rate as real == deficit - rate as real / SECOND as real
  {
    var r, s := rate as real, SECOND as real;
    assert q / s == deficit / r;
    assert (q - 1.0) / s == q / s - 1.0 / s;
    assert (q / s - 1.0 / s) * r == q / s * r - 1.0 / s * r;
  }

  lemma EarnedAfterWait(rate: nat, deficit: real, x: int, y: int)
    requires rate > 0 && deficit >= 0.0
    ensures y - x > (deficit / rate as real * SECOND as real).Floor ==> Earned(rate, x, y) >= deficit
    ensures y - x >= (deficit / rate as real * SECOND as real).Floor ==>
              deficit - Earned(rate, x, y) < rate as real / SECOND as real
  {
    var r, s := rate as real, SECOND as real;
    var q := deficit / r * s;
    var d := (y - x) as real;
    EarnedOver(rate, q, deficit);
    if d > q {
      DivLess(q, d, s);
      MulLess(q / s, d / s, r);
    }
    if d > q - 1.0 {
      DivLess(q - 1.0, d, s);
      MulLess((q - 1.0) / s, d / s, r);
    }
  }

  lemma UnderOne(d: real, r: real)
    requires 0.0 < d < r / SECOND as real && r > 0.0
    ensures 0.0 <= d / r * SECOND as real < 1.0
  {
    var s := SECOND as real;
    MulLess(d, r / s, s);
    assert r / s * s == r;
    DivLess(d * s, r, r);
    assert r / r == 1.0;
    assert d / r * s == d * s / r;
  }

  /** An uncontended caller passes after one sleep that lasts a nanosecond more
      than asked for, and after two sleeps in any case. */
  lemma AtMostTwoSleeps(rate: nat, b: Bucket, c: Call, t1: int, t2: int)
    requires rate > 0 && Full(rate, b) && b.last <= c.now && !Granted(rate, b, c)
    requires t1 >= c.now + Wait(rate, Deficit(rate, b, c))
    ensures var b1, c1 := After(rate, b, c), Call(t1, c.n);
            && (t1 > c.now + Wait(rate, Deficit(rate, b, c)) ==> Granted(rate, b1, c1))
            && (!Granted(rate, b1, c1) && t2 >= t1 + Wait(rate, Deficit(rate, b1, c1)) ==>
                  Granted(rate, After(rate, b1, c1), Call(t2, c.n)))
  {
    var b1, c1 := After(rate, b, c), Call(t1, c.n);
    AfterIsFull(rate, b, c);
    CeilingIsIdle(rate, b, c);
    NextTry(rate, b, c, t1);
    EarnedAfterWait(rate, Deficit(rate, b, c), c.now, t1);
    if !Granted(rate, b1, c1) && t2 >= t1 + Wait(rate, Deficit(rate, b1, c1)) {
      var d1, r := Deficit(rate, b1, c1), rate as real;
      assert d1 == Deficit(rate, b, c) - Earned(rate, c.now, t1);
      assert 0.0 < d1 < r / SECOND as real;
      UnderOne(d1, r);
      NextTry(rate, b1, c1, t2);
      EarnedAfterWait(rate, d1, t1, t2);
    }
  }

  // The deficit's duration in nanoseconds, before it is cut.
  function Nanoseconds(rate: nat, deficit: real): real
    requires rate > 0
  {
    deficit / rate as real * SECOND as real
  }

  lemma ScaledOrder(d: real, q: real, s: real, r: real)
    requires s > 0.0 && r > 0.0
    ensures d / s * r >= q / s * r <==> d >= q
  {
    if d > q {
      DivLess(q, d, s);
      MulLess(q / s, d / s, r);
    } else if d < q {
      DivLess(d, q, s);
      MulLess(d / s, q / s, r);
    }
  }

  lemma EarnsExactly(rate: nat, deficit: real, x: int, y: int)
    requires rate > 0
    ensures Earned(rate, x, y) >= deficit <==> (y - x) as real >= Nanoseconds(rate, deficit)
  {
    var r, s, d, q := rate as real, SECOND as real, (y - x) as real, Nanoseconds(rate, deficit);
    EarnedOver(rate, q, deficit);
    ScaledOrder(d, q, s, r);
  }

  /** A sleep of exactly the time asked for is enough exactly when the deficit takes
      at most a millisecond, or a whole number of nanoseconds. */
  lemma OneSleepIsExact(rate: nat, b: Bucket, c: Call)
    requires rate > 0 && Full(rate, b) && b.last <= c.now && !Granted(rate, b, c)
    ensures var deficit := Deficit(rate, b, c);
            var q := Nanoseconds(rate, deficit);
            Granted(rate, After(rate, b, c), Call(c.now + Wait(rate, deficit), c.n)) <==>
              q <= MILLISECOND as real || q == q.Floor as real
  {
    var deficit := Deficit(rate, b, c);
    var q, t := Nanoseconds(rate, deficit), c.now + Wait(rate, deficit);
    CeilingIsIdle(rate, b, c);
    NextTry(rate, b, c, t);
    EarnsExactly(rate, deficit, c.now, t);
  }

  lemma ThirdOfASecond()
    ensures (1.0 / 3.0 * SECOND as real).Floor == 333_333_333
  {
    var q := 1.0 / 3.0 * SECOND as real;
    assert 3.0 * q == 1_000_000_000.0;
    assert q == 333_333_333.0 + 1.0 / 3.0;
  }

  lemma EarnedInAThird()
    ensures Earned(3, 0, 0) == 0.0 && Earned(3, 0, 333_333_333) < 1.0
  {
    assert Earned(3, 0, 333_333_333) == 333_333_333.0 / 1_000_000_000.0 * 3.0;
  }

  lemma EmptyBucketRefuses(now: int)
    requires now >= 0 && Earned(3, 0, now) < 1.0
    ensures Want(3, 1) == 1.0 && Refill(3, Bucket(0.0, 0), now).tokens == Earned(3, 0, now)
    ensures !Granted(3, Bucket(0.0, 0), Call(now, 1))
  {
    EarnedIsPositive(3, 0, now);
    assert Capacity(3) == 6.0;
  }

  /** One sleep of exactly the time asked for can fall short: a third of a second
      is cut to whole nanoseconds. */
  lemma OneSleepCanFallShort()
    ensures var b, c := Bucket(0.0, 0), Call(0, 1);
            && !Granted(3, b, c) && Wait(3, Deficit(3, b, c)) == 333_333_333
            && !Granted(3, After(3, b, c), Call(333_333_333, 1))
  {
    var b, c := Bucket(0.0, 0), Call(0, 1);
    EarnedInAThird();
    EmptyBucketRefuses(0);
    EmptyBucketRefuses(333_333_333);
    assert After(3, b, c) == b;
    assert Wait(3, Deficit(3, b, c)) == 333_333_333 by {
      ThirdOfASecond();
    }
  }
}
