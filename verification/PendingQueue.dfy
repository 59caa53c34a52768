/** The queue of detections the console has not acknowledged yet.

    Detections arrive at any time. A flush takes the whole queue, posts it
    without holding the lock, and settles on the reply; the heartbeat and an
    upgrade flush from two goroutines, so several flushes can be in flight. */
module PendingQueue {
  import opened Common

  const CAP := 5000

  datatype Finding = Finding(rule: string, path: string)

  type Findings = seq<Finding>

  // What the post of a batch came back with.
  datatype Reply = Broken(error: string) | Ack(accepted: int, failed: int)

  predicate Stored(r: Reply) {
    r.Ack? && r.failed <= 0
  }

  // The newest CAP of them.
  function Newest(s: Findings): Findings {
    if |s| > CAP then s[|s| - CAP..] else s
  }

  function Oldest(s: Findings): Findings {
    if |s| > CAP then s[..|s| - CAP] else []
  }

  // All of s, or its last 5000.
  ghost predicate IsTail(t: Findings, s: Findings) {
    |t| == Min(|s|, 5000) && t == s[|s| - |t|..]
  }

  // The queue, the batches in flight in the order they were taken, and what became
  // of every finding ever queued.
  datatype State = State(
    pending: Findings, flights: seq<Findings>,
    accepted: Findings, acked: Findings, dropped: Findings)

  datatype Step = Arrive(f: Finding) | Begin | End(i: nat, reply: Reply)

  ghost predicate Enabled(st: State, step: Step) {
    step.End? ==> step.i < |st.flights|
  }

  ghost function Next(st: State, step: Step): State
    requires Enabled(st, step)
  {
    match step
    case Arrive(f) =>
      if |st.pending| < CAP then st.(pending := st.pending + [f], accepted := st.accepted + [f]) else st
    case Begin =>
      if st.pending == [] then st else st.(pending := [], flights := st.flights + [st.pending])
    case End(i, reply) =>
      var batch, rest := st.flights[i], st.flights[..i] + st.flights[i + 1..];
      if Stored(reply) then st.(flights := rest, acked := st.acked + batch)
      else st.(flights := rest,
               pending := Newest(batch + st.pending), dropped := st.dropped + Oldest(batch + st.pending))
  }

  // ---------------------------------------------------------------------
  // The client
  // ---------------------------------------------------------------------

  class Client {
    var pending: Findings
    var lastFlush: int
    var lastFlushErr: string
    ghost var flights: seq<Findings>
    ghost var accepted: Findings
    ghost var acked: Findings
    ghost var dropped: Findings

    ghost function Now(): State
      reads this
    {
      State(pending, flights, accepted, acked, dropped)
    }

    constructor ()
      ensures Now() == State([], [], [], [], [])
    {
      pending, lastFlush, lastFlushErr := [], 0, "";
      flights, accepted, acked, dropped := [], [], [], [];
    }

    method QueueFinding(f: Finding)
      modifies this
      ensures Now() == Next(old(Now()), Arrive(f))
      ensures |old(pending)| < 5000 ==> pending == old(pending) + [f] && accepted == old(accepted) + [f]
      ensures |old(pending)| >= 5000 ==> pending == old(pending) && accepted == old(accepted)
      ensures lastFlush == old(lastFlush) && lastFlushErr == old(lastFlushErr)
    {
      if |pending| < CAP {
        pending := pending + [f];
        accepted := accepted + [f];
      }
    }

    // The first half of a flush: an empty batch is not posted.
    method BeginFlush() returns (batch: Findings)
      modifies this
      ensures batch == old(pending) && Now() == Next(old(Now()), Begin)
      ensures pending == [] && flights == old(flights) + if batch == [] then [] else [batch]
      ensures lastFlush == old(lastFlush) && lastFlushErr == old(lastFlushErr)
    {
      batch := pending;
      pending := [];
      if |batch| == 0 { return; }
      flights := flights + [batch];
    }

    // The second half, of the i-th flush in flight.
    method EndFlush(batch: Findings, reply: Reply, ghost i: nat)
      requires i < |flights| && flights[i] == batch
      modifies this
      ensures Now() == Next(old(Now()), End(i, reply))
      ensures flights == old(flights)[..i] + old(flights)[i + 1..]
      ensures acked == old(acked) + if reply.Ack? && reply.failed <= 0 then batch else []
      ensures if reply.Ack? && reply.failed <= 0 then pending == old(pending) && dropped == old(dropped)
              else acked == old(acked) && IsTail(pending, batch + old(pending))
      ensures Stored(reply) ==> lastFlush == |batch| && lastFlushErr == ""
      ensures !Stored(reply) ==> lastFlush == old(lastFlush)
      ensures reply.Broken? ==> lastFlushErr == reply.error
      ensures !Stored(reply) && reply.Ack? ==> lastFlushErr != ""
    {
      flights := flights[..i] + flights[i + 1..];
      if reply.Ack? && reply.failed <= 0 {
        acked := acked + batch;
        lastFlush := |batch|;
        lastFlushErr := "";
        return;
      }
      lastFlushErr := match reply case Broken(e) => e case Ack(_, _) => "console stored fewer";
      Requeue(batch);
    }

    method Requeue(batch: Findings)
      modifies this
      ensures pending == Newest(batch + old(pending))
      ensures dropped == old(dropped) + Oldest(batch + old(pending))
      ensures IsTail(pending, batch + old(pending))
      ensures flights == old(flights) && accepted == old(accepted) && acked == old(acked)
      ensures lastFlush == old(lastFlush) && lastFlushErr == old(lastFlushErr)
    {
      dropped := dropped + Oldest(batch + pending);
      pending := batch + pending;
      if |pending| > CAP {
        var drop := |pending| - CAP;
        pending := pending[drop..];
      }
    }
  }

  // ---------------------------------------------------------------------
  // Every run
  // ---------------------------------------------------------------------

  ghost predicate Runnable(st: State, run: seq<Step>)
    decreases |run|
  {
    run == [] || (Enabled(st, run[0]) && Runnable(Next(st, run[0]), run[1..]))
  }

  ghost function After(st: State, run: seq<Step>): State
    requires Runnable(st, run)
    decreases |run|
  {
    if run == [] then st else After(Next(st, run[0]), run[1..])
  }

  const START := State([], [], [], [], [])

  ghost function Flat(batches: seq<Findings>): Findings {
    if batches == [] then [] else Flat(batches[..|batches| - 1]) + batches[|batches| - 1]
  }

  lemma {:induction false} FlatAppend(a: seq<Findings>, b: seq<Findings>)
    ensures Flat(a + b) == Flat(a) + Flat(b)
  {
    if b == [] {
      assert a + b == a;
    } else {
      var n := |b| - 1;
      assert (a + b)[..|a + b| - 1] == a + b[..n];
      FlatAppend(a, b[..n]);
    }
  }

  lemma FlatOne(batches: seq<Findings>)
    requires |batches| <= 1
    ensures Flat(batches) == if batches == [] then [] else batches[0]
  {
    if batches != [] { assert batches[..0] == []; }
  }

  lemma FlatAround(a: seq<Findings>, x: Findings, c: seq<Findings>)
    ensures Flat(a + [x] + c) == Flat(a) + x + Flat(c)
  {
    FlatAppend(a + [x], c);
    FlatAppend(a, [x]);
    FlatOne([x]);
  }

  lemma Cut(batches: seq<Findings>, i: nat)
    requires i < |batches|
    ensures batches == batches[..i] + [batches[i]] + batches[i + 1..]
  {
  }

  lemma FlatWithout(batches: seq<Findings>, i: nat)
    requires i < |batches|
    ensures Flat(batches) == Flat(batches[..i]) + batches[i] + Flat(batches[i + 1..])
    ensures Flat(batches[..i] + batches[i + 1..]) == Flat(batches[..i]) + Flat(batches[i + 1..])
  {
    Cut(batches, i);
    FlatAround(batches[..i], batches[i], batches[i + 1..]);
    FlatAppend(batches[..i], batches[i + 1..]);
  }

  // Nothing is lost and nothing is doubled; the queue and each batch are bounded.
  ghost predicate Conserved(st: State) {
    && multiset(st.accepted) ==
         multiset(st.pending) + multiset(Flat(st.flights)) + multiset(st.acked) + multiset(st.dropped)
    && Bounded(st)
  }

  ghost predicate Bounded(st: State) {
    && |st.pending| <= CAP
    && forall i :: 0 <= i < |st.flights| ==> 0 < |st.flights[i]| <= CAP
  }

  lemma NextIsBounded(st: State, step: Step)
    requires Bounded(st) && Enabled(st, step)
    ensures Bounded(Next(st, step))
  {
  }

  lemma BeginConserves(st: State)
    requires Conserved(st)
    ensures Conserved(Next(st, Begin))
  {
    NextIsBounded(st, Begin);
    FlatAppend(st.flights, [st.pending]);
    FlatOne([st.pending]);
    assert multiset(Flat(st.flights) + st.pending) == multiset(Flat(st.flights)) + multiset(st.pending);
  }

  lemma FlatLess(batches: seq<Findings>, i: nat)
    requires i < |batches|
    ensures multiset(Flat(batches)) == multiset(Flat(batches[..i] + batches[i + 1..])) + multiset(batches[i])
  {
    FlatWithout(batches, i);
  }

  lemma AckConserves(st: State, i: nat, reply: Reply)
    requires Conserved(st) && i < |st.flights| && Stored(reply)
    ensures Conserved(Next(st, End(i, reply)))
  {
    NextIsBounded(st, End(i, reply));
    FlatLess(st.flights, i);
    assert multiset(st.acked + st.flights[i]) == multiset(st.acked) + multiset(st.flights[i]);
  }

  lemma Parted(all: Findings)
    ensures multiset(all) == multiset(Oldest(all)) + multiset(Newest(all))
  {
    assert all == Oldest(all) + Newest(all);
  }

  lemma Balance(p: multiset<Finding>, f: multiset<Finding>, b: multiset<Finding>, a: multiset<Finding>,
                d: multiset<Finding>, o: multiset<Finding>, n: multiset<Finding>)
    requires b + p == o + n
    ensures p + (f + b) + a + d == n + f + a + (d + o)
  {
    forall x ensures (p + (f + b) + a + d)[x] == (n + f + a + (d + o))[x] {
      assert (b + p)[x] == (o + n)[x];
    }
  }

  lemma RequeueConserves(st: State, i: nat, reply: Reply)
    requires Conserved(st) && i < |st.flights| && !Stored(reply)
    ensures Conserved(Next(st, End(i, reply)))
  {
    var all := st.flights[i] + st.pending;
    NextIsBounded(st, End(i, reply));
    FlatLess(st.flights, i);
    Parted(all);
    assert multiset(all) == multiset(st.flights[i]) + multiset(st.pending);
    assert multiset(st.dropped + Oldest(all)) == multiset(st.dropped) + multiset(Oldest(all));
    Balance(multiset(st.pending), multiset(Flat(st.flights[..i] + st.flights[i + 1..])), multiset(st.flights[i]),
            multiset(st.acked), multiset(st.dropped), multiset(Oldest(all)), multiset(Newest(all)));
  }

  lemma NextConserves(st: State, step: Step)
    requires Conserved(st) && Enabled(st, step)
    ensures Conserved(Next(st, step))
  {
    match step
    case Arrive(f) => NextIsBounded(st, step);
    case Begin => BeginConserves(st);
    case End(i, reply) => if Stored(reply) { AckConserves(st, i, reply); } else { RequeueConserves(st, i, reply); }
  }

  /** Whatever the interleaving of arrivals, flushes and replies, every finding ever
      queued is pending, in one batch in flight, acknowledged or dropped. */
  lemma {:induction false} EveryRunConserves(st: State, run: seq<Step>)
    requires Conserved(st) && Runnable(st, run)
    ensures Conserved(After(st, run))
    decreases |run|
  {
    if run != [] {
      NextConserves(st, run[0]);
      EveryRunConserves(Next(st, run[0]), run[1..]);
    }
  }

  // ---------------------------------------------------------------------
  // One flush at a time
  // ---------------------------------------------------------------------

  // What is neither acknowledged nor dropped, oldest first.
  ghost function Live(st: State): Findings {
    Flat(st.flights) + st.pending
  }

  ghost predicate Alone(st: State, run: seq<Step>)
    requires Runnable(st, run)
    decreases |run|
  {
    |st.flights| <= 1 && (run == [] || Alone(Next(st, run[0]), run[1..]))
  }

  ghost predicate Suffix(a: Findings, s: Findings) {
    |a| <= |s| && a == s[|s| - |a|..]
  }

  // The live findings are the newest of all, in the order they arrived.
  ghost predicate NewestLive(st: State) {
    Suffix(Live(st), st.accepted)
  }

  lemma SuffixOfSuffix(a: Findings, b: Findings, s: Findings)
    requires Suffix(a, b) && Suffix(b, s)
    ensures Suffix(a, s)
  {
  }

  lemma EndKeepsNewest(st: State, reply: Reply)
    requires NewestLive(st) && |st.flights| == 1
    ensures NewestLive(Next(st, End(0, reply)))
  {
    var next := Next(st, End(0, reply));
    FlatOne(st.flights);
    assert next.flights == [];
    assert Live(next) == next.pending;
    assert Suffix(next.pending, Live(st));
    SuffixOfSuffix(next.pending, Live(st), st.accepted);
  }

  lemma ArriveKeepsNewest(st: State, f: Finding)
    requires NewestLive(st)
    ensures NewestLive(Next(st, Arrive(f)))
  {
    assert Live(Next(st, Arrive(f))) == if |st.pending| < CAP then Live(st) + [f] else Live(st);
  }

  lemma BeginKeepsNewest(st: State)
    requires NewestLive(st) && st.flights == []
    ensures NewestLive(Next(st, Begin))
  {
    FlatOne(Next(st, Begin).flights);
    assert Live(Next(st, Begin)) == Live(st);
  }

  lemma NextKeepsNewest(st: State, step: Step)
    requires NewestLive(st) && Enabled(st, step) && |st.flights| <= 1 && |Next(st, step).flights| <= 1
    ensures NewestLive(Next(st, step))
  {
    match step
    case Arrive(f) => ArriveKeepsNewest(st, f);
    case Begin => if st.flights == [] { BeginKeepsNewest(st); }
    case End(i, reply) => EndKeepsNewest(st, reply);
  }

  /** With one flush at a time, what is dropped is always older than all that is kept. */
  lemma {:induction false} NewestAreKept(st: State, run: seq<Step>)
    requires NewestLive(st) && Runnable(st, run) && Alone(st, run)
    ensures NewestLive(After(st, run))
    decreases |run|
  {
    if run != [] {
      NextKeepsNewest(st, run[0]);
      NewestAreKept(Next(st, run[0]), run[1..]);
    }
  }

  lemma Cancel(a: multiset<Finding>, b: multiset<Finding>, c: multiset<Finding>)
    requires a + c == b + c
    ensures a == b
  {
    forall x ensures a[x] == b[x] {
      assert (a + c)[x] == (b + c)[x];
    }
  }

  // Exactly the findings older than the live ones have been acknowledged or dropped.
  ghost predicate OlderSettled(st: State) {
    && NewestLive(st)
    && multiset(st.acked) + multiset(st.dropped) == multiset(st.accepted[..|st.accepted| - |Live(st)|])
  }

  lemma Older(st: State)
    requires Conserved(st) && NewestLive(st)
    ensures OlderSettled(st)
  {
    var older := st.accepted[..|st.accepted| - |Live(st)|];
    assert st.accepted == older + Live(st);
    assert multiset(st.accepted) == multiset(older) + multiset(Live(st));
    assert multiset(Live(st)) == multiset(Flat(st.flights)) + multiset(st.pending);
    Cancel(multiset(st.acked) + multiset(st.dropped), multiset(older), multiset(Live(st)));
  }

  /** With one flush at a time, the findings acknowledged or dropped are exactly the
      oldest, and the live ones all the newer. */
  lemma OlderAreSettled(st: State, run: seq<Step>)
    requires Conserved(st) && NewestLive(st) && Runnable(st, run) && Alone(st, run)
    ensures OlderSettled(After(st, run))
  {
    NewestAreKept(st, run);
    EveryRunConserves(st, run);
    Older(After(st, run));
  }

  // ---------------------------------------------------------------------
  // Several flushes at a time
  // ---------------------------------------------------------------------

  ghost predicate Distinct(s: Findings) {
    forall i, j :: 0 <= i < j < |s| ==> s[i] != s[j]
  }

  lemma SwapMatters(before: Findings, batch: Findings, later: Findings, after: Findings)
    requires Distinct(before + batch + later + after) && batch != []
    ensures before + later + (batch + after) == before + batch + later + after <==> later == []
  {
    var was, got := before + batch + later + after, before + later + (batch + after);
    if later != [] {
      assert got[|before|] == later[0] == was[|before| + |batch|];
      assert was[|before|] != was[|before| + |batch|];
    } else {
      assert was == got;
    }
  }

  lemma FlatIsEmpty(batches: seq<Findings>)
    requires forall i :: 0 <= i < |batches| ==> batches[i] != []
    ensures Flat(batches) == [] <==> batches == []
  {
  }

  // Taking x out of the middle leaves a suffix exactly when nothing was before it.
  lemma TakeOutMatters(before: Findings, x: Findings, after: Findings)
    requires Distinct(before + x + after) && x != []
    ensures Suffix(before + after, before + x + after) <==> before == []
  {
    var was := before + x + after;
    if before != [] {
      assert was[0] == before[0] == (before + after)[0];
      assert was[|x|..][0] == was[|x|] != was[0];
    } else {
      assert was[|x|..] == after == before + after;
    }
  }

  // Putting y behind z, with x before it gone, leaves a suffix exactly when there is
  // nothing in front and one of them is empty.
  lemma PutBackMatters(before: Findings, x: Findings, y: Findings, z: Findings, after: Findings)
    requires Distinct(before + x + y + z + after) && x != []
    ensures Suffix(before + z + (y + after), before + x + y + z + after) <==> before == [] && (y == [] || z == [])
  {
    var was, got := before + x + y + z + after, before + z + (y + after);
    assert |was| - |got| == |x|;
    if before != [] {
      assert was[0] == before[0] == got[0];
      assert was[|x|..][0] == was[|x|] != was[0];
    } else {
      assert was[|x|..] == y + z + after;
      DistinctTail(was, |x|);
      if y != [] {
        assert [] + y + z + after == y + z + after && [] + z + (y + after) == got;
        SwapMatters([], y, z, after);
      } else {
        assert was[|x|..] == got;
      }
    }
  }

  lemma DistinctTail(s: Findings, n: nat)
    requires Distinct(s) && n <= |s|
    ensures Distinct(s[n..])
  {
  }

  // Among distinct findings, being a suffix of a suffix is being one of the whole.
  lemma SuffixOfLive(x: Findings, live: Findings, all: Findings)
    requires Suffix(live, all) && |x| <= |live|
    ensures Suffix(x, all) <==> Suffix(x, live)
  {
    assert live[|live| - |x|..] == all[|all| - |x|..];
  }

  // The step leaves what is live the newest: of a flush that is settled, the batch was
  // the oldest; of one put back whole, the last; of one put back in part, the oldest,
  // with none behind it or none of it kept.
  ghost predicate KeepsOrder(st: State, step: Step)
    requires Enabled(st, step)
  {
    match step
    case Arrive(_) => true
    case Begin => true
    case End(i, reply) =>
      if Stored(reply) then i == 0
      else if |st.flights[i]| + |st.pending| <= CAP then i == |st.flights| - 1
      else i == 0 && (|st.flights| == 1 || |st.pending| == CAP)
  }

  lemma LiveParts(st: State, i: nat)
    requires Bounded(st) && i < |st.flights|
    ensures var before, later := Flat(st.flights[..i]), Flat(st.flights[i + 1..]);
            && Live(st) == before + st.flights[i] + later + st.pending
            && (before == [] <==> i == 0) && (later == [] <==> i == |st.flights| - 1)
  {
    FlatWithout(st.flights, i);
    FlatIsEmpty(st.flights[..i]);
    FlatIsEmpty(st.flights[i + 1..]);
  }

  lemma StoredMatters(st: State, i: nat, reply: Reply)
    requires Bounded(st) && Distinct(Live(st)) && i < |st.flights| && Stored(reply)
    ensures Suffix(Live(Next(st, End(i, reply))), Live(st)) <==> i == 0
  {
    var before, later := Flat(st.flights[..i]), Flat(st.flights[i + 1..]);
    LiveParts(st, i);
    FlatWithout(st.flights, i);
    assert Live(st) == before + st.flights[i] + (later + st.pending);
    assert Live(Next(st, End(i, reply))) == before + (later + st.pending);
    TakeOutMatters(before, st.flights[i], later + st.pending);
  }

  lemma WholeMatters(st: State, i: nat, reply: Reply)
    requires Bounded(st) && Distinct(Live(st)) && i < |st.flights| && !Stored(reply)
    requires |st.flights[i]| + |st.pending| <= CAP
    ensures Suffix(Live(Next(st, End(i, reply))), Live(st)) <==> i == |st.flights| - 1
  {
    var before, later, next := Flat(st.flights[..i]), Flat(st.flights[i + 1..]), Next(st, End(i, reply));
    LiveParts(st, i);
    FlatWithout(st.flights, i);
    assert Live(next) == before + later + (st.flights[i] + st.pending);
    assert |Live(next)| == |Live(st)| && Live(st)[0..] == Live(st);
    SwapMatters(before, st.flights[i], later, st.pending);
  }

  lemma PartMatters(st: State, i: nat, reply: Reply)
    requires Bounded(st) && Distinct(Live(st)) && i < |st.flights| && !Stored(reply)
    requires |st.flights[i]| + |st.pending| > CAP
    ensures Suffix(Live(Next(st, End(i, reply))), Live(st)) <==> i == 0 && (|st.flights| == 1 || |st.pending| == CAP)
  {
    var before, later, batch := Flat(st.flights[..i]), Flat(st.flights[i + 1..]), st.flights[i];
    var d, next := |batch| + |st.pending| - CAP, Next(st, End(i, reply));
    LiveParts(st, i);
    FlatWithout(st.flights, i);
    assert batch == batch[..d] + batch[d..];
    assert Newest(batch + st.pending) == batch[d..] + st.pending;
    assert Live(st) == before + batch[..d] + batch[d..] + later + st.pending;
    assert Live(next) == before + later + (batch[d..] + st.pending);
    PutBackMatters(before, batch[..d], batch[d..], later, st.pending);
  }

  /** From a state whose live findings are the newest, one more step leaves them the newest
      exactly when it keeps the order, however many flushes are in flight. */
  lemma OrderIsKeptExactly(st: State, step: Step)
    requires Bounded(st) && NewestLive(st) && Distinct(st.accepted) && Enabled(st, step)
    ensures NewestLive(Next(st, step)) <==> KeepsOrder(st, step)
  {
    match step
    case Arrive(f) => ArriveKeepsNewest(st, f);
    case Begin => BeginKeepsLive(st);
    case End(i, reply) =>
      var next := Next(st, step);
      DistinctTail(st.accepted, |st.accepted| - |Live(st)|);
      LiveShrinks(st, i, reply);
      SuffixOfLive(Live(next), Live(st), st.accepted);
      if Stored(reply) {
        StoredMatters(st, i, reply);
      } else if |st.flights[i]| + |st.pending| <= CAP {
        WholeMatters(st, i, reply);
      } else {
        PartMatters(st, i, reply);
      }
  }

  lemma BeginKeepsLive(st: State)
    ensures Live(Next(st, Begin)) == Live(st)
  {
    FlatAppend(st.flights, [st.pending]);
    FlatOne([st.pending]);
  }

  lemma LiveShrinks(st: State, i: nat, reply: Reply)
    requires i < |st.flights|
    ensures |Live(Next(st, End(i, reply)))| <= |Live(st)|
  {
    FlatWithout(st.flights, i);
  }

  ghost predicate InTurn(st: State, run: seq<Step>)
    requires Runnable(st, run)
    decreases |run|
  {
    run == [] || (KeepsOrder(st, run[0]) && InTurn(Next(st, run[0]), run[1..]))
  }

  ghost predicate AlwaysNewest(st: State, run: seq<Step>)
    requires Runnable(st, run)
    decreases |run|
  {
    NewestLive(st) && (run == [] || AlwaysNewest(Next(st, run[0]), run[1..]))
  }

  lemma {:induction false} AcceptedGrows(st: State, run: seq<Step>)
    requires Runnable(st, run)
    ensures st.accepted <= After(st, run).accepted
    decreases |run|
  {
    if run != [] { AcceptedGrows(Next(st, run[0]), run[1..]); }
  }

  /** Over a whole run, with any number of flushes in flight, the live findings are the newest
      at every moment exactly when every step keeps the order. */
  lemma {:induction false} OrderOverRuns(st: State, run: seq<Step>)
    requires Bounded(st) && NewestLive(st) && Runnable(st, run) && Distinct(After(st, run).accepted)
    ensures AlwaysNewest(st, run) <==> InTurn(st, run)
    decreases |run|
  {
    if run != [] {
      var next := Next(st, run[0]);
      AcceptedGrows(st, run);
      OrderIsKeptExactly(st, run[0]);
      NextIsBounded(st, run[0]);
      if NewestLive(next) { OrderOverRuns(next, run[1..]); }
    }
  }

  /** From an empty client: every run conserves, the newest are live at every moment exactly when
      every step keeps the order, and with one flush at a time exactly the older ones are settled. */
  lemma FromTheStart(run: seq<Step>)
    requires Runnable(START, run)
    ensures Conserved(After(START, run))
    ensures Distinct(After(START, run).accepted) ==> (AlwaysNewest(START, run) <==> InTurn(START, run))
    ensures Alone(START, run) ==> NewestLive(After(START, run)) && OlderSettled(After(START, run))
  {
    assert Live(START) == [];
    EveryRunConserves(START, run);
    if Distinct(After(START, run).accepted) { OrderOverRuns(START, run); }
    if Alone(START, run) {
      NewestAreKept(START, run);
      OlderAreSettled(START, run);
    }
  }

  ghost function Arrivals(s: Findings): seq<Step> {
    if s == [] then [] else Arrivals(s[..|s| - 1]) + [Arrive(s[|s| - 1])]
  }

  lemma {:induction false} RunAppends(st: State, a: seq<Step>, b: seq<Step>)
    requires Runnable(st, a) && Runnable(After(st, a), b)
    ensures Runnable(st, a + b) && After(st, a + b) == After(After(st, a), b)
    decreases |a|
  {
    if a == [] {
      assert a + b == b;
    } else {
      assert (a + b)[1..] == a[1..] + b;
      RunAppends(Next(st, a[0]), a[1..], b);
    }
  }

  lemma {:induction false} ArrivalsFill(st: State, s: Findings)
    requires |st.pending| + |s| <= CAP
    ensures Runnable(st, Arrivals(s))
    ensures After(st, Arrivals(s)) == st.(pending := st.pending + s, accepted := st.accepted + s)
  {
    if s != [] {
      var init, last := s[..|s| - 1], [Arrive(s[|s| - 1])];
      ArrivalsFill(st, init);
      var mid := After(st, Arrivals(init));
      assert last[1..] == [];
      assert Runnable(mid, last);
      RunAppends(st, Arrivals(init), last);
      assert st.pending + s == st.pending + init + [s[|s| - 1]];
      assert st.accepted + s == st.accepted + init + [s[|s| - 1]];
    }
  }

  // The heartbeat takes one finding and an upgrade a full queue; both posts fail in that order.
  ghost function TwoFlushes(old': Finding, new': Findings): seq<Step> {
    [Arrive(old'), Begin] + Arrivals(new') + [Begin, End(0, Broken("")), End(0, Broken(""))]
  }

  /** With two flushes in flight the newer of two findings can be dropped and the older kept. */
  lemma TwoFlushesCanDropNewer(old': Finding, new': Findings)
    requires |new'| == CAP
    ensures Runnable(START, TwoFlushes(old', new'))
    ensures var st := After(START, TwoFlushes(old', new'));
            && st.accepted == [old'] + new'
            && st.dropped == new'[..1] && st.pending == new'[1..] + [old']
  {
    OlderIsTaken(old');
    var s1 := State([], [[old']], [old'], [], []);
    ArrivalsFill(s1, new');
    var s2 := State(new', [[old']], [old'] + new', [], []);
    assert After(s1, Arrivals(new')) == s2;
    BothFail(old', new');
    var first, last := [Arrive(old'), Begin], [Begin, End(0, Broken("")), End(0, Broken(""))];
    RunAppends(START, first, Arrivals(new'));
    RunAppends(START, first + Arrivals(new'), last);
  }

  lemma OlderIsTaken(old': Finding)
    ensures Runnable(START, [Arrive(old'), Begin])
    ensures After(START, [Arrive(old'), Begin]) == State([], [[old']], [old'], [], [])
  {
    var run, s0, s1 := [Arrive(old'), Begin], State([old'], [], [old'], [], []), State([], [[old']], [old'], [], []);
    assert Next(START, run[0]) == s0;
    assert Next(s0, Begin) == s1;
    assert run[1..] == [Begin] && run[1..][1..] == [];
    assert After(s0, [Begin]) == After(s1, []) == s1;
  }

  lemma BothFail(old': Finding, new': Findings)
    requires |new'| == CAP
    ensures var st := State(new', [[old']], [old'] + new', [], []);
            var run := [Begin, End(0, Broken("")), End(0, Broken(""))];
            && Runnable(st, run)
            && After(st, run) == State(new'[1..] + [old'], [], [old'] + new', [], new'[..1])
  {
    var e := End(0, Broken(""));
    var s2 := State(new', [[old']], [old'] + new', [], []);
    var s3 := State([], [[old'], new'], [old'] + new', [], []);
    var s4 := State([old'], [new'], [old'] + new', [], []);
    var s5 := State(new'[1..] + [old'], [], [old'] + new', [], new'[..1]);
    assert Next(s2, Begin) == s3;
    assert Next(s3, e) == s4;
    assert Next(s4, e) == s5 by {
      assert (new' + [old'])[1..] == new'[1..] + [old'];
      assert (new' + [old'])[..1] == new'[..1];
    }
    assert [Begin, e, e][1..] == [e, e] && [e, e][1..] == [e] && [e][1..] == [];
    assert After(s4, [e]) == After(s5, []) == s5;
    assert After(s3, [e, e]) == s5;
  }
}
