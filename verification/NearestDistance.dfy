/** How close two kinds of literal come to each other in a file. */
module NearestDistance {
  import opened Common

  const LIMIT := 64   // positions collected for one side

  // ---------------------------------------------------------------------
  // Occurrences
  // ---------------------------------------------------------------------

  // The places of lit from left to right, without overlaps, are added to those
  // found so far until there are limit of them.
  function Greedy(s: seq<char>, lit: seq<char>, from: nat, limit: nat, out: seq<nat>): seq<nat>
    requires from <= |s|
    decreases limit - |out|
  {
    if |out| >= limit then out
    else match FirstAt(s, lit, from)
      case None => out
      case Some(i) => Greedy(s, lit, i + |lit|, limit, out + [i])
  }

  function Collect(s: seq<char>, lits: seq<seq<char>>, limit: nat, out: seq<nat>): seq<nat>
    decreases |lits|
  {
    if lits == [] then out else Collect(s, lits[1..], limit, Greedy(s, lits[0], 0, limit, out))
  }

  function Occurrences(s: seq<char>, lits: seq<seq<char>>, limit: nat): seq<nat> {
    Collect(s, lits, limit, [])
  }

  method OccurrencesIn(s: seq<char>, lits: seq<seq<char>>, limit: nat) returns (out: seq<nat>)
    ensures out == Occurrences(s, lits, limit)
  {
    out := [];
    for n := 0 to |lits|
      invariant Collect(s, lits[n..], limit, out) == Occurrences(s, lits, limit)
    {
      var lit, off := lits[n], 0;
      ghost var found := Greedy(s, lit, 0, limit, out);
      while |out| < limit
        invariant 0 <= off <= |s| && Greedy(s, lit, off, limit, out) == found
        decreases limit - |out|
      {
        var i := Index(s, lit, off);
        if i.None? { break; }
        out := out + [i.value];
        off := i.value + |lit|;
      }
      assert lits[n..][1..] == lits[n + 1..];
    }
  }

  // ---------------------------------------------------------------------
  // What is collected
  // ---------------------------------------------------------------------

  lemma {:induction false} GreedyGrows(s: seq<char>, lit: seq<char>, from: nat, limit: nat, out: seq<nat>)
    requires from <= |s|
    ensures var r := Greedy(s, lit, from, limit, out);
            |out| <= |r| && (|out| <= limit ==> |r| <= limit) && forall p :: p in out ==> p in r
    decreases limit - |out|
  {
    if |out| < limit && FirstAt(s, lit, from).Some? {
      var i := FirstAt(s, lit, from).value;
      GreedyGrows(s, lit, i + |lit|, limit, out + [i]);
      assert forall p :: p in out ==> p in out + [i];
    }
  }

  lemma {:induction false} GreedyIsReal(s: seq<char>, lit: seq<char>, from: nat, limit: nat, out: seq<nat>, p: nat)
    requires from <= |s| && p in Greedy(s, lit, from, limit, out)
    ensures p in out || WordAt(s, lit, p)
    decreases limit - |out|
  {
    FirstAtMeans(s, lit, from);
    if |out| < limit && FirstAt(s, lit, from).Some? {
      var i := FirstAt(s, lit, from).value;
      GreedyIsReal(s, lit, i + |lit|, limit, out + [i], p);
    }
  }

  // With room to spare, each place overlaps one that is collected.
  lemma {:induction false} GreedyCovers(s: seq<char>, lit: seq<char>, from: nat, limit: nat, out: seq<nat>, p: nat)
    returns (q: nat)
    requires |lit| > 0 && from <= p && WordAt(s, lit, p) && |Greedy(s, lit, from, limit, out)| < limit
    ensures q in Greedy(s, lit, from, limit, out) && WordAt(s, lit, q) && q <= p < q + |lit|
    decreases limit - |out|
  {
    FirstAtMeans(s, lit, from);
    GreedyGrows(s, lit, from, limit, out);
    q := FirstAt(s, lit, from).value;
    if q + |lit| <= p {
      q := GreedyCovers(s, lit, q + |lit|, limit, out + [q], p);
    } else {
      GreedyGrows(s, lit, q + |lit|, limit, out + [q]);
      assert q in out + [q];
    }
  }

  // No proper end of the literal is also its beginning.
  ghost predicate Unbordered(lit: seq<char>) {
    |lit| > 0 && forall k :: 0 < k < |lit| ==> lit[k..] != lit[..|lit| - k]
  }

  lemma Overlap(s: seq<char>, lit: seq<char>, q: nat, p: nat)
    requires WordAt(s, lit, q) && WordAt(s, lit, p) && q < p < q + |lit|
    ensures !Unbordered(lit)
  {
    var k := p - q;
    assert s[p..q + |lit|] == s[q..q + |lit|][k..];
    assert s[p..q + |lit|] == s[p..p + |lit|][..|lit| - k];
    assert lit[k..] == lit[..|lit| - k];
  }

  ghost predicate SomeLiteralAt(s: seq<char>, lits: seq<seq<char>>, p: nat) {
    exists n :: 0 <= n < |lits| && WordAt(s, lits[n], p)
  }

  // One literal's share.
  lemma GreedyIsExact(s: seq<char>, lit: seq<char>, limit: nat, out: seq<nat>, p: nat)
    ensures p in Greedy(s, lit, 0, limit, out) ==> p in out || WordAt(s, lit, p)
    ensures WordAt(s, lit, p) && Unbordered(lit) && |Greedy(s, lit, 0, limit, out)| < limit ==>
              p in Greedy(s, lit, 0, limit, out)
  {
    if p in Greedy(s, lit, 0, limit, out) { GreedyIsReal(s, lit, 0, limit, out, p); }
    if WordAt(s, lit, p) && Unbordered(lit) && |Greedy(s, lit, 0, limit, out)| < limit {
      var q := GreedyCovers(s, lit, 0, limit, out, p);
      if q < p { Overlap(s, lit, q, p); }
    }
  }

  lemma {:induction false} CollectGrows(s: seq<char>, lits: seq<seq<char>>, limit: nat, out: seq<nat>)
    ensures var r := Collect(s, lits, limit, out);
            |out| <= |r| && (|out| <= limit ==> |r| <= limit) && forall p :: p in out ==> p in r
    decreases |lits|
  {
    if lits != [] {
      GreedyGrows(s, lits[0], 0, limit, out);
      CollectGrows(s, lits[1..], limit, Greedy(s, lits[0], 0, limit, out));
    }
  }

  lemma {:induction false} CollectIsExact(s: seq<char>, lits: seq<seq<char>>, limit: nat, out: seq<nat>, p: nat)
    ensures p in Collect(s, lits, limit, out) ==> p in out || SomeLiteralAt(s, lits, p)
    ensures |Collect(s, lits, limit, out)| < limit && (forall lit :: lit in lits ==> Unbordered(lit)) &&
            SomeLiteralAt(s, lits, p) ==>
              p in Collect(s, lits, limit, out)
    decreases |lits|
  {
    if lits != [] {
      var next := Greedy(s, lits[0], 0, limit, out);
      GreedyIsExact(s, lits[0], limit, out, p);
      CollectGrows(s, lits[1..], limit, next);
      CollectIsExact(s, lits[1..], limit, next, p);
      assert SomeLiteralAt(s, lits, p) <==> WordAt(s, lits[0], p) || SomeLiteralAt(s, lits[1..], p) by {
        assert lits == [lits[0]] + lits[1..];
      }
    }
  }

  /** Only real places are collected, limit of them at most; and all of them, where
      the limit is not reached and no literal can overlap itself. */
  lemma OccurrencesAreExact(s: seq<char>, lits: seq<seq<char>>, limit: nat)
    ensures var r := Occurrences(s, lits, limit);
            && |r| <= limit
            && (forall p :: p in r ==> SomeLiteralAt(s, lits, p))
            && (|r| < limit && (forall lit :: lit in lits ==> Unbordered(lit)) ==>
                  forall p: nat :: SomeLiteralAt(s, lits, p) ==> p in r)
  {
    CollectGrows(s, lits, limit, []);
    forall p: nat
      ensures p in Occurrences(s, lits, limit) ==> SomeLiteralAt(s, lits, p)
      ensures |Occurrences(s, lits, limit)| < limit && (forall lit :: lit in lits ==> Unbordered(lit)) &&
              SomeLiteralAt(s, lits, p) ==>
                p in Occurrences(s, lits, limit)
    {
      CollectIsExact(s, lits, limit, [], p);
    }
  }

  // ---------------------------------------------------------------------
  // The nearest pair
  // ---------------------------------------------------------------------

  function Gap(p: int, q: int): nat {
    if p < q then q - p else p - q
  }

  // d is the least gap of all pairs.
  ghost predicate Nearest(a: seq<nat>, b: seq<nat>, d: int) {
    && (exists p, q :: p in a && q in b && Gap(p, q) == d)
    && forall p, q :: p in a && q in b ==> d <= Gap(p, q)
  }

  ghost predicate Sorted(s: seq<nat>) {
    forall i, j :: 0 <= i <= j < |s| ==> s[i] <= s[j]
  }

  lemma SpliceIsSorted(r: seq<nat>, k: nat, x: nat)
    requires Sorted(r) && k <= |r|
    requires (k > 0 ==> r[k - 1] <= x) && (k < |r| ==> x <= r[k])
    ensures Sorted(r[..k] + [x] + r[k..])
    ensures forall y :: y in r[..k] + [x] + r[k..] <==> y == x || y in r
  {
    assert r == r[..k] + r[k..];
  }

  // The library's sort; only the order and the positions present matter here.
  method SortInts(s: seq<nat>) returns (r: seq<nat>)
    ensures Sorted(r) && |r| == |s|
    ensures forall p :: p in r <==> p in s
  {
    r := [];
    for i := 0 to |s|
      invariant Sorted(r) && |r| == i
      invariant forall p :: p in r <==> p in s[..i]
    {
      var k := |r|;
      while k > 0 && r[k - 1] > s[i]
        invariant 0 <= k <= |r|
        invariant k < |r| ==> r[k] > s[i]
      {
        k := k - 1;
      }
      SpliceIsSorted(r, k, s[i]);
      assert s[..i + 1] == s[..i] + [s[i]];
      r := r[..k] + [s[i]] + r[k..];
    }
    assert s[..|s|] == s;
  }

  // For one p: the two positions looked at hold the nearest of b.
  lemma TwoAreEnough(b: seq<nat>, j: nat, p: nat, q: nat)
    requires Sorted(b) && j < |b| && q in b
    requires forall k :: 0 <= k < j ==> b[k] < p
    requires j == |b| - 1 || b[j] >= p
    ensures Gap(p, b[j]) <= Gap(p, q) || Gap(p, b[Max(0, j - 1)]) <= Gap(p, q)
  {
    var k :| 0 <= k < |b| && b[k] == q;
    if k < j {
      assert b[k] <= b[j - 1];
    } else {
      assert b[j] <= b[k];
    }
  }

  method NearestOf(aPos: seq<nat>, bPos: seq<nat>) returns (best: int)
    requires Sorted(aPos) && Sorted(bPos) && aPos != [] && bPos != []
    ensures Nearest(aPos, bPos, best)
  {
    best := -1;
    var j := 0;
    for i := 0 to |aPos|
      invariant 0 <= j < |bPos|
      invariant forall k :: 0 <= k < j ==> i > 0 && bPos[k] < aPos[i - 1]
      invariant if i == 0 then best == -1 else best >= 0 && Nearest(aPos[..i], bPos, best)
    {
      var p := aPos[i];
      while j < |bPos| - 1 && bPos[j] < p
        invariant 0 <= j < |bPos|
        invariant forall k :: 0 <= k < j ==> bPos[k] < p
      {
        j := j + 1;
      }
      ghost var was := best;
      var near, prev := Gap(p, bPos[j]), Gap(p, bPos[Max(0, j - 1)]);
      if best < 0 || near < best { best := near; }
      if best < 0 || prev < best { best := prev; }
      forall q | q in bPos ensures best <= Gap(p, q) {
        TwoAreEnough(bPos, j, p, q);
      }
      assert aPos[..i + 1] == aPos[..i] + [p];
      StillNearest(aPos[..i], bPos, was, p, best);
    }
    assert aPos[..|aPos|] == aPos;
  }

  lemma StillNearest(a: seq<nat>, b: seq<nat>, was: int, p: nat, best: int)
    requires if a == [] then was == -1 else was >= 0 && Nearest(a, b, was) && best <= was
    requires forall q :: q in b ==> best <= Gap(p, q)
    requires (a != [] && best == was) || exists q :: q in b && Gap(p, q) == best
    ensures Nearest(a + [p], b, best)
  {
    if a != [] && best == was {
      var x, y :| x in a && y in b && Gap(x, y) == was;
      assert x in a + [p];
    } else {
      var q :| q in b && Gap(p, q) == best;
      assert p in a + [p];
    }
  }

  /** The least gap over every pair collected, and whether it is within max. */
  method NearestDistanceIn(lower: seq<char>, aLits: seq<seq<char>>, bLits: seq<seq<char>>, max: int)
    returns (d: int, ok: bool)
    ensures var a, b := Occurrences(lower, aLits, LIMIT), Occurrences(lower, bLits, LIMIT);
            if a == [] || b == [] then d == 0 && !ok else Nearest(a, b, d) && (ok <==> d <= max)
  {
    var a := OccurrencesIn(lower, aLits, LIMIT);
    var b := OccurrencesIn(lower, bLits, LIMIT);
    if a == [] || b == [] { return 0, false; }
    var aPos := SortInts(a);
    var bPos := SortInts(b);
    assert a[0] in aPos && b[0] in bPos;
    d := NearestOf(aPos, bPos);
    var p, q :| p in aPos && q in bPos && Gap(p, q) == d;
    ok := d >= 0 && d <= max;
  }
}
