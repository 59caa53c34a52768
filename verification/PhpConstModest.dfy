/** Programs that keep to the resolver's limits.

    Its variables can be ranked so that none refers to one of its rank or above, with
    twelve ranks at most; reading every right-hand side once takes no more steps than
    the budget; and no value built on the way is too large. */
module PhpConstModest {
  import opened Common
  import opened PhpLexer
  import opened PhpConstReading
  import opened PhpConst
  import opened PhpConstLaws
  import opened PhpConstSound
  import opened PhpConstExact

  // ---------------------------------------------------------------------
  // Steps: the items of a range, with those of the arguments of its calls
  // ---------------------------------------------------------------------

  function RangeSteps(p: Program, start: nat, end: nat): nat
    decreases Max(0, end - start), 2
  {
    if start < end <= |p.src| then FromSteps(p, start, end) else 0
  }

  function FromSteps(p: Program, i: nat, end: nat): nat
    requires end <= |p.src|
    decreases Max(0, end - i), 1
  {
    if i >= end then 0 else 1 + ItemSteps(p, i, end) + FromSteps(p, ItemNext(ItemAt(p, i, end), i), end)
  }

  function ItemSteps(p: Program, i: nat, end: nat): nat
    requires i < end <= |p.src|
    decreases end - i, 0
  {
    match ItemAt(p, i, end)
    case Call(_, lo, hi) => ArgSteps(p, lo, hi, 0) + ArgSteps(p, lo, hi, 1) + ArgSteps(p, lo, hi, 2)
    case _ => 0
  }

  function ArgSteps(p: Program, lo: nat, hi: nat, n: nat): nat
    requires lo <= hi <= |p.src|
    decreases hi - lo, 3
  {
    var args := SplitArgs(p, lo, hi);
    if n < |args| then RangeSteps(p, args[n].start, args[n].end) else 0
  }

  // ---------------------------------------------------------------------
  // Ranks: every assigned variable read over a range ranks below h
  // ---------------------------------------------------------------------

  predicate RangeRanked(p: Program, rank: Bytes -> nat, h: nat, start: nat, end: nat)
    decreases Max(0, end - start), 2
  {
    start < end <= |p.src| ==> FromRanked(p, rank, h, start, end)
  }

  predicate FromRanked(p: Program, rank: Bytes -> nat, h: nat, i: nat, end: nat)
    requires end <= |p.src|
    decreases Max(0, end - i), 1
  {
    i < end ==> ItemRanked(p, rank, h, i, end) && FromRanked(p, rank, h, ItemNext(ItemAt(p, i, end), i), end)
  }

  predicate ItemRanked(p: Program, rank: Bytes -> nat, h: nat, i: nat, end: nat)
    requires i < end <= |p.src|
    decreases end - i, 0
  {
    match ItemAt(p, i, end)
    case Var(name, _) => name in p.assigns ==> rank(name) < h
    case Call(_, lo, hi) =>
      ArgRanked(p, rank, h, lo, hi, 0) && ArgRanked(p, rank, h, lo, hi, 1) && ArgRanked(p, rank, h, lo, hi, 2)
    case _ => true
  }

  predicate ArgRanked(p: Program, rank: Bytes -> nat, h: nat, lo: nat, hi: nat, n: nat)
    requires lo <= hi <= |p.src|
    decreases hi - lo, 3
  {
    var args := SplitArgs(p, lo, hi);
    n < |args| ==> RangeRanked(p, rank, h, args[n].start, args[n].end)
  }

  // ---------------------------------------------------------------------
  // Sizes: no value the evaluator builds over a range is too large
  // ---------------------------------------------------------------------

  predicate RangeSmall(p: Program, fuel: nat, start: nat, end: nat)
    decreases Max(0, end - start), 2
  {
    start < end <= |p.src| ==> FromSmall(p, fuel, start, end, [])
  }

  predicate FromSmall(p: Program, fuel: nat, i: nat, end: nat, out: Bytes)
    requires end <= |p.src|
    decreases Max(0, end - i), 1
  {
    i < end ==>
      var it, r := ItemAt(p, i, end), EvalItem(p, fuel, i, end);
      && ItemSmall(p, fuel, i, end)
      && (r.Value? ==>
            && (SizeChecked(it) ==> |out + r.v| <= CONST_MAX_VALUE)
            && FromSmall(p, fuel, ItemNext(it, i), end, out + r.v))
  }

  predicate ItemSmall(p: Program, fuel: nat, i: nat, end: nat)
    requires i < end <= |p.src|
    decreases end - i, 0
  {
    match ItemAt(p, i, end)
    case Call(_, lo, hi) => ArgSmall(p, fuel, lo, hi, 0) && ArgSmall(p, fuel, lo, hi, 1) && ArgSmall(p, fuel, lo, hi, 2)
    case _ => true
  }

  predicate ArgSmall(p: Program, fuel: nat, lo: nat, hi: nat, n: nat)
    requires lo <= hi <= |p.src|
    decreases hi - lo, 3
  {
    var args := SplitArgs(p, lo, hi);
    n < |args| ==> RangeSmall(p, fuel, args[n].start, args[n].end)
  }

  // ---------------------------------------------------------------------
  // Modest programs
  // ---------------------------------------------------------------------

  function Steps(p: Program, name: Bytes): nat
    requires name in p.assigns
  {
    RangeSteps(p, p.assigns[name].start, p.assigns[name].end)
  }

  ghost function AllSteps(p: Program, names: set<Bytes>): nat
    requires names <= p.assigns.Keys
    decreases |names|
  {
    if names == {} then 0 else
      var name :| name in names;
      Steps(p, name) + AllSteps(p, names - {name})
  }

  // A ranking of the variables, how many ranks there may be, and how many steps in all.
  datatype Sizes = Sizes(rank: Bytes -> nat, ranks: nat, steps: nat)

  predicate Keeps(p: Program, z: Sizes, name: Bytes)
    requires name in p.assigns
  {
    var s := p.assigns[name];
    && z.rank(name) < z.ranks
    && RangeRanked(p, z.rank, z.rank(name), s.start, s.end) && RangeSmall(p, z.ranks, s.start, s.end)
  }

  ghost predicate AllKeep(p: Program, z: Sizes) {
    forall name {:trigger Keeps(p, z, name)} :: name in p.assigns ==> Keeps(p, z, name)
  }

  ghost predicate Modest(p: Program, z: Sizes) {
    AllKeep(p, z) && AllSteps(p, p.assigns.Keys) <= z.steps
  }

  lemma {:induction false} TakeOut(p: Program, names: set<Bytes>, name: Bytes)
    requires name in names && names <= p.assigns.Keys
    ensures AllSteps(p, names) == Steps(p, name) + AllSteps(p, names - {name})
    decreases |names|
  {
    var first :| first in names && AllSteps(p, names) == Steps(p, first) + AllSteps(p, names - {first});
    if first != name {
      TakeOut(p, names - {first}, name);
      TakeOut(p, names - {name}, first);
      assert names - {first} - {name} == names - {name} - {first};
    }
  }

  // ---------------------------------------------------------------------
  // As many units of fuel as ranks decide every variable
  // ---------------------------------------------------------------------

  lemma {:induction false} VarDecided(p: Program, z: Sizes, f: nat, name: Bytes)
    requires AllKeep(p, z) && (name in p.assigns ==> z.rank(name) < f)
    ensures EvalVar(p, f, name) != Deep
    decreases f, 0, 0
  {
    if name in p.assigns {
      assert Keeps(p, z, name);
      RangeDecided(p, z, z.rank(name), f - 1, p.assigns[name].start, p.assigns[name].end);
    }
  }

  lemma {:induction false} RangeDecided(p: Program, z: Sizes, h: nat, f: nat, start: nat, end: nat)
    requires AllKeep(p, z) && RangeRanked(p, z.rank, h, start, end) && h <= f
    ensures EvalRange(p, f, start, end) != Deep
    decreases f, Max(0, end - start), 2
  {
    if start < end <= |p.src| { FromDecided(p, z, h, f, start, end, []); }
  }

  lemma {:induction false} FromDecided(p: Program, z: Sizes, h: nat, f: nat, i: nat, end: nat, out: Bytes)
    requires end <= |p.src| && AllKeep(p, z) && FromRanked(p, z.rank, h, i, end) && h <= f
    ensures EvalFrom(p, f, i, end, out) != Deep
    decreases f, Max(0, end - i), 1
  {
    if i < end {
      ItemDecided(p, z, h, f, i, end);
      var r := EvalItem(p, f, i, end);
      if r.Value? { FromDecided(p, z, h, f, ItemNext(ItemAt(p, i, end), i), end, out + r.v); }
    }
  }

  lemma {:induction false} ItemDecided(p: Program, z: Sizes, h: nat, f: nat, i: nat, end: nat)
    requires i < end <= |p.src| && AllKeep(p, z) && ItemRanked(p, z.rank, h, i, end) && h <= f
    ensures EvalItem(p, f, i, end) != Deep
    decreases f, end - i, 0
  {
    match ItemAt(p, i, end)
    case Var(name, _) => VarDecided(p, z, f, name);
    case Call(name, lo, hi) =>
      ArgDecided(p, z, h, f, lo, hi, 0);
      ArgDecided(p, z, h, f, lo, hi, 1);
      ArgDecided(p, z, h, f, lo, hi, 2);
      CallDecided(p, f, name, lo, hi);
    case _ =>
  }

  lemma {:induction false} ArgDecided(p: Program, z: Sizes, h: nat, f: nat, lo: nat, hi: nat, n: nat)
    requires lo <= hi <= |p.src| && AllKeep(p, z) && ArgRanked(p, z.rank, h, lo, hi, n) && h <= f
    ensures EvalArg(p, f, lo, hi, n) != Deep
    decreases f, hi - lo, 3
  {
    var args := SplitArgs(p, lo, hi);
    if n < |args| { RangeDecided(p, z, h, f, args[n].start, args[n].end); }
  }

  lemma CallDecided(p: Program, f: nat, name: Bytes, lo: nat, hi: nat)
    requires lo <= hi <= |p.src|
    requires EvalArg(p, f, lo, hi, 0) != Deep && EvalArg(p, f, lo, hi, 1) != Deep && EvalArg(p, f, lo, hi, 2) != Deep
    ensures EvalCall(p, f, name, lo, hi) != Deep
  {
  }

  // ---------------------------------------------------------------------
  // The resolver can afford what it is asked
  // ---------------------------------------------------------------------

  // Names neither settled nor being resolved.
  function Todo(p: Program, st: State, busy: set<Bytes>): (names: set<Bytes>)
    ensures names <= p.assigns.Keys
  {
    p.assigns.Keys - st.cache.Keys - st.failed - busy
  }

  // The budget covers need and every right-hand side still to be read.
  ghost predicate Covers(p: Program, st: State, busy: set<Bytes>, need: nat) {
    forall n {:trigger Unfolded(n)} :: Unfolded(n) ==> st.budget >= need + AllSteps(p, Todo(p, st, busy))
  }

  // So it does; and the depth left covers h ranks, below all names being resolved.
  ghost predicate Affords(p: Program, z: Sizes, st: State, busy: set<Bytes>, h: nat, need: nat) {
    && AllKeep(p, z) && SoundState(p, st) && Covers(p, st, busy, need)
    && h <= z.ranks && st.depth + h <= CONST_MAX_DEPTH && forall b <- busy :: z.rank(b) >= h
  }

  lemma CoversLess(p: Program, st: State, busy: set<Bytes>, more: nat, need: nat)
    requires Covers(p, st, busy, more + need)
    ensures Covers(p, st, busy, need)
  {
    assert Unfolded(0);
  }

  // A name that was never assigned is no work.
  lemma CoversUnassigned(p: Program, st: State, name: Bytes, busy: set<Bytes>, need: nat)
    requires Covers(p, st, busy, need) && name !in p.assigns
    ensures Covers(p, st.(failed := st.failed + {name}), busy, need)
  {
    assert Unfolded(0);
    assert Todo(p, st.(failed := st.failed + {name}), busy) == Todo(p, st, busy);
  }

  // Taking up a name moves its steps from what is still to be read to what is needed now.
  lemma CoversEntry(p: Program, st: State, st1: State, name: Bytes, busy: set<Bytes>, need: nat)
    requires Covers(p, st, busy, need) && st1 == st.(depth := st.depth + 1)
    requires name in p.assigns && name !in st.cache && name !in st.failed && name !in busy
    ensures Covers(p, st1, busy + {name}, Steps(p, name) + need)
  {
    assert Unfolded(0);
    TakeOut(p, Todo(p, st, busy), name);
    assert Todo(p, st1, busy + {name}) == Todo(p, st, busy) - {name};
  }

  // Settling it leaves as much to be read.
  lemma CoversExit(p: Program, st: State, st1: State, name: Bytes, busy: set<Bytes>, need: nat)
    requires Covers(p, st, busy + {name}, need) && st1.budget == st.budget
    requires st1.cache.Keys + st1.failed == st.cache.Keys + st.failed + {name}
    ensures Covers(p, st1, busy, need)
  {
    assert Unfolded(0);
    assert forall k :: k in st1.cache.Keys + st1.failed <==> k in st.cache.Keys + st.failed + {name};
    assert Todo(p, st1, busy) == Todo(p, st, busy + {name});
  }

  lemma {:induction false} VarAfforded(p: Program, z: Sizes, st: State, name: Bytes,
                                       busy: set<Bytes>, h: nat, need: nat)
    requires Affords(p, z, st, busy, h, need) && (name in p.assigns ==> z.rank(name) < h)
    ensures VarFits(p, st, name) && Affords(p, z, FoldVar(p, st, name).st, busy, h, need)
    decreases Max(0, CONST_MAX_DEPTH - st.depth), 0, 1
  {
    if name !in st.cache && name !in st.failed {
      if name in p.assigns {
        NewVarAfforded(p, z, st, name, busy, h, need);
      } else {
        CoversUnassigned(p, st, name, busy, need);
        var f := FoldVarExact(p, st, name);
      }
    }
  }

  lemma {:induction false} NewVarAfforded(p: Program, z: Sizes, st: State, name: Bytes,
                                          busy: set<Bytes>, h: nat, need: nat)
    requires Affords(p, z, st, busy, h, need)
    requires name in p.assigns && z.rank(name) < h && name !in st.cache && name !in st.failed
    ensures VarFits(p, st, name) && Affords(p, z, FoldVar(p, st, name).st, busy, h, need)
    decreases Max(0, CONST_MAX_DEPTH - st.depth), 0, 0
  {
    assert Keeps(p, z, name);
    var s, st1, busy1 := p.assigns[name], st.(depth := st.depth + 1), busy + {name};
    CoversEntry(p, st, st1, name, busy, need);
    RangeAfforded(p, z, st1, s.start, s.end, busy1, z.rank(name), need);
    var f := FoldVarExact(p, st, name);
    CoversExit(p, FoldRange(p, st1, s.start, s.end).st, FoldVar(p, st, name).st, name, busy, need);
  }

  lemma {:induction false} RangeAfforded(p: Program, z: Sizes, st: State, start: nat, end: nat,
                                         busy: set<Bytes>, h: nat, need: nat)
    requires Affords(p, z, st, busy, h, RangeSteps(p, start, end) + need)
    requires RangeRanked(p, z.rank, h, start, end) && RangeSmall(p, z.ranks, start, end)
    ensures RangeFits(p, st, start, end) && Affords(p, z, FoldRange(p, st, start, end).st, busy, h, need)
    decreases Max(0, CONST_MAX_DEPTH - st.depth), Max(0, end - start), 2
  {
    if start < end <= |p.src| { FromAfforded(p, z, st, start, end, [], busy, h, need); }
  }

  lemma {:induction false} FromAfforded(p: Program, z: Sizes, st: State, i: nat, end: nat, out: Bytes,
                                        busy: set<Bytes>, h: nat, need: nat)
    requires end <= |p.src| && Affords(p, z, st, busy, h, FromSteps(p, i, end) + need)
    requires FromRanked(p, z.rank, h, i, end) && FromSmall(p, z.ranks, i, end, out)
    ensures FromFits(p, st, i, end, out) && Affords(p, z, FoldFrom(p, st, i, end, out).st, busy, h, need)
    decreases Max(0, CONST_MAX_DEPTH - st.depth), Max(0, end - i), 1
  {
    if i < end {
      var st1, next := st.(budget := st.budget - 1), ItemNext(ItemAt(p, i, end), i);
      SpendOne(p, z, st, i, end, busy, h, need);
      ItemAfforded(p, z, st1, i, end, busy, h, FromSteps(p, next, end) + need);
      var r := FoldItem(p, st1, i, end);
      StaysSmall(p, z, st1, i, end, out, h);
      if r.v.Some? {
        FromAfforded(p, z, r.st, next, end, out + r.v.value, busy, h, need);
      } else {
        CoversLess(p, r.st, busy, FromSteps(p, next, end), need);
      }
      FitsHere(p, st, i, end, out);
      FoldOne(p, st, i, end, out);
    }
  }

  lemma SpendOne(p: Program, z: Sizes, st: State, i: nat, end: nat, busy: set<Bytes>, h: nat, need: nat)
    requires i < end <= |p.src| && Affords(p, z, st, busy, h, FromSteps(p, i, end) + need)
    ensures st.budget > 0
    ensures var later := FromSteps(p, ItemNext(ItemAt(p, i, end), i), end);
            Affords(p, z, st.(budget := st.budget - 1), busy, h, ItemSteps(p, i, end) + (later + need))
  {
    assert Unfolded(0);
  }

  lemma StaysSmall(p: Program, z: Sizes, st: State, i: nat, end: nat, out: Bytes, h: nat)
    requires i < end <= |p.src| && AllKeep(p, z) && SoundState(p, st) && h <= z.ranks
    requires ItemFits(p, st, i, end) && ItemRanked(p, z.rank, h, i, end) && FromSmall(p, z.ranks, i, end, out)
    ensures var it, r := ItemAt(p, i, end), FoldItem(p, st, i, end);
            r.v.Some? ==>
              && (SizeChecked(it) ==> |out + r.v.value| <= CONST_MAX_VALUE)
              && FromSmall(p, z.ranks, ItemNext(it, i), end, out + r.v.value)
  {
    ItemIsRight(p, z, st, i, end, h);
  }

  // One turn of the loop.
  lemma FoldOne(p: Program, st: State, i: nat, end: nat, out: Bytes)
    requires i < end <= |p.src| && st.budget > 0
    ensures var it, r := ItemAt(p, i, end), FoldItem(p, st.(budget := st.budget - 1), i, end);
            FoldFrom(p, st, i, end, out) ==
              if r.v.None? || (SizeChecked(it) && |out + r.v.value| > CONST_MAX_VALUE) then Folded(r.st, None)
              else FoldFrom(p, r.st, ItemNext(it, i), end, out + r.v.value)
  {
  }

  lemma FitsHere(p: Program, st: State, i: nat, end: nat, out: Bytes)
    requires i < end <= |p.src| && st.budget > 0 && ItemFits(p, st.(budget := st.budget - 1), i, end)
    requires var it, r := ItemAt(p, i, end), FoldItem(p, st.(budget := st.budget - 1), i, end);
             r.v.Some? ==>
               && (SizeChecked(it) ==> |out + r.v.value| <= CONST_MAX_VALUE)
               && FromFits(p, r.st, ItemNext(it, i), end, out + r.v.value)
    ensures FromFits(p, st, i, end, out)
  {
  }

  // That fuel gives the item the value it is folded to.
  lemma ItemIsRight(p: Program, z: Sizes, st: State, i: nat, end: nat, h: nat)
    requires i < end <= |p.src| && AllKeep(p, z) && ItemRanked(p, z.rank, h, i, end) && h <= z.ranks
    requires SoundState(p, st) && ItemFits(p, st, i, end)
    ensures EvalItem(p, z.ranks, i, end) == Known(FoldItem(p, st, i, end).v)
  {
    var f := FoldItemExact(p, st, i, end);
    ItemDecided(p, z, h, z.ranks, i, end);
    ItemKeeps(p, f, Max(f, z.ranks), i, end);
    ItemKeeps(p, z.ranks, Max(f, z.ranks), i, end);
  }

  lemma {:induction false} ItemAfforded(p: Program, z: Sizes, st: State, i: nat, end: nat,
                                        busy: set<Bytes>, h: nat, need: nat)
    requires i < end <= |p.src| && Affords(p, z, st, busy, h, ItemSteps(p, i, end) + need)
    requires ItemRanked(p, z.rank, h, i, end) && ItemSmall(p, z.ranks, i, end)
    ensures ItemFits(p, st, i, end) && Affords(p, z, FoldItem(p, st, i, end).st, busy, h, need)
    decreases Max(0, CONST_MAX_DEPTH - st.depth), end - i, 0
  {
    var it := ItemAt(p, i, end);
    if it.Var? {
      VarAfforded(p, z, st, it.name, busy, h, need);
    } else if it.Call? {
      CallAfforded(p, z, st, it.name, it.lo, it.hi, busy, h, need);
    }
  }

  lemma {:induction false} ArgAfforded(p: Program, z: Sizes, st: State, lo: nat, hi: nat, n: nat,
                                       busy: set<Bytes>, h: nat, need: nat)
    requires lo <= hi <= |p.src| && Affords(p, z, st, busy, h, ArgSteps(p, lo, hi, n) + need)
    requires ArgRanked(p, z.rank, h, lo, hi, n) && ArgSmall(p, z.ranks, lo, hi, n)
    ensures ArgFits(p, st, lo, hi, n) && Affords(p, z, FoldArg(p, st, lo, hi, n).st, busy, h, need)
    decreases Max(0, CONST_MAX_DEPTH - st.depth), hi - lo, 3
  {
    var args := SplitArgs(p, lo, hi);
    if n < |args| { RangeAfforded(p, z, st, args[n].start, args[n].end, busy, h, need); }
  }

  lemma {:induction false} CallAfforded(p: Program, z: Sizes, st: State, name: Bytes, lo: nat, hi: nat,
                                        busy: set<Bytes>, h: nat, need: nat)
    requires lo <= hi <= |p.src|
    requires var s := ArgSteps(p, lo, hi, 0) + ArgSteps(p, lo, hi, 1) + ArgSteps(p, lo, hi, 2);
             Affords(p, z, st, busy, h, s + need)
    requires forall n {:trigger ArgRanked(p, z.rank, h, lo, hi, n)} :: 0 <= n < 3 ==>
               ArgRanked(p, z.rank, h, lo, hi, n) && ArgSmall(p, z.ranks, lo, hi, n)
    ensures CallFits(p, st, name, lo, hi) && Affords(p, z, FoldCall(p, st, name, lo, hi).st, busy, h, need)
    decreases Max(0, CONST_MAX_DEPTH - st.depth), hi - lo, 4
  {
    var s1, s2 := ArgSteps(p, lo, hi, 1), ArgSteps(p, lo, hi, 2);
    ArgAfforded(p, z, st, lo, hi, 0, busy, h, s1 + s2 + need);
    var a0 := FoldArg(p, st, lo, hi, 0);
    ArgAfforded(p, z, a0.st, lo, hi, 1, busy, h, s2 + need);
    var a1 := FoldArg(p, a0.st, lo, hi, 1);
    ArgAfforded(p, z, a1.st, lo, hi, 2, busy, h, need);
    CoversLess(p, a0.st, busy, s1 + s2, need);
    CoversLess(p, a1.st, busy, s2, need);
    CoversLess(p, st, busy, ArgSteps(p, lo, hi, 0) + s1 + s2, need);
    CallState(p, st, name, lo, hi);
  }

  // ---------------------------------------------------------------------
  // Every answer is exact
  // ---------------------------------------------------------------------

  const FRESH := State(map[], {}, CONST_BUDGET, 0)

  lemma AnswerIsRight(p: Program, z: Sizes, st: State, name: Bytes)
    requires Affords(p, z, st, {}, z.ranks, 0)
    ensures var r := FoldVar(p, st, name);
            && Affords(p, z, r.st, {}, z.ranks, 0)
            && EvalVar(p, z.ranks, name) == Known(r.v)
            && forall v :: r.v == Some(v) <==> VarMeans(p, name, v)
  {
    assert name in p.assigns ==> Keeps(p, z, name);
    VarAfforded(p, z, st, name, {}, z.ranks, 0);
    ResolverIsExact(p, st, name);
    var f := FoldVarExact(p, st, name);
    VarDecided(p, z, z.ranks, name);
    VarKeeps(p, f, Max(f, z.ranks), name);
    VarKeeps(p, z.ranks, Max(f, z.ranks), name);
  }

  lemma {:induction false} AnswersAreRight(p: Program, z: Sizes, st: State, names: seq<Bytes>)
    requires Affords(p, z, st, {}, z.ranks, 0)
    ensures var vs := Answers(p, st, names);
            |vs| == |names| && forall a :: 0 <= a < |vs| ==>
              && EvalVar(p, z.ranks, names[a]) == Known(vs[a])
              && forall v :: vs[a] == Some(v) <==> VarMeans(p, names[a], v)
    decreases |names|
  {
    if names != [] {
      AnswerIsRight(p, z, st, names[0]);
      AnswersAreRight(p, z, FoldVar(p, st, names[0]).st, names[1..]);
    }
  }

  ghost predicate AllRight(p: Program, names: seq<Bytes>) {
    var vs := Answers(p, FRESH, names);
    |vs| == |names| && forall a :: 0 <= a < |vs| ==> forall v :: vs[a] == Some(v) <==> VarMeans(p, names[a], v)
  }

  /** Over the whole life of a resolver for a modest program, whatever it is
      asked in whatever order: each answer is the unbounded evaluator's, a variable's
      meaning if it has one and nothing if it has none. */
  lemma ModestProgramsAreExact(p: Program, z: Sizes, names: seq<Bytes>)
    requires Modest(p, z) && z.ranks <= CONST_MAX_DEPTH && z.steps <= CONST_BUDGET
    ensures AllRight(p, names)
    ensures var vs := Answers(p, FRESH, names);
            forall a :: 0 <= a < |vs| ==> EvalVar(p, z.ranks, names[a]) == Known(vs[a])
  {
    assert Covers(p, FRESH, {}, 0) by {
      assert Todo(p, FRESH, {}) == p.assigns.Keys;
    }
    AnswersAreRight(p, z, FRESH, names);
  }

  /** A fresh resolver, asked one variable after the other. */
  method Ask(r: ConstResolver, names: seq<Bytes>, ghost z: Sizes) returns (vs: seq<Option<Bytes>>)
    requires r.Now() == FRESH && Modest(r.p, z) && z.ranks <= CONST_MAX_DEPTH && z.steps <= CONST_BUDGET
    modifies r
    ensures |vs| == |names|
    ensures forall a, v :: 0 <= a < |vs| ==> (vs[a] == Some(v) <==> VarMeans(r.p, names[a], v))
  {
    vs := ResolveAll(r, names);
    ModestProgramsAreExact(r.p, z, names);
  }
}
