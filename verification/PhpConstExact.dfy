/** When the resolver's answers are exact.

    A resolver answers wrongly only where it meets one of its limits: it runs out
    of budget, goes too deep, or builds too large a value.  A program that keeps
    to certain sizes, read off before anything is asked, meets none. */
module PhpConstExact {
  import opened Common
  import opened PhpLexer
  import opened PhpConstReading
  import opened PhpConst
  import opened PhpConstLaws
  import opened PhpConstSound

  // ---------------------------------------------------------------------
  // A fold that meets no limit
  // ---------------------------------------------------------------------

  predicate VarFits(p: Program, st: State, name: Bytes)
    decreases Max(0, CONST_MAX_DEPTH - st.depth), 0, 0
  {
    || name in st.cache || name in st.failed || name !in p.assigns
    || (&& st.depth < CONST_MAX_DEPTH
        && RangeFits(p, st.(depth := st.depth + 1), p.assigns[name].start, p.assigns[name].end))
  }

  predicate RangeFits(p: Program, st: State, start: nat, end: nat)
    decreases Max(0, CONST_MAX_DEPTH - st.depth), Max(0, end - start), 2
  {
    start < end <= |p.src| ==> FromFits(p, st, start, end, [])
  }

  predicate FromFits(p: Program, st: State, i: nat, end: nat, out: Bytes)
    requires end <= |p.src|
    decreases Max(0, CONST_MAX_DEPTH - st.depth), Max(0, end - i), 1
  {
    i < end ==>
      var it, st1 := ItemAt(p, i, end), st.(budget := st.budget - 1);
      var r := FoldItem(p, st1, i, end);
      && st.budget > 0 && ItemFits(p, st1, i, end)
      && (r.v.Some? ==>
            && (SizeChecked(it) ==> |out + r.v.value| <= CONST_MAX_VALUE)
            && FromFits(p, r.st, ItemNext(it, i), end, out + r.v.value))
  }

  predicate ItemFits(p: Program, st: State, i: nat, end: nat)
    requires i < end <= |p.src|
    decreases Max(0, CONST_MAX_DEPTH - st.depth), end - i, 0
  {
    match ItemAt(p, i, end)
    case Var(name, _) => VarFits(p, st, name)
    case Call(name, lo, hi) => CallFits(p, st, name, lo, hi)
    case _ => true
  }

  predicate ArgFits(p: Program, st: State, lo: nat, hi: nat, n: nat)
    requires lo <= hi <= |p.src|
    decreases Max(0, CONST_MAX_DEPTH - st.depth), hi - lo, 3
  {
    var args := SplitArgs(p, lo, hi);
    n < |args| ==> RangeFits(p, st, args[n].start, args[n].end)
  }

  // Those arguments fit that the call folds.
  predicate CallFits(p: Program, st: State, name: Bytes, lo: nat, hi: nat)
    requires lo <= hi <= |p.src|
    decreases Max(0, CONST_MAX_DEPTH - st.depth), hi - lo, 4
  {
    var a0 := FoldArg(p, st, lo, hi, 0);
    var a1 := FoldArg(p, a0.st, lo, hi, 1);
    && (First(name) ==> ArgFits(p, st, lo, hi, 0))
    && (Second(p, name, lo, hi, a0) ==> ArgFits(p, a0.st, lo, hi, 1))
    && (Third(p, name, a0, a1) ==> ArgFits(p, a1.st, lo, hi, 2))
  }

  // Whether a call folds its first argument, its second behind it, and its third.
  predicate First(name: Bytes) {
    name == "substr" || name == "pack" || name == "str_replace" || name in DIGESTS || name in UNARY
  }

  predicate Second(p: Program, name: Bytes, lo: nat, hi: nat, a0: Folded)
    requires lo <= hi <= |p.src|
  {
    || name == "str_replace"
    || (name == "substr" && a0.v.Some?)
    || (name == "pack" && a0.v.Some? && |SplitArgs(p, lo, hi)| >= 2 && p.lib.lower(a0.v.value) == "h*")
  }

  predicate Third(p: Program, name: Bytes, a0: Folded, a1: Folded) {
    || name == "str_replace"
    || (&& name == "substr" && a0.v.Some? && a1.v.Some? && p.lib.atoi(a1.v.value).Some?
        && SubstrFrom(a0.v.value, p.lib.atoi(a1.v.value).value).Some?)
  }

  // ---------------------------------------------------------------------
  // Such a fold is exact
  // ---------------------------------------------------------------------

  // The evaluator's answer, at some fuel.
  ghost predicate Right(p: Program, name: Bytes, v: Option<Bytes>) {
    exists f: nat :: EvalVar(p, f, name) == Known(v)
  }

  // A cached value is the meaning, and a name that failed has none.
  ghost predicate Settled(p: Program, cache: map<Bytes, Bytes>, failed: set<Bytes>, name: Bytes) {
    && (name in cache ==> Right(p, name, Some(cache[name])))
    && (name in failed ==> Right(p, name, None))
  }

  ghost predicate SoundState(p: Program, st: State) {
    forall name {:trigger Settled(p, st.cache, st.failed, name)} :: Settled(p, st.cache, st.failed, name)
  }

  // Settling one more name keeps the state sound.
  lemma SettleOne(p: Program, cache: map<Bytes, Bytes>, failed: set<Bytes>, name: Bytes, v: Option<Bytes>)
    requires forall k {:trigger Settled(p, cache, failed, k)} :: Settled(p, cache, failed, k)
    requires Right(p, name, v)
    ensures v.Some? ==> forall k {:trigger Settled(p, cache[name := v.value], failed, k)} ::
              Settled(p, cache[name := v.value], failed, k)
    ensures v.None? ==> forall k {:trigger Settled(p, cache, failed + {name}, k)} ::
              Settled(p, cache, failed + {name}, k)
  {
    if v.Some? {
      var more := cache[name := v.value];
      forall k ensures Settled(p, more, failed, k) {
        assert Settled(p, cache, failed, k);
      }
    } else {
      var more := failed + {name};
      forall k ensures Settled(p, cache, more, k) {
        assert Settled(p, cache, failed, k);
      }
    }
  }

  lemma {:induction false} FromKeeps(p: Program, f: nat, g: nat, i: nat, end: nat, out: Bytes)
    requires end <= |p.src| && f <= g && EvalFrom(p, f, i, end, out) != Deep
    ensures EvalFrom(p, g, i, end, out) == EvalFrom(p, f, i, end, out)
    decreases g - f
  {
    if f < g { FromSettles(p, f, i, end, out); FromKeeps(p, f + 1, g, i, end, out); }
  }

  lemma {:induction false} ItemKeeps(p: Program, f: nat, g: nat, i: nat, end: nat)
    requires i < end <= |p.src| && f <= g && EvalItem(p, f, i, end) != Deep
    ensures EvalItem(p, g, i, end) == EvalItem(p, f, i, end)
    decreases g - f
  {
    if f < g { ItemSettles(p, f, i, end); ItemKeeps(p, f + 1, g, i, end); }
  }

  lemma {:induction false} ArgKeeps(p: Program, f: nat, g: nat, lo: nat, hi: nat, n: nat)
    requires lo <= hi <= |p.src| && f <= g && EvalArg(p, f, lo, hi, n) != Deep
    ensures EvalArg(p, g, lo, hi, n) == EvalArg(p, f, lo, hi, n)
    decreases g - f
  {
    if f < g { ArgSettles(p, f, lo, hi, n); ArgKeeps(p, f + 1, g, lo, hi, n); }
  }

  lemma {:induction false} FoldVarExact(p: Program, st: State, name: Bytes) returns (f: nat)
    requires SoundState(p, st) && VarFits(p, st, name)
    ensures var r := FoldVar(p, st, name); SoundState(p, r.st) && EvalVar(p, f, name) == Known(r.v)
    decreases Max(0, CONST_MAX_DEPTH - st.depth), 0, 1
  {
    assert Settled(p, st.cache, st.failed, name);
    if name in st.cache {
      f :| EvalVar(p, f, name) == Known(Some(st.cache[name]));
    } else if name in st.failed {
      f :| EvalVar(p, f, name) == Known(None);
    } else if name !in p.assigns {
      f := 0;
      assert EvalVar(p, f, name) == Known(None);
      SettleOne(p, st.cache, st.failed, name, None);
    } else {
      f := NewVarExact(p, st, name);
    }
  }

  lemma {:induction false} NewVarExact(p: Program, st: State, name: Bytes) returns (f: nat)
    requires SoundState(p, st) && VarFits(p, st, name)
    requires name in p.assigns && name !in st.cache && name !in st.failed
    ensures var r := FoldVar(p, st, name); SoundState(p, r.st) && EvalVar(p, f, name) == Known(r.v)
    decreases Max(0, CONST_MAX_DEPTH - st.depth), 0, 0
  {
    var s, st1 := p.assigns[name], st.(depth := st.depth + 1);
    f := FoldRangeExact(p, st1, s.start, s.end);
    f := f + 1;
    var r := FoldRange(p, st1, s.start, s.end);
    assert EvalVar(p, f, name) == Known(r.v);
    SettleOne(p, r.st.cache, r.st.failed, name, r.v);
  }

  lemma {:induction false} FoldRangeExact(p: Program, st: State, start: nat, end: nat) returns (f: nat)
    requires SoundState(p, st) && RangeFits(p, st, start, end)
    ensures var r := FoldRange(p, st, start, end); SoundState(p, r.st) && EvalRange(p, f, start, end) == Known(r.v)
    decreases Max(0, CONST_MAX_DEPTH - st.depth), Max(0, end - start), 2
  {
    if end > |p.src| || start >= end { return 0; }
    f := FoldFromExact(p, st, start, end, []);
  }

  lemma {:induction false} FoldFromExact(p: Program, st: State, i: nat, end: nat, out: Bytes) returns (f: nat)
    requires end <= |p.src| && SoundState(p, st) && FromFits(p, st, i, end, out)
    ensures var r := FoldFrom(p, st, i, end, out); SoundState(p, r.st) && EvalFrom(p, f, i, end, out) == Known(r.v)
    decreases Max(0, CONST_MAX_DEPTH - st.depth), Max(0, end - i), 1
  {
    if i >= end { return 0; }
    var st1 := st.(budget := st.budget - 1);
    var next := ItemNext(ItemAt(p, i, end), i);
    f := FoldItemExact(p, st1, i, end);
    var r := FoldItem(p, st1, i, end);
    if r.v.Some? {
      var g := f;
      var h := FoldFromExact(p, r.st, next, end, out + r.v.value);
      f := Max(g, h);
      ItemKeeps(p, g, f, i, end);
      FromKeeps(p, h, f, next, end, out + r.v.value);
    }
  }

  lemma {:induction false} FoldItemExact(p: Program, st: State, i: nat, end: nat) returns (f: nat)
    requires i < end <= |p.src| && SoundState(p, st) && ItemFits(p, st, i, end)
    ensures var r := FoldItem(p, st, i, end); SoundState(p, r.st) && EvalItem(p, f, i, end) == Known(r.v)
    decreases Max(0, CONST_MAX_DEPTH - st.depth), end - i, 0
  {
    match ItemAt(p, i, end)
    case Var(name, _) => f := FoldVarExact(p, st, name);
    case Call(name, lo, hi) => f := FoldCallExact(p, st, name, lo, hi);
    case _ => f := 0;
  }

  lemma {:induction false} FoldArgExact(p: Program, st: State, lo: nat, hi: nat, n: nat) returns (f: nat)
    requires lo <= hi <= |p.src| && SoundState(p, st) && ArgFits(p, st, lo, hi, n)
    ensures var r := FoldArg(p, st, lo, hi, n); SoundState(p, r.st) && EvalArg(p, f, lo, hi, n) == Known(r.v)
    decreases Max(0, CONST_MAX_DEPTH - st.depth), hi - lo, 3
  {
    var args := SplitArgs(p, lo, hi);
    f := 0;
    if n < |args| { f := FoldRangeExact(p, st, args[n].start, args[n].end); }
  }

  lemma {:induction false} FoldCallExact(p: Program, st: State, name: Bytes, lo: nat, hi: nat) returns (f: nat)
    requires lo <= hi <= |p.src| && SoundState(p, st) && CallFits(p, st, name, lo, hi)
    ensures var r := FoldCall(p, st, name, lo, hi); SoundState(p, r.st) && EvalCall(p, f, name, lo, hi) == Known(r.v)
    decreases Max(0, CONST_MAX_DEPTH - st.depth), hi - lo, 4
  {
    var a0 := FoldArg(p, st, lo, hi, 0);
    var a1 := FoldArg(p, a0.st, lo, hi, 1);
    var f0, f1, f2 := 0, 0, 0;
    if First(name) {
      f0 := FoldArgExact(p, st, lo, hi, 0);
      if Second(p, name, lo, hi, a0) {
        f1 := FoldArgExact(p, a0.st, lo, hi, 1);
        if Third(p, name, a0, a1) { f2 := FoldArgExact(p, a1.st, lo, hi, 2); }
      }
    }
    f := Max(f0, Max(f1, f2));
    if First(name) {
      ArgKeeps(p, f0, f, lo, hi, 0);
      if Second(p, name, lo, hi, a0) {
        ArgKeeps(p, f1, f, lo, hi, 1);
        if Third(p, name, a0, a1) { ArgKeeps(p, f2, f, lo, hi, 2); }
      }
    }
    CallByArgs(p, f, st, name, lo, hi);
    CallState(p, st, name, lo, hi);
  }

  // The call's value follows from those of the arguments it folds.
  lemma CallByArgs(p: Program, f: nat, st: State, name: Bytes, lo: nat, hi: nat)
    requires lo <= hi <= |p.src|
    requires var a0 := FoldArg(p, st, lo, hi, 0);
             var a1 := FoldArg(p, a0.st, lo, hi, 1);
             var a2 := FoldArg(p, a1.st, lo, hi, 2);
             && (First(name) ==> EvalArg(p, f, lo, hi, 0) == Known(a0.v))
             && (Second(p, name, lo, hi, a0) ==> EvalArg(p, f, lo, hi, 1) == Known(a1.v))
             && (Third(p, name, a0, a1) ==> EvalArg(p, f, lo, hi, 2) == Known(a2.v))
    ensures EvalCall(p, f, name, lo, hi) == Known(FoldCall(p, st, name, lo, hi).v)
  {
  }

  // The state it leaves is that of the last argument it folds.
  lemma CallState(p: Program, st: State, name: Bytes, lo: nat, hi: nat)
    requires lo <= hi <= |p.src|
    ensures var a0 := FoldArg(p, st, lo, hi, 0);
            var a1 := FoldArg(p, a0.st, lo, hi, 1);
            var a2 := FoldArg(p, a1.st, lo, hi, 2);
            FoldCall(p, st, name, lo, hi).st ==
              if Third(p, name, a0, a1) then a2.st
              else if Second(p, name, lo, hi, a0) then a1.st
              else if First(name) then a0.st
              else st
  {
  }

  lemma RightIsMeaning(p: Program, name: Bytes, v: Option<Bytes>, w: Bytes)
    requires Right(p, name, v)
    ensures VarMeans(p, name, w) <==> v == Some(w)
  {
    var f: nat :| EvalVar(p, f, name) == Known(v);
    if VarMeans(p, name, w) {
      var g: nat :| EvalVar(p, g, name) == Value(w);
      VarKeeps(p, f, Max(f, g), name);
      VarKeeps(p, g, Max(f, g), name);
    }
  }

  /** From any sound state, a query that meets no limit is answered by the variable's
      meaning, by nothing exactly if it has none, and leaves a sound state behind. */
  lemma ResolverIsExact(p: Program, st: State, name: Bytes)
    requires SoundState(p, st) && VarFits(p, st, name)
    ensures var r := FoldVar(p, st, name);
            && SoundState(p, r.st) && Right(p, name, r.v)
            && forall v :: r.v == Some(v) <==> VarMeans(p, name, v)
  {
    var f := FoldVarExact(p, st, name);
    var v := FoldVar(p, st, name).v;
    assert Right(p, name, v);
    forall w ensures v == Some(w) <==> VarMeans(p, name, w) {
      RightIsMeaning(p, name, v, w);
    }
  }

  // A sequence of queries that meets none.
  predicate LifeFits(p: Program, st: State, names: seq<Bytes>)
    decreases |names|
  {
    names != [] ==> VarFits(p, st, names[0]) && LifeFits(p, FoldVar(p, st, names[0]).st, names[1..])
  }

  /** Over the life of a resolver, its answers are exact as long as no limit is met. */
  lemma {:induction false} EveryAnswerIsExact(p: Program, st: State, names: seq<Bytes>)
    requires SoundState(p, st) && LifeFits(p, st, names)
    ensures var vs := Answers(p, st, names);
            |vs| == |names| && forall a :: 0 <= a < |vs| ==>
              Right(p, names[a], vs[a]) && forall v :: vs[a] == Some(v) <==> VarMeans(p, names[a], v)
    decreases |names|
  {
    if names != [] {
      ResolverIsExact(p, st, names[0]);
      EveryAnswerIsExact(p, FoldVar(p, st, names[0]).st, names[1..]);
    }
  }

  /** Every wrong answer met a limit: a value that is not the meaning, or none where there is one. */
  lemma WrongMetALimit(p: Program, st: State, name: Bytes, v: Bytes)
    requires SoundState(p, st) && !(FoldVar(p, st, name).v == Some(v) <==> VarMeans(p, name, v))
    ensures !VarFits(p, st, name)
  {
    if VarFits(p, st, name) { ResolverIsExact(p, st, name); }
  }
}
