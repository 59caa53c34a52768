/** Soundness of the resolver, for every program.

    The code leaves a substr length off when it cannot resolve it, for want of
    budget or depth as well.  The values below are those the unbounded evaluator
    can give if it may leave lengths off too; every answer is one of them. */
module PhpConstSound {
  import opened Common
  import opened PhpLexer
  import opened PhpConstReading
  import opened PhpConst
  import opened PhpConstLaws

  // ---------------------------------------------------------------------
  // Values with lengths perhaps left off
  // ---------------------------------------------------------------------

  ghost predicate CanVar(p: Program, f: nat, name: Bytes, v: Bytes)
    decreases f, 0, 0
  {
    name in p.assigns && f > 0 && CanRange(p, f - 1, p.assigns[name].start, p.assigns[name].end, v)
  }

  ghost predicate CanRange(p: Program, f: nat, start: nat, end: nat, v: Bytes)
    decreases f, Max(0, end - start), 2
  {
    start < end <= |p.src| && CanFrom(p, f, start, end, [], v)
  }

  ghost predicate CanFrom(p: Program, f: nat, i: nat, end: nat, out: Bytes, v: Bytes)
    requires end <= |p.src|
    decreases f, Max(0, end - i), 1
  {
    if i >= end then v == out
    else exists w :: CanItem(p, f, i, end, w) && CanFrom(p, f, ItemNext(ItemAt(p, i, end), i), end, out + w, v)
  }

  ghost predicate CanItem(p: Program, f: nat, i: nat, end: nat, w: Bytes)
    requires i < end <= |p.src|
    decreases f, end - i, 0
  {
    match ItemAt(p, i, end)
    case Skip => w == []
    case Lit(v, _) => w == v
    case Var(name, _) => CanVar(p, f, name, w)
    case Call(name, lo, hi) => CanCall(p, f, name, lo, hi, w)
    case Number(v, _) => w == v
    case Stuck => false
  }

  ghost predicate CanArg(p: Program, f: nat, lo: nat, hi: nat, n: nat, v: Bytes)
    requires lo <= hi <= |p.src|
    decreases f, hi - lo, 3
  {
    var args := SplitArgs(p, lo, hi);
    n < |args| && CanRange(p, f, args[n].start, args[n].end, v)
  }

  // What is left of a string after an offset, if there is anything.
  predicate IsRest(p: Program, v: Bytes, o: Bytes, rest: Bytes) {
    p.lib.atoi(o).Some? && SubstrFrom(v, p.lib.atoi(o).value) == Some(rest)
  }

  ghost predicate CanSubstr(p: Program, f: nat, lo: nat, hi: nat, w: Bytes)
    requires lo <= hi <= |p.src|
    decreases f, hi - lo, 4
  {
    exists v, o, rest :: CanArg(p, f, lo, hi, 0, v) && CanArg(p, f, lo, hi, 1, o) && IsRest(p, v, o, rest) &&
      (w == rest || exists n :: CanArg(p, f, lo, hi, 2, n) && w == Clip(rest, p.lib.atoi(n)))
  }

  ghost predicate CanCall(p: Program, f: nat, name: Bytes, lo: nat, hi: nat, w: Bytes)
    requires lo <= hi <= |p.src|
    decreases f, hi - lo, 5
  {
    if name == "substr" then CanSubstr(p, f, lo, hi, w)
    else if name == "pack" then
      exists t, h :: CanArg(p, f, lo, hi, 0, t) && CanArg(p, f, lo, hi, 1, h) && p.lib.lower(t) == "h*" &&
        p.lib.unhex(h) == Some(w)
    else if name == "str_replace" then
      exists s, r, t :: CanArg(p, f, lo, hi, 0, s) && CanArg(p, f, lo, hi, 1, r) && CanArg(p, f, lo, hi, 2, t) &&
        w == p.lib.replaceAll(t, s, r)
    else if name in DIGESTS then
      exists v :: CanArg(p, f, lo, hi, 0, v) &&
        w == p.lib.digest(name, v, BoolArg(p, SplitArgs(p, lo, hi), 1) == Some(true))
    else if name in UNARY then
      exists v :: CanArg(p, f, lo, hi, 0, v) && p.lib.unary(name, v) == Some(w)
    else false
  }

  // A value the variable can have.
  ghost predicate CanBe(p: Program, name: Bytes, v: Bytes) {
    exists f: nat :: CanVar(p, f, name, v)
  }

  // ---------------------------------------------------------------------
  // More fuel allows no less
  // ---------------------------------------------------------------------

  lemma {:induction false} VarMore(p: Program, f: nat, g: nat, name: Bytes, v: Bytes)
    requires f <= g && CanVar(p, f, name, v)
    ensures CanVar(p, g, name, v)
    decreases f, 0, 0
  {
    RangeMore(p, f - 1, g - 1, p.assigns[name].start, p.assigns[name].end, v);
  }

  lemma {:induction false} RangeMore(p: Program, f: nat, g: nat, start: nat, end: nat, v: Bytes)
    requires f <= g && CanRange(p, f, start, end, v)
    ensures CanRange(p, g, start, end, v)
    decreases f, Max(0, end - start), 2
  {
    FromMore(p, f, g, start, end, [], v);
  }

  lemma {:induction false} FromMore(p: Program, f: nat, g: nat, i: nat, end: nat, out: Bytes, v: Bytes)
    requires end <= |p.src| && f <= g && CanFrom(p, f, i, end, out, v)
    ensures CanFrom(p, g, i, end, out, v)
    decreases f, Max(0, end - i), 1
  {
    if i < end {
      var w :| CanItem(p, f, i, end, w) && CanFrom(p, f, ItemNext(ItemAt(p, i, end), i), end, out + w, v);
      ItemMore(p, f, g, i, end, w);
      FromMore(p, f, g, ItemNext(ItemAt(p, i, end), i), end, out + w, v);
    }
  }

  lemma {:induction false} ItemMore(p: Program, f: nat, g: nat, i: nat, end: nat, w: Bytes)
    requires i < end <= |p.src| && f <= g && CanItem(p, f, i, end, w)
    ensures CanItem(p, g, i, end, w)
    decreases f, end - i, 0
  {
    match ItemAt(p, i, end)
    case Var(name, _) => VarMore(p, f, g, name, w);
    case Call(name, lo, hi) => CallMore(p, f, g, name, lo, hi, w);
    case _ =>
  }

  lemma {:induction false} ArgMore(p: Program, f: nat, g: nat, lo: nat, hi: nat, n: nat, v: Bytes)
    requires lo <= hi <= |p.src| && f <= g && CanArg(p, f, lo, hi, n, v)
    ensures CanArg(p, g, lo, hi, n, v)
    decreases f, hi - lo, 3
  {
    var args := SplitArgs(p, lo, hi);
    RangeMore(p, f, g, args[n].start, args[n].end, v);
  }

  lemma {:induction false} ArgsMore(p: Program, f: nat, g: nat, lo: nat, hi: nat)
    requires lo <= hi <= |p.src| && f <= g
    ensures forall n: nat, v :: CanArg(p, f, lo, hi, n, v) ==> CanArg(p, g, lo, hi, n, v)
    decreases f, hi - lo, 4
  {
    forall n: nat, v | CanArg(p, f, lo, hi, n, v) ensures CanArg(p, g, lo, hi, n, v) {
      ArgMore(p, f, g, lo, hi, n, v);
    }
  }

  lemma {:induction false} CallMore(p: Program, f: nat, g: nat, name: Bytes, lo: nat, hi: nat, w: Bytes)
    requires lo <= hi <= |p.src| && f <= g && CanCall(p, f, name, lo, hi, w)
    ensures CanCall(p, g, name, lo, hi, w)
    decreases f, hi - lo, 5
  {
    ArgsMore(p, f, g, lo, hi);
  }

  // ---------------------------------------------------------------------
  // Every answer is possible
  // ---------------------------------------------------------------------

  // Every cached value is possible.
  ghost predicate CachePossible(p: Program, cache: map<Bytes, Bytes>) {
    forall name <- cache :: CanBe(p, name, cache[name])
  }

  // The state stays possible, and a value comes with fuel that explains it.
  lemma {:induction false} FoldVarCan(p: Program, st: State, name: Bytes) returns (f: nat)
    requires CachePossible(p, st.cache)
    ensures var r := FoldVar(p, st, name);
            CachePossible(p, r.st.cache) && (r.v.Some? ==> CanVar(p, f, name, r.v.value))
    decreases Max(0, CONST_MAX_DEPTH - st.depth), 0, 0
  {
    if name in st.cache {
      assert CanBe(p, name, st.cache[name]);
      f :| CanVar(p, f, name, st.cache[name]);
    } else if name !in st.failed && name in p.assigns && st.depth < CONST_MAX_DEPTH {
      f := FoldRangeCan(p, st.(depth := st.depth + 1), p.assigns[name].start, p.assigns[name].end);
      f := f + 1;
      var r := FoldVar(p, st, name);
      if r.v.Some? {
        assert CanVar(p, f, name, r.v.value);
        assert CanBe(p, name, r.v.value);
      }
    } else {
      f := 0;
    }
  }

  lemma {:induction false} FoldRangeCan(p: Program, st: State, start: nat, end: nat) returns (f: nat)
    requires CachePossible(p, st.cache)
    ensures var r := FoldRange(p, st, start, end);
            CachePossible(p, r.st.cache) && (r.v.Some? ==> CanRange(p, f, start, end, r.v.value))
    decreases Max(0, CONST_MAX_DEPTH - st.depth), Max(0, end - start), 2
  {
    if end > |p.src| || start >= end { return 0; }
    f := FoldFromCan(p, st, start, end, []);
  }

  lemma {:induction false} FoldFromCan(p: Program, st: State, i: nat, end: nat, out: Bytes) returns (f: nat)
    requires end <= |p.src| && CachePossible(p, st.cache)
    ensures var r := FoldFrom(p, st, i, end, out);
            CachePossible(p, r.st.cache) && (r.v.Some? ==> CanFrom(p, f, i, end, out, r.v.value))
    decreases Max(0, CONST_MAX_DEPTH - st.depth), Max(0, end - i), 1
  {
    if i >= end || st.budget <= 0 { return 0; }
    var st1 := st.(budget := st.budget - 1);
    var it := ItemAt(p, i, end);
    var g := FoldItemCan(p, st1, i, end);
    f := g;
    var r := FoldItem(p, st1, i, end);
    if r.v.Some? {
      var h := FoldFromCan(p, r.st, ItemNext(it, i), end, out + r.v.value);
      f := Max(g, h);
      ItemMore(p, g, f, i, end, r.v.value);
      var rest := FoldFrom(p, r.st, ItemNext(it, i), end, out + r.v.value);
      if rest.v.Some? { FromMore(p, h, f, ItemNext(it, i), end, out + r.v.value, rest.v.value); }
    }
  }

  lemma {:induction false} FoldItemCan(p: Program, st: State, i: nat, end: nat) returns (f: nat)
    requires i < end <= |p.src| && CachePossible(p, st.cache)
    ensures var r := FoldItem(p, st, i, end);
            CachePossible(p, r.st.cache) && (r.v.Some? ==> CanItem(p, f, i, end, r.v.value))
    decreases Max(0, CONST_MAX_DEPTH - st.depth), end - i, 0
  {
    match ItemAt(p, i, end)
    case Var(name, _) => f := FoldVarCan(p, st, name);
    case Call(name, lo, hi) => f := FoldCallCan(p, st, name, lo, hi);
    case _ => f := 0;
  }

  lemma {:induction false} FoldArgCan(p: Program, st: State, lo: nat, hi: nat, n: nat) returns (f: nat)
    requires lo <= hi <= |p.src| && CachePossible(p, st.cache)
    ensures var r := FoldArg(p, st, lo, hi, n);
            CachePossible(p, r.st.cache) && (r.v.Some? ==> CanArg(p, f, lo, hi, n, r.v.value))
    decreases Max(0, CONST_MAX_DEPTH - st.depth), hi - lo, 3
  {
    var args := SplitArgs(p, lo, hi);
    f := 0;
    if n < |args| {
      f := FoldRangeCan(p, st, args[n].start, args[n].end);
    }
  }

  lemma {:induction false} FoldCallCan(p: Program, st: State, name: Bytes, lo: nat, hi: nat) returns (f: nat)
    requires lo <= hi <= |p.src| && CachePossible(p, st.cache)
    ensures var r := FoldCall(p, st, name, lo, hi);
            CachePossible(p, r.st.cache) && (r.v.Some? ==> CanCall(p, f, name, lo, hi, r.v.value))
    decreases Max(0, CONST_MAX_DEPTH - st.depth), hi - lo, 4
  {
    var f0 := FoldArgCan(p, st, lo, hi, 0);
    var a0 := FoldArg(p, st, lo, hi, 0);
    var f1 := FoldArgCan(p, a0.st, lo, hi, 1);
    var a1 := FoldArg(p, a0.st, lo, hi, 1);
    var f2 := FoldArgCan(p, a1.st, lo, hi, 2);
    var a2 := FoldArg(p, a1.st, lo, hi, 2);
    f := Max(f0, Max(f1, f2));
    if a0.v.Some? { ArgMore(p, f0, f, lo, hi, 0, a0.v.value); }
    if a1.v.Some? { ArgMore(p, f1, f, lo, hi, 1, a1.v.value); }
    if a2.v.Some? { ArgMore(p, f2, f, lo, hi, 2, a2.v.value); }
    CallFromArgs(p, f, st, name, lo, hi);
  }

  // The call's value from those of its arguments.
  lemma CallFromArgs(p: Program, f: nat, st: State, name: Bytes, lo: nat, hi: nat)
    requires lo <= hi <= |p.src|
    requires var a0 := FoldArg(p, st, lo, hi, 0);
             var a1 := FoldArg(p, a0.st, lo, hi, 1);
             var a2 := FoldArg(p, a1.st, lo, hi, 2);
             && (a0.v.Some? ==> CanArg(p, f, lo, hi, 0, a0.v.value))
             && (a1.v.Some? ==> CanArg(p, f, lo, hi, 1, a1.v.value))
             && (a2.v.Some? ==> CanArg(p, f, lo, hi, 2, a2.v.value))
    ensures var r := FoldCall(p, st, name, lo, hi); r.v.Some? ==> CanCall(p, f, name, lo, hi, r.v.value)
  {
    if name == "substr" && FoldCall(p, st, name, lo, hi).v.Some? {
      var v := FoldArg(p, st, lo, hi, 0);
      var o := FoldArg(p, v.st, lo, hi, 1);
      var rest := SubstrFrom(v.v.value, p.lib.atoi(o.v.value).value).value;
      assert IsRest(p, v.v.value, o.v.value, rest);
    }
  }

  /** For every program, from any cache of possible values and whatever budget and
      depth are left: an answer is a possible value, and so is all that is cached. */
  lemma AnswersArePossible(p: Program, st: State, name: Bytes)
    requires CachePossible(p, st.cache)
    ensures var r := FoldVar(p, st, name);
            CachePossible(p, r.st.cache) && (r.v.Some? ==> CanBe(p, name, r.v.value))
  {
    var f := FoldVarCan(p, st, name);
  }

  // ---------------------------------------------------------------------
  // A variable's meaning is one of its possible values
  // ---------------------------------------------------------------------

  lemma {:induction false} VarIsPossible(p: Program, f: nat, name: Bytes)
    ensures EvalVar(p, f, name).Value? ==> CanVar(p, f, name, EvalVar(p, f, name).v)
    decreases f, 0, 0
  {
    if name in p.assigns && f > 0 {
      RangeIsPossible(p, f - 1, p.assigns[name].start, p.assigns[name].end);
    }
  }

  lemma {:induction false} RangeIsPossible(p: Program, f: nat, start: nat, end: nat)
    ensures EvalRange(p, f, start, end).Value? ==> CanRange(p, f, start, end, EvalRange(p, f, start, end).v)
    decreases f, Max(0, end - start), 2
  {
    if start < end <= |p.src| { FromIsPossible(p, f, start, end, []); }
  }

  lemma {:induction false} FromIsPossible(p: Program, f: nat, i: nat, end: nat, out: Bytes)
    requires end <= |p.src|
    ensures EvalFrom(p, f, i, end, out).Value? ==> CanFrom(p, f, i, end, out, EvalFrom(p, f, i, end, out).v)
    decreases f, Max(0, end - i), 1
  {
    if i < end {
      ItemIsPossible(p, f, i, end);
      var r := EvalItem(p, f, i, end);
      if r.Value? { FromIsPossible(p, f, ItemNext(ItemAt(p, i, end), i), end, out + r.v); }
    }
  }

  lemma {:induction false} ItemIsPossible(p: Program, f: nat, i: nat, end: nat)
    requires i < end <= |p.src|
    ensures EvalItem(p, f, i, end).Value? ==> CanItem(p, f, i, end, EvalItem(p, f, i, end).v)
    decreases f, end - i, 0
  {
    match ItemAt(p, i, end)
    case Var(name, _) => VarIsPossible(p, f, name);
    case Call(name, lo, hi) => CallIsPossible(p, f, name, lo, hi);
    case _ =>
  }

  lemma {:induction false} ArgIsPossible(p: Program, f: nat, lo: nat, hi: nat, n: nat)
    requires lo <= hi <= |p.src|
    ensures EvalArg(p, f, lo, hi, n).Value? ==> CanArg(p, f, lo, hi, n, EvalArg(p, f, lo, hi, n).v)
    decreases f, hi - lo, 3
  {
    var args := SplitArgs(p, lo, hi);
    if n < |args| { RangeIsPossible(p, f, args[n].start, args[n].end); }
  }

  lemma {:induction false} CallIsPossible(p: Program, f: nat, name: Bytes, lo: nat, hi: nat)
    requires lo <= hi <= |p.src|
    ensures EvalCall(p, f, name, lo, hi).Value? ==> CanCall(p, f, name, lo, hi, EvalCall(p, f, name, lo, hi).v)
    decreases f, hi - lo, 4
  {
    ArgIsPossible(p, f, lo, hi, 0);
    ArgIsPossible(p, f, lo, hi, 1);
    ArgIsPossible(p, f, lo, hi, 2);
    if name == "substr" && EvalCall(p, f, name, lo, hi).Value? {
      var v, o := EvalArg(p, f, lo, hi, 0).v, EvalArg(p, f, lo, hi, 1).v;
      assert IsRest(p, v, o, SubstrFrom(v, p.lib.atoi(o).value).value);
    }
  }

  // ---------------------------------------------------------------------
  // Without lengths it is the only one
  // ---------------------------------------------------------------------

  // No call of substr in the source carries a length.
  ghost predicate NoSubstrLength(p: Program) {
    forall i, end {:trigger ItemAt(p, i, end)} :: 0 <= i < end <= |p.src| && ItemAt(p, i, end).Call? ==>
      PlainCall(p, ItemAt(p, i, end).name, ItemAt(p, i, end).lo, ItemAt(p, i, end).hi)
  }

  predicate PlainCall(p: Program, name: Bytes, lo: nat, hi: nat)
    requires lo <= hi <= |p.src|
  {
    name == "substr" ==> |SplitArgs(p, lo, hi)| <= 2
  }

  lemma {:induction false} VarIsForced(p: Program, f: nat, name: Bytes, v: Bytes)
    requires NoSubstrLength(p) && CanVar(p, f, name, v)
    ensures EvalVar(p, f, name) == Value(v)
    decreases f, 0, 0
  {
    RangeIsForced(p, f - 1, p.assigns[name].start, p.assigns[name].end, v);
  }

  lemma {:induction false} RangeIsForced(p: Program, f: nat, start: nat, end: nat, v: Bytes)
    requires NoSubstrLength(p) && CanRange(p, f, start, end, v)
    ensures EvalRange(p, f, start, end) == Value(v)
    decreases f, Max(0, end - start), 2
  {
    FromIsForced(p, f, start, end, [], v);
  }

  lemma {:induction false} FromIsForced(p: Program, f: nat, i: nat, end: nat, out: Bytes, v: Bytes)
    requires end <= |p.src| && NoSubstrLength(p) && CanFrom(p, f, i, end, out, v)
    ensures EvalFrom(p, f, i, end, out) == Value(v)
    decreases f, Max(0, end - i), 1
  {
    if i < end {
      var w :| CanItem(p, f, i, end, w) && CanFrom(p, f, ItemNext(ItemAt(p, i, end), i), end, out + w, v);
      ItemIsForced(p, f, i, end, w);
      FromIsForced(p, f, ItemNext(ItemAt(p, i, end), i), end, out + w, v);
    }
  }

  lemma {:induction false} ItemIsForced(p: Program, f: nat, i: nat, end: nat, w: Bytes)
    requires i < end <= |p.src| && NoSubstrLength(p) && CanItem(p, f, i, end, w)
    ensures EvalItem(p, f, i, end) == Value(w)
    decreases f, end - i, 0
  {
    match ItemAt(p, i, end)
    case Var(name, _) => VarIsForced(p, f, name, w);
    case Call(name, lo, hi) => CallIsForced(p, f, name, lo, hi, w);
    case _ =>
  }

  lemma {:induction false} ArgIsForced(p: Program, f: nat, lo: nat, hi: nat, n: nat, v: Bytes)
    requires lo <= hi <= |p.src| && NoSubstrLength(p) && CanArg(p, f, lo, hi, n, v)
    ensures EvalArg(p, f, lo, hi, n) == Value(v)
    decreases f, hi - lo, 3
  {
    var args := SplitArgs(p, lo, hi);
    RangeIsForced(p, f, args[n].start, args[n].end, v);
  }

  lemma {:induction false} ArgsAreForced(p: Program, f: nat, lo: nat, hi: nat)
    requires lo <= hi <= |p.src| && NoSubstrLength(p)
    ensures forall n: nat, v :: CanArg(p, f, lo, hi, n, v) ==> EvalArg(p, f, lo, hi, n) == Value(v)
    decreases f, hi - lo, 4
  {
    forall n: nat, v | CanArg(p, f, lo, hi, n, v) ensures EvalArg(p, f, lo, hi, n) == Value(v) {
      ArgIsForced(p, f, lo, hi, n, v);
    }
  }

  lemma {:induction false} CallIsForced(p: Program, f: nat, name: Bytes, lo: nat, hi: nat, w: Bytes)
    requires lo <= hi <= |p.src| && NoSubstrLength(p) && PlainCall(p, name, lo, hi) && CanCall(p, f, name, lo, hi, w)
    ensures EvalCall(p, f, name, lo, hi) == Value(w)
    decreases f, hi - lo, 5
  {
    ArgsAreForced(p, f, lo, hi);
    if name == "substr" {
      var v, o, rest :| CanArg(p, f, lo, hi, 0, v) && CanArg(p, f, lo, hi, 1, o) && IsRest(p, v, o, rest) &&
        (w == rest || exists n :: CanArg(p, f, lo, hi, 2, n) && w == Clip(rest, p.lib.atoi(n)));
      SubstrIsForced(p, f, lo, hi, v, o, rest);
      assert !exists n :: CanArg(p, f, lo, hi, 2, n);
    }
  }

  lemma SubstrIsForced(p: Program, f: nat, lo: nat, hi: nat, v: Bytes, o: Bytes, rest: Bytes)
    requires lo <= hi <= |p.src| && |SplitArgs(p, lo, hi)| <= 2 && IsRest(p, v, o, rest)
    requires EvalArg(p, f, lo, hi, 0) == Value(v) && EvalArg(p, f, lo, hi, 1) == Value(o)
    ensures EvalCall(p, f, "substr", lo, hi) == Value(rest)
  {
    assert EvalArg(p, f, lo, hi, 2) == Unknown;
  }

  // ---------------------------------------------------------------------
  // Soundness
  // ---------------------------------------------------------------------

  // Leaving lengths off changes no value.
  ghost predicate LengthsAreIdle(p: Program) {
    forall name, v :: CanBe(p, name, v) ==> VarMeans(p, name, v)
  }

  lemma PlainIsIdle(p: Program)
    requires NoSubstrLength(p)
    ensures LengthsAreIdle(p)
  {
    forall name, v | CanBe(p, name, v) ensures VarMeans(p, name, v) {
      var f: nat :| CanVar(p, f, name, v);
      VarIsForced(p, f, name, v);
    }
  }

  ghost predicate CacheSound(p: Program, cache: map<Bytes, Bytes>) {
    forall name <- cache :: VarMeans(p, name, cache[name])
  }

  lemma SoundIsPossible(p: Program, cache: map<Bytes, Bytes>)
    requires CacheSound(p, cache)
    ensures CachePossible(p, cache)
  {
    forall name | name in cache ensures CanBe(p, name, cache[name]) {
      var f: nat :| EvalVar(p, f, name) == Value(cache[name]);
      VarIsPossible(p, f, name);
    }
  }

  /** Where lengths are idle, as they are in a program without any, the resolver is sound:
      an answer is the variable's meaning, and so is every cache entry left behind. */
  lemma ResolverIsSound(p: Program, st: State, name: Bytes)
    requires LengthsAreIdle(p) && CacheSound(p, st.cache)
    ensures var r := FoldVar(p, st, name);
            CacheSound(p, r.st.cache) && (r.v.Some? ==> VarMeans(p, name, r.v.value))
  {
    SoundIsPossible(p, st.cache);
    AnswersArePossible(p, st, name);
  }

  /** Whatever limits are met: in a program whose substr calls carry no length an answer is the
      variable's meaning, and so is every cache entry left behind. */
  lemma PlainProgramsAreSound(p: Program, st: State, name: Bytes)
    requires NoSubstrLength(p) && CacheSound(p, st.cache)
    ensures var r := FoldVar(p, st, name);
            CacheSound(p, r.st.cache) && (r.v.Some? ==> VarMeans(p, name, r.v.value))
  {
    PlainIsIdle(p);
    ResolverIsSound(p, st, name);
  }

  // The answers to a sequence of queries, one resolver serving them all.
  function Answers(p: Program, st: State, names: seq<Bytes>): seq<Option<Bytes>>
    decreases |names|
  {
    if names == [] then [] else
      var r := FoldVar(p, st, names[0]);
      [r.v] + Answers(p, r.st, names[1..])
  }

  /** Whatever is asked of a resolver over its whole life, in whatever order: the
      answers are possible, and are the meanings where lengths are idle. */
  lemma {:induction false} EveryAnswerIsPossible(p: Program, st: State, names: seq<Bytes>)
    requires CachePossible(p, st.cache)
    ensures var vs := Answers(p, st, names);
            |vs| == |names| && forall a :: 0 <= a < |vs| && vs[a].Some? ==>
              CanBe(p, names[a], vs[a].value) && (LengthsAreIdle(p) ==> VarMeans(p, names[a], vs[a].value))
    decreases |names|
  {
    if names != [] {
      AnswersArePossible(p, st, names[0]);
      EveryAnswerIsPossible(p, FoldVar(p, st, names[0]).st, names[1..]);
    }
  }

  /** Asking a resolver one variable after the other gives those answers. */
  method ResolveAll(r: ConstResolver, names: seq<Bytes>) returns (vs: seq<Option<Bytes>>)
    modifies r
    ensures vs == Answers(r.p, old(r.Now()), names)
  {
    vs := [];
    for a := 0 to |names|
      invariant vs + Answers(r.p, r.Now(), names[a..]) == Answers(r.p, old(r.Now()), names)
    {
      var v := r.ResolveVar(names[a]);
      vs := vs + [v];
    }
  }
}
