/** The resolver's answers against the unbounded evaluator's. */
module PhpConstLaws {
  import opened Common
  import opened PhpLexer
  import opened PhpConstReading
  import opened PhpConst

  // ---------------------------------------------------------------------
  // More fuel never changes an answer, so a name has at most one meaning
  // ---------------------------------------------------------------------

  lemma {:induction false} VarSettles(p: Program, f: nat, name: Bytes)
    ensures EvalVar(p, f, name) != Deep ==> EvalVar(p, f + 1, name) == EvalVar(p, f, name)
    decreases f, 0, 0
  {
    if name in p.assigns && f != 0 {
      RangeSettles(p, f - 1, p.assigns[name].start, p.assigns[name].end);
    }
  }

  lemma {:induction false} RangeSettles(p: Program, f: nat, start: nat, end: nat)
    ensures EvalRange(p, f, start, end) != Deep ==> EvalRange(p, f + 1, start, end) == EvalRange(p, f, start, end)
    decreases f, Max(0, end - start), 2
  {
    if end <= |p.src| && start < end {
      FromSettles(p, f, start, end, []);
    }
  }

  lemma {:induction false} FromSettles(p: Program, f: nat, i: nat, end: nat, out: Bytes)
    requires end <= |p.src|
    ensures EvalFrom(p, f, i, end, out) != Deep ==> EvalFrom(p, f + 1, i, end, out) == EvalFrom(p, f, i, end, out)
    decreases f, Max(0, end - i), 1
  {
    if i < end {
      ItemSettles(p, f, i, end);
      var r := EvalItem(p, f, i, end);
      if r.Value? { FromSettles(p, f, ItemNext(ItemAt(p, i, end), i), end, out + r.v); }
    }
  }

  lemma {:induction false} ItemSettles(p: Program, f: nat, i: nat, end: nat)
    requires i < end <= |p.src|
    ensures EvalItem(p, f, i, end) != Deep ==> EvalItem(p, f + 1, i, end) == EvalItem(p, f, i, end)
    decreases f, end - i, 0
  {
    match ItemAt(p, i, end)
    case Var(name, _) => VarSettles(p, f, name);
    case Call(name, lo, hi) => CallSettles(p, f, name, lo, hi);
    case _ =>
  }

  lemma {:induction false} ArgSettles(p: Program, f: nat, lo: nat, hi: nat, n: nat)
    requires lo <= hi <= |p.src|
    ensures EvalArg(p, f, lo, hi, n) != Deep ==> EvalArg(p, f + 1, lo, hi, n) == EvalArg(p, f, lo, hi, n)
    decreases f, hi - lo, 3
  {
    var args := SplitArgs(p, lo, hi);
    if n < |args| {
      RangeSettles(p, f, args[n].start, args[n].end);
    }
  }

  lemma {:induction false} CallSettles(p: Program, f: nat, name: Bytes, lo: nat, hi: nat)
    requires lo <= hi <= |p.src|
    ensures EvalCall(p, f, name, lo, hi) != Deep ==> EvalCall(p, f + 1, name, lo, hi) == EvalCall(p, f, name, lo, hi)
    decreases f, hi - lo, 4
  {
    ArgSettles(p, f, lo, hi, 0);
    ArgSettles(p, f, lo, hi, 1);
    ArgSettles(p, f, lo, hi, 2);
  }

  // The value a variable has, if it has one.
  ghost predicate VarMeans(p: Program, name: Bytes, v: Bytes) {
    exists f: nat :: EvalVar(p, f, name) == Value(v)
  }

  lemma {:induction false} VarKeeps(p: Program, f: nat, g: nat, name: Bytes)
    requires f <= g && EvalVar(p, f, name) != Deep
    ensures EvalVar(p, g, name) == EvalVar(p, f, name)
    decreases g - f
  {
    if f < g { VarSettles(p, f, name); VarKeeps(p, f + 1, g, name); }
  }

  /** A variable has at most one meaning. */
  lemma MeaningIsUnique(p: Program, name: Bytes, v: Bytes, w: Bytes)
    requires VarMeans(p, name, v) && VarMeans(p, name, w)
    ensures v == w
  {
    var f: nat :| EvalVar(p, f, name) == Value(v);
    var g: nat :| EvalVar(p, g, name) == Value(w);
    VarKeeps(p, f, Max(f, g), name);
    VarKeeps(p, g, Max(f, g), name);
  }

  // ---------------------------------------------------------------------
  // One substr call
  // ---------------------------------------------------------------------

  /** Where a substr call's text and offset are right, its answer is right
      exactly when the length was resolved too, has no value, or cuts nothing. */
  lemma SubstrIsExact(p: Program, st: State, lo: nat, hi: nat, f: nat)
    requires lo <= hi <= |p.src|
    requires var v := FoldArg(p, st, lo, hi, 0);
             var o := FoldArg(p, v.st, lo, hi, 1);
             var n := FoldArg(p, o.st, lo, hi, 2);
             && v.v.Some? && EvalArg(p, f, lo, hi, 0) == Value(v.v.value)
             && o.v.Some? && EvalArg(p, f, lo, hi, 1) == Value(o.v.value)
             && EvalArg(p, f, lo, hi, 2) != Deep
             && (n.v.Some? ==> EvalArg(p, f, lo, hi, 2) == Value(n.v.value))
             && FoldCall(p, st, "substr", lo, hi).v.Some?
    ensures var v := FoldArg(p, st, lo, hi, 0);
            var o := FoldArg(p, v.st, lo, hi, 1);
            var n, true_n := FoldArg(p, o.st, lo, hi, 2), EvalArg(p, f, lo, hi, 2);
            var rest := SubstrFrom(v.v.value, p.lib.atoi(o.v.value).value).value;
            EvalCall(p, f, "substr", lo, hi) == Value(FoldCall(p, st, "substr", lo, hi).v.value)
            <==> n.v.Some? || true_n.Unknown? || Clip(rest, p.lib.atoi(true_n.v)) == rest
  {
  }

  // ---------------------------------------------------------------------
  // Ranges
  // ---------------------------------------------------------------------

  // A range that is a single item.
  lemma SingleItem(p: Program, st: State, f: nat, i: nat, end: nat)
    requires i < end <= |p.src| && end <= ItemNext(ItemAt(p, i, end), i) && st.budget > 0
    ensures EvalRange(p, f, i, end) == EvalItem(p, f, i, end)
    ensures var r := FoldItem(p, st.(budget := st.budget - 1), i, end);
            (r.v.Some? ==> |r.v.value| <= CONST_MAX_VALUE) ==> FoldRange(p, st, i, end) == r
  {
    var next := ItemNext(ItemAt(p, i, end), i);
    var e := EvalItem(p, f, i, end);
    if e.Value? {
      assert [] + e.v == e.v;
      assert EvalFrom(p, f, next, end, e.v) == e;
    }
    var r := FoldItem(p, st.(budget := st.budget - 1), i, end);
    if r.v.Some? {
      assert [] + r.v.value == r.v.value;
      assert FoldFrom(p, r.st, next, end, r.v.value) == r;
    }
  }

  lemma ByRange(p: Program, f: nat, name: Bytes)
    requires f > 0 && name in p.assigns
    ensures EvalVar(p, f, name) == EvalRange(p, f - 1, p.assigns[name].start, p.assigns[name].end)
  {
  }
}
