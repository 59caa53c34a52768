/** The constant folder: what bytes does a PHP variable hold?

    Two evaluators of the same small expression language.  Eval* is unbounded
    and remembers nothing; Fold* is the resolver as written, with its work
    budget, its depth limit, its cache and its list of names that failed. */
module PhpConst {
  import opened Common
  import opened PhpLexer
  import opened PhpConstReading

  const CONST_BUDGET := 4000
  const CONST_MAX_DEPTH := 12
  const CONST_MAX_VALUE := 0x40_0000

  const UNARY: set<Bytes> := {
    "base64_decode", "hex2bin", "str_rot13", "strrev", "trim", "stripslashes", "rtrim", "ltrim",
    "strtolower", "strtoupper", "chr", "gzinflate", "gzuncompress", "gzdecode", "urldecode", "rawurldecode" }

  const DIGESTS: set<Bytes> := { "md5", "sha1" }

  // md5($x, true): the flag is read, not folded.
  function BoolArg(p: Program, args: seq<Span>, n: nat): Option<bool> {
    if n >= |args| || args[n].end > |p.src| || args[n].start >= args[n].end then None
    else p.lib.boolWord(p.src[args[n].start..args[n].end])
  }

  // ---------------------------------------------------------------------
  // substr
  // ---------------------------------------------------------------------

  function SubstrFrom(v: Bytes, off: int): Option<Bytes> {
    var o := if off < 0 then |v| + off else off;
    if o < 0 || o > |v| then None else Some(v[o..])
  }

  // A missing or unknown length keeps everything; a length that does not fit is ignored.
  function Clip(out: Bytes, n: Option<int>): Bytes {
    if n.None? then out else
      var m := if n.value < 0 then |out| + n.value else n.value;
      if 0 <= m <= |out| then out[..m] else out
  }

  // ---------------------------------------------------------------------
  // The unbounded evaluator
  // ---------------------------------------------------------------------

  // Value and Unknown are final; Deep asks for more fuel, where a unit of fuel
  // is one step from a variable to its assignment.
  datatype Outcome = Value(v: Bytes) | Unknown | Deep

  function EvalVar(p: Program, fuel: nat, name: Bytes): Outcome
    decreases fuel, 0, 0
  {
    if name !in p.assigns then Unknown
    else if fuel == 0 then Deep
    else EvalRange(p, fuel - 1, p.assigns[name].start, p.assigns[name].end)
  }

  function EvalRange(p: Program, fuel: nat, start: nat, end: nat): Outcome
    decreases fuel, Max(0, end - start), 2
  {
    if end > |p.src| || start >= end then Unknown else EvalFrom(p, fuel, start, end, [])
  }

  function EvalFrom(p: Program, fuel: nat, i: nat, end: nat, out: Bytes): Outcome
    requires end <= |p.src|
    decreases fuel, Max(0, end - i), 1
  {
    if i >= end then Value(out) else
      var r := EvalItem(p, fuel, i, end);
      if r.Value? then EvalFrom(p, fuel, ItemNext(ItemAt(p, i, end), i), end, out + r.v) else r
  }

  function EvalItem(p: Program, fuel: nat, i: nat, end: nat): Outcome
    requires i < end <= |p.src|
    decreases fuel, end - i, 0
  {
    match ItemAt(p, i, end)
    case Skip => Value([])
    case Lit(v, _) => Value(v)
    case Var(name, _) => EvalVar(p, fuel, name)
    case Call(name, lo, hi) => EvalCall(p, fuel, name, lo, hi)
    case Number(v, _) => Value(v)
    case Stuck => Unknown
  }

  function EvalArg(p: Program, fuel: nat, lo: nat, hi: nat, n: nat): Outcome
    requires lo <= hi <= |p.src|
    decreases fuel, hi - lo, 3
  {
    var args := SplitArgs(p, lo, hi);
    if n >= |args| then Unknown else EvalRange(p, fuel, args[n].start, args[n].end)
  }

  function EvalCall(p: Program, fuel: nat, name: Bytes, lo: nat, hi: nat): Outcome
    requires lo <= hi <= |p.src|
    decreases fuel, hi - lo, 4
  {
    if name == "substr" then
      var v, o := EvalArg(p, fuel, lo, hi, 0), EvalArg(p, fuel, lo, hi, 1);
      if !v.Value? then v else if !o.Value? then o else
        SubstrOf(p, v.v, o.v, EvalArg(p, fuel, lo, hi, 2))
    else if name == "pack" then
      var f, h := EvalArg(p, fuel, lo, hi, 0), EvalArg(p, fuel, lo, hi, 1);
      if !f.Value? then f else if p.lib.lower(f.v) != "h*" then Unknown
      else if !h.Value? then h else Known(p.lib.unhex(h.v))
    else if name == "str_replace" then
      var s, r, t := EvalArg(p, fuel, lo, hi, 0), EvalArg(p, fuel, lo, hi, 1), EvalArg(p, fuel, lo, hi, 2);
      if !s.Value? then s else if !r.Value? then r else if !t.Value? then t
      else Value(p.lib.replaceAll(t.v, s.v, r.v))
    else if name in DIGESTS then
      var v := EvalArg(p, fuel, lo, hi, 0);
      if !v.Value? then v
      else Value(p.lib.digest(name, v.v, BoolArg(p, SplitArgs(p, lo, hi), 1) == Some(true)))
    else if name in UNARY then
      var v := EvalArg(p, fuel, lo, hi, 0);
      if !v.Value? then v else Known(p.lib.unary(name, v.v))
    else Unknown
  }

  function Known(v: Option<Bytes>): Outcome {
    if v.Some? then Value(v.value) else Unknown
  }

  // The length is optional: an unknown one keeps the rest of the string.
  function SubstrOf(p: Program, v: Bytes, o: Bytes, n: Outcome): Outcome {
    var off := p.lib.atoi(o);
    if off.None? then Unknown else
      var rest := SubstrFrom(v, off.value);
      if rest.None? then Unknown
      else if n.Deep? then Deep
      else Value(Clip(rest.value, if n.Value? then p.lib.atoi(n.v) else None))
  }

  // ---------------------------------------------------------------------
  // The resolver's evaluator, as a function of its state
  // ---------------------------------------------------------------------

  datatype State = State(cache: map<Bytes, Bytes>, failed: set<Bytes>, budget: int, depth: nat)

  datatype Folded = Folded(st: State, v: Option<Bytes>)

  function FoldVar(p: Program, st: State, name: Bytes): (r: Folded)
    ensures r.st.depth == st.depth && r.st.budget <= st.budget
    decreases Max(0, CONST_MAX_DEPTH - st.depth), 0, 0
  {
    if name in st.cache then Folded(st, Some(st.cache[name]))
    else if name in st.failed then Folded(st, None)
    else if name !in p.assigns then Folded(st.(failed := st.failed + {name}), None)
    else if st.depth >= CONST_MAX_DEPTH then Folded(st, None)
    else
      var r := FoldRange(p, st.(depth := st.depth + 1), p.assigns[name].start, p.assigns[name].end);
      var after := r.st.(depth := st.depth);
      if r.v.None? then Folded(after.(failed := after.failed + {name}), None)
      else Folded(after.(cache := after.cache[name := r.v.value]), r.v)
  }

  function FoldRange(p: Program, st: State, start: nat, end: nat): (r: Folded)
    ensures r.st.depth == st.depth && r.st.budget <= st.budget
    decreases Max(0, CONST_MAX_DEPTH - st.depth), Max(0, end - start), 2
  {
    if end > |p.src| || start >= end then Folded(st, None) else FoldFrom(p, st, start, end, [])
  }

  function FoldFrom(p: Program, st: State, i: nat, end: nat, out: Bytes): (r: Folded)
    requires end <= |p.src|
    ensures r.st.depth == st.depth && r.st.budget <= st.budget
    decreases Max(0, CONST_MAX_DEPTH - st.depth), Max(0, end - i), 1
  {
    if i >= end then Folded(st, Some(out))
    else if st.budget <= 0 then Folded(st, None)
    else
      var it := ItemAt(p, i, end);
      var r := FoldItem(p, st.(budget := st.budget - 1), i, end);
      if r.v.None? || (SizeChecked(it) && |out + r.v.value| > CONST_MAX_VALUE) then Folded(r.st, None)
      else FoldFrom(p, r.st, ItemNext(it, i), end, out + r.v.value)
  }

  // A call's result and a number are appended without looking at the size.
  predicate SizeChecked(it: Item) {
    it.Lit? || it.Var?
  }

  function FoldItem(p: Program, st: State, i: nat, end: nat): (r: Folded)
    requires i < end <= |p.src|
    ensures r.st.depth == st.depth && r.st.budget <= st.budget
    decreases Max(0, CONST_MAX_DEPTH - st.depth), end - i, 0
  {
    match ItemAt(p, i, end)
    case Skip => Folded(st, Some([]))
    case Lit(v, _) => Folded(st, Some(v))
    case Var(name, _) => FoldVar(p, st, name)
    case Call(name, lo, hi) => FoldCall(p, st, name, lo, hi)
    case Number(v, _) => Folded(st, Some(v))
    case Stuck => Folded(st, None)
  }

  function FoldArg(p: Program, st: State, lo: nat, hi: nat, n: nat): (r: Folded)
    requires lo <= hi <= |p.src|
    ensures r.st.depth == st.depth && r.st.budget <= st.budget
    decreases Max(0, CONST_MAX_DEPTH - st.depth), hi - lo, 3
  {
    var args := SplitArgs(p, lo, hi);
    if n >= |args| then Folded(st, None) else FoldRange(p, st, args[n].start, args[n].end)
  }

  function FoldCall(p: Program, st: State, name: Bytes, lo: nat, hi: nat): (r: Folded)
    requires lo <= hi <= |p.src|
    ensures r.st.depth == st.depth && r.st.budget <= st.budget
    decreases Max(0, CONST_MAX_DEPTH - st.depth), hi - lo, 4
  {
    if name == "substr" then
      var v := FoldArg(p, st, lo, hi, 0);
      if v.v.None? then v else
        var o := FoldArg(p, v.st, lo, hi, 1);
        if o.v.None? || p.lib.atoi(o.v.value).None? then Folded(o.st, None) else
          var rest := SubstrFrom(v.v.value, p.lib.atoi(o.v.value).value);
          if rest.None? then Folded(o.st, None) else
            var n := FoldArg(p, o.st, lo, hi, 2);
            Folded(n.st, Some(Clip(rest.value, if n.v.Some? then p.lib.atoi(n.v.value) else None)))
    else if name == "pack" then
      var f := FoldArg(p, st, lo, hi, 0);
      if f.v.None? || |SplitArgs(p, lo, hi)| < 2 || p.lib.lower(f.v.value) != "h*" then Folded(f.st, None) else
        var h := FoldArg(p, f.st, lo, hi, 1);
        if h.v.None? then h else Folded(h.st, p.lib.unhex(h.v.value))
    else if name == "str_replace" then
      var s := FoldArg(p, st, lo, hi, 0);
      var r := FoldArg(p, s.st, lo, hi, 1);
      var t := FoldArg(p, r.st, lo, hi, 2);
      if s.v.None? || r.v.None? || t.v.None? then Folded(t.st, None)
      else Folded(t.st, Some(p.lib.replaceAll(t.v.value, s.v.value, r.v.value)))
    else if name in DIGESTS then
      var v := FoldArg(p, st, lo, hi, 0);
      if v.v.None? then v
      else Folded(v.st, Some(p.lib.digest(name, v.v.value, BoolArg(p, SplitArgs(p, lo, hi), 1) == Some(true))))
    else if name in UNARY then
      var v := FoldArg(p, st, lo, hi, 0);
      if v.v.None? then v else Folded(v.st, p.lib.unary(name, v.v.value))
    else Folded(st, None)
  }

  // ---------------------------------------------------------------------
  // The resolver
  // ---------------------------------------------------------------------

  class ConstResolver {
    const p: Program
    var cache: map<Bytes, Bytes>
    var failed: set<Bytes>
    var budget: int
    var depth: nat

    function Now(): State
      reads this
    {
      State(cache, failed, budget, depth)
    }

    // found lists the assignments of the code view in order; the last one counts.
    constructor (src: Source, strs: seq<Span>, found: seq<(Bytes, Span)>, lib: Library)
      ensures p.src == src && p.strs == strs && p.lib == lib
      ensures Now() == State(map[], {}, CONST_BUDGET, 0)
      ensures forall k :: k in p.assigns <==> exists a :: 0 <= a < |found| && found[a].0 == k
      ensures forall a :: 0 <= a < |found| && (forall b :: a < b < |found| ==> found[b].0 != found[a].0) ==>
        p.assigns[found[a].0] == found[a].1
    {
      var assigns: map<Bytes, Span> := map[];
      for a := 0 to |found|
        invariant forall k :: k in assigns <==> exists b :: 0 <= b < a && found[b].0 == k
        invariant forall b :: 0 <= b < a && (forall c :: b < c < a ==> found[c].0 != found[b].0) ==>
          assigns[found[b].0] == found[b].1
      {
        assigns := assigns[found[a].0 := found[a].1];
      }
      p := Program(src, strs, assigns, lib);
      cache, failed, budget, depth := map[], {}, CONST_BUDGET, 0;
    }

    method ResolveVar(name: Bytes) returns (v: Option<Bytes>)
      modifies this
      ensures Folded(Now(), v) == FoldVar(p, old(Now()), name)
      decreases Max(0, CONST_MAX_DEPTH - depth), 0, 0
    {
      if name in cache { return Some(cache[name]); }
      if name in failed { return None; }
      if name !in p.assigns {
        failed := failed + {name};
        return None;
      }
      if depth >= CONST_MAX_DEPTH { return None; }
      depth := depth + 1;
      v := Evaluate(p.assigns[name].start, p.assigns[name].end);
      depth := depth - 1;
      if v.None? {
        failed := failed + {name};
      } else {
        cache := cache[name := v.value];
      }
    }

    method Evaluate(start: nat, end: nat) returns (v: Option<Bytes>)
      modifies this
      ensures Folded(Now(), v) == FoldRange(p, old(Now()), start, end)
      decreases Max(0, CONST_MAX_DEPTH - depth), Max(0, end - start), 2
    {
      if end > |p.src| || start >= end { return None; }
      ghost var whole, st := FoldFrom(p, Now(), start, end, []), Now();
      var out: Bytes := [];
      var i := start;
      while i < end
        invariant start <= i
        invariant Now() == st && depth == old(depth)
        invariant FoldFrom(p, st, i, end, out) == whole
        decreases end - i
      {
        if budget <= 0 { return None; }
        ghost var st1 := st.(budget := st.budget - 1);
        budget := budget - 1;
        assert Now() == st1;
        var it := ReadItem(p, i, end);
        var r := EvaluateItem(it, i, end);
        st := Now();
        assert Folded(st, r) == FoldItem(p, st1, i, end);
        if r.None? { return None; }
        out := out + r.value;
        if SizeChecked(it) && |out| > CONST_MAX_VALUE { return None; }
        i := ItemNext(it, i);
      }
      return Some(out);
    }

    method EvaluateItem(it: Item, i: nat, end: nat) returns (v: Option<Bytes>)
      requires i < end <= |p.src| && it == ItemAt(p, i, end)
      modifies this
      ensures Folded(Now(), v) == FoldItem(p, old(Now()), i, end)
      decreases Max(0, CONST_MAX_DEPTH - depth), end - i, 0
    {
      match it
      case Skip => v := Some([]);
      case Lit(s, _) => v := Some(s);
      case Var(name, _) => v := ResolveVar(name);
      case Call(name, lo, hi) => v := ApplyFunc(name, lo, hi);
      case Number(s, _) => v := Some(s);
      case Stuck => v := None;
    }

    method Arg(args: seq<Span>, n: nat, ghost lo: nat, ghost hi: nat) returns (v: Option<Bytes>)
      requires lo <= hi <= |p.src| && args == SplitArgs(p, lo, hi)
      modifies this
      ensures Folded(Now(), v) == FoldArg(p, old(Now()), lo, hi, n)
      decreases Max(0, CONST_MAX_DEPTH - depth), hi - lo, 3
    {
      if n >= |args| { return None; }
      v := Evaluate(args[n].start, args[n].end);
    }

    method ApplyFunc(name: Bytes, lo: nat, hi: nat) returns (v: Option<Bytes>)
      requires lo <= hi <= |p.src|
      modifies this
      ensures Folded(Now(), v) == FoldCall(p, old(Now()), name, lo, hi)
      decreases Max(0, CONST_MAX_DEPTH - depth), hi - lo, 4
    {
      var args := CutArgs(p, lo, hi);
      if name == "substr" {
        v := Arg(args, 0, lo, hi);
        if v.None? { return; }
        var o := Arg(args, 1, lo, hi);
        if o.None? || p.lib.atoi(o.value).None? { return None; }
        var rest := SubstrFrom(v.value, p.lib.atoi(o.value).value);
        if rest.None? { return None; }
        var n := Arg(args, 2, lo, hi);
        return Some(Clip(rest.value, if n.Some? then p.lib.atoi(n.value) else None));
      } else if name == "pack" {
        var f := Arg(args, 0, lo, hi);
        if f.None? || |args| < 2 || p.lib.lower(f.value) != "h*" { return None; }
        var h := Arg(args, 1, lo, hi);
        if h.None? { return None; }
        return p.lib.unhex(h.value);
      } else if name == "str_replace" {
        var search := Arg(args, 0, lo, hi);
        var replace := Arg(args, 1, lo, hi);
        var subject := Arg(args, 2, lo, hi);
        if search.None? || replace.None? || subject.None? { return None; }
        return Some(p.lib.replaceAll(subject.value, search.value, replace.value));
      } else if name in DIGESTS {
        v := Arg(args, 0, lo, hi);
        if v.None? { return; }
        return Some(p.lib.digest(name, v.value, BoolArg(p, args, 1) == Some(true)));
      } else if name in UNARY {
        v := Arg(args, 0, lo, hi);
        if v.None? { return; }
        return p.lib.unary(name, v.value);
      }
      return None;
    }
  }
}
