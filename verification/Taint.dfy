/** Request input followed through assignments to an execution sink. */
module Taint {
  import opened Common
  import opened PhpLexer

  // What the expressions found in the code: `$name = rhs;`, and whether rhs reads the request.
  datatype Assign = Assign(name: Source, rhs: Source, input: bool)

  // A call to a sink and the offset of its parenthesis.
  datatype SinkCall = SinkCall(fn: Source, paren: int)

  // The match lists; called holds the names of the variables called as functions.
  datatype Matches = Matches(assigns: seq<Assign>, input: bool, sinks: seq<SinkCall>, called: seq<Source>)

  datatype Why = Nothing | Carries(name: Source, fn: Source) | IsCalled(name: Source)

  // ---------------------------------------------------------------------
  // Variables and arguments
  // ---------------------------------------------------------------------

  // $name is a whole token of hay.
  predicate TokenAt(hay: Source, name: Source, i: int) {
    WordAt(hay, ['$'] + name, i) && !(i + 1 + |name| < |hay| && IsIdent(hay[i + 1 + |name|]))
  }

  ghost predicate Mentions(hay: Source, name: Source) {
    exists i :: TokenAt(hay, name, i)
  }

  method ContainsVar(hay: Source, name: Source) returns (found: bool)
    ensures found == Mentions(hay, name)
  {
    var needle, off := ['$'] + name, 0;
    while true
      invariant 0 <= off <= |hay|
      invariant forall k :: 0 <= k < off ==> !TokenAt(hay, name, k)
      decreases |hay| - off
    {
      var i := Index(hay, needle, off);
      FirstAtMeans(hay, needle, off);
      if i.None? { return false; }
      var next := i.value + |needle|;
      if next >= |hay| || !IsIdent(hay[next]) {
        assert TokenAt(hay, name, i.value);
        return true;
      }
      off := i.value + 1;
    }
  }

  // Parentheses opened less those closed, from one offset up to another.
  function Depth(code: Source, from: nat, to: nat): int
    requires from <= to <= |code|
  {
    if from == to then 0
    else Depth(code, from, to - 1) + if code[to - 1] == '(' then 1 else if code[to - 1] == ')' then -1 else 0
  }

  const REACH := 600   // how far an argument list is followed

  // The call's parenthesis is closed at end, or still open where the list is cut off.
  ghost predicate ClosesAt(code: Source, open: nat, end: nat) {
    var limit := Min(open + REACH, |code|);
    && open < end <= limit
    && (forall k :: open < k <= end ==> Depth(code, open, k) > 0)
    && (end < limit ==> code[end] == ')' && Depth(code, open, end) == 1)
  }

  ghost predicate IsArgs(code: Source, paren: int, args: Source) {
    if At(code, paren, '(') then
      exists end: nat :: ClosesAt(code, paren, end) && args == code[paren + 1..end]
    else
      args == []
  }

  /** There is one argument list for each call. */
  lemma ArgsAreUnique(code: Source, paren: int, a: Source, b: Source)
    requires IsArgs(code, paren, a) && IsArgs(code, paren, b)
    ensures a == b
  {
    if At(code, paren, '(') {
      var x: nat :| ClosesAt(code, paren, x) && a == code[paren + 1..x];
      var y: nat :| ClosesAt(code, paren, y) && b == code[paren + 1..y];
      OneClose(code, paren, x, y);
      OneClose(code, paren, y, x);
    }
  }

  lemma OneClose(code: Source, open: nat, x: nat, y: nat)
    requires ClosesAt(code, open, x) && ClosesAt(code, open, y)
    ensures x >= y
  {
    if x < |code| && code[x] == ')' {
      assert Depth(code, open, x + 1) == Depth(code, open, x) - 1;
    }
  }

  method ArgRegion(code: Source, paren: int) returns (args: Source)
    ensures IsArgs(code, paren, args)
  {
    if paren < 0 || paren >= |code| || code[paren] != '(' { return []; }
    var limit := if paren + REACH > |code| then |code| else paren + REACH;
    var depth, i := 0, paren;
    while i < limit
      invariant paren <= i <= limit
      invariant depth == Depth(code, paren, i)
      invariant forall k :: paren < k <= i ==> Depth(code, paren, k) > 0
    {
      if code[i] == '(' {
        depth := depth + 1;
      } else if code[i] == ')' {
        depth := depth - 1;
        if depth == 0 {
          assert ClosesAt(code, paren, i);
          return code[paren + 1..i];
        }
      }
      i := i + 1;
    }
    assert ClosesAt(code, paren, limit);
    return code[paren + 1..limit];
  }

  // ---------------------------------------------------------------------
  // Taint
  // ---------------------------------------------------------------------

  ghost function Seeds(assigns: seq<Assign>): set<Source> {
    set a | a in assigns && a.input :: a.name
  }

  ghost predicate UsesAny(rhs: Source, names: set<Source>) {
    exists t :: t in names && Mentions(rhs, t)
  }

  // The variables within n assignment steps of the request.
  ghost function Reach(assigns: seq<Assign>, n: nat): set<Source> {
    if n == 0 then Seeds(assigns)
    else Reach(assigns, n - 1) + set a | a in assigns && UsesAny(a.rhs, Reach(assigns, n - 1)) :: a.name
  }

  // In the closure.
  ghost predicate Reaches(assigns: seq<Assign>, name: Source) {
    exists n: nat :: name in Reach(assigns, n)
  }

  ghost predicate IsClosure(assigns: seq<Assign>, names: set<Source>) {
    forall name :: name in names <==> Reaches(assigns, name)
  }

  ghost function Mark(a: Assign, names: set<Source>): set<Source> {
    if UsesAny(a.rhs, names) then names + {a.name} else names
  }

  // One round over the assignments, in order, using what it has just marked.
  ghost function Pass(assigns: seq<Assign>, names: set<Source>): set<Source>
    decreases |assigns|
  {
    if assigns == [] then names else Pass(assigns[1..], Mark(assigns[0], names))
  }

  ghost function Passes(n: nat, assigns: seq<Assign>, names: set<Source>): set<Source> {
    if n == 0 then names else Passes(n - 1, assigns, Pass(assigns, names))
  }

  ghost function Tainted(assigns: seq<Assign>): set<Source> {
    Passes(3, assigns, Seeds(assigns))
  }

  lemma {:induction false} PassGrows(assigns: seq<Assign>, names: set<Source>)
    ensures names <= Pass(assigns, names)
    decreases |assigns|
  {
    if assigns != [] { PassGrows(assigns[1..], Mark(assigns[0], names)); }
  }

  method MentionsAny(rhs: Source, names: set<Source>) returns (name: Option<Source>)
    ensures name.Some? == UsesAny(rhs, names)
    ensures name.Some? ==> name.value in names && Mentions(rhs, name.value)
  {
    var rest := names;
    while rest != {}
      invariant rest <= names
      invariant forall t :: t in names && t !in rest ==> !Mentions(rhs, t)
      decreases |rest|
    {
      var t :| t in rest;
      var found := ContainsVar(rhs, t);
      if found { return Some(t); }
      rest := rest - {t};
    }
    return None;
  }

  method Seed(assigns: seq<Assign>) returns (tainted: set<Source>)
    ensures tainted == Seeds(assigns)
  {
    tainted := {};
    for i := 0 to |assigns|
      invariant tainted == set a | a in assigns[..i] && a.input :: a.name
    {
      assert assigns[..i + 1] == assigns[..i] + [assigns[i]];
      if assigns[i].input { tainted := tainted + {assigns[i].name}; }
    }
    assert assigns[..|assigns|] == assigns;
  }

  method Round(assigns: seq<Assign>, names: set<Source>) returns (tainted: set<Source>, changed: bool)
    ensures tainted == Pass(assigns, names)
    ensures changed == (tainted != names)
  {
    tainted, changed := names, false;
    for i := 0 to |assigns|
      invariant Pass(assigns[i..], tainted) == Pass(assigns, names)
      invariant names <= tainted && changed == (tainted != names)
    {
      assert assigns[i..][1..] == assigns[i + 1..];
      if assigns[i].name !in tainted {
        var via := MentionsAny(assigns[i].rhs, tainted);
        if via.Some? { tainted, changed := tainted + {assigns[i].name}, true; }
      } else {
        assert tainted + {assigns[i].name} == tainted;
      }
    }
  }

  method Propagate(assigns: seq<Assign>) returns (tainted: set<Source>)
    ensures tainted == Tainted(assigns)
  {
    tainted := Seed(assigns);
    for round := 0 to 3
      invariant Passes(3 - round, assigns, tainted) == Tainted(assigns)
    {
      var changed;
      ghost var was := tainted;
      tainted, changed := Round(assigns, tainted);
      if !changed {
        Settled(3 - round, assigns, was);
        break;
      }
    }
  }

  lemma {:induction false} Settled(n: nat, assigns: seq<Assign>, names: set<Source>)
    requires Pass(assigns, names) == names
    ensures Passes(n, assigns, names) == names
  {
    if n > 0 { Settled(n - 1, assigns, names); }
  }

  // A tainted variable stands in a sink's arguments, or is called.
  ghost predicate InSink(code: Source, m: Matches, name: Source) {
    || (exists c, args :: c in m.sinks && IsArgs(code, c.paren, args) && Mentions(args, name))
    || name in m.called
  }

  // Among the arguments of a call to fn.
  ghost predicate InArgs(code: Source, sinks: seq<SinkCall>, name: Source, fn: Source) {
    exists c, args :: c in sinks && c.fn == fn && IsArgs(code, c.paren, args) && Mentions(args, name)
  }

  ghost predicate Explains(code: Source, m: Matches, why: Why) {
    match why
    case Nothing => false
    case Carries(name, fn) => name in Tainted(m.assigns) && InArgs(code, m.sinks, name, fn)
    case IsCalled(name) => name in Tainted(m.assigns) && name in m.called
  }

  // The verdict: some tainted variable is in a sink.
  ghost predicate Flagged(code: Source, m: Matches) {
    exists name :: name in Tainted(m.assigns) && InSink(code, m, name)
  }

  // A sink call with a tainted variable among its arguments.
  method FindSinkCall(code: Source, sinks: seq<SinkCall>, tainted: set<Source>) returns (why: Why)
    ensures why.Nothing? ==>
              forall c, args, name :: c in sinks && IsArgs(code, c.paren, args) && name in tainted ==>
                !Mentions(args, name)
    ensures !why.Nothing? ==> why.Carries? && why.name in tainted && InArgs(code, sinks, why.name, why.fn)
  {
    for i := 0 to |sinks|
      invariant forall j, args, name :: 0 <= j < i && IsArgs(code, sinks[j].paren, args) && name in tainted ==>
                  !Mentions(args, name)
    {
      var args := ArgRegion(code, sinks[i].paren);
      var via := MentionsAny(args, tainted);
      if via.Some? {
        return Carries(via.value, sinks[i].fn);
      }
      forall b | IsArgs(code, sinks[i].paren, b) ensures b == args {
        ArgsAreUnique(code, sinks[i].paren, args, b);
      }
    }
    return Nothing;
  }

  method FindCalled(called: seq<Source>, tainted: set<Source>) returns (why: Why)
    ensures why.Nothing? ==> forall name :: name in called ==> name !in tainted
    ensures !why.Nothing? ==> why.IsCalled? && why.name in tainted && why.name in called
  {
    for i := 0 to |called|
      invariant forall j :: 0 <= j < i ==> called[j] !in tainted
    {
      if called[i] in tainted { return IsCalled(called[i]); }
    }
    return Nothing;
  }

  /** The verdict is exact for the tainted set, and its reason is true. */
  method TaintReachesSink(code: Source, m: Matches) returns (found: bool, why: Why)
    ensures found == Flagged(code, m)
    ensures if found then Explains(code, m, why) else why == Nothing
  {
    if m.assigns == [] && !m.input {
      assert Seeds(m.assigns) == {};
      Settled(3, m.assigns, {});
      return false, Nothing;
    }
    var tainted := Propagate(m.assigns);
    if tainted == {} { return false, Nothing; }
    why := FindSinkCall(code, m.sinks, tainted);
    if why.Nothing? { why := FindCalled(m.called, tainted); }
    found := why != Nothing;
    if why.Carries? {
      assert InSink(code, m, why.name);
    }
  }

  // ---------------------------------------------------------------------
  // What three rounds find
  // ---------------------------------------------------------------------

  // Every name is reached.
  ghost predicate AllReached(assigns: seq<Assign>, names: set<Source>) {
    forall t :: t in names ==> Reaches(assigns, t)
  }

  lemma {:induction false} PassesGrow(n: nat, assigns: seq<Assign>, names: set<Source>)
    ensures names <= Passes(n, assigns, names)
  {
    if n > 0 {
      PassGrows(assigns, names);
      PassesGrow(n - 1, assigns, Pass(assigns, names));
    }
  }

  lemma {:induction false} PassStaysReached(all: seq<Assign>, assigns: seq<Assign>, names: set<Source>)
    requires AllReached(all, names) && forall a :: a in assigns ==> a in all
    ensures AllReached(all, Pass(assigns, names))
    decreases |assigns|
  {
    if assigns != [] {
      var a := assigns[0];
      if UsesAny(a.rhs, names) {
        var t :| t in names && Mentions(a.rhs, t);
        var n: nat :| t in Reach(all, n);
        assert a.name in Reach(all, n + 1);
      }
      PassStaysReached(all, assigns[1..], Mark(a, names));
    }
  }

  lemma {:induction false} PassMarks(assigns: seq<Assign>, names: set<Source>, a: Assign)
    requires a in assigns && UsesAny(a.rhs, names)
    ensures a.name in Pass(assigns, names)
    decreases |assigns|
  {
    var next := Mark(assigns[0], names);
    if a == assigns[0] {
      PassGrows(assigns[1..], next);
    } else {
      assert a in assigns[1..];
      var t :| t in names && Mentions(a.rhs, t);
      assert t in next;
      PassMarks(assigns[1..], next, a);
    }
  }

  lemma PassCovers(assigns: seq<Assign>, names: set<Source>, n: nat)
    requires Reach(assigns, n) <= names
    ensures Reach(assigns, n + 1) <= Pass(assigns, names)
  {
    PassGrows(assigns, names);
    forall a | a in assigns && UsesAny(a.rhs, Reach(assigns, n)) ensures a.name in Pass(assigns, names) {
      var t :| t in Reach(assigns, n) && Mentions(a.rhs, t);
      assert t in names;
      PassMarks(assigns, names, a);
    }
  }

  lemma {:induction false} PassesCover(n: nat, assigns: seq<Assign>, names: set<Source>, k: nat)
    requires Reach(assigns, k) <= names
    ensures Reach(assigns, k + n) <= Passes(n, assigns, names)
    decreases n
  {
    if n > 0 {
      PassCovers(assigns, names, k);
      PassesCover(n - 1, assigns, Pass(assigns, names), k + 1);
      assert k + 1 + (n - 1) == k + n;
    }
  }

  lemma {:induction false} PassesStayReached(n: nat, assigns: seq<Assign>, names: set<Source>)
    requires AllReached(assigns, names)
    ensures AllReached(assigns, Passes(n, assigns, names))
    decreases n
  {
    if n > 0 {
      PassStaysReached(assigns, assigns, names);
      PassesStayReached(n - 1, assigns, Pass(assigns, names));
    }
  }

  /** Every variable within three assignments of the request is tainted, and every
      tainted variable is reached by some chain of assignments. */
  lemma TaintIsSandwiched(assigns: seq<Assign>)
    ensures Reach(assigns, 3) <= Tainted(assigns)
    ensures AllReached(assigns, Tainted(assigns))
  {
    forall t | t in Seeds(assigns) ensures Reaches(assigns, t) {
      assert t in Reach(assigns, 0);
    }
    PassesCover(3, assigns, Seeds(assigns), 0);
    PassesStayReached(3, assigns, Seeds(assigns));
  }

  /** So the verdict is given for every variable in a sink within three assignments of
      the request, and only for one that is reached. */
  lemma VerdictIsSandwiched(code: Source, m: Matches)
    ensures (exists name :: name in Reach(m.assigns, 3) && InSink(code, m, name)) ==> Flagged(code, m)
    ensures Flagged(code, m) ==> exists name :: Reaches(m.assigns, name) && InSink(code, m, name)
  {
    TaintIsSandwiched(m.assigns);
  }

  lemma {:induction false} FixedPointCovers(assigns: seq<Assign>, names: set<Source>, n: nat)
    requires Seeds(assigns) <= names && Pass(assigns, names) <= names
    ensures Reach(assigns, n) <= names
  {
    if n > 0 {
      FixedPointCovers(assigns, names, n - 1);
      PassCovers(assigns, names, n - 1);
      assert Reach(assigns, n - 1 + 1) <= names;
    }
  }

  lemma {:induction false} ClosedPassIsIdle(all: seq<Assign>, assigns: seq<Assign>, names: set<Source>)
    requires IsClosure(all, names) && forall a :: a in assigns ==> a in all
    ensures Pass(assigns, names) == names
    decreases |assigns|
  {
    if assigns != [] {
      var a := assigns[0];
      if UsesAny(a.rhs, names) {
        var t :| t in names && Mentions(a.rhs, t);
        var n: nat :| t in Reach(all, n);
        assert a.name in Reach(all, n + 1);
        assert names + {a.name} == names;
      }
      ClosedPassIsIdle(all, assigns[1..], names);
    }
  }

  /** Three rounds find everything exactly when a fourth would change nothing. */
  lemma ThreeRoundsAreEnough(assigns: seq<Assign>)
    ensures IsClosure(assigns, Tainted(assigns)) <==> Pass(assigns, Tainted(assigns)) == Tainted(assigns)
  {
    var names := Tainted(assigns);
    TaintIsSandwiched(assigns);
    if Pass(assigns, names) == names {
      PassesGrow(3, assigns, Seeds(assigns));
      forall t | Reaches(assigns, t) ensures t in names {
        var n: nat :| t in Reach(assigns, n);
        FixedPointCovers(assigns, names, n);
      }
    }
    if IsClosure(assigns, names) {
      ClosedPassIsIdle(assigns, assigns, names);
    }
  }

  /** A round that changes nothing, which ends the search early, has found everything. */
  lemma EarlyStopIsComplete(assigns: seq<Assign>, n: nat)
    requires n < 3 && Pass(assigns, Passes(n, assigns, Seeds(assigns))) == Passes(n, assigns, Seeds(assigns))
    ensures IsClosure(assigns, Tainted(assigns))
  {
    PassesSplit(n, 3 - n, assigns, Seeds(assigns));
    Settled(3 - n, assigns, Passes(n, assigns, Seeds(assigns)));
    ThreeRoundsAreEnough(assigns);
  }

  lemma {:induction false} PassesSplit(m: nat, n: nat, assigns: seq<Assign>, names: set<Source>)
    ensures Passes(m + n, assigns, names) == Passes(n, assigns, Passes(m, assigns, names))
    decreases m
  {
    if m > 0 { PassesSplit(m - 1, n, assigns, Pass(assigns, names)); }
  }

  // ---------------------------------------------------------------------
  // Which chains the rounds find
  // ---------------------------------------------------------------------

  // Assignment number i of the chain uses the name of the one before.
  ghost predicate Linked(assigns: seq<Assign>, c: seq<nat>, i: nat) {
    0 < i < |c| && c[i] < |assigns| && c[i - 1] < |assigns| && Mentions(assigns[c[i]].rhs, assigns[c[i - 1]].name)
  }

  // Assignments, by position, that carry the request to t: the first uses a variable
  // assigned from it, each later one the name of the one before.
  ghost predicate IsChain(assigns: seq<Assign>, c: seq<nat>, t: Source) {
    if c == [] then t in Seeds(assigns)
    else
      && c[0] < |assigns| && UsesAny(assigns[c[0]].rhs, Seeds(assigns))
      && (forall i: nat {:trigger Linked(assigns, c, i)} :: 0 < i < |c| ==> Linked(assigns, c, i))
      && c[|c| - 1] < |assigns| && assigns[c[|c| - 1]].name == t
  }

  // The runs of rising position it falls into.
  function Runs(c: seq<nat>): nat {
    if |c| <= 1 then |c| else Runs(c[..|c| - 1]) + if c[|c| - 1] <= c[|c| - 2] then 1 else 0
  }

  ghost predicate InRuns(assigns: seq<Assign>, n: nat, t: Source) {
    exists c :: IsChain(assigns, c, t) && Runs(c) <= n
  }

  // What is tainted n rounds and k assignments into the search.
  ghost function Found(assigns: seq<Assign>, n: nat, k: nat): set<Source>
    requires k <= |assigns|
  {
    Pass(assigns[..k], Passes(n, assigns, Seeds(assigns)))
  }

  lemma {:induction false} PassOneMore(assigns: seq<Assign>, names: set<Source>, k: nat)
    requires k < |assigns|
    ensures Pass(assigns[..k + 1], names) == Mark(assigns[k], Pass(assigns[..k], names))
    decreases k
  {
    if k == 0 {
      assert assigns[..1][1..] == [];
    } else {
      assert assigns[..k + 1][1..] == assigns[1..][..k] && assigns[..k][1..] == assigns[1..][..k - 1];
      PassOneMore(assigns[1..], Mark(assigns[0], names), k - 1);
    }
  }

  lemma {:induction false} FoundGrows(assigns: seq<Assign>, n: nat, j: nat, k: nat)
    requires j <= k <= |assigns|
    ensures Found(assigns, n, j) <= Found(assigns, n, k)
    decreases k - j
  {
    if j < k {
      PassOneMore(assigns, Passes(n, assigns, Seeds(assigns)), k - 1);
      FoundGrows(assigns, n, j, k - 1);
    }
  }

  lemma NextRound(assigns: seq<Assign>, n: nat)
    ensures Found(assigns, n, |assigns|) == Passes(n + 1, assigns, Seeds(assigns)) == Found(assigns, n + 1, 0)
  {
    assert assigns[..|assigns|] == assigns && assigns[..0] == [];
    PassesSplit(n, 1, assigns, Seeds(assigns));
    var names := Passes(n, assigns, Seeds(assigns));
    assert Passes(1, assigns, names) == Passes(0, assigns, Pass(assigns, names));
  }

  lemma MarkFinds(assigns: seq<Assign>, n: nat, k: nat, s: Source)
    requires k < |assigns| && s in Found(assigns, n, k) && Mentions(assigns[k].rhs, s)
    ensures assigns[k].name in Found(assigns, n, k + 1)
  {
    PassOneMore(assigns, Passes(n, assigns, Seeds(assigns)), k);
  }

  lemma ChainBegins(assigns: seq<Assign>, s: Source, k: nat)
    requires s in Seeds(assigns) && k < |assigns| && Mentions(assigns[k].rhs, s)
    ensures IsChain(assigns, [k], assigns[k].name)
  {
    assert UsesAny(assigns[k].rhs, Seeds(assigns));
  }

  lemma LinkedMore(assigns: seq<Assign>, c: seq<nat>, s: Source, k: nat)
    requires c != [] && IsChain(assigns, c, s) && k < |assigns| && Mentions(assigns[k].rhs, s)
    ensures forall i: nat {:trigger Linked(assigns, c + [k], i)} :: 0 < i < |c| + 1 ==> Linked(assigns, c + [k], i)
  {
    var d := c + [k];
    forall i: nat | 0 < i < |c| + 1 ensures Linked(assigns, d, i) {
      if i < |c| {
        assert Linked(assigns, c, i) && d[i] == c[i] && d[i - 1] == c[i - 1];
      } else {
        assert d[i] == k && d[i - 1] == c[|c| - 1];
      }
    }
  }

  lemma RunsMore(c: seq<nat>, k: nat)
    ensures Runs(c + [k]) == if c == [] then 1 else Runs(c) + if k <= c[|c| - 1] then 1 else 0
  {
    assert (c + [k])[..|c|] == c;
  }

  lemma ChainGoesOn(assigns: seq<Assign>, c: seq<nat>, d: seq<nat>, s: Source, k: nat)
    requires c != [] && IsChain(assigns, c, s) && k < |assigns| && Mentions(assigns[k].rhs, s)
    requires d == c + [k]
    ensures IsChain(assigns, d, assigns[k].name)
  {
    LinkedMore(assigns, c, s, k);
    var first := assigns[c[0]];
    assert d[0] == c[0] && UsesAny(first.rhs, Seeds(assigns));
    assert d[|d| - 1] == k;
  }

  lemma ChainMore(assigns: seq<Assign>, c: seq<nat>, s: Source, k: nat)
    requires IsChain(assigns, c, s) && k < |assigns| && Mentions(assigns[k].rhs, s)
    ensures IsChain(assigns, c + [k], assigns[k].name)
  {
    if c == [] {
      ChainBegins(assigns, s, k);
      assert c + [k] == [k];
    } else {
      ChainGoesOn(assigns, c, c + [k], s, k);
    }
  }

  lemma ChainLess(assigns: seq<Assign>, c: seq<nat>, t: Source)
    requires IsChain(assigns, c, t) && |c| > 1
    ensures var was := c[|c| - 2];
            && was < |assigns| && IsChain(assigns, c[..|c| - 1], assigns[was].name)
            && c[|c| - 1] < |assigns| && Mentions(assigns[c[|c| - 1]].rhs, assigns[was].name)
  {
    var d := c[..|c| - 1];
    assert Linked(assigns, c, |c| - 1);
    forall i: nat | 0 < i < |d| ensures Linked(assigns, d, i) {
      assert Linked(assigns, c, i);
    }
  }

  // A chain is followed to its end in as many rounds as it has runs, the last up to its end.
  lemma {:induction false} ChainIsFound(assigns: seq<Assign>, c: seq<nat>, t: Source)
    requires IsChain(assigns, c, t) && c != []
    ensures Runs(c) > 0 && t in Found(assigns, Runs(c) - 1, c[|c| - 1] + 1)
    decreases |c|
  {
    var m, n := |c| - 1, Runs(c) - 1;
    var at := c[m];
    if m == 0 {
      var s :| s in Seeds(assigns) && Mentions(assigns[at].rhs, s);
      assert Passes(0, assigns, Seeds(assigns)) == Seeds(assigns);
      PassGrows(assigns[..at], Seeds(assigns));
      MarkFinds(assigns, 0, at, s);
    } else {
      ChainLess(assigns, c, t);
      var s, was := assigns[c[m - 1]].name, c[m - 1];
      ChainIsFound(assigns, c[..m], s);
      if was < at {
        FoundGrows(assigns, n, was + 1, at);
      } else {
        FoundGrows(assigns, n - 1, was + 1, |assigns|);
        NextRound(assigns, n - 1);
        FoundGrows(assigns, n, 0, at);
      }
      MarkFinds(assigns, n, at, s);
    }
  }

  // A chain that n rounds and k more assignments follow.
  ghost predicate Followed(assigns: seq<Assign>, n: nat, k: nat, c: seq<nat>, t: Source) {
    IsChain(assigns, c, t) && Runs(c) <= n + 1 && (Runs(c) == n + 1 ==> c != [] && c[|c| - 1] < k)
  }

  lemma FollowedOn(assigns: seq<Assign>, n: nat, k: nat, c: seq<nat>, s: Source)
    requires Followed(assigns, n, k, c, s) && k < |assigns| && Mentions(assigns[k].rhs, s)
    ensures Followed(assigns, n, k + 1, c + [k], assigns[k].name)
  {
    ChainMore(assigns, c, s, k);
    RunsMore(c, k);
  }

  lemma FoundBy(assigns: seq<Assign>, n: nat, k: nat, t: Source)
    requires k < |assigns| && t in Found(assigns, n, k + 1) && t !in Found(assigns, n, k)
    ensures t == assigns[k].name && UsesAny(assigns[k].rhs, Found(assigns, n, k))
  {
    PassOneMore(assigns, Passes(n, assigns, Seeds(assigns)), k);
  }

  // And what has been found has such a chain.
  lemma {:induction false} FoundHasChain(assigns: seq<Assign>, n: nat, k: nat, t: Source) returns (c: seq<nat>)
    requires k <= |assigns| && t in Found(assigns, n, k)
    ensures Followed(assigns, n, k, c, t)
    decreases n, k
  {
    if k > 0 {
      if t in Found(assigns, n, k - 1) {
        c := FoundHasChain(assigns, n, k - 1, t);
      } else {
        FoundBy(assigns, n, k - 1, t);
        var s :| s in Found(assigns, n, k - 1) && Mentions(assigns[k - 1].rhs, s);
        c := FoundHasChain(assigns, n, k - 1, s);
        FollowedOn(assigns, n, k - 1, c, s);
        c := c + [k - 1];
      }
    } else if n > 0 {
      NextRound(assigns, n - 1);
      c := FoundHasChain(assigns, n - 1, |assigns|, t);
    } else {
      assert assigns[..0] == [];
      c := [];
    }
  }

  lemma RoundHasRuns(assigns: seq<Assign>, n: nat, t: Source)
    requires t in Passes(n, assigns, Seeds(assigns))
    ensures InRuns(assigns, n, t)
  {
    if n == 0 {
      assert IsChain(assigns, [], t) && Runs([]) == 0;
    } else {
      NextRound(assigns, n - 1);
      var c := FoundHasChain(assigns, n - 1, |assigns|, t);
    }
  }

  lemma RunsAreFollowed(assigns: seq<Assign>, c: seq<nat>, t: Source)
    requires IsChain(assigns, c, t)
    ensures t in Passes(Runs(c), assigns, Seeds(assigns))
  {
    if c != [] {
      ChainIsFound(assigns, c, t);
      FoundGrows(assigns, Runs(c) - 1, c[|c| - 1] + 1, |assigns|);
      NextRound(assigns, Runs(c) - 1);
    }
  }

  /** A search of n rounds taints exactly the variables with a chain of at most n runs. */
  lemma RoundsFollowRuns(assigns: seq<Assign>, n: nat, t: Source)
    ensures t in Passes(n, assigns, Seeds(assigns)) <==> InRuns(assigns, n, t)
  {
    if InRuns(assigns, n, t) {
      var c :| IsChain(assigns, c, t) && Runs(c) <= n;
      var m := Runs(c);
      RunsAreFollowed(assigns, c, t);
      PassesSplit(m, n - m, assigns, Seeds(assigns));
      PassesGrow(n - m, assigns, Passes(m, assigns, Seeds(assigns)));
      assert m + (n - m) == n;
    }
    if t in Passes(n, assigns, Seeds(assigns)) { RoundHasRuns(assigns, n, t); }
  }

  /** So three rounds find everything exactly when every variable that is reached has a
      chain of at most three runs. */
  lemma ThreeRunsAreEnough(assigns: seq<Assign>)
    ensures IsClosure(assigns, Tainted(assigns)) <==> forall t :: Reaches(assigns, t) ==> InRuns(assigns, 3, t)
  {
    TaintIsSandwiched(assigns);
    forall t ensures t in Tainted(assigns) <==> InRuns(assigns, 3, t) {
      RoundsFollowRuns(assigns, 3, t);
    }
  }

  // ---------------------------------------------------------------------
  // Code written in order
  // ---------------------------------------------------------------------

  // No assignment uses a variable that is assigned at or after it.
  ghost predicate InOrder(assigns: seq<Assign>) {
    forall i, j :: 0 <= i <= j < |assigns| ==> !Mentions(assigns[i].rhs, assigns[j].name)
  }

  lemma {:induction false} PassAdds(assigns: seq<Assign>, names: set<Source>, t: Source)
    requires t in Pass(assigns, names) && t !in names
    ensures exists j :: 0 <= j < |assigns| && assigns[j].name == t
    decreases |assigns|
  {
    if t == assigns[0].name {
    } else {
      PassAdds(assigns[1..], Mark(assigns[0], names), t);
      var j :| 0 <= j < |assigns[1..]| && assigns[1..][j].name == t;
      assert assigns[j + 1].name == t;
    }
  }

  // After one round, nothing used by an assignment still adds a name.
  lemma {:induction false} OneRoundCloses(assigns: seq<Assign>, names: set<Source>, a: Assign)
    requires InOrder(assigns) && a in assigns && UsesAny(a.rhs, Pass(assigns, names))
    ensures a.name in Pass(assigns, names)
    decreases |assigns|
  {
    var next := Mark(assigns[0], names);
    assert InOrder(assigns[1..]);
    if a in assigns[1..] {
      OneRoundCloses(assigns[1..], next, a);
    } else {
      var t :| t in Pass(assigns, names) && Mentions(a.rhs, t);
      if t !in names { PassAdds(assigns, names, t); }
      PassMarks(assigns, names, a);
    }
  }

  lemma {:induction false} NothingToAdd(assigns: seq<Assign>, names: set<Source>)
    requires forall a :: a in assigns && UsesAny(a.rhs, names) ==> a.name in names
    ensures Pass(assigns, names) == names
    decreases |assigns|
  {
    if assigns != [] {
      assert Mark(assigns[0], names) == names;
      NothingToAdd(assigns[1..], names);
    }
  }

  /** Where every variable is assigned before it is used, chains of any length are found. */
  lemma InOrderIsComplete(assigns: seq<Assign>)
    requires InOrder(assigns)
    ensures IsClosure(assigns, Tainted(assigns))
  {
    var names := Pass(assigns, Seeds(assigns));
    forall a | a in assigns && UsesAny(a.rhs, names) ensures a.name in names {
      OneRoundCloses(assigns, Seeds(assigns), a);
    }
    NothingToAdd(assigns, names);
    assert Passes(1, assigns, Seeds(assigns)) == Passes(0, assigns, names) == names;
    EarlyStopIsComplete(assigns, 1);
  }

  // $e = $d; $d = $c; $c = $b; $b = $a; $a = input;
  function Backwards(): seq<Assign> {
    [Assign("e", "$d", false), Assign("d", "$c", false), Assign("c", "$b", false), Assign("b", "$a", false),
     Assign("a", "", true)]
  }

  function First(k: nat): set<Source> {
    if k == 1 then {"a"} else if k == 2 then {"a", "b"} else if k == 3 then {"a", "b", "c"}
    else if k == 4 then {"a", "b", "c", "d"} else {"a", "b", "c", "d", "e"}
  }

  lemma OneVariable(c: char, k: nat)
    ensures UsesAny(['$', c], First(k)) <==> [c] in First(k)
  {
    var s := ['$', c];
    forall t: Source, i | t in First(k) && TokenAt(s, t, i) ensures t == [c] {
      assert i == 0;
      assert s[0..2][1] == c && (['$'] + t)[1] == t[0];
    }
    assert s[0..2] == ['$'] + [c];
    assert TokenAt(s, [c], 0);
  }

  lemma BackwardsPass(all: seq<Assign>, k: nat)
    requires all == Backwards() && 1 <= k <= 4
    ensures Pass(all, First(k)) == First(k + 1)
  {
    var names := First(k);
    OneVariable('d', k);
    OneVariable('c', k);
    OneVariable('b', k);
    OneVariable('a', k);
    var n1 := Mark(all[0], names);
    var n2 := Mark(all[1], n1);
    assert n1 == if k == 4 then First(5) else First(k);
    if k < 4 {
      assert n2 == if k == 3 then First(4) else First(k);
    }
    assert all[1..][1..][1..][1..][1..] == [];
  }

  // What the fourth pass adds is reached, and is missing.
  lemma FourthPassIsMissed(assigns: seq<Assign>, n: seq<set<Source>>, name: Source)
    requires |n| == 5 && Seeds(assigns) == n[0] && forall k :: 0 <= k < 4 ==> Pass(assigns, n[k]) == n[k + 1]
    requires name in n[4] && name !in n[3]
    ensures Reaches(assigns, name) && name !in Tainted(assigns)
  {
    assert Pass(assigns, n[0]) == n[1] && Pass(assigns, n[1]) == n[2];
    assert Pass(assigns, n[2]) == n[3] && Pass(assigns, n[3]) == n[4];
    assert Passes(2, assigns, n[1]) == Passes(1, assigns, n[2]) == Passes(0, assigns, n[3]);
    TaintIsSandwiched(assigns);
    PassStaysReached(assigns, assigns, n[3]);
  }

  lemma BackwardsSeeds(all: seq<Assign>)
    requires all == Backwards()
    ensures Seeds(all) == First(1)
  {
    assert all[4].name == "a";
  }

  /** Assigned after use, a chain of four steps is missed. */
  lemma LongChainIsMissed(all: seq<Assign>)
    requires all == Backwards()
    ensures Reaches(all, "e") && "e" !in Tainted(all)
  {
    var n := seq(5, k requires 0 <= k => First(k + 1));
    BackwardsSeeds(all);
    forall k | 0 <= k < 4 ensures Pass(all, n[k]) == n[k + 1] {
      BackwardsPass(all, k + 1);
    }
    FourthPassIsMissed(all, n, "e");
  }
}
