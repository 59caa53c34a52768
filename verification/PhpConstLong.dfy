/** A file that takes one step more than the budget has. */
module PhpConstLong {
  import opened Common
  import opened PhpLexer
  import opened PhpLexerLaws
  import opened PhpConstReading
  import opened PhpConst
  import opened PhpConstLaws
  import opened PhpConstChain
  import opened PhpConstModest

  // ---------------------------------------------------------------------
  // The file: <?php $a=....$b;$b=....$c; ... $j=....$k;$k=....1;
  // ---------------------------------------------------------------------

  // Each right-hand side but the last is of the longest kind, 400 bytes.
  const LINK := 404
  const LAST_LINK := 4046

  function LongByte(i: nat): char
    requires i < 4061
  {
    if i < 6 then ("<?php ")[i]
    else if i < LAST_LINK then
      var k, j := (i - 6) / LINK, (i - 6) % LINK;
      if j == 0 || j == 401 then '$'
      else if j == 1 then Letter(k)
      else if j == 2 then '='
      else if j == 402 then Letter(k + 1)
      else if j == 403 then ';'
      else '.'
    else
      var j := i - LAST_LINK;
      if j == 0 then '$'
      else if j == 1 then 'k'
      else if j == 2 then '='
      else if j == 13 then '1'
      else if j == 14 then ';'
      else '.'
  }

  ghost predicate IsLong(s: Source) {
    |s| == 4061 && forall i :: 0 <= i < 4061 ==> s[i] == LongByte(i)
  }

  function LongText(): (s: Source)
    ensures IsLong(s)
  {
    seq(4061, i requires 0 <= i < 4061 => LongByte(i))
  }

  function Place(k: nat): nat {
    6 + LINK * k
  }

  function LongRhs(k: nat): Span
    requires k < 11
  {
    Span(Place(k) + 3, Place(k) + if k < 10 then 403 else 14)
  }

  // Where the dots of a right-hand side end.
  function DotsEnd(k: nat): nat
    requires k < 11
  {
    Place(k) + if k < 10 then 401 else 13
  }

  function Long(lib: Library): (p: Program)
    ensures IsLong(p.src) && p.strs == [] && p.lib == lib
  {
    Program(LongText(), [], map k | 0 <= k < 11 :: Name(k) := LongRhs(k), lib)
  }

  lemma LongAssigns(lib: Library, k: nat)
    requires k < 11
    ensures Name(k) in Long(lib).assigns && Long(lib).assigns[Name(k)] == LongRhs(k)
  {
    forall j | 0 <= j < 11 && Name(j) == Name(k) ensures j == k {
      Letters(j, k);
    }
  }

  // One assignment, byte by byte.
  lemma LongLink(s: Source, k: nat)
    requires IsLong(s) && k < 11
    ensures var at := Place(k);
            && s[at] == '$' && s[at + 1] == Letter(k) && s[at + 2] == '='
            && (forall i :: at + 3 <= i < DotsEnd(k) ==> s[i] == '.')
            && (k < 10 ==> s[at + 401] == '$' && s[at + 402] == Letter(k + 1) && s[at + 403] == ';')
            && (k == 10 ==> s[at + 13] == '1' && s[at + 14] == ';')
  {
    if k < 10 {
      InLink(k, 0);
      InLink(k, 1);
      InLink(k, 2);
      InLink(k, 401);
      InLink(k, 402);
      InLink(k, 403);
      forall i | Place(k) + 3 <= i < DotsEnd(k) ensures s[i] == '.' {
        InLink(k, i - Place(k));
      }
    }
  }

  lemma InLink(k: nat, j: nat)
    requires k < 10 && j < LINK
    ensures (Place(k) + j - 6) / LINK == k && (Place(k) + j - 6) % LINK == j
  {
  }

  // ---------------------------------------------------------------------
  // Lexing it
  // ---------------------------------------------------------------------

  lemma LongIsOrdinary(s: Source)
    requires IsLong(s)
    ensures forall i :: 5 <= i < 4061 ==> Ordinary(s[i])
  {
  }

  lemma LongLex(s: Source)
    requires IsLong(s)
    ensures Strings(Lex(s)) == [] && Comments(Lex(s)) == []
    ensures forall k :: !OutsideTags(Lex(s), k)
  {
    assert s[0] == '<' && s[1] == '?' && s[2] == 'p' && s[3] == 'h' && s[4] == 'p';
    assert FindOpen(s, 0) == 0;
    assert Step(s, 0, false) == Token(Markup, 0, 0, 5, true);
    LongIsOrdinary(s);
    OrdinaryRun(s, 5, 4061);
    assert Run(s, 4061, true) == [];
    RunHead(s, 0, false);
    ListHead(Step(s, 0, false), Run(s, 5, true));
    var ts := Run(s, 5, true);
    assert Lex(s) == [Step(s, 0, false)] + ts;
    forall a | 0 < a < |Lex(s)| ensures Lex(s)[a].kind != Markup {
      assert Lex(s)[a] == ts[a - 1];
    }
  }

  lemma LongView(s: Source)
    requires IsLong(s)
    ensures CodeView(s, Lex(s)) == s
  {
    LongLex(s);
    forall k: nat | k < |s| ensures |CodeView(s, Lex(s))| == |s| && CodeView(s, Lex(s))[k] == s[k] {
      CodeViewIsExact(s, k);
    }
    CodeViewIsExact(s, 0);
  }

  // ---------------------------------------------------------------------
  // Its assignments
  // ---------------------------------------------------------------------

  lemma LongAssignment(s: Source, k: nat, name: Bytes, span: Span)
    requires IsLong(s) && k < 11
    ensures AssignedAt(s, Place(k), name, span) <==> name == Name(k) && span == LongRhs(k)
  {
    LongLink(s, k);
    OneAssignment(s, Place(k), LongRhs(k).end, name, span);
  }

  lemma LongSigns(s: Source, at: nat)
    requires IsLong(s) && at < |s| && s[at] == '$'
    ensures exists k: nat :: k < 11 && (at == Place(k) || (k < 10 && at == Place(k) + 401))
  {
    if at < LAST_LINK {
      var k, j := (at - 6) / LINK, (at - 6) % LINK;
      assert at == Place(k) + j;
    } else {
      assert at == Place(10);
    }
  }

  lemma NoneInsideLong(s: Source, k: nat, name: Bytes, span: Span)
    requires IsLong(s) && k < 10
    ensures !AssignedAt(s, Place(k) + 401, name, span)
  {
    LongLink(s, k);
    NoAssignment(s, Place(k) + 401, name, span);
  }

  lemma OnlyLongAssignments(s: Source, at: nat, name: Bytes, span: Span)
    requires IsLong(s) && AssignedAt(s, at, name, span)
    ensures exists k: nat :: k < 11 && at == Place(k)
  {
    LongSigns(s, at);
    var k: nat :| k < 11 && (at == Place(k) || (k < 10 && at == Place(k) + 401));
    if at != Place(k) { NoneInsideLong(s, k, name, span); }
  }

  /** The program is what the resolver is given for its source. */
  lemma LongIsFromSource(lib: Library)
    ensures FromSource(Long(lib))
  {
    var p := Long(lib);
    LongLex(p.src);
    LongView(p.src);
    forall name | name in p.assigns ensures exists at: nat :: AssignedAt(p.src, at, name, p.assigns[name]) {
      var k: nat :| k < 11 && name == Name(k);
      LongAssigns(lib, k);
      LongAssignment(p.src, k, name, LongRhs(k));
    }
    forall at: nat, name, span | AssignedAt(p.src, at, name, span)
      ensures name in p.assigns && p.assigns[name] == span
    {
      OnlyLongAssignments(p.src, at, name, span);
      var k: nat :| k < 11 && at == Place(k);
      LongAssignment(p.src, k, name, span);
      LongAssigns(lib, k);
    }
  }

  // ---------------------------------------------------------------------
  // Dots
  // ---------------------------------------------------------------------

  ghost predicate Dots(p: Program, i: nat, j: nat, end: nat) {
    i <= j <= end <= |p.src| && forall k :: i <= k < j ==> p.src[k] == '.'
  }

  // A dot is a step and no value.
  lemma {:induction false} DotsFold(p: Program, st: State, i: nat, j: nat, end: nat, out: Bytes)
    requires Dots(p, i, j, end) && st.budget >= j - i
    ensures FoldFrom(p, st, i, end, out) == FoldFrom(p, st.(budget := st.budget - (j - i)), j, end, out)
    decreases j - i
  {
    if i < j {
      assert out + [] == out && ItemAt(p, i, end) == Skip;
      FoldOne(p, st, i, end, out);
      DotsFold(p, st.(budget := st.budget - 1), i + 1, j, end, out);
    } else {
      assert st.(budget := st.budget - 0) == st;
    }
  }

  lemma {:induction false} DotsMean(p: Program, f: nat, i: nat, j: nat, end: nat, out: Bytes)
    requires Dots(p, i, j, end)
    ensures EvalFrom(p, f, i, end, out) == EvalFrom(p, f, j, end, out)
    decreases j - i
  {
    if i < j {
      assert out + [] == out;
      DotsMean(p, f, i + 1, j, end, out);
    }
  }

  lemma {:induction false} DotsSizes(p: Program, z: Sizes, h: nat, i: nat, j: nat, end: nat, out: Bytes)
    requires Dots(p, i, j, end)
    ensures FromSteps(p, i, end) == (j - i) + FromSteps(p, j, end)
    ensures FromRanked(p, z.rank, h, j, end) ==> FromRanked(p, z.rank, h, i, end)
    ensures FromSmall(p, z.ranks, j, end, out) ==> FromSmall(p, z.ranks, i, end, out)
    decreases j - i
  {
    if i < j {
      assert out + [] == out;
      DotsSizes(p, z, h, i + 1, j, end, out);
    }
  }

  // ---------------------------------------------------------------------
  // What the file means, and what it takes
  // ---------------------------------------------------------------------

  // A right-hand side: dots, then the next variable or the number.
  ghost predicate LongAt(p: Program, k: nat)
    requires k < 11
  {
    var s, at := LongRhs(k), DotsEnd(k);
    && Name(k) in p.assigns && p.assigns[Name(k)] == s && s.start < at < s.end <= |p.src| && Dots(p, s.start, at, s.end)
    && ItemAt(p, at, s.end) == if k < 10 then Var(Name(k + 1), s.end) else Number("1", s.end)
  }

  ghost predicate HasLong(p: Program) {
    forall k {:trigger LongAt(p, k)} :: 0 <= k < 11 ==> LongAt(p, k)
  }

  lemma LongItem(p: Program, k: nat)
    requires IsLong(p.src) && k < 10
    ensures ItemAt(p, Place(k) + 401, Place(k) + 403) == Var(Name(k + 1), Place(k) + 403)
  {
    var s, at := p.src, Place(k) + 401;
    LongLink(s, k);
    assert IdentStop(s, at + 2, at + 2) == at + 2;
    assert s[at + 1..at + 2] == Name(k + 1);
  }

  lemma LongLast(p: Program)
    requires IsLong(p.src) && Usual(p.lib)
    ensures ItemAt(p, 4059, 4060) == Number("1", 4060)
  {
    var s := p.src;
    assert IdentStop(s, 4060, 4060) == 4060 && s[4059] == '1';
    assert s[4059..4060] == "1";
  }

  lemma LongAtHolds(p: Program, k: nat)
    requires IsLong(p.src) && Usual(p.lib) && k < 11 && Name(k) in p.assigns && p.assigns[Name(k)] == LongRhs(k)
    ensures LongAt(p, k)
  {
    LongDots(p, k);
    if k < 10 { LongItem(p, k); } else { LongLast(p); }
  }

  lemma LongDots(p: Program, k: nat)
    requires IsLong(p.src) && k < 11
    ensures LongRhs(k).start < DotsEnd(k) < LongRhs(k).end <= |p.src|
    ensures Dots(p, LongRhs(k).start, DotsEnd(k), LongRhs(k).end)
  {
    LongLink(p.src, k);
  }

  lemma LongHasLong(lib: Library)
    requires Usual(lib)
    ensures HasLong(Long(lib))
  {
    forall k | 0 <= k < 11 ensures LongAt(Long(lib), k) {
      LongAssigns(lib, k);
      LongAtHolds(Long(lib), k);
    }
  }

  // Its value, dots and all.
  lemma {:induction false} LongMeans(p: Program, k: nat)
    requires HasLong(p) && k < 11
    ensures EvalVar(p, 11 - k, Name(k)) == Value("1")
    decreases 11 - k
  {
    assert LongAt(p, k);
    var s, at := LongRhs(k), DotsEnd(k);
    if k < 10 { LongMeans(p, k + 1); }
    DotsMean(p, 10 - k, s.start, at, s.end, []);
    assert [] + "1" == "1";
    assert EvalFrom(p, 10 - k, s.end, s.end, "1") == Value("1");
    ByRange(p, 11 - k, Name(k));
  }

  // Three hundred and ninety-nine steps a variable, and the budget is gone at the number.
  lemma {:induction false} LongFails(p: Program, k: nat, st: State)
    requires HasLong(p) && k < 11
    requires st.cache == map[] && st.failed == {} && st.depth == k && st.budget == CONST_BUDGET - 399 * k
    ensures FoldVar(p, st, Name(k)).v == None
    decreases 11 - k
  {
    assert LongAt(p, k);
    var s, at, st1 := LongRhs(k), DotsEnd(k), st.(depth := st.depth + 1);
    DotsFold(p, st1, s.start, at, s.end, []);
    if k < 10 {
      LongFails(p, k + 1, st1.(budget := st1.budget - 399));
    }
  }

  // The last item of a range.
  lemma LastItemSizes(p: Program, z: Sizes, h: nat, i: nat, end: nat, out: Bytes)
    requires i < end <= |p.src| && end <= ItemNext(ItemAt(p, i, end), i)
    requires ItemRanked(p, z.rank, h, i, end) && ItemSmall(p, z.ranks, i, end)
    requires SizeChecked(ItemAt(p, i, end)) && EvalItem(p, z.ranks, i, end).Value? ==>
               |out + EvalItem(p, z.ranks, i, end).v| <= CONST_MAX_VALUE
    ensures FromRanked(p, z.rank, h, i, end) && FromSmall(p, z.ranks, i, end, out)
    ensures FromSteps(p, i, end) == 1 + ItemSteps(p, i, end)
  {
    var next := ItemNext(ItemAt(p, i, end), i);
    assert FromRanked(p, z.rank, h, next, end) && FromSteps(p, next, end) == 0;
  }

  lemma LongSteps(p: Program, z: Sizes, k: nat)
    requires HasLong(p) && k < 11
    requires z.ranks >= 11 && (forall j: nat :: j < 11 ==> z.rank(Name(j)) == 10 - j)
    ensures Name(k) in p.assigns && Keeps(p, z, Name(k)) && Steps(p, Name(k)) == if k < 10 then 399 else 11
  {
    assert LongAt(p, k);
    var s, at := LongRhs(k), DotsEnd(k);
    if k < 10 {
      LongMeans(p, k + 1);
      VarKeeps(p, 10 - k, z.ranks, Name(k + 1));
    }
    LastItemSizes(p, z, 10 - k, at, s.end, []);
    DotsSizes(p, z, 10 - k, s.start, at, s.end, []);
  }
}
