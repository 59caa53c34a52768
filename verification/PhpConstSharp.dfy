/** The sizes of modest programs cannot be raised: one rank more, or one step more, and a
    file the code can be given is answered wrongly. */
module PhpConstSharp {
  import opened Common
  import opened PhpLexer
  import opened PhpLexerLaws
  import opened PhpConstReading
  import opened PhpConst
  import opened PhpConstLaws
  import opened PhpConstSound
  import opened PhpConstExact
  import opened PhpConstModest
  import opened PhpConstChain
  import opened PhpConstLong

  // ---------------------------------------------------------------------
  // Steps in all
  // ---------------------------------------------------------------------

  lemma {:induction false} StepsAreBounded(p: Program, names: set<Bytes>, most: nat)
    requires names <= p.assigns.Keys && forall name <- names :: Steps(p, name) <= most
    ensures AllSteps(p, names) <= most * |names|
    decreases |names|
  {
    if names != {} {
      var name :| name in names;
      var rest := names - {name};
      TakeOut(p, names, name);
      StepsAreBounded(p, rest, most);
      OneMore(most, |rest|);
      assert |names| == |rest| + 1;
    }
  }

  lemma OneMore(m: nat, n: nat)
    ensures m * (n + 1) == m * n + m
  {
  }

  // The first n names of the alphabet.
  ghost function Names(n: nat): set<Bytes>
    requires n <= 12
  {
    set k: nat | k < n :: Name(k)
  }

  lemma {:induction false} CountNames(n: nat)
    requires n <= 12
    ensures |Names(n)| <= n
  {
    if n > 0 {
      CountNames(n - 1);
      assert Names(n) == Names(n - 1) + {Name(n - 1)};
    }
  }

  // A range of one item.
  lemma OneItemSizes(p: Program, z: Sizes, h: nat, i: nat, end: nat)
    requires i < end <= |p.src| && end <= ItemNext(ItemAt(p, i, end), i)
    requires ItemRanked(p, z.rank, h, i, end) && ItemSmall(p, z.ranks, i, end)
    requires SizeChecked(ItemAt(p, i, end)) && EvalItem(p, z.ranks, i, end).Value? ==>
               |EvalItem(p, z.ranks, i, end).v| <= CONST_MAX_VALUE
    ensures RangeRanked(p, z.rank, h, i, end) && RangeSmall(p, z.ranks, i, end)
    ensures RangeSteps(p, i, end) == 1 + ItemSteps(p, i, end)
  {
    var e := EvalItem(p, z.ranks, i, end);
    if e.Value? { assert [] + e.v == e.v; }
    LastItemSizes(p, z, h, i, end, []);
  }

  // ---------------------------------------------------------------------
  // Thirteen ranks
  // ---------------------------------------------------------------------

  // The chain's ranks: the last variable has the least.
  function ChainRank(name: Bytes): nat {
    if name == "x" then 12
    else if |name| == 1 && 'a' <= name[0] <= 'l' then 11 - (name[0] as int - 'a' as int)
    else 0
  }

  lemma RankOfName(k: nat)
    requires k < 12
    ensures ChainRank(Name(k)) == 11 - k
  {
    Letters(k, k);
  }

  lemma LinkKeeps(p: Program, z: Sizes, k: nat)
    requires HasLinks(p) && k < 12 && z.rank == ChainRank && z.ranks >= 12
    ensures Name(k) in p.assigns && Keeps(p, z, Name(k)) && Steps(p, Name(k)) == 1
  {
    assert ChainLink(p, k);
    RankOfName(k);
    if k < 11 {
      RankOfName(k + 1);
      ChainMeans(p, k + 1);
      VarKeeps(p, 11 - k, z.ranks, Name(k + 1));
      OneItemSizes(p, z, 11 - k, 31 + 6 * k, 33 + 6 * k);
    } else {
      OneItemSizes(p, z, 0, 97, 98);
    }
  }

  lemma TextArgKeeps(p: Program, z: Sizes)
    requires HasCall(p)
    ensures ArgRanked(p, z.rank, 12, 16, 26, 0) && ArgSmall(p, z.ranks, 16, 26, 0) && ArgSteps(p, 16, 26, 0) == 1
  {
    OneItemSizes(p, z, 12, 16, 21);
  }

  lemma OffsetArgKeeps(p: Program, z: Sizes)
    requires HasCall(p)
    ensures ArgRanked(p, z.rank, 12, 16, 26, 1) && ArgSmall(p, z.ranks, 16, 26, 1) && ArgSteps(p, 16, 26, 1) == 1
  {
    OneItemSizes(p, z, 12, 22, 23);
  }

  lemma LengthArgKeeps(p: Program, z: Sizes)
    requires HasLinks(p) && HasCall(p) && z.rank == ChainRank && z.ranks >= 13
    ensures ArgRanked(p, z.rank, 12, 16, 26, 2) && ArgSmall(p, z.ranks, 16, 26, 2) && ArgSteps(p, 16, 26, 2) == 1
  {
    RankOfName(0);
    ChainMeans(p, 0);
    VarKeeps(p, 12, z.ranks, Name(0));
    OneItemSizes(p, z, 12, 24, 26);
  }

  lemma CallKeeps(p: Program, z: Sizes)
    requires HasLinks(p) && HasCall(p) && z.rank == ChainRank && z.ranks >= 13
    ensures Keeps(p, z, "x") && Steps(p, "x") == 4
  {
    TextArgKeeps(p, z);
    OffsetArgKeeps(p, z);
    LengthArgKeeps(p, z);
    OneItemSizes(p, z, 12, 9, 27);
  }

  lemma NameKeeps(p: Program, z: Sizes, name: Bytes)
    requires HasLinks(p) && name in Names(12) && z.rank == ChainRank && z.ranks >= 12
    ensures name in p.assigns && Keeps(p, z, name) && Steps(p, name) <= 4
  {
    var k: nat :| k < 12 && name == Name(k);
    LinkKeeps(p, z, k);
  }

  lemma ChainIsModest(p: Program, z: Sizes)
    requires HasLinks(p) && HasCall(p) && p.assigns.Keys <= Names(12) + {"x"}
    requires z.rank == ChainRank && z.ranks >= 13 && z.steps >= 52
    ensures Modest(p, z)
  {
    forall name | name in p.assigns ensures Keeps(p, z, name) && Steps(p, name) <= 4 {
      if name == "x" { CallKeeps(p, z); } else { NameKeeps(p, z, name); }
    }
    StepsAreBounded(p, p.assigns.Keys, 4);
    ThirteenNames(p.assigns.Keys);
  }

  lemma ThirteenNames(names: set<Bytes>)
    requires names <= Names(12) + {"x"}
    ensures |names| <= 13
  {
    CountNames(12);
    SmallerSet(names, Names(12) + {"x"});
  }

  lemma ChainNames()
    ensures ChainAssigned().Keys <= Names(12) + {"x"}
  {
    forall name | name in ChainAssigned() && name != "x" ensures name in Names(12) {
      var k: nat :| k < 12 && name == Name(k);
    }
  }

  lemma {:induction false} SmallerSet(x: set<Bytes>, y: set<Bytes>)
    requires x <= y
    ensures |x| <= |y|
  {
    if x != {} {
      var t :| t in x;
      SmallerSet(x - {t}, y - {t});
    }
  }

  lemma ChainIsWrong(lib: Library)
    requires Usual(lib)
    ensures !AllRight(Chain(lib), ["x"])
  {
    LengthOutOfReach(lib);
    var vs := Answers(Chain(lib), FRESH, ["x"]);
    assert vs[0] == Some("abc");
  }

  // ---------------------------------------------------------------------
  // The most steps
  // ---------------------------------------------------------------------

  function LongRank(name: Bytes): nat {
    if |name| == 1 && 'a' <= name[0] <= 'k' then 10 - (name[0] as int - 'a' as int) else 0
  }

  lemma LongRankOfName(k: nat)
    requires k < 11
    ensures LongRank(Name(k)) == 10 - k
  {
    Letters(k, k);
  }

  lemma LongNames(lib: Library)
    ensures Long(lib).assigns.Keys == Names(11)
  {
    forall name | name in Long(lib).assigns ensures name in Names(11) {
      var k: nat :| k < 11 && name == Name(k);
    }
    forall name | name in Names(11) ensures name in Long(lib).assigns {
        var k: nat :| k < 11 && name == Name(k);
      LongAssigns(lib, k);
    }
  }

  lemma LongIsModest(p: Program, z: Sizes)
    requires HasLong(p) && p.assigns.Keys == Names(11)
    requires z.rank == LongRank && z.ranks >= 11 && z.steps > CONST_BUDGET
    ensures Modest(p, z)
  {
    forall j: nat | j < 11 ensures z.rank(Name(j)) == 10 - j {
      LongRankOfName(j);
    }
    forall name | name in p.assigns ensures Keeps(p, z, name) && (name != Name(10) ==> Steps(p, name) <= 399) {
        var k: nat :| k < 11 && name == Name(k);
      LongSteps(p, z, k);
    }
    LongSteps(p, z, 10);
    TakeOut(p, p.assigns.Keys, Name(10));
    StepsAreBounded(p, p.assigns.Keys - {Name(10)}, 399);
    CountNames(11);
    assert |p.assigns.Keys - {Name(10)}| == |Names(11)| - 1;
  }

  lemma LongIsWrong(p: Program)
    requires HasLong(p)
    ensures !AllRight(p, [Name(0)])
  {
    LongFails(p, 0, FRESH);
    LongMeans(p, 0);
    assert Answers(p, FRESH, [Name(0)])[0] == None;
    assert VarMeans(p, Name(0), "1");
  }

  // ---------------------------------------------------------------------
  // The sizes are sharp
  // ---------------------------------------------------------------------

  // Every program of the source with so many ranks and steps is answered right.
  ghost predicate AlwaysRight(lib: Library, ranks: nat, steps: nat) {
    forall p: Program, z: Sizes, names ::
      p.lib == lib && FromSource(p) && Modest(p, z) && z.ranks == ranks && z.steps == steps ==> AllRight(p, names)
  }

  lemma Refutes(p: Program, z: Sizes, names: seq<Bytes>)
    requires FromSource(p) && Modest(p, z) && !AllRight(p, names)
    ensures !AlwaysRight(p.lib, z.ranks, z.steps)
  {
  }

  lemma ThirteenAreTooMany(lib: Library, ranks: nat)
    requires Usual(lib) && ranks > CONST_MAX_DEPTH
    ensures !AlwaysRight(lib, ranks, CONST_BUDGET)
  {
    var z := Sizes(ChainRank, ranks, CONST_BUDGET);
    ChainHasLinks(lib);
    ChainHasCall(lib);
    ChainNames();
    ChainIsModest(Chain(lib), z);
    ChainIsWrong(lib);
    ChainIsFromSource(lib);
    Refutes(Chain(lib), z, ["x"]);
  }

  lemma SizesAreEnough(lib: Library, ranks: nat, steps: nat)
    requires ranks <= CONST_MAX_DEPTH && steps <= CONST_BUDGET
    ensures AlwaysRight(lib, ranks, steps)
  {
    forall p: Program, z: Sizes, names | Modest(p, z) && z.ranks == ranks && z.steps == steps
      ensures AllRight(p, names)
    {
      ModestProgramsAreExact(p, z, names);
    }
  }

  /** Twelve is the most ranks for which modest programs are exact. */
  lemma RanksAreSharp(lib: Library, ranks: nat)
    requires Usual(lib)
    ensures AlwaysRight(lib, ranks, CONST_BUDGET) <==> ranks <= CONST_MAX_DEPTH
  {
    if ranks <= CONST_MAX_DEPTH {
      SizesAreEnough(lib, ranks, CONST_BUDGET);
    } else {
      ThirteenAreTooMany(lib, ranks);
    }
  }

  lemma OneStepIsTooMany(lib: Library, steps: nat)
    requires Usual(lib) && steps > CONST_BUDGET
    ensures !AlwaysRight(lib, CONST_MAX_DEPTH, steps)
  {
    var z := Sizes(LongRank, CONST_MAX_DEPTH, steps);
    LongHasLong(lib);
    LongNames(lib);
    LongIsModest(Long(lib), z);
    LongIsWrong(Long(lib));
    LongIsFromSource(lib);
    Refutes(Long(lib), z, [Name(0)]);
  }

  /** And four thousand the most steps. */
  lemma StepsAreSharp(lib: Library, steps: nat)
    requires Usual(lib)
    ensures AlwaysRight(lib, CONST_MAX_DEPTH, steps) <==> steps <= CONST_BUDGET
  {
    if steps <= CONST_BUDGET {
      SizesAreEnough(lib, CONST_MAX_DEPTH, steps);
    } else {
      OneStepIsTooMany(lib, steps);
    }
  }
}
