/** A file for which a substr length is out of the resolver's reach. */
module PhpConstChain {
  import opened Common
  import opened PhpLexer
  import opened PhpLexerLaws
  import opened PhpConstReading
  import opened PhpConst
  import opened PhpConstLaws

  // ---------------------------------------------------------------------
  // What a resolver is given
  // ---------------------------------------------------------------------

  predicate IsBlank(c: char) {
    c == ' ' || c == '\t' || c == '\n' || c == '\r' || c == '\U{0C}'
  }

  // Between from and to stand an equals sign and blanks.
  ghost predicate Equals(code: Source, from: nat, to: nat)
    requires to <= |code|
  {
    exists eq :: from <= eq < to && code[eq] == '=' && forall k :: from <= k < to && k != eq ==> IsBlank(code[k])
  }

  // `$name = rhs;` stands at that place of the code view, with the right-hand side in span.
  ghost predicate AssignedAt(code: Source, at: nat, name: Bytes, span: Span) {
    && |name| > 0 && at + 1 + |name| < span.start <= span.end < |code| && span.end - span.start <= 400
    && code[at] == '$' && code[at + 1..at + 1 + |name|] == name
    && (forall k :: 0 <= k < |name| ==> IsIdent(name[k])) && !('0' <= name[0] <= '9')
    && Equals(code, at + 1 + |name|, span.start)
    && (span.start < span.end ==> !IsBlank(code[span.start]))
    && code[span.end] == ';' && forall k :: span.start <= k < span.end ==> code[k] != ';'
  }

  // Strings and assignments are those of the source: each name is assigned once.
  ghost predicate FromSource(p: Program) {
    var code := CodeView(p.src, Lex(p.src));
    && p.strs == Strings(Lex(p.src))
    && (forall name <- p.assigns :: exists at: nat :: AssignedAt(code, at, name, p.assigns[name]))
    && forall at: nat, name, span :: AssignedAt(code, at, name, span) ==> name in p.assigns && p.assigns[name] == span
  }

  // ---------------------------------------------------------------------
  // The file
  // ---------------------------------------------------------------------

  const FRONT := "<?php $x="
  const LENGTH_CALL := "substr('abc',0,$a)"
  const LAST := "$l=1;"

  function Letter(k: nat): char
    requires k < 12
  {
    'a' + (k as char)
  }

  function Name(k: nat): Bytes
    requires k < 12
  {
    [Letter(k)]
  }

  // The bytes of $a=$b; $b=$c; and so on.
  function LinkByte(k: nat, j: nat): char
    requires k < 11
  {
    if j == 0 || j == 3 then '$'
    else if j == 1 then Letter(k)
    else if j == 2 then '='
    else if j == 4 then Letter(k + 1)
    else ';'
  }

  // <?php $x=substr('abc',0,$a);$a=$b;$b=$c; ... $k=$l;$l=1;
  function ChainText(): Source {
    FRONT + LENGTH_CALL + ";" + seq(66, j requires 0 <= j < 66 => LinkByte(j / 6, j % 6)) + LAST
  }

  // The right-hand side of the k-th variable of the chain.
  function Rhs(k: nat): Span {
    Span(31 + 6 * k, if k < 11 then 33 + 6 * k else 98)
  }

  function ChainAssigned(): map<Bytes, Span> {
    (map k | 0 <= k < 12 :: Name(k) := Rhs(k))["x" := Span(9, 27)]
  }

  function Chain(lib: Library): Program {
    Program(ChainText(), [Span(17, 20)], ChainAssigned(), lib)
  }

  // The file byte by byte, but for the content of its string.
  ghost predicate IsFile(s: Source) {
    && |s| == 99 && s[27] == ';'
    && (forall i :: 0 <= i < 9 ==> s[i] == FRONT[i])
    && (forall i :: 9 <= i < 17 || 20 <= i < 27 ==> s[i] == LENGTH_CALL[i - 9])
    && (forall i :: 28 <= i < 94 ==> s[i] == LinkByte((i - 28) / 6, (i - 28) % 6))
    && (forall i :: 94 <= i < 99 ==> s[i] == LAST[i - 94])
  }

  ghost predicate IsText(s: Source) {
    IsFile(s) && s[17] == 'a' && s[18] == 'b' && s[19] == 'c'
  }

  lemma TextIs()
    ensures IsText(ChainText())
  {
  }

  // The k-th link, byte by byte.
  lemma LinkIs(s: Source, k: nat)
    requires IsFile(s) && k < 11
    ensures var at := 28 + 6 * k;
            && s[at] == '$' && s[at + 1] == Letter(k) && s[at + 2] == '='
            && s[at + 3] == '$' && s[at + 4] == Letter(k + 1) && s[at + 5] == ';'
  {
    forall j | 0 <= j < 6 ensures s[28 + 6 * k + j] == LinkByte(k, j) {
      assert (6 * k + j) / 6 == k && (6 * k + j) % 6 == j;
    }
    assert s[28 + 6 * k + 0] == LinkByte(k, 0) && s[28 + 6 * k + 1] == LinkByte(k, 1);
  }

  // ---------------------------------------------------------------------
  // Lexing it
  // ---------------------------------------------------------------------

  // A byte that begins no construct of the lexer.
  predicate Ordinary(c: char) {
    c != '?' && c != '/' && c != '#' && c != '\'' && c != '"' && c != '`' && c != '<'
  }

  ghost predicate NoMarkup(ts: seq<Token>) {
    forall a :: 0 <= a < |ts| ==> ts[a].kind != Markup
  }

  lemma {:induction false} OrdinaryRun(s: Source, i: nat, j: nat)
    requires i <= j <= |s| && forall k :: i <= k < j ==> Ordinary(s[k])
    ensures Strings(Run(s, i, true)) == Strings(Run(s, j, true))
    ensures Comments(Run(s, i, true)) == Comments(Run(s, j, true))
    ensures NoMarkup(Run(s, j, true)) ==> NoMarkup(Run(s, i, true))
    decreases j - i
  {
    if i < j {
      OrdinaryRun(s, i + 1, j);
      assert Step(s, i, true) == Token(Code, i, i, i + 1, true);
      ListHead(Step(s, i, true), Run(s, i + 1, true));
    }
  }

  lemma OrdinaryText(s: Source)
    requires IsText(s)
    ensures forall i :: 5 <= i < 16 || 21 <= i < 99 ==> Ordinary(s[i])
  {
  }

  lemma TextSteps(s: Source)
    requires IsText(s)
    ensures Step(s, 0, false) == Token(Markup, 0, 0, 5, true)
    ensures Step(s, 16, true) == Token(Str, 17, 20, 21, true)
  {
    assert FindOpen(s, 0) == 0;
    assert s[16] == '\'' && s[20] == '\'';
    assert QuoteEnd(s, 19, '\'') == 20 && QuoteEnd(s, 17, '\'') == 20;
  }

  lemma TextLex(s: Source)
    requires IsText(s)
    ensures Strings(Lex(s)) == [Span(17, 20)] && Comments(Lex(s)) == []
    ensures forall k :: !OutsideTags(Lex(s), k)
  {
    TextSteps(s);
    OrdinaryText(s);
    OrdinaryRun(s, 5, 16);
    OrdinaryRun(s, 21, 99);
    assert Run(s, 99, true) == [];
    RunHead(s, 16, true);
    ListHead(Step(s, 16, true), Run(s, 21, true));
    RunHead(s, 0, false);
    ListHead(Step(s, 0, false), Run(s, 5, true));
    var ts := Run(s, 5, true);
    assert Lex(s) == [Step(s, 0, false)] + ts;
    forall a | 0 < a < |Lex(s)| ensures Lex(s)[a].kind != Markup {
      assert Lex(s)[a] == ts[a - 1];
    }
  }

  // ---------------------------------------------------------------------
  // Its code view
  // ---------------------------------------------------------------------

  ghost predicate IsView(code: Source) {
    IsFile(code) && code[17] == ' ' && code[18] == ' ' && code[19] == ' '
  }

  lemma ViewByte(s: Source, k: nat)
    requires IsText(s) && k < 99
    ensures |CodeView(s, Lex(s))| == 99
    ensures CodeView(s, Lex(s))[k] == if 17 <= k < 20 then ' ' else s[k]
  {
    TextLex(s);
    CodeViewIsExact(s, k);
    assert InSpan(Strings(Lex(s)), k) <==> 17 <= k < 20 by {
      assert Strings(Lex(s))[0] == Span(17, 20);
    }
  }

  lemma ViewIs(s: Source)
    requires IsText(s)
    ensures IsView(CodeView(s, Lex(s)))
  {
    var code := CodeView(s, Lex(s));
    forall k: nat | k < 99 ensures |code| == 99 && code[k] == if 17 <= k < 20 then ' ' else s[k] {
      ViewByte(s, k);
    }
    ViewByte(s, 0);
  }

  // ---------------------------------------------------------------------
  // Its assignments
  // ---------------------------------------------------------------------

  lemma NameBytes(code: Source, at: nat, name: Bytes, span: Span)
    requires AssignedAt(code, at, name, span)
    ensures forall k :: at < k <= at + |name| ==> IsIdent(code[k])
    ensures name[0] == code[at + 1]
    ensures code[at + 1 + |name|] == '=' || IsBlank(code[at + 1 + |name|])
  {
    forall k | at < k <= at + |name| ensures code[k] == name[k - at - 1] {
      assert code[k] == code[at + 1..at + 1 + |name|][k - at - 1];
    }
  }

  // A one-letter name with its sign: what the assignment must be.
  lemma OneAssignment(code: Source, at: nat, end: nat, name: Bytes, span: Span)
    requires at + 3 < end < |code| && end - at <= 403 && code[at] == '$' && code[at + 2] == '=' && code[end] == ';'
    requires IsIdent(code[at + 1]) && !('0' <= code[at + 1] <= '9') && !IsBlank(code[at + 3])
    requires forall k :: at + 3 <= k < end ==> code[k] != ';'
    ensures AssignedAt(code, at, name, span) <==> name == [code[at + 1]] && span == Span(at + 3, end)
  {
    if AssignedAt(code, at, name, span) {
      NameBytes(code, at, name, span);
    }
    assert code[at + 1..at + 2] == [code[at + 1]];
  }

  // Two bytes behind the sign, that one ends no name.
  lemma NoAssignment(code: Source, at: nat, name: Bytes, span: Span)
    requires at + 2 < |code| && !IsIdent(code[at + 2]) && !IsBlank(code[at + 2]) && code[at + 2] != '='
    ensures !AssignedAt(code, at, name, span)
  {
    if AssignedAt(code, at, name, span) {
      NameBytes(code, at, name, span);
    }
  }

  lemma FirstAssignment(code: Source, name: Bytes, span: Span)
    requires IsView(code)
    ensures AssignedAt(code, 6, name, span) <==> name == "x" && span == Span(9, 27)
  {
    assert forall k :: 9 <= k < 27 ==> code[k] != ';';
    assert code[6] == '$' && code[7] == 'x' && code[8] == '=' && code[9] == 's';
    OneAssignment(code, 6, 27, name, span);
  }

  lemma LinkAssignment(code: Source, k: nat, name: Bytes, span: Span)
    requires IsView(code) && k < 12
    ensures AssignedAt(code, 28 + 6 * k, name, span) <==> name == Name(k) && span == Rhs(k)
  {
    var at := 28 + 6 * k;
    if k < 11 {
      LinkIs(code, k);
      OneAssignment(code, at, at + 5, name, span);
    } else {
      assert code[94] == '$' && code[95] == 'l' && code[96] == '=' && code[97] == '1' && code[98] == ';';
      OneAssignment(code, at, at + 4, name, span);
    }
  }

  // Where the view holds a dollar sign.
  lemma Signs(code: Source, at: nat)
    requires IsView(code) && at < |code| && code[at] == '$'
    ensures at == 6 || at == 24 || at == 94 || (28 <= at < 94 && ((at - 28) % 6 == 0 || (at - 28) % 6 == 3))
  {
  }

  // The sign on a link's right begins no assignment.
  lemma NoneInside(code: Source, at: nat, name: Bytes, span: Span)
    requires IsView(code) && 28 <= at < 94 && (at - 28) % 6 == 3
    ensures !AssignedAt(code, at, name, span)
  {
    LinkIs(code, (at - 28) / 6);
    NoAssignment(code, at, name, span);
  }

  // Every assignment in the view is one of those.
  lemma OnlyAssignments(code: Source, at: nat, name: Bytes, span: Span)
    requires IsView(code) && AssignedAt(code, at, name, span)
    ensures at == 6 || ((at - 28) % 6 == 0 && 28 <= at <= 94)
  {
    Signs(code, at);
    assert code[26] == ')';
    NoAssignment(code, 24, name, span);
    if 28 <= at < 94 && (at - 28) % 6 == 3 {
      NoneInside(code, at, name, span);
    }
  }

  lemma Letters(j: nat, k: nat)
    requires j < 12 && k < 12
    ensures Name(j) == Name(k) <==> j == k
    ensures Name(k) != "x"
  {
    assert Name(j)[0] == 'a' + (j as char) && Name(k)[0] == 'a' + (k as char);
  }

  lemma ChainAssigns(k: nat)
    requires k < 12
    ensures Name(k) in ChainAssigned() && ChainAssigned()[Name(k)] == Rhs(k)
  {
    Letters(k, k);
    forall j | 0 <= j < 12 && Name(j) == Name(k) ensures j == k {
      Letters(j, k);
    }
  }

  lemma ChainIsComplete(code: Source, at: nat, name: Bytes, span: Span)
    requires IsView(code) && AssignedAt(code, at, name, span)
    ensures name in ChainAssigned() && ChainAssigned()[name] == span
  {
    OnlyAssignments(code, at, name, span);
    if at == 6 {
      FirstAssignment(code, name, span);
    } else {
      LinkIsKnown(code, (at - 28) / 6, name, span);
    }
  }

  lemma LinkIsKnown(code: Source, k: nat, name: Bytes, span: Span)
    requires IsView(code) && k < 12 && AssignedAt(code, 28 + 6 * k, name, span)
    ensures name in ChainAssigned() && ChainAssigned()[name] == span
  {
    LinkAssignment(code, k, name, span);
    ChainAssigns(k);
  }

  lemma ChainIsAssigned(code: Source, name: Bytes)
    requires IsView(code) && name in ChainAssigned()
    ensures exists at: nat :: AssignedAt(code, at, name, ChainAssigned()[name])
  {
    if name == "x" {
      FirstAssignment(code, name, Span(9, 27));
    } else {
      var k :| 0 <= k < 12 && name == Name(k);
      ChainAssigns(k);
      LinkAssignment(code, k, name, Rhs(k));
    }
  }

  /** The program is what the resolver is given for its source. */
  lemma ChainIsFromSource(lib: Library)
    ensures FromSource(Chain(lib))
  {
    var p := Chain(lib);
    var code := CodeView(p.src, Lex(p.src));
    TextIs();
    TextLex(p.src);
    ViewIs(p.src);
    forall name | name in p.assigns ensures exists at: nat :: AssignedAt(code, at, name, p.assigns[name]) {
      ChainIsAssigned(code, name);
    }
    forall at: nat, name, span | AssignedAt(code, at, name, span) ensures name in p.assigns && p.assigns[name] == span {
      ChainIsComplete(code, at, name, span);
    }
  }

  // ---------------------------------------------------------------------
  // Reading it
  // ---------------------------------------------------------------------

  // What the library functions answer on the few words used below.
  predicate Usual(lib: Library) {
    && lib.lower("substr") == "substr" && lib.unescape("abc") == "abc"
    && lib.lower("0") == "0" && lib.lower("1") == "1"
    && lib.number("0") == Some("0") && lib.number("1") == Some("1")
    && lib.atoi("0") == Some(0) && lib.atoi("1") == Some(1)
  }

  lemma LinkItem(p: Program, k: nat)
    requires IsText(p.src) && k < 11
    ensures ItemAt(p, 31 + 6 * k, 33 + 6 * k) == Var(Name(k + 1), 33 + 6 * k)
  {
    var s, at := p.src, 31 + 6 * k;
    LinkIs(s, k);
    assert IdentStop(s, at + 2, at + 2) == at + 2;
    assert s[at + 1..at + 2] == Name(k + 1);
  }

  lemma LastItem(p: Program)
    requires IsText(p.src) && Usual(p.lib)
    ensures ItemAt(p, 97, 98) == Number("1", 98)
  {
    var s := p.src;
    assert IdentStop(s, 98, 98) == 98 && s[97] == '1';
    assert s[97..98] == "1";
  }

  lemma CallName(s: Source)
    requires IsText(s)
    ensures IdentStop(s, 9, 27) == 15 && BlankStop(s, 15, 27) == 15 && s[9..15] == "substr"
  {
    assert s[9] == 's' && s[10] == 'u' && s[11] == 'b' && s[12] == 's' && s[13] == 't' && s[14] == 'r' && s[15] == '(';
    assert IdentStop(s, 13, 27) == 15 && IdentStop(s, 11, 27) == 15;
  }

  lemma CallClose(s: Source)
    requires IsText(s)
    ensures s[15] == '(' && MatchParen(s, 15, 27) == Some(26)
  {
    assert s[20] == '\'' && s[21] == ',' && s[22] == '0' && s[23] == ',';
    assert s[24] == '$' && s[25] == 'a' && s[26] == ')';
    assert CloseFrom(s, 24, 27, 1, None) == Some(26);
    assert CloseFrom(s, 22, 27, 1, None) == Some(26);
    assert CloseFrom(s, 20, 27, 1, Some('\'')) == Some(26);
    assert s[16] == '\'';
    assert CloseFrom(s, 18, 27, 1, Some('\'')) == Some(26);
    assert CloseFrom(s, 16, 27, 1, None) == Some(26);
  }

  lemma CallItem(p: Program)
    requires IsText(p.src) && Usual(p.lib)
    ensures ItemAt(p, 9, 27) == Call("substr", 16, 26)
  {
    CallName(p.src);
    CallClose(p.src);
    assert p.src[9] == 's';
  }

  lemma CallLiteral(p: Program)
    requires IsText(p.src) && p.strs == [Span(17, 20)] && Usual(p.lib)
    ensures LiteralAt(p, 16) == Some(Literal("abc", 21))
  {
    assert p.src[17..20] == "abc";
  }

  lemma CallArgs(p: Program)
    requires IsText(p.src) && p.strs == [Span(17, 20)] && Usual(p.lib)
    ensures SplitArgs(p, 16, 26) == [Span(16, 21), Span(22, 23), Span(24, 26)]
  {
    var s := p.src;
    CallLiteral(p);
    assert s[16] == '\'' && s[21] == ',' && s[22] == '0' && s[23] == ',' && s[24] == '$' && s[25] == 'a';
    assert SplitFrom(p, 24, 26, 0, 24) == [Span(24, 26)];
    assert SplitFrom(p, 22, 26, 0, 22) == [Span(22, 23), Span(24, 26)];
    assert SplitFrom(p, 21, 26, 0, 16) == [Span(16, 21), Span(22, 23), Span(24, 26)];
  }

  lemma ArgItems(p: Program)
    requires IsText(p.src) && p.strs == [Span(17, 20)] && Usual(p.lib)
    ensures ItemAt(p, 16, 21) == Lit("abc", 21)
    ensures ItemAt(p, 22, 23) == Number("0", 23)
    ensures ItemAt(p, 24, 26) == Var(Name(0), 26)
  {
    var s := p.src;
    CallLiteral(p);
    assert s[16] == '\'' && s[22] == '0' && s[24] == '$' && s[25] == 'a';
    assert IdentStop(s, 23, 23) == 23 && s[22..23] == "0";
    assert IdentStop(s, 26, 26) == 26 && s[25..26] == Name(0);
  }

  ghost predicate ChainLink(p: Program, k: nat)
    requires |p.src| == 99 && k < 12
  {
    && Name(k) in p.assigns && p.assigns[Name(k)] == Rhs(k)
    && (k < 11 ==> ItemAt(p, 31 + 6 * k, 33 + 6 * k) == Var(Name(k + 1), 33 + 6 * k))
    && (k == 11 ==> ItemAt(p, 97, 98) == Number("1", 98))
  }

  // What the arguments below need to know of the chain.
  ghost predicate HasLinks(p: Program) {
    && |p.src| == 99
    && (forall k {:trigger ChainLink(p, k)} :: 0 <= k < 12 ==> ChainLink(p, k))
  }

  ghost predicate HasCall(p: Program) {
    && |p.src| == 99
    && "x" in p.assigns && p.assigns["x"] == Span(9, 27)
    && ItemAt(p, 9, 27) == Call("substr", 16, 26)
    && SplitArgs(p, 16, 26) == [Span(16, 21), Span(22, 23), Span(24, 26)]
    && ItemAt(p, 16, 21) == Lit("abc", 21)
    && ItemAt(p, 22, 23) == Number("0", 23)
    && ItemAt(p, 24, 26) == Var(Name(0), 26)
  }

  lemma ChainHasLinks(lib: Library)
    requires Usual(lib)
    ensures HasLinks(Chain(lib))
  {
    TextIs();
    forall k | 0 <= k < 12 ensures ChainLink(Chain(lib), k) {
      ChainAssigns(k);
      if k < 11 { LinkItem(Chain(lib), k); } else { LastItem(Chain(lib)); }
    }
  }

  lemma ChainHasCall(lib: Library)
    requires Usual(lib)
    ensures HasCall(Chain(lib))
  {
    TextIs();
    CallItem(Chain(lib));
    CallArgs(Chain(lib));
    ArgItems(Chain(lib));
  }

  // ---------------------------------------------------------------------
  // What the resolver answers
  // ---------------------------------------------------------------------

  // Entered one level down, the chain runs into the depth limit at its last name.
  lemma {:induction false} ChainFails(p: Program, k: nat, st: State)
    requires HasLinks(p) && k < 12
    requires st.cache == map[] && st.failed == {} && st.depth == k + 1 && st.budget >= 12 - k
    ensures FoldVar(p, st, Name(k)).v == None
    decreases 12 - k
  {
    assert ChainLink(p, k);
    if k < 11 {
      var st1 := st.(depth := st.depth + 1);
      SingleItem(p, st1, 0, 31 + 6 * k, 33 + 6 * k);
      ChainFails(p, k + 1, st1.(budget := st1.budget - 1));
    }
  }

  lemma ChainFoldLength(p: Program, st: State)
    requires HasLinks(p) && HasCall(p)
    requires st.cache == map[] && st.failed == {} && st.depth == 1 && st.budget >= 18
    ensures FoldArg(p, st, 16, 26, 2).v == None
  {
    SingleItem(p, st, 0, 24, 26);
    ChainFails(p, 0, st.(budget := st.budget - 1));
  }

  lemma ChainFoldCall(p: Program, st: State)
    requires HasLinks(p) && HasCall(p) && Usual(p.lib)
    requires st.cache == map[] && st.failed == {} && st.depth == 1 && st.budget >= 20
    ensures FoldCall(p, st, "substr", 16, 26).v == Some("abc")
  {
    var st1, st2 := st.(budget := st.budget - 1), st.(budget := st.budget - 2);
    SingleItem(p, st, 0, 16, 21);
    SingleItem(p, st1, 0, 22, 23);
    ChainFoldLength(p, st2);
    assert FoldArg(p, st, 16, 26, 0) == Folded(st1, Some("abc"));
    assert FoldArg(p, st1, 16, 26, 1) == Folded(st2, Some("0"));
  }

  lemma ChainFold(p: Program)
    requires HasLinks(p) && HasCall(p) && Usual(p.lib)
    ensures FoldVar(p, State(map[], {}, CONST_BUDGET, 0), "x").v == Some("abc")
  {
    var st := State(map[], {}, CONST_BUDGET, 1);
    ChainFoldCall(p, st.(budget := CONST_BUDGET - 1));
    SingleItem(p, st, 0, 9, 27);
  }

  // ---------------------------------------------------------------------
  // What the variable means
  // ---------------------------------------------------------------------

  // A range of one item means what the item does.
  lemma OneItem(p: Program, f: nat, i: nat, end: nat)
    requires i < end <= |p.src| && end <= ItemNext(ItemAt(p, i, end), i)
    ensures EvalRange(p, f, i, end) == EvalItem(p, f, i, end)
  {
    SingleItem(p, State(map[], {}, 1, 0), f, i, end);
  }

  lemma {:induction false} ChainMeans(p: Program, k: nat)
    requires HasLinks(p) && k < 12
    ensures EvalVar(p, 12 - k, Name(k)) == Value("1")
    decreases 12 - k
  {
    assert ChainLink(p, k);
    if k < 11 {
      ChainMeans(p, k + 1);
      OneItem(p, 11 - k, 31 + 6 * k, 33 + 6 * k);
    } else {
      OneItem(p, 0, 97, 98);
    }
    ByRange(p, 12 - k, Name(k));
  }

  lemma CallText(p: Program)
    requires HasCall(p)
    ensures EvalArg(p, 12, 16, 26, 0) == Value("abc")
  {
    OneItem(p, 12, 16, 21);
  }

  lemma CallOffset(p: Program)
    requires HasCall(p)
    ensures EvalArg(p, 12, 16, 26, 1) == Value("0")
  {
    OneItem(p, 12, 22, 23);
  }

  lemma CallLength(p: Program)
    requires HasLinks(p) && HasCall(p)
    ensures EvalArg(p, 12, 16, 26, 2) == Value("1")
  {
    OneItem(p, 12, 24, 26);
    ChainMeans(p, 0);
  }

  lemma ChainEval(p: Program)
    requires HasLinks(p) && HasCall(p) && Usual(p.lib)
    ensures EvalVar(p, 13, "x") == Value("a")
  {
    CallText(p);
    CallOffset(p);
    CallLength(p);
    assert "abc"[..1] == "a";
    assert EvalCall(p, 12, "substr", 16, 26) == Value("a");
    OneItem(p, 12, 9, 27);
    ByRange(p, 13, "x");
  }

  /** A file for which a fresh resolver answers "abc" for a variable whose value is "a":
      the length of a substr call was out of its reach, so it was ignored. */
  lemma LengthOutOfReach(lib: Library)
    requires Usual(lib)
    ensures var p := Chain(lib);
            && FromSource(p)
            && FoldVar(p, State(map[], {}, CONST_BUDGET, 0), "x").v == Some("abc")
            && VarMeans(p, "x", "a") && !VarMeans(p, "x", "abc")
  {
    var p := Chain(lib);
    ChainIsFromSource(lib);
    ChainHasLinks(lib);
    ChainHasCall(lib);
    ChainFold(p);
    ChainEval(p);
    if VarMeans(p, "x", "abc") {
      MeaningIsUnique(p, "x", "a", "abc");
    }
  }
}
