/** What the lexer promises about every source: the spans it reports, the bytes
    it keeps, and what a second run over a blanked copy sees. */
module PhpLexerLaws {
  import opened PhpLexer

  // ---------------------------------------------------------------------
  // Spans are in bounds, in order and disjoint
  // ---------------------------------------------------------------------

  ghost predicate Ordered(ts: seq<Token>, from: nat, n: nat) {
    ts == [] || (from <= ts[0].lo <= ts[0].hi <= n && Ordered(ts[1..], ts[0].hi, n))
  }

  lemma {:induction false} OrderedFrom(ts: seq<Token>, from: nat, from': nat, n: nat)
    requires Ordered(ts, from, n) && (ts != [] ==> from' <= ts[0].lo)
    ensures Ordered(ts, from', n)
  {
  }

  lemma {:induction false} RunIsOrdered(s: Source, i: nat, php: bool)
    ensures Ordered(Run(s, i, php), i, |s|)
    decreases |s| - i
  {
    if i < |s| {
      var t := Step(s, i, php);
      RunIsOrdered(s, t.next, t.php);
      OrderedFrom(Run(s, t.next, t.php), t.next, t.hi, |s|);
    }
  }

  ghost predicate SpansFit(spans: seq<Span>, from: nat, n: nat) {
    && (forall a :: 0 <= a < |spans| ==> from <= spans[a].start <= spans[a].end <= n)
    && (forall a, b :: 0 <= a < b < |spans| ==> spans[a].end <= spans[b].start)
  }

  ghost predicate Apart(x: Span, y: Span) {
    x.end <= y.start || y.end <= x.start
  }

  lemma SpansFitCons(head: seq<Span>, rest: seq<Span>, from: nat, mid: nat, n: nat)
    requires |head| <= 1 && from <= mid <= n && SpansFit(rest, mid, n)
    requires head != [] ==> from <= head[0].start <= head[0].end <= mid
    ensures SpansFit(head + rest, from, n)
  {
    forall a, b | 0 <= a < b < |head + rest|
      ensures (head + rest)[a].end <= (head + rest)[b].start
    {
      assert (head + rest)[b] == rest[b - |head|];
    }
  }

  ghost predicate AllApart(xs: seq<Span>, ys: seq<Span>) {
    forall a, b :: 0 <= a < |xs| && 0 <= b < |ys| ==> Apart(xs[a], ys[b])
  }

  // One of the two lists may get a span in front of everything.
  lemma AllApartCons(x: seq<Span>, xs: seq<Span>, y: seq<Span>, ys: seq<Span>, mid: nat, n: nat)
    requires AllApart(xs, ys) && SpansFit(xs, mid, n) && SpansFit(ys, mid, n)
    requires |x| + |y| <= 1 && (x != [] ==> x[0].end <= mid) && (y != [] ==> y[0].end <= mid)
    ensures AllApart(x + xs, y + ys)
  {
    forall a, b | 0 <= a < |x + xs| && 0 <= b < |y + ys| ensures Apart((x + xs)[a], (y + ys)[b]) {
      assert (x + xs)[a] == if a < |x| then x[0] else xs[a - |x|];
      assert (y + ys)[b] == if b < |y| then y[0] else ys[b - |y|];
    }
  }

  lemma {:induction false} OrderedSpans(ts: seq<Token>, from: nat, n: nat)
    requires Ordered(ts, from, n)
    ensures SpansFit(Strings(ts), from, n) && SpansFit(Comments(ts), from, n)
    ensures AllApart(Strings(ts), Comments(ts))
  {
    if ts != [] {
      var t, rest := ts[0], ts[1..];
      OrderedSpans(rest, t.hi, n);
      var x := if IsString(t.kind) then [Span(t.lo, t.hi)] else [];
      var y := if t.kind == Comment then [Span(t.lo, t.hi)] else [];
      SpansFitCons(x, Strings(rest), from, t.hi, n);
      SpansFitCons(y, Comments(rest), from, t.hi, n);
      AllApartCons(x, Strings(rest), y, Comments(rest), t.hi, n);
    }
  }

  /** For every source: string spans are in bounds, ordered and disjoint, so
      are comment spans, and no string overlaps a comment. */
  lemma SpansAreDisjoint(s: Source)
    ensures SpansFit(Strings(Lex(s)), 0, |s|) && SpansFit(Comments(Lex(s)), 0, |s|)
    ensures AllApart(Strings(Lex(s)), Comments(Lex(s)))
  {
    RunIsOrdered(s, 0, false);
    OrderedSpans(Lex(s), 0, |s|);
  }

  // ---------------------------------------------------------------------
  // Which bytes the code view keeps
  // ---------------------------------------------------------------------

  predicate InSpan(spans: seq<Span>, k: int) {
    exists a :: 0 <= a < |spans| && spans[a].start <= k < spans[a].end
  }

  // k lies in a run of bytes outside PHP that ends at the next open tag.
  ghost predicate OutsideTags(ts: seq<Token>, k: int) {
    exists a :: 0 <= a < |ts| && ts[a].kind == Markup && ts[a].lo <= k < ts[a].hi
  }

  lemma BlankedHead(ts: seq<Token>, k: int)
    requires ts != []
    ensures Blanked(ts, k) <==> ts[0].lo <= k < ts[0].hi || Blanked(ts[1..], k)
    ensures OutsideTags(ts, k) <==> (ts[0].kind == Markup && ts[0].lo <= k < ts[0].hi) || OutsideTags(ts[1..], k)
  {
    assert forall a :: 1 <= a < |ts| ==> ts[a] == ts[1..][a - 1];
  }

  lemma InSpanAppend(x: seq<Span>, y: seq<Span>, k: int)
    ensures InSpan(x + y, k) <==> InSpan(x, k) || InSpan(y, k)
  {
    assert forall a :: 0 <= a < |y| ==> (x + y)[|x| + a] == y[a];
    assert forall a :: 0 <= a < |x| ==> (x + y)[a] == x[a];
  }

  lemma {:induction false} BlankedIsSpanOrMarkup(s: Source, i: nat, php: bool, k: int)
    ensures var ts := Run(s, i, php);
            Blanked(ts, k) <==> InSpan(Strings(ts), k) || InSpan(Comments(ts), k) || OutsideTags(ts, k)
    decreases |s| - i
  {
    if i < |s| {
      var t := Step(s, i, php);
      var rest := Run(s, t.next, t.php);
      BlankedIsSpanOrMarkup(s, t.next, t.php, k);
      EmptyWhenCode(s, i, php);
      SplitHead(t, rest, k);
    }
  }

  lemma EmptyWhenCode(s: Source, i: nat, php: bool)
    requires i < |s|
    ensures Step(s, i, php).kind == Code ==> Step(s, i, php).lo == Step(s, i, php).hi
  {
  }

  lemma SplitHead(t: Token, rest: seq<Token>, k: int)
    requires t.kind == Code ==> t.lo == t.hi
    requires Blanked(rest, k) <==> InSpan(Strings(rest), k) || InSpan(Comments(rest), k) || OutsideTags(rest, k)
    ensures var ts := [t] + rest;
            Blanked(ts, k) <==> InSpan(Strings(ts), k) || InSpan(Comments(ts), k) || OutsideTags(ts, k)
  {
    var ts := [t] + rest;
    assert ts[1..] == rest;
    BlankedHead(ts, k);
    var one := [Span(t.lo, t.hi)];
    assert InSpan(one, k) <==> t.lo <= k < t.hi by { assert one[0] == Span(t.lo, t.hi); }
    InSpanAppend(if IsString(t.kind) then one else [], Strings(rest), k);
    InSpanAppend(if t.kind == Comment then one else [], Comments(rest), k);
  }

  /** The code view has the source's length; a byte outside PHP or inside a
      string or comment becomes a space unless it is a newline, and every other
      byte is the source's. */
  lemma CodeViewIsExact(s: Source, k: nat)
    requires k < |s|
    ensures |CodeView(s, Lex(s))| == |s|
    ensures CodeView(s, Lex(s))[k] ==
      if InSpan(Strings(Lex(s)), k) || InSpan(Comments(Lex(s)), k) || OutsideTags(Lex(s), k)
      then BlankChar(s[k]) else s[k]
  {
    BlankedIsSpanOrMarkup(s, 0, false, k);
  }

  // ---------------------------------------------------------------------
  // A copy in which some regions are blanked
  // ---------------------------------------------------------------------

  // The code view blanks every region; the comment-free buffer only comments.
  datatype Mode = WholeView | CommentsOnly

  predicate Erases(m: Mode, k: Kind) {
    m == WholeView || k == Comment
  }

  predicate Blankish(c: char) {
    c == ' ' || c == '\n' || c == '\r'
  }

  ghost predicate Gone(ts: seq<Token>, k: int, m: Mode) {
    exists a :: 0 <= a < |ts| && ts[a].lo <= k < ts[a].hi && Erases(m, ts[a].kind)
  }

  // From i on, s' is s with the erased regions blanked and newlines kept.
  ghost predicate Copy(s: Source, s': Source, i: nat, ts: seq<Token>, m: Mode) {
    && |s'| == |s|
    && forall k {:trigger s'[k]} :: i <= k < |s| ==>
         if Gone(ts, k, m) then Blankish(s'[k]) && (s'[k] == '\n' <==> s[k] == '\n') else s'[k] == s[k]
  }

  // What one token's turn can rely on, byte by byte.
  ghost predicate TurnFacts(s: Source, s': Source, i: nat, t: Token, m: Mode) {
    && |s'| == |s|
    && i <= t.lo <= t.hi <= |s| && t.hi <= t.next
    && (forall k {:trigger s'[k]} :: i <= k < |s| ==>
          s'[k] == s[k] || (Blankish(s'[k]) && (s'[k] == '\n' <==> s[k] == '\n')))
    && (forall k {:trigger s'[k]} :: i <= k < t.next && k < |s| && !(t.lo <= k < t.hi) ==> s'[k] == s[k])
    && (forall k {:trigger s'[k]} :: t.lo <= k < t.hi ==> if Erases(m, t.kind) then Blankish(s'[k]) else s'[k] == s[k])
  }

  lemma {:induction false} NoTokenBefore(ts: seq<Token>, from: nat, n: nat, k: int, m: Mode)
    requires Ordered(ts, from, n) && k < from
    ensures !Gone(ts, k, m)
  {
    if ts != [] {
      NoTokenBefore(ts[1..], ts[0].hi, n, k, m);
      assert forall a :: 1 <= a < |ts| ==> ts[a] == ts[1..][a - 1];
    }
  }

  lemma GoneHead(ts: seq<Token>, k: int, m: Mode)
    requires ts != []
    ensures Gone(ts, k, m) <==> (ts[0].lo <= k < ts[0].hi && Erases(m, ts[0].kind)) || Gone(ts[1..], k, m)
  {
    assert forall a :: 1 <= a < |ts| ==> ts[a] == ts[1..][a - 1];
  }

  lemma TurnOf(s: Source, s': Source, i: nat, php: bool, m: Mode)
    requires i < |s| && Copy(s, s', i, Run(s, i, php), m)
    ensures TurnFacts(s, s', i, Step(s, i, php), m)
    ensures var t := Step(s, i, php);
            Copy(s, s', t.next, Run(s, t.next, t.php), m)
  {
    var t := Step(s, i, php);
    var ts, rest := Run(s, i, php), Run(s, t.next, t.php);
    assert ts[1..] == rest;
    RunIsOrdered(s, t.next, t.php);
    forall k | i <= k < |s|
      ensures Gone(ts, k, m) <==> (t.lo <= k < t.hi && Erases(m, t.kind)) || Gone(rest, k, m)
      ensures k < t.next ==> !Gone(rest, k, m)
    {
      GoneHead(ts, k, m);
      if k < t.next { NoTokenBefore(rest, t.next, |s|, k, m); }
    }
  }

  // ---------------------------------------------------------------------
  // Each construct ends at the same place in the copy
  // ---------------------------------------------------------------------

  // A copied byte is the source's byte or layout that no construct looks for.
  ghost predicate SameOrBlank(s: Source, s': Source, i: nat) {
    && |s'| == |s|
    && forall k {:trigger s'[k]} :: i <= k < |s| ==>
         s'[k] == s[k] || (Blankish(s'[k]) && (s'[k] == '\n' <==> s[k] == '\n'))
  }

  ghost predicate Agree(s: Source, s': Source, i: nat, b: nat) {
    |s'| == |s| && forall k {:trigger s'[k]} :: i <= k < b && k < |s| ==> s'[k] == s[k]
  }

  lemma {:induction false} OpenSame(s: Source, s': Source, i: nat)
    requires i <= |s| && SameOrBlank(s, s', i)
    requires Agree(s, s', FindOpen(s, i), FindOpen(s, i) + 2)
    ensures FindOpen(s', i) == FindOpen(s, i)
    decreases |s| - i
  {
    if i < |s| && !OpenAt(s, i) {
      OpenSame(s, s', i + 1);
    }
  }

  lemma {:induction false} QuoteSame(s: Source, s': Source, i: nat, q: char)
    requires i <= |s| && Agree(s, s', i, QuoteEnd(s, i, q) + 1)
    ensures QuoteEnd(s', i, q) == QuoteEnd(s, i, q)
    decreases |s| - i
  {
    if i < |s| {
      if s[i] == '\\' && i + 1 < |s| {
        QuoteSame(s, s', i + 2, q);
      } else if s[i] != q {
        QuoteSame(s, s', i + 1, q);
      }
    }
  }

  lemma {:induction false} QuoteBlank(s': Source, i: nat, e: nat, q: char)
    requires i <= e <= |s'| && (forall k :: i <= k < e ==> Blankish(s'[k]))
    requires e < |s'| ==> s'[e] == q
    requires q == '\'' || q == '"'
    ensures QuoteEnd(s', i, q) == e
    decreases e - i
  {
    if i < e {
      QuoteBlank(s', i + 1, e, q);
    }
  }

  lemma {:induction false} ShellSame(s: Source, s': Source, i: nat)
    requires i <= |s| && SameOrBlank(s, s', i)
    requires ShellEnd(s, i) < |s| ==> s'[ShellEnd(s, i)] == '`'
    ensures ShellEnd(s', i) == ShellEnd(s, i)
    decreases |s| - i
  {
    if i < |s| && s[i] != '`' {
      ShellSame(s, s', i + 1);
    }
  }

  lemma {:induction false} BlanksSame(s: Source, s': Source, i: nat, b: nat)
    requires i <= |s| && Agree(s, s', i, b) && (SkipBlanks(s, i) < b || b >= |s|)
    ensures SkipBlanks(s', i) == SkipBlanks(s, i)
    decreases |s| - i
  {
    if i < |s| && (s[i] == ' ' || s[i] == '\t') {
      BlanksSame(s, s', i + 1, b);
    }
  }

  lemma {:induction false} IdentSame(s: Source, s': Source, i: nat, b: nat)
    requires i <= |s| && Agree(s, s', i, b) && (IdentEnd(s, i) < b || b >= |s|)
    ensures IdentEnd(s', i) == IdentEnd(s, i)
    decreases |s| - i
  {
    if i < |s| && IsIdent(s[i]) {
      IdentSame(s, s', i + 1, b);
    }
  }

  lemma {:induction false} LineBreakSame(s: Source, s': Source, i: nat)
    requires i <= |s| && SameOrBlank(s, s', i)
    ensures LineBreak(s', i) == LineBreak(s, i)
    decreases |s| - i
  {
    if i < |s| && s[i] != '\n' {
      LineBreakSame(s, s', i + 1);
    }
  }

  // The heredoc's first line, up to and including its line break, is code.
  lemma HeaderSame(s: Source, s': Source, i: nat)
    requires i <= |s| && SameOrBlank(s, s', i) && Agree(s, s', i, BodyStart(s, i) + 1)
    ensures BodyStart(s', i) == BodyStart(s, i) && Label(s', i) == Label(s, i)
  {
    LabelSame(s, s', i, BodyStart(s, i) + 1);
    LineBreakSame(s, s', AfterLabel(s, i));
  }

  lemma LabelStartSame(s: Source, s': Source, i: nat, b: nat)
    requires i <= |s| && Agree(s, s', i, b) && (LabelStart(s, i) < b || b >= |s|)
    ensures SkipBlanks(s', i) == SkipBlanks(s, i) && LabelStart(s', i) == LabelStart(s, i)
  {
    BlanksSame(s, s', i, b);
    var j := SkipBlanks(s, i);
    assert j < |s| ==> s'[j] == s[j];
  }

  lemma LabelSame(s: Source, s': Source, i: nat, b: nat)
    requires i <= |s| && Agree(s, s', i, b) && (AfterLabel(s, i) < b || b >= |s|)
    ensures LabelStart(s', i) == LabelStart(s, i) && Label(s', i) == Label(s, i)
    ensures AfterLabel(s', i) == AfterLabel(s, i)
  {
    LabelStartSame(s, s', i, b);
    var j, l := SkipBlanks(s, i), LabelStart(s, i);
    var e := IdentEnd(s, l);
    IdentSame(s, s', l, b);
    assert e < |s| ==> s'[e] == s[e];
    assert j < |s| ==> s'[j] == s[j];
    SliceSame(s, s', l, e);
  }

  lemma SliceSame(s: Source, s': Source, l: nat, e: nat)
    requires l <= e <= |s| == |s'| && forall k :: l <= k < e ==> s'[k] == s[k]
    ensures s'[l..e] == s[l..e]
  {
  }

  lemma {:induction false} IdentRunIsIdent(s: Source, i: nat, k: nat)
    requires i <= |s| && i <= k < IdentEnd(s, i)
    ensures IsIdent(s[k])
    decreases |s| - i
  {
    if i < k { IdentRunIsIdent(s, i + 1, k); }
  }

  ghost predicate AllIdent(name: Source) {
    forall k :: 0 <= k < |name| ==> IsIdent(name[k])
  }

  lemma LabelIsIdent(s: Source, i: nat)
    requires i <= |s|
    ensures AllIdent(Label(s, i))
  {
    var l := LabelStart(s, i);
    forall k | 0 <= k < |Label(s, i)|
      ensures IsIdent(Label(s, i)[k])
    {
      IdentRunIsIdent(s, l, l + k);
    }
  }

  // In a blanked body no label can be found before the body's end.
  lemma {:induction false} BlankBody(s': Source, i: nat, name: Source, lo: nat, hi: nat)
    requires lo <= i <= |s'| && hi <= |s'| && AllIdent(name)
    requires forall k :: lo <= k < hi ==> Blankish(s'[k])
    ensures HeredocEnd(s', i, name) == |s'| || (name != [] && hi + |name| <= HeredocEnd(s', i, name))
    decreases |s'| - i
  {
    var nl := LineBreak(s', i);
    if name != [] && nl < |s'| {
      if LabelLineAt(s', nl, name) {
        var j := SkipBlanks(s', nl + 1);
        assert s'[j + 0] == name[0];
      } else {
        BlankBody(s', nl + 1, name, lo, hi);
      }
    }
  }

  lemma {:induction false} BlanksBeforeBreak(s: Source, i: nat)
    requires i <= |s|
    ensures SkipBlanks(s, i) <= LineBreak(s, i)
    decreases |s| - i
  {
    if i < |s| && (s[i] == ' ' || s[i] == '\t') {
      BlanksBeforeBreak(s, i + 1);
    }
  }

  // A label found in the copy was there in the source: it lies before the next
  // line break, where nothing was blanked.
  lemma LabelLineBack(s: Source, s': Source, nl: nat, name: Source, hi: nat)
    requires nl < |s| && SameOrBlank(s, s', nl + 1) && AllIdent(name)
    requires LineBreak(s, nl + 1) < hi || hi == |s|
    requires Agree(s, s', nl + 1, hi)
    requires LabelLineAt(s', nl, name)
    ensures LabelLineAt(s, nl, name)
  {
    BlanksBeforeBreak(s, nl + 1);
    BlanksSame(s, s', nl + 1, hi);
    var j := SkipBlanks(s, nl + 1);
    NameBack(s, s', j, name);
    var x, n2 := j + |name|, LineBreak(s, nl + 1);
    forall k | j <= k < x
      ensures IsIdent(s[k])
    {
      assert s[j + (k - j)] == name[k - j];
    }
    if x < n2 {
      assert s'[x] == s[x];
    }
  }

  lemma NameBack(s: Source, s': Source, j: nat, name: Source)
    requires SameOrBlank(s, s', j) && AllIdent(name) && PrefixAt(s', j, name)
    ensures PrefixAt(s, j, name)
  {
    forall k | 0 <= k < |name|
      ensures s[j + k] == name[k]
    {
      assert s'[j + k] == name[k] && IsIdent(name[k]);
    }
  }

  lemma LabelLineForth(s: Source, s': Source, nl: nat, name: Source)
    requires nl < |s| && SameOrBlank(s, s', nl + 1) && name != []
    requires LabelLineAt(s, nl, name)
    requires Agree(s, s', nl + 1, SkipBlanks(s, nl + 1) + |name|)
    ensures LabelLineAt(s', nl, name) && SkipBlanks(s', nl + 1) == SkipBlanks(s, nl + 1)
  {
    var j := SkipBlanks(s, nl + 1);
    BlanksSame(s, s', nl + 1, j + |name|);
    forall k | 0 <= k < |name|
      ensures s'[j + k] == name[k]
    {
    }
  }

  lemma {:induction false} HeredocSame(s: Source, s': Source, i: nat, name: Source)
    requires i <= |s| && SameOrBlank(s, s', i) && AllIdent(name)
    requires Agree(s, s', i, HeredocEnd(s, i, name))
    ensures HeredocEnd(s', i, name) == HeredocEnd(s, i, name)
    decreases |s| - i
  {
    var nl := LineBreak(s, i);
    LineBreakSame(s, s', i);
    if name != [] && nl < |s| {
      if LabelLineAt(s, nl, name) {
        LabelLineForth(s, s', nl, name);
      } else {
        if LabelLineAt(s', nl, name) {
          LabelLineBack(s, s', nl, name, HeredocEnd(s, nl + 1, name));
        }
        HeredocSame(s, s', nl + 1, name);
      }
    }
  }

  // ---------------------------------------------------------------------
  // The same token is read from the copy, or its blanks are stepped over
  // ---------------------------------------------------------------------

  lemma MarkupSame(s: Source, s': Source, i: nat, m: Mode)
    requires i < |s| && TurnFacts(s, s', i, Step(s, i, false), m)
    ensures Step(s', i, false) == Step(s, i, false)
  {
    var n := FindOpen(s, i);
    assert TagLength(s, n) >= 2;
    OpenSame(s, s', i);
    assert n < |s| ==> TagLength(s', n) == TagLength(s, n);
  }

  lemma StringSame(s: Source, s': Source, i: nat, m: Mode)
    requires i < |s| && TurnFacts(s, s', i, Step(s, i, true), m)
    requires Step(s, i, true).kind == Str
    ensures Step(s', i, true) == Step(s, i, true)
  {
    var t := Step(s, i, true);
    assert s'[i] == s[i];
    if m == WholeView {
      QuoteBlank(s', i + 1, t.hi, s[i]);
    } else {
      QuoteSame(s, s', i + 1, s[i]);
    }
  }

  lemma ShellStepSame(s: Source, s': Source, i: nat, m: Mode)
    requires i < |s| && TurnFacts(s, s', i, Step(s, i, true), m)
    requires Step(s, i, true).kind == Shell
    ensures Step(s', i, true) == Step(s, i, true)
  {
    assert s'[i] == s[i];
    ShellSame(s, s', i + 1);
  }

  // The header of a heredoc is code, so its body starts where it did.
  lemma HeredocHead(s: Source, s': Source, i: nat, m: Mode)
    requires i < |s| && TurnFacts(s, s', i, Step(s, i, true), m)
    requires Step(s, i, true).kind == Heredoc
    ensures i + 3 <= |s| && HeredocAt(s', i) && s'[i] == '<'
    ensures BodyStart(s', i + 3) == Step(s, i, true).lo && Label(s', i + 3) == Label(s, i + 3)
  {
    HeaderSame(s, s', i + 3);
  }

  lemma HeredocStep(s: Source, i: nat)
    requires i + 3 <= |s| && HeredocAt(s, i)
    ensures var e := HeredocEnd(s, BodyStart(s, i + 3), Label(s, i + 3));
            Step(s, i, true) == Token(Heredoc, BodyStart(s, i + 3), e, e, true)
  {
  }

  lemma HeredocStepSame(s: Source, s': Source, i: nat, m: Mode)
    requires i < |s| && TurnFacts(s, s', i, Step(s, i, true), m)
    requires Step(s, i, true).kind == Heredoc
    requires m == WholeView ==> Step(s, i, true).hi == |s|
    ensures Step(s', i, true) == Step(s, i, true)
  {
    HeredocHead(s, s', i, m);
    HeredocStep(s', i);
    HeredocEndSame(s, s', i, m);
  }

  lemma HeredocEndSame(s: Source, s': Source, i: nat, m: Mode)
    requires i < |s| && TurnFacts(s, s', i, Step(s, i, true), m)
    requires Step(s, i, true).kind == Heredoc
    requires m == WholeView ==> Step(s, i, true).hi == |s|
    ensures var t := Step(s, i, true);
            t.lo <= |s'| && HeredocEnd(s', t.lo, Label(s, i + 3)) == t.hi
  {
    var t, name := Step(s, i, true), Label(s, i + 3);
    LabelIsIdent(s, i + 3);
    if m == WholeView {
      BlankBody(s', t.lo, name, t.lo, t.hi);
    } else {
      HeredocSame(s, s', t.lo, name);
    }
  }

  // A byte that begins no construct still begins none in the copy.
  lemma PlainStays(s: Source, s': Source, i: nat)
    requires i < |s| && SameOrBlank(s, s', i) && s'[i] == s[i]
    requires Step(s, i, true).kind == Code
    requires CloseAt(s, i) || (s[i] == '#' && At(s, i + 1, '[')) ==> s'[i + 1] == s[i + 1]
    ensures Step(s', i, true) == Step(s, i, true)
  {
  }

  // In '#[' both bytes are code.
  lemma PlainSame(s: Source, s': Source, i: nat, m: Mode)
    requires i < |s| && Copy(s, s', i, Run(s, i, true), m)
    requires Step(s, i, true).kind == Code
    ensures Step(s', i, true) == Step(s, i, true)
  {
    TurnOf(s, s', i, true, m);
    if s[i] == '#' && At(s, i + 1, '[') {
      NextIsCode(s, s', i, m);
    }
    PlainStays(s, s', i);
  }

  lemma NextIsCode(s: Source, s': Source, i: nat, m: Mode)
    requires i < |s| && s[i] == '#' && At(s, i + 1, '[') && |s'| == |s|
    requires Copy(s, s', Step(s, i, true).next, Run(s, Step(s, i, true).next, Step(s, i, true).php), m)
    ensures s'[i + 1] == '['
  {
    assert Step(s, i, true) == Token(Code, i, i, i + 1, true);
    assert Step(s, i + 1, true) == Token(Code, i + 1, i + 1, i + 2, true);
    TurnOf(s, s', i + 1, true, m);
  }

  lemma TokenSame(s: Source, s': Source, i: nat, php: bool, m: Mode)
    requires i < |s| && Copy(s, s', i, Run(s, i, php), m)
    requires Step(s, i, php).kind != Comment
    requires m == WholeView && Step(s, i, php).kind == Heredoc ==> Step(s, i, php).hi == |s|
    ensures Step(s', i, php) == Step(s, i, php)
  {
    TurnOf(s, s', i, php, m);
    if !php {
      MarkupSame(s, s', i, m);
    } else {
      match Step(s, i, php).kind
      case Str => StringSame(s, s', i, m);
      case Shell => ShellStepSame(s, s', i, m);
      case Heredoc => HeredocStepSame(s, s', i, m);
      case _ => PlainSame(s, s', i, m);
    }
  }

  // Layout inside PHP is read one plain byte at a time.
  lemma {:induction false} BlanksAreSkipped(s': Source, i: nat, e: nat)
    requires i <= e <= |s'| && forall k :: i <= k < e ==> Blankish(s'[k])
    ensures Strings(Run(s', i, true)) == Strings(Run(s', e, true))
    ensures Comments(Run(s', i, true)) == Comments(Run(s', e, true))
    ensures Count(Run(s', i, true), Shell) == Count(Run(s', e, true), Shell)
    ensures forall k :: Blanked(Run(s', i, true), k) ==> Blanked(Run(s', e, true), k)
    decreases e - i
  {
    if i < e {
      assert Step(s', i, true) == Token(Code, i, i, i + 1, true);
      BlanksAreSkipped(s', i + 1, e);
      var ts := Run(s', i, true);
      assert ts[1..] == Run(s', i + 1, true);
      forall k | Blanked(ts, k)
        ensures Blanked(Run(s', e, true), k)
      {
        BlankedHead(ts, k);
      }
    }
  }

  // ---------------------------------------------------------------------
  // Two runs side by side
  // ---------------------------------------------------------------------

  function TokenStrings(t: Token): seq<Span> {
    if IsString(t.kind) then [Span(t.lo, t.hi)] else []
  }

  function TokenCount(t: Token, k: Kind): nat {
    if t.kind == k then 1 else 0
  }

  // us is what is left to read, rest what is left after token t.
  ghost predicate Took(t: Token, us: seq<Token>, rest: seq<Token>) {
    && Strings(us) == TokenStrings(t) + Strings(rest)
    && Count(us, Shell) == TokenCount(t, Shell) + Count(rest, Shell)
    && forall k :: Blanked(us, k) ==> t.lo <= k < t.hi || Blanked(rest, k)
  }

  lemma ListHead(t: Token, rest: seq<Token>)
    ensures Took(t, [t] + rest, rest)
    ensures t.kind != Comment ==> Comments([t] + rest) == Comments(rest)
    ensures forall k :: Blanked([t] + rest, k) <==> t.lo <= k < t.hi || Blanked(rest, k)
  {
    var us := [t] + rest;
    assert us[1..] == rest && us[0] == t;
    forall k
      ensures Blanked(us, k) <==> t.lo <= k < t.hi || Blanked(rest, k)
    {
      BlankedHead(us, k);
    }
  }

  lemma RunHead(s: Source, i: nat, php: bool)
    requires i < |s|
    ensures Run(s, i, php) == [Step(s, i, php)] + Run(s, Step(s, i, php).next, Step(s, i, php).php)
  {
  }

  lemma CommentIsWhole(s: Source, i: nat, php: bool)
    requires i < |s| && Step(s, i, php).kind == Comment
    ensures php && Step(s, i, php) == Token(Comment, i, Step(s, i, php).next, Step(s, i, php).next, true)
  {
  }

  // Past one token of the source, the copy's run has produced the same strings.
  lemma Follow(s: Source, s': Source, i: nat, php: bool, m: Mode)
    requires i < |s| && Copy(s, s', i, Run(s, i, php), m)
    requires m == WholeView && Step(s, i, php).kind == Heredoc ==> Step(s, i, php).hi == |s|
    ensures var t := Step(s, i, php);
            && Took(t, Run(s', i, php), Run(s', t.next, t.php))
            && Comments(Run(s', i, php)) == Comments(Run(s', t.next, t.php))
  {
    var t := Step(s, i, php);
    if t.kind == Comment {
      CommentIsWhole(s, i, php);
      TurnOf(s, s', i, php, m);
      BlanksAreSkipped(s', i, t.next);
    } else {
      TokenSame(s, s', i, php, m);
      RunHead(s', i, php);
      ListHead(t, Run(s', t.next, t.php));
    }
  }

  // Every heredoc reaches the end of the source: it has no label, or its
  // closing label is missing.
  ghost predicate HeredocsRunOut(ts: seq<Token>, n: nat) {
    forall a :: 0 <= a < |ts| && ts[a].kind == Heredoc ==> ts[a].hi == n
  }

  lemma RunOutTail(s: Source, i: nat, php: bool)
    requires i < |s|
    ensures var t := Step(s, i, php);
            HeredocsRunOut(Run(s, i, php), |s|)
            <==> (t.kind == Heredoc ==> t.hi == |s|) && HeredocsRunOut(Run(s, t.next, t.php), |s|)
  {
    var t := Step(s, i, php);
    var ts, rest := Run(s, i, php), Run(s, t.next, t.php);
    assert ts == [t] + rest;
    assert forall a :: 0 <= a < |rest| ==> ts[a + 1] == rest[a];
    assert ts[0] == t;
  }

  lemma {:induction false} SameRun(s: Source, s': Source, i: nat, php: bool, m: Mode)
    requires Copy(s, s', i, Run(s, i, php), m)
    requires m == WholeView ==> HeredocsRunOut(Run(s, i, php), |s|)
    ensures var ts, us := Run(s, i, php), Run(s', i, php);
            && Strings(us) == Strings(ts) && Comments(us) == [] && Count(us, Shell) == Count(ts, Shell)
            && forall k :: Blanked(us, k) ==> Blanked(ts, k)
    decreases |s| - i
  {
    if i < |s| {
      var t := Step(s, i, php);
      RunOutTail(s, i, php);
      TurnOf(s, s', i, php, m);
      Follow(s, s', i, php, m);
      SameRun(s, s', t.next, t.php, m);
      RunHead(s, i, php);
      ListHead(t, Run(s, t.next, t.php));
    }
  }

  lemma BlankBodyGrows(s': Source, lo: nat, hi: nat, name: Source)
    requires lo <= hi < |s'| && AllIdent(name) && forall k :: lo <= k < hi ==> Blankish(s'[k])
    ensures HeredocEnd(s', lo, name) > hi
  {
    BlankBody(s', lo, name, lo, hi);
  }

  // A heredoc with a closing label swallows more of the code view than of the source.
  lemma HeredocGrows(s: Source, s': Source, i: nat)
    requires i < |s| && Copy(s, s', i, Run(s, i, true), WholeView)
    requires Step(s, i, true).kind == Heredoc && Step(s, i, true).hi < |s|
    ensures Step(s', i, true).kind == Heredoc && Step(s', i, true).hi > Step(s, i, true).hi
  {
    var t := Step(s, i, true);
    TurnOf(s, s', i, true, WholeView);
    HeredocHead(s, s', i, WholeView);
    LabelIsIdent(s, i + 3);
    HeredocStep(s', i);
    BlankBodyGrows(s', t.lo, t.hi, Label(s, i + 3));
  }

  lemma {:induction false} DifferentRun(s: Source, s': Source, i: nat, php: bool)
    requires Copy(s, s', i, Run(s, i, php), WholeView)
    requires !HeredocsRunOut(Run(s, i, php), |s|)
    ensures Strings(Run(s', i, php)) != Strings(Run(s, i, php))
    decreases |s| - i
  {
    var t := Step(s, i, php);
    RunOutTail(s, i, php);
    if t.kind == Heredoc && t.hi < |s| {
      HeredocGrows(s, s', i);
      assert Strings(Run(s, i, php))[0] == Span(t.lo, t.hi);
    } else {
      TurnOf(s, s', i, php, WholeView);
      Follow(s, s', i, php, WholeView);
      DifferentRun(s, s', t.next, t.php);
      SameHead(TokenStrings(t), Strings(Run(s', t.next, t.php)), Strings(Run(s, t.next, t.php)));
      RunHead(s, i, php);
      ListHead(t, Run(s, t.next, t.php));
    }
  }

  lemma SameHead(x: seq<Span>, y: seq<Span>, z: seq<Span>)
    ensures x + y == x + z ==> y == z
  {
    if x + y == x + z {
      assert y == (x + y)[|x|..] && z == (x + z)[|x|..];
    }
  }

  lemma CodeViewIsCopy(s: Source)
    ensures Copy(s, CodeView(s, Lex(s)), 0, Lex(s), WholeView)
  {
  }

  /** Lexing the code view again gives the same view, the same strings and the
      same backtick flag exactly when every heredoc runs to the end of the source. */
  lemma RelexIsFixedPoint(s: Source)
    ensures var code := CodeView(s, Lex(s));
            (Strings(Lex(code)) == Strings(Lex(s)) && CodeView(code, Lex(code)) == code
              && (Count(Lex(code), Shell) > 0 <==> Count(Lex(s), Shell) > 0))
            <==> HeredocsRunOut(Lex(s), |s|)
  {
    var code := CodeView(s, Lex(s));
    CodeViewIsCopy(s);
    if HeredocsRunOut(Lex(s), |s|) {
      SameRun(s, code, 0, false, WholeView);
    } else {
      DifferentRun(s, code, 0, false);
    }
  }

  lemma RunOutWithoutHeredoc(ts: seq<Token>, n: nat)
    requires Count(ts, Heredoc) == 0
    ensures HeredocsRunOut(ts, n)
  {
    if ts != [] {
      RunOutWithoutHeredoc(ts[1..], n);
      assert forall a :: 1 <= a < |ts| ==> ts[a] == ts[1..][a - 1];
    }
  }

  // ---------------------------------------------------------------------
  // The comment-free buffer
  // ---------------------------------------------------------------------

  function StripChar(c: char): char {
    if c == '\n' || c == '\r' then c else ' '
  }

  function Stripped(s: Source, comments: seq<Span>): (r: Source)
    ensures |r| == |s|
    ensures forall k :: 0 <= k < |s| ==> r[k] == if InSpan(comments, k) then StripChar(s[k]) else s[k]
  {
    seq(|s|, k requires 0 <= k < |s| => if InSpan(comments, k) then StripChar(s[k]) else s[k])
  }

  method WithoutComments(src: Source, comments: seq<Span>, reuse: array<char>) returns (r: Source)
    requires SpansFit(comments, 0, |src|)
    modifies reuse
    ensures r == Stripped(src, comments)
  {
    if |comments| == 0 {
      assert Stripped(src, comments) == src;
      return src;
    }
    var buf := Load(src, reuse);
    assert Stripped(src, []) == src;
    assert comments[..0] == [];
    for a := 0 to |comments|
      invariant |src| <= buf.Length && buf[..|src|] == Stripped(src, comments[..a])
    {
      ghost var before := buf[..|src|];
      StripOne(buf, comments[a]);
      StripOneMore(src, comments, a, before, buf[..|src|]);
    }
    assert comments[..|comments|] == comments;
    return buf[..|src|];
  }

  method StripOne(buf: array<char>, c: Span)
    requires c.start <= c.end <= buf.Length
    modifies buf
    ensures forall k :: 0 <= k < buf.Length ==>
      buf[k] == if c.start <= k < c.end then StripChar(old(buf[k])) else old(buf[k])
  {
    for i := c.start to c.end
      invariant forall k :: 0 <= k < buf.Length ==>
        buf[k] == if c.start <= k < i then StripChar(old(buf[k])) else old(buf[k])
    {
      if buf[i] != '\n' && buf[i] != '\r' {
        buf[i] := ' ';
      }
    }
  }

  lemma StripOneMore(src: Source, comments: seq<Span>, a: nat, before: Source, after: Source)
    requires a < |comments| && before == Stripped(src, comments[..a]) && |after| == |src|
    requires forall k :: 0 <= k < |src| ==>
      after[k] == if comments[a].start <= k < comments[a].end then StripChar(before[k]) else before[k]
    ensures after == Stripped(src, comments[..a + 1])
  {
    forall k | 0 <= k < |src|
      ensures InSpan(comments[..a + 1], k) <==> InSpan(comments[..a], k) || comments[a].start <= k < comments[a].end
    {
      assert comments[..a + 1][a] == comments[a];
      assert forall b :: 0 <= b < a ==> comments[..a + 1][b] == comments[..a][b];
    }
  }

  lemma {:induction false} CommentBytes(ts: seq<Token>, k: int)
    ensures InSpan(Comments(ts), k) <==> Gone(ts, k, CommentsOnly)
  {
    if ts != [] {
      CommentBytes(ts[1..], k);
      GoneHead(ts, k, CommentsOnly);
      var t := ts[0];
      var one := if t.kind == Comment then [Span(t.lo, t.hi)] else [];
      var all := one + Comments(ts[1..]);
      assert forall a :: 0 <= a < |Comments(ts[1..])| ==> all[|one| + a] == Comments(ts[1..])[a];
      assert t.kind == Comment ==> all[0] == Span(t.lo, t.hi);
    }
  }

  /** Blanking the comments changes no string span and no backtick, leaves every
      heredoc ending where it did, and leaves no comment behind. */
  lemma StrippingKeepsStrings(s: Source)
    ensures var bare := Stripped(s, Comments(Lex(s)));
            && Strings(Lex(bare)) == Strings(Lex(s))
            && Comments(Lex(bare)) == []
            && Count(Lex(bare), Shell) == Count(Lex(s), Shell)
  {
    var bare := Stripped(s, Comments(Lex(s)));
    forall k | 0 <= k < |s|
      ensures InSpan(Comments(Lex(s)), k) <==> Gone(Lex(s), k, CommentsOnly)
    {
      CommentBytes(Lex(s), k);
    }
    SameRun(s, bare, 0, false, CommentsOnly);
  }
}
