/** What each turn of the lexer's loop recognises, in terms of the bytes alone: how a
    construct begins, and the first place where it ends. */
module PhpTokens {
  import opened Common
  import opened PhpLexer

  // ---------------------------------------------------------------------
  // Places
  // ---------------------------------------------------------------------

  // These two bytes stand at k.
  predicate Pair(s: Source, k: int, a: char, b: char) {
    0 <= k && k + 1 < |s| && s[k] == a && s[k + 1] == b
  }

  predicate WordByte(c: char) {
    c == '_' || '0' <= c <= '9' || 'a' <= c <= 'z' || 'A' <= c <= 'Z'
  }

  // e is the first place from i on with a byte c, or the end.
  ghost predicate FirstByte(s: Source, i: nat, c: char, e: nat) {
    i <= e <= |s| && (forall k :: i <= k < e ==> s[k] != c) && (e < |s| ==> s[e] == c)
  }

  // e is the first place from i on with that pair, or the end.
  ghost predicate FirstPair(s: Source, i: nat, a: char, b: char, e: nat) {
    i <= e <= |s| && (forall k :: i <= k < e ==> !Pair(s, k, a, b)) && (e < |s| ==> Pair(s, e, a, b))
  }

  // Backslashes straight before k, back to lo.
  function Backslashes(s: Source, lo: nat, k: nat): nat
    requires lo <= k <= |s|
  {
    if lo < k && s[k - 1] == '\\' then 1 + Backslashes(s, lo, k - 1) else 0
  }

  // An even run of backslashes hides nothing.
  predicate Bare(s: Source, lo: nat, k: nat)
    requires lo <= k <= |s|
  {
    Backslashes(s, lo, k) % 2 == 0
  }

  // e is the first place from lo on with a quote that no backslash hides, or the end.
  ghost predicate FirstQuote(s: Source, lo: nat, q: char, e: nat) {
    && lo <= e <= |s|
    && (forall k :: lo <= k < e && s[k] == q ==> !Bare(s, lo, k))
    && (e < |s| ==> s[e] == q && Bare(s, lo, e))
  }

  // e is the first place from i on with a line end or a closing tag, or the end.
  ghost predicate FirstLineEnd(s: Source, i: nat, e: nat) {
    && i <= e <= |s|
    && (forall k :: i <= k < e ==> s[k] != '\n' && !Pair(s, k, '?', '>'))
    && (e < |s| ==> s[e] == '\n' || Pair(s, e, '?', '>'))
  }

  // hi is behind the first end of a block comment from i on, or the end.
  ghost predicate BlockEnd(s: Source, i: nat, hi: nat) {
    exists e: nat :: FirstPair(s, i, '*', '/', e) && hi == if e < |s| then e + 2 else |s|
  }

  // Blanks from i to j, and no more.
  ghost predicate Blanks(s: Source, i: nat, j: nat) {
    && i <= j <= |s| && (forall k :: i <= k < j ==> s[k] == ' ' || s[k] == '\t')
    && (j < |s| ==> s[j] != ' ' && s[j] != '\t')
  }

  // Word bytes from i to j, and no more.
  ghost predicate WordBytes(s: Source, i: nat, j: nat) {
    i <= j <= |s| && (forall k :: i <= k < j ==> WordByte(s[k])) && (j < |s| ==> !WordByte(s[j]))
  }

  // ---------------------------------------------------------------------
  // Heredocs
  // ---------------------------------------------------------------------

  predicate QuoteAt(s: Source, j: nat) {
    j < |s| && (s[j] == '\'' || s[j] == '"')
  }

  // Behind the three signs at i - 3 stand blanks, a quote perhaps, the label from a to e,
  // the same quote perhaps, and whatever else up to the end of the line, at lo.
  ghost predicate Header(s: Source, i: nat, a: nat, e: nat, lo: nat) {
    && a <= e <= |s|
    && exists j: nat :: Blanks(s, i, j) && a == (if QuoteAt(s, j) then j + 1 else j) && WordBytes(s, a, e)
         && FirstByte(s, if QuoteAt(s, j) && e < |s| && s[e] == s[j] then e + 1 else e, '\n', lo)
  }

  // The line behind the line end at n begins, behind blanks, with the label, which ends at hi.
  ghost predicate LabelLine(s: Source, n: nat, name: Source, hi: nat) {
    && n < |s| && s[n] == '\n' && hi <= |s|
    && (exists m: nat :: Blanks(s, n + 1, m) && m <= hi && s[m..hi] == name)
    && (hi < |s| ==> !WordByte(s[hi]))
  }

  // Some line from lo to n does.
  ghost predicate LabelLineBefore(s: Source, lo: nat, n: nat, name: Source) {
    exists k: nat, hi :: lo <= k < n && LabelLine(s, k, name, hi)
  }

  // The body from lo ends behind the first line's label, or goes on to the end.
  ghost predicate BodyEnd(s: Source, lo: nat, name: Source, hi: nat) {
    if name == [] then hi == |s|
    else
      || (exists n: nat :: lo <= n && LabelLine(s, n, name, hi) && !LabelLineBefore(s, lo, n, name))
      || (hi == |s| && !LabelLineBefore(s, lo, |s|, name))
  }

  // A heredoc's body, behind a header that begins at i.
  ghost predicate Body(s: Source, i: nat, lo: nat, hi: nat) {
    exists a: nat, e: nat :: Header(s, i, a, e, lo) && BodyEnd(s, lo, s[a..e], hi)
  }

  // ---------------------------------------------------------------------
  // A turn
  // ---------------------------------------------------------------------

  function OpenTagLength(s: Source, n: nat): nat {
    if n + 4 < |s| && s[n + 2] == 'p' && s[n + 3] == 'h' && s[n + 4] == 'p' then 5
    else if n + 2 < |s| && s[n + 2] == '=' then 3
    else 2
  }

  ghost predicate IsTurn(s: Source, i: nat, php: bool, t: Token)
    requires i < |s|
  {
    var c := s[i];
    if !php then
      && t.kind == Markup && t.lo == i && FirstPair(s, i, '<', '?', t.hi)
      && t.php == (t.hi < |s|) && t.next == if t.hi < |s| then t.hi + OpenTagLength(s, t.hi) else |s|
    else if Pair(s, i, '?', '>') then t == Token(Code, i, i, i + 2, false)
    else if Pair(s, i, '/', '/') || (c == '#' && !Pair(s, i, '#', '[')) then
      t.kind == Comment && t.lo == i && t.next == t.hi && t.php && FirstLineEnd(s, i + 1, t.hi)
    else if Pair(s, i, '/', '*') then
      t.kind == Comment && t.lo == i && t.next == t.hi && t.php && BlockEnd(s, i + 2, t.hi)
    else if c == '\'' || c == '"' then
      t.kind == Str && t.lo == i + 1 && t.next == t.hi + 1 && t.php && FirstQuote(s, i + 1, c, t.hi)
    else if c == '`' then
      t.kind == Shell && t.lo == i + 1 && t.next == t.hi + 1 && t.php && FirstByte(s, i + 1, '`', t.hi)
    else if Pair(s, i, '<', '<') && Pair(s, i + 1, '<', '<') then
      t.kind == Heredoc && t.next == t.hi && t.php && Body(s, i + 3, t.lo, t.hi)
    else t == Token(Code, i, i, i + 1, true)
  }

  // ---------------------------------------------------------------------
  // The ends
  // ---------------------------------------------------------------------

  lemma {:induction false} OpenIsFirst(s: Source, i: nat)
    requires i <= |s|
    ensures FirstPair(s, i, '<', '?', FindOpen(s, i))
    decreases |s| - i
  {
    if i < |s| && !OpenAt(s, i) { OpenIsFirst(s, i + 1); }
  }

  lemma {:induction false} LineEndIsFirst(s: Source, i: nat)
    requires i <= |s|
    ensures FirstLineEnd(s, i, LineCommentEnd(s, i))
    decreases |s| - i
  {
    if i < |s| && s[i] != '\n' && !CloseAt(s, i) { LineEndIsFirst(s, i + 1); }
  }

  lemma {:induction false} BlockEndIsFirst(s: Source, i: nat) returns (e: nat)
    requires i <= |s|
    ensures FirstPair(s, i, '*', '/', e) && BlockCommentEnd(s, i) == if e < |s| then e + 2 else |s|
    decreases |s| - i
  {
    if i + 1 >= |s| {
      e := |s|;
    } else if s[i] == '*' && s[i + 1] == '/' {
      e := i;
    } else {
      e := BlockEndIsFirst(s, i + 1);
    }
  }

  lemma {:induction false} ShellEndIsFirst(s: Source, i: nat)
    requires i <= |s|
    ensures FirstByte(s, i, '`', ShellEnd(s, i))
    decreases |s| - i
  {
    if i < |s| && s[i] != '`' { ShellEndIsFirst(s, i + 1); }
  }

  /** A string ends at the first quote of its kind that no backslash hides. */
  lemma {:induction false} QuoteEndIsFirst(s: Source, lo: nat, i: nat, q: char)
    requires lo <= i <= |s| && q != '\\' && Bare(s, lo, i)
    requires forall k :: lo <= k < i && s[k] == q ==> !Bare(s, lo, k)
    ensures FirstQuote(s, lo, q, QuoteEnd(s, i, q))
    decreases |s| - i
  {
    if i < |s| {
      if s[i] == '\\' && i + 1 < |s| {
        assert !Bare(s, lo, i + 1);
        QuoteEndIsFirst(s, lo, i + 2, q);
      } else if s[i] != q {
        if s[i] == '\\' {
          assert QuoteEnd(s, i + 1, q) == |s|;
        } else {
          QuoteEndIsFirst(s, lo, i + 1, q);
        }
      }
    }
  }

  lemma {:induction false} BlanksStop(s: Source, i: nat)
    requires i <= |s|
    ensures Blanks(s, i, SkipBlanks(s, i))
    decreases |s| - i
  {
    if i < |s| && (s[i] == ' ' || s[i] == '\t') { BlanksStop(s, i + 1); }
  }

  lemma {:induction false} WordStops(s: Source, i: nat)
    requires i <= |s|
    ensures WordBytes(s, i, IdentEnd(s, i))
    decreases |s| - i
  {
    if i < |s| && IsIdent(s[i]) { WordStops(s, i + 1); }
  }

  lemma {:induction false} LineBreakIsFirst(s: Source, i: nat)
    requires i <= |s|
    ensures FirstByte(s, i, '\n', LineBreak(s, i))
    decreases |s| - i
  {
    if i < |s| && s[i] != '\n' { LineBreakIsFirst(s, i + 1); }
  }

  lemma HeaderIsRead(s: Source, i: nat)
    requires i <= |s|
    ensures Header(s, i, LabelStart(s, i), IdentEnd(s, LabelStart(s, i)), BodyStart(s, i))
  {
    var j := SkipBlanks(s, i);
    BlanksStop(s, i);
    WordStops(s, LabelStart(s, i));
    LineBreakIsFirst(s, AfterLabel(s, i));
    assert Blanks(s, i, j);
  }

  lemma BlanksAreUnique(s: Source, i: nat, j: nat, k: nat)
    requires Blanks(s, i, j) && Blanks(s, i, k)
    ensures j == k
  {
  }

  lemma LabelLineIsRead(s: Source, n: nat, name: Source, hi: nat)
    requires n < |s| && s[n] == '\n'
    ensures LabelLine(s, n, name, hi) <==> LabelLineAt(s, n, name) && hi == SkipBlanks(s, n + 1) + |name|
  {
    var j := SkipBlanks(s, n + 1);
    BlanksStop(s, n + 1);
    if LabelLine(s, n, name, hi) {
      var m: nat :| Blanks(s, n + 1, m) && m <= hi && s[m..hi] == name;
      BlanksAreUnique(s, n + 1, j, m);
      forall k | 0 <= k < |name| ensures s[j + k] == name[k] {
        assert s[m..hi][k] == name[k];
      }
    }
    if LabelLineAt(s, n, name) && hi == j + |name| {
      assert s[j..hi] == name;
    }
  }

  lemma {:induction false} BodyEndIsRead(s: Source, lo: nat, i: nat, name: Source)
    requires lo <= i <= |s| && name != [] && !LabelLineBefore(s, lo, i, name)
    ensures BodyEnd(s, lo, name, HeredocEnd(s, i, name))
    decreases |s| - i
  {
    var nl := LineBreak(s, i);
    LineBreakIsFirst(s, i);
    if nl == |s| {
      assert !LabelLineBefore(s, lo, |s|, name);
    } else {
      assert !LabelLineBefore(s, lo, nl, name);
      var hi := SkipBlanks(s, nl + 1) + |name|;
      LabelLineIsRead(s, nl, name, hi);
      if LabelLineAt(s, nl, name) {
        assert lo <= nl && LabelLine(s, nl, name, hi);
      } else {
        forall h | LabelLine(s, nl, name, h) ensures false {
          LabelLineIsRead(s, nl, name, h);
        }
        BodyEndIsRead(s, lo, nl + 1, name);
      }
    }
  }

  lemma HeredocIsRead(s: Source, i: nat)
    requires i <= |s|
    ensures Body(s, i, BodyStart(s, i), HeredocEnd(s, BodyStart(s, i), Label(s, i)))
  {
    var a, lo := LabelStart(s, i), BodyStart(s, i);
    HeaderIsRead(s, i);
    if Label(s, i) != [] { BodyEndIsRead(s, lo, lo, Label(s, i)); }
    assert Header(s, i, a, IdentEnd(s, a), lo) && BodyEnd(s, lo, s[a..IdentEnd(s, a)], HeredocEnd(s, lo, Label(s, i)));
  }

  lemma BlockIsRead(s: Source, i: nat)
    requires i <= |s|
    ensures BlockEnd(s, i, BlockCommentEnd(s, i))
  {
    var e := BlockEndIsFirst(s, i);
  }

  lemma QuoteIsATurn(s: Source, i: nat)
    requires i < |s| && !CloseAt(s, i) && !LineCommentAt(s, i) && !BlockCommentAt(s, i)
    requires s[i] == '\'' || s[i] == '"'
    ensures IsTurn(s, i, true, Step(s, i, true))
  {
    QuoteEndIsFirst(s, i + 1, i + 1, s[i]);
  }

  lemma HeredocIsATurn(s: Source, i: nat)
    requires i < |s| && !CloseAt(s, i) && !LineCommentAt(s, i) && !BlockCommentAt(s, i)
    requires s[i] != '\'' && s[i] != '"' && s[i] != '`' && HeredocAt(s, i)
    ensures IsTurn(s, i, true, Step(s, i, true))
  {
    HeredocIsRead(s, i + 3);
  }

  lemma CodeIsATurn(s: Source, i: nat)
    requires i < |s| && !CloseAt(s, i) && !LineCommentAt(s, i) && !BlockCommentAt(s, i)
    requires s[i] != '\'' && s[i] != '"' && (s[i] == '`' || !HeredocAt(s, i))
    ensures IsTurn(s, i, true, Step(s, i, true))
  {
    if s[i] == '`' { ShellEndIsFirst(s, i + 1); }
  }

  /** Every turn of the lexer recognises what the bytes say. */
  lemma StepIsATurn(s: Source, i: nat, php: bool)
    requires i < |s|
    ensures IsTurn(s, i, php, Step(s, i, php))
  {
    if !php {
      OpenIsFirst(s, i);
    } else if CloseAt(s, i) {
    } else if LineCommentAt(s, i) {
      LineEndIsFirst(s, i + 1);
    } else if BlockCommentAt(s, i) {
      BlockIsRead(s, i + 2);
    } else if s[i] == '\'' || s[i] == '"' {
      QuoteIsATurn(s, i);
    } else if s[i] == '`' || !HeredocAt(s, i) {
      CodeIsATurn(s, i);
    } else {
      HeredocIsATurn(s, i);
    }
  }

  // ---------------------------------------------------------------------
  // And nothing else would be a turn
  // ---------------------------------------------------------------------

  lemma WordBytesAreUnique(s: Source, i: nat, j: nat, k: nat)
    requires WordBytes(s, i, j) && WordBytes(s, i, k)
    ensures j == k
  {
  }

  lemma HeadersAreUnique(s: Source, i: nat, a: nat, e: nat, lo: nat, a': nat, e': nat, lo': nat)
    requires Header(s, i, a, e, lo) && Header(s, i, a', e', lo')
    ensures a == a' && e == e' && lo == lo'
  {
    var j: nat :| Blanks(s, i, j) && a == (if QuoteAt(s, j) then j + 1 else j) && WordBytes(s, a, e)
         && FirstByte(s, if QuoteAt(s, j) && e < |s| && s[e] == s[j] then e + 1 else e, '\n', lo);
    var k: nat :| Blanks(s, i, k) && a' == (if QuoteAt(s, k) then k + 1 else k) && WordBytes(s, a', e')
         && FirstByte(s, if QuoteAt(s, k) && e' < |s| && s[e'] == s[k] then e' + 1 else e', '\n', lo');
    BlanksAreUnique(s, i, j, k);
    WordBytesAreUnique(s, a, e, e');
  }

  lemma LabelLinesAreUnique(s: Source, n: nat, name: Source, hi: nat, hi': nat)
    requires LabelLine(s, n, name, hi) && LabelLine(s, n, name, hi')
    ensures hi == hi'
  {
    var m: nat :| Blanks(s, n + 1, m) && m <= hi && s[m..hi] == name;
    var k: nat :| Blanks(s, n + 1, k) && k <= hi' && s[k..hi'] == name;
    BlanksAreUnique(s, n + 1, m, k);
    assert |s[m..hi]| == hi - m && |s[k..hi']| == hi' - k;
  }

  lemma LineIsBefore(s: Source, lo: nat, n: nat, m: nat, name: Source, hi: nat)
    requires lo <= n && LabelLine(s, n, name, hi)
    ensures n < m ==> LabelLineBefore(s, lo, m, name)
  {
  }

  lemma BodyEndsAreUnique(s: Source, lo: nat, name: Source, hi: nat, hi': nat)
    requires BodyEnd(s, lo, name, hi) && BodyEnd(s, lo, name, hi')
    ensures hi == hi'
  {
    if n: nat :| lo <= n && LabelLine(s, n, name, hi) && !LabelLineBefore(s, lo, n, name) {
      LineIsBefore(s, lo, n, |s|, name, hi);
      if n': nat :| lo <= n' && LabelLine(s, n', name, hi') && !LabelLineBefore(s, lo, n', name) {
        LineIsBefore(s, lo, n, n', name, hi);
        LineIsBefore(s, lo, n', n, name, hi');
        LabelLinesAreUnique(s, n, name, hi, hi');
      }
    } else if n': nat :| lo <= n' && LabelLine(s, n', name, hi') && !LabelLineBefore(s, lo, n', name) {
      LineIsBefore(s, lo, n', |s|, name, hi');
    }
  }

  lemma BlockEndsAreUnique(s: Source, i: nat, hi: nat, hi': nat)
    requires BlockEnd(s, i, hi) && BlockEnd(s, i, hi')
    ensures hi == hi'
  {
    var e: nat :| FirstPair(s, i, '*', '/', e) && hi == if e < |s| then e + 2 else |s|;
    var e': nat :| FirstPair(s, i, '*', '/', e') && hi' == if e' < |s| then e' + 2 else |s|;
    assert e == e';
  }

  lemma BodiesAreUnique(s: Source, i: nat, lo: nat, hi: nat, lo': nat, hi': nat)
    requires Body(s, i, lo, hi) && Body(s, i, lo', hi')
    ensures lo == lo' && hi == hi'
  {
    var a: nat, e: nat :| Header(s, i, a, e, lo) && BodyEnd(s, lo, s[a..e], hi);
    var a': nat, e': nat :| Header(s, i, a', e', lo') && BodyEnd(s, lo', s[a'..e'], hi');
    HeadersAreUnique(s, i, a, e, lo, a', e', lo');
    BodyEndsAreUnique(s, lo, s[a..e], hi, hi');
  }

  /** The bytes say it exactly: one turn is right at each place. */
  lemma TurnIsUnique(s: Source, i: nat, php: bool, t: Token, t': Token)
    requires i < |s| && IsTurn(s, i, php, t) && IsTurn(s, i, php, t')
    ensures t == t'
  {
    if php && t.kind == Comment && Pair(s, i, '/', '*') { BlockEndsAreUnique(s, i + 2, t.hi, t'.hi); }
    if php && t.kind == Heredoc { BodiesAreUnique(s, i + 3, t.lo, t.hi, t'.lo, t'.hi); }
  }
}
