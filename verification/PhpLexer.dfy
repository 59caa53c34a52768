/** The PHP lexer: which bytes are executable code, where the string literals
    and comments are, and a code view of unchanged length in which everything
    else is blanked.  One char stands for one byte. */
module PhpLexer {

  type Source = seq<char>

  datatype Span = Span(start: nat, end: nat)

  // What one turn of the lexer's loop consumed.
  datatype Kind = Markup | Code | Comment | Str | Shell | Heredoc

  // The turn blanks lo..hi, leaves the cursor at next, and is then inside PHP or not.
  datatype Token = Token(kind: Kind, lo: nat, hi: nat, next: nat, php: bool)

  predicate At(s: Source, i: int, c: char) {
    0 <= i < |s| && s[i] == c
  }

  predicate IsIdent(c: char) {
    c == '_' || 'a' <= c <= 'z' || 'A' <= c <= 'Z' || '0' <= c <= '9'
  }

  predicate OpenAt(s: Source, i: int) { At(s, i, '<') && At(s, i + 1, '?') }

  predicate CloseAt(s: Source, i: int) { At(s, i, '?') && At(s, i + 1, '>') }

  predicate LongTagAt(s: Source, i: int) {
    OpenAt(s, i) && At(s, i + 2, 'p') && At(s, i + 3, 'h') && At(s, i + 4, 'p')
  }

  function TagLength(s: Source, i: nat): nat {
    if LongTagAt(s, i) then 5 else if OpenAt(s, i) && At(s, i + 2, '=') then 3 else 2
  }

  predicate LineCommentAt(s: Source, i: int) {
    || (At(s, i, '/') && At(s, i + 1, '/'))
    || (At(s, i, '#') && !At(s, i + 1, '['))
  }

  predicate BlockCommentAt(s: Source, i: int) { At(s, i, '/') && At(s, i + 1, '*') }

  predicate HeredocAt(s: Source, i: int) { At(s, i, '<') && At(s, i + 1, '<') && At(s, i + 2, '<') }

  // ---------------------------------------------------------------------
  // Where each construct ends
  // ---------------------------------------------------------------------

  // The next open tag, or the end of the source.
  function FindOpen(s: Source, i: nat): (r: nat)
    requires i <= |s|
    ensures i <= r <= |s| && (r < |s| ==> OpenAt(s, r))
    decreases |s| - i
  {
    if i == |s| || OpenAt(s, i) then i else FindOpen(s, i + 1)
  }

  function LineCommentEnd(s: Source, i: nat): (r: nat)
    requires i <= |s|
    ensures i <= r <= |s|
    decreases |s| - i
  {
    if i == |s| || s[i] == '\n' || CloseAt(s, i) then i else LineCommentEnd(s, i + 1)
  }

  function BlockCommentEnd(s: Source, i: nat): (r: nat)
    requires i <= |s|
    ensures i <= r <= |s|
    decreases |s| - i
  {
    if i + 1 >= |s| then |s|
    else if s[i] == '*' && s[i + 1] == '/' then i + 2
    else BlockCommentEnd(s, i + 1)
  }

  // A backslash hides the byte after it.
  function QuoteEnd(s: Source, i: nat, q: char): (r: nat)
    requires i <= |s|
    ensures i <= r <= |s| && (r < |s| ==> s[r] == q)
    decreases |s| - i
  {
    if i == |s| then i
    else if s[i] == '\\' && i + 1 < |s| then QuoteEnd(s, i + 2, q)
    else if s[i] == q then i
    else QuoteEnd(s, i + 1, q)
  }

  function ShellEnd(s: Source, i: nat): (r: nat)
    requires i <= |s|
    ensures i <= r <= |s| && (r < |s| ==> s[r] == '`')
    decreases |s| - i
  {
    if i == |s| || s[i] == '`' then i else ShellEnd(s, i + 1)
  }

  function SkipBlanks(s: Source, i: nat): (r: nat)
    requires i <= |s|
    ensures i <= r <= |s| && (r < |s| ==> s[r] != ' ' && s[r] != '\t')
    decreases |s| - i
  {
    if i < |s| && (s[i] == ' ' || s[i] == '\t') then SkipBlanks(s, i + 1) else i
  }

  function IdentEnd(s: Source, i: nat): (r: nat)
    requires i <= |s|
    ensures i <= r <= |s| && (r < |s| ==> !IsIdent(s[r]))
    decreases |s| - i
  {
    if i < |s| && IsIdent(s[i]) then IdentEnd(s, i + 1) else i
  }

  function LineBreak(s: Source, i: nat): (r: nat)
    requires i <= |s|
    ensures i <= r <= |s| && (r < |s| ==> s[r] == '\n')
    decreases |s| - i
  {
    if i < |s| && s[i] != '\n' then LineBreak(s, i + 1) else i
  }

  // The heredoc's label starts after blanks and an optional quote ...
  function LabelStart(s: Source, i: nat): (r: nat)
    requires i <= |s|
    ensures i <= r <= |s|
  {
    var j := SkipBlanks(s, i);
    if At(s, j, '\'') || At(s, j, '"') then j + 1 else j
  }

  // ... is the identifier there ...
  function Label(s: Source, i: nat): (r: Source)
    requires i <= |s|
  {
    s[LabelStart(s, i)..IdentEnd(s, LabelStart(s, i))]
  }

  // ... is followed by the same quote, if there was one ...
  function AfterLabel(s: Source, i: nat): (r: nat)
    requires i <= |s|
    ensures IdentEnd(s, LabelStart(s, i)) <= r <= |s|
  {
    var j := SkipBlanks(s, i);
    var e := IdentEnd(s, LabelStart(s, i));
    if LabelStart(s, i) == j + 1 && At(s, e, s[j]) then e + 1 else e
  }

  // ... and the body starts at the end of that line.
  function BodyStart(s: Source, i: nat): (r: nat)
    requires i <= |s|
    ensures i <= r <= |s| && (r < |s| ==> s[r] == '\n')
  {
    LineBreak(s, AfterLabel(s, i))
  }

  predicate PrefixAt(s: Source, j: nat, p: Source) {
    j + |p| <= |s| && forall k :: 0 <= k < |p| ==> s[j + k] == p[k]
  }

  // A line break at nl is followed by blanks, the label, and no further identifier byte.
  predicate LabelLineAt(s: Source, nl: nat, name: Source)
    requires nl < |s|
  {
    var j := SkipBlanks(s, nl + 1);
    && PrefixAt(s, j, name)
    && (j + |name| < |s| ==> !IsIdent(s[j + |name|]))
  }

  function HeredocEnd(s: Source, i: nat, name: Source): (r: nat)
    requires i <= |s|
    ensures i <= r <= |s|
    decreases |s| - i
  {
    var nl := LineBreak(s, i);
    if name == [] || nl == |s| then |s|
    else if LabelLineAt(s, nl, name) then SkipBlanks(s, nl + 1) + |name|
    else HeredocEnd(s, nl + 1, name)
  }

  // ---------------------------------------------------------------------
  // The lexer as a function
  // ---------------------------------------------------------------------

  function Step(s: Source, i: nat, php: bool): (t: Token)
    requires i < |s|
    ensures i <= t.lo <= t.hi <= |s| && t.hi <= t.next && i < t.next
  {
    if !php then
      var n := FindOpen(s, i);
      if n == |s| then Token(Markup, i, n, n, false) else Token(Markup, i, n, n + TagLength(s, n), true)
    else if CloseAt(s, i) then Token(Code, i, i, i + 2, false)
    else if LineCommentAt(s, i) then
      var e := LineCommentEnd(s, i + 1);
      Token(Comment, i, e, e, true)
    else if BlockCommentAt(s, i) then
      var e := BlockCommentEnd(s, i + 2);
      Token(Comment, i, e, e, true)
    else if s[i] == '\'' || s[i] == '"' then
      var e := QuoteEnd(s, i + 1, s[i]);
      Token(Str, i + 1, e, e + 1, true)
    else if s[i] == '`' then
      var e := ShellEnd(s, i + 1);
      Token(Shell, i + 1, e, e + 1, true)
    else if HeredocAt(s, i) then
      var e := HeredocEnd(s, BodyStart(s, i + 3), Label(s, i + 3));
      Token(Heredoc, BodyStart(s, i + 3), e, e, true)
    else Token(Code, i, i, i + 1, true)
  }

  function Run(s: Source, i: nat, php: bool): seq<Token>
    decreases |s| - i
  {
    if i >= |s| then [] else
      var t := Step(s, i, php);
      [t] + Run(s, t.next, t.php)
  }

  function Lex(s: Source): seq<Token> {
    Run(s, 0, false)
  }

  predicate IsString(k: Kind) { k == Str || k == Shell || k == Heredoc }

  function Strings(ts: seq<Token>): seq<Span> {
    if ts == [] then []
    else (if IsString(ts[0].kind) then [Span(ts[0].lo, ts[0].hi)] else []) + Strings(ts[1..])
  }

  function Comments(ts: seq<Token>): seq<Span> {
    if ts == [] then []
    else (if ts[0].kind == Comment then [Span(ts[0].lo, ts[0].hi)] else []) + Comments(ts[1..])
  }

  function Count(ts: seq<Token>, kind: Kind): nat {
    if ts == [] then 0 else (if ts[0].kind == kind then 1 else 0) + Count(ts[1..], kind)
  }

  // Outside PHP, an open tag was met when the turn ended inside PHP.
  predicate OpensTag(ts: seq<Token>) {
    exists k :: 0 <= k < |ts| && ts[k].kind == Markup && ts[k].php
  }

  predicate Blanked(ts: seq<Token>, k: int) {
    exists a :: 0 <= a < |ts| && ts[a].lo <= k < ts[a].hi
  }

  function BlankChar(c: char): char {
    if c == '\n' then c else ' '
  }

  function CodeView(s: Source, ts: seq<Token>): (r: Source)
    ensures |r| == |s|
    ensures forall k :: 0 <= k < |s| ==> r[k] == if Blanked(ts, k) then BlankChar(s[k]) else s[k]
  {
    seq(|s|, k requires 0 <= k < |s| => if Blanked(ts, k) then BlankChar(s[k]) else s[k])
  }

  // ---------------------------------------------------------------------
  // The lexer as a loop
  // ---------------------------------------------------------------------

  method ScanOpen(s: Source, i: nat) returns (r: nat)
    requires i <= |s|
    ensures r == FindOpen(s, i)
  {
    r := i;
    while r < |s| && !OpenAt(s, r)
      invariant i <= r <= |s| && FindOpen(s, i) == FindOpen(s, r)
    {
      r := r + 1;
    }
  }

  method ScanLineComment(s: Source, i: nat) returns (r: nat)
    requires i <= |s|
    ensures r == LineCommentEnd(s, i)
  {
    r := i;
    while r < |s| && s[r] != '\n'
      invariant i <= r <= |s| && LineCommentEnd(s, i) == LineCommentEnd(s, r)
    {
      if CloseAt(s, r) { break; }
      r := r + 1;
    }
  }

  method ScanBlockComment(s: Source, i: nat) returns (r: nat)
    requires i <= |s|
    ensures r == BlockCommentEnd(s, i)
  {
    r := i;
    while r + 1 < |s| && !(s[r] == '*' && s[r + 1] == '/')
      invariant i <= r <= |s| && BlockCommentEnd(s, i) == BlockCommentEnd(s, r)
    {
      r := r + 1;
    }
    if r + 1 < |s| { r := r + 2; } else { r := |s|; }
  }

  method ScanQuote(s: Source, i: nat, q: char) returns (r: nat)
    requires i <= |s|
    ensures r == QuoteEnd(s, i, q)
  {
    r := i;
    while r < |s|
      invariant i <= r <= |s| && QuoteEnd(s, i, q) == QuoteEnd(s, r, q)
      decreases |s| - r
    {
      if s[r] == '\\' && r + 1 < |s| {
        r := r + 2;
        continue;
      }
      if s[r] == q { break; }
      r := r + 1;
    }
  }

  method ScanShell(s: Source, i: nat) returns (r: nat)
    requires i <= |s|
    ensures r == ShellEnd(s, i)
  {
    r := i;
    while r < |s| && s[r] != '`'
      invariant i <= r <= |s| && ShellEnd(s, i) == ShellEnd(s, r)
    {
      r := r + 1;
    }
  }

  method ScanBlanks(s: Source, i: nat) returns (r: nat)
    requires i <= |s|
    ensures r == SkipBlanks(s, i)
  {
    r := i;
    while r < |s| && (s[r] == ' ' || s[r] == '\t')
      invariant i <= r <= |s| && SkipBlanks(s, i) == SkipBlanks(s, r)
    {
      r := r + 1;
    }
  }

  method ScanIdent(s: Source, i: nat) returns (r: nat)
    requires i <= |s|
    ensures r == IdentEnd(s, i)
  {
    r := i;
    while r < |s| && IsIdent(s[r])
      invariant i <= r <= |s| && IdentEnd(s, i) == IdentEnd(s, r)
    {
      r := r + 1;
    }
  }

  method ScanLineBreak(s: Source, i: nat) returns (r: nat)
    requires i <= |s|
    ensures r == LineBreak(s, i)
  {
    r := i;
    while r < |s| && s[r] != '\n'
      invariant i <= r <= |s| && LineBreak(s, i) == LineBreak(s, r)
    {
      r := r + 1;
    }
  }

  method LabelLine(s: Source, nl: nat, name: Source) returns (found: bool, after: nat)
    requires nl < |s|
    ensures found == LabelLineAt(s, nl, name) && after == SkipBlanks(s, nl + 1) + |name|
  {
    var j := ScanBlanks(s, nl + 1);
    after := j + |name|;
    found := PrefixAt(s, j, name) && (after >= |s| || !IsIdent(s[after]));
  }

  method FindHeredocEnd(s: Source, from: nat, name: Source) returns (end: nat)
    requires from <= |s|
    ensures end == HeredocEnd(s, from, name)
  {
    if |name| == 0 { return |s|; }
    var i := from;
    while i < |s|
      invariant from <= i <= |s| && HeredocEnd(s, from, name) == HeredocEnd(s, i, name)
      decreases |s| - i
    {
      var nl := ScanLineBreak(s, i);
      if nl == |s| { return |s|; }
      var found, after := LabelLine(s, nl, name);
      if found { return after; }
      i := nl + 1;
    }
    return |s|;
  }

  method ScanHeredoc(s: Source, i: nat) returns (bodyStart: nat, end: nat)
    requires i <= |s|
    ensures bodyStart == BodyStart(s, i) && end == HeredocEnd(s, bodyStart, Label(s, i))
  {
    var j := ScanBlanks(s, i);
    var quoted := j < |s| && (s[j] == '\'' || s[j] == '"');
    var q := j;
    if quoted { j := j + 1; }
    var idStart := j;
    j := ScanIdent(s, j);
    var name := s[idStart..j];
    if quoted && j < |s| && s[j] == s[q] { j := j + 1; }
    bodyStart := ScanLineBreak(s, j);
    end := FindHeredocEnd(s, bodyStart, name);
  }

  method NextToken(s: Source, i: nat, php: bool) returns (t: Token)
    requires i < |s|
    ensures t == Step(s, i, php)
  {
    if !php {
      var n := ScanOpen(s, i);
      return if n == |s| then Token(Markup, i, n, n, false) else Token(Markup, i, n, n + TagLength(s, n), true);
    }
    if CloseAt(s, i) {
      t := Token(Code, i, i, i + 2, false);
    } else if LineCommentAt(s, i) {
      var e := ScanLineComment(s, i);
      t := Token(Comment, i, e, e, true);
    } else if BlockCommentAt(s, i) {
      var e := ScanBlockComment(s, i + 2);
      t := Token(Comment, i, e, e, true);
    } else if s[i] == '\'' || s[i] == '"' {
      var e := ScanQuote(s, i + 1, s[i]);
      t := Token(Str, i + 1, e, e + 1, true);
    } else if s[i] == '`' {
      var e := ScanShell(s, i + 1);
      t := Token(Shell, i + 1, e, e + 1, true);
    } else if HeredocAt(s, i) {
      var b, e := ScanHeredoc(s, i + 3);
      t := Token(Heredoc, b, e, e, true);
    } else {
      t := Token(Code, i, i, i + 1, true);
    }
  }

  method Blank(code: array<char>, from: nat, to: nat)
    requires from <= to <= code.Length
    modifies code
    ensures forall k :: 0 <= k < code.Length ==>
      code[k] == if from <= k < to then BlankChar(old(code[k])) else old(code[k])
  {
    for i := from to to
      invariant forall k :: 0 <= k < code.Length ==>
        code[k] == if from <= k < i then BlankChar(old(code[k])) else old(code[k])
    {
      if code[i] != '\n' {
        code[i] := ' ';
      }
    }
  }

  class PhpView {
    // The view occupies the first |src| cells of code.
    var code: array<char>
    var strs: seq<Span>
    var comments: seq<Span>
    var hasOpenTag: bool
    var hasBacktick: bool
    var heredocs: nat

    constructor (code: array<char>)
      ensures this.code == code && strs == comments == [] && !hasOpenTag && !hasBacktick && heredocs == 0
    {
      this.code := code;
      strs, comments, hasOpenTag, hasBacktick, heredocs := [], [], false, false, 0;
    }

    // The fields are what the tokens ts of src say.
    ghost predicate Shows(src: Source, ts: seq<Token>)
      reads this, code
    {
      && |src| <= code.Length && code[..|src|] == CodeView(src, ts)
      && strs == Strings(ts) && comments == Comments(ts)
      && hasOpenTag == OpensTag(ts) && hasBacktick == (Count(ts, Shell) > 0)
      && heredocs == Count(ts, Heredoc)
    }

    // One turn of the loop: read a token at the cursor and record it.
    method Turn(src: Source, i: nat, php: bool, ghost ts: seq<Token>)
      returns (i': nat, php': bool, ghost ts': seq<Token>)
      requires i < |src| && Shows(src, ts) && Lex(src) == ts + Run(src, i, php)
      modifies this, code
      ensures Shows(src, ts') && Lex(src) == ts' + Run(src, i', php')
      ensures i < i' && code == old(code)
    {
      var t := NextToken(src, i, php);
      RunTakes(src, i, php, ts);
      ts' := ts + [t];
      i', php' := t.next, t.php;
      assert Lex(src) == ts' + Run(src, i', php');
      Record(t, src, ts);
    }

    method Record(t: Token, ghost src: Source, ghost ts: seq<Token>)
      requires Shows(src, ts) && t.lo <= t.hi <= |src|
      modifies this, code
      ensures Shows(src, ts + [t]) && code == old(code)
    {
      ghost var before := code[..|src|];
      Blank(code, t.lo, t.hi);
      BlankOneMore(src, ts, t, before, code[..|src|]);
      ListsOneMore(ts, t);
      OpensOneMore(ts, t);
      if t.kind == Markup && t.php { hasOpenTag := true; }
      if t.kind == Comment { comments := comments + [Span(t.lo, t.hi)]; }
      if t.kind == Shell { hasBacktick := true; }
      if t.kind == Heredoc { heredocs := heredocs + 1; }
      if IsString(t.kind) { strs := strs + [Span(t.lo, t.hi)]; }
    }
  }

  method Load(src: Source, reuse: array<char>) returns (code: array<char>)
    modifies reuse
    ensures code == reuse || fresh(code)
    ensures |src| <= code.Length && code[..|src|] == src
  {
    code := reuse;
    if reuse.Length < |src| {
      code := new char[|src|](_ => ' ');
    }
    forall k | 0 <= k < |src| {
      code[k] := src[k];
    }
  }

  /** One pass over the source; the buffer is reused when it is large enough. */
  method LexPHP(src: Source, reuse: array<char>) returns (v: PhpView)
    modifies reuse
    ensures fresh(v) && (v.code == reuse || fresh(v.code))
    ensures v.Shows(src, Lex(src))
  {
    var code := Load(src, reuse);
    v := new PhpView(code);
    var i, php := 0, false;
    ghost var ts := [];
    assert CodeView(src, ts) == src;
    while i < |src|
      invariant Lex(src) == ts + Run(src, i, php)
      invariant fresh(v) && v.code == code && v.Shows(src, ts)
      decreases |src| - i
    {
      i, php, ts := v.Turn(src, i, php, ts);
    }
    assert ts + [] == ts;
  }

  lemma RunTakes(s: Source, i: nat, php: bool, ts: seq<Token>)
    requires i < |s|
    ensures var t := Step(s, i, php);
            ts + Run(s, i, php) == (ts + [t]) + Run(s, t.next, t.php)
  {
  }

  lemma {:induction false} ListsOneMore(ts: seq<Token>, t: Token)
    ensures Strings(ts + [t]) == Strings(ts) + (if IsString(t.kind) then [Span(t.lo, t.hi)] else [])
    ensures Comments(ts + [t]) == Comments(ts) + (if t.kind == Comment then [Span(t.lo, t.hi)] else [])
    ensures forall k :: Count(ts + [t], k) == Count(ts, k) + if t.kind == k then 1 else 0
  {
    if ts != [] {
      ListsOneMore(ts[1..], t);
      assert (ts + [t])[1..] == ts[1..] + [t];
    } else {
      assert ts + [t] == [t];
    }
  }

  lemma OpensOneMore(ts: seq<Token>, t: Token)
    ensures OpensTag(ts + [t]) == (OpensTag(ts) || (t.kind == Markup && t.php))
  {
    var us := ts + [t];
    assert us[|ts|] == t;
    if OpensTag(ts) {
      var k :| 0 <= k < |ts| && ts[k].kind == Markup && ts[k].php;
      assert us[k] == ts[k];
    }
  }

  lemma BlankedOneMore(ts: seq<Token>, t: Token, k: int)
    ensures Blanked(ts + [t], k) <==> Blanked(ts, k) || t.lo <= k < t.hi
  {
    var us := ts + [t];
    assert us[|ts|] == t;
    if Blanked(ts, k) {
      var a :| 0 <= a < |ts| && ts[a].lo <= k < ts[a].hi;
      assert us[a] == ts[a];
    }
  }

  lemma BlankOneMore(src: Source, ts: seq<Token>, t: Token, before: Source, after: Source)
    requires before == CodeView(src, ts) && |after| == |src|
    requires forall k :: 0 <= k < |src| ==> after[k] == if t.lo <= k < t.hi then BlankChar(before[k]) else before[k]
    ensures after == CodeView(src, ts + [t])
  {
    forall k | 0 <= k < |src|
      ensures after[k] == CodeView(src, ts + [t])[k]
    {
      BlankedOneMore(ts, t, k);
    }
  }
}
