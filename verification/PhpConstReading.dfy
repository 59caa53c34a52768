/** How the constant folder reads an expression: its literals, names and calls, the
    parenthesis that closes a call, and the arguments of one. */
module PhpConstReading {
  import opened Common
  import opened PhpLexer

  type Bytes = seq<char>

  // Byte-level library routines the folder calls; any pure functions will do.
  datatype Library = Library(
    lower: Bytes -> Bytes,
    unescape: Bytes -> Bytes,                 // escape sequences of a string literal
    number: Bytes -> Option<Bytes>,           // a decimal numeral in canonical form
    atoi: Bytes -> Option<int>,               // an integer with surrounding layout
    boolWord: Bytes -> Option<bool>,          // true, 1, false, 0 with surrounding layout
    unary: (Bytes, Bytes) -> Option<Bytes>,   // the functions in UNARY
    digest: (Bytes, Bytes, bool) -> Bytes,    // md5 and sha1, raw or hexadecimal
    unhex: Bytes -> Option<Bytes>,
    replaceAll: (Bytes, Bytes, Bytes) -> Bytes)

  datatype Program = Program(src: Source, strs: seq<Span>, assigns: map<Bytes, Span>, lib: Library)

  // ---------------------------------------------------------------------
  // Reading the source
  // ---------------------------------------------------------------------

  datatype Literal = Literal(value: Bytes, next: nat)

  // The literal whose content starts at pos or just after it.
  function LiteralFrom(p: Program, a: nat, pos: nat): (r: Option<Literal>)
    requires a <= |p.strs|
    ensures r.Some? ==> pos < r.value.next
    decreases |p.strs| - a
  {
    if a == |p.strs| then None else
      var s := p.strs[a];
      if s.start == pos + 1 || s.start == pos then
        var end := Min(s.end, |p.src|);
        if s.start > end then None else Some(Literal(p.lib.unescape(p.src[s.start..end]), end + 1))
      else LiteralFrom(p, a + 1, pos)
  }

  function LiteralAt(p: Program, pos: nat): (r: Option<Literal>)
    ensures r.Some? ==> pos < r.value.next
  {
    LiteralFrom(p, 0, pos)
  }

  function IdentStop(s: Source, i: nat, end: nat): (r: nat)
    requires i <= end <= |s|
    ensures i <= r <= end
    decreases end - i
  {
    if i < end && IsIdent(s[i]) then IdentStop(s, i + 1, end) else i
  }

  function BlankStop(s: Source, i: nat, end: nat): (r: nat)
    requires i <= end <= |s|
    ensures i <= r <= end
    decreases end - i
  {
    if i < end && (s[i] == ' ' || s[i] == '\t') then BlankStop(s, i + 1, end) else i
  }

  // The ')' that closes the parentheses opened so far; quote is the delimiter
  // of the string the scan is in, if any.
  function CloseFrom(s: Source, i: nat, limit: nat, depth: int, quote: Option<char>): (r: Option<nat>)
    requires limit <= |s|
    ensures r.Some? ==> i <= r.value < limit
    decreases limit - i
  {
    if i >= limit then None
    else if quote.Some? then
      if s[i] == '\\' then CloseFrom(s, i + 2, limit, depth, quote)
      else CloseFrom(s, i + 1, limit, depth, if s[i] == quote.value then None else quote)
    else if s[i] == '\'' || s[i] == '"' then CloseFrom(s, i + 1, limit, depth, Some(s[i]))
    else if s[i] == '(' then CloseFrom(s, i + 1, limit, depth + 1, None)
    else if s[i] == ')' then
      if depth == 1 then Some(i) else CloseFrom(s, i + 1, limit, depth - 1, None)
    else CloseFrom(s, i + 1, limit, depth, None)
  }

  function MatchParen(s: Source, open: nat, limit: nat): (r: Option<nat>)
    requires open < limit <= |s| && s[open] == '('
    ensures r.Some? ==> open < r.value < limit
  {
    CloseFrom(s, open + 1, limit, 1, None)
  }

  // Top-level commas of lo..end, from i on, at nesting depth.
  function SplitFrom(p: Program, i: nat, end: nat, depth: int, argStart: nat): (r: seq<Span>)
    requires end <= |p.src| && argStart <= i && argStart <= end
    ensures forall a :: 0 <= a < |r| ==> argStart <= r[a].start <= r[a].end <= end
    decreases end - i
  {
    if i >= end then
      if argStart < end then [Span(argStart, end)] else []
    else
      var c := p.src[i];
      if c == '\'' || c == '"' then
        var l := LiteralAt(p, i);
        SplitFrom(p, if l.Some? then l.value.next else i + 1, end, depth, argStart)
      else if c == ',' && depth == 0 then
        [Span(argStart, i)] + SplitFrom(p, i + 1, end, depth, i + 1)
      else
        SplitFrom(p, i + 1, end, depth + Bracket(c), argStart)
  }

  function SplitArgs(p: Program, lo: nat, hi: nat): (r: seq<Span>)
    requires lo <= hi <= |p.src|
    ensures forall a :: 0 <= a < |r| ==> lo <= r[a].start <= r[a].end <= hi
  {
    SplitFrom(p, lo, hi, 0, lo)
  }

  // --- what a matching parenthesis and an argument are ------------------

  // How a byte is read: as code, in a string, or behind a backslash in one.
  datatype Mode = Plain | In(quote: char) | Escaped(quote: char)

  function NextMode(m: Mode, c: char): Mode {
    match m
    case Plain => if c == '\'' || c == '"' then In(c) else Plain
    case In(q) => if c == '\\' then Escaped(q) else if c == q then Plain else In(q)
    case Escaped(q) => In(q)
  }

  function ModeAt(s: Source, open: nat, i: nat): Mode
    requires open <= i <= |s|
  {
    if i == open then Plain else NextMode(ModeAt(s, open, i - 1), s[i - 1])
  }

  // Parentheses opened less those closed outside strings, from open up to i.
  function Nest(s: Source, open: nat, i: nat): int
    requires open <= i <= |s|
  {
    if i == open then 0
    else
      Nest(s, open, i - 1) +
      (if ModeAt(s, open, i - 1) != Plain then 0
       else if s[i - 1] == '(' then 1
       else if s[i - 1] == ')' then -1
       else 0)
  }

  // The parenthesis at i, outside strings, closes the last one open.
  predicate Closes(s: Source, open: nat, i: nat)
    requires open <= i < |s|
  {
    s[i] == ')' && ModeAt(s, open, i) == Plain && Nest(s, open, i) == 1
  }

  // The parenthesis that closes the one at open: until there some are open.
  ghost predicate Matches(s: Source, open: nat, limit: nat, r: Option<nat>)
    requires open < limit <= |s|
  {
    match r
    case None => forall k :: open < k < limit ==> !Closes(s, open, k) && Nest(s, open, k) > 0
    case Some(e) => open < e < limit && Closes(s, open, e) && forall k :: open < k <= e ==> Nest(s, open, k) > 0
  }

  ghost predicate StillOpen(s: Source, open: nat, i: nat)
    requires open <= i <= |s|
  {
    forall k :: open < k < i ==> !Closes(s, open, k) && Nest(s, open, k) > 0
  }

  // What the scan keeps track of at i, which an escape may have taken past the limit.
  ghost predicate Tracks(s: Source, open: nat, i: nat, limit: nat, depth: int, quote: Option<char>) {
    && open < i && open < limit <= |s| && depth > 0
    && (i <= limit ==>
          && ModeAt(s, open, i) == (if quote.Some? then In(quote.value) else Plain)
          && Nest(s, open, i) == depth)
    && StillOpen(s, open, Min(i, limit))
  }

  lemma OneByteOn(s: Source, open: nat, i: nat)
    requires open <= i < |s|
    ensures ModeAt(s, open, i + 1) == NextMode(ModeAt(s, open, i), s[i])
    ensures Nest(s, open, i + 1) == Nest(s, open, i) +
      if ModeAt(s, open, i) != Plain then 0 else if s[i] == '(' then 1 else if s[i] == ')' then -1 else 0
  {
  }

  lemma TracksString(s: Source, open: nat, i: nat, limit: nat, depth: int, q: char)
    requires Tracks(s, open, i, limit, depth, Some(q)) && i < limit && q != '\\'
    ensures s[i] != '\\' ==> Tracks(s, open, i + 1, limit, depth, if s[i] == q then None else Some(q))
    ensures s[i] == '\\' ==> Tracks(s, open, i + 2, limit, depth, Some(q))
  {
    OneByteOn(s, open, i);
    if i + 1 < limit { OneByteOn(s, open, i + 1); }
  }

  lemma TracksCode(s: Source, open: nat, i: nat, limit: nat, depth: int)
    requires Tracks(s, open, i, limit, depth, None) && i < limit && !(s[i] == ')' && depth == 1)
    ensures Tracks(s, open, i + 1, limit, depth + if s[i] == '(' then 1 else if s[i] == ')' then -1 else 0,
                  if s[i] == '\'' || s[i] == '"' then Some(s[i]) else None)
  {
    OneByteOn(s, open, i);
  }

  lemma {:induction false} CloseMatches(s: Source, open: nat, i: nat, limit: nat, depth: int, quote: Option<char>)
    requires Tracks(s, open, i, limit, depth, quote) && quote != Some('\\')
    ensures Matches(s, open, limit, CloseFrom(s, i, limit, depth, quote))
    decreases limit - i, 1
  {
    if i < limit {
      if quote.Some? {
        StringMatches(s, open, i, limit, depth, quote.value);
      } else if s[i] == ')' && depth == 1 {
        assert Closes(s, open, i);
      } else {
        CodeMatches(s, open, i, limit, depth);
      }
    }
  }

  lemma {:induction false} StringMatches(s: Source, open: nat, i: nat, limit: nat, depth: int, q: char)
    requires Tracks(s, open, i, limit, depth, Some(q)) && q != '\\' && i < limit
    ensures Matches(s, open, limit, CloseFrom(s, i, limit, depth, Some(q)))
    decreases limit - i, 0
  {
    TracksString(s, open, i, limit, depth, q);
    if s[i] == '\\' {
      CloseMatches(s, open, i + 2, limit, depth, Some(q));
    } else {
      CloseMatches(s, open, i + 1, limit, depth, if s[i] == q then None else Some(q));
    }
  }

  lemma {:induction false} CodeMatches(s: Source, open: nat, i: nat, limit: nat, depth: int)
    requires Tracks(s, open, i, limit, depth, None) && i < limit && !(s[i] == ')' && depth == 1)
    ensures Matches(s, open, limit, CloseFrom(s, i, limit, depth, None))
    decreases limit - i, 0
  {
    var c := s[i];
    TracksCode(s, open, i, limit, depth);
    CloseMatches(s, open, i + 1, limit, depth + if c == '(' then 1 else if c == ')' then -1 else 0,
                 if c == '\'' || c == '"' then Some(c) else None);
  }

  /** The parenthesis found is the one that closes the call. */
  lemma ParenMatches(s: Source, open: nat, limit: nat)
    requires open < limit <= |s| && s[open] == '('
    ensures Matches(s, open, limit, MatchParen(s, open, limit))
  {
    OneByteOn(s, open, open);
    CloseMatches(s, open, open + 1, limit, 1, None);
  }

  // Where an argument list is read on: behind a literal, or at the next byte.
  function ReadOn(p: Program, i: nat): (r: nat)
    requires i < |p.src|
    ensures i < r
  {
    if (p.src[i] == '\'' || p.src[i] == '"') && LiteralAt(p, i).Some? then LiteralAt(p, i).value.next else i + 1
  }

  // Reading from i comes to k.
  predicate Visits(p: Program, i: nat, k: nat)
    requires k < |p.src|
    decreases k - i
  {
    i == k || (i < k && Visits(p, ReadOn(p, i), k))
  }

  // Brackets opened less those closed on the way from i to k.
  function Level(p: Program, i: nat, k: nat): int
    requires k < |p.src|
    decreases k - i
  {
    if i >= k then 0
    else
      Bracket(p.src[i]) + Level(p, ReadOn(p, i), k)
  }

  // A comma that is read, outside literals, with no bracket open.
  predicate TopComma(p: Program, i: nat, depth: int, end: nat, k: nat)
    requires end <= |p.src|
  {
    k < end && p.src[k] == ',' && Visits(p, i, k) && depth + Level(p, i, k) == 0
  }

  // The list from argStart to end, cut at exactly its top-level commas: an empty last
  // argument is left out.
  ghost predicate Cuts(p: Program, i: nat, end: nat, depth: int, argStart: nat, r: seq<Span>)
    requires end <= |p.src|
  {
    && (r == [] <==> argStart >= end)
    && (r != [] ==> r[0].start == argStart)
    && (forall a :: 0 <= a < |r| - 1 ==> r[a + 1].start == r[a].end + 1 && TopComma(p, i, depth, end, r[a].end))
    && (r != [] ==> var e := r[|r| - 1].end; e == end || (e + 1 == end && TopComma(p, i, depth, end, e)))
    && (forall k: nat :: TopComma(p, i, depth, end, k) ==> exists a :: 0 <= a < |r| && r[a].end == k)
  }

  // The list is cut the same way from where it is read on.
  lemma CutsOn(p: Program, i: nat, end: nat, depth: int, j: nat, level: int, argStart: nat, r: seq<Span>)
    requires end <= |p.src| && Cuts(p, j, end, level, argStart, r)
    requires forall k: nat :: TopComma(p, i, depth, end, k) <==> TopComma(p, j, level, end, k)
    ensures Cuts(p, i, end, depth, argStart, r)
  {
  }

  function Bracket(c: char): int {
    if c == '(' || c == '[' then 1 else if c == ')' || c == ']' then -1 else 0
  }

  lemma CommaFurther(p: Program, i: nat, depth: int, end: nat, k: nat)
    requires i < end <= |p.src| && (p.src[i] != ',' || depth != 0)
    ensures TopComma(p, i, depth, end, k) <==> TopComma(p, ReadOn(p, i), depth + Bracket(p.src[i]), end, k)
  {
  }

  lemma CommaHere(p: Program, i: nat, end: nat, k: nat)
    requires i < end <= |p.src| && p.src[i] == ','
    ensures TopComma(p, i, 0, end, k) <==> k == i || TopComma(p, i + 1, 0, end, k)
  {
  }

  lemma CutFurther(p: Program, i: nat, end: nat, depth: int, argStart: nat, r: seq<Span>)
    requires i < end <= |p.src| && (p.src[i] != ',' || depth != 0)
    requires Cuts(p, ReadOn(p, i), end, depth + Bracket(p.src[i]), argStart, r)
    ensures Cuts(p, i, end, depth, argStart, r)
  {
    var j, level := ReadOn(p, i), depth + Bracket(p.src[i]);
    forall k: nat ensures TopComma(p, i, depth, end, k) <==> TopComma(p, j, level, end, k) {
      CommaFurther(p, i, depth, end, k);
    }
    CutsOn(p, i, end, depth, j, level, argStart, r);
  }

  lemma {:induction false} SplitCuts(p: Program, i: nat, end: nat, depth: int, argStart: nat)
    requires end <= |p.src| && argStart <= i && argStart <= end
    ensures Cuts(p, i, end, depth, argStart, SplitFrom(p, i, end, depth, argStart))
    decreases end - i, 1
  {
    if i >= end {
      CutEnd(p, i, end, depth, argStart);
    } else if p.src[i] == ',' && depth == 0 {
      SplitCutsHere(p, i, end, argStart);
    } else {
      SplitCutsFurther(p, i, end, depth, argStart);
    }
  }

  lemma {:induction false} SplitCutsHere(p: Program, i: nat, end: nat, argStart: nat)
    requires argStart <= i < end <= |p.src| && p.src[i] == ','
    ensures Cuts(p, i, end, 0, argStart, SplitFrom(p, i, end, 0, argStart))
    decreases end - i, 0
  {
    var rest := SplitFrom(p, i + 1, end, 0, i + 1);
    SplitCuts(p, i + 1, end, 0, i + 1);
    CutHere(p, i, end, argStart, rest, SplitFrom(p, i, end, 0, argStart));
  }

  lemma {:induction false} SplitCutsFurther(p: Program, i: nat, end: nat, depth: int, argStart: nat)
    requires argStart <= i < end <= |p.src| && (p.src[i] != ',' || depth != 0)
    ensures Cuts(p, i, end, depth, argStart, SplitFrom(p, i, end, depth, argStart))
    decreases end - i, 0
  {
    SplitFurther(p, i, end, depth, argStart);
    SplitCuts(p, ReadOn(p, i), end, depth + Bracket(p.src[i]), argStart);
    CutFurther(p, i, end, depth, argStart, SplitFrom(p, i, end, depth, argStart));
  }

  lemma SplitFurther(p: Program, i: nat, end: nat, depth: int, argStart: nat)
    requires argStart <= i < end <= |p.src| && (p.src[i] != ',' || depth != 0)
    ensures SplitFrom(p, i, end, depth, argStart) ==
      SplitFrom(p, ReadOn(p, i), end, depth + Bracket(p.src[i]), argStart)
  {
  }

  lemma CutEnd(p: Program, i: nat, end: nat, depth: int, argStart: nat)
    requires argStart <= end <= |p.src| && end <= i
    ensures Cuts(p, i, end, depth, argStart, if argStart < end then [Span(argStart, end)] else [])
  {
  }

  lemma CutHere(p: Program, i: nat, end: nat, argStart: nat, rest: seq<Span>, r: seq<Span>)
    requires argStart <= i < end <= |p.src| && p.src[i] == ',' && Cuts(p, i + 1, end, 0, i + 1, rest)
    requires r == [Span(argStart, i)] + rest
    ensures Cuts(p, i, end, 0, argStart, r)
  {
    forall k: nat ensures TopComma(p, i, 0, end, k) <==> k == i || TopComma(p, i + 1, 0, end, k) {
      CommaHere(p, i, end, k);
    }
    forall k: nat | TopComma(p, i, 0, end, k) ensures exists a :: 0 <= a < |r| && r[a].end == k {
      if k == i {
        assert r[0].end == k;
      } else {
        var a :| 0 <= a < |rest| && rest[a].end == k;
        assert r[a + 1].end == k;
      }
    }
    forall a | 0 <= a < |r| - 1 ensures r[a + 1].start == r[a].end + 1 && TopComma(p, i, 0, end, r[a].end) {
      assert r[a + 1] == rest[a];
      if a > 0 { assert r[a] == rest[a - 1]; }
    }
    if rest != [] { assert r[|r| - 1] == rest[|rest| - 1]; }
  }

  /** An argument list is cut at exactly its top-level commas. */
  lemma ArgsAreCut(p: Program, lo: nat, hi: nat)
    requires lo <= hi <= |p.src|
    ensures Cuts(p, lo, hi, 0, lo, SplitArgs(p, lo, hi))
  {
    SplitCuts(p, lo, hi, 0, lo);
  }

  // What stands at i: the parts of an expression.
  datatype Item =
    | Skip
    | Lit(value: Bytes, next: nat)
    | Var(name: Bytes, next: nat)
    | Call(name: Bytes, lo: nat, hi: nat)
    | Number(value: Bytes, next: nat)
    | Stuck

  predicate Separates(c: char) {
    c == ' ' || c == '\t' || c == '\n' || c == '\r' || c == '.' || c == '(' || c == ')' || c == ','
  }

  function ItemAt(p: Program, i: nat, end: nat): (it: Item)
    requires i < end <= |p.src|
    ensures (it.Lit? || it.Var? || it.Number?) ==> i < it.next
    ensures it.Call? ==> i < it.lo <= it.hi < end
  {
    var c := p.src[i];
    if Separates(c) then Skip
    else if c == '\'' || c == '"' then
      var l := LiteralAt(p, i);
      if l.Some? then Lit(l.value.value, l.value.next) else Stuck
    else if c == '$' then
      var j := IdentStop(p.src, i + 1, end);
      if j == i + 1 then Stuck else Var(p.src[i + 1..j], j)
    else if IsIdent(c) then
      var j := IdentStop(p.src, i, end);
      var name := p.lib.lower(p.src[i..j]);
      var k := BlankStop(p.src, j, end);
      if k < end && p.src[k] == '(' then
        var m := MatchParen(p.src, k, end);
        if m.Some? then Call(name, k + 1, m.value) else Stuck
      else
        var n := p.lib.number(name);
        if n.Some? then Number(n.value, j) else Stuck
    else Stuck
  }

  function ItemNext(it: Item, i: nat): nat {
    match it
    case Skip => i + 1
    case Lit(_, next) => next
    case Var(_, next) => next
    case Call(_, _, hi) => hi + 1
    case Number(_, next) => next
    case Stuck => i + 1
  }

  method FindIdentStop(s: Source, i: nat, end: nat) returns (j: nat)
    requires i <= end <= |s|
    ensures j == IdentStop(s, i, end)
  {
    j := i;
    while j < end && IsIdent(s[j])
      invariant i <= j <= end && IdentStop(s, j, end) == IdentStop(s, i, end)
    {
      j := j + 1;
    }
  }

  method FindBlankStop(s: Source, i: nat, end: nat) returns (k: nat)
    requires i <= end <= |s|
    ensures k == BlankStop(s, i, end)
  {
    k := i;
    while k < end && (s[k] == ' ' || s[k] == '\t')
      invariant i <= k <= end && BlankStop(s, k, end) == BlankStop(s, i, end)
    {
      k := k + 1;
    }
  }

  method FindParen(s: Source, open: nat, limit: nat) returns (r: Option<nat>)
    requires open < limit <= |s| && s[open] == '('
    ensures r == MatchParen(s, open, limit) && Matches(s, open, limit, r)
  {
    r := ScanParen(s, open, limit);
    ParenMatches(s, open, limit);
  }

  method ScanParen(s: Source, open: nat, limit: nat) returns (r: Option<nat>)
    requires open < limit <= |s| && s[open] == '('
    ensures r == MatchParen(s, open, limit)
  {
    var depth, quote := 1, None;
    var i := open + 1;
    while i < limit
      invariant open < i && CloseFrom(s, i, limit, depth, quote) == MatchParen(s, open, limit)
      decreases limit - i
    {
      var c := s[i];
      if quote.Some? {
        if c == '\\' {
          i := i + 2;
          continue;
        }
        if c == quote.value { quote := None; }
        i := i + 1;
        continue;
      }
      if c == '\'' || c == '"' {
        quote := Some(c);
      } else if c == '(' {
        depth := depth + 1;
      } else if c == ')' {
        depth := depth - 1;
        if depth == 0 { return Some(i); }
      }
      i := i + 1;
    }
    return None;
  }

  method FindLiteral(p: Program, pos: nat) returns (r: Option<Literal>)
    ensures r == LiteralAt(p, pos)
  {
    for a := 0 to |p.strs|
      invariant LiteralFrom(p, a, pos) == LiteralAt(p, pos)
    {
      var s := p.strs[a];
      if s.start == pos + 1 || s.start == pos {
        var end := Min(s.end, |p.src|);
        if s.start > end { return None; }
        return Some(Literal(p.lib.unescape(p.src[s.start..end]), end + 1));
      }
    }
    return None;
  }

  method CutArgs(p: Program, lo: nat, hi: nat) returns (out: seq<Span>)
    requires lo <= hi <= |p.src|
    ensures out == SplitArgs(p, lo, hi) && Cuts(p, lo, hi, 0, lo, out)
  {
    out := ScanArgs(p, lo, hi);
    ArgsAreCut(p, lo, hi);
  }

  method ScanArgs(p: Program, lo: nat, hi: nat) returns (out: seq<Span>)
    requires lo <= hi <= |p.src|
    ensures out == SplitArgs(p, lo, hi)
  {
    out := [];
    var depth, argStart, i := 0, lo, lo;
    while i < hi
      invariant lo <= argStart <= i && argStart <= hi
      invariant out + SplitFrom(p, i, hi, depth, argStart) == SplitArgs(p, lo, hi)
      decreases hi - i
    {
      var c := p.src[i];
      if c == '\'' || c == '"' {
        var l := FindLiteral(p, i);
        if l.Some? { i := l.value.next; } else { i := i + 1; }
        continue;
      } else if c == '(' || c == '[' {
        depth := depth + 1;
      } else if c == ')' || c == ']' {
        depth := depth - 1;
      } else if c == ',' && depth == 0 {
        out := out + [Span(argStart, i)];
        argStart := i + 1;
      }
      i := i + 1;
    }
    if argStart < hi {
      out := out + [Span(argStart, hi)];
    }
  }

  method ReadItem(p: Program, i: nat, end: nat) returns (it: Item)
    requires i < end <= |p.src|
    ensures it == ItemAt(p, i, end)
  {
    var c := p.src[i];
    if Separates(c) { return Skip; }
    if c == '\'' || c == '"' {
      var l := FindLiteral(p, i);
      return if l.Some? then Lit(l.value.value, l.value.next) else Stuck;
    }
    if c == '$' {
      var j := FindIdentStop(p.src, i + 1, end);
      return if j == i + 1 then Stuck else Var(p.src[i + 1..j], j);
    }
    if !IsIdent(c) { return Stuck; }
    var j := FindIdentStop(p.src, i, end);
    var name := p.lib.lower(p.src[i..j]);
    var k := FindBlankStop(p.src, j, end);
    if k < end && p.src[k] == '(' {
      var m := FindParen(p.src, k, end);
      return if m.Some? then Call(name, k + 1, m.value) else Stuck;
    }
    var n := p.lib.number(name);
    return if n.Some? then Number(n.value, j) else Stuck;
  }
}
