/** What the folder takes from the text: the items of an expression, their concatenation,
    and the value of each call in terms of its arguments. */
module PhpConstCalls {
  import opened Common
  import opened PhpLexer
  import opened PhpConstReading
  import opened PhpConst

  // ---------------------------------------------------------------------
  // substr
  // ---------------------------------------------------------------------

  // r is what substr takes of v from off on, of that length if there is one.
  ghost predicate IsSubstr(v: Bytes, off: int, len: Option<int>, r: Option<Bytes>) {
    if off > |v| || off < -|v| then r == None
    else
      var from := if off >= 0 then off else |v| + off;
      var rest := |v| - from;
      && r.Some?
      && |r.value| == (if len == None then rest
                       else if 0 <= len.value <= rest then len.value
                       else if -rest <= len.value < 0 then rest + len.value
                       else rest)
      && forall k :: 0 <= k < |r.value| ==> r.value[k] == v[from + k]
  }

  // The length a call is given, if its third argument folds to an integer.
  function FoldedLength(p: Program, st: State, args: seq<Span>): Option<int> {
    if |args| < 3 then None
    else
      var n := FoldRange(p, st, args[2].start, args[2].end).v;
      if n.None? then None else p.lib.atoi(n.value)
  }

  /** The answer of a substr call: the bytes of its text from the offset on, a negative one
      counted from the end, as many as the length says if it fits, or all of them. */
  lemma SubstrAnswers(p: Program, st: State, lo: nat, hi: nat)
    requires lo <= hi <= |p.src| && |SplitArgs(p, lo, hi)| >= 2
    ensures var args := SplitArgs(p, lo, hi);
            var v := FoldRange(p, st, args[0].start, args[0].end);
            var o := FoldRange(p, v.st, args[1].start, args[1].end);
            var r := FoldCall(p, st, "substr", lo, hi).v;
            if v.v.None? || o.v.None? || p.lib.atoi(o.v.value).None? then r == None
            else IsSubstr(v.v.value, p.lib.atoi(o.v.value).value, FoldedLength(p, o.st, args), r)
  {
  }

  /** And its meaning, where no more fuel is asked for. */
  lemma SubstrMeans(p: Program, f: nat, lo: nat, hi: nat)
    requires lo <= hi <= |p.src| && |SplitArgs(p, lo, hi)| >= 2
    requires forall a <- SplitArgs(p, lo, hi) :: EvalRange(p, f, a.start, a.end) != Deep
    ensures var args := SplitArgs(p, lo, hi);
            var v, o := EvalRange(p, f, args[0].start, args[0].end), EvalRange(p, f, args[1].start, args[1].end);
            var r := EvalCall(p, f, "substr", lo, hi);
            if v.Unknown? || o.Unknown? || p.lib.atoi(o.v).None? then r == Unknown
            else
              var n := if |args| < 3 then Unknown else EvalRange(p, f, args[2].start, args[2].end);
              r != Deep && IsSubstr(v.v, p.lib.atoi(o.v).value, if n.Value? then p.lib.atoi(n.v) else None,
                                    if r.Value? then Some(r.v) else None)
  {
    var args := SplitArgs(p, lo, hi);
    assert args[0] in args && args[1] in args && (|args| > 2 ==> args[2] in args);
  }

  // ---------------------------------------------------------------------
  // The other functions
  // ---------------------------------------------------------------------

  predicate OfOneArgument(name: Bytes) {
    || name == "base64_decode" || name == "hex2bin" || name == "str_rot13" || name == "strrev"
    || name == "trim" || name == "stripslashes" || name == "rtrim" || name == "ltrim"
    || name == "strtolower" || name == "strtoupper" || name == "chr"
    || name == "gzinflate" || name == "gzuncompress" || name == "gzdecode"
    || name == "urldecode" || name == "rawurldecode"
  }

  // What the n-th argument folds to.
  function FoldedArg(p: Program, st: State, args: seq<Span>, n: nat): Folded {
    if n < |args| then FoldRange(p, st, args[n].start, args[n].end) else Folded(st, None)
  }

  /** A function of one argument gives the library's value of what the argument folds to. */
  lemma UnaryAnswers(p: Program, st: State, name: Bytes, lo: nat, hi: nat)
    requires lo <= hi <= |p.src| && OfOneArgument(name)
    ensures var v := FoldedArg(p, st, SplitArgs(p, lo, hi), 0).v;
            FoldCall(p, st, name, lo, hi).v == if v.None? then None else p.lib.unary(name, v.value)
  {
    UnaryIsListed(name);
  }

  lemma UnaryIsListed(name: Bytes)
    ensures name in UNARY <==> OfOneArgument(name)
    ensures name in UNARY ==> name !in DIGESTS && name != "substr" && name != "pack" && name != "str_replace"
  {
  }

  // The second argument is there and reads true.
  predicate ReadsTrue(p: Program, args: seq<Span>) {
    && |args| >= 2 && args[1].start < args[1].end <= |p.src|
    && p.lib.boolWord(p.src[args[1].start..args[1].end]) == Some(true)
  }

  /** A digest is raw exactly where its second argument reads true. */
  lemma DigestAnswers(p: Program, st: State, name: Bytes, lo: nat, hi: nat)
    requires lo <= hi <= |p.src| && (name == "md5" || name == "sha1")
    ensures var args := SplitArgs(p, lo, hi);
            var v := FoldedArg(p, st, args, 0).v;
            FoldCall(p, st, name, lo, hi).v ==
              if v.None? then None else Some(p.lib.digest(name, v.value, ReadsTrue(p, args)))
  {
  }

  /** pack decodes its second argument, in the hexadecimal form and with two arguments only. */
  lemma PackAnswers(p: Program, st: State, lo: nat, hi: nat)
    requires lo <= hi <= |p.src|
    ensures var args := SplitArgs(p, lo, hi);
            var f := FoldedArg(p, st, args, 0);
            var h := FoldedArg(p, f.st, args, 1);
            FoldCall(p, st, "pack", lo, hi).v ==
              if f.v.Some? && p.lib.lower(f.v.value) == "h*" && h.v.Some? then p.lib.unhex(h.v.value) else None
  {
  }

  /** str_replace replaces its first argument by its second in its third. */
  lemma ReplaceAnswers(p: Program, st: State, lo: nat, hi: nat)
    requires lo <= hi <= |p.src|
    ensures var args := SplitArgs(p, lo, hi);
            var search := FoldedArg(p, st, args, 0);
            var replace := FoldedArg(p, search.st, args, 1);
            var subject := FoldedArg(p, replace.st, args, 2);
            FoldCall(p, st, "str_replace", lo, hi).v ==
              if search.v.Some? && replace.v.Some? && subject.v.Some? then
                Some(p.lib.replaceAll(subject.v.value, search.v.value, replace.v.value))
              else None
  {
  }

  /** No other function is folded. */
  lemma OthersAnswerNothing(p: Program, st: State, name: Bytes, lo: nat, hi: nat)
    requires lo <= hi <= |p.src| && !OfOneArgument(name)
    requires name != "md5" && name != "sha1" && name != "pack" && name != "str_replace" && name != "substr"
    ensures FoldCall(p, st, name, lo, hi) == Folded(st, None)
  {
    UnaryIsListed(name);
  }

  // ---------------------------------------------------------------------
  // Concatenation
  // ---------------------------------------------------------------------

  /** A range folds to its first item's value and then the rest's, one unit of budget a turn;
      a literal or a variable that makes the value longer than four mebibytes ends it. */
  lemma ItemsConcatenate(p: Program, st: State, i: nat, end: nat, out: Bytes)
    requires i < end <= |p.src|
    ensures var it, r := ItemAt(p, i, end), FoldItem(p, st.(budget := st.budget - 1), i, end);
            var next := if it.Skip? || it.Stuck? then i + 1 else if it.Call? then it.hi + 1 else it.next;
            FoldFrom(p, st, i, end, out).v ==
              if st.budget <= 0 || r.v.None? then None
              else if (it.Lit? || it.Var?) && |out| + |r.v.value| > 4 * 1024 * 1024 then None
              else FoldFrom(p, r.st, next, end, out + r.v.value).v
  {
  }

  // Where a range has a value, all that was before it stands in front.
  lemma {:induction false} WhatIsBeforeStays(p: Program, f: nat, i: nat, end: nat, out: Bytes)
    requires end <= |p.src|
    ensures var r, alone := EvalFrom(p, f, i, end, out), EvalFrom(p, f, i, end, []);
            (r.Value? <==> alone.Value?) && (r.Value? ==> r.v == out + alone.v)
    decreases Max(0, end - i)
  {
    if i < end {
      var next, v := ItemNext(ItemAt(p, i, end), i), EvalItem(p, f, i, end);
      if v.Value? {
        WhatIsBeforeStays(p, f, next, end, out + v.v);
        WhatIsBeforeStays(p, f, next, end, [] + v.v);
        var rest := EvalFrom(p, f, next, end, []);
        if rest.Value? { assert (out + v.v) + rest.v == out + (v.v + rest.v) && [] + v.v == v.v; }
      }
    } else {
      assert out + [] == out;
    }
  }

  /** A range means its first item's value followed by the rest's. */
  lemma RangesConcatenate(p: Program, f: nat, i: nat, end: nat, v: Bytes, w: Bytes)
    requires i < end <= |p.src| && EvalItem(p, f, i, end) == Value(v)
    requires EvalFrom(p, f, ItemNext(ItemAt(p, i, end), i), end, []) == Value(w)
    ensures EvalFrom(p, f, i, end, []) == Value(v + w)
  {
    WhatIsBeforeStays(p, f, ItemNext(ItemAt(p, i, end), i), end, [] + v);
    assert [] + v == v;
  }

  // ---------------------------------------------------------------------
  // Items
  // ---------------------------------------------------------------------

  predicate WordByte(c: char) {
    c == '_' || '0' <= c <= '9' || 'a' <= c <= 'z' || 'A' <= c <= 'Z'
  }

  // The bytes from i to j are a whole word, as far as end.
  ghost predicate Word(s: Source, i: nat, j: nat, end: nat) {
    && i < j <= end <= |s| && (forall k :: i <= k < j ==> WordByte(s[k])) && (j < end ==> !WordByte(s[j]))
  }

  lemma {:induction false} IdentStopsThere(s: Source, i: nat, end: nat)
    requires i <= end <= |s|
    ensures var j := IdentStop(s, i, end);
            (j == i && (i < end ==> !WordByte(s[i]))) || Word(s, i, j, end)
    decreases end - i
  {
    if i < end && IsIdent(s[i]) { IdentStopsThere(s, i + 1, end); }
  }

  // From j on there are blanks up to k.
  ghost predicate Blanks(s: Source, j: nat, k: nat, end: nat) {
    && j <= k <= end <= |s| && (forall n :: j <= n < k ==> s[n] == ' ' || s[n] == '\t')
    && (k < end ==> s[k] != ' ' && s[k] != '\t')
  }

  lemma {:induction false} BlankStopsThere(s: Source, j: nat, end: nat)
    requires j <= end <= |s|
    ensures Blanks(s, j, BlankStop(s, j, end), end)
    decreases end - j
  {
    if j < end && (s[j] == ' ' || s[j] == '\t') { BlankStopsThere(s, j + 1, end); }
  }

  // The a-th string is the first whose content starts at pos or behind it.
  ghost predicate FirstString(p: Program, pos: nat, a: nat) {
    && a < |p.strs| && (p.strs[a].start == pos || p.strs[a].start == pos + 1)
    && forall b :: 0 <= b < a ==> p.strs[b].start != pos && p.strs[b].start != pos + 1
  }

  ghost predicate IsLiteral(p: Program, pos: nat, l: Option<Literal>) {
    && (l.Some? ==> exists a: nat :: FirstString(p, pos, a) && LiteralOf(p, p.strs[a], l.value))
    && (l.None? ==> forall a: nat :: FirstString(p, pos, a) ==> p.strs[a].start > Min(p.strs[a].end, |p.src|))
  }

  // The string's content unescaped, and the place behind its closing delimiter.
  ghost predicate LiteralOf(p: Program, s: Span, l: Literal) {
    var end := Min(s.end, |p.src|);
    s.start <= end && l.value == p.lib.unescape(p.src[s.start..end]) && l.next == end + 1
  }

  lemma {:induction false} LiteralIsThere(p: Program, a: nat, pos: nat)
    requires a <= |p.strs| && forall b :: 0 <= b < a ==> p.strs[b].start != pos && p.strs[b].start != pos + 1
    ensures IsLiteral(p, pos, LiteralFrom(p, a, pos))
    decreases |p.strs| - a
  {
    if a < |p.strs| {
      if p.strs[a].start == pos + 1 || p.strs[a].start == pos {
        assert FirstString(p, pos, a);
      } else {
        LiteralIsThere(p, a + 1, pos);
      }
    }
  }

  // What stands at i of an expression that goes up to end.
  ghost predicate Reads(p: Program, i: nat, end: nat, it: Item)
    requires i < end <= |p.src|
  {
    var s, c := p.src, p.src[i];
    if c in " \t\n\r.()," then it == Skip
    else if c == '\'' || c == '"' then
      exists l :: IsLiteral(p, i, l) && it == (if l.Some? then Lit(l.value.value, l.value.next) else Stuck)
    else if c == '$' then
      if i + 1 < end && WordByte(s[i + 1]) then it.Var? && Word(s, i + 1, it.next, end) && it.name == s[i + 1..it.next]
      else it == Stuck
    else if WordByte(c) then
      exists j, k: nat :: Word(s, i, j, end) && Blanks(s, j, k, end) && ReadsWord(p, i, j, k, end, it)
    else it == Stuck
  }

  // A word, and blanks: a call if a parenthesis follows, else a number.
  ghost predicate ReadsWord(p: Program, i: nat, j: nat, k: nat, end: nat, it: Item)
    requires i <= j <= k <= end <= |p.src|
  {
    var name := p.lib.lower(p.src[i..j]);
    if k < end && p.src[k] == '(' then
      exists m :: Matches(p.src, k, end, m) && it == (if m.Some? then Call(name, k + 1, m.value) else Stuck)
    else it == (if p.lib.number(name).Some? then Number(p.lib.number(name).value, j) else Stuck)
  }

  lemma WordIsRead(p: Program, i: nat, end: nat)
    requires i < end <= |p.src| && WordByte(p.src[i])
    ensures Reads(p, i, end, ItemAt(p, i, end))
  {
    var s := p.src;
    var j := IdentStop(s, i, end);
    var k := BlankStop(s, j, end);
    IdentStopsThere(s, i, end);
    BlankStopsThere(s, j, end);
    if k < end && s[k] == '(' { ParenMatches(s, k, end); }
    assert Word(s, i, j, end) && Blanks(s, j, k, end) && ReadsWord(p, i, j, k, end, ItemAt(p, i, end));
  }

  /** What stands at a place of an expression, byte class by byte class. */
  lemma ItemsAreRead(p: Program, i: nat, end: nat)
    requires i < end <= |p.src|
    ensures Reads(p, i, end, ItemAt(p, i, end))
  {
    var c := p.src[i];
    if WordByte(c) {
      WordIsRead(p, i, end);
    } else if c == '\'' || c == '"' {
      LiteralIsThere(p, 0, i);
      assert IsLiteral(p, i, LiteralAt(p, i));
    } else if c == '$' {
      IdentStopsThere(p.src, i + 1, end);
    }
  }
}
