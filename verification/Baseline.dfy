/** The baseline of a site's PHP files: how it is written, how it is read back,
    and what a later tree differs by.  One char stands for one byte. */
module Baseline {
  import opened Common

  datatype Entry = Entry(sha: string, size: int, path: string)

  // What the first two lines say.
  datatype Header = Header(site: string, webroot: string, taken: string)

  type Entries = map<string, Entry>

  const MAX_LINE := 1048576         // the scanner's buffer
  const MAX_INT := 9223372036854775807

  // ---------------------------------------------------------------------
  // Numbers
  // ---------------------------------------------------------------------

  predicate IsDigit(c: char) { '0' <= c <= '9' }

  function Dec(n: nat): (s: string)
    ensures s != [] && forall k :: 0 <= k < |s| ==> IsDigit(s[k])
  {
    (if n < 10 then [] else Dec(n / 10)) + ['0' + (n % 10) as char]
  }

  function Value(s: string): nat
    requires forall k :: 0 <= k < |s| ==> IsDigit(s[k])
  {
    if s == [] then 0 else assert IsDigit(s[|s| - 1]); 10 * Value(s[..|s| - 1]) + (s[|s| - 1] as int - '0' as int)
  }

  predicate AllDigits(s: string) {
    s != [] && forall k :: 0 <= k < |s| ==> IsDigit(s[k])
  }

  // The library's conversion, its error ignored: zero for what is no number, the
  // nearest 64-bit value for one out of range.
  function ParseInt(s: string): int {
    var digits := if s != [] && (s[0] == '-' || s[0] == '+') then s[1..] else s;
    if !AllDigits(digits) then 0
    else if s[0] == '-' then Max(0 - Value(digits), -MAX_INT - 1)
    else Min(Value(digits), MAX_INT)
  }

  lemma {:induction false} ValueOfDec(n: nat)
    ensures Value(Dec(n)) == n
  {
    var last := ['0' + (n % 10) as char];
    if n < 10 {
      assert Dec(n) == last && last[..0] == [];
    } else {
      ValueOfDec(n / 10);
      assert Dec(n)[..|Dec(n)| - 1] == Dec(n / 10);
    }
  }

  lemma ParseAfterDec(n: nat)
    requires n <= MAX_INT
    ensures ParseInt(Dec(n)) == n
  {
    ValueOfDec(n);
    assert IsDigit(Dec(n)[0]);
  }

  // A number in decimal, with a sign or without one.
  lemma SignIsRead(d: string)
    requires AllDigits(d)
    ensures ParseInt(d) == ParseInt("+" + d) == Min(Value(d), MAX_INT)
    ensures ParseInt("-" + d) == Max(0 - Value(d), -MAX_INT - 1)
  {
    assert IsDigit(d[0]);
    assert ("+" + d)[1..] == d && ("-" + d)[1..] == d;
  }

  /** A sign is understood, and what does not fit 64 bits becomes the nearest that does. */
  lemma NumbersAreRead(n: nat)
    ensures var last := 9223372036854775807;
            && ParseInt(Dec(n)) == ParseInt("+" + Dec(n)) == Min(n, last)
            && ParseInt("-" + Dec(n)) == Max(0 - n, -last - 1)
  {
    ValueOfDec(n);
    SignIsRead(Dec(n));
  }

  /** What is no number is zero: nothing behind the sign, or some char that is no digit. */
  lemma NoNumberIsZero(s: string)
    requires var d := if s != "" && s[0] in {'+', '-'} then s[1..] else s;
             d == "" || exists k :: 0 <= k < |d| && !IsDigit(d[k])
    ensures ParseInt(s) == 0
  {
  }

  // ---------------------------------------------------------------------
  // Writing
  // ---------------------------------------------------------------------

  predicate Sizes(entries: seq<Entry>) {
    forall k :: 0 <= k < |entries| ==> entries[k].size >= 0
  }

  function Line(e: Entry): string
    requires e.size >= 0
  {
    e.sha + " " + Dec(e.size) + " " + e.path
  }

  function Meta(h: Header, n: nat): string {
    "# site=" + h.site + " webroot=" + h.webroot + " taken=" + h.taken + " files=" + Dec(n)
  }

  const TITLE := "# wordeye baseline v1"

  function Lines(entries: seq<Entry>): string
    requires Sizes(entries)
  {
    if entries == [] then "" else Line(entries[0]) + "\n" + Lines(entries[1..])
  }

  function Written(h: Header, entries: seq<Entry>): string
    requires Sizes(entries)
  {
    TITLE + "\n" + (Meta(h, |entries|) + "\n" + Lines(entries))
  }

  // ---------------------------------------------------------------------
  // Reading
  // ---------------------------------------------------------------------

  function LineEnd(s: string, i: nat): (r: nat)
    requires i <= |s|
    ensures i <= r <= |s| && (r < |s| ==> s[r] == '\n') && forall k :: i <= k < r ==> s[k] != '\n'
    decreases |s| - i
  {
    if i < |s| && s[i] != '\n' then LineEnd(s, i + 1) else i
  }

  // The scanner drops one carriage return from the end of a line.
  function DropCR(line: string): string {
    if line != [] && line[|line| - 1] == '\r' then line[..|line| - 1] else line
  }

  predicate IsSpace(c: char) {
    c == ' ' || c == '\t' || c == '\n' || c == '\r' || c == '\U{0B}' || c == '\U{0C}'
  }

  function SkipSpace(s: string): string {
    if s != [] && IsSpace(s[0]) then SkipSpace(s[1..]) else s
  }

  function Word(s: string): string {
    if s == [] || IsSpace(s[0]) then [] else [s[0]] + Word(s[1..])
  }

  // The first field, if there is one.
  function FirstField(s: string): Option<string> {
    var t := SkipSpace(s);
    if t == [] then None else Some(Word(t))
  }

  // What a comment line makes of the date; there is none to take the first of where
  // nothing follows "taken=".
  function NewMeta(line: string, meta: string): Option<string> {
    match FirstAt(line, "taken=", 0)
    case None => Some(meta)
    case Some(i) => FirstField(line[i + 6..])
  }

  // A line cut at its first two spaces.
  function SplitTwice(line: string): Option<(string, string, string)> {
    match FirstAt(line, " ", 0)
    case None => None
    case Some(i) =>
      match FirstAt(line, " ", i + 1)
      case None => None
      case Some(j) => Some((line[..i], line[i + 1..j], line[j + 1..]))
  }

  function ParseLine(line: string): Option<Entry> {
    match SplitTwice(line)
    case None => None
    case Some((sha, size, path)) => Some(Entry(sha, ParseInt(size), path))
  }

  datatype Read = Good(entries: Entries, meta: string) | Empty(meta: string) | TooLong(meta: string) | Crash

  predicate Comment(line: string) { line != [] && line[0] == '#' }

  function Rest(s: string): string {
    var end := LineEnd(s, 0);
    if end < |s| then s[end + 1..] else []
  }

  function FirstLine(s: string): string {
    s[..LineEnd(s, 0)]
  }

  function Scan(s: string, found: Entries, meta: string): Read
    decreases |s|
  {
    if s == [] then (if found == map[] then Empty(meta) else Good(found, meta))
    else if |FirstLine(s)| >= MAX_LINE then TooLong(meta)
    else
      var line := DropCR(FirstLine(s));
      if Comment(line) then
        (match NewMeta(line, meta)
         case None => Crash
         case Some(m) => Scan(Rest(s), found, m))
      else
        match ParseLine(line)
        case None => Scan(Rest(s), found, meta)
        case Some(e) => Scan(Rest(s), found[e.path := e], meta)
  }

  const UNKNOWN := "(unknown date)"

  method ReadBaseline(data: string) returns (r: Read)
    ensures r == Scan(data, map[], UNKNOWN)
  {
    var rest, meta := data, UNKNOWN;
    var out: Entries := map[];
    while rest != []
      invariant Scan(rest, out, meta) == Scan(data, map[], UNKNOWN)
      decreases |rest|
    {
      if |FirstLine(rest)| >= MAX_LINE { return TooLong(meta); }
      var line := DropCR(FirstLine(rest));
      if line != [] && line[0] == '#' {
        var i := Index(line, "taken=", 0);
        if i.Some? {
          var field := FirstField(line[i.value + 6..]);
          if field.None? { return Crash; }
          meta := field.value;
        }
      } else {
        var e := ParseLine(line);
        if e.Some? { out := out[e.value.path := e.value]; }
      }
      rest := Rest(rest);
    }
    return if |out| == 0 then Empty(meta) else Good(out, meta);
  }

  lemma Regroup(a: string, b: string, c: string)
    ensures (a + b) + c == a + (b + c)
  {
  }

  method WriteBaseline(h: Header, entries: seq<Entry>) returns (out: string)
    requires Sizes(entries)
    ensures out == Written(h, entries)
  {
    out := TITLE + "\n" + (Meta(h, |entries|) + "\n");
    Regroup(TITLE + "\n", Meta(h, |entries|) + "\n", Lines(entries));
    var i := 0;
    while i < |entries|
      invariant 0 <= i <= |entries|
      invariant out + Lines(entries[i..]) == Written(h, entries)
    {
      assert entries[i..][1..] == entries[i + 1..];
      Regroup(out, Line(entries[i]) + "\n", Lines(entries[i + 1..]));
      out := out + (Line(entries[i]) + "\n");
      i := i + 1;
    }
  }

  // ---------------------------------------------------------------------
  // The round trip
  // ---------------------------------------------------------------------

  ghost predicate OneLine(s: string) {
    forall k :: 0 <= k < |s| ==> s[k] != '\n'
  }

  // A file that the line format can hold.
  ghost predicate Plain(e: Entry) {
    && 0 <= e.size <= MAX_INT
    && OneLine(e.sha) && NoSpace(e.sha) && !Comment(e.sha)
    && OneLine(e.path)
    && |Line(e)| < MAX_LINE
  }

  ghost predicate NoCR(path: string) {
    path == [] || path[|path| - 1] != '\r'
  }

  lemma {:induction false} LineEndAfter(line: string, rest: string, i: nat)
    requires OneLine(line) && i <= |line|
    ensures LineEnd(line + "\n" + rest, i) == |line|
    decreases |line| - i
  {
    var s := line + "\n" + rest;
    assert s[|line|] == '\n';
    if i < |line| {
      assert s[i] == line[i];
      LineEndAfter(line, rest, i + 1);
    }
  }

  lemma Peel(line: string, rest: string)
    requires OneLine(line)
    ensures FirstLine(line + "\n" + rest) == line && Rest(line + "\n" + rest) == rest
  {
    LineEndAfter(line, rest, 0);
    var s := line + "\n" + rest;
    assert s[..|line|] == line && s[|line| + 1..] == rest;
  }

  ghost predicate NoSpace(s: string) {
    forall k :: 0 <= k < |s| ==> s[k] != ' '
  }

  lemma {:induction false} FirstIs(s: string, word: string, from: nat, i: nat)
    requires from <= i <= |s| && WordAt(s, word, i) && forall k :: from <= k < i ==> !WordAt(s, word, k)
    ensures FirstAt(s, word, from) == Some(i)
    decreases i - from
  {
    if from < i { FirstIs(s, word, from + 1, i); }
  }

  lemma SpaceIs(line: string, from: nat, i: nat)
    requires from <= i < |line| && line[i] == ' ' && NoSpace(line[from..i])
    ensures FirstAt(line, " ", from) == Some(i)
  {
    assert line[i..i + 1] == " ";
    forall k | from <= k < i ensures !WordAt(line, " ", k) {
      assert line[from..i][k - from] == line[k] == line[k..k + 1][0];
    }
    FirstIs(line, " ", from, i);
  }

  // line is a, d and p with a space between them.
  ghost predicate ThreeParts(line: string, a: string, d: string, p: string) {
    && |line| == |a| + |d| + |p| + 2 && line[|a|] == ' ' && line[|a| + 1 + |d|] == ' '
    && line[..|a|] == a && line[|a| + 1..|a| + 1 + |d|] == d && line[|a| + 1 + |d| + 1..] == p
  }

  lemma Cuts(a: string, d: string, p: string)
    ensures ThreeParts(a + " " + d + " " + p, a, d, p)
  {
  }

  lemma PartsSplit(line: string, a: string, d: string, p: string)
    requires ThreeParts(line, a, d, p) && NoSpace(a) && NoSpace(d)
    ensures SplitTwice(line) == Some((a, d, p))
  {
    assert line[0..|a|] == line[..|a|];
    SpaceIs(line, 0, |a|);
    SpaceIs(line, |a| + 1, |a| + 1 + |d|);
  }

  lemma ParsesBack(e: Entry)
    requires 0 <= e.size <= MAX_INT && NoSpace(e.sha)
    ensures ParseLine(Line(e)) == Some(e)
  {
    Cuts(e.sha, Dec(e.size), e.path);
    PartsSplit(Line(e), e.sha, Dec(e.size), e.path);
    ParseAfterDec(e.size);
  }

  /** A line reads back as its entry exactly when the path does not end in a carriage return. */
  lemma LineRoundTrip(e: Entry)
    requires Plain(e)
    ensures ParseLine(DropCR(Line(e))) == Some(e) <==> NoCR(e.path)
  {
    var line := Line(e);
    if NoCR(e.path) {
      assert line[|line| - 1] == if e.path == [] then ' ' else e.path[|e.path| - 1];
      ParsesBack(e);
    } else {
      var cut := e.(path := e.path[..|e.path| - 1]);
      assert line[|line| - 1] == e.path[|e.path| - 1];
      assert DropCR(line) == Line(cut);
      ParsesBack(cut);
    }
  }

  lemma LineIsNoComment(e: Entry)
    requires Plain(e) && NoCR(e.path)
    ensures !Comment(DropCR(Line(e))) && OneLine(Line(e))
  {
    var line, d := Line(e), Dec(e.size);
    assert line[|line| - 1] == if e.path == [] then ' ' else e.path[|e.path| - 1];
    assert line[0] == if e.sha == [] then ' ' else e.sha[0];
    forall k | 0 <= k < |line| ensures line[k] != '\n' {
      assert line[k] == if k < |e.sha| then e.sha[k] else if k == |e.sha| then ' '
                        else if k <= |e.sha| + |d| then d[k - |e.sha| - 1]
                        else if k == |e.sha| + |d| + 1 then ' ' else e.path[k - |e.sha| - |d| - 2];
    }
  }

  function MapOf(entries: seq<Entry>, m: Entries): Entries {
    if entries == [] then m else MapOf(entries[1..], m[entries[0].path := entries[0]])
  }

  lemma {:induction false} EntriesReadBack(entries: seq<Entry>, found: Entries, meta: string)
    requires Sizes(entries) && forall e :: e in entries ==> Plain(e) && NoCR(e.path)
    ensures Scan(Lines(entries), found, meta)
         == if MapOf(entries, found) == map[] then Empty(meta) else Good(MapOf(entries, found), meta)
    decreases |entries|
  {
    if entries != [] {
      var e := entries[0];
      assert e in entries;
      LineIsNoComment(e);
      Peel(Line(e), Lines(entries[1..]));
      LineRoundTrip(e);
      EntriesReadBack(entries[1..], found[e.path := e], meta);
    }
  }

  // ---------------------------------------------------------------------
  // The header
  // ---------------------------------------------------------------------

  // The header keeps to its two lines, which fit the buffer.
  ghost predicate PlainHeader(h: Header, n: nat) {
    OneLine(h.site) && OneLine(h.webroot) && OneLine(h.taken) && |Meta(h, n)| < MAX_LINE
  }

  function Front(h: Header): string {
    "# site=" + h.site + " webroot=" + h.webroot + " "
  }

  // The date is one field, and nothing before it in the line looks like it.
  ghost predicate ClearDate(h: Header) {
    && h.taken != [] && (forall k :: 0 <= k < |h.taken| ==> !IsSpace(h.taken[k]))
    && forall k :: 0 <= k < |Front(h)| ==> !WordAt(Front(h) + "taken=", "taken=", k)
  }

  lemma MetaIsPlain(h: Header, n: nat)
    requires PlainHeader(h, n)
    ensures OneLine(Meta(h, n)) && Comment(Meta(h, n)) && DropCR(Meta(h, n)) == Meta(h, n)
    ensures !IsSpace(Meta(h, n)[|Meta(h, n)| - 1]) && Meta(h, n)[|Meta(h, n)| - 1] != '='
  {
    var a, b, c, d := "# site=" + h.site, " webroot=" + h.webroot, " taken=" + h.taken, " files=" + Dec(n);
    assert OneLine(a) && OneLine(b) && OneLine(c) && OneLine(d);
    assert Meta(h, n) == a + b + c + d;
    assert Meta(h, n)[0] == a[0];
    assert IsDigit(Dec(n)[|Dec(n)| - 1]);
    assert Meta(h, n)[|Meta(h, n)| - 1] == Dec(n)[|Dec(n)| - 1];
  }

  lemma {:induction false} SomeField(s: string)
    requires s != [] && !IsSpace(s[|s| - 1])
    ensures FirstField(s).Some?
  {
    if IsSpace(s[0]) { SomeField(s[1..]); }
  }

  // Reading the second line never fails, whatever the site is called.
  lemma MetaIsRead(h: Header, n: nat, meta: string)
    requires PlainHeader(h, n)
    ensures NewMeta(Meta(h, n), meta).Some?
  {
    var line := Meta(h, n);
    MetaIsPlain(h, n);
    FirstAtMeans(line, "taken=", 0);
    match FirstAt(line, "taken=", 0)
    case None =>
    case Some(i) =>
      assert line[i..i + 6][5] == '=';
      SomeField(line[i + 6..]);
  }

  lemma HasSign(s: string, k: nat)
    ensures WordAt(s, "taken=", k) ==> k + 5 < |s| && s[k + 5] == '='
  {
    if WordAt(s, "taken=", k) {
      assert s[k..k + 6][5] == s[k + 5];
    }
  }

  lemma NoSign(s: string)
    requires forall k :: 0 <= k < |s| ==> s[k] != '='
    ensures FirstAt(s, "taken=", 0).None?
  {
    FirstAtMeans(s, "taken=", 0);
    forall k: nat ensures WordAt(s, "taken=", k) ==> k + 5 < |s| && s[k + 5] == '=' {
      HasSign(s, k);
    }
  }

  lemma TitleIsRead(meta: string)
    ensures OneLine(TITLE) && Comment(TITLE) && DropCR(TITLE) == TITLE && NewMeta(TITLE, meta) == Some(meta)
  {
    assert forall k :: 0 <= k < |TITLE| ==> TITLE[k] != '=' && TITLE[k] != '\n';
    assert TITLE[|TITLE| - 1] == '1';
    NoSign(TITLE);
  }

  lemma {:induction false} WordStops(w: string, rest: string)
    requires forall k :: 0 <= k < |w| ==> !IsSpace(w[k])
    ensures Word(w + " " + rest) == w
  {
    if w == [] {
      assert (w + " " + rest)[0] == ' ';
    } else {
      assert (w + " " + rest)[1..] == w[1..] + " " + rest;
      WordStops(w[1..], rest);
    }
  }

  lemma WordInFront(s: string, rest: string, word: string, k: nat)
    requires k + |word| <= |s|
    ensures WordAt(s + rest, word, k) == WordAt(s, word, k)
  {
    assert (s + rest)[k..k + |word|] == s[k..k + |word|];
  }

  lemma WordAfterFront(front: string, word: string, back: string)
    requires forall k :: 0 <= k < |front| ==> !WordAt(front + word, word, k)
    ensures FirstAt(front + word + back, word, 0) == Some(|front|)
    ensures (front + word + back)[|front| + |word|..] == back
  {
    var line := front + word + back;
    assert line[|front|..|front| + |word|] == word;
    forall k: nat | k < |front| ensures !WordAt(line, word, k) {
      WordInFront(front + word, back, word, k);
    }
    FirstIs(line, word, 0, |front|);
  }

  lemma DateStands(h: Header, n: nat)
    ensures Meta(h, n) == Front(h) + "taken=" + (h.taken + " " + ("files=" + Dec(n)))
  {
  }

  lemma FieldIsWord(w: string, rest: string)
    requires w != [] && forall k :: 0 <= k < |w| ==> !IsSpace(w[k])
    ensures FirstField(w + " " + rest) == Some(w)
  {
    WordStops(w, rest);
    assert (w + " " + rest)[0] == w[0];
  }

  /** The date read back is the date written. */
  lemma DateReadsBack(h: Header, n: nat, meta: string)
    requires PlainHeader(h, n) && ClearDate(h)
    ensures NewMeta(Meta(h, n), meta) == Some(h.taken)
  {
    DateStands(h, n);
    WordAfterFront(Front(h), "taken=", h.taken + " " + ("files=" + Dec(n)));
    FieldIsWord(h.taken, "files=" + Dec(n));
  }

  // ---------------------------------------------------------------------
  // Reading back what was written
  // ---------------------------------------------------------------------

  ghost predicate DistinctPaths(entries: seq<Entry>) {
    forall i, j :: 0 <= i < j < |entries| ==> entries[i].path != entries[j].path
  }

  // The map holds exactly the entries, each under its path.
  ghost predicate Holds(m: Entries, entries: seq<Entry>) {
    && (forall e :: e in entries ==> e.path in m && m[e.path] == e)
    && forall p :: p in m ==> m[p] in entries && m[p].path == p
  }

  lemma {:induction false} MapHolds(entries: seq<Entry>, m: Entries)
    requires DistinctPaths(entries) && forall e :: e in entries ==> e.path !in m
    ensures forall e :: e in entries ==> e.path in MapOf(entries, m) && MapOf(entries, m)[e.path] == e
    ensures forall p :: p in MapOf(entries, m) ==>
              if p in m then MapOf(entries, m)[p] == m[p]
              else MapOf(entries, m)[p] in entries && MapOf(entries, m)[p].path == p
    ensures forall p :: p in m ==> p in MapOf(entries, m)
    decreases |entries|
  {
    if entries != [] {
      var e, rest := entries[0], entries[1..];
      assert entries == [e] + rest;
      forall x | x in rest ensures x.path !in m[e.path := e] {
        var k :| 0 <= k < |rest| && rest[k] == x;
        assert entries[k + 1] == x;
      }
      MapHolds(rest, m[e.path := e]);
    }
  }

  /** Reading a written baseline gives exactly its entries, whatever the header says. */
  lemma RoundTrip(h: Header, entries: seq<Entry>)
    requires Sizes(entries) && forall e :: e in entries ==> Plain(e) && NoCR(e.path)
    requires DistinctPaths(entries) && PlainHeader(h, |entries|)
    ensures var r := Scan(Written(h, entries), map[], UNKNOWN);
            && (if entries == [] then r.Empty? else r.Good? && Holds(r.entries, entries))
            && (ClearDate(h) ==> r.meta == h.taken)
  {
    var lines, line := Lines(entries), Meta(h, |entries|);
    MetaIsPlain(h, |entries|);
    MetaIsRead(h, |entries|, UNKNOWN);
    var meta := NewMeta(line, UNKNOWN).value;
    HeaderIsRead(h, entries, meta);
    EntriesReadBack(entries, map[], meta);
    MapHolds(entries, map[]);
    if entries != [] { assert entries[0] in entries; }
    if ClearDate(h) { DateReadsBack(h, |entries|, UNKNOWN); }
  }

  lemma HeaderIsRead(h: Header, entries: seq<Entry>, meta: string)
    requires Sizes(entries) && PlainHeader(h, |entries|) && NewMeta(Meta(h, |entries|), UNKNOWN) == Some(meta)
    ensures Scan(Written(h, entries), map[], UNKNOWN) == Scan(Lines(entries), map[], meta)
  {
    var lines, line := Lines(entries), Meta(h, |entries|);
    MetaIsPlain(h, |entries|);
    TitleIsRead(UNKNOWN);
    Peel(TITLE, line + "\n" + lines);
    Peel(line, lines);
    assert Scan(line + "\n" + lines, map[], UNKNOWN) == Scan(lines, map[], meta);
    assert Written(h, entries) == TITLE + "\n" + (line + "\n" + lines);
  }

  // ---------------------------------------------------------------------
  // Reading any file
  // ---------------------------------------------------------------------

  // The lines before any carriage return is dropped.
  function RawLines(s: string): seq<string>
    decreases |s|
  {
    if s == [] then [] else [FirstLine(s)] + RawLines(Rest(s))
  }

  function Glue(lines: seq<string>): string {
    if lines == [] then "" else lines[0] + "\n" + Glue(lines[1..])
  }

  lemma GlueFirst(s: string)
    requires s != []
    ensures Glue(RawLines(s)) == FirstLine(s) + "\n" + Glue(RawLines(Rest(s)))
  {
    assert RawLines(s)[1..] == RawLines(Rest(s));
  }

  /** The lines glued together are the file, but for a newline that it may lack at the end. */
  lemma {:induction false} LinesAreOfFile(s: string)
    ensures Glue(RawLines(s)) == s || Glue(RawLines(s)) == s + "\n"
    decreases |s|
  {
    if s != [] {
      var line, rest := FirstLine(s), Rest(s);
      LinesAreOfFile(rest);
      GlueFirst(s);
      FirstAndRest(s);
      var g := Glue(RawLines(rest));
      if g != rest { Regroup(line + "\n", rest, "\n"); }
    }
  }

  lemma FirstAndRest(s: string)
    requires s != []
    ensures s == FirstLine(s) + "\n" + Rest(s) || (s == FirstLine(s) && Rest(s) == [])
    ensures Rest(s) == [] ==> RawLines(Rest(s)) == [] && Glue(RawLines(Rest(s))) == []
  {
  }

  lemma LineAt(s: string, k: nat)
    requires s != [] && k < |RawLines(s)|
    ensures RawLines(s)[k] == if k == 0 then FirstLine(s) else RawLines(Rest(s))[k - 1]
  {
    assert RawLines(s) == [FirstLine(s)] + RawLines(Rest(s));
  }

  lemma FirstIsWhole(s: string)
    ensures OneLine(FirstLine(s))
  {
    assert forall k :: 0 <= k < LineEnd(s, 0) ==> s[k] != '\n';
  }

  /** And no line holds a newline. */
  lemma {:induction false} LinesAreWhole(s: string, k: nat)
    requires k < |RawLines(s)|
    ensures OneLine(RawLines(s)[k])
    decreases |s|
  {
    LineAt(s, k);
    if k == 0 {
      FirstIsWhole(s);
    } else {
      LinesAreWhole(Rest(s), k - 1);
    }
  }

  /** A file that is written has these lines and no other. */
  lemma WrittenLines(h: Header, entries: seq<Entry>)
    requires Sizes(entries) && PlainHeader(h, |entries|)
    requires forall e :: e in entries ==> OneLine(e.sha) && OneLine(e.path)
    ensures var lines := RawLines(Written(h, entries));
            && |lines| == |entries| + 2 && lines[0] == "# wordeye baseline v1"
            && lines[1] ==
               "# site=" + h.site + " webroot=" + h.webroot + " taken=" + h.taken + " files=" + Dec(|entries|)
            && forall k :: 0 <= k < |entries| ==>
                 lines[k + 2] == entries[k].sha + " " + Dec(entries[k].size) + " " + entries[k].path
  {
    HeaderLines(h, entries);
    EntryLines(entries);
    var texts, front := EntryTexts(entries), [TITLE, Meta(h, |entries|)];
    assert forall k :: 0 <= k < |texts| ==> (front + texts)[k + 2] == texts[k];
  }

  lemma HeaderLines(h: Header, entries: seq<Entry>)
    requires Sizes(entries) && PlainHeader(h, |entries|)
    ensures RawLines(Written(h, entries)) == [TITLE, Meta(h, |entries|)] + RawLines(Lines(entries))
  {
    MetaIsPlain(h, |entries|);
    TitleIsRead(UNKNOWN);
    FirstTwo(TITLE, Meta(h, |entries|), Lines(entries));
  }

  lemma FirstTwo(a: string, b: string, body: string)
    requires OneLine(a) && OneLine(b)
    ensures RawLines(a + "\n" + (b + "\n" + body)) == [a, b] + RawLines(body)
  {
    FirstOf(a, b + "\n" + body);
    FirstOf(b, body);
  }

  lemma FirstOf(line: string, rest: string)
    requires OneLine(line)
    ensures RawLines(line + "\n" + rest) == [line] + RawLines(rest)
  {
    Peel(line, rest);
  }

  function EntryTexts(entries: seq<Entry>): seq<string>
    requires Sizes(entries)
  {
    seq(|entries|, k requires 0 <= k < |entries| =>
      entries[k].sha + " " + Dec(entries[k].size) + " " + entries[k].path)
  }

  lemma FirstText(entries: seq<Entry>)
    requires Sizes(entries) && entries != []
    ensures EntryTexts(entries) == [Line(entries[0])] + EntryTexts(entries[1..])
  {
  }

  lemma EntryIsOneLine(e: Entry)
    requires e.size >= 0 && OneLine(e.sha) && OneLine(e.path)
    ensures OneLine(Line(e))
  {
    assert OneLine(Dec(e.size)) && OneLine(e.sha + " ") && OneLine(" " + e.path);
    assert Line(e) == (e.sha + " ") + Dec(e.size) + (" " + e.path);
  }

  lemma {:induction false} EntryLines(entries: seq<Entry>)
    requires Sizes(entries) && forall e :: e in entries ==> OneLine(e.sha) && OneLine(e.path)
    ensures RawLines(Lines(entries)) == EntryTexts(entries)
    decreases |entries|
  {
    if entries != [] {
      var e := entries[0];
      assert e in entries;
      EntryIsOneLine(e);
      FirstOf(Line(e), Lines(entries[1..]));
      EntryLines(entries[1..]);
      FirstText(entries);
    }
  }

  // The line is the digest, a number and the path, with a space between them.
  ghost predicate HasFields(line: string, e: Entry) {
    exists d: string :: NoSpace(e.sha) && NoSpace(d) && line == e.sha + " " + d + " " + e.path && e.size == ParseInt(d)
  }

  lemma SpaceAt(line: string, k: nat)
    requires k < |line|
    ensures WordAt(line, " ", k) <==> line[k] == ' '
  {
    assert line[k..k + 1] == [line[k]];
  }

  lemma NoneBefore(line: string, from: nat, i: nat)
    requires from <= |line| && FirstAt(line, " ", from) == Some(i)
    ensures from <= i < |line| && line[i] == ' ' && NoSpace(line[from..i])
  {
    FirstAtMeans(line, " ", from);
    SpaceAt(line, i);
    forall k | 0 <= k < i - from
      ensures line[from..i][k] != ' '
    {
      SpaceAt(line, from + k);
    }
  }

  lemma ParsedHasFields(line: string)
    ensures ParseLine(line).Some? ==> HasFields(line, ParseLine(line).value)
  {
    if ParseLine(line).Some? {
      var i := FirstAt(line, " ", 0).value;
      var j := FirstAt(line, " ", i + 1).value;
      NoneBefore(line, 0, i);
      NoneBefore(line, i + 1, j);
      assert line[0..i] == line[..i];
      TwoCuts(line, i, j);
      assert NoSpace(line[i + 1..j]);
    }
  }

  lemma TwoCuts(line: string, i: nat, j: nat)
    requires i < j < |line| && line[i] == ' ' && line[j] == ' '
    ensures line == line[..i] + " " + line[i + 1..j] + " " + line[j + 1..]
  {
  }

  lemma FieldsAreParsed(line: string, e: Entry)
    ensures ParseLine(line) == Some(e) <==> HasFields(line, e)
  {
    ParsedHasFields(line);
    if HasFields(line, e) {
      var d: string :| NoSpace(e.sha) && NoSpace(d) && line == e.sha + " " + d + " " + e.path && e.size == ParseInt(d);
      Cuts(e.sha, d, e.path);
      PartsSplit(line, e.sha, d, e.path);
    }
  }

  // A line, as it stands in the file, records an entry.
  ghost predicate Records(raw: string, e: Entry) {
    var line := if raw != [] && raw[|raw| - 1] == '\r' then raw[..|raw| - 1] else raw;
    (line == [] || line[0] != '#') && HasFields(line, e)
  }

  ghost predicate RecordsPath(raw: string, p: string) {
    exists e: Entry :: e.path == p && Records(raw, e)
  }

  // Line n is the last to record p, and what it records is e.
  ghost predicate LastRecord(lines: seq<string>, n: nat, p: string, e: Entry) {
    && n < |lines| && e.path == p && Records(lines[n], e)
    && forall k :: n < k < |lines| ==> !RecordsPath(lines[k], p)
  }

  function Found(r: Read): Entries {
    if r.Good? then r.entries else map[]
  }

  lemma RecordIsParsed(raw: string)
    ensures forall e :: Records(raw, e) <==> !Comment(DropCR(raw)) && ParseLine(DropCR(raw)) == Some(e)
    ensures forall p :: RecordsPath(raw, p) <==>
              !Comment(DropCR(raw)) && ParseLine(DropCR(raw)).Some? && ParseLine(DropCR(raw)).value.path == p
  {
    forall e
      ensures Records(raw, e) <==> !Comment(DropCR(raw)) && ParseLine(DropCR(raw)) == Some(e)
    {
      FieldsAreParsed(DropCR(raw), e);
    }
    if ParseLine(DropCR(raw)).Some? && !Comment(DropCR(raw)) {
      assert Records(raw, ParseLine(DropCR(raw)).value);
    }
  }

  // What a line that does not stop the reader adds.
  function Added(raw: string, found: Entries): Entries {
    if !Comment(DropCR(raw)) && ParseLine(DropCR(raw)).Some?
    then found[ParseLine(DropCR(raw)).value.path := ParseLine(DropCR(raw)).value]
    else found
  }

  lemma ScanGoesOn(s: string, found: Entries, meta: string) returns (meta': string)
    requires s != [] && !Scan(s, found, meta).Crash? && !Scan(s, found, meta).TooLong?
    ensures Scan(s, found, meta) == Scan(Rest(s), Added(FirstLine(s), found), meta')
  {
    var line := DropCR(FirstLine(s));
    meta' := if Comment(line) then NewMeta(line, meta).value else meta;
  }

  lemma AddedIsRecorded(raw: string, found: Entries, p: string)
    ensures !RecordsPath(raw, p) ==>
              (p in Added(raw, found) <==> p in found) && (p in found ==> Added(raw, found)[p] == found[p])
    ensures forall e: Entry :: e.path == p && Records(raw, e) ==> p in Added(raw, found) && Added(raw, found)[p] == e
  {
    RecordIsParsed(raw);
  }

  lemma {:induction false} ScanKeepsOthers(s: string, found: Entries, meta: string, p: string)
    requires Scan(s, found, meta).Good? || Scan(s, found, meta).Empty?
    requires forall k :: 0 <= k < |RawLines(s)| ==> !RecordsPath(RawLines(s)[k], p)
    ensures var m := Found(Scan(s, found, meta)); (p in m <==> p in found) && (p in m ==> m[p] == found[p])
    decreases |s|
  {
    if s != [] {
      var raw, lines, later := FirstLine(s), RawLines(s), RawLines(Rest(s));
      var meta' := ScanGoesOn(s, found, meta);
      assert lines[0] == raw && forall k :: 0 <= k < |later| ==> later[k] == lines[k + 1];
      ScanKeepsOthers(Rest(s), Added(raw, found), meta', p);
      AddedIsRecorded(raw, found, p);
    }
  }

  lemma {:induction false} ScanKeepsLast(s: string, found: Entries, meta: string, n: nat, p: string, e: Entry)
    requires Scan(s, found, meta).Good? || Scan(s, found, meta).Empty?
    requires LastRecord(RawLines(s), n, p, e)
    ensures var m := Found(Scan(s, found, meta)); p in m && m[p] == e
    decreases |s|
  {
    var raw, later := FirstLine(s), RawLines(Rest(s));
    var meta' := ScanGoesOn(s, found, meta);
    assert RawLines(s) == [raw] + later;
    if n > 0 {
      LaterRecord(raw, later, n, p, e);
      ScanKeepsLast(Rest(s), Added(raw, found), meta', n - 1, p, e);
    } else {
      NoLaterRecord(raw, later, p, e);
      AddedIsRecorded(raw, found, p);
      ScanKeepsOthers(Rest(s), Added(raw, found), meta', p);
    }
  }

  lemma LaterRecord(raw: string, later: seq<string>, n: nat, p: string, e: Entry)
    requires n > 0 && LastRecord([raw] + later, n, p, e)
    ensures LastRecord(later, n - 1, p, e)
  {
    var lines := [raw] + later;
    assert forall k :: 0 <= k < |later| ==> later[k] == lines[k + 1];
  }

  lemma NoLaterRecord(raw: string, later: seq<string>, p: string, e: Entry)
    requires LastRecord([raw] + later, 0, p, e)
    ensures Records(raw, e) && forall k :: 0 <= k < |later| ==> !RecordsPath(later[k], p)
  {
    var lines := [raw] + later;
    assert forall k :: 0 <= k < |later| ==> later[k] == lines[k + 1];
  }

  /** Whatever file is read: a path is known afterwards exactly if a line records it, and
      what is known of it is what the last such line says. */
  lemma LastLineWins(s: string, p: string)
    requires Scan(s, map[], UNKNOWN).Good? || Scan(s, map[], UNKNOWN).Empty?
    ensures var lines, m := RawLines(s), Found(Scan(s, map[], UNKNOWN));
            && (p in m <==> exists n :: 0 <= n < |lines| && RecordsPath(lines[n], p))
            && (p in m ==> exists n: nat :: LastRecord(lines, n, p, m[p]))
  {
    var lines := RawLines(s);
    if n :| 0 <= n < |lines| && RecordsPath(lines[n], p) {
      RecordedIsKnown(s, p, n);
    } else {
      ScanKeepsOthers(s, map[], UNKNOWN, p);
    }
  }

  lemma RecordedIsKnown(s: string, p: string, n: nat)
    requires Scan(s, map[], UNKNOWN).Good? || Scan(s, map[], UNKNOWN).Empty?
    requires n < |RawLines(s)| && RecordsPath(RawLines(s)[n], p)
    ensures var lines, m := RawLines(s), Found(Scan(s, map[], UNKNOWN));
            p in m && exists last: nat :: LastRecord(lines, last, p, m[p])
  {
    var last, e := LastOf(RawLines(s), n, p);
    ScanKeepsLast(s, map[], UNKNOWN, last, p, e);
  }

  lemma {:induction false} LastOf(lines: seq<string>, n: nat, p: string) returns (last: nat, e: Entry)
    requires n < |lines| && RecordsPath(lines[n], p)
    ensures LastRecord(lines, last, p, e)
    decreases |lines| - n
  {
    if k :| n < k < |lines| && RecordsPath(lines[k], p) {
      last, e := LastOf(lines, k, p);
    } else {
      last := n;
      e :| e.path == p && Records(lines[n], e);
    }
  }

  // ---------------------------------------------------------------------
  // What stops the reader
  // ---------------------------------------------------------------------

  ghost predicate AllSpace(s: string) {
    forall k :: 0 <= k < |s| ==> IsSpace(s[k])
  }

  // A comment line with nothing but white space after its first "taken=".
  ghost predicate BareDate(raw: string) {
    var line := DropCR(raw);
    && Comment(line)
    && exists i: nat :: i + 6 <= |line| && WordAt(line, "taken=", i) && AllSpace(line[i + 6..])
                        && forall k :: 0 <= k < i ==> !WordAt(line, "taken=", k)
  }

  // Line n is reached: no line before it stops the reader, and it is not too long itself.
  ghost predicate Reached(lines: seq<string>, n: nat) {
    && n < |lines|
    && (forall k :: 0 <= k <= n ==> |lines[k]| < MAX_LINE)
    && forall k :: 0 <= k < n ==> !BareDate(lines[k])
  }

  ghost predicate Stops(s: string) {
    exists n: nat :: Reached(RawLines(s), n) && BareDate(RawLines(s)[n])
  }

  lemma {:induction false} NoField(s: string)
    ensures FirstField(s).None? <==> AllSpace(s)
  {
    if s != [] && IsSpace(s[0]) {
      NoField(s[1..]);
      assert AllSpace(s) <==> AllSpace(s[1..]) by {
        assert s == [s[0]] + s[1..];
      }
    }
  }

  lemma BareIsNoMeta(raw: string, meta: string)
    ensures BareDate(raw) <==> Comment(DropCR(raw)) && NewMeta(DropCR(raw), meta).None?
  {
    var line := DropCR(raw);
    FirstAtMeans(line, "taken=", 0);
    if FirstAt(line, "taken=", 0).Some? {
      var i := FirstAt(line, "taken=", 0).value;
      NoField(line[i + 6..]);
    }
  }

  lemma ReachedTail(s: string, n: nat)
    requires s != [] && n > 0 && |FirstLine(s)| < MAX_LINE && !BareDate(FirstLine(s))
    ensures Reached(RawLines(s), n) <==> Reached(RawLines(Rest(s)), n - 1)
  {
    var lines, rest := RawLines(s), RawLines(Rest(s));
    assert forall k :: 0 < k < |lines| ==> lines[k] == rest[k - 1];
    if Reached(lines, n) {
      forall k | 0 <= k <= n - 1 ensures |rest[k]| < MAX_LINE && (k < n - 1 ==> !BareDate(rest[k])) {
        assert rest[k] == lines[k + 1];
      }
    }
  }

  lemma StopsAtFirst(s: string)
    requires s != []
    ensures Stops(s) <==> |FirstLine(s)| < MAX_LINE && (BareDate(FirstLine(s)) || Stops(Rest(s)))
  {
    var lines, rest := RawLines(s), RawLines(Rest(s));
    assert lines[0] == FirstLine(s);
    if Stops(s) {
      var n: nat :| Reached(lines, n) && BareDate(lines[n]);
      assert |lines[0]| < MAX_LINE;
      if n > 0 {
        ReachedTail(s, n);
        assert BareDate(rest[n - 1]);
      }
    }
    if |FirstLine(s)| < MAX_LINE {
      if BareDate(FirstLine(s)) {
        assert Reached(lines, 0);
      } else if Stops(Rest(s)) {
        var n: nat :| Reached(rest, n) && BareDate(rest[n]);
        ReachedTail(s, n + 1);
        assert BareDate(lines[n + 1]);
      }
    }
  }

  /** The reader runs out of fields exactly for the files that have, before any line
      too long for its buffer, a comment with nothing but white space after its first "taken=". */
  lemma {:induction false} CrashIsExact(s: string, found: Entries, meta: string)
    ensures Scan(s, found, meta).Crash? <==> Stops(s)
    decreases |s|
  {
    if s == [] {
      assert RawLines(s) == [];
    } else {
      var raw := FirstLine(s);
      StopsAtFirst(s);
      BareIsNoMeta(raw, meta);
      if |raw| < MAX_LINE && !BareDate(raw) {
        var line := DropCR(raw);
        if Comment(line) {
          CrashIsExact(Rest(s), found, NewMeta(line, meta).value);
        } else {
          match ParseLine(line)
          case None => CrashIsExact(Rest(s), found, meta);
          case Some(e) => CrashIsExact(Rest(s), found[e.path := e], meta);
        }
      }
    }
  }

  /** The reader gives up on a line exactly when one is too long and none before it is
      such a comment. */
  lemma {:induction false} TooLongIsExact(s: string, found: Entries, meta: string)
    ensures Scan(s, found, meta).TooLong? <==>
              !Stops(s) && exists n :: 0 <= n < |RawLines(s)| && |RawLines(s)[n]| >= MAX_LINE
    decreases |s|
  {
    if s != [] {
      var raw, lines, rest := FirstLine(s), RawLines(s), RawLines(Rest(s));
      assert forall k :: 0 < k < |lines| ==> lines[k] == rest[k - 1];
      assert forall k :: 0 <= k < |rest| ==> rest[k] == lines[k + 1];
      StopsAtFirst(s);
      BareIsNoMeta(raw, meta);
      if |raw| >= MAX_LINE {
        assert |lines[0]| >= MAX_LINE;
      } else if !BareDate(raw) {
        var line := DropCR(raw);
        if Comment(line) {
          TooLongIsExact(Rest(s), found, NewMeta(line, meta).value);
        } else {
          match ParseLine(line)
          case None => TooLongIsExact(Rest(s), found, meta);
          case Some(e) => TooLongIsExact(Rest(s), found[e.path := e], meta);
        }
      }
    }
  }

  /** So a header that ends in "taken=" stops it. */
  lemma BareDateStops(rest: string)
    ensures Stops("# taken=\n" + rest)
  {
    var line := "# taken=";
    Peel(line, rest);
    assert line + "\n" + rest == "# taken=\n" + rest;
    assert line[2..8] == "taken=" && line[8..] == [];
    assert line[0..6][0] == '#' && line[1..7][0] == ' ';
    assert BareDate(line) by {
      assert WordAt(line, "taken=", 2) && AllSpace(line[8..]);
    }
    StopsAtFirst("# taken=\n" + rest);
  }

  // ---------------------------------------------------------------------
  // Drift
  // ---------------------------------------------------------------------

  ghost function Paths(cur: seq<Entry>): set<string> {
    set e | e in cur :: e.path
  }

  ghost predicate IsNew(base: Entries, e: Entry) { e.path !in base }

  ghost predicate IsChanged(base: Entries, e: Entry) { e.path in base && base[e.path].sha != e.sha }

  // The two trees have the same files with the same digests.
  ghost predicate Agree(base: Entries, cur: seq<Entry>) {
    && (forall e :: e in cur ==> e.path in base && base[e.path].sha == e.sha)
    && forall p :: p in base ==> p in Paths(cur)
  }

  ghost function NewPaths(base: Entries, cur: seq<Entry>): set<string> {
    set e | e in cur && IsNew(base, e) :: e.path
  }

  ghost function ChangedPaths(base: Entries, cur: seq<Entry>): set<string> {
    set e | e in cur && IsChanged(base, e) :: e.path
  }

  lemma OneMorePath(cur: seq<Entry>, e: Entry, base: Entries)
    requires DistinctPaths(cur + [e])
    ensures DistinctPaths(cur) && e.path !in Paths(cur)
    ensures NewPaths(base, cur + [e]) == NewPaths(base, cur) + if IsNew(base, e) then {e.path} else {}
    ensures ChangedPaths(base, cur + [e]) == ChangedPaths(base, cur) + if IsChanged(base, e) then {e.path} else {}
    ensures e.path !in NewPaths(base, cur) && e.path !in ChangedPaths(base, cur)
  {
    forall d | d in cur ensures d.path != e.path {
      var k :| 0 <= k < |cur| && cur[k] == d;
      assert (cur + [e])[k] == d && (cur + [e])[|cur|] == e;
    }
    forall i, j | 0 <= i < j < |cur| ensures cur[i].path != cur[j].path {
      assert (cur + [e])[i] == cur[i] && (cur + [e])[j] == cur[j];
    }
  }

  lemma CountsStep(base: Entries, cur: seq<Entry>, i: nat)
    requires DistinctPaths(cur) && i < |cur|
    ensures |NewPaths(base, cur[..i + 1])| == |NewPaths(base, cur[..i])| + if IsNew(base, cur[i]) then 1 else 0
    ensures |ChangedPaths(base, cur[..i + 1])| ==
              |ChangedPaths(base, cur[..i])| + if IsChanged(base, cur[i]) then 1 else 0
  {
    assert cur[..i + 1] == cur[..i] + [cur[i]];
    OneMorePath(cur[..i], cur[i], base);
  }

  // The files of the tree that the baseline does not have, or has with another digest.
  method CountDrift(base: Entries, cur: seq<Entry>) returns (added: nat, changed: nat)
    requires DistinctPaths(cur)
    ensures added == |NewPaths(base, cur)| && changed == |ChangedPaths(base, cur)|
  {
    added, changed := 0, 0;
    for i := 0 to |cur|
      invariant added == |NewPaths(base, cur[..i])| && changed == |ChangedPaths(base, cur[..i])|
    {
      var e := cur[i];
      CountsStep(base, cur, i);
      if e.path !in base {
        added := added + 1;
      } else if base[e.path].sha != e.sha {
        changed := changed + 1;
      }
    }
    assert cur[..|cur|] == cur;
  }

  method MapByPath(cur: seq<Entry>) returns (m: Entries)
    ensures m.Keys == Paths(cur)
  {
    m := map[];
    for i := 0 to |cur|
      invariant m.Keys == Paths(cur[..i])
    {
      assert cur[..i + 1] == cur[..i] + [cur[i]];
      m := m[cur[i].path := cur[i]];
    }
    assert cur[..|cur|] == cur;
  }

  // The files of the baseline that are gone.
  method CountRemoved(base: Entries, curMap: Entries) returns (removed: nat)
    ensures removed == |base.Keys - curMap.Keys|
  {
    removed := 0;
    var rest := base.Keys;
    ghost var gone: set<string> := {};
    while rest != {}
      invariant rest <= base.Keys && removed == |gone|
      invariant forall p :: p in gone <==> p in base && p !in rest && p !in curMap
      decreases |rest|
    {
      var p :| p in rest;
      rest := rest - {p};
      if p !in curMap {
        removed := removed + 1;
        gone := gone + {p};
      }
    }
    assert gone == base.Keys - curMap.Keys;
  }

  /** The three counts are those of the parts of the difference. */
  method Verify(base: Entries, cur: seq<Entry>) returns (added: nat, changed: nat, removed: nat)
    requires DistinctPaths(cur)
    ensures added == |NewPaths(base, cur)| && changed == |ChangedPaths(base, cur)|
    ensures removed == |base.Keys - Paths(cur)|
  {
    var curMap := MapByPath(cur);
    added, changed := CountDrift(base, cur);
    removed := CountRemoved(base, curMap);
  }

  /** No drift is counted exactly when the trees agree. */
  lemma NoDriftIsAgreement(base: Entries, cur: seq<Entry>)
    ensures |NewPaths(base, cur)| == 0 && |ChangedPaths(base, cur)| == 0 && |base.Keys - Paths(cur)| == 0 <==>
              Agree(base, cur)
  {
    if Agree(base, cur) {
      assert NewPaths(base, cur) == {} && ChangedPaths(base, cur) == {} && base.Keys - Paths(cur) == {};
    }
    if NewPaths(base, cur) == {} && ChangedPaths(base, cur) == {} && base.Keys - Paths(cur) == {} {
      forall e | e in cur ensures e.path in base && base[e.path].sha == e.sha {
        assert IsNew(base, e) ==> e.path in NewPaths(base, cur);
        assert IsChanged(base, e) ==> e.path in ChangedPaths(base, cur);
      }
      forall p | p in base ensures p in Paths(cur) {
        assert p !in Paths(cur) ==> p in base.Keys - Paths(cur);
      }
    }
  }

  /** The parts are disjoint, and with the unchanged files make up both trees. */
  lemma PartsOfTheDifference(base: Entries, cur: seq<Entry>)
    requires DistinctPaths(cur)
    ensures var same := set e | e in cur && e.path in base && base[e.path].sha == e.sha :: e.path;
            && Paths(cur) == NewPaths(base, cur) + ChangedPaths(base, cur) + same
            && base.Keys == ChangedPaths(base, cur) + same + (base.Keys - Paths(cur))
            && NewPaths(base, cur) !! base.Keys && ChangedPaths(base, cur) !! same
  {
    forall e, f | e in cur && f in cur && e.path == f.path ensures e == f {
      var i :| 0 <= i < |cur| && cur[i] == e;
      var j :| 0 <= j < |cur| && cur[j] == f;
    }
  }
}
