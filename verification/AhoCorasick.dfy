/** The literal prefilter: a trie of lower-cased patterns that is rewritten in
    place into a complete automaton, and the single walk over the data.

    Main result: for every literal list and every input, the walk reports
    exactly the literals that occur, ignoring ASCII case, in the input. */
module AhoCorasick {

  type Byte = b: int | 0 <= b < 256
  type Word = seq<Byte>

  // ---------------------------------------------------------------------
  // Words: ASCII folding, suffixes, occurrences
  // ---------------------------------------------------------------------

  function LowerByte(b: Byte): Byte {
    if 65 <= b <= 90 then b + 32 else b
  }

  function Fold(s: Word): (r: Word)
    ensures |r| == |s| && forall i :: 0 <= i < |s| ==> r[i] == LowerByte(s[i])
  {
    seq(|s|, i requires 0 <= i < |s| => LowerByte(s[i]))
  }

  ghost predicate IsSuffix(p: Word, w: Word) {
    |p| <= |w| && w[|w| - |p|..] == p
  }

  // p is a contiguous part of t that ends just before position j.
  ghost predicate EndsAt(p: Word, t: Word, j: int) {
    |p| <= j <= |t| && t[j - |p|..j] == p
  }

  ghost predicate Occurs(p: Word, t: Word) {
    exists j :: EndsAt(p, t, j)
  }

  ghost predicate PrefixClosed(W: set<Word>) {
    [] in W && forall w, c {:trigger w + [c]} :: w + [c] in W ==> w in W
  }

  // The longest suffix of w that belongs to W.
  ghost function LongestSuffix(w: Word, W: set<Word>): (r: Word)
    requires [] in W
    ensures r in W && |r| <= |w|
  {
    if w in W then w else LongestSuffix(w[1..], W)
  }

  // The name is earned: the result is a suffix, and no longer suffix of w is in W.
  lemma {:induction false} LongestSuffixIsLongest(w: Word, W: set<Word>, p: Word)
    requires [] in W && p in W
    ensures IsSuffix(LongestSuffix(w, W), w)
    ensures IsSuffix(p, w) <==> IsSuffix(p, LongestSuffix(w, W))
  {
    if w !in W {
      LongestSuffixIsLongest(w[1..], W, p);
      var r := LongestSuffix(w, W);
      assert w[1..][|w| - 1 - |r|..] == w[|w| - |r|..];
      if |p| < |w| {
        assert w[1..][|w| - 1 - |p|..] == w[|w| - |p|..];
      }
    }
  }

  // Reading one more byte needs only the longest suffix, not the whole text.
  lemma {:induction false} LongestSuffixExtends(w: Word, c: Byte, W: set<Word>)
    requires PrefixClosed(W)
    ensures LongestSuffix(w + [c], W) == LongestSuffix(LongestSuffix(w, W) + [c], W)
  {
    if w !in W {
      assert (w + [c])[1..] == w[1..] + [c];
      LongestSuffixExtends(w[1..], c, W);
    }
  }

  // ---------------------------------------------------------------------
  // The automaton
  // ---------------------------------------------------------------------

  // next holds 256 transitions; -1 stands for "no edge" while the trie is built.
  datatype AcNode = AcNode(next: seq<int>, fail: nat, out: seq<nat>)

  function EmptyRow(): (r: seq<int>)
    ensures |r| == 256 && forall c: Byte :: r[c] == -1
  {
    seq(256, _ => -1)
  }

  ghost function WordSet(words: seq<Word>): set<Word> {
    set w | w in words
  }

  // words[i] is the path from the root to node i and parent[i] the node before it.
  datatype Shape = Shape(words: seq<Word>, parent: seq<nat>)

  // Mentioning a pair of nodes is what brings up that their paths differ.
  ghost predicate NodePair(i: int, j: int) {
    true
  }

  ghost predicate WellShaped(sh: Shape) {
    && |sh.words| == |sh.parent| > 0
    && sh.words[0] == []
    && (forall j {:trigger sh.words[j]} :: 0 < j < |sh.words| ==> sh.words[j] != [])
    && (forall i, j {:trigger NodePair(i, j)} :: 0 <= i < j < |sh.words| ==> sh.words[i] != sh.words[j])
    && (forall j {:trigger sh.parent[j]} :: 0 < j < |sh.words| ==>
          && sh.parent[j] < |sh.words|
          && sh.words[j][..|sh.words[j]| - 1] == sh.words[sh.parent[j]])
  }

  ghost function LastByte(sh: Shape, j: int): Byte
    requires WellShaped(sh) && 0 < j < |sh.words|
  {
    var _ := sh.parent[j];
    sh.words[j][|sh.words[j]| - 1]
  }

  ghost predicate Rows(nodes: seq<AcNode>) {
    forall i :: 0 <= i < |nodes| ==> |nodes[i].next| == 256
  }

  // The edges of the trie are exactly the parent links.
  ghost predicate IsTrie(nodes: seq<AcNode>, sh: Shape) {
    && WellShaped(sh) && |nodes| == |sh.words| && Rows(nodes)
    && (forall i, c: Byte {:trigger nodes[i].next[c]} :: 0 <= i < |nodes| && nodes[i].next[c] != -1 ==>
          && 0 < nodes[i].next[c] < |nodes|
          && sh.words[nodes[i].next[c]] == sh.words[i] + [c])
    && (forall j {:trigger sh.parent[j]} :: 0 < j < |nodes| ==>
          nodes[sh.parent[j]].next[LastByte(sh, j)] == j)
  }

  // A pattern id sits on the node whose path spells that pattern, and nowhere else.
  ghost predicate TrieOutputs(nodes: seq<AcNode>, sh: Shape, patterns: seq<Word>)
    requires |nodes| == |sh.words|
  {
    && (forall i, id {:trigger id in nodes[i].out} :: 0 <= i < |nodes| && id in nodes[i].out ==>
          id < |patterns| && patterns[id] == sh.words[i])
    && (forall id {:trigger patterns[id]} :: 0 <= id < |patterns| ==>
          HasEnd(nodes, sh, patterns[id], id))
  }

  ghost predicate HasEnd(nodes: seq<AcNode>, sh: Shape, p: Word, id: nat)
    requires |nodes| == |sh.words|
  {
    exists i :: EndNode(nodes, sh, p, id, i)
  }

  ghost predicate EndNode(nodes: seq<AcNode>, sh: Shape, p: Word, id: nat, i: int)
    requires |nodes| == |sh.words|
  {
    0 <= i < |nodes| && p == sh.words[i] && id in nodes[i].out
  }

  lemma TrieIsPrefixClosed(sh: Shape)
    requires WellShaped(sh)
    ensures PrefixClosed(WordSet(sh.words))
  {
    forall w, c | w + [c] in WordSet(sh.words)
      ensures w in WordSet(sh.words)
    {
      var j :| 0 <= j < |sh.words| && sh.words[j] == w + [c];
      assert sh.words[j][..|w|] == w;
      var _ := sh.parent[j];
    }
  }

  // Every transition leads to the longest suffix that is still a trie path.
  ghost predicate DfaRow(node: AcNode, i: int, sh: Shape)
    requires WellShaped(sh) && 0 <= i < |sh.words| && |node.next| == 256
  {
    forall c: Byte {:trigger node.next[c]} ::
      && 0 <= node.next[c] < |sh.words|
      && sh.words[node.next[c]] == LongestSuffix(sh.words[i] + [c], WordSet(sh.words))
  }

  // A node reports exactly the patterns that end at its path.
  ghost predicate FullOutput(node: AcNode, i: int, sh: Shape, patterns: seq<Word>)
    requires 0 <= i < |sh.words|
  {
    forall id :: id in node.out <==> 0 <= id < |patterns| && IsSuffix(patterns[id], sh.words[i])
  }

  ghost predicate Complete(node: AcNode, i: int, sh: Shape, patterns: seq<Word>)
    requires WellShaped(sh) && 0 <= i < |sh.words|
  {
    |node.next| == 256 && DfaRow(node, i, sh) && FullOutput(node, i, sh, patterns)
  }

  ghost predicate IsAutomaton(nodes: seq<AcNode>, sh: Shape, patterns: seq<Word>) {
    && WellShaped(sh) && |nodes| == |sh.words|
    && forall i {:trigger Complete(nodes[i], i, sh, patterns)} :: 0 <= i < |nodes| ==>
         Complete(nodes[i], i, sh, patterns)
  }

  // ---------------------------------------------------------------------
  // Growing the trie
  // ---------------------------------------------------------------------

  lemma AddNodeKeepsShape(sh: Shape, cur: nat, c: Byte)
    requires WellShaped(sh) && cur < |sh.words|
    requires forall j {:trigger sh.parent[j]} :: 0 < j < |sh.words| && sh.parent[j] == cur ==> LastByte(sh, j) != c
    ensures WellShaped(Grown(sh, cur, c))
    ensures LastByte(Grown(sh, cur, c), |sh.words|) == c
  {
    var n, w, sh' := |sh.words|, sh.words[cur] + [c], Grown(sh, cur, c);
    assert w[..|sh.words[cur]|] == sh.words[cur];
    forall i | 0 <= i < n
      ensures sh.words[i] != w
    {
      NewPathIsNew(sh, cur, c, i);
    }
    forall i, j | 0 <= i < j < n
      ensures sh.words[i] != sh.words[j]
    {
      assert NodePair(i, j);
    }
    forall j | 0 < j < n
      ensures sh'.parent[j] < n && sh'.words[j][..|sh'.words[j]| - 1] == sh.words[sh'.parent[j]]
    {
      assert sh'.parent[j] == sh.parent[j];
    }
  }

  lemma NewPathIsNew(sh: Shape, cur: nat, c: Byte, i: nat)
    requires WellShaped(sh) && cur < |sh.words| && i < |sh.words|
    requires i != 0 && sh.parent[i] == cur ==> LastByte(sh, i) != c
    ensures sh.words[i] != sh.words[cur] + [c]
  {
    var w := sh.words[cur];
    assert (w + [c])[..|w|] == w;
    if i != 0 && sh.parent[i] != cur {
      assert NodePair(sh.parent[i], cur) && NodePair(cur, sh.parent[i]);
    }
  }

  function Grown(sh: Shape, cur: nat, c: Byte): Shape
    requires cur < |sh.words|
  {
    Shape(sh.words + [sh.words[cur] + [c]], sh.parent + [cur])
  }

  // The edges of nodes' are the edges of nodes and one more, from cur by c to a new leaf.
  ghost predicate NodeAdded(nodes: seq<AcNode>, cur: nat, c: Byte, nodes': seq<AcNode>) {
    && Rows(nodes) && cur < |nodes| && nodes[cur].next[c] == -1
    && |nodes'| == |nodes| + 1 && Rows(nodes')
    && (forall i, d: Byte {:trigger nodes'[i].next[d]} :: 0 <= i < |nodes| ==>
          nodes'[i].next[d] == if i == cur && d == c then |nodes| else nodes[i].next[d])
    && (forall d: Byte {:trigger nodes'[|nodes|].next[d]} :: nodes'[|nodes|].next[d] == -1)
  }

  lemma AddNodeKeepsTrie(nodes: seq<AcNode>, sh: Shape, cur: nat, c: Byte, nodes': seq<AcNode>)
    requires IsTrie(nodes, sh) && NodeAdded(nodes, cur, c, nodes')
    ensures IsTrie(nodes', Grown(sh, cur, c))
  {
    forall j | 0 < j < |nodes| && sh.parent[j] == cur
      ensures LastByte(sh, j) != c
    {
      assert nodes[sh.parent[j]].next[LastByte(sh, j)] == j;
    }
    AddNodeKeepsShape(sh, cur, c);
    AddNodeEdges(nodes, sh, cur, c, nodes');
    AddNodeParents(nodes, sh, cur, c, nodes');
  }

  lemma AddNodeEdges(nodes: seq<AcNode>, sh: Shape, cur: nat, c: Byte, nodes': seq<AcNode>)
    requires IsTrie(nodes, sh) && NodeAdded(nodes, cur, c, nodes')
    ensures forall i, d: Byte {:trigger nodes'[i].next[d]} :: 0 <= i < |nodes'| && nodes'[i].next[d] != -1 ==>
      && 0 < nodes'[i].next[d] < |nodes'|
      && Grown(sh, cur, c).words[nodes'[i].next[d]] == Grown(sh, cur, c).words[i] + [d]
  {
    forall i, d: Byte | 0 <= i < |nodes'| && nodes'[i].next[d] != -1
      ensures 0 < nodes'[i].next[d] < |nodes'|
      ensures Grown(sh, cur, c).words[nodes'[i].next[d]] == Grown(sh, cur, c).words[i] + [d]
    {
      if i < |nodes| && !(i == cur && d == c) {
        assert nodes'[i].next[d] == nodes[i].next[d];
      }
    }
  }

  lemma AddNodeParents(nodes: seq<AcNode>, sh: Shape, cur: nat, c: Byte, nodes': seq<AcNode>)
    requires IsTrie(nodes, sh) && NodeAdded(nodes, cur, c, nodes')
    requires WellShaped(Grown(sh, cur, c)) && LastByte(Grown(sh, cur, c), |nodes|) == c
    ensures forall j {:trigger Grown(sh, cur, c).parent[j]} :: 0 < j < |nodes'| ==>
      nodes'[Grown(sh, cur, c).parent[j]].next[LastByte(Grown(sh, cur, c), j)] == j
  {
    var sh' := Grown(sh, cur, c);
    forall j | 0 < j < |nodes'|
      ensures nodes'[sh'.parent[j]].next[LastByte(sh', j)] == j
    {
      if j < |nodes| {
        var p := sh.parent[j];
        assert LastByte(sh', j) == LastByte(sh, j);
        assert nodes[p].next[LastByte(sh, j)] == j;
      }
    }
  }

  lemma LabelKeepsTrie(nodes: seq<AcNode>, sh: Shape, cur: nat, out: seq<nat>)
    requires IsTrie(nodes, sh) && cur < |nodes|
    ensures IsTrie(nodes[cur := nodes[cur].(out := out)], sh)
  {
    var nodes' := nodes[cur := nodes[cur].(out := out)];
    assert forall i, c: Byte {:trigger nodes'[i].next[c]} :: 0 <= i < |nodes| ==> nodes'[i].next[c] == nodes[i].next[c];
  }

  // ---------------------------------------------------------------------
  // The breadth-first pass
  // ---------------------------------------------------------------------

  // Finished nodes: the root and the part of the queue already processed.
  ghost predicate Done(i: int, queue: seq<nat>, qi: nat)
    requires qi <= |queue|
  {
    i == 0 || i in queue[..qi]
  }

  // The queue holds, in order of depth and without repeats, exactly the
  // children of the finished nodes.
  ghost predicate QueueOrder(sh: Shape, queue: seq<nat>, qi: nat) {
    && WellShaped(sh) && qi <= |queue|
    && (forall k :: 0 <= k < |queue| ==> 0 < queue[k] < |sh.words|)
    && (forall k, l :: 0 <= k < l < |queue| ==> queue[k] != queue[l])
    && (forall k, l :: 0 <= k < l < |queue| ==> |sh.words[queue[k]]| <= |sh.words[queue[l]]|)
    && (forall j {:trigger sh.parent[j]} :: 0 < j < |sh.words| ==> (j in queue <==> Done(sh.parent[j], queue, qi)))
  }

  ghost predicate FailOk(node: AcNode, i: int, sh: Shape)
    requires WellShaped(sh) && 0 < i < |sh.words|
  {
    var _ := sh.parent[i];
    node.fail < |sh.words| && sh.words[node.fail] == LongestSuffix(sh.words[i][1..], WordSet(sh.words))
  }

  // Finished nodes are complete, the others still hold their trie row.
  ghost predicate PassNodes(nodes: seq<AcNode>, t: seq<AcNode>, sh: Shape, patterns: seq<Word>,
                            queue: seq<nat>, qi: nat) {
    && WellShaped(sh) && |nodes| == |t| == |sh.words| && qi <= |queue|
    && (forall i {:trigger Done(i, queue, qi)} :: 0 <= i < |nodes| && Done(i, queue, qi) ==>
          Complete(nodes[i], i, sh, patterns))
    && (forall i :: 0 <= i < |nodes| && !Done(i, queue, qi) ==> nodes[i].next == t[i].next && nodes[i].out == t[i].out)
  }

  // t is the trie as it stood when the pass began.
  ghost predicate PassState(nodes: seq<AcNode>, t: seq<AcNode>, sh: Shape, patterns: seq<Word>,
                            queue: seq<nat>, qi: nat) {
    && IsTrie(t, sh) && TrieOutputs(t, sh, patterns)
    && (forall id :: 0 <= id < |patterns| ==> patterns[id] != [])
    && QueueOrder(sh, queue, qi)
    && PassNodes(nodes, t, sh, patterns, queue, qi)
    && (forall k :: 0 <= k < |queue| ==> FailOk(nodes[queue[k]], queue[k], sh))
  }

  // Breadth-first order: everything shallower than the next node is finished.
  lemma {:induction false} ShallowerIsDone(sh: Shape, queue: seq<nat>, qi: nat, j: nat)
    requires QueueOrder(sh, queue, qi) && j < |sh.words|
    requires qi == |queue| || |sh.words[j]| < |sh.words[queue[qi]]|
    ensures Done(j, queue, qi)
    decreases |sh.words[j]|
  {
    if j != 0 {
      var p := sh.parent[j];
      ShallowerIsDone(sh, queue, qi, p);
      var k :| 0 <= k < |queue| && queue[k] == j;
      if k < qi {
        assert queue[..qi][k] == j;
      }
    }
  }

  // The node of a byte string is unique, so equal paths mean equal nodes.
  lemma SameWordSameNode(sh: Shape, i: nat, j: nat)
    requires WellShaped(sh) && i < |sh.words| && j < |sh.words| && sh.words[i] == sh.words[j]
    ensures i == j
  {
    assert NodePair(i, j) && NodePair(j, i);
  }

  // A path that extends node i's path by c is reached from i by c.
  lemma EdgeOfWord(t: seq<AcNode>, sh: Shape, i: nat, c: Byte, j: nat)
    requires IsTrie(t, sh) && i < |t| && j < |t| && sh.words[j] == sh.words[i] + [c]
    ensures 0 < j && t[i].next[c] == j
  {
    assert (sh.words[i] + [c])[..|sh.words[i]|] == sh.words[i];
    SameWordSameNode(sh, sh.parent[j], i);
    assert LastByte(sh, j) == c;
  }

  // What completing one transition of node cur means, edge or no edge.
  lemma TransitionStep(t: seq<AcNode>, sh: Shape, cur: nat, c: Byte, f: nat, target: int)
    requires IsTrie(t, sh) && 0 < cur < |t| && f < |t|
    requires sh.words[f] == LongestSuffix(sh.words[cur][1..], WordSet(sh.words))
    requires 0 <= target < |t|
    requires sh.words[target] == LongestSuffix(sh.words[f] + [c], WordSet(sh.words))
    ensures t[cur].next[c] == -1 ==>
              sh.words[target] == LongestSuffix(sh.words[cur] + [c], WordSet(sh.words))
    ensures t[cur].next[c] != -1 ==>
              && sh.words[t[cur].next[c]] == LongestSuffix(sh.words[cur] + [c], WordSet(sh.words))
              && sh.words[target] == LongestSuffix(sh.words[t[cur].next[c]][1..], WordSet(sh.words))
  {
    var W, w := WordSet(sh.words), sh.words[cur];
    var _ := sh.parent[cur];
    TrieIsPrefixClosed(sh);
    LongestSuffixExtends(w[1..], c, W);
    assert (w + [c])[1..] == w[1..] + [c];
    forall j | 0 <= j < |sh.words| && sh.words[j] == w + [c]
      ensures t[cur].next[c] == j
    {
      EdgeOfWord(t, sh, cur, c, j);
    }
  }

  // A node's own pattern together with its failure node's patterns is everything.
  lemma OutputStep(t: seq<AcNode>, sh: Shape, patterns: seq<Word>, cur: nat, fnode: AcNode, f: nat, out: seq<nat>)
    requires IsTrie(t, sh) && TrieOutputs(t, sh, patterns) && 0 < cur < |t| && f < |t|
    requires sh.words[f] == LongestSuffix(sh.words[cur][1..], WordSet(sh.words))
    requires FullOutput(fnode, f, sh, patterns)
    requires out == t[cur].out + fnode.out
    ensures FullOutput(AcNode(t[cur].next, f, out), cur, sh, patterns)
  {
    var w := sh.words[cur];
    var _ := sh.parent[cur];
    forall id | 0 <= id < |patterns|
      ensures id in out <==> IsSuffix(patterns[id], w)
    {
      var p := patterns[id];
      assert HasEnd(t, sh, patterns[id], id);
      var i :| EndNode(t, sh, p, id, i);
      LongestSuffixIsLongest(w[1..], WordSet(sh.words), p);
      if |p| < |w| {
        assert w[1..][|w| - 1 - |p|..] == w[|w| - |p|..];
      } else if |p| == |w| {
        assert w[0..] == w;
        if p == w { SameWordSameNode(sh, i, cur); }
      }
      if id in t[cur].out {
        assert p == w && w[0..] == w;
      }
    }
    forall id | id in out
      ensures 0 <= id < |patterns|
    {
      if id in t[cur].out {} else { assert id in fnode.out; }
    }
  }

  lemma AddNodeKeepsOutputs(nodes: seq<AcNode>, sh: Shape, patterns: seq<Word>, nodes': seq<AcNode>, sh': Shape)
    requires |nodes| == |sh.words| && |nodes'| == |sh'.words| == |nodes| + 1
    requires TrieOutputs(nodes, sh, patterns)
    requires forall i :: 0 <= i < |nodes| ==> nodes'[i].out == nodes[i].out && sh'.words[i] == sh.words[i]
    requires nodes'[|nodes|].out == []
    ensures TrieOutputs(nodes', sh', patterns)
  {
    forall id | 0 <= id < |patterns|
      ensures HasEnd(nodes', sh', patterns[id], id)
    {
      assert HasEnd(nodes, sh, patterns[id], id);
      var i :| EndNode(nodes, sh, patterns[id], id, i);
      assert EndNode(nodes', sh', patterns[id], id, i);
    }
  }

  lemma LabelAddsPattern(nodes: seq<AcNode>, sh: Shape, patterns: seq<Word>, low: Word, cur: nat, nodes': seq<AcNode>)
    requires IsTrie(nodes, sh) && TrieOutputs(nodes, sh, patterns)
    requires cur < |nodes| && sh.words[cur] == low
    requires nodes' == nodes[cur := nodes[cur].(out := nodes[cur].out + [|patterns|])]
    ensures IsTrie(nodes', sh) && TrieOutputs(nodes', sh, patterns + [low])
  {
    LabelKeepsTrie(nodes, sh, cur, nodes[cur].out + [|patterns|]);
    var all := patterns + [low];
    forall id | 0 <= id < |all|
      ensures HasEnd(nodes', sh, all[id], id)
    {
      if id == |patterns| {
        assert nodes'[cur].out[|nodes[cur].out|] == id;
        assert EndNode(nodes', sh, all[id], id, cur);
      } else {
        assert HasEnd(nodes, sh, patterns[id], id);
        var i :| EndNode(nodes, sh, patterns[id], id, i);
        assert all[id] == patterns[id] && id in nodes'[i].out;
        assert EndNode(nodes', sh, all[id], id, i);
      }
    }
  }

  class AC {
    var nodes: seq<AcNode>
    var patterns: seq<Word>
    var hasEmpty: bool
    ghost var shape: Shape

    ghost predicate Valid()
      reads this
    {
      && (hasEmpty <==> patterns == [])
      && (patterns != [] ==> IsAutomaton(nodes, shape, patterns))
      && (forall id :: 0 <= id < |patterns| ==> patterns[id] != [] && patterns[id] in WordSet(shape.words))
    }

    ghost predicate Growing()
      reads this
    {
      && !hasEmpty && IsTrie(nodes, shape) && TrieOutputs(nodes, shape, patterns)
      && forall id :: 0 <= id < |patterns| ==> patterns[id] != []
    }

    // An automaton that is only a root.
    constructor ()
      ensures Growing() && patterns == []
    {
      nodes := [AcNode(EmptyRow(), 0, [])];
      patterns := [];
      hasEmpty := false;
      shape := Shape([[]], [0]);
    }

    // Walks the pattern from the root, adding the nodes that are missing, and
    // puts the new id on the last one.
    method AddPattern(low: Word) returns (id: nat)
      requires Growing() && low != []
      modifies this
      ensures Growing()
      ensures id == old(|patterns|) && patterns == old(patterns) + [low]
    {
      id := |patterns|;
      patterns := patterns + [low];
      var cur := 0;
      assert low[..0] == [];
      for i := 0 to |low|
        invariant IsTrie(nodes, shape) && TrieOutputs(nodes, shape, old(patterns))
        invariant 0 <= cur < |nodes| && shape.words[cur] == low[..i]
        invariant patterns == old(patterns) + [low] && !hasEmpty
      {
        var c := low[i];
        assert low[..i + 1] == low[..i] + [c];
        if nodes[cur].next[c] == -1 {
          ghost var before, sh := nodes, shape;
          nodes := nodes + [AcNode(EmptyRow(), 0, [])];
          nodes := nodes[cur := nodes[cur].(next := nodes[cur].next[c := |nodes| - 1])];
          shape := Grown(shape, cur, c);
          AddNodeKeepsTrie(before, sh, cur, c, nodes);
          AddNodeKeepsOutputs(before, sh, old(patterns), nodes, shape);
        }
        cur := nodes[cur].next[c];
      }
      assert low[..|low|] == low;
      LabelAddsPattern(nodes, shape, old(patterns), low, cur, nodes[cur := nodes[cur].(out := nodes[cur].out + [id])]);
      nodes := nodes[cur := nodes[cur].(out := nodes[cur].out + [id])];
    }

    // The root: a missing edge returns to the root, a child joins the queue.
    method StartPass() returns (queue: seq<nat>)
      requires Growing() && patterns != []
      modifies this`nodes
      ensures PassState(nodes, old(nodes), shape, patterns, queue, 0)
    {
      ghost var t := nodes;
      queue := [];
      for c := 0 to 256
        invariant RootPass(nodes, t, shape, queue, c)
      {
        var nxt := nodes[0].next[c];
        if nxt == -1 {
          RootMiss(nodes, t, shape, queue, c);
          nodes := nodes[0 := nodes[0].(next := nodes[0].next[c := 0])];
        } else {
          RootEdge(nodes, t, shape, queue, c);
          nodes := nodes[nxt := nodes[nxt].(fail := 0)];
          queue := queue + [nxt];
        }
      }
      RootComplete(nodes[0], t, shape, patterns);
      RootQueueDone(t, shape, queue);
    }

    // One turn of the pass: inherit the failure node's outputs, copy its
    // transitions over the missing edges, and give each child its failure node.
    method FinishNode(queue0: seq<nat>, qi: nat, ghost t: seq<AcNode>) returns (queue: seq<nat>)
      requires PassState(nodes, t, shape, patterns, queue0, qi) && qi < |queue0|
      modifies this`nodes
      ensures PassState(nodes, t, shape, patterns, queue, qi + 1)
    {
      ghost var before := nodes;
      var cur := queue0[qi];
      var f := nodes[cur].fail;
      queue := queue0;
      FailIsDone(before, t, shape, patterns, queue0, qi);
      if |nodes[f].out| > 0 {
        nodes := nodes[cur := nodes[cur].(out := nodes[cur].out + nodes[f].out)];
      }
      assert nodes[cur].out == before[cur].out + before[f].out;
      OutputStep(t, shape, patterns, cur, before[f], f, nodes[cur].out);
      ghost var out := nodes[cur].out;
      for c := 0 to 256
        invariant NodePass(nodes, before, t, shape, cur, f, queue0, queue, c)
        invariant nodes[cur].out == out
      {
        var nxt := nodes[cur].next[c];
        RowStep(nodes, before, t, shape, patterns, queue0, qi, f, queue, c);
        if nxt == -1 {
          nodes := nodes[cur := nodes[cur].(next := nodes[cur].next[c := nodes[f].next[c]])];
        } else {
          nodes := nodes[nxt := nodes[nxt].(fail := nodes[f].next[c])];
          queue := queue + [nxt];
        }
      }
      CurComplete(t, shape, patterns, cur, before[f], f, nodes[cur]);
      NodeFinish(nodes, before, t, shape, patterns, queue0, qi, f, queue);
    }

    // Turns the trie into the automaton.
    method Link()
      requires Growing() && patterns != []
      modifies this`nodes
      ensures Valid()
    {
      ghost var t := nodes;
      var queue := StartPass();
      var qi := 0;
      while qi < |queue|
        invariant qi <= |queue|
        invariant PassState(nodes, t, shape, patterns, queue, qi)
        decreases |t| - qi
      {
        QueueFits(shape, queue, qi);
        queue := FinishNode(queue, qi, t);
        qi := qi + 1;
      }
      forall i | 0 <= i < |nodes|
        ensures Complete(nodes[i], i, shape, patterns)
      {
        ShallowerIsDone(shape, queue, qi, i);
      }
    }

    // One walk over the data: afterwards a mark is set exactly if it was set
    // before or its pattern occurs in the case-folded data.
    method MatchSet(data: Word, hit: array<bool>)
      requires Valid() && |patterns| <= hit.Length
      modifies hit
      ensures forall id :: 0 <= id < hit.Length ==>
        (hit[id] <==> old(hit[id]) || (id < |patterns| && Occurs(patterns[id], Fold(data))))
    {
      if hasEmpty || |patterns| == 0 { return; }
      var cur := 0;
      ghost var text, was := Fold(data), hit[..];
      WalkStart(nodes, shape, patterns, text, was);
      for i := 0 to |data|
        invariant AtState(nodes, shape, text, i, cur)
        invariant Marked(hit[..], was, patterns, text, i)
      {
        WalkStep(nodes, shape, patterns, text, i, cur);
        cur := nodes[cur].next[LowerByte(data[i])];
        ghost var hit0 := hit[..];
        MarkAll(nodes[cur].out, hit);
        MarkStep(hit[..], hit0, was, nodes[cur].out, patterns, text, i);
      }
      MarkEnd(hit[..], was, patterns, text);
    }
  }

  // The walk's position after i bytes: the longest suffix that is a trie path.
  ghost predicate AtState(nodes: seq<AcNode>, sh: Shape, text: Word, i: nat, cur: nat) {
    && WellShaped(sh) && |nodes| == |sh.words| && i <= |text|
    && cur < |nodes| && sh.words[cur] == LongestSuffix(text[..i], WordSet(sh.words))
  }

  ghost predicate Marked(hit: seq<bool>, was: seq<bool>, patterns: seq<Word>, text: Word, i: int) {
    && |hit| == |was|
    && forall id :: 0 <= id < |hit| ==> (hit[id] <==> was[id] || (id < |patterns| && EndedBy(patterns[id], text, i)))
  }

  lemma WalkStart(nodes: seq<AcNode>, sh: Shape, patterns: seq<Word>, text: Word, was: seq<bool>)
    requires IsAutomaton(nodes, sh, patterns)
    requires forall id :: 0 <= id < |patterns| ==> patterns[id] != []
    ensures AtState(nodes, sh, text, 0, 0)
    ensures Marked(was, was, patterns, text, 0)
  {
    assert text[..0] == [];
  }

  lemma WalkStep(nodes: seq<AcNode>, sh: Shape, patterns: seq<Word>, text: Word, i: nat, cur: nat)
    requires IsAutomaton(nodes, sh, patterns) && AtState(nodes, sh, text, i, cur) && i < |text|
    requires forall id :: 0 <= id < |patterns| ==> patterns[id] in WordSet(sh.words)
    ensures |nodes[cur].next| == 256 && 0 <= nodes[cur].next[text[i]]
    ensures AtState(nodes, sh, text, i + 1, nodes[cur].next[text[i]])
    ensures forall id :: id in nodes[nodes[cur].next[text[i]]].out
                         <==> 0 <= id < |patterns| && EndsAt(patterns[id], text, i + 1)
  {
    assert Complete(nodes[cur], cur, sh, patterns);
    RowStepsState(nodes[cur], sh, text, i, cur);
    var nxt := nodes[cur].next[text[i]];
    assert Complete(nodes[nxt], nxt, sh, patterns);
    OutputsAreTheEndings(nodes[nxt], sh, patterns, text, i + 1, nxt);
  }

  lemma RowStepsState(node: AcNode, sh: Shape, text: Word, i: nat, cur: nat)
    requires WellShaped(sh) && cur < |sh.words| && i < |text| && |node.next| == 256 && DfaRow(node, cur, sh)
    requires sh.words[cur] == LongestSuffix(text[..i], WordSet(sh.words))
    ensures 0 <= node.next[text[i]] < |sh.words|
    ensures sh.words[node.next[text[i]]] == LongestSuffix(text[..i + 1], WordSet(sh.words))
  {
    TrieIsPrefixClosed(sh);
    assert text[..i + 1] == text[..i] + [text[i]];
    LongestSuffixExtends(text[..i], text[i], WordSet(sh.words));
  }

  lemma MarkStep(hit: seq<bool>, hit0: seq<bool>, was: seq<bool>, out: seq<nat>,
                 patterns: seq<Word>, text: Word, i: nat)
    requires Marked(hit0, was, patterns, text, i) && |hit| == |hit0|
    requires forall id :: 0 <= id < |hit| ==> (hit[id] <==> hit0[id] || id in out)
    requires forall id :: id in out <==> 0 <= id < |patterns| && EndsAt(patterns[id], text, i + 1)
    ensures Marked(hit, was, patterns, text, i + 1)
  {
    forall id | 0 <= id < |patterns|
      ensures EndedBy(patterns[id], text, i + 1) <==>
                EndedBy(patterns[id], text, i) || EndsAt(patterns[id], text, i + 1)
    {
    }
  }

  lemma MarkEnd(hit: seq<bool>, was: seq<bool>, patterns: seq<Word>, text: Word)
    requires Marked(hit, was, patterns, text, |text|)
    ensures forall id :: 0 <= id < |hit| ==> (hit[id] <==> was[id] || (id < |patterns| && Occurs(patterns[id], text)))
  {
  }

  method MarkAll(out: seq<nat>, hit: array<bool>)
    requires forall id :: id in out ==> id < hit.Length
    modifies hit
    ensures forall id :: 0 <= id < hit.Length ==> (hit[id] <==> old(hit[id]) || id in out)
  {
    for k := 0 to |out|
      invariant forall id :: 0 <= id < hit.Length ==> (hit[id] <==> old(hit[id]) || id in out[..k])
    {
      assert out[k] in out;
      hit[out[k]] := true;
    }
    assert out[..|out|] == out;
  }

  ghost predicate EndedBy(p: Word, t: Word, i: int) {
    exists j :: j <= i && EndsAt(p, t, j)
  }

  lemma QueueFits(sh: Shape, queue: seq<nat>, qi: nat)
    requires QueueOrder(sh, queue, qi) && qi < |queue|
    ensures qi < |sh.words|
  {
    DistinctBound(queue, |sh.words|);
  }

  lemma {:induction false} DistinctBound(s: seq<nat>, n: nat)
    requires forall k :: 0 <= k < |s| ==> s[k] < n
    requires forall k, l :: 0 <= k < l < |s| ==> s[k] != s[l]
    ensures |s| <= n
  {
    BelowIs(n);
    DistinctInSet(s, Below(n));
  }

  ghost function Below(n: nat): set<nat> {
    if n == 0 then {} else Below(n - 1) + {n - 1}
  }

  lemma {:induction false} BelowIs(n: nat)
    ensures |Below(n)| == n && forall k: nat :: k in Below(n) <==> k < n
  {
    if n != 0 {
      BelowIs(n - 1);
    }
  }

  lemma {:induction false} DistinctInSet(s: seq<nat>, S: set<nat>)
    requires forall k :: 0 <= k < |s| ==> s[k] in S
    requires forall k, l :: 0 <= k < l < |s| ==> s[k] != s[l]
    ensures |s| <= |S|
  {
    if s != [] {
      DistinctInSet(s[1..], S - {s[0]});
    }
  }

  // At a node that is the longest suffix of the text read, the outputs are the
  // patterns that end here.
  lemma OutputsAreTheEndings(node: AcNode, sh: Shape, patterns: seq<Word>, text: Word, i: nat, cur: nat)
    requires [] in WordSet(sh.words) && cur < |sh.words| && i <= |text|
    requires FullOutput(node, cur, sh, patterns)
    requires forall id :: 0 <= id < |patterns| ==> patterns[id] in WordSet(sh.words)
    requires sh.words[cur] == LongestSuffix(text[..i], WordSet(sh.words))
    ensures forall id :: id in node.out <==> 0 <= id < |patterns| && EndsAt(patterns[id], text, i)
  {
    forall id | 0 <= id < |patterns|
      ensures IsSuffix(patterns[id], sh.words[cur]) <==> EndsAt(patterns[id], text, i)
    {
      LongestSuffixIsLongest(text[..i], WordSet(sh.words), patterns[id]);
      if |patterns[id]| <= i {
        assert text[..i][i - |patterns[id]|..] == text[i - |patterns[id]|..i];
      }
    }
  }

  // The root pass after its first c transitions; every node but the root keeps its row.
  ghost predicate RootPass(nodes: seq<AcNode>, t: seq<AcNode>, sh: Shape, queue: seq<nat>, c: nat) {
    && RootQueue(t, sh, queue, c)
    && |nodes| == |t| && |nodes[0].next| == 256 && nodes[0].out == t[0].out
    && (forall i :: 1 <= i < |nodes| ==> nodes[i].next == t[i].next && nodes[i].out == t[i].out)
    && (forall d: Byte {:trigger nodes[0].next[d]} ::
          nodes[0].next[d] == if d < c && t[0].next[d] == -1 then 0 else t[0].next[d])
    && (forall k :: 0 <= k < |queue| ==> nodes[queue[k]].fail == 0)
  }

  lemma RootMiss(nodes: seq<AcNode>, t: seq<AcNode>, sh: Shape, queue: seq<nat>, c: Byte)
    requires RootPass(nodes, t, sh, queue, c) && nodes[0].next[c] == -1
    ensures RootPass(nodes[0 := nodes[0].(next := nodes[0].next[c := 0])], t, sh, queue, c + 1)
  {
    assert t[0].next[c] == -1;
    RootQueueStep(t, sh, queue, c);
  }

  lemma RootEdge(nodes: seq<AcNode>, t: seq<AcNode>, sh: Shape, queue: seq<nat>, c: Byte)
    requires RootPass(nodes, t, sh, queue, c) && nodes[0].next[c] != -1
    ensures 0 < nodes[0].next[c] < |nodes|
    ensures var n := nodes[0].next[c];
            RootPass(nodes[n := nodes[n].(fail := 0)], t, sh, queue + [n], c + 1)
  {
    assert nodes[0].next[c] == t[0].next[c];
    RootQueueStep(t, sh, queue, c);
  }

  // After the first c root transitions the queue holds the root's children by those bytes.
  ghost predicate RootQueue(t: seq<AcNode>, sh: Shape, queue: seq<nat>, c: nat) {
    && IsTrie(t, sh)
    && (forall k :: 0 <= k < |queue| ==> 0 < queue[k] < |t| && |sh.words[queue[k]]| == 1 && sh.words[queue[k]][0] < c)
    && (forall k, l :: 0 <= k < l < |queue| ==> queue[k] != queue[l])
    && (forall d: Byte :: d < c && t[0].next[d] != -1 ==> t[0].next[d] in queue)
  }

  lemma RootQueueStep(t: seq<AcNode>, sh: Shape, queue: seq<nat>, c: Byte)
    requires RootQueue(t, sh, queue, c)
    ensures t[0].next[c] == -1 ==> RootQueue(t, sh, queue, c + 1)
    ensures t[0].next[c] != -1 ==> RootQueue(t, sh, queue + [t[0].next[c]], c + 1)
  {
    var n := t[0].next[c];
    if n != -1 {
      assert sh.words[n] == [c];
      assert (queue + [n])[|queue|] == n;
      forall d: Byte | d < c + 1 && t[0].next[d] != -1
        ensures t[0].next[d] in queue + [n]
      {
      }
    }
  }

  lemma RootComplete(root: AcNode, t: seq<AcNode>, sh: Shape, patterns: seq<Word>)
    requires IsTrie(t, sh) && TrieOutputs(t, sh, patterns)
    requires forall id :: 0 <= id < |patterns| ==> patterns[id] != []
    requires |root.next| == 256 && root.out == t[0].out
    requires forall d: Byte :: root.next[d] == if t[0].next[d] == -1 then 0 else t[0].next[d]
    ensures Complete(root, 0, sh, patterns)
  {
    var W := WordSet(sh.words);
    forall c: Byte
      ensures 0 <= root.next[c] < |t|
      ensures sh.words[root.next[c]] == LongestSuffix(sh.words[0] + [c], W)
    {
      assert [] + [c] == [c] && [c][1..] == [];
      forall j | 0 <= j < |t| && sh.words[j] == [c]
        ensures t[0].next[c] == j
      {
        EdgeOfWord(t, sh, 0, c, j);
      }
    }
    assert FullOutput(root, 0, sh, patterns);
  }

  lemma RootQueueDone(t: seq<AcNode>, sh: Shape, queue: seq<nat>)
    requires RootQueue(t, sh, queue, 256)
    ensures QueueOrder(sh, queue, 0)
    ensures forall k :: 0 <= k < |queue| ==> sh.words[queue[k]][1..] == []
  {
    forall j | 0 < j < |sh.words|
      ensures j in queue <==> Done(sh.parent[j], queue, 0)
    {
      var p := sh.parent[j];
      if p == 0 {
        assert t[p].next[LastByte(sh, j)] == j;
      }
    }
  }

  // Node cur is being finished: its first c transitions are done and its children
  // by those bytes have joined the queue. before is the state when its turn came
  // and f its failure node.
  ghost predicate NodePass(nodes: seq<AcNode>, before: seq<AcNode>, t: seq<AcNode>, sh: Shape,
                           cur: nat, f: nat, queue0: seq<nat>, queue: seq<nat>, c: nat) {
    && ChildQueue(t, sh, cur, queue0, queue, c)
    && 0 < cur && f < |t| && f != cur
    && |nodes| == |t| == |before| && nodes[cur].fail == f
    && (forall i :: 0 <= i < |nodes| && i != cur ==> nodes[i].next == before[i].next && nodes[i].out == before[i].out)
    && CurRow(nodes[cur], before[f], t[cur], c)
    && (forall k :: 0 <= k < |queue| ==> FailOk(nodes[queue[k]], queue[k], sh))
  }

  ghost predicate CurRow(node: AcNode, fnode: AcNode, tnode: AcNode, c: nat) {
    && |node.next| == |fnode.next| == |tnode.next| == 256
    && forall d: Byte {:trigger node.next[d]} ::
         node.next[d] == if d < c && tnode.next[d] == -1 then fnode.next[d] else tnode.next[d]
  }

  ghost predicate ChildQueue(t: seq<AcNode>, sh: Shape, cur: nat, queue0: seq<nat>, queue: seq<nat>, c: nat) {
    && IsTrie(t, sh) && cur < |t|
    && queue0 <= queue
    && (forall k :: 0 <= k < |queue| ==> 0 < queue[k] < |t|)
    && (forall k :: |queue0| <= k < |queue| ==> sh.parent[queue[k]] == cur && LastByte(sh, queue[k]) < c)
    && (forall k, l :: 0 <= k < l < |queue| ==> queue[k] != queue[l])
    && (forall d: Byte :: d < c && t[cur].next[d] != -1 ==> t[cur].next[d] in queue)
  }

  // The failure node is shallower, so it was finished before cur.
  lemma FailIsDone(nodes: seq<AcNode>, t: seq<AcNode>, sh: Shape, patterns: seq<Word>, queue: seq<nat>, qi: nat)
    requires PassState(nodes, t, sh, patterns, queue, qi) && qi < |queue|
    ensures nodes[queue[qi]].fail < |nodes| && nodes[queue[qi]].fail != queue[qi]
    ensures Complete(nodes[nodes[queue[qi]].fail], nodes[queue[qi]].fail, sh, patterns)
    ensures sh.words[nodes[queue[qi]].fail] == LongestSuffix(sh.words[queue[qi]][1..], WordSet(sh.words))
    ensures !Done(queue[qi], queue, qi)
  {
    var cur := queue[qi];
    var _ := sh.parent[cur];
    assert FailOk(nodes[cur], cur, sh);
    ShallowerIsDone(sh, queue, qi, nodes[cur].fail);
  }

  lemma ChildStep(t: seq<AcNode>, sh: Shape, queue0: seq<nat>, qi: nat, queue: seq<nat>, c: Byte)
    requires QueueOrder(sh, queue0, qi) && qi < |queue0|
    requires ChildQueue(t, sh, queue0[qi], queue0, queue, c)
    ensures var n := t[queue0[qi]].next[c];
            ChildQueue(t, sh, queue0[qi], queue0, if n == -1 then queue else queue + [n], c + 1)
  {
    var cur := queue0[qi];
    var n := t[cur].next[c];
    if n != -1 {
      assert sh.words[n] == sh.words[cur] + [c];
      var p := sh.parent[n];
      assert (sh.words[cur] + [c])[..|sh.words[cur]|] == sh.words[cur];
      SameWordSameNode(sh, p, cur);
      assert LastByte(sh, n) == c;
      assert n !in queue0;
      assert (queue + [n])[|queue|] == n;
    }
  }

  lemma NodeMiss(nodes: seq<AcNode>, before: seq<AcNode>, t: seq<AcNode>, sh: Shape,
                 cur: nat, f: nat, queue0: seq<nat>, queue: seq<nat>, c: Byte)
    requires NodePass(nodes, before, t, sh, cur, f, queue0, queue, c)
    requires nodes[cur].next[c] == -1 && ChildQueue(t, sh, cur, queue0, queue, c + 1)
    ensures NodePass(nodes[cur := nodes[cur].(next := nodes[cur].next[c := nodes[f].next[c]])],
                     before, t, sh, cur, f, queue0, queue, c + 1)
  {
  }

  lemma NodeEdge(nodes: seq<AcNode>, before: seq<AcNode>, t: seq<AcNode>, sh: Shape,
                 cur: nat, f: nat, queue0: seq<nat>, queue: seq<nat>, c: Byte, nxt: nat, v: nat)
    requires NodePass(nodes, before, t, sh, cur, f, queue0, queue, c)
    requires nodes[cur].next[c] == nxt && nxt < |nodes| && nxt != cur
    requires ChildQueue(t, sh, cur, queue0, queue + [nxt], c + 1)
    requires 0 < nxt && FailOk(nodes[nxt].(fail := v), nxt, sh)
    ensures NodePass(nodes[nxt := nodes[nxt].(fail := v)],
                     before, t, sh, cur, f, queue0, queue + [nxt], c + 1)
  {
  }

  // The failure node a child gets: the one its parent's failure node moves to.
  lemma ChildFail(t: seq<AcNode>, sh: Shape, patterns: seq<Word>, cur: nat, fnode: AcNode,
                  f: nat, c: Byte, child: AcNode)
    requires IsTrie(t, sh) && 0 < cur < |t| && f < |t| && Complete(fnode, f, sh, patterns)
    requires sh.words[f] == LongestSuffix(sh.words[cur][1..], WordSet(sh.words))
    requires t[cur].next[c] != -1
    ensures 0 < t[cur].next[c] < |t| && t[cur].next[c] != cur && fnode.next[c] >= 0
    ensures FailOk(child.(fail := fnode.next[c]), t[cur].next[c], sh)
  {
    assert sh.words[t[cur].next[c]] == sh.words[cur] + [c];
    TransitionStep(t, sh, cur, c, f, fnode.next[c]);
  }

  lemma RowStep(nodes: seq<AcNode>, before: seq<AcNode>, t: seq<AcNode>, sh: Shape, patterns: seq<Word>,
                queue0: seq<nat>, qi: nat, f: nat, queue: seq<nat>, c: Byte)
    requires PassState(before, t, sh, patterns, queue0, qi) && qi < |queue0|
    requires f == before[queue0[qi]].fail
    requires NodePass(nodes, before, t, sh, queue0[qi], f, queue0, queue, c)
    ensures nodes[queue0[qi]].next[c] == -1 ==>
      NodePass(nodes[queue0[qi] := nodes[queue0[qi]].(next := nodes[queue0[qi]].next[c := nodes[f].next[c]])],
               before, t, sh, queue0[qi], f, queue0, queue, c + 1)
    ensures nodes[queue0[qi]].next[c] != -1 ==>
      && 0 <= nodes[queue0[qi]].next[c] < |nodes| && nodes[queue0[qi]].next[c] != queue0[qi] && 0 <= nodes[f].next[c]
      && NodePass(nodes[nodes[queue0[qi]].next[c] := nodes[nodes[queue0[qi]].next[c]].(fail := nodes[f].next[c])],
               before, t, sh, queue0[qi], f, queue0, queue + [nodes[queue0[qi]].next[c]], c + 1)
  {
    var cur := queue0[qi];
    ChildStep(t, sh, queue0, qi, queue, c);
    FailIsDone(before, t, sh, patterns, queue0, qi);
    assert nodes[cur].next[c] == -1 ==> t[cur].next[c] == -1;
    if nodes[cur].next[c] == -1 {
      NodeMiss(nodes, before, t, sh, cur, f, queue0, queue, c);
    } else {
      var nxt := nodes[cur].next[c];
      assert nxt == t[cur].next[c];
      ChildFail(t, sh, patterns, cur, before[f], f, c, nodes[nxt]);
      NodeEdge(nodes, before, t, sh, cur, f, queue0, queue, c, nxt, nodes[f].next[c]);
    }
  }

  lemma CurComplete(t: seq<AcNode>, sh: Shape, patterns: seq<Word>, cur: nat, fnode: AcNode, f: nat, node: AcNode)
    requires IsTrie(t, sh) && 0 < cur < |t| && f < |t| && Complete(fnode, f, sh, patterns)
    requires sh.words[f] == LongestSuffix(sh.words[cur][1..], WordSet(sh.words))
    requires CurRow(node, fnode, t[cur], 256) && FullOutput(node, cur, sh, patterns)
    ensures Complete(node, cur, sh, patterns)
  {
    forall c: Byte
      ensures 0 <= node.next[c] < |sh.words|
      ensures sh.words[node.next[c]] == LongestSuffix(sh.words[cur] + [c], WordSet(sh.words))
    {
      TransitionStep(t, sh, cur, c, f, fnode.next[c]);
    }
  }

  lemma NodeFinish(nodes: seq<AcNode>, before: seq<AcNode>, t: seq<AcNode>, sh: Shape, patterns: seq<Word>,
                   queue0: seq<nat>, qi: nat, f: nat, queue: seq<nat>)
    requires PassState(before, t, sh, patterns, queue0, qi) && qi < |queue0|
    requires NodePass(nodes, before, t, sh, queue0[qi], f, queue0, queue, 256)
    requires Complete(nodes[queue0[qi]], queue0[qi], sh, patterns)
    ensures PassState(nodes, t, sh, patterns, queue, qi + 1)
  {
    NodeFinishQueue(t, sh, queue0, qi, queue);
    NodeFinishNodes(nodes, before, t, sh, patterns, queue0, qi, queue);
  }

  lemma NodeFinishNodes(nodes: seq<AcNode>, before: seq<AcNode>, t: seq<AcNode>, sh: Shape, patterns: seq<Word>,
                        queue0: seq<nat>, qi: nat, queue: seq<nat>)
    requires PassNodes(before, t, sh, patterns, queue0, qi) && qi < |queue0| && queue0 <= queue
    requires |nodes| == |t| && queue0[qi] < |nodes|
    requires forall i :: 0 <= i < |nodes| && i != queue0[qi] ==>
               nodes[i].next == before[i].next && nodes[i].out == before[i].out
    requires Complete(nodes[queue0[qi]], queue0[qi], sh, patterns)
    ensures PassNodes(nodes, t, sh, patterns, queue, qi + 1)
  {
    assert queue[..qi + 1] == queue0[..qi] + [queue0[qi]];
    forall i | 0 <= i < |nodes|
      ensures if Done(i, queue, qi + 1) then Complete(nodes[i], i, sh, patterns)
              else nodes[i].next == t[i].next && nodes[i].out == t[i].out
    {
      assert Done(i, queue, qi + 1) <==> i == queue0[qi] || Done(i, queue0, qi);
    }
  }

  lemma NodeFinishQueue(t: seq<AcNode>, sh: Shape, queue0: seq<nat>, qi: nat, queue: seq<nat>)
    requires QueueOrder(sh, queue0, qi) && qi < |queue0|
    requires ChildQueue(t, sh, queue0[qi], queue0, queue, 256)
    ensures QueueOrder(sh, queue, qi + 1)
  {
    var cur := queue0[qi];
    assert queue[..qi + 1] == queue0[..qi] + [cur];
    forall j | 0 < j < |sh.words|
      ensures j in queue <==> Done(sh.parent[j], queue, qi + 1)
    {
      var p := sh.parent[j];
      assert Done(p, queue, qi + 1) <==> p == cur || Done(p, queue0, qi);
      if p == cur {
        assert t[p].next[LastByte(sh, j)] == j;
      } else if j in queue {
        var k :| 0 <= k < |queue| && queue[k] == j;
        assert k < |queue0|;
        assert queue0[k] == j;
      }
    }
    forall k | 0 <= k < |queue|
      ensures |sh.words[queue[k]]| <= |sh.words[cur]| + 1
      ensures |queue0| <= k ==> |sh.words[queue[k]]| == |sh.words[cur]| + 1
    {
      if k < |queue0| {
        assert queue[k] == queue0[k];
        QueuedDepth(sh, queue0, qi, queue0[k]);
      }
    }
  }

  lemma QueuedDepth(sh: Shape, queue: seq<nat>, qi: nat, j: nat)
    requires QueueOrder(sh, queue, qi) && qi < |queue| && j in queue
    ensures |sh.words[j]| <= |sh.words[queue[qi]]| + 1
  {
    var p := sh.parent[j];
    if p != 0 {
      var k :| 0 <= k < qi && queue[..qi][k] == p;
      assert queue[k] == p;
    }
  }

  // ---------------------------------------------------------------------
  // Building from a literal list, and the prefilter as a whole
  // ---------------------------------------------------------------------

  // Every non-empty literal, and every folded one, is mapped to the id of its
  // folded form; the patterns are distinct, and each comes from some literal.
  ghost predicate IndexFor(literals: seq<Word>, index: map<Word, nat>, patterns: seq<Word>) {
    && (forall k <- index :: k != [] && index[k] < |patterns| && patterns[index[k]] == Fold(k))
    && (forall i :: 0 <= i < |literals| && literals[i] != [] ==> literals[i] in index)
    && (forall id :: 0 <= id < |patterns| ==> patterns[id] in index && index[patterns[id]] == id)
    && (forall id :: 0 <= id < |patterns| ==> FromLiteral(literals, patterns[id]))
  }

  ghost predicate FromLiteral(literals: seq<Word>, p: Word) {
    exists i :: 0 <= i < |literals| && p == Fold(literals[i])
  }

  lemma FoldTwice(s: Word)
    ensures Fold(Fold(s)) == Fold(s)
  {
  }

  lemma IndexSkip(literals: seq<Word>, i: nat, index: map<Word, nat>, patterns: seq<Word>)
    requires i < |literals| && literals[i] == [] && IndexFor(literals[..i], index, patterns)
    ensures IndexFor(literals[..i + 1], index, patterns)
  {
    StillFromLiterals(literals, i, patterns);
  }

  lemma IndexSeen(literals: seq<Word>, i: nat, index: map<Word, nat>, patterns: seq<Word>)
    requires i < |literals| && literals[i] != [] && IndexFor(literals[..i], index, patterns)
    requires Fold(literals[i]) in index
    ensures IndexFor(literals[..i + 1], index[literals[i] := index[Fold(literals[i])]], patterns)
  {
    StillFromLiterals(literals, i, patterns);
    FoldTwice(literals[i]);
    assert forall id :: 0 <= id < |patterns| ==> patterns[id] == Fold(patterns[id]);
  }

  lemma IndexNew(literals: seq<Word>, i: nat, index: map<Word, nat>, patterns: seq<Word>)
    requires i < |literals| && literals[i] != [] && IndexFor(literals[..i], index, patterns)
    requires Fold(literals[i]) !in index
    ensures IndexFor(literals[..i + 1], index[Fold(literals[i]) := |patterns|][literals[i] := |patterns|],
                     patterns + [Fold(literals[i])])
  {
    var key, all := Fold(literals[i]), patterns + [Fold(literals[i])];
    StillFromLiterals(literals, i, patterns);
    FoldTwice(literals[i]);
    assert literals[..i + 1][i] == literals[i];
    forall id | 0 <= id < |all|
      ensures FromLiteral(literals[..i + 1], all[id])
    {
      if id < |patterns| { assert all[id] == patterns[id]; }
    }
    assert forall id :: 0 <= id < |patterns| ==> patterns[id] == Fold(patterns[id]);
  }

  lemma StillFromLiterals(literals: seq<Word>, i: nat, patterns: seq<Word>)
    requires i < |literals|
    requires forall id :: 0 <= id < |patterns| ==> FromLiteral(literals[..i], patterns[id])
    ensures forall id :: 0 <= id < |patterns| ==> FromLiteral(literals[..i + 1], patterns[id])
  {
    forall id | 0 <= id < |patterns|
      ensures FromLiteral(literals[..i + 1], patterns[id])
    {
      var j :| 0 <= j < i && patterns[id] == Fold(literals[..i][j]);
      assert literals[..i + 1][j] == literals[..i][j];
    }
  }

  method BuildAC(literals: seq<Word>) returns (a: AC, index: map<Word, nat>)
    ensures fresh(a) && a.Valid() && IndexFor(literals, index, a.patterns)
  {
    a := new AC();
    index := map[];
    for i := 0 to |literals|
      invariant fresh(a) && a.Growing() && IndexFor(literals[..i], index, a.patterns)
    {
      var lit := literals[i];
      if lit == [] {
        IndexSkip(literals, i, index, a.patterns);
        continue;
      }
      var key := Fold(lit);
      if key in index {
        IndexSeen(literals, i, index, a.patterns);
        index := index[lit := index[key]];
        continue;
      }
      IndexNew(literals, i, index, a.patterns);
      var id := a.AddPattern(key);
      index := index[key := id][lit := id];
    }
    assert literals[..|literals|] == literals;
    if |a.patterns| == 0 {
      a.hasEmpty := true;
    } else {
      a.Link();
    }
  }

  /** For every literal list and every input: the id given to a literal is
      marked exactly when the literal occurs, ignoring ASCII case. */
  method Prefilter(literals: seq<Word>, data: Word) returns (index: map<Word, nat>, hits: seq<bool>)
    ensures forall i :: 0 <= i < |literals| && literals[i] != [] ==>
      && literals[i] in index && index[literals[i]] < |hits|
      && (hits[index[literals[i]]] <==> Occurs(Fold(literals[i]), Fold(data)))
    ensures forall id :: 0 <= id < |hits| && hits[id] ==>
      exists i :: 0 <= i < |literals| && Occurs(Fold(literals[i]), Fold(data))
    ensures forall i, j :: 0 <= i < |literals| && 0 <= j < |literals| && literals[i] != [] && literals[j] != [] ==>
      (index[literals[i]] == index[literals[j]] <==> Fold(literals[i]) == Fold(literals[j]))
  {
    var a;
    a, index := BuildAC(literals);
    var hit := new bool[|a.patterns|](_ => false);
    a.MatchSet(data, hit);
    hits := hit[..];
    forall id | 0 <= id < |hits| && hits[id]
      ensures exists i :: 0 <= i < |literals| && Occurs(Fold(literals[i]), Fold(data))
    {
      assert FromLiteral(literals, a.patterns[id]);
    }
  }

  // The same byte, or the same ASCII letter in the other case.
  predicate SameLetter(x: Byte, y: Byte) {
    x == y || (65 <= x <= 90 && y == x + 32) || (97 <= x <= 122 && y == x - 32)
  }

  // The literal stands in the data from i on, but for the case of its letters.
  predicate StandsAt(p: Word, t: Word, i: nat) {
    i + |p| <= |t| && forall k :: 0 <= k < |p| ==> SameLetter(p[k], t[i + k])
  }

  /** To occur after folding is to stand somewhere, but for the case of ASCII letters. */
  lemma CaseIsIgnored(p: Word, t: Word)
    ensures Occurs(Fold(p), Fold(t)) <==> exists i: nat :: StandsAt(p, t, i)
  {
    if j :| EndsAt(Fold(p), Fold(t), j) {
      var i := j - |p|;
      forall k | 0 <= k < |p|
        ensures SameLetter(p[k], t[i + k])
      {
        assert Fold(t)[i..j][k] == Fold(p)[k];
      }
      assert StandsAt(p, t, i);
    }
    if i: nat :| StandsAt(p, t, i) {
      assert forall k :: 0 <= k < |p| ==> Fold(t)[i..i + |p|][k] == Fold(p)[k];
      assert EndsAt(Fold(p), Fold(t), i + |p|);
    }
  }

  // The ids a rule keeps for its gates: the gates the automaton knows.
  method GateIds(gates: seq<Word>, index: map<Word, nat>) returns (ids: seq<nat>)
    ensures forall id :: id in ids <==>
              exists k :: 0 <= k < |gates| && Fold(gates[k]) in index && index[Fold(gates[k])] == id
  {
    ids := [];
    for k := 0 to |gates|
      invariant forall id :: id in ids <==>
                  exists l :: 0 <= l < k && Fold(gates[l]) in index && index[Fold(gates[l])] == id
    {
      if Fold(gates[k]) in index {
        ids := ids + [index[Fold(gates[k])]];
      }
    }
  }

  method GatesFired(ids: seq<nat>, hit: seq<bool>) returns (fired: bool)
    ensures fired <==> forall id :: id in ids ==> id < |hit| && hit[id]
  {
    for k := 0 to |ids|
      invariant forall l :: 0 <= l < k ==> ids[l] < |hit| && hit[ids[l]]
    {
      if ids[k] >= |hit| || !hit[ids[k]] {
        assert ids[k] in ids;
        return false;
      }
    }
    return true;
  }

  /** A rule whose gates were all registered passes its gate stage exactly when
      every non-empty gate occurs in the file, ignoring ASCII case. */
  method RuleGate(literals: seq<Word>, gates: seq<Word>, data: Word) returns (fired: bool)
    requires forall k :: 0 <= k < |gates| && gates[k] != [] ==> Fold(gates[k]) in literals
    ensures fired <==> forall k :: 0 <= k < |gates| && gates[k] != [] ==> Occurs(Fold(gates[k]), Fold(data))
  {
    var a, index := BuildAC(literals);
    var hit := new bool[|a.patterns|](_ => false);
    a.MatchSet(data, hit);
    var ids := GateIds(gates, index);
    fired := GatesFired(ids, hit[..]);
    forall k | 0 <= k < |gates| && gates[k] != []
      ensures Fold(gates[k]) in index && index[Fold(gates[k])] in ids
      ensures hit[index[Fold(gates[k])]] <==> Occurs(Fold(gates[k]), Fold(data))
    {
      FoldTwice(gates[k]);
    }
    forall id | id in ids
      ensures exists k :: 0 <= k < |gates| && gates[k] != [] && Fold(gates[k]) in index && index[Fold(gates[k])] == id
    {
      var k :| 0 <= k < |gates| && Fold(gates[k]) in index && index[Fold(gates[k])] == id;
    }
  }
}
