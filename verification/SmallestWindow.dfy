/** The proximity window of a rule: one offset from each pattern's match list,
    all of them close together. */
module SmallestWindow {

  const FAR := 0x4000_0000_0000_0000   // 1 << 62

  // The match offsets of one pattern, in order.
  ghost predicate Offsets(starts: seq<int>) {
    && (forall i :: 0 <= i < |starts| ==> 0 <= starts[i] < FAR)
    && forall i, j :: 0 <= i <= j < |starts| ==> starts[i] <= starts[j]
  }

  ghost predicate Groups(groups: seq<seq<int>>) {
    forall g :: 0 <= g < |groups| ==> Offsets(groups[g])
  }

  // One position in every list.
  ghost predicate Choice(groups: seq<seq<int>>, pick: seq<int>) {
    && |pick| == |groups|
    && forall g :: 0 <= g < |groups| ==> 0 <= pick[g] < |groups[g]|
  }

  // The offsets chosen are at most `within` apart.
  ghost predicate Fits(groups: seq<seq<int>>, within: int, pick: seq<int>) {
    && Choice(groups, pick)
    && forall g, h :: 0 <= g < |groups| && 0 <= h < |groups| ==> groups[g][pick[g]] - groups[h][pick[h]] <= within
  }

  ghost predicate SomeFit(groups: seq<seq<int>>, within: int) {
    exists pick :: Fits(groups, within, pick)
  }

  // start is the least offset of some fitting choice, and no fitting choice starts earlier.
  ghost predicate FirstStart(groups: seq<seq<int>>, within: int, start: int) {
    && (exists pick, g :: Fits(groups, within, pick) && 0 <= g < |groups| && start == groups[g][pick[g]])
    && forall pick, g :: Fits(groups, within, pick) && 0 <= g < |groups| ==> start <= groups[g][pick[g]]
  }

  // Names the choices that a proof looks at.
  ghost predicate Seen(pick: seq<int>, g: int) { true }

  // Every fitting choice is still ahead of the pointers.
  ghost predicate NonePassed(groups: seq<seq<int>>, within: int, idx: seq<int>)
    requires |idx| == |groups|
  {
    forall pick, g {:trigger Seen(pick, g)} ::
      Seen(pick, g) && Fits(groups, within, pick) && 0 <= g < |groups| ==> idx[g] <= pick[g]
  }

  // What is left to read of the lists.
  ghost function Unread(groups: seq<seq<int>>, idx: seq<int>): nat
    requires |idx| == |groups|
    requires forall g :: 0 <= g < |groups| ==> 0 <= idx[g] <= |groups[g]|
  {
    if groups == [] then 0 else |groups[0]| - idx[0] + Unread(groups[1..], idx[1..])
  }

  lemma {:induction false} UnreadShrinks(groups: seq<seq<int>>, idx: seq<int>, g: int)
    requires |idx| == |groups| && 0 <= g < |groups|
    requires forall h :: 0 <= h < |groups| ==> 0 <= idx[h] <= |groups[h]|
    requires idx[g] < |groups[g]|
    ensures Unread(groups, idx[g := idx[g] + 1]) < Unread(groups, idx)
  {
    if g == 0 {
      assert idx[g := idx[g] + 1][1..] == idx[1..];
    } else {
      UnreadShrinks(groups[1..], idx[1..], g - 1);
      assert idx[g := idx[g] + 1][1..] == idx[1..][g - 1 := idx[g] + 1];
    }
  }

  // The list holding the least offset can be advanced when the span is too wide.
  lemma AdvanceKeeps(groups: seq<seq<int>>, within: int, idx: seq<int>, low: int, high: int)
    requires Groups(groups) && Choice(groups, idx) && NonePassed(groups, within, idx)
    requires 0 <= low < |groups| && 0 <= high < |groups|
    requires groups[high][idx[high]] - groups[low][idx[low]] > within
    ensures NonePassed(groups, within, idx[low := idx[low] + 1])
  {
    forall pick, g | Seen(pick, g) && Fits(groups, within, pick) && 0 <= g < |groups|
      ensures idx[low := idx[low] + 1][g] <= pick[g]
    {
      assert Seen(pick, g) && Seen(pick, low) && Seen(pick, high);
      assert groups[high][idx[high]] <= groups[high][pick[high]];
    }
  }

  // lo and hi are the least and the greatest offset chosen, from lists low and high.
  ghost predicate Spans(groups: seq<seq<int>>, pick: seq<int>, lo: int, hi: int, low: int, high: int)
    requires Choice(groups, pick)
  {
    && 0 <= low < |groups| && lo == groups[low][pick[low]]
    && 0 <= high < |groups| && hi == groups[high][pick[high]]
    && forall g :: 0 <= g < |groups| ==> lo <= groups[g][pick[g]] <= hi
  }

  lemma PointersFit(groups: seq<seq<int>>, within: int, idx: seq<int>, lo: int, hi: int, low: int, high: int)
    requires Groups(groups) && Choice(groups, idx) && NonePassed(groups, within, idx)
    requires Spans(groups, idx, lo, hi, low, high) && hi - lo <= within
    ensures SomeFit(groups, within) && FirstStart(groups, within, lo)
  {
    assert Fits(groups, within, idx);
    forall pick, g | Fits(groups, within, pick) && 0 <= g < |groups|
      ensures groups[low][idx[low]] <= groups[g][pick[g]]
    {
      assert Seen(pick, g);
    }
  }

  // The pointers are in range and no fitting choice has been passed.
  ghost predicate Ahead(groups: seq<seq<int>>, within: int, idx: seq<int>) {
    && |idx| == |groups|
    && (forall g :: 0 <= g < |groups| ==> 0 <= idx[g] <= |groups[g]|)
    && NonePassed(groups, within, idx)
  }

  lemma Advance(groups: seq<seq<int>>, within: int, idx: seq<int>, lo: int, hi: int, low: int, high: int)
    requires Groups(groups) && Choice(groups, idx) && Ahead(groups, within, idx)
    requires Spans(groups, idx, lo, hi, low, high) && hi - lo > within
    ensures Ahead(groups, within, idx[low := idx[low] + 1])
    ensures Unread(groups, idx[low := idx[low] + 1]) < Unread(groups, idx)
  {
    AdvanceKeeps(groups, within, idx, low, high);
    UnreadShrinks(groups, idx, low);
  }

  lemma NothingLeft(groups: seq<seq<int>>, within: int, idx: seq<int>)
    requires Ahead(groups, within, idx) && !Choice(groups, idx)
    ensures !SomeFit(groups, within)
  {
    var g :| 0 <= g < |groups| && idx[g] == |groups[g]|;
    forall pick ensures !Fits(groups, within, pick) {
      assert Seen(pick, g);
    }
  }

  // One look at the offsets under the pointers.
  method Spread(groups: seq<seq<int>>, idx: array<int>)
    returns (exhausted: bool, lo: int, hi: int, low: int, ghost high: int)
    requires Groups(groups) && idx.Length == |groups| > 0
    requires forall g :: 0 <= g < |groups| ==> 0 <= idx[g] <= |groups[g]|
    ensures exhausted == !Choice(groups, idx[..])
    ensures !exhausted ==> Spans(groups, idx[..], lo, hi, low, high)
  {
    exhausted, lo, hi, low, high := false, FAR, -1, -1, -1;
    var g := 0;
    while g < |groups|
      invariant 0 <= g <= |groups|
      invariant forall h :: 0 <= h < g ==> idx[h] < |groups[h]| && lo <= groups[h][idx[h]] <= hi
      invariant g > 0 ==> 0 <= low < g && lo == groups[low][idx[low]]
      invariant g > 0 ==> 0 <= high < g && hi == groups[high][idx[high]]
      invariant g == 0 ==> lo == FAR && hi == -1
    {
      if idx[g] >= |groups[g]| {
        exhausted := true;
        assert idx[..][g] == |groups[g]|;
        return;
      }
      var v := groups[g][idx[g]];
      if v < lo { lo, low := v, g; }
      if v > hi { hi, high := v, g; }
      g := g + 1;
    }
  }

  /** The sweep is exact: it succeeds exactly when some choice fits, and the start
      it returns is the earliest start of any choice that does. */
  method Sweep(groups: seq<seq<int>>, within: int) returns (start: int, ok: bool)
    requires Groups(groups)
    requires groups == [] ==> within >= 0
    ensures ok <==> SomeFit(groups, within)
    ensures ok && groups != [] ==> FirstStart(groups, within, start)
    ensures groups == [] ==> start == FAR
  {
    var idx := new int[|groups|](_ => 0);
    var bestLo, bestSpan := 0, -1;
    if groups == [] {
      // The least and the greatest offset are those of no list at all.
      assert Fits(groups, within, []);
      return FAR, true;
    }
    ghost var at := idx[..];
    while true
      invariant fresh(idx) && at == idx[..] && Ahead(groups, within, at)
      invariant bestSpan < 0 || bestSpan > within
      decreases Unread(groups, at)
    {
      var exhausted, lo, hi, low, high := Spread(groups, idx);
      if exhausted {
        NothingLeft(groups, within, at);
        return bestLo, bestSpan >= 0 && bestSpan <= within;
      }
      var span := hi - lo;
      if bestSpan < 0 || span < bestSpan {
        bestLo, bestSpan := lo, span;
        if span <= within {
          PointersFit(groups, within, at, lo, hi, low, high);
          return bestLo, true;
        }
      }
      Advance(groups, within, at, lo, hi, low, high);
      at := at[low := at[low] + 1];
      idx[low] := idx[low] + 1;
    }
  }
}
