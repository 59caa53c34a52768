/** Shared by the other modules. */
module Common {
  datatype Option<+T> = None | Some(value: T)

  function Max(a: int, b: int): int {
    if a < b then b else a
  }

  function Min(a: int, b: int): int {
    if a < b then a else b
  }

  // Only a mention of Unfolded(n) brings up what is closed under it.
  ghost predicate Unfolded(n: int) {
    true
  }

  // word stands in s from position i on.
  predicate WordAt(s: seq<char>, word: seq<char>, i: int) {
    0 <= i <= i + |word| <= |s| && s[i..i + |word|] == word
  }

  // The first place of word at or after from, or none.
  function FirstAt(s: seq<char>, word: seq<char>, from: nat): (r: Option<nat>)
    requires from <= |s|
    ensures r.Some? ==> from <= r.value && r.value + |word| <= |s|
    decreases |s| - from
  {
    if WordAt(s, word, from) then Some(from)
    else if from == |s| then None
    else FirstAt(s, word, from + 1)
  }

  lemma {:induction false} FirstAtMeans(s: seq<char>, word: seq<char>, from: nat)
    requires from <= |s|
    ensures FirstAt(s, word, from).Some? ==> WordAt(s, word, FirstAt(s, word, from).value)
    ensures forall p :: from <= p && WordAt(s, word, p) ==>
              FirstAt(s, word, from).Some? && FirstAt(s, word, from).value <= p
    decreases |s| - from
  {
    if !WordAt(s, word, from) && from < |s| { FirstAtMeans(s, word, from + 1); }
  }

  // The library's search.
  method Index(s: seq<char>, word: seq<char>, from: nat) returns (r: Option<nat>)
    requires from <= |s|
    ensures r == FirstAt(s, word, from)
  {
    var i := from;
    while i + |word| <= |s|
      invariant from <= i <= |s|
      invariant FirstAt(s, word, i) == FirstAt(s, word, from)
    {
      if s[i..i + |word|] == word { return Some(i); }
      if i == |s| { return None; }
      i := i + 1;
    }
    FirstAtMeans(s, word, i);
    return None;
  }
}
