/** First occurrences, and small facts about sequences that the proofs elsewhere cite. */
module Seqs {
  lemma HeadTail<T>(s: seq<T>)
    requires |s| >= 1
    ensures s == [s[0]] + s[1..]
  {
  }

  lemma TailSnoc<T>(s: seq<T>, x: T)
    requires |s| >= 1
    ensures (s + [x])[1..] == s[1..] + [x]
  {
  }

  /**
   * The position of the first occurrence of `x` in `s`, or -1 when `x` does not occur:
   * JavaScript's `indexOf`.
   */
  function FirstIndex<T(==)>(s: seq<T>, x: T): (r: int)
    ensures -1 <= r < |s|
    ensures r == -1 <==> x !in s
    ensures 0 <= r ==> s[r] == x && x !in s[..r]
    decreases |s|
  {
    if s == [] then -1
    else if s[0] == x then 0
    else
      var k := FirstIndex(s[1..], x);
      assert s == [s[0]] + s[1..];
      if k == -1 then -1
      else
        assert s[..k + 1] == [s[0]] + s[1..][..k];
        k + 1
  }

  /** Appending an element does not move the first occurrence of anything already present. */
  lemma {:induction false} FirstIndexSnoc<T>(s: seq<T>, y: T, x: T)
    requires x in s
    ensures FirstIndex(s + [y], x) == FirstIndex(s, x)
    decreases |s|
  {
    assert (s + [y])[0] == s[0];
    if s[0] != x {
      assert (s + [y])[1..] == s[1..] + [y];
      assert x in s[1..] by { assert s == [s[0]] + s[1..]; }
      FirstIndexSnoc(s[1..], y, x);
    }
  }

  /** Appending five segments one after another appends their concatenation. */
  lemma AppendFive<T>(s: seq<T>, a: seq<T>, b: seq<T>, c: seq<T>, d: seq<T>, e: seq<T>)
    ensures s + a + b + c + d + e == s + (a + b + c + d + e)
  {
  }
}
