/** Sequence helpers shared by the moving averages: sums and the retained suffix of a window. */
module Seqs {

  /** The sum of a sequence of reals, accumulated from the oldest element on. */
  function Sum(s: seq<real>): real
  {
    if s == [] then 0.0 else Sum(s[..|s| - 1]) + s[|s| - 1]
  }

  /** The arithmetic mean of a non-empty sequence. */
  function Mean(s: seq<real>): real
    requires s != []
  {
    Sum(s) / |s| as real
  }

  lemma SumSnoc(s: seq<real>, x: real)
    ensures Sum(s + [x]) == Sum(s) + x
  {
    assert (s + [x])[..|s + [x]| - 1] == s;
  }

  /** Dropping the oldest element takes it off the sum. */
  lemma {:induction false} SumDropFirst(s: seq<real>)
    requires s != []
    ensures Sum(s[1..]) == Sum(s) - s[0]
  {
    if |s| == 1 {
      assert s[1..] == [];
      assert s[..0] == [];
    } else {
      var init := s[..|s| - 1];
      SumDropFirst(init);
      assert init[1..] + [s[|s| - 1]] == s[1..];
      SumSnoc(init[1..], s[|s| - 1]);
    }
  }

  /** The last `n` elements of `s` (all of them when there are fewer). */
  function LastN<T>(s: seq<T>, n: nat): (r: seq<T>)
    ensures |r| == if |s| <= n then |s| else n
    ensures r == s[|s| - |r|..]
  {
    if |s| <= n then s else s[|s| - n..]
  }

  /** Appending to a window of positive size keeps its last `n` elements: when the window
      was full its oldest element is the one that goes. */
  lemma LastNSnoc<T>(s: seq<T>, x: T, n: nat)
    requires n > 0
    ensures LastN(s + [x], n) == if |LastN(s, n)| == n then LastN(s, n)[1..] + [x] else LastN(s, n) + [x]
  {
    var r := LastN(s, n);
    var r' := LastN(s + [x], n);
    if |r| == n {
      assert r' == (s + [x])[|s| + 1 - n..];
      assert r[1..] == s[|s| - n + 1..];
    } else {
      assert r == s;
      assert r' == s + [x];
    }
  }
}
