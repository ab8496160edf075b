/** Small facts about sequences. */
module Sequences {

  lemma Associates<T>(a: seq<T>, b: seq<T>, c: seq<T>)
    ensures a + b + c == a + (b + c) && a + [] == a
  {
  }

  /** The last n, from the last one back. */
  function FromBack<T>(s: seq<T>, n: nat): (r: seq<T>)
    requires n <= |s|
    ensures |r| == n
    ensures forall i :: 0 <= i < n ==> r[i] == s[|s| - 1 - i]
  {
    if n == 0 then [] else [s[|s| - 1]] + FromBack(s[..|s| - 1], n - 1)
  }

  /** The last ten, or all there are. */
  function LatestTen<T>(s: seq<T>): (r: seq<T>) {
    FromBack(s, if |s| < 10 then |s| else 10)
  }

  lemma {:induction false} SameRows<T>(s: seq<T>, r: seq<T>)
    requires |r| == |s| && forall i :: 0 <= i < |r| ==> r[i] == s[|s| - 1 - i]
    ensures multiset(r) == multiset(s)
  {
    if s != [] {
      var last := |s| - 1;
      assert s == s[..last] + [s[last]] && r == [r[0]] + r[1..];
      SameRows(s[..last], r[1..]);
    }
  }
}
