/** Facts about sequences that several components share. */
module Seqs {

  /** The newest n elements of s, or all of s when it is shorter. */
  function LastN<T>(s: seq<T>, n: nat): (r: seq<T>) {
    if |s| <= n then s else s[|s| - n..]
  }

  /** Truncating to n before or after more elements arrive makes no difference. */
  lemma LastNAppend<T>(s: seq<T>, t: seq<T>, n: nat)
    ensures LastN(LastN(s, n) + t, n) == LastN(s + t, n)
  {
    var k := LastN(s, n);
    assert k == s[|s| - |k|..];
    if |k + t| <= n {
      assert |s| > n ==> t == [];
    }
  }

  function Flatten<T>(ss: seq<seq<T>>): seq<T> {
    if ss == [] then [] else ss[0] + Flatten(ss[1..])
  }

  lemma {:induction false} FlattenAppend<T>(a: seq<seq<T>>, b: seq<seq<T>>)
    ensures Flatten(a + b) == Flatten(a) + Flatten(b)
  {
    if a == [] {
      assert a + b == b;
    } else {
      assert (a + b)[1..] == a[1..] + b;
      FlattenAppend(a[1..], b);
    }
  }

  lemma Regroup<T>(a: seq<T>, b: seq<T>, c: seq<T>)
    ensures a + (b + c) == a + b + c
  {}

  lemma SliceOfSlice<T>(s: seq<T>, lo: nat, hi: nat, c: nat, d: nat)
    requires lo <= hi <= |s| && c <= d <= hi - lo
    ensures s[lo..hi][c..d] == s[lo + c..lo + d]
  {
    forall k | 0 <= k < d - c ensures s[lo..hi][c..d][k] == s[lo + c..lo + d][k] {
      assert s[lo..hi][c..d][k] == s[lo..hi][c + k];
    }
  }
}
