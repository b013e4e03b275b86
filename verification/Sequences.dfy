/** Parts of parts of sequences. */
module Sequences {
  lemma SliceOfPrefix<T>(s: seq<T>, n: nat, a: nat, b: nat)
    requires a <= b <= n <= |s|
    ensures s[..n][a..b] == s[a..b]
  {
    forall i | 0 <= i < b - a ensures s[..n][a..b][i] == s[a..b][i] {
    }
  }

  lemma SliceOfSecond<T>(x: seq<T>, y: seq<T>, a: nat, b: nat)
    requires a <= b <= |y|
    ensures (x + y)[|x| + a..|x| + b] == y[a..b]
  {
    forall i | 0 <= i < b - a ensures (x + y)[|x| + a..|x| + b][i] == y[a..b][i] {
    }
  }

  lemma WithoutLast<T>(x: seq<T>, last: T)
    ensures (x + [last])[..|x|] == x
  {
    forall i | 0 <= i < |x| ensures (x + [last])[..|x|][i] == x[i] {
    }
  }

  lemma TailOfPrefix<T>(s: seq<T>, n: nat)
    requires 0 < n <= |s|
    ensures s[..n][1..] == s[1..][..n - 1]
  {
    forall i | 0 <= i < n - 1 ensures s[..n][1..][i] == s[1..][..n - 1][i] {
    }
  }

  lemma SliceOfSlice<T>(s: seq<T>, a: nat, b: nat, c: nat, d: nat)
    requires a <= b <= |s| && c <= d <= b - a
    ensures s[a..b][c..d] == s[a + c..a + d]
  {
    forall i | 0 <= i < d - c ensures s[a..b][c..d][i] == s[a + c..a + d][i] {
      assert s[a..b][c..d][i] == s[a..b][c + i] == s[a + (c + i)];
    }
  }
}
