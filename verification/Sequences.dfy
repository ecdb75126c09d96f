/** Slices, joins and updates of sequences, element by element. */
module Sequences {

  lemma SliceOfSlice<T>(s: seq<T>, i: nat, j: nat, k: nat, l: nat)
    requires i <= j <= |s| && k <= l <= j - i
    ensures s[i..j][k..l] == s[i + k..i + l]
  {
    var a, b := s[i..j][k..l], s[i + k..i + l];
    forall m | 0 <= m < |a| ensures a[m] == b[m] {
      assert s[i..j][k + m] == s[i + k + m];
    }
  }

  lemma Joined<T>(a: seq<T>, b: seq<T>)
    ensures (a + b)[..|a|] == a && (a + b)[|a|..] == b
  {
    var s := a + b;
    forall m | 0 <= m < |a| ensures s[..|a|][m] == a[m] {}
    forall m | 0 <= m < |b| ensures s[|a|..][m] == b[m] {
      assert s[|a| + m] == b[m];
    }
  }

  lemma HeadAndTail<T>(s: seq<T>, i: nat)
    requires i < |s|
    ensures s[i..] == [s[i]] + s[i + 1..]
  {
  }

  lemma JoinedInTurn<T>(a: seq<T>, b: seq<T>, c: seq<T>)
    ensures (a + b) + c == a + (b + c)
  {
  }

  lemma PutInFront<T>(p: seq<T>, q: seq<T>, k: nat, x: T)
    requires k <= |p|
    ensures (p[..k] + [x] + p[k..]) + q == (p + q)[..k] + [x] + (p + q)[k..]
  {
  }

  lemma PutBehind<T>(p: seq<T>, q: seq<T>, j: nat, x: T)
    requires j <= |q|
    ensures p + (q[..j] + [x] + q[j..]) == (p + q)[..|p| + j] + [x] + (p + q)[|p| + j..]
  {
  }

  /** What stands at `i` in three parts, one after the other. */
  lemma ThreeParts<T>(s: seq<T>, i: nat, a: seq<T>, b: seq<T>, c: seq<T>)
    requires i + |a + b + c| <= |s| && s[i..i + |a + b + c|] == a + b + c
    ensures var j := i + |a|; var k := j + |b|;
            s[i..j] == a && s[j..k] == b && s[k..k + |c|] == c
  {
    var n := |a + b + c|;
    var w := a + b + c;
    SliceOfSlice(s, i, i + n, 0, |a|);
    SliceOfSlice(s, i, i + n, |a|, |a| + |b|);
    SliceOfSlice(s, i, i + n, |a| + |b|, n);
    Joined(a + b, c);
    Joined(a, b);
    SliceOfSlice(w, 0, |a + b|, 0, |a|);
    SliceOfSlice(w, 0, |a + b|, |a|, |a + b|);
  }

  /** Where two sequences agree on a front, so do the slices of it. */
  lemma SameFront<T>(a: seq<T>, b: seq<T>, n: nat, i: nat, j: nat)
    requires n <= |a| && n <= |b| && a[..n] == b[..n] && i <= j <= n
    ensures a[i..j] == b[i..j]
  {
    SliceOfSlice(a, 0, n, i, j);
    SliceOfSlice(b, 0, n, i, j);
  }

  /** Behind `x` and `a` comes `b`. */
  lemma BehindFront<T>(x: T, a: seq<T>, b: seq<T>, s: seq<T>)
    requires a + b <= s
    ensures 1 + |a + b| <= |[x] + s| && ([x] + s)[1 + |a|..1 + |a| + |b|] == b
  {
    var w, m, n := [x] + s, 1 + |a|, 1 + |a| + |b|;
    forall i | 0 <= i < |b| ensures w[m..n][i] == b[i] {
      assert w[m + i] == s[|a| + i] == (a + b)[|a| + i];
    }
  }

  /** A queue kept back to front, `longer` with `ks` put in before and the last one, its
      front, taken out: who stands for whom in the queue `q` with `ks` put in behind. */
  lemma QueueMoves<A, B>(queue: seq<A>, longer: seq<A>, q: seq<B>, ks: seq<B>, i: nat)
    requires |queue| == |q| > 0 && |longer| == |ks| + |queue| && longer[|ks|..] == queue
    requires i < |q| - 1 + |ks|
    ensures var r, next := q[1..] + ks, longer[..|longer| - 1];
            if i < |q| - 1 then next[|r| - 1 - i] == queue[|q| - 1 - (i + 1)] && r[i] == q[i + 1]
            else
              var j := i - (|q| - 1);
              next[|r| - 1 - i] == longer[|ks| - 1 - j] && r[i] == ks[j]
  {
    var r, next := q[1..] + ks, longer[..|longer| - 1];
    assert next[|r| - 1 - i] == longer[|r| - 1 - i];
    if i < |q| - 1 { assert longer[|ks|..][|q| - 2 - i] == longer[|r| - 1 - i]; }
  }

  lemma UpdateLater<T>(s: seq<T>, k: nat, x: T)
    requires 0 < k < |s|
    ensures [s[0]] + s[1..][k - 1 := x] == s[k := x]
  {
    var a, b := [s[0]] + s[1..][k - 1 := x], s[k := x];
    forall m | 0 <= m < |a| ensures a[m] == b[m] {
      if m > 0 { assert a[m] == s[1..][k - 1 := x][m - 1]; }
    }
  }

  lemma UpdateFirst<T>(s: seq<T>, x: T)
    requires s != []
    ensures [x] + s[1..] == s[0 := x]
  {
  }
}
