/** What writing a run of bytes into a Go byte slice does to its contents. */
module Buffers {

  /** s with the bytes of x written over it starting at index p. */
  function Splice<T>(s: seq<T>, p: nat, x: seq<T>): (r: seq<T>)
    requires p + |x| <= |s|
    ensures |r| == |s|
  {
    s[..p] + x + s[p + |x|..]
  }

  /** Writing one more element right after x extends the written run. */
  lemma SpliceExtend<T>(s: seq<T>, p: nat, x: seq<T>, b: T)
    requires p + |x| + 1 <= |s|
    ensures Splice(s, p, x)[p + |x| := b] == Splice(s, p, x + [b])
  {
    var l := Splice(s, p, x)[p + |x| := b];
    var r := Splice(s, p, x + [b]);
    assert |l| == |r|;
    forall k | 0 <= k < |l|
      ensures l[k] == r[k]
    {
      if k < p {
        assert l[k] == s[..p][k];
      } else if k < p + |x| {
        assert l[k] == Splice(s, p, x)[p..p + |x|][k - p];
        assert r[k] == r[p..p + |x| + 1][k - p];
      } else if k == p + |x| {
        assert r[k] == r[p..p + |x| + 1][k - p];
      } else {
        assert l[k] == Splice(s, p, x)[p + |x|..][k - p - |x|];
        assert r[k] == r[p + |x| + 1..][k - p - |x| - 1];
      }
    }
  }

  /** Two writes side by side are one write of both runs. */
  lemma SpliceTwice<T>(s: seq<T>, p: nat, x: seq<T>, y: seq<T>)
    requires p + |x| + |y| <= |s|
    ensures Splice(Splice(s, p, x), p + |x|, y) == Splice(s, p, x + y)
  {
    var l := Splice(Splice(s, p, x), p + |x|, y);
    var r := Splice(s, p, x + y);
    forall k | 0 <= k < |l|
      ensures l[k] == r[k]
    {
      if k < p {
        assert l[k] == l[..p][k] == s[..p][k] == r[..p][k];
      } else if k < p + |x| {
        assert l[k] == l[..p + |x|][k] == Splice(s, p, x)[..p + |x|][k] == Splice(s, p, x)[p..p + |x|][k - p];
        assert r[k] == r[p..p + |x| + |y|][k - p] == (x + y)[k - p];
      } else if k < p + |x| + |y| {
        assert l[k] == l[p + |x|..p + |x| + |y|][k - p - |x|];
        assert r[k] == r[p..p + |x| + |y|][k - p] == (x + y)[k - p];
      } else {
        assert l[k] == l[p + |x| + |y|..][k - p - |x| - |y|];
        assert r[k] == r[p + |x| + |y|..][k - p - |x| - |y|];
      }
    }
    assert l == r;
  }

  /** Writing nothing leaves the contents as they were. */
  lemma SpliceEmpty<T>(s: seq<T>, p: nat)
    requires p <= |s|
    ensures Splice(s, p, []) == s
  {
    assert s[..p] + s[p..] == s;
  }

  /** x occurs in s starting at index i. */
  predicate At<T(==)>(s: seq<T>, i: nat, x: seq<T>)
  {
    i + |x| <= |s| && s[i..i + |x|] == x
  }

  lemma AtSplit<T>(s: seq<T>, i: nat, x: seq<T>, y: seq<T>)
    requires At(s, i, x + y)
    ensures At(s, i, x) && At(s, i + |x|, y)
  {
    assert s[i..i + |x|] == s[i..i + |x + y|][..|x|];
    assert s[i + |x|..i + |x| + |y|] == s[i..i + |x + y|][|x|..];
  }

  lemma AtJoin<T>(s: seq<T>, i: nat, x: seq<T>, y: seq<T>)
    requires At(s, i, x) && At(s, i + |x|, y)
    ensures At(s, i, x + y)
  {
    assert s[i..i + |x + y|] == s[i..i + |x|] + s[i + |x|..i + |x| + |y|];
  }

  /** The element found at i. */
  lemma AtOne<T>(s: seq<T>, i: nat, b: T)
    requires At(s, i, [b])
    ensures i < |s| && s[i] == b
  {
    assert s[i..i + 1][0] == s[i];
  }

  lemma AtDrop<T>(s: seq<T>, j: nat, i: nat, x: seq<T>)
    requires j <= i && At(s, i, x)
    ensures At(s[j..], i - j, x)
  {
    assert s[j..][i - j..i - j + |x|] == s[i..i + |x|];
  }

  lemma AtFront<T>(x: seq<T>, rest: seq<T>)
    ensures At(x + rest, 0, x)
  {
    assert (x + rest)[..|x|] == x;
  }

  /** Two adjacent slices make up the slice that spans both. */
  lemma SliceJoin<T>(s: seq<T>, i: nat, k: nat, j: nat)
    requires i <= k <= j <= |s|
    ensures s[i..k] + s[k..j] == s[i..j]
  {
  }

  lemma AtSlice<T>(s: seq<T>, i: nat, x: seq<T>)
    requires At(s, i, x)
    ensures s[i..i + |x|] == x
  {
  }

  lemma AppendAssoc<T>(u: seq<T>, x: seq<T>, y: seq<T>)
    ensures (u + x) + y == u + (x + y)
  {
  }
}
