/** Sums of a quantity over the edges of a point sequence. The geometry walks a polygon with
    index i and partner index (i + 1) % n three times (shoelace area, spherical area, segment
    labels); `WrapSum` is that loop's running total, and `Chain`/`Closed` are the open path and
    the closed ring it amounts to, on which rotation and reversal are proved. */
module EdgeSums {

  /** Running total of the first k edges, edge i joining s[i] to s[(i + 1) % |s|]. */
  function WrapSum<T>(f: (T, T) -> real, s: seq<T>, k: nat): real
    requires k <= |s|
  {
    if k == 0 then 0.0 else WrapSum(f, s, k - 1) + f(s[k - 1], s[k % |s|])
  }

  /** Sum over the |s| - 1 edges of the open path s[0], s[1], ..., s[|s| - 1]. */
  function Chain<T>(f: (T, T) -> real, s: seq<T>): real
    decreases |s|
  {
    if |s| < 2 then 0.0 else Chain(f, s[..|s| - 1]) + f(s[|s| - 2], s[|s| - 1])
  }

  /** Sum over the |s| edges of the closed ring: the open path plus the edge back to s[0]. */
  function Closed<T>(f: (T, T) -> real, s: seq<T>): real
  {
    if |s| == 0 then 0.0 else Chain(f, s) + f(s[|s| - 1], s[0])
  }

  /** The sequence started at index k instead of 0. */
  function Rotate<T>(s: seq<T>, k: nat): (r: seq<T>)
    requires k <= |s|
    ensures |r| == |s|
    ensures forall i :: 0 <= i < |s| - k ==> r[i] == s[i + k]
    ensures forall i :: |s| - k <= i < |s| ==> r[i] == s[i + k - |s|]
  {
    s[k..] + s[..k]
  }

  function Reverse<T>(s: seq<T>): (r: seq<T>)
    ensures |r| == |s|
    ensures forall i :: 0 <= i < |s| ==> r[i] == s[|s| - 1 - i]
  {
    if s == [] then [] else Reverse(s[1..]) + [s[0]]
  }

  ghost predicate Antisymmetric<T(!new)>(f: (T, T) -> real) {
    forall p, q :: f(p, q) == -f(q, p)
  }

  ghost predicate Symmetric<T(!new)>(f: (T, T) -> real) {
    forall p, q :: f(p, q) == f(q, p)
  }

  ghost predicate NonNegative<T(!new)>(f: (T, T) -> real) {
    forall p, q :: 0.0 <= f(p, q)
  }

  /** Before the wrap-around edge, the loop's total is the open path over s[..k + 1]. */
  lemma {:induction false} WrapSumIsChain<T>(f: (T, T) -> real, s: seq<T>, k: nat)
    requires k < |s|
    ensures WrapSum(f, s, k) == Chain(f, s[..k + 1])
  {
    if k > 0 {
      WrapSumIsChain(f, s, k - 1);
      WrapSumStep(f, s, k);
      var p := s[..k + 1];
      ChainStep(f, p);
      assert p[..|p| - 1] == s[..k];
      assert p[|p| - 2] == s[k - 1] && p[|p| - 1] == s[k];
    }
  }

  /** The partner index (i + 1) % n is the next index, or 0 after the last one. */
  lemma NextIndex(i: nat, n: nat)
    requires i < n
    ensures (i + 1) % n == if i + 1 < n then i + 1 else 0
  {
  }

  /** One step of the loop before the wrap-around edge. */
  lemma WrapSumStep<T>(f: (T, T) -> real, s: seq<T>, k: nat)
    requires 0 < k < |s|
    ensures WrapSum(f, s, k) == WrapSum(f, s, k - 1) + f(s[k - 1], s[k])
  {
    assert k % |s| == k;
  }

  /** The last edge of an open path. */
  lemma ChainStep<T>(f: (T, T) -> real, p: seq<T>)
    requires 2 <= |p|
    ensures Chain(f, p) == Chain(f, p[..|p| - 1]) + f(p[|p| - 2], p[|p| - 1])
  {
  }

  /** After all |s| steps the loop's total is the closed ring. */
  lemma {:induction false} WrapSumIsClosed<T>(f: (T, T) -> real, s: seq<T>)
    requires 0 < |s|
    ensures WrapSum(f, s, |s|) == Closed(f, s)
  {
    WrapSumIsChain(f, s, |s| - 1);
    assert s[..|s|] == s;
  }

  /** Stopping one step early leaves the open path: the wrap-around edge is the last one added. */
  lemma {:induction false} WrapSumOpen<T>(f: (T, T) -> real, s: seq<T>)
    requires 0 < |s|
    ensures WrapSum(f, s, |s| - 1) == Chain(f, s)
  {
    WrapSumIsChain(f, s, |s| - 1);
    assert s[..|s|] == s;
  }

  lemma {:induction false} ChainPrepend<T>(f: (T, T) -> real, a: T, t: seq<T>)
    requires 0 < |t|
    ensures Chain(f, [a] + t) == f(a, t[0]) + Chain(f, t)
    decreases |t|
  {
    if |t| > 1 {
      var u := t[..|t| - 1];
      assert ([a] + t)[..|t|] == [a] + u;
      ChainPrepend(f, a, u);
    }
  }

  lemma {:induction false} ChainAppend<T>(f: (T, T) -> real, t: seq<T>, a: T)
    requires 0 < |t|
    ensures Chain(f, t + [a]) == Chain(f, t) + f(t[|t| - 1], a)
  {
    assert (t + [a])[..|t|] == t;
  }

  /** Moving the first point to the end describes the same ring. */
  lemma {:induction false} ClosedRotateOne<T>(f: (T, T) -> real, s: seq<T>)
    requires 0 < |s|
    ensures Closed(f, s[1..] + [s[0]]) == Closed(f, s)
  {
    var t := s[1..];
    if |t| > 0 {
      assert s == [s[0]] + t;
      ChainPrepend(f, s[0], t);
      ChainAppend(f, t, s[0]);
    }
  }

  /** Starting the ring at any of its points gives the same total. */
  lemma {:induction false} ClosedRotate<T>(f: (T, T) -> real, s: seq<T>, k: nat)
    requires k <= |s|
    ensures Closed(f, Rotate(s, k)) == Closed(f, s)
  {
    if k == 0 {
      assert Rotate(s, 0) == s;
    } else {
      var r := Rotate(s, k - 1);
      ClosedRotate(f, s, k - 1);
      ClosedRotateOne(f, r);
      assert r[1..] + [r[0]] == Rotate(s, k);
    }
  }

  /** Walking an antisymmetric quantity backwards negates the open path. */
  lemma {:induction false} ChainReverse<T(!new)>(f: (T, T) -> real, s: seq<T>)
    requires Antisymmetric(f)
    ensures Chain(f, Reverse(s)) == -Chain(f, s)
    decreases |s|
  {
    if |s| >= 2 {
      var t := s[1..];
      ChainReverse(f, t);
      ChainAppend(f, Reverse(t), s[0]);
      ChainPrepend(f, s[0], t);
      assert s == [s[0]] + t;
      assert f(t[0], s[0]) == -f(s[0], t[0]);
    } else if |s| == 1 {
      assert Reverse(s) == s;
    }
  }

  /** Walking an antisymmetric quantity round the ring the other way negates the total. */
  lemma {:induction false} ClosedReverse<T(!new)>(f: (T, T) -> real, s: seq<T>)
    requires Antisymmetric(f)
    ensures Closed(f, Reverse(s)) == -Closed(f, s)
  {
    if |s| > 0 {
      ChainReverse(f, s);
      assert f(s[0], s[|s| - 1]) == -f(s[|s| - 1], s[0]);
    }
  }

  lemma {:induction false} ChainNonNegative<T(!new)>(f: (T, T) -> real, s: seq<T>)
    requires NonNegative(f)
    ensures 0.0 <= Chain(f, s)
    decreases |s|
  {
    if |s| >= 2 {
      ChainNonNegative(f, s[..|s| - 1]);
      assert 0.0 <= f(s[|s| - 2], s[|s| - 1]);
    }
  }

  /** Walking a symmetric quantity backwards leaves the open path unchanged. */
  lemma {:induction false} ChainReverseSymmetric<T(!new)>(f: (T, T) -> real, s: seq<T>)
    requires Symmetric(f)
    ensures Chain(f, Reverse(s)) == Chain(f, s)
    decreases |s|
  {
    if |s| >= 2 {
      var t := s[1..];
      ChainReverseSymmetric(f, t);
      ChainAppend(f, Reverse(t), s[0]);
      ChainPrepend(f, s[0], t);
      assert s == [s[0]] + t;
      assert f(t[0], s[0]) == f(s[0], t[0]);
    } else if |s| == 1 {
      assert Reverse(s) == s;
    }
  }

  /** Walking a symmetric quantity round the ring the other way gives the same total. */
  lemma {:induction false} ClosedReverseSymmetric<T(!new)>(f: (T, T) -> real, s: seq<T>)
    requires Symmetric(f)
    ensures Closed(f, Reverse(s)) == Closed(f, s)
  {
    if |s| > 0 {
      ChainReverseSymmetric(f, s);
      assert f(s[0], s[|s| - 1]) == f(s[|s| - 1], s[0]);
    }
  }
}
