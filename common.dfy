/** Small value types and sequence helpers shared by every chart's data step. */
module Common {

  datatype Option<+T> = None | Some(value: T)

  /** What a chart does with its prepared data: draw it, or show a message instead. */
  datatype Render<+T> = Message(text: string) | Draw(data: T)

  function Max(a: int, b: int): int { if a < b then b else a }

  function Min(a: int, b: int): int { if a < b then a else b }

  /** Sum of a sequence, taken from the back so that loops can extend a prefix. */
  function Sum(s: seq<int>): int
  {
    if s == [] then 0 else Sum(s[..|s| - 1]) + s[|s| - 1]
  }

  lemma {:induction false} SumConcat(a: seq<int>, b: seq<int>)
    ensures Sum(a + b) == Sum(a) + Sum(b)
  {
    if b != [] {
      assert (a + b)[..|a + b| - 1] == a + b[..|b| - 1];
      SumConcat(a, b[..|b| - 1]);
    } else {
      assert a + b == a;
    }
  }

  lemma {:induction false} SumAppend(s: seq<int>, x: int)
    ensures Sum(s + [x]) == Sum(s) + x
  {
    assert (s + [x])[..|s|] == s;
  }

  /** Sums over adjacent slices add up. */
  lemma {:induction false} SumSplit(s: seq<int>, a: nat, b: nat, c: nat)
    requires a <= b <= c <= |s|
    ensures Sum(s[a..c]) == Sum(s[a..b]) + Sum(s[b..c])
  {
    assert s[a..c] == s[a..b] + s[b..c];
    SumConcat(s[a..b], s[b..c]);
  }

  /** A quotient by a positive number lies between the bounds its numerator was scaled from. */
  lemma {:induction false} QuotientBounds(total: real, n: real, lo: real, hi: real)
    requires n > 0.0 && n * lo <= total <= n * hi
    ensures lo <= total / n <= hi
  {
    assert (total / n) * n == total;
  }

  /** Every element is at least `lo` and at most `hi`, so the sum is bounded by |s| copies of each. */
  lemma {:induction false} SumBounds(s: seq<int>, lo: int, hi: int)
    requires forall i :: 0 <= i < |s| ==> lo <= s[i] <= hi
    ensures |s| * lo <= Sum(s) <= |s| * hi
  {
    if s != [] {
      var n := |s|;
      SumBounds(s[..n - 1], lo, hi);
      assert (n - 1) * lo + lo == n * lo;
      assert (n - 1) * hi + hi == n * hi;
    }
  }

  /** `Array.prototype.filter`: the elements satisfying `p`, in their original order. */
  function Filter<T>(s: seq<T>, p: T -> bool): (r: seq<T>)
    ensures |r| <= |s|
    ensures forall i :: 0 <= i < |r| ==> p(r[i]) && r[i] in s
  {
    if s == [] then []
    else
      var rest := Filter(s[..|s| - 1], p);
      if p(s[|s| - 1]) then rest + [s[|s| - 1]] else rest
  }

  /** The positions of the elements of `s` that satisfy `p`, in ascending order. */
  function FilterIndices<T>(s: seq<T>, p: T -> bool): (r: seq<nat>)
    ensures |r| == |Filter(s, p)|
    ensures forall k :: 0 <= k < |r| ==> r[k] < |s| && Filter(s, p)[k] == s[r[k]]
  {
    if s == [] then []
    else
      var rest := FilterIndices(s[..|s| - 1], p);
      assert forall k :: 0 <= k < |rest| ==> s[..|s| - 1][rest[k]] == s[rest[k]];
      if p(s[|s| - 1]) then rest + [|s| - 1] else rest
  }

  /** `filter` keeps the original order: the kept positions ascend. */
  lemma {:induction false} FilterInOrder<T>(s: seq<T>, p: T -> bool)
    ensures forall a, b :: 0 <= a < b < |FilterIndices(s, p)| ==> FilterIndices(s, p)[a] < FilterIndices(s, p)[b]
  {
    if s != [] {
      var n := |s|;
      FilterInOrder(s[..n - 1], p);
      var rest := FilterIndices(s[..n - 1], p);
      assert forall k :: 0 <= k < |rest| ==> rest[k] < n - 1;
      if p(s[n - 1]) {
        var r := FilterIndices(s, p);
        assert r == rest + [n - 1];
        forall a, b | 0 <= a < b < |r| ensures r[a] < r[b] {
          if b < |rest| { assert r[a] == rest[a] && r[b] == rest[b]; } else { assert r[a] == rest[a]; }
        }
      }
    }
  }

  /** `filter` keeps exactly the positions whose element satisfies `p`; with `FilterInOrder`
      the result is the in-order subsequence of the elements satisfying `p`. */
  lemma {:induction false} FilterPosition<T>(s: seq<T>, p: T -> bool, i: int)
    ensures i in FilterIndices(s, p) <==> 0 <= i < |s| && p(s[i])
  {
    if s != [] {
      var n := |s|;
      var init := s[..n - 1];
      FilterPosition(init, p, i);
      var rest := FilterIndices(init, p);
      assert 0 <= i < n - 1 ==> init[i] == s[i];
      assert n - 1 !in rest;
      if p(s[n - 1]) {
        assert FilterIndices(s, p) == rest + [n - 1];
      }
    }
  }

  /** Nothing that satisfies `p` is lost by filtering. */
  lemma {:induction false} FilterKeeps<T>(s: seq<T>, p: T -> bool, x: T)
    requires x in s && p(x)
    ensures x in Filter(s, p)
  {
    var n := |s|;
    if s[n - 1] != x {
      assert x in s[..n - 1] by {
        var i :| 0 <= i < n && s[i] == x;
        assert s[..n - 1][i] == x;
      }
      FilterKeeps(s[..n - 1], p, x);
    }
  }

  /** When the first element fails `p`, filtering drops at least that one. */
  lemma {:induction false} FilterDropsHead<T>(s: seq<T>, p: T -> bool)
    requires s != [] && !p(s[0])
    ensures |Filter(s, p)| <= |s| - 1
  {
    var n := |s|;
    if n > 1 {
      FilterDropsHead(s[..n - 1], p);
    }
  }

  /** `Array.prototype.slice(-n)` for n > 0: the last n elements, or all of them when fewer. */
  function LastN<T>(s: seq<T>, n: nat): (r: seq<T>)
    requires n > 0
    ensures |r| == Min(|s|, n)
    ensures forall i :: 0 <= i < |r| ==> r[i] == s[|s| - |r| + i]
  {
    if |s| <= n then s else s[|s| - n..]
  }

  /** Of an ascending sequence, `slice(-n)` keeps a suffix: once an element is kept every
      larger one is, and an element is dropped only when n larger ones are kept. */
  lemma {:induction false} LastNLatest(idx: seq<nat>, n: nat, i: nat)
    requires n > 0 && i in idx
    requires forall a, b :: 0 <= a < b < |idx| ==> idx[a] < idx[b]
    ensures i in LastN(idx, n) ==> forall j :: j in idx && i < j ==> j in LastN(idx, n)
    ensures i !in LastN(idx, n) ==> |LastN(idx, n)| == n && forall k :: 0 <= k < n ==> LastN(idx, n)[k] > i
  {
    var r := LastN(idx, n);
    var m := |idx| - |r|;
    var t :| 0 <= t < |idx| && idx[t] == i;
    if t >= m {
      assert r[t - m] == i;
      forall j | j in idx && i < j ensures j in r {
        LastNKeepsLater(idx, n, t, j);
      }
    } else {
      forall k | 0 <= k < n ensures r[k] > i {
        assert r[k] == idx[m + k];
      }
    }
  }

  lemma {:induction false} LastNKeepsLater(idx: seq<nat>, n: nat, t: nat, j: nat)
    requires n > 0 && |idx| - |LastN(idx, n)| <= t < |idx| && j in idx && idx[t] < j
    requires forall a, b :: 0 <= a < b < |idx| ==> idx[a] < idx[b]
    ensures j in LastN(idx, n)
  {
    var m := |idx| - |LastN(idx, n)|;
    assert LastN(idx, n) == idx[m..];
    var u :| 0 <= u < |idx| && idx[u] == j;
    assert t < u;
    assert idx[m..][u - m] == j;
  }
}
