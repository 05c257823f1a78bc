/** Generic facts about sequences: zips, comprehensions, maps and concatenations of lists. */
module Seqs {
  function Min(a: nat, b: nat): nat {
    if a <= b then a else b
  }

  /** `zip(xs, ys)`: the pairs up to the shorter length. */
  function Zip<A, B>(xs: seq<A>, ys: seq<B>): seq<(A, B)> {
    seq(Min(|xs|, |ys|), i requires 0 <= i < Min(|xs|, |ys|) => (xs[i], ys[i]))
  }

  /** `zip(xs, ys, zs)`: the triples up to the shortest length. */
  function Zip3<A, B, C>(xs: seq<A>, ys: seq<B>, zs: seq<C>): seq<(A, B, C)> {
    seq(Min(Min(|xs|, |ys|), |zs|), i requires 0 <= i < Min(Min(|xs|, |ys|), |zs|) => (xs[i], ys[i], zs[i]))
  }

  /** `[f(t) for t in ts if keep(t)]`, built front to back. */
  function Comprehend<T, U>(ts: seq<T>, keep: T -> bool, f: T -> U): seq<U>
    decreases |ts|
  {
    if ts == [] then []
    else Comprehend(ts[..|ts| - 1], keep, f) + (if keep(ts[|ts| - 1]) then [f(ts[|ts| - 1])] else [])
  }

  /** A comprehension over two lists one after the other is the two comprehensions one after the other. */
  lemma {:induction false} ComprehendAppend<T, U>(a: seq<T>, b: seq<T>, keep: T -> bool, f: T -> U)
    ensures Comprehend(a + b, keep, f) == Comprehend(a, keep, f) + Comprehend(b, keep, f)
    decreases |b|
  {
    if b == [] {
      assert a + b == a;
    } else {
      var n := |b| - 1;
      assert (a + b)[..|a + b| - 1] == a + b[..n];
      assert (a + b)[|a + b| - 1] == b[n];
      ComprehendAppend(a, b[..n], keep, f);
    }
  }

  /** A guard that accepts every element keeps them all. */
  lemma {:induction false} ComprehendAll<T, U>(ts: seq<T>, keep: T -> bool, f: T -> U)
    requires forall i :: 0 <= i < |ts| ==> keep(ts[i])
    ensures Comprehend(ts, keep, f) == MapSeq(f, ts)
    decreases |ts|
  {
    if ts != [] {
      var n := |ts| - 1;
      assert forall i :: 0 <= i < n ==> ts[..n][i] == ts[i];
      ComprehendAll(ts[..n], keep, f);
    }
  }

  /** A guard that accepts no element keeps nothing. */
  lemma {:induction false} ComprehendNone<T, U>(ts: seq<T>, keep: T -> bool, f: T -> U)
    requires forall i :: 0 <= i < |ts| ==> !keep(ts[i])
    ensures Comprehend(ts, keep, f) == []
    decreases |ts|
  {
    if ts != [] {
      var n := |ts| - 1;
      assert forall i :: 0 <= i < n ==> ts[..n][i] == ts[i];
      ComprehendNone(ts[..n], keep, f);
    }
  }

  /** A zip reads no further than its shorter list: what follows in the longer one plays no part. */
  lemma ZipIgnoresTail<A, B>(xs: seq<A>, ys: seq<B>, more: seq<B>)
    requires |xs| <= |ys|
    ensures Zip(xs, ys + more) == Zip(xs, ys)
  {
  }

  lemma Zip3IgnoresTail<A, B, C>(xs: seq<A>, ys: seq<B>, zs: seq<C>, more: seq<C>)
    requires |xs| <= |zs|
    ensures Zip3(xs, ys, zs + more) == Zip3(xs, ys, zs)
  {
  }

  /** The positions whose element `keep` accepts, in increasing order: all of them and no other. */
  function Hits<T>(ts: seq<T>, keep: T -> bool): (h: seq<nat>)
    ensures forall j :: 0 <= j < |h| ==> h[j] < |ts| && keep(ts[h[j]])
    ensures forall j, k :: 0 <= j < k < |h| ==> h[j] < h[k]
    ensures forall i :: 0 <= i < |ts| && keep(ts[i]) ==> i in h
    decreases |ts|
  {
    if ts == [] then []
    else
      var n := |ts| - 1;
      assert forall i :: 0 <= i < n ==> ts[..n][i] == ts[i];
      Hits(ts[..n], keep) + (if keep(ts[n]) then [n] else [])
  }

  /** A comprehension picks, in order, the elements at the positions its guard accepts. */
  lemma {:induction false} ComprehendPicks<T, U>(ts: seq<T>, keep: T -> bool, f: T -> U)
    ensures |Comprehend(ts, keep, f)| == |Hits(ts, keep)|
    ensures forall j :: 0 <= j < |Hits(ts, keep)| ==> Comprehend(ts, keep, f)[j] == f(ts[Hits(ts, keep)[j]])
    decreases |ts|
  {
    if ts != [] {
      var n := |ts| - 1;
      var c, h := Comprehend(ts[..n], keep, f), Hits(ts[..n], keep);
      ComprehendPicks(ts[..n], keep, f);
      var c1 := if keep(ts[n]) then [f(ts[n])] else [];
      var h1: seq<nat> := if keep(ts[n]) then [n] else [];
      assert Comprehend(ts, keep, f) == c + c1;
      assert Hits(ts, keep) == h + h1;
      forall j | 0 <= j < |h + h1|
        ensures (c + c1)[j] == f(ts[(h + h1)[j]])
      {
        if j < |h| {
          assert (c + c1)[j] == c[j] == f(ts[..n][h[j]]);
          assert ts[..n][h[j]] == ts[h[j]];
        }
      }
    }
  }

  /** Two guards that agree position by position accept the same positions. */
  lemma {:induction false} HitsAgree<T, U>(ts: seq<T>, keep: T -> bool, us: seq<U>, keep2: U -> bool)
    requires |ts| == |us|
    requires forall i :: 0 <= i < |ts| ==> keep(ts[i]) == keep2(us[i])
    ensures Hits(ts, keep) == Hits(us, keep2)
    decreases |ts|
  {
    if ts != [] {
      var n := |ts| - 1;
      assert forall i :: 0 <= i < n ==> ts[..n][i] == ts[i] && us[..n][i] == us[i];
      HitsAgree(ts[..n], keep, us[..n], keep2);
    }
  }

  /**
   * Two comprehensions over lists of the same length whose guards and projections agree
   * position by position build the same list.
   */
  lemma {:induction false} ComprehendAgree<T, U, V>(ts: seq<T>, keep: T -> bool, f: T -> V, us: seq<U>, keep2: U -> bool, g: U -> V)
    requires |ts| == |us|
    requires forall i :: 0 <= i < |ts| ==> keep(ts[i]) == keep2(us[i]) && f(ts[i]) == g(us[i])
    ensures Comprehend(ts, keep, f) == Comprehend(us, keep2, g)
    decreases |ts|
  {
    if ts != [] {
      var n := |ts| - 1;
      assert forall i :: 0 <= i < n ==> ts[..n][i] == ts[i] && us[..n][i] == us[i];
      ComprehendAgree(ts[..n], keep, f, us[..n], keep2, g);
    }
  }

  predicate NoDup<T(==)>(xs: seq<T>) {
    forall i, j :: 0 <= i < j < |xs| ==> xs[i] != xs[j]
  }

  /** The lists one after the other. */
  function Flatten<T>(xss: seq<seq<T>>): seq<T>
    decreases |xss|
  {
    if xss == [] then [] else Flatten(xss[..|xss| - 1]) + xss[|xss| - 1]
  }

  lemma {:induction false} FlattenAppend<T>(a: seq<seq<T>>, b: seq<seq<T>>)
    ensures Flatten(a + b) == Flatten(a) + Flatten(b)
    decreases |b|
  {
    if b == [] {
      assert a + b == a;
    } else {
      var b' := b[..|b| - 1];
      assert (a + b)[..|a + b| - 1] == a + b';
      assert (a + b)[|a + b| - 1] == b[|b| - 1];
      FlattenAppend(a, b');
    }
  }

  /** Every element of the flattened list sits at some position of one of the lists. */
  lemma {:induction false} FlattenIndex<T>(xss: seq<seq<T>>, i: nat) returns (k: nat, j: nat)
    requires i < |Flatten(xss)|
    ensures k < |xss| && j < |xss[k]| && Flatten(xss)[i] == xss[k][j]
    decreases |xss|
  {
    var n := |xss| - 1;
    var init := Flatten(xss[..n]);
    if i < |init| {
      k, j := FlattenIndex(xss[..n], i);
    } else {
      k, j := n, i - |init|;
    }
  }

  lemma FlattenSnoc<T>(xss: seq<seq<T>>, ys: seq<T>)
    ensures Flatten(xss + [ys]) == Flatten(xss) + ys
  {
    assert (xss + [ys])[..|xss|] == xss;
  }

  /** `f` applied to each element, in order. */
  function MapSeq<A, B>(f: A -> B, xs: seq<A>): seq<B>
    decreases |xs|
  {
    if xs == [] then [] else MapSeq(f, xs[..|xs| - 1]) + [f(xs[|xs| - 1])]
  }

  lemma {:induction false} MapSeqAt<A, B>(f: A -> B, xs: seq<A>)
    ensures |MapSeq(f, xs)| == |xs|
    ensures forall k :: 0 <= k < |xs| ==> MapSeq(f, xs)[k] == f(xs[k])
    decreases |xs|
  {
    if xs != [] {
      var n := |xs| - 1;
      MapSeqAt(f, xs[..n]);
      assert forall k :: 0 <= k < n ==> xs[..n][k] == xs[k];
    }
  }

  lemma {:induction false} MapSeqAppend<A, B>(f: A -> B, xs: seq<A>, ys: seq<A>)
    ensures MapSeq(f, xs + ys) == MapSeq(f, xs) + MapSeq(f, ys)
    decreases |ys|
  {
    if ys == [] {
      assert xs + ys == xs;
    } else {
      var n := |ys| - 1;
      assert (xs + ys)[..|xs + ys| - 1] == xs + ys[..n];
      assert (xs + ys)[|xs + ys| - 1] == ys[n];
      MapSeqAppend(f, xs, ys[..n]);
    }
  }

  lemma AppendAssoc<T>(a: seq<T>, b: seq<T>, c: seq<T>)
    ensures (a + b) + c == a + (b + c)
  {
  }

  lemma WholePrefix<T>(xs: seq<T>)
    ensures xs[..|xs|] == xs
  {
  }

  lemma AppendAt<T>(xs: seq<T>, x: T)
    ensures |xs + [x]| == |xs| + 1 && (xs + [x])[|xs|] == x
    ensures forall i :: 0 <= i < |xs| ==> (xs + [x])[i] == xs[i]
  {
  }
}
