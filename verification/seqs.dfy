/** Concatenation of a sequence of blocks, and where each block lands in
    the result. */
module Seqs {

  /** The blocks joined end to end. */
  function Flatten<T>(bs: seq<seq<T>>): seq<T> {
    if |bs| == 0 then [] else Flatten(bs[..|bs| - 1]) + bs[|bs| - 1]
  }

  /** Position of block `k` in the flattened sequence. */
  function Offset<T>(bs: seq<seq<T>>, k: nat): nat
    requires k <= |bs|
  {
    |Flatten(bs[..k])|
  }

  lemma FlattenStep<T>(bs: seq<seq<T>>, i: nat)
    requires i < |bs|
    ensures Flatten(bs[..i + 1]) == Flatten(bs[..i]) + bs[i]
  {
    assert bs[..i + 1][..i] == bs[..i];
  }

  lemma PrefixOfConcat<T>(a: seq<T>, b: seq<T>, k: nat)
    requires k <= |a|
    ensures (a + b)[..k] == a[..k]
  {
  }

  lemma AppendAssoc<T>(a: seq<T>, b: seq<T>, c: seq<T>)
    ensures a + b + c == a + (b + c)
  {
  }

  /** A non-empty `b` splits off its last element, also behind `a`. */
  lemma SplitLast<T>(a: seq<T>, b: seq<T>)
    requires |b| > 0
    ensures b == b[..|b| - 1] + [b[|b| - 1]]
    ensures a + b == (a + b[..|b| - 1]) + [b[|b| - 1]]
  {
  }

  /** Flattening a longer prefix extends the shorter one. */
  lemma {:induction false} FlattenExtends<T>(bs: seq<seq<T>>, m: nat, n: nat)
    requires m <= n <= |bs|
    ensures |Flatten(bs[..m])| <= |Flatten(bs[..n])|
    ensures Flatten(bs[..n])[..|Flatten(bs[..m])|] == Flatten(bs[..m])
    decreases n - m
  {
    if m < n {
      FlattenExtends(bs, m, n - 1);
      FlattenStep(bs, n - 1);
      PrefixOfConcat(Flatten(bs[..n - 1]), bs[n - 1], |Flatten(bs[..m])|);
    }
  }

  /** Every block starts at its offset, offsets grow strictly when blocks are
      non-empty, and the result is at least as long as the number of blocks. */
  lemma {:induction false} BlockHeads<T>(bs: seq<seq<T>>)
    requires forall k :: 0 <= k < |bs| ==> |bs[k]| > 0
    ensures |Flatten(bs)| >= |bs|
    ensures forall k :: 0 <= k < |bs| ==>
      Offset(bs, k) < |Flatten(bs)| && Flatten(bs)[Offset(bs, k)] == bs[k][0]
    ensures forall k, k' :: 0 <= k < k' < |bs| ==> Offset(bs, k) < Offset(bs, k')
  {
    var n := |bs|;
    assert bs[..n] == bs;
    LengthAtLeastCount(bs, n);
    forall k | 0 <= k < n
      ensures Offset(bs, k) < |Flatten(bs)| && Flatten(bs)[Offset(bs, k)] == bs[k][0]
    {
      FlattenStep(bs, k);
      FlattenExtends(bs, k + 1, n);
      var a := Flatten(bs[..k + 1]);
      assert a[Offset(bs, k)] == bs[k][0];
      assert Flatten(bs)[..|a|] == a;
    }
    forall k, k' | 0 <= k < k' < n ensures Offset(bs, k) < Offset(bs, k') {
      FlattenStep(bs, k);
      FlattenExtends(bs, k + 1, k');
    }
  }

  lemma {:induction false} LengthAtLeastCount<T>(bs: seq<seq<T>>, n: nat)
    requires n <= |bs|
    requires forall k :: 0 <= k < |bs| ==> |bs[k]| > 0
    ensures |Flatten(bs[..n])| >= n
  {
    if n > 0 {
      LengthAtLeastCount(bs, n - 1);
      FlattenStep(bs, n - 1);
    }
  }

  /** `a` occurs in `b` starting at index `i`. */
  ghost predicate InfixAt<T>(a: seq<T>, b: seq<T>, i: int) {
    0 <= i <= |b| - |a| && b[i..i + |a|] == a
  }

  /** `a` occurs in `b` as a contiguous run. */
  ghost predicate Infix<T>(a: seq<T>, b: seq<T>) {
    exists i :: InfixAt(a, b, i)
  }

  lemma InfixTrans<T>(a: seq<T>, b: seq<T>, c: seq<T>)
    requires Infix(a, b) && Infix(b, c)
    ensures Infix(a, c)
  {
    var i :| InfixAt(a, b, i);
    var j :| InfixAt(b, c, j);
    forall t | 0 <= t < |a| ensures c[j + i + t] == a[t] {
      assert a[t] == b[i + t];
      assert b[i + t] == c[j..j + |b|][i + t];
    }
    assert c[j + i..j + i + |a|] == a;
    assert InfixAt(a, c, j + i);
  }

  lemma InfixWiden<T>(a: seq<T>, b: seq<T>, pre: seq<T>, post: seq<T>)
    requires Infix(a, b)
    ensures Infix(a, pre + b + post)
  {
    var i :| InfixAt(a, b, i);
    var c := pre + b + post;
    assert c[|pre| + i..|pre| + i + |a|] == b[i..i + |a|];
    assert InfixAt(a, c, |pre| + i);
  }

  lemma PrefixSlice<T>(f: seq<T>, a: seq<T>, b: seq<T>)
    requires |a| + |b| <= |f| && f[..|a| + |b|] == a + b
    ensures f[|a|..|a| + |b|] == b
  {
    forall t | 0 <= t < |b| ensures f[|a| + t] == b[t] {
      assert f[|a| + t] == f[..|a| + |b|][|a| + t];
    }
  }

  /** Each block occurs, whole, in the flattened sequence, at its offset. */
  lemma FlattenHasBlock<T>(bs: seq<seq<T>>, k: nat)
    requires k < |bs|
    ensures InfixAt(bs[k], Flatten(bs), Offset(bs, k))
    ensures Infix(bs[k], Flatten(bs))
  {
    var a, b := Flatten(bs[..k]), bs[k];
    FlattenStep(bs, k);
    FlattenExtends(bs, k + 1, |bs|);
    assert bs[..|bs|] == bs;
    var f := Flatten(bs);
    assert f[..|a| + |b|] == a + b;
    PrefixSlice(f, a, b);
    assert InfixAt(b, f, |a|);
  }

  /** Every element of every block occurs in the flattened sequence. */
  lemma FlattenHasElement<T>(bs: seq<seq<T>>, k: nat, j: nat)
    requires k < |bs| && j < |bs[k]|
    ensures bs[k][j] in Flatten(bs)
  {
    FlattenHasBlock(bs, k);
    var f, o := Flatten(bs), Offset(bs, k);
    assert f[o..o + |bs[k]|][j] == f[o + j];
  }

  /** Empty blocks flatten to nothing. */
  lemma {:induction false} FlattenEmpty<T>(bs: seq<seq<T>>)
    requires forall k :: 0 <= k < |bs| ==> bs[k] == []
    ensures Flatten(bs) == []
  {
    if |bs| > 0 {
      FlattenEmpty(bs[..|bs| - 1]);
    }
  }
}
