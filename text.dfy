/** Subsequences: what a text cleaner that only deletes characters
    can make of its input. */
module Text {

  /** a is obtained from b by deleting zero or more items. */
  predicate IsSubseq<T(==)>(a: seq<T>, b: seq<T>)
    decreases |b|
  {
    |a| == 0 || (|b| > 0 && ((a[0] == b[0] && IsSubseq(a[1..], b[1..])) || IsSubseq(a, b[1..])))
  }

  /** A subsequence of a suffix of b is a subsequence of b. */
  lemma {:induction false} SubseqOfSuffix<T>(a: seq<T>, b: seq<T>, k: nat)
    requires k <= |b| && IsSubseq(a, b[k..])
    ensures IsSubseq(a, b)
  {
    if k > 0 {
      assert b[1..][k - 1..] == b[k..];
      SubseqOfSuffix(a, b[1..], k - 1);
    }
  }

  lemma {:induction false} SubseqRefl<T>(a: seq<T>)
    ensures IsSubseq(a, a)
  {
    if |a| > 0 {
      SubseqRefl(a[1..]);
    }
  }

  lemma {:induction false} SubseqTrans<T>(a: seq<T>, b: seq<T>, c: seq<T>)
    requires IsSubseq(a, b) && IsSubseq(b, c)
    ensures IsSubseq(a, c)
    decreases |c|
  {
    if |a| > 0 {
      if IsSubseq(b, c[1..]) {
        SubseqTrans(a, b, c[1..]);
      } else if IsSubseq(a, b[1..]) {
        SubseqTrans(a, b[1..], c[1..]);
      } else {
        SubseqTrans(a[1..], b[1..], c[1..]);
      }
    }
  }

  /** A subsequence is never longer. */
  lemma {:induction false} SubseqLength<T>(a: seq<T>, b: seq<T>)
    requires IsSubseq(a, b)
    ensures |a| <= |b|
    decreases |b|
  {
    if |a| > 0 {
      if IsSubseq(a, b[1..]) {
        SubseqLength(a, b[1..]);
      } else {
        SubseqLength(a[1..], b[1..]);
      }
    }
  }

  /** A subsequence of a prefix of b is a subsequence of b. */
  lemma {:induction false} SubseqPrefix<T>(a: seq<T>, b: seq<T>, k: nat)
    requires k <= |b| && IsSubseq(a, b[..k])
    ensures IsSubseq(a, b)
    decreases k
  {
    if |a| > 0 {
      assert b[..k][1..] == b[1..][..k - 1];
      if IsSubseq(a, b[..k][1..]) {
        SubseqPrefix(a, b[1..], k - 1);
      } else {
        SubseqPrefix(a[1..], b[1..], k - 1);
      }
    }
  }

  /** Subsequences of the two halves make a subsequence of the whole. */
  lemma {:induction false} SubseqConcat<T>(a: seq<T>, b: seq<T>, c: seq<T>, d: seq<T>)
    requires IsSubseq(a, b) && IsSubseq(c, d)
    ensures IsSubseq(a + c, b + d)
    decreases |b|
  {
    if |a| == 0 {
      assert a + c == c;
      SubseqOfSuffix(c, b + d, |b|);
      assert (b + d)[|b|..] == d;
    } else if IsSubseq(a, b[1..]) {
      SubseqConcat(a, b[1..], c, d);
      assert (b + d)[1..] == b[1..] + d;
    } else {
      SubseqConcat(a[1..], b[1..], c, d);
      assert (a + c)[1..] == a[1..] + c;
      assert (b + d)[1..] == b[1..] + d;
    }
  }
}
