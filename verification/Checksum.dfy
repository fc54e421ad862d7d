/** The Internet checksum (RFC 1071) and its incremental update (RFC 1624, equation 3). */
module Checksum {
  import opened Basics

  /** Sum of the big-endian 16-bit words, an odd tail byte padded on the right. */
  function WordSum(d: Bytes): nat {
    if |d| == 0 then 0
    else if |d| == 1 then d[0] * 256
    else d[0] * 256 + d[1] + WordSum(d[2..])
  }

  predicate AllZero(d: Bytes) {
    forall i :: 0 <= i < |d| ==> d[i] == 0
  }

  lemma {:induction false} WordSumZero(d: Bytes)
    ensures WordSum(d) == 0 <==> AllZero(d)
    decreases |d|
  {
    if |d| >= 2 {
      WordSumZero(d[2..]);
      assert forall i :: 2 <= i < |d| ==> d[i] == d[2..][i - 2];
    }
  }

  /** One's-complement residue: zero only for zero, otherwise the member of 1..65535 that differs
      from `x` by a multiple of 65535. */
  function Folded(x: nat): (r: word16)
    ensures r == 0 <==> x == 0
  {
    if x <= 65535 then x else Folded(x - 65535)
  }

  function Complement(w: word16): word16 {
    65535 - w
  }

  /** The value `checksum` returns. */
  function Sum16(d: Bytes): word16 {
    Complement(Folded(WordSum(d)))
  }

  /** The value `incremental_update` returns: HC' = ~(~HC + ~m + m'). */
  function Patched(old16: word16, o: Bytes, n: Bytes): word16 {
    ComplementSumNonneg(o);
    Complement(Folded(Complement(old16) + ComplementSum(o) + WordSum(n)))
  }

  /** Sum of the complements of the words of `d`. */
  function ComplementSum(d: Bytes): int {
    65535 * ((|d| + 1) / 2) - WordSum(d)
  }

  lemma {:induction false} ComplementSumNonneg(d: Bytes)
    ensures 0 <= ComplementSum(d)
    ensures |d| >= 2 ==> ComplementSum(d) == 65535 - (d[0] * 256 + d[1]) + ComplementSum(d[2..])
    decreases |d|
  {
    if |d| >= 2 {
      ComplementSumNonneg(d[2..]);
    }
  }

  // ---- the loops -------------------------------------------------------

  method ComputeWordSum(d: Bytes) returns (sum: nat)
    ensures sum == WordSum(d)
  {
    sum := 0;
    var i := 0;
    while i + 1 < |d|
      invariant i <= |d| && i % 2 == 0
      invariant sum + WordSum(d[i..]) == WordSum(d)
    {
      sum := sum + Be16(d[i], d[i + 1]);
      assert d[i..][2..] == d[i + 2..];
      i := i + 2;
    }
    if |d| % 2 != 0 {
      sum := sum + Be16(d[|d| - 1], 0);
    }
  }

  method ComputeComplementSum(d: Bytes) returns (sum: nat)
    ensures sum == ComplementSum(d)
  {
    sum := 0;
    var i := 0;
    while i + 1 < |d|
      invariant i <= |d| && i % 2 == 0
      invariant sum + ComplementSum(d[i..]) == ComplementSum(d)
    {
      sum := sum + Complement(Be16(d[i], d[i + 1]));
      ComplementSumNonneg(d[i..]);
      assert d[i..][2..] == d[i + 2..];
      i := i + 2;
    }
    if |d| % 2 != 0 {
      assert WordSum(d[i..]) == Be16(d[|d| - 1], 0);
      sum := sum + Complement(Be16(d[|d| - 1], 0));
    }
  }

  /** Shifting carries back in is reduction to the one's-complement residue. */
  method Fold(x: nat) returns (r: word16)
    ensures r == Folded(x)
  {
    var sum := x;
    while sum >= 65536
      invariant Folded(sum) == Folded(x)
    {
      FoldedShift(sum, sum % 65536 + sum / 65536, sum / 65536);
      sum := sum % 65536 + sum / 65536;
    }
    r := sum;
  }

  method ComputeChecksum(d: Bytes) returns (c: word16)
    ensures c == Sum16(d)
  {
    var sum := ComputeWordSum(d);
    var f := Fold(sum);
    c := Complement(f);
  }

  method CombineChecksums(a: word16, b: word16) returns (c: word16)
    ensures c == Folded(a + b)
  {
    c := Fold(a + b);
  }

  method IncrementalUpdate(old16: word16, o: Bytes, n: Bytes) returns (c: word16)
    ensures c == Patched(old16, o, n)
  {
    var m := ComputeComplementSum(o);
    var m' := ComputeWordSum(n);
    var f := Fold(Complement(old16) + m + m');
    c := Complement(f);
  }

  /** UDP: zero means "no checksum", so it is never written and never patched. */
  method IncrementalUpdateUdp(old16: word16, o: Bytes, n: Bytes) returns (c: word16)
    ensures c == 0 <==> old16 == 0
    ensures old16 != 0 ==> c == if Patched(old16, o, n) == 0 then 65535 else Patched(old16, o, n)
  {
    if old16 == 0 {
      return 0;
    }
    c := IncrementalUpdate(old16, o, n);
    if c == 0 {
      c := 65535;
    }
  }

  // ---- arithmetic of residues -----------------------------------------

  lemma {:induction false} FoldedQuotient(x: nat) returns (q: nat)
    ensures x == Folded(x) + 65535 * q
  {
    if x <= 65535 {
      q := 0;
    } else {
      q := FoldedQuotient(x - 65535);
      q := q + 1;
    }
  }

  /** Residues identify positive sums that differ by a multiple of 65535. */
  lemma {:induction false} FoldedShift(a: nat, b: nat, q: int)
    requires a == b + 65535 * q && a > 0 && b > 0
    ensures Folded(a) == Folded(b)
    decreases a + b
  {
    if q > 0 {
      FoldedShift(a - 65535, b, q - 1);
    } else if q < 0 {
      FoldedShift(a, b - 65535, q + 1);
    }
  }

  /** Adding folded partial sums is summing the whole: what lets a pseudo-header and a body be
      summed apart. */
  lemma {:induction false} CombineIsConcatenation(a: Bytes, b: Bytes)
    requires |a| % 2 == 0
    ensures Folded(Folded(WordSum(a)) + Folded(WordSum(b))) == Folded(WordSum(a + b))
  {
    WordSumSplit(a, b);
    var qa := FoldedQuotient(WordSum(a));
    var qb := FoldedQuotient(WordSum(b));
    if WordSum(a + b) > 0 {
      FoldedShift(WordSum(a + b), Folded(WordSum(a)) + Folded(WordSum(b)), qa + qb);
    }
  }

  /** Where a buffer is cut decides which half of a word the next byte fills. */
  lemma {:induction false} WordSumSplit(a: Bytes, b: Bytes)
    ensures |a| % 2 == 0 ==> WordSum(a + b) == WordSum(a) + WordSum(b)
    ensures |a| % 2 == 1 ==>
              WordSum(a + b) == WordSum(a) + if b == [] then 0 else b[0] + WordSum(b[1..])
    decreases |a|
  {
    if |a| == 0 {
      assert a + b == b;
    } else if |a| == 1 {
      if b != [] {
        assert (a + b)[2..] == b[1..];
      } else {
        assert a + b == a;
      }
    } else {
      assert (a + b)[2..] == a[2..] + b;
      WordSumSplit(a[2..], b);
    }
  }

  function Splice(d: Bytes, at: nat, n: Bytes): Bytes
    requires at + |n| <= |d|
  {
    d[..at] + n + d[at + |n|..]
  }

  /** Replacing a window at an even offset, of even or odd length, moves the sum by the windows'
      difference. */
  lemma {:induction false} WordSumSplice(d: Bytes, at: nat, n: Bytes)
    requires at % 2 == 0 && at + |n| <= |d|
    ensures WordSum(Splice(d, at, n)) == WordSum(d) - WordSum(d[at..at + |n|]) + WordSum(n)
  {
    var pre, win, post := d[..at], d[at..at + |n|], d[at + |n|..];
    assert d == pre + (win + post);
    assert Splice(d, at, n) == pre + (n + post);
    WordSumSplit(pre, win + post);
    WordSumSplit(pre, n + post);
    WordSumSplit(win, post);
    WordSumSplit(n, post);
  }

  /** Patching the old checksum gives the checksum of the new buffer, except that a non-empty
      rewrite leaving an all-zero buffer gives the other one's-complement zero. */
  lemma {:induction false} IncrementalMatchesFull(d: Bytes, at: nat, n: Bytes)
    requires at % 2 == 0 && at + |n| <= |d|
    ensures var d' := Splice(d, at, n);
            var patched := Patched(Sum16(d), d[at..at + |n|], n);
            && (patched == Sum16(d') <==> n == [] || !AllZero(d'))
            && (patched != Sum16(d') ==> patched == 0 && Sum16(d') == 65535)
  {
    var win, d' := d[at..at + |n|], Splice(d, at, n);
    ComplementSumNonneg(win);
    WordSumSplice(d, at, n);
    var f, k := Folded(WordSum(d)), (|n| + 1) / 2;
    var q := FoldedQuotient(WordSum(d));
    var sum := f + ComplementSum(win) + WordSum(n);
    assert sum == WordSum(d') + 65535 * (k - q);
    WordSumZero(d');
    if n == [] {
      assert d' == d && sum == f;
      if f > 0 {
        FoldedShift(WordSum(d), f, q);
      }
    } else {
      if f == 0 {
        WordSumZero(d);
        WordSumZero(win);
      }
      assert sum > 0;
      if WordSum(d') > 0 {
        FoldedShift(sum, WordSum(d'), k - q);
      } else {
        FoldedShift(sum, 65535, k - q - 1);
      }
    }
  }

  /** As when the one word that is not zero is cleared. */
  lemma ClearedMisses()
    ensures Splice([1, 0], 0, [0, 0]) == [0, 0]
    ensures Patched(Sum16([1, 0]), [1, 0], [0, 0]) == 0 && Sum16([0, 0]) == 65535
  {
    var d: Bytes, n: Bytes := [1, 0], [0, 0];
    assert d[0..2] == d && Splice(d, 0, n) == n;
    IncrementalMatchesFull(d, 0, n);
  }

  /** A buffer that stores its own checksum has a checksum of zero: its words sum to a positive
      multiple of 65535. */
  lemma ZeroChecksum(d: Bytes, q: int)
    requires WordSum(d) == 65535 * q > 0
    ensures Sum16(d) == 0
  {
    FoldedShift(WordSum(d), 65535, q - 1);
  }

  lemma ZeroChecksumSum(d: Bytes) returns (q: nat)
    requires Sum16(d) == 0
    ensures WordSum(d) == 65535 * q > 0
  {
    q := FoldedQuotient(WordSum(d));
    q := q + 1;
  }
}
