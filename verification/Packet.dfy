/** IP header fields: reading them, rewriting them in place, and keeping the IPv4 header checksum
    right while doing so. */
module Packet {
  import opened Basics
  import opened Checksum

  // ---- reading ---------------------------------------------------------

  function Version(p: Bytes): byte {
    if p == [] then 0 else p[0] / 16
  }

  function HeaderLen(p: Bytes): nat {
    if p == [] then 0 else p[0] % 16 * 4
  }

  function TotalLen(p: Bytes): word16 {
    if |p| < 4 then 0 else Be16(p[2], p[3])
  }

  predicate Bit(b: byte, weight: nat)
    requires weight > 0
  {
    b / weight % 2 == 1
  }

  predicate DontFragment(p: Bytes) {
    |p| >= 7 && Bit(p[6], 64)
  }

  predicate MoreFragments(p: Bytes) {
    |p| >= 7 && Bit(p[6], 32)
  }

  /** In bytes; the wire counts units of eight. */
  function FragmentOffset(p: Bytes): nat {
    if |p| < 8 then 0 else Be16(p[6], p[7]) % 8192 * 8
  }

  function HopLimit(p: Bytes): byte {
    if Version(p) == 4 then (if |p| < 9 then 0 else p[8])
    else if Version(p) == 6 then (if |p| < 8 then 0 else p[7])
    else 0
  }

  function Ecn(p: Bytes): byte {
    if |p| < 2 then 0
    else if p[0] / 16 == 4 then p[1] % 4
    else if p[0] / 16 == 6 then p[1] / 16 % 4
    else 0
  }

  predicate VerifiesIpv4(p: Bytes) {
    if Version(p) == 4 then
      HeaderLen(p) >= 20 && |p| >= HeaderLen(p) && Sum16(p[..HeaderLen(p)]) == 0
    else
      Version(p) == 6
  }

  // ---- rewriting -------------------------------------------------------

  function Put16(p: Bytes, at: nat, w: word16): (r: Bytes)
    requires at + 2 <= |p|
    ensures |r| == |p|
  {
    p[at := Hi(w)][at + 1 := Lo(w)]
  }

  /** The More Fragments bit. */
  function SetMf(b: byte, on: bool): (r: byte)
    ensures Bit(r, 32) == on && r % 32 == b % 32
  {
    if Bit(b, 32) == on then b else if on then b + 32 else b - 32
  }

  /** The Don't Fragment bit. */
  function SetDf(b: byte, on: bool): (r: byte)
    ensures Bit(r, 64) == on && r % 64 == b % 64
  {
    if Bit(b, 64) == on then b else if on then b + 64 else b - 64
  }

  function WithTotalLen(p: Bytes, len: word16): Bytes {
    if |p| < 4 then p else Put16(p, 2, len)
  }

  function WithFragmentOffset(p: Bytes, bytes: nat): Bytes {
    if |p| < 8 then p else
      Put16(p, 6, Be16(p[6], p[7]) / 8192 * 8192 + bytes / 8 % 8192)
  }

  function WithMoreFragments(p: Bytes, on: bool): Bytes {
    if |p| < 7 then p else p[6 := SetMf(p[6], on)]
  }

  function WithDontFragment(p: Bytes, on: bool): Bytes {
    if |p| < 7 then p else p[6 := SetDf(p[6], on)]
  }

  function WithChecksum(p: Bytes, sum: word16): Bytes {
    if |p| < 12 then p else Put16(p, 10, sum)
  }

  /** `recompute_ipv4_checksum`. */
  function Recomputed(p: Bytes): Bytes {
    if Version(p) != 4 || HeaderLen(p) < 20 || |p| < HeaderLen(p) then p else
      WithChecksum(p, Sum16(WithChecksum(p, 0)[..HeaderLen(p)]))
  }

  /** `set_hop_limit`. */
  function WithHopLimit(p: Bytes, v: byte): Bytes {
    if Version(p) == 4 then
      if |p| < 12 || p[8] == v then p else
        WithChecksum(p[8 := v], Patched(Be16(p[10], p[11]), [p[8], p[9]], [v, p[9]]))
    else if Version(p) == 6 && |p| >= 8 then p[7 := v]
    else p
  }

  /** `set_ip_ecn`. */
  function WithEcn(p: Bytes, e: byte): Bytes {
    if Version(p) == 4 && |p| >= 20 then
      var tos := p[1] / 4 * 4 + e % 4;
      WithChecksum(p[1 := tos], Patched(Be16(p[10], p[11]), [p[0], p[1]], [p[0], tos]))
    else if Version(p) == 6 && |p| >= 2 then
      p[1 := p[1] / 64 * 64 + e % 4 * 16 + p[1] % 16]
    else p
  }

  method SetHopLimit(a: array<byte>, v: byte)
    modifies a
    ensures a[..] == WithHopLimit(old(a[..]), v)
  {
    ghost var p := a[..];
    if a.Length > 0 && a[0] / 16 == 4 {
      if a.Length < 12 || a[8] == v {
        return;
      }
      var ttl, proto, sum := a[8], a[9], Be16(a[10], a[11]);
      a[8] := v;
      sum := IncrementalUpdate(sum, [ttl, proto], [v, proto]);
      a[10], a[11] := Hi(sum), Lo(sum);
    } else if a.Length >= 8 && a[0] / 16 == 6 {
      a[7] := v;
    }
  }

  /** False, and nothing changed, for a packet that has run out of hops. */
  method DecrementHopLimit(a: array<byte>) returns (alive: bool)
    modifies a
    ensures alive <==> HopLimit(old(a[..])) > 1
    ensures a[..] == if alive then WithHopLimit(old(a[..]), HopLimit(old(a[..])) - 1) else old(a[..])
  {
    var cur := HopLimit(a[..]);
    if cur <= 1 {
      return false;
    }
    SetHopLimit(a, cur - 1);
    return true;
  }

  method SetIpEcn(a: array<byte>, e: byte)
    modifies a
    ensures a[..] == WithEcn(old(a[..]), e)
  {
    ghost var p := a[..];
    if a.Length >= 20 && a[0] / 16 == 4 {
      var tos := a[1];
      a[1] := a[1] / 4 * 4 + e % 4;
      var sum := IncrementalUpdate(Be16(a[10], a[11]), [a[0], tos], [a[0], a[1]]);
      a[10], a[11] := Hi(sum), Lo(sum);
    } else if a.Length >= 2 && a[0] / 16 == 6 {
      a[1] := a[1] / 64 * 64 + e % 4 * 16 + a[1] % 16;
    }
  }

  method RecomputeChecksum(a: array<byte>)
    modifies a
    ensures a[..] == Recomputed(old(a[..]))
  {
    ghost var p := a[..];
    var hl := HeaderLen(a[..]);
    if Version(a[..]) != 4 || hl < 20 || a.Length < hl {
      return;
    }
    a[10], a[11] := 0, 0;
    assert a[..] == WithChecksum(p, 0);
    var sum := ComputeChecksum(a[..hl]);
    a[10], a[11] := Hi(sum), Lo(sum);
  }

  // ---- what the rewrites keep ------------------------------------------

  lemma {:induction false} SumPositive(h: Bytes)
    requires h != [] && h[0] != 0
    ensures WordSum(h) > 0
  {
    WordSumZero(h);
  }

  /** Writing two bytes at an even offset. */
  lemma {:induction false} WordSumPut(p: Bytes, at: nat, hi: byte, lo: byte)
    requires at % 2 == 0 && at + 2 <= |p|
    ensures WordSum(p[at := hi][at + 1 := lo])
            == WordSum(p) - Be16(p[at], p[at + 1]) + Be16(hi, lo)
  {
    WordSumSplice(p, at, [hi, lo]);
    assert p[at := hi][at + 1 := lo] == Splice(p, at, [hi, lo]);
    assert p[at..at + 2] == [p[at], p[at + 1]];
    WordSumPair(p[at], p[at + 1]);
    WordSumPair(hi, lo);
  }

  lemma WordSumPair(hi: byte, lo: byte)
    ensures WordSum([hi, lo]) == Be16(hi, lo)
  {
    assert [hi, lo][2..] == [];
  }

  /** A header with a freshly computed checksum verifies. */
  lemma {:induction false} RecomputedVerifies(p: Bytes)
    requires Version(p) == 4 && 20 <= HeaderLen(p) <= |p|
    ensures VerifiesIpv4(Recomputed(p))
  {
    var hl := HeaderLen(p);
    var z: Bytes := WithChecksum(p, 0)[..hl];
    ChecksumPrefix(p, hl, Sum16(z));
    StoredVerifies(z, Recomputed(p)[10], Recomputed(p)[11]);
  }

  lemma ChecksumPrefix(p: Bytes, hl: nat, c: word16)
    requires 12 <= hl <= |p|
    ensures var q: Bytes, z: Bytes := WithChecksum(p, c), WithChecksum(p, 0)[..hl];
            && |q| == |p| && q[0] == z[0] == p[0]
            && z[10] == z[11] == 0 && Be16(q[10], q[11]) == c
            && q[..hl] == z[10 := q[10]][11 := q[11]]
  {
  }

  lemma {:induction false} StoredVerifies(z: Bytes, hi: byte, lo: byte)
    requires |z| >= 20 && z[0] != 0 && z[10] == z[11] == 0 && Be16(hi, lo) == Sum16(z)
    ensures Sum16(z[10 := hi][11 := lo]) == 0
  {
    WordSumPut(z, 10, hi, lo);
    WordSumZero(z);
    var q := FoldedQuotient(WordSum(z));
    ZeroChecksum(z[10 := hi][11 := lo], q + 1);
  }

  /** Rewriting the word at `at` and patching the checksum field to match moves the header's sum
      by a multiple of 65535. */
  lemma {:induction false} PatchKeepsSum(h: Bytes, at: nat, w: (byte, byte), c: (byte, byte), q: int)
    requires |h| >= 20 && at % 2 == 0 && at + 2 <= 10
    requires 65535 - Be16(h[10], h[11]) + (65535 - Be16(h[at], h[at + 1])) + Be16(w.0, w.1)
             == 65535 - Be16(c.0, c.1) + 65535 * q
    ensures WordSum(h[at := w.0][at + 1 := w.1][10 := c.0][11 := c.1])
            == WordSum(h) + 65535 * (q - 1)
  {
    WordSumPut(h, at, w.0, w.1);
    WordSumPut(h[at := w.0][at + 1 := w.1], 10, c.0, c.1);
  }

  lemma {:induction false} PatchedQuotient(old16: word16, m: (byte, byte), w: (byte, byte)) returns (q: nat)
    ensures 65535 - old16 + (65535 - Be16(m.0, m.1)) + Be16(w.0, w.1)
            == 65535 - Patched(old16, [m.0, m.1], [w.0, w.1]) + 65535 * q
  {
    WordSumPair(m.0, m.1);
    WordSumPair(w.0, w.1);
    q := FoldedQuotient(65535 - old16 + (65535 - Be16(m.0, m.1)) + Be16(w.0, w.1));
  }

  /** One in-place rewrite of a packet in flight. */
  datatype Rewrite = Decrement | Hop(hops: byte) | Mark(ecn: byte)

  function Rewritten(p: Bytes, r: Rewrite): Bytes {
    match r
    case Decrement => if HopLimit(p) <= 1 then p else WithHopLimit(p, HopLimit(p) - 1)
    case Hop(v) => WithHopLimit(p, v)
    case Mark(e) => WithEcn(p, e)
  }

  function RewrittenAll(p: Bytes, rs: seq<Rewrite>): Bytes
    decreases |rs|
  {
    if rs == [] then p else RewrittenAll(Rewritten(p, rs[0]), rs[1..])
  }

  /** A header with the word at `at` rewritten and the checksum patched to match sums to zero exactly if
      the old one did. */
  lemma {:induction false} PatchedSameZero(h: Bytes, h': Bytes, at: nat)
    requires 20 <= |h| == |h'| && at in {0, 8} && h[0] == h'[0] != 0
    requires Be16(h'[10], h'[11]) == Patched(Be16(h[10], h[11]), [h[at], h[at + 1]], [h'[at], h'[at + 1]])
    requires forall i :: 0 <= i < |h| && i !in {at, at + 1, 10, 11} ==> h'[i] == h[i]
    ensures Sum16(h') == 0 <==> Sum16(h) == 0
  {
    var w, c := (h'[at], h'[at + 1]), (h'[10], h'[11]);
    var k: int := PatchedQuotient(Be16(h[10], h[11]), (h[at], h[at + 1]), w);
    PatchKeepsSum(h, at, w, c, k);
    assert h' == h[at := w.0][at + 1 := w.1][10 := c.0][11 := c.1];
    SumPositive(h);
    SumPositive(h');
    SameZero(h, h', k - 1);
  }

  lemma SameVerdict(p: Bytes, q: Bytes, at: nat)
    requires Version(p) == 4 && |p| >= 20 && HeaderLen(p) >= 20 && at in {0, 8}
    requires |q| == |p| && q[0] == p[0]
    requires Be16(q[10], q[11]) == Patched(Be16(p[10], p[11]), [p[at], p[at + 1]], [q[at], q[at + 1]])
    requires forall i :: 0 <= i < |p| && i !in {at, at + 1, 10, 11} ==> q[i] == p[i]
    ensures VerifiesIpv4(q) <==> VerifiesIpv4(p)
  {
    var hl := HeaderLen(p);
    if |p| >= hl {
      PatchedSameZero(p[..hl], q[..hl], at);
    }
  }

  lemma SameZero(h: Bytes, h': Bytes, k: int)
    requires WordSum(h') == WordSum(h) + 65535 * k && WordSum(h) > 0 && WordSum(h') > 0
    ensures Sum16(h') == 0 <==> Sum16(h) == 0
  {
    if Sum16(h) == 0 {
      var q := ZeroChecksumSum(h);
      ZeroChecksum(h', q + k);
    } else if Sum16(h') == 0 {
      var q := ZeroChecksumSum(h');
      ZeroChecksum(h, q - k);
    }
  }

  /** Where a rewrite writes. */
  lemma RewrittenBytes(p: Bytes, r: Rewrite, q: Bytes)
    requires q == Rewritten(p, r)
    ensures |q| == |p| && forall i :: 0 <= i < |p| && i !in {1, 7, 8, 10, 11} ==> q[i] == p[i]
    ensures Version(p) == 4 && |p| >= 20 && q != p ==>
              forall i :: 0 <= i < |p| && i !in (if r.Mark? then {1, 10, 11} else {8, 10, 11}) ==> q[i] == p[i]
  {
  }

  /** For IPv4 the checksum field is patched for the word rewritten. */
  lemma RewrittenSum(p: Bytes, r: Rewrite, q: Bytes, at: nat)
    requires q == Rewritten(p, r) && Version(p) == 4 && |p| >= 20 && q != p && at == if r.Mark? then 0 else 8
    ensures |q| == |p|
    ensures Be16(q[10], q[11]) == Patched(Be16(p[10], p[11]), [p[at], p[at + 1]], [q[at], q[at + 1]])
  {
    TwoBytes(Be16(q[10], q[11]));
  }

  lemma {:induction false} RewriteKeepsVerdict(p: Bytes, r: Rewrite, q: Bytes)
    requires q == Rewritten(p, r)
    ensures |q| == |p| && (p != [] ==> q[0] == p[0])
    ensures forall i :: 0 <= i < |p| && i !in {1, 7, 8, 10, 11} ==> q[i] == p[i]
    ensures VerifiesIpv4(q) <==> VerifiesIpv4(p)
  {
    RewrittenBytes(p, r, q);
    if Version(p) == 4 && |p| >= 20 && HeaderLen(p) >= 20 && q != p {
      var at := if r.Mark? then 0 else 8;
      RewrittenSum(p, r, q, at);
      SameVerdict(p, q, at);
    }
  }

  /** The ECN field reads back as it was set, in either family, and the rest of its byte is kept. */
  lemma MarkReadsBack(p: Bytes, e: byte)
    requires (Version(p) == 4 && |p| >= 20) || (Version(p) == 6 && |p| >= 2)
    ensures Ecn(WithEcn(p, e)) == e % 4 && |WithEcn(p, e)| == |p|
    ensures Version(p) == 4 ==> WithEcn(p, e)[1] / 4 == p[1] / 4
    ensures Version(p) == 6 ==> WithEcn(p, e)[1] / 64 == p[1] / 64 && WithEcn(p, e)[1] % 16 == p[1] % 16
  {
    EcnBits(p[1], e % 4);
  }

  lemma EcnBits(b: byte, e: byte)
    requires e < 4
    ensures var v4 := b / 4 * 4 + e; v4 % 4 == e && v4 / 4 == b / 4
    ensures var v6 := b / 64 * 64 + e * 16 + b % 16; v6 / 16 % 4 == e && v6 / 64 == b / 64 && v6 % 16 == b % 16
  {
    ThreeFields(b / 64, e, b % 16);
  }

  lemma ThreeFields(high: nat, mid: nat, low: nat)
    requires mid < 4 && low < 16
    ensures var v := high * 64 + mid * 16 + low; v / 16 % 4 == mid && v / 64 == high && v % 16 == low
  {
    assert (high * 64 + mid * 16 + low) / 16 == high * 4 + mid;
  }

  /** Any chain of hop-limit and ECN rewrites leaves the header checksum as right, or as wrong, as
      it was, and touches nothing but the fields rewritten. */
  lemma {:induction false} RewritesKeepVerdict(p: Bytes, rs: seq<Rewrite>)
    ensures |RewrittenAll(p, rs)| == |p|
    ensures forall i :: 0 <= i < |p| && i !in {1, 7, 8, 10, 11} ==> RewrittenAll(p, rs)[i] == p[i]
    ensures VerifiesIpv4(RewrittenAll(p, rs)) <==> VerifiesIpv4(p)
    decreases |rs|
  {
    if rs != [] {
      RewriteKeepsVerdict(p, rs[0], Rewritten(p, rs[0]));
      RewritesKeepVerdict(Rewritten(p, rs[0]), rs[1..]);
    }
  }

  /** A router decrementing `n` times leaves exactly `n` hops fewer, stopping at one. */
  lemma {:induction false} DecrementsCount(p: Bytes, n: nat)
    requires (Version(p) == 4 && |p| >= 12) || (Version(p) == 6 && |p| >= 8)
    ensures HopLimit(RewrittenAll(p, seq(n, _ => Decrement)))
            == Max(HopLimit(p) - n, Min(HopLimit(p), 1))
    decreases n
  {
    if n > 0 {
      var all := seq(n, _ => Decrement);
      assert all[1..] == seq(n - 1, _ => Decrement);
      RewriteKeepsVerdict(p, Decrement, Rewritten(p, Decrement));
      DecrementsCount(Rewritten(p, Decrement), n - 1);
    }
  }
}
