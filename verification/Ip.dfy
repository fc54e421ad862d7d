/** IP addresses and CIDR prefixes. */
module Ip {
  import opened Basics

  datatype IpAddr = V4(n: nat) | V6(n: nat) {
    function Width(): nat {
      if V4? then 32 else 128
    }

    /** As many bits as the family has. */
    predicate Ok() {
      Shr(n, Width()) == 0
    }
  }

  function Shr(x: nat, k: nat): nat
    decreases k
  {
    if k == 0 then x else Shr(x / 2, k - 1)
  }

  function Shl(x: nat, k: nat): nat
    decreases k
  {
    if k == 0 then x else Shl(2 * x, k - 1)
  }

  /** Masking with the top bits of the family keeps what a right shift keeps. */
  datatype IpPrefix = IpPrefix(addr: IpAddr, bits: nat) {
    predicate Ok() {
      addr.Ok() && bits <= addr.Width()
    }

    function HostBits(): nat {
      if bits <= addr.Width() then addr.Width() - bits else 0
    }

    predicate Contains(a: IpAddr) {
      addr.V4? == a.V4? && Shr(addr.n, HostBits()) == Shr(a.n, HostBits())
    }

    function Masked(): IpPrefix {
      var n := Shl(Shr(addr.n, HostBits()), HostBits());
      IpPrefix(if addr.V4? then V4(n) else V6(n), bits)
    }

    /** An unspecified `0.0.0.0/0` or `::/0` is no prefix at all. */
    predicate IsValid() {
      addr.n != 0 || bits != 0
    }
  }

  lemma {:induction false} ShrSplit(x: nat, k: nat, j: nat)
    requires k <= j
    ensures Shr(x, j) == Shr(Shr(x, k), j - k)
    decreases k
  {
    if k > 0 {
      ShrSplit(x / 2, k - 1, j - 1);
    }
  }

  lemma {:induction false} ShrShl(x: nat, k: nat)
    ensures Shr(Shl(x, k), k) == x
    decreases k
  {
    if k > 0 {
      ShrShl(2 * x, k - 1);
      ShrSplit(Shl(x, k), k - 1, k);
      assert Shr(2 * x, 1) == Shr(2 * x / 2, 0) == x;
    }
  }

  /** The network a prefix names does not depend on its host bits. */
  lemma MaskedIsSameNetwork(p: IpPrefix, a: IpAddr)
    ensures p.Masked().Contains(a) <==> p.Contains(a)
    ensures p.Contains(p.addr) && p.Masked().Masked() == p.Masked()
  {
    ShrShl(Shr(p.addr.n, p.HostBits()), p.HostBits());
  }

  /** Two prefixes with an address in common are nested: the longer one lies inside the shorter. */
  lemma PrefixesNest(p: IpPrefix, q: IpPrefix, a: IpAddr, b: IpAddr)
    requires p.Ok() && q.Ok() && q.bits <= p.bits
    requires p.Contains(a) && q.Contains(a) && p.Contains(b)
    ensures q.Contains(b)
  {
    ShrSplit(p.addr.n, p.HostBits(), q.HostBits());
    ShrSplit(a.n, p.HostBits(), q.HostBits());
    ShrSplit(b.n, p.HostBits(), q.HostBits());
  }

  /** A full-length prefix holds one address, an empty one the whole family. */
  lemma PrefixExtremes(p: IpPrefix, a: IpAddr)
    requires p.Ok() && a.Ok() && p.addr.V4? == a.V4?
    ensures p.bits == p.addr.Width() ==> (p.Contains(a) <==> a == p.addr)
    ensures p.bits == 0 ==> p.Contains(a)
  {
  }
}
