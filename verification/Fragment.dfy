/** IPv4 fragmentation on the send path (section 3.2 of RFC 791). */
module Fragment {
  import opened Basics
  import opened Packet

  const MIN_IPV4_MTU := 68
  const MAX_FRAGMENT_UNITS := 8191
  const MAX_FRAGMENT_OFFSET := 8 * MAX_FRAGMENT_UNITS

  datatype Fragmentation =
    | Fits
    | Fragments(parts: seq<Bytes>)
    | MustNotFragment
    | NotFragmentable

  predicate WellFormed(p: Bytes) {
    Version(p) == 4 && 20 <= HeaderLen(p) <= TotalLen(p) <= |p|
  }

  function Payload(p: Bytes): Bytes {
    if HeaderLen(p) <= TotalLen(p) <= |p| then p[HeaderLen(p)..TotalLen(p)] else []
  }

  // ---- options ---------------------------------------------------------

  /** The options of a header as a receiver reads them: padding skipped, the list ended by an
      end-of-list byte or by anything malformed. */
  function Options(o: Bytes): seq<Bytes>
    decreases |o|
  {
    if o == [] || o[0] == 0 then []
    else if o[0] == 1 then Options(o[1..])
    else if |o| < 2 || o[1] < 2 || o[1] > |o| then []
    else [o[..o[1]]] + Options(o[o[1]..])
  }

  predicate Copyable(option: Bytes) {
    option != [] && option[0] >= 128
  }

  function CopyableOnly(opts: seq<Bytes>): seq<Bytes> {
    if opts == [] then []
    else (if Copyable(opts[0]) then [opts[0]] else []) + CopyableOnly(opts[1..])
  }

  /** What later fragments keep of the option bytes `o` from position `i` on. */
  function Copied(o: Bytes, i: nat): (c: Bytes)
    requires i <= |o|
    ensures |c| <= |o| - i
    decreases |o| - i
  {
    if i == |o| || o[i] == 0 then []
    else if o[i] == 1 then Copied(o, i + 1)
    else if i + 1 >= |o| || o[i + 1] < 2 || i + o[i + 1] > |o| then []
    else (if o[i] >= 128 then o[i..i + o[i + 1]] else []) + Copied(o, i + o[i + 1])
  }

  function Zeros(n: nat): Bytes {
    seq(n, _ => 0)
  }

  function PaddedToWord(base: Bytes): Bytes {
    base + Zeros((4 - |base| % 4) % 4)
  }

  /** The header of the second and later fragments: the fixed part, the copied options in order,
      and padding. */
  function LaterHeader(header: Bytes): Bytes {
    if |header| <= 20 then header else PaddedToWord(header[..20] + Copied(header[20..], 0))
  }

  method CopiedOptionsHeader(header: Bytes) returns (out: Bytes)
    ensures out == LaterHeader(header)
  {
    if |header| <= 20 {
      return header;
    }
    var copied := CopyOptions(header[20..]);
    out := PadToWord(header[..20] + copied);
  }

  method CopyOptions(opts: Bytes) returns (out: Bytes)
    ensures out == Copied(opts, 0)
  {
    out := [];
    var i := 0;
    while i < |opts|
      invariant i <= |opts|
      invariant out + Copied(opts, i) == Copied(opts, 0)
    {
      var kind := opts[i];
      if kind == 0 {
        break;
      }
      if kind == 1 {
        i := i + 1;
        continue;
      }
      if i + 1 >= |opts| {
        break;
      }
      var len := opts[i + 1];
      if len < 2 || i + len > |opts| {
        break;
      }
      if kind >= 128 {
        Assoc(out, opts[i..i + len], Copied(opts, i + len));
        out := out + opts[i..i + len];
      } else {
        assert [] + Copied(opts, i + len) == Copied(opts, i + len);
      }
      i := i + len;
    }
  }

  lemma Assoc(a: Bytes, b: Bytes, c: Bytes)
    ensures a + (b + c) == (a + b) + c
  {
  }

  method PadToWord(base: Bytes) returns (out: Bytes)
    ensures out == PaddedToWord(base)
  {
    out := base;
    ghost var k := 0;
    while |out| % 4 != 0
      invariant k <= (4 - |base| % 4) % 4 && out == base + Zeros(k)
      decreases (4 - |base| % 4) % 4 - k
    {
      out := out + [0];
      k := k + 1;
      assert Zeros(k) == Zeros(k - 1) + [0];
    }
  }

  /** A later fragment's header never outgrows the original's. */
  lemma {:induction false} LaterHeaderLen(header: Bytes)
    requires 20 <= |header| && |header| % 4 == 0
    ensures var out := LaterHeader(header);
            20 <= |out| <= |header| && |out| % 4 == 0 && out[..20] == header[..20]
  {
  }

  /** A receiver of a later fragment reads exactly the original's copyable options, in order. */
  lemma {:induction false} LaterOptions(header: Bytes)
    requires |header| > 20
    ensures Options(LaterHeader(header)[20..]) == CopyableOnly(Options(header[20..]))
  {
    var o := header[20..];
    var pad := LaterHeader(header)[20 + |Copied(o, 0)|..];
    assert LaterHeader(header)[20..] == Copied(o, 0) + pad;
    ReadBack(o, 0, pad);
    assert o[0..] == o;
  }

  /** The options end here: nothing left, the end marker, or one that does not fit. */
  predicate OptionsEnd(o: Bytes, i: nat)
    requires i <= |o|
  {
    i == |o| || o[i] == 0 || (o[i] > 1 && (i + 1 >= |o| || o[i + 1] < 2 || i + o[i + 1] > |o|))
  }

  lemma {:induction false} ReadBack(o: Bytes, i: nat, pad: Bytes)
    requires i <= |o| && forall k :: 0 <= k < |pad| ==> pad[k] == 0
    ensures Options(Copied(o, i) + pad) == CopyableOnly(Options(o[i..]))
    decreases |o| - i
  {
    if OptionsEnd(o, i) {
      ReadBackEnd(o, i, pad);
    } else if o[i] == 1 {
      ReadBack(o, i + 1, pad);
      ReadBackNop(o, i, pad);
    } else {
      ReadBack(o, i + o[i + 1], pad);
      ReadBackOption(o, i, pad);
    }
  }

  /** Where the original's options end, the copied ones have only padding. */
  lemma {:induction false} ReadBackEnd(o: Bytes, i: nat, pad: Bytes)
    requires i <= |o| && OptionsEnd(o, i) && forall k :: 0 <= k < |pad| ==> pad[k] == 0
    ensures Options(Copied(o, i) + pad) == CopyableOnly(Options(o[i..]))
  {
    assert Copied(o, i) == [] && [] + pad == pad;
    assert Options(pad) == [] && Options(o[i..]) == [];
  }

  lemma {:induction false} ReadBackNop(o: Bytes, i: nat, pad: Bytes)
    requires i < |o| && o[i] == 1 && Options(Copied(o, i + 1) + pad) == CopyableOnly(Options(o[i + 1..]))
    ensures Options(Copied(o, i) + pad) == CopyableOnly(Options(o[i..]))
  {
    assert o[i..][1..] == o[i + 1..] && o[i..][0] == 1;
  }

  lemma {:induction false} ReadBackOption(o: Bytes, i: nat, pad: Bytes)
    requires i < |o| && !OptionsEnd(o, i) && o[i] > 1
    requires Options(Copied(o, i + o[i + 1]) + pad) == CopyableOnly(Options(o[i + o[i + 1]..]))
    ensures Options(Copied(o, i) + pad) == CopyableOnly(Options(o[i..]))
  {
    var option := o[i..i + o[i + 1]];
    assert option[0] == o[i] && option[1] == o[i + 1];
    CopiedStep(o, i, option);
    ReadBackStep(option, o[i + |option|..], Copied(o, i + |option|), pad);
  }

  lemma {:induction false} ReadBackStep(option: Bytes, rest: Bytes, copied: Bytes, pad: Bytes)
    requires |option| >= 2 && option[0] > 1 && option[1] == |option|
    requires Options(copied + pad) == CopyableOnly(Options(rest))
    ensures Options((if option[0] >= 128 then option else []) + copied + pad) == CopyableOnly(Options(option + rest))
  {
    ReadStep(option, rest);
    if option[0] >= 128 {
      Assoc(option, copied, pad);
      ReadStep(option, copied + pad);
    } else {
      assert [] + copied == copied;
    }
  }

  lemma CopiedStep(o: Bytes, i: nat, option: Bytes)
    requires |option| >= 2 && option[0] > 1 && option[1] == |option|
    requires i + |option| <= |o| && option == o[i..i + |option|]
    ensures o[i..] == option + o[i + |option|..]
    ensures Copied(o, i) == (if option[0] >= 128 then option else []) + Copied(o, i + |option|)
  {
    assert o[i] == option[0] && o[i + 1] == option[1];
  }

  lemma ReadStep(option: Bytes, rest: Bytes)
    requires |option| >= 2 && option[0] > 1 && option[1] == |option|
    ensures Options(option + rest) == [option] + Options(rest)
    ensures CopyableOnly([option] + Options(rest))
            == (if option[0] >= 128 then [option] else []) + CopyableOnly(Options(rest))
  {
    assert (option + rest)[..|option|] == option && (option + rest)[|option|..] == rest;
    assert ([option] + Options(rest))[1..] == Options(rest);
  }

  // ---- tiling ----------------------------------------------------------

  /** A fragment's place in its datagram, and what it carries. */
  datatype Slice = Slice(offset: nat, more: bool, data: Bytes) {
    function End(): nat {
      offset + |data|
    }

    /** A non-empty stretch of a payload that starts at byte `base` of its datagram. */
    predicate Of(base: nat, payload: Bytes) {
      && 0 < |data| && base <= offset && End() <= base + |payload|
      && data == payload[offset - base..End() - base]
    }
  }

  /** `parts` carry `d`, which starts at byte `base` of its datagram, in order and without gap or
      overlap; all but the last say "more fragments", and the last does if `more`. */
  predicate Tiles(parts: seq<Slice>, base: nat, d: Bytes, more: bool)
    decreases |parts|
  {
    && parts != []
    && parts[0].offset == base
    && 0 < |parts[0].data| <= |d|
    && parts[0].data == d[..|parts[0].data|]
    && if |parts| == 1 then
         |parts[0].data| == |d| && parts[0].more == more
       else
         parts[0].more && Tiles(parts[1..], base + |parts[0].data|, d[|parts[0].data|..], more)
  }

  function Datas(parts: seq<Slice>): Bytes {
    if parts == [] then [] else parts[0].data + Datas(parts[1..])
  }

  /** The parts' data, in order, are the payload. */
  lemma {:induction false} TilesConcatenate(parts: seq<Slice>, base: nat, d: Bytes, more: bool)
    requires Tiles(parts, base, d, more)
    ensures Datas(parts) == d
    decreases |parts|
  {
    var k := |parts[0].data|;
    assert d == d[..k] + d[k..];
    if |parts| > 1 {
      TilesConcatenate(parts[1..], base + k, d[k..], more);
    }
  }

  /** What tiling says of each part: where it is, what it carries, and what follows it. */
  lemma {:induction false} TilesAt(parts: seq<Slice>, base: nat, d: Bytes, more: bool, i: nat)
    requires Tiles(parts, base, d, more) && i < |parts|
    ensures parts[i].Of(base, d)
    ensures i == 0 ==> parts[i].offset == base
    ensures i + 1 < |parts| ==> parts[i].more && parts[i + 1].offset == parts[i].End()
    ensures i + 1 == |parts| ==> parts[i].more == more && parts[i].End() == base + |d|
    decreases |parts|
  {
    var k := |parts[0].data|;
    if i > 0 {
      TilesAt(parts[1..], base + k, d[k..], more, i - 1);
      SubOf(parts[i], base, d, k);
    }
  }

  /** Of two parts, the earlier ends before the later begins. */
  lemma {:induction false} TilesApart(parts: seq<Slice>, base: nat, d: Bytes, more: bool, i: nat, j: nat)
    requires Tiles(parts, base, d, more) && i < j < |parts|
    ensures parts[i].End() <= parts[j].offset
    decreases j
  {
    TilesAt(parts, base, d, more, j - 1);
    if i < j - 1 {
      TilesApart(parts, base, d, more, i, j - 1);
    }
  }

  lemma SubOf(s: Slice, base: nat, d: Bytes, k: nat)
    requires k <= |d| && s.Of(base + k, d[k..])
    ensures s.Of(base, d)
  {
    assert d[k..] == d[k..|d|];
    SliceOfSlice(d, k, |d|, s.offset - base - k, s.End() - base - k);
  }

  lemma {:induction false} TilesAppend(a: seq<Slice>, b: seq<Slice>, base: nat, d: Bytes, e: Bytes, more: bool)
    requires Tiles(a, base, d, true) && Tiles(b, base + |d|, e, more)
    ensures Tiles(a + b, base, d + e, more)
    decreases |a|
  {
    var k := |a[0].data|;
    assert (a + b)[1..] == a[1..] + b;
    assert (d + e)[..k] == d[..k];
    if |a| == 1 {
      assert a[1..] + b == b && (d + e)[k..] == e;
    } else {
      assert (d + e)[k..] == d[k..] + e;
      TilesAppend(a[1..], b, base + k, d[k..], e, more);
    }
  }

  /** Fragmenting a fragment again and putting the pieces in its place tiles the same payload. */
  lemma {:induction false} SpliceTiles(parts: seq<Slice>, base: nat, d: Bytes, more: bool,
                                       k: nat, sub: seq<Slice>)
    requires Tiles(parts, base, d, more) && k < |parts|
    requires Tiles(sub, parts[k].offset, parts[k].data, parts[k].more)
    ensures Tiles(parts[..k] + sub + parts[k + 1..], base, d, more)
    decreases |parts|
  {
    var n := |parts[0].data|;
    if k == 0 {
      SpliceFirst(parts, base, d, more, sub);
      assert parts[..0] + sub + parts[1..] == sub + parts[1..];
    } else {
      var rest := parts[1..];
      SpliceTiles(rest, base + n, d[n..], more, k - 1, sub);
      var all := parts[..k] + sub + parts[k + 1..];
      assert all[1..] == rest[..k - 1] + sub + rest[k..];
    }
  }

  lemma SpliceFirst(parts: seq<Slice>, base: nat, d: Bytes, more: bool, sub: seq<Slice>)
    requires Tiles(parts, base, d, more) && Tiles(sub, parts[0].offset, parts[0].data, parts[0].more)
    ensures Tiles(sub + parts[1..], base, d, more)
  {
    var n := |parts[0].data|;
    if |parts| == 1 {
      assert sub + parts[1..] == sub && d[..n] == d;
    } else {
      TilesAppend(sub, parts[1..], base, d[..n], d[n..], more);
      assert d[..n] + d[n..] == d;
    }
  }

  // ---- building the parts ----------------------------------------------

  predicate Whole(p: Bytes) {
    WellFormed(p) && |p| == TotalLen(p) && VerifiesIpv4(p) && !DontFragment(p)
  }

  function SliceOf(p: Bytes): Slice {
    Slice(FragmentOffset(p), MoreFragments(p), Payload(p))
  }

  /** The header bytes a fragment shares with its datagram: all but the header length, the total
      length, the fragment fields and the checksum. */
  predicate SameFields(p: Bytes, q: Bytes, n: nat) {
    n <= |p| && n <= |q|
    && forall i :: 0 <= i < n && i !in {0, 2, 3, 6, 7, 10, 11} ==> p[i] == q[i]
  }

  function Stamped(p: Bytes, off: nat, more: bool): Bytes
    requires 20 <= |p| <= 65535
  {
    var p1 := WithTotalLen(p, |p|);
    var p2 := WithFragmentOffset(p1, off);
    WithDontFragment(WithMoreFragments(p2, more), false)
  }

  /** Byte 6 of a stamped header: the reserved bit kept, DF clear, MF as asked. */
  function FlagByte(b: byte, units: nat, more: bool): byte
    requires units < 8192
  {
    SetDf(SetMf(b / 32 * 32 + units / 256, more), false)
  }

  lemma FlagBits(b: byte, units: nat, more: bool)
    requires units < 8192
    ensures var f := FlagByte(b, units, more);
            f % 32 == units / 256 && Bit(f, 32) == more && !Bit(f, 64)
  {
    var t: byte := b / 32 * 32 + units / 256;
    assert t % 32 == units / 256;
    var s := SetMf(t, more);
    LowBits(SetDf(s, false), s);
  }

  lemma LowBits(f: byte, s: byte)
    requires f == s || f == s - 64
    ensures f % 32 == s % 32 && Bit(f, 32) == Bit(s, 32)
  {
  }

  lemma OffsetField(b: byte, units: nat)
    requires units < 8192 && b % 32 == units / 256
    ensures Be16(b, units % 256) % 8192 == units
  {
    assert Be16(b, units % 256) == 8192 * (b / 32) + units;
    LowPart(b / 32, units);
  }

  lemma LowPart(k: nat, units: nat)
    requires units < 8192
    ensures (8192 * k + units) % 8192 == units
  {
  }

  lemma FragmentWord(hi: byte, lo: byte, units: nat)
    requires units < 8192
    ensures var w := Be16(hi, lo) / 8192 * 8192 + units;
            w < 65536 && Hi(w) == hi / 32 * 32 + units / 256 && Lo(w) == units % 256
  {
  }

  lemma OffsetBytes(p: Bytes, units: nat)
    requires |p| >= 8 && units < 8192
    ensures WithFragmentOffset(p, units * 8)
            == p[6 := p[6] / 32 * 32 + units / 256][7 := units % 256]
  {
    assert units * 8 / 8 % 8192 == units;
    FragmentWord(p[6], p[7], units);
  }

  lemma StampedBytes(p: Bytes, units: nat, more: bool)
    requires 20 <= |p| <= 65535 && units < 8192
    ensures Stamped(p, units * 8, more)
            == p[2 := Hi(|p|)][3 := Lo(|p|)][6 := FlagByte(p[6], units, more)][7 := units % 256]
  {
    OffsetBytes(WithTotalLen(p, |p|), units);
  }

  lemma StampedFields(p: Bytes, units: nat, more: bool)
    requires 20 <= |p| <= 65535 && units < 8192
    ensures var q := Stamped(p, units * 8, more);
            && |q| == |p| == TotalLen(q) && q[0] == p[0] && SameFields(p, q, |p|)
            && FragmentOffset(q) == units * 8 && MoreFragments(q) == more && !DontFragment(q)
  {
    StampedBytes(p, units, more);
    TwoBytes(|p|);
    FlagBits(p[6], units, more);
    OffsetField(FlagByte(p[6], units, more), units);
  }

  /** A fragment under header `h` that fits and verifies. */
  predicate IsPart(h: Bytes, mtu: nat, part: Bytes, s: Slice) {
    && Whole(part) && SliceOf(part) == s
    && HeaderLen(part) == |h| && SameFields(part, h, |h|)
    && |part| == |h| + |s.data| <= mtu
  }

  predicate IsHeader(h: Bytes) {
    20 <= |h| <= 60 && |h| % 4 == 0
  }

  /** Header and data put together, the header length written in. */
  function Joined(h: Bytes, d: Bytes): Bytes
    requires 20 <= |h| <= 60
  {
    (h + d)[0 := 64 + |h| / 4]
  }

  /** A fragment: header and data, then the total length, offset, flags and checksum patched in. */
  function PartOf(h: Bytes, s: Slice): Bytes
    requires 20 <= |h| <= 60
  {
    if |h| + |s.data| > 65535 then [] else
      Recomputed(Stamped(Joined(h, s.data), s.offset, s.more))
  }

  lemma PartIsPart(h: Bytes, mtu: nat, s: Slice, units: nat)
    requires IsHeader(h) && |h| + |s.data| <= mtu && |h| + |s.data| <= 65535
    requires s.offset == units * 8 && units <= MAX_FRAGMENT_UNITS
    ensures IsPart(h, mtu, PartOf(h, s), s)
  {
    var p, r := Joined(h, s.data), PartOf(h, s);
    HeaderByte(|h|);
    PartFields(h, s, units);
    SameTail(p, r, |h|);
    assert p[|h|..] == s.data;
  }

  lemma PartFields(h: Bytes, s: Slice, units: nat)
    requires IsHeader(h) && |h| + |s.data| <= 65535 && s.offset == units * 8 && units <= MAX_FRAGMENT_UNITS
    ensures var p, r := Joined(h, s.data), PartOf(h, s);
            && |r| == |p| == TotalLen(r) && r[0] == p[0] && SameFields(p, r, |p|) && VerifiesIpv4(r)
            && FragmentOffset(r) == s.offset && MoreFragments(r) == s.more && !DontFragment(r)
  {
    var p := Joined(h, s.data);
    var q := Stamped(p, s.offset, s.more);
    HeaderByte(|h|);
    StampedFields(p, units, s.more);
    RecomputedVerifies(q);
    RecomputedFields(q);
  }

  lemma HeaderByte(n: nat)
    requires 20 <= n <= 60 && n % 4 == 0
    ensures (64 + n / 4) / 16 == 4 && (64 + n / 4) % 16 * 4 == n
  {
  }

  lemma SameTail(p: Bytes, r: Bytes, n: nat)
    requires |p| == |r| && 20 <= n <= |p| && SameFields(p, r, |p|)
    ensures p[n..] == r[n..]
  {
  }

  lemma RecomputedFields(q: Bytes)
    requires |q| >= 20
    ensures var r := Recomputed(q);
            && |r| == |q|
            && forall i :: 0 <= i < |q| && i !in {10, 11} ==> r[i] == q[i]
  {
  }

  /** The payload, in units of eight bytes, a fragment under a header of `n` bytes has room for. */
  function RoomUnits(mtu: nat, n: nat): (units: nat)
    requires n <= 60 && MIN_IPV4_MTU <= mtu
    ensures 0 < units && n + 8 * units <= mtu < n + 8 * units + 8
  {
    (mtu - n) / 8
  }

  function Room(mtu: nat, n: nat): nat
    requires n <= 60 && MIN_IPV4_MTU <= mtu
  {
    8 * RoomUnits(mtu, n)
  }

  /** How the payload `d` is cut from `pos` on: each piece takes all the room it has. */
  function Cut(base: nat, pos: nat, d: Bytes, first: nat, later: nat, more: bool): (ss: seq<Slice>)
    requires first > 0 && later > 0
    ensures pos < |d| <==> ss != []
    decreases |d| - pos
  {
    if pos >= |d| then [] else
      var take := Min(if pos == 0 then first else later, |d| - pos);
      [Slice(base + pos, pos + take < |d| || more, d[pos..pos + take])]
      + Cut(base, pos + take, d, first, later, more)
  }

  lemma {:induction false} CutStep(base: nat, pos: nat, d: Bytes, first: nat, later: nat, more: bool, take: nat)
    requires first > 0 && later > 0 && pos < |d|
    requires take == Min(if pos == 0 then first else later, |d| - pos)
    ensures Cut(base, pos, d, first, later, more)
            == [Slice(base + pos, pos + take < |d| || more, d[pos..pos + take])]
               + Cut(base, pos + take, d, first, later, more)
  {
  }

  predicate OffsetsFit(ss: seq<Slice>) {
    ss == [] || (ss[0].offset <= MAX_FRAGMENT_OFFSET && OffsetsFit(ss[1..]))
  }

  function Parts(build: (bool, Slice) -> Bytes, first: bool, ss: seq<Slice>): (parts: seq<Bytes>)
    ensures |parts| == |ss|
  {
    if ss == [] then [] else [build(first, ss[0])] + Parts(build, false, ss[1..])
  }

  /** The loop that cuts the payload and builds the parts, `build` being told which is the first. */
  method SplitPayload(build: (bool, Slice) -> Bytes, d: Bytes, base: nat, lastHasMore: bool, first: nat, later: nat)
    returns (r: Option<seq<Bytes>>)
    requires first > 0 && later > 0
    ensures r.Some? <==> OffsetsFit(Cut(base, 0, d, first, later, lastHasMore))
    ensures r.Some? ==> r.value == Parts(build, true, Cut(base, 0, d, first, later, lastHasMore))
  {
    var out: seq<Bytes> := [];
    ghost var all := Cut(base, 0, d, first, later, lastHasMore);
    ghost var rest := all;
    var pos := 0;
    while pos < |d|
      invariant pos <= |d|
      invariant rest == Cut(base, pos, d, first, later, lastHasMore)
      invariant OffsetsFit(all) == OffsetsFit(rest)
      invariant out + Parts(build, pos == 0, rest) == Parts(build, true, all)
    {
      var room := if pos == 0 then first else later;
      var take := Min(room, |d| - pos);
      if base + pos > MAX_FRAGMENT_OFFSET {
        return None;
      }
      var more := pos + take < |d| || lastHasMore;
      var s := Slice(base + pos, more, d[pos..pos + take]);
      CutStep(base, pos, d, first, later, lastHasMore, take);
      ghost var left := Cut(base, pos + take, d, first, later, lastHasMore);
      assert rest[0] == s && rest[1..] == left;
      PartsAssoc(out, build(pos == 0, s), Parts(build, false, left));
      out := out + [build(pos == 0, s)];
      rest := left;
      pos := pos + take;
    }
    return Some(out);
  }

  lemma PartsAssoc(a: seq<Bytes>, s: Bytes, c: seq<Bytes>)
    ensures a + ([s] + c) == (a + [s]) + c
  {
  }

  /** The cut tiles the payload. */
  lemma {:induction false} CutTiles(base: nat, pos: nat, d: Bytes, first: nat, later: nat, more: bool)
    requires first > 0 && later > 0 && pos < |d|
    ensures Tiles(Cut(base, pos, d, first, later, more), base + pos, d[pos..], more)
    decreases |d| - pos
  {
    var take := Min(if pos == 0 then first else later, |d| - pos);
    var rest := Cut(base, pos + take, d, first, later, more);
    CutStep(base, pos, d, first, later, more, take);
    assert Cut(base, pos, d, first, later, more)[1..] == rest;
    assert d[pos..pos + take] == d[pos..][..take];
    if pos + take < |d| {
      CutTiles(base, pos + take, d, first, later, more);
      assert d[pos..][take..] == d[pos + take..];
    }
  }

  function Header(buf: Bytes): (h: Bytes)
    requires WellFormed(buf)
    ensures IsHeader(h) && |h| == HeaderLen(buf)
  {
    buf[..HeaderLen(buf)]
  }

  /** How `buf` is cut for `mtu`: the first piece under its whole header, the others under the
      fixed part and the copied options. */
  function CutOf(buf: Bytes, mtu: nat): seq<Slice>
    requires WellFormed(buf) && mtu >= MIN_IPV4_MTU
  {
    LaterHeaderLen(Header(buf));
    Cut(FragmentOffset(buf), 0, Payload(buf), Room(mtu, HeaderLen(buf)),
        Room(mtu, |LaterHeader(Header(buf))|), MoreFragments(buf))
  }

  /** Why a packet that does not fit, and may be fragmented, is refused all the same. */
  predicate Unsplittable(buf: Bytes, mtu: nat)
    requires WellFormed(buf)
  {
    mtu < MIN_IPV4_MTU || !OffsetsFit(CutOf(buf, mtu))
  }

  function PartBuilder(header: Bytes, later: Bytes): (bool, Slice) -> Bytes
    requires 20 <= |header| <= 60 && 20 <= |later| <= 60
  {
    (first: bool, s: Slice) => PartOf(if first then header else later, s)
  }

  /** The parts `buf` is split into. */
  function SplitOf(buf: Bytes, mtu: nat): seq<Bytes>
    requires WellFormed(buf) && mtu >= MIN_IPV4_MTU
  {
    LaterHeaderLen(Header(buf));
    Parts(PartBuilder(Header(buf), LaterHeader(Header(buf))), true, CutOf(buf, mtu))
  }

  /** Splits exactly when the packet is well formed, too big, allowed to be split and splittable. */
  method FragmentIpv4(buf: Bytes, mtu: nat) returns (r: Fragmentation)
    ensures r.Fits? <==> WellFormed(buf) && TotalLen(buf) <= mtu
    ensures r.MustNotFragment? <==> WellFormed(buf) && TotalLen(buf) > mtu && DontFragment(buf)
    ensures r.NotFragmentable? <==>
            !WellFormed(buf) || (TotalLen(buf) > mtu && !DontFragment(buf) && Unsplittable(buf, mtu))
    ensures r.Fragments? ==> WellFormed(buf) && mtu >= MIN_IPV4_MTU && r.parts == SplitOf(buf, mtu)
  {
    var hl, total := HeaderLen(buf), TotalLen(buf);
    if Version(buf) != 4 || hl < 20 || total < hl || |buf| < total {
      return NotFragmentable;
    }
    if total <= mtu {
      return Fits;
    }
    if DontFragment(buf) {
      return MustNotFragment;
    }
    var header := buf[..hl];
    var laterHeader := CopiedOptionsHeader(header);
    LaterHeaderLen(header);
    var laterHl := |laterHeader|;
    if mtu < MIN_IPV4_MTU || mtu <= hl || mtu <= laterHl {
      return NotFragmentable;
    }
    var firstRoom, laterRoom := Room(mtu, hl), Room(mtu, laterHl);
    if firstRoom == 0 || laterRoom == 0 {
      assert false;
    }
    var parts := SplitPayload(PartBuilder(header, laterHeader), buf[hl..total], FragmentOffset(buf),
                              MoreFragments(buf), firstRoom, laterRoom);
    r := if parts.None? then NotFragmentable else Fragments(parts.value);
  }

  // ---- what a split is -------------------------------------------------

  /** At least two pieces, which tile the payload. */
  lemma SplitTiles(buf: Bytes, mtu: nat)
    requires WellFormed(buf) && MIN_IPV4_MTU <= mtu < TotalLen(buf)
    ensures |CutOf(buf, mtu)| >= 2
    ensures Tiles(CutOf(buf, mtu), FragmentOffset(buf), Payload(buf), MoreFragments(buf))
  {
    LaterHeaderLen(Header(buf));
    var d := Payload(buf);
    CutTiles(FragmentOffset(buf), 0, d, Room(mtu, HeaderLen(buf)),
             Room(mtu, |LaterHeader(Header(buf))|), MoreFragments(buf));
    assert d[0..] == d;
  }

  lemma {:induction false} CutAt(b: nat, u: nat, d: Bytes, first: nat, later: nat, more: bool, i: nat)
    returns (units: nat)
    requires first > 0 && later > 0 && i < |Cut(8 * b, 8 * u, d, 8 * first, 8 * later, more)|
    ensures var s := Cut(8 * b, 8 * u, d, 8 * first, 8 * later, more)[i];
            && s.offset == units * 8 && s.End() <= 8 * b + |d|
            && |s.data| <= if u == 0 && i == 0 then 8 * first else 8 * later
    decreases i
  {
    var room := if u == 0 then first else later;
    if i == 0 {
      units := b + u;
    } else {
      units := CutAt(b, u + room, d, first, later, more, i - 1);
    }
  }

  lemma OffsetUnits(p: Bytes) returns (units: nat)
    ensures FragmentOffset(p) == 8 * units
  {
    units := if |p| < 8 then 0 else Be16(p[6], p[7]) % 8192;
  }

  lemma {:induction false} OffsetFits(ss: seq<Slice>, i: nat)
    requires OffsetsFit(ss) && i < |ss|
    ensures ss[i].offset <= MAX_FRAGMENT_OFFSET
    decreases i
  {
    if i > 0 {
      OffsetFits(ss[1..], i - 1);
    }
  }

  lemma {:induction false} PartsAt(build: (bool, Slice) -> Bytes, first: bool, ss: seq<Slice>, i: nat)
    requires i < |ss|
    ensures Parts(build, first, ss)[i] == build(first && i == 0, ss[i])
    decreases i
  {
    if i > 0 {
      PartsAt(build, false, ss[1..], i - 1);
    }
  }

  function PartHeader(buf: Bytes, i: nat): Bytes
    requires WellFormed(buf)
  {
    if i == 0 then Header(buf) else LaterHeader(Header(buf))
  }

  /** Every part fits and verifies, and carries its piece of the cut: the first under the whole
      header, the others under the fixed part and the copied options. */
  lemma SplitPart(buf: Bytes, mtu: nat, i: nat)
    requires WellFormed(buf) && mtu >= MIN_IPV4_MTU && !Unsplittable(buf, mtu) && i < |SplitOf(buf, mtu)|
    ensures IsPart(PartHeader(buf, i), mtu, SplitOf(buf, mtu)[i], CutOf(buf, mtu)[i])
  {
    var h, later, ss := Header(buf), LaterHeader(Header(buf)), CutOf(buf, mtu);
    LaterHeaderLen(h);
    PartsAt(PartBuilder(h, later), true, ss, i);
    OffsetFits(ss, i);
    var b := OffsetUnits(buf);
    var units := CutAt(b, 0, Payload(buf), RoomUnits(mtu, |h|), RoomUnits(mtu, |later|),
                       MoreFragments(buf), i);
    PartIsPart(PartHeader(buf, i), mtu, ss[i], units);
  }

  /** Every part but the last carries a multiple of eight bytes. */
  lemma MultipleOfEight(buf: Bytes, mtu: nat, i: nat)
    requires WellFormed(buf) && MIN_IPV4_MTU <= mtu < TotalLen(buf) && !Unsplittable(buf, mtu)
    requires i + 1 < |SplitOf(buf, mtu)|
    ensures |CutOf(buf, mtu)[i].data| % 8 == 0
  {
    SplitPart(buf, mtu, i);
    SplitPart(buf, mtu, i + 1);
    SplitTiles(buf, mtu);
    TilesAt(CutOf(buf, mtu), FragmentOffset(buf), Payload(buf), MoreFragments(buf), i);
    EightApart(SplitOf(buf, mtu)[i], SplitOf(buf, mtu)[i + 1], |CutOf(buf, mtu)[i].data|);
  }

  lemma EightApart(p: Bytes, q: Bytes, n: nat)
    requires FragmentOffset(q) == FragmentOffset(p) + n
    ensures n % 8 == 0
  {
    var a := OffsetUnits(p);
    var b := OffsetUnits(q);
    assert n == 8 * (b - a);
  }

  lemma {:induction false} CutOffsets(b: nat, u: nat, d: Bytes, first: nat, later: nat, more: bool)
    requires first > 0 && later > 0 && 8 * b + |d| <= 65536
    ensures OffsetsFit(Cut(8 * b, 8 * u, d, 8 * first, 8 * later, more))
    decreases |d| - 8 * u
  {
    if 8 * u < |d| {
      var take := Min(8 * (if u == 0 then first else later), |d| - 8 * u);
      CutStep(8 * b, 8 * u, d, 8 * first, 8 * later, more, take);
      if 8 * u + take < |d| {
        CutOffsets(b, u + (if u == 0 then first else later), d, first, later, more);
      }
      var s := Slice(8 * b + 8 * u, 8 * u + take < |d| || more, d[8 * u..8 * u + take]);
      OneMoreFits(s, Cut(8 * b, 8 * u + take, d, 8 * first, 8 * later, more));
    }
  }

  lemma OneMoreFits(s: Slice, ss: seq<Slice>)
    requires s.offset <= MAX_FRAGMENT_OFFSET && OffsetsFit(ss)
    ensures OffsetsFit([s] + ss)
  {
    assert ([s] + ss)[1..] == ss;
  }

  /** Only an MTU under 68, or a fragment already far into its datagram, is refused. */
  lemma WholePacketSplits(buf: Bytes, mtu: nat)
    requires WellFormed(buf) && mtu >= MIN_IPV4_MTU && FragmentOffset(buf) + |Payload(buf)| <= 65536
    ensures !Unsplittable(buf, mtu)
  {
    LaterHeaderLen(Header(buf));
    var b := OffsetUnits(buf);
    CutOffsets(b, 0, Payload(buf), RoomUnits(mtu, HeaderLen(buf)),
               RoomUnits(mtu, |LaterHeader(Header(buf))|), MoreFragments(buf));
  }

  /** A part may always be split again, unless it is the last and reaches beyond what offsets can say. */
  lemma PartSplits(buf: Bytes, mtu: nat, k: nat, mtu': nat)
    requires WellFormed(buf) && MIN_IPV4_MTU <= mtu < TotalLen(buf) && !Unsplittable(buf, mtu)
    requires k < |SplitOf(buf, mtu)| && mtu' >= MIN_IPV4_MTU
    requires k + 1 < |SplitOf(buf, mtu)| || FragmentOffset(buf) + |Payload(buf)| <= 65536
    ensures WellFormed(SplitOf(buf, mtu)[k]) && !Unsplittable(SplitOf(buf, mtu)[k], mtu')
  {
    SplitPart(buf, mtu, k);
    SplitTiles(buf, mtu);
    PieceEnds(CutOf(buf, mtu), FragmentOffset(buf), Payload(buf), MoreFragments(buf), k);
    WholePacketSplits(SplitOf(buf, mtu)[k], mtu');
  }

  lemma PieceEnds(ss: seq<Slice>, base: nat, d: Bytes, more: bool, k: nat)
    requires Tiles(ss, base, d, more) && OffsetsFit(ss) && k < |ss| && (k + 1 < |ss| || base + |d| <= 65536)
    ensures ss[k].End() <= 65536
  {
    TilesAt(ss, base, d, more, k);
    if k + 1 < |ss| {
      OffsetFits(ss, k + 1);
    }
  }

  /** Splitting a part again, which is refused at most for the last part of a packet whose data ends
      beyond 65536, and putting the pieces in its place tiles the original payload. */
  lemma RefragmentSplice(buf: Bytes, mtu: nat, k: nat, mtu': nat)
    requires WellFormed(buf) && MIN_IPV4_MTU <= mtu < TotalLen(buf) && !Unsplittable(buf, mtu)
    requires k < |SplitOf(buf, mtu)|
    requires MIN_IPV4_MTU <= mtu' < |SplitOf(buf, mtu)[k]|
    ensures WellFormed(SplitOf(buf, mtu)[k]) && !DontFragment(SplitOf(buf, mtu)[k])
    ensures Unsplittable(SplitOf(buf, mtu)[k], mtu') ==>
              k + 1 == |SplitOf(buf, mtu)| && FragmentOffset(buf) + |Payload(buf)| > 65536
    ensures var ss, sub := CutOf(buf, mtu), CutOf(SplitOf(buf, mtu)[k], mtu');
            Tiles(ss[..k] + sub + ss[k + 1..], FragmentOffset(buf), Payload(buf), MoreFragments(buf))
  {
    var part := SplitOf(buf, mtu)[k];
    SplitPart(buf, mtu, k);
    SplitTiles(buf, mtu);
    SplitTiles(part, mtu');
    SpliceTiles(CutOf(buf, mtu), FragmentOffset(buf), Payload(buf), MoreFragments(buf), k, CutOf(part, mtu'));
    if k + 1 < |SplitOf(buf, mtu)| || FragmentOffset(buf) + |Payload(buf)| <= 65536 {
      PartSplits(buf, mtu, k, mtu');
    }
  }
}
