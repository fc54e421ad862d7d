/** Fragmenting an IPv4 packet and reassembling the parts gives its payload back. */
module RoundTrip {
  import opened Basics
  import opened Packet
  import opened Fragment
  import opened Defrag
  import opened Reassembly
  import opened ReassemblyRuns
  import opened Rejoin
  import Checksum

  predicate HasHeader(part: Bytes) {
    20 <= HeaderLen(part) <= |part|
  }

  /** A packet as the reassembler takes it in. */
  function FragOf(part: Bytes): Frag
    requires HasHeader(part)
  {
    FragV4(part, HeaderLen(part))
  }

  function FragsOf(parts: seq<Bytes>): seq<Frag>
    requires forall i :: 0 <= i < |parts| ==> HasHeader(parts[i])
  {
    seq(|parts|, i requires 0 <= i < |parts| => FragOf(parts[i]))
  }

  /** An unfragmented packet that is split into few enough parts. */
  ghost predicate Splits(buf: Bytes, mtu: nat) {
    && WellFormed(buf) && FragmentOffset(buf) == 0 && !MoreFragments(buf)
    && MIN_IPV4_MTU <= mtu < TotalLen(buf) && |SplitOf(buf, mtu)| <= MAX_PIECES
  }

  // ---- the parts a packet has come to ----------------------------------------

  /** A whole part of `buf` that carries the piece `s` of its payload. */
  predicate IsPiece(buf: Bytes, part: Bytes, s: Slice) {
    Whole(part) && SliceOf(part) == s && SameFields(part, buf, 20)
  }

  /** The parts, in order, carry the payload of `buf` between them. */
  ghost predicate Pieces(buf: Bytes, parts: seq<Bytes>, ss: seq<Slice>) {
    Tiles(ss, 0, Payload(buf), false) && AllPieces(buf, parts, ss)
  }

  ghost predicate AllPieces(buf: Bytes, parts: seq<Bytes>, ss: seq<Slice>) {
    && |parts| == |ss|
    && forall i {:trigger IsPiece(buf, parts[i], ss[i])} :: 0 <= i < |parts| ==> IsPiece(buf, parts[i], ss[i])
  }

  lemma SameFieldsAcross(a: Bytes, b: Bytes, c: Bytes)
    requires SameFields(a, b, 20) && SameFields(b, c, 20)
    ensures SameFields(a, c, 20)
  {
  }

  lemma PrefixFields(a: Bytes, b: Bytes)
    requires |a| >= 20 && |b| >= 20 && a[..20] == b[..20]
    ensures SameFields(a, b, 20)
  {
    assert forall i :: 0 <= i < 20 ==> a[i] == a[..20][i] == b[..20][i] == b[i];
  }

  /** What splitting makes of a packet, or of a part of one. */
  lemma SplitPiece(buf: Bytes, part: Bytes, mtu: nat, i: nat)
    requires WellFormed(part) && mtu >= MIN_IPV4_MTU && !Unsplittable(part, mtu) && i < |SplitOf(part, mtu)|
    requires SameFields(part, buf, 20)
    ensures IsPiece(buf, SplitOf(part, mtu)[i], CutOf(part, mtu)[i])
  {
    var h, sub := PartHeader(part, i), SplitOf(part, mtu)[i];
    LaterHeaderLen(Header(part));
    SplitPart(part, mtu, i);
    assert h[..20] == part[..20];
    PrefixFields(h, part);
    SameFieldsAcross(sub, h, part);
    SameFieldsAcross(sub, part, buf);
  }

  lemma SubPieces(buf: Bytes, part: Bytes, mtu: nat)
    requires WellFormed(part) && mtu >= MIN_IPV4_MTU && !Unsplittable(part, mtu) && SameFields(part, buf, 20)
    ensures AllPieces(buf, SplitOf(part, mtu), CutOf(part, mtu))
  {
    forall i | 0 <= i < |SplitOf(part, mtu)| ensures IsPiece(buf, SplitOf(part, mtu)[i], CutOf(part, mtu)[i]) {
      SplitPiece(buf, part, mtu, i);
    }
  }

  lemma SplitPieces(buf: Bytes, mtu: nat)
    requires WellFormed(buf) && FragmentOffset(buf) == 0 && !MoreFragments(buf) && MIN_IPV4_MTU <= mtu < TotalLen(buf)
    ensures Pieces(buf, SplitOf(buf, mtu), CutOf(buf, mtu))
  {
    WholePacketSplits(buf, mtu);
    SplitTiles(buf, mtu);
    PrefixFields(buf, buf);
    SubPieces(buf, buf, mtu);
  }

  /** A part split again, on a link with a smaller MTU. */
  datatype Resplit = Resplit(k: nat, mtu: nat)

  predicate Applies(parts: seq<Bytes>, r: Resplit) {
    r.k < |parts| && WellFormed(parts[r.k]) && MIN_IPV4_MTU <= r.mtu < TotalLen(parts[r.k])
  }

  function Spliced<T>(xs: seq<T>, k: nat, ys: seq<T>): seq<T>
    requires k < |xs|
  {
    xs[..k] + ys + xs[k + 1..]
  }

  /** The parts that arrive, if on the way some are split again, and some of those parts again, and so on;
      a part that fits is left alone. */
  function Onward(parts: seq<Bytes>, way: seq<Resplit>): seq<Bytes>
    decreases |way|
  {
    if way == [] then parts
    else Onward(if Applies(parts, way[0]) then Spliced(parts, way[0].k, SplitOf(parts[way[0].k], way[0].mtu)) else parts,
                way[1..])
  }

  lemma SplicedPieces(buf: Bytes, parts: seq<Bytes>, ss: seq<Slice>, k: nat, subs: seq<Bytes>, cut: seq<Slice>)
    requires AllPieces(buf, parts, ss) && AllPieces(buf, subs, cut) && k < |parts|
    ensures AllPieces(buf, Spliced(parts, k, subs), Spliced(ss, k, cut))
  {
    var all, slices := Spliced(parts, k, subs), Spliced(ss, k, cut);
    forall i | 0 <= i < |all| ensures IsPiece(buf, all[i], slices[i]) {
      if i < k {
        assert IsPiece(buf, parts[i], ss[i]);
      } else if i < k + |subs| {
        assert IsPiece(buf, subs[i - k], cut[i - k]);
      } else {
        assert IsPiece(buf, parts[i - |subs| + 1], ss[i - |subs| + 1]);
      }
    }
  }

  lemma ResplitPieces(buf: Bytes, parts: seq<Bytes>, ss: seq<Slice>, r: Resplit)
    requires WellFormed(buf) && Pieces(buf, parts, ss) && Applies(parts, r)
    ensures Pieces(buf, Spliced(parts, r.k, SplitOf(parts[r.k], r.mtu)), Spliced(ss, r.k, CutOf(parts[r.k], r.mtu)))
  {
    var part := parts[r.k];
    PieceSplits(buf, parts, ss, r);
    SubPieces(buf, part, r.mtu);
    ReplacedPieces(buf, parts, ss, r.k, SplitOf(part, r.mtu), CutOf(part, r.mtu));
  }

  lemma ReplacedPieces(buf: Bytes, parts: seq<Bytes>, ss: seq<Slice>, k: nat, subs: seq<Bytes>, cut: seq<Slice>)
    requires Pieces(buf, parts, ss) && k < |parts| && AllPieces(buf, subs, cut)
    requires Tiles(cut, ss[k].offset, ss[k].data, ss[k].more)
    ensures Pieces(buf, Spliced(parts, k, subs), Spliced(ss, k, cut))
  {
    SpliceTiles(ss, 0, Payload(buf), false, k, cut);
    SplicedPieces(buf, parts, ss, k, subs, cut);
  }

  lemma PieceSplits(buf: Bytes, parts: seq<Bytes>, ss: seq<Slice>, r: Resplit)
    requires WellFormed(buf) && Pieces(buf, parts, ss) && Applies(parts, r)
    ensures !Unsplittable(parts[r.k], r.mtu) && SameFields(parts[r.k], buf, 20)
    ensures Tiles(CutOf(parts[r.k], r.mtu), ss[r.k].offset, ss[r.k].data, ss[r.k].more)
  {
    TilesAt(ss, 0, Payload(buf), false, r.k);
    assert IsPiece(buf, parts[r.k], ss[r.k]);
    WholePacketSplits(parts[r.k], r.mtu);
    SplitTiles(parts[r.k], r.mtu);
  }

  lemma {:induction false} OnwardPieces(buf: Bytes, parts: seq<Bytes>, ss: seq<Slice>, way: seq<Resplit>)
    returns (ss': seq<Slice>)
    requires WellFormed(buf) && Pieces(buf, parts, ss)
    ensures Pieces(buf, Onward(parts, way), ss')
    decreases |way|
  {
    if way == [] {
      ss' := ss;
    } else if Applies(parts, way[0]) {
      var r := way[0];
      ResplitPieces(buf, parts, ss, r);
      ss' := OnwardPieces(buf, Spliced(parts, r.k, SplitOf(parts[r.k], r.mtu)),
                          Spliced(ss, r.k, CutOf(parts[r.k], r.mtu)), way[1..]);
    } else {
      ss' := OnwardPieces(buf, parts, ss, way[1..]);
    }
  }

  // ---- the parts are the fragments of the payload --------------------------

  /** What a part says, and that it belongs with the others. */
  lemma PieceFrag(buf: Bytes, part: Bytes, s: Slice)
    requires IsPiece(buf, part, s)
    ensures HasHeader(part)
    ensures var f := FragOf(part);
            && f.offset == s.offset && f.more == s.more && f.data == s.data && f.ecn == buf[1] % 4
            && (s.offset == 0 ==> && f.header.Some? && |f.header.value| == 20 && f.header.value[0] == 0x45
                                  && SameFields(f.header.value, buf, 20))
    ensures forall ns :: KeyV4(ns, part) == KeyV4(ns, buf)
  {
    assert part[12..16] == buf[12..16] && part[16..20] == buf[16..20];
    assert part[HeaderLen(part)..] == Payload(part);
  }

  lemma SlicesCover(fs: seq<Frag>, ss: seq<Slice>, payload: Bytes, e: byte)
    requires Tiles(ss, 0, payload, false) && |fs| == |ss| <= MAX_PIECES && |payload| <= MAX_PAYLOAD
    requires forall i :: 0 <= i < |fs| ==>
               && fs[i].offset == ss[i].offset && fs[i].more == ss[i].more && fs[i].data == ss[i].data
               && fs[i].ecn == e && fs[i].Ok()
    ensures Cover(fs, payload, e)
  {
    forall i | 0 <= i < |fs|
      ensures && fs[i].data != [] && fs[i].more == (i + 1 < |fs|) && fs[i].End() <= |payload|
              && fs[i].data == payload[fs[i].offset..fs[i].End()]
      ensures i == 0 ==> fs[i].offset == 0
      ensures i + 1 == |fs| ==> fs[i].End() == |payload|
    {
      TilesAt(ss, 0, payload, false, i);
    }
    forall i, j | 0 <= i < j < |fs|
      ensures fs[i].End() <= fs[j].offset && (j == i + 1 ==> fs[i].End() == fs[j].offset)
    {
      TilesApart(ss, 0, payload, false, i, j);
      TilesAt(ss, 0, payload, false, i);
    }
  }

  lemma PiecesCover(buf: Bytes, parts: seq<Bytes>, ss: seq<Slice>)
    requires WellFormed(buf) && Pieces(buf, parts, ss) && |parts| <= MAX_PIECES
    ensures forall i :: 0 <= i < |parts| ==> HasHeader(parts[i])
    ensures Cover(FragsOf(parts), Payload(buf), buf[1] % 4)
  {
    forall i | 0 <= i < |parts|
      ensures HasHeader(parts[i])
      ensures var f := FragOf(parts[i]);
              && f.offset == ss[i].offset && f.more == ss[i].more && f.data == ss[i].data
              && f.ecn == buf[1] % 4 && f.Ok()
    {
      assert IsPiece(buf, parts[i], ss[i]);
      PieceFrag(buf, parts[i], ss[i]);
    }
    SlicesCover(FragsOf(parts), ss, Payload(buf), buf[1] % 4);
  }

  lemma PieceWellMade(buf: Bytes, parts: seq<Bytes>, ss: seq<Slice>, i: nat)
    requires WellFormed(buf) && Pieces(buf, parts, ss) && i < |parts|
    ensures HasHeader(parts[i]) && !FragOf(parts[i]).Malformed()
  {
    assert IsPiece(buf, parts[i], ss[i]);
    PieceFrag(buf, parts[i], ss[i]);
    TilesAt(ss, 0, Payload(buf), false, i);
    if i + 1 < |parts| {
      assert IsPiece(buf, parts[i + 1], ss[i + 1]);
      EightApart(parts[i], parts[i + 1], |ss[i].data|);
    }
  }

  // ---- the packet rebuilt ------------------------------------------------

  /** An unfragmented packet: a bare header with the right length and checksum, and the payload. */
  predicate Bare(out: Bytes, payload: Bytes) {
    && |out| == 20 + |payload| && out[20..] == payload
    && WellFormed(out) && HeaderLen(out) == 20 && TotalLen(out) == |out|
    && FragmentOffset(out) == 0 && !MoreFragments(out) && !DontFragment(out) && VerifiesIpv4(out)
  }

  /** The payload of `buf` under such a header, with the same addresses, identification, protocol, hop
      limit and type of service. */
  predicate Restores(buf: Bytes, out: Bytes) {
    Bare(out, Payload(buf)) && SameFields(out, buf, 20)
  }

  /** The header before its checksum is put in. */
  lemma ClearedIs(h: Bytes, total: word16, z: Bytes)
    requires |h| == 20 && h[0] == 0x45 && z == Cleared(h, total)
    ensures |z| == 20 && z[0] == 0x45 && Be16(z[2], z[3]) == total
    ensures z[6] == z[7] == z[10] == z[11] == 0 && SameFields(z, h, 20)
  {
    TwoBytes(total);
  }

  lemma FinishedIs(z: Bytes, payload: Bytes, out: Bytes)
    requires |z| == 20 && z[0] == 0x45 && Be16(z[2], z[3]) == 20 + |payload|
    requires z[6] == z[7] == z[10] == z[11] == 0 && out == Finished(z, payload)
    ensures Bare(out, payload) && SameFields(out, z, 20)
  {
    var c := Checksum.Sum16(z);
    TwoBytes(c);
    StoredVerifies(z, Hi(c), Lo(c));
    assert out[..20] == z[10 := Hi(c)][11 := Lo(c)];
  }

  lemma MarkKept(h: Bytes, ecn: Option<byte>)
    requires |h| == 20 && ecn == if h[1] % 4 == 3 then Some(3) else None
    ensures ecn.Some? ==> h[1 := h[1] / 4 * 4 + ecn.value % 4] == h
  {
    if ecn.Some? {
      assert h[1] / 4 * 4 + 3 == h[1];
    }
  }

  /** Setting the ECN field the fragments all came with changes nothing. */
  lemma RebuiltIs(dg: Datagram, z: Bytes, out: Bytes)
    requires |dg.header| == 20 && 20 + |dg.payload| <= MAX_PAYLOAD
    requires dg.ecn == if dg.header[1] % 4 == 3 then Some(3) else None
    requires z == Cleared(dg.header, 20 + |dg.payload|) && out == Finished(z, dg.payload)
    ensures RebuiltV4(dg) == Some(out)
  {
    MarkKept(dg.header, dg.ecn);
  }

  lemma RebuiltRestores(buf: Bytes, dg: Datagram) returns (out: Bytes)
    requires WellFormed(buf) && dg.payload == Payload(buf)
    requires |dg.header| == 20 && dg.header[0] == 0x45 && SameFields(dg.header, buf, 20)
    requires dg.ecn == if buf[1] % 4 == 3 then Some(3) else None
    ensures RebuiltV4(dg) == Some(out) && Restores(buf, out)
  {
    var z := Cleared(dg.header, 20 + |dg.payload|);
    out := Finished(z, dg.payload);
    assert dg.header[1] == buf[1];
    RebuiltIs(dg, z, out);
    ClearedIs(dg.header, 20 + |dg.payload|, z);
    FinishedIs(z, dg.payload, out);
    SameFieldsAcross(out, z, dg.header);
    SameFieldsAcross(out, dg.header, buf);
  }

  /** The parts pushed in the order `order`, with any repeats, the first `n + 1` of them inside the
      reassembly window and the first `n` not all of them. */
  ghost predicate Arriving(parts: seq<Bytes>, ns: nat, t: Trace, order: seq<nat>, n: nat) {
    && t.Valid() && |order| == |t.events| && n < |order|
    && (forall i :: 0 <= i < |order| ==>
          && order[i] < |parts| && HasHeader(parts[order[i]])
          && t.events[i] == Event(t.events[i].now, KeyV4(ns, parts[order[i]]), FragOf(parts[order[i]])))
    && t.events[n].now - t.events[0].now < REASSEMBLY_TIMEOUT && !AllSeen(|parts|, Seen(order, n))
  }

  /** With the last part missing, and only then, the packet comes out. */
  ghost predicate ComesBack(buf: Bytes, parts: seq<Bytes>, t: Trace, order: seq<nat>, n: nat)
    requires n < |order| && n < |t.out|
  {
    if AllSeen(|parts|, Seen(order, n + 1)) then exists out :: GivesV4(t.out[n], Some(out)) && Restores(buf, out)
    else t.out[n] == None
  }

  lemma PiecesComeBack(buf: Bytes, parts: seq<Bytes>, ss: seq<Slice>, ns: nat, t: Trace, order: seq<nat>, n: nat)
    requires WellFormed(buf) && Pieces(buf, parts, ss) && |parts| <= MAX_PIECES && Arriving(parts, ns, t, order, n)
    ensures ComesBack(buf, parts, t, order, n)
  {
    PiecesCover(buf, parts, ss);
    var fs := FragsOf(parts);
    forall i: nat | i < |parts|
      ensures !fs[i].Malformed() && KeyV4(ns, parts[i]) == KeyV4(ns, buf)
    {
      PieceWellMade(buf, parts, ss, i);
      assert IsPiece(buf, parts[i], ss[i]);
      PieceFrag(buf, parts[i], ss[i]);
    }
    FedYields(t, KeyV4(ns, buf), fs, Payload(buf), buf[1] % 4, order, n);
    TilesAt(ss, 0, Payload(buf), false, 0);
    assert IsPiece(buf, parts[0], ss[0]);
    PieceFrag(buf, parts[0], ss[0]);
    var out := RebuiltRestores(buf, Expected(fs, Payload(buf), buf[1] % 4).value);
  }

  /** The parts of a packet, pushed in any order with any repeats: nothing comes out until the last missing
      part, and then the packet does. */
  lemma RoundTrips(buf: Bytes, mtu: nat, ns: nat, t: Trace, order: seq<nat>, n: nat)
    requires Splits(buf, mtu) && Arriving(SplitOf(buf, mtu), ns, t, order, n)
    ensures ComesBack(buf, SplitOf(buf, mtu), t, order, n)
  {
    SplitPieces(buf, mtu);
    PiecesComeBack(buf, SplitOf(buf, mtu), CutOf(buf, mtu), ns, t, order, n);
  }

  /** And so do the parts it has come to when some were split again, any number of times, on the way. */
  lemma RoundTripsOnward(buf: Bytes, mtu: nat, way: seq<Resplit>, ns: nat, t: Trace, order: seq<nat>, n: nat)
    requires WellFormed(buf) && FragmentOffset(buf) == 0 && !MoreFragments(buf) && MIN_IPV4_MTU <= mtu < TotalLen(buf)
    requires |Onward(SplitOf(buf, mtu), way)| <= MAX_PIECES && Arriving(Onward(SplitOf(buf, mtu), way), ns, t, order, n)
    ensures ComesBack(buf, Onward(SplitOf(buf, mtu), way), t, order, n)
  {
    SplitPieces(buf, mtu);
    var ss := OnwardPieces(buf, SplitOf(buf, mtu), CutOf(buf, mtu), way);
    PiecesComeBack(buf, Onward(SplitOf(buf, mtu), way), ss, ns, t, order, n);
  }
}
