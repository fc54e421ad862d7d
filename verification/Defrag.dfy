/** Reassembly of one datagram from fragments arriving in any order: section 3.2 of RFC 791,
    section 4.5 of RFC 8200, and RFC 5722 for overlaps. */
module Defrag {
  import opened Basics

  const MAX_PIECES := 256
  const MAX_PAYLOAD := 65535
  const REASSEMBLY_TIMEOUT: Time := 30 * SECOND

  /** A fragment held, as the bytes `[s, e)` it covers. */
  datatype Range = Range(s: nat, e: nat)

  /** A fragment: its place in the datagram and, at offset 0, the header of the rebuilt packet. */
  datatype Frag = Frag(offset: nat, more: bool, data: Bytes, header: Option<Bytes>, ecn: byte) {
    function End(): nat {
      offset + |data|
    }

    /** Only the last fragment may be empty or not a multiple of eight, and nothing may reach past
        the largest datagram. */
    predicate Malformed() {
      (more && (|data| % 8 != 0 || data == [])) || End() > MAX_PAYLOAD
    }

    /** As the IPv4 and IPv6 entry points make it. */
    predicate Ok() {
      (header.Some? <==> offset == 0) && ecn < 4
    }
  }

  /** A datagram in progress. `cap` is the allocated capacity of `data`; `ecn` the codepoints the
      fragments came with. */
  datatype Partial = Partial(
    started: Time, header: Option<Bytes>, data: Bytes, cap: nat, pieces: seq<Range>,
    received: nat, total: Option<nat>, lastFinal: bool, ecn: set<byte>)

  function Empty(now: Time): Partial {
    Partial(now, None, [], 0, [], 0, None, false, {})
  }

  function Cap(d: Partial): nat {
    d.cap
  }

  // ---- the invariant of a datagram in progress ---------------------------

  predicate Sorted(ps: seq<Range>) {
    && (forall i :: 0 <= i < |ps| ==> ps[i].s < ps[i].e)
    && (forall i, j :: 0 <= i < j < |ps| ==> ps[i].e <= ps[j].s)
  }

  function Held(ps: seq<Range>): int {
    if ps == [] then 0 else Held(ps[..|ps| - 1]) + ps[|ps| - 1].e - ps[|ps| - 1].s
  }

  predicate Within(ps: seq<Range>, n: nat) {
    forall i :: 0 <= i < |ps| ==> ps[i].e <= n
  }

  predicate Ok(d: Partial) {
    && Sorted(d.pieces) && Within(d.pieces, |d.data|) && |d.pieces| <= MAX_PIECES
    && |d.data| <= d.cap <= MAX_PAYLOAD
    && d.received == Held(d.pieces)
    && (d.total.Some? ==> d.total.value <= MAX_PAYLOAD && Within(d.pieces, d.total.value))
    && (d.lastFinal ==> d.total.Some? && d.pieces != [] && d.pieces[|d.pieces| - 1].e == d.total.value)
    && (d.header.Some? <==> d.pieces != [] && d.pieces[0].s == 0)
  }

  // ---- merging a fragment ------------------------------------------------

  /** Index of the first piece starting at or after `off`. */
  function PartitionPoint(ps: seq<Range>, off: nat): (n: nat)
    requires Sorted(ps)
    ensures n <= |ps|
    ensures forall i :: 0 <= i < n ==> ps[i].s < off
    ensures forall i :: n <= i < |ps| ==> ps[i].s >= off
  {
    if ps == [] then 0
    else if ps[|ps| - 1].s < off then |ps|
    else PartitionPoint(ps[..|ps| - 1], off)
  }

  /** An empty fragment counts as touching the byte at its offset. */
  predicate Overlaps(r: Range, p: Frag) {
    r.s < Max(p.End(), p.offset + 1) && p.offset < r.e
  }

  /** The first neighbour the fragment overlaps: the piece before its place, then the one at it. */
  function OverlappedNeighbour(ps: seq<Range>, i: nat, p: Frag): Option<Range>
    requires i <= |ps|
  {
    if i > 0 && Overlaps(ps[i - 1], p) then Some(ps[i - 1])
    else if i < |ps| && Overlaps(ps[i], p) then Some(ps[i])
    else None
  }

  /** An exact repeat, saying the same about "more fragments" as the original. */
  predicate Repeats(d: Partial, r: Range, p: Frag, total: Option<nat>)
    requires r.s <= r.e <= |d.data|
  {
    && r.s == p.offset && r.e == p.End() && d.data[r.s..r.e] == p.data
    && p.more != (d.lastFinal && total == Some(r.e))
  }

  function Grown(cap: nat, want: nat): nat {
    if cap >= want then cap else Min(Max(2 * cap, want), Max(MAX_PAYLOAD, want))
  }

  function Resized(data: Bytes, n: nat): (r: Bytes)
    ensures |r| == Max(|data|, n) && r[..|data|] == data
  {
    if |data| < n then data + seq(n - |data|, _ => 0) else data
  }

  function Written(data: Bytes, at: nat, src: Bytes): (r: Bytes)
    ensures |r| == Max(|data|, at + |src|)
    ensures r[at..at + |src|] == src
    ensures forall i :: 0 <= i < |data| && !(at <= i < at + |src|) ==> r[i] == data[i]
  {
    var big := Resized(data, at + |src|);
    big[..at] + src + big[at + |src|..]
  }

  lemma WrittenKeeps(data: Bytes, at: nat, src: Bytes, r: Range)
    requires r.s <= r.e <= |data| && (r.e <= at || at + |src| <= r.s)
    ensures Written(data, at, src)[r.s..r.e] == data[r.s..r.e]
  {
  }

  function NewTotal(d: Partial, p: Frag): Option<nat> {
    if p.more then d.total else Some(p.End())
  }

  /** `Partial::accept`: the datagram with `p` merged in, or `None` if they contradict. */
  function Accept(d: Partial, p: Frag): Option<Partial>
    requires Ok(d)
  {
    var total := NewTotal(d, p);
    if !p.more && d.total.Some? && d.total.value != p.End() then None
    else if total.Some? && (p.End() > total.value
                            || (d.pieces != [] && d.pieces[|d.pieces| - 1].e > total.value)) then None
    else Merge(d, p, total)
  }

  function Merge(d: Partial, p: Frag, total: Option<nat>): Option<Partial>
    requires Ok(d)
  {
    var i := PartitionPoint(d.pieces, p.offset);
    var hit := OverlappedNeighbour(d.pieces, i, p);
    if hit.Some? then
      if Repeats(d, hit.value, p, total) then Some(d.(total := total)) else None
    else if p.data == [] then
      Some(d.(total := total, ecn := d.ecn + {p.ecn}))
    else if |d.pieces| >= MAX_PIECES then None
    else Some(Inserted(d, p, total, i))
  }

  function Inserted(d: Partial, p: Frag, total: Option<nat>, i: nat): Partial
    requires i <= |d.pieces|
  {
    var want := Max(if total.Some? then total.value else p.End(), p.End());
    Partial(d.started,
            if p.header.Some? then p.header else d.header,
            Written(d.data, p.offset, p.data),
            if |d.data| < p.End() then Grown(d.cap, want) else d.cap,
            d.pieces[..i] + [Range(p.offset, p.End())] + d.pieces[i..],
            d.received + |p.data|, total, d.lastFinal || !p.more, d.ecn + {p.ecn})
  }

  predicate Complete(d: Partial) {
    d.total.Some? && d.received == d.total.value
  }

  /** The ECN field of the whole (section 5.3 of RFC 3168): CE if any fragment was marked, nothing
      for a mix of Not-ECT and ECN-capable fragments. */
  function ReassembledEcn(seen: set<byte>): Option<Option<byte>> {
    if 0 in seen && seen != {0} then None
    else Some(if 3 in seen then Some(3) else None)
  }

  /** What a completed datagram yields: the header, the payload and the ECN field to set, if any. */
  datatype Datagram = Datagram(header: Bytes, payload: Bytes, ecn: Option<byte>)

  function Yield(d: Partial): Option<Datagram>
    requires Complete(d)
  {
    var ecn := ReassembledEcn(d.ecn);
    if d.header.None? || ecn.None? then None
    else Some(Datagram(d.header.value, d.data[..Min(d.total.value, |d.data|)], ecn.value))
  }

  // ---- the two-neighbour check is a check of every piece -----------------

  /** Clear of both neighbours, the fragment is clear of every piece. */
  lemma NeighboursSuffice(ps: seq<Range>, p: Frag)
    requires Sorted(ps)
    requires OverlappedNeighbour(ps, PartitionPoint(ps, p.offset), p).None?
    ensures var i := PartitionPoint(ps, p.offset);
            && (forall j :: 0 <= j < i ==> ps[j].e <= p.offset)
            && (forall j :: i <= j < |ps| ==> Max(p.End(), p.offset + 1) <= ps[j].s)
  {
    var i: int := PartitionPoint(ps, p.offset);
    forall j | 0 <= j < i ensures ps[j].e <= p.offset {
      assert j < i - 1 ==> ps[j].e <= ps[i - 1].s;
    }
    forall j | i <= j < |ps| ensures Max(p.End(), p.offset + 1) <= ps[j].s {
      assert i < j ==> ps[i].e <= ps[j].s;
    }
  }

  /** The piece a fragment repeats is the neighbour it overlaps. */
  lemma RepeatIsNeighbour(ps: seq<Range>, p: Frag, k: nat)
    requires Sorted(ps) && k < |ps| && ps[k].s == p.offset && ps[k].e == p.End()
    ensures OverlappedNeighbour(ps, PartitionPoint(ps, p.offset), p) == Some(ps[k])
  {
    var i: int := PartitionPoint(ps, p.offset);
    assert i <= k;
    assert ps[i].s >= p.offset;
    assert k == i;
    assert i > 0 ==> ps[i - 1].e <= ps[i].s;
  }

  lemma LastBounds(ps: seq<Range>, n: nat)
    requires Sorted(ps)
    ensures Within(ps, n) <==> ps == [] || ps[|ps| - 1].e <= n
  {
    var k: int := |ps| - 1;
    forall j | 0 <= j < k ensures ps[j].e <= ps[k].e {
      assert ps[j].e <= ps[k].s;
    }
  }

  /** The totals agree, and nothing lies past the total. */
  predicate TotalsAgree(d: Partial, p: Frag) {
    && (p.more || d.total.None? || d.total.value == p.End())
    && (NewTotal(d, p).Some? ==> p.End() <= NewTotal(d, p).value && Within(d.pieces, NewTotal(d, p).value))
  }

  /** Of all the held pieces, the fragment either touches none or exactly repeats one. */
  predicate FitsIn(d: Partial, p: Frag)
    requires Ok(d)
  {
    if exists j :: 0 <= j < |d.pieces| && Overlaps(d.pieces[j], p) then
      exists j :: 0 <= j < |d.pieces| && Repeats(d, d.pieces[j], p, NewTotal(d, p))
    else p.data == [] || |d.pieces| < MAX_PIECES
  }

  /** Looking at two neighbours decides as looking at every held piece would. */
  lemma AcceptIffConsistent(d: Partial, p: Frag)
    requires Ok(d)
    ensures Accept(d, p).Some? <==> TotalsAgree(d, p) && FitsIn(d, p)
  {
    MergeIffFits(d, p);
    if NewTotal(d, p).Some? {
      LastBounds(d.pieces, NewTotal(d, p).value);
    }
  }

  lemma MergeIffFits(d: Partial, p: Frag)
    requires Ok(d)
    ensures Merge(d, p, NewTotal(d, p)).Some? <==> FitsIn(d, p)
  {
    var i := PartitionPoint(d.pieces, p.offset);
    var hit := OverlappedNeighbour(d.pieces, i, p);
    if hit.None? {
      NeighboursSuffice(d.pieces, p);
    } else {
      HitFits(d, p, NewTotal(d, p), hit.value);
    }
  }

  /** Overlapping a neighbour, a fragment fits exactly if it repeats that one. */
  lemma HitFits(d: Partial, p: Frag, total: Option<nat>, r: Range)
    requires Ok(d) && OverlappedNeighbour(d.pieces, PartitionPoint(d.pieces, p.offset), p) == Some(r)
    ensures r in d.pieces && Overlaps(r, p) && r.s <= r.e <= |d.data|
    ensures Repeats(d, r, p, total) <==> exists j :: 0 <= j < |d.pieces| && Repeats(d, d.pieces[j], p, total)
  {
    if j :| 0 <= j < |d.pieces| && Repeats(d, d.pieces[j], p, total) {
      RepeatIsNeighbour(d.pieces, p, j);
    }
  }

  /** Clear of every piece, a fragment is merged in. */
  lemma ClearIsInserted(d: Partial, p: Frag)
    requires Ok(d) && p.data != [] && TotalsAgree(d, p) && |d.pieces| < MAX_PIECES
    requires forall j :: 0 <= j < |d.pieces| ==> !Overlaps(d.pieces[j], p)
    ensures Accept(d, p) == Some(Inserted(d, p, NewTotal(d, p), PartitionPoint(d.pieces, p.offset)))
  {
    if NewTotal(d, p).Some? {
      LastBounds(d.pieces, NewTotal(d, p).value);
    }
  }

  /** An accepted exact repeat changes nothing. */
  lemma RepeatIsIdempotent(d: Partial, p: Frag, j: nat)
    requires Ok(d) && j < |d.pieces| && Overlaps(d.pieces[j], p)
    ensures Accept(d, p).Some? ==> Accept(d, p) == Some(d)
  {
    if OverlappedNeighbour(d.pieces, PartitionPoint(d.pieces, p.offset), p).None? {
      NeighboursSuffice(d.pieces, p);
    }
  }

  /** The two halves of a datagram of nine bytes, as an ECN codepoint comes with them. */
  function FirstHalf(h: Bytes, ecn: byte): Frag {
    Frag(0, true, [0, 0, 0, 0, 0, 0, 0, 0], Some(h), ecn)
  }

  function SecondHalf(ecn: byte): Frag {
    Frag(8, false, [0], None, ecn)
  }

  function FirstHeld(h: Bytes): Partial {
    Inserted(Empty(0), FirstHalf(h, 2), None, 0)
  }

  lemma FirstHalfHeld(h: Bytes)
    ensures Accept(Empty(0), FirstHalf(h, 2)) == Some(FirstHeld(h)) && Ok(FirstHeld(h))
    ensures FirstHeld(h).pieces == [Range(0, 8)] && FirstHeld(h).data == FirstHalf(h, 2).data
  {
    AcceptOk(Empty(0), FirstHalf(h, 2));
  }

  lemma FirstHalfRepeats(h: Bytes, d: Partial)
    requires Ok(d) && d == FirstHeld(h) && d.pieces == [Range(0, 8)] && d.data == FirstHalf(h, 2).data
    ensures Accept(d, FirstHalf(h, 3)) == Some(d)
  {
    assert Repeats(d, d.pieces[0], FirstHalf(h, 3), None);
    AcceptIffConsistent(d, FirstHalf(h, 3));
    RepeatIsIdempotent(d, FirstHalf(h, 3), 0);
  }

  lemma SecondHalfCompletes(h: Bytes, d: Partial) returns (d': Partial)
    requires Ok(d) && d == FirstHeld(h) && d.pieces == [Range(0, 8)] && d.data == FirstHalf(h, 2).data
    ensures Accept(d, SecondHalf(2)) == Some(d') && Complete(d')
    ensures Yield(d') == Some(Datagram(h, [0, 0, 0, 0, 0, 0, 0, 0, 0], None))
  {
    var q := SecondHalf(2);
    ClearIsInserted(d, q);
    d' := Inserted(d, q, Some(9), PartitionPoint(d.pieces, 8));
    assert d'.data == d.data + q.data;
    assert d'.ecn == {2} && d'.data[..9] == [0, 0, 0, 0, 0, 0, 0, 0, 0];
  }

  /** So a mark on a repeat alone is lost: the first half, once more marked, and the second. */
  lemma MarkOnRepeatIsLost(h: Bytes) returns (d: Partial, d': Partial)
    ensures Accept(Empty(0), FirstHalf(h, 2)) == Some(d) && Ok(d)
    ensures Accept(d, FirstHalf(h, 3)) == Some(d)
    ensures Accept(d, SecondHalf(2)) == Some(d') && Complete(d')
    ensures Yield(d') == Some(Datagram(h, [0, 0, 0, 0, 0, 0, 0, 0, 0], None))
  {
    d := FirstHeld(h);
    FirstHalfHeld(h);
    FirstHalfRepeats(h, d);
    d' := SecondHalfCompletes(h, d);
  }

  // ---- what merging keeps ------------------------------------------------

  lemma {:induction false} HeldInsert(ps: seq<Range>, i: nat, r: Range)
    requires i <= |ps|
    ensures Held(ps[..i] + [r] + ps[i..]) == Held(ps) + r.e - r.s
    decreases |ps|
  {
    var n, all := |ps|, ps[..i] + [r] + ps[i..];
    if i == n {
      assert all[..n] == ps && all[n] == r;
    } else {
      assert all[..n] == ps[..n - 1][..i] + [r] + ps[..n - 1][i..] && all[n] == ps[n - 1];
      HeldInsert(ps[..n - 1], i, r);
    }
  }

  lemma SortedInsert(ps: seq<Range>, i: nat, r: Range)
    requires Sorted(ps) && i <= |ps| && r.s < r.e
    requires forall j :: 0 <= j < i ==> ps[j].e <= r.s
    requires forall j :: i <= j < |ps| ==> r.e <= ps[j].s
    ensures Sorted(ps[..i] + [r] + ps[i..])
  {
  }

  /** Merging keeps the invariant. */
  lemma AcceptOk(d: Partial, p: Frag)
    requires Ok(d) && !p.Malformed() && p.Ok() && Accept(d, p).Some?
    ensures Ok(Accept(d, p).value)
    ensures Accept(d, p).value.started == d.started
  {
    var total := NewTotal(d, p);
    if total.Some? {
      LastBounds(d.pieces, total.value);
    }
    MergeOk(d, p, total, Accept(d, p).value);
  }

  lemma MergeOk(d: Partial, p: Frag, total: Option<nat>, d': Partial)
    requires Ok(d) && p.End() <= MAX_PAYLOAD && p.Ok() && Merge(d, p, total) == Some(d')
    requires total == NewTotal(d, p) && (d.total.Some? ==> total == d.total)
    requires total.Some? ==> p.End() <= total.value && Within(d.pieces, total.value)
    ensures Ok(d') && d'.started == d.started
  {
    var i := PartitionPoint(d.pieces, p.offset);
    if OverlappedNeighbour(d.pieces, i, p).None? && p.data != [] {
      NeighboursSuffice(d.pieces, p);
      InsertedOk(d, p, total, i, d');
    } else {
      TotalOk(d, total, d');
    }
  }

  lemma TotalOk(d: Partial, total: Option<nat>, d': Partial)
    requires Ok(d) && (d.total.Some? ==> total == d.total)
    requires total.Some? ==> total.value <= MAX_PAYLOAD && Within(d.pieces, total.value)
    requires d' == d.(total := total, ecn := d'.ecn)
    ensures Ok(d')
  {
  }

  lemma InsertedOk(d: Partial, p: Frag, total: Option<nat>, i: nat, d': Partial)
    requires Ok(d) && p.End() <= MAX_PAYLOAD && p.Ok() && p.data != [] && |d.pieces| < MAX_PIECES && i <= |d.pieces|
    requires total == NewTotal(d, p) && d' == Inserted(d, p, total, i)
    requires total.Some? ==> p.End() <= total.value && Within(d.pieces, total.value)
    requires d.total.Some? ==> total == d.total
    requires forall j :: 0 <= j < i ==> d.pieces[j].e <= p.offset
    requires forall j :: i <= j < |d.pieces| ==> p.End() <= d.pieces[j].s
    ensures Ok(d')
  {
    var r := Range(p.offset, p.End());
    HeldInsert(d.pieces, i, r);
    SortedInsert(d.pieces, i, r);
    WithinInsert(d.pieces, i, r, |d'.data|);
    if total.Some? {
      WithinInsert(d.pieces, i, r, total.value);
    }
    CapInserted(d, p, total, i);
    HeaderInserted(d, p, total, i);
    FinalStaysLast(d, p, total, i);
  }

  lemma CapInserted(d: Partial, p: Frag, total: Option<nat>, i: nat)
    requires |d.data| <= d.cap <= MAX_PAYLOAD && p.End() <= MAX_PAYLOAD && i <= |d.pieces|
    requires total.Some? ==> total.value <= MAX_PAYLOAD
    ensures var d' := Inserted(d, p, total, i); |d'.data| <= d'.cap <= MAX_PAYLOAD
  {
  }

  lemma HeaderInserted(d: Partial, p: Frag, total: Option<nat>, i: nat)
    requires p.Ok() && p.data != [] && i <= |d.pieces|
    requires d.header.Some? <==> d.pieces != [] && d.pieces[0].s == 0
    requires forall j :: 0 <= j < i ==> d.pieces[j].e <= p.offset
    requires forall j :: i <= j < |d.pieces| ==> p.End() <= d.pieces[j].s
    requires Sorted(d.pieces)
    ensures var d' := Inserted(d, p, total, i); d'.header.Some? <==> d'.pieces[0].s == 0
  {
    assert Inserted(d, p, total, i).pieces[0] == if i > 0 then d.pieces[0] else Range(p.offset, p.End());
  }

  lemma WithinInsert(ps: seq<Range>, i: nat, r: Range, n: nat)
    requires Within(ps, n) && i <= |ps| && r.e <= n
    ensures Within(ps[..i] + [r] + ps[i..], n)
  {
  }

  /** The piece that fixed the total stays the last one. */
  lemma FinalStaysLast(d: Partial, p: Frag, total: Option<nat>, i: nat)
    requires d.lastFinal ==> d.total.Some? && d.pieces != [] && d.pieces[|d.pieces| - 1].e == d.total.value
    requires Sorted(d.pieces) && p.data != [] && i <= |d.pieces|
    requires total == if p.more then d.total else Some(p.End())
    requires total.Some? ==> p.End() <= total.value && Within(d.pieces, total.value)
    requires forall j :: 0 <= j < i ==> d.pieces[j].e <= p.offset
    requires forall j :: i <= j < |d.pieces| ==> p.End() <= d.pieces[j].s
    ensures var d' := Inserted(d, p, total, i);
            d'.lastFinal ==> total.Some? && d'.pieces[|d'.pieces| - 1].e == total.value
  {
    var n, d' := |d.pieces|, Inserted(d, p, total, i);
    if i < n {
      assert d'.pieces[n] == d.pieces[n - 1];
    } else {
      assert d'.pieces[n] == Range(p.offset, p.End());
    }
  }

  // ---- counted means covered ---------------------------------------------

  /** The pieces follow one another without a gap from 0 to `n`. */
  predicate Contiguous(ps: seq<Range>, n: nat) {
    if ps == [] then n == 0 else
      && ps[|ps| - 1].e == n && ps[|ps| - 1].s <= n
      && Contiguous(ps[..|ps| - 1], ps[|ps| - 1].s)
  }

  /** Disjoint pieces inside `[0, n)` hold at most `n` bytes, and exactly `n` only if they leave no
      gap. */
  lemma {:induction false} CountedIsCovered(ps: seq<Range>, n: nat)
    requires Sorted(ps) && Within(ps, n)
    ensures Held(ps) <= n
    ensures Held(ps) == n <==> Contiguous(ps, n)
    decreases |ps|
  {
    if ps != [] {
      var k := |ps| - 1;
      assert Within(ps[..k], ps[k].s);
      CountedIsCovered(ps[..k], ps[k].s);
    }
  }

  lemma CompleteIsContiguous(d: Partial)
    requires Ok(d)
    ensures Complete(d) <==> d.total.Some? && Contiguous(d.pieces, d.total.value)
  {
    if d.total.Some? {
      CountedIsCovered(d.pieces, d.total.value);
    }
  }

  lemma {:induction false} ContiguousEnds(ps: seq<Range>, n: nat)
    requires Sorted(ps) && Contiguous(ps, n) && n > 0
    ensures ps != [] && ps[0].s == 0 && ps[|ps| - 1].e == n
    decreases |ps|
  {
    var k := |ps| - 1;
    if k > 0 {
      assert ps[k - 1].s < ps[k - 1].e <= ps[k].s;
      ContiguousEnds(ps[..k], ps[k].s);
    }
  }

  /** A completed datagram has all its bytes, and a header unless it is empty. */
  lemma CompleteIsWhole(d: Partial)
    requires Ok(d) && Complete(d)
    ensures Contiguous(d.pieces, d.total.value) && d.total.value <= |d.data|
    ensures d.header.Some? <==> d.total.value > 0
    ensures d.pieces != [] <==> d.total.value > 0
  {
    CompleteIsContiguous(d);
    if d.total.value > 0 {
      ContiguousEnds(d.pieces, d.total.value);
    }
  }

  predicate Covered(ps: seq<Range>, x: nat) {
    exists j :: 0 <= j < |ps| && ps[j].s <= x < ps[j].e
  }

  /** Contiguous is the same as every byte being in some piece. */
  lemma {:induction false} ContiguousIsCovering(ps: seq<Range>, n: nat)
    requires Sorted(ps) && Within(ps, n)
    ensures Contiguous(ps, n) <==> forall x: nat | x < n :: Covered(ps, x)
    decreases |ps|
  {
    var k := |ps| - 1;
    if ps == [] {
      assert n > 0 ==> !Covered(ps, 0);
    } else {
      assert Within(ps[..k], ps[k].s);
      ContiguousIsCovering(ps[..k], ps[k].s);
      assert forall x: nat | x < ps[k].s :: Covered(ps, x) <==> Covered(ps[..k], x);
      assert Covered(ps, n - 1) <==> ps[k].e == n;
    }
  }
}
