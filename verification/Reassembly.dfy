/** All the datagrams being reassembled, under a timeout, a count limit and a byte budget. */
module Reassembly {
  import opened Basics
  import opened Defrag
  import opened MapSums
  import opened Packet
  import Checksum

  const MAX_DATAGRAMS := 64
  const MAX_BYTES := 1048576

  datatype Key = Key(ns: nat, v6: bool, src: Bytes, dst: Bytes, id: nat, proto: byte)

  type Partials = map<Key, Partial>

  ghost function TotalCap(m: Partials): nat {
    Sum(m, Cap)
  }

  predicate AllOk(m: Partials) {
    forall k :: k in m ==> Ok(m[k])
  }

  /** What holds of the datagrams in progress between calls. */
  ghost predicate Bounded(m: Partials) {
    |m| <= MAX_DATAGRAMS && TotalCap(m) <= MAX_BYTES && AllOk(m)
  }

  // ---- one call, as a relation between the maps before and after ---------

  predicate Alive(d: Partial, now: Time) {
    now - d.started < REASSEMBLY_TIMEOUT
  }

  /** The datagrams not timed out. */
  function Unexpired(m: Partials, now: Time): Partials {
    map k | k in m && Alive(m[k], now) :: m[k]
  }

  ghost predicate IsOldest(m: Partials, keep: Key, k: Key) {
    k in m && k != keep && forall j :: j in m && j != keep ==> m[k].started <= m[j].started
  }

  /** The oldest datagram but `keep`, if there is another, is gone. */
  ghost predicate OldestGone(m: Partials, keep: Key, m': Partials) {
    if m.Keys <= {keep} then m' == m else exists k :: IsOldest(m, keep, k) && m' == m - {k}
  }

  /** A new datagram never makes one too many. */
  ghost predicate RoomMade(m: Partials, key: Key, m': Partials) {
    if key in m || |m| < MAX_DATAGRAMS then m' == m else OldestGone(m, key, m')
  }

  ghost predicate Submap(m': Partials, m: Partials) {
    m'.Keys <= m.Keys && forall k :: k in m' ==> m'[k] == m[k]
  }

  /** Datagrams other than `keep` dropped, none newer than any kept, and the last of them only
      because of the budget. */
  ghost predicate OldestDropped(m: Partials, keep: Key, m': Partials) {
    && keep in m' && Submap(m', m)
    && (forall k, j :: k in m && k !in m' && j in m' && j != keep ==> m[k].started <= m[j].started)
    && (m' != m ==> exists k :: k in m && k !in m' && TotalCap(m'[k := m[k]]) > MAX_BYTES)
  }

  /** Cut down to the budget, or to the one datagram that must stay. */
  ghost predicate Trimmed(m: Partials, keep: Key, m': Partials) {
    OldestDropped(m, keep, m') && (TotalCap(m') <= MAX_BYTES || m'.Keys == {keep})
  }

  function InProgress(m: Partials, key: Key, now: Time): Partial {
    if key in m then m[key] else Empty(now)
  }

  function Extended(m: Partials, now: Time, key: Key, p: Frag): Option<Partial>
    requires AllOk(m)
  {
    Accept(InProgress(m, key, now), p)
  }

  /** What merging `p` into the datagram in progress does to it, to the others, and yields. */
  ghost predicate Merged(m: Partials, now: Time, key: Key, p: Frag, m': Partials, r: Option<Datagram>)
    requires AllOk(m)
  {
    match Extended(m, now, key, p)
    case None => m' == m - {key} && r == None
    case Some(d) =>
      if Complete(d) then m' == m - {key} && r == Yield(d)
      else Trimmed(m[key := d], key, m') && r == None
  }

  ghost predicate Pushed(m: Partials, now: Time, key: Key, p: Frag, m': Partials, r: Option<Datagram>) {
    var live := Unexpired(m, now);
    if p.Malformed() then m' == live - {key} && r == None
    else exists room :: RoomMade(live, key, room) && AllOk(room) && Merged(room, now, key, p, m', r)
  }

  // ---- IPv4 and IPv6 packets -----------------------------------------------

  function KeyV4(ns: nat, pkt: Bytes): Key
    requires |pkt| >= 20
  {
    var zeros: Bytes := seq(12, _ => 0);
    Key(ns, false, pkt[12..16] + zeros, pkt[16..20] + zeros, Be16(pkt[4], pkt[5]), pkt[9])
  }

  /** Options are dropped from the header that is kept. */
  function FragV4(pkt: Bytes, ihl: nat): (p: Frag)
    requires 20 <= ihl <= |pkt|
    ensures p.Ok()
  {
    var offset := FragmentOffset(pkt);
    Frag(offset, MoreFragments(pkt), pkt[ihl..],
         if offset == 0 then Some(pkt[..20][0 := 0x45]) else None, pkt[1] % 4)
  }

  /** The length set, the fragment fields and the checksum cleared. */
  function Cleared(h: Bytes, total: word16): (z: Bytes)
    requires |h| == 20
    ensures |z| == 20
  {
    Put16(Put16(Put16(h, 2, total), 6, 0), 10, 0)
  }

  /** The checksum put in, and the payload behind. */
  function Finished(z: Bytes, payload: Bytes): Bytes
    requires |z| == 20
  {
    Put16(z, 10, Checksum.Sum16(z)) + payload
  }

  /** The reassembled packet; `None` if it would be longer than any IPv4 packet. */
  function RebuiltV4(dg: Datagram): Option<Bytes>
    requires |dg.header| == 20
  {
    var total := 20 + |dg.payload|;
    if total > MAX_PAYLOAD then None else
      var h := if dg.ecn.Some? then dg.header[1 := dg.header[1] / 4 * 4 + dg.ecn.value % 4] else dg.header;
      Some(Finished(Cleared(h, total), dg.payload))
  }

  predicate GivesV4(dg: Option<Datagram>, r: Option<Bytes>) {
    match dg
    case None => r == None
    case Some(g) => |g.header| == 20 && r == RebuiltV4(g)
  }

  function FragmentHeader(pkt: Bytes, at: nat): Bytes
    requires at + 8 <= |pkt|
  {
    pkt[at..at + 8]
  }

  function KeyV6(ns: nat, pkt: Bytes, fh: Bytes): Key
    requires |pkt| >= 40 && |fh| == 8
  {
    Key(ns, true, pkt[8..24], pkt[24..40], Be16(fh[4], fh[5]) * 65536 + Be16(fh[6], fh[7]), 0)
  }

  function FragV6(pkt: Bytes, at: nat): (p: Frag)
    requires 40 <= at && at + 8 <= |pkt|
    ensures p.Ok()
  {
    var fh := FragmentHeader(pkt, at);
    var flags := Be16(fh[2], fh[3]);
    var offset := flags - flags % 8;
    Frag(offset, flags % 2 == 1, pkt[at + 8..],
         if offset == 0 then Some(pkt[..40][6 := fh[0]]) else None, Ecn(pkt))
  }

  function RebuiltV6(dg: Datagram): Bytes
    requires |dg.header| == 40 && |dg.payload| <= MAX_PAYLOAD
  {
    var h := if dg.ecn.Some? then WithEcn(dg.header, dg.ecn.value) else dg.header;
    Put16(h, 4, |dg.payload|) + dg.payload
  }

  predicate GivesV6(dg: Option<Datagram>, r: Option<Bytes>) {
    match dg
    case None => r == None
    case Some(g) => |g.header| == 40 && |g.payload| <= MAX_PAYLOAD && r == Some(RebuiltV6(g))
  }

  /** A kept header is a bare IPv4 or IPv6 one, as its key says. */
  predicate Sized(key: Key, header: Option<Bytes>) {
    header.Some? ==> |header.value| == if key.v6 then 40 else 20
  }

  ghost predicate AllSized(m: Partials) {
    forall k :: k in m ==> Sized(k, m[k].header)
  }

  lemma MergedSized(m: Partials, now: Time, key: Key, p: Frag, m': Partials, r: Option<Datagram>)
    requires AllOk(m) && Merged(m, now, key, p, m', r) && AllSized(m) && p.Ok() && !p.Malformed()
    requires Sized(key, p.header)
    ensures AllSized(m')
    ensures r.Some? ==> Sized(key, Some(r.value.header)) && |r.value.payload| <= MAX_PAYLOAD
  {
    if Extended(m, now, key, p).Some? {
      ExtendedSized(m, now, key, p);
    }
  }

  lemma ExtendedSized(m: Partials, now: Time, key: Key, p: Frag)
    requires AllOk(m) && Extended(m, now, key, p).Some?
    requires AllSized(m) && p.Ok() && !p.Malformed() && Sized(key, p.header)
    ensures var d := Extended(m, now, key, p).value;
            Sized(key, d.header) && (d.total.Some? ==> d.total.value <= MAX_PAYLOAD)
  {
    AcceptOk(InProgress(m, key, now), p);
    AcceptHeader(InProgress(m, key, now), p, Extended(m, now, key, p).value);
  }

  lemma AcceptHeader(d: Partial, p: Frag, d': Partial)
    requires Ok(d) && Accept(d, p) == Some(d')
    ensures d'.header == d.header || d'.header == p.header
  {
  }

  lemma PushedSized(m: Partials, now: Time, key: Key, p: Frag, m': Partials, r: Option<Datagram>)
    requires Pushed(m, now, key, p, m', r) && AllSized(m) && p.Ok() && Sized(key, p.header)
    ensures AllSized(m')
    ensures r.Some? ==> Sized(key, Some(r.value.header)) && |r.value.payload| <= MAX_PAYLOAD
  {
    if !p.Malformed() {
      var room :| RoomMade(Unexpired(m, now), key, room) && AllOk(room) && Merged(room, now, key, p, m', r);
      RoomSized(Unexpired(m, now), key, room);
      MergedSized(room, now, key, p, m', r);
    }
  }

  lemma RoomSized(m: Partials, key: Key, room: Partials)
    requires AllSized(m) && RoomMade(m, key, room)
    ensures AllSized(room)
  {
  }

  // ---- the reassembler -----------------------------------------------------

  class Reassembler {
    var partial: Partials
    /** Sum of the capacities of the buffers in `partial`. */
    var bytes: nat

    ghost predicate Counted()
      reads this
    {
      bytes == TotalCap(partial)
    }

    ghost predicate Valid()
      reads this
    {
      Counted() && Bounded(partial) && AllSized(partial)
    }

    constructor ()
      ensures Valid() && partial == map[]
    {
      partial, bytes := map[], 0;
    }

    method Push(now: Time, key: Key, p: Frag) returns (r: Option<Datagram>)
      requires Valid() && p.Ok() && Sized(key, p.header)
      modifies this
      ensures Valid()
      ensures Pushed(old(partial), now, key, p, partial, r)
      ensures r.Some? ==> Sized(key, Some(r.value.header)) && |r.value.payload| <= MAX_PAYLOAD
    {
      DropExpired(now);
      SubmapBounded(partial, old(partial));
      if p.Malformed() {
        SubmapBounded(partial - {key}, partial);
        Discard(key);
        return None;
      }
      ghost var live := partial;
      MakeRoom(key);
      RoomBounded(live, key, partial);
      r := MergeFragment(now, key, p);
      PushedSized(old(partial), now, key, p, partial, r);
    }

    /** An IPv4 fragment trimmed to its total length, its header `ihl` bytes long. */
    method PushV4(now: Time, ns: nat, pkt: Bytes, ihl: nat) returns (r: Option<Bytes>)
      requires Valid() && 20 <= ihl <= |pkt|
      modifies this
      ensures Valid()
      ensures exists dg :: && Pushed(old(partial), now, KeyV4(ns, pkt), FragV4(pkt, ihl), partial, dg)
                           && GivesV4(dg, r)
    {
      var dg := Push(now, KeyV4(ns, pkt), FragV4(pkt, ihl));
      r := if dg.None? then None else RebuiltV4(dg.value);
    }

    /** An IPv6 packet trimmed to its payload length, its fragment header at `at`. */
    method PushV6(now: Time, ns: nat, pkt: Bytes, at: nat) returns (r: Option<Bytes>)
      requires Valid() && 40 <= at
      modifies this
      ensures Valid()
      ensures |pkt| < at + 8 ==> r == None && partial == old(partial)
      ensures |pkt| >= at + 8 ==>
                exists dg :: && Pushed(old(partial), now, KeyV6(ns, pkt, FragmentHeader(pkt, at)), FragV6(pkt, at), partial, dg)
                             && GivesV6(dg, r)
    {
      if |pkt| < at + 8 {
        return None;
      }
      var dg := Push(now, KeyV6(ns, pkt, FragmentHeader(pkt, at)), FragV6(pkt, at));
      r := if dg.None? then None else Some(RebuiltV6(dg.value));
    }

    method MergeFragment(now: Time, key: Key, p: Frag) returns (r: Option<Datagram>)
      requires Counted() && Bounded(partial) && p.Ok() && !p.Malformed()
      requires key in partial || |partial| < MAX_DATAGRAMS
      modifies this
      ensures Counted() && Bounded(partial)
      ensures Merged(old(partial), now, key, p, partial, r)
    {
      var accepted := Extended(partial, now, key, p);
      SubmapBounded(partial - {key}, partial);
      if accepted.None? {
        Discard(key);
        return None;
      }
      if Complete(accepted.value) {
        Discard(key);
        return Yield(accepted.value);
      }
      ExtendedBounded(partial, now, key, p);
      Store(key, accepted.value);
      ghost var all := partial;
      Trim(key);
      TrimmedBounded(all, key, partial);
      return None;
    }

    method Store(key: Key, d: Partial)
      requires Counted()
      modifies this
      ensures Counted() && partial == old(partial)[key := d]
    {
      SumUpdate(partial, Cap, key, d);
      bytes := bytes + d.cap - (if key in partial then partial[key].cap else 0);
      partial := partial[key := d];
    }

    method DropExpired(now: Time)
      requires Counted()
      modifies this
      ensures Counted() && partial == Unexpired(old(partial), now)
    {
      var all := partial;
      var todo := all.Keys;
      while todo != {}
        invariant todo <= all.Keys && Counted()
        invariant partial == map k | k in all && (k in todo || Alive(all[k], now)) :: all[k]
        decreases |todo|
      {
        var k :| k in todo;
        if !Alive(all[k], now) {
          Discard(k);
        }
        todo := todo - {k};
      }
    }

    method Discard(key: Key)
      requires Counted()
      modifies this
      ensures Counted() && partial == old(partial) - {key}
    {
      SumRemove(partial, Cap, key);
      if key in partial {
        bytes := bytes - partial[key].cap;
      }
      partial := partial - {key};
    }

    method MakeRoom(key: Key)
      requires Counted()
      modifies this
      ensures Counted() && RoomMade(old(partial), key, partial)
    {
      if key !in partial && |partial| >= MAX_DATAGRAMS {
        var _ := EvictOldest(key);
      }
    }

    /** Drops the oldest datagram other than `keep`, if there is one. */
    method EvictOldest(keep: Key) returns (oldest: Option<Key>)
      requires Counted()
      modifies this
      ensures Counted()
      ensures oldest.None? ==> old(partial).Keys <= {keep} && partial == old(partial)
      ensures oldest.Some? ==> IsOldest(old(partial), keep, oldest.value)
      ensures oldest.Some? ==> partial == old(partial) - {oldest.value} && |partial| < |old(partial)|
    {
      var todo := partial.Keys - {keep};
      if todo == {} {
        return None;
      }
      var k :| k in todo;
      todo := todo - {k};
      while todo != {}
        invariant todo <= partial.Keys - {keep} && k in partial && k != keep
        invariant forall j :: j in partial && j != keep && j !in todo ==> partial[k].started <= partial[j].started
        decreases |todo|
      {
        var j :| j in todo;
        if partial[j].started < partial[k].started {
          k := j;
        }
        todo := todo - {j};
      }
      Discard(k);
      return Some(k);
    }

    /** Over budget, the oldest go; the datagram just added never has to. */
    method Trim(key: Key)
      requires Counted() && key in partial && partial[key].cap <= MAX_PAYLOAD
      modifies this
      ensures Counted() && Trimmed(old(partial), key, partial) && bytes <= MAX_BYTES
    {
      ghost var all := partial;
      var more := true;
      while bytes > MAX_BYTES && more
        invariant Counted() && OldestDropped(all, key, partial)
        invariant !more ==> partial.Keys <= {key}
        decreases |partial|, more
      {
        ghost var before := partial;
        var oldest := EvictOldest(key);
        if oldest.Some? {
          DropOneMore(all, key, before, oldest.value);
        }
        more := oldest.Some?;
      }
      if bytes > MAX_BYTES {
        OneIsWithinBudget(partial, key);
        assert false;
      }
    }
  }

  lemma DropOneMore(m: Partials, keep: Key, m': Partials, k: Key)
    requires OldestDropped(m, keep, m') && IsOldest(m', keep, k) && TotalCap(m') > MAX_BYTES
    ensures OldestDropped(m, keep, m' - {k})
  {
    assert (m' - {k})[k := m[k]] == m';
  }

  lemma OneIsWithinBudget(m: Partials, k: Key)
    requires m.Keys == {k}
    ensures TotalCap(m) == m[k].cap
  {
    SumPick(m, Cap, k);
    assert m - {k} == map[];
  }

  lemma SubmapBounded(m': Partials, m: Partials)
    requires Submap(m', m)
    ensures TotalCap(m') <= TotalCap(m) && |m'| <= |m|
  {
    SumSubmap(m', m, Cap);
    SubsetSize(m'.Keys, m.Keys);
  }

  lemma RoomBounded(m: Partials, key: Key, m': Partials)
    requires Bounded(m) && RoomMade(m, key, m')
    ensures Bounded(m') && (key in m' || |m'| < MAX_DATAGRAMS)
  {
    if m' != m {
      SubmapBounded(m', m);
    }
  }

  lemma ExtendedBounded(m: Partials, now: Time, key: Key, p: Frag)
    requires Bounded(m) && p.Ok() && !p.Malformed() && (key in m || |m| < MAX_DATAGRAMS)
    requires Extended(m, now, key, p).Some?
    ensures var d := Extended(m, now, key, p).value;
            d.cap <= MAX_PAYLOAD && |m[key := d]| <= MAX_DATAGRAMS && AllOk(m[key := d])
  {
    AcceptOk(InProgress(m, key, now), p);
  }

  lemma TrimmedBounded(m: Partials, key: Key, m': Partials)
    requires |m| <= MAX_DATAGRAMS && AllOk(m) && Trimmed(m, key, m')
    ensures Bounded(m')
  {
    SubmapBounded(m', m);
    if m'.Keys == {key} {
      OneIsWithinBudget(m', key);
    }
  }
}
