/** Packets awaiting address resolution, and the timing of the solicitations (section 7.2.2 of
    RFC 4861, section 2.3.2.1 of RFC 1122). */
module PendingQueues {
  import opened Basics
  import opened MapSums
  import Neighbours

  type Addr = Neighbours.Addr

  const RETRANS_TIMER: Time := Neighbours.RETRANS_TIMER
  const MAX_MULTICAST_SOLICIT := 3
  const MAX_PKTS := 16
  const MAX_TARGETS := 256
  const MAX_BYTES := 1048576

  function Size(packets: seq<Bytes>): nat {
    if packets == [] then 0 else |packets[0]| + Size(packets[1..])
  }

  lemma {:induction false} SizeAppend(packets: seq<Bytes>, p: Bytes)
    ensures Size(packets + [p]) == Size(packets) + |p|
    decreases |packets|
  {
    if packets == [] {
      assert packets + [p] == [p];
    } else {
      SizeAppend(packets[1..], p);
      assert (packets + [p])[1..] == packets[1..] + [p];
    }
  }

  datatype Queue = Queue(packets: seq<Bytes>, sent: nat, next: Time) {
    /** Run its course, and only waiting for the failure to be reported. */
    predicate Failed(now: Time) {
      sent >= MAX_MULTICAST_SOLICIT && next <= now
    }

    predicate Ok() {
      1 <= |packets| <= MAX_PKTS && 1 <= sent <= MAX_MULTICAST_SOLICIT
    }
  }

  function QueueSize(q: Queue): nat {
    Size(q.packets)
  }

  type Queues = map<Addr, Queue>

  ghost function Total(m: Queues): nat {
    Sum(m, QueueSize)
  }

  function Own(m: Queues, ip: Addr): seq<Bytes> {
    if ip in m then m[ip].packets else []
  }

  /** What holds between calls. */
  ghost predicate Bounded(m: Queues) {
    |m| <= MAX_TARGETS && Total(m) <= MAX_BYTES && forall k :: k in m ==> m[k].Ok()
  }

  // ---- what queueing a packet does ---------------------------------------

  predicate NoneFailed(m: Queues, now: Time) {
    forall k :: k in m ==> !m[k].Failed(now)
  }

  /** No room: too big for what its own queue, or for the pinned router everything, could free; or
      one target too many, with none already failed. */
  ghost predicate Refused(m: Queues, pinned: bool, ip: Addr, pkt: Bytes, now: Time) {
    || |pkt| > MAX_BYTES
    || (!pinned && |pkt| > MAX_BYTES - (Total(m) - Size(Own(m, ip))))
    || (!pinned && ip !in m && |m| >= MAX_TARGETS && NoneFailed(m, now))
  }

  /** No resolution of `ip` is under way: this packet starts one. */
  predicate Starts(m: Queues, ip: Addr, now: Time) {
    ip !in m || m[ip].Failed(now)
  }

  /** The other queues, the failed ones dropped if a new target needs the room. */
  function Others(m: Queues, ip: Addr, now: Time): Queues {
    if ip !in m && |m| >= MAX_TARGETS then map k | k in m && !m[k].Failed(now) :: m[k]
    else m - {ip}
  }

  predicate IsSuffix(s: seq<Bytes>, t: seq<Bytes>) {
    |s| <= |t| && t[|t| - |s|..] == s
  }

  /** A queue as it was but for its oldest packets. */
  predicate Remains(m: Queues, k: Addr, q: Queue) {
    k in m && q.sent == m[k].sent && q.next == m[k].next && IsSuffix(q.packets, m[k].packets)
  }

  /** Queues dropped, or cut down to their newest packets; nothing else changed. */
  ghost predicate Shed(m: Queues, m': Queues) {
    forall k {:trigger Remains(m, k, m'[k])} :: k in m' ==> Remains(m, k, m'[k])
  }

  /** The oldest packet of `k`'s queue goes last, when there was still `b`. */
  ghost predicate LastShed(m: Queues, b: Queues, k: Addr, m': Queues) {
    Shed(m, b) && k in b && b[k].packets != [] && m' == Dropped(b, k)
  }

  /** Packets given up, the oldest of each queue first, and none once the rest took at most `free`
      bytes. */
  ghost predicate ShedFor(m: Queues, free: int, m': Queues) {
    m' == m || exists b, k :: LastShed(m, b, k, m') && Total(b) > free
  }

  /** Nearest to failing anyway. */
  predicate FailsFirst(a: Queue, b: Queue) {
    a.sent > b.sent || (a.sent == b.sent && a.next <= b.next)
  }

  /** One target too many: exactly one of those nearest to failing is given up. */
  ghost predicate Vacated(m: Queues, m': Queues) {
    if |m| >= MAX_TARGETS then exists v :: IsNearest(m, v) && m' == m - {v} else m' == m
  }

  ghost predicate IsNearest(m: Queues, v: Addr) {
    v in m && forall k {:trigger FailsFirst(m[v], m[k])} :: k in m ==> FailsFirst(m[v], m[k])
  }

  /** The newest packets of `own` that leave room, in number and in bytes, for one of `len` bytes,
      and no fewer than that. */
  predicate Kept(own: seq<Bytes>, kept: seq<Bytes>, free: int, len: nat) {
    && IsSuffix(kept, own) && |kept| < MAX_PKTS && Size(kept) + len <= free
    && (|kept| < |own| ==>
          var more := own[|own| - |kept| - 1..];
          |more| >= MAX_PKTS || Size(more) + len > free)
  }

  // ---- what the timers do ------------------------------------------------

  datatype Event = Resolicit(target: Addr) | Unreachable(target: Addr, packets: seq<Bytes>)

  predicate Resolicits(q: Queue, now: Time) {
    q.next <= now && q.sent < MAX_MULTICAST_SOLICIT
  }

  function Resent(q: Queue, now: Time): Queue {
    if Resolicits(q, now) then q.(sent := q.sent + 1, next := now + RETRANS_TIMER) else q
  }

  function AfterPoll(m: Queues, now: Time): Queues {
    map k | k in m && !m[k].Failed(now) :: Resent(m[k], now)
  }

  /** What the timers report for one target. */
  function Reported(k: Addr, q: Queue, now: Time): Option<Event> {
    if q.Failed(now) then Some(Unreachable(k, q.packets))
    else if Resolicits(q, now) then Some(Resolicit(k))
    else None
  }

  // ---- what queueing a packet does, given room ---------------------------

  function Newest(q: Queue): Option<Bytes> {
    if q.packets == [] then None else Some(q.packets[|q.packets| - 1])
  }

  function Older(q: Queue): seq<Bytes> {
    if q.packets == [] then [] else q.packets[..|q.packets| - 1]
  }

  /** What `ip`'s queue holds that is not given up. */
  function OwnBefore(m: Queues, ip: Addr, now: Time): seq<Bytes> {
    if Starts(m, ip, now) then [] else m[ip].packets
  }

  /** One fewer if the queue is full. */
  function Fewer(own: seq<Bytes>): seq<Bytes> {
    if |own| >= MAX_PKTS then own[1..] else own
  }

  /** Others are as they were but for failed ones making way for a new target; to the pinned router
      they lose at most one target and then packets, oldest first, no more than its queue needs. */
  ghost predicate RestOk(m: Queues, pinned: bool, ip: Addr, len: nat, now: Time, rest: Queues) {
    var others := Others(m, ip, now);
    if pinned then
      exists room :: && Vacated(others, room)
                     && ShedFor(room, MAX_BYTES - len - Size(Fewer(OwnBefore(m, ip, now))), rest)
    else rest == others
  }

  /** A queue gives up only its oldest packets and only what is needed; the pinned router's gives up
      more than one for a full queue only when there are no others. */
  ghost predicate OwnOk(m: Queues, pinned: bool, ip: Addr, len: nat, now: Time, kept: seq<Bytes>, rest: Queues) {
    var own := OwnBefore(m, ip, now);
    && Kept(own, kept, MAX_BYTES - Total(rest), len)
    && (pinned && |kept| < |Fewer(own)| ==> rest.Keys == {})
  }

  /** `pkt` is queued behind what is kept of its own queue. */
  ghost predicate Admitted(m: Queues, pinned: bool, ip: Addr, pkt: Bytes, now: Time, m': Queues, solicit: bool) {
    ip in m' && Joined(m, pinned, ip, pkt, now, m' - {ip}, m'[ip], solicit)
  }

  ghost predicate Joined(m: Queues, pinned: bool, ip: Addr, pkt: Bytes, now: Time, rest: Queues, q: Queue, solicit: bool) {
    && Newest(q) == Some(pkt) && Timed(m, ip, now, q, solicit) && Holding(rest)
    && RestOk(m, pinned, ip, |pkt|, now, rest) && OwnOk(m, pinned, ip, |pkt|, now, Older(q), rest)
  }

  /** The first solicitation goes out with the first packet; a later one if it is due. */
  predicate Timed(m: Queues, ip: Addr, now: Time, q: Queue, solicit: bool) {
    if Starts(m, ip, now) then q.sent == 1 && q.next == now + RETRANS_TIMER && solicit
    else if m[ip].next <= now then q.sent == m[ip].sent + 1 && q.next == now + RETRANS_TIMER && solicit
    else q.sent == m[ip].sent && q.next == m[ip].next && !solicit
  }

  ghost predicate Enqueued(m: Queues, pinned: bool, ip: Addr, pkt: Bytes, now: Time, m': Queues, solicit: bool) {
    if Refused(m, pinned, ip, pkt, now) then m' == m && !solicit
    else Admitted(m, pinned, ip, pkt, now, m', solicit)
  }

  /** The oldest packet of a queue dropped. */
  function Shortened(m: Queues, k: Addr): Queues
    requires k in m && m[k].packets != []
  {
    m[k := m[k].(packets := m[k].packets[1..])]
  }

  /** ... and the queue with it if that was its last. */
  function Dropped(m: Queues, k: Addr): Queues
    requires k in m && m[k].packets != []
  {
    if |m[k].packets| == 1 then m - {k} else Shortened(m, k)
  }

  lemma DroppedShed(m: Queues, k: Addr)
    requires k in m && m[k].packets != []
    ensures Shed(m, Dropped(m, k)) && Dropped(m, k).Keys <= m.Keys
  {
  }

  lemma SizeTail(packets: seq<Bytes>)
    requires packets != []
    ensures Size(packets) == |packets[0]| + Size(packets[1..])
    ensures |packets| == 1 ==> Size(packets[1..]) == 0
  {
  }

  lemma ShortenedTotal(m: Queues, k: Addr)
    requires k in m && m[k].packets != []
    ensures Total(Shortened(m, k)) == Total(m) - |m[k].packets[0]|
  {
    SumUpdate(m, QueueSize, k, m[k].(packets := m[k].packets[1..]));
  }

  lemma DroppedTotal(m: Queues, k: Addr)
    requires k in m && m[k].packets != []
    ensures Total(Dropped(m, k)) == Total(m) - |m[k].packets[0]|
  {
    SizeTail(m[k].packets);
    if |m[k].packets| == 1 {
      SumRemove(m, QueueSize, k);
    } else {
      ShortenedTotal(m, k);
    }
  }

  /** Dropping a packet leaves one fewer, even if it is empty. */
  lemma FewerPackets(m: Queues, k: Addr)
    requires k in m && m[k].packets != []
    ensures Sum(Shortened(m, k), QueueLength) < Sum(m, QueueLength)
    ensures Sum(Dropped(m, k), QueueLength) < Sum(m, QueueLength)
  {
    SumUpdate(m, QueueLength, k, m[k].(packets := m[k].packets[1..]));
    SumRemove(m, QueueLength, k);
  }

  lemma ShedAgain(m: Queues, m1: Queues, m2: Queues)
    requires Shed(m, m1) && Shed(m1, m2)
    ensures Shed(m, m2)
  {
    forall k | k in m2 ensures Remains(m, k, m2[k]) {
      assert Remains(m1, k, m2[k]) && Remains(m, k, m1[k]);
      SuffixOfSuffix(m2[k].packets, m1[k].packets, m[k].packets);
    }
  }

  lemma SuffixOfSuffix(a: seq<Bytes>, b: seq<Bytes>, c: seq<Bytes>)
    requires IsSuffix(a, b) && IsSuffix(b, c)
    ensures IsSuffix(a, c)
  {
    var i, j := |c| - |b|, |b| - |a|;
    assert c[i..] == c[i..|c|];
    SliceOfSlice(c, i, |c|, j, |b|);
  }

  class Pending {
    var queues: Queues
    var bytes: nat
    var pinned: Option<Addr>

    ghost predicate Counted()
      reads this
    {
      bytes == Total(queues)
    }

    ghost predicate Valid()
      reads this
    {
      Counted() && Bounded(queues)
    }

    constructor ()
      ensures Valid() && queues == map[] && pinned == None
    {
      queues, bytes, pinned := map[], 0, None;
    }

    method Pin(ip: Option<Addr>)
      modifies `pinned
      ensures pinned == ip
    {
      pinned := ip;
    }

    method Remove(ip: Addr) returns (q: Option<Queue>)
      requires Counted()
      modifies `queues, `bytes
      ensures Counted() && queues == old(queues) - {ip}
      ensures q == if ip in old(queues) then Some(old(queues)[ip]) else None
    {
      SumRemove(queues, QueueSize, ip);
      if ip !in queues {
        assert queues - {ip} == queues;
        return None;
      }
      q := Some(queues[ip]);
      bytes := bytes - QueueSize(queues[ip]);
      queues := queues - {ip};
    }

    /** Drops the oldest packet of some queue other than `keep`'s, and the queue with it if that was
        its last. */
    method ShedOther(keep: Addr) returns (shed: Option<Addr>)
      requires Counted()
      modifies `queues, `bytes
      ensures Counted()
      ensures shed.None? ==> queues == old(queues) && forall k :: k in queues && k != keep ==> queues[k].packets == []
      ensures shed.Some? ==> && shed.value in old(queues) && shed.value != keep
                             && old(queues)[shed.value].packets != [] && queues == Dropped(old(queues), shed.value)
    {
      var todo := queues.Keys - {keep};
      while todo != {}
        invariant todo <= queues.Keys - {keep} && queues == old(queues) && bytes == old(bytes)
        invariant forall k :: k in queues && k != keep && k !in todo ==> queues[k].packets == []
        decreases |todo|
      {
        var k :| k in todo;
        var q := queues[k];
        if q.packets != [] {
          DroppedTotal(queues, k);
          bytes := bytes - |q.packets[0]|;
          queues := Dropped(queues, k);
          return Some(k);
        }
        todo := todo - {k};
      }
      return None;
    }

    /** Queues a packet; true if a solicitation is to be sent now. */
    method EnqueueAt(ip: Addr, pkt: Bytes, now: Time) returns (solicit: bool)
      requires Valid()
      modifies `queues, `bytes
      ensures Valid() && Enqueued(old(queues), pinned == Some(ip), ip, pkt, now, queues, solicit)
      ensures queues.Keys <= old(queues).Keys + {ip}
    {
      if |pkt| > MAX_BYTES {
        return false;
      }
      var isPinned := pinned == Some(ip);
      var own := Size(Own(queues, ip));
      OwnIsPart(queues, ip);
      var room := if isPinned then MAX_BYTES else MAX_BYTES - (bytes - own);
      if |pkt| > room {
        return false;
      }
      solicit := Join(ip, pkt, now, isPinned);
    }

    /** A packet that fits, unless there are too many targets. */
    method Join(ip: Addr, pkt: Bytes, now: Time, isPinned: bool) returns (solicit: bool)
      requires Valid() && |pkt| <= MAX_BYTES && (!isPinned ==> |pkt| + Total(queues - {ip}) <= MAX_BYTES)
      modifies `queues, `bytes
      ensures Valid() && queues.Keys <= old(queues).Keys + {ip}
      ensures if !isPinned && ip !in old(queues) && |old(queues)| >= MAX_TARGETS && NoneFailed(old(queues), now)
              then queues == old(queues) && !solicit
              else Admitted(old(queues), isPinned, ip, pkt, now, queues, solicit)
    {
      ghost var m := queues;
      var starts := Starts(queues, ip, now);
      var taken := Admit(ip, |pkt|, now, isPinned);
      if !taken {
        return false;
      }
      ghost var m3 := queues;
      solicit := Append(ip, pkt, now, starts);
      AppendAdmits(m, isPinned, ip, pkt, now, m3, queues);
      AdmittedBounded(m, isPinned, ip, pkt, now, queues, solicit);
    }

    /** Room for one more packet of `len` bytes in a queue for `ip`. */
    method Admit(ip: Addr, len: nat, now: Time, isPinned: bool) returns (taken: bool)
      requires Valid() && len <= MAX_BYTES && (!isPinned ==> len + Total(queues - {ip}) <= MAX_BYTES)
      modifies `queues, `bytes
      ensures !taken <==> !isPinned && ip !in old(queues) && |old(queues)| >= MAX_TARGETS && NoneFailed(old(queues), now)
      ensures !taken ==> queues == old(queues) && bytes == old(bytes)
      ensures taken ==> Counted() && bytes + len <= MAX_BYTES && ip in queues
      ensures taken ==> HasRoom(old(queues), isPinned, ip, len, now, queues - {ip}, queues[ip])
    {
      if Starts(queues, ip, now) {
        taken := Restart(ip, now, isPinned);
        if !taken {
          return;
        }
      }
      ReadyNow(old(queues), isPinned, ip, now, queues);
      TakeRoom(ip, len, now, isPinned, old(queues));
      return true;
    }

    /** Room in a queue that is ready: in number, then in bytes. */
    method TakeRoom(ip: Addr, len: nat, now: Time, isPinned: bool, ghost m: Queues)
      requires Counted() && len <= MAX_BYTES && Bounded(m) && ip in queues
      requires !isPinned ==> len + Total(m - {ip}) <= MAX_BYTES
      requires Ready(m, isPinned, ip, now, queues - {ip}, queues[ip])
      modifies `queues, `bytes
      ensures Counted() && bytes + len <= MAX_BYTES && ip in queues
      ensures HasRoom(m, isPinned, ip, len, now, queues - {ip}, queues[ip])
    {
      ReadyRest(m, isPinned, ip, now, queues - {ip}, queues[ip]);
      ghost var rest, q := queues - {ip}, queues[ip];
      CutToFit(ip, len, isPinned);
      RoomMade(m, isPinned, ip, len, now, rest, q, queues - {ip}, queues[ip]);
    }

    method CutToFit(ip: Addr, len: nat, isPinned: bool)
      requires Counted() && ip in queues && Holding(queues - {ip}) && len <= MAX_BYTES
      requires !isPinned ==> len + Total(queues - {ip}) <= MAX_BYTES
      modifies `queues, `bytes
      ensures Counted() && bytes + len <= MAX_BYTES && ip in queues
      ensures Total(queues - {ip}) + Size(queues[ip].packets) + len <= MAX_BYTES
      ensures CutTo(old(queues) - {ip}, old(queues)[ip].(packets := Fewer(old(queues)[ip].packets)), len, isPinned,
                    queues - {ip}, queues[ip])
    {
      LeaveOneFree(ip);
      MakeBytes(ip, len, isPinned);
      OwnIsRest(queues, ip);
    }

    /** One packet fewer if the queue is full. */
    method LeaveOneFree(ip: Addr)
      requires Counted() && ip in queues
      modifies `queues, `bytes
      ensures Counted() && ip in queues && queues.Keys == old(queues).Keys && queues - {ip} == old(queues) - {ip}
      ensures queues[ip] == old(queues)[ip].(packets := Fewer(old(queues)[ip].packets))
    {
      if |queues[ip].packets| >= MAX_PKTS {
        DropOldest(ip);
      }
    }

    /** What is due: targets to solicit again, and the packets of those that failed. */
    method Poll(now: Time) returns (due: seq<Event>)
      requires Valid()
      modifies `queues, `bytes
      ensures Valid() && queues == AfterPoll(old(queues), now) && Reports(old(queues), now, {}, due)
    {
      var all := queues;
      var todo := all.Keys;
      due := [];
      while todo != {}
        invariant todo <= all.Keys && Counted() && Visited(all, now, todo, queues) && Reports(all, now, todo, due)
        decreases |todo|
      {
        var k :| k in todo;
        var q := all[k];
        VisitOne(all, now, todo, queues, k);
        ReportOne(all, now, todo, due, k);
        if q.next <= now {
          if q.sent < MAX_MULTICAST_SOLICIT {
            Store(k, q.(sent := q.sent + 1, next := now + RETRANS_TIMER));
            due := due + [Resolicit(k)];
          } else {
            var gone := Remove(k);
            due := due + [Unreachable(k, q.packets)];
          }
        }
        todo := todo - {k};
      }
      VisitedAll(all, now, queues);
      PollBounded(all, now);
    }

    /** Every packet waiting for `ip`, taken off the queue. */
    method Drain(ip: Addr) returns (packets: seq<Bytes>)
      requires Valid()
      modifies `queues, `bytes
      ensures Valid() && queues == old(queues) - {ip} && packets == Own(old(queues), ip)
    {
      SumSubmap(queues - {ip}, queues, QueueSize);
      SubsetSize((queues - {ip}).Keys, queues.Keys);
      var q := Remove(ip);
      packets := if q.None? then [] else q.value.packets;
    }

    /** A resolution of `ip` is under way. */
    predicate ContainsAt(ip: Addr, now: Time)
      reads this
    {
      ip in queues && !queues[ip].Failed(now)
    }

    method Clear()
      modifies `queues, `bytes
      ensures Valid() && queues == map[]
    {
      queues, bytes := map[], 0;
      SumEmpty(queues, QueueSize);
    }

    /** A failed resolution that nobody reported is forgotten, and a new one started. */
    method Restart(ip: Addr, now: Time, isPinned: bool) returns (taken: bool)
      requires Counted() && |queues| <= MAX_TARGETS && Starts(queues, ip, now)
      modifies `queues, `bytes
      ensures Counted() && |queues| <= MAX_TARGETS
      ensures !taken <==> !isPinned && ip !in old(queues) && |old(queues)| >= MAX_TARGETS && NoneFailed(old(queues), now)
      ensures !taken ==> queues == old(queues) && bytes == old(bytes)
      ensures taken ==> Opened(Others(old(queues), ip, now), ip, now, isPinned, queues)
    {
      OthersWithout(queues, ip, now);
      var _ := Remove(ip);
      taken := OpenTarget(ip, now, isPinned);
    }

    method Append(ip: Addr, pkt: Bytes, now: Time, starts: bool) returns (solicit: bool)
      requires Counted() && ip in queues
      modifies `queues, `bytes
      ensures Counted() && queues == old(queues)[ip := Appended(old(queues)[ip], pkt, now, starts)]
      ensures bytes == old(bytes) + |pkt|
      ensures solicit <==> starts || old(queues)[ip].next <= now
    {
      var q := queues[ip];
      SizeAppend(q.packets, pkt);
      Store(ip, Appended(q, pkt, now, starts));
      OwnIsRest(queues, ip);
      OwnIsRest(old(queues), ip);
      assert queues - {ip} == old(queues) - {ip};
      return starts || q.next <= now;
    }

    method PruneFailed(now: Time)
      requires Counted()
      modifies `queues, `bytes
      ensures Counted() && queues == map k | k in old(queues) && !old(queues)[k].Failed(now) :: old(queues)[k]
    {
      var all := queues;
      var todo := all.Keys;
      while todo != {}
        invariant todo <= all.Keys && Counted()
        invariant queues == map k | k in all && (k in todo || !all[k].Failed(now)) :: all[k]
        decreases |todo|
      {
        var k :| k in todo;
        if all[k].Failed(now) {
          var _ := Remove(k);
        }
        todo := todo - {k};
      }
    }

    method NearestToFailing() returns (v: Addr)
      requires queues.Keys != {}
      ensures IsNearest(queues, v)
    {
      v :| v in queues.Keys;
      var todo := queues.Keys - {v};
      while todo != {}
        invariant todo <= queues.Keys && v in queues
        invariant forall k :: k in queues && k !in todo ==> FailsFirst(queues[v], queues[k])
        decreases |todo|
      {
        var k :| k in todo;
        if !FailsFirst(queues[v], queues[k]) {
          v := k;
        }
        todo := todo - {k};
      }
    }

    /** Starts resolving a target, unless there are too many. */
    method OpenTarget(ip: Addr, now: Time, isPinned: bool) returns (taken: bool)
      requires Counted() && ip !in queues && |queues| <= MAX_TARGETS
      modifies `queues, `bytes
      ensures Counted() && |queues| <= MAX_TARGETS
      ensures !taken <==> !isPinned && |old(queues)| >= MAX_TARGETS && NoneFailed(old(queues), now)
      ensures !taken ==> queues == old(queues)
      ensures taken ==> Opened(Others(old(queues), ip, now), ip, now, isPinned, queues)
    {
      if |queues| >= MAX_TARGETS {
        PruneFailed(now);
      }
      OthersSize(old(queues), ip, now);
      ghost var others := Others(old(queues), ip, now);
      assert queues == others;
      if |queues| >= MAX_TARGETS {
        if !isPinned {
          return false;
        }
        GiveUpOne();
      }
      ghost var room := queues;
      Store(ip, Queue([], 1, now + RETRANS_TIMER));
      OpenedFrom(others, ip, now, isPinned, room, queues);
      return true;
    }

    /** Gives up the target nearest to failing. */
    method GiveUpOne()
      requires Counted() && |queues| >= MAX_TARGETS
      modifies `queues, `bytes
      ensures Counted() && |queues| == |old(queues)| - 1 && Vacated(old(queues), queues)
    {
      var v := NearestToFailing();
      var _ := Remove(v);
    }

    method Store(ip: Addr, q: Queue)
      requires Counted()
      modifies `queues, `bytes
      ensures Counted() && queues == old(queues)[ip := q]
    {
      SumUpdate(queues, QueueSize, ip, q);
      bytes := bytes + QueueSize(q) - (if ip in queues then QueueSize(queues[ip]) else 0);
      queues := queues[ip := q];
    }

    method DropOldest(ip: Addr)
      requires Counted() && ip in queues && queues[ip].packets != []
      modifies `queues, `bytes
      ensures Counted() && queues == Shortened(old(queues), ip)
    {
      ShortenedTotal(queues, ip);
      bytes := bytes - |queues[ip].packets[0]|;
      queues := Shortened(queues, ip);
    }

    /** Makes room for `len` bytes: for the pinned router from the others, then from its own queue. */
    method MakeBytes(ip: Addr, len: nat, isPinned: bool)
      requires Counted() && ip in queues && Holding(queues - {ip}) && len <= MAX_BYTES
      requires !isPinned ==> len + Total(queues - {ip}) <= MAX_BYTES
      modifies `queues, `bytes
      ensures Counted() && bytes + len <= MAX_BYTES && queues.Keys <= old(queues).Keys && ip in queues
      ensures CutTo(old(queues) - {ip}, old(queues)[ip], len, isPinned, queues - {ip}, queues[ip])
    {
      ghost var rest, q := queues - {ip}, queues[ip];
      while bytes + len > MAX_BYTES
        invariant Counted() && ip in queues && queues.Keys <= old(queues).Keys
        invariant CutTo(rest, q, len, isPinned, queues - {ip}, queues[ip])
        decreases Sum(queues, QueueLength)
      {
        ghost var before := queues;
        OwnIsRest(queues, ip);
        if isPinned {
          var shed := ShedOther(ip);
          if shed.Some? {
            FewerPackets(before, shed.value);
            CutOther(rest, q, ip, len, before, shed.value, queues);
            continue;
          }
        }
        if queues[ip].packets == [] {
          assert false;
        }
        FewerPackets(queues, ip);
        DropOldest(ip);
        CutOwn(rest, q, ip, len, isPinned, before, queues);
      }
    }
  }

  /** The packet queued and, if a retransmission is due that no timer has sent, one more counted. */
  function Appended(q: Queue, pkt: Bytes, now: Time, starts: bool): Queue {
    if !starts && q.next <= now then Queue(q.packets + [pkt], q.sent + 1, now + RETRANS_TIMER)
    else q.(packets := q.packets + [pkt])
  }

  lemma OwnIsPart(m: Queues, ip: Addr)
    ensures Total(m) == Size(Own(m, ip)) + Total(m - {ip})
  {
    SumRemove(m, QueueSize, ip);
  }

  lemma OthersWithout(m: Queues, ip: Addr, now: Time)
    requires |m| <= MAX_TARGETS
    ensures Others(m - {ip}, ip, now) == Others(m, ip, now)
    ensures ip !in m ==> m - {ip} == m
    ensures ip in m ==> |m - {ip}| < MAX_TARGETS
  {
    assert ip !in m ==> m - {ip} == m;
    assert ip in m ==> |m - {ip}| < |m|;
    assert m - {ip} - {ip} == m - {ip};
  }

  /** A queue for `ip` with nothing in it yet, beside the others or, for the pinned router, those
      left once the nearest to failing is given up. */
  ghost predicate Opened(others: Queues, ip: Addr, now: Time, isPinned: bool, m': Queues) {
    && ip in m' && m'[ip] == Queue([], 1, now + RETRANS_TIMER)
    && if isPinned then Vacated(others, m' - {ip}) else m' - {ip} == others
  }

  lemma OthersSize(m: Queues, ip: Addr, now: Time)
    requires ip !in m
    ensures Others(m, ip, now).Keys <= m.Keys
    ensures |Others(m, ip, now)| <= |m|
    ensures |m| < MAX_TARGETS ==> Others(m, ip, now) == m
    ensures |m| >= MAX_TARGETS ==> (|Others(m, ip, now)| == |m| <==> NoneFailed(m, now))
    ensures |m| >= MAX_TARGETS && NoneFailed(m, now) ==> Others(m, ip, now) == m
  {
    SubsetSize(Others(m, ip, now).Keys, m.Keys);
    if |m| >= MAX_TARGETS && NoneFailed(m, now) {
      assert Others(m, ip, now) == m;
    }
  }

  lemma OpenedFrom(others: Queues, ip: Addr, now: Time, isPinned: bool, room: Queues, m': Queues)
    requires ip !in room && m' == room[ip := Queue([], 1, now + RETRANS_TIMER)]
    requires if isPinned then Vacated(others, room) else room == others
    ensures Opened(others, ip, now, isPinned, m')
  {
    assert m' - {ip} == room;
  }

  /** Packets dropped, oldest first and only while they do not fit: the others' for the pinned router, its
      own only when there are no others; for anyone else only its own. */
  ghost predicate CutTo(rest: Queues, q: Queue, len: nat, isPinned: bool, rest': Queues, q': Queue) {
    && q'.sent == q.sent && q'.next == q.next && IsSuffix(q'.packets, q.packets) && Holding(rest')
    && NeededDrops(q.packets, q'.packets, MAX_BYTES - len - Total(rest'))
    && (isPinned && |q'.packets| < |q.packets| ==> rest'.Keys == {})
    && if isPinned then ShedFor(rest, MAX_BYTES - len - Size(q.packets), rest') else rest' == rest
  }

  lemma ShedForIsShed(m: Queues, free: int, m': Queues)
    requires ShedFor(m, free, m')
    ensures Shed(m, m') && m'.Keys <= m.Keys
  {
    if m' == m {
      assert forall k :: k in m' ==> Remains(m, k, m'[k]);
    } else {
      var b, k :| LastShed(m, b, k, m') && Total(b) > free;
      DroppedShed(b, k);
      ShedAgain(m, b, m');
    }
    forall k | k in m' ensures k in m {
      assert Remains(m, k, m'[k]);
    }
  }

  lemma ShedOneMore(m: Queues, free: int, m': Queues, k: Addr)
    requires ShedFor(m, free, m') && k in m' && m'[k].packets != [] && Total(m') > free
    ensures ShedFor(m, free, Dropped(m', k))
  {
    ShedForIsShed(m, free, m');
    assert LastShed(m, m', k, Dropped(m', k));
  }

  lemma DroppedBeside(m: Queues, ip: Addr, k: Addr)
    requires ip in m && k in m && k != ip && m[k].packets != []
    ensures k in m - {ip} && (m - {ip})[k] == m[k] && Dropped(m, k) - {ip} == Dropped(m - {ip}, k)
    ensures ip in Dropped(m, k) && Dropped(m, k)[ip] == m[ip] && Dropped(m, k).Keys <= m.Keys
    ensures Holding(m - {ip}) ==> Holding(Dropped(m, k) - {ip})
  {
  }

  /** Another's packet goes: the router's own are all still there, so it was needed. */
  lemma CutOther(rest: Queues, q: Queue, ip: Addr, len: nat, m: Queues, k: Addr, m': Queues)
    requires ip in m && k in m && k != ip && m[k].packets != [] && m' == Dropped(m, k)
    requires CutTo(rest, q, len, true, m - {ip}, m[ip]) && Total(m) + len > MAX_BYTES
    requires Total(m) == Size(m[ip].packets) + Total(m - {ip})
    ensures ip in m' && m'.Keys <= m.Keys && CutTo(rest, q, len, true, m' - {ip}, m'[ip])
  {
    DroppedBeside(m, ip, k);
    assert k in (m - {ip}).Keys;
    assert m[ip].packets == q.packets;
    ShedOneMore(rest, MAX_BYTES - len - Size(q.packets), m - {ip}, k);
  }

  lemma ShortenedBeside(m: Queues, ip: Addr)
    requires ip in m && m[ip].packets != []
    ensures Shortened(m, ip).Keys == m.Keys && Shortened(m, ip) - {ip} == m - {ip}
    ensures Shortened(m, ip)[ip] == m[ip].(packets := m[ip].packets[1..])
  {
  }

  /** Its own packet goes: it was needed, and for the pinned router there are no others. */
  lemma CutOwn(rest: Queues, q: Queue, ip: Addr, len: nat, isPinned: bool, m: Queues, m': Queues)
    requires ip in m && m[ip].packets != [] && m' == Shortened(m, ip)
    requires CutTo(rest, q, len, isPinned, m - {ip}, m[ip]) && Total(m) + len > MAX_BYTES
    requires Total(m) == Size(m[ip].packets) + Total(m - {ip}) && (isPinned ==> m.Keys == {ip})
    ensures ip in m' && m'.Keys <= m.Keys && CutTo(rest, q, len, isPinned, m' - {ip}, m'[ip])
  {
    ShortenedBeside(m, ip);
    NeededStep(q.packets, m[ip].packets, MAX_BYTES - len - Total(m - {ip}));
  }

  lemma NeededStep(own: seq<Bytes>, kept: seq<Bytes>, free: int)
    requires IsSuffix(kept, own) && kept != [] && Size(kept) > free
    ensures IsSuffix(kept[1..], own) && NeededDrops(own, kept[1..], free)
  {
    assert own[|own| - |kept|..] == kept;
    assert own[|own| - |kept| + 1..] == kept[1..];
  }

  function QueueLength(q: Queue): nat {
    |q.packets|
  }

  ghost predicate Holding(m: Queues) {
    forall k :: k in m ==> m[k].packets != []
  }

  lemma OwnIsRest(m: Queues, ip: Addr)
    requires ip in m
    ensures Total(m) == Size(m[ip].packets) + Total(m - {ip})
    ensures m.Keys == {ip} ==> Total(m) == Size(m[ip].packets)
    ensures Holding(m - {ip}) && (forall k :: k in m && k != ip ==> m[k].packets == []) ==> m.Keys == {ip}
  {
    SumPick(m, QueueSize, ip);
    if m.Keys == {ip} {
      SumEmpty(m - {ip}, QueueSize);
    }
    if Holding(m - {ip}) && forall k :: k in m && k != ip ==> m[k].packets == [] {
      forall k | k in m ensures k == ip {
        assert k != ip ==> k in m - {ip};
      }
    }
  }

  /** Nothing was dropped that would have fitted. */
  predicate NeededDrops(own: seq<Bytes>, kept: seq<Bytes>, free: int) {
    |kept| < |own| ==> Size(own[|own| - |kept| - 1..]) > free
  }

  // ---- putting the steps together -----------------------------------------

  /** A queue for the packet's target, started or as it was, beside the others or those left of them. */
  ghost predicate Ready(m: Queues, isPinned: bool, ip: Addr, now: Time, rest: Queues, q: Queue) {
    && q.packets == OwnBefore(m, ip, now) && TimerKept(m, ip, now, q)
    && if isPinned then Vacated(Others(m, ip, now), rest) else rest == Others(m, ip, now)
  }

  /** The timer of the queue is that of a resolution just started, or as it was. */
  predicate TimerKept(m: Queues, ip: Addr, now: Time, q: Queue) {
    if Starts(m, ip, now) then q.sent == 1 && q.next == now + RETRANS_TIMER
    else q.sent == m[ip].sent && q.next == m[ip].next
  }

  lemma ReadyNow(m: Queues, isPinned: bool, ip: Addr, now: Time, m1: Queues)
    requires |m| <= MAX_TARGETS && ip in m1
    requires if Starts(m, ip, now) then Opened(Others(m, ip, now), ip, now, isPinned, m1) else m1 == m
    ensures Ready(m, isPinned, ip, now, m1 - {ip}, m1[ip])
  {
    if !Starts(m, ip, now) {
      assert |m - {ip}| < |m|;
    }
  }

  lemma OthersSubmap(m: Queues, ip: Addr, now: Time)
    ensures Total(Others(m, ip, now)) <= Total(m - {ip})
    ensures forall k :: k in Others(m, ip, now) ==> k != ip && k in m && Others(m, ip, now)[k] == m[k]
  {
    SumSubmap(Others(m, ip, now), m - {ip}, QueueSize);
  }

  /** What is beside the queue was there before. */
  lemma ReadyRest(m: Queues, isPinned: bool, ip: Addr, now: Time, rest: Queues, q: Queue)
    requires Bounded(m) && Ready(m, isPinned, ip, now, rest, q)
    ensures Holding(rest) && forall k :: k in rest ==> k != ip && k in m && rest[k] == m[k]
    ensures !isPinned ==> Total(rest) <= Total(m - {ip})
  {
    OthersSubmap(m, ip, now);
    forall k | k in rest ensures k != ip && k in m && rest[k] == m[k] && rest[k].packets != [] {
      assert k in Others(m, ip, now);
      assert m[k].Ok();
    }
  }

  /** As `Admitted`, before the packet is appended. */
  ghost predicate HasRoom(m: Queues, isPinned: bool, ip: Addr, len: nat, now: Time, rest: Queues, q: Queue) {
    && |q.packets| < MAX_PKTS && TimerKept(m, ip, now, q) && Holding(rest)
    && RestOk(m, isPinned, ip, len, now, rest) && OwnOk(m, isPinned, ip, len, now, q.packets, rest)
  }

  lemma RoomMade(m: Queues, isPinned: bool, ip: Addr, len: nat, now: Time, rest: Queues, q: Queue, rest': Queues, q': Queue)
    requires Bounded(m) && Ready(m, isPinned, ip, now, rest, q) && Total(rest') + Size(q'.packets) + len <= MAX_BYTES
    requires CutTo(rest, q.(packets := Fewer(q.packets)), len, isPinned, rest', q')
    ensures HasRoom(m, isPinned, ip, len, now, rest', q')
  {
    RoomOwn(m, isPinned, ip, len, now, q.packets, q'.packets, rest');
    RestMade(m, isPinned, ip, len, now, rest, Size(Fewer(q.packets)), rest');
  }

  lemma RoomOwn(m: Queues, isPinned: bool, ip: Addr, len: nat, now: Time, own: seq<Bytes>, kept: seq<Bytes>, rest': Queues)
    requires Bounded(m) && own == OwnBefore(m, ip, now) && Total(rest') + Size(kept) + len <= MAX_BYTES
    requires IsSuffix(kept, Fewer(own)) && NeededDrops(Fewer(own), kept, MAX_BYTES - len - Total(rest'))
    requires isPinned && |kept| < |Fewer(own)| ==> rest'.Keys == {}
    ensures |kept| < MAX_PKTS && OwnOk(m, isPinned, ip, len, now, kept, rest')
  {
    OwnFits(m, ip, now);
    KeptOwn(own, kept, MAX_BYTES - Total(rest'), len);
  }

  lemma RestMade(m: Queues, isPinned: bool, ip: Addr, len: nat, now: Time, rest: Queues, own: nat, rest': Queues)
    requires if isPinned then Vacated(Others(m, ip, now), rest) else rest == Others(m, ip, now)
    requires if isPinned then ShedFor(rest, MAX_BYTES - len - own, rest') else rest' == rest
    requires own == Size(Fewer(OwnBefore(m, ip, now)))
    ensures RestOk(m, isPinned, ip, len, now, rest')
  {
  }

  lemma OwnFits(m: Queues, ip: Addr, now: Time)
    requires Bounded(m)
    ensures |OwnBefore(m, ip, now)| <= MAX_PKTS
  {
    if !Starts(m, ip, now) {
      assert m[ip].Ok();
    }
  }

  lemma KeptOwn(own: seq<Bytes>, kept: seq<Bytes>, free: int, len: nat)
    requires |own| <= MAX_PKTS && IsSuffix(kept, Fewer(own))
    requires Size(kept) + len <= free && NeededDrops(Fewer(own), kept, free - len)
    ensures Kept(own, kept, free, len) && |kept| < MAX_PKTS
  {
    var own2 := Fewer(own);
    SuffixOfSuffix(kept, own2, own);
    if |kept| < |own2| {
      SameEnd(own2, own, |kept| + 1);
    }
  }

  lemma SameEnd(s: seq<Bytes>, t: seq<Bytes>, n: nat)
    requires IsSuffix(s, t) && n <= |s|
    ensures t[|t| - n..] == s[|s| - n..]
  {
    assert t[|t| - |s|..][|s| - n..] == t[|t| - n..];
  }

  // ---- the packet appended -----------------------------------------------

  lemma AppendedIs(m: Queues, ip: Addr, pkt: Bytes, now: Time, q: Queue)
    requires TimerKept(m, ip, now, q) && |q.packets| < MAX_PKTS && (ip in m ==> m[ip].Ok())
    ensures var starts := Starts(m, ip, now);
            var q' := Appended(q, pkt, now, starts);
            && Newest(q') == Some(pkt) && Older(q') == q.packets && q'.Ok()
            && Timed(m, ip, now, q', starts || q.next <= now)
  {
  }

  /** What a queue holds with a packet admitted is the newest of what it held and that packet. */
  lemma AdmittedOwn(m: Queues, isPinned: bool, ip: Addr, pkt: Bytes, now: Time, m': Queues, solicit: bool)
    requires Admitted(m, isPinned, ip, pkt, now, m', solicit)
    ensures ip in m' && IsSuffix(m'[ip].packets, Own(m, ip) + [pkt])
  {
    var kept := Older(m'[ip]);
    LastOf(m'[ip], pkt);
    OwnSuffix(m, ip, now, kept);
    SuffixPlus(kept, Own(m, ip), pkt);
  }

  lemma LastOf(q: Queue, pkt: Bytes)
    requires Newest(q) == Some(pkt)
    ensures q.packets == Older(q) + [pkt]
  {
  }

  lemma OwnSuffix(m: Queues, ip: Addr, now: Time, kept: seq<Bytes>)
    requires IsSuffix(kept, OwnBefore(m, ip, now))
    ensures IsSuffix(kept, Own(m, ip))
  {
  }

  lemma SuffixPlus(s: seq<Bytes>, t: seq<Bytes>, p: Bytes)
    requires IsSuffix(s, t)
    ensures IsSuffix(s + [p], t + [p])
  {
    assert (t + [p])[|t| - |s|..] == t[|t| - |s|..] + [p];
  }

  /** What is left of another queue is the newest of what it was. */
  lemma RestRemains(m: Queues, isPinned: bool, ip: Addr, len: nat, now: Time, rest: Queues, k: Addr)
    requires RestOk(m, isPinned, ip, len, now, rest) && k in rest
    ensures k != ip && Remains(m, k, rest[k])
  {
    OthersSubmap(m, ip, now);
    if isPinned {
      var free := MAX_BYTES - len - Size(Fewer(OwnBefore(m, ip, now)));
      var room :| Vacated(Others(m, ip, now), room) && ShedFor(room, free, rest);
      ShedForIsShed(room, free, rest);
      assert Remains(room, k, rest[k]);
      assert k in Others(m, ip, now) && room[k] == m[k];
    }
  }

  lemma RestAllOk(m: Queues, isPinned: bool, ip: Addr, len: nat, now: Time, rest: Queues)
    requires Bounded(m) && RestOk(m, isPinned, ip, len, now, rest) && Holding(rest)
    ensures forall k :: k in rest ==> k in m && rest[k].Ok()
  {
    forall k | k in rest ensures k in m && rest[k].Ok() {
      RestRemains(m, isPinned, ip, len, now, rest, k);
      assert m[k].Ok();
    }
  }

  /** The others leave a place for the target. */
  lemma RestFewer(m: Queues, isPinned: bool, ip: Addr, len: nat, now: Time, rest: Queues)
    requires |m| <= MAX_TARGETS && RestOk(m, isPinned, ip, len, now, rest)
    requires isPinned || ip in m || |m| < MAX_TARGETS || !NoneFailed(m, now)
    ensures |rest| < MAX_TARGETS
  {
    var others := Others(m, ip, now);
    OthersFewer(m, ip, now);
    if isPinned {
      var free := MAX_BYTES - len - Size(Fewer(OwnBefore(m, ip, now)));
      var room :| Vacated(others, room) && ShedFor(room, free, rest);
      ShedForIsShed(room, free, rest);
      SubsetSize(rest.Keys, room.Keys);
      VacatedFewer(others, room);
    }
  }

  lemma OthersFewer(m: Queues, ip: Addr, now: Time)
    requires |m| <= MAX_TARGETS
    ensures |Others(m, ip, now)| <= MAX_TARGETS
    ensures ip in m || |m| < MAX_TARGETS || !NoneFailed(m, now) ==> |Others(m, ip, now)| < MAX_TARGETS
  {
    if ip in m {
      assert |m - {ip}| < |m|;
    } else {
      OthersSize(m, ip, now);
    }
  }

  lemma VacatedFewer(m: Queues, m': Queues)
    requires |m| <= MAX_TARGETS && Vacated(m, m')
    ensures |m'| < MAX_TARGETS
  {
    if |m| >= MAX_TARGETS {
      var v :| IsNearest(m, v) && m' == m - {v};
    }
  }

  lemma JoinedOk(m: Queues, ip: Addr, pkt: Bytes, now: Time, q: Queue, solicit: bool)
    requires (ip in m ==> m[ip].Ok()) && Newest(q) == Some(pkt) && Timed(m, ip, now, q, solicit) && |Older(q)| < MAX_PKTS
    ensures q.Ok() && q.packets == Older(q) + [pkt]
  {
  }

  /** Queueing a packet keeps the bounds: targets, packets in each queue, bytes in all. */
  lemma AdmittedBounded(m: Queues, isPinned: bool, ip: Addr, pkt: Bytes, now: Time, m': Queues, solicit: bool)
    requires Bounded(m) && Admitted(m, isPinned, ip, pkt, now, m', solicit)
    requires isPinned || ip in m || |m| < MAX_TARGETS || !NoneFailed(m, now)
    ensures Bounded(m') && m'.Keys <= m.Keys + {ip}
  {
    var rest, q := m' - {ip}, m'[ip];
    JoinedOk(m, ip, pkt, now, q, solicit);
    SizeAppend(Older(q), pkt);
    OwnIsRest(m', ip);
    RestFewer(m, isPinned, ip, |pkt|, now, rest);
    RestAllOk(m, isPinned, ip, |pkt|, now, rest);
    BesideAll(m, ip, m');
  }

  lemma BesideAll(m: Queues, ip: Addr, m': Queues)
    requires ip in m' && m'[ip].Ok() && |m' - {ip}| < MAX_TARGETS
    requires forall k :: k in m' - {ip} ==> k in m && (m' - {ip})[k].Ok()
    ensures |m'| <= MAX_TARGETS && m'.Keys <= m.Keys + {ip} && forall k :: k in m' ==> m'[k].Ok()
  {
    assert m'.Keys == (m' - {ip}).Keys + {ip};
    forall k | k in m' && k != ip ensures k in m && m'[k].Ok() {
      assert k in m' - {ip} && (m' - {ip})[k] == m'[k];
    }
  }

  lemma AppendAdmits(m: Queues, isPinned: bool, ip: Addr, pkt: Bytes, now: Time, m3: Queues, m': Queues)
    requires Bounded(m) && ip in m3 && HasRoom(m, isPinned, ip, |pkt|, now, m3 - {ip}, m3[ip])
    requires m' == m3[ip := Appended(m3[ip], pkt, now, Starts(m, ip, now))]
    ensures Admitted(m, isPinned, ip, pkt, now, m', Starts(m, ip, now) || m3[ip].next <= now)
  {
    assert m' - {ip} == m3 - {ip};
    Joins(m, isPinned, ip, pkt, now, m3 - {ip}, m3[ip], m'[ip]);
  }

  lemma Joins(m: Queues, isPinned: bool, ip: Addr, pkt: Bytes, now: Time, rest: Queues, q: Queue, q': Queue)
    requires (ip in m ==> m[ip].Ok()) && HasRoom(m, isPinned, ip, |pkt|, now, rest, q)
    requires q' == Appended(q, pkt, now, Starts(m, ip, now))
    ensures Joined(m, isPinned, ip, pkt, now, rest, q', Starts(m, ip, now) || q.next <= now)
  {
    AppendedIs(m, ip, pkt, now, q);
  }

  // ---- the timers ----------------------------------------------------------

  /** The timers have been run on all but the targets `todo`. */
  ghost predicate Visited(all: Queues, now: Time, todo: set<Addr>, m: Queues) {
    && m.Keys <= all.Keys
    && forall k :: k in all ==>
         if k in todo then k in m && m[k] == all[k]
         else (k in m <==> !all[k].Failed(now)) && (k in m ==> m[k] == Resent(all[k], now))
  }

  lemma VisitOne(all: Queues, now: Time, todo: set<Addr>, m: Queues, k: Addr)
    requires Visited(all, now, todo, m) && k in todo && k in all
    ensures Visited(all, now, todo - {k}, if all[k].Failed(now) then m - {k} else m[k := Resent(all[k], now)])
    ensures m[k := all[k]] == m
  {
  }

  lemma VisitedAll(all: Queues, now: Time, m: Queues)
    requires Visited(all, now, {}, m)
    ensures m == AfterPoll(all, now)
  {
  }

  /** Exactly what is due for each target but those in `todo`, once. */
  ghost predicate Reports(m: Queues, now: Time, todo: set<Addr>, due: seq<Event>) {
    && (forall k :: k in m && k !in todo && Reported(k, m[k], now).Some? ==> Reported(k, m[k], now).value in due)
    && (forall e :: e in due ==> && e.target in m && e.target !in todo
                                 && Reported(e.target, m[e.target], now) == Some(e))
    && (forall i, j :: 0 <= i < j < |due| ==> due[i].target != due[j].target)
  }

  lemma ReportOne(m: Queues, now: Time, todo: set<Addr>, due: seq<Event>, k: Addr)
    requires Reports(m, now, todo, due) && k in todo && k in m
    ensures var r := Reported(k, m[k], now);
            Reports(m, now, todo - {k}, if r.Some? then due + [r.value] else due)
  {
    forall i | 0 <= i < |due| ensures due[i].target != k {
      assert due[i] in due;
    }
  }

  lemma {:induction false} PollBounded(m: Queues, now: Time)
    requires Bounded(m)
    ensures Bounded(AfterPoll(m, now))
  {
    var m' := AfterPoll(m, now);
    SubsetSize(m'.Keys, m.Keys);
    assert Units(m', QueueSize) <= Units(m, QueueSize);
    SubsetSize(Units(m', QueueSize), Units(m, QueueSize));
  }
}
