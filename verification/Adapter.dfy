/** The L2 adapter's use of a neighbour cache and its resolution queues: sending, learning and
    timers. One address family; IPv4 with ARP and IPv6 with NDP each have such a pair. */
module Adapter {
  import opened Basics
  import opened Neighbours
  import PendingQueues

  const BROADCAST: Mac := 0xFFFFFFFFFFFF
  const UNSPECIFIED: Addr := 0
  const OP_REQUEST := 1
  const OP_REPLY := 2

  datatype Outgoing =
    | Data(dst: Mac, packet: Bytes)
    | Request(dst: Mac, target: Addr)
    | Reply(dst: Mac, target: Addr)

  /** The packets of a queue, oldest first, each in a frame to `mac`. */
  function Flushed(mac: Mac, packets: seq<Bytes>): seq<Outgoing> {
    if packets == [] then [] else [Data(mac, packets[0])] + Flushed(mac, packets[1..])
  }

  // ---- no address is both known and being resolved -------------------------

  ghost predicate Disjoint(m: Cache, q: PendingQueues.Queues) {
    m.Keys !! q.Keys
  }

  lemma StaysDisjoint(m: Cache, q: PendingQueues.Queues, ip: Addr, m': Cache)
    requires Disjoint(m, q) && m'.Keys <= m.Keys + {ip}
    ensures Disjoint(m', q - {ip})
  {
  }

  /** No entry is trusted past its expiry, or for longer than a confirmation is good for. */
  ghost predicate Timely(m: Cache, clock: Time) {
    forall k :: k in m ==>
      && m[k].expires <= clock + DEFAULT_TTL
      && (m[k].state.Reachable? ==> m[k].state.until <= m[k].expires && m[k].state.until <= clock + REACHABLE_TIME)
  }

  lemma HeardTimely(e: Entry, mac: Mac, solicited: bool, override: bool, clock: Time, now: Time)
    requires clock <= now && !e.Gone(now)
    requires e.state.Reachable? ==> e.state.until <= e.expires && e.state.until <= clock + REACHABLE_TIME
    ensures var e' := Heard(e, mac, solicited, override, now);
            && !e'.Gone(now)
            && (e'.state.Reachable? ==> e'.state.until <= e'.expires && e'.state.until <= now + REACHABLE_TIME)
  {
  }

  /** After an update the address is known and not gone, and the rest of the cache is what it was, or
      less. */
  lemma UpdatedKnows(m: Cache, pinned: Option<Addr>, ip: Addr, mac: Mac, solicited: bool, override: bool,
                     clock: Time, now: Time, m': Cache)
    requires Updated(m, pinned, ip, mac, solicited, override, now, m') && Timely(m, clock) && clock <= now
    ensures ip in m' && !m'[ip].Gone(now) && m'.Keys <= m.Keys + {ip} && Timely(m', now)
  {
    if ip in m && !m[ip].Gone(now) {
      HeardTimely(m[ip], mac, solicited, override, clock, now);
    } else {
      var room :| PlacedIn(m, pinned, ip, Learnt(mac, solicited, now), now, room, m');
    }
  }

  lemma ResolveTimely(m: Cache, ip: Addr, clock: Time, now: Time)
    requires Timely(m, clock) && clock <= now
    ensures Timely(AfterResolve(m, ip, now), now) && Timely(AfterLookup(m, ip, now), now) && Timely(AfterPoll(m, now), now)
    ensures AfterResolve(m, ip, now).Keys <= m.Keys && AfterPoll(m, now).Keys <= m.Keys
    ensures Answer(m, ip, now) == Miss <==> ip !in AfterResolve(m, ip, now)
  {
  }

  /** A packet queued, and a request sent if the queue asks for one. */
  ghost predicate Queues(q: PendingQueues.Queues, pinned: bool, ip: Addr, pkt: Bytes, now: Time,
                         q': PendingQueues.Queues, sent: seq<Outgoing>, sent': seq<Outgoing>) {
    || (PendingQueues.Enqueued(q, pinned, ip, pkt, now, q', true) && sent' == sent + [Request(BROADCAST, ip)])
    || (PendingQueues.Enqueued(q, pinned, ip, pkt, now, q', false) && sent' == sent)
  }

  /** Unicast requests to the neighbours being probed. */
  function ProbesSent(probes: seq<(Addr, Mac)>): seq<Outgoing> {
    if probes == [] then [] else [Request(probes[0].1, probes[0].0)] + ProbesSent(probes[1..])
  }

  /** Broadcast requests for the targets still unanswered. */
  function RequestsSent(due: seq<PendingQueues.Event>): seq<Outgoing> {
    if due == [] then [] else
      (if due[0].Resolicit? then [Request(BROADCAST, due[0].target)] else []) + RequestsSent(due[1..])
  }

  /** The packets of the targets given up, to be reported undeliverable. */
  function Undelivered(due: seq<PendingQueues.Event>): seq<Bytes> {
    if due == [] then [] else (if due[0].Unreachable? then due[0].packets else []) + Undelivered(due[1..])
  }

  class L2Adapter {
    const mac: Mac
    const cache: Table
    const pending: PendingQueues.Pending
    var gateway: Option<Addr>
    var wire: seq<Outgoing>
    var conflicts: nat
    /** ICMP errors for the timers to hand to the L3 device, what it has been handed, and whether the
        adapter is closed. */
    var deferred: seq<Bytes>
    var up: seq<Bytes>
    var closed: bool
    /** The latest time any call was told. */
    ghost var clock: Time

    ghost predicate Valid()
      reads this, cache, pending
    {
      && cache.Valid() && pending.Valid()
      && cache.pinned == pending.pinned == gateway
      && Disjoint(cache.entries, pending.queues) && Timely(cache.entries, clock)
      && |deferred| <= PendingQueues.MAX_PKTS
    }

    constructor (mac: Mac, gateway: Option<Addr>)
      ensures Valid() && fresh(cache) && fresh(pending)
      ensures cache.entries == map[] && pending.queues == map[] && wire == [] && up == [] && !closed
    {
      this.mac, this.gateway, wire, conflicts, clock := mac, gateway, [], 0, 0;
      deferred, up, closed := [], [], false;
      cache := new Table();
      pending := new PendingQueues.Pending();
      new;
      cache.Pin(gateway);
      pending.Pin(gateway);
    }

    method SetGateway(gw: Option<Addr>)
      requires Valid()
      modifies this`gateway, cache, pending
      ensures Valid() && gateway == gw
      ensures cache.entries == old(cache.entries) && pending.queues == old(pending.queues)
    {
      gateway := gw;
      cache.Pin(gw);
      pending.Pin(gw);
    }

    /** A unicast packet for the next hop `target`: sent if its MAC is known, queued if not. */
    method Send(target: Addr, packet: Bytes, now: Time)
      requires Valid() && clock <= now
      modifies `wire, `clock, cache`entries, pending`queues, pending`bytes
      ensures Valid() && clock == now
      ensures cache.entries == AfterResolve(old(cache.entries), target, now)
      ensures match Answer(old(cache.entries), target, now)
              case Hit(m) => wire == old(wire) + [Data(m, packet)] && pending.queues == old(pending.queues)
              case AndProbe(m) => && wire == old(wire) + [Data(m, packet), Request(m, target)]
                                  && pending.queues == old(pending.queues)
              case Miss =>
                Queues(old(pending.queues), gateway == Some(target), target, packet, now, pending.queues, old(wire), wire)
    {
      ResolveTimely(cache.entries, target, clock, now);
      clock := now;
      var r := cache.ResolveAt(target, now);
      match r {
      case Hit(m) =>
        wire := wire + [Data(m, packet)];
      case AndProbe(m) =>
        wire := wire + [Data(m, packet)];
        wire := wire + [Request(m, target)];
      case Miss =>
        Queue(target, packet, now);
      }
    }

    /** A packet for an address not in the cache, and a request for it if one is due. */
    method Queue(target: Addr, packet: Bytes, now: Time)
      requires Valid() && target !in cache.entries
      modifies this`wire, pending`queues, pending`bytes
      ensures Valid()
      ensures Queues(old(pending.queues), gateway == Some(target), target, packet, now, pending.queues, old(wire), wire)
    {
      var first := pending.EnqueueAt(target, packet, now);
      if first {
        Ask(target);
      }
    }

    method Ask(target: Addr)
      modifies `wire
      ensures wire == old(wire) + [Request(BROADCAST, target)]
    {
      wire := wire + [Request(BROADCAST, target)];
    }

    /** What a message says about `ip` goes into the cache, and what was waiting for it leaves, oldest
        first, for the MAC the cache now has. */
    method Learn(ip: Addr, from: Mac, solicited: bool, override: bool, now: Time)
      requires Valid() && clock <= now
      modifies `wire, `clock, cache`entries, pending`queues, pending`bytes
      ensures Valid() && clock == now
      ensures Updated(old(cache.entries), gateway, ip, from, solicited, override, now, cache.entries)
      ensures ip in cache.entries && pending.queues == old(pending.queues) - {ip}
      ensures wire == old(wire) + Flushed(cache.entries[ip].mac, PendingQueues.Own(old(pending.queues), ip))
    {
      var dst := Know(ip, from, solicited, override, now);
      ghost var known := cache.entries;
      StaysDisjoint(old(cache.entries), old(pending.queues), ip, known);
      clock := now;
      Flush(ip, dst);
      assert cache.entries == known;
    }

    method Flush(ip: Addr, dst: Mac)
      requires pending.Valid()
      modifies this`wire, pending`queues, pending`bytes
      ensures pending.Valid() && pending.queues == old(pending.queues) - {ip}
      ensures wire == old(wire) + Flushed(dst, PendingQueues.Own(old(pending.queues), ip))
    {
      var packets := pending.Drain(ip);
      SendAll(dst, packets);
    }

    /** Updates the cache and looks up what it then has: a message that may not override leaves the
        MAC it had. */
    method Know(ip: Addr, from: Mac, solicited: bool, override: bool, now: Time) returns (dst: Mac)
      requires cache.Valid() && Timely(cache.entries, clock) && clock <= now && cache.pinned == gateway
      modifies cache`entries
      ensures cache.Valid() && Timely(cache.entries, now)
      ensures Updated(old(cache.entries), gateway, ip, from, solicited, override, now, cache.entries)
      ensures ip in cache.entries && dst == cache.entries[ip].mac
      ensures cache.entries.Keys <= old(cache.entries).Keys + {ip}
    {
      cache.UpdateAt(ip, from, solicited, override, now);
      ghost var updated := cache.entries;
      var known := cache.Lookup(ip, now);
      dst := if known.Some? then known.value else from;
      UpdatedKnows(old(cache.entries), gateway, ip, from, solicited, override, clock, now, updated);
    }

    method SendAll(dst: Mac, packets: seq<Bytes>)
      modifies `wire
      ensures wire == old(wire) + Flushed(dst, packets)
    {
      var i := 0;
      while i < |packets|
        invariant i <= |packets| && wire + Flushed(dst, packets[i..]) == old(wire) + Flushed(dst, packets)
      {
        wire := wire + [Data(dst, packets[i])];
        assert packets[i..][1..] == packets[i + 1..];
        i := i + 1;
      }
    }

    /** An ICMP error for a packet dropped inside the L3 device's own call, kept for the timers. */
    method Defer(error: Bytes)
      requires Valid()
      modifies `deferred
      ensures Valid()
      ensures deferred == if |old(deferred)| < PendingQueues.MAX_PKTS then old(deferred) + [error]
                          else old(deferred)
    {
      if |deferred| < PendingQueues.MAX_PKTS {
        deferred := deferred + [error];
      }
    }

    method Close()
      requires Valid()
      modifies `deferred, `closed
      ensures Valid() && closed && deferred == []
    {
      closed, deferred := true, [];
    }

    /** The timers: the errors deferred are handed over, once, then neighbours are probed, targets asked
        for again, and what could not be delivered is returned. A closed adapter's do nothing. */
    method RunTimers(now: Time) returns (probes: seq<(Addr, Mac)>, due: seq<PendingQueues.Event>, undelivered: seq<Bytes>)
      requires Valid() && clock <= now
      modifies `wire, `clock, `deferred, `up, cache`entries, pending`queues, pending`bytes
      ensures Valid()
      ensures closed ==> && wire == old(wire) && up == old(up) && probes == [] && due == [] && undelivered == []
                         && cache.entries == old(cache.entries) && pending.queues == old(pending.queues)
      ensures !closed ==> && up == old(up) + old(deferred) && deferred == [] && clock == now
                          && wire == old(wire) + ProbesSent(probes) + RequestsSent(due)
                          && TimersRan(old(cache.entries), old(pending.queues), now, cache.entries, pending.queues,
                                       probes, due, undelivered)
    {
      probes, due, undelivered := [], [], [];
      if closed {
        return;
      }
      probes, due, undelivered := RunOpen(now);
    }

    method RunOpen(now: Time) returns (probes: seq<(Addr, Mac)>, due: seq<PendingQueues.Event>, undelivered: seq<Bytes>)
      requires Valid() && clock <= now
      modifies `wire, `clock, `deferred, `up, cache`entries, pending`queues, pending`bytes
      ensures Valid() && up == old(up) + old(deferred) && deferred == [] && clock == now
      ensures wire == old(wire) + ProbesSent(probes) + RequestsSent(due)
      ensures TimersRan(old(cache.entries), old(pending.queues), now, cache.entries, pending.queues,
                        probes, due, undelivered)
    {
      HandOver();
      probes, due, undelivered := RunNeighbours(now);
    }

    method HandOver()
      requires Valid()
      modifies `deferred, `up
      ensures Valid() && up == old(up) + old(deferred) && deferred == []
    {
      up, deferred := up + deferred, [];
    }

    method RunNeighbours(now: Time)
      returns (probes: seq<(Addr, Mac)>, due: seq<PendingQueues.Event>, undelivered: seq<Bytes>)
      requires Valid() && clock <= now
      modifies `wire, `clock, cache`entries, pending`queues, pending`bytes
      ensures Valid() && clock == now
      ensures wire == old(wire) + ProbesSent(probes) + RequestsSent(due)
      ensures TimersRan(old(cache.entries), old(pending.queues), now, cache.entries, pending.queues,
                        probes, due, undelivered)
    {
      probes := ProbeNeighbours(now);
      due, undelivered := RetryTargets(now);
    }

    method ProbeNeighbours(now: Time) returns (probes: seq<(Addr, Mac)>)
      requires Valid() && clock <= now
      modifies `wire, `clock, cache`entries
      ensures Valid() && clock == now
      ensures cache.entries == AfterPoll(old(cache.entries), now) && Asked(old(cache.entries), now, {}, probes)
      ensures wire == old(wire) + ProbesSent(probes)
    {
      ResolveTimely(cache.entries, 0, clock, now);
      clock := now;
      probes := cache.Poll(now);
      SendProbes(probes);
    }

    method RetryTargets(now: Time) returns (due: seq<PendingQueues.Event>, undelivered: seq<Bytes>)
      requires Valid()
      modifies `wire, pending`queues, pending`bytes
      ensures Valid() && pending.queues == PendingQueues.AfterPoll(old(pending.queues), now)
      ensures PendingQueues.Reports(old(pending.queues), now, {}, due) && undelivered == Undelivered(due)
      ensures wire == old(wire) + RequestsSent(due)
    {
      due := pending.Poll(now);
      undelivered := SendRequests(due);
    }

    method SendProbes(probes: seq<(Addr, Mac)>)
      modifies `wire
      ensures wire == old(wire) + ProbesSent(probes)
    {
      var i := 0;
      while i < |probes|
        invariant i <= |probes| && wire + ProbesSent(probes[i..]) == old(wire) + ProbesSent(probes)
      {
        wire := wire + [Request(probes[i].1, probes[i].0)];
        assert probes[i..][1..] == probes[i + 1..];
        i := i + 1;
      }
    }

    method SendRequests(due: seq<PendingQueues.Event>) returns (undelivered: seq<Bytes>)
      modifies `wire
      ensures wire == old(wire) + RequestsSent(due) && undelivered == Undelivered(due)
    {
      undelivered := [];
      var i := 0;
      while i < |due|
        invariant i <= |due| && wire + RequestsSent(due[i..]) == old(wire) + RequestsSent(due)
        invariant undelivered + Undelivered(due[i..]) == Undelivered(due)
      {
        assert due[i..][1..] == due[i + 1..];
        if due[i].Resolicit? {
          wire := wire + [Request(BROADCAST, due[i].target)];
        } else {
          undelivered := undelivered + due[i].packets;
        }
        i := i + 1;
      }
    }

    /** An ARP message: someone claiming our address is only counted, a station worth knowing is
        learnt, and a request for us is answered. */
    method HandleArp(op: word16, senderMac: Mac, senderIp: Addr, targetIp: Addr, toOurMac: bool,
                     ours: Option<Addr>, onLink: bool, now: Time)
      requires Valid() && clock <= now && ours != Some(UNSPECIFIED)
      modifies `wire, `clock, `conflicts, cache`entries, pending`queues, pending`bytes
      ensures Valid()
      ensures ours == Some(senderIp) ==>
                && cache.entries == old(cache.entries) && pending.queues == old(pending.queues) && wire == old(wire)
                && conflicts == old(conflicts) + if senderMac != mac then 1 else 0
      ensures ours != Some(senderIp) ==>
                exists sent :: && Overheard(old(cache.entries), old(pending.queues), gateway,
                                            Claim(senderIp, senderMac, ours == Some(targetIp) && onLink,
                                                  op == OP_REPLY && ours == Some(targetIp) && toOurMac),
                                            now, cache.entries, pending.queues, sent)
                               && wire == old(wire) + sent
                                          + if op == OP_REQUEST && ours == Some(targetIp) then [Reply(senderMac, senderIp)]
                                            else []
      ensures forall k :: k in cache.entries && Confirmed(old(cache.entries), k, cache.entries[k]) ==>
                k == senderIp && cache.entries[k].mac == senderMac && op == OP_REPLY && ours == Some(targetIp) && toOurMac
      ensures GatewayHeld(old(cache.entries), gateway, now, cache.entries)
    {
      if ours == Some(senderIp) {
        if senderMac != mac {
          conflicts := conflicts + 1;
        }
        return;
      }
      var forUs := ours == Some(targetIp);
      Overhear(Claim(senderIp, senderMac, forUs && onLink, op == OP_REPLY && forUs && toOurMac), now);
      if op == OP_REQUEST && forUs {
        wire := wire + [Reply(senderMac, senderIp)];
      }
    }

    /** Learns a station that talks to us from our subnet, is known already, or is being resolved. ARP
        has no Override flag: for the gateway a different MAC is as one that may not override. */
    method Overhear(a: Claim, now: Time)
      requires Valid() && clock <= now
      modifies `wire, `clock, cache`entries, pending`queues, pending`bytes
      ensures Valid() && clock <= now
      ensures exists sent :: && Overheard(old(cache.entries), old(pending.queues), gateway, a, now,
                                          cache.entries, pending.queues, sent)
                             && wire == old(wire) + sent
      ensures GatewayHeld(old(cache.entries), gateway, now, cache.entries)
      ensures forall k :: k in cache.entries && Confirmed(old(cache.entries), k, cache.entries[k]) ==>
                k == a.ip && cache.entries[k].mac == a.mac && a.confirmed
    {
      var learns := a.ip != UNSPECIFIED && a.forUs;
      if a.ip != UNSPECIFIED && !learns {
        learns := Known(a.ip, now);
      }
      if !learns {
        assert wire == old(wire) + [];
        return;
      }
      ghost var m := cache.entries;
      Learn(a.ip, a.mac, a.confirmed, gateway != Some(a.ip), now);
      LookedUpAlike(old(cache.entries), m, gateway, a, now, cache.entries);
      LearntHolds(old(cache.entries), gateway, a, now, cache.entries);
      OnlyAnswersConfirm(old(cache.entries), gateway, a, now, cache.entries);
    }

    method Known(ip: Addr, now: Time) returns (known: bool)
      requires Valid() && clock <= now
      modifies `clock, cache`entries
      ensures Valid() && clock == now && cache.entries == AfterLookup(old(cache.entries), ip, now)
      ensures known <==> ip in cache.entries || pending.ContainsAt(ip, now)
    {
      ResolveTimely(cache.entries, ip, clock, now);
      clock := now;
      var found := cache.Lookup(ip, now);
      known := found.Some? || pending.ContainsAt(ip, now);
    }
  }

  /** What a message says: a station's address and MAC, whether it talks to us from our subnet, and
      whether it answers a request of ours. */
  datatype Claim = Claim(ip: Addr, mac: Mac, forUs: bool, confirmed: bool)

  ghost predicate Learns(m: Cache, q: PendingQueues.Queues, a: Claim, now: Time) {
    && a.ip != UNSPECIFIED
    && (a.forUs || (a.ip in m && !m[a.ip].Gone(now)) || (a.ip in q && !q[a.ip].Failed(now)))
  }

  /** A station learnt is cached as an update for it says, and its queue has gone, oldest first, to the
      MAC the cache has for it; otherwise at most an entry already gone is forgotten. */
  ghost predicate Overheard(m: Cache, q: PendingQueues.Queues, gateway: Option<Addr>, a: Claim, now: Time,
                            m': Cache, q': PendingQueues.Queues, sent: seq<Outgoing>) {
    if Learns(m, q, a, now) then
      && Updated(m, gateway, a.ip, a.mac, a.confirmed, gateway != Some(a.ip), now, m')
      && a.ip in m' && q' == q - {a.ip} && sent == Flushed(m'[a.ip].mac, PendingQueues.Own(q, a.ip))
    else q' == q && sent == [] && m' == if a.ip == UNSPECIFIED then m else AfterLookup(m, a.ip, now)
  }

  /** What one run of the timers does to the cache and the queues, and reports. */
  ghost predicate TimersRan(m: Cache, q: PendingQueues.Queues, now: Time, m': Cache, q': PendingQueues.Queues,
                            probes: seq<(Addr, Mac)>, due: seq<PendingQueues.Event>, undelivered: seq<Bytes>) {
    && m' == AfterPoll(m, now) && Asked(m, now, {}, probes)
    && q' == PendingQueues.AfterPoll(q, now) && PendingQueues.Reports(q, now, {}, due)
    && undelivered == Undelivered(due)
  }

  /** The gateway's MAC is not changed by overhearing. */
  ghost predicate GatewayHeld(m: Cache, gateway: Option<Addr>, now: Time, m': Cache) {
    gateway.Some? && gateway.value in m && !m[gateway.value].Gone(now) ==>
      gateway.value in m' && m'[gateway.value].mac == m[gateway.value].mac
  }

  /** `e` is REACHABLE at a MAC, or for a time, that it was not. */
  predicate Confirmed(m: Cache, k: Addr, e: Entry) {
    e.state.Reachable? && !(k in m && m[k].mac == e.mac && m[k].state == e.state)
  }

  /** Having looked an address up first makes no difference to what is then cached for it. */
  lemma LookedUpAlike(m0: Cache, m: Cache, gateway: Option<Addr>, a: Claim, now: Time, m': Cache)
    requires |m0| <= MAX_ENTRIES && (m == m0 || m == AfterLookup(m0, a.ip, now))
    requires Updated(m, gateway, a.ip, a.mac, a.confirmed, gateway != Some(a.ip), now, m')
    ensures Updated(m0, gateway, a.ip, a.mac, a.confirmed, gateway != Some(a.ip), now, m')
  {
    if m != m0 {
      var e := Learnt(a.mac, a.confirmed, now);
      assert m == m0 - {a.ip} && |m| < |m0|;
      assert PlacedIn(m0, gateway, a.ip, e, now, m0, m');
    }
  }

  lemma LearntHolds(m: Cache, gateway: Option<Addr>, a: Claim, now: Time, m': Cache)
    requires Updated(m, gateway, a.ip, a.mac, a.confirmed, gateway != Some(a.ip), now, m')
    ensures GatewayHeld(m, gateway, now, m')
  {
  }

  /** Only an answer to a request of ours makes a neighbour REACHABLE, and at the MAC it names. */
  lemma OnlyAnswersConfirm(m: Cache, gateway: Option<Addr>, a: Claim, now: Time, m': Cache)
    requires Updated(m, gateway, a.ip, a.mac, a.confirmed, gateway != Some(a.ip), now, m')
    ensures forall k :: k in m' && Confirmed(m, k, m'[k]) ==> k == a.ip && m'[k].mac == a.mac && a.confirmed
  {
  }
}
