/** What a switch or a routing hub does with one message: how it counts it, what it learns, and exactly
    the copies it sends. */
module Hubs {
  import opened Basics
  import Packet
  import Ip
  import Vlan
  import MacTables
  import L3Hub

  // ---- hubs and what they are plugged into -------------------------------------

  /** What a hub's port, or the far end of a wire, is plugged into: a station, a port of a hub, or one of
      the point-to-point wires, which may well lead round in a circle. */
  datatype Device = Station | PortOf(hub: nat, port: nat) | Wire(to: nat)

  datatype SwitchPort = SwitchPort(cfg: MacTables.Port, mode: Vlan.PortMode, dev: Device)

  datatype RouterPort = RouterPort(cfg: L3Hub.Port, strictRpf: bool, dev: Device)

  datatype Counters = Counters(received: nat, forwarded: nat, flooded: nat, dropped: nat) {
    /** Messages received and not yet accounted for. */
    function Open(): int {
      received - forwarded - flooded - dropped
    }
  }

  datatype Hub =
    | Switch(switchPorts: seq<SwitchPort>, maxDepth: nat, entries: MacTables.Entries, loopDrops: nat, counts: Counters)
    | Router(routerPorts: seq<RouterPort>, defaultRoute: Option<nat>, counts: Counters)
  {
    /** What forwarding does not change. */
    function Setup(): Hub {
      match this
      case Switch(ports, max, _, _, _) => Switch(ports, max, map[], 0, Counters(0, 0, 0, 0))
      case Router(ports, default, _) => Router(ports, default, Counters(0, 0, 0, 0))
    }

    function Devices(): seq<Device> {
      match this
      case Switch(ports, _, _, _, _) => seq(|ports|, i requires 0 <= i < |ports| => ports[i].dev)
      case Router(ports, _, _) => seq(|ports|, i requires 0 <= i < |ports| => ports[i].dev)
    }
  }

  // ---- reading messages and ports ----------------------------------------------

  /** Big-endian. */
  function Number(d: Bytes): nat {
    if d == [] then 0 else Number(d[..|d| - 1]) * 256 + d[|d| - 1]
  }

  /** The place of the first port with an identifier. */
  function FindSwitchPort(ports: seq<SwitchPort>, id: nat): (r: Option<nat>)
    ensures r.Some? ==> r.value < |ports| && ports[r.value].cfg.id == id
    ensures r.None? ==> forall k :: 0 <= k < |ports| ==> ports[k].cfg.id != id
  {
    if ports == [] then None else
      var r := FindSwitchPort(ports[..|ports| - 1], id);
      if r.Some? then r else if ports[|ports| - 1].cfg.id == id then Some(|ports| - 1) else None
  }

  function FindRouterPort(ports: seq<RouterPort>, id: nat): (r: Option<nat>)
    ensures r.Some? ==> r.value < |ports| && ports[r.value].cfg.id == id
    ensures r.None? ==> forall k :: 0 <= k < |ports| ==> ports[k].cfg.id != id
  {
    if ports == [] then None else
      var r := FindRouterPort(ports[..|ports| - 1], id);
      if r.Some? then r else if ports[|ports| - 1].cfg.id == id then Some(|ports| - 1) else None
  }

  function PortMap(ports: seq<SwitchPort>): MacTables.Ports {
    if ports == [] then map[] else PortMap(ports[1..])[ports[0].cfg.id := ports[0].cfg]
  }

  function Prefixes(ports: seq<RouterPort>): seq<L3Hub.Port> {
    seq(|ports|, i requires 0 <= i < |ports| => ports[i].cfg)
  }

  predicate WellFormed(p: Bytes) {
    match Packet.Version(p)
    case 4 => |p| >= 20 && 20 <= Packet.HeaderLen(p) <= |p|
    case 6 => |p| >= 40
    case _ => false
  }

  function SourceOf(p: Bytes): Option<Ip.IpAddr> {
    if Packet.Version(p) == 4 && |p| >= 20 then Some(Ip.V4(Number(p[12..16])))
    else if Packet.Version(p) == 6 && |p| >= 40 then Some(Ip.V6(Number(p[8..24])))
    else None
  }

  function DestinationOf(p: Bytes): Option<Ip.IpAddr> {
    if Packet.Version(p) == 4 && |p| >= 20 then Some(Ip.V4(Number(p[16..20])))
    else if Packet.Version(p) == 6 && |p| >= 40 then Some(Ip.V6(Number(p[24..40])))
    else None
  }

  /** Broadcast or multicast. */
  predicate ForGroup(p: Bytes) {
    match Packet.Version(p)
    case 4 => |p| >= 20 && (p[16..20] == [255, 255, 255, 255] || p[16] / 16 == 14)
    case 6 => |p| >= 40 && p[24] == 255
    case _ => false
  }

  // ---- what becomes of a message -------------------------------------------------

  /** `Looped`: too deep. `Expired`: out of hops. */
  datatype Verdict = Looped | Dropped | Forwarded | Flooded | Expired

  /** A message sent out of the port at place `out`. */
  datatype Copy = Copy(out: nat, msg: Bytes) {
    predicate Of(offers: seq<Option<Bytes>>) {
      out < |offers| && offers[out] == Some(msg)
    }
  }

  /** The verdict, a switch's table from then on, and the copies, in the order they are sent. */
  datatype Outcome = Outcome(verdict: Verdict, entries: MacTables.Entries, copies: seq<Copy>)

  /** Of what the first `n` ports could be sent, each exactly once, in port order, and nothing else. */
  ghost predicate Fanned(offers: seq<Option<Bytes>>, n: nat, copies: seq<Copy>)
    requires n <= |offers|
  {
    && (forall i, j :: 0 <= i < j < |copies| ==> copies[i].out < copies[j].out)
    && (forall i :: 0 <= i < |copies| ==> copies[i].out < n && copies[i].Of(offers))
    && (forall k {:trigger Reached(offers, k, copies)} :: 0 <= k < n && offers[k].Some? ==> Reached(offers, k, copies))
  }

  predicate Reached(offers: seq<Option<Bytes>>, k: nat, copies: seq<Copy>)
    requires k < |offers| && offers[k].Some?
  {
    Copy(k, offers[k].value) in copies
  }

  lemma FanOne(offers: seq<Option<Bytes>>, n: nat, copies: seq<Copy>)
    requires n < |offers| && Fanned(offers, n, copies)
    ensures Fanned(offers, n + 1, if offers[n].Some? then copies + [Copy(n, offers[n].value)] else copies)
  {
    if offers[n].Some? {
      var all := copies + [Copy(n, offers[n].value)];
      forall k | 0 <= k < n + 1 && offers[k].Some? ensures Reached(offers, k, all) {
        assert k < n ==> Reached(offers, k, copies);
      }
    }
  }

  // ---- a switch --------------------------------------------------------------------

  /** Where a frame comes in and in which VLAN, unless it is too short, the port is not there or does not
      admit it. */
  function Admitted(ports: seq<SwitchPort>, msg: Bytes, source: nat): (r: Option<(nat, Vlan.Vid)>)
    ensures r.Some? ==> r.value.0 < |ports| && |msg| >= 14
  {
    var from := FindSwitchPort(ports, source);
    if |msg| < 14 || from.None? then None else
      var vlan := Vlan.Arrives(ports[from.value].mode, msg);
      if vlan.None? then None else Some((from.value, vlan.value))
  }

  /** The table with a frame's source learnt, unless that is a group, and whether the frame may pass. */
  function Filed(ports: seq<SwitchPort>, entries: MacTables.Entries, vlan: Vlan.Vid, from: MacTables.Port, msg: Bytes,
                 at: Time): (MacTables.Entries, bool)
    requires |msg| >= 14
  {
    if msg[6] % 2 == 0 then MacTables.Learnt(entries, PortMap(ports), (vlan, Number(msg[6..12])), from, at)
    else (entries, true)
  }

  /** The table with a frame's destination looked up, and where it goes. */
  function Sought(ports: seq<SwitchPort>, entries: MacTables.Entries, vlan: Vlan.Vid, source: nat, msg: Bytes,
                  at: Time): (MacTables.Entries, MacTables.Dest)
    requires |msg| >= 14
  {
    if msg[0] % 2 == 0 then MacTables.Found(entries, PortMap(ports), (vlan, Number(msg[..6])), source, at)
    else (entries, MacTables.Unknown)
  }

  /** What each port would send for a frame that came in on `source`: nothing back where it came from. */
  function SwitchOffers(ports: seq<SwitchPort>, source: nat, vlan: Vlan.Vid, msg: Bytes): seq<Option<Bytes>> {
    seq(|ports|, k requires 0 <= k < |ports| =>
      if ports[k].cfg.id == source then None else Vlan.Leaves(ports[k].mode, vlan, msg))
  }

  /** To the one port a frame is for, if it carries the VLAN and the frame can take the form it needs. */
  ghost predicate SentTo(ports: seq<SwitchPort>, id: nat, vlan: Vlan.Vid, msg: Bytes, v: Verdict, copies: seq<Copy>) {
    var to := FindSwitchPort(ports, id);
    var out := if to.None? then None else Vlan.Leaves(ports[to.value].mode, vlan, msg);
    if out.None? then v == Dropped && copies == [] else v == Forwarded && copies == [Copy(to.value, out.value)]
  }

  ghost predicate FloodedTo(offers: seq<Option<Bytes>>, v: Verdict, copies: seq<Copy>) {
    Fanned(offers, |offers|, copies) && v == if copies == [] then Dropped else Flooded
  }

  ghost predicate Emitted(ports: seq<SwitchPort>, source: nat, dest: MacTables.Dest, vlan: Vlan.Vid, msg: Bytes,
                          v: Verdict, copies: seq<Copy>) {
    match dest
    case Ingress => v == Dropped && copies == []
    case ToPort(id) => SentTo(ports, id, vlan, msg, v, copies)
    case Unknown => FloodedTo(SwitchOffers(ports, source, vlan, msg), v, copies)
  }

  /** A frame inside the depth bound, its source learnt at `learnt` and its destination looked up at
      `sought`. */
  ghost predicate Switched(ports: seq<SwitchPort>, entries: MacTables.Entries, msg: Bytes, source: nat,
                           learnt: Time, sought: Time, o: Outcome) {
    var a := Admitted(ports, msg, source);
    if a.None? then o == Outcome(Dropped, entries, []) else
      var (from, vlan) := a.value;
      var (filed, may) := Filed(ports, entries, vlan, ports[from].cfg, msg, learnt);
      if !may then o == Outcome(Dropped, filed, []) else
        var (after, dest) := Sought(ports, filed, vlan, source, msg, sought);
        o.entries == after && Emitted(ports, source, dest, vlan, msg, o.verdict, o.copies)
  }

  // ---- a routing hub -----------------------------------------------------------------

  /** The reverse-path check, on a port that asks for it. */
  ghost predicate PassesRpf(ports: seq<RouterPort>, default: Option<nat>, from: RouterPort, msg: Bytes) {
    || !from.strictRpf
    || (SourceOf(msg).Some? && L3Hub.ReversePath(Prefixes(ports), default, from.cfg.id, SourceOf(msg).value))
  }

  function RouterOffers(ports: seq<RouterPort>, source: nat, msg: Bytes): seq<Option<Bytes>> {
    seq(|ports|, k requires 0 <= k < |ports| => if ports[k].cfg.id == source then None else Some(msg))
  }

  /** The place of the port a route names. */
  function Onward(ports: seq<RouterPort>, default: Option<nat>, r: L3Hub.Route): (out: Option<nat>)
    ensures out.Some? ==> out.value < |ports|
  {
    match r
    case ToPort(p) => FindRouterPort(ports, p.id)
    case Default => if default.None? then None else FindRouterPort(ports, default.value)
  }

  /** To the one port the routing rule names, one hop older; dropped if that is none, or where it came
      from; or it is out of hops, which its sender may be told. */
  ghost predicate RoutedBy(ports: seq<RouterPort>, default: Option<nat>, from: nat, msg: Bytes, r: L3Hub.Route, o: Outcome)
    requires from < |ports|
  {
    var out := Onward(ports, default, r);
    if out.None? || ports[out.value].cfg.id == ports[from].cfg.id then o.verdict == Dropped && o.copies == []
    else if Packet.HopLimit(msg) <= 1 then
      o.verdict == Expired && |o.copies| <= 1 && forall i :: 0 <= i < |o.copies| ==> o.copies[i].out == from
    else o.verdict == Forwarded && o.copies == [Copy(out.value, Packet.Rewritten(msg, Packet.Decrement))]
  }

  ghost predicate RoutedOnce(ports: seq<RouterPort>, default: Option<nat>, from: nat, msg: Bytes, o: Outcome)
    requires from < |ports| && DestinationOf(msg).Some?
  {
    exists r :: && L3Hub.Routed(Prefixes(ports), ports[from].cfg.id, DestinationOf(msg).value, r)
                && RoutedBy(ports, default, from, msg, r, o)
  }

  /** A packet inside the depth bound: dropped if malformed, from a port not there or failing the
      reverse-path check; flooded if for a group; else for one port. */
  ghost predicate RoutedAll(ports: seq<RouterPort>, default: Option<nat>, msg: Bytes, source: nat, o: Outcome) {
    var from := FindRouterPort(ports, source);
    && o.entries == map[]
    && if || !WellFormed(msg) || DestinationOf(msg).None? || from.None?
          || !PassesRpf(ports, default, ports[from.value], msg) then
         o.verdict == Dropped && o.copies == []
       else if ForGroup(msg) then FloodedTo(RouterOffers(ports, source, msg), o.verdict, o.copies)
       else RoutedOnce(ports, default, from.value, msg, o)
  }

  // ---- either ----------------------------------------------------------------------

  ghost predicate Decided(hub: Hub, msg: Bytes, source: nat, learnt: Time, sought: Time, o: Outcome) {
    match hub
    case Switch(ports, _, entries, _, _) => Switched(ports, entries, msg, source, learnt, sought, o)
    case Router(ports, default, _) => RoutedAll(ports, default, msg, source, o)
  }

  function LoopedOutcome(hub: Hub): Outcome {
    Outcome(Looped, if hub.Switch? then hub.entries else map[], [])
  }

  function Received(hub: Hub): Hub {
    hub.(counts := hub.counts.(received := hub.counts.received + 1))
  }

  /** A message received, and what a switch knows from then on; one out of hops is dropped before its
      sender is told. */
  function Begun(hub: Hub, o: Outcome): Hub {
    var r := if o.verdict == Expired then Ended(Received(hub), Dropped) else Received(hub);
    if r.Switch? then r.(entries := o.entries) else r
  }

  /** And accounted for. */
  function Ended(hub: Hub, v: Verdict): Hub {
    var c := hub.counts;
    match v
    case Forwarded => hub.(counts := c.(forwarded := c.forwarded + 1))
    case Flooded => hub.(counts := c.(flooded := c.flooded + 1))
    case Expired => hub
    case Dropped => hub.(counts := c.(dropped := c.dropped + 1))
    case Looped =>
      var h := hub.(counts := c.(dropped := c.dropped + 1));
      if h.Switch? then h.(loopDrops := h.loopDrops + 1) else h
  }

  lemma Accounted(hub: Hub, hub': Hub, o: Outcome)
    requires hub'.Setup() == Begun(hub, o).Setup() && hub'.counts.Open() == Begun(hub, o).counts.Open()
    ensures Ended(hub', o.verdict).Setup() == hub.Setup() && Ended(hub', o.verdict).counts.Open() == hub.counts.Open()
  {
  }

  // ---- no copy goes wrong -------------------------------------------------------------

  /** A copy is not back where it came from, and is what the port modes, or the routing rule and the hop
      limit, make of the message; only one out of hops is answered to its sender. */
  ghost predicate Right(setup: Hub, msg: Bytes, source: nat, v: Verdict, c: Copy) {
    match setup
    case Switch(ports, _, _, _, _) =>
      var a := Admitted(ports, msg, source);
      && a.Some? && c.out < |ports| && ports[c.out].cfg.id != source
      && Vlan.Leaves(ports[c.out].mode, a.value.1, msg) == Some(c.msg)
    case Router(ports, default, _) =>
      && c.out < |ports|
      && match v
         case Flooded => ForGroup(msg) && ports[c.out].cfg.id != source && c.msg == msg
         case Forwarded =>
           && !ForGroup(msg) && ports[c.out].cfg.id != source && Packet.HopLimit(msg) > 1
           && c.msg == Packet.Rewritten(msg, Packet.Decrement) && DestinationOf(msg).Some?
           && NamedBy(ports, default, source, DestinationOf(msg).value, c.out)
         case _ => v == Expired && Packet.HopLimit(msg) <= 1 && ports[c.out].cfg.id == source
  }

  /** The routing rule names the port at `out`. */
  ghost predicate NamedBy(ports: seq<RouterPort>, default: Option<nat>, source: nat, dst: Ip.IpAddr, out: nat) {
    exists r :: L3Hub.Routed(Prefixes(ports), source, dst, r) && Onward(ports, default, r) == Some(out)
  }

  lemma SwitchedRight(ports: seq<SwitchPort>, entries: MacTables.Entries, msg: Bytes, source: nat,
                      learnt: Time, sought: Time, o: Outcome, i: nat)
    requires Switched(ports, entries, msg, source, learnt, sought, o) && i < |o.copies|
    ensures Admitted(ports, msg, source).Some? && o.copies[i].out < |ports| && ports[o.copies[i].out].cfg.id != source
    ensures Vlan.Leaves(ports[o.copies[i].out].mode, Admitted(ports, msg, source).value.1, msg) == Some(o.copies[i].msg)
  {
  }

  lemma RoutedRight(ports: seq<RouterPort>, default: Option<nat>, msg: Bytes, source: nat, o: Outcome, i: nat)
    requires RoutedAll(ports, default, msg, source, o) && i < |o.copies|
    ensures Right(Router(ports, default, Counters(0, 0, 0, 0)), msg, source, o.verdict, o.copies[i])
  {
    if ForGroup(msg) {
      var offers := RouterOffers(ports, source, msg);
      assert o.copies[i].Of(offers);
    } else {
      var from := FindRouterPort(ports, source).value;
      var r :| L3Hub.Routed(Prefixes(ports), source, DestinationOf(msg).value, r)
               && RoutedBy(ports, default, from, msg, r, o);
    }
  }

  /** Whatever a hub decides, every copy it makes is right. */
  lemma DecidedRight(hub: Hub, msg: Bytes, source: nat, learnt: Time, sought: Time, o: Outcome, i: nat)
    requires Decided(hub, msg, source, learnt, sought, o) && i < |o.copies|
    ensures Right(hub.Setup(), msg, source, o.verdict, o.copies[i])
  {
    match hub
    case Switch(ports, _, entries, _, _) => SwitchedRight(ports, entries, msg, source, learnt, sought, o, i);
    case Router(ports, default, _) => RoutedRight(ports, default, msg, source, o, i);
  }

  /** Whatever a hub decides, it counts a message as forwarded or flooded exactly if it sent it on: a flood
      that reaches nobody is a drop. */
  lemma DecidedSends(hub: Hub, msg: Bytes, source: nat, learnt: Time, sought: Time, o: Outcome)
    requires Decided(hub, msg, source, learnt, sought, o)
    ensures o.verdict == Flooded || o.verdict == Forwarded <==> o.copies != [] && o.verdict != Expired
    ensures o.verdict == Forwarded ==> |o.copies| == 1
  {
  }

  /** A switch's flood leaves no port out: each but the one the frame came in on gets what its mode makes of
      the frame, if anything, and gets it once. */
  lemma FloodReachesAll(ports: seq<SwitchPort>, entries: MacTables.Entries, msg: Bytes, source: nat,
                        learnt: Time, sought: Time, o: Outcome, k: nat)
    requires Switched(ports, entries, msg, source, learnt, sought, o) && o.verdict == Flooded && k < |ports|
    ensures Admitted(ports, msg, source).Some?
    ensures var out := Vlan.Leaves(ports[k].mode, Admitted(ports, msg, source).value.1, msg);
            if ports[k].cfg.id != source && out.Some? then Copy(k, out.value) in o.copies
            else forall i :: 0 <= i < |o.copies| ==> o.copies[i].out != k
    ensures forall i, j :: 0 <= i < j < |o.copies| ==> o.copies[i].out != o.copies[j].out
  {
    var vlan := Admitted(ports, msg, source).value.1;
    var offers := SwitchOffers(ports, source, vlan, msg);
    assert offers[k] == if ports[k].cfg.id == source then None else Vlan.Leaves(ports[k].mode, vlan, msg);
    if offers[k].Some? {
      assert Reached(offers, k, o.copies);
    }
  }
}
