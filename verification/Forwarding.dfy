/** Messages forwarded from hub to hub, over any topology: a synchronous call chain, bounded by a depth
    counter. */
module Forwarding {
  import opened Basics
  import opened Hubs
  import Packet
  import Vlan
  import MacTables
  import L3Hub

  const DEFAULT_MAX_FORWARD_DEPTH := 16

  // ---- what handing over a message leads to ---------------------------------------

  /** All that happens before the call that hands over a message returns: a station has it, and sends
      what it sends meanwhile; it is lost; it goes over a wire; or it arrives at a hub, which decides and
      hands on its copies. */
  datatype Tree =
    | Delivered(msg: Bytes, answers: seq<Tree>)
    | Lost
    | Over(inner: Tree)
    | Arrived(hub: nat, port: nat, msg: Bytes, learnt: Time, sought: Time, o: Outcome, led: seq<Tree>)

  /** The hubs afterwards. */
  ghost function Run(hubs: seq<Hub>, t: Tree): seq<Hub>
    decreases t
  {
    match t
    case Delivered(_, answers) => RunAll(hubs, answers)
    case Lost => hubs
    case Over(inner) => Run(hubs, inner)
    case Arrived(h, _, _, _, _, o, led) => Finish(RunAll(Start(hubs, h, o), led), h, o)
  }

  ghost function RunAll(hubs: seq<Hub>, ts: seq<Tree>): seq<Hub>
    decreases ts
  {
    if ts == [] then hubs else Run(RunAll(hubs, ts[..|ts| - 1]), ts[|ts| - 1])
  }

  function Start(hubs: seq<Hub>, h: nat, o: Outcome): seq<Hub> {
    if h < |hubs| then hubs[h := Begun(hubs[h], o)] else hubs
  }

  function Finish(hubs: seq<Hub>, h: nat, o: Outcome): seq<Hub> {
    if h < |hubs| then hubs[h := Ended(hubs[h], o.verdict)] else hubs
  }

  /** What is at the far end of each wire, and the deepest any chain may get. */
  datatype Net = Net(wires: seq<Device>, max: nat)

  /** How deep a hub lets the chain get. */
  function Limit(hub: Hub, max: nat): nat {
    if hub.Switch? then hub.maxDepth else max
  }

  /** What handing `msg` to a device at depth `d` is, among `n` hubs: a wire is one level of depth, and
      loses what is too deep. */
  predicate Handed(n: nat, net: Net, d: nat, dev: Device, msg: Bytes, t: Tree)
    decreases net.max - d
  {
    match dev
    case Station => t.Delivered? && t.msg == msg
    case PortOf(h, p) => if h < n then t.Arrived? && t.hub == h && t.port == p && t.msg == msg else t.Lost?
    case Wire(to) =>
      if to < |net.wires| && d < net.max then t.Over? && Handed(n, net, d + 1, net.wires[to], msg, t.inner) else t.Lost?
  }

  /** Every copy handed, in order, to the device of its port. */
  ghost predicate AllHanded(n: nat, net: Net, d: nat, devs: seq<Device>, copies: seq<Copy>, led: seq<Tree>) {
    && |led| == |copies|
    && forall i :: 0 <= i < |led| ==>
         copies[i].out < |devs| && Handed(n, net, d, devs[copies[i].out], copies[i].msg, led[i])
  }

  /** It happened as the hubs' rules have it, each in the state it was in by then. */
  ghost predicate Proper(hubs: seq<Hub>, net: Net, d: nat, t: Tree)
    decreases t
  {
    match t
    case Delivered(_, answers) =>
      (forall i :: 0 <= i < |answers| ==> answers[i].Arrived?) && ProperAll(hubs, net, d, answers)
    case Lost => true
    case Over(inner) => d < net.max && Proper(hubs, net, d + 1, inner)
    case Arrived(h, port, msg, learnt, sought, o, led) =>
      && h < |hubs|
      && if d >= Limit(hubs[h], net.max) then o == LoopedOutcome(hubs[h]) && led == [] else
           && Decided(hubs[h], msg, port, learnt, sought, o)
           && AllHanded(|hubs|, net, d + 1, hubs[h].Devices(), o.copies, led)
           && ProperAll(Start(hubs, h, o), net, d + 1, led)
  }

  ghost predicate ProperAll(hubs: seq<Hub>, net: Net, d: nat, ts: seq<Tree>)
    decreases ts
  {
    ts == [] || (&& ProperAll(hubs, net, d, ts[..|ts| - 1])
                 && Proper(RunAll(hubs, ts[..|ts| - 1]), net, d, ts[|ts| - 1]))
  }

  // ---- what is conserved ------------------------------------------------------------

  function Setups(hubs: seq<Hub>): seq<Hub> {
    seq(|hubs|, i requires 0 <= i < |hubs| => hubs[i].Setup())
  }

  /** Messages open in each hub. */
  function Opens(hubs: seq<Hub>): seq<int> {
    seq(|hubs|, i requires 0 <= i < |hubs| => hubs[i].counts.Open())
  }

  /** Every hub set up as before, and as many messages open in it. */
  ghost predicate Conserved(before: seq<Hub>, after: seq<Hub>) {
    Setups(after) == Setups(before) && Opens(after) == Opens(before)
  }

  /** All that was received was forwarded, flooded or dropped. */
  ghost predicate Settled(hubs: seq<Hub>) {
    forall i :: 0 <= i < |hubs| ==>
      hubs[i].counts.received == hubs[i].counts.forwarded + hubs[i].counts.flooded + hubs[i].counts.dropped
  }

  lemma ConservedAt(before: seq<Hub>, after: seq<Hub>, i: nat)
    requires Conserved(before, after) && i < |before|
    ensures |after| == |before|
    ensures after[i].Setup() == before[i].Setup() && after[i].counts.Open() == before[i].counts.Open()
  {
    assert |Setups(after)| == |after| && |Setups(before)| == |before|;
    assert Setups(after)[i] == after[i].Setup() && Setups(before)[i] == before[i].Setup();
    assert Opens(after)[i] == after[i].counts.Open() && Opens(before)[i] == before[i].counts.Open();
  }

  lemma FinishConserves(hubs: seq<Hub>, h: nat, o: Outcome, mid: seq<Hub>)
    requires Conserved(Start(hubs, h, o), mid)
    ensures Conserved(hubs, Finish(mid, h, o))
  {
    var before, after := Start(hubs, h, o), Finish(mid, h, o);
    assert |Setups(mid)| == |mid| && |Setups(before)| == |before| && |before| == |hubs|;
    forall i | 0 <= i < |hubs|
      ensures after[i].Setup() == hubs[i].Setup() && after[i].counts.Open() == hubs[i].counts.Open()
    {
      ConservedAt(before, mid, i);
      if i == h {
        Accounted(hubs[h], mid[h], o);
      }
    }
  }

  /** Whatever happens, no hub's setup changes and every message is accounted for once. */
  lemma {:induction false} RunConserves(hubs: seq<Hub>, t: Tree)
    ensures Conserved(hubs, Run(hubs, t))
    decreases t
  {
    match t
    case Delivered(_, answers) => RunAllConserves(hubs, answers);
    case Lost =>
    case Over(inner) => RunConserves(hubs, inner);
    case Arrived(h, _, _, _, _, o, led) =>
      RunAllConserves(Start(hubs, h, o), led);
      FinishConserves(hubs, h, o, RunAll(Start(hubs, h, o), led));
  }

  lemma {:induction false} RunAllConserves(hubs: seq<Hub>, ts: seq<Tree>)
    ensures Conserved(hubs, RunAll(hubs, ts))
    decreases ts
  {
    if ts != [] {
      RunAllConserves(hubs, ts[..|ts| - 1]);
      RunConserves(RunAll(hubs, ts[..|ts| - 1]), ts[|ts| - 1]);
    }
  }

  lemma SettledStays(before: seq<Hub>, after: seq<Hub>)
    requires Settled(before) && Conserved(before, after)
    ensures Settled(after)
  {
    assert |Setups(after)| == |after| && |Setups(before)| == |before|;
    forall i | 0 <= i < |after| ensures after[i].counts.Open() == 0 {
      ConservedAt(before, after, i);
    }
  }

  // ---- building it up -----------------------------------------------------------------

  /** `t` is what happened at depth `d` and took the hubs from one state to another. */
  ghost predicate Did(hubs: seq<Hub>, net: Net, d: nat, t: Tree, hubs': seq<Hub>) {
    Proper(hubs, net, d, t) && hubs' == Run(hubs, t)
  }

  ghost predicate DidAll(hubs: seq<Hub>, net: Net, d: nat, ts: seq<Tree>, hubs': seq<Hub>) {
    ProperAll(hubs, net, d, ts) && hubs' == RunAll(hubs, ts)
  }

  lemma DidOneMore(hubs: seq<Hub>, net: Net, d: nat, ts: seq<Tree>, mid: seq<Hub>, t: Tree, hubs': seq<Hub>)
    requires DidAll(hubs, net, d, ts, mid) && Did(mid, net, d, t, hubs')
    ensures DidAll(hubs, net, d, ts + [t], hubs')
  {
    assert (ts + [t])[..|ts|] == ts;
  }

  lemma HandedOneMore(n: nat, net: Net, d: nat, devs: seq<Device>, copies: seq<Copy>, led: seq<Tree>, c: Copy, t: Tree)
    requires AllHanded(n, net, d, devs, copies, led) && c.out < |devs| && Handed(n, net, d, devs[c.out], c.msg, t)
    ensures AllHanded(n, net, d, devs, copies + [c], led + [t])
  {
  }

  /** A flood that has come to port `i`: what was handed on so far, and what that led to. */
  ghost predicate FloodedSoFar(hubs: seq<Hub>, net: Net, d: nat, devs: seq<Device>, offers: seq<Option<Bytes>>, i: nat,
                               copies: seq<Copy>, led: seq<Tree>, hubs': seq<Hub>) {
    && i <= |offers| && Fanned(offers, i, copies) && AllHanded(|hubs|, net, d, devs, copies, led)
    && DidAll(hubs, net, d, led, hubs')
  }

  lemma FloodStep(hubs: seq<Hub>, net: Net, d: nat, devs: seq<Device>, offers: seq<Option<Bytes>>, i: nat,
                  copies: seq<Copy>, led: seq<Tree>, mid: seq<Hub>, t: Tree, hubs': seq<Hub>)
    requires FloodedSoFar(hubs, net, d, devs, offers, i, copies, led, mid) && i < |offers| && i < |devs|
    requires offers[i].Some? && Handed(|hubs|, net, d, devs[i], offers[i].value, t) && Did(mid, net, d, t, hubs')
    ensures FloodedSoFar(hubs, net, d, devs, offers, i + 1, copies + [Copy(i, offers[i].value)], led + [t], hubs')
  {
    FanOne(offers, i, copies);
    HandedOneMore(|hubs|, net, d, devs, copies, led, Copy(i, offers[i].value), t);
    DidOneMore(hubs, net, d, led, mid, t, hubs');
  }

  lemma FloodSkip(hubs: seq<Hub>, net: Net, d: nat, devs: seq<Device>, offers: seq<Option<Bytes>>, i: nat,
                  copies: seq<Copy>, led: seq<Tree>, mid: seq<Hub>)
    requires FloodedSoFar(hubs, net, d, devs, offers, i, copies, led, mid) && i < |offers| && offers[i].None?
    ensures FloodedSoFar(hubs, net, d, devs, offers, i + 1, copies, led, mid)
  {
    FanOne(offers, i, copies);
  }

  lemma OnlyOne(hubs: seq<Hub>, net: Net, d: nat, devs: seq<Device>, c: Copy, t: Tree, hubs': seq<Hub>)
    requires c.out < |devs| && Handed(|hubs|, net, d, devs[c.out], c.msg, t) && Did(hubs, net, d, t, hubs')
    ensures AllHanded(|hubs|, net, d, devs, [c], [t]) && DidAll(hubs, net, d, [t], hubs')
  {
    HandedOneMore(|hubs|, net, d, devs, [], [], c, t);
    DidOneMore(hubs, net, d, [], hubs, t, hubs');
    assert [] + [c] == [c] && [] + [t] == [t];
  }

  /** A hub's part done: it decided, handed on its copies, and counted the message. */
  lemma ArrivedDid(orig: seq<Hub>, net: Net, d: nat, t: Tree, mid: seq<Hub>, hubs': seq<Hub>)
    requires t.Arrived? && t.hub < |orig| && d < Limit(orig[t.hub], net.max)
    requires Decided(orig[t.hub], t.msg, t.port, t.learnt, t.sought, t.o)
    requires AllHanded(|orig|, net, d + 1, orig[t.hub].Devices(), t.o.copies, t.led)
    requires DidAll(Start(orig, t.hub, t.o), net, d + 1, t.led, mid) && hubs' == Finish(mid, t.hub, t.o)
    ensures Did(orig, net, d, t, hubs')
  {
  }

  /** No switch may be deeper than the shared limit. */
  ghost predicate Bounded(hubs: seq<Hub>, max: nat) {
    forall i :: 0 <= i < |hubs| && hubs[i].Switch? ==> hubs[i].maxDepth <= max
  }

  // ---- the network -----------------------------------------------------------

  class Network {
    const wires: seq<Device>
    var hubs: seq<Hub>
    /** How deep the thread's call chain is in hubs and wires. */
    var depth: nat
    /** The deepest any switch was ever allowed to forward. */
    var sharedMax: nat

    ghost predicate Valid()
      reads this
    {
      1 <= sharedMax && depth <= sharedMax && Bounded(hubs, sharedMax)
    }

    constructor (hubs: seq<Hub>, wires: seq<Device>)
      requires forall i :: 0 <= i < |hubs| && hubs[i].Switch? ==> hubs[i].maxDepth == DEFAULT_MAX_FORWARD_DEPTH
      ensures Valid() && this.hubs == hubs && this.wires == wires && depth == 0 && sharedMax == DEFAULT_MAX_FORWARD_DEPTH
    {
      this.hubs, this.wires, depth, sharedMax := hubs, wires, 0, DEFAULT_MAX_FORWARD_DEPTH;
    }

    /** Raising one switch's limit raises what hops without one of their own allow; lowering it binds
        only that switch. */
    method SetMaxForwardDepth(h: nat, limit: nat)
      requires Valid() && h < |hubs| && hubs[h].Switch?
      modifies `hubs, `sharedMax
      ensures Valid() && sharedMax == Max(old(sharedMax), limit) && sharedMax >= limit
      ensures hubs == old(hubs)[h := old(hubs)[h].(maxDepth := Max(limit, 1))]
    {
      var d := Max(limit, 1);
      hubs := hubs[h := hubs[h].(maxDepth := d)];
      sharedMax := Max(sharedMax, d);
    }

    /** A message put into the network from outside: however the hubs are connected, cycles included, it
        ends, what happened is as the hubs' rules have it, the depth is back where it was, and every hub
        has accounted for all it received. */
    method Inject(h: nat, msg: Bytes, port: nat) returns (ghost t: Tree)
      requires Valid() && depth == 0 && h < |hubs| && Settled(hubs)
      modifies `hubs, `depth
      ensures Valid() && depth == 0 && Settled(hubs)
      ensures t.Arrived? && t.hub == h && t.port == port && t.msg == msg
      ensures Did(old(hubs), Net(wires, sharedMax), 0, t, hubs)
    {
      t := Receive(h, msg, port);
      RunConserves(old(hubs), t);
      SettledStays(old(hubs), hubs);
    }

    /** `DepthGuard::enter`. */
    method Enter(max: nat) returns (entered: bool)
      requires Valid() && max <= sharedMax
      modifies `depth
      ensures Valid() && entered == (old(depth) < max) && depth == old(depth) + if entered then 1 else 0
    {
      if depth >= max {
        return false;
      }
      depth := depth + 1;
      return true;
    }

    method Leave()
      requires Valid() && depth > 0
      modifies `depth
      ensures Valid() && depth == old(depth) - 1
    {
      depth := depth - 1;
    }

    method CountReceived(h: nat)
      requires Valid() && h < |hubs|
      modifies `hubs
      ensures Valid() && hubs == old(hubs)[h := Received(old(hubs)[h])]
    {
      var c := hubs[h].counts;
      hubs := hubs[h := hubs[h].(counts := c.(received := c.received + 1))];
    }

    method Count(h: nat, v: Verdict)
      requires Valid() && h < |hubs| && v != Expired
      modifies `hubs
      ensures Valid() && hubs == old(hubs)[h := Ended(old(hubs)[h], v)]
    {
      var c := hubs[h].counts;
      if v == Forwarded {
        c := c.(forwarded := c.forwarded + 1);
      } else if v == Flooded {
        c := c.(flooded := c.flooded + 1);
      } else {
        c := c.(dropped := c.dropped + 1);
      }
      if v == Looped && hubs[h].Switch? {
        hubs := hubs[h := hubs[h].(loopDrops := hubs[h].loopDrops + 1)];
      }
      hubs := hubs[h := hubs[h].(counts := c)];
    }

    method Keep(h: nat, entries: MacTables.Entries)
      requires Valid() && h < |hubs| && hubs[h].Switch?
      modifies `hubs
      ensures Valid() && hubs == old(hubs)[h := old(hubs)[h].(entries := entries)]
    {
      hubs := hubs[h := hubs[h].(entries := entries)];
    }

    // ---- handing over ------------------------------------------------------------

    /** Hands a message to a device. */
    method Send(dev: Device, msg: Bytes) returns (ghost t: Tree)
      requires Valid()
      modifies `hubs, `depth
      ensures Valid() && depth == old(depth) && |hubs| == |old(hubs)|
      ensures Did(old(hubs), Net(wires, sharedMax), depth, t, hubs)
      ensures Handed(|hubs|, Net(wires, sharedMax), depth, dev, msg, t)
      decreases sharedMax - depth, 3
    {
      match dev {
      case Station =>
        ghost var answers := Answer();
        t := Delivered(msg, answers);
      case PortOf(hub, port) =>
        if hub < |hubs| {
          t := Receive(hub, msg, port);
        } else {
          t := Lost;
        }
      case Wire(to) =>
        var entered := false;
        if to < |wires| {
          entered := Enter(sharedMax);
        }
        if entered {
          ghost var inner := Send(wires[to], msg);
          t := Over(inner);
          Leave();
        } else {
          t := Lost;
        }
      }
    }

    /** A station may send anything, into any port, before it returns. */
    method Answer() returns (ghost answers: seq<Tree>)
      requires Valid()
      modifies `hubs, `depth
      ensures Valid() && depth == old(depth) && |hubs| == |old(hubs)|
      ensures DidAll(old(hubs), Net(wires, sharedMax), depth, answers, hubs)
      ensures forall i :: 0 <= i < |answers| ==> answers[i].Arrived?
      decreases sharedMax - depth, 2
    {
      var messages: seq<(nat, nat, Bytes)> := *;
      answers := [];
      var i := 0;
      while i < |messages|
        invariant Valid() && depth == old(depth) && |hubs| == |old(hubs)|
        invariant DidAll(old(hubs), Net(wires, sharedMax), depth, answers, hubs)
        invariant forall j :: 0 <= j < |answers| ==> answers[j].Arrived?
      {
        var (hub, port, msg) := messages[i];
        if hub < |hubs| {
          ghost var mid := hubs;
          ghost var t := Receive(hub, msg, port);
          DidOneMore(old(hubs), Net(wires, sharedMax), depth, answers, mid, t, hubs);
          answers := answers + [t];
        }
        i := i + 1;
      }
    }

    /** A message arriving at hub `h` on the port `source`. */
    method Receive(h: nat, msg: Bytes, source: nat) returns (ghost t: Tree)
      requires Valid() && h < |hubs|
      modifies `hubs, `depth
      ensures Valid() && depth == old(depth) && |hubs| == |old(hubs)|
      ensures Did(old(hubs), Net(wires, sharedMax), depth, t, hubs)
      ensures t.Arrived? && t.hub == h && t.port == source && t.msg == msg
      decreases sharedMax - depth, 1
    {
      ghost var orig := hubs;
      CountReceived(h);
      var entered := Enter(if hubs[h].Switch? then hubs[h].maxDepth else sharedMax);
      if !entered {
        Count(h, Looped);
        t := Arrived(h, source, msg, 0, 0, LoopedOutcome(orig[h]), []);
        LoopedDid(orig, Net(wires, sharedMax), depth, t, hubs);
        return;
      }
      if hubs[h].Switch? {
        t := Forward(h, msg, source, orig);
      } else {
        t := Route(h, msg, source, orig);
      }
      Leave();
    }

    // ---- a switch ------------------------------------------------------------------

    /** A frame inside the depth bound: dropped if too short, from a port not there or not admitted to a
        VLAN. */
    method Forward(h: nat, msg: Bytes, source: nat, ghost orig: seq<Hub>) returns (ghost t: Tree)
      requires Valid() && depth > 0 && Entered(orig, h, Net(wires, sharedMax), depth - 1, hubs) && orig[h].Switch?
      modifies `hubs, `depth
      ensures Valid() && depth == old(depth) && |hubs| == |orig|
      ensures Did(orig, Net(wires, sharedMax), depth - 1, t, hubs)
      ensures t.Arrived? && t.hub == h && t.port == source && t.msg == msg
      decreases sharedMax - depth, 8
    {
      var ports := hubs[h].switchPorts;
      var from := FindSwitchPort(ports, source);
      if |msg| < 14 || from.None? || Vlan.Arrives(ports[from.value].mode, msg).None? {
        t := Drop(h, msg, source, orig, 0, 0, orig[h].entries);
        return;
      }
      var vlan := Vlan.Arrives(ports[from.value].mode, msg).value;
      var may := true;
      var now: Time := *;
      ghost var filed := Filed(ports, orig[h].entries, vlan, ports[from.value].cfg, msg, now);
      if msg[6] % 2 == 0 {
        may := Learn(h, (vlan, Number(msg[6..12])), ports[from.value].cfg, now);
      }
      if !may {
        t := Drop(h, msg, source, orig, now, 0, filed.0);
        return;
      }
      t := Dispatch(h, msg, source, vlan, orig, now);
    }

    method Learn(h: nat, key: MacTables.MacKey, from: MacTables.Port, now: Time) returns (ok: bool)
      requires Valid() && h < |hubs| && hubs[h].Switch?
      modifies `hubs
      ensures Valid()
      ensures var learnt := MacTables.Learnt(old(hubs)[h].entries, PortMap(old(hubs)[h].switchPorts), key, from, now);
              hubs == old(hubs)[h := old(hubs)[h].(entries := learnt.0)] && ok == learnt.1
    {
      var (entries, may) := MacTables.Learnt(hubs[h].entries, PortMap(hubs[h].switchPorts), key, from, now);
      Keep(h, entries);
      return may;
    }

    /** A frame let in: flooded if for a group or for nobody known; else sent to the one port it is for. */
    method Dispatch(h: nat, msg: Bytes, source: nat, vlan: Vlan.Vid, ghost orig: seq<Hub>, ghost learnt: Time)
      returns (ghost t: Tree)
      requires Valid() && depth > 0 && LetIn(orig, h, Net(wires, sharedMax), depth - 1, msg, source, vlan, learnt, hubs)
      modifies `hubs, `depth
      ensures Valid() && depth == old(depth) && |hubs| == |orig|
      ensures Did(orig, Net(wires, sharedMax), depth - 1, t, hubs)
      ensures t.Arrived? && t.hub == h && t.port == source && t.msg == msg
      decreases sharedMax - depth, 7
    {
      var ports := hubs[h].switchPorts;
      var now: Time := *;
      var dest := MacTables.Unknown;
      ghost var sought := Sought(ports, hubs[h].entries, vlan, source, msg, now);
      if msg[0] % 2 == 0 {
        dest := Lookup(h, (vlan, Number(msg[..6])), source, now);
      }
      ghost var mid := hubs;
      var verdict, copies, led := Emit(ports, hubs[h].Devices(), source, dest, msg, vlan);
      t := Arrived(h, source, msg, learnt, now, Outcome(verdict, sought.0, copies), led);
      Settle(h, verdict, orig, mid, t);
    }

    /** Nowhere, to one port, or to all. */
    method Emit(ports: seq<SwitchPort>, ghost devs: seq<Device>, source: nat, dest: MacTables.Dest, msg: Bytes,
                vlan: Vlan.Vid)
      returns (verdict: Verdict, ghost copies: seq<Copy>, ghost led: seq<Tree>)
      requires Valid() && |devs| == |ports| && forall k :: 0 <= k < |ports| ==> devs[k] == ports[k].dev
      modifies `hubs, `depth
      ensures Valid() && depth == old(depth) && |hubs| == |old(hubs)| && verdict != Expired
      ensures Emitted(ports, source, dest, vlan, msg, verdict, copies)
      ensures AllHanded(|hubs|, Net(wires, sharedMax), depth, devs, copies, led)
      ensures DidAll(old(hubs), Net(wires, sharedMax), depth, led, hubs)
      decreases sharedMax - depth, 6
    {
      verdict, copies, led := Dropped, [], [];
      var egress := new Vlan.Egress(msg);
      match dest {
      case Ingress =>
      case Unknown =>
        var n;
        n, copies, led := Flood(ports, devs, source, egress, vlan);
        verdict := if n > 0 then Flooded else Dropped;
      case ToPort(id) =>
        var to := FindSwitchPort(ports, id);
        if to.Some? {
          var sent;
          sent, copies, led := SendTo(ports, devs, to.value, egress, vlan);
          verdict := if sent then Forwarded else Dropped;
        }
      }
    }

    method Lookup(h: nat, key: MacTables.MacKey, source: nat, now: Time) returns (dest: MacTables.Dest)
      requires Valid() && h < |hubs| && hubs[h].Switch?
      modifies `hubs
      ensures Valid()
      ensures var found := MacTables.Found(old(hubs)[h].entries, PortMap(old(hubs)[h].switchPorts), key, source, now);
              hubs == old(hubs)[h := old(hubs)[h].(entries := found.0)] && dest == found.1
    {
      var (entries, found) := MacTables.Found(hubs[h].entries, PortMap(hubs[h].switchPorts), key, source, now);
      Keep(h, entries);
      return found;
    }

    /** Out one port, if it carries the VLAN and the frame can take the form it needs: then exactly that
        is handed to its device. */
    method SendOut(port: SwitchPort, egress: Vlan.Egress, vlan: Vlan.Vid) returns (sent: bool, ghost t: Tree)
      requires Valid() && egress.Valid()
      modifies `hubs, `depth, egress
      ensures Valid() && egress.Valid() && depth == old(depth) && |hubs| == |old(hubs)|
      ensures var out := Vlan.Leaves(port.mode, vlan, egress.original);
              && sent == out.Some?
              && if sent then
                   && Did(old(hubs), Net(wires, sharedMax), depth, t, hubs)
                   && Handed(|hubs|, Net(wires, sharedMax), depth, port.dev, out.value, t)
                 else hubs == old(hubs)
      decreases sharedMax - depth, 4
    {
      t := Lost;
      var action := Vlan.EgressAction(port.mode, vlan);
      if action.None? {
        return false, t;
      }
      var out := egress.Apply(action.value);
      if out.None? {
        return false, t;
      }
      t := Send(port.dev, out.value);
      return true, t;
    }

    method SendTo(ports: seq<SwitchPort>, ghost devs: seq<Device>, to: nat, egress: Vlan.Egress, vlan: Vlan.Vid)
      returns (sent: bool, ghost copies: seq<Copy>, ghost led: seq<Tree>)
      requires Valid() && egress.Valid() && to < |ports| && |devs| == |ports| && devs[to] == ports[to].dev
      modifies `hubs, `depth, egress
      ensures Valid() && egress.Valid() && depth == old(depth) && |hubs| == |old(hubs)|
      ensures var out := Vlan.Leaves(ports[to].mode, vlan, egress.original);
              sent == out.Some? && copies == if sent then [Copy(to, out.value)] else []
      ensures AllHanded(|hubs|, Net(wires, sharedMax), depth, devs, copies, led)
      ensures DidAll(old(hubs), Net(wires, sharedMax), depth, led, hubs)
      decreases sharedMax - depth, 5
    {
      copies, led := [], [];
      ghost var t;
      sent, t := SendOut(ports[to], egress, vlan);
      if sent {
        ghost var c := Copy(to, Vlan.Leaves(ports[to].mode, vlan, egress.original).value);
        OnlyOne(old(hubs), Net(wires, sharedMax), depth, devs, c, t, hubs);
        copies, led := [c], [t];
      }
    }

    /** Out every port that carries the VLAN, but not back where it came from. */
    method Flood(ports: seq<SwitchPort>, ghost devs: seq<Device>, source: nat, egress: Vlan.Egress, vlan: Vlan.Vid)
      returns (n: nat, ghost copies: seq<Copy>, ghost led: seq<Tree>)
      requires Valid() && egress.Valid() && |devs| == |ports|
      requires forall k :: 0 <= k < |ports| ==> devs[k] == ports[k].dev
      modifies `hubs, `depth, egress
      ensures Valid() && egress.Valid() && depth == old(depth) && |hubs| == |old(hubs)| && n == |copies|
      ensures Fanned(SwitchOffers(ports, source, vlan, egress.original), |ports|, copies)
      ensures AllHanded(|hubs|, Net(wires, sharedMax), depth, devs, copies, led)
      ensures DidAll(old(hubs), Net(wires, sharedMax), depth, led, hubs)
      decreases sharedMax - depth, 5
    {
      ghost var offers := SwitchOffers(ports, source, vlan, egress.original);
      n, copies, led := 0, [], [];
      var i := 0;
      while i < |ports|
        invariant Valid() && egress.Valid() && depth == old(depth) && |hubs| == |old(hubs)| && n == |copies|
        invariant i <= |ports| && FloodedSoFar(old(hubs), Net(wires, sharedMax), depth, devs, offers, i, copies, led, hubs)
      {
        ghost var mid := hubs;
        var sent := false;
        ghost var t := Lost;
        if ports[i].cfg.id != source {
          sent, t := SendOut(ports[i], egress, vlan);
        }
        if sent {
          FloodStep(old(hubs), Net(wires, sharedMax), depth, devs, offers, i, copies, led, mid, t, hubs);
          n, copies, led := n + 1, copies + [Copy(i, offers[i].value)], led + [t];
        } else {
          FloodSkip(old(hubs), Net(wires, sharedMax), depth, devs, offers, i, copies, led, mid);
        }
        i := i + 1;
      }
    }

    // ---- a routing hub ---------------------------------------------------------------

    /** A packet inside the depth bound: dropped if malformed, from a port not there or failing the
        reverse-path check; flooded if for a group; else for one port. */
    method Route(h: nat, msg: Bytes, source: nat, ghost orig: seq<Hub>) returns (ghost t: Tree)
      requires Valid() && depth > 0 && Entered(orig, h, Net(wires, sharedMax), depth - 1, hubs) && orig[h].Router?
      modifies `hubs, `depth
      ensures Valid() && depth == old(depth) && |hubs| == |orig|
      ensures Did(orig, Net(wires, sharedMax), depth - 1, t, hubs)
      ensures t.Arrived? && t.hub == h && t.port == source && t.msg == msg
      decreases sharedMax - depth, 8
    {
      var ports := hubs[h].routerPorts;
      var from := FindRouterPort(ports, source);
      if !WellFormed(msg) || DestinationOf(msg).None? || from.None? {
        t := Drop(h, msg, source, orig, 0, 0, map[]);
        return;
      }
      var ok := Admits(ports, hubs[h].defaultRoute, ports[from.value], msg);
      if !ok {
        t := Drop(h, msg, source, orig, 0, 0, map[]);
      } else if ForGroup(msg) {
        ghost var mid := hubs;
        var n, copies, led := RouterFlood(ports, hubs[h].Devices(), source, msg);
        var verdict := if n > 0 then Flooded else Dropped;
        t := Arrived(h, source, msg, 0, 0, Outcome(verdict, map[], copies), led);
        Settle(h, verdict, orig, mid, t);
      } else {
        t := RouteOne(h, from.value, msg, source, orig);
      }
    }

    /** To the one port the routing rule names, one hop older; dropped if that is none, or where it came
        from, or if it is out of hops, which its sender may be told. */
    method RouteOne(h: nat, from: nat, msg: Bytes, source: nat, ghost orig: seq<Hub>) returns (ghost t: Tree)
      requires Valid() && depth > 0 && Entered(orig, h, Net(wires, sharedMax), depth - 1, hubs)
      requires Unicast(orig[h], from, msg, source)
      modifies `hubs, `depth
      ensures Valid() && depth == old(depth) && |hubs| == |orig|
      ensures Did(orig, Net(wires, sharedMax), depth - 1, t, hubs)
      ensures t.Arrived? && t.hub == h && t.port == source && t.msg == msg
      decreases sharedMax - depth, 7
    {
      var ports, default := hubs[h].routerPorts, hubs[h].defaultRoute;
      var r := L3Hub.Select(Prefixes(ports), source, DestinationOf(msg).value);
      var out := Onward(ports, default, r);
      if out.None? || ports[out.value].cfg.id == source {
        assert RoutedBy(ports, default, from, msg, r, Outcome(Dropped, map[], []));
        t := Drop(h, msg, source, orig, 0, 0, map[]);
        return;
      }
      if Packet.HopLimit(msg) <= 1 {
        t := Expire(h, from, msg, source, orig, r);
        return;
      }
      t := PassOn(h, from, out.value, msg, source, orig, r);
    }

    /** One hop older, out of the port named. */
    method PassOn(h: nat, ghost from: nat, out: nat, msg: Bytes, source: nat, ghost orig: seq<Hub>, ghost r: L3Hub.Route)
      returns (ghost t: Tree)
      requires Valid() && depth > 0 && Entered(orig, h, Net(wires, sharedMax), depth - 1, hubs)
      requires Unicast(orig[h], from, msg, source) && Passes(orig[h], from, msg, r, out)
      modifies `hubs, `depth
      ensures Valid() && depth == old(depth) && |hubs| == |orig|
      ensures Did(orig, Net(wires, sharedMax), depth - 1, t, hubs)
      ensures t.Arrived? && t.hub == h && t.port == source && t.msg == msg
      decreases sharedMax - depth, 6
    {
      var older := Packet.Rewritten(msg, Packet.Decrement);
      ghost var mid, copy := hubs, Copy(out, older);
      ghost var sent := Send(hubs[h].routerPorts[out].dev, older);
      OnlyOne(mid, Net(wires, sharedMax), depth, orig[h].Devices(), copy, sent, hubs);
      ghost var o := Outcome(Forwarded, map[], [copy]);
      assert RoutedBy(orig[h].routerPorts, orig[h].defaultRoute, from, msg, r, o);
      t := Arrived(h, source, msg, 0, 0, o, [sent]);
      Settle(h, Forwarded, orig, mid, t);
    }

    /** Out of hops: dropped, and the sender perhaps told. */
    method Expire(h: nat, from: nat, msg: Bytes, source: nat, ghost orig: seq<Hub>, ghost r: L3Hub.Route)
      returns (ghost t: Tree)
      requires Valid() && depth > 0 && Entered(orig, h, Net(wires, sharedMax), depth - 1, hubs)
      requires Unicast(orig[h], from, msg, source) && Expires(orig[h], from, msg, r)
      modifies `hubs, `depth
      ensures Valid() && depth == old(depth) && |hubs| == |orig|
      ensures Did(orig, Net(wires, sharedMax), depth - 1, t, hubs)
      ensures t.Arrived? && t.hub == h && t.port == source && t.msg == msg
      decreases sharedMax - depth, 6
    {
      var dev := hubs[h].routerPorts[from].dev;
      Count(h, Dropped);
      ghost var mid := hubs;
      ghost var copies: seq<Copy>, led: seq<Tree> := [], [];
      var report: Option<Bytes> := *;
      if report.Some? {
        ghost var sent := Send(dev, report.value);
        OnlyOne(mid, Net(wires, sharedMax), depth, orig[h].Devices(), Copy(from, report.value), sent, hubs);
        copies, led := [Copy(from, report.value)], [sent];
      }
      t := Arrived(h, source, msg, 0, 0, Outcome(Expired, map[], copies), led);
      ExpiredDid(orig, Net(wires, sharedMax), depth - 1, from, r, t, mid, hubs);
    }

    method RouterFlood(ports: seq<RouterPort>, ghost devs: seq<Device>, source: nat, msg: Bytes)
      returns (n: nat, ghost copies: seq<Copy>, ghost led: seq<Tree>)
      requires Valid() && |devs| == |ports| && forall k :: 0 <= k < |ports| ==> devs[k] == ports[k].dev
      modifies `hubs, `depth
      ensures Valid() && depth == old(depth) && |hubs| == |old(hubs)| && n == |copies|
      ensures Fanned(RouterOffers(ports, source, msg), |ports|, copies)
      ensures AllHanded(|hubs|, Net(wires, sharedMax), depth, devs, copies, led)
      ensures DidAll(old(hubs), Net(wires, sharedMax), depth, led, hubs)
      decreases sharedMax - depth, 5
    {
      ghost var offers := RouterOffers(ports, source, msg);
      n, copies, led := 0, [], [];
      var i := 0;
      while i < |ports|
        invariant Valid() && depth == old(depth) && |hubs| == |old(hubs)| && n == |copies|
        invariant i <= |ports| && FloodedSoFar(old(hubs), Net(wires, sharedMax), depth, devs, offers, i, copies, led, hubs)
      {
        ghost var mid := hubs;
        assert offers[i] == if ports[i].cfg.id == source then None else Some(msg);
        if ports[i].cfg.id != source {
          ghost var t := Send(ports[i].dev, msg);
          FloodStep(old(hubs), Net(wires, sharedMax), depth, devs, offers, i, copies, led, mid, t, hubs);
          n, copies, led := n + 1, copies + [Copy(i, msg)], led + [t];
        } else {
          FloodSkip(old(hubs), Net(wires, sharedMax), depth, devs, offers, i, copies, led, mid);
        }
        i := i + 1;
      }
    }

    // ---- accounting ----------------------------------------------------------------

    /** Counted as dropped, with nothing sent. */
    method Drop(h: nat, msg: Bytes, source: nat, ghost orig: seq<Hub>, ghost learnt: Time, ghost sought: Time,
                ghost entries: MacTables.Entries)
      returns (ghost t: Tree)
      requires Valid() && depth > 0 && h < |orig| && depth - 1 < Limit(orig[h], sharedMax)
      requires hubs == Start(orig, h, Outcome(Dropped, entries, []))
      requires Decided(orig[h], msg, source, learnt, sought, Outcome(Dropped, entries, []))
      modifies `hubs
      ensures Valid() && |hubs| == |orig| && Did(orig, Net(wires, sharedMax), depth - 1, t, hubs)
      ensures t.Arrived? && t.hub == h && t.port == source && t.msg == msg
    {
      t := Arrived(h, source, msg, learnt, sought, Outcome(Dropped, entries, []), []);
      Settle(h, Dropped, orig, hubs, t);
    }

    /** Counted once its copies, if any, have been handed on. */
    method Settle(h: nat, v: Verdict, ghost orig: seq<Hub>, ghost mid: seq<Hub>, ghost t: Tree)
      requires Valid() && depth > 0 && h < |orig| == |hubs| && depth - 1 < Limit(orig[h], sharedMax) && v != Expired
      requires t.Arrived? && t.hub == h && t.o.verdict == v && mid == Start(orig, h, t.o)
      requires Decided(orig[h], t.msg, t.port, t.learnt, t.sought, t.o)
      requires AllHanded(|orig|, Net(wires, sharedMax), depth, orig[h].Devices(), t.o.copies, t.led)
      requires DidAll(mid, Net(wires, sharedMax), depth, t.led, hubs)
      modifies `hubs
      ensures Valid() && |hubs| == |orig| && Did(orig, Net(wires, sharedMax), depth - 1, t, hubs)
    {
      ghost var sent := hubs;
      Count(h, v);
      ArrivedDid(orig, Net(wires, sharedMax), depth - 1, t, sent, hubs);
    }
  }

  // ---- where a message is at -------------------------------------------------------

  /** Received by hub `h`, within its limit at depth `d`. */
  ghost predicate Entered(orig: seq<Hub>, h: nat, net: Net, d: nat, hubs: seq<Hub>) {
    h < |orig| && hubs == orig[h := Received(orig[h])] && d < Limit(orig[h], net.max)
  }

  /** Let into a VLAN by a switch, which has learnt where it comes from. */
  ghost predicate LetIn(orig: seq<Hub>, h: nat, net: Net, d: nat, msg: Bytes, source: nat, vlan: Vlan.Vid,
                        learnt: Time, hubs: seq<Hub>) {
    && h < |orig| && orig[h].Switch? && d < Limit(orig[h], net.max)
    && var a := Admitted(orig[h].switchPorts, msg, source);
    && a.Some? && a.value.1 == vlan
    && var filed := Filed(orig[h].switchPorts, orig[h].entries, vlan, orig[h].switchPorts[a.value.0].cfg, msg, learnt);
    && filed.1 && hubs == orig[h := Received(orig[h]).(entries := filed.0)]
  }

  /** A packet a routing hub has for one port. */
  ghost predicate Unicast(hub: Hub, from: nat, msg: Bytes, source: nat) {
    && hub.Router? && FindRouterPort(hub.routerPorts, source) == Some(from) && WellFormed(msg)
    && DestinationOf(msg).Some? && !ForGroup(msg) && PassesRpf(hub.routerPorts, hub.defaultRoute, hub.routerPorts[from], msg)
  }

  /** There is a port for it, but no hop left. */
  ghost predicate Expires(hub: Hub, from: nat, msg: Bytes, r: L3Hub.Route)
    requires hub.Router? && from < |hub.routerPorts| && DestinationOf(msg).Some?
  {
    var ports, out := hub.routerPorts, Onward(hub.routerPorts, hub.defaultRoute, r);
    && L3Hub.Routed(Prefixes(ports), ports[from].cfg.id, DestinationOf(msg).value, r)
    && out.Some? && ports[out.value].cfg.id != ports[from].cfg.id && Packet.HopLimit(msg) <= 1
  }

  /** The port at `out` is for it, and there is a hop left. */
  ghost predicate Passes(hub: Hub, from: nat, msg: Bytes, r: L3Hub.Route, out: nat)
    requires hub.Router? && from < |hub.routerPorts| && DestinationOf(msg).Some?
  {
    var ports := hub.routerPorts;
    && L3Hub.Routed(Prefixes(ports), ports[from].cfg.id, DestinationOf(msg).value, r)
    && Onward(ports, hub.defaultRoute, r) == Some(out)
    && ports[out].cfg.id != ports[from].cfg.id && Packet.HopLimit(msg) > 1
  }

  lemma ExpiredDid(orig: seq<Hub>, net: Net, d: nat, from: nat, r: L3Hub.Route, t: Tree, mid: seq<Hub>, hubs': seq<Hub>)
    requires t.Arrived? && t.hub < |orig| == |hubs'| && d < Limit(orig[t.hub], net.max)
    requires Unicast(orig[t.hub], from, t.msg, t.port) && Expires(orig[t.hub], from, t.msg, r)
    requires t.o == Outcome(Expired, map[], t.o.copies) && |t.o.copies| <= 1
    requires forall i :: 0 <= i < |t.o.copies| ==> t.o.copies[i].out == from
    requires mid == orig[t.hub := Ended(Received(orig[t.hub]), Dropped)]
    requires AllHanded(|orig|, net, d + 1, orig[t.hub].Devices(), t.o.copies, t.led) && DidAll(mid, net, d + 1, t.led, hubs')
    ensures Did(orig, net, d, t, hubs')
  {
    var hub := orig[t.hub];
    assert RoutedBy(hub.routerPorts, hub.defaultRoute, from, t.msg, r, t.o);
    assert mid == Start(orig, t.hub, t.o) && hubs' == Finish(hubs', t.hub, t.o);
    ArrivedDid(orig, net, d, t, hubs', hubs');
  }

  lemma LoopedDid(orig: seq<Hub>, net: Net, d: nat, t: Tree, hubs': seq<Hub>)
    requires t.Arrived? && t.hub < |orig| && d >= Limit(orig[t.hub], net.max)
    requires t.o == LoopedOutcome(orig[t.hub]) && t.led == []
    requires hubs' == orig[t.hub := Ended(Received(orig[t.hub]), Looped)]
    ensures Did(orig, net, d, t, hubs')
  {
    assert Start(orig, t.hub, t.o) == orig[t.hub := Received(orig[t.hub])];
  }

  /** The reverse-path check, on a port that asks for it. */
  method Admits(ports: seq<RouterPort>, default: Option<nat>, from: RouterPort, msg: Bytes) returns (ok: bool)
    ensures ok <==> PassesRpf(ports, default, from, msg)
  {
    if !from.strictRpf {
      return true;
    }
    if SourceOf(msg).None? {
      return false;
    }
    ok := L3Hub.ReversePathOk(Prefixes(ports), default, from.cfg.id, SourceOf(msg).value);
  }
}
