/** What holds of everything a message leads to, over any topology. */
module ForwardingRuns {
  import opened Basics
  import opened Hubs
  import opened Forwarding
  import Packet
  import Vlan

  // ---- one after another -------------------------------------------------------------

  /** Each of several happened properly, in hubs set up as before. */
  lemma {:induction false} ProperAt(hubs: seq<Hub>, net: Net, d: nat, ts: seq<Tree>, i: nat)
    requires ProperAll(hubs, net, d, ts) && i < |ts|
    ensures Proper(RunAll(hubs, ts[..i]), net, d, ts[i]) && Setups(RunAll(hubs, ts[..i])) == Setups(hubs)
    decreases |ts|
  {
    var k := |ts| - 1;
    if i < k {
      ProperAt(hubs, net, d, ts[..k], i);
      assert ts[..k][..i] == ts[..i];
    } else {
      RunAllConserves(hubs, ts[..i]);
    }
  }

  lemma SetupAt(hubs: seq<Hub>, hubs': seq<Hub>, i: nat)
    requires Setups(hubs') == Setups(hubs) && i < |hubs|
    ensures |hubs'| == |hubs| && hubs'[i].Setup() == hubs[i].Setup()
  {
    assert |Setups(hubs')| == |hubs'| && |Setups(hubs)| == |hubs|;
    assert Setups(hubs')[i] == hubs'[i].Setup() && Setups(hubs)[i] == hubs[i].Setup();
  }

  lemma BoundedStays(hubs: seq<Hub>, hubs': seq<Hub>, max: nat)
    requires Setups(hubs') == Setups(hubs) && Bounded(hubs, max)
    ensures Bounded(hubs', max)
  {
    assert |Setups(hubs')| == |hubs'| && |Setups(hubs)| == |hubs|;
    forall i | 0 <= i < |hubs'| && hubs'[i].Switch? ensures hubs'[i].maxDepth <= max {
      SetupAt(hubs, hubs', i);
    }
  }

  lemma StartSetups(hubs: seq<Hub>, h: nat, o: Outcome)
    ensures Setups(Start(hubs, h, o)) == Setups(hubs)
  {
  }

  // ---- the nesting --------------------------------------------------------------------

  /** How many levels of hubs and wires deep. */
  function Height(t: Tree): nat
    decreases t
  {
    match t
    case Delivered(_, answers) => Highest(answers)
    case Lost => 0
    case Over(inner) => 1 + Height(inner)
    case Arrived(_, _, _, _, _, o, led) => if o.verdict == Looped then 0 else 1 + Highest(led)
  }

  function Highest(ts: seq<Tree>): nat
    decreases ts
  {
    if ts == [] then 0 else Max(Highest(ts[..|ts| - 1]), Height(ts[|ts| - 1]))
  }

  /** However the hubs are connected, the chain never gets deeper than the largest limit. */
  lemma {:induction false} NestingBounded(hubs: seq<Hub>, net: Net, d: nat, t: Tree)
    requires Proper(hubs, net, d, t) && Bounded(hubs, net.max) && d <= net.max
    ensures d + Height(t) <= net.max
    decreases t
  {
    match t
    case Delivered(_, answers) => AllBounded(hubs, net, d, answers);
    case Lost =>
    case Over(inner) => NestingBounded(hubs, net, d + 1, inner);
    case Arrived(h, _, _, _, _, o, led) =>
      if d < Limit(hubs[h], net.max) {
        StartSetups(hubs, h, o);
        BoundedStays(hubs, Start(hubs, h, o), net.max);
        AllBounded(Start(hubs, h, o), net, d + 1, led);
      }
  }

  lemma {:induction false} AllBounded(hubs: seq<Hub>, net: Net, d: nat, ts: seq<Tree>)
    requires ProperAll(hubs, net, d, ts) && Bounded(hubs, net.max) && d <= net.max
    ensures d + Highest(ts) <= net.max
    decreases ts
  {
    if ts != [] {
      var k := |ts| - 1;
      AllBounded(hubs, net, d, ts[..k]);
      RunAllConserves(hubs, ts[..k]);
      BoundedStays(hubs, RunAll(hubs, ts[..k]), net.max);
      NestingBounded(RunAll(hubs, ts[..k]), net, d, ts[k]);
    }
  }

  // ---- every copy -----------------------------------------------------------------------

  /** Every copy any hub made was right. */
  ghost predicate AllRight(setups: seq<Hub>, t: Tree)
    decreases t
  {
    match t
    case Delivered(_, answers) => forall i :: 0 <= i < |answers| ==> AllRight(setups, answers[i])
    case Lost => true
    case Over(inner) => AllRight(setups, inner)
    case Arrived(h, port, msg, _, _, o, led) =>
      && h < |setups| && |led| == |o.copies|
      && (forall i :: 0 <= i < |o.copies| ==> Right(setups[h], msg, port, o.verdict, o.copies[i]))
      && (forall i :: 0 <= i < |led| ==> AllRight(setups, led[i]))
  }

  lemma OwnRight(hubs: seq<Hub>, net: Net, d: nat, t: Tree)
    requires Proper(hubs, net, d, t) && t.Arrived?
    ensures |t.led| == |t.o.copies|
    ensures forall i :: 0 <= i < |t.o.copies| ==> Right(Setups(hubs)[t.hub], t.msg, t.port, t.o.verdict, t.o.copies[i])
  {
    if d < Limit(hubs[t.hub], net.max) {
      forall i | 0 <= i < |t.o.copies|
        ensures Right(Setups(hubs)[t.hub], t.msg, t.port, t.o.verdict, t.o.copies[i])
      {
        DecidedRight(hubs[t.hub], t.msg, t.port, t.learnt, t.sought, t.o, i);
      }
    }
  }

  lemma NodeRight(setups: seq<Hub>, t: Tree)
    requires t.Arrived? && t.hub < |setups| && |t.led| == |t.o.copies|
    requires forall i :: 0 <= i < |t.o.copies| ==> Right(setups[t.hub], t.msg, t.port, t.o.verdict, t.o.copies[i])
    requires forall i :: 0 <= i < |t.led| ==> AllRight(setups, t.led[i])
    ensures AllRight(setups, t)
  {
  }

  /** No copy anywhere goes back where it came from, or is other than the port modes or the routing rule
      make it. */
  lemma {:induction false} EveryCopyRight(hubs: seq<Hub>, net: Net, d: nat, t: Tree)
    requires Proper(hubs, net, d, t)
    ensures AllRight(Setups(hubs), t)
    decreases t
  {
    match t
    case Delivered(_, answers) => AllCopiesRight(hubs, net, d, answers);
    case Lost =>
    case Over(inner) => EveryCopyRight(hubs, net, d + 1, inner);
    case Arrived(h, _, _, _, _, o, led) =>
      OwnRight(hubs, net, d, t);
      if d < Limit(hubs[h], net.max) {
        StartSetups(hubs, h, o);
        AllCopiesRight(Start(hubs, h, o), net, d + 1, led);
      }
      NodeRight(Setups(hubs), t);
  }

  lemma {:induction false} AllCopiesRight(hubs: seq<Hub>, net: Net, d: nat, ts: seq<Tree>)
    requires ProperAll(hubs, net, d, ts)
    ensures forall i :: 0 <= i < |ts| ==> AllRight(Setups(hubs), ts[i])
    decreases ts
  {
    forall i | 0 <= i < |ts| ensures AllRight(Setups(hubs), ts[i]) {
      ProperAt(hubs, net, d, ts, i);
      EveryCopyRight(RunAll(hubs, ts[..i]), net, d, ts[i]);
    }
  }

  // ---- VLANs ----------------------------------------------------------------------------

  /** What is reached over at most `k` wires. */
  function Far(wires: seq<Device>, dev: Device, k: nat): Device
    decreases k
  {
    if k == 0 || !dev.Wire? || dev.to >= |wires| then dev else Far(wires, wires[dev.to], k - 1)
  }

  /** A port of a hub is one of a switch, of the mode given. */
  ghost predicate SameMode(setups: seq<Hub>, far: Device, mode: Vlan.PortMode) {
    far.PortOf? && far.hub < |setups| ==>
      && setups[far.hub].Switch?
      && var to := FindSwitchPort(setups[far.hub].switchPorts, far.port);
         to.Some? ==> setups[far.hub].switchPorts[to.value].mode == mode
  }

  /** A port plugged into another hub's, over however many wires, is plugged into one of a switch, of the
      same mode. */
  ghost predicate Matches(setups: seq<Hub>, wires: seq<Device>, port: SwitchPort) {
    forall k: nat :: SameMode(setups, Far(wires, port.dev, k), port.mode)
  }

  /** Switches, linked by ports of the same mode, that can all tell the VLAN. */
  ghost predicate Matched(setups: seq<Hub>, wires: seq<Device>, v: Vlan.Vid) {
    forall h, k :: 0 <= h < |setups| && setups[h].Switch? && 0 <= k < |setups[h].switchPorts| ==>
      && Matches(setups, wires, setups[h].switchPorts[k])
      && (v != 0 || Vlan.EgressAction(setups[h].switchPorts[k].mode, 0) != Some(Vlan.Tagged(0)))
  }

  /** A frame at a port of a switch is in VLAN `v`, if at all. */
  ghost predicate InVlan(setups: seq<Hub>, v: Vlan.Vid, h: nat, port: nat, msg: Bytes) {
    && h < |setups| && setups[h].Switch?
    && var from := FindSwitchPort(setups[h].switchPorts, port);
       from.Some? ==> Vlan.Arrives(setups[h].switchPorts[from.value].mode, msg) == Some(v)
  }

  /** Every copy leaves by a port that carries the VLAN. */
  ghost predicate Carried(setups: seq<Hub>, v: Vlan.Vid, h: nat, copies: seq<Copy>)
    requires h < |setups| && setups[h].Switch?
  {
    forall i :: 0 <= i < |copies| ==>
      && copies[i].out < |setups[h].switchPorts|
      && Vlan.EgressAction(setups[h].switchPorts[copies[i].out].mode, v).Some?
  }

  /** Wherever it gets, a frame is in VLAN `v`, gets there only by ports that carry it, and says `body`:
      addresses, inner EtherType, payload. What stations send in answer is another matter. */
  ghost predicate Isolated(setups: seq<Hub>, v: Vlan.Vid, body: Bytes, t: Tree)
    decreases t
  {
    match t
    case Delivered(msg, _) => Vlan.Pop(msg) == body
    case Lost => true
    case Over(inner) => Isolated(setups, v, body, inner)
    case Arrived(h, port, msg, _, _, o, led) =>
      && InVlan(setups, v, h, port, msg) && Vlan.Pop(msg) == body && Carried(setups, v, h, o.copies)
      && forall i :: 0 <= i < |led| ==> Isolated(setups, v, body, led[i])
  }

  /** What is handed to a device is, over the wires, what it says, or starts at a hub there. */
  ghost predicate Reaches(n: nat, far: Device, msg: Bytes, t: Tree)
    decreases t
  {
    match t
    case Delivered(m, _) => far == Station && m == msg
    case Lost => true
    case Over(inner) => Reaches(n, far, msg, inner)
    case Arrived(h, p, m, _, _, _, _) => far == PortOf(h, p) && h < n && m == msg
  }

  lemma {:induction false} HandedReaches(n: nat, net: Net, d: nat, dev: Device, msg: Bytes, t: Tree) returns (k: nat)
    requires Handed(n, net, d, dev, msg, t)
    ensures Reaches(n, Far(net.wires, dev, k), msg, t)
    decreases net.max - d
  {
    k := 0;
    if dev.Wire? && dev.to < |net.wires| && d < net.max {
      k := HandedReaches(n, net, d + 1, net.wires[dev.to], msg, t.inner);
      k := k + 1;
    }
  }

  /** As `Isolated`, as far as the first hub. */
  ghost predicate StartsIn(setups: seq<Hub>, v: Vlan.Vid, body: Bytes, t: Tree)
    decreases t
  {
    match t
    case Delivered(msg, _) => Vlan.Pop(msg) == body
    case Lost => true
    case Over(inner) => StartsIn(setups, v, body, inner)
    case Arrived(h, port, msg, _, _, _, _) => InVlan(setups, v, h, port, msg) && Vlan.Pop(msg) == body
  }

  lemma {:induction false} ReachesStarts(setups: seq<Hub>, v: Vlan.Vid, far: Device, mode: Vlan.PortMode,
                                         msg: Bytes, t: Tree)
    requires Reaches(|setups|, far, msg, t) && SameMode(setups, far, mode) && Vlan.Arrives(mode, msg) == Some(v)
    ensures StartsIn(setups, v, Vlan.Pop(msg), t)
    decreases t
  {
    if t.Over? {
      ReachesStarts(setups, v, far, mode, msg, t.inner);
    }
  }

  /** A copy a switch makes of a frame in VLAN `v` starts in it, wherever it is handed. */
  lemma CopyStarts(hubs: seq<Hub>, net: Net, d: nat, t: Tree, v: Vlan.Vid, i: nat)
    requires Proper(hubs, net, d, t) && t.Arrived? && d < Limit(hubs[t.hub], net.max) && i < |t.led|
    requires Matched(Setups(hubs), net.wires, v) && InVlan(Setups(hubs), v, t.hub, t.port, t.msg)
    ensures StartsIn(Setups(hubs), v, Vlan.Pop(t.msg), t.led[i])
  {
    var setups, hub, c := Setups(hubs), hubs[t.hub], t.o.copies[i];
    assert setups[t.hub] == hub.Setup();
    var ports := hub.switchPorts;
    SwitchedRight(ports, hub.entries, t.msg, t.port, t.learnt, t.sought, t.o, i);
    assert Matches(setups, net.wires, setups[t.hub].switchPorts[c.out]);
    Vlan.ReadBack(ports[c.out].mode, v, t.msg, c.msg);
    var k := HandedReaches(|hubs|, net, d + 1, hub.Devices()[c.out], c.msg, t.led[i]);
    ReachesStarts(setups, v, Far(net.wires, ports[c.out].dev, k), ports[c.out].mode, c.msg, t.led[i]);
  }

  lemma CopiesCarried(hubs: seq<Hub>, net: Net, d: nat, t: Tree, v: Vlan.Vid)
    requires Proper(hubs, net, d, t) && t.Arrived? && InVlan(Setups(hubs), v, t.hub, t.port, t.msg)
    ensures Carried(Setups(hubs), v, t.hub, t.o.copies)
  {
    var hub := hubs[t.hub];
    assert Setups(hubs)[t.hub] == hub.Setup();
    if d < Limit(hub, net.max) {
      forall i | 0 <= i < |t.o.copies|
        ensures t.o.copies[i].out < |hub.switchPorts|
        ensures Vlan.EgressAction(hub.switchPorts[t.o.copies[i].out].mode, v).Some?
      {
        SwitchedRight(hub.switchPorts, hub.entries, t.msg, t.port, t.learnt, t.sought, t.o, i);
      }
    }
  }

  /** Over any topology of switches whose linked ports share a mode, cycles included, a frame stays in its
      VLAN and says the same wherever it gets, and no port of another VLAN sends it. */
  lemma {:induction false} StaysInVlan(hubs: seq<Hub>, net: Net, d: nat, t: Tree, v: Vlan.Vid, body: Bytes)
    requires Proper(hubs, net, d, t) && Matched(Setups(hubs), net.wires, v) && StartsIn(Setups(hubs), v, body, t)
    ensures Isolated(Setups(hubs), v, body, t)
    decreases t
  {
    match t
    case Delivered(_, _) =>
    case Lost =>
    case Over(inner) => StaysInVlan(hubs, net, d + 1, inner, v, body);
    case Arrived(h, _, _, _, _, o, led) =>
      StartSetups(hubs, h, o);
      CopiesCarried(hubs, net, d, t, v);
      forall i | 0 <= i < |led| ensures Isolated(Setups(hubs), v, body, led[i]) {
        CopyStarts(hubs, net, d, t, v, i);
        ProperAt(Start(hubs, h, o), net, d + 1, led, i);
        StaysInVlan(RunAll(Start(hubs, h, o), led[..i]), net, d + 1, led[i], v, body);
      }
  }

  // ---- hop limits -------------------------------------------------------------------------

  /** How often in a row, at most, a packet is routed on. */
  function Hops(t: Tree): nat
    decreases t
  {
    match t
    case Delivered(_, _) => 0
    case Lost => 0
    case Over(inner) => Hops(inner)
    case Arrived(_, _, _, _, _, o, led) =>
      if o.verdict == Forwarded && |led| == 1 then 1 + Hops(led[0]) else 0
  }

  /** Handed on over wires, it is still `msg`. */
  ghost predicate Carrying(msg: Bytes, t: Tree)
    decreases t
  {
    match t
    case Delivered(m, _) => m == msg
    case Lost => true
    case Over(inner) => Carrying(msg, inner)
    case Arrived(_, _, m, _, _, _, _) => m == msg
  }

  lemma {:induction false} HandedCarries(n: nat, net: Net, d: nat, dev: Device, msg: Bytes, t: Tree)
    requires Handed(n, net, d, dev, msg, t)
    ensures Carrying(msg, t)
    decreases net.max - d
  {
    if dev.Wire? && dev.to < |net.wires| && d < net.max {
      HandedCarries(n, net, d + 1, net.wires[dev.to], msg, t.inner);
    }
  }

  lemma OneHopFewer(msg: Bytes)
    requires WellFormed(msg) && Packet.HopLimit(msg) > 1
    ensures var older := Packet.Rewritten(msg, Packet.Decrement);
            Packet.HopLimit(older) == Packet.HopLimit(msg) - 1
  {
    Packet.RewriteKeepsVerdict(msg, Packet.Decrement, Packet.Rewritten(msg, Packet.Decrement));
  }

  /** Among routing hubs, however their routes loop, a packet is routed on fewer times than its hop limit
      says. */
  lemma {:induction false} HopsRunOut(hubs: seq<Hub>, net: Net, d: nat, t: Tree, msg: Bytes)
    requires Proper(hubs, net, d, t) && Carrying(msg, t)
    requires forall i :: 0 <= i < |hubs| ==> hubs[i].Router?
    ensures Hops(t) > 0 ==> Hops(t) < Packet.HopLimit(msg)
    decreases t
  {
    match t
    case Delivered(_, _) =>
    case Lost =>
    case Over(inner) => HopsRunOut(hubs, net, d + 1, inner, msg);
    case Arrived(h, port, _, learnt, sought, o, led) =>
      if o.verdict == Forwarded && |led| == 1 {
        var ports, older := hubs[h].routerPorts, Packet.Rewritten(msg, Packet.Decrement);
        RoutedRight(ports, hubs[h].defaultRoute, msg, port, o, 0);
        assert o.copies[0].msg == older;
        OneHopFewer(msg);
        HandedCarries(|hubs|, net, d + 1, hubs[h].Devices()[o.copies[0].out], older, led[0]);
        ProperAt(Start(hubs, h, o), net, d + 1, led, 0);
        assert led[..0] == [];
        HopsRunOut(Start(hubs, h, o), net, d + 1, led[0], older);
      }
  }
}
