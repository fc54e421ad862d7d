/** The routing hub's choice of an output port, and its reverse-path check. */
module L3Hub {
  import opened Basics
  import opened Ip

  datatype Port = Port(id: nat, prefix: IpPrefix)

  datatype Route = ToPort(port: Port) | Default

  // ---- the rule --------------------------------------------------------------

  predicate Matches(p: Port, a: IpAddr) {
    p.prefix.IsValid() && p.prefix.Contains(a)
  }

  predicate Owns(p: Port, a: IpAddr) {
    Matches(p, a) && p.prefix.addr == a
  }

  ghost predicate Longest(ports: seq<Port>, a: IpAddr, i: int) {
    && 0 <= i < |ports| && Matches(ports[i], a)
    && forall j :: 0 <= j < |ports| && Matches(ports[j], a) ==> ports[j].prefix.bits <= ports[i].prefix.bits
  }

  ghost predicate NoOwner(ports: seq<Port>, a: IpAddr) {
    forall j :: 0 <= j < |ports| ==> !Owns(ports[j], a)
  }

  /** The first device that has the address as its own. */
  ghost predicate FirstOwner(ports: seq<Port>, a: IpAddr, i: int) {
    0 <= i < |ports| && Owns(ports[i], a) && forall j :: 0 <= j < i ==> !Owns(ports[j], a)
  }

  ghost predicate AmongLongest(ports: seq<Port>, a: IpAddr, id: nat) {
    exists i :: Longest(ports, a, i) && ports[i].id == id
  }

  ghost predicate FirstLongest(ports: seq<Port>, a: IpAddr, i: int) {
    Longest(ports, a, i) && forall j :: 0 <= j < i ==> !Longest(ports, a, j)
  }

  /** Where a packet for `a` from the port `source` goes: to the first owner of the address; or, the
      sender being on the longest matching network, to the default route; or to the first attached with
      the longest match; or, matching nothing, to the default route. */
  ghost predicate Routed(ports: seq<Port>, source: nat, a: IpAddr, r: Route) {
    if NoOwner(ports, a) then
      if exists i :: Longest(ports, a, i) then
        if AmongLongest(ports, a, source) then r == Default
        else exists i :: FirstLongest(ports, a, i) && r == ToPort(ports[i])
      else r == Default
    else exists i :: FirstOwner(ports, a, i) && r == ToPort(ports[i])
  }

  // ---- the scans ---------------------------------------------------------------

  /** The longest match of the ports seen so far: where it is first, and whether `id` has one as long. */
  ghost predicate BestSoFar(ports: seq<Port>, a: IpAddr, best: Option<nat>, id: nat, mine: bool) {
    match best
    case None => !mine && forall j :: 0 <= j < |ports| ==> !Matches(ports[j], a)
    case Some(i) => FirstLongest(ports, a, i) && (mine <==> AmongLongest(ports, a, id))
  }

  /** How one more port changes which are the longest matches. */
  lemma LongestAfter(ports: seq<Port>, p: Port, a: IpAddr, i: nat)
    requires Longest(ports, a, i)
    ensures var all := ports + [p];
            && (forall j: nat | j < |ports| ::
                  Longest(all, a, j) <==> Longest(ports, a, j) && !(Matches(p, a) && p.prefix.bits > ports[i].prefix.bits))
            && (Longest(all, a, |ports|) <==> Matches(p, a) && p.prefix.bits >= ports[i].prefix.bits)
  {
    var all := ports + [p];
    assert forall j :: 0 <= j < |ports| ==> all[j] == ports[j];
    assert all[|ports|] == p;
  }

  lemma AmongAfter(ports: seq<Port>, p: Port, a: IpAddr, i: nat, id: nat)
    requires Longest(ports, a, i) && !(Matches(p, a) && p.prefix.bits > ports[i].prefix.bits)
    ensures AmongLongest(ports + [p], a, id) <==>
              AmongLongest(ports, a, id) || (Matches(p, a) && p.prefix.bits == ports[i].prefix.bits && p.id == id)
  {
    var all := ports + [p];
    LongestAfter(ports, p, a, i);
    if AmongLongest(all, a, id) {
      var j :| Longest(all, a, j) && all[j].id == id;
      assert j < |ports| ==> Longest(ports, a, j) && ports[j].id == id;
    }
    if AmongLongest(ports, a, id) {
      var j :| Longest(ports, a, j) && ports[j].id == id;
      assert Longest(all, a, j) && all[j].id == id;
    }
    assert Longest(all, a, |ports|) ==> all[|ports|].id == p.id;
  }

  lemma NotBetter(ports: seq<Port>, p: Port, a: IpAddr, i: nat, id: nat, mine: bool)
    requires BestSoFar(ports, a, Some(i), id, mine)
    requires !(Matches(p, a) && p.prefix.bits > ports[i].prefix.bits)
    ensures BestSoFar(ports + [p], a, Some(i), id,
                      mine || (Matches(p, a) && p.prefix.bits == ports[i].prefix.bits && p.id == id))
  {
    LongestAfter(ports, p, a, i);
    AmongAfter(ports, p, a, i, id);
  }

  lemma OnlyLongest(ports: seq<Port>, p: Port, a: IpAddr, best: Option<nat>)
    requires Matches(p, a)
    requires if best.None? then forall j :: 0 <= j < |ports| ==> !Matches(ports[j], a)
             else Longest(ports, a, best.value) && p.prefix.bits > ports[best.value].prefix.bits
    ensures forall j :: Longest(ports + [p], a, j) <==> j == |ports|
  {
    var all := ports + [p];
    assert forall j :: 0 <= j < |ports| ==> all[j] == ports[j];
    assert all[|ports|] == p;
  }

  lemma Better(ports: seq<Port>, p: Port, a: IpAddr, best: Option<nat>, id: nat, mine: bool)
    requires BestSoFar(ports, a, best, id, mine) && Matches(p, a)
    requires best.Some? ==> p.prefix.bits > ports[best.value].prefix.bits
    ensures BestSoFar(ports + [p], a, Some(|ports|), id, p.id == id)
  {
    OnlyLongest(ports, p, a, best);
    assert Longest(ports + [p], a, |ports|);
  }

  lemma NoBetter(ports: seq<Port>, p: Port, a: IpAddr, id: nat)
    requires BestSoFar(ports, a, None, id, false) && !Matches(p, a)
    ensures BestSoFar(ports + [p], a, None, id, false)
  {
  }

  /** One step of either scan: what it keeps of a port that is not the owner. */
  method Consider(ghost seen: seq<Port>, p: Port, a: IpAddr, best: Option<(nat, nat)>, at: nat, id: nat, mine: bool)
    returns (best': Option<(nat, nat)>, mine': bool)
    requires at == |seen| && BestSoFar(seen, a, if best.None? then None else Some(best.value.1), id, mine)
    requires best.Some? ==> best.value.0 == seen[best.value.1].prefix.bits
    ensures BestSoFar(seen + [p], a, if best'.None? then None else Some(best'.value.1), id, mine')
    ensures best'.Some? ==> best'.value.0 == (seen + [p])[best'.value.1].prefix.bits
  {
    best', mine' := best, mine;
    if !Matches(p, a) || (best.Some? && best.value.0 > p.prefix.bits) {
      if best.Some? {
        NotBetter(seen, p, a, best.value.1, id, mine);
      } else {
        NoBetter(seen, p, a, id);
      }
      return;
    }
    if best.Some? && best.value.0 == p.prefix.bits {
      NotBetter(seen, p, a, best.value.1, id, mine);
    } else {
      Better(seen, p, a, if best.None? then None else Some(best.value.1), id, mine);
      best', mine' := Some((p.prefix.bits, at)), false;
    }
    mine' := mine' || p.id == id;
  }

  method Select(ports: seq<Port>, source: nat, dst: IpAddr) returns (r: Route)
    ensures Routed(ports, source, dst, r)
  {
    var best: Option<(nat, nat)> := None;
    var senderSide := false;
    var k := 0;
    while k < |ports|
      invariant k <= |ports| && NoOwner(ports[..k], dst)
      invariant BestSoFar(ports[..k], dst, if best.None? then None else Some(best.value.1), source, senderSide)
      invariant best.Some? ==> best.value.1 < k && best.value.0 == ports[best.value.1].prefix.bits
    {
      if Owns(ports[k], dst) {
        FoundOwner(ports, k, dst);
        return ToPort(ports[k]);
      }
      assert ports[..k + 1] == ports[..k] + [ports[k]];
      best, senderSide := Consider(ports[..k], ports[k], dst, best, k, source, senderSide);
      k := k + 1;
    }
    assert ports[..k] == ports;
    if best.Some? && !senderSide {
      assert FirstLongest(ports, dst, best.value.1);
      return ToPort(ports[best.value.1]);
    }
    return Default;
  }

  lemma FoundOwner(ports: seq<Port>, k: nat, a: IpAddr)
    requires k < |ports| && NoOwner(ports[..k], a) && Owns(ports[k], a)
    ensures FirstOwner(ports, a, k) && !NoOwner(ports, a)
  {
    assert forall j :: 0 <= j < k ==> ports[..k][j] == ports[j];
  }

  // ---- the reverse path ----------------------------------------------------------

  /** Unspecified and link-local addresses are not routed. */
  predicate LinkScoped(a: IpAddr) {
    a.n == 0 || match a
                case V4(n) => Shr(n, 16) == 169 * 256 + 254
                case V6(n) => Shr(n, 118) == 0x3FA
  }

  /** Whether packets from `a` may come in on the port `id`: its own address, or no device's and inside one
      of the longest networks, the port's being one, or inside none and the port is the default route. */
  ghost predicate ReversePath(ports: seq<Port>, default: Option<nat>, id: nat, a: IpAddr) {
    || LinkScoped(a)
    || (exists i :: FirstOwner(ports, a, i) && ports[i].id == id)
    || (NoOwner(ports, a) && AmongLongest(ports, a, id))
    || (NoOwner(ports, a) && (forall i :: !Longest(ports, a, i)) && default == Some(id))
  }

  method ReversePathOk(ports: seq<Port>, default: Option<nat>, from: nat, src: IpAddr) returns (ok: bool)
    ensures ok <==> ReversePath(ports, default, from, src)
  {
    if LinkScoped(src) {
      return true;
    }
    var best: Option<(nat, nat)> := None;
    var fromBest := false;
    var k := 0;
    while k < |ports|
      invariant k <= |ports| && NoOwner(ports[..k], src)
      invariant BestSoFar(ports[..k], src, if best.None? then None else Some(best.value.1), from, fromBest)
      invariant best.Some? ==> best.value.1 < k && best.value.0 == ports[best.value.1].prefix.bits
    {
      if Owns(ports[k], src) {
        FoundOwner(ports, k, src);
        return ports[k].id == from;
      }
      assert ports[..k + 1] == ports[..k] + [ports[k]];
      best, fromBest := Consider(ports[..k], ports[k], src, best, k, from, fromBest);
      k := k + 1;
    }
    assert ports[..k] == ports;
    return if best.Some? then fromBest else default == Some(from);
  }

  /** If the hub sends packets for `a`, from whatever port, to `p`, then packets from `a` pass the
      reverse-path check on `p`. */
  lemma SelectedPassesReversePath(ports: seq<Port>, default: Option<nat>, source: nat, a: IpAddr, p: Port)
    requires Routed(ports, source, a, ToPort(p))
    ensures ReversePath(ports, default, p.id, a)
  {
    if NoOwner(ports, a) {
      var i :| FirstLongest(ports, a, i) && p == ports[i];
      assert Longest(ports, a, i) && ports[i].id == p.id;
    }
  }

  /** The hub would route packets for `a` to the port `id`: to the port itself, from some sender, or, nothing
      being known of the address, because it is the default route. */
  ghost predicate RoutesBack(ports: seq<Port>, default: Option<nat>, id: nat, a: IpAddr) {
    || SentThere(ports, id, a)
    || ((forall j :: 0 <= j < |ports| ==> !Matches(ports[j], a)) && default == Some(id))
  }

  ghost predicate SentThere(ports: seq<Port>, id: nat, a: IpAddr) {
    exists source, p :: Routed(ports, source, a, ToPort(p)) && p.id == id
  }

  /** Nobody's own address, on a longest network the port shares with one attached before it. */
  ghost predicate SharesLater(ports: seq<Port>, id: nat, a: IpAddr) {
    && NoOwner(ports, a) && AmongLongest(ports, a, id)
    && exists i :: FirstLongest(ports, a, i) && ports[i].id != id
  }

  lemma {:induction false} LeastLongest(ports: seq<Port>, a: IpAddr, i: int) returns (j: int)
    requires Longest(ports, a, i)
    ensures FirstLongest(ports, a, j)
    decreases i
  {
    if k :| 0 <= k < i && Longest(ports, a, k) {
      j := LeastLongest(ports, a, k);
    } else {
      j := i;
    }
  }

  lemma FirstLongestIsOne(ports: seq<Port>, a: IpAddr, i: int, j: int)
    requires FirstLongest(ports, a, i) && FirstLongest(ports, a, j)
    ensures i == j
  {
  }

  /** Not the identifier of any port. */
  lemma {:induction false} Stranger(ports: seq<Port>) returns (id: nat)
    ensures forall j :: 0 <= j < |ports| ==> ports[j].id < id
    decreases |ports|
  {
    if ports == [] {
      id := 0;
    } else {
      id := Stranger(ports[1..]);
      assert forall j :: 0 < j < |ports| ==> ports[j] == ports[1..][j - 1];
      id := Max(id, ports[0].id + 1);
    }
  }

  /** A port with the address, or first among the longest, is where packets for it go. */
  lemma FirstIsSentThere(ports: seq<Port>, a: IpAddr, i: int)
    requires FirstOwner(ports, a, i) || (NoOwner(ports, a) && FirstLongest(ports, a, i))
    ensures SentThere(ports, ports[i].id, a)
  {
    var source := Stranger(ports);
    if NoOwner(ports, a) {
      assert !AmongLongest(ports, a, source);
    }
    assert Routed(ports, source, a, ToPort(ports[i]));
  }

  lemma SharesIsNotSent(ports: seq<Port>, default: Option<nat>, id: nat, a: IpAddr)
    requires SharesLater(ports, id, a)
    ensures !RoutesBack(ports, default, id, a)
  {
    var i :| FirstLongest(ports, a, i) && ports[i].id != id;
    forall source, p | Routed(ports, source, a, ToPort(p)) ensures p.id != id {
      var j :| FirstLongest(ports, a, j) && p == ports[j];
      FirstLongestIsOne(ports, a, i, j);
    }
  }

  /** A packet with a routed source address passes the check if and only if the hub would route the address
      back to its port, or the port shares the longest network with one attached before it. */
  lemma ReversePathIs(ports: seq<Port>, default: Option<nat>, id: nat, a: IpAddr)
    requires !LinkScoped(a)
    ensures ReversePath(ports, default, id, a) <==> RoutesBack(ports, default, id, a) || SharesLater(ports, id, a)
    ensures SharesLater(ports, id, a) ==> !RoutesBack(ports, default, id, a)
  {
    if SharesLater(ports, id, a) {
      SharesIsNotSent(ports, default, id, a);
    } else if RoutesBack(ports, default, id, a) {
      RoutesBackPasses(ports, default, id, a);
    } else if ReversePath(ports, default, id, a) {
      PassesRoutesBack(ports, default, id, a);
    }
  }

  lemma RoutesBackPasses(ports: seq<Port>, default: Option<nat>, id: nat, a: IpAddr)
    requires RoutesBack(ports, default, id, a)
    ensures ReversePath(ports, default, id, a)
  {
    if SentThere(ports, id, a) {
      var source, p :| Routed(ports, source, a, ToPort(p)) && p.id == id;
      SelectedPassesReversePath(ports, default, source, a, p);
    }
  }

  lemma PassesRoutesBack(ports: seq<Port>, default: Option<nat>, id: nat, a: IpAddr)
    requires ReversePath(ports, default, id, a) && !LinkScoped(a) && !SharesLater(ports, id, a)
    ensures RoutesBack(ports, default, id, a)
  {
    if !NoOwner(ports, a) {
      var i :| FirstOwner(ports, a, i) && ports[i].id == id;
      FirstIsSentThere(ports, a, i);
    } else if AmongLongest(ports, a, id) {
      var k :| Longest(ports, a, k) && ports[k].id == id;
      var i := LeastLongest(ports, a, k);
      FirstIsSentThere(ports, a, i);
    } else {
      NothingMatches(ports, a);
    }
  }

  lemma {:induction false} NothingMatches(ports: seq<Port>, a: IpAddr)
    requires forall i :: !Longest(ports, a, i)
    ensures forall j :: 0 <= j < |ports| ==> !Matches(ports[j], a)
  {
    if k :| 0 <= k < |ports| && Matches(ports[k], a) {
      var i := SomeLongest(ports, a, k);
    }
  }

  lemma {:induction false} SomeLongest(ports: seq<Port>, a: IpAddr, k: int) returns (i: int)
    requires 0 <= k < |ports| && Matches(ports[k], a)
    ensures Longest(ports, a, i)
    decreases |ports|
  {
    var n := |ports| - 1;
    var before, p := ports[..n], ports[n];
    assert ports == before + [p];
    if j :| 0 <= j < n && Matches(before[j], a) {
      i := SomeLongest(before, a, j);
      LongestAfter(before, p, a, i);
      if Matches(p, a) && p.prefix.bits > before[i].prefix.bits {
        i := n;
      }
    } else {
      OnlyLongest(before, p, a, None);
      i := n;
    }
  }

  /** As two devices on one network show: the check lets 10.0.0.9 in from the second, and no packet for it
      ever goes there. */
  lemma SecondOnNetworkPasses()
    ensures var ports := [Port(1, IpPrefix(V4(0x0A000005), 24)), Port(2, IpPrefix(V4(0x0A000006), 24))];
            var a := V4(0x0A000009);
            ReversePath(ports, None, 2, a) && !RoutesBack(ports, None, 2, a)
  {
    var ports, a := [Port(1, IpPrefix(V4(0x0A000005), 24)), Port(2, IpPrefix(V4(0x0A000006), 24))], V4(0x0A000009);
    assert Shr(0x0A000005, 8) == 0x0A0000 && Shr(0x0A000006, 8) == 0x0A0000 && Shr(0x0A000009, 8) == 0x0A0000;
    assert Longest(ports, a, 0) && Longest(ports, a, 1);
    assert FirstLongest(ports, a, 0);
    SharesIsNotSent(ports, None, 2, a);
  }

  /** The rule gives one answer. */
  lemma RouteIsUnique(ports: seq<Port>, source: nat, a: IpAddr, r: Route, r': Route)
    requires Routed(ports, source, a, r) && Routed(ports, source, a, r')
    ensures r == r'
  {
    if !NoOwner(ports, a) {
      var i :| FirstOwner(ports, a, i) && r == ToPort(ports[i]);
      var j :| FirstOwner(ports, a, j) && r' == ToPort(ports[j]);
      assert i == j;
    } else if r != Default {
      var i :| FirstLongest(ports, a, i) && r == ToPort(ports[i]);
      var j :| FirstLongest(ports, a, j) && r' == ToPort(ports[j]);
      assert i == j;
    }
  }
}
