/** VLAN tags on a switch (IEEE 802.1Q): which VLAN a frame arriving on a port belongs to, and what it
    looks like leaving one. */
module Vlan {
  import opened Basics

  const TPID: word16 := 0x8100

  type Vid = v: nat | v < 65536

  // ---- tags in frames ------------------------------------------------------

  predicate HasVlan(f: Bytes) {
    |f| >= 18 && Be16(f[12], f[13]) == TPID
  }

  function VlanId(f: Bytes): Vid {
    if HasVlan(f) then Be16(f[14], f[15]) % 4096 else 0
  }

  function Pcp(f: Bytes): byte {
    if HasVlan(f) then f[14] / 32 else 0
  }

  /** The 802.1Q tag: 3 bits of priority, 12 bits of VLAN. */
  function Tag(vid: Vid, pcp: byte): Bytes {
    var tci: word16 := pcp % 8 * 8192 + vid % 4096;
    [Hi(TPID), Lo(TPID), Hi(tci), Lo(tci)]
  }

  function Push(f: Bytes, vid: Vid, pcp: byte): Bytes {
    if |f| < 14 || HasVlan(f) then f else f[..12] + Tag(vid, pcp) + f[12..]
  }

  /** Also what a frame is to a station that does not look at the tag: addresses, inner EtherType and
      payload. */
  function Pop(f: Bytes): Bytes {
    if HasVlan(f) then f[..12] + f[16..] else f
  }

  lemma TagBits(p: nat, v: nat)
    requires p < 8 && v < 4096
    ensures (p * 8192 + v) % 4096 == v && (p * 8192 + v) / 256 / 32 == p
  {
  }

  lemma TagReads(vid: Vid, pcp: byte)
    requires vid < 4096
    ensures var t := Tag(vid, pcp);
            Be16(t[0], t[1]) == TPID && Be16(t[2], t[3]) % 4096 == vid && t[2] / 32 == pcp % 8
  {
    var p := pcp % 8;
    var tci: word16 := p * 8192 + vid;
    assert Tag(vid, pcp) == [Hi(TPID), Lo(TPID), Hi(tci), Lo(tci)];
    TwoBytes(tci);
    TwoBytes(TPID);
    TagBits(p, vid);
  }

  /** A pushed tag reads back, and popping it undoes it. */
  lemma PushPop(f: Bytes, vid: Vid, pcp: byte)
    requires |f| >= 14 && !HasVlan(f) && vid < 4096
    ensures var g := Push(f, vid, pcp); HasVlan(g) && VlanId(g) == vid && Pcp(g) == pcp % 8 && Pop(g) == f
  {
    var g, t := Push(f, vid, pcp), Tag(vid, pcp);
    TagReads(vid, pcp);
    assert g[12] == t[0] && g[13] == t[1] && g[14] == t[2] && g[15] == t[3];
    assert g[..12] == f[..12] && g[16..] == f[12..];
  }

  // ---- ports ---------------------------------------------------------------

  datatype VlanSet = All | Bits(ids: set<Vid>) {
    predicate Contains(v: Vid) {
      v <= 4095 && (All? || v in ids)
    }
  }

  datatype PortMode = Access(vlan: Vid) | Trunk(allowed: VlanSet, native: Option<Vid>)

  datatype TagAction = Untagged | Tagged(vid: Vid)

  function Transparent(): PortMode {
    Trunk(All, Some(0))
  }

  /** VID 0 is a priority tag, which names no VLAN. */
  function IngressVlan(mode: PortMode, tag: Option<Vid>): Option<Vid> {
    var named := if tag == Some(0) then None else tag;
    match mode
    case Access(vlan) => if named.None? then Some(vlan) else None
    case Trunk(allowed, native) =>
      if named.Some? then
        if allowed.Contains(named.value) then named else None
      else if native.Some? && allowed.Contains(native.value) then native else None
  }

  function EgressAction(mode: PortMode, v: Vid): Option<TagAction> {
    match mode
    case Access(vlan) => if vlan == v then Some(Untagged) else None
    case Trunk(allowed, native) =>
      if !allowed.Contains(v) then None else if native == Some(v) then Some(Untagged) else Some(Tagged(v))
  }

  function TagOf(f: Bytes): Option<Vid> {
    if HasVlan(f) then Some(VlanId(f)) else None
  }

  /** The VLAN of a frame arriving on a port. */
  function Arrives(mode: PortMode, f: Bytes): Option<Vid> {
    IngressVlan(mode, TagOf(f))
  }

  /** What is sent for an action; nothing if a tag underneath would become the frame's VLAN. */
  function Rewrite(f: Bytes, action: TagAction): Option<Bytes> {
    match action
    case Untagged => if HasVlan(Pop(f)) then None else Some(Pop(f))
    case Tagged(v) =>
      if HasVlan(f) && VlanId(f) == v then Some(f)
      else if HasVlan(Pop(f)) then None
      else Some(Push(Pop(f), v, Pcp(f)))
  }

  /** What leaves a port for a frame of VLAN `v`. */
  function Leaves(mode: PortMode, v: Vid, f: Bytes): Option<Bytes> {
    var action := EgressAction(mode, v);
    if action.None? then None else Rewrite(f, action.value)
  }

  // ---- the forms of one frame, each built at most once ----------------------

  class Egress {
    const original: Bytes
    const pcp: byte
    var untagged: Option<Bytes>
    var tagged: Option<(Vid, Bytes)>

    ghost predicate Valid()
      reads this
    {
      && pcp == Pcp(original)
      && (untagged.Some? ==> HasVlan(original) && untagged.value == Pop(original))
      && (tagged.Some? ==> && !(HasVlan(original) && VlanId(original) == tagged.value.0) && !HasVlan(Pop(original))
                           && tagged.value.1 == Push(Pop(original), tagged.value.0, pcp))
    }

    constructor (f: Bytes)
      ensures Valid() && original == f
    {
      original, pcp, untagged, tagged := f, Pcp(f), None, None;
    }

    /** The cached forms are those an uncached rewrite would make. */
    method Apply(action: TagAction) returns (out: Option<Bytes>)
      requires Valid()
      modifies this
      ensures Valid() && out == Rewrite(original, action)
    {
      match action
      case Untagged =>
        if !HasVlan(original) {
          return Some(original);
        }
        if untagged.None? {
          untagged := Some(Pop(original));
        }
        return if HasVlan(untagged.value) then None else Some(untagged.value);
      case Tagged(v) =>
        if HasVlan(original) && VlanId(original) == v {
          return Some(original);
        }
        if tagged.None? || tagged.value.0 != v {
          var base := if HasVlan(original) then Pop(original) else original;
          if HasVlan(base) {
            return None;
          }
          tagged := Some((v, Push(base, v, pcp)));
        }
        return Some(tagged.value.1);
    }
  }

  // ---- a frame stays in its VLAN --------------------------------------------

  /** What an action sends is tagged as it says, and otherwise unchanged. */
  lemma RewriteSays(f: Bytes, action: TagAction, out: Bytes)
    requires |f| >= 14 && Rewrite(f, action) == Some(out) && (action.Tagged? ==> action.vid < 4096)
    ensures |out| >= 14 && Pop(out) == Pop(f)
    ensures TagOf(out) == if action.Tagged? then Some(action.vid) else None
  {
    if action.Tagged? && !(HasVlan(f) && VlanId(f) == action.vid) {
      PushPop(Pop(f), action.vid, Pcp(f));
    }
  }

  /** What leaves a port keeps its addresses, inner EtherType and payload, doubly tagged or not, and
      read back through the same port mode it is in the same VLAN -- except VLAN 0 sent tagged, which
      reads as the native VLAN. */
  lemma ReadBack(mode: PortMode, v: Vid, f: Bytes, out: Bytes)
    requires |f| >= 14 && Leaves(mode, v, f) == Some(out)
    ensures |out| >= 14 && Pop(out) == Pop(f)
    ensures Arrives(mode, out) == Some(v) <==> v != 0 || EgressAction(mode, v) == Some(Untagged)
  {
    RewriteSays(f, EgressAction(mode, v).value, out);
  }

  /** As a trunk for all VLANs without a native one shows: what it sends for VLAN 0 it would not accept. */
  lemma ZeroIsNotReadBack(f: Bytes)
    requires |f| >= 14 && !HasVlan(f)
    ensures var out := Leaves(Trunk(All, None), 0, f);
            out.Some? && Arrives(Trunk(All, None), out.value) == None
  {
    RewriteSays(f, Tagged(0), Leaves(Trunk(All, None), 0, f).value);
  }

  /** Between transparent ports a frame passes untouched, unless it is only priority-tagged: then the tag
      is taken off, or the frame dropped for the tag underneath. */
  lemma TransparentUntouched(f: Bytes)
    ensures Arrives(Transparent(), f).Some?
    ensures Leaves(Transparent(), Arrives(Transparent(), f).value, f) == Some(f)
            <==> !(HasVlan(f) && VlanId(f) == 0)
  {
    assert HasVlan(f) ==> |Pop(f)| < |f|;
  }

  /** As any frame with a priority tag shows: it arrives, and leaves without the tag. */
  lemma PriorityTagIsLost(f: Bytes, pcp: byte)
    requires |f| >= 14 && !HasVlan(f)
    ensures var g := Push(f, 0, pcp);
            Arrives(Transparent(), g) == Some(0) && Leaves(Transparent(), 0, g) == Some(f) && f != g
  {
    PushPop(f, 0, pcp);
  }

  /** A frame of VLAN `v` sent hop by hop, each link between two ports of the mode given: what it looks
      like after the last, or nothing if some port does not let it through. */
  function Carried(modes: seq<PortMode>, v: Vid, f: Bytes): Option<Bytes>
    decreases |modes|
  {
    if modes == [] then Some(f) else
      var out := Leaves(modes[0], v, f);
      if out.None? || Arrives(modes[0], out.value).None? then None
      else Carried(modes[1..], Arrives(modes[0], out.value).value, out.value)
  }

  /** Over any chain of switches whose linked ports share a mode, a frame that gets through is still in
      its VLAN and still says the same. */
  lemma {:induction false} ChainKeepsVlan(modes: seq<PortMode>, v: Vid, f: Bytes)
    requires |f| >= 14 && Carried(modes, v, f).Some?
    requires v != 0 || forall m :: m in modes ==> EgressAction(m, 0) != Some(Tagged(0))
    ensures var out := Carried(modes, v, f).value;
            |out| >= 14 && Pop(out) == Pop(f) && (modes != [] ==> Arrives(modes[|modes| - 1], out) == Some(v))
    decreases |modes|
  {
    if modes != [] {
      var out := Leaves(modes[0], v, f).value;
      ReadBack(modes[0], v, f, out);
      ChainKeepsVlan(modes[1..], v, out);
      if |modes| == 1 {
        assert Carried(modes[1..], v, out) == Some(out);
      }
    }
  }
}
