# pktkit: verified models

Dafny models of the parts of pktkit, a userspace network stack, that keep state on every packet, and
proofs of what they promise. `dafny verify dfyconfig.toml` checks the whole project.

| file | what it models |
|---|---|
| `Basics.dfy` | bytes, time, sums over finite maps |
| `Checksum.dfy`, `Packet.dfy` | the Internet checksum (RFC 1071, RFC 1624) and the header rewrites that keep it right |
| `Fragment.dfy` | IPv4 fragmentation (section 3.2 of RFC 791) |
| `Defrag.dfy`, `Reassembly.dfy` | reassembly of one datagram, and of many under a timeout and a budget |
| `ReassemblyRuns.dfy`, `Rejoin.dfy`, `RoundTrip.dfy` | reassembly over all fragment sequences; fragmenting and reassembling a packet |
| `Neighbours.dfy`, `NeighbourRuns.dfy` | the neighbour cache and Neighbour Unreachability Detection (section 7.3 of RFC 4861) |
| `PendingQueues.dfy`, `PendingRuns.dfy` | the queues of packets awaiting resolution, and their solicitations |
| `Adapter.dfy`, `AdapterRuns.dfy` | the L2 adapter's use of a cache and its queues, and what becomes of the packets given to it |
| `Vlan.dfy` | VLAN tags and port modes (IEEE 802.1Q) |
| `MacTables.dfy`, `MacRuns.dfy` | the switch's learning table, its limits and port security |
| `Ip.dfy`, `L3Hub.dfy` | CIDR prefixes, route selection and the reverse-path check (section 2.2 of RFC 3704) |
| `Hubs.dfy` | what a switch or a routing hub does with one message: its verdict, its table, exactly its copies |
| `Forwarding.dfy`, `ForwardingRuns.dfy` | messages forwarded through hubs connected in any way, and what holds of everything one leads to |
| `Impair.dfy`, `ImpairRuns.dfy` | the delay line of an impaired link, and its delivery protocol under every interleaving |

Modelling choices. Time is a natural number of nanoseconds that never goes back, given to each call. A
method that holds a lock is one step. A hash map is a finite map visited in any order; where the order
decides (ties between equally old entries, which queue is shed), the contract allows every outcome. A
vector's capacity is exactly what was asked for. A binary heap ordered by deadline and sequence number is
the sequence of its items in release order. Random draws are free choices of the caller.

## Findings

Six promises turn out to hold only on a condition; each has its exact condition proved, and a lemma at an
input that fails.

- A link with zero jitter is documented to keep order (`src/impair.rs`, "Ordering"). Switched between a
  perfect and a fixed-delay configuration it does so in every interleaving if and only if the latter never
  duplicates, or its buffer holds at most two messages, or every message takes at least the microsecond by
  which a copy lags to serialise, or the perfect link's buffer holds at most one, or at most two and the
  delay and the least serialisation time together are at least that microsecond
  (`ImpairRuns.OrderIffOrderly`). Otherwise a message sent over the perfect link queues behind a copy and
  a later, delayed one overtakes it (`ImpairRuns.DeliveredOutOfOrder`). A link that is never switched keeps
  order whatever its configuration (`ImpairRuns.UnswitchedInOrder`).
- The incremental checksum equals the full one if and only if the window is empty or the new buffer is not
  all zero (`Checksum.IncrementalMatchesFull`; it fails when the bytes 1, 0 become 0, 0,
  `Checksum.ClearedMisses`).
- What a port sends for a VLAN reads back as that VLAN through the same mode if and only if the VLAN is not
  0 or it is sent untagged (`Vlan.ReadBack`; it fails for VLAN 0 out of a trunk without a native VLAN,
  `Vlan.ZeroIsNotReadBack`).
- A transparent port is documented to leave tags exactly as they arrived. It does if and only if the frame
  is not merely priority-tagged (VID 0): that tag is removed (`Vlan.TransparentUntouched`,
  `Vlan.PriorityTagIsLost`).

- A packet is documented to pass the reverse-path check only if the hub would route its source address back
  to its port, and a shared network to count for the device attached first. It passes if and only if that
  is so or the port shares the longest network, nobody's own address, with one attached before it
  (`L3Hub.ReversePathIs`): the second of two devices on one network passes for addresses that are never
  routed to it (`L3Hub.SecondOnNetworkPasses`).
- A congestion mark on a fragment is documented not to be lost in reassembly. It is kept if and only if a
  fragment that is not an exact repeat carries it (`ReassemblyRuns.YieldedIsAssembled`); on a repeat alone it
  is lost (`Defrag.MarkOnRepeatIsLost`).

## Model

| member | source | states |
|---|---|---|
| `Checksum.ComputeWordSum` | src/checksum.rs:166-178 | the loop is the sum of the big-endian words, an odd tail byte padded |
| `Checksum.ComputeComplementSum` | src/checksum.rs:181-195 | the loop is the sum of the complements of the words, odd tail included |
| `Checksum.Fold` | src/checksum.rs:198-203 | carrying back in gives the one's-complement residue: 0 only for 0, else the member of 1..65535 congruent modulo 65535 |
| `Checksum.ComputeChecksum` | src/checksum.rs:11-29 | the complement of the folded word sum |
| `Checksum.CombineIsConcatenation` | src/checksum.rs:35-41 | combining the sums of two buffers, the first of even length, gives the sum of their concatenation |
| `Checksum.IncrementalUpdate` | src/checksum.rs:126-137 | equation 3 of RFC 1624, for windows of any length |
| `Checksum.IncrementalMatchesFull` | src/checksum.rs:126-137 | patching an even-offset window of any length gives the full checksum of the new buffer, if and only if the window is empty or the new buffer is not all zero |
| `Checksum.ClearedMisses` | src/checksum.rs:126-137 | patching the bytes 1, 0 to 0, 0 gives 0 where the full checksum is 65535 |
| `Checksum.IncrementalUpdateUdp` | src/checksum.rs:153-161 | zero, "no checksum", is never patched and never written |
| `Packet.SetHopLimit` | src/packet.rs:906-932 | in place: only the hop limit and the patched checksum change |
| `Packet.DecrementHopLimit` | src/packet.rs:942-949 | false, and nothing changed, for a packet with no hop left; else one hop fewer |
| `Packet.SetIpEcn` | src/packet.rs:152-165 | in place: only the ECN bits and, for IPv4, the patched checksum change |
| `Packet.RecomputeChecksum` | src/packet.rs:989-1000 | in place: the checksum field becomes the checksum of the header with that field cleared |
| `Packet.RecomputedVerifies` | src/packet.rs:973-1000 | a recomputed header verifies |
| `Packet.MarkReadsBack` | src/packet.rs:152-165 | the ECN field set reads back in both families, the rest of its byte kept |
| `Packet.RewritesKeepVerdict` | src/packet.rs:906-986 | any chain of hop-limit and ECN rewrites keeps the header verifying if it did, failing if it did not, and touches no other byte |
| `Packet.DecrementsCount` | src/packet.rs:942-949 | n decrements leave exactly n hops fewer, stopping at one |
| `Fragment.CopiedOptionsHeader` | src/fragment.rs:158-195 | the option-copy loop builds the fixed header, the copyable options in order, and padding |
| `Fragment.LaterHeaderLen` | src/fragment.rs:158-195 | the later header is a whole number of words, starts as the original and is never longer |
| `Fragment.LaterOptions` | src/fragment.rs:158-195 | a receiver of a later fragment reads exactly the copyable options of the original, in order |
| `Fragment.FragmentIpv4` | src/fragment.rs:85-154 | each outcome if and only if its condition; the zero-room refusal cannot happen |
| `Fragment.SplitTiles` | src/fragment.rs:115-153 | a split has at least two pieces and they tile the payload from the incoming offset, More Fragments right on each |
| `Fragment.TilesConcatenate` | src/fragment.rs:115-153 | the pieces' data, in order, are the payload |
| `Fragment.SplitPart` | src/fragment.rs:129-149 | every part fits the MTU, verifies, may be split again, carries its piece and keeps the other header fields |
| `Fragment.MultipleOfEight` | src/fragment.rs:107-112 | every part but the last carries a multiple of eight bytes |
| `Fragment.WholePacketSplits` | src/fragment.rs:103-128 | with an MTU of at least 68, a packet whose data ends within 65536 is never refused |
| `Fragment.PartSplits` | src/fragment.rs:100-128 | a part of a split may always be split again, with an MTU of at least 68, unless it is the last and reaches beyond 65536 |
| `Fragment.RefragmentSplice` | src/fragment.rs:100-153 | splitting any part again and putting the pieces in its place tiles the original payload; that is refused at most for the last part of a packet whose data ends beyond 65536 |
| `Defrag.AcceptIffConsistent` | src/defrag.rs:305-341 | a fragment is accepted if and only if the totals agree and, of all held pieces, it touches none or exactly repeats one: looking at two neighbours is looking at all |
| `Defrag.RepeatIsIdempotent` | src/defrag.rs:318-338 | an accepted fragment that overlaps anything changes nothing |
| `Defrag.MarkOnRepeatIsLost` | src/defrag.rs:318-341 | a first half, the same marked CE, and the second half make a datagram without the mark |
| `Defrag.AcceptOk` | src/defrag.rs:305-366 | merging keeps the pieces sorted, disjoint, counted, at most 256, inside the buffer and the total, and the buffer within 65535 |
| `Defrag.CountedIsCovered` | src/defrag.rs:248 | disjoint pieces inside [0, n) hold n bytes if and only if they leave no gap |
| `Defrag.CompleteIsWhole` | src/defrag.rs:248-269 | a completed datagram has all its bytes, and a header if and only if it is not empty |
| `Reassembly.Reassembler.Push` | src/defrag.rs:211-270 | expiry, refusal, room, merging, completion and trimming, as one relation; the budget, the counts and the invariant of each datagram are kept |
| `Reassembly.Reassembler.EvictOldest` | src/defrag.rs:280-294 | the datagram dropped is the oldest other than the one kept |
| `Reassembly.Reassembler.Trim` | src/defrag.rs:253-261 | over budget only the oldest go and no more than needed; discarding the datagram itself cannot happen |
| `Reassembly.Reassembler.PushV4` | src/defrag.rs:106-156 | key, offset, flags, header and ECN taken from the packet; the rebuilt packet from what is yielded |
| `Reassembly.Reassembler.PushV6` | src/defrag.rs:162-206 | the same for IPv6, a truncated fragment header refused with nothing changed |
| `ReassemblyRuns.AlwaysBounded` | src/defrag.rs:27-43 | after any sequence of fragments: at most 64 datagrams, 256 pieces each, 1 MiB of buffers |
| `ReassemblyRuns.YieldedIsAssembled` | src/defrag.rs:211-270 | whatever was pushed, there is an event, less than 30 s before a datagram is yielded, since which its key has been in progress without a break; fragments of its key since then make it up from offset 0 to its end without gap or overlap, under the first one's header, ended by one without More Fragments; it is marked CE if and only if a fragment since then that was not a repeat was, and those never mix Not-ECT with ECN-capable; no fragment of its key since then disagrees with it in bytes or length |
| `Rejoin.CompleteIffAllSeen` | src/defrag.rs:248 | fed the fragments of one payload, it is complete if and only if every one has been seen |
| `Rejoin.FedYields` | src/defrag.rs:211-270 | in any order, with any repeats, inside the window: nothing until the last missing fragment, then the payload |
| `RoundTrip.RoundTrips` | src/fragment.rs:85-154 | the parts of an unfragmented packet, at most 256 of them, pushed in any order with any repeats inside 30 s, yield nothing until the last missing one and then the original payload under a bare header with the same fields, the right length and a verifying checksum |
| `RoundTrip.RoundTripsOnward` | src/fragment.rs:85-154 | the same for the parts that arrive when parts, and parts of parts, were split again any number of times on the way |
| `Neighbours.Table.Lookup` | src/arp.rs:182-193 | a MAC if and only if the entry is not gone; a gone one is forgotten |
| `Neighbours.Table.ResolveAt` | src/arp.rs:197-232 | the NUD transition and answer for sending |
| `Neighbours.Table.Poll` | src/arp.rs:237-261 | the NUD transition of every entry, and exactly the due probes, once each |
| `Neighbours.Table.UpdateAt` | src/arp.rs:301-346 | refresh, override and insertion, cutting back a full cache first |
| `Neighbours.Table.MakeRoom` | src/arp.rs:356-377 | the cut-back leaves the low-water mark, keeps a live pinned entry, and evicts nothing that comes after an unpinned entry kept |
| `Neighbours.SelectSmallest` | src/arp.rs:372-376 | n candidates none of which comes after one left |
| `NeighbourRuns.UnreachableIsFoundOut` | src/arp.rs:197-261 | with nothing heard from it, a neighbour that enters PROBE at T is probed at most three times, and from T + 6 s every resolve is a miss |
| `NeighbourRuns.ReachableIsConfirmed` | src/arp.rs:301-346 | an entry is REACHABLE until u only if a solicited message naming its present MAC came at u - 30 s |
| `NeighbourRuns.DelayFollowsUse` | src/arp.rs:206-214 | an entry is in DELAY until u only if it was used at u - 5 s |
| `NeighbourRuns.MacMovesByMessage` | src/arp.rs:316-331 | a cached MAC changes only by a message naming the new one, which may override or found the entry gone |
| `NeighbourRuns.EntryIsHeard` | src/arp.rs:301-346 | an entry's MAC was named by a message 5 minutes before it expires, and one counted as resolved answered a solicitation |
| `NeighbourRuns.NeverOverfull` | src/arp.rs:45-51 | the cache never holds more than 4096 entries |
| `NeighbourRuns.CutBacksAreRare` | src/arp.rs:45-51 | between two cut-backs at least 512 new neighbours are inserted |
| `PendingQueues.Pending.EnqueueAt` | src/arp.rs:514-612 | refused if and only if there is no room, and then nothing changes; else queued behind the newest packets of its queue that fit; others untouched except that for the pinned router at most one target goes and then oldest packets, none once the rest fits; the bounds are kept |
| `PendingQueues.Pending.MakeBytes` | src/arp.rs:585-597 | room is made by dropping oldest packets only, each only because what was left did not fit, for the pinned router the others' before its own; finding the queue empty cannot happen, pinned or not |
| `PendingQueues.Pending.ShedOther` | src/arp.rs:432-447 | one oldest packet of some other queue dropped, the queue with it if empty; refused only if no other holds any |
| `PendingQueues.Pending.OpenTarget` | src/arp.rs:543-577 | a new target: failed ones swept out if there are too many, exactly one of those nearest to failing given up for the pinned router, else refused unchanged |
| `PendingQueues.Pending.Poll` | src/arp.rs:616-636 | exactly what is due for each target, once; failed ones removed with their packets, oldest first |
| `PendingQueues.Pending.Drain` | src/arp.rs:669-676 | the whole queue, oldest first, and the target forgotten |
| `PendingQueues.AdmittedBounded` | src/arp.rs:543-612 | queueing a packet that is not refused keeps at most 256 targets, 16 packets each and 1 MiB in all |
| `PendingRuns.AlwaysBounded` | src/arp.rs:38-44 | after any calls: at most 256 targets, 1 to 16 packets each, 1 MiB in all, derived for each call from what it does |
| `PendingRuns.ResolutionSchedule` | src/arp.rs:514-636 | in one resolution at most three solicitations, a second apart or more; failure no earlier than 3 s after the first; the queue is always the newest of what was admitted |
| `Adapter.L2Adapter.Send` | src/l2adapter.rs:507-520 | sent if the next hop is known, queued if not, with the requests and probes due; no address is ever both cached and queued |
| `Adapter.L2Adapter.Learn` | src/l2adapter.rs:845-856 | what was queued for the address leaves once, oldest first, to the MAC now cached, and its queue is gone |
| `Adapter.L2Adapter.HandleArp` | src/l2adapter.rs:592-677 | for any operation: who is learnt and who is not, the cache updated exactly as for that address, MAC and confirmation, claims to our address only counted, requests for us answered; the gateway's MAC is not moved, and only a reply sent to us makes an entry REACHABLE, at the MAC it names |
| `Adapter.L2Adapter.RunTimers` | src/l2adapter.rs:294-320 | nothing once closed; else the deferred ICMP errors handed over once, then probes, repeated requests and undeliverable packets, as the two timers say |
| `Adapter.OnlyAnswersConfirm` | src/l2adapter.rs:637-660 | an update of the cache makes an entry REACHABLE, or moves one that is, only if it answers a request of ours, and at the MAC it names |
| `Adapter.L2Adapter.SetGateway` | src/l2adapter.rs:228-240 | the gateway is pinned in both |
| `AdapterRuns.AlwaysDisjoint` | src/l2adapter.rs:507-520 | after any calls no address is both cached and waited for |
| `AdapterRuns.LeavesOnceInOrder` | src/l2adapter.rs:507-520 | after any calls, what has left for an address and what waits for it are some of the packets given for it, none twice and in the order given |
| `Vlan.PushPop` | src/build.rs:210-235 | a pushed tag reads back, and popping it restores the frame |
| `Vlan.Egress.Apply` | src/l2hub.rs:305-344 | the memoised forms are those an uncached rewrite makes |
| `Vlan.ReadBack` | src/l2hub.rs:236-266 | what leaves a port keeps addresses, inner EtherType and payload, doubly tagged or not, and reads back as its VLAN through the same mode if and only if that is not 0 or it is sent untagged |
| `Vlan.ZeroIsNotReadBack` | src/l2hub.rs:236-266 | what a trunk for all VLANs without a native one sends for VLAN 0, it would not accept |
| `Vlan.ChainKeepsVlan` | src/l2hub.rs:773-851 | over any chain of switches whose linked ports share a mode, a frame that gets through is in its VLAN and says the same |
| `Vlan.TransparentUntouched` | src/l2hub.rs:223-232 | a transparent port accepts every frame, and passes it untouched if and only if it is not merely priority-tagged |
| `Vlan.PriorityTagIsLost` | src/l2hub.rs:223-266 | a priority-tagged frame leaves a transparent port without its tag |
| `MacTables.MacTable.Insert` | src/l2hub.rs:432-438 | the table updated, the per-port counts still the numbers of entries |
| `MacTables.MacTable.Remove` | src/l2hub.rs:440-444 | an entry removed, the counts still right |
| `MacTables.MacTable.PurgePort` | src/l2hub.rs:447-450 | a port's entries removed, the counts still right |
| `MacTables.MacTable.PruneExpired` | src/l2hub.rs:459-469 | with its skip test, exactly the unexpired entries |
| `MacTables.MacTable.Learn` | src/l2hub.rs:859-920 | the table and verdict of the same rule computed from the entries alone |
| `MacTables.MacTable.Lookup` | src/l2hub.rs:923-942 | where a frame goes; stale entries forgotten |
| `MacRuns.LearnRespectsLimit` | src/l2hub.rs:888-911 | learning raises no count but its own port's, and that never past its limit |
| `MacRuns.LearnedIsAlive` | src/l2hub.rs:859-920 | after a successful learn the entry is on the port for more than half and at most all of the aging time; on a secure port there is always one |
| `MacRuns.EntryIsHeard` | src/l2hub.rs:912-920 | an address is on a port only because a frame from it came in there, an aging time before the entry expires |
| `MacRuns.FoundWhereHeard` | src/l2hub.rs:923-942 | a frame for one port goes only where its destination was heard within the aging time, and not back |
| `MacRuns.NeverOverfull` | src/l2hub.rs:895-911 | the table never holds more than 8192 entries |
| `MacRuns.SecureAddressIsHeld` | src/l2hub.rs:859-942 | while a port stays connected, secure and in its mode, an unexpired address on it is not moved or removed, and a frame claiming it from another port is not let through |
| `Ip.MaskedIsSameNetwork` | src/ip.rs:50-70 | masking is idempotent and names the same network |
| `Ip.PrefixesNest` | src/ip.rs:148-172 | of two prefixes with an address in common the longer lies inside the shorter |
| `Ip.PrefixExtremes` | src/ip.rs:148-172 | a full-length prefix holds one address, an empty one the family |
| `L3Hub.Select` | src/l3hub.rs:303-334 | the one-pass scan is the declarative longest-prefix rule |
| `L3Hub.RouteIsUnique` | src/l3hub.rs:303-334 | the rule gives one answer |
| `L3Hub.ReversePathOk` | src/l3hub.rs:338-375 | the scan accepts exactly by the three documented rules: the owner of the address, the longest networks, the default route |
| `L3Hub.ReversePathIs` | src/l3hub.rs:153-179 | a routed source address passes if and only if the hub would route it back to the port, from some sender or by default, or the port shares the longest network with one attached before it; and those exclude each other |
| `L3Hub.SecondOnNetworkPasses` | src/l3hub.rs:338-375 | of two devices on 10.0.0.0/24 the second passes for 10.0.0.9, which is never routed to it |
| `L3Hub.SelectedPassesReversePath` | src/l3hub.rs:303-375 | a port chosen for an address, from any sender, passes the reverse-path check for it |
| `Hubs.DecidedRight` | src/l2hub.rs:773-851 | no copy goes back where it came from; a switch's is what the port modes make of the frame, a routing hub's is the packet itself for a group, else one hop older out of the port the routing rule names; only a packet out of hops is answered to its sender |
| `Hubs.DecidedSends` | src/l2hub.rs:948-966 | a message counts as forwarded or flooded if and only if a copy was sent on: a flood that reaches nobody is a drop |
| `Hubs.FloodReachesAll` | src/l2hub.rs:948-966 | a switch's flood sends to each port but the ingress what its mode makes of the frame, if anything, once, and nothing else |
| `Forwarding.Network.Enter` | src/l2hub.rs:61-87 | one level deeper if and only if the limit is not reached; the depth never exceeds the largest limit |
| `Forwarding.Network.SetMaxForwardDepth` | src/l2hub.rs:613-617 | one switch's limit, and the shared one raised to it |
| `Forwarding.Network.Receive` | src/l2hub.rs:773-789 | counted as received, and as a loop if too deep; all it leads to is exactly what the hubs' rules have, each in the state it is in by then |
| `Forwarding.Network.Forward` | src/l2hub.rs:773-851 | the verdict, the table and the copies of a frame are those of the switch's rule; each copy is handed to its port's device, in order; ends whatever the topology, the depth restored |
| `Forwarding.Network.Flood` | src/l2hub.rs:948-966 | exactly the copies of a flood, each handed to its port's device, and their number |
| `Forwarding.Network.SendOut` | src/l2hub.rs:832-844 | if and only if the port carries the VLAN and the frame can take the form it needs, that form is handed to its device; else nothing happens |
| `Forwarding.Network.Route` | src/l3hub.rs:202-299 | the verdict and the copies of a packet are those of the routing hub's rule, each handed to its port's device |
| `Forwarding.Network.RouteOne` | src/l3hub.rs:270-299 | out of the port the routing rule names, one hop older; dropped if that is none or where it came from; out of hops, dropped and its sender perhaps told |
| `Forwarding.Network.RouterFlood` | src/l3hub.rs:253-269 | exactly one copy, unchanged, for each port but the one it came from |
| `Forwarding.Network.Send` | src/connect.rs:31-52 | a station has the message, and may send any messages into any ports before it returns; a wire is one level of depth, and loses what is too deep |
| `Forwarding.RunConserves` | src/l2hub.rs:773-851 | whatever happens, no hub's setup changes and each has as many messages open as before |
| `Forwarding.Network.Inject` | src/l2hub.rs:773-851 | over any finite topology, cycles of hubs, of wires or of both included, a message ends, what it led to is as the hubs' rules have it, the depth is back at zero, and every hub has received = forwarded + flooded + dropped |
| `ForwardingRuns.NestingBounded` | src/l2hub.rs:61-87 | everything a message leads to is nested no deeper than the largest limit |
| `ForwardingRuns.EveryCopyRight` | src/l2hub.rs:773-851 | no copy anywhere in what a message leads to went back where it came from or left otherwise than the port modes and the routing rule say |
| `ForwardingRuns.StaysInVlan` | src/l2hub.rs:773-851 | over any topology of switches whose linked ports share a mode, a frame is in its VLAN at every hub it reaches, leaves only by ports that carry that VLAN, and says the same at every hub and station |
| `ForwardingRuns.HopsRunOut` | src/l3hub.rs:287-299 | however the routes of routing hubs loop, a packet is routed on fewer times than its hop limit |
| `Impair.Engine.SubmitPerfect` | src/impair.rs:457-486 | inline only if nothing waits or is being delivered, else behind the last its way, within the limit |
| `Impair.Engine.SubmitDelayed` | src/impair.rs:513-568 | serialised behind the link, delayed, perhaps copied, within the limit; the counts per direction kept |
| `Impair.Engine.TakeDue` | src/impair.rs:599-610 | everything due, in release order, counted as in flight |
| `ImpairRuns.AlwaysOneBatch` | src/impair.rs:297-347 | in every interleaving at most one thread delivers, it holds the lock, and `in_flight` is the undelivered part of its batch |
| `ImpairRuns.StoppedDeliversNoMore` | src/impair.rs:578-585 | however a run goes on after `stop`, each way the messages delivered, being delivered by their submitter or left in the batch are together always the same: nothing that waited and nothing submitted later is delivered |
| `ImpairRuns.DeliveredInOrder` | src/impair.rs:386-446 | under the condition above, in every interleaving the originals delivered each way are in submission order |
| `ImpairRuns.UnswitchedInOrder` | src/impair.rs:44-48 | a link never switched, perfect or with a fixed delay, delivers in submission order in every interleaving |
| `ImpairRuns.DeliveredOutOfOrder` | src/impair.rs:451-568 | without it, an interleaving that delivers the third message before the second |
| `ImpairRuns.OrderIffOrderly` | src/impair.rs:451-626 | order in every interleaving if and only if the condition |

## Left out

- Sockets, threads, capture files, pools, statistics of devices, randomness and clocks: input and output, or platform code.
- IPv6 and transport checksums (`pseudo_header_checksum`, `transport_checksum`): expressions over the sums modelled here.
- 64-bit accumulators of the checksum loops: the sums are unbounded here; no buffer that fits in memory overflows them.
- Defrag.Accept: merges on values; that the source updates the buffer, the list of pieces and the total in place is not captured.
- Fragment.PartOf: builds a part on values rather than patching a buffer.
- Reassembly.Reassembler.PushV6: there is no IPv6 fragmentation in the repository, so no round trip is stated for it.
- Neighbours.Table.Poll: the order of the probes is that of the hash map and is left open.
- Adapter.L2Adapter.RunTimers: the ICMP errors made from undeliverable packets, and their rate limit, are not modelled; the packets are returned.
- Adapter: one address family at a time; broadcast and multicast destinations, the choice of next hop, DHCP, the ICMP errors and the NDP codecs are not modelled.
- Forwarding: two calls into the network at the same time, and ports connected or reconfigured while a frame is on its way; an adapter between a switch and a routing hub is a station.
- Impair: loss, corruption, ECN marking and jitter only as far as they decide whether a message is queued; panics in handlers; deadlines the clock cannot represent.
- Overflow of the counters and of time.
- The NAT, tunnel, virtual TCP and user-mode networking features are not part of this model.
