/** Whole runs of the resolution queues, for every sequence of calls. */
module PendingRuns {
  import opened Basics
  import opened MapSums
  import opened PendingQueues

  datatype Call =
    | Pin(ip: Option<Addr>)
    | Clear
    | Enqueue(addr: Addr, pkt: Bytes)
    | Poll
    | Drain(addr: Addr)

  datatype State = State(queues: Queues, pinned: Option<Addr>)

  /** `solicit` is what an enqueue answers. */
  ghost predicate Stepped(s: State, c: Call, now: Time, s': State, solicit: bool) {
    match c
    case Pin(ip) => s' == State(s.queues, ip)
    case Clear => s' == State(map[], s.pinned)
    case Enqueue(a, pkt) =>
      s'.pinned == s.pinned && Enqueued(s.queues, s.pinned == Some(a), a, pkt, now, s'.queues, solicit)
    case Poll => s' == State(AfterPoll(s.queues, now), s.pinned)
    case Drain(a) => s' == State(s.queues - {a}, s.pinned)
  }

  /** A run from empty queues, by a clock that never goes back. */
  datatype History = History(calls: seq<Call>, times: seq<Time>, states: seq<State>, answers: seq<bool>) {
    predicate Shaped() {
      |times| == |calls| && |answers| == |calls| && |states| == |calls| + 1
    }

    ghost predicate Step(i: nat)
      requires i < |calls| && Shaped()
    {
      Stepped(states[i], calls[i], times[i], states[i + 1], answers[i])
    }

    ghost predicate Valid() {
      && Shaped() && states[0] == State(map[], None)
      && (forall i, j :: 0 <= i < j < |times| ==> times[i] <= times[j])
      && (forall i :: 0 <= i < |calls| ==> Step(i))
    }
  }

  lemma StepBounded(h: History, i: nat)
    requires h.Valid() && i < |h.calls| && Bounded(h.states[i].queues)
    ensures Bounded(h.states[i + 1].queues)
  {
    var m, m', step := h.states[i].queues, h.states[i + 1].queues, h.Step(i);
    match h.calls[i]
    case Clear => SumEmpty(m', QueueSize);
    case Drain(a) =>
      SumSubmap(m', m, QueueSize);
      SubsetSize(m'.Keys, m.Keys);
    case Poll => PollBounded(m, h.times[i]);
    case Enqueue(a, pkt) =>
      var pinned := h.states[i].pinned == Some(a);
      if !Refused(m, pinned, a, pkt, h.times[i]) {
        AdmittedBounded(m, pinned, a, pkt, h.times[i], m', h.answers[i]);
      }
    case Pin(_) =>
  }

  /** At every moment of every run: at most 256 targets, 1 to 16 packets for each, 1 MiB in all. */
  lemma {:induction false} AlwaysBounded(h: History, n: nat)
    requires h.Valid() && n <= |h.calls|
    ensures Bounded(h.states[n].queues)
    decreases n
  {
    if n > 0 {
      AlwaysBounded(h, n - 1);
      StepBounded(h, n - 1);
    } else {
      SumEmpty(h.states[0].queues, QueueSize);
    }
  }

  // ---- one resolution ------------------------------------------------------

  ghost predicate Admits(s: State, c: Call, now: Time, a: Addr) {
    c.Enqueue? && c.addr == a && !Refused(s.queues, s.pinned == Some(a), a, c.pkt, now)
  }

  /** The call has a solicitation for `a` sent. */
  predicate Solicits(s: State, c: Call, now: Time, answer: bool, a: Addr) {
    || (c.Enqueue? && c.addr == a && answer)
    || (c.Poll? && a in s.queues && Resolicits(s.queues[a], now))
  }

  /** Call `i` starts resolving `a`. */
  ghost predicate Begins(h: History, i: nat, a: Addr)
    requires h.Shaped() && i < |h.calls|
  {
    Admits(h.states[i], h.calls[i], h.times[i], a) && Starts(h.states[i].queues, a, h.times[i])
  }

  function PacketOf(c: Call): Bytes {
    if c.Enqueue? then c.pkt else []
  }

  /** How a queue changes in a call that neither starts nor ends its resolution. */
  ghost predicate GoesOn(q: Queue, q': Queue, admits: bool, pkt: Bytes, solicits: bool, now: Time) {
    && IsSuffix(q'.packets, if admits then q.packets + [pkt] else q.packets)
    && (if solicits then q.next <= now && q'.sent == q.sent + 1 && q'.next == now + RETRANS_TIMER
        else q'.sent == q.sent && q'.next == q.next)
  }

  lemma OwnEnqueued(m: Queues, pinned: bool, a: Addr, pkt: Bytes, now: Time, m': Queues, answer: bool)
    requires Admitted(m, pinned, a, pkt, now, m', answer) && !Starts(m, a, now)
    ensures GoesOn(m[a], m'[a], true, pkt, answer, now)
  {
    var kept := Older(m'[a]);
    assert m'[a].packets == kept + [pkt];
    SuffixPlus(kept, m[a].packets, pkt);
  }

  lemma OtherEnqueued(m: Queues, pinned: bool, b: Addr, len: nat, now: Time, m': Queues, a: Addr)
    requires RestOk(m, pinned, b, len, now, m' - {b}) && a in m' && a != b
    ensures a in m && GoesOn(m[a], m'[a], false, [], false, now)
  {
    assert a in m' - {b};
    RestRemains(m, pinned, b, len, now, m' - {b}, a);
  }

  lemma QueueStep(h: History, i: nat, a: Addr)
    requires h.Valid() && i < |h.calls| && !Begins(h, i, a)
    requires a in h.states[i].queues && a in h.states[i + 1].queues
    ensures var s, c, now := h.states[i], h.calls[i], h.times[i];
            GoesOn(s.queues[a], h.states[i + 1].queues[a], Admits(s, c, now, a), PacketOf(c),
                   Solicits(s, c, now, h.answers[i], a), now)
  {
    var s, s', c, now, step := h.states[i], h.states[i + 1], h.calls[i], h.times[i], h.Step(i);
    if c.Enqueue? && !Refused(s.queues, s.pinned == Some(c.addr), c.addr, c.pkt, now) {
      if c.addr == a {
        OwnEnqueued(s.queues, s.pinned == Some(a), a, c.pkt, now, s'.queues, h.answers[i]);
      } else {
        OtherEnqueued(s.queues, s.pinned == Some(c.addr), c.addr, |c.pkt|, now, s'.queues, a);
      }
    }
  }

  /** A resolution of `a` starts with call `i` and is still under way after call `n - 1`. */
  ghost predicate Resolving(h: History, a: Addr, i: nat, n: nat)
    requires h.Shaped()
  {
    && i < n <= |h.calls| && Begins(h, i, a)
    && (forall k :: i < k <= n ==> a in h.states[k].queues)
    && (forall k :: i < k < n ==> !Begins(h, k, a))
  }

  /** When calls `i` to `n - 1` had solicitations for `a` sent. */
  function Solicitations(h: History, a: Addr, i: nat, n: nat): seq<Time>
    requires h.Shaped() && i <= n <= |h.calls|
    decreases n
  {
    if n == i then [] else
      Solicitations(h, a, i, n - 1)
      + if Solicits(h.states[n - 1], h.calls[n - 1], h.times[n - 1], h.answers[n - 1], a) then [h.times[n - 1]] else []
  }

  /** The packets calls `i` to `n - 1` admitted for `a`. */
  ghost function Accepted(h: History, a: Addr, i: nat, n: nat): seq<Bytes>
    requires h.Shaped() && i <= n <= |h.calls|
    decreases n
  {
    if n == i then [] else
      Accepted(h, a, i, n - 1)
      + if Admits(h.states[n - 1], h.calls[n - 1], h.times[n - 1], a) then [PacketOf(h.calls[n - 1])] else []
  }

  /** At least a second apart. */
  predicate Spaced(ts: seq<Time>) {
    |ts| > 1 ==> ts[|ts| - 1] >= ts[|ts| - 2] + RETRANS_TIMER && Spaced(ts[..|ts| - 1])
  }

  /** The queue's counters agree with what was sent, and its packets with what was admitted. */
  ghost predicate Agrees(q: Queue, ts: seq<Time>, accepted: seq<Bytes>, first: Time) {
    && ts != [] && ts[0] == first && Spaced(ts) && |ts| == q.sent
    && q.next == ts[|ts| - 1] + RETRANS_TIMER && IsSuffix(q.packets, accepted)
  }

  lemma AgreesOn(q: Queue, q': Queue, ts: seq<Time>, accepted: seq<Bytes>, first: Time,
                 admits: bool, pkt: Bytes, solicits: bool, now: Time)
    requires Agrees(q, ts, accepted, first) && GoesOn(q, q', admits, pkt, solicits, now)
    ensures Agrees(q', ts + (if solicits then [now] else []), accepted + (if admits then [pkt] else []), first)
  {
    if admits {
      SuffixPlus(q.packets, accepted, pkt);
      SuffixOfSuffix(q'.packets, q.packets + [pkt], accepted + [pkt]);
    } else {
      SuffixOfSuffix(q'.packets, q.packets, accepted);
      assert accepted + [] == accepted;
    }
    if solicits {
      assert (ts + [now])[..|ts|] == ts;
    } else {
      assert ts + [] == ts;
    }
  }

  lemma FirstCall(h: History, a: Addr, i: nat)
    requires h.Valid() && i < |h.calls| && Begins(h, i, a) && a in h.states[i + 1].queues
    ensures h.states[i + 1].queues[a] == Queue([h.calls[i].pkt], 1, h.times[i] + RETRANS_TIMER)
    ensures h.answers[i]
  {
    var s, s', step := h.states[i], h.states[i + 1], h.Step(i);
    assert Older(s'.queues[a]) == [];
  }

  lemma {:induction false} ResolvingAgrees(h: History, a: Addr, i: nat, n: nat)
    requires h.Valid() && Resolving(h, a, i, n)
    ensures Agrees(h.states[n].queues[a], Solicitations(h, a, i, n), Accepted(h, a, i, n), h.times[i])
    decreases n
  {
    if n == i + 1 {
      FirstCall(h, a, i);
      assert Solicitations(h, a, i, i) == [] && Accepted(h, a, i, i) == [];
    } else {
      ResolvingAgrees(h, a, i, n - 1);
      QueueStep(h, n - 1, a);
      var s, c, now := h.states[n - 1], h.calls[n - 1], h.times[n - 1];
      AgreesOn(s.queues[a], h.states[n].queues[a], Solicitations(h, a, i, n - 1), Accepted(h, a, i, n - 1),
               h.times[i], Admits(s, c, now, a), PacketOf(c), Solicits(s, c, now, h.answers[n - 1], a), now);
    }
  }

  lemma {:induction false} SpacedSpan(ts: seq<Time>)
    requires ts != [] && Spaced(ts)
    ensures ts[|ts| - 1] >= ts[0] + RETRANS_TIMER * (|ts| - 1)
    decreases |ts|
  {
    if |ts| > 1 {
      SpacedSpan(ts[..|ts| - 1]);
    }
  }

  /** In one resolution at most three solicitations are sent, each at least a second after the one
      before, failure comes no earlier than three seconds after the first, and what is queued is
      always the newest of what was admitted. */
  lemma ResolutionSchedule(h: History, a: Addr, i: nat, n: nat)
    requires h.Valid() && Resolving(h, a, i, n)
    ensures Spaced(Solicitations(h, a, i, n)) && |Solicitations(h, a, i, n)| <= MAX_MULTICAST_SOLICIT
    ensures Solicitations(h, a, i, n) != [] && Solicitations(h, a, i, n)[0] == h.times[i]
    ensures IsSuffix(h.states[n].queues[a].packets, Accepted(h, a, i, n))
    ensures n < |h.calls| && h.states[n].queues[a].Failed(h.times[n]) ==> h.times[n] >= h.times[i] + 3 * SECOND
  {
    ResolvingAgrees(h, a, i, n);
    AlwaysBounded(h, n);
    FailsLate(h.states[n].queues[a], Solicitations(h, a, i, n), Accepted(h, a, i, n), h.times[i]);
  }

  lemma FailsLate(q: Queue, ts: seq<Time>, accepted: seq<Bytes>, first: Time)
    requires Agrees(q, ts, accepted, first)
    ensures forall now: Time :: q.Failed(now) ==> now >= first + 3 * SECOND
  {
    SpacedSpan(ts);
  }
}
