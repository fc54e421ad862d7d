/** Whole runs of an adapter: what becomes of the packets given to it, for every sequence of calls. */
module AdapterRuns {
  import opened Basics
  import opened Neighbours
  import opened Adapter
  import PendingQueues

  datatype Call =
    | Send(target: Addr, packet: Bytes)
    | Learn(ip: Addr, mac: Mac, solicited: bool, override: bool)
    | Overhear(claim: Claim)
    | RunTimers
    | SetGateway(gateway: Option<Addr>)

  datatype State = State(cache: Cache, queues: PendingQueues.Queues, gateway: Option<Addr>)

  ghost predicate Queued(s: State, a: Addr, packet: Bytes, now: Time, q': PendingQueues.Queues) {
    || PendingQueues.Enqueued(s.queues, s.gateway == Some(a), a, packet, now, q', true)
    || PendingQueues.Enqueued(s.queues, s.gateway == Some(a), a, packet, now, q', false)
  }

  /** A call, and the packets that leave for the address it is about. */
  ghost predicate Stepped(s: State, c: Call, now: Time, s': State, left: seq<Bytes>) {
    match c
    case Send(a, packet) =>
      && s'.gateway == s.gateway && s'.cache == AfterResolve(s.cache, a, now)
      && if Answer(s.cache, a, now) == Miss then left == [] && Queued(s, a, packet, now, s'.queues)
         else left == [packet] && s'.queues == s.queues
    case Learn(ip, mac, solicited, override) =>
      && s'.gateway == s.gateway && Updated(s.cache, s.gateway, ip, mac, solicited, override, now, s'.cache)
      && s'.queues == s.queues - {ip} && left == PendingQueues.Own(s.queues, ip)
    case Overhear(a) =>
      && s'.gateway == s.gateway
      && if Learns(s.cache, s.queues, a, now) then
           && Updated(s.cache, s.gateway, a.ip, a.mac, a.confirmed, s.gateway != Some(a.ip), now, s'.cache)
           && s'.queues == s.queues - {a.ip} && left == PendingQueues.Own(s.queues, a.ip)
         else
           && s'.cache == (if a.ip == UNSPECIFIED then s.cache else AfterLookup(s.cache, a.ip, now))
           && s'.queues == s.queues && left == []
    case RunTimers =>
      s' == State(AfterPoll(s.cache, now), PendingQueues.AfterPoll(s.queues, now), s.gateway) && left == []
    case SetGateway(gw) => s' == State(s.cache, s.queues, gw) && left == []
  }

  function About(c: Call): Option<Addr> {
    match c
    case Send(a, _) => Some(a)
    case Learn(ip, _, _, _) => Some(ip)
    case Overhear(a) => Some(a.ip)
    case RunTimers => None
    case SetGateway(_) => None
  }

  /** Any run from a new adapter. */
  datatype History = History(calls: seq<Call>, times: seq<Time>, states: seq<State>, left: seq<seq<Bytes>>) {
    predicate Shaped() {
      |times| == |calls| && |left| == |calls| && |states| == |calls| + 1
    }

    ghost predicate Step(i: nat)
      requires i < |calls| && Shaped()
    {
      Stepped(states[i], calls[i], times[i], states[i + 1], left[i])
    }

    ghost predicate Valid() {
      && Shaped() && states[0].cache == map[] && states[0].queues == map[]
      && forall i :: 0 <= i < |calls| ==> Step(i)
    }
  }

  // ---- never known and being resolved ------------------------------------------

  lemma UpdatedKeys(m: Cache, pinned: Option<Addr>, ip: Addr, mac: Mac, solicited: bool, override: bool,
                    now: Time, m': Cache)
    requires Updated(m, pinned, ip, mac, solicited, override, now, m')
    ensures m'.Keys <= m.Keys + {ip}
  {
  }

  lemma QueuedKeys(s: State, a: Addr, packet: Bytes, now: Time, q': PendingQueues.Queues)
    requires Queued(s, a, packet, now, q')
    ensures q'.Keys <= s.queues.Keys + {a}
  {
    forall k | k in q' && k != a ensures k in s.queues {
      OthersRemain(s, a, packet, now, q', k);
    }
  }

  /** Queueing a packet leaves others' queues as they were but for their oldest packets. */
  lemma OthersRemain(s: State, a: Addr, packet: Bytes, now: Time, q': PendingQueues.Queues, k: Addr)
    requires Queued(s, a, packet, now, q') && k in q' && k != a
    ensures PendingQueues.Remains(s.queues, k, q'[k])
  {
    if !PendingQueues.Refused(s.queues, s.gateway == Some(a), a, packet, now) {
      assert k in q' - {a} && (q' - {a})[k] == q'[k];
      PendingQueues.RestRemains(s.queues, s.gateway == Some(a), a, |packet|, now, q' - {a}, k);
    }
  }

  lemma StepDisjoint(s: State, c: Call, now: Time, s': State, left: seq<Bytes>)
    requires Stepped(s, c, now, s', left) && Disjoint(s.cache, s.queues)
    ensures Disjoint(s'.cache, s'.queues)
  {
    match c
    case Send(a, packet) =>
      if Answer(s.cache, a, now) == Miss {
        QueuedKeys(s, a, packet, now, s'.queues);
      }
    case Learn(ip, mac, solicited, override) =>
      UpdatedKeys(s.cache, s.gateway, ip, mac, solicited, override, now, s'.cache);
    case Overhear(a) =>
      if Learns(s.cache, s.queues, a, now) {
        UpdatedKeys(s.cache, s.gateway, a.ip, a.mac, a.confirmed, s.gateway != Some(a.ip), now, s'.cache);
      }
    case RunTimers =>
    case SetGateway(_) =>
  }

  /** At every moment of every run no address is both cached and waited for. */
  lemma {:induction false} AlwaysDisjoint(h: History, n: nat)
    requires h.Valid() && n <= |h.calls|
    ensures Disjoint(h.states[n].cache, h.states[n].queues)
    decreases n
  {
    if n > 0 {
      AlwaysDisjoint(h, n - 1);
      var step := h.Step(n - 1);
      StepDisjoint(h.states[n - 1], h.calls[n - 1], h.times[n - 1], h.states[n], h.left[n - 1]);
    }
  }

  // ---- each packet at most once, and in order ----------------------------------

  /** The packets given to the first `n` calls for `a`. */
  function Given(h: History, a: Addr, n: nat): seq<Bytes>
    requires n <= |h.calls|
    decreases n
  {
    if n == 0 then [] else Given(h, a, n - 1) + GivenIn(h.calls[n - 1], a)
  }

  function GivenIn(c: Call, a: Addr): seq<Bytes> {
    if c.Send? && c.target == a then [c.packet] else []
  }

  /** The packets that left for `a` in them, in order. */
  function Gone(h: History, a: Addr, n: nat): seq<Bytes>
    requires h.Shaped() && n <= |h.calls|
    decreases n
  {
    if n == 0 then [] else Gone(h, a, n - 1) + GoneIn(h.calls[n - 1], h.left[n - 1], a)
  }

  function GoneIn(c: Call, left: seq<Bytes>, a: Addr): seq<Bytes> {
    if About(c) == Some(a) then left else []
  }

  /** `s` is some of `t`, none twice and in the same order: the `i`-th is the one at `at[i]`. */
  predicate Picks(s: seq<Bytes>, t: seq<Bytes>, at: seq<nat>) {
    && |at| == |s|
    && (forall i :: 0 <= i < |s| ==> at[i] < |t| && s[i] == t[at[i]])
    && (forall i, j :: 0 <= i < j < |at| ==> at[i] < at[j])
  }

  lemma PicksFewer(g: seq<Bytes>, own: seq<Bytes>, x: seq<Bytes>, t: seq<Bytes>, at: seq<nat>) returns (at': seq<nat>)
    requires Picks(g + own, t, at) && PendingQueues.IsSuffix(x, own)
    ensures Picks(g + x, t, at')
  {
    var k := |own| - |x|;
    at' := at[..|g|] + at[|g| + k..];
    forall i | 0 <= i < |g + x| ensures at'[i] < |t| && (g + x)[i] == t[at'[i]] {
      if i < |g| {
        assert (g + own)[i] == (g + x)[i];
      } else {
        assert (g + own)[i + k] == own[i - |g| + k] == x[i - |g|];
      }
    }
  }

  lemma PicksLater(s: seq<Bytes>, t: seq<Bytes>, at: seq<nat>, p: Bytes)
    requires Picks(s, t, at)
    ensures Picks(s, t + [p], at)
  {
  }

  lemma PicksMore(g: seq<Bytes>, own: seq<Bytes>, t: seq<Bytes>, at: seq<nat>, p: Bytes)
    requires Picks(g + own, t, at)
    ensures Picks(g + (own + [p]), t + [p], at + [|t|])
  {
    assert g + (own + [p]) == (g + own) + [p];
  }

  /** What leaves and what still waits are the newest of what waited before and was given now, or of what
      waited before. */
  ghost predicate Passed(own: seq<Bytes>, given: seq<Bytes>, left: seq<Bytes>, own': seq<Bytes>) {
    PendingQueues.IsSuffix(left + own', own + given) || PendingQueues.IsSuffix(left + own', own)
  }

  lemma SendPasses(s: State, a: Addr, packet: Bytes, now: Time, s': State, left: seq<Bytes>)
    requires Stepped(s, Send(a, packet), now, s', left) && Disjoint(s.cache, s.queues)
    ensures Passed(PendingQueues.Own(s.queues, a), [packet], left, PendingQueues.Own(s'.queues, a))
  {
    var own, own' := PendingQueues.Own(s.queues, a), PendingQueues.Own(s'.queues, a);
    if Answer(s.cache, a, now) != Miss {
      assert own == [] && own' == [] && left + own' == [packet] && own + [packet] == [packet];
    } else if PendingQueues.Refused(s.queues, s.gateway == Some(a), a, packet, now) {
      assert left + own' == own;
    } else {
      JoinPasses(s, a, packet, now, s'.queues);
      assert left + own' == own';
    }
  }

  lemma JoinPasses(s: State, a: Addr, packet: Bytes, now: Time, q': PendingQueues.Queues)
    requires Queued(s, a, packet, now, q') && !PendingQueues.Refused(s.queues, s.gateway == Some(a), a, packet, now)
    ensures PendingQueues.IsSuffix(PendingQueues.Own(q', a), PendingQueues.Own(s.queues, a) + [packet])
  {
    var pinned := s.gateway == Some(a);
    if PendingQueues.Enqueued(s.queues, pinned, a, packet, now, q', true) {
      PendingQueues.AdmittedOwn(s.queues, pinned, a, packet, now, q', true);
    } else {
      PendingQueues.AdmittedOwn(s.queues, pinned, a, packet, now, q', false);
    }
  }

  /** A call about an address that gives no packet for it has all its packets leave, or none. */
  lemma AboutPasses(s: State, c: Call, now: Time, s': State, left: seq<Bytes>, a: Addr)
    requires Stepped(s, c, now, s', left) && !c.Send? && About(c) == Some(a)
    ensures left + PendingQueues.Own(s'.queues, a) == PendingQueues.Own(s.queues, a)
  {
  }

  /** A call about something else leaves it at most its oldest packets fewer. */
  lemma ElsewherePasses(s: State, c: Call, now: Time, s': State, left: seq<Bytes>, a: Addr)
    requires Stepped(s, c, now, s', left) && About(c) != Some(a)
    ensures PendingQueues.IsSuffix(PendingQueues.Own(s'.queues, a), PendingQueues.Own(s.queues, a))
  {
    if c.Send? && a in s'.queues && Answer(s.cache, c.target, now) == Miss {
      OthersRemain(s, c.target, c.packet, now, s'.queues, a);
    }
  }

  lemma OtherPasses(s: State, c: Call, now: Time, s': State, left: seq<Bytes>, a: Addr)
    requires Stepped(s, c, now, s', left) && GivenIn(c, a) == []
    ensures PendingQueues.IsSuffix(GoneIn(c, left, a) + PendingQueues.Own(s'.queues, a), PendingQueues.Own(s.queues, a))
  {
    if About(c) == Some(a) {
      AboutPasses(s, c, now, s', left, a);
    } else {
      ElsewherePasses(s, c, now, s', left, a);
      assert [] + PendingQueues.Own(s'.queues, a) == PendingQueues.Own(s'.queues, a);
    }
  }

  lemma StepPasses(s: State, c: Call, now: Time, s': State, left: seq<Bytes>, a: Addr)
    requires Stepped(s, c, now, s', left) && Disjoint(s.cache, s.queues)
    ensures Passed(PendingQueues.Own(s.queues, a), GivenIn(c, a), GoneIn(c, left, a), PendingQueues.Own(s'.queues, a))
  {
    if c.Send? && c.target == a {
      SendPasses(s, a, c.packet, now, s', left);
    } else {
      OtherPasses(s, c, now, s', left, a);
    }
  }

  lemma PicksOn(g: seq<Bytes>, own: seq<Bytes>, t: seq<Bytes>, at: seq<nat>,
                given: seq<Bytes>, left: seq<Bytes>, own': seq<Bytes>)
    returns (at': seq<nat>)
    requires Picks(g + own, t, at) && |given| <= 1 && Passed(own, given, left, own')
    ensures Picks((g + left) + own', t + given, at')
  {
    assert (g + left) + own' == g + (left + own');
    if given == [] {
      assert t + given == t && own + given == own;
      at' := PicksFewer(g, own, left + own', t, at);
    } else {
      assert given == [given[0]];
      at' := PicksGiven(g, own, t, at, given[0], left + own');
    }
  }

  lemma PicksGiven(g: seq<Bytes>, own: seq<Bytes>, t: seq<Bytes>, at: seq<nat>, p: Bytes, x: seq<Bytes>)
    returns (at': seq<nat>)
    requires Picks(g + own, t, at)
    requires PendingQueues.IsSuffix(x, own + [p]) || PendingQueues.IsSuffix(x, own)
    ensures Picks(g + x, t + [p], at')
  {
    if PendingQueues.IsSuffix(x, own) {
      at' := PicksFewer(g, own, x, t, at);
      PicksLater(g + x, t, at', p);
    } else {
      at' := PicksNew(g, own, t, at, p, x);
    }
  }

  lemma PicksNew(g: seq<Bytes>, own: seq<Bytes>, t: seq<Bytes>, at: seq<nat>, p: Bytes, x: seq<Bytes>)
    returns (at': seq<nat>)
    requires Picks(g + own, t, at) && PendingQueues.IsSuffix(x, own + [p])
    ensures Picks(g + x, t + [p], at')
  {
    var own', t', at1 := own + [p], t + [p], at + [|t|];
    PicksMore(g, own, t, at, p);
    at' := PicksFewer(g, own', x, t', at1);
  }

  /** At every moment of every run, what has left for an address and what waits for it, together, are some
      of the packets given for it, none twice and in the order they were given. */
  lemma {:induction false} LeavesOnceInOrder(h: History, a: Addr, n: nat) returns (at: seq<nat>)
    requires h.Valid() && n <= |h.calls|
    ensures Picks(Gone(h, a, n) + PendingQueues.Own(h.states[n].queues, a), Given(h, a, n), at)
    decreases n
  {
    if n == 0 {
      at := [];
    } else {
      var s, c, step := h.states[n - 1], h.calls[n - 1], h.Step(n - 1);
      at := LeavesOnceInOrder(h, a, n - 1);
      AlwaysDisjoint(h, n - 1);
      StepPasses(s, c, h.times[n - 1], h.states[n], h.left[n - 1], a);
      at := PicksOn(Gone(h, a, n - 1), PendingQueues.Own(s.queues, a), Given(h, a, n - 1), at, GivenIn(c, a),
                    GoneIn(c, h.left[n - 1], a), PendingQueues.Own(h.states[n].queues, a));
    }
  }
}
