/** Whole runs of the neighbour cache, for every sequence of calls. */
module NeighbourRuns {
  import opened Basics
  import opened Neighbours

  datatype Call =
    | Pin(ip: Option<Addr>)
    | Clear
    | Lookup(addr: Addr)
    | Resolve(addr: Addr)
    | Poll
    | Update(addr: Addr, mac: Mac, solicited: bool, override: bool)

  datatype State = State(entries: Cache, pinned: Option<Addr>)

  ghost predicate Stepped(s: State, c: Call, now: Time, s': State) {
    match c
    case Pin(ip) => s' == State(s.entries, ip)
    case Clear => s' == State(map[], s.pinned)
    case Lookup(a) => s' == State(AfterLookup(s.entries, a, now), s.pinned)
    case Resolve(a) => s' == State(AfterResolve(s.entries, a, now), s.pinned)
    case Poll => s' == State(AfterPoll(s.entries, now), s.pinned)
    case Update(a, mac, solicited, override) =>
      s'.pinned == s.pinned && Updated(s.entries, s.pinned, a, mac, solicited, override, now, s'.entries)
  }

  /** A run from an empty cache, by a clock that never goes back. */
  datatype History = History(calls: seq<Call>, times: seq<Time>, states: seq<State>) {
    ghost predicate Step(i: nat)
      requires i < |calls| && |times| == |calls| && |states| == |calls| + 1
    {
      Stepped(states[i], calls[i], times[i], states[i + 1])
    }

    ghost predicate Valid() {
      && |times| == |calls| && |states| == |calls| + 1 && states[0] == State(map[], None)
      && (forall i, j :: 0 <= i < j < |times| ==> times[i] <= times[j])
      && (forall i :: 0 <= i < |calls| ==> Step(i))
    }
  }

  // ---- unreachable neighbours are found out --------------------------------

  predicate Updates(c: Call, a: Addr) {
    c.Update? && c.addr == a
  }

  /** The call asks for a unicast probe of `a`. */
  predicate Asks(m: Cache, c: Call, now: Time, a: Addr) {
    (c == Resolve(a) && Answer(m, a, now).AndProbe?) || (c == Poll && a in m && Due(m[a], now))
  }

  function Probes(h: History, a: Addr, from: nat, n: nat): nat
    requires from <= n <= |h.calls| && |h.times| == |h.calls| && |h.states| == |h.calls| + 1
    decreases n
  {
    if n == from then 0 else
      Probes(h, a, from, n - 1) + if Asks(h.states[n - 1].entries, h.calls[n - 1], h.times[n - 1], a) then 1 else 0
  }

  /** Where NUD can stand after entering PROBE at `t`, having asked for `asked` probes. */
  predicate Probed(m: Cache, a: Addr, t: Time, asked: nat) {
    if a !in m then asked <= MAX_UNICAST_SOLICIT else
      && m[a].state.Probe? && asked == m[a].state.sent
      && match m[a].state.sent
         case 1 => m[a].state.next == t + SECOND
         case 2 => m[a].state.next < t + 4 * SECOND
         case 3 => m[a].state.next < t + 6 * SECOND
         case _ => false
  }

  /** Without an update for `a`, only the timers and its use move its entry, or it is dropped. */
  lemma OnlyTimers(s: State, c: Call, now: Time, s': State, a: Addr)
    requires Stepped(s, c, now, s') && !Updates(c, a) && a in s'.entries
    ensures a in s.entries
    ensures s'.entries[a] == (if c == Resolve(a) then Used(s.entries[a], now).0
                              else if c == Poll then Ticked(s.entries[a], now) else s.entries[a])
    ensures c == Resolve(a) ==> !s.entries[a].Gone(now)
  {
  }

  lemma ProbedStep(s: State, c: Call, now: Time, s': State, a: Addr, t: Time, asked: nat)
    requires Stepped(s, c, now, s') && !Updates(c, a) && Probed(s.entries, a, t, asked)
    ensures Probed(s'.entries, a, t, asked + if Asks(s.entries, c, now, a) then 1 else 0)
  {
    if a in s'.entries {
      OnlyTimers(s, c, now, s', a);
    }
  }

  /** Call `i` moves `a` from DELAY to PROBE. */
  predicate Enters(h: History, i: nat, a: Addr)
    requires i < |h.calls| && |h.states| == |h.calls| + 1
  {
    && a in h.states[i].entries && h.states[i].entries[a].state.Delay?
    && a in h.states[i + 1].entries && h.states[i + 1].entries[a].state.Probe?
  }

  predicate Unheard(h: History, a: Addr, from: nat, n: nat)
    requires n <= |h.calls|
  {
    forall i :: from <= i < n ==> !Updates(h.calls[i], a)
  }

  lemma {:induction false} ProbedAfter(h: History, a: Addr, i: nat, n: nat)
    requires h.Valid() && i < n <= |h.calls| && Enters(h, i, a) && Unheard(h, a, i, n)
    ensures Probed(h.states[n].entries, a, h.times[i], Probes(h, a, i, n))
    decreases n
  {
    assert h.Step(n - 1);
    if n == i + 1 {
      OnlyTimers(h.states[i], h.calls[i], h.times[i], h.states[n], a);
      assert Probes(h, a, i, i) == 0;
    } else {
      ProbedAfter(h, a, i, n - 1);
      ProbedStep(h.states[n - 1], h.calls[n - 1], h.times[n - 1], h.states[n], a, h.times[i], Probes(h, a, i, n - 1));
    }
  }

  /** Unless something is heard from it, a neighbour that enters PROBE at `t` is probed at most three
      times, and from `t + 6 s` on it is unknown again. */
  lemma UnreachableIsFoundOut(h: History, a: Addr, i: nat, n: nat)
    requires h.Valid() && i < n <= |h.calls| && Enters(h, i, a) && Unheard(h, a, i, n)
    ensures Probes(h, a, i, n) <= MAX_UNICAST_SOLICIT
    ensures n < |h.calls| && h.calls[n] == Resolve(a) && h.times[n] >= h.times[i] + 6 * SECOND ==>
              Answer(h.states[n].entries, a, h.times[n]) == Miss
  {
    ProbedAfter(h, a, i, n);
  }

  // ---- REACHABLE means confirmed -------------------------------------------

  /** A solicited message named `mac` as the address of `a`, `REACHABLE_TIME` before `until`. */
  predicate Confirmed(h: History, n: nat, a: Addr, mac: Mac, until: Time)
    requires n <= |h.calls| == |h.times|
  {
    exists i :: && 0 <= i < n && h.calls[i].Update? && h.calls[i].addr == a && h.calls[i].mac == mac
                && h.calls[i].solicited && h.times[i] + REACHABLE_TIME == until
  }

  /** At every moment of every run, an entry is REACHABLE until `u` only if a solicited answer
      naming its present MAC came at `u` - 30 s. */
  lemma {:induction false} ReachableIsConfirmed(h: History, n: nat, a: Addr)
    requires h.Valid() && n <= |h.calls| && a in h.states[n].entries
    requires h.states[n].entries[a].state.Reachable?
    ensures var e := h.states[n].entries[a]; Confirmed(h, n, a, e.mac, e.state.until)
    decreases n
  {
    if n > 0 {
      assert h.Step(n - 1);
      if Updates(h.calls[n - 1], a) {
        if a in h.states[n - 1].entries && h.states[n - 1].entries[a].state.Reachable? {
          ReachableIsConfirmed(h, n - 1, a);
        }
      } else {
        OnlyTimers(h.states[n - 1], h.calls[n - 1], h.times[n - 1], h.states[n], a);
        ReachableIsConfirmed(h, n - 1, a);
      }
    }
  }

  // ---- what moves an entry ----------------------------------------------------

  /** Call `i` sent a packet to `a`. */
  predicate UsedAt(h: History, n: nat, a: Addr, t: int)
    requires n <= |h.calls| == |h.times|
  {
    exists i :: 0 <= i < n && h.calls[i] == Resolve(a) && h.times[i] == t
  }

  /** An entry waits in DELAY until `u` only because it was used at `u` - 5 s: nothing is probed that was
      not used, nor sooner than that. */
  lemma {:induction false} DelayFollowsUse(h: History, n: nat, a: Addr)
    requires h.Valid() && n <= |h.calls| && a in h.states[n].entries && h.states[n].entries[a].state.Delay?
    ensures UsedAt(h, n, a, h.states[n].entries[a].state.until - DELAY_FIRST_PROBE_TIME)
    decreases n
  {
    if n > 0 {
      assert h.Step(n - 1);
      if Updates(h.calls[n - 1], a) {
        if a in h.states[n - 1].entries && h.states[n - 1].entries[a].state.Delay? {
          DelayFollowsUse(h, n - 1, a);
        }
      } else {
        OnlyTimers(h.states[n - 1], h.calls[n - 1], h.times[n - 1], h.states[n], a);
        if h.states[n - 1].entries[a].state.Delay? {
          DelayFollowsUse(h, n - 1, a);
        }
      }
    }
  }

  /** A message from `a` at `t` named `mac`. */
  predicate HeardAt(h: History, n: nat, a: Addr, mac: Mac, t: int)
    requires n <= |h.calls| == |h.times|
  {
    exists i :: 0 <= i < n && h.calls[i].Update? && h.calls[i].addr == a && h.calls[i].mac == mac && h.times[i] == t
  }

  predicate AnsweredBefore(h: History, n: nat, a: Addr)
    requires n <= |h.calls|
  {
    exists i :: 0 <= i < n && h.calls[i].Update? && h.calls[i].addr == a && h.calls[i].solicited
  }

  /** At every moment of every run, an entry's MAC was named by a message 5 minutes before it expires, and
      one counted as resolved answered a solicitation of ours. */
  lemma {:induction false} EntryIsHeard(h: History, n: nat, a: Addr)
    requires h.Valid() && n <= |h.calls| && a in h.states[n].entries
    ensures var e := h.states[n].entries[a];
            HeardAt(h, n, a, e.mac, e.expires - DEFAULT_TTL) && (e.resolved ==> AnsweredBefore(h, n, a))
    decreases n
  {
    if n > 0 {
      assert h.Step(n - 1);
      if a in h.states[n - 1].entries {
        EntryIsHeard(h, n - 1, a);
      }
      if !Updates(h.calls[n - 1], a) {
        OnlyTimers(h.states[n - 1], h.calls[n - 1], h.times[n - 1], h.states[n], a);
      }
    }
  }

  /** A cached MAC changes only by a message naming the new one, and one that may not override changes it
      only once the entry is gone. */
  lemma MacMovesByMessage(h: History, i: nat, a: Addr)
    requires h.Valid() && i < |h.calls| && a in h.states[i].entries && a in h.states[i + 1].entries
    requires h.states[i + 1].entries[a].mac != h.states[i].entries[a].mac
    ensures Updates(h.calls[i], a) && h.calls[i].mac == h.states[i + 1].entries[a].mac
    ensures h.calls[i].override || h.states[i].entries[a].Gone(h.times[i])
  {
    var step := h.Step(i);
    if !Updates(h.calls[i], a) {
      OnlyTimers(h.states[i], h.calls[i], h.times[i], h.states[i + 1], a);
    }
  }

  // ---- room ----------------------------------------------------------------

  predicate Inserts(m: Cache, c: Call) {
    c.Update? && c.addr !in m
  }

  predicate CutsBack(m: Cache, c: Call) {
    c.Update? && Full(m, c.addr)
  }

  function Insertions(h: History, from: nat, n: nat): nat
    requires from <= n <= |h.calls| && |h.states| == |h.calls| + 1
    decreases n
  {
    if n == from then 0 else
      Insertions(h, from, n - 1) + if Inserts(h.states[n - 1].entries, h.calls[n - 1]) then 1 else 0
  }

  lemma GrowsByOne(s: State, c: Call, now: Time, s': State)
    requires Stepped(s, c, now, s')
    ensures |s'.entries| <= |s.entries| + if Inserts(s.entries, c) then 1 else 0
    ensures CutsBack(s.entries, c) ==> |s'.entries| <= LOW_WATER + 1
  {
    if Inserts(s.entries, c) {
      var room :| PlacedIn(s.entries, s.pinned, c.addr, Learnt(c.mac, c.solicited, now), now, room, s'.entries);
      SubsetSize(room.Keys, s.entries.Keys);
    } else {
      SubsetSize(s'.entries.Keys, s.entries.Keys);
    }
  }

  /** The cache never outgrows its limit. */
  lemma {:induction false} NeverOverfull(h: History, n: nat)
    requires h.Valid() && n <= |h.calls|
    ensures |h.states[n].entries| <= MAX_ENTRIES
    decreases n
  {
    if n > 0 {
      NeverOverfull(h, n - 1);
      assert h.Step(n - 1);
      GrowsByOne(h.states[n - 1], h.calls[n - 1], h.times[n - 1], h.states[n]);
    }
  }

  lemma {:induction false} SizeAfterCutBack(h: History, i: nat, n: nat)
    requires h.Valid() && i < n <= |h.calls| && CutsBack(h.states[i].entries, h.calls[i])
    ensures |h.states[n].entries| <= LOW_WATER + Insertions(h, i, n)
    decreases n
  {
    assert h.Step(n - 1);
    GrowsByOne(h.states[n - 1], h.calls[n - 1], h.times[n - 1], h.states[n]);
    if n == i + 1 {
      assert Insertions(h, i, i) == 0;
    } else {
      SizeAfterCutBack(h, i, n - 1);
    }
  }

  /** Two cut-backs are at least 512 new neighbours apart. */
  lemma CutBacksAreRare(h: History, i: nat, j: nat)
    requires h.Valid() && i < j < |h.calls|
    requires CutsBack(h.states[i].entries, h.calls[i]) && CutsBack(h.states[j].entries, h.calls[j])
    ensures Insertions(h, i, j) >= MAX_ENTRIES - LOW_WATER == 512
  {
    SizeAfterCutBack(h, i, j);
  }
}
