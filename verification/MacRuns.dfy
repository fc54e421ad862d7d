/** Limits and port security over whole runs of the learning table. */
module MacRuns {
  import opened Basics
  import opened MacTables

  // ---- limits ----------------------------------------------------------------

  lemma CountReplace(m: Entries, k: MacKey, e: MacEntry, p: PortId)
    ensures Count(m[k := e], p) <= Count(m, p) + (if p == e.port then 1 else 0)
    ensures k in m && m[k].port == e.port ==> Count(m[k := e], p) <= Count(m, p)
  {
    SubsetSize(OnPort(m[k := e], p), OnPort(m, p) + (if p == e.port then {k} else {}));
    if k in m && m[k].port == e.port {
      SubsetSize(OnPort(m[k := e], p), OnPort(m, p));
    }
  }

  lemma CountFewer(m': Entries, m: Entries, p: PortId)
    requires m'.Keys <= m.Keys && forall k :: k in m' ==> m'[k] == m[k]
    ensures Count(m', p) <= Count(m, p)
  {
    SubsetSize(OnPort(m', p), OnPort(m, p));
  }

  /** Learning raises no count but its own port's, and that never past the port's limit. */
  lemma LearnRespectsLimit(m: Entries, ports: Ports, key: MacKey, source: Port, now: Time, p: PortId)
    ensures var m' := Learnt(m, ports, key, source, now).0;
            Count(m', p) > Count(m, p) ==>
              p == source.id && (source.macLimit.Some? ==> Count(m', p) <= source.macLimit.value)
  {
    var e, live := MacEntry(source.id, now + MAC_AGING), Live(m, now);
    CountReplace(m, key, e, p);
    CountReplace(live, key, e, p);
    CountFewer(live, m, p);
    CountFewer(live - {key}, m, p);
  }

  /** A frame that may go on from a secure port is from an address now held there, good for more than
      half and at most all of the aging time. */
  lemma LearnedIsAlive(m: Entries, ports: Ports, key: MacKey, source: Port, now: Time)
    requires forall k :: k in m ==> m[k].expires <= now + MAC_AGING
    ensures var (m', ok) := Learnt(m, ports, key, source, now);
            && (ok && source.secure ==> key in m' && m'[key].port == source.id)
            && (ok && key in m' ==> m'[key].port == source.id)
            && (ok && key in m' ==> MAC_AGING / 2 < m'[key].expires - now <= MAC_AGING)
  {
  }

  // ---- runs ------------------------------------------------------------------

  datatype Call =
    | Connect(port: Port)
    | Disconnect(id: PortId)
    | SetMode(id: PortId)
    | Configure(port: Port)
    | Learn(key: MacKey, from: PortId)
    | Lookup(key: MacKey, from: PortId)

  datatype State = State(entries: Entries, ports: Ports)

  /** `ok` is what learning answers; a frame from a port no longer connected is dropped before. */
  ghost predicate Stepped(s: State, c: Call, now: Time, s': State, ok: bool) {
    match c
    case Connect(port) => s' == State(s.entries, if port.id in s.ports then s.ports else s.ports[port.id := port])
    case Disconnect(id) => s' == State(Purged(s.entries, id), s.ports - {id})
    case SetMode(id) => s' == State(Purged(s.entries, id), s.ports)
    case Configure(port) => s' == State(s.entries, if port.id in s.ports then s.ports[port.id := port] else s.ports)
    case Learn(key, from) =>
      if from !in s.ports then s' == s && !ok else
        && (s'.entries, ok) == Learnt(s.entries, s.ports, key, s.ports[from].(id := from), now)
        && s'.ports == s.ports
    case Lookup(key, from) => s' == State(Found(s.entries, s.ports, key, from, now).0, s.ports)
  }

  datatype History = History(calls: seq<Call>, times: seq<Time>, states: seq<State>, answers: seq<bool>) {
    predicate Shaped() {
      |times| == |calls| && |answers| == |calls| && |states| == |calls| + 1
    }

    ghost predicate Step(i: nat)
      requires i < |calls| && Shaped()
    {
      Stepped(states[i], calls[i], times[i], states[i + 1], answers[i])
    }

    /** A run from an empty table, by a clock that never goes back. */
    ghost predicate Valid() {
      && Shaped() && states[0].entries == map[]
      && (forall i, j :: 0 <= i < j < |times| ==> times[i] <= times[j])
      && (forall i :: 0 <= i < |calls| ==> Step(i))
    }
  }

  /** No entry is good for longer than the aging time from any later moment. */
  lemma {:induction false} NeverTooLong(h: History, n: nat, i: nat)
    requires h.Valid() && n <= i < |h.calls|
    ensures forall k :: k in h.states[n].entries ==> h.states[n].entries[k].expires <= h.times[i] + MAC_AGING
    decreases n
  {
    if n > 0 {
      NeverTooLong(h, n - 1, i);
      var step := h.Step(n - 1);
      assert h.times[n - 1] <= h.times[i];
    }
  }

  /** A frame from `key` came in on `p` at `t`. */
  predicate HeardOn(h: History, n: nat, key: MacKey, p: PortId, t: int)
    requires h.Shaped() && n <= |h.calls|
  {
    exists i :: 0 <= i < n && h.calls[i] == Learn(key, p) && h.times[i] == t
  }

  /** At every moment of every run, the table has an address on a port only because a frame from it came
      in there, an aging time before the entry expires. */
  lemma {:induction false} EntryIsHeard(h: History, n: nat, key: MacKey)
    requires h.Valid() && n <= |h.calls| && key in h.states[n].entries
    ensures var e := h.states[n].entries[key]; HeardOn(h, n, key, e.port, e.expires - MAC_AGING)
    decreases n
  {
    if n > 0 {
      StepHeard(h, n - 1, key);
      if key in h.states[n - 1].entries {
        EntryIsHeard(h, n - 1, key);
      }
    }
  }

  /** An entry was there before, or a frame has just come in. */
  lemma StepHeard(h: History, i: nat, key: MacKey)
    requires h.Valid() && i < |h.calls| && key in h.states[i + 1].entries
    ensures var m, e := h.states[i].entries, h.states[i + 1].entries[key];
            || (key in m && m[key] == e)
            || (h.calls[i] == Learn(key, e.port) && h.times[i] == e.expires - MAC_AGING)
  {
    var step := h.Step(i);
  }

  /** So a frame sent to one port only goes where its destination was heard within the aging time, and
      never back where it came from. */
  lemma FoundWhereHeard(h: History, n: nat, key: MacKey, from: PortId, p: PortId)
    requires h.Valid() && n < |h.calls| && h.calls[n] == Lookup(key, from)
    requires Found(h.states[n].entries, h.states[n].ports, key, from, h.times[n]).1 == ToPort(p)
    ensures p != from && p in h.states[n].ports
    ensures exists t: int :: HeardOn(h, n, key, p, t) && h.times[n] - t < MAC_AGING
  {
    EntryIsHeard(h, n, key);
    assert HeardOn(h, n, key, p, h.states[n].entries[key].expires - MAC_AGING);
  }

  lemma {:induction false} NeverOverfull(h: History, n: nat)
    requires h.Valid() && n <= |h.calls|
    ensures |h.states[n].entries| <= MAC_TABLE_MAX_SIZE
    decreases n
  {
    if n > 0 {
      NeverOverfull(h, n - 1);
      StepSize(h, n - 1);
    }
  }

  lemma StepSize(h: History, i: nat)
    requires h.Valid() && i < |h.calls| && |h.states[i].entries| <= MAC_TABLE_MAX_SIZE
    ensures |h.states[i + 1].entries| <= MAC_TABLE_MAX_SIZE
  {
    var s, s', c, step := h.states[i], h.states[i + 1], h.calls[i], h.Step(i);
    if c.Learn? && c.from in s.ports {
      PlacedSize(s.entries, c.key, s.ports[c.from].(id := c.from), h.times[i]);
    } else {
      SubsetSize(s'.entries.Keys, s.entries.Keys);
    }
  }

  // ---- port security ---------------------------------------------------------

  /** `p` stays connected, secure and in the same mode from before call `i` until after call `n - 1`. */
  ghost predicate Secured(h: History, p: PortId, i: nat, n: nat)
    requires h.Shaped() && i <= n <= |h.calls|
  {
    && (forall k :: i <= k <= n ==> p in h.states[k].ports && h.states[k].ports[p].secure)
    && (forall k :: i <= k < n ==> h.calls[k] != Disconnect(p) && h.calls[k] != SetMode(p))
  }

  /** The address is on `p` until at least `until`. */
  ghost predicate HeldUntil(m: Entries, key: MacKey, p: PortId, until: Time) {
    key in m && m[key].port == p && m[key].expires >= until
  }

  lemma HeldStep(h: History, p: PortId, key: MacKey, until: Time, i: nat)
    requires h.Valid() && i < |h.calls| && Secured(h, p, i, i + 1)
    requires HeldUntil(h.states[i].entries, key, p, until) && h.times[i] < until
    ensures HeldUntil(h.states[i + 1].entries, key, p, until)
    ensures h.calls[i].Learn? && h.calls[i].key == key && h.calls[i].from != p ==> !h.answers[i]
  {
    var step := h.Step(i);
    NeverTooLong(h, i, i);
    assert h.calls[i] != Disconnect(p) && h.calls[i] != SetMode(p);
  }

  /** An unexpired address learned on a secure port is not moved or removed while the port stays as it
      is, and no frame claiming it from another port may go on. */
  lemma {:induction false} SecureAddressIsHeld(h: History, p: PortId, key: MacKey, i: nat, n: nat)
    requires h.Valid() && i <= n <= |h.calls| && Secured(h, p, i, n)
    requires key in h.states[i].entries && h.states[i].entries[key].port == p
    requires forall k :: i <= k < n ==> h.times[k] < h.states[i].entries[key].expires
    ensures HeldUntil(h.states[n].entries, key, p, h.states[i].entries[key].expires)
    ensures forall k :: i <= k < n && h.calls[k].Learn? && h.calls[k].key == key && h.calls[k].from != p ==>
              !h.answers[k]
    decreases n
  {
    if n > i {
      SecureAddressIsHeld(h, p, key, i, n - 1);
      HeldStep(h, p, key, h.states[i].entries[key].expires, n - 1);
    }
  }
}
