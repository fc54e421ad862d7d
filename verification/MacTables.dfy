/** The switch's learning table: which port each address was last heard on, the cached number of
    addresses per port, lazy expiry, limits and port security. */
module MacTables {
  import opened Basics
  import opened Vlan

  const MAC_AGING: Time := 300 * SECOND
  const MAC_TABLE_MAX_SIZE := 8192

  type PortId = nat
  type MacKey = (Vid, nat)

  datatype MacEntry = MacEntry(port: PortId, expires: Time)

  /** What learning needs to know of a port: its limit, if any, and whether it is secure. */
  datatype Port = Port(id: PortId, macLimit: Option<nat>, secure: bool)

  type Entries = map<MacKey, MacEntry>
  type Ports = map<PortId, Port>

  // ---- counting --------------------------------------------------------------

  function OnPort(m: Entries, p: PortId): set<MacKey> {
    set k | k in m && m[k].port == p
  }

  function Count(m: Entries, p: PortId): nat {
    |OnPort(m, p)|
  }

  /** What is stored for a port is its number of entries, and nothing if it has none. */
  ghost predicate CountIs(perPort: map<PortId, nat>, p: PortId, n: nat) {
    if n == 0 then p !in perPort else p in perPort && perPort[p] == n
  }

  ghost predicate Counts(m: Entries, perPort: map<PortId, nat>) {
    forall p :: CountIs(perPort, p, Count(m, p))
  }

  function Live(m: Entries, now: Time): Entries {
    map k | k in m && m[k].expires > now :: m[k]
  }

  function Decremented(counts: map<PortId, nat>, p: PortId): map<PortId, nat> {
    if p !in counts then counts
    else if counts[p] <= 1 then counts - {p} else counts[p := counts[p] - 1]
  }

  function Incremented(counts: map<PortId, nat>, p: PortId): map<PortId, nat> {
    counts[p := (if p in counts then counts[p] else 0) + 1]
  }

  lemma CountRemove(m: Entries, k: MacKey, p: PortId)
    requires k in m
    ensures Count(m - {k}, p) == Count(m, p) - (if p == m[k].port then 1 else 0)
  {
    assert OnPort(m - {k}, p) == OnPort(m, p) - {k};
    assert k in OnPort(m, p) <==> p == m[k].port;
  }

  lemma CountInsert(m: Entries, k: MacKey, e: MacEntry, p: PortId)
    requires k !in m
    ensures Count(m[k := e], p) == Count(m, p) + (if p == e.port then 1 else 0)
  {
    assert OnPort(m[k := e], p) == OnPort(m, p) + (if p == e.port then {k} else {});
    assert k !in OnPort(m, p);
  }

  lemma RemoveCounts(m: Entries, perPort: map<PortId, nat>, k: MacKey)
    requires Counts(m, perPort) && k in m
    ensures Counts(m - {k}, Decremented(perPort, m[k].port))
  {
    forall p ensures CountIs(Decremented(perPort, m[k].port), p, Count(m - {k}, p)) {
      CountRemove(m, k, p);
      assert CountIs(perPort, p, Count(m, p));
    }
  }

  lemma InsertCounts(m: Entries, perPort: map<PortId, nat>, k: MacKey, e: MacEntry)
    requires Counts(m, perPort) && k !in m
    ensures Counts(m[k := e], Incremented(perPort, e.port))
  {
    var m', perPort' := m[k := e], Incremented(perPort, e.port);
    forall p ensures CountIs(perPort', p, Count(m', p)) {
      CountInsert(m, k, e, p);
      assert CountIs(perPort, p, Count(m, p));
    }
  }

  /** No stored time is further off than one aging period, and nothing expires before `pruneAfter`. */
  ghost predicate Timely(m: Entries, pruneAfter: Option<Time>, clock: Time) {
    && (forall k :: k in m ==> m[k].expires <= clock + MAC_AGING)
    && (pruneAfter.Some? ==> && pruneAfter.value <= clock + MAC_AGING
                             && forall k :: k in m ==> m[k].expires >= pruneAfter.value)
  }

  // ---- what learning and looking up do, without the caches -----------------

  /** Held by another, secure, port. */
  predicate Held(e: MacEntry, ports: Ports, source: PortId, now: Time) {
    e.port != source && e.expires > now && e.port in ports && ports[e.port].secure
  }

  /** No room for one more address on the port, or a new one in the table. */
  predicate Full(m: Entries, source: Port, isNew: bool) {
    (isNew && |m| >= MAC_TABLE_MAX_SIZE) || (source.macLimit.Some? && Count(m, source.id) >= source.macLimit.value)
  }

  predicate Recent(e: MacEntry, source: PortId, now: Time) {
    e.port == source && e.expires - now > MAC_AGING / 2
  }

  /** The table after `key` is put on `source`, if there is room once what has expired is swept out,
      and whether the frame it came in may go on. */
  function Placed(m: Entries, key: MacKey, source: Port, now: Time): (Entries, bool) {
    var e := MacEntry(source.id, now + MAC_AGING);
    if key in m && m[key].port == source.id then (m[key := e], true)
    else if !Full(m, source, key !in m) then (m[key := e], true)
    else if !Full(Live(m, now), source, key !in m) then (Live(m, now)[key := e], true)
    else (Live(m, now) - {key}, !source.secure)
  }

  /** The table after a frame from `key` on `source`, and whether the frame may go on. */
  function Learnt(m: Entries, ports: Ports, key: MacKey, source: Port, now: Time): (Entries, bool) {
    if key in m && Recent(m[key], source.id, now) then (m, true)
    else if key in m && Held(m[key], ports, source.id, now) then (m, false)
    else Placed(m, key, source, now)
  }

  /** The table never outgrows its limit. */
  lemma PlacedSize(m: Entries, key: MacKey, source: Port, now: Time)
    requires |m| <= MAC_TABLE_MAX_SIZE
    ensures |Placed(m, key, source, now).0| <= MAC_TABLE_MAX_SIZE
  {
    var m' := Placed(m, key, source, now).0;
    if key in m || key !in m' {
      SubsetSize(m'.Keys, m.Keys);
    }
  }

  datatype Dest = ToPort(port: PortId) | Ingress | Unknown

  function Found(m: Entries, ports: Ports, key: MacKey, source: PortId, now: Time): (Entries, Dest) {
    if key !in m then (m, Unknown)
    else if m[key].expires <= now then (m - {key}, Unknown)
    else if m[key].port == source then (m, Ingress)
    else if m[key].port in ports then (m, ToPort(m[key].port))
    else (m - {key}, Unknown)
  }

  function Purged(m: Entries, p: PortId): Entries {
    map k | k in m && m[k].port != p :: m[k]
  }

  // ---- the table -------------------------------------------------------------

  class MacTable {
    var entries: Entries
    var perPort: map<PortId, nat>
    var pruneAfter: Option<Time>
    /** The latest time any call was told. */
    ghost var clock: Time

    ghost predicate Valid()
      reads this
    {
      Counts(entries, perPort) && Timely(entries, pruneAfter, clock) && |entries| <= MAC_TABLE_MAX_SIZE
    }

    constructor ()
      ensures Valid() && entries == map[]
    {
      entries, perPort, pruneAfter, clock := map[], map[], None, 0;
      new;
      NoCounts(entries, perPort);
    }

    method Insert(key: MacKey, e: MacEntry)
      requires Counts(entries, perPort)
      modifies `entries, `perPort
      ensures Counts(entries, perPort) && entries == old(entries)[key := e]
    {
      Remove(key);
      InsertCounts(entries, perPort, key, e);
      perPort := Incremented(perPort, e.port);
      entries := entries[key := e];
    }

    method Remove(key: MacKey)
      requires Counts(entries, perPort)
      modifies `entries, `perPort
      ensures Counts(entries, perPort) && entries == old(entries) - {key}
    {
      if key in entries {
        RemoveCounts(entries, perPort, key);
        perPort := Decremented(perPort, entries[key].port);
      } else {
        assert entries - {key} == entries;
      }
      entries := entries - {key};
    }

    function PortCount(p: PortId): (n: nat)
      requires Counts(entries, perPort)
      reads this
      ensures n == Count(entries, p)
    {
      assert CountIs(perPort, p, Count(entries, p));
      if p in perPort then perPort[p] else 0
    }

    method PurgePort(p: PortId)
      requires Valid()
      modifies `entries, `perPort
      ensures Valid() && entries == Purged(old(entries), p)
    {
      PurgeCounts(entries, perPort, p);
      SubsetSize(Purged(entries, p).Keys, entries.Keys);
      entries := Purged(entries, p);
      perPort := perPort - {p};
    }

    /** Skipping the sweep while nothing can have expired, this is a sweep all the same. */
    method PruneExpired(now: Time)
      requires Valid() && clock <= now
      modifies `entries, `perPort, `pruneAfter, `clock
      ensures Valid() && clock == now && entries == Live(old(entries), now)
    {
      clock := now;
      if pruneAfter.Some? && now < pruneAfter.value {
        assert Live(entries, now) == entries;
        return;
      }
      SubsetSize(Live(entries, now).Keys, entries.Keys);
      entries := Live(entries, now);
      perPort := CountPorts(entries);
      pruneAfter := Earliest(entries);
    }

    /** A frame from `key` on `source`: false if it must be dropped. */
    method Learn(ports: Ports, key: MacKey, source: Port, now: Time) returns (ok: bool)
      requires Valid() && clock <= now
      modifies `entries, `perPort, `pruneAfter, `clock
      ensures Valid() && clock == now
      ensures (entries, ok) == Learnt(old(entries), ports, key, source, now)
    {
      clock := now;
      if key in entries {
        if Recent(entries[key], source.id, now) {
          return true;
        }
        if Held(entries[key], ports, source.id, now) {
          return false;
        }
      }
      ok := Place(key, source, now);
    }

    /** An address new to the port, moved to it, or past halfway to expiry. */
    method Place(key: MacKey, source: Port, now: Time) returns (ok: bool)
      requires Valid() && clock == now
      modifies `entries, `perPort, `pruneAfter, `clock
      ensures Valid() && clock == now
      ensures (entries, ok) == Placed(old(entries), key, source, now)
    {
      PlacedSize(entries, key, source, now);
      var isNew := key !in entries;
      if isNew || entries[key].port != source.id {
        var room := MakeRoom(source, isNew, now);
        if !room {
          Forget(key);
          return !source.secure;
        }
      }
      Refresh(key, source.id, now);
      return true;
    }

    method Forget(key: MacKey)
      requires Valid()
      modifies `entries, `perPort
      ensures Valid() && entries == old(entries) - {key}
    {
      SubsetSize((entries - {key}).Keys, entries.Keys);
      Remove(key);
    }

    method Refresh(key: MacKey, port: PortId, now: Time)
      requires Valid() && clock == now && |entries[key := MacEntry(port, now + MAC_AGING)]| <= MAC_TABLE_MAX_SIZE
      modifies `entries, `perPort
      ensures Valid() && entries == old(entries)[key := MacEntry(port, now + MAC_AGING)]
    {
      Insert(key, MacEntry(port, now + MAC_AGING));
    }

    /** Sweeps a table that looks full; false if it still is. */
    method MakeRoom(source: Port, isNew: bool, now: Time) returns (room: bool)
      requires Valid() && clock <= now
      modifies `entries, `perPort, `pruneAfter, `clock
      ensures Valid() && old(clock) <= clock <= now
      ensures entries == if Full(old(entries), source, isNew) then Live(old(entries), now) else old(entries)
      ensures room <==> !Full(entries, source, isNew)
    {
      var full := IsFull(source, isNew);
      if full {
        PruneExpired(now);
        full := IsFull(source, isNew);
      }
      return !full;
    }

    method IsFull(source: Port, isNew: bool) returns (full: bool)
      requires Counts(entries, perPort)
      ensures full <==> Full(entries, source, isNew)
    {
      full := || (isNew && |entries| >= MAC_TABLE_MAX_SIZE)
              || (source.macLimit.Some? && PortCount(source.id) >= source.macLimit.value);
    }

    method Lookup(ports: Ports, key: MacKey, source: PortId, now: Time) returns (dest: Dest)
      requires Valid() && clock <= now
      modifies `entries, `perPort
      ensures Valid() && (entries, dest) == Found(old(entries), ports, key, source, now)
    {
      var stale := false;
      if key in entries {
        var e := entries[key];
        if e.expires <= now {
          stale := true;
        } else if e.port == source {
          return Ingress;
        } else if e.port in ports {
          return ToPort(e.port);
        } else {
          stale := true;
        }
      }
      if stale {
        Remove(key);
      }
      return Unknown;
    }
  }

  method CountPorts(m: Entries) returns (perPort: map<PortId, nat>)
    ensures Counts(m, perPort)
  {
    perPort := map[];
    var done: Entries := map[];
    var todo := m.Keys;
    NoCounts(done, perPort);
    while todo != {}
      invariant todo <= m.Keys && Counts(done, perPort)
      invariant done.Keys == m.Keys - todo && forall k :: k in done ==> done[k] == m[k]
      decreases |todo|
    {
      var k :| k in todo;
      InsertCounts(done, perPort, k, m[k]);
      perPort := Incremented(perPort, m[k].port);
      done := done[k := m[k]];
      todo := todo - {k};
    }
    assert done == m;
  }

  method Earliest(m: Entries) returns (t: Option<Time>)
    ensures t.None? <==> m.Keys == {}
    ensures t.Some? ==> (forall k :: k in m ==> m[k].expires >= t.value) && exists k :: k in m && m[k].expires == t.value
  {
    t := None;
    var todo := m.Keys;
    while todo != {}
      invariant todo <= m.Keys && (t.None? <==> todo == m.Keys)
      invariant t.Some? ==> forall k :: k in m && k !in todo ==> m[k].expires >= t.value
      invariant t.Some? ==> exists k :: k in m && m[k].expires == t.value
      decreases |todo|
    {
      var k :| k in todo;
      if t.None? || m[k].expires < t.value {
        t := Some(m[k].expires);
      }
      todo := todo - {k};
    }
  }

  lemma NoCounts(m: Entries, perPort: map<PortId, nat>)
    requires m == map[] && perPort == map[]
    ensures Counts(m, perPort)
  {
    forall p ensures CountIs(perPort, p, Count(m, p)) {
      assert OnPort(m, p) == {};
    }
  }

  lemma PurgeCounts(m: Entries, perPort: map<PortId, nat>, p: PortId)
    requires Counts(m, perPort)
    ensures Counts(Purged(m, p), perPort - {p})
  {
    forall q ensures CountIs(perPort - {p}, q, Count(Purged(m, p), q)) {
      assert OnPort(Purged(m, p), q) == if q == p then {} else OnPort(m, q);
      assert CountIs(perPort, q, Count(m, q));
    }
  }
}
