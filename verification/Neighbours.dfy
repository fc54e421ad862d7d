/** The neighbour cache, with the Neighbour Unreachability Detection of section 7.3 of RFC 4861. */
module Neighbours {
  import opened Basics

  type Addr = nat
  type Mac = nat

  const DEFAULT_TTL: Time := 300 * SECOND
  const RETRANS_TIMER: Time := SECOND
  const REACHABLE_TIME: Time := 30 * SECOND
  const DELAY_FIRST_PROBE_TIME: Time := 5 * SECOND
  const MAX_UNICAST_SOLICIT := 3
  const MAX_ENTRIES := 4096
  const LOW_WATER := MAX_ENTRIES - MAX_ENTRIES / 8

  datatype Nud =
    | Reachable(until: Time)
    | Stale
    | Delay(until: Time)
    | Probe(sent: nat, next: Time)

  datatype Entry = Entry(mac: Mac, state: Nud, expires: Time, resolved: bool) {
    /** Stale and past its time, or probed and never answered. */
    predicate Gone(now: Time) {
      match state
      case Stale => expires <= now
      case Reachable(until) => until <= now && expires <= now
      case Delay(_) => false
      case Probe(sent, next) => now >= next + RETRANS_TIMER * Max(MAX_UNICAST_SOLICIT - sent, 0)
    }

    function Probing(sent: nat, now: Time): Entry {
      this.(state := Probe(sent, now + RETRANS_TIMER))
    }
  }

  datatype Resolved = Hit(mac: Mac) | AndProbe(mac: Mac) | Miss

  type Cache = map<Addr, Entry>

  // ---- what each call does to one entry ----------------------------------

  /** Sending to a neighbour that is not gone. */
  function Used(e: Entry, now: Time): (Entry, Resolved) {
    match e.state
    case Reachable(until) =>
      (if until > now then e else e.(state := Delay(now + DELAY_FIRST_PROBE_TIME)), Hit(e.mac))
    case Stale => (e.(state := Delay(now + DELAY_FIRST_PROBE_TIME)), Hit(e.mac))
    case Delay(until) => if until > now then (e, Hit(e.mac)) else (e.Probing(1, now), AndProbe(e.mac))
    case Probe(sent, next) => if next > now then (e, Hit(e.mac)) else (e.Probing(sent + 1, now), AndProbe(e.mac))
  }

  /** Whether the timers ask for a probe now. */
  predicate Due(e: Entry, now: Time) {
    (e.state.Delay? && e.state.until <= now) || (e.state.Probe? && e.state.next <= now && !e.Gone(now))
  }

  function Ticked(e: Entry, now: Time): Entry {
    if !Due(e, now) then e else e.Probing(if e.state.Probe? then e.state.sent + 1 else 1, now)
  }

  /** A message from a known neighbour (section 7.2.5 of RFC 4861). */
  function Heard(e: Entry, mac: Mac, solicited: bool, override: bool, now: Time): Entry {
    if e.mac != mac && !override then
      if e.state.Reachable? && e.state.until > now then e.(state := Stale) else e
    else
      Entry(mac, if solicited || e.mac != mac then Learnt(mac, solicited, now).state else e.state,
            now + DEFAULT_TTL, e.resolved || solicited)
  }

  function Learnt(mac: Mac, solicited: bool, now: Time): Entry {
    Entry(mac, if solicited then Reachable(now + REACHABLE_TIME) else Stale, now + DEFAULT_TTL, solicited)
  }

  // ---- what each call does to the cache ----------------------------------

  function Live(m: Cache, now: Time): Cache {
    map k | k in m && !m[k].Gone(now) :: m[k]
  }

  function AfterLookup(m: Cache, ip: Addr, now: Time): Cache {
    if ip in m && m[ip].Gone(now) then m - {ip} else m
  }

  function Answer(m: Cache, ip: Addr, now: Time): Resolved {
    if ip !in m || m[ip].Gone(now) then Miss else Used(m[ip], now).1
  }

  function AfterResolve(m: Cache, ip: Addr, now: Time): Cache {
    if ip !in m then m else if m[ip].Gone(now) then m - {ip} else m[ip := Used(m[ip], now).0]
  }

  function AfterPoll(m: Cache, now: Time): Cache {
    map k | k in m && !Ticked(m[k], now).Gone(now) :: Ticked(m[k], now)
  }

  /** Learnt unasked before resolved by us, then closest to expiring. */
  predicate EvictedBefore(a: Entry, b: Entry) {
    (!a.resolved && b.resolved) || (a.resolved == b.resolved && a.expires <= b.expires)
  }

  /** A full cache cut back to the low-water mark. */
  ghost predicate CutBack(m: Cache, pinned: Option<Addr>, now: Time, m': Cache) {
    var live := Live(m, now);
    && m'.Keys <= live.Keys && (forall k :: k in m' ==> m'[k] == live[k])
    && |m'| == Min(|live|, LOW_WATER)
    && (pinned.Some? && pinned.value in live ==> pinned.value in m')
    && forall k {:trigger GoesFirst(live, k, m', pinned)} :: k in live && k !in m' ==> GoesFirst(live, k, m', pinned)
  }

  /** Nothing kept, the pinned entry apart, was to go before `k`. */
  ghost predicate GoesFirst(live: Cache, k: Addr, m': Cache, pinned: Option<Addr>)
    requires k in live
  {
    forall j :: j in m' && Some(j) != pinned ==> EvictedBefore(live[k], m'[j])
  }

  predicate Full(m: Cache, ip: Addr) {
    ip !in m && |m| >= MAX_ENTRIES
  }

  ghost predicate RoomFor(m: Cache, pinned: Option<Addr>, ip: Addr, now: Time, m': Cache) {
    if Full(m, ip) then CutBack(m, pinned, now, m') else m' == m
  }

  ghost predicate Updated(m: Cache, pinned: Option<Addr>, ip: Addr, mac: Mac, solicited: bool, override: bool,
                          now: Time, m': Cache) {
    if ip in m && !m[ip].Gone(now) then m' == m[ip := Heard(m[ip], mac, solicited, override, now)]
    else exists room :: PlacedIn(m, pinned, ip, Learnt(mac, solicited, now), now, room, m')
  }

  /** A new entry, in what the cache leaves room in. */
  ghost predicate PlacedIn(m: Cache, pinned: Option<Addr>, ip: Addr, e: Entry, now: Time, room: Cache, m': Cache) {
    RoomFor(m, pinned, ip, now, room) && m' == room[ip := e]
  }

  // ---- the cache -----------------------------------------------------------

  class Table {
    var entries: Cache
    var pinned: Option<Addr>

    ghost predicate Valid()
      reads this
    {
      |entries| <= MAX_ENTRIES
    }

    constructor ()
      ensures Valid() && entries == map[] && pinned == None
    {
      entries, pinned := map[], None;
    }

    method Pin(ip: Option<Addr>)
      modifies `pinned
      ensures pinned == ip
    {
      pinned := ip;
    }

    method Clear()
      modifies `entries
      ensures Valid() && entries == map[]
    {
      entries := map[];
    }

    method Lookup(ip: Addr, now: Time) returns (mac: Option<Mac>)
      requires Valid()
      modifies `entries
      ensures Valid() && entries == AfterLookup(old(entries), ip, now)
      ensures mac == if ip in entries then Some(entries[ip].mac) else None
    {
      if ip !in entries {
        return None;
      }
      if entries[ip].Gone(now) {
        entries := entries - {ip};
        return None;
      }
      return Some(entries[ip].mac);
    }

    method ResolveAt(ip: Addr, now: Time) returns (r: Resolved)
      requires Valid()
      modifies `entries
      ensures Valid() && r == Answer(old(entries), ip, now) && entries == AfterResolve(old(entries), ip, now)
    {
      if ip !in entries {
        return Miss;
      }
      var e := entries[ip];
      if e.Gone(now) {
        entries := entries - {ip};
        return Miss;
      }
      match e.state {
      case Reachable(until) =>
        if until <= now {
          e := e.(state := Delay(now + DELAY_FIRST_PROBE_TIME));
        }
        r := Hit(e.mac);
      case Stale =>
        e := e.(state := Delay(now + DELAY_FIRST_PROBE_TIME));
        r := Hit(e.mac);
      case Delay(until) =>
        if until > now {
          r := Hit(e.mac);
        } else {
          e := e.Probing(1, now);
          r := AndProbe(e.mac);
        }
      case Probe(sent, next) =>
        if next > now {
          r := Hit(e.mac);
        } else {
          e := e.Probing(sent + 1, now);
          r := AndProbe(e.mac);
        }
      }
      entries := entries[ip := e];
    }

    /** The neighbours to probe now; those that never answered are forgotten. */
    method Poll(now: Time) returns (probes: seq<(Addr, Mac)>)
      requires Valid()
      modifies `entries
      ensures Valid() && entries == AfterPoll(old(entries), now) && Asked(old(entries), now, {}, probes)
    {
      var all := entries;
      var todo := all.Keys;
      probes := [];
      while todo != {}
        invariant todo <= all.Keys && Visited(all, now, todo, entries) && Asked(all, now, todo, probes)
        decreases |todo|
      {
        var k :| k in todo;
        VisitOne(all, now, todo, entries, k);
        AskOne(all, now, todo, probes, k);
        var probe := RunTimer(k, now);
        if probe {
          probes := probes + [(k, all[k].mac)];
        }
        todo := todo - {k};
      }
      SubsetSize(entries.Keys, all.Keys);
      VisitedAll(all, now, entries);
    }

    /** One neighbour's timer: true if it is to be probed now. */
    method RunTimer(k: Addr, now: Time) returns (probe: bool)
      requires k in entries
      modifies `entries
      ensures probe == Due(old(entries)[k], now)
      ensures var e := Ticked(old(entries)[k], now);
              entries == if e.Gone(now) then old(entries) - {k} else old(entries)[k := e]
    {
      var e := entries[k];
      probe := false;
      if e.state.Delay? && e.state.until <= now {
        e := e.Probing(1, now);
        probe := true;
      } else if e.Gone(now) {
        entries := entries - {k};
        return;
      } else if e.state.Probe? && e.state.next <= now {
        e := e.Probing(e.state.sent + 1, now);
        probe := true;
      }
      entries := if e.Gone(now) then entries - {k} else entries[k := e];
    }

    method UpdateAt(ip: Addr, mac: Mac, solicited: bool, override: bool, now: Time)
      requires Valid()
      modifies `entries
      ensures Valid()
      ensures Updated(old(entries), pinned, ip, mac, solicited, override, now, entries)
    {
      if ip in entries && !entries[ip].Gone(now) {
        var e := entries[ip];
        if e.mac != mac && !override {
          if e.state.Reachable? && e.state.until > now {
            e := e.(state := Stale);
          }
          entries := entries[ip := e];
          return;
        }
        if solicited || e.mac != mac {
          e := e.(state := Learnt(mac, solicited, now).state);
        }
        entries := entries[ip := e.(mac := mac, expires := now + DEFAULT_TTL, resolved := e.resolved || solicited)];
        return;
      }
      if Full(entries, ip) {
        MakeRoom(now);
      }
      ghost var room := entries;
      entries := entries[ip := Learnt(mac, solicited, now)];
      assert PlacedIn(old(entries), pinned, ip, Learnt(mac, solicited, now), now, room, entries);
    }

    method MakeRoom(now: Time)
      requires Valid()
      modifies `entries
      ensures Valid() && CutBack(old(entries), pinned, now, entries)
    {
      entries := Live(entries, now);
      SubsetSize(entries.Keys, old(entries).Keys);
      if |entries| <= LOW_WATER {
        return;
      }
      var excess := |entries| - LOW_WATER;
      var victims := entries.Keys - if pinned.Some? then {pinned.value} else {};
      var n := Min(excess, |victims|);
      var chosen := SelectSmallest(entries, victims, n);
      entries := entries - chosen;
    }
  }

  /** Any `n` of the candidates none of which comes after one left. */
  method SelectSmallest(m: Cache, candidates: set<Addr>, n: nat) returns (chosen: set<Addr>)
    requires candidates <= m.Keys && n <= |candidates|
    ensures chosen <= candidates && |chosen| == n
    ensures forall k, j :: k in chosen && j in candidates && j !in chosen ==> EvictedBefore(m[k], m[j])
  {
    chosen := {};
    while |chosen| < n
      invariant chosen <= candidates && |chosen| <= n
      invariant forall k, j :: k in chosen && j in candidates && j !in chosen ==> EvictedBefore(m[k], m[j])
    {
      var k := SelectFirst(m, candidates - chosen);
      chosen := chosen + {k};
    }
  }

  method SelectFirst(m: Cache, candidates: set<Addr>) returns (k: Addr)
    requires candidates <= m.Keys && candidates != {}
    ensures k in candidates && forall j :: j in candidates ==> EvictedBefore(m[k], m[j])
  {
    k :| k in candidates;
    var todo := candidates - {k};
    while todo != {}
      invariant todo <= candidates && k in candidates
      invariant forall j :: j in candidates && j !in todo ==> EvictedBefore(m[k], m[j])
      decreases |todo|
    {
      var j :| j in todo;
      if !EvictedBefore(m[k], m[j]) {
        k := j;
      }
      todo := todo - {j};
    }
  }

  // ---- the timers, one entry at a time ---------------------------------------

  /** The timers have been run on all but the entries `todo`. */
  ghost predicate Visited(all: Cache, now: Time, todo: set<Addr>, m: Cache) {
    && m.Keys <= all.Keys
    && forall k :: k in all ==>
         if k in todo then k in m && m[k] == all[k]
         else (k in m <==> !Ticked(all[k], now).Gone(now)) && (k in m ==> m[k] == Ticked(all[k], now))
  }

  lemma VisitOne(all: Cache, now: Time, todo: set<Addr>, m: Cache, k: Addr)
    requires Visited(all, now, todo, m) && k in todo && k in all
    ensures var e := Ticked(all[k], now);
            k in m && m[k] == all[k] && Visited(all, now, todo - {k}, if e.Gone(now) then m - {k} else m[k := e])
  {
  }

  lemma VisitedAll(all: Cache, now: Time, m: Cache)
    requires Visited(all, now, {}, m)
    ensures m == AfterPoll(all, now)
  {
  }

  /** A probe for each due but those in `todo`, once. */
  ghost predicate Asked(m: Cache, now: Time, todo: set<Addr>, probes: seq<(Addr, Mac)>) {
    && (forall k, mac :: (k, mac) in probes <==> k in m && k !in todo && Due(m[k], now) && mac == m[k].mac)
    && (forall i, j :: 0 <= i < j < |probes| ==> probes[i].0 != probes[j].0)
  }

  lemma AskOne(m: Cache, now: Time, todo: set<Addr>, probes: seq<(Addr, Mac)>, k: Addr)
    requires Asked(m, now, todo, probes) && k in todo && k in m
    ensures Asked(m, now, todo - {k}, if Due(m[k], now) then probes + [(k, m[k].mac)] else probes)
  {
    forall i | 0 <= i < |probes| ensures probes[i].0 != k {
      assert (probes[i].0, probes[i].1) in probes;
    }
  }
}
