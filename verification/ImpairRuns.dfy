/** Every interleaving of one submitter per direction, the release thread and pollers on an impaired
    link: the delivery protocol, and delivery in submission order. */
module ImpairRuns {
  import opened Basics
  import opened Impair

  /** A thread delivering: it holds the lock, and then has a batch, with perhaps a handler running for
      the message it last took from it. */
  datatype Phase = Holding | Delivering(batch: seq<Item>, busy: bool)

  datatype State = State(
    q: Queue,
    /** The time, and the latest time a submitter each way has read. */
    clock: Time, read: Both<Time>,
    /** The delivery lock, and what the threads delivering are at. */
    owner: Option<nat>, threads: map<nat, Phase>,
    /** A message its submitter is about to deliver itself. */
    inline: Both<Option<nat>>,
    /** How many were submitted, and which of them (copies apart) were delivered, in order. */
    submitted: Both<nat>, log: Both<seq<nat>>)

  function Start(): State {
    State(Queue([], 0, true, 0, Both(None, None), Both(0, 0)), 0, Both(0, 0), None, map[],
          Both(None, None), Both(0, 0), Both([], []))
  }

  datatype Action =
    | Tick(to: Time)
    | SubmitPerfect(dir: Dir)
    | SubmitDelayed(dir: Dir, now: Time, serialize: Time, duplicate: bool)
    | Lose(dir: Dir)
    | FinishInline(dir: Dir)
    | Acquire(who: nat)
    | Take(who: nat, now: Time)
    | Begin(who: nat)
    | End(who: nat)
    | Release(who: nat)
    | Stop

  /** A submitter reads the clock before it takes the queue lock, and so does a thread that takes what
      is due: the time they use may lie behind. A lock is only taken when free. */
  predicate Enabled(cfg: Config, s: State, a: Action) {
    match a
    case Tick(to) => s.clock <= to
    case SubmitPerfect(d) => s.inline.Of(d).None?
    case SubmitDelayed(d, now, serialize, duplicate) =>
      && s.inline.Of(d).None? && s.read.Of(d) <= now <= s.clock
      && serialize >= cfg.serialize && (duplicate ==> cfg.mayDuplicate)
    case Lose(d) => s.inline.Of(d).None?
    case FinishInline(d) => s.inline.Of(d).Some?
    case Acquire(who) => s.owner.None?
    case Take(who, now) => who in s.threads && s.threads[who].Holding? && now <= s.clock
    case Begin(who) =>
      who in s.threads && s.threads[who].Delivering? && !s.threads[who].busy && s.threads[who].batch != []
    case End(who) => who in s.threads && s.threads[who].Delivering? && s.threads[who].busy
    case Release(who) =>
      who in s.threads && s.threads[who].Delivering? && !s.threads[who].busy && s.threads[who].batch == []
    case Stop => true
  }

  function Next(cfg: Config, s: State, a: Action): State
    requires Enabled(cfg, s, a)
  {
    match a
    case Tick(to) => s.(clock := to)
    case SubmitPerfect(d) =>
      var n := s.submitted.Of(d);
      s.(q := Perfect(s.q, cfg, d, n, s.clock), read := s.read.With(d, s.clock),
         inline := if Idle(s.q) then s.inline.With(d, Some(n)) else s.inline,
         submitted := s.submitted.With(d, n + 1))
    case SubmitDelayed(d, now, serialize, duplicate) =>
      var n := s.submitted.Of(d);
      s.(q := Delayed(s.q, cfg, d, n, now, serialize, duplicate), read := s.read.With(d, now),
         submitted := s.submitted.With(d, n + 1))
    case Lose(d) => s.(submitted := s.submitted.With(d, s.submitted.Of(d) + 1))
    case FinishInline(d) =>
      s.(inline := s.inline.With(d, None), log := s.log.With(d, s.log.Of(d) + [s.inline.Of(d).value]))
    case Acquire(who) => s.(owner := Some(who), threads := s.threads[who := Holding])
    case Take(who, now) => s.(q := Taken(s.q, now), threads := s.threads[who := Delivering(Due(s.q, now), false)])
    case Begin(who) =>
      var x, rest := s.threads[who].batch[0], s.threads[who].batch[1..];
      s.(threads := s.threads[who := Delivering(rest, true)],
         log := if x.copy then s.log else s.log.With(x.dir, s.log.Of(x.dir) + [x.n]))
    case End(who) =>
      s.(threads := s.threads[who := Delivering(s.threads[who].batch, false)],
         q := s.q.(inFlight := Max(s.q.inFlight - 1, 0)))
    case Release(who) => s.(owner := None, threads := s.threads - {who})
    case Stop => s.(q := Stopped(s.q))
  }

  /** The state after some actions, if each was possible in turn. */
  function After(cfg: Config, actions: seq<Action>): Option<State> {
    if actions == [] then Some(Start()) else
      var s := After(cfg, actions[..|actions| - 1]);
      var a := actions[|actions| - 1];
      if s.Some? && Enabled(cfg, s.value, a) then Some(Next(cfg, s.value, a)) else None
  }

  // ---- one batch at a time -------------------------------------------------------

  /** The messages taken off the queue and not yet handed over, or still in a handler. */
  function Out(p: Phase): nat {
    if p.Holding? then 0 else |p.batch| + if p.busy then 1 else 0
  }

  function Batch(s: State): seq<Item> {
    if s.owner.Some? && s.owner.value in s.threads && s.threads[s.owner.value].Delivering?
    then s.threads[s.owner.value].batch else []
  }

  /** Only the owner of the lock delivers, and `inFlight` counts what it has not finished. */
  ghost predicate OneBatch(s: State) {
    && s.threads.Keys == (if s.owner.Some? then {s.owner.value} else {})
    && s.q.inFlight == (if s.owner.Some? then Out(s.threads[s.owner.value]) else 0)
  }

  lemma OneBatchStep(cfg: Config, s: State, a: Action)
    requires OneBatch(s) && Enabled(cfg, s, a)
    ensures OneBatch(Next(cfg, s, a))
  {
  }

  /** In every reachable state at most one thread is delivering, it holds the lock, and `in_flight` is
      the part of its batch not yet delivered. */
  lemma {:induction false} AlwaysOneBatch(cfg: Config, actions: seq<Action>, s: State)
    requires After(cfg, actions) == Some(s)
    ensures OneBatch(s)
    decreases |actions|
  {
    if actions != [] {
      var k := |actions| - 1;
      var s0 := After(cfg, actions[..k]).value;
      AlwaysOneBatch(cfg, actions[..k], s0);
      OneBatchStep(cfg, s0, actions[k]);
    }
  }

  // ---- originals ---------------------------------------------------------------------

  /** The messages going one way among `h`, copies apart, in release order. */
  function Originals(h: seq<Item>, d: Dir): seq<nat> {
    if h == [] then [] else
      Originals(h[..|h| - 1], d) + if h[|h| - 1].dir == d && !h[|h| - 1].copy then [h[|h| - 1].n] else []
  }

  lemma {:induction false} OriginalsAppend(a: seq<Item>, b: seq<Item>, d: Dir)
    ensures Originals(a + b, d) == Originals(a, d) + Originals(b, d)
    decreases |b|
  {
    if b == [] {
      assert a + b == a;
    } else {
      var k := |b| - 1;
      OriginalsAppend(a, b[..k], d);
      assert (a + b)[..|a| + k] == a + b[..k];
    }
  }

  /** A copy, or a message the other way, changes nothing. */
  lemma {:induction false} InsertElsewhere(h: seq<Item>, x: Item, d: Dir)
    requires x.copy || x.dir != d
    ensures Originals(Insert(h, x), d) == Originals(h, d)
    decreases |h|
  {
    if h != [] && h[|h| - 1].at > x.at {
      var k := |h| - 1;
      InsertElsewhere(h[..k], x, d);
      assert Insert(h, x)[..|Insert(h, x)| - 1] == Insert(h[..k], x);
    } else {
      assert Insert(h, x)[..|h|] == h;
    }
  }

  /** A message due no earlier than any before it goes last. */
  lemma {:induction false} InsertLast(h: seq<Item>, x: Item)
    requires !x.copy && forall y :: y in h && y.dir == x.dir && !y.copy ==> y.at <= x.at
    ensures Originals(Insert(h, x), x.dir) == Originals(h, x.dir) + [x.n]
    decreases |h|
  {
    if h != [] && h[|h| - 1].at > x.at {
      var k := |h| - 1;
      assert h[k] in h;
      assert forall y :: y in h[..k] ==> y in h;
      InsertLast(h[..k], x);
      assert Insert(h, x)[..|Insert(h, x)| - 1] == Insert(h[..k], x);
    } else {
      assert Insert(h, x)[..|h|] == h;
    }
  }

  // ---- deadlines ---------------------------------------------------------------------

  /** The configurations under which order is kept: no copies; or a delaying buffer too small to hold a
      copy, what waits behind it and one more; or a link so slow that a copy goes before the next message
      anyway; or a perfect link's buffer too small for a message to get behind a copy, or to do so before
      the way to the other end has made the copy harmless. */
  predicate Orderly(cfg: Config) {
    || !cfg.mayDuplicate
    || Max(cfg.limit, 1) <= 2
    || cfg.serialize >= DUPLICATE_LAG
    || Max(cfg.perfectLimit, 1) <= 1
    || (Max(cfg.perfectLimit, 1) <= 2 && cfg.delay + cfg.serialize >= DUPLICATE_LAG)
  }

  /** No message delayed from now on is due earlier. */
  function Floor(cfg: Config, q: Queue, read: Both<Time>, d: Dir): Time {
    Max(q.Free(d), read.Of(d)) + cfg.serialize + cfg.delay
  }

  ghost predicate CopyAt(h: seq<Item>, d: Dir, t: int) {
    exists y :: y in h && y.dir == d && y.copy && y.at == t
  }

  ghost predicate OriginalAt(h: seq<Item>, d: Dir, t: int) {
    exists y :: y in h && y.dir == d && !y.copy && y.at == t
  }

  /** A waiting message is due by the floor, or else beside a copy that keeps the buffer full; and a
      copy lags what is on the link, and its original is still waiting or its time has come. */
  ghost predicate Timely(cfg: Config, h: seq<Item>, d: Dir, floor: Time, clock: Time) {
    && (forall x :: x in h && x.dir == d && !x.copy ==>
          x.at <= floor || (Max(cfg.limit, 1) <= 2 && CopyAt(h, d, x.at)))
    && (forall y :: y in h && y.dir == d && y.copy ==>
          && cfg.mayDuplicate && y.at + cfg.serialize <= floor + DUPLICATE_LAG
          && (OriginalAt(h, d, y.at - DUPLICATE_LAG) || y.at <= clock + DUPLICATE_LAG))
  }

  lemma TimelyLater(cfg: Config, h: seq<Item>, d: Dir, floor: Time, clock: Time, floor': Time, clock': Time)
    requires Timely(cfg, h, d, floor, clock) && floor <= floor' && clock <= clock'
    ensures Timely(cfg, h, d, floor', clock')
  {
  }

  lemma TimelyInsert(cfg: Config, h: seq<Item>, d: Dir, floor: Time, clock: Time, x: Item)
    requires Timely(cfg, h, d, floor, clock)
    requires x.dir == d && !x.copy ==> x.at <= floor || (Max(cfg.limit, 1) <= 2 && CopyAt(h, d, x.at))
    requires x.dir == d && x.copy ==> && cfg.mayDuplicate && x.at + cfg.serialize <= floor + DUPLICATE_LAG
                                      && OriginalAt(h, d, x.at - DUPLICATE_LAG)
    ensures Timely(cfg, Insert(h, x), d, floor, clock)
  {
    InsertIs(h, x);
    var h' := Insert(h, x);
    assert forall t :: CopyAt(h, d, t) ==> CopyAt(h', d, t);
    assert forall t :: OriginalAt(h, d, t) ==> OriginalAt(h', d, t);
  }

  lemma RestIs(h: seq<Item>, now: Time)
    requires Sorted(h)
    ensures forall y :: y in h[DueCount(h, now)..] <==> y in h && y.at > now
  {
    var k := DueCount(h, now);
    DueIs(h, now);
    forall y | y in h && y.at > now ensures y in h[k..] {
      var i :| 0 <= i < |h| && h[i] == y;
      assert y == h[k..][i - k];
    }
    forall y | y in h[k..] ensures y in h && y.at > now {
      var i :| 0 <= i < |h[k..]| && h[k..][i] == y;
      assert y == h[k + i];
    }
  }

  lemma TimelyTaken(cfg: Config, h: seq<Item>, d: Dir, floor: Time, clock: Time, now: Time, rest: seq<Item>)
    requires Timely(cfg, h, d, floor, clock) && now <= clock
    requires forall y :: y in rest <==> y in h && y.at > now
    ensures Timely(cfg, rest, d, floor, clock)
  {
    forall t | CopyAt(h, d, t) && t > now ensures CopyAt(rest, d, t) {
      var y :| y in h && y.dir == d && y.copy && y.at == t;
      assert y in rest;
    }
    forall t | OriginalAt(h, d, t) && t > now ensures OriginalAt(rest, d, t) {
      var y :| y in h && y.dir == d && !y.copy && y.at == t;
      assert y in rest;
    }
  }

  /** What holds of the queue. */
  ghost predicate QueueOk(cfg: Config, q: Queue, read: Both<Time>, clock: Time) {
    && Counted(q) && Sorted(q.heap)
    && forall d :: read.Of(d) <= clock && Timely(cfg, q.heap, d, Floor(cfg, q, read, d), clock)
  }

  /** Behind the last one its way, a message is due by the floor, or else beside a copy. */
  lemma BehindLast(cfg: Config, q: Queue, read: Both<Time>, clock: Time, d: Dir, at: Time)
    requires Orderly(cfg) && QueueOk(cfg, q, read, clock) && !q.Full(d, Max(cfg.perfectLimit, 1))
    requires at == if LastAt(q.heap, d).None? then clock else Max(LastAt(q.heap, d).value, clock)
    ensures at <= Max(q.Free(d), clock) + cfg.serialize + cfg.delay || (Max(cfg.limit, 1) <= 2 && CopyAt(q.heap, d, at))
    ensures forall y :: y in q.heap && y.dir == d ==> y.at <= at
  {
    LastAtIs(q.heap, d);
    assert Timely(cfg, q.heap, d, Floor(cfg, q, read, d), clock) && read.Of(d) <= clock;
    assert q.queued.Of(d) == CountDir(q.heap, d);
    if at > clock {
      var y :| y in q.heap && y.dir == d && y.at == at;
      CountMembers(q.heap, d, y, y);
      if y.copy && OriginalAt(q.heap, d, at - DUPLICATE_LAG) {
        var z :| z in q.heap && z.dir == d && !z.copy && z.at == at - DUPLICATE_LAG;
        CountMembers(q.heap, d, y, z);
      }
    }
  }

  /** With room for one more, nothing waits beyond the floor. */
  lemma RoomMeansFloor(cfg: Config, q: Queue, read: Both<Time>, clock: Time, d: Dir, x: Item)
    requires QueueOk(cfg, q, read, clock) && !q.Full(d, Max(cfg.limit, 1))
    requires x in q.heap && x.dir == d && !x.copy
    ensures x.at <= Floor(cfg, q, read, d)
  {
    if Max(cfg.limit, 1) <= 2 && CopyAt(q.heap, d, x.at) {
      var y :| y in q.heap && y.dir == d && y.copy && y.at == x.at;
      CountMembers(q.heap, d, x, y);
    }
  }

  // ---- what each change of the queue keeps -------------------------------------------

  /** Due by its floor or beside a copy, or itself a copy of one waiting. */
  ghost predicate Fits(cfg: Config, q: Queue, read: Both<Time>, x: Item) {
    if x.copy then
      && cfg.mayDuplicate && x.at + cfg.serialize <= Floor(cfg, q, read, x.dir) + DUPLICATE_LAG
      && OriginalAt(q.heap, x.dir, x.at - DUPLICATE_LAG)
    else x.at <= Floor(cfg, q, read, x.dir) || (Max(cfg.limit, 1) <= 2 && CopyAt(q.heap, x.dir, x.at))
  }

  lemma PushedOk(cfg: Config, q: Queue, read: Both<Time>, clock: Time, x: Item, q': Queue)
    requires QueueOk(cfg, q, read, clock)
    requires q' == Pushed(q, x.at, x.dir, x.n, x.copy) && x.seqNo == q.seqNo + 1
    requires Fits(cfg, q, read, x)
    ensures QueueOk(cfg, q', read, clock) && x in q'.heap
  {
    PushedCounted(q, x.at, x.dir, x.n, x.copy);
    InsertSorted(q.heap, x);
    InsertIs(q.heap, x);
    forall e ensures read.Of(e) <= clock && Timely(cfg, q'.heap, e, Floor(cfg, q', read, e), clock) {
      PushedTimely(cfg, q, read, clock, x, q', e);
    }
  }

  lemma PushedTimely(cfg: Config, q: Queue, read: Both<Time>, clock: Time, x: Item, q': Queue, e: Dir)
    requires read.Of(e) <= clock && Timely(cfg, q.heap, e, Floor(cfg, q, read, e), clock)
    requires q'.heap == Insert(q.heap, x) && q'.freeAt == q.freeAt
    requires Fits(cfg, q, read, x)
    ensures Timely(cfg, q'.heap, e, Floor(cfg, q', read, e), clock)
  {
    TimelyInsert(cfg, q.heap, e, Floor(cfg, q, read, e), clock, x);
  }

  /** Reading the clock, or keeping the link busy, only raises the floor. */
  lemma RaisedOk(cfg: Config, q: Queue, read: Both<Time>, clock: Time, d: Dir, now: Time, q': Queue, read': Both<Time>)
    requires QueueOk(cfg, q, read, clock) && read.Of(d) <= now <= clock && read' == read.With(d, now)
    requires q' == q.(freeAt := q'.freeAt) && forall e :: q.Free(e) <= q'.Free(e)
    ensures QueueOk(cfg, q', read', clock) && Floor(cfg, q', read', d) == Max(q'.Free(d), now) + cfg.serialize + cfg.delay
  {
    forall e ensures read'.Of(e) <= clock && Timely(cfg, q'.heap, e, Floor(cfg, q', read', e), clock) {
      assert read.Of(e) <= clock && q.Free(e) <= q'.Free(e);
      TimelyLater(cfg, q.heap, e, Floor(cfg, q, read, e), clock, Floor(cfg, q', read', e), clock);
    }
  }

  lemma PerfectOk(cfg: Config, q: Queue, read: Both<Time>, clock: Time, d: Dir, n: nat, q': Queue, read': Both<Time>)
    requires Orderly(cfg) && QueueOk(cfg, q, read, clock)
    requires q' == Perfect(q, cfg, d, n, clock) && read' == read.With(d, clock)
    ensures QueueOk(cfg, q', read', clock)
  {
    RaisedOk(cfg, q, read, clock, d, clock, q, read');
    if q.running && !Idle(q) && !q.Full(d, Max(cfg.perfectLimit, 1)) {
      var at := if LastAt(q.heap, d).None? then clock else Max(LastAt(q.heap, d).value, clock);
      BehindLast(cfg, q, read, clock, d, at);
      PushedOk(cfg, q, read', clock, Item(at, q.seqNo + 1, d, n, false), q');
    }
  }

  lemma SentOk(cfg: Config, q: Queue, read: Both<Time>, clock: Time, d: Dir, n: nat, now: Time, done: Time,
               q': Queue, read': Both<Time>)
    requires QueueOk(cfg, q, read, clock) && read.Of(d) <= now <= clock && done >= Max(now, q.Free(d))
    requires q' == Sent(q, cfg, d, n, done) && read' == read.With(d, now)
    ensures QueueOk(cfg, q', read', clock) && OriginalAt(q'.heap, d, done + cfg.delay)
    ensures done + cfg.serialize + cfg.delay <= Floor(cfg, q', read', d)
  {
    var q0 := q.(freeAt := q.freeAt.With(d, Some(done)));
    RaisedOk(cfg, q, read, clock, d, now, q0, read');
    PushedOk(cfg, q0, read', clock, Item(done + cfg.delay, q0.seqNo + 1, d, n, false), q');
  }

  lemma CopiedOk(cfg: Config, q: Queue, read: Both<Time>, clock: Time, d: Dir, n: nat, done: Time, q': Queue)
    requires QueueOk(cfg, q, read, clock) && cfg.mayDuplicate && OriginalAt(q.heap, d, done + cfg.delay)
    requires done + cfg.serialize + cfg.delay <= Floor(cfg, q, read, d)
    requires q' == Copied(q, cfg, d, n, done)
    ensures QueueOk(cfg, q', read, clock)
  {
    if q' != q {
      PushedOk(cfg, q, read, clock, Item(done + cfg.delay + DUPLICATE_LAG, q.seqNo + 1, d, n, true), q');
    }
  }

  /** A message that is let in: put behind the floor, and perhaps copied. */
  lemma DelayedIs(cfg: Config, q: Queue, d: Dir, n: nat, now: Time, serialize: Time, duplicate: bool, q': Queue)
    returns (done: Time, q1: Queue)
    requires q.running && !q.Full(d, Max(cfg.limit, 1)) && q' == Delayed(q, cfg, d, n, now, serialize, duplicate)
    ensures done == Max(now, q.Free(d)) + serialize && q1 == Sent(q, cfg, d, n, done)
    ensures q' == if duplicate then Copied(q1, cfg, d, n, done) else q1
  {
    done := Max(now, q.Free(d)) + serialize;
    q1 := Sent(q, cfg, d, n, done);
  }

  lemma DelayedOk(cfg: Config, q: Queue, read: Both<Time>, clock: Time, d: Dir, n: nat,
                  now: Time, serialize: Time, duplicate: bool, q': Queue, read': Both<Time>)
    requires QueueOk(cfg, q, read, clock) && read.Of(d) <= now <= clock && (duplicate ==> cfg.mayDuplicate)
    requires q' == Delayed(q, cfg, d, n, now, serialize, duplicate) && read' == read.With(d, now)
    ensures QueueOk(cfg, q', read', clock)
  {
    if !q.running || q.Full(d, Max(cfg.limit, 1)) {
      RaisedOk(cfg, q, read, clock, d, now, q, read');
    } else {
      var done, q1 := DelayedIs(cfg, q, d, n, now, serialize, duplicate, q');
      SentOk(cfg, q, read, clock, d, n, now, done, q1, read');
      if duplicate {
        CopiedOk(cfg, q1, read', clock, d, n, done, q');
      }
    }
  }

  lemma TakenOk(cfg: Config, q: Queue, read: Both<Time>, clock: Time, now: Time, q': Queue)
    requires QueueOk(cfg, q, read, clock) && now <= clock && q' == Taken(q, now)
    ensures QueueOk(cfg, q', read, clock)
  {
    RestIs(q.heap, now);
    forall e ensures Timely(cfg, q'.heap, e, Floor(cfg, q', read, e), clock) {
      assert Floor(cfg, q', read, e) == Floor(cfg, q, read, e);
      TimelyTaken(cfg, q.heap, e, Floor(cfg, q, read, e), clock, now, q'.heap);
    }
    assert forall e :: q'.queued.Of(e) == CountDir(q'.heap, e);
  }

  // ---- order ---------------------------------------------------------------------------

  /** Either as before or, its own way, with `n` behind the rest. */
  predicate Extends(p: seq<nat>, p': seq<nat>, own: bool, n: nat) {
    p' == p || (own && p' == p + [n])
  }

  lemma PushedOriginals(q: Queue, x: Item, q': Queue, e: Dir)
    requires q' == Pushed(q, x.at, x.dir, x.n, x.copy) && x.seqNo == q.seqNo + 1
    requires !x.copy ==> forall y :: y in q.heap && y.dir == x.dir && !y.copy ==> y.at <= x.at
    ensures Originals(q'.heap, e) == Originals(q.heap, e) + if x.dir == e && !x.copy then [x.n] else []
  {
    if x.dir == e && !x.copy {
      InsertLast(q.heap, x);
    } else {
      InsertElsewhere(q.heap, x, e);
    }
  }

  lemma PerfectOriginals(cfg: Config, q: Queue, read: Both<Time>, clock: Time, d: Dir, n: nat, q': Queue, e: Dir)
    requires Orderly(cfg) && QueueOk(cfg, q, read, clock) && q' == Perfect(q, cfg, d, n, clock)
    ensures Extends(Originals(q.heap, e), Originals(q'.heap, e), e == d && !Idle(q), n)
  {
    if q.running && !Idle(q) && !q.Full(d, Max(cfg.perfectLimit, 1)) {
      var at := if LastAt(q.heap, d).None? then clock else Max(LastAt(q.heap, d).value, clock);
      BehindLast(cfg, q, read, clock, d, at);
      PushedOriginals(q, Item(at, q.seqNo + 1, d, n, false), q', e);
    }
  }

  lemma DelayedOriginals(cfg: Config, q: Queue, read: Both<Time>, clock: Time, d: Dir, n: nat,
                         now: Time, serialize: Time, duplicate: bool, q': Queue, e: Dir)
    requires QueueOk(cfg, q, read, clock) && read.Of(d) <= now && serialize >= cfg.serialize
    requires q' == Delayed(q, cfg, d, n, now, serialize, duplicate)
    ensures Extends(Originals(q.heap, e), Originals(q'.heap, e), e == d, n)
  {
    if q.running && !q.Full(d, Max(cfg.limit, 1)) {
      var done, q1 := DelayedIs(cfg, q, d, n, now, serialize, duplicate, q');
      SentOriginals(cfg, q, read, clock, d, n, done, q1, e);
      if duplicate {
        CopiedOriginals(cfg, q1, d, n, done, q', e);
      }
    }
  }

  lemma CopiedOriginals(cfg: Config, q: Queue, d: Dir, n: nat, done: Time, q': Queue, e: Dir)
    requires q' == Copied(q, cfg, d, n, done)
    ensures Originals(q'.heap, e) == Originals(q.heap, e)
  {
    InsertElsewhere(q.heap, Item(done + cfg.delay + DUPLICATE_LAG, q.seqNo + 1, d, n, true), e);
  }

  lemma SentOriginals(cfg: Config, q: Queue, read: Both<Time>, clock: Time, d: Dir, n: nat, done: Time, q': Queue, e: Dir)
    requires QueueOk(cfg, q, read, clock) && !q.Full(d, Max(cfg.limit, 1))
    requires done >= Max(read.Of(d), q.Free(d)) + cfg.serialize && q' == Sent(q, cfg, d, n, done)
    ensures Originals(q'.heap, e) == Originals(q.heap, e) + if e == d then [n] else []
  {
    forall y | y in q.heap && y.dir == d && !y.copy ensures y.at <= done + cfg.delay {
      RoomMeansFloor(cfg, q, read, clock, d, y);
    }
    var q0 := q.(freeAt := q.freeAt.With(d, Some(done)));
    PushedOriginals(q0, Item(done + cfg.delay, q0.seqNo + 1, d, n, false), q', e);
  }

  lemma TakenOriginals(q: Queue, now: Time, e: Dir)
    ensures Originals(q.heap, e) == Originals(Due(q, now), e) + Originals(Taken(q, now).heap, e)
  {
    assert q.heap == Due(q, now) + Taken(q, now).heap;
    OriginalsAppend(Due(q, now), Taken(q, now).heap, e);
  }

  /** Everything a direction has had accepted, in the order it leaves: delivered, about to be delivered by
      its submitter, in the batch being delivered, waiting. */
  function Pipeline(s: State, d: Dir): seq<nat> {
    s.log.Of(d) + (if s.inline.Of(d).Some? then [s.inline.Of(d).value] else [])
    + (Originals(Batch(s), d) + Originals(s.q.heap, d))
  }

  /** While a submitter is delivering a message itself, nothing of its direction is anywhere else. */
  ghost predicate InlineAlone(s: State, d: Dir) {
    s.inline.Of(d).Some? ==> Originals(Batch(s), d) + Originals(s.q.heap, d) == []
  }

  lemma SubmitPerfectFlow(cfg: Config, s: State, d: Dir, s': State, e: Dir)
    requires Orderly(cfg) && OneBatch(s) && QueueOk(cfg, s.q, s.read, s.clock) && InlineAlone(s, e)
    requires s.inline.Of(d).None? && s' == Next(cfg, s, SubmitPerfect(d))
    ensures InlineAlone(s', e) && Extends(Pipeline(s, e), Pipeline(s', e), e == d, s.submitted.Of(d))
  {
    var n := s.submitted.Of(d);
    PerfectOriginals(cfg, s.q, s.read, s.clock, d, n, s'.q, e);
    if e == d && Idle(s.q) {
      assert Batch(s') == Batch(s) == [] && s.q.heap == s'.q.heap == [];
      assert Pipeline(s', e) == Pipeline(s, e) + [n];
    } else {
      QueueExtends(s, s', e, e == d && !Idle(s.q), n);
    }
  }

  /** What joins the queue joins the pipeline. */
  lemma QueueExtends(s: State, s': State, e: Dir, own: bool, n: nat)
    requires s'.log == s.log && s'.inline.Of(e) == s.inline.Of(e) && s'.owner == s.owner && s'.threads == s.threads
    requires InlineAlone(s, e) && (own ==> s.inline.Of(e).None?)
    requires Extends(Originals(s.q.heap, e), Originals(s'.q.heap, e), own, n)
    ensures InlineAlone(s', e) && Extends(Pipeline(s, e), Pipeline(s', e), own, n)
  {
    assert Batch(s') == Batch(s);
  }

  lemma SubmitDelayedFlow(cfg: Config, s: State, d: Dir, now: Time, serialize: Time, duplicate: bool, s': State, e: Dir)
    requires QueueOk(cfg, s.q, s.read, s.clock) && InlineAlone(s, e)
    requires Enabled(cfg, s, SubmitDelayed(d, now, serialize, duplicate))
    requires s' == Next(cfg, s, SubmitDelayed(d, now, serialize, duplicate))
    ensures InlineAlone(s', e) && Extends(Pipeline(s, e), Pipeline(s', e), e == d, s.submitted.Of(d))
  {
    DelayedOriginals(cfg, s.q, s.read, s.clock, d, s.submitted.Of(d), now, serialize, duplicate, s'.q, e);
    QueueExtends(s, s', e, e == d, s.submitted.Of(d));
  }

  lemma TakeFlow(cfg: Config, s: State, who: nat, now: Time, s': State, e: Dir)
    requires OneBatch(s) && InlineAlone(s, e)
    requires Enabled(cfg, s, Take(who, now)) && s' == Next(cfg, s, Take(who, now))
    ensures InlineAlone(s', e) && Pipeline(s', e) == Pipeline(s, e)
  {
    TakenOriginals(s.q, now, e);
    assert Batch(s) == [] && Batch(s') == Due(s.q, now);
  }

  lemma OriginalsFirst(h: seq<Item>, d: Dir)
    requires h != []
    ensures Originals(h, d) == (if h[0].dir == d && !h[0].copy then [h[0].n] else []) + Originals(h[1..], d)
  {
    OriginalsAppend(h[..1], h[1..], d);
    assert h == h[..1] + h[1..] && h[..1] == [h[0]];
    assert [h[0]][..0] == [];
  }

  lemma BeginFlow(cfg: Config, s: State, who: nat, s': State, e: Dir)
    requires OneBatch(s) && InlineAlone(s, e)
    requires Enabled(cfg, s, Begin(who)) && s' == Next(cfg, s, Begin(who))
    ensures InlineAlone(s', e) && Pipeline(s', e) == Pipeline(s, e)
  {
    var batch := s.threads[who].batch;
    assert Batch(s) == batch && Batch(s') == batch[1..];
    OriginalsFirst(batch, e);
    MovedOn(s.log.Of(e), batch[0], e, Originals(batch[1..], e), Originals(s.q.heap, e));
  }

  lemma MovedOn(log: seq<nat>, x: Item, e: Dir, rest: seq<nat>, heap: seq<nat>)
    ensures var own := if x.dir == e && !x.copy then [x.n] else [];
            log + [] + ((own + rest) + heap) == (log + own) + [] + (rest + heap)
  {
  }

  lemma OtherFlow(cfg: Config, s: State, a: Action, s': State, e: Dir)
    requires OneBatch(s) && InlineAlone(s, e) && Enabled(cfg, s, a) && s' == Next(cfg, s, a)
    requires a.Tick? || a.Lose? || a.FinishInline? || a.Acquire? || a.End? || a.Release? || a.Stop?
    ensures InlineAlone(s', e) && Pipeline(s', e) <= Pipeline(s, e)
  {
    assert Batch(s') == Batch(s);
  }

  lemma StepFlow(cfg: Config, s: State, a: Action, s': State, e: Dir)
    requires (a.SubmitPerfect? ==> Orderly(cfg)) && OneBatch(s) && QueueOk(cfg, s.q, s.read, s.clock) && InlineAlone(s, e)
    requires Enabled(cfg, s, a) && s' == Next(cfg, s, a)
    ensures InlineAlone(s', e)
    ensures Pipeline(s', e) <= Pipeline(s, e) || Pipeline(s', e) == Pipeline(s, e) + [s.submitted.Of(e)]
    ensures s.submitted.Of(e) <= s'.submitted.Of(e)
    ensures Pipeline(s', e) <= Pipeline(s, e) || s.submitted.Of(e) < s'.submitted.Of(e)
  {
    match a
    case SubmitPerfect(d) => SubmitPerfectFlow(cfg, s, d, s', e);
    case SubmitDelayed(d, now, serialize, duplicate) => SubmitDelayedFlow(cfg, s, d, now, serialize, duplicate, s', e);
    case Take(who, now) => TakeFlow(cfg, s, who, now, s', e);
    case Begin(who) => BeginFlow(cfg, s, who, s', e);
    case _ => OtherFlow(cfg, s, a, s', e);
  }

  lemma StepQueueOk(cfg: Config, s: State, a: Action, s': State)
    requires (a.SubmitPerfect? ==> Orderly(cfg)) && QueueOk(cfg, s.q, s.read, s.clock)
    requires Enabled(cfg, s, a) && s' == Next(cfg, s, a)
    ensures QueueOk(cfg, s'.q, s'.read, s'.clock)
  {
    match a
    case SubmitPerfect(d) => PerfectOk(cfg, s.q, s.read, s.clock, d, s.submitted.Of(d), s'.q, s'.read);
    case SubmitDelayed(d, now, serialize, duplicate) =>
      DelayedOk(cfg, s.q, s.read, s.clock, d, s.submitted.Of(d), now, serialize, duplicate, s'.q, s'.read);
    case Take(who, now) => TakenOk(cfg, s.q, s.read, s.clock, now, s'.q);
    case _ =>
  }

  predicate Increasing(p: seq<nat>) {
    forall i, j :: 0 <= i < j < |p| ==> p[i] < p[j]
  }

  /** In submission order, with nothing that was not submitted. */
  predicate InOrder(p: seq<nat>, submitted: nat) {
    Increasing(p) && forall n :: n in p ==> n < submitted
  }

  ghost predicate Good(cfg: Config, s: State) {
    && OneBatch(s) && QueueOk(cfg, s.q, s.read, s.clock)
    && forall d :: InlineAlone(s, d) && InOrder(Pipeline(s, d), s.submitted.Of(d))
  }

  lemma StepGood(cfg: Config, s: State, a: Action, s': State)
    requires (a.SubmitPerfect? ==> Orderly(cfg)) && Good(cfg, s) && Enabled(cfg, s, a) && s' == Next(cfg, s, a)
    ensures Good(cfg, s')
  {
    OneBatchStep(cfg, s, a);
    StepQueueOk(cfg, s, a, s');
    forall d ensures InlineAlone(s', d) && InOrder(Pipeline(s', d), s'.submitted.Of(d)) {
      assert InlineAlone(s, d) && InOrder(Pipeline(s, d), s.submitted.Of(d));
      StepFlow(cfg, s, a, s', d);
      StaysInOrder(Pipeline(s, d), s.submitted.Of(d), Pipeline(s', d), s'.submitted.Of(d));
    }
  }

  lemma StaysInOrder(p: seq<nat>, n: nat, p': seq<nat>, n': nat)
    requires InOrder(p, n) && n <= n' && (p' <= p || (p' == p + [n] && n < n'))
    ensures InOrder(p', n')
  {
    if p' <= p {
      assert forall i :: 0 <= i < |p'| ==> p'[i] == p[i] && p[i] in p;
    } else {
      assert forall i :: 0 <= i < |p| ==> p[i] in p;
    }
  }

  /** The link has one configuration throughout. */
  predicate NeverPerfect(actions: seq<Action>) {
    forall i :: 0 <= i < |actions| ==> !actions[i].SubmitPerfect?
  }

  predicate NeverDelayed(actions: seq<Action>) {
    forall i :: 0 <= i < |actions| ==> !actions[i].SubmitDelayed?
  }

  lemma {:induction false} AlwaysGood(cfg: Config, actions: seq<Action>, s: State)
    requires (Orderly(cfg) || NeverPerfect(actions)) && After(cfg, actions) == Some(s)
    ensures Good(cfg, s)
    decreases |actions|
  {
    if actions != [] {
      var k := |actions| - 1;
      var s0 := After(cfg, actions[..k]).value;
      AlwaysGood(cfg, actions[..k], s0);
      StepGood(cfg, s0, actions[k], s);
    }
  }

  /** In every interleaving, the messages delivered each way are in submission order. */
  lemma DeliveredInOrder(cfg: Config, actions: seq<Action>, s: State, d: Dir)
    requires (Orderly(cfg) || NeverPerfect(actions)) && After(cfg, actions) == Some(s)
    ensures Increasing(s.log.Of(d))
  {
    AlwaysGood(cfg, actions, s);
    assert InOrder(Pipeline(s, d), s.submitted.Of(d));
    assert forall i :: 0 <= i < |s.log.Of(d)| ==> Pipeline(s, d)[i] == s.log.Of(d)[i];
  }

  /** A link that never delays does not come to what it would do if it did. */
  lemma {:induction false} SameWithoutDelay(cfg: Config, cfg': Config, actions: seq<Action>)
    requires NeverDelayed(actions) && cfg'.perfectLimit == cfg.perfectLimit
    ensures After(cfg', actions) == After(cfg, actions)
    decreases |actions|
  {
    if actions != [] {
      SameWithoutDelay(cfg, cfg', actions[..|actions| - 1]);
    }
  }

  /** A link whose configuration is never switched, perfect or with a fixed delay, keeps order in every
      interleaving, whatever the configuration is. */
  lemma UnswitchedInOrder(cfg: Config, actions: seq<Action>, s: State, d: Dir)
    requires (NeverPerfect(actions) || NeverDelayed(actions)) && After(cfg, actions) == Some(s)
    ensures Increasing(s.log.Of(d))
  {
    if NeverPerfect(actions) {
      DeliveredInOrder(cfg, actions, s, d);
    } else {
      SameWithoutDelay(cfg, cfg.(mayDuplicate := false), actions);
      DeliveredInOrder(cfg.(mayDuplicate := false), actions, s, d);
    }
  }

  // ---- stopping ----------------------------------------------------------------------

  /** Stopped: nothing waits, and nothing will. */
  predicate Halted(s: State) {
    !s.q.running && s.q.heap == []
  }

  lemma Reordered(log: seq<nat>, inline: seq<nat>, x: seq<nat>, rest: seq<nat>, heap: seq<nat>)
    ensures multiset(log + inline + ((x + rest) + heap)) == multiset((log + x) + inline + (rest + heap))
  {
  }

  lemma BeginParts(cfg: Config, s: State, who: nat, s': State, e: Dir)
    returns (log: seq<nat>, inline: seq<nat>, x: seq<nat>, rest: seq<nat>, heap: seq<nat>)
    requires OneBatch(s) && Enabled(cfg, s, Begin(who)) && s' == Next(cfg, s, Begin(who))
    ensures s.log.Of(e) == log && s'.log.Of(e) == log + x
    ensures Pipeline(s, e) == log + inline + ((x + rest) + heap)
    ensures Pipeline(s', e) == (log + x) + inline + (rest + heap)
  {
    var batch := s.threads[who].batch;
    log, heap, rest := s.log.Of(e), Originals(s.q.heap, e), Originals(batch[1..], e);
    inline := if s.inline.Of(e).Some? then [s.inline.Of(e).value] else [];
    x := if batch[0].dir == e && !batch[0].copy then [batch[0].n] else [];
    OriginalsFirst(batch, e);
    assert Batch(s) == batch && Batch(s') == batch[1..];
  }

  lemma BeginHalted(cfg: Config, s: State, who: nat, s': State, e: Dir)
    requires OneBatch(s) && Enabled(cfg, s, Begin(who)) && s' == Next(cfg, s, Begin(who))
    ensures s.log.Of(e) <= s'.log.Of(e) && multiset(Pipeline(s', e)) == multiset(Pipeline(s, e))
  {
    var log, inline, x, rest, heap := BeginParts(cfg, s, who, s', e);
    Reordered(log, inline, x, rest, heap);
  }

  /** Any other step hands over at most a message its submitter was delivering. */
  lemma OtherHalted(cfg: Config, s: State, a: Action, s': State, e: Dir)
    requires OneBatch(s) && Halted(s) && Enabled(cfg, s, a) && s' == Next(cfg, s, a) && !a.Begin?
    ensures Halted(s') && s.log.Of(e) <= s'.log.Of(e) && Pipeline(s', e) == Pipeline(s, e)
  {
    assert Batch(s') == Batch(s) && s'.q.heap == s.q.heap;
    if a.FinishInline? && a.dir == e {
      var rest := Originals(Batch(s), e) + Originals(s.q.heap, e);
      assert s.log.Of(e) + [s.inline.Of(e).value] + rest == (s.log.Of(e) + [s.inline.Of(e).value]) + [] + rest;
    }
  }

  lemma StepHalted(cfg: Config, s: State, a: Action, s': State, e: Dir)
    requires OneBatch(s) && Halted(s) && Enabled(cfg, s, a) && s' == Next(cfg, s, a)
    ensures Halted(s') && s.log.Of(e) <= s'.log.Of(e) && multiset(Pipeline(s', e)) == multiset(Pipeline(s, e))
  {
    if a.Begin? {
      BeginHalted(cfg, s, a.who, s', e);
    } else {
      OtherHalted(cfg, s, a, s', e);
    }
  }

  /** However a run goes on after `stop`, what is delivered is what was already out: each way, the messages
      delivered by then, being delivered by their submitter or left in the batch are together the same
      ones for ever. Nothing that was waiting is delivered, and nothing submitted later. */
  lemma {:induction false} StoppedDeliversNoMore(cfg: Config, before: seq<Action>, after: seq<Action>,
                                                 s: State, s': State, d: Dir)
    requires After(cfg, before + [Stop]) == Some(s) && After(cfg, before + [Stop] + after) == Some(s')
    ensures Halted(s') && s.log.Of(d) <= s'.log.Of(d)
    ensures multiset(Pipeline(s', d)) == multiset(Pipeline(s, d))
    decreases |after|
  {
    var all := before + [Stop] + after;
    if after == [] {
      assert all == before + [Stop] && all[..|before|] == before;
    } else {
      var k := |all| - 1;
      assert all[..k] == before + [Stop] + after[..|after| - 1];
      var s1 := After(cfg, all[..k]).value;
      StoppedDeliversNoMore(cfg, before, after[..|after| - 1], s, s1, d);
      AlwaysOneBatch(cfg, all[..k], s1);
      StepHalted(cfg, s1, all[k], s', d);
    }
  }

  // ---- out of order ------------------------------------------------------------------

  lemma Then(cfg: Config, actions: seq<Action>, s: State, a: Action, s': State)
    requires After(cfg, actions) == Some(s) && Enabled(cfg, s, a) && s' == Next(cfg, s, a)
    ensures After(cfg, actions + [a]) == Some(s')
  {
    assert (actions + [a])[..|actions|] == actions;
  }

  /** A batch of three being delivered by thread 0, from its first message on. */
  lemma DeliverThree(cfg: Config, actions: seq<Action>, s: State, x: Item, y: Item, z: Item)
    returns (actions': seq<Action>, s': State)
    requires After(cfg, actions) == Some(s)
    requires 0 in s.threads && s.threads[0] == Delivering([x, y, z], false)
    requires x.dir == y.dir == z.dir == Tx && !x.copy && y.copy && !z.copy
    ensures After(cfg, actions') == Some(s') && s'.log.tx == s.log.tx + [x.n, z.n]
  {
    var s1 := Next(cfg, s, Begin(0));
    Then(cfg, actions, s, Begin(0), s1);
    var s2 := Next(cfg, s1, End(0));
    Then(cfg, actions + [Begin(0)], s1, End(0), s2);
    var acts := actions + [Begin(0)] + [End(0)];
    var s3 := Next(cfg, s2, Begin(0));
    Then(cfg, acts, s2, Begin(0), s3);
    var s4 := Next(cfg, s3, End(0));
    Then(cfg, acts + [Begin(0)], s3, End(0), s4);
    actions' := acts + [Begin(0)] + [End(0)] + [Begin(0)];
    s' := Next(cfg, s4, Begin(0));
    Then(cfg, acts + [Begin(0)] + [End(0)], s4, Begin(0), s');
    assert s'.log.tx == s.log.tx + [x.n] + [z.n];
  }

  lemma CountMore(h: seq<Item>, x: Item)
    requires x.dir == Tx
    ensures CountDir(h + [x], Tx) == CountDir(h, Tx) + 1 && CountDir(h + [x], Rx) == CountDir(h, Rx)
  {
    assert (h + [x])[..|h|] == h;
  }

  lemma LastMore(h: seq<Item>, x: Item)
    requires x.dir == Tx && (LastAt(h, Tx).Some? ==> LastAt(h, Tx).value <= x.at)
    ensures LastAt(h + [x], Tx) == Some(x.at)
  {
    assert (h + [x])[..|h|] == h;
  }

  lemma TwoItems(a: Item, b: Item)
    requires a.dir == b.dir == Tx && a.at <= b.at
    ensures Insert([], a) == [a] && Insert([a], b) == [a, b]
    ensures CountDir([a], Tx) == 1 && CountDir([a, b], Tx) == 2 && CountDir([a], Rx) == CountDir([a, b], Rx) == 0
    ensures LastAt([a], Tx) == Some(a.at) && LastAt([a, b], Tx) == Some(b.at)
  {
    assert [] + [a] == [a] && [a] + [b] == [a, b];
    CountMore([], a);
    CountMore([a], b);
    LastMore([], a);
    LastMore([a], b);
  }

  lemma InsertBefore(h: seq<Item>, last: Item, x: Item)
    requires last.at > x.at
    ensures Insert(h + [last], x) == Insert(h, x) + [last]
  {
    assert (h + [last])[..|h|] == h;
  }

  lemma ThreeItems(a: Item, b: Item, x: Item)
    requires a.dir == b.dir == x.dir == Tx && x.at < a.at <= b.at
    ensures Insert([a, b], x) == [x, a, b]
    ensures CountDir([x, a, b], Tx) == 3 && CountDir([x, a, b], Rx) == 0
  {
    assert [] + [a] == [a] && [a] + [b] == [a, b] && [] + [x] == [x] && [x] + [a] == [x, a];
    InsertBefore([], a, x);
    InsertBefore([a], b, x);
    ThreeCounted(a, b, x);
  }

  lemma ThreeCounted(a: Item, b: Item, x: Item)
    requires a.dir == b.dir == x.dir == Tx
    ensures CountDir([x, a, b], Tx) == 3 && CountDir([x, a, b], Rx) == 0
  {
    assert [] + [x] == [x] && [x] + [a] == [x, a] && [x, a] + [b] == [x, a, b];
    CountMore([], x);
    CountMore([x], a);
    CountMore([x, a], b);
  }

  /** The first message sent, delayed, and its copy. */
  function First(cfg: Config): Item {
    Item(cfg.serialize + cfg.delay, 1, Tx, 0, false)
  }

  function FirstCopy(cfg: Config): Item {
    Item(cfg.serialize + cfg.delay + DUPLICATE_LAG, 2, Tx, 0, true)
  }

  /** The second, sent over the perfect link and so behind the copy. */
  function Second(cfg: Config): Item {
    Item(cfg.serialize + cfg.delay + DUPLICATE_LAG, 3, Tx, 1, false)
  }

  /** The third, delayed, and due before the copy. */
  function Third(at: Time): Item {
    Item(at, 4, Tx, 2, false)
  }

  /** The first has been taken to be delivered; the third, submitted at `read`, overtakes the second in the
      queue. */
  function Overtaking(cfg: Config, read: Time, free: Time): State {
    State(Queue([Third(free + cfg.delay), FirstCopy(cfg), Second(cfg)], 4, true, 1, Both(Some(free), None), Both(3, 0)),
          First(cfg).at, Both(read, 0), Some(0), map[0 := Delivering([First(cfg)], false)],
          Both(None, None), Both(3, 0), Both([], []))
  }

  function Sending(cfg: Config): Action {
    SubmitDelayed(Tx, 0, cfg.serialize, true)
  }

  lemma AfterFirst(cfg: Config) returns (s: State)
    requires cfg.mayDuplicate && Max(cfg.limit, 1) >= 3
    ensures After(cfg, [Sending(cfg)]) == Some(s)
    ensures s == Start().(q := Queue([First(cfg), FirstCopy(cfg)], 2, true, 0, Both(Some(cfg.serialize), None), Both(2, 0)),
                          submitted := Both(1, 0))
  {
    TwoItems(First(cfg), FirstCopy(cfg));
    s := Next(cfg, Start(), Sending(cfg));
    Then(cfg, [], Start(), Sending(cfg), s);
    assert [] + [Sending(cfg)] == [Sending(cfg)];
  }

  lemma DueOne(x: Item, rest: seq<Item>, now: Time)
    requires x.at <= now && (rest != [] ==> rest[0].at > now)
    ensures DueCount([x] + rest, now) == 1 && ([x] + rest)[..1] == [x] && ([x] + rest)[1..] == rest
  {
    assert ([x] + rest)[1..] == rest;
  }

  /** The first taken off the queue as its time comes. */
  lemma TakeFirst(cfg: Config, actions: seq<Action>, s: State, rest: seq<Item>) returns (actions': seq<Action>, s': State)
    requires After(cfg, actions) == Some(s) && s.clock == 0 && s.owner == None && s.threads == map[]
    requires s.q.heap == [First(cfg)] + rest && (rest != [] ==> rest[0].at > First(cfg).at) && s.q.inFlight == 0
    ensures After(cfg, actions') == Some(s')
    ensures s' == s.(clock := First(cfg).at, owner := Some(0), threads := map[0 := Delivering([First(cfg)], false)],
                     q := s.q.(heap := rest, inFlight := 1, queued := Both(CountDir(rest, Tx), CountDir(rest, Rx))))
  {
    var t := First(cfg).at;
    DueOne(First(cfg), rest, t);
    var s1 := Next(cfg, s, Tick(t));
    Then(cfg, actions, s, Tick(t), s1);
    var s2 := Next(cfg, s1, Acquire(0));
    Then(cfg, actions + [Tick(t)], s1, Acquire(0), s2);
    s' := Next(cfg, s2, Take(0, t));
    Then(cfg, actions + [Tick(t)] + [Acquire(0)], s2, Take(0, t), s');
    actions' := actions + [Tick(t)] + [Acquire(0)] + [Take(0, t)];
  }

  /** Behind the copy while the first still waits; the third's submitter read the clock at the start. */
  lemma OvertakeWaiting(cfg: Config) returns (actions: seq<Action>)
    requires cfg.mayDuplicate && Max(cfg.limit, 1) >= 3 && Max(cfg.perfectLimit, 1) >= 3 && cfg.serialize < DUPLICATE_LAG
    ensures After(cfg, actions) == Some(Overtaking(cfg, 0, 2 * cfg.serialize))
  {
    var y, z, last := FirstCopy(cfg), Second(cfg), SubmitDelayed(Tx, 0, cfg.serialize, false);
    var acts0, s2 := QueueSecond(cfg);
    TwoItems(y, z);
    ThreeItems(y, z, Third(2 * cfg.serialize + cfg.delay));
    var acts, s3 := TakeFirst(cfg, acts0, s2, [y, z]);
    var s4 := Next(cfg, s3, last);
    Then(cfg, acts, s3, last, s4);
    assert s4 == Overtaking(cfg, 0, 2 * cfg.serialize);
    actions := acts + [last];
  }

  lemma QueueSecond(cfg: Config) returns (actions: seq<Action>, s: State)
    requires cfg.mayDuplicate && Max(cfg.limit, 1) >= 3 && Max(cfg.perfectLimit, 1) >= 3
    ensures After(cfg, actions) == Some(s)
    ensures s == Start().(q := Queue([First(cfg)] + [FirstCopy(cfg), Second(cfg)], 3, true, 0,
                                     Both(Some(cfg.serialize), None), Both(3, 0)),
                          submitted := Both(2, 0))
  {
    var s1 := AfterFirst(cfg);
    TwoItems(First(cfg), FirstCopy(cfg));
    s := Next(cfg, s1, SubmitPerfect(Tx));
    Then(cfg, [Sending(cfg)], s1, SubmitPerfect(Tx), s);
    actions := [Sending(cfg)] + [SubmitPerfect(Tx)];
    assert s.q.heap == [First(cfg)] + [FirstCopy(cfg), Second(cfg)];
  }

  /** Behind the copy once the first is out; the link is so fast that the third still comes before. */
  lemma OvertakeTaken(cfg: Config) returns (actions: seq<Action>)
    requires cfg.mayDuplicate && Max(cfg.limit, 1) >= 3 && Max(cfg.perfectLimit, 1) >= 2
    requires cfg.delay + cfg.serialize < DUPLICATE_LAG
    ensures After(cfg, actions) == Some(Overtaking(cfg, First(cfg).at, First(cfg).at + cfg.serialize))
  {
    var x, y, z := First(cfg), FirstCopy(cfg), Second(cfg);
    var last := SubmitDelayed(Tx, x.at, cfg.serialize, false);
    ThreeItems(y, z, Third(x.at + cfg.serialize + cfg.delay));
    var acts, s3 := QueueBehindCopy(cfg);
    var s4 := Next(cfg, s3, last);
    Then(cfg, acts, s3, last, s4);
    assert s4 == Overtaking(cfg, x.at, x.at + cfg.serialize);
    actions := acts + [last];
  }

  lemma QueueBehindCopy(cfg: Config) returns (actions: seq<Action>, s: State)
    requires cfg.mayDuplicate && Max(cfg.limit, 1) >= 3 && Max(cfg.perfectLimit, 1) >= 2
    ensures After(cfg, actions) == Some(s)
    ensures s == State(Queue([FirstCopy(cfg), Second(cfg)], 3, true, 1, Both(Some(cfg.serialize), None), Both(2, 0)),
                       First(cfg).at, Both(First(cfg).at, 0), Some(0), map[0 := Delivering([First(cfg)], false)],
                       Both(None, None), Both(2, 0), Both([], []))
  {
    var x, y, z := First(cfg), FirstCopy(cfg), Second(cfg);
    var s1 := AfterFirst(cfg);
    TwoItems(y, z);
    assert s1.q.heap == [x] + [y];
    var acts, s2 := TakeFirst(cfg, [Sending(cfg)], s1, [y]);
    s := Next(cfg, s2, SubmitPerfect(Tx));
    Then(cfg, acts, s2, SubmitPerfect(Tx), s);
    actions := acts + [SubmitPerfect(Tx)];
  }

  lemma DueThree(x: Item, y: Item, z: Item, now: Time)
    requires x.at <= now && y.at <= now && z.at <= now
    ensures DueCount([x, y, z], now) == 3
  {
    assert [x, y, z][1..] == [y, z] && [y, z][1..] == [z] && [z][1..] == [];
    assert DueCount([z], now) == 1;
    assert DueCount([y, z], now) == 2;
  }

  /** The first delivered, and the lock free again. */
  lemma DeliverFirst(cfg: Config, actions: seq<Action>, s: State) returns (actions': seq<Action>, s': State)
    requires After(cfg, actions) == Some(s) && s.owner == Some(0)
    requires s.threads == map[0 := Delivering([First(cfg)], false)] && s.q.inFlight == 1
    ensures After(cfg, actions') == Some(s')
    ensures s' == s.(owner := None, threads := map[], q := s.q.(inFlight := 0), log := Both(s.log.tx + [0], s.log.rx))
  {
    var s1 := Next(cfg, s, Begin(0));
    Then(cfg, actions, s, Begin(0), s1);
    var s2 := Next(cfg, s1, End(0));
    Then(cfg, actions + [Begin(0)], s1, End(0), s2);
    s' := Next(cfg, s2, Release(0));
    Then(cfg, actions + [Begin(0)] + [End(0)], s2, Release(0), s');
    actions' := actions + [Begin(0)] + [End(0)] + [Release(0)];
    assert s'.threads == map[];
  }

  /** The other three taken when the copy's time comes. */
  lemma TakeOthers(cfg: Config, actions: seq<Action>, s: State, x: Item, y: Item, z: Item)
    returns (actions': seq<Action>, s': State)
    requires After(cfg, actions) == Some(s) && s.owner == None && s.threads == map[] && s.q.heap == [x, y, z]
    requires x.at <= y.at && y.at == z.at && s.clock <= y.at
    ensures After(cfg, actions') == Some(s') && s'.log == s.log
    ensures s'.threads == map[0 := Delivering([x, y, z], false)]
  {
    var t := y.at;
    var s1 := Next(cfg, s, Tick(t));
    Then(cfg, actions, s, Tick(t), s1);
    var s2 := Next(cfg, s1, Acquire(0));
    Then(cfg, actions + [Tick(t)], s1, Acquire(0), s2);
    DueThree(x, y, z, t);
    assert s2.q.heap[..3] == [x, y, z];
    s' := Next(cfg, s2, Take(0, t));
    Then(cfg, actions + [Tick(t)] + [Acquire(0)], s2, Take(0, t), s');
    actions' := actions + [Tick(t)] + [Acquire(0)] + [Take(0, t)];
  }

  /** Without the condition there is a run that delivers the third message before the second. */
  lemma DeliveredOutOfOrder(cfg: Config) returns (actions: seq<Action>, s: State)
    requires !Orderly(cfg)
    ensures After(cfg, actions) == Some(s) && s.log.tx == [0, 2, 1]
  {
    var waits := Max(cfg.perfectLimit, 1) >= 3;
    var read, free := if waits then 0 else First(cfg).at, cfg.serialize + if waits then cfg.serialize else First(cfg).at;
    var acts: seq<Action>;
    if waits {
      acts := OvertakeWaiting(cfg);
    } else {
      acts := OvertakeTaken(cfg);
    }
    var third := Third(free + cfg.delay);
    var acts1, s1 := DeliverFirst(cfg, acts, Overtaking(cfg, read, free));
    var acts2, s2 := TakeOthers(cfg, acts1, s1, third, FirstCopy(cfg), Second(cfg));
    actions, s := DeliverThree(cfg, acts2, s2, third, FirstCopy(cfg), Second(cfg));
  }

  ghost predicate AlwaysInOrder(cfg: Config) {
    forall actions, s :: After(cfg, actions) == Some(s) ==> Increasing(s.log.tx) && Increasing(s.log.rx)
  }

  /** Delivery in submission order, whatever the interleaving, holds under exactly these configurations. */
  lemma OrderIffOrderly(cfg: Config)
    ensures AlwaysInOrder(cfg) <==> Orderly(cfg)
  {
    if Orderly(cfg) {
      forall actions, s | After(cfg, actions) == Some(s) ensures Increasing(s.log.tx) && Increasing(s.log.rx) {
        DeliveredInOrder(cfg, actions, s, Tx);
        DeliveredInOrder(cfg, actions, s, Rx);
      }
    } else {
      var actions, s := DeliveredOutOfOrder(cfg);
      assert s.log.tx[1] == 2 && s.log.tx[2] == 1;
    }
  }
}
