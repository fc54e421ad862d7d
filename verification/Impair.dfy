/** The delay line of an impaired link: the deadline queue, the serialising link and its limits. */
module Impair {
  import opened Basics

  datatype Dir = Tx | Rx

  /** One value for each direction. */
  datatype Both<T> = Both(tx: T, rx: T) {
    function Of(d: Dir): T {
      if d == Tx then tx else rx
    }

    function With(d: Dir, v: T): Both<T> {
      if d == Tx then Both(v, rx) else Both(tx, v)
    }
  }

  /** A message waiting for its release time: the `n`-th submitted its way, or a copy of it. */
  datatype Item = Item(at: Time, seqNo: nat, dir: Dir, n: nat, copy: bool)

  /** The two configurations a link is switched between: a perfect link, of which only the buffer limit
      matters, and one with a fixed delay and no jitter, which may duplicate and takes at least
      `serialize` to send a message. */
  datatype Config = Config(delay: Time, limit: nat, perfectLimit: nat, mayDuplicate: bool, serialize: Time)

  const DUPLICATE_LAG: Time := MICROSECOND

  // ---- release order -----------------------------------------------------------

  /** The heap, in release order. */
  ghost predicate Sorted(h: seq<Item>) {
    forall i, j :: 0 <= i < j < |h| ==> h[i].at <= h[j].at
  }

  /** A new item goes behind everything due no later. */
  function Insert(h: seq<Item>, x: Item): seq<Item> {
    if h == [] || h[|h| - 1].at <= x.at then h + [x] else Insert(h[..|h| - 1], x) + [h[|h| - 1]]
  }

  function CountDir(h: seq<Item>, d: Dir): nat {
    if h == [] then 0 else CountDir(h[..|h| - 1], d) + if h[|h| - 1].dir == d then 1 else 0
  }

  /** The latest deadline of those going one way. */
  function LastAt(h: seq<Item>, d: Dir): Option<Time> {
    if h == [] then None else
      var rest := LastAt(h[..|h| - 1], d);
      if h[|h| - 1].dir != d then rest
      else Some(if rest.None? then h[|h| - 1].at else Max(rest.value, h[|h| - 1].at))
  }

  /** How many have come due. */
  function DueCount(h: seq<Item>, now: Time): (n: nat)
    ensures n <= |h|
  {
    if h == [] || h[0].at > now then 0 else 1 + DueCount(h[1..], now)
  }

  // ---- the queue -----------------------------------------------------------------

  datatype Queue = Queue(heap: seq<Item>, seqNo: nat, running: bool, inFlight: nat,
                         freeAt: Both<Option<Time>>, queued: Both<nat>)
  {
    predicate Full(d: Dir, limit: nat) {
      queued.Of(d) >= limit
    }

    function Free(d: Dir): Time {
      if freeAt.Of(d).None? then 0 else freeAt.Of(d).value
    }
  }

  function Pushed(q: Queue, at: Time, d: Dir, n: nat, copy: bool): Queue {
    q.(seqNo := q.seqNo + 1,
       queued := q.queued.With(d, q.queued.Of(d) + 1),
       heap := Insert(q.heap, Item(at, q.seqNo + 1, d, n, copy)))
  }

  /** Nothing is waiting or being delivered: over a perfect link a message need not wait. */
  predicate Idle(q: Queue) {
    q.running && q.heap == [] && q.inFlight == 0
  }

  /** Over a perfect link a message that must wait goes behind the last one queued its way. */
  function Perfect(q: Queue, cfg: Config, d: Dir, n: nat, now: Time): Queue {
    if !q.running || Idle(q) || q.Full(d, Max(cfg.perfectLimit, 1)) then q else
      var last := LastAt(q.heap, d);
      Pushed(q, if last.None? then now else Max(last.value, now), d, n, false)
  }

  /** Serialised after what is already on the link, then delayed. */
  function Sent(q: Queue, cfg: Config, d: Dir, n: nat, done: Time): Queue {
    Pushed(q.(freeAt := q.freeAt.With(d, Some(done))), done + cfg.delay, d, n, false)
  }

  /** A copy just behind the original, if there is room for it too. */
  function Copied(q: Queue, cfg: Config, d: Dir, n: nat, done: Time): Queue {
    if q.Full(d, Max(cfg.limit, 1)) then q else Pushed(q, done + cfg.delay + DUPLICATE_LAG, d, n, true)
  }

  function Delayed(q: Queue, cfg: Config, d: Dir, n: nat, now: Time, serialize: Time, duplicate: bool): Queue {
    if !q.running || q.Full(d, Max(cfg.limit, 1)) then q else
      var done := Max(now, q.Free(d)) + serialize;
      if duplicate then Copied(Sent(q, cfg, d, n, done), cfg, d, n, done) else Sent(q, cfg, d, n, done)
  }

  function Stopped(q: Queue): Queue {
    q.(running := false, heap := [], queued := Both(0, 0))
  }

  /** What has come due, in release order. */
  function Due(q: Queue, now: Time): seq<Item> {
    q.heap[..DueCount(q.heap, now)]
  }

  function Taken(q: Queue, now: Time): Queue {
    var rest := q.heap[DueCount(q.heap, now)..];
    q.(heap := rest, inFlight := q.inFlight + DueCount(q.heap, now),
       queued := Both(CountDir(rest, Tx), CountDir(rest, Rx)))
  }

  /** The stored counts are the numbers waiting each way. */
  ghost predicate Counted(q: Queue) {
    forall d :: q.queued.Of(d) == CountDir(q.heap, d)
  }

  // ---- facts about the order -----------------------------------------------------

  lemma {:induction false} InsertIs(h: seq<Item>, x: Item)
    ensures |Insert(h, x)| == |h| + 1
    ensures forall y :: y in Insert(h, x) <==> y == x || y in h
    ensures forall d :: CountDir(Insert(h, x), d) == CountDir(h, d) + if x.dir == d then 1 else 0
    decreases |h|
  {
    if h != [] {
      var k := |h| - 1;
      assert h == h[..k] + [h[k]];
      if h[k].at > x.at {
        InsertIs(h[..k], x);
        assert Insert(h, x)[..|h|] == Insert(h[..k], x);
      } else {
        assert Insert(h, x)[..|h|] == h;
      }
    }
  }

  lemma {:induction false} InsertSorted(h: seq<Item>, x: Item)
    requires Sorted(h)
    ensures Sorted(Insert(h, x))
    decreases |h|
  {
    if h != [] && h[|h| - 1].at > x.at {
      var k := |h| - 1;
      InsertSorted(h[..k], x);
      InsertIs(h[..k], x);
      forall y | y in Insert(h[..k], x) ensures y.at <= h[k].at {
        if y != x {
          var i :| 0 <= i < k && y == h[i];
        }
      }
    }
  }

  lemma {:induction false} LastAtIs(h: seq<Item>, d: Dir)
    ensures LastAt(h, d).None? <==> CountDir(h, d) == 0
    ensures LastAt(h, d).None? ==> forall y :: y in h ==> y.dir != d
    ensures LastAt(h, d).Some? ==>
              && (forall y :: y in h && y.dir == d ==> y.at <= LastAt(h, d).value)
              && exists y :: y in h && y.dir == d && y.at == LastAt(h, d).value
    decreases |h|
  {
    if h != [] {
      var k := |h| - 1;
      LastAtIs(h[..k], d);
      assert h == h[..k] + [h[k]];
      assert h[k] in h;
    }
  }

  lemma {:induction false} DueIs(h: seq<Item>, now: Time)
    requires Sorted(h)
    ensures var k := DueCount(h, now);
            (forall i :: 0 <= i < k ==> h[i].at <= now) && (forall i :: k <= i < |h| ==> h[i].at > now)
    decreases |h|
  {
    if h != [] && h[0].at <= now {
      DueIs(h[1..], now);
      assert forall i :: 0 < i < |h| ==> h[i] == h[1..][i - 1];
    }
  }

  lemma {:induction false} CountSplit(h: seq<Item>, k: nat, d: Dir)
    requires k <= |h|
    ensures CountDir(h, d) == CountDir(h[..k], d) + CountDir(h[k..], d)
    decreases |h|
  {
    if k < |h| {
      var n := |h| - 1;
      CountSplit(h[..n], k, d);
      assert h[..n][..k] == h[..k] && h[..n][k..] == h[k..][..n - k];
    } else {
      assert h[..k] == h && h[k..] == [];
    }
  }

  lemma {:induction false} CountMembers(h: seq<Item>, d: Dir, x: Item, y: Item)
    requires x in h && x.dir == d
    ensures CountDir(h, d) >= 1
    ensures y in h && y.dir == d && y != x ==> CountDir(h, d) >= 2
    decreases |h|
  {
    var k := |h| - 1;
    assert h == h[..k] + [h[k]];
    if x in h[..k] {
      CountMembers(h[..k], d, x, y);
    } else if y in h[..k] && y.dir == d {
      CountMembers(h[..k], d, y, y);
    }
  }

  lemma PushedCounted(q: Queue, at: Time, d: Dir, n: nat, copy: bool)
    requires Counted(q)
    ensures Counted(Pushed(q, at, d, n, copy))
  {
    InsertIs(q.heap, Item(at, q.seqNo + 1, d, n, copy));
  }

  /** One item off the front. */
  lemma PopOne(h: seq<Item>, now: Time)
    requires h != [] && h[0].at <= now
    ensures DueCount(h, now) == 1 + DueCount(h[1..], now)
    ensures forall d :: CountDir(h, d) == CountDir(h[1..], d) + if h[0].dir == d then 1 else 0
  {
    forall d ensures CountDir(h, d) == CountDir(h[1..], d) + if h[0].dir == d then 1 else 0 {
      CountSplit(h, 1, d);
      assert h[..1][..0] == [];
    }
  }

  lemma MoveOne(a: seq<Item>, b: seq<Item>)
    requires b != []
    ensures (a + [b[0]]) + b[1..] == a + b
  {
  }

  lemma TakenIs(q0: Queue, q: Queue, due: seq<Item>, now: Time)
    requires Counted(q) && q == q0.(heap := q.heap, queued := q.queued)
    requires due + q.heap == q0.heap && |due| == DueCount(q0.heap, now)
    ensures Taken(q0, now) == q.(inFlight := q.inFlight + |due|) && Due(q0, now) == due
  {
    assert q0.heap[..|due|] == due && q0.heap[|due|..] == q.heap;
    assert q.queued.Of(Tx) == CountDir(q.heap, Tx) && q.queued.Of(Rx) == CountDir(q.heap, Rx);
  }

  // ---- the engine ----------------------------------------------------------------

  class Engine {
    var q: Queue

    constructor ()
      ensures q == Queue([], 0, true, 0, Both(None, None), Both(0, 0)) && Counted(q)
    {
      q := Queue([], 0, true, 0, Both(None, None), Both(0, 0));
    }

    method Push(at: Time, d: Dir, n: nat, copy: bool)
      requires Counted(q)
      modifies this
      ensures Counted(q) && q == Pushed(old(q), at, d, n, copy)
    {
      PushedCounted(q, at, d, n, copy);
      q := q.(seqNo := q.seqNo + 1, queued := q.queued.With(d, q.queued.Of(d) + 1),
              heap := Insert(q.heap, Item(at, q.seqNo + 1, d, n, copy)));
    }

    /** True if the caller is to deliver the message itself. */
    method SubmitPerfect(cfg: Config, d: Dir, n: nat, now: Time) returns (inline: bool)
      requires Counted(q)
      modifies this
      ensures Counted(q) && q == Perfect(old(q), cfg, d, n, now) && inline == Idle(old(q))
    {
      if !q.running {
        return false;
      }
      if q.heap == [] && q.inFlight == 0 {
        return true;
      }
      var last: Option<Time> := None;
      var i := 0;
      while i < |q.heap|
        invariant i <= |q.heap| && last == LastAt(q.heap[..i], d) && q == old(q)
      {
        if q.heap[i].dir == d {
          last := Some(if last.None? then q.heap[i].at else Max(last.value, q.heap[i].at));
        }
        assert q.heap[..i + 1][..i] == q.heap[..i];
        i := i + 1;
      }
      assert q.heap[..i] == q.heap;
      if q.Full(d, Max(cfg.perfectLimit, 1)) {
        return false;
      }
      Push(if last.None? then now else Max(last.value, now), d, n, false);
      return false;
    }

    method SubmitDelayed(cfg: Config, d: Dir, n: nat, now: Time, serialize: Time, duplicate: bool)
      requires Counted(q)
      modifies this
      ensures Counted(q) && q == Delayed(old(q), cfg, d, n, now, serialize, duplicate)
    {
      if !q.running || q.Full(d, Max(cfg.limit, 1)) {
        return;
      }
      var ready := if q.freeAt.Of(d).Some? && q.freeAt.Of(d).value > now then q.freeAt.Of(d).value else now;
      var done := ready + serialize;
      Enter(cfg, d, n, done);
      if duplicate {
        AddCopy(cfg, d, n, done);
      }
    }

    method Enter(cfg: Config, d: Dir, n: nat, done: Time)
      requires Counted(q)
      modifies this
      ensures Counted(q) && q == Sent(old(q), cfg, d, n, done)
    {
      q := q.(freeAt := q.freeAt.With(d, Some(done)));
      Push(done + cfg.delay, d, n, false);
    }

    method AddCopy(cfg: Config, d: Dir, n: nat, done: Time)
      requires Counted(q)
      modifies this
      ensures Counted(q) && q == Copied(old(q), cfg, d, n, done)
    {
      if !q.Full(d, Max(cfg.limit, 1)) {
        Push(done + cfg.delay + DUPLICATE_LAG, d, n, true);
      }
    }

    /** Everything whose deadline has passed, in release order. */
    method TakeDue(now: Time) returns (due: seq<Item>)
      requires Counted(q)
      modifies this
      ensures Counted(q) && q == Taken(old(q), now) && due == Due(old(q), now)
    {
      due := PopDue(now);
      TakenIs(old(q), q, due, now);
      q := q.(inFlight := q.inFlight + |due|);
    }

    method PopDue(now: Time) returns (due: seq<Item>)
      requires Counted(q)
      modifies this
      ensures Counted(q) && q == old(q).(heap := q.heap, queued := q.queued)
      ensures due + q.heap == old(q).heap && |due| == DueCount(old(q).heap, now)
    {
      due := [];
      var q0 := q;
      while q.heap != [] && q.heap[0].at <= now
        invariant Counted(q) && q == q0.(heap := q.heap, queued := q.queued)
        invariant due + q.heap == q0.heap && |due| + DueCount(q.heap, now) == DueCount(q0.heap, now)
        decreases |q.heap|
      {
        PopOne(q.heap, now);
        MoveOne(due, q.heap);
        due := due + [q.heap[0]];
        Pop();
      }
    }

    method Pop()
      requires Counted(q) && q.heap != []
      modifies this
      ensures Counted(q) && q == old(q).(heap := old(q).heap[1..], queued := q.queued)
    {
      PopOne(q.heap, q.heap[0].at);
      var d := q.heap[0].dir;
      q := q.(heap := q.heap[1..], queued := q.queued.With(d, q.queued.Of(d) - 1));
    }

    method Stop()
      modifies this
      ensures Counted(q) && q == Stopped(old(q))
    {
      q := q.(running := false, heap := [], queued := Both(0, 0));
    }
  }
}
