/** Fragments of one datagram, fed back in any order and with any repeats. */
module Rejoin {
  import opened Basics
  import opened Defrag
  import opened Reassembly
  import opened ReassemblyRuns

  /** The fragments of a whole payload, in order. */
  ghost predicate Cover(fs: seq<Frag>, payload: Bytes, e: byte) {
    && 0 < |fs| <= MAX_PIECES && |payload| <= MAX_PAYLOAD
    && (forall i :: 0 <= i < |fs| ==>
          && fs[i].Ok() && fs[i].ecn == e && fs[i].data != []
          && fs[i].more == (i + 1 < |fs|)
          && fs[i].End() <= |payload| && fs[i].data == payload[fs[i].offset..fs[i].End()])
    && fs[0].offset == 0 && fs[|fs| - 1].End() == |payload|
    && (forall i, j {:trigger Before(fs, i, j)} :: 0 <= i < j < |fs| ==> Before(fs, i, j))
  }

  /** The first ends where the second begins, or earlier if they are not neighbours. */
  predicate Before(fs: seq<Frag>, i: nat, j: nat)
    requires i < j < |fs|
  {
    fs[i].End() <= fs[j].offset && (j == i + 1 ==> fs[i].End() == fs[j].offset)
  }

  function RangeOf(f: Frag): Range {
    Range(f.offset, f.End())
  }

  /** The pieces are the ranges of the fragments seen. */
  ghost predicate HoldsPieces(ps: seq<Range>, fs: seq<Frag>, seen: set<nat>) {
    && |ps| == |seen|
    && (forall i :: i in seen ==> i < |fs| && RangeOf(fs[i]) in ps)
    && (forall r :: r in ps ==> exists i :: i in seen && i < |fs| && r == RangeOf(fs[i]))
  }

  ghost predicate HoldsBytes(data: Bytes, fs: seq<Frag>, seen: set<nat>) {
    forall i :: i in seen ==> && i < |fs| && fs[i].End() <= |data|
                              && data[fs[i].offset..fs[i].End()] == fs[i].data
  }

  ghost predicate HoldsEnds(d: Partial, fs: seq<Frag>, payload: Bytes, e: byte, seen: set<nat>)
    requires fs != []
  {
    && d.total == (if |fs| - 1 in seen then Some(|payload|) else None)
    && d.lastFinal == (|fs| - 1 in seen)
    && d.header == (if 0 in seen then fs[0].header else None)
    && d.ecn == (if seen == {} then {} else {e})
  }

  /** `d` is what the fragments `seen`, and no others, make. */
  ghost predicate Holds(d: Partial, fs: seq<Frag>, payload: Bytes, e: byte, seen: set<nat>)
    requires fs != []
  {
    && HoldsPieces(d.pieces, fs, seen) && HoldsBytes(d.data, fs, seen)
    && HoldsEnds(d, fs, payload, e, seen)
  }

  lemma EmptyHolds(now: Time, fs: seq<Frag>, payload: Bytes, e: byte)
    requires fs != []
    ensures Holds(Empty(now), fs, payload, e, {})
  {
  }

  /** A fragment already seen changes nothing. */
  lemma RepeatHolds(d: Partial, fs: seq<Frag>, payload: Bytes, e: byte, seen: set<nat>, i: nat)
    requires Cover(fs, payload, e) && Ok(d) && Holds(d, fs, payload, e, seen) && i in seen
    ensures Accept(d, fs[i]) == Some(d)
  {
    var p, last := fs[i], |fs| - 1;
    var j :| 0 <= j < |d.pieces| && d.pieces[j] == RangeOf(p);
    assert Overlaps(d.pieces[j], p);
    assert i < last ==> Before(fs, i, last);
    assert Repeats(d, d.pieces[j], p, NewTotal(d, p));
    AcceptIffConsistent(d, p);
    RepeatIsIdempotent(d, p, j);
  }

  lemma Apart(fs: seq<Frag>, payload: Bytes, e: byte, i: nat, j: nat)
    requires Cover(fs, payload, e) && i < |fs| && j < |fs|
    ensures i == j || fs[i].End() <= fs[j].offset || fs[j].End() <= fs[i].offset
  {
    assert i < j ==> Before(fs, i, j);
    assert j < i ==> Before(fs, j, i);
  }

  lemma NoneOverlaps(ps: seq<Range>, fs: seq<Frag>, payload: Bytes, e: byte, seen: set<nat>, i: nat)
    requires Cover(fs, payload, e) && HoldsPieces(ps, fs, seen) && i < |fs| && i !in seen
    ensures forall r :: r in ps ==> !Overlaps(r, fs[i])
    ensures Within(ps, |payload|) && |ps| < MAX_PIECES
  {
    forall r | r in ps ensures !Overlaps(r, fs[i]) && r.e <= |payload| {
      var j :| j in seen && j < |fs| && r == RangeOf(fs[j]);
      Apart(fs, payload, e, i, j);
    }
    AtMost(seen + {i}, |fs|);
  }

  lemma {:induction false} AtMost(s: set<nat>, n: nat)
    requires forall x :: x in s ==> x < n
    ensures |s| <= n
    decreases n
  {
    if n > 0 {
      AtMost(s - {n - 1}, n - 1);
    } else {
      assert s == {};
    }
  }

  lemma PiecesAfter(ps: seq<Range>, fs: seq<Frag>, seen: set<nat>, k: nat, i: nat)
    requires HoldsPieces(ps, fs, seen) && k <= |ps| && i !in seen && i < |fs|
    ensures HoldsPieces(ps[..k] + [RangeOf(fs[i])] + ps[k..], fs, seen + {i})
  {
    assert ps == ps[..k] + ps[k..];
    var ps', seen' := ps[..k] + [RangeOf(fs[i])] + ps[k..], seen + {i};
    forall r | r in ps' ensures exists j :: j in seen' && j < |fs| && r == RangeOf(fs[j]) {
      if r in ps {
        var j :| j in seen && j < |fs| && r == RangeOf(fs[j]);
        assert j in seen';
      } else {
        assert i in seen';
      }
    }
  }

  lemma BytesAfter(data: Bytes, fs: seq<Frag>, payload: Bytes, e: byte, seen: set<nat>, i: nat)
    requires Cover(fs, payload, e) && HoldsBytes(data, fs, seen) && i < |fs| && i !in seen
    ensures HoldsBytes(Written(data, fs[i].offset, fs[i].data), fs, seen + {i})
  {
    forall j | j in seen
      ensures var w := Written(data, fs[i].offset, fs[i].data);
              fs[j].End() <= |w| && w[fs[j].offset..fs[j].End()] == fs[j].data
    {
      Apart(fs, payload, e, i, j);
      WrittenKeeps(data, fs[i].offset, fs[i].data, RangeOf(fs[j]));
    }
  }

  lemma EndsAfter(d: Partial, fs: seq<Frag>, payload: Bytes, e: byte, seen: set<nat>, k: nat, i: nat)
    requires Cover(fs, payload, e) && HoldsEnds(d, fs, payload, e, seen) && i < |fs| && i !in seen
    requires k <= |d.pieces|
    ensures HoldsEnds(Inserted(d, fs[i], NewTotal(d, fs[i]), k), fs, payload, e, seen + {i})
  {
    FirstHeader(fs, payload, e, i);
    assert d.ecn + {e} == {e};
  }

  lemma FirstHeader(fs: seq<Frag>, payload: Bytes, e: byte, i: nat)
    requires Cover(fs, payload, e) && i < |fs|
    ensures fs[i].header.Some? <==> i == 0
    ensures fs[i].ecn == e && fs[i].more == (i + 1 < |fs|) && (i + 1 == |fs| ==> fs[i].End() == |payload|)
  {
    assert i > 0 ==> Before(fs, 0, i);
  }

  lemma InsertedHolds(d: Partial, fs: seq<Frag>, payload: Bytes, e: byte, seen: set<nat>, k: nat, i: nat)
    requires Cover(fs, payload, e) && Holds(d, fs, payload, e, seen) && i < |fs| && i !in seen
    requires k <= |d.pieces|
    ensures Holds(Inserted(d, fs[i], NewTotal(d, fs[i]), k), fs, payload, e, seen + {i})
  {
    PiecesAfter(d.pieces, fs, seen, k, i);
    BytesAfter(d.data, fs, payload, e, seen, i);
    EndsAfter(d, fs, payload, e, seen, k, i);
  }

  lemma NewAgrees(d: Partial, fs: seq<Frag>, payload: Bytes, e: byte, seen: set<nat>, i: nat)
    requires Cover(fs, payload, e) && HoldsEnds(d, fs, payload, e, seen) && i < |fs| && i !in seen
    requires Within(d.pieces, |payload|)
    ensures TotalsAgree(d, fs[i])
  {
  }

  lemma NewAccepted(d: Partial, fs: seq<Frag>, payload: Bytes, e: byte, seen: set<nat>, i: nat)
    requires Cover(fs, payload, e) && Ok(d) && Holds(d, fs, payload, e, seen) && i < |fs| && i !in seen
    ensures var p := fs[i];
            Accept(d, p) == Some(Inserted(d, p, NewTotal(d, p), PartitionPoint(d.pieces, p.offset)))
  {
    NoneOverlaps(d.pieces, fs, payload, e, seen, i);
    NewAgrees(d, fs, payload, e, seen, i);
    ClearIsInserted(d, fs[i]);
  }

  /** A fragment not yet seen is accepted, and held from then on. */
  lemma NewHolds(d: Partial, fs: seq<Frag>, payload: Bytes, e: byte, seen: set<nat>, i: nat)
    requires Cover(fs, payload, e) && Ok(d) && Holds(d, fs, payload, e, seen) && i < |fs| && i !in seen
    ensures Accept(d, fs[i]).Some? && Holds(Accept(d, fs[i]).value, fs, payload, e, seen + {i})
  {
    InsertedHolds(d, fs, payload, e, seen, PartitionPoint(d.pieces, fs[i].offset), i);
    NewAccepted(d, fs, payload, e, seen, i);
  }

  // ---- when it is complete -----------------------------------------------

  lemma {:induction false} PartAt(fs: seq<Frag>, payload: Bytes, e: byte, x: nat, from: nat) returns (i: nat)
    requires Cover(fs, payload, e) && x < |payload| && from < |fs| && fs[from].offset <= x
    ensures i < |fs| && fs[i].offset <= x < fs[i].End()
    decreases |fs| - from
  {
    if x < fs[from].End() {
      i := from;
    } else {
      assert from + 1 < |fs| ==> Before(fs, from, from + 1);
      i := PartAt(fs, payload, e, x, from + 1);
    }
  }

  predicate AllSeen(n: nat, seen: set<nat>) {
    forall i: nat | i < n :: i in seen
  }

  lemma AllSeenCovers(ps: seq<Range>, fs: seq<Frag>, payload: Bytes, e: byte, seen: set<nat>, x: nat)
    requires Cover(fs, payload, e) && HoldsPieces(ps, fs, seen) && AllSeen(|fs|, seen) && x < |payload|
    ensures Covered(ps, x)
  {
    var i := PartAt(fs, payload, e, x, 0);
    assert i in seen;
    var j :| 0 <= j < |ps| && ps[j] == RangeOf(fs[i]);
  }

  lemma CoveredIsSeen(ps: seq<Range>, fs: seq<Frag>, payload: Bytes, e: byte, seen: set<nat>, i: nat)
    requires Cover(fs, payload, e) && HoldsPieces(ps, fs, seen) && i < |fs| && Covered(ps, fs[i].offset)
    ensures i in seen
  {
    var k :| 0 <= k < |ps| && ps[k].s <= fs[i].offset < ps[k].e;
    assert ps[k] in ps;
    var j :| j in seen && j < |fs| && ps[k] == RangeOf(fs[j]);
    Apart(fs, payload, e, i, j);
    assert |fs[i].data| > 0;
  }

  /** Complete exactly when every fragment has been seen. */
  lemma CompleteIffAllSeen(d: Partial, fs: seq<Frag>, payload: Bytes, e: byte, seen: set<nat>)
    requires Cover(fs, payload, e) && Ok(d) && Holds(d, fs, payload, e, seen)
    ensures Complete(d) <==> AllSeen(|fs|, seen)
  {
    if d.total.Some? {
      CompleteIsContiguous(d);
      ContiguousIsCovering(d.pieces, |payload|);
      if Complete(d) {
        forall i: nat | i < |fs| ensures i in seen {
          assert fs[i].offset < |payload|;
          CoveredIsSeen(d.pieces, fs, payload, e, seen, i);
        }
      } else if AllSeen(|fs|, seen) {
        forall x: nat | x < |payload| ensures Covered(d.pieces, x) {
          AllSeenCovers(d.pieces, fs, payload, e, seen, x);
        }
      }
    }
  }

  lemma AllSeenBytes(data: Bytes, fs: seq<Frag>, payload: Bytes, e: byte, seen: set<nat>)
    requires Cover(fs, payload, e) && HoldsBytes(data, fs, seen) && AllSeen(|fs|, seen)
    ensures |payload| <= |data| && data[..|payload|] == payload
  {
    assert |fs| - 1 in seen;
    forall x | 0 <= x < |payload| ensures data[x] == payload[x] {
      var i := PartAt(fs, payload, e, x, 0);
      assert i in seen;
      SliceSays(data, payload, fs[i].offset, fs[i].End(), x);
    }
  }

  lemma SliceSays(a: Bytes, b: Bytes, from: nat, to: nat, x: nat)
    requires from <= x < to <= |a| && to <= |b| && a[from..to] == b[from..to]
    ensures a[x] == b[x]
  {
    assert a[x] == a[from..to][x - from] && b[x] == b[from..to][x - from];
  }

  /** ... and then it yields the payload under the first fragment's header. */
  lemma AllSeenYields(d: Partial, fs: seq<Frag>, payload: Bytes, e: byte, seen: set<nat>)
    requires Cover(fs, payload, e) && Holds(d, fs, payload, e, seen) && AllSeen(|fs|, seen) && Complete(d)
    ensures fs[0].header.Some?
    ensures Yield(d) == Some(Datagram(fs[0].header.value, payload, if e == 3 then Some(3) else None))
  {
    assert 0 in seen && |fs| - 1 in seen;
    AllSeenBytes(d.data, fs, payload, e, seen);
  }

  // ---- whole runs --------------------------------------------------------

  /** The fragments seen in the first `n` deliveries. */
  function Seen(order: seq<nat>, n: nat): set<nat>
    requires n <= |order|
  {
    set i | i in order[..n]
  }

  lemma SeenNext(order: seq<nat>, n: nat)
    requires n < |order|
    ensures Seen(order, n + 1) == Seen(order, n) + {order[n]}
  {
    assert order[..n + 1] == order[..n] + [order[n]];
  }

  /** One datagram's fragments pushed in the order `order`, the first `n + 1` inside the window. */
  ghost predicate Feeds(t: Trace, key: Key, fs: seq<Frag>, order: seq<nat>, n: nat) {
    && t.Valid() && |order| == |t.events| && n < |order|
    && (forall i :: 0 <= i < |order| ==>
          order[i] < |fs| && t.events[i].key == key && t.events[i].frag == fs[order[i]])
    && t.events[n].now - t.events[0].now < REASSEMBLY_TIMEOUT
  }

  lemma AnyHolds(d: Partial, fs: seq<Frag>, payload: Bytes, e: byte, seen: set<nat>, i: nat)
    requires Cover(fs, payload, e) && Ok(d) && Holds(d, fs, payload, e, seen) && i < |fs| && !fs[i].Malformed()
    ensures Accept(d, fs[i]).Some?
    ensures var d' := Accept(d, fs[i]).value;
            d'.started == d.started && Ok(d') && Holds(d', fs, payload, e, seen + {i})
  {
    if i in seen {
      RepeatHolds(d, fs, payload, e, seen, i);
      assert seen + {i} == seen;
    } else {
      NewHolds(d, fs, payload, e, seen, i);
      AcceptOk(d, fs[i]);
    }
  }

  lemma RoomAlone(m: Partials, now: Time, key: Key, room: Partials)
    requires m.Keys <= {key} && (key in m ==> Alive(m[key], now))
    requires RoomMade(Unexpired(m, now), key, room)
    ensures room == m
  {
    assert Unexpired(m, now) == m;
    assert key !in m ==> m == map[];
  }

  lemma TrimmedAlone(m: Partials, key: Key, m': Partials)
    requires m.Keys == {key} && Trimmed(m, key, m')
    ensures m' == m
  {
  }

  /** With no other datagram in progress and none expiring, a push is just a merge. */
  lemma PushedAlone(m: Partials, now: Time, key: Key, p: Frag, m': Partials, r: Option<Datagram>)
    requires Pushed(m, now, key, p, m', r) && !p.Malformed()
    requires m.Keys <= {key} && (key in m ==> Alive(m[key], now)) && AllOk(m)
    ensures Merged(m, now, key, p, m', r)
  {
    var room :| RoomMade(Unexpired(m, now), key, room) && AllOk(room) && Merged(room, now, key, p, m', r);
    RoomAlone(m, now, key, room);
  }

  lemma MergedAlone(m: Partials, now: Time, key: Key, p: Frag, d: Partial, m': Partials, r: Option<Datagram>)
    requires m.Keys <= {key} && AllOk(m) && Merged(m, now, key, p, m', r) && Extended(m, now, key, p) == Some(d)
    ensures if Complete(d) then r == Yield(d) else r == None && m' == map[key := d]
  {
    if !Complete(d) {
      TrimmedAlone(m[key := d], key, m');
    }
  }

  /** Just the one datagram is in progress, if any, holding what has been seen. */
  ghost predicate Alone(m: Partials, key: Key, now: Time, started: Time,
                        fs: seq<Frag>, payload: Bytes, e: byte, seen: set<nat>)
    requires fs != []
  {
    && m.Keys <= {key} && AllOk(m)
    && InProgress(m, key, now).started == started && Holds(InProgress(m, key, now), fs, payload, e, seen)
  }

  function Expected(fs: seq<Frag>, payload: Bytes, e: byte): Option<Datagram>
    requires fs != []
  {
    if fs[0].header.None? then None else
      Some(Datagram(fs[0].header.value, payload, if e == 3 then Some(3) else None))
  }

  /** Merging any of the fragments completes the datagram exactly if it was the last one missing. */
  lemma MergeOne(d: Partial, fs: seq<Frag>, payload: Bytes, e: byte, seen: set<nat>, i: nat) returns (d': Partial)
    requires Cover(fs, payload, e) && Ok(d) && Holds(d, fs, payload, e, seen) && i < |fs| && !fs[i].Malformed()
    ensures Accept(d, fs[i]) == Some(d') && d'.started == d.started && Ok(d')
    ensures Holds(d', fs, payload, e, seen + {i})
    ensures Complete(d') <==> AllSeen(|fs|, seen + {i})
    ensures Complete(d') ==> Yield(d') == Expected(fs, payload, e)
  {
    AnyHolds(d, fs, payload, e, seen, i);
    d' := Accept(d, fs[i]).value;
    CompleteIffAllSeen(d', fs, payload, e, seen + {i});
    if Complete(d') {
      AllSeenYields(d', fs, payload, e, seen + {i});
    }
  }

  lemma PushOne(m: Partials, key: Key, started: Time, now: Time, fs: seq<Frag>, payload: Bytes, e: byte,
                seen: set<nat>, i: nat, m': Partials, r: Option<Datagram>)
    requires Cover(fs, payload, e) && i < |fs| && !fs[i].Malformed()
    requires Alone(m, key, now, started, fs, payload, e, seen) && now - started < REASSEMBLY_TIMEOUT
    requires Pushed(m, now, key, fs[i], m', r)
    ensures r == if AllSeen(|fs|, seen + {i}) then Expected(fs, payload, e) else None
    ensures !AllSeen(|fs|, seen + {i}) ==> key in m' && Alone(m', key, now, started, fs, payload, e, seen + {i})
  {
    var d := MergeOne(InProgress(m, key, now), fs, payload, e, seen, i);
    PushedMerges(m, key, now, fs[i], d, m', r);
    if !Complete(d) {
      AloneOne(key, d, now, fs, payload, e, seen + {i}, m');
    }
  }

  lemma PushedMerges(m: Partials, key: Key, now: Time, p: Frag, d: Partial, m': Partials, r: Option<Datagram>)
    requires m.Keys <= {key} && AllOk(m) && (key in m ==> Alive(m[key], now)) && !p.Malformed()
    requires Pushed(m, now, key, p, m', r) && Accept(InProgress(m, key, now), p) == Some(d)
    ensures if Complete(d) then r == Yield(d) else r == None && m' == map[key := d]
  {
    PushedAlone(m, now, key, p, m', r);
    MergedAlone(m, now, key, p, d, m', r);
  }

  lemma AloneOne(key: Key, d: Partial, now: Time, fs: seq<Frag>, payload: Bytes, e: byte, seen: set<nat>, m: Partials)
    requires fs != [] && Ok(d) && Holds(d, fs, payload, e, seen) && m == map[key := d]
    ensures key in m && Alone(m, key, now, d.started, fs, payload, e, seen)
  {
  }

  ghost predicate Fed(t: Trace, key: Key, fs: seq<Frag>, payload: Bytes, e: byte, order: seq<nat>, n: nat) {
    && Cover(fs, payload, e) && (forall i :: 0 <= i < |fs| ==> !fs[i].Malformed())
    && Feeds(t, key, fs, order, n) && !AllSeen(|fs|, Seen(order, n))
  }

  lemma FedEarlier(t: Trace, key: Key, fs: seq<Frag>, payload: Bytes, e: byte, order: seq<nat>, n: nat)
    requires n > 0 && Fed(t, key, fs, payload, e, order, n)
    ensures Fed(t, key, fs, payload, e, order, n - 1)
  {
    SeenNext(order, n - 1);
    assert t.events[n - 1].now <= t.events[n].now;
  }

  lemma AloneLater(m: Partials, key: Key, now: Time, later: Time, started: Time,
                   fs: seq<Frag>, payload: Bytes, e: byte, seen: set<nat>)
    requires fs != [] && key in m && Alone(m, key, now, started, fs, payload, e, seen)
    ensures Alone(m, key, later, started, fs, payload, e, seen)
  {
    assert InProgress(m, key, later) == InProgress(m, key, now);
  }

  lemma AloneFirst(key: Key, now: Time, fs: seq<Frag>, payload: Bytes, e: byte)
    requires fs != []
    ensures Alone(map[], key, now, now, fs, payload, e, {})
  {
    EmptyHolds(now, fs, payload, e);
  }

  lemma {:induction false} FedAlone(t: Trace, key: Key, fs: seq<Frag>, payload: Bytes, e: byte, order: seq<nat>, n: nat)
    requires Fed(t, key, fs, payload, e, order, n)
    ensures Alone(t.held[n], key, t.events[n].now, t.events[0].now, fs, payload, e, Seen(order, n))
    decreases n, 0
  {
    if n == 0 {
      AloneFirst(key, t.events[0].now, fs, payload, e);
      assert Seen(order, 0) == {};
    } else {
      FedEarlier(t, key, fs, payload, e, order, n);
      FedYields(t, key, fs, payload, e, order, n - 1);
      AloneLater(t.held[n], key, t.events[n - 1].now, t.events[n].now, t.events[0].now, fs, payload, e,
                 Seen(order, n));
    }
  }

  /** Nothing until the last missing fragment arrives, in whatever order and with whatever repeats;
      then the payload. */
  lemma {:induction false} FedYields(t: Trace, key: Key, fs: seq<Frag>, payload: Bytes, e: byte, order: seq<nat>, n: nat)
    requires Fed(t, key, fs, payload, e, order, n)
    ensures t.out[n] == if AllSeen(|fs|, Seen(order, n + 1)) then Expected(fs, payload, e) else None
    ensures !AllSeen(|fs|, Seen(order, n + 1)) ==>
              && key in t.held[n + 1]
              && Alone(t.held[n + 1], key, t.events[n].now, t.events[0].now, fs, payload, e, Seen(order, n + 1))
    decreases n, 1
  {
    FedAlone(t, key, fs, payload, e, order, n);
    SeenNext(order, n);
    var step := t.Step(n);
    PushOne(t.held[n], key, t.events[0].now, t.events[n].now, fs, payload, e, Seen(order, n), order[n],
            t.held[n + 1], t.out[n]);
  }
}
