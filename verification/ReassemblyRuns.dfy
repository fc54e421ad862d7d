/** Whole runs of a reassembler: what it holds and yields, for every sequence of fragments. */
module ReassemblyRuns {
  import opened Basics
  import opened Defrag
  import opened Reassembly

  datatype Event = Event(now: Time, key: Key, frag: Frag)

  predicate ClockMonotone(evs: seq<Event>) {
    forall i, j :: 0 <= i < j < |evs| ==> evs[i].now <= evs[j].now
  }

  /** The maps held around each call, and what each call yields. */
  datatype Trace = Trace(events: seq<Event>, held: seq<Partials>, out: seq<Option<Datagram>>) {
    ghost predicate Step(i: nat)
      requires i < |events| && |held| == |events| + 1 && |out| == |events|
    {
      Pushed(held[i], events[i].now, events[i].key, events[i].frag, held[i + 1], out[i])
    }

    /** Any run from an empty reassembler, by a clock that never goes back. */
    ghost predicate Valid() {
      && |held| == |events| + 1 && |out| == |events| && held[0] == map[]
      && ClockMonotone(events)
      && (forall i :: 0 <= i < |events| ==> events[i].frag.Ok())
      && (forall i :: 0 <= i < |events| ==> Step(i))
    }
  }

  // ---- the budget ----------------------------------------------------------

  /** The datagrams a fragment that is not malformed is merged among. */
  lemma StepRoom(t: Trace, i: nat) returns (room: Partials)
    requires t.Valid() && i < |t.events| && !t.events[i].frag.Malformed()
    ensures RoomMade(Unexpired(t.held[i], t.events[i].now), t.events[i].key, room) && AllOk(room)
    ensures Merged(room, t.events[i].now, t.events[i].key, t.events[i].frag, t.held[i + 1], t.out[i])
  {
    var m, m', e, step := t.held[i], t.held[i + 1], t.events[i], t.Step(i);
    room :| RoomMade(Unexpired(m, e.now), e.key, room) && AllOk(room)
            && Merged(room, e.now, e.key, e.frag, m', t.out[i]);
  }

  lemma StepBounded(t: Trace, i: nat)
    requires t.Valid() && i < |t.events| && Bounded(t.held[i])
    ensures Bounded(t.held[i + 1])
  {
    var m, m', e, step := t.held[i], t.held[i + 1], t.events[i], t.Step(i);
    var live := Unexpired(m, e.now);
    SubmapBounded(live, m);
    if e.frag.Malformed() {
      SubmapBounded(m', live);
    } else {
      var room := StepRoom(t, i);
      RoomBounded(live, e.key, room);
      MergedBounded(room, e.now, e.key, e.frag, m', t.out[i]);
    }
  }

  lemma MergedBounded(m: Partials, now: Time, key: Key, p: Frag, m': Partials, r: Option<Datagram>)
    requires Bounded(m) && p.Ok() && !p.Malformed() && (key in m || |m| < MAX_DATAGRAMS)
    requires Merged(m, now, key, p, m', r)
    ensures Bounded(m')
  {
    var d := Extended(m, now, key, p);
    if d.Some? && !Complete(d.value) {
      ExtendedBounded(m, now, key, p);
      TrimmedBounded(m[key := d.value], key, m');
    } else {
      SubmapBounded(m', m);
    }
  }

  /** At every moment of every run: at most 64 datagrams, at most 1 MiB of buffers, and each
      datagram's pieces sorted, disjoint, counted and at most 256. */
  lemma {:induction false} AlwaysBounded(t: Trace, n: nat)
    requires t.Valid() && n <= |t.events|
    ensures Bounded(t.held[n])
    decreases n
  {
    if n > 0 {
      AlwaysBounded(t, n - 1);
      StepBounded(t, n - 1);
    }
  }

  // ---- where every byte comes from -------------------------------------------

  /** From event `from` on, which brought its first fragment, the datagram of `key` has been in progress
      without a break: not discarded, yielded or timed out, and not started again. */
  ghost predicate Unbroken(t: Trace, from: nat, n: nat, key: Key)
    requires |t.held| == |t.events| + 1
  {
    && from < |t.events| && from <= n <= |t.events| && t.events[from].key == key
    && forall k :: from < k <= n ==> key in t.held[k] && t.held[k][key].started == t.events[from].now
  }

  /** Event `i` brought the piece `r` of `d`: its place, its bytes, its header at offset 0 and its
      ECN codepoint are all there. */
  predicate Brought(evs: seq<Event>, from: nat, n: nat, key: Key, d: Partial, r: Range, i: nat) {
    && from <= i < n <= |evs| && evs[i].key == key
    && r.s == evs[i].frag.offset && r.e == evs[i].frag.End() <= |d.data|
    && d.data[r.s..r.e] == evs[i].frag.data
    && (r.s == 0 ==> d.header == evs[i].frag.header)
    && evs[i].frag.ecn in d.ecn
  }

  /** A fragment without "more fragments" ended the datagram at `total`. */
  predicate Ended(evs: seq<Event>, from: nat, n: nat, key: Key, total: nat) {
    exists i :: from <= i < n <= |evs| && evs[i].key == key && !evs[i].frag.more && evs[i].frag.End() == total
  }

  /** Event `i` is not a repeat of an earlier one: none since `from` brought bytes for its place. */
  predicate Novel(evs: seq<Event>, from: nat, i: nat)
    requires i < |evs|
  {
    evs[i].frag.data != [] ==>
      forall j :: from <= j < i && evs[j].key == evs[i].key && evs[j].frag.data != [] ==>
        evs[j].frag.offset != evs[i].frag.offset
  }

  /** A fragment that was not a repeat carried the ECN codepoint `e`. */
  predicate Carried(evs: seq<Event>, from: nat, n: nat, key: Key, e: byte) {
    exists i :: from <= i < n <= |evs| && evs[i].key == key && evs[i].frag.ecn == e && Novel(evs, from, i)
  }

  /** Exactly the codepoints of the fragments that were not repeats. */
  ghost predicate EcnIs(evs: seq<Event>, from: nat, n: nat, key: Key, seen: set<byte>) {
    forall e: byte :: e in seen <==> Carried(evs, from, n, key, e)
  }

  /** `who[j]` brought the `j`-th piece. */
  ghost predicate Explains(evs: seq<Event>, from: nat, n: nat, key: Key, d: Partial, who: seq<nat>) {
    && |who| == |d.pieces|
    && (forall j :: 0 <= j < |who| ==> Brought(evs, from, n, key, d, d.pieces[j], who[j]))
    && (d.total.Some? ==> Ended(evs, from, n, key, d.total.value))
    && EcnIs(evs, from, n, key, d.ecn)
  }

  /** `d` has the bytes of `p` where it says they go, and ends where it says it ends. */
  predicate HeldIn(p: Frag, d: Partial) {
    && (p.data != [] ==> && Range(p.offset, p.End()) in d.pieces && p.End() <= |d.data|
                         && d.data[p.offset..p.End()] == p.data)
    && (!p.more ==> d.total == Some(p.End()))
  }

  predicate AllHeld(evs: seq<Event>, from: nat, n: nat, key: Key, d: Partial) {
    forall i :: from <= i < n <= |evs| && evs[i].key == key ==> HeldIn(evs[i].frag, d)
  }

  /** `d` is what the fragments of its key since event `from` make. */
  ghost predicate MadeFrom(t: Trace, from: nat, n: nat, key: Key, d: Partial, who: seq<nat>)
    requires |t.held| == |t.events| + 1
  {
    && from < n && Unbroken(t, from, n, key) && d.started == t.events[from].now
    && Explains(t.events, from, n, key, d, who) && AllHeld(t.events, from, n, key, d)
  }

  ghost predicate AllMade(t: Trace, n: nat, m: Partials)
    requires |t.held| == |t.events| + 1
  {
    forall k :: k in m ==> Made(t, n, k, m[k])
  }

  ghost predicate Made(t: Trace, n: nat, key: Key, d: Partial)
    requires |t.held| == |t.events| + 1
  {
    exists from, who :: MadeFrom(t, from, n, key, d, who)
  }

  /** A piece keeps its source when another is written beside it. */
  lemma StillBrought(evs: seq<Event>, from: nat, n: nat, key: Key, d: Partial, total: Option<nat>, i: nat,
                     r: Range, w: nat, d': Partial)
    requires n < |evs| && Brought(evs, from, n, key, d, r, w) && r.s < r.e && i <= |d.pieces|
    requires var p := evs[n].frag; p.Ok() && p.data != [] && (r.e <= p.offset || p.End() <= r.s)
    requires d' == Inserted(d, evs[n].frag, total, i)
    ensures Brought(evs, from, n + 1, key, d', r, w)
  {
    WrittenKeeps(d.data, evs[n].frag.offset, evs[n].frag.data, r);
  }

  lemma InsertExplained(evs: seq<Event>, from: nat, n: nat, key: Key, d: Partial, who: seq<nat>,
                        total: Option<nat>, i: nat, d': Partial)
    returns (who': seq<nat>)
    requires from <= n < |evs| && evs[n].key == key
    requires Sorted(d.pieces) && i <= |d.pieces| == |who|
    requires forall j :: 0 <= j < |who| ==> Brought(evs, from, n, key, d, d.pieces[j], who[j])
    requires d' == Inserted(d, evs[n].frag, total, i)
    requires var p := evs[n].frag;
             && p.Ok() && p.data != []
             && (forall j :: 0 <= j < i ==> d.pieces[j].e <= p.offset)
             && (forall j :: i <= j < |d.pieces| ==> p.End() <= d.pieces[j].s)
    ensures |who'| == |d'.pieces|
    ensures forall j :: 0 <= j < |who'| ==> Brought(evs, from, n + 1, key, d', d'.pieces[j], who'[j])
  {
    who' := who[..i] + [n] + who[i..];
    forall j | 0 <= j < |who'| ensures Brought(evs, from, n + 1, key, d', d'.pieces[j], who'[j]) {
      if j != i {
        var k := if j < i then j else j - 1;
        assert d'.pieces[j] == d.pieces[k] && who'[j] == who[k];
        StillBrought(evs, from, n, key, d, total, i, d.pieces[k], who[k], d');
      } else {
        NewBrought(evs, from, n, key, d, total, i, d');
      }
    }
  }

  lemma NewBrought(evs: seq<Event>, from: nat, n: nat, key: Key, d: Partial, total: Option<nat>, i: nat, d': Partial)
    requires from <= n < |evs| && evs[n].key == key && i <= |d.pieces|
    requires evs[n].frag.Ok() && d' == Inserted(d, evs[n].frag, total, i)
    ensures d'.pieces[i] == Range(evs[n].frag.offset, evs[n].frag.End())
    ensures Brought(evs, from, n + 1, key, d', d'.pieces[i], n)
  {
  }

  /** Accepting either leaves the pieces alone or writes a new one where nothing is held. */
  lemma AcceptForms(d: Partial, p: Frag, d': Partial)
    requires Ok(d) && Accept(d, p) == Some(d')
    ensures d'.started == d.started && d'.total == NewTotal(d, p) && d.ecn <= d'.ecn <= d.ecn + {p.ecn}
    ensures var i := PartitionPoint(d.pieces, p.offset);
            || (d'.pieces == d.pieces && d'.data == d.data && d'.header == d.header)
            || (&& p.data != [] && d' == Inserted(d, p, NewTotal(d, p), i)
                && (forall j :: 0 <= j < i ==> d.pieces[j].e <= p.offset)
                && (forall j :: i <= j < |d.pieces| ==> p.End() <= d.pieces[j].s))
  {
    if OverlappedNeighbour(d.pieces, PartitionPoint(d.pieces, p.offset), p).None? {
      NeighboursSuffice(d.pieces, p);
    }
  }

  lemma TotalExplained(evs: seq<Event>, from: nat, n: nat, key: Key, d: Partial)
    requires from <= n < |evs| && evs[n].key == key
    requires d.total.Some? ==> Ended(evs, from, n, key, d.total.value)
    ensures var total := NewTotal(d, evs[n].frag);
            total.Some? ==> Ended(evs, from, n + 1, key, total.value)
  {
  }

  lemma EcnExplained(evs: seq<Event>, from: nat, n: nat, key: Key, seen: set<byte>)
    requires from <= n < |evs| && evs[n].key == key && EcnIs(evs, from, n, key, seen)
    ensures EcnIs(evs, from, n + 1, key, if Novel(evs, from, n) then seen + {evs[n].frag.ecn} else seen)
  {
    forall e: byte | Carried(evs, from, n + 1, key, e)
      ensures Carried(evs, from, n, key, e) || (Novel(evs, from, n) && evs[n].frag.ecn == e)
    {
      var i :| from <= i < n + 1 && evs[i].key == key && evs[i].frag.ecn == e && Novel(evs, from, i);
    }
  }

  lemma EcnElsewhere(evs: seq<Event>, from: nat, n: nat, key: Key, seen: set<byte>)
    requires from <= n < |evs| && evs[n].key != key && EcnIs(evs, from, n, key, seen)
    ensures EcnIs(evs, from, n + 1, key, seen)
  {
    forall e: byte | Carried(evs, from, n + 1, key, e) ensures Carried(evs, from, n, key, e) {
      var i :| from <= i < n + 1 && evs[i].key == key && evs[i].frag.ecn == e && Novel(evs, from, i);
    }
  }

  /** A fragment's codepoint counts unless it is a repeat. */
  lemma AcceptEcn(evs: seq<Event>, from: nat, n: nat, key: Key, d: Partial, who: seq<nat>, d': Partial)
    requires from <= n < |evs| && evs[n].key == key && Ok(d) && Accept(d, evs[n].frag) == Some(d')
    requires |who| == |d.pieces| && AllHeld(evs, from, n, key, d)
    requires forall j :: 0 <= j < |who| ==> Brought(evs, from, n, key, d, d.pieces[j], who[j])
    ensures d'.ecn == if Novel(evs, from, n) then d.ecn + {evs[n].frag.ecn} else d.ecn
  {
    var p := evs[n].frag;
    var hit := OverlappedNeighbour(d.pieces, PartitionPoint(d.pieces, p.offset), p);
    AcceptedEcn(d, p, d');
    if hit.Some? {
      var j :| 0 <= j < |d.pieces| && d.pieces[j] == hit.value;
      RepeatIsNotNovel(evs, from, n, key, d, d.pieces[j], who[j]);
    } else if p.data != [] {
      ClearIsNovel(evs, from, n, key, d);
    }
  }

  /** Merging takes up the codepoint unless the fragment repeats the piece it overlaps. */
  lemma AcceptedEcn(d: Partial, p: Frag, d': Partial)
    requires Ok(d) && Accept(d, p) == Some(d')
    ensures var hit := OverlappedNeighbour(d.pieces, PartitionPoint(d.pieces, p.offset), p);
            if hit.Some? then d'.ecn == d.ecn && hit.value in d.pieces && hit.value == Range(p.offset, p.End())
            else d'.ecn == d.ecn + {p.ecn}
  {
  }

  lemma RepeatIsNotNovel(evs: seq<Event>, from: nat, n: nat, key: Key, d: Partial, r: Range, w: nat)
    requires n < |evs| && evs[n].key == key && Brought(evs, from, n, key, d, r, w)
    requires r.s < r.e && r == Range(evs[n].frag.offset, evs[n].frag.End())
    ensures !Novel(evs, from, n)
  {
  }

  lemma ClearIsNovel(evs: seq<Event>, from: nat, n: nat, key: Key, d: Partial)
    requires n < |evs| && evs[n].key == key && Sorted(d.pieces) && AllHeld(evs, from, n, key, d) && evs[n].frag.data != []
    requires OverlappedNeighbour(d.pieces, PartitionPoint(d.pieces, evs[n].frag.offset), evs[n].frag).None?
    ensures Novel(evs, from, n)
  {
    var p := evs[n].frag;
    NeighboursSuffice(d.pieces, p);
    forall j | from <= j < n && evs[j].key == key && evs[j].frag.data != [] ensures evs[j].frag.offset != p.offset {
      assert HeldIn(evs[j].frag, d);
      var k :| 0 <= k < |d.pieces| && d.pieces[k] == Range(evs[j].frag.offset, evs[j].frag.End());
    }
  }

  lemma SameExplained(evs: seq<Event>, from: nat, n: nat, key: Key, d: Partial, who: seq<nat>, d': Partial)
    requires n < |evs| && Explains(evs, from, n, key, d, who)
    requires d'.pieces == d.pieces && d'.data == d.data && d'.header == d.header && d.ecn <= d'.ecn
    ensures forall j :: 0 <= j < |who| ==> Brought(evs, from, n + 1, key, d', d'.pieces[j], who[j])
  {
  }

  /** Merging the fragment of event `n` keeps every piece accounted for. */
  lemma AcceptExplained(evs: seq<Event>, from: nat, n: nat, key: Key, d: Partial, who: seq<nat>, d': Partial)
    returns (who': seq<nat>)
    requires from <= n < |evs| && evs[n].key == key
    requires Ok(d) && Explains(evs, from, n, key, d, who) && evs[n].frag.Ok() && Accept(d, evs[n].frag) == Some(d')
    requires AllHeld(evs, from, n, key, d)
    ensures Explains(evs, from, n + 1, key, d', who')
  {
    var p := evs[n].frag;
    AcceptForms(d, p, d');
    TotalExplained(evs, from, n, key, d);
    AcceptEcn(evs, from, n, key, d, who, d');
    EcnExplained(evs, from, n, key, d.ecn);
    if d'.pieces == d.pieces {
      who' := who;
      SameExplained(evs, from, n, key, d, who, d');
    } else {
      who' := InsertExplained(evs, from, n, key, d, who, NewTotal(d, p), PartitionPoint(d.pieces, p.offset), d');
    }
  }

  /** What a fragment said stays so when another is merged. */
  lemma StaysHeld(d: Partial, p: Frag, d': Partial, q: Frag)
    requires Ok(d) && Accept(d, p) == Some(d') && HeldIn(q, d)
    ensures HeldIn(q, d')
  {
    AcceptForms(d, p, d');
    if q.data != [] && d'.pieces != d.pieces {
      InsertHolds(d, p, NewTotal(d, p), PartitionPoint(d.pieces, p.offset), d', q);
    }
  }

  lemma InsertHolds(d: Partial, p: Frag, total: Option<nat>, i: nat, d': Partial, q: Frag)
    requires i <= |d.pieces| && d' == Inserted(d, p, total, i) && q.data != []
    requires forall j :: 0 <= j < i ==> d.pieces[j].e <= p.offset
    requires forall j :: i <= j < |d.pieces| ==> p.End() <= d.pieces[j].s
    requires Range(q.offset, q.End()) in d.pieces && q.End() <= |d.data| && d.data[q.offset..q.End()] == q.data
    ensures Range(q.offset, q.End()) in d'.pieces && q.End() <= |d'.data| && d'.data[q.offset..q.End()] == q.data
  {
    var r := Range(q.offset, q.End());
    var j :| 0 <= j < |d.pieces| && d.pieces[j] == r;
    assert d'.pieces[if j < i then j else j + 1] == r;
    WrittenKeeps(d.data, p.offset, p.data, r);
  }

  lemma NowHeld(d: Partial, p: Frag, d': Partial)
    requires Ok(d) && Accept(d, p) == Some(d')
    ensures HeldIn(p, d')
  {
    var i := PartitionPoint(d.pieces, p.offset);
    var hit := OverlappedNeighbour(d.pieces, i, p);
    if hit.Some? {
      assert hit.value in d.pieces && hit.value == Range(p.offset, p.End());
    } else if p.data != [] {
      InsertHeld(d, p, NewTotal(d, p), i, d');
    }
  }

  lemma InsertHeld(d: Partial, p: Frag, total: Option<nat>, i: nat, d': Partial)
    requires i <= |d.pieces| && d' == Inserted(d, p, total, i)
    ensures Range(p.offset, p.End()) in d'.pieces && p.End() <= |d'.data| && d'.data[p.offset..p.End()] == p.data
  {
    assert d'.pieces[i] == Range(p.offset, p.End());
  }

  lemma AcceptHeld(evs: seq<Event>, from: nat, n: nat, key: Key, d: Partial, d': Partial)
    requires n < |evs| && Ok(d) && Accept(d, evs[n].frag) == Some(d') && AllHeld(evs, from, n, key, d)
    ensures AllHeld(evs, from, n + 1, key, d')
  {
    NowHeld(d, evs[n].frag, d');
    forall i | from <= i < n && evs[i].key == key ensures HeldIn(evs[i].frag, d') {
      StaysHeld(d, evs[n].frag, d', evs[i].frag);
    }
  }

  /** A datagram that event `n` is not for is what it was. */
  lemma MadeLater(t: Trace, from: nat, n: nat, key: Key, d: Partial, who: seq<nat>)
    requires t.Valid() && n < |t.events| && MadeFrom(t, from, n, key, d, who)
    requires t.events[n].key != key && key in t.held[n + 1] && t.held[n + 1][key] == d
    ensures MadeFrom(t, from, n + 1, key, d, who)
  {
    EcnElsewhere(t.events, from, n, key, d.ecn);
  }

  lemma RestMade(t: Trace, n: nat, m: Partials)
    requires t.Valid() && n < |t.events| && AllMade(t, n, m) && Submap(t.held[n + 1] - {t.events[n].key}, m)
    ensures AllMade(t, n + 1, t.held[n + 1] - {t.events[n].key})
  {
    var m' := t.held[n + 1] - {t.events[n].key};
    forall k | k in m' ensures Made(t, n + 1, k, m'[k]) {
      assert Made(t, n, k, m[k]);
      var from, who :| MadeFrom(t, from, n, k, m[k], who);
      MadeLater(t, from, n, k, m[k], who);
    }
  }

  /** The datagram an event extends, or starts, is what its fragments so far make. */
  lemma InProgressMade(t: Trace, n: nat, m: Partials) returns (from: nat, who: seq<nat>)
    requires t.Valid() && n < |t.events| && AllMade(t, n, m)
    ensures var key, d := t.events[n].key, InProgress(m, t.events[n].key, t.events[n].now);
            && Unbroken(t, from, n, key) && d.started == t.events[from].now
            && Explains(t.events, from, n, key, d, who) && AllHeld(t.events, from, n, key, d)
  {
    var key := t.events[n].key;
    if key in m {
      assert Made(t, n, key, m[key]);
      from, who :| MadeFrom(t, from, n, key, m[key], who);
    } else {
      from, who := n, [];
    }
  }

  /** And with the event's fragment merged. */
  lemma ExtendedMade(t: Trace, n: nat, m: Partials, d': Partial) returns (from: nat, who: seq<nat>)
    requires t.Valid() && n < |t.events| && AllMade(t, n, m) && AllOk(m)
    requires Extended(m, t.events[n].now, t.events[n].key, t.events[n].frag) == Some(d')
    ensures Unbroken(t, from, n, t.events[n].key) && d'.started == t.events[from].now
    ensures Explains(t.events, from, n + 1, t.events[n].key, d', who)
    ensures AllHeld(t.events, from, n + 1, t.events[n].key, d')
  {
    var e := t.events[n];
    var d := InProgress(m, e.key, e.now);
    from, who := InProgressMade(t, n, m);
    AcceptForms(d, e.frag, d');
    AcceptHeld(t.events, from, n, e.key, d, d');
    who := AcceptExplained(t.events, from, n, e.key, d, who, d');
  }

  lemma MergedElsewhere(m: Partials, now: Time, key: Key, p: Frag, m': Partials, r: Option<Datagram>)
    requires AllOk(m) && Merged(m, now, key, p, m', r)
    ensures Submap(m' - {key}, m)
    ensures key in m' ==> Extended(m, now, key, p) == Some(m'[key])
  {
  }

  lemma MergedMade(t: Trace, n: nat, m: Partials)
    requires t.Valid() && n < |t.events| && AllMade(t, n, m) && AllOk(m)
    requires Merged(m, t.events[n].now, t.events[n].key, t.events[n].frag, t.held[n + 1], t.out[n])
    ensures AllMade(t, n + 1, t.held[n + 1])
  {
    var e, m' := t.events[n], t.held[n + 1];
    MergedElsewhere(m, e.now, e.key, e.frag, m', t.out[n]);
    RestMade(t, n, m);
    if e.key in m' {
      OwnMade(t, n, m);
    }
    forall k | k in m' ensures Made(t, n + 1, k, m'[k]) {
      assert k != e.key ==> k in m' - {e.key};
    }
  }

  lemma OwnMade(t: Trace, n: nat, m: Partials)
    requires t.Valid() && n < |t.events| && AllMade(t, n, m) && AllOk(m) && t.events[n].key in t.held[n + 1]
    requires Extended(m, t.events[n].now, t.events[n].key, t.events[n].frag) == Some(t.held[n + 1][t.events[n].key])
    ensures Made(t, n + 1, t.events[n].key, t.held[n + 1][t.events[n].key])
  {
    var from, who := ExtendedMade(t, n, m, t.held[n + 1][t.events[n].key]);
    UnbrokenLonger(t, from, n, t.events[n].key);
    assert MadeFrom(t, from, n + 1, t.events[n].key, t.held[n + 1][t.events[n].key], who);
  }

  lemma UnbrokenLonger(t: Trace, from: nat, n: nat, key: Key)
    requires |t.held| == |t.events| + 1 && n < |t.events| && Unbroken(t, from, n, key)
    requires key in t.held[n + 1] && t.held[n + 1][key].started == t.events[from].now
    ensures Unbroken(t, from, n + 1, key)
  {
  }

  /** At every moment of every run, every datagram held is what its fragments make. */
  lemma {:induction false} AlwaysMade(t: Trace, n: nat)
    requires t.Valid() && n <= |t.events|
    ensures AllMade(t, n, t.held[n])
    decreases n
  {
    if n > 0 {
      AlwaysMade(t, n - 1);
      StepMade(t, n - 1);
    }
  }

  lemma RoomSubmap(m: Partials, now: Time, key: Key, room: Partials)
    requires RoomMade(Unexpired(m, now), key, room)
    ensures Submap(room, m)
  {
  }

  lemma RoomAlive(m: Partials, now: Time, key: Key, room: Partials)
    requires RoomMade(Unexpired(m, now), key, room)
    ensures forall k :: k in room ==> Alive(room[k], now)
  {
  }

  lemma StillMade(t: Trace, n: nat, m: Partials, m': Partials)
    requires t.Valid() && AllMade(t, n, m) && Submap(m', m)
    ensures AllMade(t, n, m')
  {
  }

  lemma StepMade(t: Trace, i: nat)
    requires t.Valid() && i < |t.events| && AllMade(t, i, t.held[i])
    ensures AllMade(t, i + 1, t.held[i + 1])
  {
    var m, m', e, step := t.held[i], t.held[i + 1], t.events[i], t.Step(i);
    if e.frag.Malformed() {
      assert m' - {e.key} == m';
      RestMade(t, i, m);
    } else {
      var room := StepRoom(t, i);
      RoomSubmap(m, e.now, e.key, room);
      StillMade(t, i, m, room);
      MergedMade(t, i, room);
    }
  }

  // ---- what a yielded datagram is --------------------------------------------

  /** Event `i` supplied the bytes of `dg` in its own range. */
  predicate Supplied(evs: seq<Event>, from: nat, n: nat, i: nat, dg: Datagram)
    requires n < |evs|
  {
    && from <= i <= n && evs[i].key == evs[n].key && evs[i].frag.End() <= |dg.payload|
    && dg.payload[evs[i].frag.offset..evs[i].frag.End()] == evs[i].frag.data
  }

  /** The fragments `who`, one after another, are the datagram: no gap, no overlap, nothing else. */
  ghost predicate Assembles(evs: seq<Event>, from: nat, n: nat, who: seq<nat>, dg: Datagram)
    requires n < |evs|
  {
    && who != []
    && (forall j :: 0 <= j < |who| ==> Supplied(evs, from, n, who[j], dg))
    && evs[who[0]].frag.offset == 0 && evs[who[0]].frag.header == Some(dg.header)
    && evs[who[|who| - 1]].frag.End() == |dg.payload|
    && (forall j, k :: 0 <= j < k < |who| && k == j + 1 ==>
          evs[who[j]].frag.End() == evs[who[k]].frag.offset)
  }

  /** CE if and only if a fragment that was not a repeat was marked; never a mix of Not-ECT and ECN-capable
      ones. */
  ghost predicate EcnRight(evs: seq<Event>, from: nat, n: nat, dg: Datagram)
    requires n < |evs|
  {
    && dg.ecn == (if Carried(evs, from, n + 1, evs[n].key, 3) then Some(3) else None)
    && (Carried(evs, from, n + 1, evs[n].key, 0) ==>
          forall i :: from <= i <= n && evs[i].key == evs[n].key && Novel(evs, from, i) ==> evs[i].frag.ecn == 0)
  }

  /** No fragment of the datagram says otherwise. */
  predicate Unanimous(evs: seq<Event>, from: nat, n: nat, dg: Datagram)
    requires n < |evs|
  {
    forall i :: from <= i <= n && evs[i].key == evs[n].key ==>
      Supplied(evs, from, n, i, dg) && (!evs[i].frag.more ==> evs[i].frag.End() == |dg.payload|)
  }

  /** The datagram a call yields: the fragments of its key since event `from`, in one piece of work of less
      than 30 s, of which `who` follow one another from offset 0 to an end one of them gives, and none
      says otherwise. */
  ghost predicate Assembled(t: Trace, from: nat, n: nat, who: seq<nat>, dg: Datagram)
    requires n < |t.events| && |t.held| == |t.events| + 1
  {
    && Unbroken(t, from, n, t.events[n].key) && t.events[n].now - t.events[from].now < REASSEMBLY_TIMEOUT
    && Assembles(t.events, from, n, who, dg) && EcnRight(t.events, from, n, dg)
    && Ended(t.events, from, n + 1, t.events[n].key, |dg.payload|) && Unanimous(t.events, from, n, dg)
  }

  lemma {:induction false} ContiguousAt(ps: seq<Range>, n: nat, j: nat)
    requires Sorted(ps) && Contiguous(ps, n) && j < |ps|
    ensures j == 0 ==> ps[j].s == 0
    ensures j > 0 ==> ps[j - 1].e == ps[j].s
    ensures j + 1 == |ps| ==> ps[j].e == n
    ensures ps[j].e <= n
    decreases |ps|
  {
    var k := |ps| - 1;
    if j < k {
      ContiguousAt(ps[..k], ps[k].s, j);
    } else if k > 0 {
      assert Contiguous(ps[..k], ps[k].s) && ps[..k][k - 1] == ps[k - 1];
    }
  }

  lemma PieceSupplied(evs: seq<Event>, from: nat, n: nat, d: Partial, dg: Datagram, r: Range, i: nat)
    requires n < |evs| && Brought(evs, from, n + 1, evs[n].key, d, r, i)
    requires |dg.payload| <= |d.data| && dg.payload == d.data[..|dg.payload|] && r.e <= |dg.payload|
    ensures Supplied(evs, from, n, i, dg)
  {
    assert dg.payload[r.s..r.e] == d.data[r.s..r.e];
  }

  lemma YieldAssembles(evs: seq<Event>, from: nat, n: nat, d: Partial, who: seq<nat>, dg: Datagram)
    requires n < |evs| && Explains(evs, from, n + 1, evs[n].key, d, who)
    requires d.pieces != [] && Sorted(d.pieces) && Contiguous(d.pieces, |dg.payload|)
    requires |dg.payload| <= |d.data| && dg.payload == d.data[..|dg.payload|] && d.header == Some(dg.header)
    ensures Assembles(evs, from, n, who, dg)
  {
    var total := |dg.payload|;
    forall j | 0 <= j < |who| ensures Supplied(evs, from, n, who[j], dg) {
      ContiguousAt(d.pieces, total, j);
      PieceSupplied(evs, from, n, d, dg, d.pieces[j], who[j]);
    }
    forall j, k | 0 <= j < k < |who| && k == j + 1 ensures evs[who[j]].frag.End() == evs[who[k]].frag.offset {
      ContiguousAt(d.pieces, total, k);
    }
    ContiguousAt(d.pieces, total, 0);
    ContiguousAt(d.pieces, total, |who| - 1);
  }

  lemma YieldEcn(evs: seq<Event>, from: nat, n: nat, seen: set<byte>, dg: Datagram)
    requires n < |evs| && EcnIs(evs, from, n + 1, evs[n].key, seen) && ReassembledEcn(seen) == Some(dg.ecn)
    ensures EcnRight(evs, from, n, dg)
  {
    if 0 in seen {
      forall i | from <= i <= n && evs[i].key == evs[n].key && Novel(evs, from, i) ensures evs[i].frag.ecn == 0 {
        assert Carried(evs, from, n + 1, evs[n].key, evs[i].frag.ecn);
      }
    }
  }

  lemma YieldUnanimous(evs: seq<Event>, from: nat, n: nat, d: Partial, dg: Datagram)
    requires n < |evs| && AllHeld(evs, from, n + 1, evs[n].key, d)
    requires Within(d.pieces, |dg.payload|) && d.total == Some(|dg.payload|)
    requires forall i :: from <= i <= n && evs[i].key == evs[n].key && evs[i].frag.data == [] ==> !evs[i].frag.more
    requires |dg.payload| <= |d.data| && dg.payload == d.data[..|dg.payload|]
    ensures Unanimous(evs, from, n, dg)
  {
    forall i | from <= i <= n && evs[i].key == evs[n].key
      ensures Supplied(evs, from, n, i, dg) && (!evs[i].frag.more ==> evs[i].frag.End() == |dg.payload|)
    {
      var p := evs[i].frag;
      assert HeldIn(p, d);
      if p.data == [] {
        assert p.End() == |dg.payload|;
      } else {
        var j :| 0 <= j < |d.pieces| && d.pieces[j] == Range(p.offset, p.End());
        assert dg.payload[p.offset..p.End()] == d.data[p.offset..p.End()];
      }
    }
  }

  /** A malformed fragment ends the datagram it is for. */
  lemma NoneMalformed(t: Trace, from: nat, n: nat, i: nat)
    requires t.Valid() && n < |t.events| && !t.events[n].frag.Malformed() && Unbroken(t, from, n, t.events[n].key)
    requires from <= i <= n && t.events[i].key == t.events[n].key
    ensures !t.events[i].frag.Malformed()
  {
    if i < n {
      var step := t.Step(i);
      assert t.events[n].key in t.held[i + 1];
    }
  }

  lemma YieldMade(t: Trace, from: nat, n: nat, d: Partial, who: seq<nat>, dg: Datagram)
    requires t.Valid() && n < |t.events| && !t.events[n].frag.Malformed()
    requires Unbroken(t, from, n, t.events[n].key) && t.events[n].now - t.events[from].now < REASSEMBLY_TIMEOUT
    requires Explains(t.events, from, n + 1, t.events[n].key, d, who) && AllHeld(t.events, from, n + 1, t.events[n].key, d)
    requires Ok(d) && Complete(d) && Yield(d) == Some(dg)
    ensures Assembled(t, from, n, who, dg)
  {
    CompleteIsWhole(d);
    YieldAssembles(t.events, from, n, d, who, dg);
    YieldEcn(t.events, from, n, d.ecn, dg);
    forall i | from <= i <= n && t.events[i].key == t.events[n].key && t.events[i].frag.data == []
      ensures !t.events[i].frag.more
    {
      NoneMalformed(t, from, n, i);
    }
    YieldUnanimous(t.events, from, n, d, dg);
  }

  lemma MergedYield(t: Trace, n: nat, m: Partials, dg: Datagram)
    requires t.Valid() && n < |t.events| && AllMade(t, n, m) && AllOk(m) && !t.events[n].frag.Malformed()
    requires forall k :: k in m ==> Alive(m[k], t.events[n].now)
    requires Merged(m, t.events[n].now, t.events[n].key, t.events[n].frag, t.held[n + 1], Some(dg))
    ensures exists from, who :: Assembled(t, from, n, who, dg)
  {
    var e := t.events[n];
    var d := InProgress(m, e.key, e.now);
    var d' := Accept(d, e.frag).value;
    var from, who := ExtendedMade(t, n, m, d');
    AcceptForms(d, e.frag, d');
    AcceptOk(d, e.frag);
    YieldMade(t, from, n, d', who, dg);
  }

  /** Whenever a call yields a datagram, there is an event since which its key has been in progress without
      a break, less than 30 s ago; some of the fragments of its key since then follow one another from
      offset 0 to its end and are its payload, the first of them is its header, one without "more
      fragments" ends there, its ECN field is CE exactly if one that is no repeat was, and no fragment of
      its key since then disagrees. */
  lemma YieldedIsAssembled(t: Trace, n: nat, dg: Datagram)
    requires t.Valid() && n < |t.events| && t.out[n] == Some(dg)
    ensures exists from, who :: Assembled(t, from, n, who, dg)
  {
    AlwaysMade(t, n);
    var e, step := t.events[n], t.Step(n);
    var room := StepRoom(t, n);
    RoomSubmap(t.held[n], e.now, e.key, room);
    RoomAlive(t.held[n], e.now, e.key, room);
    StillMade(t, n, t.held[n], room);
    MergedYield(t, n, room, dg);
  }
}
