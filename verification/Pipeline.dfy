/** The `pending_` deque of src/dataset.cpp: what its entries mean, and how they relate to the slots,
    to the reads in flight and to the buffers. */
module Pipeline {
  import opened Common
  import opened BackendContract
  import opened Tiling
  import Align

  datatype Pending = Pending(offset: nat, slot: nat, bytes: nat, done: bool)

  /** The entries are consecutive tiles of the window, ending where the next request will start. */
  ghost predicate Chained(pending: seq<Pending>, next: nat, g: Geometry) {
    && g.Sound()
    && forall i :: 0 <= i < |pending| ==>
         && pending[i].offset < g.end
         && (i + 1 < |pending| ==> Advance(pending[i].offset, g) == pending[i + 1].offset)
         && (i + 1 == |pending| ==> Advance(pending[i].offset, g) == next)
  }

  /** Pending slots are pairwise distinct and marked taken, and one slot at least is pending or free. */
  ghost predicate SlotsOwned(pending: seq<Pending>, free: seq<bool>) {
    && (forall i :: 0 <= i < |pending| ==> pending[i].slot < |free| && !free[pending[i].slot])
    && DistinctSlots(pending)
    && (pending == [] ==> true in free)
  }

  ghost predicate DistinctSlots(pending: seq<Pending>) {
    forall i, j :: 0 <= i < |pending| && 0 <= j < |pending| && i != j ==> pending[i].slot != pending[j].slot
  }

  ghost predicate DistinctBuffers(buffers: seq<array<byte>>) {
    forall i, j :: 0 <= i < |buffers| && 0 <= j < |buffers| && i != j ==> buffers[i] != buffers[j]
  }

  /** The read an entry stands for: its slot is both the buffer and the token. */
  function RequestOf(e: Pending, buffers: seq<array<byte>>, g: Geometry): ReadRequest
    requires g.Sound() && e.offset < g.end && e.slot < |buffers|
  {
    ReadRequest(e.offset, buffers[e.slot], RequestLength(e.offset, g), e.slot)
  }

  ghost predicate Placed(pending: seq<Pending>, buffers: seq<array<byte>>, g: Geometry) {
    && g.Sound()
    && forall i :: 0 <= i < |pending| ==> pending[i].offset < g.end && pending[i].slot < |buffers|
  }

  /** The reads in flight are exactly those of the entries that are not done. */
  ghost predicate Tracks(pending: seq<Pending>, buffers: seq<array<byte>>, g: Geometry, flight: seq<ReadRequest>)
    requires Placed(pending, buffers, g)
  {
    && (forall i :: 0 <= i < |pending| && !pending[i].done ==> RequestOf(pending[i], buffers, g) in flight)
    && (forall q :: q in flight ==>
          exists i :: 0 <= i < |pending| && !pending[i].done && q == RequestOf(pending[i], buffers, g))
  }

  /** A finished entry's read was accepted, and its buffer holds the bytes the kernel gave for its tile. */
  ghost predicate Landed(e: Pending, data: array<byte>, device: Device, g: Geometry)
    requires g.Sound() && e.offset < g.end
    reads data
  {
    && device.Accepts(e.offset, RequestLength(e.offset, g))
    && e.bytes == Delivered(e.offset, g, |device.bytes|, device.cuts) <= data.Length
    && data[..e.bytes] == Slice(device.bytes, e.offset, e.offset + e.bytes)
  }

  /** The file position of the stream: the oldest entry, or the next request. */
  function Position(pending: seq<Pending>, next: nat): nat {
    if pending == [] then next else pending[0].offset
  }

  lemma {:induction false} NoEntries(next: nat)
    ensures Position([], next) == next
  {
  }

  // ----- filling -----

  /** `added` are the slots taken since `before`; every other slot is as it was. */
  ghost predicate TakenFrom(before: seq<bool>, now: seq<bool>, added: seq<Pending>) {
    && |now| == |before|
    && (forall i :: 0 <= i < |added| ==> added[i].slot < |before| && before[added[i].slot] && !now[added[i].slot])
    && (forall s :: 0 <= s < |now| && (forall i :: 0 <= i < |added| ==> added[i].slot != s) ==> now[s] == before[s])
  }

  lemma {:induction false} SlotFacts(pending: seq<Pending>, free: seq<bool>)
    requires SlotsOwned(pending, free)
    ensures DistinctSlots(pending) && (pending == [] ==> true in free)
  {
  }

  lemma {:induction false} NoneTaken(free: seq<bool>)
    ensures TakenFrom(free, free, []) && DistinctSlots([])
  {
  }

  lemma {:induction false} ChainAt(pending: seq<Pending>, next: nat, g: Geometry, i: nat)
    requires Chained(pending, next, g) && i < |pending|
    ensures pending[i].offset < g.end
    ensures Advance(pending[i].offset, g) == (if i + 1 < |pending| then pending[i + 1].offset else next)
  {
    if i + 1 < |pending| {
      assert Advance(pending[i].offset, g) == pending[i + 1].offset;
    } else {
      assert Advance(pending[i].offset, g) == next;
    }
  }

  lemma {:induction false} ChainAppend(pending: seq<Pending>, next: nat, g: Geometry, e: Pending)
    requires Chained(pending, next, g) && next < g.end && e.offset == next
    ensures Chained(pending + [e], Advance(next, g), g)
    ensures Position(pending + [e], Advance(next, g)) == Position(pending, next)
  {
    var all := pending + [e];
    forall i | 0 <= i < |all|
      ensures all[i].offset < g.end
      ensures Advance(all[i].offset, g) == if i + 1 < |all| then all[i + 1].offset else Advance(next, g)
    {
      if i < |pending| { ChainAt(pending, next, g, i); }
    }
  }

  lemma {:induction false} SlotsAppend(pending: seq<Pending>, free: seq<bool>, e: Pending)
    requires SlotsOwned(pending, free) && e.slot < |free| && free[e.slot]
    ensures SlotsOwned(pending + [e], free[e.slot := false])
  {
  }

  lemma {:induction false} TakeAnother(before: seq<bool>, now: seq<bool>, added: seq<Pending>, e: Pending)
    requires TakenFrom(before, now, added) && DistinctSlots(added)
    requires e.slot < |now| && now[e.slot]
    ensures TakenFrom(before, now[e.slot := false], added + [e]) && DistinctSlots(added + [e])
  {
    var more, after := added + [e], now[e.slot := false];
    assert before[e.slot] by {
      if exists i :: 0 <= i < |added| && added[i].slot == e.slot {
      }
    }
    forall s | 0 <= s < |after| && (forall i :: 0 <= i < |more| ==> more[i].slot != s) ensures after[s] == before[s] {
      assert more[|added|].slot != s;
      assert forall i :: 0 <= i < |added| ==> more[i] == added[i];
    }
  }

  lemma {:induction false} GiveBack(before: seq<bool>, now: seq<bool>, added: seq<Pending>)
    requires TakenFrom(before, now, added) && DistinctSlots(added) && added != []
    ensures var last := added[|added| - 1];
            TakenFrom(before, now[last.slot := true], added[..|added| - 1])
    ensures DistinctSlots(added[..|added| - 1])
  {
    var n := |added| - 1;
    var last, fewer := added[n], added[..n];
    var after := now[last.slot := true];
    forall s | 0 <= s < |after| && (forall i :: 0 <= i < |fewer| ==> fewer[i].slot != s) ensures after[s] == before[s] {
      if s != last.slot {
        assert forall i :: 0 <= i < |added| ==> added[i].slot != s;
      }
    }
  }

  lemma {:induction false} NothingTaken(before: seq<bool>, now: seq<bool>)
    requires TakenFrom(before, now, [])
    ensures now == before
  {
    forall s | 0 <= s < |now| ensures now[s] == before[s] {
    }
  }

  /** `requests` are the reads of the `added` entries. */
  ghost predicate Requested(requests: seq<ReadRequest>, added: seq<Pending>, buffers: seq<array<byte>>, g: Geometry)
    requires g.Sound()
  {
    && |requests| == |added|
    && forall k :: 0 <= k < |added| ==>
         && added[k].slot < |buffers| && added[k].offset < g.end && !added[k].done
         && requests[k] == RequestOf(added[k], buffers, g)
  }

  lemma {:induction false} NoneRequested(buffers: seq<array<byte>>, g: Geometry)
    requires g.Sound()
    ensures Requested([], [], buffers, g)
  {
  }

  lemma {:induction false} RequestedMore(
    requests: seq<ReadRequest>, added: seq<Pending>, e: Pending, buffers: seq<array<byte>>, g: Geometry)
    requires g.Sound() && Requested(requests, added, buffers, g)
    requires e.slot < |buffers| && e.offset < g.end && !e.done
    ensures Requested(requests + [RequestOf(e, buffers, g)], added + [e], buffers, g)
  {
  }

  lemma {:induction false} RequestedFacts(
    requests: seq<ReadRequest>, added: seq<Pending>, buffers: seq<array<byte>>, g: Geometry)
    requires g.Sound() && Requested(requests, added, buffers, g)
    ensures |requests| == |added| && forall k :: 0 <= k < |added| ==> !added[k].done
  {
  }

  // ----- submitting -----

  /** Where the flight can write: buffers of entries that are not done. */
  lemma {:induction false} FlightSlot(
    pending: seq<Pending>, buffers: seq<array<byte>>, g: Geometry, flight: seq<ReadRequest>, q: ReadRequest)
    returns (i: nat)
    requires Placed(pending, buffers, g) && Tracks(pending, buffers, g, flight) && q in flight
    ensures i < |pending| && !pending[i].done && q == RequestOf(pending[i], buffers, g)
  {
    i :| 0 <= i < |pending| && !pending[i].done && q == RequestOf(pending[i], buffers, g);
  }

  /** A done entry's buffer is in no read in flight. */
  lemma {:induction false} DoneApart(
    pending: seq<Pending>, buffers: seq<array<byte>>, g: Geometry, flight: seq<ReadRequest>, k: nat)
    requires Placed(pending, buffers, g) && Tracks(pending, buffers, g, flight)
    requires DistinctSlots(pending) && DistinctBuffers(buffers)
    requires k < |pending| && pending[k].done
    ensures buffers[pending[k].slot] !in Buffers(flight)
  {
    forall q | q in flight ensures q.dst != buffers[pending[k].slot] {
      var i := FlightSlot(pending, buffers, g, flight, q);
      assert pending[i].slot != pending[k].slot;
    }
  }

  /** New requests have their own buffers, fit them, and stay below the ring's length limit. */
  lemma {:induction false} NewRequestsOwn(
    pending: seq<Pending>, added: seq<Pending>, buffers: seq<array<byte>>, g: Geometry,
    flight: seq<ReadRequest>, requests: seq<ReadRequest>)
    requires Placed(pending, buffers, g) && Tracks(pending, buffers, g, flight) && OwnBuffers(flight)
    requires Requested(requests, added, buffers, g)
    requires DistinctSlots(pending + added) && DistinctBuffers(buffers)
    ensures OwnBuffers(flight + requests)
  {
    var all, entries := flight + requests, pending + added;
    forall j, k | 0 <= j < |all| && 0 <= k < |all| && j != k ensures all[j].dst != all[k].dst {
      if j < |flight| && k < |flight| {
        assert flight[j].dst != flight[k].dst;
      } else {
        var x := EntryOf(pending, added, buffers, g, flight, requests, j);
        var y := EntryOf(pending, added, buffers, g, flight, requests, k);
        assert entries[x].slot != entries[y].slot;
      }
    }
  }

  lemma {:induction false} EntryOf(
    pending: seq<Pending>, added: seq<Pending>, buffers: seq<array<byte>>, g: Geometry,
    flight: seq<ReadRequest>, requests: seq<ReadRequest>, j: nat) returns (x: nat)
    requires Placed(pending, buffers, g) && Tracks(pending, buffers, g, flight)
    requires Requested(requests, added, buffers, g) && j < |flight| + |requests|
    ensures x < |pending| + |added| && (pending + added)[x].slot < |buffers|
    ensures (flight + requests)[j].dst == buffers[(pending + added)[x].slot]
    ensures if j < |flight| then x < |pending| else x == |pending| + j - |flight|
  {
    if j < |flight| {
      x := FlightSlot(pending, buffers, g, flight, flight[j]);
    } else {
      x := |pending| + j - |flight|;
    }
  }

  lemma {:induction false} NewRequestsFit(
    added: seq<Pending>, buffers: seq<array<byte>>, g: Geometry, requests: seq<ReadRequest>)
    requires g.Sound() && Requested(requests, added, buffers, g)
    requires forall i :: 0 <= i < |buffers| ==> buffers[i].Length == g.segment
    ensures Fit(requests)
    ensures forall q :: q in requests ==> q.length <= g.segment && q.dst in buffers
  {
    forall q | q in requests ensures q.length <= g.segment == q.dst.Length && q.dst in buffers {
      var k :| 0 <= k < |requests| && requests[k] == q;
      assert q == RequestOf(added[k], buffers, g);
      assert buffers[added[k].slot] in buffers;
    }
  }

  /** Distinct buffers out of `depth` many: the flight never exceeds the queue depth. */
  lemma {:induction false} NeverTooMany(flight: seq<ReadRequest>, buffers: seq<array<byte>>)
    requires OwnBuffers(flight)
    requires forall q :: q in flight ==> q.dst in buffers
    ensures |flight| <= |buffers|
    decreases |flight|
  {
    if flight != [] {
      var n := |flight| - 1;
      var last, rest := flight[n], flight[..n];
      var k :| 0 <= k < |buffers| && buffers[k] == last.dst;
      var others := buffers[..k] + buffers[k + 1..];
      forall q | q in rest ensures q.dst in others {
        var i :| 0 <= i < |rest| && rest[i] == q;
        assert flight[i].dst != flight[n].dst;
        var m :| 0 <= m < |buffers| && buffers[m] == q.dst;
        assert q.dst == others[if m < k then m else m - 1];
      }
      NeverTooMany(rest, others);
    }
  }

  lemma {:induction false} TracksMore(
    pending: seq<Pending>, added: seq<Pending>, buffers: seq<array<byte>>, g: Geometry,
    flight: seq<ReadRequest>, requests: seq<ReadRequest>)
    requires Placed(pending, buffers, g) && Tracks(pending, buffers, g, flight)
    requires Requested(requests, added, buffers, g)
    ensures Placed(pending + added, buffers, g)
    ensures Tracks(pending + added, buffers, g, flight + requests)
  {
    var all := pending + added;
    forall i | 0 <= i < |all| && !all[i].done ensures RequestOf(all[i], buffers, g) in flight + requests {
      if i >= |pending| {
        assert requests[i - |pending|] == RequestOf(all[i], buffers, g);
      }
    }
    forall q | q in flight + requests
      ensures exists i :: 0 <= i < |all| && !all[i].done && q == RequestOf(all[i], buffers, g)
    {
      if q in flight {
        var i := FlightSlot(pending, buffers, g, flight, q);
        assert all[i] == pending[i];
      } else {
        var k :| 0 <= k < |requests| && requests[k] == q;
        assert all[|pending| + k] == added[k];
      }
    }
  }

  // ----- completing -----

  lemma {:induction false} InFlight(
    pending: seq<Pending>, buffers: seq<array<byte>>, g: Geometry, flight: seq<ReadRequest>, i: nat)
    requires Placed(pending, buffers, g) && Tracks(pending, buffers, g, flight)
    requires i < |pending| && !pending[i].done
    ensures flight != []
  {
    assert RequestOf(pending[i], buffers, g) in flight;
  }

  lemma {:induction false} FlightWithin(
    pending: seq<Pending>, buffers: seq<array<byte>>, g: Geometry, flight: seq<ReadRequest>)
    requires Placed(pending, buffers, g) && Tracks(pending, buffers, g, flight)
    ensures forall b :: b in Buffers(flight) ==> b in buffers
  {
    forall q | q in flight ensures q.dst in buffers {
      var i := FlightSlot(pending, buffers, g, flight, q);
    }
  }

  /** A completion's request is the read of one entry, under its slot as token. */
  lemma {:induction false} Answered(
    pending: seq<Pending>, buffers: seq<array<byte>>, g: Geometry,
    flight: seq<ReadRequest>, request: ReadRequest, now: seq<ReadRequest>) returns (i: nat)
    requires Placed(pending, buffers, g) && Tracks(pending, buffers, g, flight)
    requires Leaves(flight, [request], now)
    ensures i < |pending| && !pending[i].done && request == RequestOf(pending[i], buffers, g)
    ensures request.token == pending[i].slot && request.offset == pending[i].offset && request in flight
    ensures |now| < |flight|
  {
    assert request in multiset([request]);
    assert request in multiset(flight);
    i := FlightSlot(pending, buffers, g, flight, request);
  }

  lemma {:induction false} SameSlot(pending: seq<Pending>, i: nat, j: nat)
    requires DistinctSlots(pending) && i < |pending| && j < |pending| && pending[i].slot == pending[j].slot
    ensures i == j
  {
  }

  /** Recording a completion moves no entry. */
  lemma {:induction false} MarkKeeps(
    pending: seq<Pending>, free: seq<bool>, next: nat, g: Geometry, i: nat, bytes: nat)
    requires Chained(pending, next, g) && SlotsOwned(pending, free) && i < |pending|
    ensures Chained(pending[i := pending[i].(bytes := bytes, done := true)], next, g)
    ensures SlotsOwned(pending[i := pending[i].(bytes := bytes, done := true)], free)
  {
    SamePlacesKeep(pending, pending[i := pending[i].(bytes := bytes, done := true)], free, next, g);
  }

  lemma {:induction false} SamePlacesKeep(
    pending: seq<Pending>, after: seq<Pending>, free: seq<bool>, next: nat, g: Geometry)
    requires Chained(pending, next, g) && SlotsOwned(pending, free) && |after| == |pending|
    requires forall k :: 0 <= k < |after| ==> after[k].offset == pending[k].offset && after[k].slot == pending[k].slot
    ensures Chained(after, next, g) && SlotsOwned(after, free)
  {
    forall k | 0 <= k < |after|
      ensures after[k].offset < g.end
      ensures Advance(after[k].offset, g) == if k + 1 < |after| then after[k + 1].offset else next
    {
      ChainAt(pending, next, g, k);
    }
  }

  /** Entry `i`'s read has left the flight: marking it done keeps the rest as it is. */
  lemma {:induction false} TracksFewer(
    pending: seq<Pending>, buffers: seq<array<byte>>, g: Geometry,
    flight: seq<ReadRequest>, i: nat, bytes: nat, now: seq<ReadRequest>)
    requires Placed(pending, buffers, g) && Tracks(pending, buffers, g, flight) && DistinctSlots(pending)
    requires i < |pending| && Leaves(flight, [RequestOf(pending[i], buffers, g)], now)
    ensures var after := pending[i := pending[i].(bytes := bytes, done := true)];
            Placed(after, buffers, g) && Tracks(after, buffers, g, now)
  {
    var q0 := RequestOf(pending[i], buffers, g);
    var after := pending[i := pending[i].(bytes := bytes, done := true)];
    forall k | 0 <= k < |after| && !after[k].done ensures RequestOf(after[k], buffers, g) in now {
      var q := RequestOf(pending[k], buffers, g);
      assert pending[k].slot != pending[i].slot;
      assert q != q0 && q in multiset(flight);
      assert q in multiset(now);
    }
    forall q | q in now
      ensures exists k :: 0 <= k < |after| && !after[k].done && q == RequestOf(after[k], buffers, g)
    {
      assert q in multiset(now);
      assert q in multiset(flight);
      var k := FlightSlot(pending, buffers, g, flight, q);
      assert q.dst in Buffers(now) && q0 in [q0] && q0.dst !in Buffers(now);
      assert after[k] == pending[k];
    }
  }

  /** A successful completion lands: the buffer holds the tile's part of the file. */
  lemma {:induction false} Lands(
    e: Pending, bytes: nat, buffers: seq<array<byte>>, g: Geometry, device: Device, c: Completion)
    requires g.Sound() && e.offset < g.end && e.slot < |buffers|
    requires Finished(c, RequestOf(e, buffers, g), device) && c.error == 0
    requires bytes == Min(c.bytes, g.end - e.offset)
    ensures Landed(e.(bytes := bytes, done := true), buffers[e.slot], device, g)
  {
    var data := buffers[e.slot];
    assert data[..bytes] == data[..c.bytes][..bytes];
  }

  // ----- delivering -----

  /** The oldest entry is delivered: the next one takes its place, and its slot is free again. */
  lemma {:induction false} PopKeeps(pending: seq<Pending>, free: seq<bool>, next: nat, g: Geometry)
    requires pending != [] && Chained(pending, next, g) && SlotsOwned(pending, free)
    ensures Chained(pending[1..], next, g) && SlotsOwned(pending[1..], free[pending[0].slot := true])
    ensures pending[0].slot < |free| && true in free[pending[0].slot := true]
    ensures pending[0].offset < g.end && Position(pending[1..], next) == Advance(pending[0].offset, g)
  {
    ChainAt(pending, next, g, 0);
    PopChain(pending, pending[1..], next, g);
    PopSlots(pending, pending[1..], free, free[pending[0].slot := true]);
  }

  lemma {:induction false} PopChain(pending: seq<Pending>, after: seq<Pending>, next: nat, g: Geometry)
    requires pending != [] && after == pending[1..] && Chained(pending, next, g)
    ensures Chained(after, next, g)
  {
    forall k | 0 <= k < |after|
      ensures after[k].offset < g.end
      ensures Advance(after[k].offset, g) == if k + 1 < |after| then after[k + 1].offset else next
    {
      ChainAt(pending, next, g, k + 1);
    }
  }

  lemma {:induction false} PopSlots(pending: seq<Pending>, after: seq<Pending>, free: seq<bool>, freed: seq<bool>)
    requires pending != [] && after == pending[1..] && SlotsOwned(pending, free)
    requires freed == free[pending[0].slot := true]
    ensures SlotsOwned(after, freed) && true in freed
  {
    assert freed[pending[0].slot];
    forall k | 0 <= k < |after| ensures after[k].slot < |freed| && !freed[after[k].slot] {
      assert after[k] == pending[k + 1];
      assert pending[k + 1].slot != pending[0].slot;
    }
  }

  /** The pending entries are the window's tiles, one after the other, from the oldest entry on. */
  lemma {:induction false} ChainedAreTiles(pending: seq<Pending>, next: nat, g: Geometry, i: nat)
    requires Chained(pending, next, g) && i < |pending|
    ensures i < |Tiles(pending[0].offset, g)|
    ensures Tiles(pending[0].offset, g)[i] == Tile(pending[i].offset, RequestLength(pending[i].offset, g))
    decreases i
  {
    hide Advance, RequestLength;
    var start := pending[0].offset;
    ChainAt(pending, next, g, 0);
    assert Tiles(start, g) == [Tile(start, RequestLength(start, g))] + Tiles(Advance(start, g), g);
    if i > 0 {
      PopChain(pending, pending[1..], next, g);
      ChainedAreTiles(pending[1..], next, g, i - 1);
    }
  }

  /** All entries, and the next request, are whole numbers of blocks from where the oldest one is. */
  lemma {:induction false} ChainOnGrid(pending: seq<Pending>, next: nat, g: Geometry, start: nat, i: nat)
    requires Chained(pending, next, g)
    requires Position(pending, next) < g.end ==> OnGrid(Position(pending, next), start, g.block)
    requires i <= |pending|
    ensures var at := if i < |pending| then pending[i].offset else next;
            at < g.end ==> OnGrid(at, start, g.block)
    decreases i
  {
    hide Advance, RequestLength, OnGrid;
    if i > 0 {
      ChainAt(pending, next, g, 0);
      GridAdvance(pending[0].offset, start, g);
      PopChain(pending, pending[1..], next, g);
      ChainOnGrid(pending[1..], next, g, start, i - 1);
    }
  }

  /** From an aligned start every entry, and the next request, is aligned. */
  lemma {:induction false} ChainAligned(pending: seq<Pending>, next: nat, g: Geometry, start: nat)
    requires Chained(pending, next, g)
    requires Position(pending, next) < g.end ==> OnGrid(Position(pending, next), start, g.block)
    ensures forall i :: 0 <= i < |pending| ==> OnGrid(pending[i].offset, start, g.block)
    ensures start % g.block == 0 ==> forall i :: 0 <= i < |pending| ==> pending[i].offset % g.block == 0
    ensures start % g.block == 0 && next < g.end ==> next % g.block == 0
  {
    hide OnGrid, Advance, Position;
    Align.SelfMultiple(g.block);
    forall i | 0 <= i < |pending|
      ensures OnGrid(pending[i].offset, start, g.block) && (start % g.block == 0 ==> pending[i].offset % g.block == 0)
    {
      ChainAt(pending, next, g, i);
      ChainOnGrid(pending, next, g, start, i);
      GridAligned(pending[i].offset, start, g.block, g.block);
    }
    ChainOnGrid(pending, next, g, start, |pending|);
    if next < g.end { GridAligned(next, start, g.block, g.block); }
  }

  /** Slots neither pending nor free: those of entries dropped when a shard was closed early. */
  function Abandoned(pending: seq<Pending>, free: seq<bool>): int {
    |free| - |pending| - multiset(free)[true]
  }

  /** Taking a free slot abandons none. */
  lemma {:induction false} TakeAbandons(pending: seq<Pending>, free: seq<bool>, e: Pending)
    requires e.slot < |free| && free[e.slot]
    ensures Abandoned(pending + [e], free[e.slot := false]) == Abandoned(pending, free)
  {
    assert multiset(free[e.slot := false]) == multiset(free) - multiset{true} + multiset{false};
  }

  /** With every slot accounted for and fewer entries than slots, a slot is free. */
  lemma {:induction false} SlotLeft(pending: seq<Pending>, free: seq<bool>)
    requires Abandoned(pending, free) == 0 && |pending| < |free|
    ensures true in free
  {
    assert true in multiset(free);
  }

  lemma {:induction false} AllFree(free: seq<bool>)
    requires forall k :: 0 <= k < |free| ==> free[k]
    ensures Abandoned([], free) == 0
    decreases |free|
  {
    if free != [] {
      var n := |free| - 1;
      AllFree(free[..n]);
      assert free == free[..n] + [true];
    }
  }

  /** Each entry takes the window at most a segment further. */
  lemma {:induction false} ChainReach(pending: seq<Pending>, next: nat, g: Geometry)
    requires Chained(pending, next, g)
    ensures next <= Position(pending, next) + |pending| * g.segment
    decreases |pending|
  {
    hide RequestLength;
    if pending != [] {
      ChainAt(pending, next, g, 0);
      PopChain(pending, pending[1..], next, g);
      ChainReach(pending[1..], next, g);
      assert Advance(pending[0].offset, g) <= pending[0].offset + g.segment;
      assert |pending| * g.segment == g.segment + |pending[1..]| * g.segment;
    }
  }

  /** However many shards were closed early, one slot at least is pending or free. */
  lemma {:induction false} AbandonedBound(pending: seq<Pending>, free: seq<bool>)
    requires SlotsOwned(pending, free) && free != []
    ensures 0 <= Abandoned(pending, free) < |free|
    decreases |pending|
  {
    if pending == [] {
      assert |multiset(free)| == |free| && true in multiset(free);
      assert multiset(free)[true] <= |multiset(free)| by {
        assert multiset(free) == multiset(free)[true := 0] + multiset{}[true := multiset(free)[true]];
      }
    } else {
      var freed := free[pending[0].slot := true];
      PopSlots(pending, pending[1..], free, freed);
      assert multiset(freed) == multiset(free) - multiset{false} + multiset{true};
      AbandonedBound(pending[1..], freed);
    }
  }

  lemma {:induction false} PopTracks(
    pending: seq<Pending>, buffers: seq<array<byte>>, g: Geometry, flight: seq<ReadRequest>)
    requires pending != [] && pending[0].done
    requires Placed(pending, buffers, g) && Tracks(pending, buffers, g, flight)
    ensures Placed(pending[1..], buffers, g) && Tracks(pending[1..], buffers, g, flight)
  {
    var after := pending[1..];
    assert forall k :: 0 <= k < |after| ==> after[k] == pending[k + 1];
    forall q | q in flight
      ensures exists k :: 0 <= k < |after| && !after[k].done && q == RequestOf(after[k], buffers, g)
    {
      var i := FlightSlot(pending, buffers, g, flight, q);
      assert after[i - 1] == pending[i];
    }
  }
}
