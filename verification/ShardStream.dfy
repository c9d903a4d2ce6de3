/** `ShardStream` of src/dataset.cpp: a shard set read as one sequential byte stream, with several
    segment reads in flight and completions in any order. */
module ShardStream {
  import opened Common
  import opened Shards
  import opened BackendContract
  import opened Backend
  import opened Tiling
  import opened Delivery
  import opened Pipeline
  import UringBackend

  /** The device while no file is open. */
  const CLOSED := Device([], 1, map[], map[], {}, false)

  /** `error` is that of the first unreadable shard. */
  ghost predicate FirstCause(fs: FileSystem, shards: seq<Shard>, order: seq<nat>, error: Error)
    requires forall i :: 0 <= i < |order| ==> order[i] < |shards|
  {
    var k := FirstUnreadable(fs, shards, order, 0);
    k < |order| && error == Cause(fs, shards[order[k]])
  }

  /** Every way `read` can fail: the first unreadable shard, or something faulty. Queue full, an empty reap
      and an unknown completion are not among them. */
  ghost predicate ReadFailure(fs: FileSystem, shards: seq<Shard>, order: seq<nat>, faults: Faults, error: Error)
    requires forall i :: 0 <= i < |order| ==> order[i] < |shards|
  {
    || FirstCause(fs, shards, order, error)
    || (faults.any && faults.memory && error.AllocationFailed?)
    || (faults.any && faults.backends && error.BackendUnavailable?)
    || (faults.any && CallErrno(faults, error))
    || (faults.any && error.ReadFailed?
        && exists i :: 0 <= i < |order| && ReadErrno(fs, shards[order[i]], faults.ErrorsAt(i), error.errno))
  }

  /** A call into the ring returned one of its errnos. */
  ghost predicate CallErrno(faults: Faults, error: Error) {
    error.Io? && exists e :: e in faults.calls && error.errno == e
  }

  class Stream {
    const fs: FileSystem
    const shards: seq<Shard>
    const order: seq<nat>
    const options: BatchOptions
    const readDepth: nat
    const cuts: seq<Cuts>
    const faults: Faults
    var next: nat

    var device: Device
    var backend: Backend?
    var buffers: seq<array<byte>>
    var free: seq<bool>
    var pending: seq<Pending>
    var block: nat
    var segment: nat
    var windowEnd: nat
    var nextOffset: nat
    var open: bool

    var carry: seq<byte>
    var carrySize: nat

    ghost var Repr: set<object>

    // ----- the invariant -----

    ghost function Geo(): Geometry
      reads this
    {
      Geometry(windowEnd, segment, block)
    }

    /** The buffers, and which slots are taken. */
    ghost predicate Prepared()
      reads this
    {
      && readDepth == Max(options.readDepth, 1)
      && (buffers == [] ==> !open)
      && (buffers != [] ==>
            && |buffers| == |free| == readDepth
            && DistinctBuffers(buffers)
            && Geo().Sound() && segment < TWO32
            && (forall i :: 0 <= i < |buffers| ==> buffers[i].Length == segment && buffers[i] in Repr)
            && SlotsOwned(pending, free))
    }

    /** The file, the window and the position are those of `shard`. */
    ghost predicate AtShard(shard: Shard)
      reads this
    {
      && shard.path in fs
      && block > 0
      && device == DeviceAt(fs[shard.path], cuts, faults, next)
      && fs[shard.path].block == block && Geo() == GeometryOf(fs[shard.path], shard, options)
      && OnCourse(Position(pending, nextOffset), fs, shard, Geo())
    }

    /** Where the stream stands in the shards and in the open window. */
    ghost predicate Positioned()
      reads this
    {
      && (forall i :: 0 <= i < |order| ==> order[i] < |shards|)
      && Supported(fs, options)
      && next <= |order|
      && (forall i :: 0 <= i < next ==> Readable(fs, shards[order[i]]))
      && (if open then
            && next < |order|
            && AtShard(shards[order[next]])
            && Chained(pending, nextOffset, Geo())
          else pending == [])
      && carrySize <= |carry|
      && (carrySize > 0 ==> open && carrySize < segment)
      && |pending| < Max(2, readDepth)
    }

    /** The backend of the open shard, and the reads it has in flight. */
    ghost predicate Connected()
      reads this, Repr
    {
      && this in Repr
      && (open ==>
            && backend != null && backend in Repr && backend.Repr <= Repr && this !in backend.Repr
            && (forall i :: 0 <= i < |buffers| ==> buffers[i] !in backend.Repr)
            && (forall q :: q in backend.flight ==> q.dst in Repr)
            && backend.Valid()
            && backend.device == device && backend.depth == readDepth)
    }

    ghost predicate InOrder()
      reads this, Repr
      requires Prepared() && Positioned() && Connected()
    {
      open ==>
        && Placed(pending, buffers, Geo())
        && Tracks(pending, buffers, Geo(), backend.flight)
        && forall i :: 0 <= i < |pending| && pending[i].done ==>
             Landed(pending[i], buffers[pending[i].slot], device, Geo())
    }

    ghost predicate Valid()
      reads this, Repr
    {
      Prepared() && Positioned() && Connected() && InOrder()
    }

    /** Between two calls the pipeline is at most `read_depth - 2` entries long. */
    ghost predicate Idle()
      reads this
    {
      pending == [] || |pending| + 2 <= readDepth
    }

    /** Everything still to be delivered: the carry, what the requests of the open window deliver from the
        oldest pending entry on, and what the shards to come deliver. */
    ghost function Remaining(): seq<byte>
      reads this, Repr
      requires Valid()
    {
      carry[..carrySize] + Ahead()
    }

    ghost function Ahead(): seq<byte>
      reads this, Repr
      requires Valid()
    {
      if !open then Streamed(fs, shards, order, options, cuts, next)
      else if Readable(fs, shards[order[next]])
      then Emitted(device.bytes, device.cuts, Position(pending, nextOffset), Geo()) + Later()
      else []
    }

    /** What the shards after the one at `next` deliver. */
    ghost function Later(): seq<byte>
      reads this
      requires Positioned()
    {
      if next < |order| then Streamed(fs, shards, order, options, cuts, next + 1) else []
    }

    /** Every shard of the stream can be opened and starts at a whole sector. */
    ghost predicate AllReadable() {
      forall i :: 0 <= i < |order| ==> order[i] < |shards| && Readable(fs, shards[order[i]])
    }

    /** The failure of the first unreadable shard. */
    ghost predicate Blames(error: Error) {
      (forall i :: 0 <= i < |order| ==> order[i] < |shards|) && FirstCause(fs, shards, order, error)
    }

    ghost predicate Failure(error: Error) {
      && (forall i :: 0 <= i < |order| ==> order[i] < |shards|)
      && ReadFailure(fs, shards, order, faults, error)
    }

    /** Why a read of the shard at position `i` fails: a call into the ring failed, or a read with the errno
        that the kernel gives for its offset, or the shard is misaligned. */
    ghost predicate Explained(error: Error, i: nat)
      requires i < |order| && order[i] < |shards|
    {
      var shard := shards[order[i]];
      || (faults.any && CallErrno(faults, error))
      || (faults.any && error.ReadFailed? && ReadErrno(fs, shard, faults.ErrorsAt(i), error.errno))
      || (error == ReadFailed(EINVAL) && shard.path in fs && !Readable(fs, shard))
    }

    /** Unrequested bytes of the open window, and the entries pending: delivering shrinks it. */
    ghost function Work(): nat
      reads this
    {
      (if nextOffset < windowEnd then windowEnd - nextOffset else 0) + |pending|
    }

    /** `cuts` says where the kernel cuts reads short, shard by shard; `faults`, how allocations, the
        backend and its reads may fail. */
    constructor (
      fs: FileSystem, shards: seq<Shard>, order: seq<nat>, options: BatchOptions, cuts: seq<Cuts>, faults: Faults)
      requires Supported(fs, options)
      requires forall i :: 0 <= i < |order| ==> order[i] < |shards|
      ensures Valid() && Idle() && fresh(Repr)
      ensures this.fs == fs && this.shards == shards && this.order == order && this.faults == faults
      ensures this.options == options && readDepth == Max(options.readDepth, 1)
      ensures !open && next == 0 && buffers == [] && carrySize == 0
      ensures Remaining() == Streamed(fs, shards, order, options, cuts, 0)
    {
      this.fs, this.shards, this.order, this.options := fs, shards, order, options;
      this.cuts, this.faults := cuts, faults;
      readDepth := Max(options.readDepth, 1);
      next, open, backend := 0, false, null;
      device := CLOSED;
      buffers, free, pending, carry, carrySize := [], [], [], [], 0;
      block, segment, windowEnd, nextOffset := 0, 0, 0, 0;
      Repr := {this};
    }

    // ----- slots -----

    /** The first free slot, now taken; `None` when there is none. */
    method TakeFree() returns (slot: int)
      modifies `free
      ensures -1 <= slot < |free| == old(|free|)
      ensures slot < 0 ==> true !in old(free) && free == old(free)
      ensures slot >= 0 ==> old(free)[slot] && free == old(free)[slot := false]
      ensures slot >= 0 ==> forall k :: 0 <= k < slot ==> !old(free)[k]
    {
      var i := 0;
      while i < |free|
        invariant 0 <= i <= |free| && free == old(free)
        invariant forall k :: 0 <= k < i ==> !free[k]
      {
        if free[i] {
          free := free[i := false];
          return i;
        }
        i := i + 1;
      }
      return -1;
    }

    method Release(slot: nat)
      requires slot < |free|
      modifies `free
      ensures free == old(free)[slot := true]
    {
      free := free[slot := true];
    }

    /** The length of the next request: O_DIRECT reads whole blocks, and the window trims the tail. */
    method NextLength() returns (length: nat)
      requires Geo().Sound() && nextOffset < windowEnd
      ensures length == RequestLength(nextOffset, Geo())
    {
      var remaining := windowEnd - nextOffset;
      length := segment;
      if length > remaining {
        length := remaining;
      }
      length := length - length % block;
      if length == 0 {
        length := block;
      }
    }

    /** One iteration of `fill_pipeline`: the next tile is given the slot just taken. */
    method RequestInto(slot: nat) returns (request: ReadRequest)
      requires Geo().Sound() && nextOffset < windowEnd && slot < |buffers|
      modifies `pending, `nextOffset
      ensures pending == old(pending) + [Pending(old(nextOffset), slot, 0, false)]
      ensures request == RequestOf(pending[|pending| - 1], buffers, Geo())
      ensures nextOffset == Advance(old(nextOffset), Geo())
    {
      var remaining := windowEnd - nextOffset;
      var length := NextLength();
      request := ReadRequest(nextOffset, buffers[slot], length, slot);
      pending := pending + [Pending(nextOffset, slot, 0, false)];
      nextOffset := nextOffset + Min(length, remaining);
    }

    /** The loop of `fill_pipeline`: tiles of the window are cut off and given free slots, until the
        doubly counted depth, the window or the slots are used up. */
    method RequestMore() returns (requests: seq<ReadRequest>, ghost added: seq<Pending>)
      requires Geo().Sound() && |buffers| == |free|
      requires Chained(pending, nextOffset, Geo()) && SlotsOwned(pending, free)
      modifies `pending, `free, `nextOffset
      ensures pending == old(pending) + added && |added| == |requests|
      ensures Chained(pending, nextOffset, Geo()) && SlotsOwned(pending, free)
      ensures Position(pending, nextOffset) == old(Position(pending, nextOffset))
      ensures Requested(requests, added, buffers, Geo())
      ensures TakenFrom(old(free), free, added) && DistinctSlots(added) && |free| == old(|free|)
      ensures nextOffset >= old(nextOffset) + |added| && (nextOffset <= windowEnd || added == [])
      ensures |added| <= FillRounds(old(|pending|), 0, readDepth)
      ensures |added| == FillRounds(old(|pending|), 0, readDepth) || nextOffset >= windowEnd || true !in free
      ensures Abandoned(pending, free) == old(Abandoned(pending, free))
    {
      hide Chained, SlotsOwned, TakenFrom, DistinctSlots, RequestLength, Position, Requested, Abandoned;
      requests, added := [], [];
      NoneTaken(free);
      NoneRequested(buffers, Geo());
      while |pending| + |requests| < readDepth && nextOffset < windowEnd
        invariant pending == old(pending) + added && |added| == |requests|
        invariant Chained(pending, nextOffset, Geo())
        invariant SlotsOwned(pending, free)
        invariant Position(pending, nextOffset) == old(Position(pending, nextOffset))
        invariant Requested(requests, added, buffers, Geo())
        invariant TakenFrom(old(free), free, added) && DistinctSlots(added) && |free| == |buffers|
        invariant nextOffset >= old(nextOffset) + |added| && (nextOffset <= windowEnd || added == [])
        invariant Abandoned(pending, free) == old(Abandoned(pending, free))
        invariant |added| + FillRounds(|pending|, |requests|, readDepth) == FillRounds(old(|pending|), 0, readDepth)
        decreases readDepth - |requests|
      {
        ghost var slots, before, start := free, pending, nextOffset;
        var slot := TakeFree();
        if slot < 0 {
          break;
        }
        ghost var e := Pending(nextOffset, slot, 0, false);
        TakeAnother(old(free), slots, added, e);
        SlotsAppend(before, slots, e);
        TakeAbandons(before, slots, e);
        ChainAppend(before, start, Geo(), e);
        RequestedMore(requests, added, e, buffers, Geo());
        var request := RequestInto(slot);
        requests, added := requests + [request], added + [e];
      }
    }

    /** Undoes the loop of `fill_pipeline`, newest entry first. */
    method RollBack(count: nat, ghost start: seq<Pending>, ghost slots: seq<bool>, ghost added: seq<Pending>)
      requires pending == start + added && |added| == count
      requires TakenFrom(slots, free, added) && DistinctSlots(added)
      modifies `pending, `free
      ensures pending == start && free == slots
    {
      hide DistinctSlots;
      ghost var left := added;
      var i := 0;
      while i < count
        invariant 0 <= i <= count && |left| == count - i
        invariant pending == start + left
        invariant TakenFrom(slots, free, left) && DistinctSlots(left)
      {
        GiveBack(slots, free, left);
        assert pending[|pending| - 1] == left[|left| - 1];
        Release(pending[|pending| - 1].slot);
        pending := pending[..|pending| - 1];
        left := left[..|left| - 1];
        i := i + 1;
      }
      NothingTaken(slots, free);
    }

    /** The submission itself: it is never refused for lack of room. */
    method Send(requests: seq<ReadRequest>) returns (r: Outcome<()>)
      requires open && Connected() && |backend.flight| + |requests| <= readDepth
      requires Fit(requests) && OwnBuffers(backend.flight + requests)
      requires forall q :: q in requests ==> q.length < TWO32 && q.dst in buffers && q.dst in Repr
      modifies backend.Repr
      ensures r.Err? ==> device.CallFails(r.error)
      ensures r.Ok? ==> Connected() && backend.flight == old(backend.flight) + requests
    {
      hide OwnBuffers, Fit, Backend.Serves, Device.CallFails;
      SentSame(backend, requests);
      r := backend.Submit(requests);
    }

    /** The single submission of a fill, if there is anything to submit, and its rollback. */
    method Launch(requests: seq<ReadRequest>, ghost before: seq<Pending>, ghost slots: seq<bool>, ghost added: seq<Pending>)
      returns (r: Outcome<()>)
      requires open && Prepared() && Positioned() && Connected()
      requires pending == before + added && TakenFrom(slots, free, added) && DistinctSlots(added)
      requires Placed(before, buffers, Geo()) && Tracks(before, buffers, Geo(), backend.flight)
      requires Requested(requests, added, buffers, Geo())
      requires forall i :: 0 <= i < |before| && before[i].done ==>
                 Landed(before[i], buffers[before[i].slot], device, Geo())
      modifies `pending, `free, backend.Repr
      ensures r.Err? ==> device.CallFails(r.error) && pending == before && free == slots
      ensures r.Ok? ==> Valid() && pending == old(pending) && free == old(free)
      ensures r.Ok? ==> |backend.flight| == old(|backend.flight|) + |added|
    {
      hide Chained, SlotsOwned, TakenFrom, Tracks, Placed, DistinctSlots, DistinctBuffers, Requested, RequestOf,
        Position, Fit, OwnBuffers, Backend.Serves, Advance, RequestLength, Delivered, Slice, Supported, OnCourse,
        Readable, GeometryOf, DeviceAt, Device.CallFails, Landed, Served;
      ghost var g, flight := Geo(), backend.flight;
      RequestedFacts(requests, added, buffers, Geo());
      if requests == [] {
        assert pending == before + [] == before;
        NothingTaken(slots, free);
        return Ok(());
      }
      SlotFacts(pending, free);
      ReadyToSubmit(before, added, g, flight, requests);
      TracksMore(before, added, buffers, g, flight, requests);
      var submitted := Send(requests);
      if submitted.Err? {
        RollBack(|requests|, before, slots, added);
        return Err(submitted.error);
      }
      assert forall i :: 0 <= i < |pending| && pending[i].done ==> i < |before| && pending[i] == before[i];
      return Ok(());
    }

    /** The planning half of a fill: the window, the deque and the slots stay sound, and the entries that
        were pending are as they were. */
    method PlanFill() returns (requests: seq<ReadRequest>, ghost added: seq<Pending>)
      requires Valid() && open && Idle()
      modifies `pending, `free, `nextOffset
      ensures Prepared() && Positioned() && Connected()
      ensures pending == old(pending) + added && TakenFrom(old(free), free, added) && DistinctSlots(added)
      ensures Geo().Sound() && Placed(old(pending), buffers, Geo()) && Tracks(old(pending), buffers, Geo(), backend.flight)
      ensures Requested(requests, added, buffers, Geo())
      ensures forall i :: 0 <= i < |old(pending)| && old(pending)[i].done ==>
                Landed(old(pending)[i], buffers[old(pending)[i].slot], device, Geo())
      ensures Position(pending, nextOffset) == old(Position(pending, nextOffset))
      ensures |added| <= FillRounds(old(|pending|), 0, readDepth)
      ensures |added| == FillRounds(old(|pending|), 0, readDepth) || nextOffset >= windowEnd || true !in free
      ensures pending == [] ==> nextOffset >= windowEnd
      ensures Abandoned(pending, free) == old(Abandoned(pending, free))
      ensures Work() <= old(Work())
    {
      hide Chained, SlotsOwned, TakenFrom, Tracks, DistinctSlots, DistinctBuffers, Requested, RequestOf,
        Position, OwnBuffers, FillRounds, Backend.Valid, Advance, RequestLength, Delivered, Slice, Supported,
        OnCourse, Readable, GeometryOf, Abandoned;
      FillBound(|pending|, readDepth);
      assert this as object !in Buffers(backend.flight);
      requests, added := RequestMore();
      SlotFacts(pending, free);
    }

    /** `fill_pipeline`: one submission for all new requests. A failed submission leaves the pipeline,
        the slots and the cursor exactly as they were; the queue is never found full. */
    method FillPipeline() returns (r: Outcome<()>)
      requires Valid() && open && Idle()
      modifies `pending, `free, `nextOffset, backend.Repr
      ensures r.Err? ==> old(device).CallFails(r.error)
      ensures r.Err? ==> pending == old(pending) && free == old(free) && nextOffset == old(nextOffset)
      ensures r.Ok? ==> Valid() && Position(pending, nextOffset) == old(Position(pending, nextOffset))
      ensures r.Ok? ==> old(pending) <= pending
      ensures r.Ok? ==> |pending| - old(|pending|) <= FillRounds(old(|pending|), 0, readDepth)
      ensures r.Ok? ==> |pending| - old(|pending|) == FillRounds(old(|pending|), 0, readDepth)
                        || nextOffset >= windowEnd || true !in free
      ensures r.Ok? && pending == [] ==> nextOffset >= windowEnd
      ensures r.Ok? ==> Abandoned(pending, free) == old(Abandoned(pending, free))
      ensures r.Ok? ==> |backend.flight| - old(|backend.flight|) == |pending| - old(|pending|)
      ensures r.Ok? ==> Work() <= old(Work())
    {
      hide Prepared, Positioned, InOrder, Tracks, Placed, TakenFrom, DistinctSlots, Requested, Position, FillRounds,
        Geometry.Sound, Landed, Backend.Valid, Abandoned;
      ghost var before, slots := pending, free;
      var startOffset := nextOffset;
      var requests, added := PlanFill();
      var submitted := Launch(requests, before, slots, added);
      if submitted.Err? {
        nextOffset := startOffset;
        return Err(submitted.error);
      }
      return Ok(());
    }

    lemma {:induction false} ReadyToSubmit(
      before: seq<Pending>, added: seq<Pending>, g: Geometry, flight: seq<ReadRequest>, requests: seq<ReadRequest>)
      requires Placed(before, buffers, g) && Tracks(before, buffers, g, flight) && OwnBuffers(flight)
      requires Requested(requests, added, buffers, g) && g.segment < TWO32
      requires DistinctSlots(before + added) && DistinctBuffers(buffers)
      requires forall i :: 0 <= i < |buffers| ==> buffers[i].Length == g.segment
      ensures Fit(requests) && OwnBuffers(flight + requests)
      ensures forall q :: q in requests ==> q.length < TWO32 && q.dst in buffers
      ensures |flight| + |requests| <= |buffers|
    {
      NewRequestsOwn(before, added, buffers, g, flight, requests);
      NewRequestsFit(added, buffers, g, requests);
      forall q | q in flight + requests ensures q.dst in buffers {
        if q in flight {
          var i := FlightSlot(before, buffers, g, flight, q);
        }
      }
      NeverTooMany(flight + requests, buffers);
    }

    /** The linear search of `await_front` for the entry a completion belongs to. */
    method FindPending(token: nat) returns (i: int)
      ensures -1 <= i < |pending|
      ensures i >= 0 ==> pending[i].slot == token
      ensures i < 0 ==> forall k :: 0 <= k < |pending| ==> pending[k].slot != token
    {
      i := 0;
      while i < |pending|
        invariant 0 <= i <= |pending|
        invariant forall k :: 0 <= k < i ==> pending[k].slot != token
      {
        if pending[i].slot == token {
          return i;
        }
        i := i + 1;
      }
      return -1;
    }

    /** `backend_->reap(std::span(&completion, 1), 1)`: with a read in flight, exactly one completion. */
    method ReapOne() returns (r: Outcome<Completion>, ghost request: ReadRequest)
      requires open && Connected() && backend.flight != []
      modifies backend.Repr, Buffers(backend.flight)
      ensures r.Err? ==> device.CallFails(r.error)
      ensures r.Ok? ==> Connected() && Leaves(old(backend.flight), [request], backend.flight)
      ensures r.Ok? ==> Finished(r.value, request, device)
    {
      hide Backend.Serves, OwnBuffers, Leaves, Finished;
      ghost var flight := backend.flight;
      var completion := new Completion[1];
      UringBackend.WaitBound(1, |flight|);
      assert this as object !in Buffers(flight);
      var got, reaped := backend.Reap(completion, 1);
      LeavesBuffers(flight, reaped, backend.flight);
      request := if reaped == [] then flight[0] else reaped[0];
      if got.Err? {
        return Err(got.error), request;
      }
      if got.value == 0 {
        return Err(ReapedNothing), request;
      }
      assert reaped == [request];
      forall q | q in backend.flight ensures q.dst in Repr {
        assert q.dst in Buffers(backend.flight);
        assert q.dst in Buffers(flight);
      }
      return Ok(completion[0]), request;
    }

    /** The entry's bytes are known. */
    method Record(i: nat, bytes: nat)
      requires Connected() && i < |pending|
      modifies `pending
      ensures pending == old(pending)[i := old(pending)[i].(bytes := bytes, done := true)]
      ensures Connected()
    {
      hide Backend.Serves;
      assert open ==> this as object !in Buffers(backend.flight);
      pending := pending[i := pending[i].(bytes := bytes, done := true)];
    }

    /** A successful completion is recorded in the entry it answers. */
    method Accept(i: nat, completion: Completion, ghost flight: seq<ReadRequest>)
      requires open && Prepared() && Positioned() && Connected() && i < |pending|
      requires Placed(pending, buffers, Geo()) && Tracks(pending, buffers, Geo(), flight)
      requires Leaves(flight, [RequestOf(pending[i], buffers, Geo())], backend.flight)
      requires Finished(completion, RequestOf(pending[i], buffers, Geo()), device) && completion.error == 0
      requires forall k :: 0 <= k < |pending| && pending[k].done ==>
                 Landed(pending[k], buffers[pending[k].slot], device, Geo())
      modifies `pending
      ensures Valid() && SamePlaces(old(pending), pending)
    {
      hide Backend.Serves, Backend.Valid, OwnBuffers, Leaves, Chained, SlotsOwned, Tracks, DistinctSlots, DistinctBuffers,
        RequestOf, Finished, Position, Advance, RequestLength, Delivered, Slice, Supported, OnCourse, Readable, GeometryOf,
        Device.Accepts;
      ghost var g, before := Geo(), pending;
      SlotFacts(pending, free);
      var remaining := windowEnd - pending[i].offset;
      var bytes := Min(completion.bytes, remaining);
      TracksFewer(before, buffers, g, flight, i, bytes, backend.flight);
      Lands(pending[i], bytes, buffers, g, device, completion);
      MarkKeeps(pending, free, nextOffset, g, i, bytes);
      SamePosition(pending, pending[i := pending[i].(bytes := bytes, done := true)], nextOffset);
      Record(i, bytes);
      assert forall k :: 0 <= k < |pending| && pending[k].done ==> k == i || pending[k] == before[k];
    }

    /** Everything the stream asks for is whole blocks at a whole number of blocks from the shard's start:
        with an aligned shard every pending entry, every read in flight and the next request are aligned. */
    lemma {:induction false} RequestsAligned()
      requires Valid() && open
      ensures next < |order| && order[next] < |shards| && block > 0
      ensures forall q :: q in backend.flight ==>
                OnGrid(q.offset, shards[order[next]].offset, block) && q.length % block == 0 < q.length
      ensures shards[order[next]].offset % block == 0 ==>
                && (forall i :: 0 <= i < |pending| ==> pending[i].offset % block == 0)
                && (forall q :: q in backend.flight ==> q.offset % block == 0)
                && (nextOffset < windowEnd ==> nextOffset % block == 0)
    {
      hide SlotsOwned, Readable, GeometryOf, Supported, Backend.Valid, OnGrid, Chained, Advance, Position;
      var start := shards[order[next]].offset;
      ChainAligned(pending, nextOffset, Geo(), start);
      forall q | q in backend.flight
        ensures OnGrid(q.offset, start, block) && q.length % block == 0 < q.length
        ensures start % block == 0 ==> q.offset % block == 0
      {
        var i := FlightSlot(pending, buffers, Geo(), backend.flight, q);
      }
    }

    /** A read in flight that the kernel will refuse shows that the open shard is unreadable. */
    lemma {:induction false} RefusedInFlight()
      requires Valid() && open
      ensures next < |order| && order[next] < |shards| && shards[order[next]].path in fs && block > 0
      ensures forall q :: q in backend.flight && !device.Accepts(q.offset, q.length) ==> !Readable(fs, shards[order[next]])
    {
      hide Chained, SlotsOwned, OnCourse, Readable, GeometryOf, Supported, Backend.Valid, Device.Accepts, RequestLength;
      forall q | q in backend.flight && !device.Accepts(q.offset, q.length) ensures !Readable(fs, shards[order[next]]) {
        var i := FlightSlot(pending, buffers, Geo(), backend.flight, q);
        RefusedEntry(fs, shards[order[next]], options, pending, nextOffset, Geo(), device, i);
      }
    }

    /** The errno of a read in flight is one that the kernel gives inside the open shard's window. */
    lemma {:induction false} ErrnoInFlight()
      requires Valid() && open
      ensures next < |order| && order[next] < |shards|
      ensures device.faulty == faults.any
      ensures forall q :: q in backend.flight && q.offset in device.errors ==>
                ReadErrno(fs, shards[order[next]], faults.ErrorsAt(next), device.errors[q.offset])
      ensures forall error :: device.CallFails(error) ==> faults.any && CallErrno(faults, error)
    {
      hide SlotsOwned, Readable, GeometryOf, Supported, Backend.Valid, OnGrid, Chained, Advance, Position;
      RequestsAligned();
      WindowEnds();
      forall error | device.CallFails(error) ensures faults.any && CallErrno(faults, error) {
        var e :| e in device.calls && error.errno == e;
        assert e in faults.calls;
      }
      forall q | q in backend.flight && q.offset in device.errors
        ensures ReadErrno(fs, shards[order[next]], faults.ErrorsAt(next), device.errors[q.offset])
      {
        var i := FlightSlot(pending, buffers, Geo(), backend.flight, q);
      }
    }

    lemma {:induction false} WindowEnds()
      requires Valid() && open
      ensures next < |order| && order[next] < |shards| && windowEnd == shards[order[next]].End()
      ensures shards[order[next]].path in fs && fs[shards[order[next]].path].block == block > 0
      ensures device == DeviceAt(fs[shards[order[next]].path], cuts, faults, next)
      ensures segment == SegmentSize(options.segmentBytes, options.batchBytes, block)
    {
      hide SegmentSize, OnCourse, Readable, Supported, Chained, SlotsOwned, InOrder, Connected;
    }

    /** One round of `await_front`: a completion is reaped and recorded in its entry, whichever that
        is. Something is always reaped, and it always belongs to an entry. */
    method AwaitOne() returns (r: Outcome<()>)
      requires Valid() && open && pending != [] && !pending[0].done
      modifies `pending, backend.Repr, buffers
      ensures r.Err? ==> Explained(r.error, old(next))
      ensures r.Ok? ==> Valid() && SamePlaces(old(pending), pending)
      ensures r.Ok? ==> |backend.flight| < old(|backend.flight|)
    {
      hide Backend.Serves, OwnBuffers, Leaves, Chained, SlotsOwned, Tracks, DistinctSlots, DistinctBuffers, RequestOf,
        Finished, Buffers, Position, Advance, RequestLength, Delivered, Slice, Supported, SamePlaces, OnCourse, Readable,
        GeometryOf, Device.Accepts;
      ghost var g, flight := Geo(), backend.flight;
      SlotFacts(pending, free);
      RefusedInFlight();
      ErrnoInFlight();
      InFlight(pending, buffers, g, flight, 0);
      FlightWithin(pending, buffers, g, flight);
      forall k | 0 <= k < |pending| && pending[k].done ensures buffers[pending[k].slot] !in Buffers(flight) {
        DoneApart(pending, buffers, g, flight, k);
      }
      var got, request := ReapOne();
      if got.Err? {
        return Err(got.error);
      }
      var completion := got.value;
      FinishedToken(completion, request, device);
      ghost var x := Answered(pending, buffers, g, flight, request, backend.flight);
      var i := FindPending(completion.token);
      if i < 0 {
        return Err(UnknownRequest);
      }
      SameSlot(pending, i, x);
      if completion.error != 0 {
        return Err(ReadFailed(completion.error));
      }
      Accept(i, completion, flight);
      return Ok(());
    }

    /** `await_front`: reaps until the oldest entry is done. */
    method AwaitFront() returns (r: Outcome<()>)
      requires Valid() && open && pending != []
      modifies `pending, backend.Repr, buffers
      ensures r.Err? ==> Explained(r.error, old(next))
      ensures r.Ok? ==> Valid() && SamePlaces(old(pending), pending) && pending[0].done
    {
      hide Prepared, Positioned, InOrder, SamePlaces, Backend.Valid;
      ghost var before := pending;
      SamePlacesTrans(before, before, before);
      while !pending[0].done
        invariant Valid() && open && pending != []
        invariant SamePlaces(before, pending)
        invariant backend == old(backend) && backend.Repr == old(backend.Repr) && buffers == old(buffers)
        decreases |backend.flight|
      {
        ghost var now := pending;
        var got := AwaitOne();
        if got.Err? {
          return got;
        }
        SamePlacesTrans(before, now, pending);
      }
      return Ok(());
    }

    // ----- delivering -----

    /** `bytes` bytes of `data` are copied: to `out` from `filled` on, and what does not fit to the carry. */
    method CopyEntry(data: array<byte>, bytes: nat, out: array<byte>, filled: nat) returns (now: nat, left: nat)
      requires data != out && bytes <= data.Length && filled < out.Length && carrySize == 0
      modifies `carry, `carrySize, out
      ensures filled <= now <= out.Length && carrySize <= |carry|
      ensures out[..filled] == old(out[..filled]) && out[now..] == old(out[now..])
      ensures out[filled..now] + carry[..carrySize] == data[..bytes]
      ensures left == carrySize && now - filled + left == bytes
      ensures left > 0 ==> now == out.Length && now > filled
    {
      var take := Min(out.Length - filled, bytes);
      forall k | 0 <= k < take { out[filled + k] := data[k]; }
      now := filled + take;
      left := bytes - take;
      assert out[filled..now] == data[..take];
      if left > 0 {
        carry := data[take..bytes] + if |carry| < left then [] else carry[left..];
        carrySize := left;
        assert carry[..left] == data[take..bytes];
      }
      assert data[..bytes] == data[..take] + data[take..bytes];
    }

    /** The oldest entry's bytes are copied out; its slot still holds them. */
    method CopyFront(out: array<byte>, filled: nat) returns (now: nat, left: nat)
      requires Valid() && open && pending != [] && pending[0].done && carrySize == 0
      requires filled < out.Length && out !in Repr
      modifies `carry, `carrySize, out
      ensures Valid()
      ensures filled <= now <= out.Length && carrySize <= |carry|
      ensures out[..filled] == old(out[..filled]) && out[now..] == old(out[now..])
      ensures out[filled..now] + carry[..carrySize] ==
              Slice(device.bytes, pending[0].offset, pending[0].offset + pending[0].bytes)
      ensures left == carrySize && now - filled + left == pending[0].bytes
      ensures left > 0 ==> now == out.Length
    {
      hide Chained, SlotsOwned, Tracks, DistinctSlots, DistinctBuffers, RequestOf, Backend.Valid, Slice;
      OutApart(out);
      now, left := CopyEntry(buffers[pending[0].slot], pending[0].bytes, out, filled);
    }

    /** Nothing in flight writes `out`, and nothing in flight is the stream itself. */
    lemma {:induction false} OutApart(out: array<byte>)
      requires Connected() && open && out !in Repr
      ensures out !in Buffers(backend.flight) && this as object !in Buffers(backend.flight)
    {
      hide Backend.Valid;
    }

    /** A delivered entry's shard is readable. */
    lemma {:induction false} FrontReadable()
      requires Valid() && open && pending != [] && pending[0].done
      ensures Readable(fs, shards[order[next]])
    {
      hide Readable, OnCourse, Chained, SlotsOwned, Tracks, Backend.Valid;
      AcceptedIsReadable(pending[0].offset, fs, shards[order[next]], Geo(), device);
    }

    /** The oldest entry leaves the pipeline. */
    method PopFront()
      requires Valid() && open && pending != [] && pending[0].done
      modifies `pending, `free
      ensures Valid() && Idle()
      ensures pending == old(pending)[1..] && true in free
      ensures Position(pending, nextOffset) == Advance(old(pending)[0].offset, Geo())
    {
      hide Chained, SlotsOwned, Tracks, DistinctSlots, DistinctBuffers, RequestOf, Backend.Valid, Position, Advance,
        OnCourse, Readable, GeometryOf, Supported;
      FrontPosition(pending, nextOffset);
      assert this as object !in Buffers(backend.flight);
      FrontReadable();
      CourseAdvance(pending[0].offset, fs, shards[order[next]], Geo());
      PopKeeps(pending, free, nextOffset, Geo());
      PopTracks(pending, buffers, Geo(), backend.flight);
      Release(pending[0].slot);
      pending := pending[1..];
      assert forall k :: 0 <= k < |pending| ==> pending[k] == old(pending)[k + 1];
    }

    /** The oldest entry is delivered: everything it holds leaves the stream or is carried. */
    method Deliver(out: array<byte>, filled: nat) returns (now: nat, left: nat, endOfFile: bool)
      requires Valid() && open && pending != [] && pending[0].done && carrySize == 0
      requires filled < out.Length && out !in Repr
      modifies `pending, `free, `carry, `carrySize, out
      ensures Valid() && Idle()
      ensures filled <= now <= out.Length
      ensures out[..filled] == old(out[..filled]) && out[now..] == old(out[now..])
      ensures out[filled..now] + Remaining() == old(Remaining())
      ensures carrySize == left && (left > 0 ==> now == out.Length)
      ensures endOfFile ==> left == 0 && true in free
      ensures next < |order| && order[next] < |shards| && Readable(fs, shards[order[next]]) && Geo().Sound()
      ensures endOfFile ==> Emitted(device.bytes, device.cuts, Position(pending, nextOffset), Geo()) == []
      ensures |pending| == old(|pending|) - 1
    {
      hide Prepared, Positioned, Connected, InOrder, Slice, Ahead, Remaining, Advance, RequestLength, Available,
        Delivered, Geometry.Sound, Readable, Emitted, Streamed, Device.Accepts;
      ghost var e, g, image := pending[0], Geo(), device;
      FrontReadable();
      ghost var later, readable := RemainingFrom();
      assert carry[..carrySize] == [];
      now, left := CopyFront(out, filled);
      endOfFile := pending[0].bytes == 0;
      PopFront();
      ghost var same, still := RemainingFrom();
      assert same == later;
      FrontDelivered(image, e, g, out[filled..now], carry[..carrySize], later);
    }

    /** What remains, with the carry and the open window split off. */
    lemma {:induction false} RemainingFrom() returns (later: seq<byte>, readable: bool)
      requires Valid() && open
      ensures later == Later() && carrySize <= |carry| && next < |order| && order[next] < |shards|
      ensures readable == Readable(fs, shards[order[next]])
      ensures Geo().Sound()
      ensures Remaining() == carry[..carrySize] +
                if readable then Emitted(device.bytes, device.cuts, Position(pending, nextOffset), Geo()) + later else []
      ensures pending != [] ==> pending[0].offset < windowEnd
      ensures pending != [] && pending[0].done ==>
                pending[0].bytes == Delivered(pending[0].offset, Geo(), |device.bytes|, device.cuts)
    {
      hide Readable, OnCourse, Emitted, Streamed;
      later, readable := Later(), Readable(fs, shards[order[next]]);
    }

    /** The copy and the shift of `flush_carry`. */
    method ShiftCarry(out: array<byte>) returns (take: nat)
      requires carrySize <= |carry|
      modifies `carry, `carrySize, out
      ensures take == Min(old(carrySize), out.Length) && carrySize == old(carrySize) - take <= |carry|
      ensures out[..take] + carry[..carrySize] == old(carry[..carrySize])
      ensures out[take..] == old(out[take..])
    {
      if carrySize == 0 {
        return 0;
      }
      take := Min(carrySize, out.Length);
      ghost var before := carry[..carrySize];
      forall k | 0 <= k < take { out[k] := carry[k]; }
      if carrySize > take {
        carry := carry[take..carrySize] + carry[carrySize - take..];
        assert carry[..carrySize - take] == before[take..];
      }
      carrySize := carrySize - take;
      assert out[..take] == before[..take];
      assert before == before[..take] + before[take..];
    }

    /** `flush_carry`: the carried bytes come first, and the rest of them moves to the front. */
    method FlushCarry(out: array<byte>) returns (take: nat)
      requires Valid() && Idle() && out !in Repr
      modifies `carry, `carrySize, out
      ensures Valid() && Idle()
      ensures take == Min(old(carrySize), out.Length) && carrySize == old(carrySize) - take
      ensures out[take..] == old(out[take..])
      ensures out[..take] + Remaining() == old(Remaining())
    {
      hide Chained, SlotsOwned, Tracks, DistinctSlots, DistinctBuffers, RequestOf, Backend.Valid, Slice, Position,
        OnCourse, Readable, GeometryOf, Supported, Emitted, Streamed;
      if open {
        OutApart(out);
      }
      ghost var carried, ahead := carry[..carrySize], Ahead();
      take := ShiftCarry(out);
      assert Ahead() == ahead;
      assert out[..take] + (carry[..carrySize] + ahead) == carried + ahead;
    }

    // ----- shards -----

    /** `close_shard`: entries still pending are dropped, and their slots stay taken. */
    method CloseShard()
      requires Valid() && open && carrySize == 0 && true in free
      requires Readable(fs, shards[order[next]])
      requires Emitted(device.bytes, device.cuts, Position(pending, nextOffset), Geo()) == []
      modifies `backend, `pending, `device, `open, `next
      ensures Valid() && Idle() && !open
      ensures next == old(next) + 1
      ensures Abandoned(pending, free) == old(Abandoned(pending, free)) + old(|pending|)
      ensures Remaining() == old(Remaining())
    {
      hide Chained, Tracks, DistinctBuffers, RequestOf, Backend.Valid, Slice, Position;
      assert carry[..carrySize] == [];
      backend := null;
      pending := [];
      device := CLOSED;
      open := false;
      next := next + 1;
      assert [] + Ahead() == [] + ([] + Ahead());
    }

    /** `prepare_buffers`: buffers of the right geometry are kept, with the slots as they are; otherwise
        a fresh set is allocated, with every slot free. */
    method PrepareBuffers(blockSize: nat, segmentSize: nat) returns (r: Outcome<()>)
      requires !open && Prepared() && this in Repr && pending == []
      requires Geometry(0, segmentSize, blockSize).Sound() && segmentSize < TWO32
      modifies `buffers, `free, `block, `segment, `Repr
      ensures Prepared() && this in Repr && fresh(Repr - old(Repr))
      ensures r.Err? ==> r.error == AllocationFailed && faults.any && faults.memory
      ensures r.Ok? ==> (buffers == old(buffers) && free == old(free)) || forall k :: 0 <= k < |free| ==> free[k]
      ensures r.Ok? ==> buffers != [] && block == blockSize && segment == segmentSize
      ensures r.Ok? && old(buffers) != [] && old(block) == blockSize && old(segment) == segmentSize ==>
                buffers == old(buffers) && free == old(free)
    {
      if buffers != [] && block == blockSize && segment == segmentSize && |buffers| == readDepth {
        return Ok(());
      }
      var made: seq<array<byte>> := [];
      var i := 0;
      while i < readDepth
        invariant 0 <= i == |made| <= readDepth
        invariant DistinctBuffers(made)
        invariant forall k :: 0 <= k < i ==> fresh(made[k]) && made[k].Length == segmentSize
        modifies {}
      {
        var fails: bool := *;
        if faults.any && faults.memory && fails {
          return Err(AllocationFailed);
        }
        var buffer := new byte[segmentSize];
        made := made + [buffer];
        i := i + 1;
      }
      buffers := made;
      free := seq(readDepth, _ => true);
      block, segment := blockSize, segmentSize;
      Repr := Repr + (set b | b in made :: b as object);
      assert free[0];
      assert forall k :: 0 <= k < |made| ==> made[k] in made;
      return Ok(());
    }

    /** `open_shard`: the next shard's file is opened, the buffers are fitted to it, and the cursor is
        set to its window. A file that cannot be opened is an error, never a skipped shard. */
    method OpenShard() returns (r: Outcome<()>)
      requires Valid() && !open && next < |order| && carrySize == 0
      modifies this
      ensures r.Ok? ==> Valid() && Idle() && open && fresh(Repr - old(Repr))
      ensures r.Ok? ==> Remaining() == old(Remaining())
      ensures r.Ok? ==> next == old(next) && pending == [] && carrySize == 0 && true in free
      ensures r.Err? ==> r.error in {OpenFailed(shards[order[old(next)]].path), AllocationFailed, BackendUnavailable}
      ensures r.Err? ==> if r.error.OpenFailed? then shards[order[old(next)]].path !in fs
                         else faults.any && if r.error.AllocationFailed? then faults.memory else faults.backends
      ensures r.Err? ==> Failure(r.error)
      ensures r.Err? && !faults.any ==> old(Remaining()) == [] && !AllReadable()
      ensures r.Ok? ==> shards[order[next]].path in fs
      ensures r.Ok? ==> backend.flight == [] && nextOffset == shards[order[next]].offset
      ensures r.Ok? && old(buffers) == [] ==> forall k :: 0 <= k < |free| ==> free[k]
    {
      hide SegmentSize, SlotsOwned, DistinctBuffers, Chained, Geometry.Sound, Backend.Valid, InOrder, Slice, Position,
        Readable, FirstCause, OnCourse, Served;
      ToBlame();
      var shard := shards[order[next]];
      if shard.path !in fs {
        MissingIsUnreadable(fs, shard);
        return Err(OpenFailed(shard.path));
      }
      var file := fs[shard.path];
      var size := SegmentSize(options.segmentBytes, options.batchBytes, file.block);
      GeometryIsSound(fs, shard, options);
      var prepared := PrepareBuffers(file.block, size);
      if prepared.Err? {
        return prepared;
      }
      SlotFacts(pending, free);
      r := Connect(shard, file);
      if r.Ok? {
        AheadFromStart();
      }
    }

    /** The backend is opened on the file, and the shard's window with it. */
    method Connect(shard: Shard, file: FileImage) returns (r: Outcome<()>)
      requires Prepared() && Positioned() && this in Repr && buffers != []
      requires !open && next < |order| && carrySize == 0
      requires shard == shards[order[next]] && shard.path in fs && file == fs[shard.path]
      requires Geometry(shard.End(), segment, block) == GeometryOf(file, shard, options) && readDepth > 0
      modifies `device, `backend, `windowEnd, `nextOffset, `open, `Repr
      ensures r.Err? ==> r.error == BackendUnavailable && faults.any && faults.backends
      ensures r.Ok? ==> Valid() && Idle() && open && fresh(Repr - old(Repr)) && nextOffset == shard.offset
      ensures r.Ok? ==> backend.flight == []
    {
      hide SlotsOwned, DistinctBuffers, Chained, Geometry.Sound, Backend.Valid, InOrder, Positioned, Prepared, GeometryOf;
      var ringAvailable: bool, entries: pos, poolAvailable: bool := *, *, *;
      poolAvailable := poolAvailable || !(faults.any && faults.backends);
      var b := OpenBackend(DeviceAt(file, cuts, faults, next), readDepth, ringAvailable, entries, poolAvailable);
      if b.Err? {
        return Err(b.error);
      }
      Attach(shard, file, b.value);
      return Ok(());
    }

    /** A freshly opened shard leaves its whole window, and the later ones, ahead. */
    lemma AheadFromStart()
      requires Valid() && open && pending == [] && nextOffset == shards[order[next]].offset
      ensures Ahead() == Streamed(fs, shards, order, options, cuts, next)
    {
      hide Readable, OnCourse, Emitted;
    }

    /** The last steps of `open_shard`: file, backend and cursor are set. */
    method Attach(shard: Shard, file: FileImage, b: Backend)
      requires Prepared() && Positioned() && this in Repr && buffers != []
      requires !open && next < |order| && carrySize == 0
      requires shard == shards[order[next]] && shard.path in fs && file == fs[shard.path]
      requires Geometry(shard.End(), segment, block) == GeometryOf(file, shard, options)
      requires b.Valid() && b.flight == [] && b.depth == readDepth
      requires b.device == DeviceAt(file, cuts, faults, next)
      requires b in b.Repr && this !in b.Repr && forall i :: 0 <= i < |buffers| ==> buffers[i] !in b.Repr
      modifies `device, `backend, `windowEnd, `nextOffset, `open, `Repr
      ensures Valid() && Idle() && open && Repr == old(Repr) + b.Repr
      ensures nextOffset == shard.offset && backend == b
    {
      hide SlotsOwned, DistinctBuffers, Backend.Valid, RequestOf, OnCourse, Readable, Supported;
      assert Buffers(b.flight) == {};
      CourseStart(fs, shard, GeometryOf(file, shard, options));
      device, backend := b.device, b;
      windowEnd, nextOffset, open := shard.End(), shard.offset, true;
      Repr := Repr + b.Repr;
    }

    // ----- reading -----

    /** The waiting half of an iteration of `read`: the pipeline is topped up and its oldest entry
        awaited; `false` when the window is exhausted. */
    method Prime() returns (r: Outcome<bool>)
      requires Valid() && Idle() && open
      modifies `pending, `free, `nextOffset, backend.Repr, buffers
      ensures r.Err? ==> Explained(r.error, old(next))
      ensures r.Ok? ==> Valid() && Remaining() == old(Remaining()) && Work() <= old(Work())
      ensures r.Ok? ==> if r.value then pending != [] && pending[0].done else pending == [] && nextOffset >= windowEnd
    {
      hide Prepared, Positioned, InOrder, Slice, Ahead, Remaining, Position, SamePlaces, Backend.Valid, Tracks, Emitted,
        Streamed, Readable;
      ErrnoInFlight();
      ghost var later, readable := RemainingFrom();
      var submitted := FillPipeline();
      if submitted.Err? {
        return Err(submitted.error);
      }
      ghost var filledLater, filledReadable := RemainingFrom();
      if pending == [] {
        return Ok(false);
      }
      ghost var waiting := pending;
      var awaited := AwaitFront();
      if awaited.Err? {
        return Err(awaited.error);
      }
      SamePosition(waiting, pending, nextOffset);
      ghost var awaitedLater, awaitedReadable := RemainingFrom();
      return Ok(true);
    }

    /** The delivering half of an iteration of `read`; an empty entry closes the shard. */
    method DeliverFront(out: array<byte>, filled: nat) returns (now: nat, full: bool)
      requires Valid() && open && pending != [] && pending[0].done && carrySize == 0
      requires filled < out.Length && out !in Repr
      modifies `pending, `free, `carry, `carrySize, `backend, `device, `open, `next, out
      ensures Valid() && Idle()
      ensures filled <= now <= out.Length && (now < out.Length ==> carrySize == 0)
      ensures out[..now] + Remaining() == old(out[..filled] + Remaining())
      ensures out[now..] == old(out[now..])
      ensures full ==> now == out.Length
      ensures old(next) < next <= |order| || (next == old(next) && open && Work() < old(Work()))
    {
      hide Prepared, Positioned, InOrder, Slice, Ahead, Remaining, Position, Backend.Valid, Tracks, Emitted, Streamed,
        Readable, Geometry.Sound;
      ghost var earlier, after := out[..filled], out[filled..];
      var left, endOfFile;
      now, left, endOfFile := Deliver(out, filled);
      full := left > 0;
      assert out[..now] == earlier + out[filled..now];
      assert out[now..] == after[now - filled..];
      if !full && endOfFile {
        CloseShard();
      }
    }

    /** One iteration of the loop of `read` over an open shard. */
    method ReadStep(out: array<byte>, filled: nat) returns (r: Outcome<nat>, full: bool)
      requires Valid() && Idle() && open && carrySize == 0
      requires filled < out.Length && out !in Repr
      modifies `pending, `free, `nextOffset, `carry, `carrySize, `backend, `device, `open, `next,
               backend.Repr, buffers, out
      ensures r.Err? ==> Explained(r.error, old(next)) && Failure(r.error)
      ensures r.Err? && !faults.any ==> old(Remaining()) == [] && !AllReadable()
      ensures r.Ok? ==> Valid() && Idle()
      ensures r.Ok? ==> filled <= r.value <= out.Length && (r.value < out.Length ==> carrySize == 0)
      ensures r.Ok? ==> out[..r.value] + Remaining() == old(out[..filled] + Remaining())
      ensures r.Ok? ==> out[r.value..] == old(out[r.value..])
      ensures r.Ok? && full ==> r.value == out.Length
      ensures r.Ok? ==> old(next) < next <= |order| || (next == old(next) && open && Work() < old(Work()))
    {
      hide Prepared, Positioned, InOrder, Slice, Ahead, Remaining, Position, Backend.Valid, Tracks, Emitted, Streamed,
        Readable, AllReadable, Chained, Geometry.Sound;
      full := false;
      OutElsewhere(out);
      ghost var earlier, after := out[..filled], out[filled..];
      ghost var later, readable := RemainingFrom();
      ToBlame();
      var primed := Prime();
      if primed.Err? {
        return Err(primed.error), full;
      }
      assert out[..filled] == earlier && out[filled..] == after;
      if !primed.value {
        NothingAhead();
        CloseShard();
        return Ok(filled), full;
      }
      var now;
      now, full := DeliverFront(out, filled);
      return Ok(now), full;
    }

    /** One iteration of the loop of `read`: the next shard is opened first when none is open;
        `ended` when there is none. */
    method ReadMore(out: array<byte>, filled: nat) returns (r: Outcome<nat>, full: bool, ended: bool)
      requires Valid() && Idle() && carrySize == 0
      requires filled < out.Length && out !in Repr
      modifies Repr, out
      ensures r.Ok? ==> Valid() && Idle() && fresh(Repr - old(Repr))
      ensures r.Ok? ==> filled <= r.value <= out.Length && (r.value < out.Length ==> carrySize == 0)
      ensures r.Ok? ==> out[..r.value] + Remaining() == old(out[..filled] + Remaining())
      ensures r.Ok? ==> out[r.value..] == old(out[r.value..])
      ensures r.Ok? && full ==> r.value == out.Length
      ensures r.Ok? && ended ==> !open && next >= |order|
      ensures r.Ok? && !ended ==>
                || old(next) < next <= |order|
                || (next == old(next) && open && (old(open) ==> Work() < old(Work())))
      ensures r.Err? ==> Failure(r.error)
      ensures r.Err? && !faults.any ==> old(Remaining()) == [] && !AllReadable()
    {
      hide InOrder, Slice, Ahead, Remaining, Position, Backend.Valid, Tracks, Work, Supported,
        DistinctBuffers, SlotsOwned, Chained;
      full, ended := false, false;
      if !open {
        if next >= |order| {
          return Ok(filled), full, true;
        }
        var got := OpenShard();
        if got.Err? {
          return Err(got.error), full, ended;
        }
      }
      r, full := ReadStep(out, filled);
    }

    /** `read`: fills `out` with the next bytes of the stream, or with fewer only when nothing remains,
        whatever order the completions came in. It fails only when a shard's file is missing, or a
        buffer, the backend or a read fails: the queue is never full, a reap never comes back empty, and
        no completion is unknown. */
    method Read(out: array<byte>) returns (r: Outcome<nat>)
      requires Valid() && Idle() && out !in Repr
      modifies Repr, out
      ensures r.Ok? ==> Valid() && Idle() && fresh(Repr - old(Repr))
      ensures r.Ok? ==> r.value == Min(out.Length, |old(Remaining())|)
      ensures r.Ok? ==> out[..r.value] + Remaining() == old(Remaining())
      ensures r.Ok? ==> out[r.value..] == old(out[r.value..])
      ensures r.Ok? && r.value < out.Length ==> AllReadable()
      ensures r.Err? ==> Failure(r.error)
      ensures !faults.any ==> (r.Ok? <==> out.Length <= |old(Remaining())| || AllReadable())
    {
      hide Valid, Idle, Remaining, Work;
      Basics();
      ghost var remaining, after := Remaining(), out[..];
      var filled: nat := FlushCarry(out);
      var full, ended := false, false;
      while filled < out.Length && !full && !ended
        invariant Valid() && Idle() && fresh(Repr - old(Repr)) && out !in Repr
        invariant filled <= out.Length && (filled < out.Length ==> carrySize == 0 && !full)
        invariant out[..filled] + Remaining() == remaining
        invariant out[filled..] == after[filled..]
        invariant ended ==> !open && next >= |order|
        decreases !ended, |order| - next, !open, Work()
      {
        var more;
        more, full, ended := ReadMore(out, filled);
        if more.Err? {
          return Err(more.error);
        }
        filled := more.value;
      }
      if filled < out.Length {
        Exhausted();
      }
      return Ok(filled);
    }

    /** With no shard left and no carry, nothing remains. */
    lemma Exhausted()
      requires Valid() && !open && next >= |order| && carrySize == 0
      ensures Remaining() == []
      ensures AllReadable()
    {
    }

    /** Slots abandoned by early closes never use up the buffers: `read_depth - 1` at most. */
    lemma FewAbandoned()
      requires Valid() && buffers != []
      ensures 0 <= Abandoned(pending, free) <= readDepth - 1
    {
      AbandonedBound(pending, free);
    }

    lemma Basics()
      requires Valid()
      ensures this in Repr
      ensures forall i :: 0 <= i < |order| ==> order[i] < |shards|
    {
    }

    lemma OutElsewhere(out: array<byte>)
      requires Valid() && open && out !in Repr
      ensures out !in buffers && out !in backend.Repr
    {
    }

    /** The shard the stream is at is the first unreadable one, if it is unreadable. */
    lemma {:induction false} ToBlame()
      requires Valid() && next < |order|
      ensures order[next] < |shards| && forall i :: 0 <= i < |order| ==> order[i] < |shards|
      ensures !Readable(fs, shards[order[next]]) ==> !AllReadable() && Blames(Cause(fs, shards[order[next]]))
    {
      hide Readable, FirstUnreadable, InOrder, Connected, Supported;
      if !Readable(fs, shards[order[next]]) {
        FirstIs(fs, shards, order, next);
      }
    }

    lemma NothingAhead()
      requires Valid() && open && pending == [] && nextOffset >= windowEnd
      ensures Geo().Sound() && Emitted(device.bytes, device.cuts, Position(pending, nextOffset), Geo()) == []
      ensures Readable(fs, shards[order[next]]) && true in free
    {
      hide Readable, OnCourse;
      ExhaustedIsReadable(nextOffset, fs, shards[order[next]], Geo());
    }
  }

  lemma {:induction false} FrontPosition(pending: seq<Pending>, next: nat)
    requires pending != []
    ensures Position(pending, next) == pending[0].offset
  {
  }

  lemma {:induction false} SamePosition(before: seq<Pending>, now: seq<Pending>, next: nat)
    requires SamePlaces(before, now)
    ensures Position(now, next) == Position(before, next) && |now| == |before|
  {
  }

  /** What a tile delivered, what is carried of it and what follows make up the stream from the tile on. */
  lemma {:induction false} FrontDelivered(
    device: Device, e: Pending, g: Geometry, out: seq<byte>, carried: seq<byte>, later: seq<byte>)
    requires g.Sound() && e.offset < g.end && e.bytes == Delivered(e.offset, g, |device.bytes|, device.cuts)
    requires out + carried == Slice(device.bytes, e.offset, e.offset + e.bytes)
    ensures out + (carried + (Emitted(device.bytes, device.cuts, Advance(e.offset, g), g) + later)) ==
            Emitted(device.bytes, device.cuts, e.offset, g) + later
    ensures e.bytes == 0 ==> Emitted(device.bytes, device.cuts, Advance(e.offset, g), g) == []
    ensures e.bytes > 0 || |carried| == 0
  {
    hide Emitted, Slice;
    EmitsItsTile(device.bytes, device.cuts, e.offset, g);
  }

  /** An entry whose read is refused for its alignment belongs to an unreadable shard. */
  lemma {:induction false} RefusedEntry(
    fs: FileSystem, shard: Shard, options: BatchOptions, pending: seq<Pending>, next: nat, g: Geometry, device: Device, i: nat)
    requires Supported(fs, options) && shard.path in fs && fs[shard.path].block > 0
    requires g == GeometryOf(fs[shard.path], shard, options) && Chained(pending, next, g)
    requires OnCourse(Position(pending, next), fs, shard, g)
    requires device.bytes == fs[shard.path].bytes && device.sector == fs[shard.path].sector
    requires i < |pending| && pending[i].offset < g.end
    requires !device.Accepts(pending[i].offset, RequestLength(pending[i].offset, g))
    ensures !Readable(fs, shard)
  {
    hide OnGrid, RequestLength, Readable, Device.Accepts, Supported, SegmentSize;
    GeometryIsSound(fs, shard, options);
    ChainOnGrid(pending, next, g, shard.offset, i);
    RefusedIsUnreadable(pending[i].offset, fs, shard, g, device);
  }

  lemma {:induction false} SamePlacesTrans(a: seq<Pending>, b: seq<Pending>, c: seq<Pending>)
    requires (SamePlaces(a, b) || a == b) && (SamePlaces(b, c) || b == c)
    ensures SamePlaces(a, c)
  {
  }

  /** Entries keep their places while completions arrive. */
  ghost predicate SamePlaces(before: seq<Pending>, now: seq<Pending>) {
    && |now| == |before|
    && forall i :: 0 <= i < |now| ==>
         now[i].offset == before[i].offset && now[i].slot == before[i].slot && (before[i].done ==> now[i] == before[i])
  }
}
