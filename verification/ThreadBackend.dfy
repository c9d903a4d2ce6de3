/** src/thread_backend.cpp: the thread-pool backend; one future per request, in submission order. */
module ThreadBackend {
  import opened Common
  import opened BackendContract

  /** A future: the request its worker reads, and the completion once `ready`. */
  datatype Task = Task(request: ReadRequest, ready: bool, completion: Completion)

  /** `read_once`: one `pread`, whose errno becomes the completion's error. */
  method ReadOnce(device: Device, request: ReadRequest) returns (c: Completion)
    requires request.length <= request.dst.Length
    modifies request.dst
    ensures Finished(c, request, device)
  {
    hide Device.Accepts;
    var fails: bool := *;
    if device.faulty && fails && request.offset in device.errors {
      return Completion(request.token, 0, device.errors[request.offset]);
    }
    if !device.Accepts(request.offset, request.length) {
      return Completion(request.token, 0, EINVAL);
    }
    var got := Given(|device.bytes|, device.cuts, request.offset, request.length);
    forall k | 0 <= k < got { request.dst[k] := device.bytes[request.offset + k]; }
    return Completion(request.token, got, 0);
  }

  lemma {:induction false} FrontOut(flight: seq<ReadRequest>)
    requires flight != []
    ensures Without(flight, 0) == flight[1..]
  {
  }

  class ThreadPoolBackend {
    const device: Device
    const depth: nat
    var pending: seq<Task>

    /** The requests of `pending`. */
    ghost var flight: seq<ReadRequest>

    constructor (device: Device, depth: nat)
      ensures this.device == device && this.depth == depth && flight == [] && Valid()
    {
      this.device, this.depth := device, depth;
      pending, flight := [], [];
    }

    ghost predicate Valid()
      reads this, Buffers(flight)
    {
      && |flight| == |pending| <= depth
      && OwnBuffers(flight)
      && Fit(flight)
      && (forall i :: 0 <= i < |pending| ==> pending[i].request == flight[i])
      && (forall i :: 0 <= i < |pending| && pending[i].ready ==> Finished(pending[i].completion, flight[i], device))
    }

    /** All of `requests` are queued, or none. */
    method Submit(requests: seq<ReadRequest>) returns (r: Outcome<()>)
      requires Valid() && Fit(requests) && OwnBuffers(flight + requests)
      modifies `pending, `flight
      ensures Valid()
      ensures r == if old(|flight|) + |requests| > depth then Err(QueueFull) else Ok(())
      ensures r.Err? ==> unchanged(this)
      ensures r.Ok? ==> flight == old(flight) + requests
    {
      if |pending| + |requests| > depth {
        return Err(QueueFull);
      }
      var i := 0;
      while i < |requests|
        invariant 0 <= i <= |requests|
        invariant flight == old(flight) + requests[..i] && |pending| == |flight|
        invariant forall k :: 0 <= k < |pending| ==> pending[k].request == flight[k]
        invariant forall k :: 0 <= k < |pending| ==>
                    if k < |old(pending)| then pending[k] == old(pending)[k] else !pending[k].ready
      {
        pending := pending + [Task(requests[i], false, Completion(requests[i].token, 0, 0))];
        flight := flight + [requests[i]];
        i := i + 1;
      }
      assert flight == old(flight) + requests;
      return Ok(());
    }

    /** A worker finishes task `i`, if it has not yet. */
    method Run(i: nat)
      requires Valid() && i < |pending|
      modifies `pending, Buffers(flight)
      ensures Valid() && |pending| == old(|pending|)
      ensures pending[i].ready
      ensures forall k :: 0 <= k < |pending| && old(pending)[k].ready ==> pending[k].ready
    {
      if pending[i].ready {
        return;
      }
      var request := pending[i].request;
      assert request == flight[i];
      var completion := ReadOnce(device, request);
      pending := pending[i := Task(request, true, completion)];
    }

    /** Time passes: workers finish any number of tasks, in any order. */
    method Progress()
      requires Valid()
      modifies `pending, Buffers(flight)
      ensures Valid() && |pending| == old(|pending|)
      ensures forall k :: 0 <= k < |pending| && old(pending)[k].ready ==> pending[k].ready
    {
      var tasks :| tasks >= 0;
      while tasks > 0 && pending != []
        invariant Valid() && |pending| == old(|pending|)
        invariant forall k :: 0 <= k < |pending| && old(pending)[k].ready ==> pending[k].ready
      {
        var k :| 0 <= k < |pending|;
        Run(k);
        tasks := tasks - 1;
      }
    }

    /** `pending_[i].wait()` while any number of other workers finish too. */
    method WaitFor(i: nat)
      requires Valid() && i < |pending|
      modifies `pending, Buffers(flight)
      ensures Valid() && |pending| == old(|pending|)
      ensures pending[i].ready
      ensures forall k :: 0 <= k < |pending| && old(pending)[k].ready ==> pending[k].ready
    {
      Progress();
      Run(i);
    }

    /** The oldest future is taken: its completion moves to `out[count]`. */
    method Take(out: array<Completion>, count: nat) returns (ghost taken: ReadRequest)
      requires Valid() && pending != [] && pending[0].ready && count < out.Length
      modifies `pending, `flight, out
      ensures Valid()
      ensures pending == old(pending)[1..] && old(flight) == [taken] + flight
      ensures forall i :: 0 <= i < out.Length && i != count ==> out[i] == old(out[i])
      ensures Finished(out[count], taken, device)
      ensures Leaves(old(flight), [taken], flight)
    {
      hide OwnBuffers, Leaves, Finished, Without;
      taken := flight[0];
      FrontOut(flight);
      LeavesOne(flight, 0);
      TakeOut(flight, 0);
      out[count] := pending[0].completion;
      pending, flight := pending[1..], flight[1..];
    }

    /** Blocks until the oldest `least` requests are done. */
    method WaitOldest(least: nat)
      requires Valid() && least <= |pending|
      modifies `pending, Buffers(flight)
      ensures Valid() && |pending| == old(|pending|)
      ensures forall k :: 0 <= k < least ==> pending[k].ready
    {
      var i := 0;
      while i < least
        invariant 0 <= i <= least <= |pending|
        invariant Valid() && |pending| == old(|pending|)
        invariant forall k :: 0 <= k < i ==> pending[k].ready
      {
        WaitFor(i);
        i := i + 1;
      }
    }

    lemma {:induction false} PendingSize()
      requires Valid()
      ensures |pending| == |flight|
    {
    }

    /** The non-blocking part of `reap`: the oldest tasks, while they are ready and fit. Workers go on
        finishing tasks meanwhile. */
    method DrainReady(out: array<Completion>, ghost least: nat) returns (count: nat, ghost reaped: seq<ReadRequest>)
      requires Valid() && least <= |pending| && forall k :: 0 <= k < least ==> pending[k].ready
      modifies `pending, `flight, Buffers(flight), out
      ensures Valid()
      ensures count == |reaped| <= out.Length
      ensures count >= Min(least, out.Length)
      ensures count == out.Length || pending == [] || !pending[0].ready
      ensures old(flight) == reaped + flight
      ensures Leaves(old(flight), reaped, flight)
      ensures forall i :: 0 <= i < |reaped| ==> Finished(out[i], reaped[i], device)
    {
      hide Leaves, Finished, Buffers, Valid;
      ghost var all := flight;
      count, reaped := 0, [];
      LeavesNothing(all);
      while count < out.Length && pending != [] && pending[0].ready
        invariant 0 <= count == |reaped| <= out.Length
        invariant Valid() && all == reaped + flight && Leaves(all, reaped, flight)
        invariant least <= count + |pending| && forall k :: 0 <= k < least - count ==> pending[k].ready
        invariant forall k :: 0 <= k < |reaped| ==> Finished(out[k], reaped[k], device)
        decreases |pending|
      {
        ghost var before, tasks := flight, pending;
        ghost var taken := Take(out, count);
        LeavesThen(all, reaped, before, [taken], flight);
        reaped := reaped + [taken];
        count := count + 1;
        assert forall k :: 0 <= k < |pending| ==> pending[k] == tasks[k + 1];
        UntouchedWhileInFlight(all, reaped, flight);
        Progress();
      }
    }

    /** `reap` delivers the oldest requests, in submission order, and no fewer than the clamped `min`. */
    method Reap(out: array<Completion>, min: nat) returns (r: Outcome<nat>, ghost reaped: seq<ReadRequest>)
      requires Valid()
      modifies `pending, `flight, Buffers(flight), out
      ensures Valid()
      ensures r.Ok? && r.value == |reaped| <= out.Length
      ensures r.value >= Min(Min(min, out.Length), old(|flight|))
      ensures r.value == out.Length || pending == [] || !pending[0].ready
      ensures old(flight) == reaped + flight
      ensures Leaves(old(flight), reaped, flight)
      ensures forall i :: 0 <= i < |reaped| ==> Finished(out[i], reaped[i], device)
    {
      hide Leaves, Finished, Valid;
      PendingSize();
      var least := Min(Min(min, out.Length), |pending|);
      WaitOldest(least);
      PendingSize();
      Progress();
      var count;
      count, reaped := DrainReady(out, least);
      return Ok(count), reaped;
    }
  }
}
