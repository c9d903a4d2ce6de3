/** src/uring.cpp: the io_uring backend over the abstract ring. */
module UringBackend {
  import opened Common
  import opened BackendContract
  import opened Ring

  /** What the loop `while (count < min && count < in_flight_)` consumes: both sides of the guard move. */
  function WaitRounds(count: nat, min: nat, inFlight: nat): nat
    decreases inFlight
  {
    if count < min && count < inFlight then 1 + WaitRounds(count + 1, min, inFlight - 1) else 0
  }

  lemma {:induction false} WaitBoundFrom(count: nat, min: nat, inFlight: nat)
    requires count <= min
    ensures WaitRounds(count, min, inFlight) ==
            Min(min - count, if count < inFlight then (inFlight - count + 1) / 2 else 0)
    decreases inFlight
  {
    if count < min && count < inFlight { WaitBoundFrom(count + 1, min, inFlight - 1); }
  }

  /** The blocking loop consumes `min` completions, or half of those in flight, rounded up. */
  lemma {:induction false} WaitBound(min: nat, inFlight: nat)
    ensures WaitRounds(0, min, inFlight) == Min(min, (inFlight + 1) / 2)
  {
    WaitBoundFrom(0, min, inFlight);
  }

  /** The header promises `min` clamped to the requests in flight: the loop waits that long exactly
      when the clamped `min` is at most half of them, rounded up. */
  lemma {:induction false} WaitPromise(min: nat, inFlight: nat)
    ensures WaitRounds(0, min, inFlight) == Min(min, inFlight) <==> Min(min, inFlight) <= (inFlight + 1) / 2
    ensures WaitRounds(0, 2, 2) == 1
  {
    WaitBound(min, inFlight);
    WaitBound(2, 2);
  }

  class Uring {
    const depth: nat
    const ring: IoUring
    var inFlight: nat

    /** The ring has some number of entries: usually the depth rounded up, but `Entries(depth)` may be less. */
    constructor (device: Device, depth: nat, capacity: pos)
      ensures this.depth == depth && ring.device == device && ring.capacity == capacity && fresh(ring)
      ensures Valid() && Healthy() && ring.flight == []
    {
      this.depth := depth;
      ring := new IoUring(device, capacity);
      inFlight := 0;
    }

    ghost predicate Valid()
      reads this, ring, Buffers(ring.flight)
    {
      && ring.Valid()
      && inFlight == |ring.flight| <= depth
    }

    /** No submission has been left behind in the queue by a ring error. */
    ghost predicate Healthy()
      reads ring
    {
      ring.sq == []
    }

    /** The kernel has all that the blocking loop of `reap` waits for, so that it does not hang. */
    ghost predicate Answerable(min: nat)
      reads this, ring
    {
      WaitRounds(0, min, inFlight) <= |ring.kernel| + |ring.cq|
    }

    /** The blocking loop has enough to wait for exactly when it wants no more than was not left behind in
        the submission queue; with nothing left behind, always. */
    lemma {:induction false} AnswerableExactly(min: nat)
      requires Valid()
      ensures Answerable(min) <==> Min(min, (inFlight + 1) / 2) + |ring.sq| <= inFlight
      ensures Healthy() ==> Answerable(min)
    {
      ring.FlightSize();
      WaitBound(min, inFlight);
    }

    /** One request into the submission queue; a full queue is flushed first, and then has room. */
    method Queue(request: ReadRequest) returns (r: Outcome<()>)
      requires Valid() && inFlight < depth
      requires request.length <= request.dst.Length && request.dst !in Buffers(ring.flight)
      modifies `inFlight, ring`sq, ring`kernel, ring`flight
      ensures Valid()
      ensures r.Ok? ==> inFlight == old(inFlight) + 1 && ring.flight == old(ring.flight) + [Prepared(request)]
      ensures r.Err? ==> ring.device.CallFails(r.error) && inFlight == old(inFlight) && ring.flight == old(ring.flight)
      ensures old(|ring.sq|) < ring.capacity ==> r.Ok? && ring.kernel == old(ring.kernel)
    {
      hide OwnBuffers, Finished, Fit, Leaves, Requests;
      if !ring.HasSqe() {
        var flushed := ring.Submit();
        if flushed < 0 {
          return Err(Io(-flushed));
        }
        if !ring.HasSqe() {
          assert false;
        }
      }
      ring.PrepRead(request);
      inFlight := inFlight + 1;
      return Ok(());
    }

    /** The loop of `submit`. After a ring error the requests before it stay queued and counted. */
    method QueueAll(requests: seq<ReadRequest>) returns (r: Outcome<()>, count: nat)
      requires Valid() && Fit(requests) && OwnBuffers(ring.flight + requests)
      requires inFlight + |requests| <= depth
      modifies `inFlight, ring`sq, ring`kernel, ring`flight
      ensures Valid() && count <= |requests|
      ensures ring.flight == old(ring.flight) + PreparedAll(requests[..count])
      ensures if r.Ok? then count == |requests| else ring.device.CallFails(r.error)
    {
      hide IoUring.Valid, OwnBuffers, Buffers;
      ghost var flight := ring.flight;
      count := 0;
      while count < |requests|
        invariant 0 <= count <= |requests|
        invariant Valid() && inFlight == |flight| + count
        invariant ring.flight == flight + PreparedAll(requests[..count])
      {
        NotYetQueued(flight, requests, count);
        assert requests[count].length <= requests[count].dst.Length;
        r := Queue(requests[count]);
        if r.Err? {
          return;
        }
        assert PreparedAll(requests[..count + 1]) == PreparedAll(requests[..count]) + [Prepared(requests[count])];
        count := count + 1;
      }
      r := Ok(());
    }

    /** A capacity rejection changes nothing; any other failure leaves the requests before it queued and
        counted. The submission queue is never found full twice. */
    method Submit(requests: seq<ReadRequest>) returns (r: Outcome<()>)
      requires Valid() && Fit(requests) && OwnBuffers(ring.flight + requests)
      modifies `inFlight, ring`sq, ring`kernel, ring`flight
      ensures Valid()
      ensures r == Err(QueueFull) <==> old(|ring.flight|) + |requests| > depth
      ensures r == Err(QueueFull) ==> unchanged(this) && unchanged(ring)
      ensures r.Err? ==> r.error.QueueFull? || ring.device.CallFails(r.error)
      ensures r.Err? && r.error.Io? ==>
                exists n :: 0 <= n <= |requests| && ring.flight == old(ring.flight) + PreparedAll(requests[..n])
      ensures r.Ok? ==> Healthy() && ring.flight == old(ring.flight) + PreparedAll(requests)
    {
      hide IoUring.Valid, OwnBuffers, Buffers, Fit;
      if inFlight + |requests| > depth {
        return Err(QueueFull);
      }
      var queued, count := QueueAll(requests);
      if queued.Err? {
        return queued;
      }
      assert requests[..count] == requests;
      var rc := ring.Submit();
      if rc < 0 {
        return Err(Io(-rc));
      }
      return Ok(());
    }

    /** The oldest posted completion moves to `out[count]`. */
    method Take(out: array<Completion>, count: nat) returns (ghost taken: ReadRequest)
      requires Valid() && ring.cq != [] && count < out.Length
      modifies `inFlight, ring`cq, ring`flight, out
      ensures Valid() && inFlight == old(inFlight) - 1
      ensures ring.cq == old(ring.cq)[1..]
      ensures forall i :: 0 <= i < out.Length && i != count ==> out[i] == old(out[i])
      ensures Finished(out[count], taken, ring.device)
      ensures Leaves(old(ring.flight), [taken], ring.flight)
    {
      taken := ring.cq[0].request;
      out[count] := ToCompletion(ring.cq[0]);
      ring.Seen();
      inFlight := inFlight - 1;
    }

    /** The blocking loop of `reap`; `hangs` when it would block for ever. */
    method Wait(out: array<Completion>, min: nat) returns (r: Outcome<nat>, hangs: bool, ghost reaped: seq<ReadRequest>)
      requires Valid() && min <= out.Length
      modifies `inFlight, ring`kernel, ring`cq, ring`flight, Buffers(ring.flight), out
      ensures Valid()
      ensures |reaped| <= min && Leaves(old(ring.flight), reaped, ring.flight)
      ensures forall i :: 0 <= i < |reaped| ==> Finished(out[i], reaped[i], ring.device)
      ensures hangs ==> !old(Answerable(min))
      ensures !old(Answerable(min)) ==> hangs || r.Err?
      ensures !hangs && r.Ok? ==> r.value == |reaped| == WaitRounds(0, min, old(inFlight))
      ensures r.Err? ==> ring.device.CallFails(r.error)
    {
      hide IoUring.Valid, OwnBuffers, Buffers, Leaves, Finished;
      ghost var flight := ring.flight;
      var count := 0;
      reaped, hangs := [], false;
      LeavesNothing(flight);
      while count < min && count < inFlight
        invariant count == |reaped| <= min
        invariant Valid()
        invariant count + WaitRounds(count, min, inFlight) == WaitRounds(0, min, old(inFlight))
        invariant count + |ring.kernel| + |ring.cq| == old(|ring.kernel| + |ring.cq|)
        invariant Leaves(flight, reaped, ring.flight)
        invariant forall i :: 0 <= i < |reaped| ==> Finished(out[i], reaped[i], ring.device)
        decreases inFlight
      {
        if ring.Starved() {
          return Ok(count), true, reaped;
        }
        UntouchedWhileInFlight(flight, reaped, ring.flight);
        var rc := ring.WaitCqe();
        if rc < 0 {
          return Err(Io(-rc)), false, reaped;
        }
        ghost var before := ring.flight;
        ghost var taken := Take(out, count);
        LeavesThen(flight, reaped, before, [taken], ring.flight);
        reaped := reaped + [taken];
        count := count + 1;
      }
      return Ok(count), false, reaped;
    }

    /** The non-blocking part of `reap`: as many posted completions as fit, at most 64. */
    method Drain(out: array<Completion>, start: nat) returns (count: nat, ghost reaped: seq<ReadRequest>)
      requires Valid() && start <= out.Length
      modifies `inFlight, ring`kernel, ring`cq, ring`flight, Buffers(ring.flight), out
      ensures Valid()
      ensures start <= count == start + |reaped| <= out.Length
      ensures Leaves(old(ring.flight), reaped, ring.flight)
      ensures ring.cq == [] || |reaped| == Min(out.Length - start, 64)
      ensures forall i :: 0 <= i < start ==> out[i] == old(out[i])
      ensures forall i :: 0 <= i < |reaped| ==> Finished(out[start + i], reaped[i], ring.device)
    {
      hide IoUring.Valid, OwnBuffers, Buffers, Leaves, Finished;
      ghost var flight := ring.flight;
      count, reaped := start, [];
      LeavesNothing(flight);
      var room := Min(out.Length - start, 64);
      if room > 0 {
        ring.Progress(0);
        ghost var posted := |ring.cq|;
        var ready := Min(|ring.cq|, room);
        while count < start + ready
          invariant start <= count == start + |reaped| <= start + ready
          invariant |ring.cq| == posted - |reaped|
          invariant Valid()
          invariant Leaves(flight, reaped, ring.flight)
          invariant forall i :: 0 <= i < start ==> out[i] == old(out[i])
          invariant forall i :: 0 <= i < |reaped| ==> Finished(out[start + i], reaped[i], ring.device)
        {
          ghost var before := ring.flight;
          UntouchedWhileInFlight(flight, reaped, before);
          ghost var taken := Take(out, count);
          LeavesThen(flight, reaped, before, [taken], ring.flight);
          reaped := reaped + [taken];
          count := count + 1;
        }
      }
    }

    /** `reap`: what comes out, in whatever order the kernel chose, is exactly what leaves the flight.
        Submissions left behind by a ring error stay behind, and may make it hang. */
    method Reap(out: array<Completion>, min: nat) returns (r: Outcome<nat>, hangs: bool, ghost reaped: seq<ReadRequest>)
      requires Valid()
      modifies `inFlight, ring`kernel, ring`cq, ring`flight, Buffers(ring.flight), out
      ensures Valid()
      ensures |reaped| <= out.Length && Leaves(old(ring.flight), reaped, ring.flight)
      ensures forall i :: 0 <= i < |reaped| ==> Finished(out[i], reaped[i], ring.device)
      ensures hangs ==> !old(Answerable(Min(min, out.Length)))
      ensures !old(Answerable(Min(min, out.Length))) ==> hangs || r.Err?
      ensures !hangs && r.Ok? ==> r.value == |reaped| >= WaitRounds(0, Min(min, out.Length), old(inFlight))
      ensures !hangs && r.Ok? ==> ring.cq == [] || r.value == out.Length || r.value >= 64
      ensures r.Err? ==> ring.device.CallFails(r.error)
    {
      hide IoUring.Valid, OwnBuffers, Buffers, Leaves, Finished, WaitRounds, Answerable;
      ghost var flight := ring.flight;
      ghost var waited, drained;
      r, hangs, waited := Wait(out, Min(min, out.Length));
      reaped := waited;
      if hangs || r.Err? {
        return;
      }
      ghost var before := ring.flight;
      UntouchedWhileInFlight(flight, waited, before);
      var count;
      count, drained := Drain(out, r.value);
      LeavesThen(flight, waited, before, drained, ring.flight);
      reaped := waited + drained;
      r := Ok(count);
    }
  }

  /** The buffer of request `i` is not in flight before it is queued. */
  lemma {:induction false} NotYetQueued(flight: seq<ReadRequest>, requests: seq<ReadRequest>, i: nat)
    requires i < |requests| && OwnBuffers(flight + requests)
    ensures requests[i].dst !in Buffers(flight + PreparedAll(requests[..i]))
  {
    var all, now := flight + requests, flight + PreparedAll(requests[..i]);
    forall r | r in now ensures r.dst != requests[i].dst {
      var k :| 0 <= k < |now| && now[k] == r;
      assert all[k].dst == r.dst && all[|flight| + i] == requests[i];
    }
  }
}
