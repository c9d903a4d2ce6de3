/** `open_backend` and the calls through the `Backend` interface, with its dynamic dispatch written out:
    the io_uring backend when the ring can be created, the thread pool otherwise. One contract, stated
    over the bag of reads in flight, is met by both. */
module Backend {
  import opened Common
  import opened BackendContract
  import opened Ring
  import opened UringBackend
  import opened ThreadBackend

  class Backend {
    const device: Device
    const depth: nat
    const uring: Uring?
    const thread: ThreadPoolBackend?

    /** The reads in flight, and what has been submitted and delivered since the backend was opened. */
    ghost var flight: seq<ReadRequest>
    ghost var submitted: multiset<ReadRequest>
    ghost var delivered: multiset<ReadRequest>
    ghost const Repr: set<object>

    /** `ringAvailable` is the kernel's answer to creating the ring. */
    constructor (device: Device, depth: nat, ringAvailable: bool, entries: pos)
      ensures this.device == device && this.depth == depth
      ensures (uring != null <==> ringAvailable) && (thread != null <==> !ringAvailable)
      ensures Valid() && flight == [] && fresh(Repr)
    {
      this.device, this.depth := device, depth;
      flight, submitted, delivered := [], multiset{}, multiset{};
      if ringAvailable {
        var u := new Uring(device, depth, entries);
        uring, thread := u, null;
        Repr := {this, u, u.ring};
      } else {
        var t := new ThreadPoolBackend(device, depth);
        uring, thread := null, t;
        Repr := {this, t};
      }
    }

    /** The objects of the chosen backend. */
    ghost predicate Within() {
      && this in Repr
      && (uring != null ==> uring in Repr && uring.ring in Repr)
      && (thread != null ==> thread in Repr)
    }

    /** The chosen backend is sound and has exactly `requests` in flight. */
    ghost predicate Serves(requests: seq<ReadRequest>)
      reads if uring != null then {uring as object, uring.ring} else {}
      reads if thread != null then {thread as object} else {}
      reads Buffers(requests)
    {
      && (uring == null <==> thread != null)
      && (uring != null ==>
            && uring.depth == depth && uring.ring.device == device && uring.ring.flight == requests
            && uring.Valid() && uring.Healthy())
      && (thread != null ==>
            && thread.depth == depth && thread.device == device && thread.flight == requests
            && thread.Valid())
    }

    ghost predicate Valid()
      reads this, Repr, Buffers(flight)
    {
      && Within()
      && Serves(flight)
      // Conservation over every call so far: each request submitted is delivered once or in flight.
      && submitted == delivered + multiset(flight)
      && |flight| <= depth
      && OwnBuffers(flight)
    }

    lemma Owns(requests: seq<ReadRequest>)
      requires Serves(requests)
      ensures |requests| <= depth && OwnBuffers(requests)
      ensures uring != null ==> uring.inFlight == |requests|
      ensures thread != null ==> |thread.pending| == |requests|
    {
    }

    /** The books after a call. */
    ghost method Settle(now: seq<ReadRequest>, more: multiset<ReadRequest>, done: multiset<ReadRequest>)
      requires Within() && Serves(now)
      requires submitted + more == delivered + done + multiset(now)
      modifies `flight, `submitted, `delivered
      ensures Valid()
      ensures flight == now && submitted == old(submitted) + more && delivered == old(delivered) + done
    {
      hide OwnBuffers, Serves;
      Owns(now);
      assert this as object !in Buffers(now);
      flight, submitted, delivered := now, submitted + more, delivered + done;
    }

    /** `in_flight()`: the backend's own count is the number of reads in flight. */
    function InFlight(): (n: nat)
      requires Valid()
      reads this, Repr, Buffers(flight)
      ensures n == |flight| <= depth
    {
      Owns(flight);
      if uring != null then uring.inFlight else |thread.pending|
    }

    /** What is in flight of a submission: the ring keeps only 32 bits of each length. */
    ghost function Sent(requests: seq<ReadRequest>): seq<ReadRequest> {
      if uring != null then PreparedAll(requests) else requests
    }

    /** Fails, and changes nothing, exactly when the queue depth would be exceeded; a ring error is the
        only other failure. */
    method Submit(requests: seq<ReadRequest>) returns (r: Outcome<()>)
      requires Valid() && Fit(requests) && OwnBuffers(flight + requests)
      modifies Repr
      ensures r == Err(QueueFull) <==> old(|flight|) + |requests| > depth
      ensures r == Err(QueueFull) ==> Valid() && flight == old(flight)
      ensures r.Err? ==> r.error.QueueFull? || device.CallFails(r.error)
      ensures r.Ok? ==> Valid() && flight == old(flight) + Sent(requests)
      ensures delivered == old(delivered)
      ensures submitted == if r.Ok? then old(submitted) + multiset(Sent(requests)) else old(submitted)
    {
      hide Uring.Valid, ThreadPoolBackend.Valid, OwnBuffers, Fit, PreparedAll;
      if uring != null {
        r := uring.Submit(requests);
      } else {
        r := thread.Submit(requests);
      }
      if r.Ok? {
        Settle(flight + Sent(requests), multiset(Sent(requests)), multiset{});
      }
    }

    /** The chosen backend reaps. */
    method Collect(out: array<Completion>, min: nat)
      returns (r: Outcome<nat>, ghost reaped: seq<ReadRequest>, ghost now: seq<ReadRequest>)
      requires Valid()
      modifies Repr - {this}, Buffers(flight), out
      ensures Serves(now) && |reaped| <= out.Length && Leaves(flight, reaped, now)
      ensures forall i :: 0 <= i < |reaped| ==> Finished(out[i], reaped[i], device)
      ensures r.Ok? ==> r.value == |reaped| >= WaitRounds(0, Min(min, out.Length), |flight|)
      ensures r.Err? ==> device.CallFails(r.error)
    {
      hide Uring.Valid, ThreadPoolBackend.Valid, OwnBuffers, Leaves, Finished, WaitRounds;
      Owns(flight);
      if uring != null {
        uring.AnswerableExactly(Min(min, out.Length));
        var hangs;
        r, hangs, reaped := uring.Reap(out, min);
        now := uring.ring.flight;
      } else {
        WaitBound(Min(min, out.Length), |flight|);
        r, reaped := thread.Reap(out, min);
        now := thread.flight;
      }
    }

    /** Completions come out in any order; each answers a request that leaves the flight. */
    method Reap(out: array<Completion>, min: nat) returns (r: Outcome<nat>, ghost reaped: seq<ReadRequest>)
      requires Valid()
      modifies Repr, Buffers(flight), out
      ensures Valid()
      ensures |reaped| <= out.Length && Leaves(old(flight), reaped, flight)
      ensures submitted == old(submitted) && delivered == old(delivered) + multiset(reaped)
      ensures forall i :: 0 <= i < |reaped| ==> Finished(out[i], reaped[i], device)
      ensures r.Ok? ==> r.value == |reaped| >= WaitRounds(0, Min(min, out.Length), old(|flight|))
      ensures r.Err? ==> device.CallFails(r.error)
    {
      hide Uring.Valid, ThreadPoolBackend.Valid, OwnBuffers, Leaves, WaitRounds, Serves;
      ghost var now;
      r, reaped, now := Collect(out, min);
      LeavesBag(flight, reaped, now);
      Settle(now, multiset{}, multiset(reaped));
    }
  }

  /** `open_backend`: a depth of zero is refused; otherwise the ring is used when the kernel allows it, and
      the pool when not, unless that cannot be created either. */
  method OpenBackend(device: Device, depth: nat, ringAvailable: bool, entries: pos, poolAvailable: bool)
    returns (r: Outcome<Backend>)
    ensures r.Ok? <==> depth > 0 && (ringAvailable || poolAvailable)
    ensures r.Ok? ==> r.value.device == device && r.value.depth == depth
    ensures r.Ok? ==> if ringAvailable then r.value.uring != null && r.value.thread == null
                      else r.value.uring == null && r.value.thread != null
    ensures r.Ok? ==> fresh(r.value) && fresh(r.value.Repr) && r.value in r.value.Repr && r.value.Valid() && r.value.flight == []
    ensures r.Err? ==> r.error == if depth == 0 then InvalidOption("queue_depth") else BackendUnavailable
  {
    if depth == 0 {
      return Err(InvalidOption("queue_depth"));
    }
    if !ringAvailable && !poolAvailable {
      return Err(BackendUnavailable);
    }
    var backend := new Backend(device, depth, ringAvailable, entries);
    return Ok(backend);
  }

  lemma {:induction false} LeavesBag(before: seq<ReadRequest>, taken: seq<ReadRequest>, after: seq<ReadRequest>)
    requires Leaves(before, taken, after)
    ensures multiset(after) + multiset(taken) == multiset(before)
  {
  }

  /** Requests below 4 GiB are sent as they are, */
  lemma {:induction false} SentSame(backend: Backend, requests: seq<ReadRequest>)
    requires forall q :: q in requests ==> q.length < TWO32
    ensures backend.Sent(requests) == requests
  {
    forall i | 0 <= i < |requests| ensures Prepared(requests[i]) == requests[i] {
      assert requests[i] in requests;
    }
  }

  /** and by the ring only those. */
  lemma {:induction false} PreparedExactly(request: ReadRequest)
    ensures Prepared(request) == request <==> request.length < TWO32
  {
  }
}
