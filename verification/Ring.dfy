/** The io_uring as src/uring.cpp uses it: a submission queue, reads in the kernel, a completion queue. */
module Ring {
  import opened Common
  import opened BackendContract

  /** A completion entry: the request its user data names, and the kernel's result. */
  datatype Cqe = Cqe(request: ReadRequest, res: int)

  function ToCompletion(cqe: Cqe): Completion {
    if cqe.res < 0
    then Completion(cqe.request.token, 0, -cqe.res)
    else Completion(cqe.request.token, cqe.res, 0)
  }

  /** `io_uring_prep_read` takes the length as a 32-bit `unsigned`. */
  function Prepared(request: ReadRequest): ReadRequest {
    request.(length := request.length % TWO32)
  }

  /** `io_uring_queue_init` takes the depth as a 32-bit `unsigned`: the least number of entries. */
  function Entries(depth: nat): nat { depth % TWO32 }

  /** The ring has an entry for every request that the depth allows exactly for depths below 2^32. */
  lemma {:induction false} EntriesExactly(depth: nat)
    ensures Entries(depth) >= depth <==> depth < TWO32
  {
  }

  function PreparedAll(requests: seq<ReadRequest>): (r: seq<ReadRequest>)
    ensures |r| == |requests|
    ensures forall i :: 0 <= i < |r| ==> r[i] == Prepared(requests[i])
  {
    seq(|requests|, i requires 0 <= i < |requests| => Prepared(requests[i]))
  }

  function Requests(cq: seq<Cqe>): multiset<ReadRequest> {
    if cq == [] then multiset{} else Requests(cq[..|cq| - 1]) + multiset{cq[|cq| - 1].request}
  }

  class IoUring {
    const device: Device
    const capacity: pos
    var sq: seq<ReadRequest>
    var kernel: seq<ReadRequest>
    var cq: seq<Cqe>

    /** Every request in one of the three queues, in submission order. */
    ghost var flight: seq<ReadRequest>

    /** `io_uring_queue_init`. */
    constructor (device: Device, capacity: pos)
      ensures this.device == device && this.capacity == capacity
      ensures sq == [] && flight == [] && Valid()
    {
      this.device, this.capacity := device, capacity;
      sq, kernel, cq, flight := [], [], [], [];
    }

    lemma FlightSize()
      requires Valid()
      ensures |flight| == |sq| + |kernel| + |cq|
    {
    }

    ghost predicate Valid()
      reads this, Buffers(flight)
    {
      && OwnBuffers(flight)
      && Fit(flight)
      && multiset(flight) == multiset(sq) + multiset(kernel) + Requests(cq)
      && |flight| == |sq| + |kernel| + |cq|
      && forall c :: c in cq ==> c.request in flight && Finished(ToCompletion(c), c.request, device)
    }

    /** The kernel's answer to one read: bytes of the file, EINVAL for a misaligned one, or its errno. */
    method Transfer(request: ReadRequest) returns (cqe: Cqe)
      requires request.length <= request.dst.Length
      modifies request.dst
      ensures cqe.request == request && Finished(ToCompletion(cqe), request, device)
    {
      hide Device.Accepts;
      var fails: bool := *;
      if device.faulty && fails && request.offset in device.errors {
        var errno: int := device.errors[request.offset];
        return Cqe(request, -errno);
      }
      if !device.Accepts(request.offset, request.length) {
        return Cqe(request, -EINVAL);
      }
      var got := Given(|device.bytes|, device.cuts, request.offset, request.length);
      forall k | 0 <= k < got { request.dst[k] := device.bytes[request.offset + k]; }
      return Cqe(request, got);
    }

    /** The kernel finishes one of its reads, whichever it likes, and posts the completion. */
    method Finish(i: nat)
      requires Valid() && i < |kernel|
      modifies `kernel, `cq, Buffers(flight)
      ensures Valid()
      ensures |cq| == old(|cq|) + 1 && cq[..old(|cq|)] == old(cq)
      ensures |kernel| == old(|kernel|) - 1
    {
      var request := kernel[i];
      PostedApart(flight, kernel, cq, i);
      var cqe := Transfer(request);
      kernel, cq := Without(kernel, i), cq + [cqe];
      assert cq[..|cq| - 1] == old(cq);
    }

    /** Time passes: the kernel finishes `atLeast` reads or more, in any order. */
    method Progress(atLeast: nat)
      requires Valid() && atLeast <= |kernel|
      modifies `kernel, `cq, Buffers(flight)
      ensures Valid()
      ensures |cq| >= old(|cq|) + atLeast && cq[..old(|cq|)] == old(cq)
      ensures |kernel| + |cq| == old(|kernel| + |cq|)
    {
      var steps :| atLeast <= steps <= |kernel|;
      while steps > 0
        invariant 0 <= steps <= |kernel|
        invariant Valid() && flight == old(flight) && |kernel| + |cq| == old(|kernel| + |cq|)
        invariant |cq| + steps >= old(|cq|) + atLeast && |cq| >= old(|cq|) && cq[..old(|cq|)] == old(cq)
      {
        var i :| 0 <= i < |kernel|;
        Finish(i);
        steps := steps - 1;
      }
    }

    /** `io_uring_get_sqe` finds a free entry. */
    predicate HasSqe()
      reads this
    {
      |sq| < capacity
    }

    /** `io_uring_prep_read` and `io_uring_sqe_set_data64`. */
    method PrepRead(request: ReadRequest)
      requires Valid() && HasSqe() && request.length <= request.dst.Length
      requires request.dst !in Buffers(flight)
      modifies `sq, `flight
      ensures Valid()
      ensures sq == old(sq) + [Prepared(request)] && flight == old(flight) + [Prepared(request)]
    {
      sq, flight := sq + [Prepared(request)], flight + [Prepared(request)];
      assert forall r :: r in old(flight) ==> r.dst != request.dst;
    }

    /** `io_uring_submit`: a negative errno, or the whole submission queue goes to the kernel. */
    method Submit() returns (rc: int)
      requires Valid()
      modifies `sq, `kernel
      ensures Valid()
      ensures rc < 0 ==> device.CallFails(Io(-rc)) && sq == old(sq) && kernel == old(kernel)
      ensures rc >= 0 ==> sq == [] && kernel == old(kernel) + old(sq)
    {
      var fails: bool := *;
      if device.faulty && fails && device.calls != {} {
        var errno :| errno in device.calls;
        rc := -errno;
      } else {
        rc := |sq|;
        sq, kernel := [], kernel + sq;
      }
    }

    /** Nothing is posted and nothing can be: `io_uring_wait_cqe` would block for ever. */
    predicate Starved()
      reads this
    {
      kernel == [] && cq == []
    }

    /** `io_uring_wait_cqe`: a negative errno, or at least one completion is posted. */
    method WaitCqe() returns (rc: int)
      requires Valid() && !Starved()
      modifies `kernel, `cq, Buffers(flight)
      ensures Valid()
      ensures if rc < 0 then device.CallFails(Io(-rc)) else cq != []
      ensures |kernel| + |cq| == old(|kernel| + |cq|)
    {
      var fails: bool := *;
      if device.faulty && fails && device.calls != {} {
        var errno :| errno in device.calls;
        rc := -errno;
      } else {
        Progress(if cq == [] then 1 else 0);
        rc := 0;
      }
    }

    /** `io_uring_cqe_seen`: the oldest entry is consumed. */
    method Seen()
      requires Valid() && cq != []
      modifies `cq, `flight
      ensures Valid()
      ensures cq == old(cq)[1..]
      ensures Leaves(old(flight), [old(cq)[0].request], flight)
    {
      hide OwnBuffers, Leaves, Without, Finished;
      ghost var request := cq[0].request;
      ghost var k :| 0 <= k < |flight| && flight[k] == request;
      TakeOut(flight, k);
      LeavesOne(flight, k);
      PostedOnce(flight, sq, kernel, cq, k);
      cq, flight := cq[1..], Without(flight, k);
    }
  }

  lemma {:induction false} PopFront(cq: seq<Cqe>)
    requires cq != []
    ensures Requests(cq) == multiset{cq[0].request} + Requests(cq[1..])
  {
    var n := |cq| - 1;
    if n > 0 {
      PopFront(cq[..n]);
      assert cq[1..][..n - 1] == cq[..n][1..];
    }
  }

  lemma {:induction false} Posted(cq: seq<Cqe>)
    ensures forall c :: c in cq ==> c.request in Requests(cq)
  {
    if cq != [] {
      var n := |cq| - 1;
      Posted(cq[..n]);
      assert cq == cq[..n] + [cq[n]];
    }
  }

  /** The read that finishes next shares no buffer with the posted completions. */
  lemma {:induction false} PostedApart(flight: seq<ReadRequest>, kernel: seq<ReadRequest>, cq: seq<Cqe>, i: nat)
    requires OwnBuffers(flight) && multiset(kernel) + Requests(cq) <= multiset(flight)
    requires i < |kernel|
    ensures kernel[i] in flight
    ensures forall c :: c in cq ==> c.request.dst != kernel[i].dst
  {
    var r := kernel[i];
    assert r in multiset(kernel);
    assert r in multiset(flight);
    Posted(cq);
    forall c | c in cq ensures c.request.dst != r.dst {
      assert multiset([r]) + multiset([c.request]) <= multiset(flight);
      PartsApart(flight, [r], [c.request]);
    }
  }

  /** The entries behind the oldest one stay in flight when it leaves. */
  lemma {:induction false} PostedOnce(flight: seq<ReadRequest>, sq: seq<ReadRequest>, kernel: seq<ReadRequest>, cq: seq<Cqe>, k: nat)
    requires k < |flight| && cq != [] && flight[k] == cq[0].request
    requires multiset(flight) == multiset(sq) + multiset(kernel) + Requests(cq)
    ensures multiset(Without(flight, k)) == multiset(sq) + multiset(kernel) + Requests(cq[1..])
    ensures forall c :: c in cq[1..] ==> c.request in Without(flight, k)
  {
    var rest, left := Requests(cq[1..]), Without(flight, k);
    PopFront(cq);
    Posted(cq[1..]);
    Cancel(multiset(left), multiset(sq) + multiset(kernel) + rest, flight[k]);
    forall c | c in cq[1..] ensures c.request in left {
      assert c.request in rest;
      assert c.request in multiset(left);
    }
  }
}
