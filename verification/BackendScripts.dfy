/** Whole sessions with a backend: any sequence of submissions and reaps, then a drain. */
module BackendScripts {
  import opened Common
  import opened BackendContract
  import opened Backend
  import UringBackend

  /** A read to ask for; its buffer is allocated when it is submitted. */
  datatype Read = Read(offset: nat, length: nat, token: nat)

  datatype Call = Submit(wanted: seq<Read>) | Reap(room: nat, min: nat)

  function ReadOf(q: ReadRequest): Read { Read(q.offset, q.length, q.token) }

  function ReadsOf(requests: seq<ReadRequest>): (r: seq<Read>)
    ensures |r| == |requests| && forall i :: 0 <= i < |r| ==> r[i] == ReadOf(requests[i])
  {
    seq(|requests|, i requires 0 <= i < |requests| => ReadOf(requests[i]))
  }

  /** The wanted of the submissions that were accepted, in order. */
  function Accepted(calls: seq<Call>, verdicts: seq<bool>): seq<Read>
    requires |verdicts| == |calls|
  {
    if calls == [] then []
    else
      var n := |calls| - 1;
      Accepted(calls[..n], verdicts[..n]) + if calls[n].Submit? && verdicts[n] then calls[n].wanted else []
  }

  lemma {:induction false} AcceptedNext(calls: seq<Call>, verdicts: seq<bool>, verdict: bool)
    requires |verdicts| < |calls|
    ensures var n := |verdicts|;
            Accepted(calls[..n + 1], verdicts + [verdict]) ==
            Accepted(calls[..n], verdicts) + if calls[n].Submit? && verdict then calls[n].wanted else []
  {
    var n := |verdicts|;
    assert calls[..n + 1][..n] == calls[..n] && (verdicts + [verdict])[..n] == verdicts;
  }

  /** What a call does to the number of reads in flight: a submission is accepted exactly when it fits, and
      a reap answers at least what its loop waits for. */
  predicate Steps(call: Call, verdict: bool, before: nat, after: nat, depth: nat) {
    match call
    case Submit(wanted) =>
      && (verdict <==> before + |wanted| <= depth)
      && after == before + if verdict then |wanted| else 0
    case Reap(room, min) =>
      UringBackend.WaitRounds(0, Min(min, room), before) <= before - after <= room
  }

  lemma {:induction false} ReapSteps(room: nat, min: nat, before: nat, after: nat, depth: nat)
    requires UringBackend.WaitRounds(0, Min(min, room), before) <= before - after <= room
    ensures Steps(Reap(room, min), true, before, after, depth)
  {
  }

  /** `levels` are the reads in flight before the first call and after each one. */
  predicate Traced(calls: seq<Call>, verdicts: seq<bool>, levels: seq<nat>, depth: nat) {
    && |verdicts| == |calls| && |levels| == |calls| + 1 && levels[0] == 0
    && forall i :: 0 <= i < |calls| ==> Steps(calls[i], verdicts[i], levels[i], levels[i + 1], depth)
  }

  lemma {:induction false} TracedNext(
    calls: seq<Call>, verdicts: seq<bool>, levels: seq<nat>, depth: nat, verdict: bool, after: nat)
    requires |verdicts| < |calls| && Traced(calls[..|verdicts|], verdicts, levels, depth)
    requires Steps(calls[|verdicts|], verdict, levels[|verdicts|], after, depth)
    ensures Traced(calls[..|verdicts| + 1], verdicts + [verdict], levels + [after], depth)
  {
    hide Steps;
    var n := |verdicts|;
    assert forall i :: 0 <= i < n ==> calls[..n + 1][i] == calls[..n][i];
  }

  /** The session's books: each accepted request has been answered once, by the bytes that are still in
      its buffer or by an error, or it is in flight. */
  ghost predicate Balanced(
    backend: Backend, accepted: seq<ReadRequest>, answers: seq<Completion>, reaped: seq<ReadRequest>)
    reads backend, backend.Repr, Buffers(backend.flight), Buffers(reaped)
  {
    && backend.Valid()
    && OwnBuffers(accepted)
    && (forall q :: q in accepted ==> q.dst !in backend.Repr)
    && multiset(accepted) == multiset(reaped) + multiset(backend.flight)
    && |answers| == |reaped|
    && forall i :: 0 <= i < |reaped| ==> Finished(answers[i], reaped[i], backend.device)
  }

  /** Requests with buffers of their own for `wanted`. */
  method Prepare(wanted: seq<Read>) returns (requests: seq<ReadRequest>)
    ensures ReadsOf(requests) == wanted
    ensures Fit(requests) && OwnBuffers(requests)
    ensures forall q :: q in requests ==> fresh(q.dst)
  {
    requests := [];
    var i := 0;
    while i < |wanted|
      invariant 0 <= i == |requests| <= |wanted|
      invariant forall k :: 0 <= k < i ==>
                  ReadOf(requests[k]) == wanted[k] && requests[k].dst.Length == wanted[k].length && fresh(requests[k].dst)
      invariant OwnBuffers(requests)
    {
      var dst := new byte[wanted[i].length];
      requests := requests + [ReadRequest(wanted[i].offset, dst, wanted[i].length, wanted[i].token)];
      i := i + 1;
    }
  }

  /** Allocating them changes nothing in the session. */
  method PrepareBeside(backend: Backend, wanted: seq<Read>,
    ghost accepted: seq<ReadRequest>, answers: seq<Completion>, ghost reaped: seq<ReadRequest>)
    returns (requests: seq<ReadRequest>)
    requires Balanced(backend, accepted, answers, reaped)
    ensures Balanced(backend, accepted, answers, reaped)
    ensures ReadsOf(requests) == wanted
    ensures Fit(requests) && OwnBuffers(requests)
    ensures forall q :: q in requests ==> fresh(q.dst)
  {
    hide OwnBuffers, Finished, Fit, Backend.Valid, ReadsOf;
    assert forall q :: q in backend.flight ==> allocated(q.dst);
    assert forall i :: 0 <= i < |reaped| ==> allocated(reaped[i].dst);
    label before:
    requests := Prepare(wanted);
    assert unchanged@before(backend) && unchanged@before(backend.Repr) && unchanged@before(Buffers(backend.flight));
  }

  lemma {:induction false} OwnTogether(a: seq<ReadRequest>, b: seq<ReadRequest>)
    requires OwnBuffers(a) && OwnBuffers(b)
    requires forall q, r :: q in a && r in b ==> q.dst != r.dst
    ensures OwnBuffers(a + b)
  {
    var all := a + b;
    forall i, j | 0 <= i < |all| && 0 <= j < |all| && i != j ensures all[i].dst != all[j].dst {
      if i < |a| && j >= |a| { assert all[i] in a && all[j] in b; }
      if j < |a| && i >= |a| { assert all[j] in a && all[i] in b; }
    }
  }

  lemma {:induction false} InBag(accepted: seq<ReadRequest>, a: seq<ReadRequest>, b: seq<ReadRequest>)
    requires multiset(accepted) == multiset(a) + multiset(b)
    ensures forall q :: q in a || q in b ==> q in accepted
  {
    forall q | q in a || q in b ensures q in accepted {
      assert q in multiset(a) || q in multiset(b);
      assert q in multiset(accepted);
    }
  }

  /** A submission keeps the books. */
  method SubmitPrepared(backend: Backend, requests: seq<ReadRequest>,
    ghost accepted: seq<ReadRequest>, answers: seq<Completion>, ghost reaped: seq<ReadRequest>)
    returns (r: Outcome<()>)
    requires Balanced(backend, accepted, answers, reaped)
    requires Fit(requests) && OwnBuffers(backend.flight + requests) && OwnBuffers(accepted + requests)
    requires forall q :: q in requests ==> q.length < TWO32 && q.dst !in backend.Repr
    modifies backend.Repr
    ensures r.Err? ==> r.error.QueueFull? || backend.device.CallFails(r.error)
    ensures r == Err(QueueFull) <==> old(|backend.flight|) + |requests| > backend.depth
    ensures r == Err(QueueFull) ==> Balanced(backend, accepted, answers, reaped) && |backend.flight| == old(|backend.flight|)
    ensures r.Ok? ==> |backend.flight| == old(|backend.flight|) + |requests|
    ensures r.Ok? ==> Balanced(backend, accepted + requests, answers, reaped)
  {
    hide OwnBuffers, Finished, Fit, Backend.Valid, Buffers;
    InBag(accepted, reaped, backend.flight);
    SentSame(backend, requests);
    r := backend.Submit(requests);
  }

  /** A submission: accepted as a whole, or refused because the queue would be too full. */
  method SubmitReads(backend: Backend, wanted: seq<Read>,
    ghost accepted: seq<ReadRequest>, answers: seq<Completion>, ghost reaped: seq<ReadRequest>)
    returns (r: Outcome<bool>, ghost now: seq<ReadRequest>)
    requires Balanced(backend, accepted, answers, reaped)
    requires forall q :: q in wanted ==> q.length < TWO32
    modifies backend.Repr
    ensures r.Err? ==> backend.device.CallFails(r.error)
    ensures r.Ok? ==> Balanced(backend, now, answers, reaped)
    ensures r.Ok? ==> Steps(Submit(wanted), r.value, old(|backend.flight|), |backend.flight|, backend.depth)
    ensures r.Ok? ==> ReadsOf(now) == ReadsOf(accepted) + if r.value then wanted else []
    ensures forall q :: q in now ==> q in accepted || fresh(q.dst)
  {
    hide Balanced, OwnBuffers, Finished, Fit, ReadsOf, Buffers;
    BackendOwns(backend, accepted, answers, reaped);
    var requests := PrepareBeside(backend, wanted, accepted, answers, reaped);
    OwnTogether(backend.flight, requests);
    OwnTogether(accepted, requests);
    LengthsOf(requests, wanted);
    ReadsTogether(accepted, requests);
    var got := SubmitPrepared(backend, requests, accepted, answers, reaped);
    if got.Err? && !got.error.QueueFull? {
      return Err(got.error), accepted;
    }
    now := if got.Ok? then accepted + requests else accepted;
    return Ok(got.Ok?), now;
  }

  lemma {:induction false} BackendOwns(
    backend: Backend, accepted: seq<ReadRequest>, answers: seq<Completion>, reaped: seq<ReadRequest>)
    requires Balanced(backend, accepted, answers, reaped)
    ensures OwnBuffers(backend.flight) && OwnBuffers(accepted)
    ensures forall q :: q in backend.flight ==> q in accepted
    ensures Buffers(backend.flight) <= Buffers(accepted)
  {
    InBag(accepted, reaped, backend.flight);
  }

  lemma {:induction false} LengthsOf(requests: seq<ReadRequest>, wanted: seq<Read>)
    requires ReadsOf(requests) == wanted && forall q :: q in wanted ==> q.length < TWO32
    ensures |requests| == |wanted| && forall q :: q in requests ==> q.length < TWO32
  {
    forall q | q in requests ensures q.length < TWO32 {
      var i :| 0 <= i < |requests| && requests[i] == q;
      assert wanted[i] == ReadOf(q) && wanted[i] in wanted;
    }
  }

  lemma {:induction false} ReadsTogether(a: seq<ReadRequest>, b: seq<ReadRequest>)
    ensures ReadsOf(a + b) == ReadsOf(a) + ReadsOf(b)
  {
  }

  /** The answers of one reap. */
  method Answers(backend: Backend, room: nat, min: nat) returns (r: Outcome<seq<Completion>>, ghost more: seq<ReadRequest>)
    requires backend.Valid()
    modifies backend.Repr, Buffers(backend.flight)
    ensures backend.Valid() && Leaves(old(backend.flight), more, backend.flight)
    ensures r.Err? ==> backend.device.CallFails(r.error)
    ensures r.Ok? ==> |r.value| == |more| == old(|backend.flight|) - |backend.flight|
    ensures r.Ok? ==> forall i :: 0 <= i < |more| ==> Finished(r.value[i], more[i], backend.device)
    ensures r.Ok? ==> Steps(Reap(room, min), true, old(|backend.flight|), |backend.flight|, backend.depth)
  {
    hide OwnBuffers, Finished, Leaves, Buffers, Backend.Serves, UringBackend.WaitRounds, Steps;
    ghost var flight := backend.flight;
    var out := new Completion[room];
    var got;
    got, more := backend.Reap(out, min);
    if got.Err? {
      return Err(got.error), more;
    }
    LeavesBuffers(flight, more, backend.flight);
    ReapSteps(room, min, |flight|, |backend.flight|, backend.depth);
    return Ok(out[..got.value]), more;
  }

  /** A reap: its answers are added to the books. */
  method ReapInto(backend: Backend, room: nat, min: nat,
    ghost accepted: seq<ReadRequest>, answers: seq<Completion>, ghost reaped: seq<ReadRequest>)
    returns (r: Outcome<seq<Completion>>, ghost now: seq<ReadRequest>)
    requires Balanced(backend, accepted, answers, reaped)
    modifies backend.Repr, Buffers(backend.flight)
    ensures r.Err? ==> backend.device.CallFails(r.error)
    ensures r.Ok? ==> Balanced(backend, accepted, r.value, now) && answers <= r.value && reaped <= now
    ensures Buffers(backend.flight) <= old(Buffers(backend.flight)) || r.Err?
    ensures r.Ok? ==> |r.value| - |answers| == old(|backend.flight|) - |backend.flight|
    ensures r.Ok? ==> Steps(Reap(room, min), true, old(|backend.flight|), |backend.flight|, backend.depth)
  {
    hide OwnBuffers, Finished, Backend.Valid, Leaves, Buffers, Apart, Steps;
    ghost var flight := backend.flight;
    InBag(accepted, reaped, flight);
    PartsApart(accepted, reaped, flight);
    var got, more := Answers(backend, room, min);
    now := reaped + more;
    if got.Err? {
      return Err(got.error), now;
    }
    LeavesBag(flight, more, backend.flight);
    LeavesBuffers(flight, more, backend.flight);
    return Ok(answers + got.value), now;
  }

  /** One call of a session; the verdict on a reap is always yes. */
  method OneCall(backend: Backend, call: Call,
    ghost accepted: seq<ReadRequest>, answers: seq<Completion>, ghost reaped: seq<ReadRequest>)
    returns (r: Outcome<bool>, answered: seq<Completion>, ghost now: seq<ReadRequest>, ghost done: seq<ReadRequest>)
    requires Balanced(backend, accepted, answers, reaped)
    requires call.Submit? ==> forall q :: q in call.wanted ==> q.length < TWO32
    modifies backend.Repr, Buffers(backend.flight)
    ensures r.Err? ==> backend.device.CallFails(r.error)
    ensures r.Ok? ==> Balanced(backend, now, answered, done)
    ensures r.Ok? ==> Steps(call, r.value, old(|backend.flight|), |backend.flight|, backend.depth)
    ensures r.Ok? ==> ReadsOf(now) == ReadsOf(accepted) + if call.Submit? && r.value then call.wanted else []
    ensures forall q :: q in now ==> q in accepted || fresh(q.dst)
  {
    hide Balanced, ReadsOf, Steps, Buffers;
    answered, now, done := answers, accepted, reaped;
    match call {
      case Submit(wanted) =>
        r, now := SubmitReads(backend, wanted, accepted, answers, reaped);
      case Reap(room, min) =>
        var got;
        got, done := ReapInto(backend, room, min, accepted, answers, reaped);
        if got.Err? {
          return Err(got.error), answers, accepted, reaped;
        }
        answered := got.value;
        r := Ok(true);
    }
  }

  /** Any sequence of submissions and reaps: what was accepted is what has been answered, each request
      once and with the file's bytes, and what is still in flight. A submission is accepted exactly when
      it fits what is in flight by then. */
  method Script(backend: Backend, calls: seq<Call>)
    returns (r: Outcome<()>, verdicts: seq<bool>, levels: seq<nat>, answers: seq<Completion>,
             ghost accepted: seq<ReadRequest>, ghost reaped: seq<ReadRequest>)
    requires backend.Valid() && backend.flight == []
    requires forall c :: c in calls && c.Submit? ==> forall q :: q in c.wanted ==> q.length < TWO32
    modifies backend.Repr
    ensures r.Err? ==> backend.device.CallFails(r.error)
    ensures r.Ok? ==> Traced(calls, verdicts, levels, backend.depth) && levels[|calls|] == |backend.flight|
    ensures r.Ok? ==> ReadsOf(accepted) == Accepted(calls, verdicts)
    ensures r.Ok? ==> Balanced(backend, accepted, answers, reaped)
    ensures forall q :: q in accepted ==> fresh(q.dst)
  {
    hide Balanced, ReadsOf, Accepted, Traced, Steps;
    verdicts, levels, answers, accepted, reaped := [], [0], [], [], [];
    NothingYet(backend);
    var i := 0;
    while i < |calls|
      invariant 0 <= i == |verdicts| <= |calls|
      invariant Balanced(backend, accepted, answers, reaped)
      invariant Traced(calls[..i], verdicts, levels, backend.depth)
      invariant |levels| == i + 1 && levels[i] == |backend.flight|
      invariant ReadsOf(accepted) == Accepted(calls[..i], verdicts)
      invariant forall q :: q in accepted ==> fresh(q.dst)
    {
      assert calls[i] in calls;
      BackendOwns(backend, accepted, answers, reaped);
      var got;
      got, answers, accepted, reaped := OneCall(backend, calls[i], accepted, answers, reaped);
      if got.Err? {
        return Err(got.error), verdicts, levels, answers, accepted, reaped;
      }
      AcceptedNext(calls, verdicts, got.value);
      TracedNext(calls, verdicts, levels, backend.depth, got.value, |backend.flight|);
      verdicts := verdicts + [got.value];
      FlightIsValid(backend, accepted, answers, reaped);
      levels := levels + [backend.InFlight()];
      i := i + 1;
    }
    assert calls[..i] == calls;
    r := Ok(());
  }

  /** Reaping one at a time until nothing is in flight: everything accepted has then been answered. */
  method DrainBackend(backend: Backend,
    ghost accepted: seq<ReadRequest>, answers: seq<Completion>, ghost reaped: seq<ReadRequest>)
    returns (r: Outcome<seq<Completion>>, ghost all: seq<ReadRequest>)
    requires Balanced(backend, accepted, answers, reaped)
    modifies backend.Repr, Buffers(backend.flight)
    ensures r.Err? ==> backend.device.CallFails(r.error)
    ensures r.Ok? ==> Balanced(backend, accepted, r.value, all) && multiset(accepted) == multiset(all)
  {
    hide OwnBuffers, Finished, Backend.Serves;
    var done := answers;
    all := reaped;
    ghost var buffers := Buffers(backend.flight);
    FlightIsValid(backend, accepted, done, all);
    var left := backend.InFlight();
    while left > 0
      invariant Balanced(backend, accepted, done, all) && left == |backend.flight|
      invariant Buffers(backend.flight) <= buffers
      decreases left
    {
      UringBackend.WaitBound(1, left);
      var got, more := ReapInto(backend, 1, 1, accepted, done, all);
      if got.Err? {
        return Err(got.error), all;
      }
      done, all := got.value, more;
      FlightIsValid(backend, accepted, done, all);
      left := backend.InFlight();
    }
    AllAnswered(backend, accepted, done, all);
    return Ok(done), all;
  }

  lemma {:induction false} NothingYet(backend: Backend)
    requires backend.Valid() && backend.flight == []
    ensures Balanced(backend, [], [], []) && ReadsOf([]) == Accepted([], [])
    ensures Traced([], [], [0], backend.depth)
  {
  }

  lemma {:induction false} FlightIsValid(
    backend: Backend, accepted: seq<ReadRequest>, answers: seq<Completion>, reaped: seq<ReadRequest>)
    requires Balanced(backend, accepted, answers, reaped)
    ensures backend.Valid()
  {
  }

  lemma {:induction false} AllAnswered(
    backend: Backend, accepted: seq<ReadRequest>, answers: seq<Completion>, reaped: seq<ReadRequest>)
    requires Balanced(backend, accepted, answers, reaped) && backend.flight == []
    ensures multiset(accepted) == multiset(reaped)
  {
  }
}
