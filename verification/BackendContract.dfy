/** include/dsio/backend.hpp: the requests, the completions, and what a finished read means. */
module BackendContract {
  import opened Common

  /** One read: `dst` is the first `length` bytes of its buffer; `token` comes back with the completion. */
  datatype ReadRequest = ReadRequest(offset: nat, dst: array<byte>, length: nat, token: nat)

  datatype Completion = Completion(token: nat, bytes: nat, error: int)

  /** How many of `length` bytes a file of `size` bytes holds at `offset`. */
  function Available(size: nat, offset: nat, length: nat): nat {
    if offset < size then Min(length, size - offset) else 0
  }

  /** Where the kernel will cut transfers short: a read at `offset` returns at most `cuts[offset]` bytes.
      Any finite run in which no offset is read twice, such as that of an open shard, is described by one
      such map; the empty map is the kernel that is short only at end of file. */
  type Cuts = map<nat, pos>

  /** How many bytes a read returns: nothing only where the file holds nothing. */
  function Given(size: nat, cuts: Cuts, offset: nat, length: nat): (n: nat)
    ensures n <= Available(size, offset, length)
    ensures n == 0 <==> Available(size, offset, length) == 0
  {
    var most := Available(size, offset, length);
    if offset in cuts then Min(most, cuts[offset]) else most
  }

  /** Where a file of `size` bytes holds bytes, a direct read must be whole sectors; at and past its end
      there is nothing to transfer, whatever the alignment. */
  predicate Takes(size: nat, sector: pos, offset: nat, length: nat) {
    Available(size, offset, length) == 0 || (offset % sector == 0 && length % sector == 0)
  }

  /** The errno with which a read at an offset fails, when it fails. */
  type Errors = map<nat, pos>

  /** An open file as the kernel serves it: its bytes, the multiple that direct reads must keep to (1 for
      a buffered file), where transfers are cut short, and, if operations on it may fail at all, the
      errnos of failing reads and those that calls into the ring may return. */
  datatype Device = Device(bytes: seq<byte>, sector: pos, cuts: Cuts, errors: Errors, calls: set<pos>, faulty: bool) {
    /** A read at `offset` may fail with `errno`. */
    predicate ReadFails(offset: nat, errno: int) {
      faulty && offset in errors && errors[offset] == errno
    }

    /** A call into the ring may fail with this error. */
    predicate CallFails(error: Error) {
      faulty && error.Io? && exists e :: e in calls && error.errno == e
    }

    predicate Accepts(offset: nat, length: nat) {
      Takes(|bytes|, sector, offset, length)
    }
  }

  /** `c` is an answer to `r`: the file's bytes are in the buffer, as many as the kernel gives; or
      EINVAL for a misaligned read; or the device's errno for this offset, if it may fail. */
  ghost predicate Finished(c: Completion, r: ReadRequest, device: Device)
    reads r.dst
  {
    && c.token == r.token
    && (if c.error == 0 then
          && device.Accepts(r.offset, r.length)
          && c.bytes == Given(|device.bytes|, device.cuts, r.offset, r.length)
          && c.bytes <= r.dst.Length
          && r.dst[..c.bytes] == Slice(device.bytes, r.offset, r.offset + c.bytes)
        else
          && c.bytes == 0
          && (device.ReadFails(r.offset, c.error) || (c.error == EINVAL && !device.Accepts(r.offset, r.length))))
  }

  lemma {:induction false} FinishedToken(c: Completion, r: ReadRequest, device: Device)
    requires Finished(c, r, device)
    ensures c.token == r.token
    ensures c.error != 0 ==>
              device.ReadFails(r.offset, c.error) || (c.error == EINVAL && !device.Accepts(r.offset, r.length))
  {
  }

  ghost predicate Fit(requests: seq<ReadRequest>) {
    forall r :: r in requests ==> r.length <= r.dst.Length
  }

  /** Each in-flight request needs its own buffer (docs/usage.md:260-261). */
  ghost predicate OwnBuffers(requests: seq<ReadRequest>) {
    forall i, j :: 0 <= i < |requests| && 0 <= j < |requests| && i != j ==> requests[i].dst != requests[j].dst
  }

  ghost function Buffers(requests: seq<ReadRequest>): set<array<byte>> {
    set r | r in requests :: r.dst
  }

  /** No read in flight may still write the buffers of `reaped`. */
  ghost predicate Apart(reaped: seq<ReadRequest>, flight: seq<ReadRequest>) {
    forall r :: r in reaped ==> r.dst !in Buffers(flight)
  }

  /** `s` with its element `i` taken out. */
  function Without<T>(s: seq<T>, i: nat): (r: seq<T>)
    requires i < |s|
    ensures |r| == |s| - 1
    ensures multiset(r) + multiset{s[i]} == multiset(s)
    ensures forall x :: x in r ==> x in s
  {
    assert s == s[..i] + [s[i]] + s[i + 1..];
    s[..i] + s[i + 1..]
  }

  lemma {:induction false} Cancel<T>(a: multiset<T>, b: multiset<T>, x: T)
    requires a + multiset{x} == b + multiset{x}
    ensures a == b
  {
    assert a == a + multiset{x} - multiset{x};
    assert b == b + multiset{x} - multiset{x};
  }

  /** Taking a request out of the flight frees its buffer. */
  lemma {:induction false} TakeOut(flight: seq<ReadRequest>, i: nat)
    requires i < |flight| && OwnBuffers(flight)
    ensures OwnBuffers(Without(flight, i))
    ensures Apart([flight[i]], Without(flight, i))
  {
    var rest := Without(flight, i);
    var from := k requires 0 <= k < |rest| => if k < i then k else k + 1;
    assert forall k :: 0 <= k < |rest| ==> rest[k] == flight[from(k)];
    forall j, k | 0 <= j < |rest| && 0 <= k < |rest| && j != k ensures rest[j].dst != rest[k].dst {
      assert flight[from(j)].dst != flight[from(k)].dst;
    }
    forall r | r in rest ensures r.dst != flight[i].dst {
      var k :| 0 <= k < |rest| && rest[k] == r;
      assert flight[from(k)].dst != flight[i].dst;
    }
  }

  /** Two parts of one flight share no buffer. */
  lemma {:induction false} PartsApart(flight: seq<ReadRequest>, a: seq<ReadRequest>, b: seq<ReadRequest>)
    requires OwnBuffers(flight) && multiset(a) + multiset(b) <= multiset(flight)
    ensures Apart(a, b)
  {
    forall r, q | r in a && q in b ensures r.dst != q.dst {
      assert r in multiset(a) && q in multiset(b);
      assert r in multiset(flight) && q in multiset(flight);
      var i :| 0 <= i < |flight| && flight[i] == r;
      var rest := Without(flight, i);
      assert multiset(rest)[q] > 0;
      assert q in rest;
      TakeOut(flight, i);
    }
  }

  /** Conservation: `taken` and `after` are exactly `before`, and nothing in flight can still write
      the buffers of what was taken. */
  ghost predicate Leaves(before: seq<ReadRequest>, taken: seq<ReadRequest>, after: seq<ReadRequest>) {
    && multiset(after) + multiset(taken) == multiset(before)
    && |after| + |taken| == |before|
    && Apart(taken, after)
    && Buffers(after) <= Buffers(before)
  }

  lemma {:induction false} LeavesNothing(flight: seq<ReadRequest>)
    ensures Leaves(flight, [], flight)
  {
  }

  lemma {:induction false} LeavesBuffers(before: seq<ReadRequest>, taken: seq<ReadRequest>, after: seq<ReadRequest>)
    requires Leaves(before, taken, after)
    ensures Buffers(after) <= Buffers(before) && |after| + |taken| == |before|
  {
  }

  /** Reads still in flight write no buffer of a reaped request, and only buffers that were in flight. */
  lemma {:induction false} UntouchedWhileInFlight(
    before: seq<ReadRequest>, reaped: seq<ReadRequest>, flight: seq<ReadRequest>)
    requires Leaves(before, reaped, flight)
    ensures forall i :: 0 <= i < |reaped| ==> reaped[i].dst !in Buffers(flight)
    ensures Buffers(flight) <= Buffers(before)
  {
  }

  lemma {:induction false} LeavesThen(
    a: seq<ReadRequest>, taken: seq<ReadRequest>, b: seq<ReadRequest>, more: seq<ReadRequest>, c: seq<ReadRequest>)
    requires Leaves(a, taken, b) && Leaves(b, more, c)
    ensures Leaves(a, taken + more, c)
  {
  }

  lemma {:induction false} LeavesOne(flight: seq<ReadRequest>, i: nat)
    requires i < |flight| && OwnBuffers(flight)
    ensures Leaves(flight, [flight[i]], Without(flight, i))
  {
    TakeOut(flight, i);
  }
}
