/** Whole runs of reads: what a client sees of the stream does not depend on the schedule of the
    completions, on the read depth or on the segment size, and agrees with the synchronous reader. */
module StreamRuns {
  import opened Common
  import opened Shards
  import opened BackendContract
  import opened Tiling
  import opened Delivery
  import opened ShardStream
  import Pipeline
  import Backend
  import ShortReads
  import Align
  import FileIo
  import Reader

  /** What successive reads of the given sizes deliver from a stream of `total` bytes. */
  function Reads(total: seq<byte>, sizes: seq<nat>): (outputs: seq<seq<byte>>)
    ensures |outputs| == |sizes|
  {
    if sizes == [] then []
    else
      var n := Min(sizes[0], |total|);
      [total[..n]] + Reads(total[n..], sizes[1..])
  }

  function Join(parts: seq<seq<byte>>): seq<byte> {
    if parts == [] then [] else parts[0] + Join(parts[1..])
  }

  function Sum(sizes: seq<nat>): nat {
    if sizes == [] then 0 else sizes[0] + Sum(sizes[1..])
  }

  /** Reads of any sizes deliver, together, as much of the stream as they ask for. */
  lemma {:induction false} ReadsJoin(total: seq<byte>, sizes: seq<nat>)
    ensures Join(Reads(total, sizes)) == total[..Min(Sum(sizes), |total|)]
  {
    if sizes != [] {
      var n := Min(sizes[0], |total|);
      var m := Min(Sum(sizes[1..]), |total[n..]|);
      ReadsJoin(total[n..], sizes[1..]);
      JoinFront(total[..n], Reads(total[n..], sizes[1..]));
      TakeOn(total, n, m);
    }
  }

  lemma {:induction false} JoinFront(first: seq<byte>, rest: seq<seq<byte>>)
    ensures Join([first] + rest) == first + Join(rest)
  {
    assert ([first] + rest)[1..] == rest;
  }

  lemma {:induction false} TakeOn(s: seq<byte>, n: nat, m: nat)
    requires n <= |s| && m <= |s| - n
    ensures s[..n] + s[n..][..m] == s[..n + m]
    ensures s[..n] + s[n..] == s
  {
  }

  /** Batch-size independence: how a request is split into reads does not change the bytes. */
  lemma {:induction false} SplitReads(total: seq<byte>, sizes: seq<nat>, others: seq<nat>)
    requires Sum(sizes) == Sum(others)
    ensures Join(Reads(total, sizes)) == Join(Reads(total, others))
  {
    ReadsJoin(total, sizes);
    ReadsJoin(total, others);
  }

  /** A read that asks for something and delivers nothing is the end: everything was delivered before. */
  lemma {:induction false} EmptyReadIsEnd(total: seq<byte>, sizes: seq<nat>, i: nat)
    requires i < |sizes| && sizes[i] > 0 && Reads(total, sizes)[i] == []
    ensures Join(Reads(total, sizes)[..i]) == total
  {
    var n := Min(sizes[0], |total|);
    if i > 0 {
      var rest := Reads(total[n..], sizes[1..]);
      EmptyReadIsEnd(total[n..], sizes[1..], i - 1);
      assert Reads(total, sizes)[..i][1..] == rest[..i - 1];
      assert total[..n] + total[n..] == total;
    } else {
      assert |total| == 0;
    }
  }

  lemma {:induction false} JoinSnoc(parts: seq<seq<byte>>, last: seq<byte>)
    ensures Join(parts + [last]) == Join(parts) + last
  {
    if parts == [] {
      assert [last][1..] == [];
    } else {
      JoinSnoc(parts[1..], last);
      assert (parts + [last])[1..] == parts[1..] + [last];
    }
  }

  /** The first of the remaining reads takes the front of what remains. */
  lemma {:induction false} ReadsFront(outputs: seq<seq<byte>>, left: seq<byte>, sizes: seq<nat>, i: nat, got: seq<byte>, after: seq<byte>)
    requires i < |sizes| && left == got + after && |got| == Min(sizes[i], |left|)
    ensures outputs + Reads(left, sizes[i..]) == (outputs + [got]) + Reads(after, sizes[i + 1..])
  {
    assert sizes[i..][1..] == sizes[i + 1..];
    assert left[..|got|] == got && left[|got|..] == after;
  }

  /** Reads with output buffers of any sizes, one after the other: the outputs are those of the byte
      stream, and after a failure they are the first few of them. */
  method ReadSizes(stream: Stream, sizes: seq<nat>) returns (r: Outcome<()>, outputs: seq<seq<byte>>)
    requires stream.Valid() && stream.Idle()
    modifies stream.Repr
    ensures r.Ok? ==> stream.Valid() && stream.Idle() && outputs == Reads(old(stream.Remaining()), sizes)
    ensures r.Ok? ==> Join(outputs) + stream.Remaining() == old(stream.Remaining())
    ensures !stream.faults.any ==> (r.Ok? <==> Sum(sizes) <= |old(stream.Remaining())| || stream.AllReadable())
    ensures r.Err? ==> stream.Failure(r.error)
    ensures r.Err? ==> |outputs| < |sizes| && outputs == Reads(old(stream.Remaining()), sizes)[..|outputs|]
  {
    hide Stream.Valid, Stream.Remaining, Stream.Idle, Stream.AllReadable, Stream.Failure, Reads, Join, Sum;
    ghost var total := stream.Remaining();
    outputs := [];
    JoinNone();
    assert sizes[0..] == sizes;
    var i := 0;
    while i < |sizes|
      invariant 0 <= i == |outputs| <= |sizes|
      invariant stream.Valid() && stream.Idle() && fresh(stream.Repr - old(stream.Repr))
      invariant outputs + Reads(stream.Remaining(), sizes[i..]) == Reads(total, sizes)
      invariant Join(outputs) + stream.Remaining() == total
      invariant Sum(sizes[i..]) + |total| - |stream.Remaining()| <= Sum(sizes)
      invariant stream.AllReadable() || Sum(sizes[i..]) + |total| - |stream.Remaining()| == Sum(sizes)
    {
      ghost var left := stream.Remaining();
      SumFront(sizes, i);
      var out := new byte[sizes[i]];
      var got := stream.Read(out);
      if got.Err? {
        return Err(got.error), outputs;
      }
      ReadsFront(outputs, left, sizes, i, out[..got.value], stream.Remaining());
      JoinSnoc(outputs, out[..got.value]);
      outputs := outputs + [out[..got.value]];
      i := i + 1;
    }
    SumNone(sizes);
    return Ok(()), outputs;
  }

  lemma {:induction false} SumFront(sizes: seq<nat>, i: nat)
    requires i < |sizes|
    ensures Sum(sizes[i..]) == sizes[i] + Sum(sizes[i + 1..]) && Sum(sizes[i + 1..]) >= 0
  {
    assert sizes[i..][1..] == sizes[i + 1..];
  }

  lemma {:induction false} SumNone(sizes: seq<nat>)
    ensures Sum(sizes[|sizes|..]) == 0
  {
  }

  lemma {:induction false} JoinNone()
    ensures Join([]) == []
  {
  }

  // ----- how many reads are in flight -----

  /** A new stream opens its first shard and fills the pipeline: over a window that is long enough, half of
      the caller's `read_depth`, rounded up, is in flight, on a backend of that depth. */
  method FirstFill(stream: Stream) returns (r: Outcome<()>)
    requires stream.Valid() && stream.Idle() && !stream.open && stream.carrySize == 0
    requires stream.buffers == [] && stream.next < |stream.order|
    modifies stream.Repr
    ensures r.Ok? ==> stream.Valid() && stream.open
    ensures r.Ok? ==>
              var depth := if stream.options.readDepth == 0 then 1 else stream.options.readDepth;
              var shard := stream.shards[stream.order[stream.next]];
              && shard.path in stream.fs && stream.fs[shard.path].block > 0
              && stream.segment == SegmentSize(stream.options.segmentBytes, stream.options.batchBytes, stream.fs[shard.path].block)
              && stream.backend.depth == depth == |stream.buffers|
              && (shard.End() - shard.offset > ((depth + 1) / 2 - 1) * stream.segment ==>
                    |stream.backend.flight| == (depth + 1) / 2)
  {
    hide Pipeline.Chained, Pipeline.SlotsOwned, Pipeline.Tracks, Pipeline.DistinctBuffers, Pipeline.Abandoned,
      Stream.InOrder, Backend.Backend.Valid, Stream.AtShard, Readable, Pipeline.Position;
    r := stream.OpenShard();
    if r.Err? {
      return;
    }
    Pipeline.AllFree(stream.free);
    assert stream.pending == [];
    ghost var start := stream.nextOffset;
    Pipeline.NoEntries(start);
    r := stream.FillPipeline();
    if r.Err? {
      return;
    }
    stream.WindowEnds();
    FillRoundsFrom(0, 0, stream.readDepth);
    Pipeline.ChainReach(stream.pending, stream.nextOffset, stream.Geo());
    ghost var half := (stream.readDepth + 1) / 2;
    if |stream.pending| < half {
      Pipeline.SlotLeft(stream.pending, stream.free);
      MulUpTo(|stream.pending|, half - 1, stream.segment);
    }
  }

  lemma {:induction false} MulUpTo(a: nat, b: nat, n: nat)
    requires a <= b
    ensures a * n <= b * n
  {
  }

  // ----- draining -----

  /** The batches of a stream: all of `size` bytes but the last, which may be short. */
  function Batches(total: seq<byte>, size: nat): seq<seq<byte>>
    requires size > 0
  {
    if total == [] then []
    else
      var n := Min(size, |total|);
      [total[..n]] + Batches(total[n..], size)
  }

  /** Batches lose, repeat and reorder nothing. */
  lemma {:induction false} BatchesJoin(total: seq<byte>, size: nat)
    requires size > 0
    ensures Join(Batches(total, size)) == total
  {
    if total != [] {
      var n := Min(size, |total|);
      BatchesJoin(total[n..], size);
      JoinFront(total[..n], Batches(total[n..], size));
      TakeOn(total, n, 0);
    }
  }

  /** No batch is empty, and only the last one may be short. */
  lemma {:induction false} BatchesFull(total: seq<byte>, size: nat, i: nat)
    requires size > 0 && i < |Batches(total, size)|
    ensures 0 < |Batches(total, size)[i]| <= size
    ensures i + 1 < |Batches(total, size)| ==> |Batches(total, size)[i]| == size
  {
    var n := Min(size, |total|);
    var rest := Batches(total[n..], size);
    assert Batches(total, size) == [total[..n]] + rest;
    if i > 0 {
      BatchesFull(total[n..], size, i - 1);
    }
  }

  /** A stream of whole batches has no short one. */
  lemma {:induction false} WholeBatches(total: seq<byte>, size: nat)
    requires size > 0 && |total| % size == 0
    ensures forall i :: 0 <= i < |Batches(total, size)| ==> |Batches(total, size)[i]| == size
  {
    if total != [] {
      if |total| < size { Align.DivModUnique(|total|, size, 0, |total|); }
      Align.SelfMultiple(size);
      Align.DifferenceAligned(|total|, size, size);
      WholeBatches(total[size..], size);
      assert Batches(total, size) == [total[..size]] + Batches(total[size..], size);
    }
  }

  /** Whole batches at the front of a stream are also at the front of a longer one. */
  lemma {:induction false} BatchesOfLonger(total: seq<byte>, longer: seq<byte>, size: nat, parts: seq<seq<byte>>)
    requires size > 0 && total <= longer && parts <= Batches(total, size)
    requires forall i :: 0 <= i < |parts| ==> |parts[i]| == size
    ensures parts <= Batches(longer, size)
    decreases |parts|
  {
    if parts != [] {
      var n := Min(size, |total|);
      assert Batches(total, size)[0] == parts[0];
      assert longer[..size] == total[..size] && total[size..] <= longer[size..];
      assert parts[1..] <= Batches(total[size..], size);
      BatchesOfLonger(total[size..], longer[size..], size, parts[1..]);
      assert parts == [parts[0]] + parts[1..];
    }
  }

  lemma {:induction false} BatchesFront(left: seq<byte>, size: nat, got: seq<byte>, after: seq<byte>)
    requires size > 0 && left == got + after && |got| == Min(size, |left|)
    ensures got == [] <==> Batches(left, size) == []
    ensures got != [] ==> Batches(left, size) == [got] + Batches(after, size)
  {
    assert left[..|got|] == got && left[|got|..] == after;
  }

  /** The producer's reads: batches of one size until a read returns nothing. Without faults it succeeds
      exactly when every shard is readable, and has otherwise delivered every whole batch before the
      first unreadable shard. */
  method Drain(stream: Stream, size: nat) returns (r: Outcome<()>, batches: seq<seq<byte>>)
    requires stream.Valid() && stream.Idle() && size > 0
    modifies stream.Repr
    ensures r.Ok? ==> batches == Batches(old(stream.Remaining()), size)
    ensures r.Ok? ==> stream.AllReadable()
    ensures !stream.faults.any ==> (r.Ok? <==> stream.AllReadable())
    ensures r.Err? ==> stream.Failure(r.error)
    ensures batches <= Batches(old(stream.Remaining()), size)
    ensures Join(batches) <= old(stream.Remaining())
    ensures !stream.faults.any ==> |old(stream.Remaining())| < |Join(batches)| + size
  {
    hide Stream.Valid, Stream.Remaining, Stream.Idle, Stream.AllReadable, Stream.Failure, Batches, Join;
    ghost var total := stream.Remaining();
    batches := [];
    JoinNone();
    while true
      invariant stream.Valid() && stream.Idle() && fresh(stream.Repr - old(stream.Repr))
      invariant batches + Batches(stream.Remaining(), size) == Batches(total, size)
      invariant Join(batches) + stream.Remaining() == total
      decreases |stream.Remaining()|
    {
      ghost var left := stream.Remaining();
      var out := new byte[size];
      var got := stream.Read(out);
      if got.Err? {
        return Err(got.error), batches;
      }
      BatchesFront(left, size, out[..got.value], stream.Remaining());
      JoinSnoc(batches, out[..got.value]);
      if got.value == 0 {
        return Ok(()), batches;
      }
      batches := batches + [out[..got.value]];
    }
  }

  // ----- the synchronous reader -----

  /** The asynchronous stream over one shard: what its requests deliver, which is its window exactly when
      no read is cut short inside the file. A window that holds bytes and does not start at a whole sector
      is refused. */
  method StreamWindow(fs: FileSystem, shard: Shard, options: BatchOptions, size: nat, cuts: Cuts, faults: Faults)
    returns (r: Outcome<seq<byte>>)
    requires Supported(fs, options) && shard.path in fs && size > 0
    ensures r.Ok? ==> r.value == Served(fs, shard, options, cuts)
    ensures r.Err? ==> ReadFailure(fs, [shard], [0], faults, r.error)
    ensures r.Ok? ==> (r.value == Window(fs, shard) <==> ShortReads.ShardNeverShort(fs, shard, options, cuts))
    ensures !faults.any ==> (r.Ok? <==> Readable(fs, shard))
    ensures !faults.any && r.Err? ==> r == Err(ReadFailed(EINVAL))
  {
    hide Stream.Valid, Stream.Remaining, Stream.Idle, Stream.Failure, Batches, Join, Streamed, Window, Served, Supported, Readable;
    var stream := new Stream(fs, [shard], [0], options, [cuts], faults);
    OneServed(fs, shard, options, cuts);
    ShortReads.ServedExactly(fs, shard, options, cuts);
    ghost var total := stream.Remaining();
    var drained, batches := Drain(stream, size);
    BatchesJoin(total, size);
    OneShard(stream, shard);
    r := if drained.Ok? then Ok(Join(batches)) else Err(drained.error);
  }

  lemma {:induction false} OneServed(fs: FileSystem, shard: Shard, options: BatchOptions, cuts: Cuts)
    requires Supported(fs, options) && shard.path in fs
    ensures Readable(fs, shard) ==> Streamed(fs, [shard], [0], options, [cuts], 0) == Served(fs, shard, options, cuts)
  {
    hide Served, Readable;
    assert [shard][[0][0]] == shard && CutsAt([cuts], 0) == cuts;
    assert Streamed(fs, [shard], [0], options, [cuts], 1) == [];
  }

  lemma {:induction false} OneWindow(fs: FileSystem, shard: Shard)
    ensures Windows(fs, [shard], [0]) == Window(fs, shard)
  {
    assert [0][1..] == [];
  }

  /** The asynchronous stream over one shard and the synchronous reader over the same window: they deliver
      the same bytes, the window as far as the file reaches, exactly when no read of the stream is cut
      short inside the file and the window's end does not wrap. The reader tolerates both. Both refuse a
      misaligned window: the stream when it holds bytes and does not start at a whole sector, the reader
      when it does not start at a whole block. */
  method FastAgreesWithSimple(
    file: FileIo.File, path: string, offset: u64, length: u64, options: BatchOptions, size: nat, cuts: Cuts, faults: Faults)
    returns (fast: Outcome<seq<byte>>, simple: Outcome<seq<byte>>)
    requires file.isOpen && file.alignment > 0 && size > 0
    requires Supported(map[path := FileImage(file.contents, file.alignment, file.sector)], options)
    ensures var fs, shard := map[path := FileImage(file.contents, file.alignment, file.sector)], Shard(path, offset, length);
            var whole := Slice(file.contents, offset, offset + length);
            && (fast.Ok? && simple.Ok? ==>
                  (fast.value == simple.value <==>
                    && ShortReads.ShardNeverShort(fs, shard, options, cuts)
                    && (offset + length < TWO64 || whole == [])))
            && (simple.Ok? ==> simple.value == whole)
            && (!faults.any ==>
                  && (fast.Ok? <==> offset % file.sector == 0 || whole == [] || offset + length >= TWO64)
                  && (fast.Err? ==> fast == Err(ReadFailed(EINVAL))))
            && (!file.faulty ==>
                  && (simple.Ok? <==> offset % file.alignment == 0 && offset <= |file.contents|))
  {
    hide Slice, ShortReads.ShardNeverShort, Served;
    var fs := map[path := FileImage(file.contents, file.alignment, file.sector)];
    var shard := Shard(path, offset, length);
    assert path in fs && fs[path].block % fs[path].sector == 0;
    WindowRange(fs, shard);
    if offset + length >= TWO64 {
      ShortReads.WrappedNeverShort(fs, shard, options, cuts);
    }
    fast := StreamWindow(fs, shard, options, size, cuts, faults);
    var window := Reader.OpenWindow(map[path := file], path, offset, length, file.faulty);
    if window.Err? {
      return fast, Err(window.error);
    }
    var chunks;
    simple, chunks := window.value.ReadAll();
  }

  lemma {:induction false} OneShard(stream: Stream, shard: Shard)
    requires stream.shards == [shard] && stream.order == [0]
    ensures stream.AllReadable() <==> Readable(stream.fs, shard)
    ensures forall e :: stream.Failure(e) ==> ReadFailure(stream.fs, [shard], [0], stream.faults, e)
    ensures shard.path in stream.fs && !stream.faults.any ==> forall e :: stream.Failure(e) ==> e == ReadFailed(EINVAL)
  {
    assert stream.order[0] == 0;
  }

  // ----- a short read -----

  /** Two blocks are asked for at once and the kernel returns the first: without any error, the stream
      ends one block short. */
  method ShortReadLosesABlock(bytes: seq<byte>) returns (r: Outcome<()>, batches: seq<seq<byte>>)
    requires |bytes| == 8192
    ensures r.Ok? && Join(batches) == bytes[..4096] != Windows(map["f" := FileImage(bytes, 4096, 512)], [Shard("f", 0, 8192)], [0])
  {
    hide Stream.Valid, Stream.Remaining, Stream.Idle, Batches, Join, Slice, Windows, Streamed;
    var fs := map["f" := FileImage(bytes, 4096, 512)];
    var shard, options := Shard("f", 0, 8192), BatchOptions(8192, 1, 1, 8192);
    var cut: Cuts := map[0 := 4096];
    assert "f" in fs;
    var stream := new Stream(fs, [shard], [0], options, [cut], Faults(false, false, false, {}, []));
    CutStream(fs, shard, options, cut, bytes);
    OneWindow(fs, shard);
    WindowRange(fs, shard);
    OneShard(stream, shard);
    ghost var total := stream.Remaining();
    r, batches := Drain(stream, 8192);
    BatchesJoin(total, 8192);
  }

  lemma {:induction false} CutStream(fs: FileSystem, shard: Shard, options: BatchOptions, cut: Cuts, bytes: seq<byte>)
    requires |bytes| == 8192 && fs == map["f" := FileImage(bytes, 4096, 512)] && shard == Shard("f", 0, 8192)
    requires options == BatchOptions(8192, 1, 1, 8192) && cut == map[0 := 4096]
    ensures Supported(fs, options) && Readable(fs, shard)
    ensures Streamed(fs, [shard], [0], options, [cut], 0) == bytes[..4096]
    ensures Slice(bytes, 0, 8192) == bytes
  {
    var g := GeometryOf(fs["f"], shard, options);
    assert g == Geometry(8192, 8192, 4096);
    EmitsItsTile(bytes, cut, 0, g);
    assert RequestLength(0, g) == 8192 && Advance(0, g) == 8192;
    assert Streamed(fs, [shard], [0], options, [cut], 1) == [];
  }
}
