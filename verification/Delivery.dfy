/** What a shard set delivers as a stream: each readable shard what its requests deliver, one after the
    other, up to the first shard that cannot be read. */
module Delivery {
  import opened Common
  import opened Shards
  import opened BackendContract
  import opened Tiling
  import Align

  /** What the reads of the files need: a segment holds a block of every file and stays below the ring's
      32-bit length, and a block is whole sectors. */
  ghost predicate Supported(fs: FileSystem, options: BatchOptions) {
    && options.segmentBytes < TWO32
    && forall path :: path in fs ==>
         && fs[path].block > 0
         && fs[path].block % fs[path].sector == 0
         && if options.segmentBytes == 0 then fs[path].block <= SEGMENT_CAP
            else fs[path].block <= options.segmentBytes
  }

  /** The window and the buffers of an open shard. */
  function GeometryOf(file: FileImage, shard: Shard, options: BatchOptions): Geometry
    requires file.block > 0
  {
    Geometry(shard.End(), SegmentSize(options.segmentBytes, options.batchBytes, file.block), file.block)
  }

  lemma {:induction false} GeometryIsSound(fs: FileSystem, shard: Shard, options: BatchOptions)
    requires Supported(fs, options) && shard.path in fs
    ensures GeometryOf(fs[shard.path], shard, options).Sound()
    ensures GeometryOf(fs[shard.path], shard, options).segment < TWO32
    ensures fs[shard.path].block % fs[shard.path].sector == 0
  {
    SegmentFits(options.segmentBytes, options.batchBytes, fs[shard.path].block, shard.End());
    SegmentBelow(options.segmentBytes, options.batchBytes, fs[shard.path].block);
  }

  /** The shard's file can be opened, and if its window holds any bytes, it starts at a whole sector. */
  predicate Readable(fs: FileSystem, shard: Shard) {
    && shard.path in fs
    && (Window(fs, shard) != [] ==> shard.offset % fs[shard.path].sector == 0)
  }

  lemma {:induction false} MissingIsUnreadable(fs: FileSystem, shard: Shard)
    requires shard.path !in fs
    ensures !Readable(fs, shard)
  {
  }

  /** Where the kernel cuts the reads of the shard at position `i` of the order. */
  function CutsAt(cuts: seq<Cuts>, i: nat): Cuts {
    if i < |cuts| then cuts[i] else map[]
  }

  /** What may go wrong: whether anything may; whether allocations or opening a backend may fail; the errnos
      that calls into the ring may return; and, for each position of the order, those of reads of that shard. */
  datatype Faults = Faults(any: bool, memory: bool, backends: bool, calls: set<pos>, errors: seq<Errors>) {
    function ErrorsAt(i: nat): Errors {
      if i < |errors| then errors[i] else map[]
    }
  }

  /** A file as the kernel serves it while the shard at position `i` is open. */
  function DeviceAt(file: FileImage, cuts: seq<Cuts>, faults: Faults, i: nat): Device {
    Device(file.bytes, file.sector, CutsAt(cuts, i), faults.ErrorsAt(i), faults.calls, faults.any)
  }

  /** `errno` is what the kernel may answer to a request inside this shard's window. */
  ghost predicate ReadErrno(fs: FileSystem, shard: Shard, errors: Errors, errno: int)
  {
    && shard.path in fs && fs[shard.path].block > 0
    && exists offset :: offset in errors && errors[offset] == errno
         && offset < shard.End() && OnGrid(offset, shard.offset, fs[shard.path].block)
  }

  /** What the requests of a shard deliver. */
  function Served(fs: FileSystem, shard: Shard, options: BatchOptions, cuts: Cuts): seq<byte>
    requires Supported(fs, options) && shard.path in fs
  {
    GeometryIsSound(fs, shard, options);
    Emitted(fs[shard.path].bytes, cuts, shard.offset, GeometryOf(fs[shard.path], shard, options))
  }

  /** What the shards from position `next` of the order on deliver. */
  function Streamed(
    fs: FileSystem, shards: seq<Shard>, order: seq<nat>, options: BatchOptions, cuts: seq<Cuts>, next: nat): seq<byte>
    requires Supported(fs, options)
    requires forall i :: 0 <= i < |order| ==> order[i] < |shards|
    decreases |order| - next
  {
    if next >= |order| || !Readable(fs, shards[order[next]]) then []
    else
      Served(fs, shards[order[next]], options, CutsAt(cuts, next)) +
      Streamed(fs, shards, order, options, cuts, next + 1)
  }

  /** The position of the first shard, from `next` on, that cannot be read. */
  ghost function FirstUnreadable(fs: FileSystem, shards: seq<Shard>, order: seq<nat>, next: nat): (k: nat)
    requires forall i :: 0 <= i < |order| ==> order[i] < |shards|
    requires next <= |order|
    ensures next <= k <= |order|
    ensures forall i :: next <= i < k ==> Readable(fs, shards[order[i]])
    ensures k < |order| ==> !Readable(fs, shards[order[k]])
    decreases |order| - next
  {
    if next < |order| && Readable(fs, shards[order[next]]) then FirstUnreadable(fs, shards, order, next + 1) else next
  }

  lemma {:induction false} FirstIs(fs: FileSystem, shards: seq<Shard>, order: seq<nat>, k: nat)
    requires forall i :: 0 <= i < |order| ==> order[i] < |shards|
    requires k < |order| && !Readable(fs, shards[order[k]])
    requires forall i :: 0 <= i < k ==> Readable(fs, shards[order[i]])
    ensures FirstUnreadable(fs, shards, order, 0) == k
  {
    hide Readable, FirstUnreadable;
  }

  /** The failure that an unreadable shard causes: its file is missing, or its window is misaligned. */
  function Cause(fs: FileSystem, shard: Shard): Error {
    if shard.path in fs then ReadFailed(EINVAL) else OpenFailed(shard.path)
  }

  /** A position in a shard's window: a whole number of blocks from its start, and past the start only
      if the shard is readable. */
  ghost predicate OnCourse(position: nat, fs: FileSystem, shard: Shard, g: Geometry)
    requires g.block > 0
  {
    && position >= shard.offset
    && (position < g.end ==> OnGrid(position, shard.offset, g.block))
    && (position == shard.offset || Readable(fs, shard))
  }

  lemma {:induction false} CourseStart(fs: FileSystem, shard: Shard, g: Geometry)
    requires g.block > 0
    ensures OnCourse(shard.offset, fs, shard, g)
  {
  }

  lemma {:induction false} CourseAdvance(position: nat, fs: FileSystem, shard: Shard, g: Geometry)
    requires g.Sound() && position < g.end && OnCourse(position, fs, shard, g) && Readable(fs, shard)
    ensures OnCourse(Advance(position, g), fs, shard, g)
  {
    hide Readable, OnGrid, Advance;
    GridAdvance(position, shard.offset, g);
  }

  /** A read that was accepted anywhere in the window shows that the shard is readable. */
  lemma {:induction false} AcceptedIsReadable(position: nat, fs: FileSystem, shard: Shard, g: Geometry, device: Device)
    requires g.Sound() && position < g.end && OnCourse(position, fs, shard, g) && shard.path in fs
    requires device.bytes == fs[shard.path].bytes && device.sector == fs[shard.path].sector
    requires device.Accepts(position, RequestLength(position, g))
    ensures Readable(fs, shard)
  {
  }

  /** A window that is used up belongs to a readable shard. */
  lemma {:induction false} ExhaustedIsReadable(position: nat, fs: FileSystem, shard: Shard, g: Geometry)
    requires g.block > 0 && g.end == shard.End() <= position && OnCourse(position, fs, shard, g) && shard.path in fs
    ensures Readable(fs, shard)
  {
  }

  /** A request refused for its alignment shows that the shard is not readable. */
  lemma {:induction false} RefusedIsUnreadable(offset: nat, fs: FileSystem, shard: Shard, g: Geometry, device: Device)
    requires g.Sound() && g.end == shard.End() && offset < g.end && OnGrid(offset, shard.offset, g.block)
    requires shard.path in fs && device.bytes == fs[shard.path].bytes && device.sector == fs[shard.path].sector
    requires g.block % device.sector == 0
    requires !device.Accepts(offset, RequestLength(offset, g))
    ensures !Readable(fs, shard)
  {
    Align.MultipleOfMultiple(RequestLength(offset, g), g.block, device.sector);
    GridAligned(offset, shard.offset, g.block, device.sector);
    assert |Window(fs, shard)| > 0;
  }
}
