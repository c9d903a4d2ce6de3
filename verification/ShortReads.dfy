/** When what the stream delivers is what the files hold. `ShardStream` never asks again for the missing
    part of a short read (src/dataset.cpp:233-235), so the answer is: exactly when the kernel cuts no
    read short inside a file. */
module ShortReads {
  import opened Common
  import opened Shards
  import opened BackendContract
  import opened Tiling
  import opened Delivery

  // ----- one window -----

  /** Every request from `next` on brings all that the file and the window hold for it. */
  ghost predicate NeverShort(size: nat, cuts: Cuts, next: nat, g: Geometry)
    requires g.Sound()
    decreases g.end - next
  {
    next < g.end ==>
      && Delivered(next, g, size, cuts) == Delivered(next, g, size, map[])
      && NeverShort(size, cuts, Advance(next, g), g)
  }

  /** Past the end of the file there is nothing to cut. */
  lemma {:induction false} NothingToCut(size: nat, cuts: Cuts, next: nat, g: Geometry)
    requires g.Sound() && next >= size
    ensures NeverShort(size, cuts, next, g)
    decreases g.end - next
  {
    if next < g.end {
      NothingToCut(size, cuts, Advance(next, g), g);
    }
  }

  lemma {:induction false} NoCutsNeverShort(size: nat, next: nat, g: Geometry)
    requires g.Sound()
    ensures NeverShort(size, map[], next, g)
    decreases g.end - next
  {
    if next < g.end {
      NoCutsNeverShort(size, Advance(next, g), g);
    }
  }

  lemma {:induction false} EmittedLength(image: seq<byte>, cuts: Cuts, next: nat, g: Geometry)
    requires g.Sound()
    ensures |Emitted(image, cuts, next, g)| <= |Slice(image, next, g.end)|
    ensures |Emitted(image, cuts, next, g)| == |Slice(image, next, g.end)| <==> NeverShort(|image|, cuts, next, g)
    decreases g.end - next
  {
    hide Delivered, Advance, Slice;
    if next >= |image| {
      NothingToCut(|image|, cuts, next, g);
    } else if next < g.end {
      EmitsItsTile(image, cuts, next, g);
      DeliversItsTile(image, cuts, next, g);
      EmittedLength(image, cuts, Advance(next, g), g);
    }
  }

  lemma {:induction false} EmittedWhole(image: seq<byte>, cuts: Cuts, next: nat, g: Geometry)
    requires g.Sound() && NeverShort(|image|, cuts, next, g)
    ensures Emitted(image, cuts, next, g) == Slice(image, next, g.end)
    decreases g.end - next
  {
    hide Delivered, Advance, Slice;
    if next < g.end && next < |image| {
      DeliversItsTile(image, cuts, next, g);
      EmittedWhole(image, cuts, Advance(next, g), g);
    }
  }

  /** A window is delivered whole exactly when no completion was short inside the file. */
  lemma {:induction false} WindowExactly(image: seq<byte>, cuts: Cuts, next: nat, g: Geometry)
    requires g.Sound()
    ensures Emitted(image, cuts, next, g) == Slice(image, next, g.end) <==> NeverShort(|image|, cuts, next, g)
  {
    EmittedLength(image, cuts, next, g);
    if NeverShort(|image|, cuts, next, g) {
      EmittedWhole(image, cuts, next, g);
    }
  }

  // ----- the whole stream -----

  /** No read of this shard's window is cut short inside the file. */
  ghost predicate ShardNeverShort(fs: FileSystem, shard: Shard, options: BatchOptions, cuts: Cuts)
    requires Supported(fs, options) && shard.path in fs
  {
    GeometryIsSound(fs, shard, options);
    NeverShort(|fs[shard.path].bytes|, cuts, shard.offset, GeometryOf(fs[shard.path], shard, options))
  }

  /** A window whose end wraps asks for nothing. */
  lemma {:induction false} WrappedNeverShort(fs: FileSystem, shard: Shard, options: BatchOptions, cuts: Cuts)
    requires Supported(fs, options) && shard.path in fs && shard.offset + shard.length >= TWO64
    ensures ShardNeverShort(fs, shard, options, cuts)
  {
  }

  lemma {:induction false} ServedExactly(fs: FileSystem, shard: Shard, options: BatchOptions, cuts: Cuts)
    requires Supported(fs, options) && shard.path in fs
    ensures |Served(fs, shard, options, cuts)| <= |Window(fs, shard)|
    ensures |Served(fs, shard, options, cuts)| == |Window(fs, shard)| <==> ShardNeverShort(fs, shard, options, cuts)
    ensures Served(fs, shard, options, cuts) == Window(fs, shard) <==> ShardNeverShort(fs, shard, options, cuts)
  {
    hide Supported, Emitted, NeverShort, Slice, SegmentSize;
    GeometryIsSound(fs, shard, options);
    var g := GeometryOf(fs[shard.path], shard, options);
    EmittedLength(fs[shard.path].bytes, cuts, shard.offset, g);
    WindowExactly(fs[shard.path].bytes, cuts, shard.offset, g);
  }

  lemma {:induction false} StreamedExactly(
    fs: FileSystem, shards: seq<Shard>, order: seq<nat>, options: BatchOptions, cuts: seq<Cuts>, next: nat)
    requires Supported(fs, options)
    requires forall i :: 0 <= i < |order| ==> order[i] < |shards|
    requires next <= |order|
    ensures var k := FirstUnreadable(fs, shards, order, next);
            var streamed, windows := Streamed(fs, shards, order, options, cuts, next), Windows(fs, shards, order[next..k]);
            && |streamed| <= |windows|
            && (|streamed| == |windows| <==>
                  forall i :: next <= i < k ==> ShardNeverShort(fs, shards[order[i]], options, CutsAt(cuts, i)))
            && (|streamed| == |windows| ==> streamed == windows)
    decreases |order| - next
  {
    hide Supported, Readable, Served, Window, ShardNeverShort, CutsAt;
    var k := FirstUnreadable(fs, shards, order, next);
    if next < k {
      var shard := shards[order[next]];
      if shard.path !in fs { MissingIsUnreadable(fs, shard); }
      ServedExactly(fs, shard, options, CutsAt(cuts, next));
      StreamedExactly(fs, shards, order, options, cuts, next + 1);
      assert order[next..k][0] == order[next] && order[next..k][1..] == order[next + 1..k];
    }
  }

  /** The stream delivers the windows of the shards up to the first unreadable one if and only if no
      read of theirs is cut short inside its file. */
  lemma {:induction false} ExactlyWithoutShortReads(
    fs: FileSystem, shards: seq<Shard>, order: seq<nat>, options: BatchOptions, cuts: seq<Cuts>)
    requires Supported(fs, options)
    requires forall i :: 0 <= i < |order| ==> order[i] < |shards|
    ensures var k := FirstUnreadable(fs, shards, order, 0);
            (Streamed(fs, shards, order, options, cuts, 0) == Windows(fs, shards, order[..k]) <==>
              KernelNeverShort(fs, shards, order, options, cuts))
  {
    hide Supported, Readable, Served, ShardNeverShort, Streamed, Windows;
    StreamedExactly(fs, shards, order, options, cuts, 0);
    var k := FirstUnreadable(fs, shards, order, 0);
    assert order[0..k] == order[..k];
  }

  /** The kernel cuts no read short inside a file, up to the first unreadable shard. */
  ghost predicate KernelNeverShort(
    fs: FileSystem, shards: seq<Shard>, order: seq<nat>, options: BatchOptions, cuts: seq<Cuts>)
    requires Supported(fs, options)
    requires forall i :: 0 <= i < |order| ==> order[i] < |shards|
  {
    forall i :: 0 <= i < FirstUnreadable(fs, shards, order, 0) ==>
      ShardNeverShort(fs, shards[order[i]], options, CutsAt(cuts, i))
  }

  /** Then the stream is a prefix of all the windows, and all of them when every shard is readable. */
  lemma {:induction false} WholeStream(
    fs: FileSystem, shards: seq<Shard>, order: seq<nat>, options: BatchOptions, cuts: seq<Cuts>)
    requires Supported(fs, options)
    requires forall i :: 0 <= i < |order| ==> order[i] < |shards|
    requires KernelNeverShort(fs, shards, order, options, cuts)
    ensures Streamed(fs, shards, order, options, cuts, 0) <= Windows(fs, shards, order)
    ensures (forall i :: 0 <= i < |order| ==> Readable(fs, shards[order[i]])) ==>
              Streamed(fs, shards, order, options, cuts, 0) == Windows(fs, shards, order)
  {
    hide Supported, Readable, Windows, Streamed, FirstUnreadable, ShardNeverShort;
    var k := FirstUnreadable(fs, shards, order, 0);
    ExactlyWithoutShortReads(fs, shards, order, options, cuts);
    WindowsSplit(fs, shards, order[..k], order[k..]);
    assert order == order[..k] + order[k..];
    assert k == |order| ==> order[..k] == order;
  }

  lemma {:induction false} UncutShard(fs: FileSystem, shard: Shard, options: BatchOptions)
    requires Supported(fs, options) && Readable(fs, shard)
    ensures shard.path in fs && ShardNeverShort(fs, shard, options, CutsAt([], 0))
  {
    GeometryIsSound(fs, shard, options);
    NoCutsNeverShort(|fs[shard.path].bytes|, shard.offset, GeometryOf(fs[shard.path], shard, options));
  }

  /** A kernel without cuts is short only at end of file. */
  lemma {:induction false} UncutStream(fs: FileSystem, shards: seq<Shard>, order: seq<nat>, options: BatchOptions)
    requires Supported(fs, options)
    requires forall i :: 0 <= i < |order| ==> order[i] < |shards|
    ensures KernelNeverShort(fs, shards, order, options, [])
  {
    hide Supported, Readable, ShardNeverShort, FirstUnreadable;
    forall i | 0 <= i < FirstUnreadable(fs, shards, order, 0)
      ensures shards[order[i]].path in fs && ShardNeverShort(fs, shards[order[i]], options, CutsAt([], i))
    {
      UncutShard(fs, shards[order[i]], options);
    }
  }
}
