/** How a shard window is cut into requests (src/dataset.cpp:103-110 and 169-187). */
module Tiling {
  import opened Common
  import opened BackendContract
  import Align

  const SEGMENT_CAP: nat := 256 * 1024

  /** The segment size `open_shard` chooses: the target rounded down to whole blocks. */
  function SegmentSize(segmentBytes: nat, batchBytes: nat, block: nat): nat
    requires block > 0
  {
    var target := if segmentBytes == 0 then Min(Max(block, batchBytes), SEGMENT_CAP) else segmentBytes;
    target - target % block
  }

  /** What is known of an open shard while it is read: its window's end and the buffers' geometry. */
  datatype Geometry = Geometry(end: nat, segment: nat, block: nat) {
    ghost predicate Sound() {
      0 < block <= segment && segment % block == 0
    }
  }

  /** The segment is whole blocks, and it holds a block exactly when the option leaves room for one. */
  lemma {:induction false} SegmentFits(segmentBytes: nat, batchBytes: nat, block: nat, end: nat)
    requires block > 0
    ensures Geometry(end, SegmentSize(segmentBytes, batchBytes, block), block).Sound()
       <==> if segmentBytes == 0 then block <= SEGMENT_CAP else block <= segmentBytes
  {
    var target := if segmentBytes == 0 then Min(Max(block, batchBytes), SEGMENT_CAP) else segmentBytes;
    Align.FloorIsGreatest(target, block);
    assert block % block == 0 by { Align.DivModUnique(block, block, 1, 0); }
    if target < block { Align.DivModUnique(target, block, 0, target); }
  }

  /** Which multiple of the block it is, setting by setting: the largest within `segment_bytes`; by default
      the largest within a batch, but no more than 256 KiB, and one block for batches below that. */
  lemma {:induction false} SegmentChosen(segmentBytes: nat, batchBytes: nat, block: nat)
    requires block > 0
    ensures segmentBytes > 0 ==> LargestWithin(SegmentSize(segmentBytes, batchBytes, block), segmentBytes, block)
    ensures segmentBytes == 0 && 262144 <= batchBytes ==> LargestWithin(SegmentSize(0, batchBytes, block), 262144, block)
    ensures segmentBytes == 0 && block <= batchBytes <= 262144 ==>
              LargestWithin(SegmentSize(0, batchBytes, block), batchBytes, block)
    ensures segmentBytes == 0 && batchBytes < block <= 262144 ==> SegmentSize(0, batchBytes, block) == block
  {
    var target := if segmentBytes == 0 then Min(Max(block, batchBytes), SEGMENT_CAP) else segmentBytes;
    Align.FloorIsGreatest(target, block);
    Align.SelfMultiple(block);
  }

  /** `n` is the largest multiple of `d` that is at most `limit`. */
  ghost predicate LargestWithin(n: nat, limit: nat, d: nat)
    requires d > 0
  {
    n % d == 0 && n <= limit && forall m: nat :: m % d == 0 && m <= limit ==> m <= n
  }

  lemma {:induction false} SegmentBelow(segmentBytes: nat, batchBytes: nat, block: nat)
    requires block > 0 && segmentBytes < TWO32
    ensures SegmentSize(segmentBytes, batchBytes, block) < TWO32
  {
  }

  /** `length` in the loop of `fill_pipeline`: a segment, shortened to the whole blocks that remain, or
      one block for the tail. */
  function LengthFor(segment: nat, remaining: nat, block: nat): nat
    requires block > 0
  {
    var wanted := Min(segment, remaining);
    var whole := wanted - wanted % block;
    if whole == 0 then block else whole
  }

  /** Without room for a block the segment is empty, yet every request asks for a whole block: more than
      its buffer holds. */
  lemma {:induction false} SegmentTooSmall(segmentBytes: nat, batchBytes: nat, block: nat, remaining: nat)
    requires block > 0
    requires if segmentBytes == 0 then block > SEGMENT_CAP else block > segmentBytes
    ensures SegmentSize(segmentBytes, batchBytes, block) == 0
    ensures LengthFor(SegmentSize(segmentBytes, batchBytes, block), remaining, block) == block > 0
  {
    var target := if segmentBytes == 0 then Min(Max(block, batchBytes), SEGMENT_CAP) else segmentBytes;
    Align.DivModUnique(target, block, 0, target);
    Align.DivModUnique(0, block, 0, 0);
  }

  /** The length of the request at `next`. */
  function RequestLength(next: nat, g: Geometry): (length: nat)
    requires g.Sound() && next < g.end
    ensures 0 < length <= g.segment && length % g.block == 0
  {
    Align.FloorIsGreatest(Min(g.segment, g.end - next), g.block);
    assert g.block % g.block == 0 by { Align.DivModUnique(g.block, g.block, 1, 0); }
    LengthFor(g.segment, g.end - next, g.block)
  }

  /** No longer request would do: it is the largest multiple of the block that fits both the segment and
      what remains of the window, and only a tail shorter than a block is rounded up to one. */
  lemma {:induction false} LongestRequest(next: nat, g: Geometry)
    requires g.Sound() && next < g.end
    ensures if g.end - next >= g.block
            then LargestWithin(RequestLength(next, g), Min(g.segment, g.end - next), g.block)
            else RequestLength(next, g) == g.block
  {
    var wanted := Min(g.segment, g.end - next);
    Align.FloorIsGreatest(wanted, g.block);
    Align.SelfMultiple(g.block);
    if g.end - next < g.block {
      Align.DivModUnique(wanted, g.block, 0, wanted);
    }
  }

  /** Where the next request starts. */
  function Advance(next: nat, g: Geometry): (after: nat)
    requires g.Sound() && next < g.end
    ensures next < after <= g.end
  {
    next + Min(RequestLength(next, g), g.end - next)
  }

  /** How many bytes of the window a request delivers from a file of `size` bytes. */
  function Delivered(next: nat, g: Geometry, size: nat, cuts: Cuts): (bytes: nat)
    requires g.Sound() && next < g.end
    ensures bytes == 0 <==> next >= size
    ensures next + bytes <= Advance(next, g) && (bytes > 0 ==> next + bytes <= size)
  {
    Min(Given(size, cuts, next, RequestLength(next, g)), g.end - next)
  }

  /** What the requests of a window deliver from `next` on: each one what the kernel gives of its tile,
      until the end of the file. Nothing is asked for twice. */
  function Emitted(image: seq<byte>, cuts: Cuts, next: nat, g: Geometry): seq<byte>
    requires g.Sound()
    decreases g.end - next
  {
    if next >= g.end || next >= |image| then []
    else Slice(image, next, next + Delivered(next, g, |image|, cuts)) + Emitted(image, cuts, Advance(next, g), g)
  }

  /** A request delivers the front of what its window still emits, and nothing only at end of file. */
  lemma {:induction false} EmitsItsTile(image: seq<byte>, cuts: Cuts, next: nat, g: Geometry)
    requires g.Sound() && next < g.end
    ensures var bytes := Delivered(next, g, |image|, cuts);
            && |Slice(image, next, next + bytes)| == bytes
            && Emitted(image, cuts, next, g) == Slice(image, next, next + bytes) + Emitted(image, cuts, Advance(next, g), g)
            && (bytes == 0 ==> Emitted(image, cuts, next, g) == Emitted(image, cuts, Advance(next, g), g) == [])
  {
    hide Delivered, RequestLength, Advance;
    assert next >= |image| ==> Emitted(image, cuts, Advance(next, g), g) == [];
  }

  /** A request that the kernel does not cut short delivers the window up to the next request; one that
      it does, less. */
  lemma {:induction false} DeliversItsTile(image: seq<byte>, cuts: Cuts, next: nat, g: Geometry)
    requires g.Sound() && next < g.end
    ensures var bytes, after, full := Delivered(next, g, |image|, cuts), Advance(next, g), Delivered(next, g, |image|, map[]);
            && bytes <= full
            && Slice(image, next, g.end) == Slice(image, next, next + full) + Slice(image, after, g.end)
            && |Slice(image, next, g.end)| == full + |Slice(image, after, g.end)|
  {
    var full, after := Delivered(next, g, |image|, map[]), Advance(next, g);
    if next + full == after {
      SliceSplit(image, next, after, g.end);
    }
  }

  // ----- alignment -----

  /** `x` is `start` and a whole number of blocks. */
  predicate OnGrid(x: nat, start: nat, block: nat)
    requires block > 0
  {
    x >= start && (x - start) % block == 0
  }

  /** The next request is a whole number of blocks further on, unless it starts at the window's end. */
  lemma {:induction false} GridAdvance(next: nat, start: nat, g: Geometry)
    requires g.Sound() && next < g.end && OnGrid(next, start, g.block)
    ensures Advance(next, g) >= start
    ensures Advance(next, g) < g.end ==> OnGrid(Advance(next, g), start, g.block)
  {
    Align.SumAligned(next - start, RequestLength(next, g), g.block);
  }

  /** A whole number of blocks further on is as aligned as the start, for every sector that blocks are
      made of. */
  lemma {:induction false} GridAligned(x: nat, start: nat, block: nat, sector: pos)
    requires block > 0 && OnGrid(x, start, block) && block % sector == 0
    ensures x % sector == 0 <==> start % sector == 0
  {
    Align.MultipleOfMultiple(x - start, block, sector);
    if start % sector == 0 {
      Align.SumAligned(x - start, start, sector);
    } else if x % sector == 0 {
      Align.DifferenceAligned(x, x - start, sector);
    }
  }

  // ----- the whole window -----

  datatype Tile = Tile(offset: nat, length: nat)

  /** The requests of a window from `next` on. */
  function Tiles(next: nat, g: Geometry): seq<Tile>
    requires g.Sound()
    decreases g.end - next
  {
    if next < g.end then [Tile(next, RequestLength(next, g))] + Tiles(Advance(next, g), g) else []
  }

  /** The part of the file a tile covers inside the window. */
  function Trimmed(image: seq<byte>, tile: Tile, end: nat): seq<byte> {
    Slice(image, tile.offset, Min(tile.offset + tile.length, end))
  }

  function Joined(image: seq<byte>, tiles: seq<Tile>, end: nat): seq<byte> {
    if tiles == [] then [] else Trimmed(image, tiles[0], end) + Joined(image, tiles[1..], end)
  }

  /** The tiles' trimmed ranges, one after the other, are the window. */
  lemma {:induction false} TilesJoin(image: seq<byte>, next: nat, g: Geometry)
    requires g.Sound()
    ensures Joined(image, Tiles(next, g), g.end) == Slice(image, next, g.end)
    decreases g.end - next
  {
    if next < g.end {
      var after := Advance(next, g);
      TilesJoin(image, after, g);
      assert Tiles(next, g)[1..] == Tiles(after, g);
      assert Trimmed(image, Tiles(next, g)[0], g.end) == Slice(image, next, after);
      SliceSplit(image, next, after, g.end);
    }
  }

  /** A request that fits a buffer, asks for whole blocks, and lies in the window. */
  predicate Proper(t: Tile, next: nat, g: Geometry)
    requires g.block > 0
  {
    next <= t.offset < g.end && 0 < t.length <= g.segment && t.length % g.block == 0
  }

  /** Every request of a window is proper. */
  lemma {:induction false} TilesProper(next: nat, g: Geometry)
    requires g.Sound()
    ensures forall i :: 0 <= i < |Tiles(next, g)| ==> Proper(Tiles(next, g)[i], next, g)
    decreases g.end - next
  {
    if next < g.end {
      var after := Advance(next, g);
      var rest := Tiles(after, g);
      TilesProper(after, g);
      forall i | 0 <= i < |Tiles(next, g)| ensures Proper(Tiles(next, g)[i], next, g) {
        if i > 0 { assert Tiles(next, g)[i] == rest[i - 1] && Proper(rest[i - 1], after, g); }
      }
    }
  }

  /** How many requests a rest of `n` bytes takes: one a segment, one for the whole blocks after the last
      full segment, and one for a tail shorter than a block. */
  function TileCount(n: nat, segment: nat, block: nat): nat
    requires 0 < block <= segment
  {
    var rest := n % segment;
    n / segment + (if rest >= block then 1 else 0) + (if rest % block != 0 then 1 else 0)
  }

  lemma {:induction false} TilesCounted(next: nat, g: Geometry)
    requires g.Sound()
    ensures |Tiles(next, g)| == if next < g.end then TileCount(g.end - next, g.segment, g.block) else 0
    decreases g.end - next
  {
    hide RequestLength, TileCount;
    if next < g.end {
      var n, length := g.end - next, RequestLength(next, g);
      LongestRequest(next, g);
      TilesCounted(Advance(next, g), g);
      if n >= g.segment {
        assert length == g.segment;
        FullSegment(n, g.segment, g.block);
      } else if n >= g.block {
        PartSegment(n, g.segment, g.block, length);
      } else {
        TailBlock(n, g.segment, g.block);
      }
    }
  }

  lemma {:induction false} FullSegment(n: nat, segment: nat, block: nat)
    requires 0 < block <= segment <= n && segment % block == 0
    ensures TileCount(n, segment, block) == 1 + if n == segment then 0 else TileCount(n - segment, segment, block)
  {
    var q, r := n / segment, n % segment;
    assert n == segment * q + r;
    assert n - segment == segment * (q - 1) + r;
    assert q >= 1;
    Align.DivModUnique(n - segment, segment, q - 1, r);
    Align.DivModUnique(0, block, 0, 0);
    if n == segment { Align.DivModUnique(n, segment, 1, 0); }
  }

  lemma {:induction false} PartSegment(n: nat, segment: nat, block: nat, length: nat)
    requires 0 < block <= n < segment && LargestWithin(length, n, block)
    ensures 0 < length <= n
    ensures TileCount(n, segment, block) == 1 + if n == length then 0 else TileCount(n - length, segment, block)
    ensures n > length ==> n - length < block
  {
    Align.SelfMultiple(block);
    Align.FloorIsGreatest(n, block);
    assert length == n - n % block;
    var r := n % block;
    Align.DivModUnique(n, segment, 0, n);
    Align.DivModUnique(r, segment, 0, r);
    Align.DivModUnique(r, block, 0, r);
  }

  lemma {:induction false} TailBlock(n: nat, segment: nat, block: nat)
    requires 0 < n < block <= segment
    ensures TileCount(n, segment, block) == 1
  {
    Align.DivModUnique(n, segment, 0, n);
    Align.DivModUnique(n, block, 0, n);
  }

  /** Consecutive requests leave no gap and no overlap inside the window. */
  lemma {:induction false} TilesChain(next: nat, g: Geometry, i: nat)
    requires g.Sound() && i < |Tiles(next, g)|
    ensures Tiles(next, g)[0].offset == next
    ensures var t := Tiles(next, g)[i];
            Min(t.offset + t.length, g.end) ==
            if i + 1 < |Tiles(next, g)| then Tiles(next, g)[i + 1].offset else g.end
    decreases i
  {
    var after := Advance(next, g);
    if i > 0 {
      TilesChain(after, g, i - 1);
    }
  }

  /** From an aligned start every request is aligned. */
  lemma {:induction false} TilesAligned(next: nat, g: Geometry, i: nat)
    requires g.Sound() && i < |Tiles(next, g)| && next % g.block == 0
    ensures Tiles(next, g)[i].offset % g.block == 0
    decreases i
  {
    if i > 0 {
      var after, length := Advance(next, g), RequestLength(next, g);
      if after < g.end {
        Align.SumAligned(next, length, g.block);
        TilesAligned(after, g, i - 1);
      }
    }
  }

  // ----- how much one fill requests -----

  /** Iterations of `while (pending_.size() + requests.size() < read_depth_)`: each one grows both. */
  function FillRounds(pending: nat, requests: nat, depth: nat): nat
    decreases depth - pending - requests
  {
    if pending + requests < depth then 1 + FillRounds(pending + 1, requests + 1, depth) else 0
  }

  lemma {:induction false} FillRoundsFrom(pending: nat, requests: nat, depth: nat)
    ensures FillRounds(pending, requests, depth) ==
            if pending + requests < depth then (depth - pending - requests + 1) / 2 else 0
    decreases depth - pending - requests
  {
    if pending + requests < depth { FillRoundsFrom(pending + 1, requests + 1, depth); }
  }

  /** From at most `read_depth - 2` pending entries a fill stops at `read_depth - 1`; only an idle
      pipeline of depth one is filled to its depth. */
  lemma {:induction false} FillBound(pending: nat, depth: nat)
    requires depth > 0 && (pending == 0 || pending + 2 <= depth)
    ensures pending + FillRounds(pending, 0, depth) <= Max(1, depth - 1)
    ensures FillRounds(pending, 0, depth) > 0
  {
    FillRoundsFrom(pending, 0, depth);
  }

  /** The prose promises `read_depth` reads in flight: one fill reaches it only from one entry short. */
  lemma {:induction false} FillPromise(pending: nat, depth: nat)
    requires pending < depth
    ensures pending + FillRounds(pending, 0, depth) == depth <==> pending + 1 == depth
    ensures FillRounds(0, 0, 16) == 8
  {
    FillRoundsFrom(pending, 0, depth);
    FillRoundsFrom(0, 0, 16);
  }
}
