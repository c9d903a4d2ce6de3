/** Shards, the files they name, and the byte stream a shard set stands for. */
module Shards {
  import opened Common

  /** include/dsio/shard.hpp: one byte range of one file. */
  datatype Shard = Shard(path: string, offset: u64, length: u64) {
    /** `end()`, which wraps around at 2^64. */
    function End(): u64 { (offset + length) % TWO64 }
  }

  /** A file: its bytes, the block size `File::alignment` reports, and the sector size the kernel
      demands of direct reads, of which the block is a multiple. */
  datatype FileImage = FileImage(bytes: seq<byte>, block: nat, sector: pos)

  /** The files that can be opened. */
  type FileSystem = map<string, FileImage>

  /** What a shard contributes to the stream: its window, as far as the file reaches. */
  function Window(fs: FileSystem, shard: Shard): seq<byte> {
    if shard.path in fs then Slice(fs[shard.path].bytes, shard.offset, shard.End()) else []
  }

  /** The windows one after the other. */
  function Windows(fs: FileSystem, shards: seq<Shard>, order: seq<nat>): seq<byte>
    requires forall i :: 0 <= i < |order| ==> order[i] < |shards|
  {
    if order == [] then [] else Window(fs, shards[order[0]]) + Windows(fs, shards, order[1..])
  }

  lemma {:induction false} WindowsSplit(fs: FileSystem, shards: seq<Shard>, a: seq<nat>, b: seq<nat>)
    requires forall i :: 0 <= i < |a| ==> a[i] < |shards|
    requires forall i :: 0 <= i < |b| ==> b[i] < |shards|
    ensures Windows(fs, shards, a + b) == Windows(fs, shards, a) + Windows(fs, shards, b)
  {
    hide Window;
    if a == [] {
      assert a + b == b;
    } else {
      hide Windows;
      WindowsSplit(fs, shards, a[1..], b);
      WindowsFront(fs, shards, a[0], a[1..] + b);
      WindowsFront(fs, shards, a[0], a[1..]);
      FirstOff(a, b);
      Associative(Window(fs, shards[a[0]]), Windows(fs, shards, a[1..]), Windows(fs, shards, b));
    }
  }

  lemma {:induction false} WindowsFront(fs: FileSystem, shards: seq<Shard>, first: nat, rest: seq<nat>)
    requires first < |shards| && forall i :: 0 <= i < |rest| ==> rest[i] < |shards|
    ensures Windows(fs, shards, [first] + rest) == Window(fs, shards[first]) + Windows(fs, shards, rest)
  {
    hide Window;
    assert ([first] + rest)[1..] == rest;
  }

  lemma {:induction false} WindowsOne(fs: FileSystem, shards: seq<Shard>, i: nat)
    requires i < |shards|
    ensures Windows(fs, shards, [i]) == Window(fs, shards[i]) && Windows(fs, shards, []) == []
  {
    assert [i][1..] == [];
  }

  /** A window is the shard's range exactly when its end does not wrap; a wrapped one is empty. */
  lemma {:induction false} WindowRange(fs: FileSystem, shard: Shard)
    requires shard.path in fs
    ensures shard.offset + shard.length < TWO64 ==>
              Window(fs, shard) == Slice(fs[shard.path].bytes, shard.offset, shard.offset + shard.length)
    ensures shard.offset + shard.length >= TWO64 ==> Window(fs, shard) == []
  {
  }

  /** include/dsio/dataset.hpp. */
  datatype BatchOptions = BatchOptions(
    batchBytes: nat, prefetch: nat, readDepth: nat, segmentBytes: nat)
}
