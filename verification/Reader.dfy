/** `DirectReader` of src/reader.cpp: the synchronous baseline, one block at a time. */
module Reader {
  import opened Common
  import opened BackendContract
  import opened FileIo
  import Align

  /** One chunk: the first `length` bytes of the reader's buffer, and their file offset. */
  datatype Chunk = Chunk(data: array<byte>, length: nat, offset: nat)

  /** The `bytes` kept of a block read at `offset` are the front of the window's rest. */
  lemma {:induction false} ChunkOf(contents: seq<byte>, offset: nat, data: seq<byte>, bytes: nat, end: nat)
    requires offset < end && 0 < bytes == Min(Available(|contents|, offset, |data|), end - offset)
    requires data[..Available(|contents|, offset, |data|)] == Slice(contents, offset, offset + |data|)
    ensures Slice(contents, offset, end) == data[..bytes] + Slice(contents, offset + bytes, end)
    ensures bytes < |data| ==> Slice(contents, offset + bytes, end) == []
  {
    SliceSplit(contents, offset, offset + bytes, end);
    ChunkBytes(contents, offset, data, bytes);
  }

  lemma {:induction false} ChunkBytes(contents: seq<byte>, offset: nat, data: seq<byte>, bytes: nat)
    requires bytes <= Available(|contents|, offset, |data|)
    requires data[..Available(|contents|, offset, |data|)] == Slice(contents, offset, offset + |data|)
    ensures Slice(contents, offset, offset + bytes) == data[..bytes]
  {
    assert data[..bytes] == data[..Available(|contents|, offset, |data|)][..bytes];
  }

  class DirectReader {
    const file: File
    const buffer: array<byte>
    const start: nat
    const end: nat
    var position: nat

    /** The last steps of `open_window`, the buffer being allocated. */
    constructor (file: File, offset: nat, length: nat)
      requires file.alignment > 0 && file.alignment % file.sector == 0 && offset % file.alignment == 0
      ensures this.file == file && start == position == offset && end == offset + length
      ensures fresh(buffer) && Valid()
    {
      this.file := file;
      buffer := new byte[file.alignment];
      start, position, end := offset, offset, offset + length;
    }

    /** Inside the window and the file the reader stands at a whole block. */
    ghost predicate Valid()
      reads this, file
    {
      && 0 < file.alignment == buffer.Length && file.alignment % file.sector == 0
      && start <= position <= end
      && (position < end && position < |file.contents| ==> position % file.alignment == 0)
    }

    /** What the chunks still to come hold. */
    ghost function Rest(): seq<byte>
      reads this, file
    {
      Slice(file.contents, position, end)
    }

    /** `next_chunk`: the next block of the window, trimmed at its end; empty exactly when nothing is left. */
    method NextChunk() returns (r: Outcome<Chunk>)
      requires Valid()
      modifies `position, buffer
      ensures r.Err? ==> (if file.isOpen then file.Faulted(r.error) else r.error == FileClosed) && position == old(position)
      ensures file.isOpen && !file.faulty ==> r.Ok?
      ensures r.Ok? ==>
                var c := r.value;
                && Valid() && c.data == buffer && c.length <= buffer.Length
                && c.offset == old(position) && position == old(position) + c.length
                && old(Rest()) == buffer[..c.length] + Rest()
                && (c.length == 0 <==> old(Rest()) == [])
                && (c.length < buffer.Length ==> Rest() == [])
    {
      hide Slice;
      RestIsEmpty();
      if position >= end {
        return Ok(Chunk(buffer, 0, position));
      }
      BlockIsAccepted();
      var got := file.PreadExact(position, buffer);
      if got.Err? {
        return Err(got.error);
      }
      var bytes := got.value;
      if bytes == 0 {
        return Ok(Chunk(buffer, 0, position));
      }
      var remaining := end - position;
      if bytes > remaining {
        bytes := remaining;
      }
      var offset := position;
      StaysAligned(bytes);
      ChunkOf(file.contents, offset, buffer[..], bytes, end);
      position := position + bytes;
      return Ok(Chunk(buffer, bytes, offset));
    }

    lemma {:induction false} RestIsEmpty()
      requires Valid()
      ensures Rest() == [] <==> position >= end || position >= |file.contents|
    {
    }

    /** After a chunk the reader stands at a whole block again, or at the end of the window or the file. */
    lemma {:induction false} StaysAligned(bytes: nat)
      requires Valid() && position < end
      requires bytes == Min(Available(|file.contents|, position, buffer.Length), end - position)
      ensures position + bytes < end && position + bytes < |file.contents| ==> (position + bytes) % file.alignment == 0
    {
      if bytes == buffer.Length && position < |file.contents| {
        Align.SelfMultiple(bytes);
        Align.SumAligned(position, bytes, bytes);
      }
    }

    /** A block read where the reader stands is not misaligned. */
    lemma {:induction false} BlockIsAccepted()
      requires Valid() && position < end
      ensures file.Reads(position, buffer.Length)
    {
      if position < |file.contents| {
        Align.SelfMultiple(buffer.Length);
        Align.MultipleOfMultiple(position, file.alignment, file.sector);
        Align.MultipleOfMultiple(buffer.Length, file.alignment, file.sector);
      }
    }

    /** Chunks are read until one is empty: together they are the window, and their offsets chain. */
    method ReadAll() returns (r: Outcome<seq<byte>>, chunks: seq<Chunk>)
      requires Valid()
      modifies `position, buffer
      ensures r.Ok? ==> r.value == old(Rest())
      ensures r.Err? ==> if file.isOpen then file.Faulted(r.error) else r.error == FileClosed
      ensures Chained(old(position), chunks, position)
      ensures file.isOpen && !file.faulty ==> r.Ok?
    {
      hide Chained, Slice;
      var all := [];
      chunks := [];
      NoChunks(position);
      while true
        invariant Valid() && old(Rest()) == all + Rest()
        invariant Chained(old(position), chunks, position)
        decreases end - position
      {
        ghost var at := position;
        var got := NextChunk();
        if got.Err? {
          return Err(got.error), chunks;
        }
        if got.value.length == 0 {
          return Ok(all), chunks;
        }
        ghost var chunk := buffer[..got.value.length];
        Associative(all, chunk, Rest());
        OneMoreChunk(old(position), chunks, at, got.value);
        all := all + buffer[..got.value.length];
        chunks := chunks + [got.value];
      }
    }
  }

  /** Each chunk starts where the one before it ended. */
  ghost predicate Chained(start: nat, chunks: seq<Chunk>, end: nat)
    decreases |chunks|
  {
    if chunks == [] then start == end
    else chunks[0].offset == start && Chained(start + chunks[0].length, chunks[1..], end)
  }

  lemma {:induction false} NoChunks(start: nat)
    ensures Chained(start, [], start)
  {
  }

  lemma {:induction false} OneMoreChunk(start: nat, chunks: seq<Chunk>, end: nat, c: Chunk)
    requires Chained(start, chunks, end) && c.offset == end
    ensures Chained(start, chunks + [c], end + c.length)
    decreases |chunks|
  {
    if chunks == [] {
      assert [c][1..] == [];
    } else {
      OneMoreChunk(start + chunks[0].length, chunks[1..], end, c);
      assert (chunks + [c])[1..] == chunks[1..] + [c];
    }
  }

  /** `DirectReader::open` of a window: the file must exist, the offset be aligned and inside it; a long
      window is clamped. Reading the size may fail on a faulty file, and `noMemory` says whether the
      allocation of the buffer does. */
  method OpenWindow(files: map<string, File>, path: string, offset: nat, length: nat, noMemory: bool)
    returns (r: Outcome<DirectReader>)
    requires path in files ==> files[path].alignment > 0 && files[path].alignment % files[path].sector == 0
    ensures r.Ok? ==> path in files && offset % files[path].alignment == 0 && offset <= |files[path].contents| && !noMemory
    ensures r.Err? ==>
              if path !in files then r.error == OpenFailed(path)
              else if offset % files[path].alignment != 0 then r.error == Misaligned(offset)
              else
                || files[path].Faulted(r.error)
                || r.error == if offset > |files[path].contents| then PastEnd(offset) else AllocationFailed
    ensures r.Err? && r.error == AllocationFailed ==> noMemory
    ensures r.Ok? ==>
              var file := files[path];
              && r.value.Valid() && fresh(r.value) && fresh(r.value.buffer) && r.value.file == file
              && r.value.start == r.value.position == offset
              && r.value.end == Min(offset + length, |file.contents|)
              && r.value.Rest() == Slice(file.contents, offset, offset + length)
  {
    if path !in files {
      return Err(OpenFailed(path));
    }
    var file := files[path];
    if offset % file.alignment != 0 {
      return Err(Misaligned(offset));
    }
    var noSize: bool := *;
    if file.faulty && noSize && file.errnos != {} {
      var errno :| errno in file.errnos;
      return Err(Io(errno));
    }
    var size := |file.contents|;
    if offset > size {
      return Err(PastEnd(offset));
    }
    var window := length;
    if window > size - offset {
      window := size - offset;
    }
    if noMemory {
      return Err(AllocationFailed);
    }
    var reader := new DirectReader(file, offset, window);
    return Ok(reader);
  }
}
