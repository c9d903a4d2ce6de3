/** Positional file I/O of src/file.cpp over a kernel that may transfer less than it is asked for. */
module FileIo {
  import opened Common
  import opened BackendContract
  import Align

  /** `contents` with `src` written at `offset`; a gap past the end reads as zeros. */
  function Splice(contents: seq<byte>, offset: nat, src: seq<byte>): (r: seq<byte>)
    ensures |r| == if src == [] then |contents| else if offset + |src| < |contents| then |contents| else offset + |src|
  {
    if src == [] then contents
    else
      var padded := contents + seq(if |contents| < offset then offset - |contents| else 0, _ => 0 as byte);
      padded[..offset] + src + Slice(padded, offset + |src|, |padded|)
  }

  /** What was written is read back, and nothing else that the file held has changed. */
  lemma {:induction false} ReadBack(contents: seq<byte>, offset: nat, src: seq<byte>)
    ensures Slice(Splice(contents, offset, src), offset, offset + |src|) == src
    ensures forall i :: 0 <= i < |contents| && !(offset <= i < offset + |src|) ==>
              Splice(contents, offset, src)[i] == contents[i]
    ensures forall i :: |contents| <= i < offset && src != [] ==> Splice(contents, offset, src)[i] == 0
  {
  }

  /** Two writes, the second where the first ended, are one write of both. */
  lemma {:induction false} SpliceOn(contents: seq<byte>, offset: nat, a: seq<byte>, b: seq<byte>)
    ensures Splice(Splice(contents, offset, a), offset + |a|, b) == Splice(contents, offset, a + b)
  {
    if a == [] {
      assert a + b == b;
    } else if b == [] {
      assert a + b == a;
    } else {
      hide Splice;
      var x, y := Splice(Splice(contents, offset, a), offset + |a|, b), Splice(contents, offset, a + b);
      forall i | 0 <= i < |x| ensures x[i] == y[i] {
        SpliceOnAt(contents, offset, a, b, i);
      }
    }
  }

  lemma {:induction false} SpliceOnAt(contents: seq<byte>, offset: nat, a: seq<byte>, b: seq<byte>, i: nat)
    requires a != [] && b != [] && i < |Splice(Splice(contents, offset, a), offset + |a|, b)|
    ensures i < |Splice(contents, offset, a + b)|
    ensures Splice(Splice(contents, offset, a), offset + |a|, b)[i] == Splice(contents, offset, a + b)[i]
  {
    hide Splice;
    SpliceAt(contents, offset, a, i);
    SpliceAt(Splice(contents, offset, a), offset + |a|, b, i);
    SpliceAt(contents, offset, a + b, i);
  }

  lemma {:induction false} SpliceNothing(contents: seq<byte>, offset: nat)
    ensures Splice(contents, offset, []) == contents
  {
  }

  lemma {:induction false} SpliceAt(contents: seq<byte>, offset: nat, src: seq<byte>, i: nat)
    requires src != []
    ensures i < |Splice(contents, offset, src)| ==>
              Splice(contents, offset, src)[i] ==
              (if offset <= i < offset + |src| then src[i - offset] else if i < |contents| then contents[i] else 0)
  {
  }

  class File {
    const alignment: nat
    const sector: pos
    const faulty: bool
    const errnos: set<pos>
    var contents: seq<byte>
    var isOpen: bool

    /** `sector` is the multiple the kernel demands of transfers, 1 for a file opened buffered; `faulty`
        says whether it may fail a transfer, and `errnos` how. */
    constructor (contents: seq<byte>, alignment: nat, sector: pos, faulty: bool, errnos: set<pos>)
      ensures this.contents == contents && this.alignment == alignment && this.sector == sector
      ensures this.faulty == faulty && this.errnos == errnos && isOpen
    {
      this.contents, this.alignment, this.sector, isOpen := contents, alignment, sector, true;
      this.faulty, this.errnos := faulty, errnos;
    }

    /** The kernel transfers from `offset`. */
    predicate Reads(offset: nat, length: nat)
      reads this
    {
      Takes(|contents|, sector, offset, length)
    }

    predicate Writes(offset: nat, length: nat) {
      length == 0 || (offset % sector == 0 && length % sector == 0)
    }

    /** The failure of a transfer of an open file: EINVAL for a misaligned one, or one of its errnos. */
    ghost predicate Failure(error: Error, taken: bool) {
      (error == Io(EINVAL) && !taken) || Faulted(error)
    }

    ghost predicate Faulted(error: Error) {
      faulty && error.Io? && exists e :: e in errnos && error.errno == e
    }

    /** A transfer of something, whole sectors unless it is everything. */
    method SomeOf(most: nat) returns (got: nat)
      ensures got <= most && (got == 0 ==> most == 0) && (got % sector == 0 || got == most)
    {
      got :| 0 <= got <= most && (got == 0 ==> most == 0) && (got % sector == 0 || got == most);
    }

    /** ... or, on a faulty file, nothing. */
    method SomeOrNothing(most: nat) returns (put: nat)
      ensures put <= most && (put == 0 ==> most == 0 || faulty) && (put % sector == 0 || put == most)
    {
      put := SomeOf(most);
      var nothing: bool := *;
      if faulty && nothing {
        Align.DivModUnique(0, sector, 0, 0);
        put := 0;
      }
    }

    /** `pread` into `dst` from index `from` on: EINVAL for a misaligned transfer, an errno, or a
        transfer that may be short, by whole sectors, but is empty only at end of file or for an empty
        destination. */
    method Pread(offset: nat, dst: array<byte>, from: nat) returns (r: Outcome<nat>)
      requires from <= dst.Length
      modifies dst
      ensures !isOpen ==> r == Err(FileClosed)
      ensures r.Ok? ==>
                && Reads(offset, dst.Length - from)
                && r.value <= Available(|contents|, offset, dst.Length - from)
                && (r.value == 0 ==> Available(|contents|, offset, dst.Length - from) == 0)
                && (r.value % sector == 0 || r.value == Available(|contents|, offset, dst.Length - from))
                && (forall k :: 0 <= k < dst.Length ==>
                      dst[k] == if from <= k < from + r.value then contents[offset + (k - from)] else old(dst[k]))
      ensures isOpen && r.Err? ==> Failure(r.error, Reads(offset, dst.Length - from))
      ensures r.Err? ==> dst[..] == old(dst[..])
      ensures isOpen && !faulty ==> (r.Ok? <==> Reads(offset, dst.Length - from))
    {
      hide Takes;
      if !isOpen {
        return Err(FileClosed);
      }
      var fails: bool := *;
      if faulty && fails && errnos != {} {
        var errno :| errno in errnos;
        return Err(Io(errno));
      }
      if !Reads(offset, dst.Length - from) {
        return Err(Io(EINVAL));
      }
      var most := Available(|contents|, offset, dst.Length - from);
      var got := SomeOf(most);
      forall k | 0 <= k < got { dst[from + k] := contents[offset + k]; }
      return Ok(got);
    }

    /** `pread_exact`: for every schedule of short transfers, exactly the bytes the file holds; it fails,
        on a sound file, exactly when the transfer is misaligned. */
    method PreadExact(offset: nat, dst: array<byte>) returns (r: Outcome<nat>)
      modifies dst
      ensures r.Ok? ==>
                && r.value == Available(|contents|, offset, dst.Length)
                && dst[..r.value] == Slice(contents, offset, offset + dst.Length)
                && dst[r.value..] == old(dst[r.value..])
      ensures isOpen && r.Err? ==> Failure(r.error, Reads(offset, dst.Length))
      ensures !isOpen ==> r == if dst.Length == 0 then Ok(0) else Err(FileClosed)
      ensures isOpen && !faulty ==> (r.Ok? <==> Reads(offset, dst.Length))
    {
      hide Failure, Faulted, Takes;
      var total := 0;
      while total < dst.Length
        invariant !isOpen ==> total == 0
        invariant total <= dst.Length && (total > 0 ==> offset + total <= |contents| && Reads(offset, dst.Length))
        invariant total % sector == 0 || offset + total >= |contents|
        invariant forall k :: 0 <= k < total ==> dst[k] == contents[offset + k]
        invariant forall k :: total <= k < dst.Length ==> dst[k] == old(dst[k])
      {
        ReadsOn(offset, dst.Length, total);
        var got := Pread(offset + total, dst, total);
        if got.Err? {
          return got;
        }
        if got.value == 0 {
          break;
        }
        ReadsAdvance(offset, dst.Length, total, got.value);
        total := total + got.value;
      }
      EmptyTransfer(offset);
      return Ok(total);
    }

    lemma {:induction false} EmptyTransfer(offset: nat)
      ensures Reads(offset, 0) && Writes(offset, 0)
    {
    }

    /** A transfer of whole sectors, or of all there is, leaves whole sectors read, or everything. */
    lemma {:induction false} ReadsAdvance(offset: nat, length: nat, total: nat, got: nat)
      requires total < length && Reads(offset + total, length - total)
      requires total % sector == 0 || offset + total >= |contents|
      requires got <= Available(|contents|, offset + total, length - total)
      requires got % sector == 0 || got == Available(|contents|, offset + total, length - total)
      ensures (total + got) % sector == 0 || offset + total + got >= |contents|
    {
      if total % sector == 0 {
        if got % sector == 0 {
          Align.SumAligned(total, got, sector);
        }
      }
    }

    /** After whole sectors, or at end of file, the rest of a transfer is as acceptable as all of it. */
    lemma {:induction false} ReadsOn(offset: nat, length: nat, total: nat)
      requires total < length && (total > 0 ==> offset + total <= |contents| && Reads(offset, length))
      requires total % sector == 0 || offset + total >= |contents|
      ensures Reads(offset + total, length - total) <==> Reads(offset, length)
    {
      if 0 < total && offset + total < |contents| {
        Align.SumAligned(offset, total, sector);
        Align.DifferenceAligned(length, total, sector);
      }
    }

    /** `pwrite` of `src` from index `from` on: EINVAL for a misaligned transfer, an errno, or a prefix,
        of whole sectors unless it is everything, is written. */
    method Pwrite(offset: nat, src: array<byte>, from: nat) returns (r: Outcome<nat>)
      requires from <= src.Length
      modifies `contents
      ensures r.Ok? ==> r.value <= src.Length - from && contents == Splice(old(contents), offset, src[from..from + r.value])
      ensures r.Ok? ==> Writes(offset, src.Length - from) && (r.value % sector == 0 || r.value == src.Length - from)
      ensures r.Ok? && r.value == 0 ==> src.Length == from || faulty
      ensures !isOpen ==> r == Err(FileClosed)
      ensures r.Err? ==> contents == old(contents) && (isOpen ==> Failure(r.error, Writes(offset, src.Length - from)))
      ensures isOpen && !faulty ==> (r.Ok? <==> Writes(offset, src.Length - from))
    {
      hide Splice, Writes;
      if !isOpen {
        return Err(FileClosed);
      }
      var fails: bool := *;
      if faulty && fails && errnos != {} {
        var errno :| errno in errnos;
        return Err(Io(errno));
      }
      if !Writes(offset, src.Length - from) {
        return Err(Io(EINVAL));
      }
      var put := SomeOrNothing(src.Length - from);
      contents := Splice(contents, offset, src[from..from + put]);
      return Ok(put);
    }

    /** `pwrite_exact`: for every schedule of short transfers `src` is spliced in whole; a failure
        leaves a prefix of it written, and a transfer of nothing is a failure. */
    method PwriteExact(offset: nat, src: array<byte>) returns (r: Outcome<nat>)
      modifies `contents
      ensures r.Ok? ==> r.value == src.Length && contents == Splice(old(contents), offset, src[..])
      ensures isOpen && !faulty ==> (r.Ok? <==> Writes(offset, src.Length))
      ensures isOpen && r.Err? ==> Failure(r.error, Writes(offset, src.Length)) || (faulty && r.error == Io(EIO))
      ensures !isOpen ==> r == if src.Length == 0 then Ok(0) else Err(FileClosed)
      ensures r.Err? ==> exists n :: 0 <= n < src.Length && contents == Splice(old(contents), offset, src[..n])
    {
      hide Splice, Writes, Faulted;
      var total := 0;
      SpliceNothing(contents, offset);
      while total < src.Length
        invariant total <= src.Length && (total > 0 ==> isOpen && Writes(offset, src.Length))
        invariant total % sector == 0 || total == src.Length
        invariant contents == Splice(old(contents), offset, src[..total])
        decreases src.Length - total
      {
        WritesOn(offset, src.Length, total);
        var put := Pwrite(offset + total, src, total);
        if put.Err? {
          assert contents == Splice(old(contents), offset, src[..total]);
          return put;
        }
        assert put.value == 0 ==> src[total..total + put.value] == [];
        if put.value == 0 {
          SpliceNothing(Splice(old(contents), offset, src[..total]), offset + total);
          return Err(Io(EIO));
        }
        SpliceOn(old(contents), offset, src[..total], src[total..total + put.value]);
        assert src[..total] + src[total..total + put.value] == src[..total + put.value];
        if put.value % sector == 0 {
          Align.SumAligned(total, put.value, sector);
        }
        total := total + put.value;
      }
      assert src[..total] == src[..];
      EmptyTransfer(offset);
      return Ok(total);
    }

    lemma {:induction false} WritesOn(offset: nat, length: nat, total: nat)
      requires total < length && total % sector == 0 && (total > 0 ==> Writes(offset, length))
      ensures Writes(offset + total, length - total) <==> Writes(offset, length)
    {
      if 0 < total {
        Align.SumAligned(offset, total, sector);
        Align.DifferenceAligned(length, total, sector);
      }
    }

    /** A write followed by a read of the same range returns what was written. */
    method WriteThenRead(offset: nat, src: array<byte>, dst: array<byte>) returns (r: Outcome<nat>)
      requires src != dst && src.Length == dst.Length
      modifies `contents, dst
      ensures r.Ok? ==> r.value == src.Length && dst[..] == src[..]
      ensures isOpen && !faulty ==> (r.Ok? <==> Writes(offset, src.Length))
    {
      r := PwriteExact(offset, src);
      if r.Ok? {
        ReadBack(old(contents), offset, src[..]);
        r := PreadExact(offset, dst);
      }
    }
  }
}
