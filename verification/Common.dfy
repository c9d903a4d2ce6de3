/** Vocabulary shared by every component: bytes, machine words, slices and outcomes. */
module Common {
  newtype byte = x: int | 0 <= x < 0x100

  const TWO32: nat := 0x1_0000_0000
  const TWO64: nat := 0x1_0000_0000_0000_0000

  /** `std::uint64_t` and, on the supported platform, `std::size_t`. */
  type u64 = x: int | 0 <= x < TWO64

  type pos = x: int | x > 0 witness 1

  /** The errno of a misaligned direct read. */
  const EINVAL: int := 22

  /** The errno of a transfer that made no progress. */
  const EIO: int := 5

  function Min(a: nat, b: nat): nat { if a < b then a else b }
  function Max(a: nat, b: nat): nat { if a < b then b else a }

  /** The part of `s` inside `[lo, hi)`; positions past the end of `s` hold nothing. */
  function Slice<T>(s: seq<T>, lo: nat, hi: nat): (r: seq<T>)
    ensures |r| == if lo < Min(hi, |s|) then Min(hi, |s|) - lo else 0
    ensures forall i :: 0 <= i < |r| ==> r[i] == s[lo + i]
  {
    var top := Min(hi, |s|);
    if lo < top then s[lo..top] else []
  }

  lemma SliceSplit<T>(s: seq<T>, lo: nat, mid: nat, hi: nat)
    requires lo <= mid <= hi
    ensures Slice(s, lo, hi) == Slice(s, lo, mid) + Slice(s, mid, hi)
  {
  }

  lemma {:induction false} Associative<T>(a: seq<T>, b: seq<T>, c: seq<T>)
    ensures a + (b + c) == (a + b) + c
  {
  }

  lemma {:induction false} FirstOff<T>(a: seq<T>, b: seq<T>)
    requires a != []
    ensures a == [a[0]] + a[1..] && a + b == [a[0]] + (a[1..] + b)
  {
  }

  /** The `fp::Error` values of the modelled operations. */
  datatype Error =
    | FileClosed
    | OpenFailed(path: string)
    | Io(errno: int)
    | Misaligned(offset: nat)
    | PastEnd(offset: nat)
    | AllocationFailed
    | BackendUnavailable
    | InvalidOption(name: string)
    | QueueFull
    | ReapedNothing
    | UnknownRequest
    | ReadFailed(errno: int)

  /** `fp::Outcome`: failures are values. */
  datatype Outcome<+T> = Ok(value: T) | Err(error: Error)

  datatype Option<+T> = None | Some(value: T)
}
