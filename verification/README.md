# A verified model of forge-dsio

forge-dsio streams sharded datasets with `O_DIRECT`. This project models its data path in Dafny and
proves what it delivers: the shard stream, the two asynchronous backends, the two threads of
`for_each_batch`, the synchronous reader, exact file I/O, the shard manifest and the alignment masks.
`dafny verify dfyconfig.toml` checks everything.

## How it is organised

- `Common.dfy`, `Shards.dfy`: bytes, words, outcomes; shards, files, and the windows a shard list stands for (`Windows`).
- `Align.dfy`: bitwise `&` and `~` on words, related to division.
- `BackendContract.dfy`: requests, completions, the kernel's answers (`Device`, `Finished`) and conservation (`Leaves`).
- `Ring.dfy`, `UringBackend.dfy`, `ThreadBackend.dfy`: an abstract io_uring and the two backends. The kernel and the workers finish reads in any order they like.
- `Backend.dfy`, `BackendScripts.dfy`: the interface, with the dynamic dispatch written out, so the stream is verified on top of both real backends; and whole sessions with it.
- `Tiling.dfy`, `Delivery.dfy`, `Pipeline.dfy`, `ShardStream.dfy`: requests of a window, what a shard list delivers (`Streamed`), the `pending_` deque, and the class `Stream` with the source's fields and methods.
- `ShortReads.dfy`: when what is delivered is what the files hold.
- `StreamRuns.dfy`: sequences of reads, draining, the comparison with `Reader.dfy`, and a short read.
- `BatchProtocol.dfy`, `ForEachBatch.dfy`: producer and consumer as a step relation over the two channels; and the two threads over a real `Stream`, in any interleaving.
- `FileIo.dfy`, `Reader.dfy`, `Manifest.dfy`: `pread_exact`/`pwrite_exact`, `DirectReader`, `load`/`save`.

The central definition is `Stream.Remaining()`: the carry, what the requests of the open window deliver
from the oldest pending entry on, and what the shards to come deliver, up to the first that cannot be
read. It mentions no buffer, no completion and no schedule. `Read` delivers the front of it and nothing
else, and without faults succeeds exactly when that is enough; every helper says how it changes it.

The environment is a parameter, and the results hold for all of it unless they say otherwise. `faults` says what may
fail: allocations, opening a backend, calls into the ring with which errnos, and reads at which offsets
with which errno; where nothing may, success is part of the contracts, and every error says which of them it was.
`cuts` says where the kernel will cut transfers short. The callback is any function of the batches it has
seen. The order of completions, the choice of backend and the interleaving of the threads are nondeterministic.

## What the code relies on

- Direct reads keep to the device's sector (`FileImage.sector`; 1 for a buffered file), of which the block that `File::alignment` reports is a multiple (test/file_test.cpp:110-113). Where the file holds bytes, a misaligned offset or length is answered by EINVAL, on a faulty device or not; at and past end of file a read returns nothing whatever its alignment, which is what `pread_exact` relies on when it asks again after a short tail (src/file.cpp:100-111). So a shard is readable exactly when its file exists and its window, if it holds bytes, starts at a whole sector (`Delivery.Readable`).
- A read comes back empty only where the file holds nothing. It may be short elsewhere: `ShortReads.ExactlyWithoutShortReads` says exactly when the stream is still right, and `StreamRuns.ShortReadLosesABlock` is a stream that is not.
- A segment holds at least one block, and `segment_bytes` is below 4 GiB (`Delivery.Supported`). `Tiling.SegmentFits` gives the exact condition for the first, `Backend.PreparedExactly` for the second (`io_uring_prep_read` takes an `unsigned` length).
- A successful `io_uring_submit` takes the whole submission queue. The ring may have any positive number of entries: a full queue is flushed (`UringBackend.Uring.Queue`), and `Ring.EntriesExactly` says when the depth survives its cast to `unsigned`.
- Every in-flight request has its own buffer (docs/usage.md:260-261); `ShardStream` is shown to keep to it.
- `fp::Channel` is a bounded FIFO: `recv` drains a closed channel and then throws, `send` on a closed one throws.
- `ShardStream::read` is not called again after it has failed; `for_each_batch` stops at the first failure (src/dataset.cpp:343-347).

## Where the code and its prose differ

- `fill_pipeline` counts each new request twice, so a fill stops halfway to `read_depth` (`Tiling.FillPromise`), and a pipeline deeper than one never holds more than `read_depth - 1` reads.
- `UringBackend::reap` waits for `min` completions or half of those in flight, whichever is less, where the header promises `min` clamped to those in flight (`UringBackend.WaitPromise`).
- `UringBackend::submit` that fails in the ring leaves all its requests queued and counted; only the capacity rejection changes nothing. A later `reap` may then hang (`UringBackend.Uring.AnswerableExactly`).
- Returning `false` from the callback does not always end with success: a failed read ahead may still be reported. If any read may fail, success is certain exactly when there is no batch to stop at; if none may, always (`BatchProtocol.StopsCleanlyExactly`).
- `save` accepts paths that `load` does not give back (`Manifest.RoundTripExactly`, `Manifest.CommentLikePathIsLost`).
- Below the block but at a whole sector, `ShardStream` reads a shard that `DirectReader` refuses (`StreamRuns.FastAgreesWithSimple`).
- `align_up` yields 0 when its sum wraps around (`Align.AlignUpWraps`).
- A shard whose end wraps around 2^64 contributes nothing instead of failing (`Shards.WindowRange`), where `DirectReader` reads to the end of the file (`StreamRuns.FastAgreesWithSimple`).

## Model

| member | source | states |
|---|---|---|
| ShardStream.Stream.Read | src/dataset.cpp:32-84 | fills the output with the next bytes of the stream, and with fewer only when nothing remains and every shard was readable; without faults it succeeds if and only if enough remains before the first unreadable shard, or there is none; its error is that of the first unreadable shard (missing, or EINVAL for a misaligned window), or a fault that may occur, with the errno that the device gives for a read in the window of one of the shards, so queue full, empty reap and unknown completion never occur; terminates |
| ShardStream.Stream.ReadStep | src/dataset.cpp:44-80 | one iteration moves bytes from the front of what remains to the output, and shrinks (shards left, window bytes and entries left); without faults it fails only when the open shard is unreadable and nothing remains before it |
| ShardStream.Stream.constructor | src/dataset.cpp:27-29 | a new stream has the caller's options and `read_depth`, at least 1; nothing is open, allocated or carried, and what remains is what the shards deliver, in the given order |
| ShardStream.Stream.OpenShard | src/dataset.cpp:96-129 | opening changes nothing that remains, leaves a free slot and nothing in flight, and sets the cursor to the shard's offset; a missing file is an error, never a skipped shard, and so is an allocation or a backend that fails, each reported as itself |
| ShardStream.Stream.ToBlame | src/dataset.cpp:35-55 | if the shard the stream is at cannot be read it is the first such shard, and its failure is the one to report |
| ShardStream.Stream.PrepareBuffers | src/dataset.cpp:131-152 | buffers of the right geometry are kept with their slots as they are; otherwise they are fresh, distinct, and all free |
| ShardStream.Stream.CloseShard | src/dataset.cpp:154-160 | closing an exhausted or ended window loses no bytes; the slots of entries still pending become abandoned |
| ShardStream.Stream.FewAbandoned | src/dataset.cpp:133-160 | abandoned slots never exceed `read_depth - 1`, over any sequence of shards |
| ShardStream.Stream.FillPipeline | src/dataset.cpp:162-204 | extends the deque and the reads in flight by exactly the doubly counted number of requests unless window or slots run out; a failed submission restores deque, slots and cursor; the queue is never full |
| StreamRuns.FirstFill | src/dataset.cpp:27-187 | the first fill of a stream: the segment is the one its options give, the backend and the buffers have the caller's `read_depth`, and over a long enough window half of that depth, rounded up, is in flight |
| ShardStream.Stream.PlanFill | src/dataset.cpp:164-187 | planning a fill keeps deque, slots and window sound, leaves pending entries as they were, and adds the doubly counted number of requests unless window or slots run out |
| ShardStream.Stream.RequestMore | src/dataset.cpp:164-187 | the new entries are the next tiles, in fresh slots that were free, and the requests are exactly their reads |
| ShardStream.Stream.NextLength | src/dataset.cpp:174-182 | the branches compute `RequestLength`, of which `Tiling.LongestRequest` says all |
| ShardStream.Stream.RollBack | src/dataset.cpp:195-200 | undoing any number of taken entries gives back the original deque and slots |
| ShardStream.Stream.Launch | src/dataset.cpp:192-203 | after the submission the reads in flight are exactly the entries that are not done; a failed one is rolled back |
| ShardStream.Stream.ReadyToSubmit | src/dataset.cpp:169-194 | new and in-flight requests have pairwise distinct buffers, fit them, and together do not exceed the queue depth |
| ShardStream.Stream.RequestsAligned | src/dataset.cpp:174-187 | everything in flight is whole blocks at a whole number of blocks from the shard's start; with an aligned shard every pending entry, every read in flight and the next request are aligned |
| ShardStream.Stream.RefusedInFlight | docs/usage.md:336-337 | a read that is refused for its alignment belongs to a misaligned shard with bytes in its window |
| ShardStream.Stream.ErrnoInFlight | src/dataset.cpp:228-231 | the errno a read in flight may fail with is one the kernel gives at a block of the open shard's window, and no other shard's |
| ShardStream.Stream.FrontReadable | src/dataset.cpp:57-80 | an entry is delivered only from a readable shard |
| ShardStream.Stream.AwaitFront | src/dataset.cpp:206-238 | returns with the oldest entry done and every entry in its place, after as many completions in whatever order; fails with the errno of a read of the open window, with that of a ring call, or with EINVAL for a misaligned shard; terminates by the number of reads in flight |
| ShardStream.Stream.AwaitOne | src/dataset.cpp:209-235 | one completion is matched to its entry; "reaped nothing" and "unknown request" are never returned, and a failed read is reported with the errno that the device gives for a request of the open window, or EINVAL for a misaligned shard |
| ShardStream.Stream.FindPending | src/dataset.cpp:217-223 | finds the entry with the token's slot, or there is none |
| ShardStream.Stream.TakeFree | src/dataset.cpp:240-248 | takes the first free slot, and fails only when there is none |
| ShardStream.Stream.CopyEntry | src/dataset.cpp:58-69 | what is copied out followed by what is carried is what the entry held |
| ShardStream.Stream.PopFront | src/dataset.cpp:72-73 | the next entry takes over at the next tile, and a slot is free |
| ShardStream.Stream.Deliver | src/dataset.cpp:57-80 | output and remaining bytes together are what remained before; an empty entry means the window has ended |
| ShardStream.Stream.FlushCarry | src/dataset.cpp:252-263 | the carried bytes come first and the rest of the carry moves to the front |
| Pipeline.DoneApart | src/dataset.cpp:57-72 | the buffer of a finished entry is written by no read in flight |
| Pipeline.NewRequestsOwn | src/dataset.cpp:164-194 | requests for free slots share no buffer with reads in flight or with each other |
| Pipeline.NeverTooMany | src/dataset.cpp:116-119 | with distinct buffers out of `read_depth`, the flight never exceeds the queue depth |
| Pipeline.TracksFewer | src/dataset.cpp:217-235 | after a completion the reads in flight are again exactly those of the entries that are not done |
| Pipeline.Lands | src/dataset.cpp:233-235 | a recorded completion was accepted and leaves the buffer holding the tile's bytes that the kernel gave, trimmed to the window |
| Pipeline.AbandonedBound | src/dataset.cpp:154-160 | one slot at least is pending or free |
| Pipeline.ChainedAreTiles | src/dataset.cpp:164-187 | the deque holds consecutive tiles of the window |
| Pipeline.ChainAligned | src/dataset.cpp:174-187 | every entry of the deque, and the next request, is a whole number of blocks from the shard's start |
| Pipeline.ChainReach | src/dataset.cpp:169-187 | a deque of n entries reaches at most n segments into the window |
| Tiling.SegmentFits | src/dataset.cpp:107-110 | the segment is whole blocks holding at least one, if and only if the option leaves room for a block |
| Tiling.SegmentChosen | src/dataset.cpp:107-110 | the largest multiple of the block within `segment_bytes`; by default within a batch but at most 256 KiB, and one block for smaller batches |
| Tiling.SegmentTooSmall | src/dataset.cpp:107-182 | without room for a block the segment is empty, and every request still asks for a whole block |
| Tiling.RequestLength | src/dataset.cpp:174-182 | a request asks for a positive whole number of blocks that fits a segment |
| Tiling.LongestRequest | src/dataset.cpp:174-182 | no longer request would do: the largest multiple of the block within both the segment and what remains, and one block for a shorter tail |
| Tiling.EmitsItsTile | src/dataset.cpp:186-235 | a request delivers the front of what its window still emits, and nothing only at end of file |
| Tiling.DeliversItsTile | src/dataset.cpp:186-186 | what is not cut short delivers the window up to the next request; what is cut short, no more |
| Tiling.TilesJoin | src/dataset.cpp:169-187 | the trimmed ranges of a window's requests, joined, are the window |
| Tiling.TilesChain | src/dataset.cpp:169-187 | consecutive requests leave no gap and no overlap up to the window's end |
| Tiling.TilesProper | src/dataset.cpp:169-187 | every request lies in the window, fits its buffer and is whole blocks |
| Tiling.TilesCounted | src/dataset.cpp:169-187 | a window takes one request a full segment, one for the whole blocks after the last, and one for a tail below a block |
| Tiling.TilesAligned | src/dataset.cpp:169-187 | from an aligned start every request offset is aligned |
| Tiling.FillRoundsFrom | src/dataset.cpp:169-169 | the fill loop runs half of the missing depth, rounded up |
| Tiling.FillBound | src/dataset.cpp:169-187 | from an idle pipeline a fill ends at most at max(1, read_depth - 1) entries, and makes progress |
| Tiling.FillPromise | src/dataset.cpp:162-169 | a fill reaches `read_depth` if and only if one entry was missing |
| ShortReads.ExactlyWithoutShortReads | src/dataset.cpp:233-235 | the stream delivers the windows up to the first unreadable shard if and only if no read of theirs is cut short inside its file |
| ShortReads.WindowExactly | src/dataset.cpp:57-80 | a window is delivered whole if and only if none of its requests is cut short inside the file |
| ShortReads.UncutStream | src/dataset.cpp:32-84 | with a kernel that is short only at end of file, what is delivered is a prefix of the windows, and all of them when every shard is readable |
| StreamRuns.ShortReadLosesABlock | src/dataset.cpp:233-235 | a stream over a file of two 4096-byte blocks whose second block a short read loses, without an error |
| Delivery.RefusedIsUnreadable | include/dsio/backend.hpp:17-19 | a request of the window is refused only if the shard starts inside a sector and its window holds bytes |
| Delivery.AcceptedIsReadable | include/dsio/backend.hpp:17-19 | a request that is accepted shows that the shard is readable |
| StreamRuns.ReadSizes | src/dataset.cpp:32-84 | for any output sizes the outputs are those of the byte stream; without faults they all succeed if and only if they ask for no more than remains before the first unreadable shard, or there is none; after a failure, the first few of them |
| StreamRuns.ReadsJoin | src/dataset.cpp:32-84 | the outputs joined are a prefix of the stream, as long as asked for |
| StreamRuns.SplitReads | src/dataset.cpp:252-263 | how a request is split into reads does not change the bytes |
| StreamRuns.EmptyReadIsEnd | src/dataset.cpp:348-351 | when a read returns nothing, everything was returned before |
| StreamRuns.Drain | src/dataset.cpp:340-354 | reading batches until one is empty yields the stream's batches, or a prefix of them before a failure; without faults it succeeds if and only if every shard is readable, and otherwise returns every whole batch before the first that is not |
| StreamRuns.BatchesJoin | include/dsio/dataset.hpp:30-34 | the batches joined are the stream |
| StreamRuns.BatchesFull | include/dsio/dataset.hpp:32-33 | only the last batch is short, and none is empty |
| StreamRuns.StreamWindow | src/dataset.cpp:32-84 | the stream over one shard delivers what its requests deliver, which is its window if and only if no read is cut short inside the file; without faults it fails, with EINVAL, exactly when the window holds bytes and is misaligned; with them, as the stream does |
| StreamRuns.FastAgreesWithSimple | src/reader.cpp:20-84 | the asynchronous stream over a window and the synchronous reader deliver the same bytes if and only if no read of the stream is cut short inside the file and the window's end does not wrap (or it holds nothing); each refuses a misaligned window, with its exact condition |
| Shards.WindowRange | include/dsio/shard.hpp:23-23 | a shard contributes its range as far as the file reaches, and nothing if its end wraps |
| Shards.WindowsSplit | include/dsio/dataset.hpp:30-34 | the windows of an order cut in two are those of the parts, joined in order |
| Shards.WindowsOne | include/dsio/dataset.hpp:30-34 | the windows of one shard are its window, and those of none are empty |
| Backend.OpenBackend | src/uring.cpp:126-154 | succeeds exactly when the depth is positive and the ring or the pool can be created; it is the ring whenever that can, has the depth asked for and nothing in flight; a zero depth is refused as such |
| Backend.Backend.Submit | include/dsio/backend.hpp:49-51 | rejected, with no change, exactly when the depth would be exceeded; otherwise the requests, with the lengths the ring keeps, join those in flight and those submitted, unless the device fails |
| Backend.Backend.Reap | include/dsio/backend.hpp:53-57 | completions answer requests that leave the flight for those delivered, each once; at least half of those in flight, rounded up, or `min` |
| BackendScripts.Script | include/dsio/backend.hpp:33-58 | after any sequence of submissions and reaps the accepted requests are those answered, each once and correctly, plus those in flight; a submission is accepted exactly when it fits what is in flight by then, and each reap answers at least what its loop waits for |
| BackendScripts.SubmitReads | include/dsio/backend.hpp:49-51 | a submission is accepted as a whole exactly when it fits the queue, and the account stays balanced |
| BackendScripts.DrainBackend | include/dsio/backend.hpp:53-57 | reaping one at a time ends, and everything accepted has then been answered exactly once |
| Backend.Backend.InFlight | include/dsio/backend.hpp:47-47 | the number of reads in flight, never above the depth |
| Backend.SentSame | src/uring.cpp:55-57 | requests below 4 GiB are in flight as they were submitted |
| Backend.PreparedExactly | src/uring.cpp:55-57 | the ring keeps a request's length if and only if it is below 4 GiB |
| Ring.EntriesExactly | src/uring.cpp:27-27 | the ring has an entry for every request of the depth if and only if the depth is below 2^32 |
| UringBackend.Uring.Submit | src/uring.cpp:37-65 | a capacity rejection changes nothing; a ring error is reported with its errno and leaves the requests before it queued and counted |
| UringBackend.Uring.Queue | src/uring.cpp:42-58 | a queue entry is always found, after a flush if the queue is full; with room in the queue there is no flush |
| UringBackend.Uring.AnswerableExactly | src/uring.cpp:60-79 | the blocking loop has enough to wait for if and only if it wants no more than a failed ring submission left in reach |
| UringBackend.Uring.Wait | src/uring.cpp:70-79 | consumes exactly the completions its moving guard allows, each answering a request that leaves the flight; it hangs only, and unless the ring fails always, when there is not enough to wait for |
| UringBackend.Uring.Drain | src/uring.cpp:81-93 | takes every posted completion that fits, at most 64, and never more than the output holds |
| UringBackend.Uring.Reap | src/uring.cpp:67-96 | what is reaped, in the kernel's order, is exactly what leaves the flight; it hangs exactly when its blocking loop does |
| UringBackend.WaitBound | src/uring.cpp:70-79 | the blocking loop consumes min(min, ceil(in flight / 2)) |
| UringBackend.WaitPromise | include/dsio/backend.hpp:53-57 | the documented wait is met if and only if the clamped `min` is at most half of those in flight, rounded up |
| Ring.IoUring.Transfer | src/uring.cpp:99-109 | a completion carries the bytes of the file that the kernel gives, EINVAL for a misaligned read, or the errno for its offset and no bytes, as `to_completion` reads it |
| Ring.IoUring.Finish | src/uring.cpp:73-78 | the kernel may finish any read next, writing no other buffer in flight or posted |
| Ring.IoUring.WaitCqe | src/uring.cpp:72-75 | waiting returns with a completion posted, or an errno of the ring |
| Ring.IoUring.Seen | src/uring.cpp:76-78 | exactly the oldest completion's request leaves the flight |
| ThreadBackend.ReadOnce | src/thread_backend.cpp:20-33 | one read yields the bytes of the file that the kernel gives, EINVAL for a misaligned read, or the errno for its offset, under the request's token |
| ThreadBackend.ThreadPoolBackend.Submit | src/thread_backend.cpp:44-52 | all requests are queued in order, or none |
| ThreadBackend.ThreadPoolBackend.DrainReady | src/thread_backend.cpp:62-67 | takes the oldest requests while they are ready and fit, and stops only at a full output or an unfinished read, while workers go on finishing reads |
| ThreadBackend.ThreadPoolBackend.Reap | src/thread_backend.cpp:54-69 | delivers the oldest requests in submission order, at least the clamped `min`, and stops only at a full output or an unfinished read |
| BackendContract.PartsApart | include/dsio/backend.hpp:17-19 | two parts of a flight with its own buffers share none |
| BackendContract.LeavesThen | include/dsio/backend.hpp:53-57 | conservation composes over successive reaps |
| BatchProtocol.StepInv | src/dataset.cpp:329-388 | every step of either thread keeps ownership, the account of the stream's bytes, and the exit conditions |
| BatchProtocol.RunInv | src/dataset.cpp:329-388 | every state of every interleaving satisfies the invariant, so `ready` never holds more than `prefetch` batches, and every run is finite |
| BatchProtocol.ReadsAhead | src/dataset.cpp:329-353 | and it can hold that many: while the callback has seen nothing, the producer can put any number of full batches up to `prefetch` into `ready` |
| BatchProtocol.NeverStuck | src/dataset.cpp:338-383 | until both threads have finished one of them can move |
| BatchProtocol.RunsFinish | src/dataset.cpp:338-383 | every run extends to one in which both threads have finished |
| BatchProtocol.StepShrinks | src/dataset.cpp:338-387 | every step of either thread makes the measure smaller |
| BatchProtocol.DeliversAPrefix | src/dataset.cpp:363-373 | at any moment the callback has seen the first batches of the stream, in order, all full but possibly the last |
| BatchProtocol.AnswersDecide | src/dataset.cpp:363-378 | the callback's answers decide: in every run there is one for each batch delivered, all but the last are to continue, and the consumer goes on exactly when none is to stop and throws exactly when one threw; at most one read fails, and its error is the one on record |
| BatchProtocol.DeliversAll | src/dataset.cpp:361-388 | a callback that always answers to continue sees the whole stream and success if no read failed, and otherwise everything read before, with the failed read's error; a stream that ends in a failure is never a success |
| BatchProtocol.BrokenDeliversWhole | src/dataset.cpp:343-353 | before the failure of a stream that ends in one only whole batches are delivered |
| BatchProtocol.StopsCleanly | src/dataset.cpp:371-387 | a callback that throws is passed on; otherwise a call in which no read failed is a success, and a reported error is that of the read that failed |
| BatchProtocol.StopsCleanlyExactly | src/dataset.cpp:371-387 | answering to stop always ends in success if and only if no read can fail or there is no batch to stop at |
| BatchProtocol.StopCanReportReadAhead | src/dataset.cpp:381-387 | for every such call with a batch and a possible failure, and any error, a run in which the callback stops and that error of a read ahead is returned |
| BatchProtocol.OneReadAfterClose | src/dataset.cpp:340-358 | a run from a state in which `ready` is closed holds at most one read |
| BatchProtocol.BuffersConserved | src/dataset.cpp:330-333 | the buffers in channels and hands are `prefetch + 1` while the producer runs, and never more |
| BatchProtocol.ReturnNeverBlocks | src/dataset.cpp:372-372 | returning a buffer never blocks |
| BatchProtocol.WrittenAlone | src/dataset.cpp:341-353 | the buffer being read into is neither waiting nor with the callback |
| ForEachBatch.Start | src/dataset.cpp:312-335 | zero batch size, prefetch or depth is refused, in this order; otherwise the stream has the caller's options, depth and faults, the channels its prefetch, and the stream what the shards deliver before it |
| ForEachBatch.ProducerRead | src/dataset.cpp:341-353 | one read of the producer from a `ShardStream` is a step of the protocol with the same effect on buffer, stream and producer |
| ForEachBatch.DeliversTheWindows | src/dataset.cpp:312-388 | in every interleaving over a shard list the callback has seen the first batches of what the shards deliver, which is their windows if no read is cut short inside a file; if all its answers are to continue, success means all of it was seen and every shard was readable, and without faults that suffices; without faults a stop is a success too, and a throw is passed on |
| ForEachBatch.ForEachBatch | src/dataset.cpp:312-388 | the two threads over a real `ShardStream`, stepping in any order, both finish, for any callback that answers from the batches it has seen; its answers and the batches delivered are as stated, a returned error is that of the first unreadable shard or a fault's, and `prefetch + 1` buffers are used |
| FileIo.File.Pread | src/file.cpp:84-98 | a transfer may be short but is empty only at end of file, writes only what it reports, and is refused exactly when misaligned |
| FileIo.File.PreadExact | src/file.cpp:100-111 | for every schedule of short transfers, exactly the bytes the file holds; it fails when misaligned, with an errno of a faulty file, or closed, and on a sound file exactly when misaligned |
| FileIo.File.PwriteExact | src/file.cpp:129-140 | for every schedule of short transfers, exactly the source is spliced in; a failure leaves a prefix and is EINVAL for misalignment, an errno of the file, or EIO for a transfer of nothing; on a sound file it fails exactly when misaligned |
| FileIo.File.WriteThenRead | src/file.cpp:100-140 | reading back a written range returns what was written |
| FileIo.ReadBack | src/file.cpp:129-140 | a splice is read back, other bytes are unchanged, a gap is zero |
| FileIo.SpliceOn | src/file.cpp:129-140 | consecutive partial writes are one write |
| Reader.DirectReader.constructor | src/reader.cpp:54-60 | the reader starts at the window's first byte, at a whole block |
| Reader.OpenWindow | src/reader.cpp:20-61 | fails exactly for a missing file, a misaligned or too large offset, a size that cannot be read or a buffer that cannot be allocated, each with its error and in this order, and clamps a long window |
| Reader.DirectReader.NextChunk | src/reader.cpp:63-84 | the next block of the window, trimmed; empty if and only if nothing is left |
| Reader.DirectReader.ReadAll | src/reader.cpp:63-84 | chunks until an empty one are the window, and their offsets chain; it fails only with the file's error |
| Manifest.ParseU64Exact | src/shard.cpp:15-22 | accepts exactly the non-empty digit strings below 2^64, with their value |
| Manifest.PrintThenParse | src/shard.cpp:15-22 | a printed number parses back |
| Manifest.DecimalCanonical | src/shard.cpp:173-173 | numbers are printed without leading zeros |
| Manifest.SplitLineExact | src/shard.cpp:24-40 | a line splits if and only if it is three tab-free fields joined by tabs, into those |
| Manifest.FirstLine | src/shard.cpp:67-67 | the text up to a newline is the first line |
| Manifest.LinesExactly | src/shard.cpp:67-67 | exactly which lines a text has: none holds a newline, and each ended by one they are the text, whose last line may lack it |
| Manifest.LastLine | src/shard.cpp:67-67 | a text with and without its final newline has the same lines |
| Manifest.ReturnIsStripped | src/shard.cpp:69-70 | one carriage return is taken off the end of a line, if there is one |
| Manifest.LineExactly | src/shard.cpp:68-101 | exactly which lines give a shard, and which: three fields joined by tabs with a path that is no comment and numbers that make a sound range; blank lines and comments are skipped, all else is an error |
| Manifest.ErrorExactly | src/shard.cpp:74-95 | which error a bad line gives: that of the first check it fails, with the line's number |
| Manifest.ParseOn | src/shard.cpp:65-101 | lines are parsed in order and numbered from one: the shards of the first part, then those of the rest under their own numbers, or the first error |
| Manifest.OneLine | src/shard.cpp:65-101 | a manifest of one line is its shard, nothing, or its error |
| Manifest.ByHand | src/shard.cpp:67-173 | one shard, as it is written and as it is read |
| Manifest.Load | src/shard.cpp:56-108 | fails if the manifest cannot be opened; otherwise the shards of its lines in order, or the first wrong line's error; if reading breaks, the error of a wrong line read before, or that of the break |
| Manifest.LoadedAreSound | src/shard.cpp:78-95 | every accepted shard has an aligned offset, a positive length and an end that does not wrap |
| Manifest.Save | src/shard.cpp:150-180 | fails if the manifest cannot be opened; otherwise the first path with a tab or newline is an error before which the manifest stops; otherwise header and every shard are written, and it succeeds if the file takes them |
| Manifest.LineBack | src/shard.cpp:72-101 | a saved line reads back as its shard if and only if the shard is writable; a written path with a tab is not |
| Manifest.RoundTrip | src/shard.cpp:56-180 | for paths written without a newline: loading what was saved gives the same shards if and only if each has a written path that is not empty, holds no tab, is no comment and resolves back, and a sound range |
| Manifest.RoundTripExactly | src/shard.cpp:56-180 | for any written paths: what was saved loads as the same shards if and only if every shard's text loads, and what the texts load as, joined, is the shards |
| Manifest.LoadsAsLine | src/shard.cpp:68-101 | the text of a path written without a newline loads as its shard if and only if that is writable, and as nothing if and only if the path looks like a comment |
| Manifest.CommentLikePathIsLost | src/shard.cpp:71-72 | every path starting with `#` is saved without an error and loads as no shard |
| Manifest.SaveThenLoad | src/shard.cpp:56-180 | `save` followed by `load`: it saves exactly when all paths are clean and the file takes what is written; then the shards come back exactly when their texts load as them; for paths written without a newline, exactly when all are writable |
| Align.PowerOfTwoTest | include/dsio/align.hpp:19-19 | the asserted mask test holds exactly for powers of two |
| Align.MaskIsDivision | include/dsio/align.hpp:16-35 | the masks compute the remainder and roundings of division |
| Align.AlignDownGreatest | include/dsio/align.hpp:30-35 | the greatest multiple not above the value |
| Align.AlignUpLeast | include/dsio/align.hpp:23-28 | the least multiple not below the value, without wrap-around |
| Align.AlignUpWraps | include/dsio/align.hpp:23-28 | reaches the value if and only if the sum does not wrap, and is 0 otherwise |
| Align.RoundingsAgree | include/dsio/align.hpp:17-35 | both roundings are idempotent and agree exactly on aligned values, wrap-around included |

## Left out

- System calls, errno texts, `O_DIRECT` flags, opening and closing descriptors, `block_size`: a file is a byte sequence with a block and a sector size, fixed while it is streamed.
- Buffer addresses: every buffer comes from `AlignedBuffer::alloc` with the file's alignment and is used from its start (src/dataset.cpp:139-184), so only offsets and lengths are modelled as aligned or not.
- EINTR retries: a retried call is one call, so their termination is not modelled.
- ShardStream.Stream.Read: does not model a second call after a failure, which the only caller never makes; bytes copied before the failure in the same call are not described.
- Backend.Backend.Submit: does not model misaligned buffers.
- BackendScripts.Script: stated for requests below 4 GiB, which the ring does not truncate (`Backend.PreparedExactly`); a session that reads one offset twice sees it cut short alike.
- BatchProtocol.StopsCleanlyExactly: a call in which some read may fail lets any read fail, also one that only takes carried bytes or finds nothing left to request; such a read of a `ShardStream` cannot fail, so on a faulty device a stop at the last batch of a stream that was requested in full is clean although this does not say so.
- The seeded shuffle and `ShardSet::discover`: the stream is verified for an arbitrary order; directory listing depends on the operating system.
- Path relativising and resolving: two functions given as parameters; symbolic links and the working directory are not modelled.
- Reads cancelled when a backend is destroyed with reads in flight: they are taken not to write afterwards.
- The number of worker threads, memory use and throughput.
- Memory mapping and sinks (`src/mmap.cpp`, `src/sink.cpp`): thin wrappers with one-branch facts.
- The lifetime of spans returned to callers beyond the buffer they point into.
