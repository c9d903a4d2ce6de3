/** `for_each_batch` over a shard list: the reads of its producer are reads of a `ShardStream`, and what
    the callback sees is the windows of the shards. */
module ForEachBatch {
  import opened Common
  import opened Shards
  import opened BackendContract
  import opened Delivery
  import opened ShardStream
  import opened StreamRuns
  import opened BatchProtocol
  import ShortReads

  /** The call over these shards, whose kernel cuts reads short as `cuts` says. */
  function CallOf(
    fs: FileSystem, shards: seq<Shard>, order: seq<nat>, options: BatchOptions, cuts: seq<Cuts>, faults: Faults): Config
    requires Supported(fs, options)
    requires forall i :: 0 <= i < |order| ==> order[i] < |shards|
  {
    Config(Streamed(fs, shards, order, options, cuts, 0), options.batchBytes, options.prefetch, faults.any,
           exists i :: 0 <= i < |order| && !Readable(fs, shards[order[i]]))
  }

  /** The checks at the start of the call, and the stream it reads. */
  method Start(
    fs: FileSystem, shards: seq<Shard>, order: seq<nat>, options: BatchOptions, cuts: seq<Cuts>, faults: Faults)
    returns (r: Outcome<Stream>)
    requires Supported(fs, options)
    requires forall i :: 0 <= i < |order| ==> order[i] < |shards|
    ensures r.Ok? <==> options.batchBytes > 0 && options.prefetch > 0 && options.readDepth > 0
    ensures r.Err? ==> r.error == InvalidOption(
              if options.batchBytes == 0 then "batch_bytes" else if options.prefetch == 0 then "prefetch" else "read_depth")
    ensures r.Ok? ==>
              var c := CallOf(fs, shards, order, options, cuts, faults);
              fresh(r.value.Repr) && r.value.fs == fs && r.value.shards == shards && r.value.order == order
              && r.value.faults == faults && r.value.options == options && r.value.readDepth == options.readDepth
              && c.prefetch == options.prefetch && c.Accepted() && Feeds(r.value, c) && r.value.Remaining() == c.total
  {
    if options.batchBytes == 0 {
      return Err(InvalidOption("batch_bytes"));
    }
    if options.prefetch == 0 {
      return Err(InvalidOption("prefetch"));
    }
    if options.readDepth == 0 {
      return Err(InvalidOption("read_depth"));
    }
    hide Stream.Valid, Stream.Idle, Stream.Remaining, Streamed, Readable, Supported;
    var stream := new Stream(fs, shards, order, options, cuts, faults);
    return Ok(stream);
  }

  /** The stream is sound, and fails as the call's reads do. */
  ghost predicate Feeds(stream: Stream, c: Config)
    reads stream, stream.Repr
  {
    && stream.Valid() && stream.Idle()
    && c.mayFail == stream.faults.any && c.broken == !stream.AllReadable()
  }

  /** One read of the producer into the buffer it holds is a step of the protocol with the same effect on
      the buffer, on what is left of the stream and on the producer. */
  method ProducerRead(c: Config, s: State, stream: Stream, out: array<byte>)
    returns (got: Outcome<nat>, a: Action)
    requires c.Accepted() && InBounds(c, s) && s.producer.Reading?
    requires Feeds(stream, c) && s.rest == stream.Remaining()
    requires out !in stream.Repr && out.Length == c.batchBytes && s.memory[s.producer.buffer] == out[..]
    modifies stream.Repr, out
    ensures Enabled(c, s, a)
    ensures match got
            case Ok(n) => a == if n > 0 then ReadSome else ReadNothing
            case Err(error) => a == ReadFails(error, out[..])
    ensures Apply(c, s, a).memory == s.memory[s.producer.buffer := out[..]]
    ensures got.Ok? ==> fresh(stream.Repr - old(stream.Repr))
    ensures got.Ok? ==> Feeds(stream, c) && Apply(c, s, a).rest == stream.Remaining()
    ensures got.Ok? && got.value > 0 ==> Apply(c, s, a).producer == Sending(Filled(s.producer.buffer, got.value))
    ensures got.Err? ==> stream.Failure(got.error) && Apply(c, s, a).producer == Failing(got.error)
  {
    hide Stream.Valid, Stream.Idle, Stream.Remaining, Stream.AllReadable, Stream.Failure;
    ghost var before := out[..];
    got := stream.Read(out);
    if got.Err? {
      a := ReadFails(got.error, out[..]);
    } else {
      a := if got.value > 0 then ReadSome else ReadNothing;
      WrittenFront(before, out[..], got.value);
      assert got.value == 0 ==> out[..] == before && s.memory[s.producer.buffer := before] == s.memory;
      FrontOf(s.rest, out[..got.value], stream.Remaining());
    }
  }

  lemma {:induction false} WrittenFront(before: seq<byte>, now: seq<byte>, n: nat)
    requires n <= |now| == |before| && now[n..] == before[n..]
    ensures Overwrite(before, now[..n]) == now
  {
  }

  lemma {:induction false} FrontOf(rest: seq<byte>, got: seq<byte>, left: seq<byte>)
    requires got + left == rest
    ensures rest[..|got|] == got && rest[|got|..] == left
    ensures got == [] ==> left == rest
  {
  }

  /** What a caller of `for_each_batch` over a shard list gets, in every interleaving. At any moment the
      batches delivered are the first batches of what the shards deliver: of their windows, if the kernel
      cuts no read short inside a file. A callback that never stops the stream sees all of them, and
      success, unless a read failed; with an unreadable shard it gets an error. */
  lemma {:induction false} DeliversTheWindows(
    fs: FileSystem, shards: seq<Shard>, order: seq<nat>, options: BatchOptions, cuts: seq<Cuts>, faults: Faults,
    steps: seq<Action>, t: State)
    requires Supported(fs, options)
    requires forall i :: 0 <= i < |order| ==> order[i] < |shards|
    requires var c := CallOf(fs, shards, order, options, cuts, faults); c.Accepted() && Runs(c, Init(c), steps, t)
    ensures Delivers(fs, shards, order, options, cuts, faults, AnswersOf(steps), t)
  {
    hide Supported, Readable, Windows, Streamed, Runs, Join, Batches, ShortReads.KernelNeverShort, AnswersOf, FailuresOf;
    var c := CallOf(fs, shards, order, options, cuts, faults);
    if ShortReads.KernelNeverShort(fs, shards, order, options, cuts) {
      ShortReads.WholeStream(fs, shards, order, options, cuts);
    }
    DeliversAPrefix(c, steps, t);
    if c.broken {
      BrokenDeliversWhole(c, steps, t);
      if ShortReads.KernelNeverShort(fs, shards, order, options, cuts) {
        BatchesOfLonger(c.total, Windows(fs, shards, order), c.batchBytes, t.delivered);
      }
    }
    AnswersDecide(c, steps, t);
    if t.consumer.Done? {
      StopsCleanly(c, steps, t);
      if forall i :: 0 <= i < |AnswersOf(steps)| ==> AnswersOf(steps)[i] == Continue {
        DeliversAll(c, steps, t);
      }
      if !faults.any && !c.broken {
        QuietAtStart(c);
        RunStaysQuiet(c, Init(c), steps, t);
      }
    }
  }

  /** The batches delivered are the first ones, one for each answer of the callback, and only the last
      answer may be other than to continue. If all were, success means that everything was delivered, and
      without faults and unreadable shards it is certain; a stop is then a success too, and a throw is
      passed on. */
  ghost predicate Delivers(
    fs: FileSystem, shards: seq<Shard>, order: seq<nat>, options: BatchOptions, cuts: seq<Cuts>, faults: Faults,
    answers: seq<Answer>, t: State)
    requires Supported(fs, options) && options.batchBytes > 0
    requires forall i :: 0 <= i < |order| ==> order[i] < |shards|
  {
    var streamed, windows := Streamed(fs, shards, order, options, cuts, 0), Windows(fs, shards, order);
    var readable := forall i :: 0 <= i < |order| ==> Readable(fs, shards[order[i]]);
    var toTheEnd := forall i :: 0 <= i < |answers| ==> answers[i] == Continue;
    && t.delivered <= Batches(streamed, options.batchBytes)
    && (ShortReads.KernelNeverShort(fs, shards, order, options, cuts) ==>
          && t.delivered <= Batches(windows, options.batchBytes)
          && (readable ==> streamed == windows))
    && |t.delivered| == |answers|
    && (forall i :: 0 <= i < |answers| && i + 1 < |answers| ==> answers[i] == Continue)
    && (t.consumer.Done? ==>
          && (t.consumer.result.Threw? <==> Throw in answers)
          && (toTheEnd && t.consumer.result.Succeeded? ==> Join(t.delivered) == streamed && readable)
          && (!faults.any && readable && Throw !in answers ==> t.consumer.result.Succeeded?))
  }

  lemma {:induction false} QuietAtStart(c: Config)
    ensures Quiet(c, Init(c))
  {
  }

  // ----- the two threads over a stream -----

  /** The producer's next step outside `stream.read`, if it is not blocked. */
  function ProducerMove(c: Config, s: State): Option<Action> {
    match s.producer
    case Receiving => if s.free != [] then Some(TakeBuffer) else if s.freeClosed then Some(ReceiveClosed) else None
    case Sending(_) => if s.readyClosed then Some(SendClosed) else if |s.ready| < c.prefetch then Some(SendReady) else None
    case Failing(_) => Some(SetError)
    case Closing => Some(CloseByProducer)
    case _ => None
  }

  /** The consumer's next step, if it is not blocked. The callback answers from all it has seen. */
  function ConsumerMove(c: Config, s: State, callback: seq<seq<byte>> -> Answer): Option<Action>
    requires InBounds(c, s)
  {
    match s.consumer
    case Awaiting => if s.ready != [] then Some(TakeBatch) else if s.readyClosed then Some(EndOfStream) else None
    case Calling(batch) => Some(Call(callback(s.delivered + [Contents(s, batch)])))
    case Returning(_) => if !s.freeClosed && |s.free| < c.prefetch + 1 then Some(ReturnBuffer) else None
    case ClosingFree => Some(CloseFree)
    case ClosingReady => Some(CloseReady)
    case Taking => Some(TakeError)
    case Done(_) => None
  }

  lemma {:induction false} MovesAreEnabled(c: Config, s: State, callback: seq<seq<byte>> -> Answer)
    requires InBounds(c, s)
    ensures ProducerMove(c, s).Some? ==>
              var a := ProducerMove(c, s).value; Enabled(c, s, a) && ByProducer(a) && !a.ReadSome? && !a.ReadFails?
    ensures ConsumerMove(c, s, callback).Some? ==>
              var a := ConsumerMove(c, s, callback).value;
              Enabled(c, s, a) && !ByProducer(a) && (a.Call? ==> a.answer == callback(Apply(c, s, a).delivered))
  {
    hide Contents, Overwrite, Slice, Config.Reads;
  }

  /** Until both threads are done one of them can move. */
  lemma {:induction false} SomeoneMoves(c: Config, s: State, callback: seq<seq<byte>> -> Answer)
    requires c.Accepted() && Inv(c, s) && !(s.producer.Gone? && s.consumer.Done?)
    ensures s.producer.Reading? || ProducerMove(c, s).Some? || ConsumerMove(c, s, callback).Some?
  {
    hide Inv;
    NeverStuck(c, s);
  }

  /** Buffers have the batch size, and until a read has failed the stream has left what the state says. */
  ghost predicate Attached(stream: Stream, c: Config, s: State)
    reads stream, stream.Repr
  {
    && (forall b :: 0 <= b < |s.memory| ==> |s.memory[b]| == c.batchBytes)
    && (s.failed.None? ==> Feeds(stream, c) && s.rest == stream.Remaining())
    && (s.failed.Some? ==> stream.Failure(s.failed.value))
  }

  /** `stream.read` into the buffer the producer holds. */
  method ReadStep(c: Config, s: State, stream: Stream) returns (t: State, a: Action)
    requires c.Accepted() && InBounds(c, s) && s.producer.Reading? && s.failed.None? && Attached(stream, c, s)
    modifies stream.Repr
    ensures Enabled(c, s, a) && !a.Call? && t == Apply(c, s, a) && Attached(stream, c, t)
    ensures t.failed.None? ==> fresh(stream.Repr - old(stream.Repr))
  {
    hide Stream.Valid, Stream.Idle, Stream.Remaining, Stream.AllReadable, Stream.Failure, Overwrite;
    var b := s.producer.buffer;
    var out := new byte[c.batchBytes];
    forall k | 0 <= k < c.batchBytes { out[k] := s.memory[b][k]; }
    assert out[..] == s.memory[b];
    var got;
    got, a := ProducerRead(c, s, stream, out);
    t := Apply(c, s, a);
  }

  /** Some thread takes a step: an arbitrary one, if both can. */
  method OneStep(c: Config, s: State, stream: Stream, callback: seq<seq<byte>> -> Answer) returns (t: State, a: Action)
    requires c.Accepted() && Inv(c, s) && Attached(stream, c, s)
    requires !(s.producer.Gone? && s.consumer.Done?)
    modifies if s.failed.None? then stream.Repr else {}
    ensures Enabled(c, s, a) && InBounds(c, s) && t == Apply(c, s, a) && Attached(stream, c, t)
    ensures a.Call? ==> a.answer == callback(t.delivered)
    ensures t.failed.None? ==> s.failed.None? && fresh(stream.Repr - old(stream.Repr))
  {
    hide Owned, Accounted, Attached, Feeds, Stream.Failure;
    var producerFirst: bool := *;
    var p, k := ProducerMove(c, s), ConsumerMove(c, s, callback);
    SomeoneMoves(c, s, callback);
    MovesAreEnabled(c, s, callback);
    if s.producer.Reading? && (producerFirst || k.None?) {
      t, a := ReadStep(c, s, stream);
    } else {
      a := if p.Some? && (producerFirst || k.None?) then p.value else k.value;
      t := Apply(c, s, a);
      StaysAttached(stream, c, s, a);
    }
  }

  /** Steps outside `stream.read` leave the stream and the buffers alone. */
  lemma {:induction false} StaysAttached(stream: Stream, c: Config, s: State, a: Action)
    requires InBounds(c, s) && Enabled(c, s, a) && Attached(stream, c, s)
    requires !a.ReadSome? && !a.ReadNothing? && !a.ReadFails?
    ensures Attached(stream, c, Apply(c, s, a)) && Apply(c, s, a).failed == s.failed
  {
    hide Feeds, Stream.Valid, Stream.Failure, InBounds, Contents;
  }

  /** `answers` are the callback's, each from the batches it has seen so far. */
  ghost predicate AnswersAre(callback: seq<seq<byte>> -> Answer, delivered: seq<seq<byte>>, answers: seq<Answer>) {
    |answers| == |delivered| && forall i :: 0 <= i < |answers| ==> answers[i] == callback(delivered[..i + 1])
  }

  lemma {:induction false} StepAnswers(
    c: Config, s: State, a: Action, callback: seq<seq<byte>> -> Answer, answers: seq<Answer>)
    requires InBounds(c, s) && Enabled(c, s, a) && AnswersAre(callback, s.delivered, answers)
    requires a.Call? ==> a.answer == callback(Apply(c, s, a).delivered)
    ensures AnswersAre(callback, Apply(c, s, a).delivered, answers + AnswerOf(a))
  {
    hide InBounds, Contents, Overwrite;
    var t := Apply(c, s, a);
    if a.Call? {
      assert t.delivered[..|t.delivered|] == t.delivered;
      forall i | 0 <= i < |answers| ensures answers[i] == callback(t.delivered[..i + 1]) {
        assert t.delivered[..i + 1] == s.delivered[..i + 1];
      }
    } else {
      assert answers + [] == answers;
    }
  }

  /** `for_each_batch`: the threads run over a `ShardStream`, in any interleaving, until both are done. The
      callback answers from the batches it has seen. */
  method ForEachBatch(
    fs: FileSystem, shards: seq<Shard>, order: seq<nat>, options: BatchOptions, cuts: seq<Cuts>, faults: Faults,
    callback: seq<seq<byte>> -> Answer)
    returns (r: Outcome<State>, answers: seq<Answer>)
    requires Supported(fs, options)
    requires forall i :: 0 <= i < |order| ==> order[i] < |shards|
    ensures r.Ok? <==> options.batchBytes > 0 && options.prefetch > 0 && options.readDepth > 0
    ensures r.Err? ==> r.error.InvalidOption? && answers == []
    ensures r.Ok? ==> r.value.producer.Gone? && r.value.consumer.Done? && |r.value.memory| == options.prefetch + 1
    ensures r.Ok? ==> AnswersAre(callback, r.value.delivered, answers)
    ensures r.Ok? ==> Delivers(fs, shards, order, options, cuts, faults, answers, r.value)
    ensures r.Ok? && r.value.consumer.result.Failed? ==>
              ReadFailure(fs, shards, order, faults, r.value.consumer.result.failure)
  {
    hide Supported, Streamed, Delivers, Inv, Runs, Attached, Feeds, Measure, Apply, Enabled, InBounds, ReadFailure,
      AnswersOf, AnswersAre, AnswerOf, FailuresOf;
    answers := [];
    var started := Start(fs, shards, order, options, cuts, faults);
    if started.Err? {
      return Err(started.error), answers;
    }
    var stream := started.value;
    var c := CallOf(fs, shards, order, options, cuts, faults);
    var s := Init(c);
    ghost var steps: seq<Action> := [];
    InitInv(c);
    NoSteps(c, s);
    AttachedAtStart(stream, c);
    NoAnswers(callback);
    while !(s.producer.Gone? && s.consumer.Done?)
      invariant Inv(c, s) && Runs(c, Init(c), steps, s) && Attached(stream, c, s)
      invariant AnswersAre(callback, s.delivered, answers) && answers == AnswersOf(steps)
      invariant s.failed.None? ==> fresh(stream.Repr)
      decreases Measure(s)
    {
      var t, a := OneStep(c, s, stream, callback);
      RunOn(c, Init(c), steps, s, a);
      StepInv(c, s, a);
      StepShrinks(c, s, a);
      StepAnswers(c, s, a, callback, answers);
      StepsOn(steps, a);
      steps, answers, s := steps + [a], answers + AnswerOf(a), t;
    }
    DeliversTheWindows(fs, shards, order, options, cuts, faults, steps, s);
    StopsCleanly(c, steps, s);
    AnswersDecide(c, steps, s);
    FailureIs(stream, c, s);
    BuffersMade(c, s);
    return Ok(s), answers;
  }

  lemma {:induction false} BuffersMade(c: Config, s: State)
    requires c.Accepted() && Inv(c, s)
    ensures |s.memory| == c.prefetch + 1
  {
    hide Owned, Accounted;
  }

  lemma {:induction false} NoAnswers(callback: seq<seq<byte>> -> Answer)
    ensures AnswersAre(callback, [], []) && AnswersOf([]) == []
  {
  }

  lemma {:induction false} AttachedAtStart(stream: Stream, c: Config)
    requires Feeds(stream, c) && stream.Remaining() == c.total
    ensures Attached(stream, c, Init(c)) && Init(c).failed.None?
  {
    hide Feeds, Stream.Valid, Stream.Remaining;
  }

  lemma {:induction false} FailureIs(stream: Stream, c: Config, s: State)
    requires Attached(stream, c, s)
    ensures forall e :: s.failed == Some(e) ==>
              && (forall i :: 0 <= i < |stream.order| ==> stream.order[i] < |stream.shards|)
              && ReadFailure(stream.fs, stream.shards, stream.order, stream.faults, e)
  {
    hide Feeds, ReadFailure;
  }
}
