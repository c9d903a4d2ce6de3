/** `for_each_batch` of src/dataset.cpp as a step relation: a producer and a consumer thread pass
    `prefetch + 1` buffers around two bounded channels. Every run is an arbitrary interleaving. */
module BatchProtocol {
  import opened Common
  import opened StreamRuns
  import Align

  /** A call: `total` is what the stream can deliver; `mayFail` says whether any read may fail, and
      `broken` that the stream ends in a failure, which a read meets when it wants more than is left. */
  datatype Config = Config(total: seq<byte>, batchBytes: nat, prefetch: nat, mayFail: bool, broken: bool) {
    ghost predicate Accepted() {
      batchBytes > 0 && prefetch > 0
    }

    /** A read that finds `rest` left delivers something. */
    predicate Reads(rest: seq<byte>) {
      rest != [] && (broken ==> |rest| >= batchBytes)
    }
  }

  /** A filled buffer in `ready`, or in a thread's hands: which buffer, and how much of it. */
  datatype Filled = Filled(buffer: nat, size: nat)

  datatype Producer =
    | Receiving               // free.recv()
    | Reading(buffer: nat)    // stream.read
    | Sending(batch: Filled)  // ready.send
    | Failing(failure: Error) // error.set
    | Closing                 // ready.close()
    | Gone

  datatype Consumer =
    | Awaiting               // ready.recv()
    | Calling(batch: Filled) // callback
    | Returning(buffer: nat) // free.send
    | ClosingFree
    | ClosingReady
    | Taking                 // error.take()
    | Done(result: Result)

  datatype Result = Succeeded | Failed(failure: Error) | Threw

  datatype Answer = Continue | Stop | Throw

  datatype State = State(
    memory: seq<seq<byte>>, // the contents of each buffer
    free: seq<nat>, freeClosed: bool,
    ready: seq<Filled>, readyClosed: bool,
    producer: Producer, consumer: Consumer,
    keepGoing: bool, threw: bool,
    error: Option<Error>,
    failed: Option<Error>,     // the failure of a read, if there was one
    rest: seq<byte>,           // what the stream has not delivered yet
    delivered: seq<seq<byte>>, // what each call of the callback saw
    dropped: seq<seq<byte>>)   // a batch the producer read but could not send

  /** A step of either thread; the arguments are what the step does not decide itself. */
  datatype Action =
    | TakeBuffer
    | ReceiveClosed
    | ReadSome
    | ReadNothing
    | ReadFails(failure: Error, scribble: seq<byte>)
    | SetError
    | CloseByProducer
    | SendReady
    | SendClosed
    | TakeBatch
    | EndOfStream
    | Call(answer: Answer)
    | ReturnBuffer
    | CloseFree
    | CloseReady
    | TakeError

  function Contents(s: State, batch: Filled): seq<byte>
    requires batch.buffer < |s.memory|
  {
    Slice(s.memory[batch.buffer], 0, batch.size)
  }

  /** What a read puts at the front of a buffer. */
  function Overwrite(before: seq<byte>, got: seq<byte>): seq<byte> {
    got + Slice(before, |got|, |before|)
  }

  function Init(c: Config): State {
    State(seq(c.prefetch + 1, _ => seq(c.batchBytes, _ => 0)),
          seq(c.prefetch + 1, i => i), false, [], false,
          Receiving, Awaiting, true, false, None, None, c.total, [], [])
  }

  /** When a step can be taken. A full or empty open channel blocks; a closed one is drained by
      `recv` and refused by `send`. */
  predicate Enabled(c: Config, s: State, a: Action) {
    match a
    case TakeBuffer => s.producer.Receiving? && s.free != []
    case ReceiveClosed => s.producer.Receiving? && s.free == [] && s.freeClosed
    case ReadSome => s.producer.Reading? && c.Reads(s.rest)
    case ReadNothing => s.producer.Reading? && s.rest == [] && !c.broken
    case ReadFails(_, scribble) =>
      s.producer.Reading? && |scribble| == c.batchBytes && (c.mayFail || (c.broken && |s.rest| < c.batchBytes))
    case SetError => s.producer.Failing?
    case CloseByProducer => s.producer.Closing?
    case SendReady => s.producer.Sending? && !s.readyClosed && |s.ready| < c.prefetch
    case SendClosed => s.producer.Sending? && s.readyClosed
    case TakeBatch => s.consumer.Awaiting? && s.ready != []
    case EndOfStream => s.consumer.Awaiting? && s.ready == [] && s.readyClosed
    case Call(_) => s.consumer.Calling?
    case ReturnBuffer => s.consumer.Returning? && !s.freeClosed && |s.free| < c.prefetch + 1
    case CloseFree => s.consumer.ClosingFree?
    case CloseReady => s.consumer.ClosingReady?
    case TakeError => s.consumer.Taking?
  }

  /** Buffers named by the state exist. */
  ghost predicate InBounds(c: Config, s: State) {
    && |s.memory| == c.prefetch + 1
    && (forall i :: 0 <= i < |s.free| ==> s.free[i] <= c.prefetch)
    && (forall i :: 0 <= i < |s.ready| ==> s.ready[i].buffer <= c.prefetch)
    && (s.producer.Reading? ==> s.producer.buffer <= c.prefetch)
    && (s.producer.Sending? ==> s.producer.batch.buffer <= c.prefetch)
    && (s.consumer.Calling? ==> s.consumer.batch.buffer <= c.prefetch)
    && (s.consumer.Returning? ==> s.consumer.buffer <= c.prefetch)
  }

  /** The next state. */
  function Apply(c: Config, s: State, a: Action): State
    requires InBounds(c, s) && Enabled(c, s, a)
  {
    match a
    case TakeBuffer => s.(free := s.free[1..], producer := Reading(s.free[0]))
    case ReceiveClosed => s.(producer := Gone)
    case ReadSome =>
      var b, n := s.producer.buffer, Min(c.batchBytes, |s.rest|);
      s.(memory := s.memory[b := Overwrite(s.memory[b], s.rest[..n])],
         rest := s.rest[n..], producer := Sending(Filled(b, n)))
    case ReadNothing => s.(producer := Closing)
    case ReadFails(failure, scribble) =>
      s.(memory := s.memory[s.producer.buffer := scribble], producer := Failing(failure), failed := Some(failure))
    case SetError =>
      s.(error := if s.error.None? then Some(s.producer.failure) else s.error, producer := Closing)
    case CloseByProducer => s.(readyClosed := true, producer := Gone)
    case SendReady => s.(ready := s.ready + [s.producer.batch], producer := Receiving)
    case SendClosed => s.(producer := Gone, dropped := s.dropped + [Contents(s, s.producer.batch)])
    case TakeBatch => s.(ready := s.ready[1..], consumer := Calling(s.ready[0]))
    case EndOfStream => s.(consumer := ClosingFree)
    case Call(answer) =>
      var seen := s.(delivered := s.delivered + [Contents(s, s.consumer.batch)]);
      if answer == Throw then seen.(threw := true, consumer := ClosingFree)
      else seen.(keepGoing := answer == Continue, consumer := Returning(s.consumer.batch.buffer))
    case ReturnBuffer =>
      s.(free := s.free + [s.consumer.buffer], consumer := if s.keepGoing then Awaiting else ClosingFree)
    case CloseFree => s.(freeClosed := true, consumer := ClosingReady)
    case CloseReady => s.(readyClosed := true, consumer := Taking)
    case TakeError =>
      s.(consumer := Done(if s.threw then Threw else if s.error.Some? then Failed(s.error.value) else Succeeded))
  }

  // ----- ownership of the buffers -----

  /** How often `b` occurs in `s`. */
  function Times(s: seq<nat>, b: nat): nat {
    if s == [] then 0 else (if s[0] == b then 1 else 0) + Times(s[1..], b)
  }

  function Buffers(ready: seq<Filled>): (r: seq<nat>)
    ensures |r| == |ready| && forall i :: 0 <= i < |r| ==> r[i] == ready[i].buffer
  {
    seq(|ready|, i requires 0 <= i < |ready| => ready[i].buffer)
  }

  function InHand(s: State): seq<nat> {
    (if s.producer.Reading? then [s.producer.buffer]
     else if s.producer.Sending? then [s.producer.batch.buffer] else []) +
    (if s.consumer.Calling? then [s.consumer.batch.buffer]
     else if s.consumer.Returning? then [s.consumer.buffer] else [])
  }

  function ProducerHolds(p: Producer, b: nat): nat {
    if (p.Reading? && p.buffer == b) || (p.Sending? && p.batch.buffer == b) then 1 else 0
  }

  function ConsumerHolds(k: Consumer, b: nat): nat {
    if (k.Calling? && k.batch.buffer == b) || (k.Returning? && k.buffer == b) then 1 else 0
  }

  /** How many holders buffer `b` has: entries of the channels, and threads. */
  function Holders(s: State, b: nat): nat {
    Times(s.free, b) + Times(Buffers(s.ready), b) + ProducerHolds(s.producer, b) + ConsumerHolds(s.consumer, b)
  }

  predicate Running(p: Producer) { p.Receiving? || p.Reading? || p.Sending? }

  /** No buffer has two holders; none is lost while the producer runs and no callback has thrown. */
  ghost predicate Owned(c: Config, s: State) {
    && |s.memory| == c.prefetch + 1
    && (forall b: nat :: Holders(s, b) <= if b <= c.prefetch then 1 else 0)
    && (Running(s.producer) && !s.threw ==> forall b: nat :: b <= c.prefetch ==> Holders(s, b) == 1)
  }

  lemma {:induction false} TimesSplit(s: seq<nat>, t: seq<nat>, b: nat)
    ensures Times(s + t, b) == Times(s, b) + Times(t, b)
  {
    if s == [] {
      assert s + t == t;
    } else {
      TimesSplit(s[1..], t, b);
      assert (s + t)[1..] == s[1..] + t;
    }
  }

  lemma {:induction false} TimesIn(s: seq<nat>, i: nat)
    requires i < |s|
    ensures Times(s, s[i]) > 0
  {
    if i > 0 { TimesIn(s[1..], i - 1); }
  }

  lemma {:induction false} TimesOne(x: nat, b: nat)
    ensures Times([x], b) == if x == b then 1 else 0
  {
    assert [x][1..] == [];
  }

  /** Owned buffers exist. */
  lemma {:induction false} OwnedInBounds(c: Config, s: State)
    requires Owned(c, s)
    ensures InBounds(c, s)
  {
    hide Times;
    forall i | 0 <= i < |s.free| ensures s.free[i] <= c.prefetch {
      TimesIn(s.free, i);
      assert Holders(s, s.free[i]) > 0;
    }
    forall i | 0 <= i < |s.ready| ensures s.ready[i].buffer <= c.prefetch {
      TimesIn(Buffers(s.ready), i);
      assert Holders(s, s.ready[i].buffer) > 0;
    }
    if s.producer.Reading? { assert Holders(s, s.producer.buffer) > 0; }
    if s.producer.Sending? { assert Holders(s, s.producer.batch.buffer) > 0; }
    if s.consumer.Calling? { assert Holders(s, s.consumer.batch.buffer) > 0; }
    if s.consumer.Returning? { assert Holders(s, s.consumer.buffer) > 0; }
  }

  lemma {:induction false} TimesUpTo(n: nat, b: nat)
    ensures Times(seq(n, i => i), b) == if b < n then 1 else 0
  {
    var s := seq(n, i => i);
    if n > 0 {
      TimesUpTo(n - 1, b);
      TimesSplit(seq(n - 1, i => i), [n - 1 as nat], b);
      TimesOne(n - 1, b);
      assert s == seq(n - 1, i => i) + [n - 1 as nat];
    }
  }

  lemma {:induction false} InitOwned(c: Config)
    ensures Owned(c, Init(c))
  {
    hide Times;
    forall b: nat ensures Holders(Init(c), b) == if b <= c.prefetch then 1 else 0 {
      TimesUpTo(c.prefetch + 1, b);
      TimesNone(b);
      assert Buffers([]) == [];
    }
  }

  lemma {:induction false} TimesNone(b: nat)
    ensures Times([], b) == 0
  {
  }

  predicate ByProducer(a: Action) {
    match a
    case TakeBuffer => true
    case ReceiveClosed => true
    case ReadSome => true
    case ReadNothing => true
    case ReadFails(_, _) => true
    case SetError => true
    case CloseByProducer => true
    case SendReady => true
    case SendClosed => true
    case _ => false
  }

  lemma {:induction false} FrontTimes(free: seq<nat>, b: nat)
    requires free != []
    ensures Times(free, b) == (if free[0] == b then 1 else 0) + Times(free[1..], b)
  {
  }

  lemma {:induction false} ReadyFront(ready: seq<Filled>, b: nat)
    requires ready != []
    ensures Times(Buffers(ready), b) == (if ready[0].buffer == b then 1 else 0) + Times(Buffers(ready[1..]), b)
  {
    assert Buffers(ready)[1..] == Buffers(ready[1..]);
  }

  lemma {:induction false} ReadyBack(ready: seq<Filled>, last: Filled, b: nat)
    ensures Times(Buffers(ready + [last]), b) == Times(Buffers(ready), b) + if last.buffer == b then 1 else 0
  {
    assert Buffers(ready + [last]) == Buffers(ready) + [last.buffer];
    TimesSplit(Buffers(ready), [last.buffer], b);
    TimesOne(last.buffer, b);
  }

  /** A producer step passes its buffer on, or gives it up by ending the thread. */
  lemma {:induction false} ProducerStepHolders(c: Config, s: State, a: Action, b: nat)
    requires InBounds(c, s) && Enabled(c, s, a) && ByProducer(a)
    ensures Holders(Apply(c, s, a), b) <= Holders(s, b)
    ensures Running(Apply(c, s, a).producer) ==> Running(s.producer) && Holders(Apply(c, s, a), b) == Holders(s, b)
  {
    hide Contents, Overwrite, Slice, Times, Buffers;
    match a {
      case TakeBuffer => FrontTimes(s.free, b);
      case SendReady => ReadyBack(s.ready, s.producer.batch, b);
      case _ =>
    }
  }

  lemma {:induction false} ConsumerStepHolders(c: Config, s: State, a: Action, b: nat)
    requires InBounds(c, s) && Enabled(c, s, a) && !ByProducer(a)
    ensures Holders(Apply(c, s, a), b) <= Holders(s, b)
    ensures !Apply(c, s, a).threw ==> Holders(Apply(c, s, a), b) == Holders(s, b)
  {
    hide Contents, Overwrite, Slice, Times, Buffers;
    match a {
      case TakeBatch => ReadyFront(s.ready, b);
      case ReturnBuffer =>
        TimesSplit(s.free, [s.consumer.buffer], b);
        TimesOne(s.consumer.buffer, b);
      case _ =>
    }
  }

  lemma {:induction false} ProducerStepFrame(c: Config, s: State, a: Action)
    requires InBounds(c, s) && Enabled(c, s, a) && ByProducer(a)
    ensures |Apply(c, s, a).memory| == |s.memory|
    ensures Apply(c, s, a).consumer == s.consumer && Apply(c, s, a).threw == s.threw
  {
    hide Contents, Overwrite, Slice, Config.Reads;
  }

  lemma {:induction false} ConsumerStepFrame(c: Config, s: State, a: Action)
    requires InBounds(c, s) && Enabled(c, s, a) && !ByProducer(a)
    ensures Apply(c, s, a).memory == s.memory
    ensures Apply(c, s, a).producer == s.producer && (s.threw ==> Apply(c, s, a).threw)
    ensures s.readyClosed ==> Apply(c, s, a).readyClosed
  {
    hide Contents, Overwrite, Slice, Config.Reads;
  }

  lemma {:induction false} StepOwned(c: Config, s: State, a: Action)
    requires Owned(c, s) && InBounds(c, s) && Enabled(c, s, a)
    ensures Owned(c, Apply(c, s, a))
  {
    hide Holders, Apply, Enabled;
    var t := Apply(c, s, a);
    if ByProducer(a) {
      ProducerStepFrame(c, s, a);
    } else {
      ConsumerStepFrame(c, s, a);
    }
    forall b: nat
      ensures Holders(t, b) <= Holders(s, b)
      ensures Running(t.producer) && !t.threw ==> Running(s.producer) && Holders(t, b) == Holders(s, b)
    {
      if ByProducer(a) {
        ProducerStepHolders(c, s, a, b);
      } else {
        ConsumerStepHolders(c, s, a, b);
      }
    }
  }

  // ----- the stream's bytes -----

  /** The contents of the batches waiting in `ready`. */
  function Waiting(memory: seq<seq<byte>>, ready: seq<Filled>): seq<seq<byte>>
    requires forall i :: 0 <= i < |ready| ==> ready[i].buffer < |memory|
  {
    if ready == [] then []
    else [Slice(memory[ready[0].buffer], 0, ready[0].size)] + Waiting(memory, ready[1..])
  }

  function WithConsumer(s: State): seq<seq<byte>>
    requires s.consumer.Calling? ==> s.consumer.batch.buffer < |s.memory|
  {
    if s.consumer.Calling? then [Contents(s, s.consumer.batch)] else []
  }

  function WithProducer(s: State): seq<seq<byte>>
    requires s.producer.Sending? ==> s.producer.batch.buffer < |s.memory|
  {
    if s.producer.Sending? then [Contents(s, s.producer.batch)] else []
  }

  /** The batches of the stream in order: delivered, with the consumer, waiting, with the producer,
      dropped, and not read yet. */
  ghost predicate Accounted(c: Config, s: State)
    requires c.Accepted() && InBounds(c, s)
  {
    && Batches(c.total, c.batchBytes) ==
       s.delivered + WithConsumer(s) + Waiting(s.memory, s.ready) + WithProducer(s) + s.dropped
       + Batches(s.rest, c.batchBytes)
    && (s.dropped != [] ==> s.producer.Gone?)
  }

  lemma {:induction false} WaitingBack(memory: seq<seq<byte>>, ready: seq<Filled>, last: Filled)
    requires forall i :: 0 <= i < |ready| ==> ready[i].buffer < |memory|
    requires last.buffer < |memory|
    ensures Waiting(memory, ready + [last]) ==
            Waiting(memory, ready) + [Slice(memory[last.buffer], 0, last.size)]
  {
    if ready == [] {
      assert ready + [last] == [last] && [last][1..] == [];
    } else {
      WaitingBack(memory, ready[1..], last);
      assert (ready + [last])[1..] == ready[1..] + [last];
    }
  }

  /** Writing a buffer that is not in `ready` leaves the waiting batches as they are. */
  lemma {:induction false} WaitingUntouched(memory: seq<seq<byte>>, ready: seq<Filled>, b: nat, data: seq<byte>)
    requires forall i :: 0 <= i < |ready| ==> ready[i].buffer < |memory|
    requires b < |memory| && forall i :: 0 <= i < |ready| ==> ready[i].buffer != b
    ensures Waiting(memory[b := data], ready) == Waiting(memory, ready)
  {
    if ready != [] { WaitingUntouched(memory, ready[1..], b, data); }
  }

  /** The buffer the producer reads into is in nobody else's hands. */
  lemma {:induction false} WrittenAlone(c: Config, s: State)
    requires Owned(c, s) && s.producer.Reading?
    ensures forall i :: 0 <= i < |s.ready| ==> s.ready[i].buffer != s.producer.buffer
    ensures s.consumer.Calling? ==> s.consumer.batch.buffer != s.producer.buffer
  {
    hide Times;
    var b := s.producer.buffer;
    assert Holders(s, b) <= 1;
    forall i | 0 <= i < |s.ready| ensures s.ready[i].buffer != b {
      TimesIn(Buffers(s.ready), i);
    }
  }

  lemma {:induction false} InitAccounted(c: Config)
    requires c.Accepted() && InBounds(c, Init(c))
    ensures Accounted(c, Init(c))
  {
    hide Batches;
  }

  lemma {:induction false} ReadAccounted(c: Config, s: State, a: Action)
    requires c.Accepted() && Owned(c, s) && InBounds(c, s) && Accounted(c, s)
    requires Enabled(c, s, a) && (a.ReadSome? || a.ReadFails?)
    requires InBounds(c, Apply(c, s, a))
    ensures Accounted(c, Apply(c, s, a))
  {
    hide Batches, Slice, Overwrite, Owned;
    var t, b := Apply(c, s, a), s.producer.buffer;
    WrittenAlone(c, s);
    WaitingUntouched(s.memory, s.ready, b, t.memory[b]);
    assert t.memory == s.memory[b := t.memory[b]];
    if a.ReadSome? {
      ReadIsNext(c, s);
    }
  }

  /** What a read puts into the buffer is the next batch of what is left. */
  lemma {:induction false} ReadIsNext(c: Config, s: State)
    requires c.Accepted() && InBounds(c, s) && Enabled(c, s, ReadSome) && InBounds(c, Apply(c, s, ReadSome))
    ensures var t := Apply(c, s, ReadSome);
            Batches(s.rest, c.batchBytes) == WithProducer(t) + Batches(t.rest, c.batchBytes)
  {
    hide Batches, Slice, Overwrite;
    var n := Min(c.batchBytes, |s.rest|);
    var got := s.rest[..n];
    assert s.rest == got + s.rest[n..];
    BatchesFront(s.rest, c.batchBytes, got, s.rest[n..]);
    OverwriteFront(s.memory[s.producer.buffer], got);
  }

  lemma {:induction false} OverwriteFront(before: seq<byte>, got: seq<byte>)
    ensures Slice(Overwrite(before, got), 0, |got|) == got
  {
  }

  lemma {:induction false} SendAccounted(c: Config, s: State, a: Action)
    requires c.Accepted() && InBounds(c, s) && Accounted(c, s)
    requires Enabled(c, s, a) && ByProducer(a) && !a.ReadSome? && !a.ReadFails?
    requires InBounds(c, Apply(c, s, a))
    ensures Accounted(c, Apply(c, s, a))
  {
    hide Batches, Slice, Overwrite, Waiting;
    match a {
      case SendReady => WaitingBack(s.memory, s.ready, s.producer.batch);
      case _ =>
    }
  }

  /** A batch moves from the channel to the consumer, and from there to the callback. */
  lemma {:induction false} PassOn<T>(d: seq<T>, x: T, w: seq<T>, p: seq<T>, q: seq<T>, r: seq<T>)
    ensures d + [x] + w + p + q + r == d + [] + ([x] + w) + p + q + r
    ensures (d + [x]) + [] + w + p + q + r == d + [x] + w + p + q + r
  {
    assert d + [x] + w == d + [] + ([x] + w);
    assert (d + [x]) + [] == d + [x];
  }

  lemma {:induction false} TakeAccounted(c: Config, s: State)
    requires c.Accepted() && InBounds(c, s) && Accounted(c, s)
    requires Enabled(c, s, TakeBatch) && InBounds(c, Apply(c, s, TakeBatch))
    ensures Accounted(c, Apply(c, s, TakeBatch))
  {
    hide Batches, Slice, Overwrite, Waiting;
    WaitingFront(s.memory, s.ready);
    PassOn(s.delivered, Contents(s, s.ready[0]), Waiting(s.memory, s.ready[1..]), WithProducer(s), s.dropped,
           Batches(s.rest, c.batchBytes));
  }

  lemma {:induction false} CallAccounted(c: Config, s: State, answer: Answer)
    requires c.Accepted() && InBounds(c, s) && Accounted(c, s)
    requires Enabled(c, s, Call(answer)) && InBounds(c, Apply(c, s, Call(answer)))
    ensures Accounted(c, Apply(c, s, Call(answer)))
  {
    hide Batches, Slice, Overwrite, Waiting;
    PassOn(s.delivered, Contents(s, s.consumer.batch), Waiting(s.memory, s.ready), WithProducer(s), s.dropped,
           Batches(s.rest, c.batchBytes));
  }

  lemma {:induction false} DeliverAccounted(c: Config, s: State, a: Action)
    requires c.Accepted() && InBounds(c, s) && Accounted(c, s)
    requires Enabled(c, s, a) && !ByProducer(a)
    requires InBounds(c, Apply(c, s, a))
    ensures Accounted(c, Apply(c, s, a))
  {
    match a {
      case TakeBatch => TakeAccounted(c, s);
      case Call(answer) => CallAccounted(c, s, answer);
      case _ => hide Batches, Slice, Overwrite, Waiting;
    }
  }

  lemma {:induction false} WaitingFront(memory: seq<seq<byte>>, ready: seq<Filled>)
    requires forall i :: 0 <= i < |ready| ==> ready[i].buffer < |memory|
    requires ready != []
    ensures Waiting(memory, ready) ==
            [Slice(memory[ready[0].buffer], 0, ready[0].size)] + Waiting(memory, ready[1..])
  {
  }

  // ----- the two loops and their exits -----

  predicate InLoop(k: Consumer) { k.Awaiting? || k.Calling? || k.Returning? }

  predicate Closed(k: Consumer) { k.Taking? || k.Done? }

  /** The producer reads no more: the stream is exhausted, or its failure is on record. */
  predicate Ended(s: State) {
    s.error == s.failed && (s.failed.None? ==> s.rest == [])
  }

  ghost predicate ProducerExits(s: State) {
    && (Running(s.producer) ==> s.failed.None? && s.error.None?)
    && (s.producer.Failing? ==> s.error.None? && s.failed == Some(s.producer.failure))
    && (s.producer.Closing? ==> Ended(s))
    && (s.producer.Gone? ==> s.error == s.failed)
    && (s.producer.Gone? && !s.freeClosed ==> s.readyClosed && Ended(s) && s.dropped == [])
  }

  ghost predicate ConsumerExits(s: State) {
    && (s.freeClosed <==> s.consumer.ClosingReady? || Closed(s.consumer))
    && (Closed(s.consumer) ==> s.readyClosed)
    && (s.readyClosed ==> s.producer.Gone? || Closed(s.consumer))
    && (InLoop(s.consumer) ==> !s.threw && (s.consumer.Returning? || s.keepGoing))
    && (!InLoop(s.consumer) && s.keepGoing && !s.threw ==>
          s.ready == [] && s.producer.Gone? && s.dropped == [] && Ended(s))
    && (s.consumer.Done? ==>
          && (s.consumer.result.Threw? <==> s.threw)
          && (s.consumer.result.Failed? ==> s.failed == Some(s.consumer.result.failure))
          && (s.keepGoing && s.failed.Some? ==> !s.consumer.result.Succeeded?))
  }

  /** A broken stream does not end without its failure on record. */
  ghost predicate BrokenExits(c: Config, s: State) {
    c.broken && s.failed.None? ==>
      && !s.producer.Closing?
      && (s.producer.Gone? ==> s.freeClosed)
      && (InLoop(s.consumer) || !s.keepGoing || s.threw)
  }

  lemma {:induction false} StepBrokenExits(c: Config, s: State, a: Action)
    requires InBounds(c, s) && ProducerExits(s) && ConsumerExits(s) && BrokenExits(c, s) && Enabled(c, s, a)
    ensures BrokenExits(c, Apply(c, s, a))
  {
    hide Slice, Overwrite, InBounds;
  }

  lemma {:induction false} ProducerStepExits(c: Config, s: State, a: Action)
    requires InBounds(c, s) && ProducerExits(s) && ConsumerExits(s) && (s.dropped != [] ==> s.producer.Gone?)
    requires Enabled(c, s, a) && ByProducer(a)
    ensures ProducerExits(Apply(c, s, a)) && ConsumerExits(Apply(c, s, a))
  {
    hide Slice, Overwrite, InBounds, Contents;
  }

  lemma {:induction false} ConsumerStepExits(c: Config, s: State, a: Action)
    requires InBounds(c, s) && ProducerExits(s) && ConsumerExits(s)
    requires Enabled(c, s, a) && !ByProducer(a)
    ensures ProducerExits(Apply(c, s, a)) && ConsumerExits(Apply(c, s, a))
  {
    hide Slice, Overwrite, InBounds, Contents;
  }

  // ----- the invariant of every interleaving -----

  ghost predicate Inv(c: Config, s: State)
    requires c.Accepted()
  {
    && Owned(c, s) && InBounds(c, s) && Accounted(c, s) && ProducerExits(s) && ConsumerExits(s) && BrokenExits(c, s)
    && |s.ready| <= c.prefetch
  }

  lemma {:induction false} InitInv(c: Config)
    requires c.Accepted()
    ensures Inv(c, Init(c))
  {
    InitOwned(c);
    OwnedInBounds(c, Init(c));
    InitAccounted(c);
  }

  lemma {:induction false} StepWithinCapacity(c: Config, s: State, a: Action)
    requires InBounds(c, s) && Enabled(c, s, a) && |s.ready| <= c.prefetch
    ensures |Apply(c, s, a).ready| <= c.prefetch
  {
    hide Slice, Overwrite, InBounds, Contents, Config.Reads;
  }

  /** Every step of either thread keeps the invariant. */
  lemma {:induction false} StepInv(c: Config, s: State, a: Action)
    requires c.Accepted() && Inv(c, s) && Enabled(c, s, a)
    ensures Inv(c, Apply(c, s, a))
  {
    hide Owned, InBounds, Apply, Enabled, ProducerExits, ConsumerExits, BrokenExits;
    StepOwned(c, s, a);
    StepBrokenExits(c, s, a);
    StepWithinCapacity(c, s, a);
    OwnedInBounds(c, Apply(c, s, a));
    if ByProducer(a) {
      ProducerStepExits(c, s, a);
      if a.ReadSome? || a.ReadFails? {
        ReadAccounted(c, s, a);
      } else {
        SendAccounted(c, s, a);
      }
    } else {
      ConsumerStepExits(c, s, a);
      DeliverAccounted(c, s, a);
    }
  }

  // ----- buffers are conserved, and nobody waits forever -----

  function Held(s: State): seq<nat> { s.free + Buffers(s.ready) + InHand(s) }

  lemma {:induction false} HeldTimes(s: State, b: nat)
    ensures Times(Held(s), b) == Holders(s, b)
  {
    var p := if s.producer.Reading? then [s.producer.buffer]
             else if s.producer.Sending? then [s.producer.batch.buffer] else [];
    var k := if s.consumer.Calling? then [s.consumer.batch.buffer]
             else if s.consumer.Returning? then [s.consumer.buffer] else [];
    TimesSplit(s.free + Buffers(s.ready), InHand(s), b);
    TimesSplit(s.free, Buffers(s.ready), b);
    TimesSplit(p, k, b);
    if p != [] { TimesOne(p[0], b); }
    if k != [] { TimesOne(k[0], b); }
  }

  lemma {:induction false} TimesWithout(s: seq<nat>, i: nat, b: nat)
    requires i < |s|
    ensures Times(s[..i] + s[i + 1..], b) == Times(s, b) - if s[i] == b then 1 else 0
  {
    assert s == s[..i] + ([s[i]] + s[i + 1..]);
    TimesSplit(s[..i], [s[i]] + s[i + 1..], b);
    TimesSplit([s[i]], s[i + 1..], b);
    TimesSplit(s[..i], s[i + 1..], b);
    TimesOne(s[i], b);
  }

  lemma {:induction false} FindTimes(s: seq<nat>, b: nat) returns (i: nat)
    requires Times(s, b) > 0
    ensures i < |s| && s[i] == b
  {
    if s[0] == b {
      i := 0;
    } else {
      i := FindTimes(s[1..], b);
      i := i + 1;
    }
  }

  /** Entries below `n`, each at most once, are at most `n`; if each occurs, they are `n`. */
  lemma {:induction false} Pigeonhole(s: seq<nat>, n: nat)
    requires forall b: nat :: Times(s, b) <= if b < n then 1 else 0
    ensures |s| <= n
    ensures (forall b: nat :: b < n ==> Times(s, b) == 1) ==> |s| == n
    decreases n
  {
    if n == 0 {
      if s != [] {
        TimesIn(s, 0);
      }
    } else {
      var t, i := s, 0;
      if Times(s, n - 1) > 0 {
        i := FindTimes(s, n - 1);
        t := s[..i] + s[i + 1..];
        forall b: nat ensures Times(t, b) == Times(s, b) - if b == n - 1 then 1 else 0 { TimesWithout(s, i, b); }
      }
      Pigeonhole(t, n - 1);
    }
  }

  /** The buffers in the channels and with the threads are never more than `prefetch + 1`, and exactly
      that many while the producer runs and no callback has thrown. */
  lemma {:induction false} BuffersConserved(c: Config, s: State)
    requires Owned(c, s)
    ensures |s.free| + |s.ready| + |InHand(s)| <= c.prefetch + 1
    ensures Running(s.producer) && !s.threw ==> |s.free| + |s.ready| + |InHand(s)| == c.prefetch + 1
  {
    hide Times, Holders;
    forall b: nat ensures Times(Held(s), b) == Holders(s, b) { HeldTimes(s, b); }
    Pigeonhole(Held(s), c.prefetch + 1);
  }

  /** Returning a buffer never blocks. */
  lemma {:induction false} ReturnNeverBlocks(c: Config, s: State)
    requires c.Accepted() && Inv(c, s) && s.consumer.Returning?
    ensures Enabled(c, s, ReturnBuffer)
  {
    hide Times, Holders;
    BuffersConserved(c, s);
  }

  /** A step that can be taken: the consumer's if it has one, else the producer's. */
  function SomeStep(c: Config, s: State): Action {
    match s.consumer
    case Calling(_) => Call(Continue)
    case Returning(_) => ReturnBuffer
    case ClosingFree => CloseFree
    case ClosingReady => CloseReady
    case Taking => TakeError
    case _ =>
      if s.consumer.Awaiting? && s.ready != [] then TakeBatch
      else if s.consumer.Awaiting? && s.readyClosed then EndOfStream
      else
        match s.producer
        case Receiving => if s.free != [] then TakeBuffer else ReceiveClosed
        case Reading(_) =>
          if c.Reads(s.rest) then ReadSome
          else if s.rest == [] && !c.broken then ReadNothing
          else ReadFails(ReadFailed(EINVAL), seq(c.batchBytes, _ => 0 as byte))
        case Sending(_) => if s.readyClosed then SendClosed else SendReady
        case Failing(_) => SetError
        case _ => CloseByProducer
  }

  /** Deadlock freedom: until both threads have finished, one of them can move. */
  lemma {:induction false} NeverStuck(c: Config, s: State)
    requires c.Accepted() && Inv(c, s)
    requires !(s.producer.Gone? && s.consumer.Done?)
    ensures Enabled(c, s, SomeStep(c, s))
  {
    hide Times, Holders, Buffers, InBounds;
    BuffersConserved(c, s);
  }

  /** Bytes to read and steps to take: every step makes it smaller. */
  function Measure(s: State): nat {
    7 * |s.rest| + 4 * |s.ready|
    + (match s.producer
       case Receiving => 4
       case Reading(_) => 3
       case Sending(_) => 9
       case Failing(_) => 2
       case Closing => 1
       case Gone => 0)
    + (match s.consumer
       case Awaiting => 7
       case Calling(_) => 9
       case Returning(_) => 8
       case ClosingFree => 3
       case ClosingReady => 2
       case Taking => 1
       case Done(_) => 0)
  }

  lemma {:induction false} StepShrinks(c: Config, s: State, a: Action)
    requires c.Accepted() && InBounds(c, s) && Enabled(c, s, a)
    ensures Measure(Apply(c, s, a)) < Measure(s)
  {
    hide Slice, Overwrite, InBounds;
  }

  // ----- runs -----

  /** `t` is reached from `s` by the given steps. */
  ghost predicate Runs(c: Config, s: State, steps: seq<Action>, t: State)
    decreases |steps|
  {
    if steps == [] then s == t
    else InBounds(c, s) && Enabled(c, s, steps[0]) && Runs(c, Apply(c, s, steps[0]), steps[1..], t)
  }

  /** Safety and termination over whole runs: every state of every interleaving satisfies the
      invariant, and no run is longer than the measure of its first state. */
  lemma {:induction false} RunInv(c: Config, s: State, steps: seq<Action>, t: State)
    requires c.Accepted() && Inv(c, s) && Runs(c, s, steps, t)
    ensures Inv(c, t)
    ensures |steps| + Measure(t) <= Measure(s)
    decreases |steps|
  {
    hide Owned, InBounds, Apply, Enabled, ProducerExits, ConsumerExits, BrokenExits, Accounted;
    if steps != [] {
      StepInv(c, s, steps[0]);
      StepShrinks(c, s, steps[0]);
      RunInv(c, Apply(c, s, steps[0]), steps[1..], t);
    }
  }

  lemma {:induction false} RunOn(c: Config, s: State, steps: seq<Action>, t: State, a: Action)
    requires Runs(c, s, steps, t) && InBounds(c, t) && Enabled(c, t, a)
    ensures Runs(c, s, steps + [a], Apply(c, t, a))
    decreases |steps|
  {
    hide InBounds, Apply, Enabled;
    if steps == [] {
      assert steps + [a] == [a] && [a][1..] == [];
    } else {
      RunOn(c, Apply(c, s, steps[0]), steps[1..], t, a);
      assert (steps + [a])[1..] == steps[1..] + [a];
    }
  }

  /** Every run can be continued until both threads have finished, and by `RunInv` none goes on forever. */
  lemma {:induction false} RunsFinish(c: Config, s: State, steps: seq<Action>, t: State)
    returns (more: seq<Action>, end: State)
    requires c.Accepted() && Inv(c, s) && Runs(c, s, steps, t)
    ensures steps <= more && Runs(c, s, more, end)
    ensures end.producer.Gone? && end.consumer.Done?
    decreases Measure(t)
  {
    hide Owned, InBounds, Apply, Enabled, ProducerExits, ConsumerExits, BrokenExits, Accounted;
    RunInv(c, s, steps, t);
    if t.producer.Gone? && t.consumer.Done? {
      more, end := steps, t;
    } else {
      var a := SomeStep(c, t);
      NeverStuck(c, t);
      RunOn(c, s, steps, t, a);
      StepShrinks(c, t, a);
      more, end := RunsFinish(c, s, steps + [a], Apply(c, t, a));
    }
  }

  // ----- the answers and the failures of a run -----

  /** What the callback answered, call by call. */
  function AnswersOf(steps: seq<Action>): seq<Answer> {
    if steps == [] then [] else AnswerOf(steps[0]) + AnswersOf(steps[1..])
  }

  function AnswerOf(a: Action): seq<Answer> { if a.Call? then [a.answer] else [] }

  /** The failures of the reads. */
  function FailuresOf(steps: seq<Action>): seq<Error> {
    if steps == [] then [] else FailureOf(steps[0]) + FailuresOf(steps[1..])
  }

  function FailureOf(a: Action): seq<Error> { if a.ReadFails? then [a.failure] else [] }

  /** One batch was delivered for each answer; only the last answer is possibly not to continue, and the
      consumer's flags say what it was; at most one read failed, and its failure is on record. */
  ghost predicate Tallied(s: State, answers: seq<Answer>, failures: seq<Error>) {
    && |s.delivered| == |answers|
    && (s.keepGoing <==> Stop !in answers)
    && (s.threw <==> Throw in answers)
    && (forall i :: 0 <= i < |answers| && i + 1 < |answers| ==> answers[i] == Continue)
    && |failures| <= 1
    && s.failed == if failures == [] then None else Some(failures[0])
  }

  lemma {:induction false} StepTallied(c: Config, s: State, a: Action, answers: seq<Answer>, failures: seq<Error>)
    requires InBounds(c, s) && ProducerExits(s) && ConsumerExits(s) && Enabled(c, s, a) && Tallied(s, answers, failures)
    ensures Tallied(Apply(c, s, a), answers + AnswerOf(a), failures + FailureOf(a))
  {
    hide Slice, Overwrite, InBounds, Contents, Config.Reads;
    match a {
      case Call(answer) => AllContinue(answers);
      case ReadFails(failure, _) => assert failures == [];
      case _ => assert answers + [] == answers && failures + [] == failures;
    }
  }

  lemma {:induction false} AllContinue(answers: seq<Answer>)
    requires Stop !in answers && Throw !in answers
    ensures forall i :: 0 <= i < |answers| ==> answers[i] == Continue
  {
    forall i | 0 <= i < |answers| ensures answers[i] == Continue {
      assert answers[i] in answers;
    }
  }

  lemma {:induction false} RunTalliedFrom(
    c: Config, s: State, steps: seq<Action>, t: State, answers: seq<Answer>, failures: seq<Error>)
    requires c.Accepted() && Inv(c, s) && Runs(c, s, steps, t) && Tallied(s, answers, failures)
    ensures Tallied(t, answers + AnswersOf(steps), failures + FailuresOf(steps))
    decreases |steps|
  {
    hide Owned, InBounds, Apply, Enabled, ProducerExits, ConsumerExits, BrokenExits, Accounted, Tallied, AnswerOf, FailureOf;
    if steps == [] {
      assert answers + [] == answers && failures + [] == failures;
    } else {
      var a := steps[0];
      StepInv(c, s, a);
      StepTallied(c, s, a, answers, failures);
      RunTalliedFrom(c, Apply(c, s, a), steps[1..], t, answers + AnswerOf(a), failures + FailureOf(a));
      Associative(answers, AnswerOf(a), AnswersOf(steps[1..]));
      Associative(failures, FailureOf(a), FailuresOf(steps[1..]));
    }
  }

  /** The callback is called once for every batch delivered and never again once it has answered anything
      but to continue; whether it stopped or threw is what the consumer acts on. */
  lemma {:induction false} AnswersDecide(c: Config, steps: seq<Action>, t: State)
    requires c.Accepted() && Runs(c, Init(c), steps, t)
    ensures |t.delivered| == |AnswersOf(steps)|
    ensures t.keepGoing <==> Stop !in AnswersOf(steps)
    ensures t.threw <==> Throw in AnswersOf(steps)
    ensures forall i :: 0 <= i < |AnswersOf(steps)| && i + 1 < |AnswersOf(steps)| ==> AnswersOf(steps)[i] == Continue
    ensures |FailuresOf(steps)| <= 1
    ensures t.failed == if FailuresOf(steps) == [] then None else Some(FailuresOf(steps)[0])
  {
    InitInv(c);
    hide Runs, Inv, AnswersOf, FailuresOf;
    RunTalliedFrom(c, Init(c), steps, t, [], []);
    assert [] + AnswersOf(steps) == AnswersOf(steps) && [] + FailuresOf(steps) == FailuresOf(steps);
  }

  lemma {:induction false} StepsOn(steps: seq<Action>, a: Action)
    ensures AnswersOf(steps + [a]) == AnswersOf(steps) + AnswerOf(a)
    decreases |steps|
  {
    hide AnswerOf;
    if steps == [] {
      assert steps + [a] == [a] && [a][1..] == [];
      assert AnswersOf([a]) == AnswerOf(a) + [] == [] + AnswerOf(a);
    } else {
      assert (steps + [a])[1..] == steps[1..] + [a];
      StepsOn(steps[1..], a);
      Associative(AnswerOf(steps[0]), AnswersOf(steps[1..]), AnswerOf(a));
    }
  }

  // ----- what a caller of `for_each_batch` gets -----

  lemma {:induction false} Delivered(c: Config, s: State)
    requires c.Accepted() && Inv(c, s)
    ensures s.delivered <= Batches(c.total, c.batchBytes)
    ensures WithConsumer(s) == [] && s.ready == [] && WithProducer(s) == [] && s.dropped == [] ==>
              Batches(c.total, c.batchBytes) == s.delivered + Batches(s.rest, c.batchBytes)
  {
    hide Batches, Slice, Owned;
  }

  /** At any moment of any interleaving the callback has seen the first batches of the stream: in
      order, none lost, none twice, all full but possibly the last. */
  lemma {:induction false} DeliversAPrefix(c: Config, steps: seq<Action>, t: State)
    requires c.Accepted() && Runs(c, Init(c), steps, t)
    ensures t.delivered <= Batches(c.total, c.batchBytes)
    ensures forall i :: 0 <= i < |t.delivered| ==> 0 < |t.delivered[i]| <= c.batchBytes
    ensures forall i :: 0 <= i < |t.delivered| && i + 1 < |Batches(c.total, c.batchBytes)| ==>
              |t.delivered[i]| == c.batchBytes
  {
    InitInv(c);
    RunInv(c, Init(c), steps, t);
    Delivered(c, t);
    forall i | 0 <= i < |t.delivered|
      ensures 0 < |t.delivered[i]| <= c.batchBytes
      ensures i + 1 < |Batches(c.total, c.batchBytes)| ==> |t.delivered[i]| == c.batchBytes
    {
      BatchesFull(c.total, c.batchBytes, i);
    }
  }

  /** The reads of a broken stream have all been of whole batches. */
  ghost predicate WholeReads(c: Config, s: State)
    requires c.Accepted()
  {
    c.broken ==> |s.rest| <= |c.total| && (|c.total| - |s.rest|) % c.batchBytes == 0
  }

  lemma {:induction false} StepWholeReads(c: Config, s: State, a: Action)
    requires c.Accepted() && InBounds(c, s) && Enabled(c, s, a) && WholeReads(c, s)
    ensures WholeReads(c, Apply(c, s, a))
  {
    hide Slice, Overwrite, InBounds, Contents;
    if a.ReadSome? && c.broken {
      Align.SelfMultiple(c.batchBytes);
      Align.SumAligned(|c.total| - |s.rest|, c.batchBytes, c.batchBytes);
    }
  }

  lemma {:induction false} RunWholeReads(c: Config, s: State, steps: seq<Action>, t: State)
    requires c.Accepted() && Runs(c, s, steps, t) && WholeReads(c, s)
    ensures WholeReads(c, t)
    decreases |steps|
  {
    hide InBounds, Apply, Enabled, WholeReads;
    if steps != [] {
      StepWholeReads(c, s, steps[0]);
      RunWholeReads(c, Apply(c, s, steps[0]), steps[1..], t);
    }
  }

  /** Before a broken stream's failure only whole batches are delivered: a short one is always the last
      of the whole stream. */
  lemma {:induction false} BrokenDeliversWhole(c: Config, steps: seq<Action>, t: State)
    requires c.Accepted() && c.broken && Runs(c, Init(c), steps, t)
    ensures forall i :: 0 <= i < |t.delivered| ==> |t.delivered[i]| == c.batchBytes
  {
    hide Owned, InBounds, Batches, Runs, ProducerExits, ConsumerExits, BrokenExits;
    InitInv(c);
    RunInv(c, Init(c), steps, t);
    RunWholeReads(c, Init(c), steps, t);
    Delivered(c, t);
    DeliversAPrefix(c, steps, t);
    if t.delivered == Batches(c.total, c.batchBytes) {
      NothingLeft(c, t);
      WholeBatches(c.total, c.batchBytes);
    }
  }

  lemma {:induction false} NothingLeft(c: Config, s: State)
    requires c.Accepted() && InBounds(c, s) && Accounted(c, s) && s.delivered == Batches(c.total, c.batchBytes)
    ensures s.rest == []
  {
    hide InBounds, Slice;
    assert |Batches(s.rest, c.batchBytes)| == 0;
  }

  /** A callback that always continues sees all of the stream, or everything read before the failure that
      is then returned; with a broken stream it gets its failure. */
  lemma {:induction false} DeliversAll(c: Config, steps: seq<Action>, t: State)
    requires c.Accepted() && Runs(c, Init(c), steps, t) && t.consumer.Done?
    requires forall i :: 0 <= i < |AnswersOf(steps)| ==> AnswersOf(steps)[i] == Continue
    ensures c.broken ==> t.consumer.result.Failed?
    ensures FailuresOf(steps) == [] ==> t.consumer.result == Succeeded && Join(t.delivered) == c.total
    ensures FailuresOf(steps) != [] ==> t.consumer.result == Failed(FailuresOf(steps)[0])
    ensures Batches(c.total, c.batchBytes) == t.delivered + Batches(t.rest, c.batchBytes)
  {
    hide Owned, InBounds, Accounted, Join, AnswersOf, FailuresOf;
    AnswersDecide(c, steps, t);
    InitInv(c);
    RunInv(c, Init(c), steps, t);
    Delivered(c, t);
    BatchesJoin(c.total, c.batchBytes);
    if t.failed.None? {
      assert Batches(t.rest, c.batchBytes) == [];
      assert t.delivered + [] == t.delivered;
    }
  }

  /** Stopping early is a success unless a read ahead had failed; a throwing callback is passed on. */
  lemma {:induction false} StopsCleanly(c: Config, steps: seq<Action>, t: State)
    requires c.Accepted() && Runs(c, Init(c), steps, t) && t.consumer.Done?
    ensures Throw in AnswersOf(steps) <==> t.consumer.result == Threw
    ensures Throw !in AnswersOf(steps) && FailuresOf(steps) == [] ==> t.consumer.result == Succeeded
    ensures t.consumer.result.Failed? ==> FailuresOf(steps) == [t.consumer.result.failure]
  {
    hide Owned, InBounds, Accounted, Apply, Enabled, AnswersOf, FailuresOf;
    AnswersDecide(c, steps, t);
    InitInv(c);
    RunInv(c, Init(c), steps, t);
  }

  lemma {:induction false} Do(c: Config, steps: seq<Action>, s: State, a: Action) returns (more: seq<Action>, t: State)
    requires c.Accepted() && Runs(c, Init(c), steps, s) && Inv(c, s) && Enabled(c, s, a)
    ensures t == Apply(c, s, a) && Runs(c, Init(c), more, t) && Inv(c, t)
  {
    hide Apply, Enabled, Owned, Accounted, ProducerExits, ConsumerExits, BrokenExits;
    RunOn(c, Init(c), steps, s, a);
    StepInv(c, s, a);
    more, t := steps + [a], Apply(c, s, a);
  }

  /** Both threads at the top of their loops, every buffer free. */
  predicate AtHome(c: Config, s: State) {
    && s.producer.Receiving? && s.consumer.Awaiting? && s.ready == [] && |s.free| == c.prefetch + 1
    && !s.freeClosed && !s.readyClosed
  }

  /** A batch is read and sent. */
  lemma {:induction false} OneSent(c: Config, before: seq<Action>, s: State) returns (steps: seq<Action>, t: State)
    requires c.Accepted() && Runs(c, Init(c), before, s) && Inv(c, s) && AtHome(c, s) && c.Reads(s.rest)
    ensures Runs(c, Init(c), steps, t) && Inv(c, t)
    ensures t.free != [] && |t.free| == c.prefetch && |t.ready| == 1 && t.delivered == s.delivered
    ensures t.producer.Receiving? && t.consumer.Awaiting? && !t.freeClosed && !t.readyClosed
    ensures t.rest == s.rest[Min(c.batchBytes, |s.rest|)..]
  {
    hide Inv, Runs, Overwrite, Slice;
    steps, t := Do(c, before, s, TakeBuffer);
    steps, t := Do(c, steps, t, ReadSome);
    steps, t := Do(c, steps, t, SendReady);
  }

  /** ... and passed to a callback that goes on. */
  lemma {:induction false} OneRound(c: Config, before: seq<Action>, s: State) returns (steps: seq<Action>, t: State)
    requires c.Accepted() && Runs(c, Init(c), before, s) && Inv(c, s) && AtHome(c, s) && c.Reads(s.rest)
    ensures Runs(c, Init(c), steps, t) && Inv(c, t) && AtHome(c, t)
    ensures t.rest == s.rest[Min(c.batchBytes, |s.rest|)..]
  {
    hide Inv, Runs, Overwrite, Slice, Contents;
    steps, t := OneSent(c, before, s);
    steps, t := Do(c, steps, t, TakeBatch);
    steps, t := Do(c, steps, t, Call(Continue));
    steps, t := Do(c, steps, t, ReturnBuffer);
  }

  lemma {:induction false} OneMore(c: Config, before: seq<Action>, s: State) returns (steps: seq<Action>, t: State)
    requires c.Accepted() && Runs(c, Init(c), before, s) && Inv(c, s) && c.Reads(s.rest)
    requires s.producer.Receiving? && s.consumer.Awaiting? && s.free != [] && |s.ready| < c.prefetch && !s.readyClosed
    ensures Runs(c, Init(c), steps, t) && Inv(c, t)
    ensures t.producer.Receiving? && t.consumer.Awaiting? && !t.readyClosed
    ensures |t.ready| == |s.ready| + 1 && |t.free| == |s.free| - 1
    ensures t.delivered == s.delivered
    ensures t.rest == s.rest[Min(c.batchBytes, |s.rest|)..]
  {
    hide Inv, Runs, Overwrite, Slice;
    steps, t := Do(c, before, s, TakeBuffer);
    steps, t := Do(c, steps, t, ReadSome);
    steps, t := Do(c, steps, t, SendReady);
  }

  /** The producer reads ahead as far as `prefetch` allows: with a slow callback and that many batches in the
      stream, `prefetch` of them wait in `ready`, which never holds more (`Inv`). */
  lemma {:induction false} ReadsAhead(c: Config, n: nat) returns (steps: seq<Action>, t: State)
    requires c.Accepted() && n <= c.prefetch && n * c.batchBytes <= |c.total|
    ensures Runs(c, Init(c), steps, t) && Inv(c, t)
    ensures |t.ready| == n && |t.free| == c.prefetch + 1 - n && t.delivered == []
    ensures t.producer.Receiving? && t.consumer.Awaiting? && !t.readyClosed
    ensures |t.rest| == |c.total| - n * c.batchBytes
  {
    hide Runs, Inv;
    if n == 0 {
      InitInv(c);
      NoSteps(c, Init(c));
      steps, t := [], Init(c);
    } else {
      assert n * c.batchBytes == (n - 1) * c.batchBytes + c.batchBytes;
      steps, t := ReadsAhead(c, n - 1);
      steps, t := OneMore(c, steps, t);
    }
  }

  /** Rounds until a read after the next one can fail. */
  lemma {:induction false} UpToTheLast(c: Config, before: seq<Action>, s: State) returns (steps: seq<Action>, t: State)
    requires c.Accepted() && Runs(c, Init(c), before, s) && Inv(c, s) && AtHome(c, s) && c.Reads(s.rest)
    requires c.mayFail || c.broken
    ensures Runs(c, Init(c), steps, t) && Inv(c, t) && AtHome(c, t) && c.Reads(t.rest)
    ensures c.mayFail || |t.rest| < 2 * c.batchBytes
    decreases |s.rest|
  {
    hide Inv, Runs, AtHome;
    if c.mayFail || |s.rest| < 2 * c.batchBytes {
      steps, t := before, s;
    } else {
      steps, t := OneRound(c, before, s);
      steps, t := UpToTheLast(c, steps, t);
    }
  }

  /** The next read fails, and the producer ends. */
  lemma {:induction false} ThenFails(c: Config, failure: Error, before: seq<Action>, s: State)
    returns (steps: seq<Action>, t: State)
    requires c.Accepted() && Runs(c, Init(c), before, s) && Inv(c, s)
    requires s.free != [] && s.producer.Receiving? && s.consumer.Awaiting?
    requires c.mayFail || (c.broken && |s.rest| < c.batchBytes)
    ensures Runs(c, Init(c), steps, t) && Inv(c, t)
    ensures t.consumer.Awaiting? && t.ready == s.ready && t.delivered == s.delivered
    ensures t.producer.Gone? && t.failed == Some(failure)
  {
    hide Inv, Runs, Overwrite, Slice;
    var scribble := seq(c.batchBytes, _ => 0 as byte);
    steps, t := Do(c, before, s, TakeBuffer);
    steps, t := Do(c, steps, t, ReadFails(failure, scribble));
    steps, t := Do(c, steps, t, SetError);
    steps, t := Do(c, steps, t, CloseByProducer);
  }

  /** The callback sees the waiting batch and says stop; */
  lemma {:induction false} ThenSaysStop(c: Config, before: seq<Action>, s: State) returns (steps: seq<Action>, t: State)
    requires c.Accepted() && Runs(c, Init(c), before, s) && Inv(c, s)
    requires s.consumer.Awaiting? && s.ready != [] && s.producer.Gone?
    ensures Runs(c, Init(c), steps, t) && Inv(c, t)
    ensures t.consumer.Returning? && t.producer.Gone? && !t.keepGoing && t.threw == s.threw
    ensures |t.delivered| == |s.delivered| + 1 && t.failed == s.failed
  {
    hide Runs, Overwrite, Slice, Contents, Inv;
    steps, t := Do(c, before, s, TakeBatch);
    steps, t := Do(c, steps, t, Call(Stop));
  }

  /** its buffer is returned, the channels are closed, and the failure on record is taken. */
  lemma {:induction false} ThenEnds(c: Config, before: seq<Action>, s: State) returns (steps: seq<Action>, t: State)
    requires c.Accepted() && Runs(c, Init(c), before, s) && Inv(c, s)
    requires s.consumer.Returning? && s.producer.Gone? && !s.keepGoing
    ensures Runs(c, Init(c), steps, t) && Inv(c, t)
    ensures t.consumer.Done? && !t.keepGoing && t.threw == s.threw && t.delivered == s.delivered && t.failed == s.failed
    ensures !s.threw ==> t.consumer.result == if s.error.Some? then Failed(s.error.value) else Succeeded
  {
    hide Runs, Overwrite, Slice, Contents, Inv;
    ReturnNeverBlocks(c, s);
    steps, t := Do(c, before, s, ReturnBuffer);
    steps, t := Do(c, steps, t, CloseFree);
    steps, t := Do(c, steps, t, CloseReady);
    steps, t := Do(c, steps, t, TakeError);
  }

  lemma {:induction false} ThenStops(c: Config, before: seq<Action>, s: State) returns (steps: seq<Action>, t: State)
    requires c.Accepted() && Runs(c, Init(c), before, s) && Inv(c, s)
    requires s.consumer.Awaiting? && s.ready != [] && s.producer.Gone?
    ensures Runs(c, Init(c), steps, t) && Inv(c, t)
    ensures t.consumer.Done? && !t.keepGoing && !t.threw && |t.delivered| == |s.delivered| + 1
    ensures t.failed == s.failed && t.consumer.result == if s.failed.Some? then Failed(s.failed.value) else Succeeded
  {
    hide Runs, Overwrite, Slice, Owned, Accounted;
    var k;
    steps, k := ThenSaysStop(c, before, s);
    steps, t := ThenEnds(c, steps, k);
  }

  /** The prose promises that stopping early succeeds (docs/usage.md:335). It can still report an
      error: a read ahead fails while the callback has yet to see the batch at which it stops. */
  lemma {:induction false} StopCanReportReadAhead(c: Config, failure: Error)
    returns (steps: seq<Action>, t: State)
    requires c.Accepted() && c.Reads(c.total) && (c.mayFail || c.broken)
    ensures Runs(c, Init(c), steps, t)
    ensures Stop in AnswersOf(steps) && t.consumer == Done(Failed(failure))
  {
    hide Inv, Runs, AnswersOf;
    InitInv(c);
    NoSteps(c, Init(c));
    steps, t := UpToTheLast(c, [], Init(c));
    steps, t := OneSent(c, steps, t);
    steps, t := ThenFails(c, failure, steps, t);
    steps, t := ThenStops(c, steps, t);
    AnswersDecide(c, steps, t);
  }

  /** Returning `false` always ends in success. */
  ghost predicate StopsAreClean(c: Config) {
    forall steps, t :: Runs(c, Init(c), steps, t) && t.consumer.Done? && Stop in AnswersOf(steps) ==>
      t.consumer.result == Succeeded
  }

  /** Returning `false` always ends in success if and only if no read can fail, or there is no batch for
      the callback to stop at. */
  lemma {:induction false} StopsCleanlyExactly(c: Config)
    requires c.Accepted()
    ensures StopsAreClean(c) <==> (!c.mayFail && !c.broken) || !c.Reads(c.total)
  {
    hide Runs, Config.Reads, AnswersOf, FailuresOf;
    if (c.mayFail || c.broken) && c.Reads(c.total) {
      var steps, t := StopCanReportReadAhead(c, QueueFull);
      assert !StopsAreClean(c);
    } else {
      forall steps, t | Runs(c, Init(c), steps, t) && t.consumer.Done? && Stop in AnswersOf(steps)
        ensures t.consumer.result == Succeeded
      {
        AnswersDecide(c, steps, t);
        StopIsLast(AnswersOf(steps));
        StopsCleanly(c, steps, t);
        RunStaysQuiet(c, Init(c), steps, t);
      }
    }
  }

  lemma {:induction false} StopIsLast(answers: seq<Answer>)
    requires forall i :: 0 <= i < |answers| && i + 1 < |answers| ==> answers[i] == Continue
    requires Stop in answers
    ensures Throw !in answers
  {
  }

  /** Nothing has failed; and if there is nothing to deliver, the callback has not been called. */
  ghost predicate Quiet(c: Config, s: State) {
    && (!c.mayFail && !c.broken ==> s.failed.None?)
    && (!c.Reads(c.total) ==>
          && s.rest == c.total && s.ready == [] && !s.producer.Sending?
          && !s.consumer.Calling? && s.keepGoing && !s.threw)
  }

  lemma {:induction false} StepStaysQuiet(c: Config, s: State, a: Action)
    requires InBounds(c, s) && Enabled(c, s, a) && Quiet(c, s)
    ensures Quiet(c, Apply(c, s, a))
  {
    hide Slice, Overwrite, InBounds, Config.Reads;
  }

  lemma {:induction false} RunStaysQuiet(c: Config, s: State, steps: seq<Action>, t: State)
    requires Runs(c, s, steps, t) && Quiet(c, s)
    ensures Quiet(c, t)
    decreases |steps|
  {
    hide InBounds, Apply, Enabled, Quiet;
    if steps != [] {
      StepStaysQuiet(c, s, steps[0]);
      RunStaysQuiet(c, Apply(c, s, steps[0]), steps[1..], t);
    }
  }

  lemma {:induction false} NoSteps(c: Config, s: State)
    ensures Runs(c, s, [], s)
  {
  }

  /** Reads left to the producer once both channels are closed. */
  function ReadsLeft(p: Producer): nat {
    if p.Receiving? || p.Reading? then 1 else 0
  }

  predicate IsRead(a: Action) { a.ReadSome? || a.ReadNothing? || a.ReadFails? }

  /** How many reads of the stream there are among the steps. */
  function ReadsIn(steps: seq<Action>): nat {
    if steps == [] then 0 else (if IsRead(steps[0]) then 1 else 0) + ReadsIn(steps[1..])
  }

  lemma {:induction false} StepReads(c: Config, s: State, a: Action)
    requires InBounds(c, s) && Enabled(c, s, a) && s.readyClosed
    ensures Apply(c, s, a).readyClosed
    ensures ReadsLeft(Apply(c, s, a).producer) + (if IsRead(a) then 1 else 0) <= ReadsLeft(s.producer)
  {
    hide Slice, Overwrite, InBounds, Contents, Config.Reads;
    if !ByProducer(a) {
      ConsumerStepFrame(c, s, a);
    }
  }

  /** Once `ready` is closed the producer reads from the stream at most once more. */
  lemma {:induction false} OneReadAfterClose(c: Config, s: State, steps: seq<Action>, t: State)
    requires Runs(c, s, steps, t) && s.readyClosed
    ensures ReadsIn(steps) <= 1
    ensures ReadsIn(steps) + ReadsLeft(t.producer) <= ReadsLeft(s.producer)
    decreases |steps|
  {
    hide Apply, Enabled, InBounds, IsRead;
    if steps != [] {
      StepReads(c, s, steps[0]);
      OneReadAfterClose(c, Apply(c, s, steps[0]), steps[1..], t);
    }
  }
}
