/** ResultSink of src/execution/result-sink.ts, with one producer and one consumer on one event loop. */
module ResultSinks {
  // Each async call runs up to an await, where the other side may run.
  import opened Wrappers

  datatype Chunk = Chunk(size: nat, payload: int)
  type Error = string

  /** The consume call in progress: none, suspended at its await, or resolved and about to go on. */
  datatype Producer = Idle | Suspended(chunk: Chunk) | Resumable(chunk: Chunk) | Thrown | Finalized

  /** The next call in progress, or how the iteration ended. */
  datatype Consumer = Asking | Waiting | Awake | Ended | Failed

  /** The slot i places after the head of a ring of n slots. */
  function Slot(head: nat, i: nat, n: nat): (s: nat)
    requires head < n && i <= n
    ensures s < n
  {
    if head + i < n then head + i else head + i - n
  }

  lemma {:induction false} Remainder(i: nat, n: nat)
    requires i < n
    ensures i % n == i
  {}

  lemma {:induction false} NextSlot(i: nat, n: nat)
    requires i < n
    ensures (i + 1) % n == if i + 1 == n then 0 else i + 1
  {
    if i + 1 == n { assert n == 1 * n; } else { Remainder(i + 1, n); }
  }

  /** The ring holds the pending chunks in order from its head. */
  ghost predicate Holds(cells: seq<Option<Chunk>>, head: nat, pending: seq<Chunk>) {
    && head < |cells| && |pending| <= |cells|
    && forall i {:trigger pending[i]} :: 0 <= i < |pending| ==> cells[Slot(head, i, |cells|)] == Some(pending[i])
  }

  lemma {:induction false} HoldsPush(cells: seq<Option<Chunk>>, head: nat, pending: seq<Chunk>, chunk: Chunk)
    requires Holds(cells, head, pending) && |pending| < |cells|
    ensures Holds(cells[Slot(head, |pending|, |cells|) := Some(chunk)], head, pending + [chunk])
    ensures (Slot(head, |pending|, |cells|) + 1) % |cells| == Slot(head, |pending| + 1, |cells|)
  {
    NextSlot(Slot(head, |pending|, |cells|), |cells|);
  }

  lemma {:induction false} HoldsPop(cells: seq<Option<Chunk>>, head: nat, pending: seq<Chunk>)
    requires Holds(cells, head, pending) && pending != []
    ensures cells[head] == Some(pending[0])
    ensures Holds(cells[head := None], (head + 1) % |cells|, pending[1..])
    ensures Slot((head + 1) % |cells|, |pending| - 1, |cells|) == Slot(head, |pending|, |cells|)
  {
    NextSlot(head, |cells|);
    assert Slot(head, 0, |cells|) == head && cells[Slot(head, 0, |cells|)] == Some(pending[0]);
    forall i | 0 <= i < |pending[1..]| ensures cells[head := None][Slot((head + 1) % |cells|, i, |cells|)]
      == Some(pending[1..][i]) {
      assert pending[1..][i] == pending[i + 1];
      assert Slot((head + 1) % |cells|, i, |cells|) == Slot(head, i + 1, |cells|);
    }
  }

  class ResultSink {
    const capacity: nat
    var queue: array<Option<Chunk>>
    var head: nat
    var tail: nat
    var count: nat
    var totalRows: nat
    var done: bool
    var error: Option<Error>
    var producerError: Option<Error>
    var producerResolve: bool
    var consumerResolve: bool

    /** The two suspended calls. */
    var producer: Producer
    var consumer: Consumer

    /** Chunks put into the queue and chunks handed out, ever. */
    ghost var accepted: seq<Chunk>
    ghost var delivered: seq<Chunk>
    ghost var pending: seq<Chunk>

    /** The ring buffer holds the chunks accepted and not delivered, in order. */
    ghost predicate Ring()
      reads this`queue, this`head, this`tail, this`count, this`accepted, this`delivered, this`pending, queue
    {
      && queue.Length == capacity > 0 && Holds(queue[..], head, pending)
      && count == |pending| && tail == Slot(head, count, capacity)
      && accepted == delivered + pending
    }

    /** A suspended producer is in its wake-up slot and the queue is full; a resumable one finds room or an error. */
    ghost predicate ProducerOk()
      reads this
    {
      && (producerResolve <==> producer.Suspended?)
      && (producer.Suspended? ==> count == capacity && error.None? && producerError.None?)
      && (producer.Resumable? ==> count < capacity || error.Some? || producerError.Some?)
      && (producer.Suspended? || producer.Resumable? ==> producer.chunk.size > 0)
      && (producer.Thrown? ==> error.Some? || producerError.Some?)
      && (producer.Finalized? ==> done) && (done && error.None? ==> producer.Finalized?)
    }

    /** A waiting consumer is in its wake-up slot, the queue is empty and more may come. */
    ghost predicate ConsumerOk()
      reads this
    {
      && (consumerResolve <==> consumer.Waiting?)
      && (consumer.Waiting? ==> count == 0 && !done)
      && (consumer.Ended? ==> count == 0 && done && error.None?)
      && (consumer.Failed? ==> error.Some?)
      && (error.Some? ==> done)
    }

    ghost predicate Valid()
      reads this, queue
    {
      Ring() && ProducerOk() && ConsumerOk()
    }

    constructor (capacity: nat)
      requires capacity > 0
      ensures Valid() && fresh(queue) && producer == Idle && consumer == Asking && !done && error.None?
              && producerError.None?
      ensures accepted == [] && delivered == [] && count == 0 && this.capacity == capacity
    {
      this.capacity := capacity;
      queue := new Option<Chunk>[capacity](_ => None);
      head, tail, count, totalRows := 0, 0, 0, 0;
      done, error, producerError := false, None, None;
      producerResolve, consumerResolve := false, false;
      producer, consumer := Idle, Asking;
      accepted, delivered, pending := [], [], [];
    }

    /** Never both sides wait. */
    lemma {:induction false} NotBothWaiting()
      requires Valid()
      ensures !(producer.Suspended? && consumer.Waiting?)
    {}

    method WakeConsumer()
      modifies this`consumerResolve, this`consumer
      requires consumerResolve <==> consumer.Waiting?
      ensures !consumerResolve && consumer == if old(consumer).Waiting? then Awake else old(consumer)
    {
      if consumerResolve {
        consumerResolve := false;
        consumer := Awake;
      }
    }

    method WakeProducer()
      modifies this`producerResolve, this`producer
      requires producerResolve <==> producer.Suspended?
      ensures !producerResolve && producer
              == if old(producer).Suspended? then Resumable(old(producer).chunk) else old(producer)
    {
      if producerResolve {
        producerResolve := false;
        producer := Resumable(producer.chunk);
      }
    }

    /** Puts a chunk behind the others and wakes the consumer. */
    method Enqueue(chunk: Chunk)
      requires Ring() && count < capacity && (consumerResolve <==> consumer.Waiting?)
      modifies this`tail, this`count, this`accepted, this`pending, this`consumerResolve, this`consumer, queue
      ensures Ring() && count == old(count) + 1 && accepted == old(accepted) + [chunk]
      ensures !consumerResolve && consumer == if old(consumer).Waiting? then Awake else old(consumer)
    {
      HoldsPush(queue[..], head, pending, chunk);
      queue[tail] := Some(chunk);
      tail := (tail + 1) % capacity;
      count := count + 1;
      accepted, pending := accepted + [chunk], pending + [chunk];
      WakeConsumer();
    }

    /** Takes the chunk at the head and wakes the producer. */
    method Dequeue() returns (chunk: Chunk)
      requires Ring() && count > 0 && (producerResolve <==> producer.Suspended?)
      modifies this`head, this`count, this`delivered, this`pending, this`producerResolve, this`producer, queue
      ensures Ring() && count == old(count) - 1 && delivered == old(delivered) + [chunk]
      ensures !producerResolve && producer
              == if old(producer).Suspended? then Resumable(old(producer).chunk) else old(producer)
    {
      HoldsPop(queue[..], head, pending);
      chunk := queue[head].value;
      queue[head] := None;
      head := (head + 1) % capacity;
      count := count - 1;
      delivered, pending := delivered + [chunk], pending[1..];
      WakeProducer();
    }

    ghost predicate Broken()
      reads this`error, this`producerError
    {
      error.Some? || producerError.Some?
    }

    /** consume, up to its await or its end. */
    method Consume(chunk: Chunk)
      requires Valid() && producer.Idle?
      modifies this`tail, this`count, this`accepted, this`pending, this`totalRows, this`producer, this`producerResolve
      modifies this`consumerResolve, this`consumer, queue
      ensures Valid() && delivered == old(delivered)
      ensures chunk.size == 0 ==> producer == Idle && accepted == old(accepted) && totalRows == old(totalRows)
      ensures chunk.size > 0 && Broken() ==>
              producer == Thrown && accepted == old(accepted) && totalRows == old(totalRows)
      ensures chunk.size > 0 && !Broken() ==> totalRows == old(totalRows) + chunk.size
      ensures chunk.size > 0 && !Broken() && old(count) == capacity ==>
              producer == Suspended(chunk) && accepted == old(accepted)
      ensures chunk.size > 0 && !Broken() && old(count) < capacity ==>
              producer == Idle && accepted == old(accepted) + [chunk]
      ensures consumer == if accepted != old(accepted) && old(consumer).Waiting? then Awake else old(consumer)
    {
      if chunk.size == 0 { return; }
      if error.Some? || producerError.Some? {
        producer := Thrown;
        return;
      }
      totalRows := totalRows + chunk.size;
      if count == capacity {
        producerResolve := true;
        producer := Suspended(chunk);
        return;
      }
      Enqueue(chunk);
    }

    /** consume, after its await. */
    method ConsumeResumed()
      requires Valid() && producer.Resumable?
      modifies this`tail, this`count, this`accepted, this`pending
      modifies this`producer, this`consumerResolve, this`consumer, queue
      ensures Valid() && delivered == old(delivered)
      ensures if Broken() then producer == Thrown && accepted == old(accepted) && count == old(count)
        else producer == Idle && accepted == old(accepted) + [old(producer).chunk] && count == old(count) + 1
      ensures consumer == if accepted != old(accepted) && old(consumer).Waiting? then Awake else old(consumer)
    {
      if error.Some? || producerError.Some? {
        producer := Thrown;
        return;
      }
      var chunk := producer.chunk;
      producer := Idle;
      Enqueue(chunk);
    }

    /** next, from its start or after a wake-up, up to its await or its end. */
    method Next() returns (value: Option<Chunk>)
      requires Valid() && (consumer.Asking? || consumer.Awake?)
      modifies this`head, this`count, this`delivered, this`pending, this`producerResolve, this`producer
      modifies this`consumerResolve, this`consumer, queue
      ensures Valid() && accepted == old(accepted)
      ensures if error.Some? then consumer == Failed && value == None && delivered == old(delivered)
        else if old(count) > 0 then consumer == Asking && value.Some? && delivered == old(delivered) + [value.value]
        else value == None && delivered == old(delivered) && consumer == if done then Ended else Waiting
      ensures count == old(count) - if value.Some? then 1 else 0
      ensures producer == if value.Some? && old(producer).Suspended? then Resumable(old(producer).chunk)
              else old(producer)
    {
      value := None;
      if count == 0 {
        if error.Some? {
          consumer := Failed;
        } else if done {
          consumer := Ended;
        } else {
          consumerResolve := true;
          consumer := Waiting;
        }
        return;
      }
      if error.Some? {
        consumer := Failed;
        return;
      }
      consumer := Asking;
      var chunk := Dequeue();
      value := Some(chunk);
    }

    /** An iteration that ended without an error has delivered every chunk accepted. */
    lemma {:induction false} EndedIsDrained()
      requires Valid() && consumer.Ended?
      ensures delivered == accepted
    {}

    method Finalize()
      requires Valid() && producer.Idle?
      modifies this`done, this`consumerResolve, this`consumer, this`producer
      ensures Valid() && done && producer == Finalized
      ensures consumer == if old(consumer).Waiting? && !old(done) then Awake else old(consumer)
    {
      producer := Finalized;
      if done { return; }
      done := true;
      WakeConsumer();
    }

    /** error: both sides are woken. */
    method Fail(err: Error)
      requires Valid()
      modifies this`error, this`done, this`consumerResolve, this`consumer, this`producerResolve, this`producer
      ensures Valid() && done && (!old(done) ==> error == Some(err)) && (old(done) ==> error == old(error))
      ensures old(done) || (!producer.Suspended? && !consumer.Waiting?)
      ensures producer == (if !old(done) && old(producer).Suspended? then Resumable(old(producer).chunk)
              else old(producer))
      ensures consumer == if !old(done) && old(consumer).Waiting? then Awake else old(consumer)
    {
      if done { return; }
      error := Some(err);
      done := true;
      WakeConsumer();
      WakeProducer();
    }

    method CancelProducer(err: Error)
      requires Valid()
      modifies this`producerError, this`producerResolve, this`producer
      ensures Valid()
      ensures old(done) || old(producerError).Some? ==> producerError == old(producerError) && producer == old(producer)
      ensures !old(done) && old(producerError).None? ==> producerError == Some(err)
      ensures !old(done) && old(producerError).None? ==>
                producer == if old(producer).Suspended? then Resumable(old(producer).chunk) else old(producer)
    {
      if done || producerError.Some? { return; }
      producerError := Some(err);
      WakeProducer();
    }
  }

  // ---------- whole runs ----------

  /** The chunks a sink keeps of what it is given: empty ones are dropped. */
  function NonEmpty(chunks: seq<Chunk>): seq<Chunk> {
    if chunks == [] then []
    else NonEmpty(chunks[..|chunks| - 1]) + if chunks[|chunks| - 1].size > 0 then [chunks[|chunks| - 1]] else []
  }

  function Held(p: Producer): seq<Chunk> {
    if p.Suspended? || p.Resumable? then [p.chunk] else []
  }

  function ProducerWeight(p: Producer): nat {
    match p
    case Idle => 2
    case Suspended(_) => 5
    case Resumable(_) => 6
    case Thrown => 0
    case Finalized => 0
  }

  function ConsumerWeight(c: Consumer): nat {
    match c
    case Asking => 2
    case Awake => 2
    case Waiting => 1
    case Ended => 0
    case Failed => 0
  }

  /** The work left in a run. */
  ghost function WorkLeft(sink: ResultSink, input: seq<Chunk>, next: nat): int
    requires next <= |input|
    reads sink
  {
    4 * (|input| - next) + 2 * sink.count + ProducerWeight(sink.producer) + ConsumerWeight(sink.consumer)
      + (if sink.done then 0 else 3) + if sink.producerError.None? then 2 else 0
  }

  lemma {:induction false} NonEmptyGrows(input: seq<Chunk>, n: nat)
    requires n < |input|
    ensures NonEmpty(input[..n + 1]) == NonEmpty(input[..n]) + if input[n].size > 0 then [input[n]] else []
  {
    assert input[..n + 1][..n] == input[..n];
  }

  lemma {:induction false} NonEmptyPrefix(input: seq<Chunk>, n: nat)
    requires n <= |input|
    ensures NonEmpty(input[..n]) <= NonEmpty(input)
    decreases |input| - n
  {
    if n == |input| {
      assert input[..n] == input;
    } else {
      NonEmptyPrefix(input, n + 1);
      NonEmptyGrows(input, n);
    }
  }

  ghost predicate Feeding(sink: ResultSink, input: seq<Chunk>, next: nat, output: seq<Chunk>)
    reads sink, sink.queue
  {
    && sink.Valid() && next <= |input| && output == sink.delivered
    && (if sink.error.None? && !sink.producer.Thrown?
        then sink.accepted + Held(sink.producer) == NonEmpty(input[..next])
        else sink.accepted <= NonEmpty(input[..next]))
    && (sink.producer.Finalized? && sink.error.None? ==> next == |input|)
  }

  predicate ProducerCanRun(p: Producer) {
    p.Idle? || p.Resumable?
  }

  predicate ConsumerCanRun(c: Consumer) {
    c.Asking? || c.Awake?
  }

  /** The next consume call of the producer. */
  method ProducerConsumes(sink: ResultSink, input: seq<Chunk>, next: nat, ghost output: seq<Chunk>)
    requires Feeding(sink, input, next, output) && sink.producer.Idle? && next < |input|
    modifies sink, sink.queue
    ensures Feeding(sink, input, next + 1, output) && sink.queue == old(sink.queue)
    ensures WorkLeft(sink, input, next + 1) < old(WorkLeft(sink, input, next))
    ensures sink.error == old(sink.error) && sink.producerError == old(sink.producerError)
    ensures (old(sink.done) ==> sink.done) && (old(sink.consumer).Asking? ==> sink.consumer.Asking?)
  {
    NonEmptyGrows(input, next);
    sink.Consume(input[next]);
  }

  /** The end of a suspended consume call, or finalize once the input is at its end. */
  method ProducerEnds(sink: ResultSink, input: seq<Chunk>, next: nat, ghost output: seq<Chunk>)
    requires Feeding(sink, input, next, output)
             && (sink.producer.Resumable? || (sink.producer.Idle? && next == |input|))
    modifies sink, sink.queue
    ensures Feeding(sink, input, next, output) && sink.queue == old(sink.queue)
    ensures WorkLeft(sink, input, next) < old(WorkLeft(sink, input, next))
    ensures sink.error == old(sink.error) && sink.producerError == old(sink.producerError)
    ensures (old(sink.done) ==> sink.done) && (old(sink.consumer).Asking? ==> sink.consumer.Asking?)
  {
    if sink.producer.Resumable? {
      sink.ConsumeResumed();
    } else {
      sink.Finalize();
    }
  }

  /** One step of the producer: its next consume, the end of a suspended one, or finalize. */
  method ProducerStep(sink: ResultSink, input: seq<Chunk>, next: nat, ghost output: seq<Chunk>) returns (next': nat)
    requires Feeding(sink, input, next, output) && ProducerCanRun(sink.producer)
    modifies sink, sink.queue
    ensures Feeding(sink, input, next', output) && sink.queue == old(sink.queue)
    ensures WorkLeft(sink, input, next') < old(WorkLeft(sink, input, next))
    ensures sink.error == old(sink.error) && sink.producerError == old(sink.producerError)
    ensures (old(sink.done) ==> sink.done) && (old(sink.consumer).Asking? ==> sink.consumer.Asking?)
  {
    next' := next;
    if sink.producer.Idle? && next < |input| {
      ProducerConsumes(sink, input, next, output);
      next' := next + 1;
    } else {
      ProducerEnds(sink, input, next, output);
    }
  }

  method ConsumerStep(sink: ResultSink, input: seq<Chunk>, next: nat, output: seq<Chunk>) returns (output': seq<Chunk>)
    requires Feeding(sink, input, next, output) && ConsumerCanRun(sink.consumer)
    modifies sink, sink.queue
    ensures Feeding(sink, input, next, output') && sink.queue == old(sink.queue)
    ensures WorkLeft(sink, input, next) < old(WorkLeft(sink, input, next))
    ensures sink.error == old(sink.error) && sink.producerError == old(sink.producerError)
    ensures old(sink.done) ==> sink.done
  {
    var value := sink.Next();
    output' := if value.Some? then output + [value.value] else output;
  }

  /** The query is cancelled, or its result abandoned: the producer is to stop. */
  method CancelStep(sink: ResultSink, input: seq<Chunk>, next: nat, ghost output: seq<Chunk>)
    requires Feeding(sink, input, next, output)
    modifies sink
    ensures Feeding(sink, input, next, output) && sink.queue == old(sink.queue) && sink.error == old(sink.error)
    ensures sink.consumer == old(sink.consumer) && (sink.done || sink.producerError.Some?)
    ensures !old(sink.done) && old(sink.producerError).None? ==>
              WorkLeft(sink, input, next) < old(WorkLeft(sink, input, next))
  {
    sink.CancelProducer("cancelled");
  }

  method FailStep(sink: ResultSink, input: seq<Chunk>, next: nat, ghost output: seq<Chunk>, err: Error)
    requires Feeding(sink, input, next, output) && !sink.done
    modifies sink
    ensures Feeding(sink, input, next, output) && sink.queue == old(sink.queue) && sink.done
    ensures WorkLeft(sink, input, next) < old(WorkLeft(sink, input, next))
    ensures sink.producerError == old(sink.producerError)
    ensures old(sink.consumer).Asking? ==> sink.consumer.Asking?
  {
    sink.Fail(err);
  }

  /** A producer that threw and has not been reported. */
  predicate Unreported(sink: ResultSink)
    reads sink
  {
    sink.producer.Thrown? && sink.error.None?
  }

  /** What is true when a run is over. */
  ghost predicate RunOver(sink: ResultSink, input: seq<Chunk>, output: seq<Chunk>, abandoned: bool)
    reads sink, sink.queue
  {
    && sink.Valid() && output <= NonEmpty(input) && sink.done && !sink.consumer.Waiting?
    && !ProducerCanRun(sink.producer) && !sink.producer.Suspended?
    && (!abandoned ==> if sink.error.Some? then sink.consumer.Failed?
                       else sink.consumer.Ended? && sink.producer.Finalized? && output == NonEmpty(input))
  }

  lemma {:induction false} RunEnds(sink: ResultSink, input: seq<Chunk>, next: nat, output: seq<Chunk>, abandoned: bool)
    requires Feeding(sink, input, next, output) && !ProducerCanRun(sink.producer) && !Unreported(sink)
    requires if abandoned then sink.consumer.Asking? && (sink.done || sink.producerError.Some?)
             else !ConsumerCanRun(sink.consumer)
    ensures RunOver(sink, input, output, abandoned)
  {
    sink.NotBothWaiting();
    NonEmptyPrefix(input, next);
    assert input[..|input|] == input;
  }

  /** Runs one producer and one consumer to the end, whichever goes next at every point. If they may, the query fails
      or is cancelled or its consumer stops asking at any point. The run ends with nobody left waiting and delivers a
      prefix of the chunks given; without error or abandonment exactly those chunks come out, in order. */
  method RunStreaming(capacity: nat, input: seq<Chunk>, mayFail: bool, mayCancel: bool)
      returns (output: seq<Chunk>, sink: ResultSink, abandoned: bool)
    requires capacity > 0
    ensures RunOver(sink, input, output, abandoned)
    ensures (sink.error.Some? ==> mayFail || mayCancel) && (abandoned ==> mayCancel)
  {
    sink := new ResultSink(capacity);
    output, abandoned := [], false;
    var next: nat := 0;
    while ProducerCanRun(sink.producer) || (!abandoned && ConsumerCanRun(sink.consumer)) || Unreported(sink)
      invariant fresh(sink) && fresh(sink.queue) && Feeding(sink, input, next, output)
      invariant (sink.error.Some? ==> mayFail || mayCancel) && (sink.producerError.Some? || abandoned ==> mayCancel)
      invariant abandoned ==> sink.consumer.Asking? && (sink.done || sink.producerError.Some?)
      decreases !abandoned, WorkLeft(sink, input, next)
    {
      if
      case ProducerCanRun(sink.producer) =>
        next := ProducerStep(sink, input, next, output);
      case !abandoned && ConsumerCanRun(sink.consumer) =>
        output := ConsumerStep(sink, input, next, output);
      case Unreported(sink) =>
        FailStep(sink, input, next, output, sink.producerError.value);
      case mayFail && !sink.done =>
        FailStep(sink, input, next, output, "failure");
      case mayCancel && !sink.done && sink.producerError.None? =>
        CancelStep(sink, input, next, output);
      case mayCancel && !abandoned && sink.consumer.Asking? =>
        abandoned := true;
        CancelStep(sink, input, next, output);
    }
    RunEnds(sink, input, next, output, abandoned);
  }

  // ---------- materialized results ----------

  /** The sink in materialized mode: chunks collected in memory, batches on their way to the spill store, and the
      store itself. Writes happen one chunk at a time, in the order the batches were started. */
  class MaterializedResults {
    var collected: seq<Chunk>
    var writes: seq<Chunk>
    var store: seq<Chunk>
    var spilledChunks: nat
    var totalRows: nat
    ghost var consumed: seq<Chunk>

    ghost predicate Valid()
      reads this
    {
      store + writes + collected == consumed && spilledChunks == |store| + |writes|
    }

    constructor ()
      ensures Valid() && consumed == []
    {
      collected, writes, store, spilledChunks, totalRows, consumed := [], [], [], 0, 0, [];
    }

    /** consume in materialized mode; `exceeded` is what the memory budget says. */
    method CollectChunk(chunk: Chunk, exceeded: bool)
      requires Valid()
      modifies this
      ensures Valid() && consumed == if chunk.size > 0 then old(consumed) + [chunk] else old(consumed)
    {
      if chunk.size == 0 { return; }
      totalRows := totalRows + chunk.size;
      collected := collected + [chunk];
      consumed := consumed + [chunk];
      assert store + writes + collected == consumed;
      if exceeded { SpillCollected(); }
    }

    method SpillCollected()
      requires Valid()
      modifies this
      ensures Valid() && consumed == old(consumed) && collected == []
    {
      writes := writes + collected;
      spilledChunks := spilledChunks + |collected|;
      collected := [];
    }

    /** The store takes the next chunk. */
    method WriteOne()
      requires Valid() && writes != []
      modifies this
      ensures Valid() && consumed == old(consumed) && collected == old(collected) && |writes| == |old(writes)| - 1
    {
      store := store + [writes[0]];
      writes := writes[1..];
    }

    /** The iteration waits for the writes, replays spilled and then resident chunks, and clears the store. */
    method Replay() returns (output: seq<Chunk>)
      requires Valid()
      modifies this
      ensures output == old(consumed) && store == [] && collected == old(collected)
    {
      while writes != []
        invariant Valid() && consumed == old(consumed) && collected == old(collected)
        decreases |writes|
      {
        WriteOne();
      }
      output := [];
      if spilledChunks > 0 {
        output := output + store;
      }
      output := output + collected;
      if spilledChunks > 0 { store := []; }
    }
  }
}
