/** ExchangeReceiver of src/distributed/execution/exchange-operator.ts, and its runs with any number of sources. */
module ExchangeReceivers {
  import opened Wrappers
  import opened ExchangeRouting
  import opened Exchanges

  /** The generator: about to run, at its await, woken, over, or failed. */
  datatype Generator = Running | Waiting | Awake | Finished | Failed

  class ExchangeReceiver {
    const sourceCount: nat
    var buffer: seq<Chunk>
    var completed: set<nat>
    var waiter: bool
    var done: bool
    var failed: bool
    var generator: Generator
    ghost var cleaned: bool
    ghost var arrived: seq<Chunk>
    ghost var yielded: seq<Chunk>

    /** Chunks come out in the order they came in. A waiting generator has nothing to do: no chunk, no error, and a
        source still open. */
    ghost predicate Valid()
      reads this
    {
      && arrived == yielded + buffer && (waiter <==> generator.Waiting?)
      && (generator.Waiting? ==> buffer == [] && !failed && !done && |completed| < sourceCount)
      && (done ==> cleaned || |completed| >= sourceCount)
      && (generator.Finished? ==> done) && (generator.Failed? ==> failed)
    }

    constructor (sourceCount: nat)
      ensures Valid() && arrived == [] && yielded == [] && completed == {} && generator == Running
      ensures !failed && !cleaned && this.sourceCount == sourceCount
    {
      this.sourceCount := sourceCount;
      buffer, completed := [], {};
      waiter, done, failed, generator, cleaned := false, false, false, Running, false;
      arrived, yielded := [], [];
    }

    /** The generator after a wake-up. */
    ghost function Woken(g: Generator): Generator {
      if g.Waiting? then Awake else g
    }

    method Wake()
      requires waiter <==> generator.Waiting?
      modifies this`waiter, this`generator
      ensures !waiter && generator == Woken(old(generator))
    {
      if waiter {
        waiter := false;
        generator := Awake;
      }
    }

    /** _handleChunk for a message that decodes. */
    method HandleChunk(source: nat, chunk: Chunk)
      requires Valid()
      modifies this`buffer, this`completed, this`done, this`waiter, this`generator, this`arrived
      ensures Valid() && generator == Woken(old(generator))
      ensures IsEnd(chunk) ==>
                completed == old(completed) + {source} && arrived == old(arrived) && buffer == old(buffer)
      ensures !IsEnd(chunk) ==> completed == old(completed)
      ensures !IsEnd(chunk) ==> arrived == old(arrived) + [chunk] && buffer == old(buffer) + [chunk]
    {
      if chunk.size == 0 && |chunk.columns| == 0 {
        completed := completed + {source};
        if |completed| >= sourceCount { done := true; }
        GrowsOnly(old(completed), source);
        Wake();
        return;
      }
      buffer, arrived := buffer + [chunk], arrived + [chunk];
      Wake();
    }

    lemma {:induction false} GrowsOnly(s: set<nat>, x: nat)
      ensures |s| <= |s + {x}|
    {
      if x in s { assert s + {x} == s; }
    }

    /** _handleChunk for a message that does not. */
    method HandleCorrupt()
      requires Valid()
      modifies this`failed, this`waiter, this`generator
      ensures Valid() && failed && generator == Woken(old(generator))
    {
      failed := true;
      Wake();
    }

    method Cleanup()
      requires Valid()
      modifies this`done, this`waiter, this`generator, this`cleaned
      ensures Valid() && done && !generator.Waiting?
    {
      done, cleaned := true, true;
      Wake();
    }

    /** generate, from its start, from a yield or from a wake-up, to the next yield, await or end. */
    method Next() returns (value: Option<Chunk>)
      requires Valid() && (generator.Running? || generator.Awake?)
      modifies this`buffer, this`done, this`waiter, this`generator, this`yielded
      ensures Valid() && arrived == old(arrived)
      ensures buffer == if old(buffer) != [] then old(buffer)[1..] else []
      ensures old(buffer) != [] ==> value == Some(old(buffer)[0]) && generator == Running
      ensures old(buffer) != [] ==> yielded == old(yielded) + [old(buffer)[0]]
      ensures old(buffer) == [] ==> value == None && yielded == old(yielded)
      ensures old(buffer) == [] ==>
                generator == (if failed then Failed else if old(done)
                  || |completed| >= sourceCount then Finished else Waiting)
    {
      value := None;
      if |buffer| > 0 {
        value, generator := Some(buffer[0]), Running;
        yielded := yielded + [buffer[0]];
        buffer := buffer[1..];
      } else if failed {
        generator := Failed;
      } else if done {
        generator := Finished;
      } else if |completed| >= sourceCount {
        done, generator := true, Finished;
      } else {
        waiter, generator := true, Waiting;
      }
    }
  }

  // ---------- whole runs ----------

  /** The chunks that came from one source. */
  ghost function From(chunks: seq<Chunk>, sources: seq<nat>, source: nat): seq<Chunk>
    requires |sources| == |chunks|
  {
    if chunks == [] then []
    else
      var n := |chunks| - 1;
      From(chunks[..n], sources[..n], source) + if sources[n] == source then [chunks[n]] else []
  }

  lemma {:induction false} FromOneMore(chunks: seq<Chunk>, sources: seq<nat>, chunk: Chunk, s: nat, source: nat)
    requires |sources| == |chunks|
    ensures From(chunks + [chunk], sources + [s], source) == From(chunks, sources, source)
            + if s == source then [chunk] else []
  {
    assert (chunks + [chunk])[..|chunks|] == chunks && (sources + [s])[..|chunks|] == sources;
  }

  /** How much of a source's stream is data: all but its end marker. */
  function DataOf(stream: seq<Chunk>, n: nat): nat
    requires n <= |stream|
  {
    if n < |stream| then n else if n == 0 then 0 else n - 1
  }

  function Total(streams: seq<seq<Chunk>>, next: seq<nat>, n: nat): int
    requires n <= |streams| == |next|
  {
    if n == 0 then 0 else Total(streams, next, n - 1) + |streams[n - 1]| - next[n - 1]
  }

  lemma {:induction false} TotalDrops(streams: seq<seq<Chunk>>, next: seq<nat>, n: nat, source: nat)
    requires n <= |streams| == |next| && source < |next|
    ensures Total(streams, next[source := next[source] + 1], n) == Total(streams, next, n) - if source < n then 1 else 0
  {
    if n > 0 { TotalDrops(streams, next, n - 1, source); }
  }

  lemma {:induction false} TotalIsNat(streams: seq<seq<Chunk>>, next: seq<nat>, n: nat)
    requires n <= |streams| == |next| && forall s :: 0 <= s < |next| ==> next[s] <= |streams[s]|
    ensures Total(streams, next, n) >= 0
  {
    if n > 0 { TotalIsNat(streams, next, n - 1); }
  }

  /** Every source sends chunks with rows and then one end marker. */
  ghost predicate Sources(streams: seq<seq<Chunk>>) {
    forall s :: 0 <= s < |streams| ==> Stream(streams[s], 1)
  }

  /** The first next[s] messages of every source s have been handled, and nothing else. */
  ghost predicate Handled(streams: seq<seq<Chunk>>, next: seq<nat>, completed: set<nat>, arrived: seq<Chunk>,
                          sources: seq<nat>) {
    && |next| == |streams| && |sources| == |arrived| && (forall i :: 0 <= i < |sources| ==> sources[i] < |streams|)
    && (forall s :: 0 <= s < |next| ==> next[s] <= |streams[s]|)
    && (forall s :: s in completed <==> 0 <= s < |next| && next[s] == |streams[s]|)
    && (forall s {:trigger next[s]} :: 0 <= s < |next| ==>
      From(arrived, sources, s) == streams[s][..DataOf(streams[s], next[s])])
  }

  lemma {:induction false} HandledEnd(streams: seq<seq<Chunk>>, next: seq<nat>, completed: set<nat>,
                                      arrived: seq<Chunk>,
                                      sources: seq<nat>, s: nat)
    requires Sources(streams) && Handled(streams, next, completed, arrived, sources)
    requires s < |next| && next[s] < |streams[s]| && IsEnd(streams[s][next[s]])
    ensures Handled(streams, next[s := next[s] + 1], completed + {s}, arrived, sources)
  {
    assert Stream(streams[s], 1) && next[s] == |streams[s]| - 1;
    assert DataOf(streams[s], next[s] + 1) == DataOf(streams[s], next[s]);
  }

  lemma {:induction false} HandledData(streams: seq<seq<Chunk>>, next: seq<nat>, completed: set<nat>,
                                       arrived: seq<Chunk>,
                                       sources: seq<nat>, s: nat)
    requires Sources(streams) && Handled(streams, next, completed, arrived, sources)
    requires s < |next| && next[s] < |streams[s]| && !IsEnd(streams[s][next[s]])
    ensures Handled(streams, next[s := next[s] + 1], completed, arrived + [streams[s][next[s]]], sources + [s])
  {
    assert Stream(streams[s], 1) && next[s] < |streams[s]| - 1;
    forall t | 0 <= t < |next|
      ensures From(arrived + [streams[s][next[s]]], sources + [s], t)
              == streams[t][..DataOf(streams[t], next[s := next[s] + 1][t])]
    {
      FromOneMore(arrived, sources, streams[s][next[s]], s, t);
      assert From(arrived, sources, t) == streams[t][..DataOf(streams[t], next[t])];
    }
  }

  lemma {:induction false} Fewer(done: set<nat>, n: nat)
    requires forall s :: s in done ==> s < n
    ensures |done| <= n
  {
    if n == 0 {
      assert done == {};
    } else {
      Fewer(done - {n - 1}, n - 1);
    }
  }

  lemma {:induction false} NoneMissing(done: set<nat>, n: nat, s: nat)
    requires (forall t :: t in done ==> t < n) && |done| >= n && s < n
    ensures s in done
  {
    if s !in done {
      Fewer(done + {s}, n);
    }
  }

  /** With as many end markers as sources, everything has been handled. */
  lemma {:induction false} AllHandled(streams: seq<seq<Chunk>>, next: seq<nat>, completed: set<nat>,
                                      arrived: seq<Chunk>, sources: seq<nat>)
    requires Handled(streams, next, completed, arrived, sources) && |completed| >= |streams|
    ensures forall s :: 0 <= s < |next| ==> next[s] == |streams[s]|
  {
    forall s | 0 <= s < |next| ensures next[s] == |streams[s]| {
      NoneMissing(completed, |next|, s);
    }
  }

  /** What holds between two steps. */
  ghost predicate Receiving(r: ExchangeReceiver, streams: seq<seq<Chunk>>, next: seq<nat>, sources: seq<nat>)
    reads r
  {
    && r.Valid() && !r.failed && !r.cleaned && r.sourceCount == |streams| && (r.generator.Finished? ==> r.buffer == [])
    && Handled(streams, next, r.completed, r.arrived, sources)
  }

  /** The next message of a source arrives. */
  method Deliver(r: ExchangeReceiver, streams: seq<seq<Chunk>>, next: seq<nat>, ghost sources: seq<nat>, source: nat)
    returns (next': seq<nat>, ghost sources': seq<nat>)
    requires Sources(streams) && Receiving(r, streams, next, sources) && source < |next|
             && next[source] < |streams[source]|
    modifies r
    ensures Receiving(r, streams, next', sources') && next' == next[source := next[source] + 1]
    ensures |r.buffer| <= |old(r.buffer)| + 1 && r.generator == r.Woken(old(r.generator)) && r.yielded == old(r.yielded)
  {
    var chunk := streams[source][next[source]];
    if r.generator.Finished? { AllHandled(streams, next, r.completed, r.arrived, sources); }
    assert !r.generator.Finished?;
    if IsEnd(chunk) {
      HandledEnd(streams, next, r.completed, r.arrived, sources, source);
      sources' := sources;
    } else {
      HandledData(streams, next, r.completed, r.arrived, sources, source);
      sources' := sources + [source];
    }
    next' := next[source := next[source] + 1];
    r.HandleChunk(source, chunk);
  }

  predicate Pending(streams: seq<seq<Chunk>>, next: seq<nat>)
    requires |next| == |streams|
  {
    exists s :: 0 <= s < |next| && next[s] < |streams[s]|
  }

  predicate CanRun(g: Generator) {
    g.Running? || g.Awake?
  }

  ghost function WorkLeft(r: ExchangeReceiver, streams: seq<seq<Chunk>>, next: seq<nat>): int
    requires |next| == |streams|
    reads r
  {
    3 * Total(streams, next, |streams|) + |r.buffer| + if CanRun(r.generator) then 1 else 0
  }

  lemma {:induction false} Enough(done: set<nat>, n: nat)
    requires forall s :: 0 <= s < n ==> s in done
    ensures |done| >= n
  {
    if n > 0 { Enough(done - {n - 1}, n - 1); }
  }

  /** A receiver at rest after all messages is over, and has yielded what arrived. */
  lemma {:induction false} RestIsFinished(r: ExchangeReceiver, streams: seq<seq<Chunk>>, next: seq<nat>,
                                          sources: seq<nat>)
    requires Sources(streams) && Receiving(r, streams, next, sources) && !CanRun(r.generator) && !Pending(streams, next)
    ensures r.generator.Finished? && r.yielded == r.arrived
    ensures forall s {:trigger streams[s]} :: 0 <= s < |streams| ==>
              From(r.yielded, sources, s) == streams[s][..|streams[s]| - 1]
  {
    Enough(r.completed, |streams|);
    assert r.yielded == r.arrived;
    forall s {:trigger streams[s]} | 0 <= s < |streams|
      ensures From(r.arrived, sources, s) == streams[s][..|streams[s]| - 1] {
      assert Stream(streams[s], 1) && next[s] == |streams[s]|;
    }
  }

  /** One step of the generator. */
  method GeneratorStep(r: ExchangeReceiver, streams: seq<seq<Chunk>>, next: seq<nat>, ghost sources: seq<nat>,
                       output: seq<Chunk>)
    returns (output': seq<Chunk>)
    requires Receiving(r, streams, next, sources) && CanRun(r.generator) && output == r.yielded
    modifies r
    ensures Receiving(r, streams, next, sources) && output' == r.yielded
    ensures WorkLeft(r, streams, next) < old(WorkLeft(r, streams, next))
  {
    var value := r.Next();
    output' := if value.Some? then output + [value.value] else output;
  }

  /** One delivery, from any source that has a message left. */
  method DeliverAny(r: ExchangeReceiver, streams: seq<seq<Chunk>>, next: seq<nat>, ghost sources: seq<nat>)
    returns (next': seq<nat>, ghost sources': seq<nat>)
    requires Sources(streams) && Receiving(r, streams, next, sources) && Pending(streams, next)
    modifies r
    ensures Receiving(r, streams, next', sources') && r.yielded == old(r.yielded)
    ensures WorkLeft(r, streams, next') < old(WorkLeft(r, streams, next))
  {
    var s :| 0 <= s < |next| && next[s] < |streams[s]|;
    TotalDrops(streams, next, |streams|, s);
    next', sources' := Deliver(r, streams, next, sources, s);
  }

  lemma {:induction false} StartHandled(streams: seq<seq<Chunk>>, next: seq<nat>)
    requires Sources(streams) && |next| == |streams| && forall s :: 0 <= s < |next| ==> next[s] == 0
    ensures Handled(streams, next, {}, [], [])
  {
    assert forall s :: 0 <= s < |streams| ==> Stream(streams[s], 1);
  }

  /** Runs a receiver with its sources, messages arriving in any order that keeps each source's own. The generator
      ends; by then it has yielded every data chunk of every source once, in the source's order. */
  method Receive(streams: seq<seq<Chunk>>) returns (output: seq<Chunk>, ghost sources: seq<nat>, r: ExchangeReceiver)
    requires Sources(streams)
    ensures r.generator == Finished && |sources| == |output| && forall i :: 0 <= i < |sources| ==>
            sources[i] < |streams|
    ensures forall s {:trigger streams[s]} :: 0 <= s < |streams| ==>
            From(output, sources, s) == streams[s][..|streams[s]| - 1]
  {
    r := new ExchangeReceiver(|streams|);
    output, sources := [], [];
    var next: seq<nat> := seq(|streams|, _ => 0);
    StartHandled(streams, next);
    while CanRun(r.generator) || Pending(streams, next)
      invariant fresh(r) && Receiving(r, streams, next, sources) && output == r.yielded
      decreases WorkLeft(r, streams, next)
    {
      TotalIsNat(streams, next, |streams|);
      if
      case CanRun(r.generator) =>
        output := GeneratorStep(r, streams, next, sources, output);
      case Pending(streams, next) =>
        next, sources := DeliverAny(r, streams, next, sources);
    }
    RestIsFinished(r, streams, next, sources);
  }

  // ---------- what senders sent is what receivers yield ----------

  ghost predicate AllWellFormed(chunks: seq<Chunk>) {
    forall i :: 0 <= i < |chunks| ==> WellFormed(chunks[i])
  }

  lemma {:induction false} FromWellFormed(chunks: seq<Chunk>, sources: seq<nat>, s: nat)
    requires |sources| == |chunks| && AllWellFormed(chunks)
    ensures AllWellFormed(From(chunks, sources, s))
  {
    if chunks != [] { FromWellFormed(chunks[..|chunks| - 1], sources[..|chunks| - 1], s); }
  }

  function Rows(chunk: Chunk): multiset<Row>
    requires WellFormed(chunk)
  {
    multiset(ActiveRows(chunk, chunk.size))
  }

  /** The rows of one source. */
  ghost function SourceRows(chunks: seq<Chunk>, sources: seq<nat>, s: nat): multiset<Row>
    requires |sources| == |chunks| && AllWellFormed(chunks)
  {
    if chunks == [] then multiset{}
    else
      var k := |chunks| - 1;
      SourceRows(chunks[..k], sources[..k], s) + if sources[k] == s then Rows(chunks[k]) else multiset{}
  }

  lemma {:induction false} SourceRowsAre(chunks: seq<Chunk>, sources: seq<nat>, s: nat)
    requires |sources| == |chunks| && AllWellFormed(chunks)
    ensures AllWellFormed(From(chunks, sources, s))
            && SourceRows(chunks, sources, s) == multiset(RowsOf(From(chunks, sources, s)))
  {
    FromWellFormed(chunks, sources, s);
    if chunks != [] {
      var k := |chunks| - 1;
      SourceRowsAre(chunks[..k], sources[..k], s);
      if sources[k] == s {
        RowsOneMore(From(chunks[..k], sources[..k], s), chunks[k]);
      } else {
        assert From(chunks, sources, s) == From(chunks[..k], sources[..k], s);
      }
    }
  }

  /** How often a row comes from the first n sources. */
  ghost function TimesFrom(chunks: seq<Chunk>, sources: seq<nat>, n: nat, row: Row): nat
    requires |sources| == |chunks| && AllWellFormed(chunks)
  {
    if n == 0 then 0 else TimesFrom(chunks, sources, n - 1, row) + SourceRows(chunks, sources, n - 1)[row]
  }

  lemma {:induction false} SourceRowsLast(chunks: seq<Chunk>, sources: seq<nat>, s: nat, row: Row)
    requires |sources| == |chunks| > 0 && AllWellFormed(chunks)
    ensures SourceRows(chunks, sources, s)[row] == SourceRows(chunks[..|chunks| - 1], sources[..|chunks| - 1], s)[row]
          + if sources[|chunks| - 1] == s then Rows(chunks[|chunks| - 1])[row] else 0
  {}

  lemma {:induction false} TimesFromLast(chunks: seq<Chunk>, sources: seq<nat>, n: nat, row: Row)
    requires |sources| == |chunks| > 0 && AllWellFormed(chunks)
    ensures TimesFrom(chunks, sources, n, row)
         == TimesFrom(chunks[..|chunks| - 1], sources[..|chunks| - 1], n, row)
          + if sources[|chunks| - 1] < n then Rows(chunks[|chunks| - 1])[row] else 0
  {
    if n > 0 {
      SourceRowsLast(chunks, sources, n - 1, row);
      TimesFromLast(chunks, sources, n - 1, row);
    }
  }

  lemma {:induction false} NothingFrom(n: nat, row: Row)
    ensures TimesFrom([], [], n, row) == 0
  {
    if n > 0 { NothingFrom(n - 1, row); }
  }

  /** Every row is received as often as the sources together sent it. */
  lemma {:induction false} ReceivedIsSum(chunks: seq<Chunk>, sources: seq<nat>, n: nat, row: Row)
    requires |sources| == |chunks| && AllWellFormed(chunks) && forall i :: 0 <= i < |sources| ==> sources[i] < n
    ensures multiset(RowsOf(chunks))[row] == TimesFrom(chunks, sources, n, row)
  {
    if chunks == [] {
      NothingFrom(n, row);
    } else {
      ReceivedIsSum(chunks[..|chunks| - 1], sources[..|chunks| - 1], n, row);
      TimesFromLast(chunks, sources, n, row);
    }
  }
}
