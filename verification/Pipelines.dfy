/** PipelineGraph of src/execution/pipeline.ts and TaskScheduler of src/execution/scheduler.ts. */
module Pipelines {
  import opened Sequences
  import opened PipelineRuns

  datatype PipelineState = PENDING | RUNNING | DONE | FAILED | CANCELLED

  class Pipeline {
    const id: nat
    var dependencies: set<nat>
    var dependents: set<nat>
    var state: PipelineState
    var cancelled: bool

    constructor (id: nat)
      ensures this.id == id && dependencies == {} && dependents == {} && state == PENDING && !cancelled
    {
      this.id, dependencies, dependents, state, cancelled := id, {}, {}, PENDING, false;
    }
  }

  lemma {:induction false} NoneWaiting(some: set<nat>, finished: set<nat>)
    requires some - finished == {}
    ensures some <= finished
  {
    assert forall d :: d in some && d !in finished ==> d in some - finished;
  }

  ghost function DependentsOn(needs: Needs, id: nat): set<nat> {
    set d | d in needs && id in needs[d]
  }

  lemma {:induction false} DependsOnAdded(needs: Needs, p: nat, d: nat)
    requires p in needs
    ensures DependentsOn(needs[p := needs[p] + {d}], d) == DependentsOn(needs, d) + {p}
    ensures forall id :: id != d ==> DependentsOn(needs[p := needs[p] + {d}], id) == DependentsOn(needs, id)
  {
    forall id | id != d ensures DependentsOn(needs[p := needs[p] + {d}], id) == DependentsOn(needs, id) {}
  }

  ghost function Members<T>(s: seq<T>, from: nat): set<T>
    requires from <= |s|
  {
    set i | from <= i < |s| :: s[i]
  }

  lemma {:induction false} TakeMember<T>(s: seq<T>, i: nat)
    requires Distinct(s) && i < |s|
    ensures s[i] in Members(s, i) && Members(s, i + 1) == Members(s, i) - {s[i]}
  {
    forall x | x in Members(s, i) - {s[i]} ensures x in Members(s, i + 1) {
      var j :| i <= j < |s| && s[j] == x;
    }
  }

  ghost predicate StateOk(id: nat, s: PipelineState, log: seq<Event>, finished: set<nat>) {
    && (s == PENDING ==> Start(id) !in log)
    && (s == RUNNING || s == DONE || s == FAILED ==> Start(id) in log)
    && (s == DONE <==> id in finished)
    && (id in finished ==> Finish(id) in log)
    && (s == RUNNING ==> id in Alive(log, |log|))
  }

  /** An event of another pipeline leaves this one's state right. */
  lemma {:induction false} StateStaysOk(log: seq<Event>, e: Event, finished: set<nat>, finished': set<nat>)
    requires finished' == if e.Finish? then finished + {e.id} else finished
    ensures forall id, s {:trigger StateOk(id, s, log, finished)} ::
      id != e.id && StateOk(id, s, log, finished) ==> StateOk(id, s, log + [e], finished')
  {
    forall id, s | id != e.id && StateOk(id, s, log, finished) ensures StateOk(id, s, log + [e], finished') {
      AlivePush(log, e, |log|);
      assert forall x :: x in log + [e] <==> x in log || x == e;
    }
  }

  class PipelineGraph {
    var pipelines: map<nat, Pipeline>
    var nextId: nat
    var readyIds: set<nat>
    /** Every dependency ever added. */
    ghost var needs: Needs
    /** What started, finished and failed so far. */
    ghost var log: seq<Event>
    ghost var finished: set<nat>

    ghost predicate Keyed()
      reads this`pipelines, this`nextId, this`needs, this`finished
    {
      && needs.Keys == pipelines.Keys && Closed(needs) && finished <= needs.Keys
      && forall id {:trigger pipelines[id]} :: id in pipelines ==> pipelines[id].id == id < nextId
    }

    /** Each pipeline knows who needs it. */
    ghost predicate Linked()
      requires Keyed()
      reads this`pipelines, this`nextId, this`needs, this`finished, pipelines.Values`dependents
    {
      forall id {:trigger pipelines[id].dependents} :: id in pipelines ==>
        pipelines[id].dependents == DependentsOn(needs, id)
    }

    /** Each pipeline waits for what it needs and has not finished. */
    ghost predicate Waiting()
      requires Keyed()
      reads this`pipelines, this`nextId, this`needs, this`finished, pipelines.Values`dependencies
    {
      forall id {:trigger pipelines[id].dependencies} :: id in pipelines ==>
        pipelines[id].dependencies == needs[id] - finished
    }

    /** Pipelines that wait for nothing are in the ready set. */
    ghost predicate AllReady()
      requires Keyed()
      reads this`pipelines, this`nextId, this`needs, this`finished, this`readyIds, pipelines.Values`state
    {
      && readyIds <= pipelines.Keys
      && forall id {:trigger pipelines[id].state} ::
           id in pipelines && pipelines[id].state == PENDING && needs[id] <= finished ==> id in readyIds
    }

    /** The states say what the log says. */
    ghost predicate Logged()
      requires Keyed()
      reads this`pipelines, this`nextId, this`needs, this`finished, this`log, pipelines.Values`state
    {
      forall id {:trigger pipelines[id].state} :: id in pipelines ==> StateOk(id, pipelines[id].state, log, finished)
    }

    ghost predicate Valid()
      reads this, pipelines.Values
    {
      Keyed() && Linked() && Waiting() && AllReady() && Logged()
    }

    /** Nothing has been scheduled yet. */
    ghost predicate Unscheduled()
      reads this, pipelines.Values`state
    {
      log == [] && finished == {} && forall id {:trigger pipelines[id].state} :: id in pipelines ==>
        pipelines[id].state == PENDING
    }

    constructor ()
      ensures Valid() && Unscheduled() && needs == map[]
    {
      pipelines, nextId, readyIds, needs, log, finished := map[], 1, {}, map[], [], {};
    }

    method CreatePipeline() returns (id: nat)
      requires Valid() && Unscheduled()
      modifies this
      ensures Valid() && Unscheduled() && id == old(nextId) && id !in old(needs) && needs == old(needs)[id := {}]
    {
      id := nextId;
      assert id !in pipelines;
      nextId := nextId + 1;
      var pipeline := new Pipeline(id);
      assert forall d :: d in needs ==> id !in needs[d];
      pipelines := pipelines[id := pipeline];
      needs := needs[id := {}];
      readyIds := readyIds + {id};
    }

    method WaitFor(pipelineId: nat, dependsOnId: nat, ghost more: Needs)
      requires Keyed() && Waiting() && finished == {} && pipelineId in pipelines
      requires more == needs[pipelineId := needs[pipelineId] + {dependsOnId}]
      modifies pipelines.Values`dependencies
      ensures forall id {:trigger pipelines[id].dependencies} :: id in pipelines ==>
              pipelines[id].dependencies == more[id] - finished
    {
      var pipeline := pipelines[pipelineId];
      assert forall id {:trigger pipelines[id]} :: id in pipelines && id != pipelineId ==> pipelines[id] != pipeline;
      pipeline.dependencies := pipeline.dependencies + {dependsOnId};
    }

    method LinkBack(pipelineId: nat, dependsOnId: nat, ghost more: Needs)
      requires Keyed() && Linked() && pipelineId in pipelines && dependsOnId in pipelines
      requires more == needs[pipelineId := needs[pipelineId] + {dependsOnId}]
      modifies pipelines.Values`dependents
      ensures forall id {:trigger pipelines[id].dependents} :: id in pipelines ==>
              pipelines[id].dependents == DependentsOn(more, id)
    {
      var dependency := pipelines[dependsOnId];
      assert forall id {:trigger pipelines[id]} :: id in pipelines && id != dependsOnId ==> pipelines[id] != dependency;
      DependsOnAdded(needs, pipelineId, dependsOnId);
      dependency.dependents := dependency.dependents + {pipelineId};
    }

    method AddDependency(pipelineId: nat, dependsOnId: nat)
      requires Valid() && Unscheduled() && pipelineId in pipelines && dependsOnId in pipelines
      modifies this`readyIds, this`needs, pipelines.Values`dependencies, pipelines.Values`dependents
      ensures Valid() && Unscheduled() && needs == old(needs)[pipelineId := old(needs)[pipelineId] + {dependsOnId}]
    {
      ghost var more := needs[pipelineId := needs[pipelineId] + {dependsOnId}];
      assert Closed(more) && more.Keys == needs.Keys;
      WaitFor(pipelineId, dependsOnId, more);
      LinkBack(pipelineId, dependsOnId, more);
      readyIds := readyIds - {pipelineId};
      needs := more;
    }

    ghost predicate MayStart(p: Pipeline)
      reads this`needs, this`finished, p`state
    {
      p.state == PENDING && p.id in needs && needs[p.id] <= finished
    }

    ghost function Startable(): set<Pipeline>
      reads this`pipelines, this`needs, this`finished, pipelines.Values`state
    {
      set p | p in pipelines.Values && MayStart(p)
    }

    /** The pipelines that may start; the others leave the ready set. */
    method GetReadyPipelines() returns (ready: seq<Pipeline>)
      requires Valid()
      modifies this`readyIds
      ensures Valid() && Distinct(ready)
      ensures Members(ready, 0) == Startable()
    {
      ready := [];
      var toVisit := readyIds;
      while toVisit != {}
        invariant toVisit <= readyIds <= pipelines.Keys && AllReady()
        invariant Distinct(ready)
        invariant forall i {:trigger ready[i]} :: 0 <= i < |ready| ==>
          ready[i].id in pipelines && pipelines[ready[i].id] == ready[i] && ready[i].id !in toVisit
            && MayStart(ready[i])
        invariant forall id {:trigger pipelines[id]} :: id in readyIds - toVisit && MayStart(pipelines[id]) ==>
                  pipelines[id] in ready
      {
        var id :| id in toVisit;
        toVisit := toVisit - {id};
        var pipeline := pipelines[id];
        if pipeline.state == PENDING && pipeline.dependencies == {} {
          NoneWaiting(needs[id], finished);
          ready := ready + [pipeline];
          assert ready[|ready| - 1] == pipeline;
        } else {
          readyIds := readyIds - {id};
        }
      }
    }

    lemma {:induction false} StartMayHappen(id: nat, concurrency: nat)
      requires Keyed() && Logged() && id in pipelines && MayStart(pipelines[id]) && |Alive(log, |log|)| < concurrency
      ensures MayHappen(log, Start(id), needs, concurrency)
    {
      assert pipelines[id].id == id;
      assert pipelines[id].state == PENDING;
      forall d | d in needs[id] ensures Finish(d) in log {
        assert d in needs && pipelines[d].state == DONE;
      }
    }

    /** A pipeline that may start starts. */
    method MarkRunning(id: nat, ghost concurrency: nat)
      requires Valid() && id in pipelines && MayStart(pipelines[id])
      requires WellRun(log, needs, concurrency) && |Alive(log, |log|)| < concurrency
      modifies this`log, pipelines.Values`state
      ensures Valid() && pipelines[id].state == RUNNING && log == old(log) + [Start(id)]
      ensures WellRun(log, needs, concurrency) && Alive(log, |log|) == old(Alive(log, |log|)) + {id}
      ensures forall other {:trigger pipelines[other].state} :: other in pipelines && other != id ==>
              pipelines[other].state == old(pipelines[other].state)
      ensures Startable() == old(Startable()) - {pipelines[id]}
    {
      StartMayHappen(id, concurrency);
      SetRunning(id, concurrency);
      AllListed();
    }

    method SetRunning(id: nat, ghost concurrency: nat)
      requires Keyed() && Logged() && id in pipelines && pipelines[id].state == PENDING
      requires WellRun(log, needs, concurrency) && MayHappen(log, Start(id), needs, concurrency)
      modifies this`log, pipelines.Values`state
      ensures Logged() && pipelines[id].state == RUNNING && log == old(log) + [Start(id)]
      ensures WellRun(log, needs, concurrency) && Alive(log, |log|) == old(Alive(log, |log|)) + {id}
      ensures forall other {:trigger pipelines[other].state} :: other in pipelines && other != id ==>
              pipelines[other].state == old(pipelines[other].state)
    {
      WellRunPush(log, Start(id), needs, concurrency);
      StateStaysOk(log, Start(id), finished, finished);
      SameButOne(id);
      assert StateOk(id, PENDING, log, finished);
      pipelines[id].state := RUNNING;
      log := log + [Start(id)];
    }

    lemma {:induction false} AllListed()
      requires Keyed()
      ensures forall p {:trigger p.state} :: p in pipelines.Values ==> p.id in pipelines && pipelines[p.id] == p
    {
      forall p | p in pipelines.Values ensures p.id in pipelines && pipelines[p.id] == p {
        var id :| id in pipelines && pipelines[id] == p;
      }
    }

    lemma {:induction false} SameButOne(id: nat)
      requires Keyed() && id in pipelines
      ensures forall other {:trigger pipelines[other]} :: other in pipelines && other != id ==>
              pipelines[other] != pipelines[id]
    {}

    method MarkPipelineDone(pipelineId: nat, ghost concurrency: nat)
      requires Valid() && pipelineId in pipelines && pipelines[pipelineId].state == RUNNING
      requires WellRun(log, needs, concurrency)
      modifies this`log, this`finished, this`readyIds, pipelines.Values`state, pipelines.Values`dependencies
      ensures Valid() && log == old(log) + [Finish(pipelineId)] && finished == old(finished) + {pipelineId}
      ensures WellRun(log, needs, concurrency) && Alive(log, |log|) == old(Alive(log, |log|)) - {pipelineId}
      ensures forall id {:trigger pipelines[id].state} :: id in pipelines ==>
        pipelines[id].state == if id == pipelineId then DONE else old(pipelines[id].state)
    {
      SetDone(pipelineId, concurrency);
      readyIds := readyIds - {pipelineId};
      ReleaseDependents(pipelineId);
    }

    method SetDone(pipelineId: nat, ghost concurrency: nat)
      requires Keyed() && Logged() && pipelineId in pipelines && pipelines[pipelineId].state == RUNNING
      requires WellRun(log, needs, concurrency)
      modifies this`log, this`finished, pipelines.Values`state
      ensures Keyed() && Logged() && log == old(log) + [Finish(pipelineId)] && finished == old(finished) + {pipelineId}
      ensures WellRun(log, needs, concurrency) && Alive(log, |log|) == old(Alive(log, |log|)) - {pipelineId}
      ensures forall id {:trigger pipelines[id].state} :: id in pipelines && id != pipelineId ==>
              pipelines[id].state == old(pipelines[id].state)
      ensures pipelines[pipelineId].state == DONE
    {
      WellRunPush(log, Finish(pipelineId), needs, concurrency);
      StateStaysOk(log, Finish(pipelineId), finished, finished + {pipelineId});
      SameButOne(pipelineId);
      assert StateOk(pipelineId, RUNNING, log, finished);
      pipelines[pipelineId].state := DONE;
      log := log + [Finish(pipelineId)];
      finished := finished + {pipelineId};
    }

    /** Whoever waited for the finished pipeline waits for it no more, and is ready when it waits for nothing. */
    method ReleaseDependents(pipelineId: nat)
      requires Keyed() && Linked() && pipelineId in pipelines && pipelineId in finished && readyIds <= pipelines.Keys
      requires forall id {:trigger pipelines[id].dependencies} :: id in pipelines ==>
        pipelines[id].dependencies == needs[id] - (finished - {pipelineId})
      requires forall id {:trigger pipelines[id].state} :: (
        id in pipelines && pipelines[id].state == PENDING && needs[id] <= finished - {pipelineId} ==> id in readyIds)
      modifies this`readyIds, pipelines.Values`dependencies
      ensures Waiting() && AllReady()
    {
      var toVisit := pipelines[pipelineId].dependents;
      while toVisit != {}
        invariant toVisit <= DependentsOn(needs, pipelineId) && readyIds <= pipelines.Keys
        invariant forall id {:trigger pipelines[id].dependencies} :: id in pipelines ==>
          pipelines[id].dependencies == if id in toVisit then needs[id] - (finished - {pipelineId})
            else needs[id] - finished
        invariant forall id {:trigger pipelines[id].state} :: (
          id in pipelines && pipelines[id].state == PENDING && id !in toVisit && needs[id] <= finished ==>
            id in readyIds)
      {
        var depId :| depId in toVisit;
        toVisit := toVisit - {depId};
        var dependent := pipelines[depId];
        SameButOne(depId);
        dependent.dependencies := dependent.dependencies - {pipelineId};
        assert dependent.dependencies == needs[depId] - finished;
        if dependent.dependencies == {} && dependent.state == PENDING {
          readyIds := readyIds + {depId};
        }
      }
    }

    method MarkPipelineFailed(pipelineId: nat, ghost concurrency: nat)
      requires Valid() && pipelineId in pipelines && pipelines[pipelineId].state == RUNNING
      requires WellRun(log, needs, concurrency)
      modifies this`log, this`readyIds, pipelines.Values`state
      ensures Valid() && log == old(log) + [Fail(pipelineId)]
      ensures WellRun(log, needs, concurrency) && Alive(log, |log|) == old(Alive(log, |log|)) - {pipelineId}
      ensures forall id {:trigger pipelines[id].state} :: id in pipelines && id != pipelineId ==>
              pipelines[id].state == old(pipelines[id].state)
      ensures pipelines[pipelineId].state == FAILED
    {
      WellRunPush(log, Fail(pipelineId), needs, concurrency);
      StateStaysOk(log, Fail(pipelineId), finished, finished);
      SameButOne(pipelineId);
      assert StateOk(pipelineId, RUNNING, log, finished);
      pipelines[pipelineId].state := FAILED;
      log := log + [Fail(pipelineId)];
      readyIds := readyIds - {pipelineId};
    }

    /** Cancels a pipeline that is not over; one that is over keeps its state. */
    method CancelPipeline(pipelineId: nat)
      requires Valid()
      modifies this`readyIds, pipelines.Values`state, pipelines.Values`cancelled
      ensures Valid() && readyIds <= old(readyIds)
      ensures forall id {:trigger pipelines[id].state} :: id in pipelines ==>
        pipelines[id].state == old(pipelines[id].state)
          || (id == pipelineId && pipelines[id].state == CANCELLED && old(pipelines[id].state) in {PENDING, RUNNING})
      ensures pipelineId in pipelines ==> pipelines[pipelineId].cancelled
      ensures pipelineId in pipelines && !old(pipelines[pipelineId].cancelled) ==>
              pipelines[pipelineId].state !in {PENDING, RUNNING}
      ensures forall id {:trigger pipelines[id].cancelled} :: id in pipelines && id != pipelineId ==>
              pipelines[id].cancelled == old(pipelines[id].cancelled)
    {
      if pipelineId !in pipelines || pipelines[pipelineId].cancelled { return; }
      SameButOne(pipelineId);
      var pipeline := pipelines[pipelineId];
      pipeline.cancelled := true;
      if pipeline.state == PENDING || pipeline.state == RUNNING {
        pipeline.state := CANCELLED;
      }
      readyIds := readyIds - {pipelineId};
    }
  }

  datatype PipelineOutcome = Settled(id: nat, failed: bool) | CancelSignal

  datatype Ending = Completed | Deadlocked | QueryCancelled | PipelineError(id: nat)

  class TaskScheduler {
    const concurrency: nat

    constructor (concurrency: int)
      ensures this.concurrency == (if concurrency > 1 then concurrency else 1)
    {
      this.concurrency := if concurrency > 1 then concurrency else 1;
    }

    static predicate Running(s: PipelineState, runs: bool) {
      if runs then s == RUNNING else s == PENDING || s == DONE
    }

    /** The running pipelines are those the log says, and none has failed or been cancelled. */
    ghost predicate Tracks(graph: PipelineGraph, running: set<nat>)
      reads graph, graph.pipelines.Values
    {
      && graph.Valid() && WellRun(graph.log, graph.needs, concurrency)
      && running == Alive(graph.log, |graph.log|) && |running| <= concurrency && running <= graph.pipelines.Keys
      && (forall id {:trigger graph.pipelines[id].state} :: id in graph.pipelines ==>
        Running(graph.pipelines[id].state, id in running))
      && (forall id {:trigger graph.pipelines[id].cancelled} :: id in graph.pipelines ==>
        !graph.pipelines[id].cancelled)
    }

    method StartOne(graph: PipelineGraph, before: set<nat>, pipeline: Pipeline) returns (running: set<nat>)
      requires Tracks(graph, before) && |before| < concurrency && pipeline in graph.Startable()
      modifies graph`log, graph.pipelines.Values`state
      ensures Tracks(graph, running) && before <= running
      ensures graph.Startable() == old(graph.Startable()) - {pipeline}
    {
      var id := pipeline.id;
      graph.AllListed();
      graph.MarkRunning(id, concurrency);
      running := before + {id};
    }

    /** Starts ready pipelines until the limit is reached or none is left. */
    method StartReadyPipelines(graph: PipelineGraph, before: set<nat>) returns (running: set<nat>)
      requires Tracks(graph, before)
      modifies graph`readyIds, graph`log, graph.pipelines.Values`state
      ensures Tracks(graph, running) && before <= running
      ensures |running| < concurrency ==> graph.Startable() == {}
    {
      running := before;
      var ready := graph.GetReadyPipelines();
      var i: nat := 0;
      while i < |ready|
        invariant i <= |ready| && Tracks(graph, running) && before <= running && graph.Startable() == Members(ready, i)
      {
        if |running| >= concurrency { return; }
        TakeMember(ready, i);
        running := StartOne(graph, running, ready[i]);
        i := i + 1;
      }
    }

    /** Every dependency cycle is among pipelines that are still pending when nothing runs and nothing may start. */
    lemma {:induction false} StuckIsCyclic(graph: PipelineGraph) returns (cycle: seq<nat>)
      requires Tracks(graph, {}) && graph.Startable() == {}
      requires exists id :: id in graph.pipelines && graph.pipelines[id].state == PENDING
      ensures IsCycle(graph.needs, cycle) && forall i :: 0 <= i < |cycle| ==> graph.pipelines[cycle[i]].state == PENDING
    {
      var stuck := set id | id in graph.pipelines && graph.pipelines[id].state == PENDING;
      forall q | q in stuck ensures graph.needs[q] * stuck != {} {
        assert graph.pipelines[q] !in graph.Startable() && graph.pipelines[q].id == q;
        assert !(graph.needs[q] <= graph.finished);
        var d :| d in graph.needs[q] && d !in graph.finished;
        assert d in graph.pipelines && StateOk(d, graph.pipelines[d].state, graph.log, graph.finished);
        assert d in stuck;
      }
      cycle := StuckHasCycle(graph.needs, stuck);
    }

    /** When every pipeline is done there was no dependency cycle. */
    lemma {:induction false} DoneIsAcyclic(graph: PipelineGraph)
      requires graph.Valid() && WellRun(graph.log, graph.needs, concurrency)
      requires forall id :: id in graph.pipelines ==> graph.pipelines[id].state == DONE
      ensures Acyclic(graph.needs)
    {
      assert forall id {:trigger graph.pipelines[id].state} :: id in graph.pipelines ==>
             StateOk(id, DONE, graph.log, graph.finished);
      assert forall id :: id in graph.needs ==> graph.pipelines[id].state == DONE && Start(id) in graph.log;
      forall cycle: seq<nat> ensures !IsCycle(graph.needs, cycle) {
        if IsCycle(graph.needs, cycle) { CycleNeverStarts(graph.log, graph.needs, concurrency, cycle); }
      }
    }

    method CountPending(graph: PipelineGraph) returns (pending: nat)
      requires graph.Valid()
      ensures pending > 0 <==> exists id :: id in graph.pipelines && graph.pipelines[id].state == PENDING
    {
      pending := 0;
      var ids := graph.pipelines.Keys;
      while ids != {}
        invariant ids <= graph.pipelines.Keys
        invariant pending > 0 <==> exists id :: id in graph.pipelines.Keys - ids && graph.pipelines[id].state == PENDING
      {
        var id :| id in ids;
        ids := ids - {id};
        if graph.pipelines[id].state == PENDING { pending := pending + 1; }
      }
    }

    /** Nothing runs any more; what had finished stays finished. */
    ghost predicate Stopped(graph: PipelineGraph)
      reads graph, graph.pipelines.Values
    {
      graph.Valid() && WellRun(graph.log, graph.needs, concurrency) &&
      forall id {:trigger graph.pipelines[id].state} :: id in graph.pipelines ==> graph.pipelines[id].state != RUNNING
    }

    method CancelRunning(graph: PipelineGraph, running: set<nat>)
      requires graph.Valid() && running <= graph.pipelines.Keys
      requires forall id {:trigger graph.pipelines[id].state} ::
                 id in graph.pipelines && graph.pipelines[id].state == RUNNING ==> id in running
      requires forall id {:trigger graph.pipelines[id].cancelled} :: id in running ==> !graph.pipelines[id].cancelled
      modifies graph`readyIds, graph.pipelines.Values`state, graph.pipelines.Values`cancelled
      ensures graph.Valid()
      ensures forall id {:trigger graph.pipelines[id].state} :: id in graph.pipelines ==>
              graph.pipelines[id].state != RUNNING
      ensures forall id {:trigger graph.pipelines[id].state} :: id in graph.pipelines && id !in running ==>
              graph.pipelines[id].state == old(graph.pipelines[id].state)
    {
      var ids := running;
      while ids != {}
        invariant ids <= running && graph.Valid()
        invariant forall id {:trigger graph.pipelines[id].state} ::
                    id in graph.pipelines && graph.pipelines[id].state == RUNNING ==> id in ids
        invariant forall id {:trigger graph.pipelines[id].cancelled} :: id in ids ==> !graph.pipelines[id].cancelled
        invariant forall id {:trigger graph.pipelines[id].state} :: id in graph.pipelines && id !in running ==>
                  graph.pipelines[id].state == old(graph.pipelines[id].state)
      {
        var id :| id in ids;
        ids := ids - {id};
        graph.CancelPipeline(id);
      }
    }

    /** Promise.race over the running pipelines and, when there is a token, the cancel signal: any of them may settle
        first, and the token may be cancelled meanwhile if anybody is to cancel it. A pipeline fails when its source
        throws; only under a cancelled token may it return before it comes to that. */
    method Race(running: set<nat>, throwing: set<nat>, mayCancel: bool)
        returns (outcome: PipelineOutcome, cancelled: bool)
      requires running != {}
      ensures if outcome.Settled? then outcome.id in running else cancelled
      ensures outcome.Settled? && outcome.failed ==> outcome.id in throwing
      ensures outcome.Settled? && !outcome.failed ==> outcome.id !in throwing || cancelled
      ensures cancelled ==> mayCancel
    {
      cancelled := false;
      var id :| id in running;
      outcome := Settled(id, id in throwing);
      if
      case true =>
      case mayCancel => cancelled := true;
      case mayCancel => cancelled, outcome := true, Settled(id, false);
      case mayCancel => cancelled, outcome := true, CancelSignal;
    }

    /** Nothing is done whose source throws: what has finished is what is DONE. */
    ghost predicate Honest(graph: PipelineGraph, throwing: set<nat>)
      reads graph`finished
    {
      graph.finished !! throwing
    }

    /** How a run may end, given the pipelines whose sources throw and whether it was cancelled. */
    ghost predicate EndsAsItShould(graph: PipelineGraph, throwing: set<nat>, cancelled: bool, ending: Ending)
      reads graph, graph.pipelines.Values
    {
      && Ends(graph, ending)
      && (ending.QueryCancelled? ==> cancelled)
      && (ending.PipelineError? ==> ending.id in throwing)
      && (ending.Completed? || ending.Deadlocked? ==> !cancelled && Honest(graph, throwing))
    }

    /** What the scheduler may say when it stops. */
    ghost predicate Ends(graph: PipelineGraph, ending: Ending)
      reads graph, graph.pipelines.Values
    {
      && Stopped(graph)
      && (ending.Completed? ==> Acyclic(graph.needs) && forall id :: id in graph.pipelines ==>
        graph.pipelines[id].state == DONE)
      && (ending.Deadlocked? ==> exists cycle :: IsCycle(graph.needs, cycle) && forall i :: 0 <= i < |cycle| ==>
        graph.pipelines[cycle[i]].state == PENDING)
      && (ending.PipelineError? ==> ending.id in graph.pipelines && graph.pipelines[ending.id].state == FAILED)
    }

    /** Nothing is running: either everything is done or the pending pipelines contain a cycle. */
    method Conclude(graph: PipelineGraph) returns (ending: Ending)
      requires Tracks(graph, {}) && graph.Startable() == {}
      ensures Ends(graph, ending) && (ending.Completed? || ending.Deadlocked?)
    {
      var pending := CountPending(graph);
      if pending > 0 {
        ghost var cycle := StuckIsCyclic(graph);
        ending := Deadlocked;
      } else {
        DoneIsAcyclic(graph);
        ending := Completed;
      }
    }

    method Fail(graph: PipelineGraph, running: set<nat>, id: nat) returns (ending: Ending)
      requires Tracks(graph, running) && id in running
      modifies graph`readyIds, graph`log, graph.pipelines.Values`state, graph.pipelines.Values`cancelled
      ensures Ends(graph, ending) && ending == PipelineError(id)
    {
      graph.MarkPipelineFailed(id, concurrency);
      CancelRunning(graph, running - {id});
      ending := PipelineError(id);
    }

    method Complete(graph: PipelineGraph, running: set<nat>, id: nat)
      requires Tracks(graph, running) && id in running
      modifies graph`log, graph`finished
      modifies graph`readyIds, graph.pipelines.Values`state, graph.pipelines.Values`dependencies
      ensures Tracks(graph, running - {id}) && graph.finished == old(graph.finished) + {id}
    {
      assert graph.pipelines[id].state == RUNNING;
      graph.MarkPipelineDone(id, concurrency);
      NeverTooMany(graph.log, graph.needs, concurrency, |graph.log|);
    }

    method Settle(graph: PipelineGraph, before: set<nat>, id: nat, ghost throwing: set<nat>) returns (running: set<nat>)
      requires Tracks(graph, before) && id in before && Honest(graph, throwing)
      modifies graph`log, graph`finished
      modifies graph`readyIds, graph.pipelines.Values`state, graph.pipelines.Values`dependencies
      ensures Tracks(graph, running)
              && |graph.pipelines.Keys - graph.finished| < old(|graph.pipelines.Keys - graph.finished|)
      ensures id !in throwing ==> Honest(graph, throwing)
    {
      assert graph.pipelines[id].state == RUNNING;
      OneLess(graph.pipelines.Keys, graph.finished, id);
      Complete(graph, before, id);
      running := before - {id};
    }

    static lemma {:induction false} OneLess(all: set<nat>, finished: set<nat>, id: nat)
      requires id in all && id !in finished
      ensures |all - (finished + {id})| < |all - finished|
    {
      assert all - finished == (all - (finished + {id})) + {id};
    }

    /** Cancellation: the running pipelines are marked cancelled. */
    method Abandon(graph: PipelineGraph, running: set<nat>) returns (ending: Ending)
      requires Tracks(graph, running)
      modifies graph`readyIds, graph.pipelines.Values`state, graph.pipelines.Values`cancelled
      ensures Ends(graph, ending) && ending == QueryCancelled
    {
      CancelRunning(graph, running);
      ending := QueryCancelled;
    }

    /** What the scheduler makes of the first outcome. */
    method HandleOutcome(graph: PipelineGraph, before: set<nat>, outcome: PipelineOutcome, ghost throwing: set<nat>)
        returns (ended: bool, ending: Ending, running: set<nat>)
      requires Tracks(graph, before) && Honest(graph, throwing) && (outcome.Settled? ==> outcome.id in before)
      modifies graph`log, graph`finished, graph`readyIds
      modifies graph.pipelines.Values`state, graph.pipelines.Values`dependencies, graph.pipelines.Values`cancelled
      ensures ended <==> outcome.Settled? && outcome.failed
      ensures if ended then Ends(graph, ending) && ending == PipelineError(outcome.id) else Tracks(graph, running)
      ensures (outcome.Settled? && outcome.id in throwing) || Honest(graph, throwing)
      ensures outcome.Settled? && !outcome.failed ==>
              |graph.pipelines.Keys - graph.finished| < old(|graph.pipelines.Keys - graph.finished|)
      ensures outcome.CancelSignal? ==> graph.finished == old(graph.finished)
    {
      ended, ending, running := false, Completed, before;
      if outcome.Settled? && outcome.failed {
        ended := true;
        ending := Fail(graph, running, outcome.id);
      } else if outcome.Settled? {
        running := Settle(graph, running, outcome.id, throwing);
      }
    }

    /** One turn of the loop after the cancel check. */
    method Turn(graph: PipelineGraph, before: set<nat>, throwing: set<nat>, mayCancel: bool)
        returns (ended: bool, ending: Ending, running: set<nat>, cancelled: bool)
      requires Tracks(graph, before) && concurrency > 0 && Honest(graph, throwing)
      modifies graph`log, graph`finished, graph`readyIds
      modifies graph.pipelines.Values`state, graph.pipelines.Values`dependencies, graph.pipelines.Values`cancelled
      ensures if ended then EndsAsItShould(graph, throwing, cancelled, ending) && !ending.QueryCancelled?
              else Tracks(graph, running) && (Honest(graph, throwing) || cancelled)
      ensures cancelled ==> mayCancel
      ensures !ended && !cancelled ==>
              |graph.pipelines.Keys - graph.finished| < old(|graph.pipelines.Keys - graph.finished|)
      ensures !ended ==> |graph.pipelines.Keys - graph.finished| <= old(|graph.pipelines.Keys - graph.finished|)
    {
      cancelled := false;
      running := StartReadyPipelines(graph, before);
      if running == {} {
        ended := true;
        ending := Conclude(graph);
        return;
      }
      var outcome;
      outcome, cancelled := Race(running, throwing, mayCancel);
      ended, ending, running := HandleOutcome(graph, running, outcome, throwing);
    }

    /** Without cancellation a run completes exactly when no source throws and the dependencies have no cycle. */
    lemma {:induction false} EndingsExact(graph: PipelineGraph, throwing: set<nat>, cancelled: bool, ending: Ending)
      requires EndsAsItShould(graph, throwing, cancelled, ending) && throwing <= graph.pipelines.Keys
      ensures ending.Completed? ==> Acyclic(graph.needs)
      ensures ending.Deadlocked? ==> !Acyclic(graph.needs)
      ensures !cancelled ==> (ending.Completed? <==> Acyclic(graph.needs) && throwing == {})
    {
      if ending.Completed? {
        forall id | id in graph.pipelines ensures id in graph.finished {
          assert StateOk(id, graph.pipelines[id].state, graph.log, graph.finished);
        }
      }
    }

    /** Runs the graph under a token that is cancelled already or may be. Whatever order pipelines settle in, and
        wherever a failure or a cancellation comes in, the log of the run is a well-formed one. The run fails only with
        a pipeline whose source throws and is cancelled only by its token; if neither happens it completes exactly when
        the dependencies have no cycle. */
    method Schedule(graph: PipelineGraph, throwing: set<nat>, cancelledBefore: bool, mayCancel: bool)
        returns (ending: Ending, cancelled: bool)
      requires graph.Valid() && graph.Unscheduled() && throwing <= graph.pipelines.Keys
      requires forall id {:trigger graph.pipelines[id].cancelled} :: id in graph.pipelines ==>
               !graph.pipelines[id].cancelled
      requires concurrency > 0
      modifies graph`log, graph`finished, graph`readyIds
      modifies graph.pipelines.Values`state, graph.pipelines.Values`dependencies, graph.pipelines.Values`cancelled
      ensures EndsAsItShould(graph, throwing, cancelled, ending)
      ensures (cancelledBefore ==> ending.QueryCancelled?) && (cancelled ==> cancelledBefore || mayCancel)
      ensures (ending.Completed? ==> Acyclic(graph.needs)) && (ending.Deadlocked? ==> !Acyclic(graph.needs))
      ensures !cancelled ==> (ending.Completed? <==> Acyclic(graph.needs) && throwing == {})
    {
      var running: set<nat> := {};
      cancelled := cancelledBefore;
      while true
        invariant Tracks(graph, running) && (Honest(graph, throwing) || cancelled)
        invariant (cancelledBefore ==> cancelled) && (cancelled ==> cancelledBefore || mayCancel)
        decreases |graph.pipelines.Keys - graph.finished|, if cancelled then 0 else 1
      {
        if cancelled {
          ending := Abandon(graph, running);
          return;
        }
        var ended: bool;
        ended, ending, running, cancelled := Turn(graph, running, throwing, mayCancel);
        if ended {
          EndingsExact(graph, throwing, cancelled, ending);
          return;
        }
      }
    }
  }
}
