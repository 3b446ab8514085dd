/** Runs of a pipeline graph as event logs, and dependency cycles. */
module PipelineRuns {

  datatype Event = Start(id: nat) | Finish(id: nat) | Fail(id: nat)

  /** The dependencies of every pipeline. */
  type Needs = map<nat, set<nat>>

  ghost predicate Closed(needs: Needs) {
    forall p, d :: p in needs && d in needs[p] ==> d in needs
  }

  /** Pipelines started and not ended after the first n events. */
  ghost function Alive(log: seq<Event>, n: nat): set<nat>
    requires n <= |log|
  {
    if n == 0 then {}
    else if log[n - 1].Start? then Alive(log, n - 1) + {log[n - 1].id}
    else Alive(log, n - 1) - {log[n - 1].id}
  }

  ghost predicate Earlier(log: seq<Event>, e: Event, n: nat)
    requires n <= |log|
  {
    exists i :: 0 <= i < n && log[i] == e
  }

  /** A pipeline starts at most once, only after everything it needs has finished and only when fewer than
      `concurrency` pipelines run; only a running pipeline finishes or fails. */
  ghost predicate StepOk(log: seq<Event>, n: nat, needs: Needs, concurrency: nat)
    requires n < |log|
  {
    var e := log[n];
    && e.id in needs
    && if e.Start? then
         && !Earlier(log, e, n) && |Alive(log, n)| < concurrency
         && forall d :: d in needs[e.id] ==> Earlier(log, Finish(d), n)
       else e.id in Alive(log, n)
  }

  ghost predicate WellRun(log: seq<Event>, needs: Needs, concurrency: nat) {
    forall n {:trigger StepOk(log, n, needs, concurrency)} :: 0 <= n < |log| ==> StepOk(log, n, needs, concurrency)
  }

  lemma {:induction false} AlivePush(log: seq<Event>, e: Event, n: nat)
    requires n <= |log|
    ensures Alive(log + [e], n) == Alive(log, n)
  {
    if n > 0 { AlivePush(log, e, n - 1); }
  }

  lemma {:induction false} EarlierPush(log: seq<Event>, e: Event, x: Event, n: nat)
    requires n <= |log|
    ensures Earlier(log + [e], x, n) == Earlier(log, x, n)
  {
    if Earlier(log, x, n) {
      var i :| 0 <= i < n && log[i] == x;
      assert (log + [e])[i] == x;
    }
  }

  lemma {:induction false} StepOkPush(log: seq<Event>, e: Event, n: nat, needs: Needs, concurrency: nat)
    requires n < |log| && StepOk(log, n, needs, concurrency)
    ensures StepOk(log + [e], n, needs, concurrency)
  {
    AlivePush(log, e, n);
    EarlierPush(log, e, log[n], n);
    forall d | log[n].Start? && d in needs[log[n].id] ensures Earlier(log + [e], Finish(d), n) {
      EarlierPush(log, e, Finish(d), n);
    }
  }

  /** What the next event must satisfy. */
  ghost predicate MayHappen(log: seq<Event>, e: Event, needs: Needs, concurrency: nat) {
    && e.id in needs
    && if e.Start? then
         && e !in log && |Alive(log, |log|)| < concurrency
         && forall d :: d in needs[e.id] ==> Finish(d) in log
       else e.id in Alive(log, |log|)
  }

  lemma {:induction false} WellRunPush(log: seq<Event>, e: Event, needs: Needs, concurrency: nat)
    requires WellRun(log, needs, concurrency) && MayHappen(log, e, needs, concurrency)
    ensures WellRun(log + [e], needs, concurrency)
    ensures Alive(log + [e], |log| + 1) == if e.Start? then Alive(log, |log|) + {e.id} else Alive(log, |log|) - {e.id}
  {
    AlivePush(log, e, |log|);
    forall n | 0 <= n < |log| + 1 ensures StepOk(log + [e], n, needs, concurrency) {
      if n < |log| {
        assert StepOk(log, n, needs, concurrency);
        StepOkPush(log, e, n, needs, concurrency);
      } else {
        LastStepOk(log, e, needs, concurrency);
      }
    }
  }

  lemma {:induction false} LastStepOk(log: seq<Event>, e: Event, needs: Needs, concurrency: nat)
    requires MayHappen(log, e, needs, concurrency)
    ensures StepOk(log + [e], |log|, needs, concurrency)
  {
    AlivePush(log, e, |log|);
    EarlierPush(log, e, e, |log|);
    forall d | e.Start? && d in needs[e.id] ensures Earlier(log + [e], Finish(d), |log|) {
      EarlierPush(log, e, Finish(d), |log|);
      var i :| 0 <= i < |log| && log[i] == Finish(d);
    }
  }

  lemma {:induction false} AliveStarted(log: seq<Event>, n: nat, p: nat)
    requires n <= |log| && p in Alive(log, n)
    ensures Earlier(log, Start(p), n)
  {
    if log[n - 1] != Start(p) {
      AliveStarted(log, n - 1, p);
    }
  }

  /** At every moment of a run at most `concurrency` pipelines are running. */
  lemma {:induction false} NeverTooMany(log: seq<Event>, needs: Needs, concurrency: nat, n: nat)
    requires WellRun(log, needs, concurrency) && n <= |log|
    ensures |Alive(log, n)| <= concurrency
  {
    if n > 0 {
      NeverTooMany(log, needs, concurrency, n - 1);
      assert StepOk(log, n - 1, needs, concurrency);
      SubsetCount(Alive(log, n - 1) - {log[n - 1].id}, Alive(log, n - 1));
    }
  }

  lemma {:induction false} SubsetCount<T>(a: set<T>, b: set<T>)
    requires a <= b
    ensures |a| <= |b|
  {
    assert b == a + (b - a);
  }

  /** A pipeline starts at most once. */
  lemma {:induction false} StartsOnce(log: seq<Event>, needs: Needs, concurrency: nat, n: nat, k: nat)
    requires WellRun(log, needs, concurrency) && n < k < |log| && log[n].Start?
    ensures log[k] != log[n]
  {
    assert StepOk(log, k, needs, concurrency);
  }

  /** A pipeline starts after the start and the end of everything it needs. */
  lemma {:induction false} StartsAfterNeeds(log: seq<Event>, needs: Needs, concurrency: nat, n: nat, d: nat)
      returns (started: nat, finished: nat)
    requires WellRun(log, needs, concurrency) && n < |log| && log[n].Start? && log[n].id in needs
             && d in needs[log[n].id]
    ensures started < finished < n && log[started] == Start(d) && log[finished] == Finish(d)
  {
    assert StepOk(log, n, needs, concurrency);
    assert Earlier(log, Finish(d), n);
    finished :| 0 <= finished < n && log[finished] == Finish(d);
    assert StepOk(log, finished, needs, concurrency);
    AliveStarted(log, finished, d);
    started :| 0 <= started < finished && log[started] == Start(d);
  }

  // ---------- cycles ----------

  /** Each pipeline on the cycle needs the next one, and the last needs the first. */
  ghost predicate IsCycle(needs: Needs, cycle: seq<nat>) {
    && cycle != []
    && (forall i :: 0 <= i < |cycle| ==> cycle[i] in needs)
    && (forall i :: 0 <= i < |cycle| - 1 ==> cycle[i + 1] in needs[cycle[i]])
    && cycle[0] in needs[cycle[|cycle| - 1]]
  }

  ghost predicate Acyclic(needs: Needs) {
    forall cycle: seq<nat> :: !IsCycle(needs, cycle)
  }

  /** Along a path of needs the starts come earlier and earlier. */
  lemma {:induction false} StartsFall(log: seq<Event>, needs: Needs, concurrency: nat, cycle: seq<nat>, i: nat, n: nat)
      returns (m: nat)
    requires WellRun(log, needs, concurrency) && IsCycle(needs, cycle) && i < |cycle|
    requires n < |log| && log[n] == Start(cycle[0])
    ensures m <= n && log[m] == Start(cycle[i])
  {
    m := n;
    if i > 0 {
      m := StartsFall(log, needs, concurrency, cycle, i - 1, n);
      var finished;
      m, finished := StartsAfterNeeds(log, needs, concurrency, m, cycle[i]);
    }
  }

  /** Nothing on a dependency cycle ever starts. */
  lemma {:induction false} CycleNeverStarts(log: seq<Event>, needs: Needs, concurrency: nat, cycle: seq<nat>)
    requires WellRun(log, needs, concurrency) && IsCycle(needs, cycle)
    ensures Start(cycle[0]) !in log
  {
    if Start(cycle[0]) in log {
      var n :| 0 <= n < |log| && log[n] == Start(cycle[0]);
      var m := StartsFall(log, needs, concurrency, cycle, |cycle| - 1, n);
      var started, finished := StartsAfterNeeds(log, needs, concurrency, m, cycle[0]);
      StartsOnce(log, needs, concurrency, started, n);
    }
  }

  /** A walk of n steps through needs that stays in the set. */
  ghost predicate Walk(needs: Needs, stuck: set<nat>, walk: seq<nat>) {
    && (forall i :: 0 <= i < |walk| ==> walk[i] in stuck && walk[i] in needs)
    && (forall i :: 0 <= i < |walk| - 1 ==> walk[i + 1] in needs[walk[i]])
  }

  ghost function WalkFrom(needs: Needs, stuck: set<nat>, p: nat, n: nat): (walk: seq<nat>)
    requires p in stuck && stuck <= needs.Keys && forall q :: q in stuck ==> needs[q] * stuck != {}
    ensures Walk(needs, stuck, walk) && |walk| == n + 1
  {
    if n == 0 then [p]
    else
      var walk := WalkFrom(needs, stuck, p, n - 1);
      var d :| d in needs[walk[n - 1]] * stuck;
      walk + [d]
  }

  lemma {:induction false} DistinctCount(s: seq<nat>, within: set<nat>)
    requires (forall i, j :: 0 <= i < j < |s| ==> s[i] != s[j]) && forall i :: 0 <= i < |s| ==> s[i] in within
    ensures |s| <= |within|
  {
    if s != [] {
      var last := s[|s| - 1];
      DistinctCount(s[..|s| - 1], within - {last});
    }
  }

  /** Pipelines that all need one of themselves contain a cycle. */
  lemma {:induction false} StuckHasCycle(needs: Needs, stuck: set<nat>) returns (cycle: seq<nat>)
    requires stuck != {} && stuck <= needs.Keys && forall q :: q in stuck ==> needs[q] * stuck != {}
    ensures IsCycle(needs, cycle) && forall i :: 0 <= i < |cycle| ==> cycle[i] in stuck
  {
    var p :| p in stuck;
    var walk := WalkFrom(needs, stuck, p, |stuck|);
    if forall i, j :: 0 <= i < j < |walk| ==> walk[i] != walk[j] { DistinctCount(walk, stuck); }
    var i, j :| 0 <= i < j < |walk| && walk[i] == walk[j];
    cycle := walk[i..j];
    assert cycle[|cycle| - 1] == walk[j - 1] && cycle[0] == walk[j];
  }
}
