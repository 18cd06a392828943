/** Whole runs of the build queue: permits, the life of a build, and builds that are not forgotten. */
module BuildQueueRuns {
  import opened Wrappers
  import opened Counting
  import opened BuildQueue
  import opened BuildQueueInvariant

  predicate CanRun(s: State, events: seq<Event>)
    decreases |events|
  {
    events == [] || (Enabled(s, events[0]) && CanRun(Apply(s, events[0]), events[1..]))
  }

  function Run(s: State, events: seq<Event>): State
    requires CanRun(s, events)
    decreases |events|
  {
    if events == [] then s else Run(Apply(s, events[0]), events[1..])
  }

  lemma {:induction false} RunKeepsInv(s: State, events: seq<Event>)
    requires Inv(s) && CanRun(s, events)
    ensures Inv(Run(s, events))
    decreases |events|
  {
    hide Inv, Enabled, Apply;
    if events != [] {
      StepKeepsInv(s, events[0]);
      RunKeepsInv(Apply(s, events[0]), events[1..]);
    }
  }

  lemma {:induction false} RunAppend(s: State, first: seq<Event>, second: seq<Event>)
    requires CanRun(s, first) && CanRun(Run(s, first), second)
    ensures CanRun(s, first + second) && Run(s, first + second) == Run(Run(s, first), second)
    decreases |first|
  {
    hide Enabled, Apply;
    if first == [] {
      assert first + second == second;
    } else {
      RunAppend(Apply(s, first[0]), first[1..], second);
      assert (first + second)[1..] == first[1..] + second;
    }
  }

  lemma RunOne(s: State, e: Event, rest: seq<Event>)
    requires Enabled(s, e) && CanRun(Apply(s, e), rest)
    ensures CanRun(s, [e] + rest) && Run(s, [e] + rest) == Run(Apply(s, e), rest)
  {
    hide Enabled, Apply;
    assert ([e] + rest)[1..] == rest;
  }

  lemma InitialInv(max: nat)
    ensures Inv(Initial(max))
  {
  }

  /**
   * Permits over whole runs, even when the loop fails: those taken are exactly the loop's own, one for each
   * execution that has not released, and those of the other holders, and never more than the maximum.
   */
  lemma PermitsNeverLeak(max: nat, events: seq<Event>)
    requires CanRun(Initial(max), events)
    ensures var s := Run(Initial(max), events);
      s.sem.count == LoopPermit(s.loop) + Total(s.tasks, TaskPermit) + Total(s.others, OtherPermit) <= max
  {
    InitialInv(max);
    RunKeepsInv(Initial(max), events);
    RunKeepsMax(Initial(max), events);
    hide CanRun, Run, Total, WaitersExact, LoopMatches, TasksMatchBuilds;
  }

  lemma {:induction false} RunKeepsMax(s: State, events: seq<Event>)
    requires CanRun(s, events)
    ensures Run(s, events).sem.max == s.sem.max
    decreases |events|
  {
    if events != [] {
      assert Apply(s, events[0]).sem.max == s.sem.max;
      hide Enabled, Apply;
      RunKeepsMax(Apply(s, events[0]), events[1..]);
    }
  }

  /** queued, building, ready or failed, deleted: no step goes back, jumps, or changes a result. */
  predicate Precedes(a: BuildState, b: BuildState) {
    match a
    case Queued => true
    case Building => b != Queued
    case Ready => b in {Ready, Deleted}
    case Failed => b in {Failed, Deleted}
    case Deleted => b == Deleted
  }

  lemma StepAdvances(s: State, e: Event, b: nat)
    requires Inv(s) && Enabled(s, e) && b < |s.builds|
    ensures b < |Apply(s, e).builds| && Apply(s, e).builds[b].createdAt == s.builds[b].createdAt
    ensures var before, after := s.builds[b].state, Apply(s, e).builds[b].state;
      && Precedes(before, after)
      && (before == Queued ==> after in {Queued, Building})
      && (before == Building ==> after in {Building, Ready, Failed})
  {
    hide WaitersExact, PermitsExact, Covered, NoTaskOf, Answers;
  }

  lemma {:induction false} RunAdvances(s: State, events: seq<Event>, b: nat)
    requires Inv(s) && CanRun(s, events) && b < |s.builds|
    ensures b < |Run(s, events).builds| && Precedes(s.builds[b].state, Run(s, events).builds[b].state)
    decreases |events|
  {
    hide Inv, Enabled, Apply;
    if events != [] {
      StepAdvances(s, events[0], b);
      StepKeepsInv(s, events[0]);
      RunAdvances(Apply(s, events[0]), events[1..], b);
    }
  }

  /**
   * Each build is executed at most once, and a build that is ready, failed or deleted was executed exactly once;
   * while it is queued it has not been executed.
   */
  lemma ExecutedOnce(max: nat, events: seq<Event>, b: nat)
    requires CanRun(Initial(max), events) && b < |Run(Initial(max), events).builds|
    ensures var s := Run(Initial(max), events);
      && (forall t, u | 0 <= t < |s.tasks| && 0 <= u < |s.tasks| && s.tasks[t].build == b == s.tasks[u].build :: t == u)
      && (s.builds[b].state == Queued ==> NoTaskOf(s.tasks, b))
      && (s.builds[b].state in {Ready, Failed, Deleted} ==>
            exists t :: 0 <= t < |s.tasks| && s.tasks[t].build == b && s.tasks[t].recorded)
  {
    InitialInv(max);
    RunKeepsInv(Initial(max), events);
    hide Run, CanRun, WaitersExact, PermitsExact, Covered;
    var s := Run(Initial(max), events);
    if s.builds[b].state in {Ready, Failed, Deleted} {
      var t :| 0 <= t < |s.tasks| && s.tasks[t].build == b;
      assert s.tasks[t].recorded;
    }
  }

  // ---- No build is forgotten ----

  /**
   * At any time a queued build has a loop that is going to read or to start an execution, a row or wake-up still
   * pending, or an execution that will call the loop; the only exception is a dropped run of the loop.
   */
  lemma NothingQueuedIsForgotten(max: nat, events: seq<Event>, b: nat)
    requires CanRun(Initial(max), events) && IsQueued(Run(Initial(max), events).builds, b)
    ensures var s := Run(Initial(max), events);
      LoopIsBusy(s.loop) || s.inserted > 0 || s.wakes > 0 || WillRecall(s.tasks) || s.dropped
  {
    InitialInv(max);
    RunKeepsInv(Initial(max), events);
    hide Run, CanRun, WaitersExact, PermitsExact, TasksMatchBuilds, LoopMatches;
    assert AnyQueued(Run(Initial(max), events).builds);
  }

  /** The read of an empty queue and its continuation are one step, and no statement of the loop fails. */
  predicate ReadsAreAtomic(s: State, events: seq<Event>)
    requires CanRun(s, events)
    decreases |events|
  {
    events == []
    || (!events[0].LoopFails? && (s.loop == FoundNone ==> events[0] == EndEmpty)
        && ReadsAreAtomic(Apply(s, events[0]), events[1..]))
  }

  lemma {:induction false} AtomicReadsDropNothing(s: State, events: seq<Event>)
    requires CanRun(s, events) && ReadsAreAtomic(s, events) && !s.dropped
    ensures !Run(s, events).dropped
    decreases |events|
  {
    if events != [] {
      assert !Apply(s, events[0]).dropped;
      hide Enabled, Apply;
      AtomicReadsDropNothing(Apply(s, events[0]), events[1..]);
    }
  }
}
