/** The build queue drains: without new requests every run ends, and every build has its result. */
module BuildQueueProgress {
  import opened Wrappers
  import opened Counting
  import opened BuildQueue
  import opened BuildQueueInvariant
  import opened BuildQueueRuns

  /** Steps that the system takes by itself, with no new request and no failing statement of the loop. */
  predicate Internal(e: Event) {
    !e.Insert? && !e.LoopFails? && !e.OtherAcquires? && !e.DeleteRow?
  }

  function LoopWork(loop: Loop): nat {
    match loop
    case Idle => 0
    case Waiting => 3
    case Permitted => 3
    case FoundNone => 1
    case Picked(_) => 2
    case Marked(_) => 8
  }

  function BuildWork(build: Build): nat { if build.state == Queued then 8 else 0 }

  function TaskWork(task: Task): nat {
    match task.phase
    case Scheduled => 7
    case Executing => 6
    case Updated => 5
    case Recalled => 1
    case Released => 0
  }

  function OtherWork(other: OtherPhase): nat {
    match other
    case OtherWaiting => 2
    case OtherHolding => 1
    case OtherDone => 0
  }

  function Work(s: State): nat {
    LoopWork(s.loop) + 5 * s.inserted + 4 * s.wakes
    + Total(s.builds, BuildWork) + Total(s.tasks, TaskWork) + Total(s.others, OtherWork)
  }

  lemma CallWork(s: State)
    ensures Work(CallLoop(s)) <= Work(s) + 3
  {
    hide Total;
  }

  lemma ReleaseWork(s: State)
    requires WaitersExact(s)
    ensures Work(ReleasePermit(s)) <= Work(s)
  {
    hide Total;
    if s.sem.waiters != [] {
      assert s.sem.waiters[0] in s.sem.waiters;
      if s.sem.waiters[0].ForOther? {
        TotalOfUpdate(s.others, s.sem.waiters[0].other, OtherHolding, OtherWork);
      }
    }
  }

  lemma TaskReactionUsesWork(s: State, e: Event)
    requires WaitersExact(s) && TasksMatchBuilds(s.builds, s.tasks) && Enabled(s, e)
    requires e.StartTask? || e.UpdateRow? || e.Recall? || e.ReleaseTask?
    ensures Work(Apply(s, e)) < Work(s)
  {
    hide Total, CallLoop, ReleasePermit;
    match e {
      case StartTask(t) => TotalOfUpdate(s.tasks, t, s.tasks[t].(phase := Executing), TaskWork);
      case UpdateRow(t, result) =>
        TotalOfUpdate(s.tasks, t, s.tasks[t].(phase := Updated, recorded := result.Some?), TaskWork);
        var b := s.tasks[t].build;
        TotalOfUpdate(s.builds, b, s.builds[b].(state := Ready), BuildWork);
        TotalOfUpdate(s.builds, b, s.builds[b].(state := Failed), BuildWork);
      case Recall(t) =>
        TotalOfUpdate(s.tasks, t, s.tasks[t].(phase := Recalled), TaskWork);
        CallWork(SetTask(s, t, s.tasks[t].(phase := Recalled)));
      case ReleaseTask(t) =>
        TotalOfUpdate(s.tasks, t, s.tasks[t].(phase := Released), TaskWork);
        ReleaseWork(SetTask(s, t, s.tasks[t].(phase := Released)));
    }
  }

  lemma OtherReleaseUsesWork(s: State, i: nat)
    requires WaitersExact(s) && Enabled(s, OtherReleases(i))
    ensures Work(Apply(s, OtherReleases(i))) < Work(s)
  {
    TotalOfUpdate(s.others, i, OtherDone, OtherWork);
    OtherDoneKeepsWaiters(s, i);
    hide Total, ReleasePermit, WaitersExact;
    ReleaseWork(s.(others := s.others[i := OtherDone]));
  }

  lemma LoopReactionUsesWork(s: State, e: Event)
    requires WaitersExact(s) && LoopMatches(s.loop, s.builds, s.tasks) && Enabled(s, e)
    requires e.ScheduleWake? || e.Wake? || e.ReadQueue? || e.EndEmpty? || e.Mark? || e.Dispatch?
    ensures Work(Apply(s, e)) < Work(s)
  {
    hide Total, CallLoop, ReleasePermit, NoTaskOf, Answers;
    match e {
      case Wake => CallWork(s.(wakes := s.wakes - 1));
      case EndEmpty => ReleaseWork(s.(loop := Idle));
      case Mark => TotalOfUpdate(s.builds, s.loop.build, s.builds[s.loop.build].(state := Building), BuildWork);
      case Dispatch => TotalOfAppend(s.tasks, Task(s.loop.build, Scheduled, false), TaskWork);
      case _ =>
    }
  }

  lemma ReactionUsesWork(s: State, e: Event)
    requires Inv(s) && Enabled(s, e) && Internal(e)
    ensures Work(Apply(s, e)) < Work(s)
  {
    hide Work, Apply, Enabled, WaitersExact, PermitsExact, Covered, LoopMatches, TasksMatchBuilds;
    if e.StartTask? || e.UpdateRow? || e.Recall? || e.ReleaseTask? {
      TaskReactionUsesWork(s, e);
    } else if e.OtherReleases? {
      OtherReleaseUsesWork(s, e.other);
    } else {
      LoopReactionUsesWork(s, e);
    }
  }

  lemma {:induction false} RunUsesWork(s: State, events: seq<Event>)
    requires Inv(s) && CanRun(s, events) && forall e | e in events :: Internal(e)
    ensures Inv(Run(s, events)) && Work(Run(s, events)) + |events| <= Work(s)
    decreases |events|
  {
    hide Inv, Work, Enabled, Apply;
    if events != [] {
      var e := events[0];
      assert Internal(e);
      ReactionUsesWork(s, e);
      StepKeepsInv(s, e);
      RunUsesWork(Apply(s, e), events[1..]);
    }
  }

  /** Its execution ran, but no update of its row succeeded. */
  predicate Unrecorded(s: State, b: nat) {
    exists t :: 0 <= t < |s.tasks| && s.tasks[t].build == b && !s.tasks[t].recorded
  }

  /**
   * From any reachable state, steps without new requests come to an end after at most Work of them. When none is
   * left all permits are free, and unless a run of the loop was dropped every build has its result.
   */
  lemma QueueDrains(max: nat, before: seq<Event>, reactions: seq<Event>)
    requires max > 0 && CanRun(Initial(max), before) && CanRun(Run(Initial(max), before), reactions)
    requires forall e | e in reactions :: Internal(e)
    ensures var s := Run(Initial(max), before); var t := Run(s, reactions);
      && |reactions| <= Work(s)
      && ((forall e | Internal(e) :: !Enabled(t, e)) ==>
            && t.sem.count == 0 && t.sem.waiters == [] && t.loop == Idle
            && forall b | 0 <= b < |t.builds| && !t.dropped ::
                t.builds[b].state in {Ready, Failed, Deleted} || Unrecorded(t, b))
  {
    InitialInv(max);
    RunKeepsInv(Initial(max), before);
    RunKeepsMax(Initial(max), before);
    var s := Run(Initial(max), before);
    RunUsesWork(s, reactions);
    RunKeepsMax(s, reactions);
    var t := Run(s, reactions);
    hide Run, CanRun, Work, Inv;
    if forall e | Internal(e) :: !Enabled(t, e) { NothingLeft(t); }
  }

  lemma NothingLeft(t: State)
    requires Inv(t) && t.sem.max > 0 && forall e | Internal(e) :: !Enabled(t, e)
    ensures t.sem.count == 0 && t.sem.waiters == [] && t.loop == Idle
    ensures forall b | 0 <= b < |t.builds| && !t.dropped ::
              t.builds[b].state in {Ready, Failed, Deleted} || Unrecorded(t, b)
  {
    assert !Enabled(t, ScheduleWake) && !Enabled(t, Wake);
    NothingHeld(t);
    forall b | 0 <= b < |t.builds| && !t.dropped
      ensures t.builds[b].state in {Ready, Failed, Deleted} || Unrecorded(t, b)
    {
      if t.builds[b].state == Queued {
        assert IsQueued(t.builds, b);
      } else {
        var k :| 0 <= k < |t.tasks| && t.tasks[k].build == b;
      }
    }
  }

  lemma NothingHeld(t: State)
    requires Inv(t) && t.sem.max > 0 && forall e | Internal(e) :: !Enabled(t, e)
    ensures t.sem.count == 0 && t.sem.waiters == [] && t.loop == Idle
    ensures forall k | 0 <= k < |t.tasks| :: t.tasks[k].phase == Released
  {
    hide Total, Covered;
    forall k | 0 <= k < |t.tasks| ensures t.tasks[k].phase == Released {
      assert !Enabled(t, StartTask(k)) && !Enabled(t, UpdateRow(k, None)) && !Enabled(t, Recall(k)) &&
          !Enabled(t, ReleaseTask(k));
    }
    forall i | 0 <= i < |t.others| ensures t.others[i] != OtherHolding {
      assert !Enabled(t, OtherReleases(i));
    }
    TotalIsZero(t.tasks, TaskPermit);
    TotalIsZero(t.others, OtherPermit);
    assert !Enabled(t, EndEmpty) && !Enabled(t, Mark) && !Enabled(t, Dispatch);
    if t.loop == Permitted { var pick := CanRead(t); }
  }

  /** The query always has an answer. */
  lemma CanRead(t: State) returns (pick: Option<nat>)
    requires t.loop == Permitted
    ensures Enabled(t, ReadQueue(pick))
  {
    pick := AnswerOf(t.builds);
  }

  lemma {:induction false} AnswerOf(builds: seq<Build>) returns (pick: Option<nat>)
    ensures Answers(builds, pick)
  {
    if builds == [] {
      pick := None;
    } else {
      var n := |builds| - 1;
      var before := builds[..n];
      pick := AnswerOf(before);
      assert forall c: nat | c < n :: IsQueued(before, c) <==> IsQueued(builds, c);
      if builds[n].state == Queued && (pick.None? || builds[n].createdAt < builds[pick.value].createdAt) {
        pick := Some(n);
      }
    }
  }

  /** Executions past their update have recorded a result. */
  predicate AllRecorded(tasks: seq<Task>) {
    forall t | 0 <= t < |tasks| && tasks[t].phase !in {Scheduled, Executing} :: tasks[t].recorded
  }

  predicate Unsaved(e: Event) { e.UpdateRow? && e.result.None? }

  lemma {:induction false} RunRecords(s: State, events: seq<Event>)
    requires CanRun(s, events) && AllRecorded(s.tasks) && forall e | e in events :: !Unsaved(e)
    ensures AllRecorded(Run(s, events).tasks)
    decreases |events|
  {
    if events != [] {
      assert !Unsaved(events[0]);
      StepRecords(s, events[0]);
      hide Enabled, Apply, AllRecorded;
      RunRecords(Apply(s, events[0]), events[1..]);
    }
  }

  lemma StepRecords(s: State, e: Event)
    requires Enabled(s, e) && AllRecorded(s.tasks) && !Unsaved(e)
    ensures AllRecorded(Apply(s, e).tasks)
  {
    hide Answers;
  }

  /**
   * With atomic reads and no failing statement of the loop, every build gets its result, unless both updates of its
   * row failed.
   */
  lemma EveryBuildGetsItsResult(max: nat, events: seq<Event>, b: nat)
    requires max > 0 && CanRun(Initial(max), events) && ReadsAreAtomic(Initial(max), events)
    requires forall e | Internal(e) :: !Enabled(Run(Initial(max), events), e)
    requires b < |Run(Initial(max), events).builds|
    ensures var t := Run(Initial(max), events);
      && (t.builds[b].state in {Ready, Failed, Deleted} || Unrecorded(t, b))
      && ((forall e | e in events :: !Unsaved(e)) ==> t.builds[b].state in {Ready, Failed, Deleted})
  {
    var t := Run(Initial(max), events);
    InitialInv(max);
    RunKeepsInv(Initial(max), events);
    RunKeepsMax(Initial(max), events);
    AtomicReadsDropNothing(Initial(max), events);
    if forall e | e in events :: !Unsaved(e) { RunRecords(Initial(max), events); }
    hide Run, CanRun, Inv, ReadsAreAtomic;
    NothingLeft(t);
    NothingHeld(t);
  }
}
