/** The build queue told by the events of a run. */
module BuildQueueResults {
  // The results of the executions, what can happen next, and the order in which builds leave the queue.

  import opened Wrappers
  import opened BuildQueue
  import opened BuildQueueInvariant
  import opened BuildQueueRuns

  // ---- What the events say ----

  /** The creation times of the builds, in the order of their numbers. */
  function Inserts(events: seq<Event>): seq<int> {
    if events == [] then []
    else
      var past, e := events[..|events| - 1], events[|events| - 1];
      Inserts(past) + (if e.Insert? then [e.createdAt] else [])
  }

  /** The build that the last read found; 0 before the first such read. */
  function LastPick(events: seq<Event>): nat {
    if events == [] then 0
    else
      var past, e := events[..|events| - 1], events[|events| - 1];
      if e.ReadQueue? && e.pick.Some? then e.pick.value else LastPick(past)
  }

  /** The builds that left the queue, in the order in which they left. */
  function Marks(events: seq<Event>): seq<nat> {
    if events == [] then []
    else
      var past, e := events[..|events| - 1], events[|events| - 1];
      Marks(past) + (if e == Mark then [LastPick(past)] else [])
  }

  /** The builds of the executions, in the order of their numbers. */
  function Owners(events: seq<Event>): seq<nat> {
    if events == [] then []
    else
      var past, e := events[..|events| - 1], events[|events| - 1];
      Owners(past) + (if e == Dispatch then [LastPick(past)] else [])
  }

  /** An execution of this build updated the row, with this result. */
  predicate Reported(events: seq<Event>, b: nat, ok: bool) {
    exists k | 0 <= k < |Owners(events)| :: Owners(events)[k] == b && UpdateRow(k, Some(ok)) in events
  }

  predicate Updates(events: seq<Event>, k: nat) {
    UpdateRow(k, None) in events || UpdateRow(k, Some(true)) in events || UpdateRow(k, Some(false)) in events
  }

  /** How far an execution has come. */
  function PhaseAfter(events: seq<Event>, k: nat): TaskPhase {
    if ReleaseTask(k) in events then Released
    else if Recall(k) in events then Recalled
    else if Updates(events, k) then Updated
    else if StartTask(k) in events then Executing
    else Scheduled
  }

  /** The status of a row. */
  function StateAfter(events: seq<Event>, b: nat): BuildState {
    if DeleteRow(b) in events then Deleted
    else if Reported(events, b, true) then Ready
    else if Reported(events, b, false) then Failed
    else if b in Marks(events) then Building
    else Queued
  }

  // ---- Every step keeps it ----

  /** Each step of an execution comes after the one before it; it reports one result at most. */
  predicate StepsInOrder(past: seq<Event>, k: nat) {
    && (ReleaseTask(k) in past ==> Recall(k) in past)
    && (Recall(k) in past ==> Updates(past, k))
    && (Updates(past, k) ==> StartTask(k) in past)
    && (StartTask(k) in past ==> k < |Owners(past)|)
    && !(UpdateRow(k, Some(true)) in past && UpdateRow(k, Some(false)) in past)
    && !(UpdateRow(k, None) in past && (UpdateRow(k, Some(true)) in past || UpdateRow(k, Some(false)) in past))
  }

  function TaskAfter(past: seq<Event>, k: nat): Task
    requires k < |Owners(past)|
  {
    Task(Owners(past)[k], PhaseAfter(past, k), UpdateRow(k, Some(true)) in past || UpdateRow(k, Some(false)) in past)
  }

  ghost predicate TellsTasks(past: seq<Event>, s: State) {
    && |s.tasks| == |Owners(past)|
    && (forall k | 0 <= k < |s.tasks| :: s.tasks[k] == TaskAfter(past, k))
    && (forall k: nat :: StepsInOrder(past, k))
    && (s.loop.Picked? || s.loop.Marked? ==> s.loop.build == LastPick(past))
  }

  predicate TellsBuild(past: seq<Event>, s: State, b: nat)
    requires b < |s.builds| == |Inserts(past)|
  {
    && s.builds[b].state == StateAfter(past, b)
    && s.builds[b].createdAt == Inserts(past)[b]
    && (DeleteRow(b) in past ==> Reported(past, b, true) || Reported(past, b, false))
    && (Reported(past, b, true) || Reported(past, b, false) ==> b in Marks(past))
  }

  ghost predicate TellsBuilds(past: seq<Event>, s: State) {
    && |s.builds| == |Inserts(past)|
    && (forall b | 0 <= b < |s.builds| :: TellsBuild(past, s, b))
    && (forall b: nat | DeleteRow(b) in past || b in Marks(past) :: b < |s.builds|)
  }

  lemma Snoc(past: seq<Event>, e: Event)
    ensures Inserts(past + [e]) == Inserts(past) + (if e.Insert? then [e.createdAt] else [])
    ensures LastPick(past + [e]) == if e.ReadQueue? && e.pick.Some? then e.pick.value else LastPick(past)
    ensures Marks(past + [e]) == Marks(past) + (if e == Mark then [LastPick(past)] else [])
    ensures Owners(past + [e]) == Owners(past) + (if e == Dispatch then [LastPick(past)] else [])
    ensures forall f :: f in past + [e] <==> f in past || f == e
  {
    assert (past + [e])[..|past|] == past;
  }

  /** The parts of the state that the steps of the semaphore leave alone. */
  lemma SemaphoreLeaves(s: State, e: Event)
    requires WaitersExact(s) && Enabled(s, e)
    requires e.Wake? || e.EndEmpty? || e.LoopFails? || e.OtherAcquires? || e.OtherReleases?
    ensures var t := Apply(s, e);
      t.builds == s.builds && t.tasks == s.tasks
      && (t.loop.Picked? || t.loop.Marked? ==> t.loop == s.loop)
  {
    hide ReleasePermit, CallLoop, Answers;
    match e {
      case Wake => CallIsSemaphoreStep(s.(wakes := s.wakes - 1));
      case EndEmpty => ReleaseIsSemaphoreStep(s.(loop := Idle));
      case LoopFails => ReleaseIsSemaphoreStep(s.(loop := Idle, dropped := true));
      case OtherReleases(i) =>
        OtherDoneKeepsWaiters(s, i);
        ReleaseIsSemaphoreStep(s.(others := s.others[i := OtherDone]));
      case OtherAcquires =>
    }
  }

  lemma TaskStepLeaves(s: State, e: Event)
    requires WaitersExact(s) && Enabled(s, e) && (e.Recall? || e.ReleaseTask?)
    ensures var t := Apply(s, e); var phase := if e.Recall? then Recalled else Released;
      t.builds == s.builds && t.tasks == s.tasks[e.task := s.tasks[e.task].(phase := phase)]
      && (t.loop.Picked? || t.loop.Marked? ==> t.loop == s.loop)
  {
    hide ReleasePermit, CallLoop, Answers;
    var u := SetTask(s, e.task, s.tasks[e.task].(phase := if e.Recall? then Recalled else Released));
    assert WaitersExact(u);
    if e.Recall? { CallIsSemaphoreStep(u); } else { ReleaseIsSemaphoreStep(u); }
  }

  predicate OfTask(e: Event, k: nat) {
    (e.StartTask? || e.UpdateRow? || e.Recall? || e.ReleaseTask?) && e.task == k
  }

  function PhaseBefore(e: Event): TaskPhase {
    if e.StartTask? then Scheduled else if e.UpdateRow? then Executing else if e.Recall? then Updated else Recalled
  }

  function PhaseBehind(e: Event): TaskPhase {
    if e.StartTask? then Executing else if e.UpdateRow? then Updated else if e.Recall? then Recalled else Released
  }

  predicate Fits(past: seq<Event>, e: Event, k: nat) {
    OfTask(e, k) ==> k < |Owners(past)| && PhaseAfter(past, k) == PhaseBefore(e)
  }

  lemma OwnersGrow(past: seq<Event>, e: Event)
    ensures |Owners(past)| <= |Owners(past + [e])|
  {
    hide LastPick;
    Snoc(past, e);
  }

  lemma StepsSnoc(past: seq<Event>, e: Event, k: nat)
    ensures var more := past + [e];
      && (StartTask(k) in more <==> StartTask(k) in past || e == StartTask(k))
      && (UpdateRow(k, None) in more <==> UpdateRow(k, None) in past || e == UpdateRow(k, None))
      && (UpdateRow(k, Some(true)) in more <==> UpdateRow(k, Some(true)) in past || e == UpdateRow(k, Some(true)))
      && (UpdateRow(k, Some(false)) in more <==> UpdateRow(k, Some(false)) in past || e == UpdateRow(k, Some(false)))
      && (Recall(k) in more <==> Recall(k) in past || e == Recall(k))
      && (ReleaseTask(k) in more <==> ReleaseTask(k) in past || e == ReleaseTask(k))
  {
    hide Owners, LastPick, Inserts, Marks;
    Snoc(past, e);
  }

  lemma OrderStays(past: seq<Event>, e: Event, k: nat)
    requires StepsInOrder(past, k) && Fits(past, e, k)
    ensures StepsInOrder(past + [e], k)
  {
    hide Owners;
    OwnersGrow(past, e);
    StepsSnoc(past, e, k);
    if e.UpdateRow? { ThreeResults(e.result); }
  }

  lemma ThreeResults(result: Option<bool>)
    ensures result == None || result == Some(true) || result == Some(false)
  {
    if result.Some? && result.value { assert result == Some(true); }
  }

  lemma PhaseMoves(past: seq<Event>, e: Event, k: nat)
    requires StepsInOrder(past, k) && Fits(past, e, k)
    ensures PhaseAfter(past + [e], k) == if OfTask(e, k) then PhaseBehind(e) else PhaseAfter(past, k)
  {
    hide Owners;
    StepsSnoc(past, e, k);
    if e.UpdateRow? { ThreeResults(e.result); }
  }

  lemma TaskMovesOn(past: seq<Event>, e: Event, k: nat)
    requires StepsInOrder(past, k) && Fits(past, e, k) && k < |Owners(past)|
    ensures k < |Owners(past + [e])|
    ensures TaskAfter(past + [e], k) ==
      if e.UpdateRow? && e.task == k then TaskAfter(past, k).(phase := Updated, recorded := e.result.Some?)
      else if OfTask(e, k) then TaskAfter(past, k).(phase := PhaseBehind(e))
      else TaskAfter(past, k)
  {
    hide Owners, LastPick;
    Snoc(past, e);
    PhaseMoves(past, e, k);
    hide PhaseAfter;
  }

  /** An execution that begins has done no step yet. */
  lemma TaskBegins(past: seq<Event>, k: nat)
    requires StepsInOrder(past, k) && k == |Owners(past)|
    ensures var more := past + [Dispatch];
      |Owners(more)| == k + 1 && TaskAfter(more, k) == Task(LastPick(past), Scheduled, false)
  {
    hide Owners, LastPick;
    Snoc(past, Dispatch);
  }

  lemma EnabledFits(past: seq<Event>, s: State, e: Event, k: nat)
    requires TellsTasks(past, s) && Enabled(s, e)
    ensures StepsInOrder(past, k) && Fits(past, e, k)
  {
    hide Owners, LastPick, Answers, PhaseAfter, StepsInOrder;
    if OfTask(e, k) { assert s.tasks[k] == TaskAfter(past, k); }
  }

  /** The executions after a step. */
  lemma TasksNow(s: State, e: Event)
    requires WaitersExact(s) && Enabled(s, e)
    ensures var t := Apply(s, e);
      && (e == Dispatch ==> t.tasks == s.tasks + [Task(s.loop.build, Scheduled, false)])
      && (e != Dispatch ==> |t.tasks| == |s.tasks|)
      && (forall k: nat | k < |s.tasks| :: t.tasks[k] ==
            if e.UpdateRow? && e.task == k then s.tasks[k].(phase := Updated, recorded := e.result.Some?)
            else if OfTask(e, k) then s.tasks[k].(phase := PhaseBehind(e))
            else s.tasks[k])
      && (t.loop.Picked? || t.loop.Marked? ==>
            t.loop.build == if e.ReadQueue? && e.pick.Some? then e.pick.value
                            else if s.loop.Picked? || s.loop.Marked? then s.loop.build else t.loop.build + 1)
  {
    hide Answers, WaitersExact, ReleasePermit, CallLoop;
    if e.Recall? || e.ReleaseTask? {
      TaskStepLeaves(s, e);
      hide Apply;
    } else if e.Wake? || e.EndEmpty? || e.LoopFails? || e.OtherAcquires? || e.OtherReleases? {
      SemaphoreLeaves(s, e);
      hide Apply;
    }
  }

  lemma StepTellsTasks(past: seq<Event>, s: State, e: Event)
    requires WaitersExact(s) && TellsTasks(past, s) && Enabled(s, e)
    ensures TellsTasks(past + [e], Apply(s, e))
  {
    hide Owners, LastPick, WaitersExact, Enabled, Apply, StepsInOrder, PhaseAfter, TaskAfter, Fits, PhaseBehind;
    var t := Apply(s, e);
    Snoc(past, e);
    TasksNow(s, e);
    forall k: nat ensures StepsInOrder(past + [e], k) {
      EnabledFits(past, s, e, k);
      OrderStays(past, e, k);
    }
    forall k | 0 <= k < |t.tasks| ensures t.tasks[k] == TaskAfter(past + [e], k) {
      EnabledFits(past, s, e, k);
      if k < |s.tasks| {
        assert s.tasks[k] == TaskAfter(past, k);
        TaskMovesOn(past, e, k);
      } else {
        TaskBegins(past, k);
        assert s.loop.Marked? by { DispatchIsMarked(s); }
      }
    }
  }

  lemma DispatchIsMarked(s: State)
    requires Enabled(s, Dispatch)
    ensures s.loop.Marked?
  {
  }

  lemma ReportedSnoc(past: seq<Event>, s: State, e: Event, b: nat, ok: bool)
    requires TellsTasks(past, s) && Enabled(s, e)
    ensures Reported(past + [e], b, ok) <==>
      Reported(past, b, ok) || (e.UpdateRow? && e.result == Some(ok) && s.tasks[e.task].build == b)
  {
    hide Owners, LastPick, Answers, StepsInOrder;
    Snoc(past, e);
    var more := past + [e];
    if Reported(past, b, ok) {
      var k :| 0 <= k < |Owners(past)| && Owners(past)[k] == b && UpdateRow(k, Some(ok)) in past;
      assert Owners(more)[k] == b && UpdateRow(k, Some(ok)) in more;
    }
    if e.UpdateRow? && e.result == Some(ok) && s.tasks[e.task].build == b {
      assert s.tasks[e.task] == TaskAfter(past, e.task);
      assert Owners(more)[e.task] == b && UpdateRow(e.task, Some(ok)) in more;
    }
    if Reported(more, b, ok) {
      var k :| 0 <= k < |Owners(more)| && Owners(more)[k] == b && UpdateRow(k, Some(ok)) in more;
      NewOwnerHasNoReport(past, s, e, k, ok);
      assert k < |s.tasks| && s.tasks[k] == TaskAfter(past, k);
    }
  }

  lemma NewOwnerHasNoReport(past: seq<Event>, s: State, e: Event, k: nat, ok: bool)
    requires TellsTasks(past, s) && Enabled(s, e) && UpdateRow(k, Some(ok)) in past + [e]
    ensures k < |s.tasks|
  {
    assert StepsInOrder(past, k);
  }

  // ---- The rows ----

  lemma MarksGrow(past: seq<Event>, e: Event, b: nat)
    ensures b in Marks(past + [e]) <==> b in Marks(past) || (e == Mark && b == LastPick(past))
    ensures DeleteRow(b) in past + [e] <==> DeleteRow(b) in past || e == DeleteRow(b)
  {
    hide Marks, LastPick;
    Snoc(past, e);
  }

  /** The rows after a step. */
  lemma RowsNow(s: State, e: Event)
    requires WaitersExact(s) && Enabled(s, e)
    ensures var t := Apply(s, e);
      && (e.Insert? ==> t.builds == s.builds + [Build(Queued, e.createdAt)])
      && (!e.Insert? ==> |t.builds| == |s.builds|)
      && (forall b: nat | b < |s.builds| :: t.builds[b] ==
            if e == Mark && b == s.loop.build then s.builds[b].(state := Building)
            else if e.UpdateRow? && e.result.Some? && b == s.tasks[e.task].build then
              s.builds[b].(state := if e.result == Some(true) then Ready else Failed)
            else if e == DeleteRow(b) then s.builds[b].(state := Deleted)
            else s.builds[b])
  {
    hide Answers, WaitersExact, ReleasePermit, CallLoop;
    if e.Recall? || e.ReleaseTask? {
      TaskStepLeaves(s, e);
      hide Apply;
    } else if e.Wake? || e.EndEmpty? || e.LoopFails? || e.OtherAcquires? || e.OtherReleases? {
      SemaphoreLeaves(s, e);
      hide Apply;
    }
  }

  /** What a step asks of the row it changes. */
  lemma RowBefore(past: seq<Event>, s: State, e: Event)
    requires BuildsInv(s) && TellsTasks(past, s) && Enabled(s, e)
    ensures e == Mark ==> LastPick(past) == s.loop.build < |s.builds| && s.builds[s.loop.build].state == Queued
    ensures e.UpdateRow? ==>
      s.tasks[e.task].build < |s.builds| && s.builds[s.tasks[e.task].build].state == Building
    ensures e.DeleteRow? ==> e.build < |s.builds| && s.builds[e.build].state in {Ready, Failed}
  {
    hide WaitersExact, Answers, LastPick, Owners, StepsInOrder, NoTaskOf;
  }

  lemma RowMoves(past: seq<Event>, s: State, e: Event, b: nat)
    requires BuildsInv(s) && TellsTasks(past, s) && TellsBuilds(past, s) && Enabled(s, e) && b < |s.builds|
    ensures StateAfter(past + [e], b) ==
      if e == Mark && b == s.loop.build then Building
      else if e.UpdateRow? && e.result.Some? && b == s.tasks[e.task].build then
        if e.result == Some(true) then Ready else Failed
      else if e == DeleteRow(b) then Deleted
      else s.builds[b].state
    ensures DeleteRow(b) in past + [e] ==> Reported(past + [e], b, true) || Reported(past + [e], b, false)
    ensures Reported(past + [e], b, true) || Reported(past + [e], b, false) ==> b in Marks(past + [e])
  {
    hide Inserts, LastPick, Marks, Owners, Reported, TellsTasks, BuildsInv, Enabled;
    RowBefore(past, s, e);
    MarksGrow(past, e, b);
    if e.UpdateRow? { ThreeResults(e.result); }
    assert TellsBuild(past, s, b);
    ReportedSnoc(past, s, e, b, true);
    ReportedSnoc(past, s, e, b, false);
  }

  lemma RowBegins(past: seq<Event>, s: State, createdAt: int)
    requires TasksMatchBuilds(s.builds, s.tasks) && TellsTasks(past, s) && TellsBuilds(past, s)
    ensures TellsBuild(past + [Insert(createdAt)], s.(builds := s.builds + [Build(Queued, createdAt)]), |s.builds|)
  {
    hide LastPick, StepsInOrder, Marks, Inserts;
    Snoc(past, Insert(createdAt));
    forall ok ensures !Reported(past + [Insert(createdAt)], |s.builds|, ok) {
      hide Owners;
      assert forall k | 0 <= k < |s.tasks| :: s.tasks[k].build == Owners(past)[k] by {
        assert forall k | 0 <= k < |s.tasks| :: s.tasks[k] == TaskAfter(past, k);
      }
    }
  }

  lemma StepTellsBuilds(past: seq<Event>, s: State, e: Event)
    requires BuildsInv(s) && TellsTasks(past, s) && TellsBuilds(past, s) && Enabled(s, e)
    ensures TellsBuilds(past + [e], Apply(s, e))
  {
    hide Inserts, LastPick, Marks, Owners, Reported, TellsTasks, StateAfter, TasksMatchBuilds, LoopMatches;
    hide WaitersExact, Enabled, Apply;
    var t := Apply(s, e);
    Snoc(past, e);
    RowsNow(s, e);
    RowBefore(past, s, e);
    forall b | 0 <= b < |t.builds| ensures TellsBuild(past + [e], t, b) {
      if b < |s.builds| {
        assert TellsBuild(past, s, b);
        RowMoves(past, s, e, b);
      } else {
        RowBegins(past, s, e.createdAt);
      }
    }
    forall b: nat | DeleteRow(b) in past + [e] || b in Marks(past + [e]) ensures b < |t.builds| {
      MarksGrow(past, e, b);
    }
  }

  lemma {:induction false} RunTells(past: seq<Event>, s: State, events: seq<Event>)
    requires Inv(s) && TellsTasks(past, s) && TellsBuilds(past, s) && CanRun(s, events)
    ensures TellsTasks(past + events, Run(s, events)) && TellsBuilds(past + events, Run(s, events))
    ensures Inv(Run(s, events))
    decreases |events|
  {
    hide WaitersExact, PermitsExact, TasksMatchBuilds, LoopMatches, Covered, TellsTasks, TellsBuilds, Enabled, Apply;
    if events == [] {
      assert past + events == past;
    } else {
      var e := events[0];
      StepTellsTasks(past, s, e);
      StepTellsBuilds(past, s, e);
      StepKeepsInv(s, e);
      RunTells(past + [e], Apply(s, e), events[1..]);
      assert (past + [e]) + events[1..] == past + events;
    }
  }

  lemma FromStart(max: nat, events: seq<Event>)
    requires CanRun(Initial(max), events)
    ensures var s := Run(Initial(max), events); TellsTasks(events, s) && TellsBuilds(events, s) && Inv(s)
  {
    InitialInv(max);
    NothingYet(max);
    hide *;
    RunTells([], Initial(max), events);
    NoEvents(events);
  }

  lemma NoEvents(events: seq<Event>)
    ensures [] + events == events
  {
  }

  lemma NothingYet(max: nat)
    ensures TellsTasks([], Initial(max)) && TellsBuilds([], Initial(max))
  {
  }

  // ---- Results ----

  lemma OneResult(events: seq<Event>, s: State, k: nat, j: nat)
    requires TellsTasks(events, s) && TasksMatchBuilds(s.builds, s.tasks)
    requires k < |Owners(events)| && j < |Owners(events)| && Owners(events)[k] == Owners(events)[j]
    ensures !(UpdateRow(k, Some(true)) in events && UpdateRow(j, Some(false)) in events)
  {
    hide Owners, LastPick;
    assert s.tasks[k] == TaskAfter(events, k) && s.tasks[j] == TaskAfter(events, j);
    assert StepsInOrder(events, k);
  }

  /**
   * In every run the rows are what the events say. A row becomes ready exactly when its execution reports success, and
   * failed exactly when it reports a failure, and stays so until it is deleted; a row is deleted only after it had one
   * of the two results, and no row has both. It is building from its mark until then, and queued before.
   */
  lemma StatesExactly(max: nat, events: seq<Event>, b: nat)
    requires CanRun(Initial(max), events) && b < |Run(Initial(max), events).builds|
    ensures var state := Run(Initial(max), events).builds[b].state;
      && (state == Ready <==> Reported(events, b, true) && DeleteRow(b) !in events)
      && (state == Failed <==> Reported(events, b, false) && DeleteRow(b) !in events)
      && (state == Deleted <==> DeleteRow(b) in events)
      && (state == Deleted ==> Reported(events, b, true) || Reported(events, b, false))
      && !(Reported(events, b, true) && Reported(events, b, false))
      && (state == Queued <==> b !in Marks(events))
  {
    FromStart(max, events);
    var s := Run(Initial(max), events);
    hide CanRun, Run, WaitersExact, PermitsExact, Covered, LoopMatches, Marks, Owners, LastPick;
    assert TellsBuild(events, s, b);
    if Reported(events, b, true) && Reported(events, b, false) {
      var k :| 0 <= k < |Owners(events)| && Owners(events)[k] == b && UpdateRow(k, Some(true)) in events;
      var j :| 0 <= j < |Owners(events)| && Owners(events)[j] == b && UpdateRow(j, Some(false)) in events;
      OneResult(events, s, k, j);
    }
  }

  /**
   * What can happen next, at any time: each execution begins, reports any result, calls the loop and gives its permit
   * back, once each and in this order; a row can be deleted exactly once it has a result; and the read answers with a
   * build in the queue that is as old as any, or with none exactly when every build has left the queue.
   */
  lemma NextExactly(max: nat, events: seq<Event>, k: nat, result: Option<bool>, b: nat)
    requires CanRun(Initial(max), events)
    ensures var s := Run(Initial(max), events); var n := |Inserts(events)|;
      && (Enabled(s, StartTask(k)) <==> k < |Owners(events)| && StartTask(k) !in events)
      && (Enabled(s, UpdateRow(k, result)) <==> StartTask(k) in events && !Updates(events, k))
      && (Enabled(s, Recall(k)) <==> Updates(events, k) && Recall(k) !in events)
      && (Enabled(s, ReleaseTask(k)) <==> Recall(k) in events && ReleaseTask(k) !in events)
      && (Enabled(s, DeleteRow(b)) <==>
            (Reported(events, b, true) || Reported(events, b, false)) && DeleteRow(b) !in events)
      && (Enabled(s, ReadQueue(Some(b))) <==>
            && s.loop == Permitted && b < n && b !in Marks(events)
            && forall c | 0 <= c < n && c !in Marks(events) :: Inserts(events)[b] <= Inserts(events)[c])
      && (Enabled(s, ReadQueue(None)) <==> s.loop == Permitted && forall c: nat | c < n :: c in Marks(events))
  {
    FromStart(max, events);
    var s := Run(Initial(max), events);
    hide CanRun, Run;
    TaskCan(events, s, k, result);
    RowCan(events, s, b);
    ReadCan(events, s, b);
  }

  /** The first n builds have an answer. */
  lemma {:induction false} OldestOf(builds: seq<Build>, n: nat) returns (pick: Option<nat>)
    requires n <= |builds|
    ensures if pick.None? then forall c | 0 <= c < n :: !IsQueued(builds, c)
            else && pick.value < n && IsQueued(builds, pick.value)
                 && forall c | 0 <= c < n && IsQueued(builds, c) :: builds[pick.value].createdAt <= builds[c].createdAt
  {
    if n == 0 {
      pick := None;
    } else {
      pick := OldestOf(builds, n - 1);
      if IsQueued(builds, n - 1) && (pick.None? || builds[n - 1].createdAt < builds[pick.value].createdAt) {
        pick := Some(n - 1);
      }
    }
  }

  /** Requests can come at any time; and the loop fails where it reads the queue or marks a build. */
  lemma AnyTime(max: nat, events: seq<Event>, createdAt: int)
    requires CanRun(Initial(max), events)
    ensures var s := Run(Initial(max), events);
      && Enabled(s, Insert(createdAt)) && Enabled(s, OtherAcquires)
      && (Enabled(s, LoopFails) <==> Enabled(s, Mark) || exists pick :: Enabled(s, ReadQueue(pick)))
  {
    FromStart(max, events);
    var s := Run(Initial(max), events);
    hide CanRun, Run, Covered, PermitsExact, WaitersExact, TasksMatchBuilds, NoTaskOf;
    var pick := OldestOf(s.builds, |s.builds|);
    if s.loop == Permitted { assert Enabled(s, ReadQueue(pick)); }
  }

  lemma TaskCan(events: seq<Event>, s: State, k: nat, result: Option<bool>)
    requires TellsTasks(events, s) && TasksMatchBuilds(s.builds, s.tasks)
    ensures Enabled(s, StartTask(k)) <==> k < |Owners(events)| && StartTask(k) !in events
    ensures Enabled(s, UpdateRow(k, result)) <==> StartTask(k) in events && !Updates(events, k)
    ensures Enabled(s, Recall(k)) <==> Updates(events, k) && Recall(k) !in events
    ensures Enabled(s, ReleaseTask(k)) <==> Recall(k) in events && ReleaseTask(k) !in events
  {
    hide Owners, LastPick;
    assert StepsInOrder(events, k);
    if k < |s.tasks| { assert s.tasks[k] == TaskAfter(events, k); }
  }

  lemma RowCan(events: seq<Event>, s: State, b: nat)
    requires TellsTasks(events, s) && TellsBuilds(events, s) && TasksMatchBuilds(s.builds, s.tasks)
    ensures Enabled(s, DeleteRow(b)) <==>
      (Reported(events, b, true) || Reported(events, b, false)) && DeleteRow(b) !in events
  {
    hide Owners, LastPick, Marks, Inserts;
    if b < |s.builds| { assert TellsBuild(events, s, b); }
    assert forall k | 0 <= k < |s.tasks| :: s.tasks[k].build == Owners(events)[k] by {
      assert forall k | 0 <= k < |s.tasks| :: s.tasks[k] == TaskAfter(events, k);
    }
  }

  lemma ReadCan(events: seq<Event>, s: State, b: nat)
    requires TellsBuilds(events, s)
    ensures var n := |Inserts(events)|;
      && (Enabled(s, ReadQueue(Some(b))) <==>
            && s.loop == Permitted && b < n && b !in Marks(events)
            && forall c | 0 <= c < n && c !in Marks(events) :: Inserts(events)[b] <= Inserts(events)[c])
      && (Enabled(s, ReadQueue(None)) <==> s.loop == Permitted && forall c: nat | c < n :: c in Marks(events))
  {
    hide Owners, LastPick, Marks, Inserts, Reported;
    forall c: nat | c < |s.builds|
      ensures IsQueued(s.builds, c) <==> c !in Marks(events)
      ensures s.builds[c].createdAt == Inserts(events)[c]
    {
      assert TellsBuild(events, s, c);
    }
  }

  // ---- The order of the builds ----

  /** How many builds had been inserted at the last read that found one. */
  function Known(events: seq<Event>): nat {
    if events == [] then 0
    else
      var past, e := events[..|events| - 1], events[|events| - 1];
      if e.ReadQueue? && e.pick.Some? then |Inserts(past)| else Known(past)
  }

  /** Of the builds that were in the queue at the last read, the one it found is as old as any. */
  predicate OldestPick(past: seq<Event>) {
    && LastPick(past) < Known(past) <= |Inserts(past)| && LastPick(past) !in Marks(past)
    && forall c | 0 <= c < Known(past) && c !in Marks(past) :: Inserts(past)[LastPick(past)] <= Inserts(past)[c]
  }

  /** No build leaves the queue twice, and none before an older one that was inserted before it. */
  predicate InOrder(inserts: seq<int>, marks: seq<nat>) {
    forall j | 0 <= j < |marks| :: marks[j] < |inserts| && marks[j] !in marks[..j] && OlderAreGone(inserts, marks, j)
  }

  predicate OlderAreGone(inserts: seq<int>, marks: seq<nat>, j: nat)
    requires j < |marks| && marks[j] < |inserts|
  {
    forall c | 0 <= c < marks[j] && inserts[c] < inserts[marks[j]] :: c in marks[..j]
  }

  predicate TellsOrder(past: seq<Event>, s: State) {
    InOrder(Inserts(past), Marks(past)) && (s.loop.Picked? ==> OldestPick(past))
  }

  lemma KnownSnoc(past: seq<Event>, e: Event)
    ensures Known(past + [e]) == if e.ReadQueue? && e.pick.Some? then |Inserts(past)| else Known(past)
  {
    assert (past + [e])[..|past|] == past;
  }

  lemma InsertKeepsOrder(inserts: seq<int>, marks: seq<nat>, createdAt: int)
    requires InOrder(inserts, marks)
    ensures InOrder(inserts + [createdAt], marks)
  {
    forall j | 0 <= j < |marks|
      ensures marks[j] < |inserts| && OlderAreGone(inserts + [createdAt], marks, j)
    {
      assert OlderAreGone(inserts, marks, j);
    }
  }

  lemma MarkKeepsOrder(inserts: seq<int>, marks: seq<nat>, b: nat)
    requires InOrder(inserts, marks) && b < |inserts| && b !in marks
    requires forall c | 0 <= c < b && c !in marks :: inserts[b] <= inserts[c]
    ensures InOrder(inserts, marks + [b])
  {
    var more := marks + [b];
    forall j | 0 <= j < |more|
      ensures more[j] < |inserts| && more[j] !in more[..j] && OlderAreGone(inserts, more, j)
    {
      if j < |marks| {
        assert more[..j] == marks[..j] && OlderAreGone(inserts, marks, j);
      } else {
        assert more[..j] == marks;
      }
    }
  }

  /** Only a read finds a build, and a mark lets go of it. */
  lemma PickedBefore(s: State, e: Event)
    requires WaitersExact(s) && Enabled(s, e) && !e.ReadQueue? && Apply(s, e).loop.Picked?
    ensures s.loop.Picked? && e != Mark
  {
    hide WaitersExact, Answers, ReleasePermit, CallLoop;
    if e.Recall? || e.ReleaseTask? {
      TaskStepLeaves(s, e);
    } else if e.Wake? || e.EndEmpty? || e.LoopFails? || e.OtherAcquires? || e.OtherReleases? {
      SemaphoreLeaves(s, e);
    }
  }

  lemma PickStays(past: seq<Event>, e: Event)
    requires OldestPick(past) && !e.ReadQueue? && e != Mark
    ensures OldestPick(past + [e])
  {
    hide Inserts, LastPick, Marks, Known;
    Snoc(past, e);
    KnownSnoc(past, e);
    assert Marks(past) + [] == Marks(past) && Inserts(past) + [] == Inserts(past);
  }

  lemma PickAtRead(past: seq<Event>, s: State, b: nat)
    requires TellsBuilds(past, s) && Enabled(s, ReadQueue(Some(b)))
    ensures OldestPick(past + [ReadQueue(Some(b))])
  {
    ReadCan(past, s, b);
    hide Inserts, LastPick, Marks, Known, TellsBuilds, Answers;
    Snoc(past, ReadQueue(Some(b)));
    KnownSnoc(past, ReadQueue(Some(b)));
    assert Marks(past) + [] == Marks(past) && Inserts(past) + [] == Inserts(past);
  }

  lemma StepKeepsPick(past: seq<Event>, s: State, e: Event)
    requires BuildsInv(s) && TellsBuilds(past, s) && TellsOrder(past, s) && Enabled(s, e)
    ensures Apply(s, e).loop.Picked? ==> OldestPick(past + [e])
  {
    hide OldestPick, InOrder, TellsBuilds, WaitersExact, TasksMatchBuilds, LoopMatches;
    if e.ReadQueue? {
      if e.pick.Some? { PickAtRead(past, s, e.pick.value); }
    } else if Apply(s, e).loop.Picked? {
      PickedBefore(s, e);
      PickStays(past, e);
    }
  }

  lemma StepTellsOrder(past: seq<Event>, s: State, e: Event)
    requires BuildsInv(s) && TellsBuilds(past, s) && TellsOrder(past, s) && Enabled(s, e)
    ensures TellsOrder(past + [e], Apply(s, e))
  {
    StepKeepsPick(past, s, e);
    hide Inserts, LastPick, Marks, Known, InOrder, TellsBuilds, BuildsInv;
    Snoc(past, e);
    if e.Insert? {
      InsertKeepsOrder(Inserts(past), Marks(past), e.createdAt);
    } else if e == Mark {
      MarkKeepsOrder(Inserts(past), Marks(past), LastPick(past));
    }
    hide Apply, OldestPick;
    assert Inserts(past) + [] == Inserts(past) && Marks(past) + [] == Marks(past);
  }

  lemma {:induction false} RunTellsOrder(past: seq<Event>, s: State, events: seq<Event>)
    requires Inv(s) && TellsTasks(past, s) && TellsBuilds(past, s) && TellsOrder(past, s) && CanRun(s, events)
    ensures TellsOrder(past + events, Run(s, events))
    decreases |events|
  {
    hide WaitersExact, PermitsExact, TasksMatchBuilds, LoopMatches, Covered, TellsTasks, TellsBuilds, TellsOrder;
    hide Enabled, Apply;
    if events == [] {
      assert past + events == past;
    } else {
      var e := events[0];
      StepTellsTasks(past, s, e);
      StepTellsBuilds(past, s, e);
      StepTellsOrder(past, s, e);
      StepKeepsInv(s, e);
      RunTellsOrder(past + [e], Apply(s, e), events[1..]);
      assert (past + [e]) + events[1..] == past + events;
    }
  }

  lemma OrderFromStart(max: nat, events: seq<Event>)
    requires CanRun(Initial(max), events)
    ensures var s := Run(Initial(max), events); TellsTasks(events, s) && TellsOrder(events, s)
  {
    FromStart(max, events);
    InitialInv(max);
    NothingYet(max);
    NoOrderYet(max);
    hide *;
    RunTellsOrder([], Initial(max), events);
    NoEvents(events);
  }

  lemma NoOrderYet(max: nat)
    ensures TellsOrder([], Initial(max))
  {
  }

  lemma MarkedIs(past: seq<Event>, s: State)
    requires TellsTasks(past, s) && TellsOrder(past, s) && Enabled(s, Mark)
    ensures var b := Apply(s, Mark).loop.build;
      && Marks(past + [Mark]) == Marks(past) + [b]
      && b !in Marks(past) && b < Known(past) <= |Inserts(past)|
      && (forall c | 0 <= c < Known(past) && c !in Marks(past) :: Inserts(past)[b] <= Inserts(past)[c])
  {
    hide Inserts, Known, LastPick, Marks, Owners, InOrder, StepsInOrder;
    Snoc(past, Mark);
  }

  /** A mark takes a build that is as old as any that was in the queue when the loop read it, and still is in it. */
  lemma MarksOldest(max: nat, past: seq<Event>)
    requires CanRun(Initial(max), past) && Enabled(Run(Initial(max), past), Mark)
    ensures var s := Run(Initial(max), past); var b := Apply(s, Mark).loop.build;
      && Marks(past + [Mark]) == Marks(past) + [b]
      && b !in Marks(past) && b < Known(past) <= |Inserts(past)|
      && (forall c | 0 <= c < Known(past) && c !in Marks(past) :: Inserts(past)[b] <= Inserts(past)[c])
  {
    hide *;
    OrderFromStart(max, past);
    MarkedIs(past, Run(Initial(max), past));
  }

  /** In every run no build leaves the queue twice, or before an older build that was inserted before it. */
  lemma OldestFirst(max: nat, events: seq<Event>, j: nat, c: nat)
    requires CanRun(Initial(max), events) && j < |Marks(events)|
    ensures Marks(events)[j] < |Inserts(events)| && Marks(events)[j] !in Marks(events)[..j]
    ensures c < Marks(events)[j] && Inserts(events)[c] < Inserts(events)[Marks(events)[j]] ==> c in Marks(events)[..j]
  {
    hide Run, CanRun, Inserts, Marks, OldestPick, TellsTasks;
    OrderFromStart(max, events);
    assert OlderAreGone(Inserts(events), Marks(events), j);
  }

  /** When each build is younger than those inserted before it, they leave the queue in the order of their numbers. */
  lemma {:induction false} FirstInFirstOut(max: nat, events: seq<Event>, j: nat)
    requires CanRun(Initial(max), events) && j < |Marks(events)|
    requires forall b, c | 0 <= c < b < |Inserts(events)| :: Inserts(events)[c] < Inserts(events)[b]
    ensures Marks(events)[j] == j
  {
    hide Run, CanRun, Inserts, Marks;
    var b := Marks(events)[j];
    forall i | 0 <= i < j
      ensures Marks(events)[i] == i && i in Marks(events)[..j]
    {
      FirstInFirstOut(max, events, i);
      assert Marks(events)[..j][i] == i;
    }
    OldestFirst(max, events, j, if b > 0 then b - 1 else 0);
  }
}
