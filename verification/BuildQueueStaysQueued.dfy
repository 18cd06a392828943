/** When a build stays queued for good. */
module BuildQueueStaysQueued {
  // This is read off the steps of a run after which the system can do nothing by itself.

  import opened Wrappers
  import opened BuildQueue
  import opened BuildQueueInvariant
  import opened BuildQueueRuns
  import opened BuildQueueProgress

  // ---- The condition in the steps ----

  /** The loop has its answer, or gives up. */
  predicate Closes(e: Event) { e.ReadQueue? || e.LoopFails? }

  predicate LastClosing(events: seq<Event>, i: nat) {
    i < |events| && Closes(events[i]) && forall j | i < j < |events| :: !Closes(events[j])
  }

  predicate InsertAfter(events: seq<Event>, i: nat) {
    exists j :: i < j < |events| && events[j].Insert?
  }

  /** The loop was called: by a wake-up, or at the end of an execution. */
  predicate CalledAfter(events: seq<Event>, i: nat) {
    exists j :: i < j < |events| && (events[j].Wake? || events[j].Recall?)
  }

  /** A build was queued after the first n steps. */
  predicate QueuedAt(max: nat, events: seq<Event>, n: nat) {
    n <= |events| && CanRun(Initial(max), events[..n]) && AnyQueued(Run(Initial(max), events[..n]).builds)
  }

  // ---- One more step ----

  lemma ClosingSnoc(events: seq<Event>, e: Event, i: nat)
    ensures LastClosing(events + [e], i) <==> if Closes(e) then i == |events| else LastClosing(events, i)
  {
    var more := events + [e];
    assert more[|events|] == e && forall j | 0 <= j < |events| :: more[j] == events[j];
  }

  lemma InsertSnoc(events: seq<Event>, e: Event, i: nat)
    requires i < |events|
    ensures InsertAfter(events + [e], i) <==> InsertAfter(events, i) || e.Insert?
  {
    var more := events + [e];
    assert more[|events|] == e && forall j | 0 <= j < |events| :: more[j] == events[j];
  }

  lemma CalledSnoc(events: seq<Event>, e: Event, i: nat)
    requires i < |events|
    ensures CalledAfter(events + [e], i) <==> CalledAfter(events, i) || e.Wake? || e.Recall?
  {
    var more := events + [e];
    assert more[|events|] == e && forall j | 0 <= j < |events| :: more[j] == events[j];
  }

  lemma QueuedSnoc(max: nat, events: seq<Event>, e: Event, n: nat)
    requires n <= |events|
    ensures QueuedAt(max, events + [e], n) == QueuedAt(max, events, n)
  {
    assert (events + [e])[..n] == events[..n];
  }

  /** Only an insert and a mark change whether something is queued. */
  lemma QueuedOnlyBy(s: State, e: Event)
    requires Inv(s) && Enabled(s, e)
    ensures e.Insert? ==> AnyQueued(Apply(s, e).builds)
    ensures !e.Insert? && !e.Mark? ==> AnyQueued(Apply(s, e).builds) == AnyQueued(s.builds)
  {
    hide WaitersExact, PermitsExact, Covered, NoTaskOf, Answers;
    var after := Apply(s, e).builds;
    if e.Insert? {
      assert IsQueued(after, |s.builds|);
    } else if !e.Mark? {
      assert forall b: nat :: IsQueued(after, b) <==> IsQueued(s.builds, b);
    }
  }

  // ---- The steps and the state ----

  /** What the last answer of the loop says about the queue and the loop. */
  ghost predicate AnswerFits(max: nat, past: seq<Event>, s: State, i: nat)
    requires i < |past|
  {
    match past[i]
    case ReadQueue(None) => (AnyQueued(s.builds) <==> InsertAfter(past, i)) && !s.loop.Picked? && !s.loop.Marked?
    case ReadQueue(Some(_)) => s.loop != FoundNone && (LoopIsBusy(s.loop) || WillRecall(s.tasks))
    case _ =>
      && (AnyQueued(s.builds) <==> QueuedAt(max, past, i) || InsertAfter(past, i))
      && s.loop in {Idle, Waiting, Permitted} && (s.loop != Idle <==> CalledAfter(past, i))
      && (InsertAfter(past, i) && !CalledAfter(past, i) ==> s.inserted > 0 || s.wakes > 0)
  }

  /** Before the first answer. */
  predicate NoAnswerYet(s: State) {
    && s.loop in {Idle, Waiting, Permitted} && s.tasks == []
    && (AnyQueued(s.builds) && s.loop == Idle ==> s.inserted > 0 || s.wakes > 0)
  }

  ghost predicate Follows(max: nat, past: seq<Event>, s: State) {
    && ((forall i: nat :: !LastClosing(past, i)) ==> NoAnswerYet(s))
    && (forall i: nat | LastClosing(past, i) :: AnswerFits(max, past, s, i))
    && (forall i: nat | i < |past| && past[i].LoopFails? && !CalledAfter(past, i) ::
          s.loop == Idle && LastClosing(past, i))
  }

  /** What a step does to the loop. */
  predicate LoopGoes(before: Loop, e: Event, after: Loop) {
    match e
    case Wake => if before == Idle then after in {Waiting, Permitted} else after == before
    case Recall(_) => if before == Idle then after in {Waiting, Permitted} else after == before
    case ReadQueue(pick) => before == Permitted && after == if pick.Some? then Picked(pick.value) else FoundNone
    case EndEmpty => before == FoundNone && after == Idle
    case Mark => before.Picked? && after.Marked?
    case Dispatch => before.Marked? && after == Idle
    case LoopFails => (before == Permitted || before.Picked?) && after == Idle
    case _ => after == before || (before == Waiting && after == Permitted)
  }

  lemma LoopStep(s: State, e: Event)
    requires Inv(s) && Enabled(s, e)
    ensures LoopGoes(s.loop, e, Apply(s, e).loop)
  {
    hide Covered, PermitsExact, TasksMatchBuilds, LoopMatches, Answers;
    assert s.sem.waiters != [] ==> s.sem.waiters[0] in s.sem.waiters;
  }

  lemma RecallStep(s: State, e: Event)
    requires Enabled(s, e)
    ensures e.Dispatch? ==> WillRecall(Apply(s, e).tasks)
    ensures !e.Recall? && WillRecall(s.tasks) ==> WillRecall(Apply(s, e).tasks)
    ensures s.tasks == [] && !e.Dispatch? ==> Apply(s, e).tasks == []
  {
    var t := Apply(s, e);
    hide Answers;
    match e {
      case Dispatch => assert t.tasks[|s.tasks|].phase == Scheduled;
      case StartTask(k) => assert t.tasks[k].phase == Executing;
      case UpdateRow(k, _) => assert t.tasks[k].phase == Updated;
      case ReleaseTask(k) => RecallersStay(s.tasks, k, s.tasks[k].(phase := Released));
      case _ =>
    }
  }

  /** Wake-ups are only used up by calling the loop. */
  lemma WakeStep(s: State, e: Event)
    requires Enabled(s, e)
    ensures e.Insert? ==> Apply(s, e).inserted > 0
    ensures !e.Wake? && (s.inserted > 0 || s.wakes > 0) ==> Apply(s, e).inserted > 0 || Apply(s, e).wakes > 0
  {
    hide Answers;
  }

  lemma ClosingAnswerFits(max: nat, past: seq<Event>, s: State, e: Event)
    requires Inv(s) && Enabled(s, e) && Closes(e) && CanRun(Initial(max), past) && Run(Initial(max), past) == s
    ensures AnswerFits(max, past + [e], Apply(s, e), |past|)
  {
    var more := past + [e];
    LoopStep(s, e);
    QueuedOnlyBy(s, e);
    assert more[|past|] == e && more[..|past|] == past;
    if e.ReadQueue? && e.pick.None? {
      assert forall b: nat :: !IsQueued(s.builds, b);
    }
    hide Apply, Inv, CanRun, Run, IsQueued;
  }

  lemma OldAnswerFits(max: nat, past: seq<Event>, s: State, e: Event, i: nat)
    requires Inv(s) && Enabled(s, e) && !Closes(e) && i < |past| && Closes(past[i]) && AnswerFits(max, past, s, i)
    ensures AnswerFits(max, past + [e], Apply(s, e), i)
  {
    LoopStep(s, e);
    QueuedOnlyBy(s, e);
    RecallStep(s, e);
    WakeStep(s, e);
    InsertSnoc(past, e, i);
    CalledSnoc(past, e, i);
    QueuedSnoc(max, past, e, i);
    assert (past + [e])[i] == past[i];
    hide Apply, Enabled, Inv, QueuedAt, InsertAfter, CalledAfter, AnyQueued, WillRecall;
  }

  lemma StepFollows(max: nat, past: seq<Event>, s: State, e: Event)
    requires Inv(s) && Enabled(s, e) && CanRun(Initial(max), past) && Run(Initial(max), past) == s
    requires Follows(max, past, s)
    ensures Follows(max, past + [e], Apply(s, e))
  {
    var more, t := past + [e], Apply(s, e);
    FirstAnswer(max, past, s, e);
    FailuresFit(max, past, s, e);
    forall i: nat | LastClosing(more, i) ensures AnswerFits(max, more, t, i) {
      ClosingSnoc(past, e, i);
      if Closes(e) {
        ClosingAnswerFits(max, past, s, e);
      } else {
        OldAnswerFits(max, past, s, e, i);
      }
    }
    hide *;
  }

  lemma FirstAnswer(max: nat, past: seq<Event>, s: State, e: Event)
    requires Inv(s) && Enabled(s, e) && Follows(max, past, s)
    ensures (forall i: nat :: !LastClosing(past + [e], i)) ==> NoAnswerYet(Apply(s, e))
  {
    LoopStep(s, e);
    QueuedOnlyBy(s, e);
    RecallStep(s, e);
    WakeStep(s, e);
    forall i: nat ensures LastClosing(past + [e], i) <==> if Closes(e) then i == |past| else LastClosing(past, i) {
      ClosingSnoc(past, e, i);
    }
    hide Apply, Enabled, Inv, LastClosing, AnswerFits, CalledAfter, AnyQueued;
    if Closes(e) { assert LastClosing(past + [e], |past|); }
  }

  lemma FailuresFit(max: nat, past: seq<Event>, s: State, e: Event)
    requires Inv(s) && Enabled(s, e) && Follows(max, past, s)
    ensures forall i: nat | i < |past + [e]| && (past + [e])[i].LoopFails? && !CalledAfter(past + [e], i) ::
              Apply(s, e).loop == Idle && LastClosing(past + [e], i)
  {
    LoopStep(s, e);
    forall i: nat | i < |past + [e]| && (past + [e])[i].LoopFails? && !CalledAfter(past + [e], i)
      ensures Apply(s, e).loop == Idle && LastClosing(past + [e], i)
    {
      ClosingSnoc(past, e, i);
      if i < |past| {
        assert (past + [e])[i] == past[i];
        CalledSnoc(past, e, i);
      }
      hide Apply, Enabled, Inv, LastClosing, AnswerFits, CalledAfter;
    }
  }

  lemma {:induction false} RunFollows(max: nat, past: seq<Event>, s: State, events: seq<Event>)
    requires Inv(s) && CanRun(Initial(max), past) && Run(Initial(max), past) == s && Follows(max, past, s)
    requires CanRun(s, events)
    ensures Follows(max, past + events, Run(s, events))
    decreases |events|
  {
    hide Inv, Follows, Enabled, Apply;
    if events == [] {
      assert past + events == past;
    } else {
      var e := events[0];
      StepFollows(max, past, s, e);
      StepKeepsInv(s, e);
      RunOne(s, e, []);
      assert [e] + [] == [e];
      RunAppend(Initial(max), past, [e]);
      RunFollows(max, past + [e], Apply(s, e), events[1..]);
      assert (past + [e]) + events[1..] == past + events;
    }
  }

  lemma InitialFollows(max: nat)
    ensures Follows(max, [], Initial(max))
  {
  }

  // ---- The theorem ----

  /** The loop's last answer was that the queue is empty, and a build was inserted after that. */
  ghost predicate InsertedInGap(events: seq<Event>) {
    exists i: nat :: LastClosing(events, i) && events[i] == ReadQueue(None) && InsertAfter(events, i)
  }

  /** A statement of the loop failed while a build was queued, and the loop was never called again. */
  ghost predicate GivenUp(max: nat, events: seq<Event>) {
    exists i: nat :: i < |events| && events[i].LoopFails? && !CalledAfter(events, i) && QueuedAt(max, events, i)
  }

  /**
   * After any run that the system cannot continue by itself, a build is still queued if and only if it was inserted
   * after the last answer, which was that the queue is empty, or a statement of the loop failed while a build was
   * queued and no wake-up or execution called the loop after that.
   */
  lemma StaysQueuedExactly(max: nat, events: seq<Event>)
    requires max > 0 && CanRun(Initial(max), events)
    requires forall e | Internal(e) :: !Enabled(Run(Initial(max), events), e)
    ensures AnyQueued(Run(Initial(max), events).builds) <==> InsertedInGap(events) || GivenUp(max, events)
  {
    var s := Run(Initial(max), events);
    InitialInv(max);
    InitialFollows(max);
    RunKeepsInv(Initial(max), events);
    RunKeepsMax(Initial(max), events);
    RunFollows(max, [], Initial(max), events);
    assert [] + events == events;
    NothingHeld(s);
    assert !Enabled(s, ScheduleWake) && !Enabled(s, Wake);
    assert !WillRecall(s.tasks);
    hide Inv, CanRun, Run, Enabled, AnyQueued, QueuedAt, LastClosing, InsertAfter, CalledAfter, WillRecall;
    AnswerDecides(max, events, s);
  }

  lemma AnswerDecides(max: nat, events: seq<Event>, s: State)
    requires Follows(max, events, s) && s.loop == Idle && s.inserted == 0 && s.wakes == 0 && !WillRecall(s.tasks)
    ensures AnyQueued(s.builds) <==> InsertedInGap(events) || GivenUp(max, events)
  {
    hide AnyQueued, QueuedAt, InsertAfter, CalledAfter, WillRecall;
    forall i: nat, k: nat | LastClosing(events, i) && LastClosing(events, k) ensures i == k { }
    if i: nat :| LastClosing(events, i) {
      assert AnswerFits(max, events, s, i);
      hide LastClosing;
    } else {
      hide LastClosing;
    }
  }

  /** Without failing statements: the last answer of the loop, and an insert after it, decide. */
  lemma StaysQueuedWithoutFailures(max: nat, events: seq<Event>)
    requires max > 0 && CanRun(Initial(max), events) && forall e | e in events :: !e.LoopFails?
    requires forall e | Internal(e) :: !Enabled(Run(Initial(max), events), e)
    ensures AnyQueued(Run(Initial(max), events).builds) <==>
      exists i: nat :: i < |events| && events[i] == ReadQueue(None)
                       && (forall j | i < j < |events| :: !events[j].ReadQueue?) && InsertAfter(events, i)
  {
    StaysQueuedExactly(max, events);
    hide CanRun, Run, Enabled, AnyQueued, QueuedAt, InsertAfter, CalledAfter;
    assert !GivenUp(max, events);
    assert forall i: nat | i < |events| :: Closes(events[i]) <==> events[i].ReadQueue?;
  }
}
