/**
 * Without atomic reads a wake-up of the build queue can be lost: a run that inserts a build between the loop's read of
 * an empty queue and its next step, and leaves it queued.
 */
module BuildQueueLostWake {
  import opened Wrappers
  import opened BuildQueue
  import opened BuildQueueInvariant
  import opened BuildQueueRuns
  import opened BuildQueueProgress

  lemma RunTwo(s: State, e: Event, f: Event, t: State)
    requires Enabled(s, e) && Enabled(Apply(s, e), f) && Apply(Apply(s, e), f) == t
    ensures CanRun(s, [e, f]) && Run(s, [e, f]) == t
  {
    hide Enabled, Apply;
    RunOne(Apply(s, e), f, []);
    RunOne(s, e, [f]);
    assert [e] + [f] == [e, f] && [f] + [] == [f];
  }

  // The first build is taken, and its execution dispatched.
  const P1 := [Insert(0), ScheduleWake]
  const S1 := State(Sem(2, 0, []), Idle, [Build(Queued, 0)], 0, 1, [], [], false)
  const P2 := [Wake, ReadQueue(Some(0))]
  const S2 := State(Sem(2, 1, []), Picked(0), [Build(Queued, 0)], 0, 0, [], [], false)
  const P3 := [Mark, Dispatch]
  const S3 := State(Sem(2, 1, []), Idle, [Build(Building, 0)], 0, 0, [Task(0, Scheduled, false)], [], false)
  // The execution ends and calls the loop, which reads an empty queue.
  const P4 := [StartTask(0), UpdateRow(0, Some(true))]
  const S4 := State(Sem(2, 1, []), Idle, [Build(Ready, 0)], 0, 0, [Task(0, Updated, true)], [], false)
  const P5 := [Recall(0), ReadQueue(None)]
  const S5 := State(Sem(2, 2, []), FoundNone, [Build(Ready, 0)], 0, 0, [Task(0, Recalled, true)], [], false)
  // A second build is inserted and woken for before the loop acts on what it read.
  const P6 := [Insert(1), ScheduleWake]
  const S6 := State(Sem(2, 2, []), FoundNone, TWO_BUILDS, 0, 1, [Task(0, Recalled, true)], [], false)
  const P7 := [Wake, EndEmpty]
  const S7 := State(Sem(2, 1, []), Idle, TWO_BUILDS, 0, 0, [Task(0, Recalled, true)], [], true)
  const P8 := [ReleaseTask(0)]
  const S8 := State(Sem(2, 0, []), Idle, TWO_BUILDS, 0, 0, [Task(0, Released, true)], [], true)
  const TWO_BUILDS := [Build(Ready, 0), Build(Queued, 1)]

  lemma GapStep1() ensures CanRun(Initial(2), P1) && Run(Initial(2), P1) == S1 {
    RunTwo(Initial(2), Insert(0), ScheduleWake, S1);
  }

  lemma GapStep2() ensures CanRun(S1, P2) && Run(S1, P2) == S2 {
    RunTwo(S1, Wake, ReadQueue(Some(0)), S2);
  }

  lemma GapStep3() ensures CanRun(S2, P3) && Run(S2, P3) == S3 {
    RunTwo(S2, Mark, Dispatch, S3);
  }

  lemma GapStep4() ensures CanRun(S3, P4) && Run(S3, P4) == S4 {
    RunTwo(S3, StartTask(0), UpdateRow(0, Some(true)), S4);
  }

  lemma GapStep5() ensures CanRun(S4, P5) && Run(S4, P5) == S5 {
    RunTwo(S4, Recall(0), ReadQueue(None), S5);
  }

  lemma GapStep6() ensures CanRun(S5, P6) && Run(S5, P6) == S6 {
    RunTwo(S5, Insert(1), ScheduleWake, S6);
  }

  lemma GapStep7() ensures CanRun(S6, P7) && Run(S6, P7) == S7 {
    RunTwo(S6, Wake, EndEmpty, S7);
  }

  lemma GapStep8() ensures CanRun(S7, P8) && Run(S7, P8) == S8 {
    RunOne(S7, ReleaseTask(0), []);
    assert P8 == [ReleaseTask(0)] + [];
  }

  /** Atomic reads are needed: this run leaves a build queued with nothing that will ever look at it. */
  lemma WakeUpCanBeLost()
    ensures var events := P1 + P2 + P3 + P4 + P5 + P6 + P7 + P8;
      && CanRun(Initial(2), events) && (forall e | e in events :: !e.LoopFails?)
      && IsQueued(Run(Initial(2), events).builds, 1)
      && forall e | Internal(e) :: !Enabled(Run(Initial(2), events), e)
  {
    GapStep1(); GapStep2(); GapStep3(); GapStep4(); GapStep5(); GapStep6(); GapStep7(); GapStep8();
    hide CanRun, Run;
    RunAppend(Initial(2), P1, P2);
    RunAppend(Initial(2), P1 + P2, P3);
    RunAppend(Initial(2), P1 + P2 + P3, P4);
    RunAppend(Initial(2), P1 + P2 + P3 + P4, P5);
    RunAppend(Initial(2), P1 + P2 + P3 + P4 + P5, P6);
    RunAppend(Initial(2), P1 + P2 + P3 + P4 + P5 + P6, P7);
    RunAppend(Initial(2), P1 + P2 + P3 + P4 + P5 + P6 + P7, P8);
  }
}
