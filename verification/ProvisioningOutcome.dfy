/** What becomes of a session, told by the steps that ran. */
module ProvisioningOutcome {
  // For every run, with an atomic guard or without.

  import opened Wrappers
  import opened Provisioning
  import opened ProvisioningLeaks

  // ---- The steps of provisioning ----

  predicate IsProvisioning(e: Event) {
    !e.AgentExits? && !e.WriteExit? && !e.RequestDelete? && !e.MarkExited? && !e.KillLive? && !e.RemoveEntry?
  }

  function Steps(events: seq<Event>): seq<Event> {
    if events == [] then []
    else
      var e := events[|events| - 1];
      Steps(events[..|events| - 1]) + (if IsProvisioning(e) then [e] else [])
  }

  /** All steps of a provisioning that succeeds, with one spawn that failed or none. */
  function Script(retried: bool): seq<Event> {
    [PrepareEnds(true), CheckPrepared, ConfigureEnds(true), CheckConfigured, SaveWorkspace]
    + (if retried then [SpawnFails(true)] else [])
    + [SpawnSucceeds, GuardRead, GuardActs, WriteRunning]
  }

  /** The first k steps, not counting a failed spawn. */
  predicate Upto(steps: seq<Event>, k: nat)
    requires k <= 9
  {
    steps == Script(false)[..k] || (k > 5 && steps == Script(true)[..k + 1])
  }

  /** A step failed, and nothing followed: the preparation, the configuration, a spawn for good, or two spawns. */
  predicate Broken(steps: seq<Event>) {
    || steps == [PrepareEnds(false)]
    || steps == Script(false)[..2] + [ConfigureEnds(false)]
    || steps == Script(false)[..5] + [SpawnFails(false)]
    || steps == Script(true)[..6] + [SpawnFails(true)]
    || steps == Script(true)[..6] + [SpawnFails(false)]
  }

  /** The steps behind each stage. */
  predicate OnScript(steps: seq<Event>, stage: Stage) {
    match stage
    case Preparing => steps == []
    case Prepared => Upto(steps, 1)
    case Configuring => Upto(steps, 2)
    case Configured => Upto(steps, 3)
    case Saving => Upto(steps, 4)
    case Spawning(retried) => steps == if retried then Script(true)[..6] else Script(false)[..5]
    case Spawned(_) => Upto(steps, 6)
    case Decided(_, _) => Upto(steps, 7)
    case Registered => Upto(steps, 8)
    case Failing => Broken(steps)
    case Finished =>
      || Upto(steps, 2) || Upto(steps, 4) || Upto(steps, 8) || Upto(steps, 9)
      || (steps != [] && steps[|steps| - 1] == MarkFailed && Broken(steps[..|steps| - 1]))
  }

  lemma StepsSnoc(events: seq<Event>, e: Event)
    ensures Steps(events + [e]) == Steps(events) + (if IsProvisioning(e) then [e] else [])
  {
    assert (events + [e])[..|events|] == events;
  }

  lemma StepOnScript(past: seq<Event>, s: State, e: Event)
    requires Enabled(s, e) && OnScript(Steps(past), s.stage)
    ensures OnScript(Steps(past + [e]), Apply(s, e).stage)
  {
    StepsSnoc(past, e);
    NextOnScript(Steps(past), s, e);
    hide Steps, OnScript;
  }

  lemma NextOnScript(steps: seq<Event>, s: State, e: Event)
    requires Enabled(s, e) && OnScript(steps, s.stage)
    ensures OnScript(if IsProvisioning(e) then steps + [e] else steps, Apply(s, e).stage)
  {
    if s.stage.Spawning? {
      SpawnOnScript(steps, s, e);
    } else if e.PrepareEnds? || e.CheckPrepared? || e.ConfigureEnds? || e.CheckConfigured? || e.SaveWorkspace? {
      EarlyOnScript(steps, s, e);
    } else {
      LateOnScript(steps, s, e);
    }
  }

  lemma EarlyOnScript(steps: seq<Event>, s: State, e: Event)
    requires Enabled(s, e) && OnScript(steps, s.stage)
    requires e.PrepareEnds? || e.CheckPrepared? || e.ConfigureEnds? || e.CheckConfigured? || e.SaveWorkspace?
    ensures OnScript(steps + [e], Apply(s, e).stage)
  {
  }

  lemma SpawnOnScript(steps: seq<Event>, s: State, e: Event)
    requires Enabled(s, e) && OnScript(steps, s.stage) && s.stage.Spawning?
    ensures OnScript(if IsProvisioning(e) then steps + [e] else steps, Apply(s, e).stage)
  {
  }

  lemma LateOnScript(steps: seq<Event>, s: State, e: Event)
    requires Enabled(s, e) && OnScript(steps, s.stage) && !s.stage.Spawning?
    requires !e.PrepareEnds? && !e.CheckPrepared? && !e.ConfigureEnds? && !e.CheckConfigured? && !e.SaveWorkspace?
    ensures OnScript(if IsProvisioning(e) then steps + [e] else steps, Apply(s, e).stage)
  {
  }

  // ---- The status ----

  predicate Marks(events: seq<Event>) { exists e :: e in events && e.MarkExited? }

  /** What the exit callback of the agent was about to write: decided when the agent exited. */
  ghost function ExitChoice(recoverable: bool, events: seq<Event>): Status {
    if events == [] then Exited
    else
      var past, e := events[..|events| - 1], events[|events| - 1];
      if e == AgentExits then (if recoverable && EntryStays(past) then Idle else Exited)
      else ExitChoice(recoverable, past)
  }

  /** The last write decides, except that a failure is not written over the mark of a delete. */
  ghost function StatusAfter(recoverable: bool, events: seq<Event>): Status {
    if events == [] then Pending
    else
      var past, e := events[..|events| - 1], events[|events| - 1];
      match e
      case WriteRunning => Running
      case MarkExited(_) => Exited
      case MarkFailed => if Marks(past) then Exited else Failed
      case WriteExit => ExitChoice(recoverable, past)
      case _ => StatusAfter(recoverable, past)
  }

  lemma MarksSnoc(events: seq<Event>, e: Event)
    ensures Marks(events + [e]) <==> Marks(events) || e.MarkExited?
  {
    assert forall f :: f in events + [e] <==> f in events || f == e;
  }

  /** What the state tells of the status and of the steps, beside what it tells of handles. */
  ghost predicate Tells(past: seq<Event>, s: State) {
    TellsStatus(past, s) && TellsPending(past, s) && OnScript(Steps(past), s.stage)
  }

  ghost predicate TellsStatus(past: seq<Event>, s: State) {
    && s.status == StatusAfter(s.recoverable, past)
    && (s.exitWrite.Some? ==> s.exitWrite.value == ExitChoice(s.recoverable, past))
  }

  predicate TellsPending(past: seq<Event>, s: State) {
    && (Early(s.stage) ==> s.status == if Marks(past) then Exited else Pending)
    && (s.stage == Finished || (s.stage.Decided? && !s.stage.pending) ==> s.status != Pending)
  }

  lemma StatusSnoc(recoverable: bool, past: seq<Event>, e: Event)
    ensures StatusAfter(recoverable, past + [e]) ==
      match e
      case WriteRunning => Running
      case MarkExited(_) => Exited
      case MarkFailed => if Marks(past) then Exited else Failed
      case WriteExit => ExitChoice(recoverable, past)
      case _ => StatusAfter(recoverable, past)
    ensures ExitChoice(recoverable, past + [e]) ==
      if e == AgentExits then (if recoverable && EntryStays(past) then Idle else Exited)
      else ExitChoice(recoverable, past)
  {
    assert (past + [e])[..|past|] == past;
    hide Marks, EntryStays;
  }

  lemma StepTells(past: seq<Event>, s: State, e: Event)
    requires Base(s) && Follows(past, s) && Tells(past, s) && Enabled(s, e)
    ensures Tells(past + [e], Apply(s, e))
  {
    hide TellsStatus, TellsPending, OnScript, Base, Follows, Enabled, Apply;
    StepTellsStatus(past, s, e);
    StepTellsPending(past, s, e);
    StepOnScript(past, s, e);
  }

  lemma StepTellsStatus(past: seq<Event>, s: State, e: Event)
    requires Base(s) && Follows(past, s) && TellsStatus(past, s) && TellsPending(past, s) && Enabled(s, e)
    ensures TellsStatus(past + [e], Apply(s, e))
  {
    hide StatusAfter, ExitChoice, Marks, EntryStays, HandlesOwned, Follows;
    StatusSnoc(s.recoverable, past, e);
    EntryNow(past, s);
  }

  lemma StepTellsPending(past: seq<Event>, s: State, e: Event)
    requires Base(s) && TellsPending(past, s) && Enabled(s, e)
    ensures TellsPending(past + [e], Apply(s, e))
  {
    hide Marks, HandlesOwned;
    MarksSnoc(past, e);
  }

  lemma EntryNow(past: seq<Event>, s: State)
    requires Follows(past, s)
    ensures s.manager.Some? <==> EntryStays(past)
  {
    hide EntryStays, HandleStays;
  }

  lemma {:induction false} RunTells(past: seq<Event>, s: State, events: seq<Event>)
    requires Base(s) && Follows(past, s) && Tells(past, s) && CanRun(s, events)
    ensures Tells(past + events, Run(s, events)) && Follows(past + events, Run(s, events)) && Base(Run(s, events))
    decreases |events|
  {
    hide Base, Follows, Tells, Enabled, Apply;
    if events == [] {
      assert past + events == past;
    } else {
      var e := events[0];
      StepTells(past, s, e);
      StepFollows(past, s, e);
      StepKeepsBase(s, e);
      RunTells(past + [e], Apply(s, e), events[1..]);
      assert (past + [e]) + events[1..] == past + events;
    }
  }

  lemma FromStart(recoverable: bool, events: seq<Event>)
    requires CanRun(Initial(recoverable), events)
    ensures Tells(events, Run(Initial(recoverable), events))
    ensures Follows(events, Run(Initial(recoverable), events)) && Base(Run(Initial(recoverable), events))
    ensures Run(Initial(recoverable), events).recoverable == recoverable
  {
    assert !EntryStays([]) && !HandleStays([]);
    RunTells([], Initial(recoverable), events);
    RunKeepsKind(Initial(recoverable), events);
    assert [] + events == events;
    hide Run, CanRun, Tells, Follows, Base;
  }

  lemma {:induction false} RunKeepsKind(s: State, events: seq<Event>)
    requires CanRun(s, events)
    ensures Run(s, events).recoverable == s.recoverable
    decreases |events|
  {
    if events != [] { RunKeepsKind(Apply(s, events[0]), events[1..]); }
  }

  // ---- Results ----

  /** In every run the status is what the last write says. */
  lemma StatusExactly(recoverable: bool, events: seq<Event>)
    requires CanRun(Initial(recoverable), events)
    ensures Run(Initial(recoverable), events).status == StatusAfter(recoverable, events)
  {
    FromStart(recoverable, events);
    hide Run, CanRun, StatusAfter, Follows, Base;
  }

  /** A session is never left pending: when provisioning has finished, the row is not. */
  lemma FinishedIsNotPending(recoverable: bool, events: seq<Event>)
    requires CanRun(Initial(recoverable), events) && Run(Initial(recoverable), events).stage == Finished
    ensures Run(Initial(recoverable), events).status != Pending
  {
    FromStart(recoverable, events);
    hide Run, CanRun, StatusAfter, Follows, Base;
  }

  // ---- Failures ----

  /** The results of the spawns. */
  function Spawns(events: seq<Event>): seq<Event> {
    if events == [] then []
    else
      var e := events[|events| - 1];
      Spawns(events[..|events| - 1]) + (if e.SpawnSucceeds? || e.SpawnFails? then [e] else [])
  }

  /** The preparation or the configuration failed, or a spawn without a recreated runtime, or a second spawn. */
  predicate StepFailed(events: seq<Event>) {
    || PrepareEnds(false) in events || ConfigureEnds(false) in events || SpawnFails(false) in events
    || Spawns(events) == [SpawnFails(true), SpawnFails(true)]
  }

  predicate SpawnsFit(spawns: seq<Event>, stage: Stage) {
    match stage
    case Spawning(retried) => spawns == if retried then [SpawnFails(true)] else []
    case Spawned(_) => spawns in {[SpawnSucceeds], [SpawnFails(true), SpawnSucceeds]}
    case Decided(_, _) => spawns in {[SpawnSucceeds], [SpawnFails(true), SpawnSucceeds]}
    case Registered => spawns in {[SpawnSucceeds], [SpawnFails(true), SpawnSucceeds]}
    case Failing => FewSpawns(spawns)
    case Finished => FewSpawns(spawns)
    case _ => spawns == []
  }

  /** A spawn is tried at most twice, and the second time only after the first failed and the runtime was recreated. */
  predicate FewSpawns(spawns: seq<Event>) {
    spawns in {[], [SpawnSucceeds], [SpawnFails(false)], [SpawnFails(true), SpawnSucceeds],
               [SpawnFails(true), SpawnFails(false)], [SpawnFails(true), SpawnFails(true)]}
  }

  /** What the state tells of failures. */
  predicate TellsFailure(past: seq<Event>, s: State) {
    && (s.stage == Failing || MarkFailed in past <==> StepFailed(past))
    && SpawnsFit(Spawns(past), s.stage)
    && TellsFailed(past, s)
  }

  predicate TellsFailed(past: seq<Event>, s: State) {
    && (MarkFailed in past ==> s.stage == Finished && s.watched.None?)
    && (s.status == Failed <==> MarkFailed in past && !Marks(past))
  }

  lemma SpawnsSnoc(past: seq<Event>, e: Event)
    ensures Spawns(past + [e]) == Spawns(past) + (if e.SpawnSucceeds? || e.SpawnFails? then [e] else [])
    ensures forall f :: f in past + [e] <==> f in past || f == e
  {
    assert (past + [e])[..|past|] == past;
  }

  lemma StepTellsFailure(past: seq<Event>, s: State, e: Event)
    requires Base(s) && Tells(past, s) && TellsFailure(past, s) && Enabled(s, e)
    ensures TellsFailure(past + [e], Apply(s, e))
  {
    hide Spawns, SpawnsFit, StepFailed, Base, TellsStatus, Enabled, Apply, TellsPending, OnScript;
    StepTellsFailed(past, s, e);
    SpawnsStayFew(past, s, e);
    StepKeepsBreak(past, s, e);
  }

  lemma StepTellsFailed(past: seq<Event>, s: State, e: Event)
    requires Base(s) && TellsPending(past, s) && TellsFailed(past, s) && Enabled(s, e)
    ensures TellsFailed(past + [e], Apply(s, e))
  {
    hide Spawns, Marks, HandlesOwned;
    SpawnsSnoc(past, e);
    MarksSnoc(past, e);
  }

  lemma SpawnsStayFew(past: seq<Event>, s: State, e: Event)
    requires Enabled(s, e) && SpawnsFit(Spawns(past), s.stage)
    ensures SpawnsFit(Spawns(past + [e]), Apply(s, e).stage)
  {
    hide Spawns;
    SpawnsSnoc(past, e);
    assert [] + [e] == [e] && [SpawnFails(true)] + [e] == [SpawnFails(true), e];
    assert Spawns(past) + [] == Spawns(past);
  }

  lemma StepKeepsBreak(past: seq<Event>, s: State, e: Event)
    requires Enabled(s, e) && SpawnsFit(Spawns(past), s.stage) && (MarkFailed in past ==> s.stage == Finished)
    requires s.stage == Failing || MarkFailed in past <==> StepFailed(past)
    ensures var t := Apply(s, e); t.stage == Failing || MarkFailed in past + [e] <==> StepFailed(past + [e])
  {
    hide Spawns, FewSpawns;
    SpawnsSnoc(past, e);
    assert [SpawnFails(true)] + [e] == [SpawnFails(true), e];
    assert Spawns(past) + [] == Spawns(past);
    if e.SpawnFails? { BreaksAtSpawn(Spawns(past), e, s.stage.retried); }
  }

  lemma BreaksAtSpawn(spawns: seq<Event>, e: Event, retried: bool)
    requires spawns == (if retried then [SpawnFails(true)] else []) && e.SpawnFails?
    ensures spawns + [e] == [SpawnFails(true), SpawnFails(true)] <==> retried && e == SpawnFails(true)
  {
    if retried { assert spawns + [e] == [SpawnFails(true), e]; } else { assert |spawns + [e]| == 1; }
  }

  lemma {:induction false} RunTellsFailure(past: seq<Event>, s: State, events: seq<Event>)
    requires Base(s) && Follows(past, s) && Tells(past, s) && TellsFailure(past, s) && CanRun(s, events)
    ensures TellsFailure(past + events, Run(s, events))
    decreases |events|
  {
    hide Base, Follows, Tells, TellsFailure, Enabled, Apply;
    if events == [] {
      assert past + events == past;
    } else {
      var e := events[0];
      StepTells(past, s, e);
      StepTellsFailure(past, s, e);
      StepFollows(past, s, e);
      StepKeepsBase(s, e);
      RunTellsFailure(past + [e], Apply(s, e), events[1..]);
      assert (past + [e]) + events[1..] == past + events;
    }
  }

  /**
   * In every run the row is failed exactly when provisioning reported a failure and no delete marked the row; and
   * provisioning has reported a failure, or is about to, exactly when one of its steps failed. A spawn is tried at most
   * once more, and only after it failed and the runtime was recreated.
   */
  lemma FailedExactly(recoverable: bool, events: seq<Event>)
    requires CanRun(Initial(recoverable), events)
    ensures var s := Run(Initial(recoverable), events);
      && (s.status == Failed <==> MarkFailed in events && !Marks(events))
      && (s.stage == Failing || MarkFailed in events <==> StepFailed(events))
      && (s.stage in {Failing, Finished} ==> FewSpawns(Spawns(events)))
  {
    assert !EntryStays([]) && !HandleStays([]);
    RunTellsFailure([], Initial(recoverable), events);
    assert [] + events == events;
    hide Run, CanRun, StepFailed, FewSpawns, Spawns, Marks;
  }

  /**
   * Before each of its checks provisioning asks whether a delete has marked the row, and goes on exactly when none
   * has; and in every run its steps follow the script.
   */
  lemma ChecksExactly(recoverable: bool, past: seq<Event>, e: Event)
    requires CanRun(Initial(recoverable), past) && Enabled(Run(Initial(recoverable), past), e)
    ensures var s := Run(Initial(recoverable), past); var t := Apply(s, e);
      && OnScript(Steps(past), s.stage)
      && (e == CheckPrepared ==> t.stage == if Marks(past) then Finished else Configuring)
      && (e == CheckConfigured ==> t.stage == if Marks(past) then Finished else Saving)
      && (e == GuardRead ==> t.stage.Decided? && t.stage.pending == !Marks(past))
  {
    FromStart(recoverable, past);
    hide Run, CanRun, Marks, Steps, OnScript, Follows, StatusAfter, ExitChoice, Base;
  }

  // ---- The script can be followed ----

  /** Where the script leads when nothing else runs; k counts its steps without a failed spawn. */
  function Followed(recoverable: bool, retried: bool, k: nat): State {
    var start := Initial(recoverable);
    var spawned := start.(handles := [false]);
    var managed := spawned.(manager := Some(0), watched := Some(0));
    if k == 0 then start
    else if k == 1 then start.(stage := Prepared)
    else if k == 2 then start.(stage := Configuring)
    else if k == 3 then start.(stage := Configured)
    else if k == 4 then start.(stage := Saving)
    else if k == 5 then start.(stage := Spawning(retried))
    else if k == 6 then spawned.(stage := Spawned(0))
    else if k == 7 then spawned.(stage := Decided(0, true))
    else if k == 8 then managed.(stage := Registered)
    else managed.(stage := Finished, status := Running)
  }

  predicate Leads(recoverable: bool, events: seq<Event>, t: State) {
    CanRun(Initial(recoverable), events) && Run(Initial(recoverable), events) == t
  }

  lemma LeadsOn(recoverable: bool, events: seq<Event>, s: State, e: Event)
    requires Leads(recoverable, events, s) && Enabled(s, e)
    ensures Leads(recoverable, events + [e], Apply(s, e))
  {
    hide Enabled, Apply;
    RunOne(s, e, []);
    assert [e] + [] == [e];
    RunAppend(Initial(recoverable), events, [e]);
  }

  lemma {:induction false} FollowEarly(recoverable: bool, k: nat)
    requires k <= 5
    ensures Leads(recoverable, Script(false)[..k], Followed(recoverable, false, k))
  {
    if k > 0 {
      FollowEarly(recoverable, k - 1);
      assert Script(false)[..k] == Script(false)[..k - 1] + [Script(false)[k - 1]];
      LeadsOn(recoverable, Script(false)[..k - 1], Followed(recoverable, false, k - 1), Script(false)[k - 1]);
      hide Leads;
    }
  }

  function Failures(retried: bool): nat { if retried then 1 else 0 }

  lemma {:induction false} FollowLate(recoverable: bool, retried: bool, k: nat)
    requires 5 <= k <= 9
    ensures k + Failures(retried) <= |Script(retried)|
    ensures Leads(recoverable, Script(retried)[..k + Failures(retried)], Followed(recoverable, retried, k))
  {
    hide Leads;
    if k == 5 {
      FollowEarly(recoverable, 5);
      if retried {
        assert Script(retried)[..6] == Script(false)[..5] + [SpawnFails(true)];
        LeadsOn(recoverable, Script(false)[..5], Followed(recoverable, false, 5), SpawnFails(true));
      }
    } else {
      var n := k + Failures(retried);
      FollowLate(recoverable, retried, k - 1);
      FollowStep(recoverable, retried, k);
      var S := Script(retried);
      hide Script, Followed;
      assert S[..n] == S[..n - 1] + [S[n - 1]];
      LeadsOn(recoverable, S[..n - 1], Followed(recoverable, retried, k - 1), S[n - 1]);
    }
  }

  lemma FollowStep(recoverable: bool, retried: bool, k: nat)
    requires 5 < k <= 9
    ensures k + Failures(retried) <= |Script(retried)|
    ensures var s, e := Followed(recoverable, retried, k - 1), Script(retried)[k + Failures(retried) - 1];
      Enabled(s, e) && Apply(s, e) == Followed(recoverable, retried, k)
  {
    assert Script(retried)[k + Failures(retried) - 1] ==
      if k == 6 then SpawnSucceeds else if k == 7 then GuardRead else if k == 8 then GuardActs else WriteRunning;
  }

  /** The whole script can run and ends with a running row; so can each that breaks, and ends with a failed one. */
  lemma ScriptsRun(recoverable: bool, retried: bool, broken: seq<Event>)
    ensures Leads(recoverable, Script(retried), Followed(recoverable, retried, 9))
    ensures Broken(broken) ==>
      CanRun(Initial(recoverable), broken + [MarkFailed])
      && Run(Initial(recoverable), broken + [MarkFailed]).status == Failed
  {
    FollowLate(recoverable, retried, 9);
    assert Script(retried)[..9 + Failures(retried)] == Script(retried);
    if Broken(broken) { BreakLeads(recoverable, broken); }
  }

  /** The step fails there, and the failure is reported. */
  lemma BreakAt(recoverable: bool, front: seq<Event>, s: State, e: Event)
    requires Leads(recoverable, front, s) && Enabled(s, e) && Apply(s, e) == Initial(recoverable).(stage := Failing)
    ensures Leads(recoverable, front + [e] + [MarkFailed], Initial(recoverable).(stage := Finished, status := Failed))
  {
    hide Leads;
    LeadsOn(recoverable, front, s, e);
    LeadsOn(recoverable, front + [e], Initial(recoverable).(stage := Failing), MarkFailed);
  }

  lemma ScriptLength()
    ensures |Script(false)| == 9 && |Script(true)| == 10
  {
  }

  lemma BreakLeads(recoverable: bool, broken: seq<Event>)
    requires Broken(broken)
    ensures Leads(recoverable, broken + [MarkFailed], Initial(recoverable).(stage := Finished, status := Failed))
  {
    hide Leads, Script;
    ScriptLength();
    if broken == [PrepareEnds(false)] {
      FollowEarly(recoverable, 0);
      BreakAt(recoverable, [], Followed(recoverable, false, 0), PrepareEnds(false));
      assert [] + [PrepareEnds(false)] == broken;
      assert Script(false)[..0] == [];
    } else if broken == Script(false)[..2] + [ConfigureEnds(false)] {
      FollowEarly(recoverable, 2);
      BreakAt(recoverable, Script(false)[..2], Followed(recoverable, false, 2), ConfigureEnds(false));
    } else if broken == Script(false)[..5] + [SpawnFails(false)] {
      FollowLate(recoverable, false, 5);
      BreakAt(recoverable, Script(false)[..5], Followed(recoverable, false, 5), SpawnFails(false));
    } else {
      FollowLate(recoverable, true, 5);
      BreakAt(recoverable, Script(true)[..6], Followed(recoverable, true, 5), broken[|broken| - 1]);
    }
  }
}
