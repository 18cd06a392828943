/** One session of server.js as a step machine. */
module Provisioning {
  // The asynchronous provisioning block of /session/start, any number of DELETE requests, and the exit callback of the
  // agent process, interleaved at every await.

  import opened Wrappers

  datatype Status = Pending | Running | Exited | Failed | Idle

  /**
   * Where provisioning stands. Decided holds the answer of the guard read before its continuation runs; Registered
   * has created the manager entry and is about to write `running`; Failing is about to call markSessionFailed.
   */
  datatype Stage =
    | Preparing
    | Prepared
    | Configuring
    | Configured
    | Saving
    | Spawning(retried: bool)
    | Spawned(handle: nat)
    | Decided(handle: nat, pending: bool)
    | Registered
    | Failing
    | Finished

  /** One DELETE request: the row read, marked `exited`, the live handle killed and waited for, the entry deleted. */
  datatype Deletion = Marking | Killing | Removing | Deleted

  /**
   * `handles` says of each spawned handle whether it was killed, `manager` is the session manager's entry, `watched`
   * the handle whose exit callback is registered, `exitWrite` the status that callback is about to write.
   */
  datatype State = State(status: Status, stage: Stage, handles: seq<bool>, manager: Option<nat>, watched: Option<nat>,
                         exitSeen: bool, exitWrite: Option<Status>, deletions: seq<Deletion>, recoverable: bool)

  /** The row has just been inserted as pending. */
  function Initial(recoverable: bool): State {
    State(Pending, Preparing, [], None, None, false, None, [], recoverable)
  }

  datatype Event =
    | PrepareEnds(ok: bool)
    | CheckPrepared
    | ConfigureEnds(ok: bool)
    | CheckConfigured
    | SaveWorkspace
    | SpawnSucceeds
    | SpawnFails(recreated: bool)
    | GuardRead
    | GuardActs
    | WriteRunning
    | MarkFailed
    | AgentExits
    | WriteExit
    | RequestDelete
    | MarkExited(deletion: nat)
    | KillLive(deletion: nat)
    | RemoveEntry(deletion: nat)

  predicate Enabled(s: State, e: Event) {
    match e
    case PrepareEnds(_) => s.stage == Preparing
    case CheckPrepared => s.stage == Prepared
    case ConfigureEnds(_) => s.stage == Configuring
    case CheckConfigured => s.stage == Configured
    case SaveWorkspace => s.stage == Saving
    case SpawnSucceeds => s.stage.Spawning?
    case SpawnFails(_) => s.stage.Spawning?
    case GuardRead => s.stage.Spawned?
    case GuardActs => s.stage.Decided? && s.stage.handle < |s.handles|
    case WriteRunning => s.stage == Registered
    case MarkFailed => s.stage == Failing
    case AgentExits => s.watched.Some? && !s.exitSeen
    case WriteExit => s.exitWrite.Some?
    case RequestDelete => true
    case MarkExited(d) => d < |s.deletions| && s.deletions[d] == Marking
    case KillLive(d) => d < |s.deletions| && s.deletions[d] == Killing
    case RemoveEntry(d) => d < |s.deletions| && s.deletions[d] == Removing
  }

  function Kill(handles: seq<bool>, h: nat): seq<bool> {
    if h < |handles| then handles[h := true] else handles
  }

  function KillManaged(s: State): State {
    if s.manager.Some? then s.(handles := Kill(s.handles, s.manager.value)) else s
  }

  function Apply(s: State, e: Event): State
    requires Enabled(s, e)
  {
    match e
    case PrepareEnds(ok) => s.(stage := if ok then Prepared else Failing)
    case CheckPrepared => s.(stage := if s.status == Pending then Configuring else Finished)
    case ConfigureEnds(ok) => s.(stage := if ok then Configured else Failing)
    case CheckConfigured => s.(stage := if s.status == Pending then Saving else Finished)
    case SaveWorkspace => s.(stage := Spawning(false))
    case SpawnSucceeds => s.(handles := s.handles + [false], stage := Spawned(|s.handles|))
    // The runtime is recreated and the spawn tried once more.
    case SpawnFails(recreated) => s.(stage := if recreated && !s.stage.retried then Spawning(true) else Failing)
    case GuardRead => s.(stage := Decided(s.stage.handle, s.status == Pending))
    case GuardActs =>
      if s.stage.pending then
        s.(manager := Some(s.stage.handle), watched := Some(s.stage.handle), exitSeen := false, stage := Registered)
      else s.(handles := Kill(s.handles, s.stage.handle), stage := Finished)
    case WriteRunning => s.(status := Running, stage := Finished)
    case MarkFailed => s.(status := if s.status in {Pending, Running} then Failed else s.status, stage := Finished)
    // The listener asks the manager for the session: idle when it is there and recoverable.
    case AgentExits =>
      s.(exitSeen := true, exitWrite := Some(if s.manager.Some? && s.recoverable then Idle else Exited))
    case WriteExit => s.(status := s.exitWrite.value, exitWrite := None)
    case RequestDelete => s.(deletions := s.deletions + [Marking])
    case MarkExited(d) => s.(status := Exited, deletions := s.deletions[d := Killing])
    case KillLive(d) => KillManaged(s).(deletions := s.deletions[d := Removing])
    case RemoveEntry(d) => KillManaged(s).(manager := None, deletions := s.deletions[d := Deleted])
  }

  /** The guard read and its continuation are one step. */
  predicate Atomic(s: State, e: Event) {
    s.stage.Decided? ==> e == GuardActs
  }

  // ---- The invariant ----

  /** Before the entry is created. */
  predicate Early(stage: Stage) {
    stage != Registered && stage != Finished
  }

  /** A handle that is not killed is awaiting the guard, or in the manager. */
  predicate HandlesOwned(s: State) {
    && (s.stage.Spawned? || s.stage.Decided? ==> s.stage.handle < |s.handles|)
    && (s.manager.Some? ==> s.manager.value < |s.handles|)
    && (forall h | 0 <= h < |s.handles| && !s.handles[h] ::
          ((s.stage.Spawned? || s.stage.Decided?) && s.stage.handle == h) || s.manager == Some(h))
  }

  /** Which stages go with which status, entry and exit callback; a deletion past its mark has ended `pending`. */
  predicate StatusFits(s: State) {
    && (Early(s.stage) ==> s.manager.None? && s.watched.None?)
    && (s.watched.None? ==> !s.exitSeen && s.exitWrite.None? && s.manager.None?)
    && (s.exitWrite.Some? ==> s.exitSeen && s.exitWrite.value in {Idle, Exited})
    && (s.status == Running ==> s.stage == Finished)
    && (s.status == Idle ==> !Early(s.stage))
    && (s.status == Failed ==> s.stage == Finished && s.watched.None?)
    && (forall d | 0 <= d < |s.deletions| && s.deletions[d] != Marking :: s.status != Pending)
  }

  /** What every step keeps, whether or not the guard is atomic. */
  predicate Base(s: State) {
    HandlesOwned(s) && StatusFits(s)
  }

  /** A guard that answered `pending` is still right, and a deletion that is done has left no entry. */
  predicate GuardHolds(s: State) {
    && (s.stage.Decided? && s.stage.pending ==> s.status == Pending)
    && forall d | 0 <= d < |s.deletions| && s.deletions[d] == Deleted :: s.manager.None?
  }

  predicate Inv(s: State) {
    Base(s) && GuardHolds(s)
  }

  lemma StepKeepsHandles(s: State, e: Event)
    requires Base(s) && Enabled(s, e)
    ensures HandlesOwned(Apply(s, e))
  {
  }

  lemma StepKeepsStatus(s: State, e: Event)
    requires Base(s) && Enabled(s, e)
    ensures StatusFits(Apply(s, e))
  {
    hide HandlesOwned;
  }

  /** Every step of every interleaving keeps the basic invariant. */
  lemma StepKeepsBase(s: State, e: Event)
    requires Base(s) && Enabled(s, e)
    ensures Base(Apply(s, e))
  {
    StepKeepsHandles(s, e);
    StepKeepsStatus(s, e);
    hide HandlesOwned, StatusFits, Enabled, Apply;
  }

  /** Every step of every interleaving keeps the invariant, when the guard is atomic. */
  lemma StepKeepsInv(s: State, e: Event)
    requires Inv(s) && Enabled(s, e) && Atomic(s, e)
    ensures Inv(Apply(s, e))
  {
    StepKeepsBase(s, e);
    StepKeepsGuard(s, e);
    hide Base, GuardHolds, Enabled, Apply;
  }

  lemma StepKeepsGuard(s: State, e: Event)
    requires Inv(s) && Enabled(s, e) && Atomic(s, e)
    ensures GuardHolds(Apply(s, e))
  {
    hide HandlesOwned;
  }

  // ---- Whole runs ----

  predicate CanRun(s: State, events: seq<Event>)
    decreases |events|
  {
    events == [] || (Enabled(s, events[0]) && CanRun(Apply(s, events[0]), events[1..]))
  }

  function Run(s: State, events: seq<Event>): State
    requires CanRun(s, events)
    decreases |events|
  {
    if events == [] then s else Run(Apply(s, events[0]), events[1..])
  }

  predicate AtomicRun(s: State, events: seq<Event>)
    requires CanRun(s, events)
    decreases |events|
  {
    events == [] || (Atomic(s, events[0]) && AtomicRun(Apply(s, events[0]), events[1..]))
  }

  lemma {:induction false} RunKeepsInv(s: State, events: seq<Event>)
    requires Inv(s) && CanRun(s, events) && AtomicRun(s, events)
    ensures Inv(Run(s, events))
    decreases |events|
  {
    hide Inv, Enabled, Apply, Atomic;
    if events != [] {
      StepKeepsInv(s, events[0]);
      RunKeepsInv(Apply(s, events[0]), events[1..]);
    }
  }

  /** A state that provisioning and deletes can bring about. */
  predicate Reached(s: State, recoverable: bool, events: seq<Event>) {
    CanRun(Initial(recoverable), events) && AtomicRun(Initial(recoverable), events) &&
        Run(Initial(recoverable), events) == s
  }

  lemma ReachedInv(s: State, recoverable: bool, events: seq<Event>)
    requires Reached(s, recoverable, events)
    ensures Inv(s)
  {
    RunKeepsInv(Initial(recoverable), events);
  }

  lemma {:induction false} RunKeepsBase(s: State, events: seq<Event>)
    requires Base(s) && CanRun(s, events)
    ensures Base(Run(s, events))
    decreases |events|
  {
    hide Base, Enabled, Apply;
    if events != [] {
      StepKeepsBase(s, events[0]);
      RunKeepsBase(Apply(s, events[0]), events[1..]);
    }
  }

  // ---- No handle is left behind ----

  /**
   * In every run, once provisioning has finished, every handle that was not killed is that of the manager's entry.
   * When the guard is atomic and a delete has finished as well, every handle was killed and there is no entry.
   */
  lemma NoHandleLeaks(recoverable: bool, events: seq<Event>)
    requires CanRun(Initial(recoverable), events) && Run(Initial(recoverable), events).stage == Finished
    ensures var s := Run(Initial(recoverable), events);
      && (forall h | 0 <= h < |s.handles| && !s.handles[h] :: s.manager == Some(h))
      && (AtomicRun(Initial(recoverable), events) && Deleted in s.deletions ==>
            s.manager == None && forall h | 0 <= h < |s.handles| :: s.handles[h])
  {
    RunKeepsBase(Initial(recoverable), events);
    if AtomicRun(Initial(recoverable), events) { RunKeepsInv(Initial(recoverable), events); }
    hide Run, CanRun, AtomicRun, StatusFits;
  }

  /** A delete that was marked before the spawn stops provisioning: nothing of it reaches the manager. */
  lemma MarkedDeleteStopsProvisioning(s: State, recoverable: bool, events: seq<Event>, d: nat, e: Event)
    requires Reached(s, recoverable, events) && Enabled(s, e) && Atomic(s, e)
    requires d < |s.deletions| && s.deletions[d] != Marking
    ensures Apply(s, e).manager == s.manager || Apply(s, e).manager == None
    ensures e == CheckPrepared || e == CheckConfigured ==> Apply(s, e).stage == Finished
    ensures e == GuardActs ==> Apply(s, e).stage == Finished && Apply(s, e).handles[s.stage.handle]
  {
    ReachedInv(s, recoverable, events);
    hide Reached;
  }

  // ---- Exited rows ----

  lemma StepNeverFails(s: State, e: Event)
    requires Base(s) && Enabled(s, e) && s.status != Pending && s.status != Failed
    ensures Apply(s, e).status != Failed && Apply(s, e).status != Pending
  {
    hide HandlesOwned;
  }

  lemma {:induction false} NotFailedFrom(s: State, events: seq<Event>)
    requires Base(s) && CanRun(s, events) && s.status != Pending && s.status != Failed
    ensures Run(s, events).status != Failed && Run(s, events).status != Pending
    decreases |events|
  {
    hide Base, Enabled, Apply;
    if events != [] {
      StepKeepsBase(s, events[0]);
      StepNeverFails(s, events[0]);
      NotFailedFrom(Apply(s, events[0]), events[1..]);
    }
  }

  /**
   * In every run, once a row is exited (or running, or idle) no later step turns it into failed, or back to pending.
   */
  lemma ExitedNeverFails(recoverable: bool, before: seq<Event>, after: seq<Event>)
    requires CanRun(Initial(recoverable), before) && CanRun(Run(Initial(recoverable), before), after)
    requires Run(Initial(recoverable), before).status in {Exited, Running, Idle}
    ensures Run(Run(Initial(recoverable), before), after).status in {Exited, Running, Idle}
  {
    RunKeepsBase(Initial(recoverable), before);
    NotFailedFrom(Run(Initial(recoverable), before), after);
  }

  /** Nothing is left that writes another status without looking at the row again. */
  predicate Settled(s: State) {
    && s.stage != Registered
    && !(s.stage.Decided? && s.stage.pending)
    && s.exitWrite != Some(Idle)
    && !(s.manager.Some? && !s.exitSeen && s.recoverable)
  }

  lemma StepStaysExited(s: State, e: Event)
    requires Base(s) && Enabled(s, e) && s.status == Exited && Settled(s)
    ensures Apply(s, e).status == Exited && Settled(Apply(s, e))
  {
    hide HandlesOwned;
  }

  lemma {:induction false} SettledStaysExited(s: State, events: seq<Event>)
    requires Base(s) && CanRun(s, events) && s.status == Exited && Settled(s)
    ensures Run(s, events).status == Exited
    decreases |events|
  {
    hide Base, Enabled, Apply, Settled;
    if events != [] {
      StepKeepsBase(s, events[0]);
      StepStaysExited(s, events[0]);
      SettledStaysExited(Apply(s, events[0]), events[1..]);
    }
  }

  /** The steps by which an unsettled row changes again. */
  function Disturbance(s: State): seq<Event> {
    if s.stage == Registered then [WriteRunning]
    else if s.stage.Decided? && s.stage.pending then [GuardActs, WriteRunning]
    else if s.exitWrite == Some(Idle) then [WriteExit]
    else [AgentExits, WriteExit]
  }

  lemma DisturbanceChanges(s: State)
    requires Base(s) && s.status == Exited && !Settled(s)
    ensures CanRun(s, Disturbance(s)) && Run(s, Disturbance(s)).status in {Running, Idle}
  {
    var d := Disturbance(s);
    if |d| == 1 {
      OneStep(s, d[0]);
    } else {
      var t := Apply(s, d[0]);
      OneStep(t, d[1]);
      assert d[1..] == [d[1]];
    }
  }

  lemma OneStep(s: State, e: Event)
    requires Enabled(s, e)
    ensures CanRun(s, [e]) && Run(s, [e]) == Apply(s, e)
  {
    hide Enabled, Apply;
    assert [e][1..] == [];
  }

  /**
   * In every run, an exited row stays exited in every continuation exactly when no unguarded write of `running` is
   * to come, and no exit callback of a live recoverable session is due or about to write `idle`.
   */
  lemma ExitedIsFinal(recoverable: bool, before: seq<Event>)
    requires CanRun(Initial(recoverable), before) && Run(Initial(recoverable), before).status == Exited
    ensures var s := Run(Initial(recoverable), before);
      (forall events | CanRun(s, events) :: Run(s, events).status == Exited) <==> Settled(s)
  {
    RunKeepsBase(Initial(recoverable), before);
    FinalIffSettled(Run(Initial(recoverable), before));
  }

  lemma FinalIffSettled(s: State)
    requires Base(s) && s.status == Exited
    ensures (forall events | CanRun(s, events) :: Run(s, events).status == Exited) <==> Settled(s)
  {
    hide Base, Settled;
    if Settled(s) {
      forall events | CanRun(s, events) ensures Run(s, events).status == Exited {
        SettledStaysExited(s, events);
      }
    } else {
      DisturbanceChanges(s);
    }
  }

  /**
   * When provisioning and a delete have finished, an exited row stays exited in every continuation exactly when no
   * exit callback is about to write `idle`.
   */
  lemma FinishedDeleteIsFinal(s: State, recoverable: bool, before: seq<Event>)
    requires Reached(s, recoverable, before) && s.stage == Finished && Deleted in s.deletions && s.status == Exited
    ensures (forall events | CanRun(s, events) :: Run(s, events).status == Exited) <==> s.exitWrite != Some(Idle)
  {
    ReachedInv(s, recoverable, before);
    hide Reached;
    FinalIffSettled(s);
    hide CanRun, Run;
  }

  // ---- The state of the source ----

  /** The session row, the manager's entry and the variables of the provisioning block and the delete handlers. */
  class Session {
    var status: Status
    var stage: Stage
    var handles: seq<bool>
    var manager: Option<nat>
    var watched: Option<nat>
    var exitSeen: bool
    var exitWrite: Option<Status>
    var deletions: seq<Deletion>
    const recoverable: bool

    ghost function Snapshot(): State
      reads this
    {
      State(status, stage, handles, manager, watched, exitSeen, exitWrite, deletions, recoverable)
    }

    ghost predicate Valid()
      reads this
    {
      Inv(Snapshot())
    }

    /** POST /session/start inserts the row as pending. */
    constructor (recoverable: bool)
      ensures Valid() && Snapshot() == Initial(recoverable)
    {
      status, stage, handles, manager, watched := Pending, Preparing, [], None, None;
      exitSeen, exitWrite, deletions := false, None, [];
      this.recoverable := recoverable;
    }

    /** ensureProjectRuntime returns or throws. */
    method EndPrepare(ok: bool)
      requires Valid() && stage == Preparing
      modifies this
      ensures Valid() && Snapshot() == Apply(old(Snapshot()), PrepareEnds(ok))
    {
      StepKeepsInv(Snapshot(), PrepareEnds(ok));
      stage := if ok then Prepared else Failing;
    }

    /** The state directory and the configuration files are written, or one of these steps throws. */
    method EndConfigure(ok: bool)
      requires Valid() && stage == Configuring
      modifies this
      ensures Valid() && Snapshot() == Apply(old(Snapshot()), ConfigureEnds(ok))
    {
      StepKeepsInv(Snapshot(), ConfigureEnds(ok));
      stage := if ok then Configured else Failing;
    }

    method SaveWorkspaceRow()
      requires Valid() && stage == Saving
      modifies this
      ensures Valid() && Snapshot() == Apply(old(Snapshot()), SaveWorkspace)
    {
      StepKeepsInv(Snapshot(), SaveWorkspace);
      stage := Spawning(false);
    }

    /** spawn returns a handle, or throws and is tried once more when the runtime could be recreated. */
    method EndSpawn(ok: bool, recreated: bool)
      requires Valid() && stage.Spawning?
      modifies this
      ensures Valid() && Snapshot() == Apply(old(Snapshot()), if ok then SpawnSucceeds else SpawnFails(recreated))
    {
      StepKeepsInv(Snapshot(), if ok then SpawnSucceeds else SpawnFails(recreated));
      hide Inv;
      if ok {
        stage := Spawned(|handles|);
        handles := handles + [false];
      } else if recreated && !stage.retried {
        stage := Spawning(true);
      } else {
        stage := Failing;
      }
    }

    /** isSessionStillPending, before and after the configuration steps. */
    method CheckStillPending()
      requires Valid() && stage in {Prepared, Configured}
      modifies this
      ensures Valid()
      ensures Snapshot() == Apply(old(Snapshot()), if old(stage) == Prepared then CheckPrepared else CheckConfigured)
    {
      StepKeepsInv(Snapshot(), if stage == Prepared then CheckPrepared else CheckConfigured);
      hide Inv;
      if status != Pending {
        stage := Finished;
        return;
      }
      stage := if stage == Prepared then Configuring else Saving;
    }

    /** The answer of the guard read. */
    method ReadGuard()
      requires Valid() && stage.Spawned?
      modifies this
      ensures Valid() && Snapshot() == Apply(old(Snapshot()), GuardRead)
    {
      StepKeepsInv(Snapshot(), GuardRead);
      hide Inv;
      stage := Decided(stage.handle, status == Pending);
    }

    /** Its continuation: the handle is killed, or handed to the manager with its exit callback. */
    method ActOnGuard()
      requires Valid() && stage.Decided?
      modifies this
      ensures Valid() && Snapshot() == Apply(old(Snapshot()), GuardActs)
    {
      StepKeepsInv(Snapshot(), GuardActs);
      hide GuardHolds, StatusFits;
      var h := stage.handle;
      if !stage.pending {
        handles := handles[h := true];
        stage := Finished;
        return;
      }
      manager, watched, exitSeen := Some(h), Some(h), false;
      stage := Registered;
    }

    method WriteRunningRow()
      requires Valid() && stage == Registered
      modifies this
      ensures Valid() && Snapshot() == Apply(old(Snapshot()), WriteRunning)
    {
      StepKeepsInv(Snapshot(), WriteRunning);
      status, stage := Running, Finished;
    }

    /** markSessionFailed: only a pending or running row is overwritten. */
    method MarkSessionFailed() returns (updated: bool)
      requires Valid() && stage == Failing
      modifies this
      ensures Valid() && Snapshot() == Apply(old(Snapshot()), MarkFailed)
      ensures updated <==> old(status) in {Pending, Running}
    {
      StepKeepsInv(Snapshot(), MarkFailed);
      updated := status == Pending || status == Running;
      if updated { status := Failed; }
      stage := Finished;
    }

    /** The listener of registerSessionLifecycle. */
    method OnAgentExit()
      requires Valid() && watched.Some? && !exitSeen && !stage.Decided?
      modifies this
      ensures Valid() && Snapshot() == Apply(old(Snapshot()), AgentExits)
    {
      StepKeepsInv(Snapshot(), AgentExits);
      exitSeen := true;
      var nextStatus := if manager.Some? && recoverable then Idle else Exited;
      exitWrite := Some(nextStatus);
    }

    method WriteExitStatus()
      requires Valid() && exitWrite.Some? && !stage.Decided?
      modifies this
      ensures Valid() && Snapshot() == Apply(old(Snapshot()), WriteExit)
    {
      StepKeepsInv(Snapshot(), WriteExit);
      status, exitWrite := exitWrite.value, None;
    }

    method BeginDelete() returns (d: nat)
      requires Valid() && !stage.Decided?
      modifies this
      ensures Valid() && Snapshot() == Apply(old(Snapshot()), RequestDelete) && d == old(|deletions|)
    {
      StepKeepsInv(Snapshot(), RequestDelete);
      d := |deletions|;
      deletions := deletions + [Marking];
    }

    /** The delete handler marks the row first. */
    method MarkDeleted(d: nat)
      requires Valid() && !stage.Decided? && d < |deletions| && deletions[d] == Marking
      modifies this
      ensures Valid() && Snapshot() == Apply(old(Snapshot()), MarkExited(d))
    {
      StepKeepsInv(Snapshot(), MarkExited(d));
      status, deletions := Exited, deletions[d := Killing];
    }

    /** The live handle, if the manager has one, is killed. */
    method KillLiveHandle(d: nat)
      requires Valid() && !stage.Decided? && d < |deletions| && deletions[d] == Killing
      modifies this
      ensures Valid() && Snapshot() == Apply(old(Snapshot()), KillLive(d))
    {
      StepKeepsInv(Snapshot(), KillLive(d));
      hide GuardHolds, StatusFits;
      if manager.Some? { handles := handles[manager.value := true]; }
      deletions := deletions[d := Removing];
    }

    /** sessionManager.deleteSession kills the handle of the entry once more and deletes it. */
    method DeleteSession(d: nat)
      requires Valid() && !stage.Decided? && d < |deletions| && deletions[d] == Removing
      modifies this
      ensures Valid() && Snapshot() == Apply(old(Snapshot()), RemoveEntry(d))
    {
      StepKeepsInv(Snapshot(), RemoveEntry(d));
      hide GuardHolds, StatusFits;
      if manager.Some? { handles := handles[manager.value := true]; }
      manager, deletions := None, deletions[d := Deleted];
    }
  }
}
