/** Which runs of provisioning and deletes leave an entry, or a live handle, behind. */
module ProvisioningLeaks {
  // This is read off the steps of the run, for every run, with an atomic guard or without.

  import opened Wrappers
  import opened Provisioning

  // ---- The pattern in the steps ----

  predicate MarkedBefore(events: seq<Event>, n: nat) {
    exists j :: 0 <= j < n && j < |events| && events[j].MarkExited?
  }

  /** Before position n the guard was read, with no row marked as exited before that read. */
  predicate Granted(events: seq<Event>, n: nat) {
    exists g :: 0 <= g < n && g < |events| && events[g] == GuardRead && !MarkedBefore(events, g)
  }

  /** The guard acted on such an answer at i, which registered the handle. */
  predicate RegisteredAt(events: seq<Event>, i: nat) {
    i < |events| && events[i] == GuardActs && Granted(events, i)
  }

  /** After position i no delete removed the entry, nor, if asked, killed the handle. */
  predicate ClearAfter(events: seq<Event>, i: nat, kills: bool) {
    forall j | i < j < |events| :: !events[j].RemoveEntry? && !(kills && events[j].KillLive?)
  }

  /** The handle was registered, and no delete removed the entry after that. */
  ghost predicate EntryStays(events: seq<Event>) {
    exists i: nat :: RegisteredAt(events, i) && ClearAfter(events, i, false)
  }

  /** The handle was registered, and no delete killed it or removed the entry after that. */
  ghost predicate HandleStays(events: seq<Event>) {
    exists i: nat :: RegisteredAt(events, i) && ClearAfter(events, i, true)
  }

  // ---- One more step ----

  lemma MarkedSnoc(events: seq<Event>, e: Event, n: nat)
    requires n <= |events|
    ensures MarkedBefore(events + [e], n) == MarkedBefore(events, n)
  {
    var more := events + [e];
    assert forall j | 0 <= j < n :: more[j] == events[j];
  }

  lemma GrantedSnoc(events: seq<Event>, e: Event, n: nat)
    requires n <= |events|
    ensures Granted(events + [e], n) == Granted(events, n)
  {
    var more := events + [e];
    forall g: nat | g < n ensures more[g] == events[g] && MarkedBefore(more, g) == MarkedBefore(events, g) {
      MarkedSnoc(events, e, g);
    }
  }

  lemma MarkedNow(events: seq<Event>, e: Event)
    ensures MarkedBefore(events + [e], |events| + 1) <==> MarkedBefore(events, |events|) || e.MarkExited?
  {
    var more := events + [e];
    assert more[|events|] == e && forall j | 0 <= j < |events| :: more[j] == events[j];
  }

  lemma GrantedNow(events: seq<Event>, e: Event)
    ensures Granted(events + [e], |events| + 1) <==>
      Granted(events, |events|) || (e == GuardRead && !MarkedBefore(events, |events|))
  {
    var more := events + [e];
    GrantedSnoc(events, e, |events|);
    MarkedSnoc(events, e, |events|);
    assert more[|events|] == e;
    if Granted(more, |events| + 1) && !Granted(more, |events|) {
      var g :| 0 <= g < |events| + 1 && more[g] == GuardRead && !MarkedBefore(more, g);
      assert g == |events|;
    }
  }

  lemma RegisteredSnoc(events: seq<Event>, e: Event, i: nat)
    ensures RegisteredAt(events + [e], i) <==>
      RegisteredAt(events, i) || (i == |events| && e == GuardActs && Granted(events, |events|))
  {
    if i <= |events| { GrantedSnoc(events, e, i); }
  }

  lemma ClearSnoc(events: seq<Event>, e: Event, i: nat, kills: bool)
    requires i <= |events|
    ensures ClearAfter(events + [e], i, kills) <==>
      i == |events| || (ClearAfter(events, i, kills) && !e.RemoveEntry? && !(kills && e.KillLive?))
  {
    var more := events + [e];
    assert more[|events|] == e && forall j | 0 <= j < |events| :: more[j] == events[j];
  }

  /** A removal ends an entry, a registration begins one, and nothing else matters. */
  lemma StaysSnoc(events: seq<Event>, e: Event, kills: bool)
    ensures (exists i: nat :: RegisteredAt(events + [e], i) && ClearAfter(events + [e], i, kills)) <==>
      || ((exists i: nat :: RegisteredAt(events, i) && ClearAfter(events, i, kills))
          && !e.RemoveEntry? && !(kills && e.KillLive?))
      || (e == GuardActs && Granted(events, |events|))
  {
    var more := events + [e];
    hide Granted, ClearAfter;
    forall i: nat | i <= |events| ensures
        && (RegisteredAt(more, i) <==>
              RegisteredAt(events, i) || (i == |events| && e == GuardActs && Granted(events, i)))
        && (ClearAfter(more, i, kills) <==>
              i == |events| || (ClearAfter(events, i, kills) && !e.RemoveEntry? && !(kills && e.KillLive?))) {
      RegisteredSnoc(events, e, i);
      ClearSnoc(events, e, i, kills);
    }
    assert forall i: nat | RegisteredAt(more, i) :: i <= |events|;
    assert forall i: nat | RegisteredAt(events, i) :: i < |events|;
    if e == GuardActs && Granted(events, |events|) {
      assert RegisteredAt(more, |events|) && ClearAfter(more, |events|, kills);
    }
  }

  // ---- The steps and the state ----

  predicate ManagesLive(s: State) {
    s.manager.Some? && s.manager.value < |s.handles| && !s.handles[s.manager.value]
  }

  /** What the state tells of the steps that led to it. */
  ghost predicate Follows(past: seq<Event>, s: State) {
    && (Early(s.stage) ==> (s.status == Pending <==> !MarkedBefore(past, |past|)))
    && (Early(s.stage) && !s.stage.Decided? ==> !Granted(past, |past|))
    && (s.stage.Decided? ==> (s.stage.pending <==> Granted(past, |past|)))
    && (s.stage.Spawned? || s.stage.Decided? ==> s.stage.handle < |s.handles| && !s.handles[s.stage.handle])
    && (s.manager.Some? <==> EntryStays(past))
    && (ManagesLive(s) <==> HandleStays(past))
  }

  lemma StepFollows(past: seq<Event>, s: State, e: Event)
    requires Base(s) && Enabled(s, e) && Follows(past, s)
    ensures Follows(past + [e], Apply(s, e))
  {
    MarkedNow(past, e);
    GrantedNow(past, e);
    StaysSnoc(past, e, false);
    StaysSnoc(past, e, true);
    hide MarkedBefore, Granted, RegisteredAt, ClearAfter;
    assert |past + [e]| == |past| + 1;
  }

  lemma {:induction false} RunFollows(past: seq<Event>, s: State, events: seq<Event>)
    requires Base(s) && CanRun(s, events) && Follows(past, s)
    ensures Follows(past + events, Run(s, events))
    decreases |events|
  {
    hide Base, Follows, Enabled, Apply;
    if events == [] {
      assert past + events == past;
    } else {
      var e := events[0];
      StepFollows(past, s, e);
      StepKeepsBase(s, e);
      RunFollows(past + [e], Apply(s, e), events[1..]);
      assert (past + [e]) + events[1..] == past + events;
    }
  }

  /**
   * Once provisioning has finished, the manager still has an entry if and only if the guard registered the handle
   * and no delete removed the entry after that; and some handle is not killed if and only if the guard registered
   * the handle and no delete killed it or removed the entry after that. The guard registers the handle just when no
   * delete had marked the row before the guard read it.
   */
  lemma LeaksExactly(recoverable: bool, events: seq<Event>)
    requires CanRun(Initial(recoverable), events) && Run(Initial(recoverable), events).stage == Finished
    ensures var s := Run(Initial(recoverable), events);
      && (s.manager.Some? <==> EntryStays(events))
      && ((exists h :: 0 <= h < |s.handles| && !s.handles[h]) <==> HandleStays(events))
  {
    RunKeepsBase(Initial(recoverable), events);
    assert !EntryStays([]) && !HandleStays([]);
    RunFollows([], Initial(recoverable), events);
    assert [] + events == events;
    hide Run, CanRun, EntryStays, HandleStays, StatusFits;
  }

  // ---- Runs that show where the guarantees end ----

  lemma RunOne(s: State, e: Event, rest: seq<Event>)
    requires Enabled(s, e) && CanRun(Apply(s, e), rest)
    ensures CanRun(s, [e] + rest) && Run(s, [e] + rest) == Run(Apply(s, e), rest)
    ensures AtomicRun(s, [e] + rest) <==> Atomic(s, e) && AtomicRun(Apply(s, e), rest)
  {
    hide Enabled, Apply;
    assert ([e] + rest)[1..] == rest;
  }

  lemma {:induction false} RunAppend(s: State, first: seq<Event>, second: seq<Event>)
    requires CanRun(s, first) && CanRun(Run(s, first), second)
    ensures CanRun(s, first + second) && Run(s, first + second) == Run(Run(s, first), second)
    ensures AtomicRun(s, first + second) <==> AtomicRun(s, first) && AtomicRun(Run(s, first), second)
    decreases |first|
  {
    hide Enabled, Apply, Atomic;
    if first == [] {
      assert first + second == second;
    } else {
      RunAppend(Apply(s, first[0]), first[1..], second);
      assert (first + second)[1..] == first[1..] + second;
    }
  }

  lemma RunTwo(s: State, e: Event, f: Event, t: State)
    requires Enabled(s, e) && Enabled(Apply(s, e), f) && Apply(Apply(s, e), f) == t
    ensures CanRun(s, [e, f]) && Run(s, [e, f]) == t
    ensures AtomicRun(s, [e, f]) <==> Atomic(s, e) && Atomic(Apply(s, e), f)
  {
    hide Enabled, Apply, Atomic;
    RunOne(Apply(s, e), f, []);
    RunOne(s, e, [f]);
    assert [e] + [f] == [e, f] && [f] + [] == [f];
  }

  // A spawn, a delete between the guard read and its continuation, and the end of provisioning.
  const L0 := Initial(true)
  const P1 := [PrepareEnds(true), CheckPrepared]
  const L1 := L0.(stage := Configuring)
  const P2 := [ConfigureEnds(true), CheckConfigured]
  const L2 := L0.(stage := Saving)
  const P3 := [SaveWorkspace, SpawnSucceeds]
  const L3 := L0.(stage := Spawned(0), handles := [false])
  const P4 := [GuardRead, RequestDelete]
  const L4 := L3.(stage := Decided(0, true), deletions := [Marking])
  const P5 := [MarkExited(0), KillLive(0)]
  const L5 := L4.(status := Exited, deletions := [Removing])
  const P6 := [RemoveEntry(0), GuardActs]
  const L6 := L5.(stage := Registered, deletions := [Deleted], manager := Some(0), watched := Some(0))
  const P7 := [WriteRunning]
  const L7 := L6.(stage := Finished, status := Running)

  lemma LeakStep1() ensures CanRun(L0, P1) && AtomicRun(L0, P1) && Run(L0, P1) == L1 {
    RunTwo(L0, PrepareEnds(true), CheckPrepared, L1);
  }

  lemma LeakStep2() ensures CanRun(L1, P2) && AtomicRun(L1, P2) && Run(L1, P2) == L2 {
    RunTwo(L1, ConfigureEnds(true), CheckConfigured, L2);
  }

  lemma LeakStep3() ensures CanRun(L2, P3) && AtomicRun(L2, P3) && Run(L2, P3) == L3 {
    RunTwo(L2, SaveWorkspace, SpawnSucceeds, L3);
  }

  lemma LeakStep4() ensures CanRun(L3, P4) && Run(L3, P4) == L4 {
    RunTwo(L3, GuardRead, RequestDelete, L4);
  }

  lemma LeakStep5() ensures CanRun(L4, P5) && Run(L4, P5) == L5 {
    RunTwo(L4, MarkExited(0), KillLive(0), L5);
  }

  lemma LeakStep6() ensures CanRun(L5, P6) && Run(L5, P6) == L6 {
    RunTwo(L5, RemoveEntry(0), GuardActs, L6);
  }

  lemma LeakStep7() ensures CanRun(L6, P7) && Run(L6, P7) == L7 {
    RunOne(L6, WriteRunning, []);
    assert P7 == [WriteRunning] + [];
  }

  /** An atomic guard is needed: this run ends with a live handle, its entry, and a running row after a delete. */
  lemma SplitGuardLeaks()
    ensures var events := P1 + P2 + P3 + P4 + P5 + P6 + P7;
      && CanRun(Initial(true), events)
      && var t := Run(Initial(true), events);
        && t.stage == Finished && Deleted in t.deletions && t.status == Running
        && t.manager == Some(0) && 0 < |t.handles| && !t.handles[0]
  {
    LeakStep1(); LeakStep2(); LeakStep3(); LeakStep4(); LeakStep5(); LeakStep6(); LeakStep7();
    hide CanRun, Run, AtomicRun;
    RunAppend(L0, P1, P2);
    RunAppend(L0, P1 + P2, P3);
    RunAppend(L0, P1 + P2 + P3, P4);
    RunAppend(L0, P1 + P2 + P3 + P4, P5);
    RunAppend(L0, P1 + P2 + P3 + P4 + P5, P6);
    RunAppend(L0, P1 + P2 + P3 + P4 + P5 + P6, P7);
  }

  // The agent exits before the delete, and its exit callback writes after it.
  const Q4 := [GuardRead, GuardActs]
  const M4 := L3.(stage := Registered, manager := Some(0), watched := Some(0))
  const Q5 := [WriteRunning, AgentExits]
  const M5 := M4.(stage := Finished, status := Running, exitSeen := true, exitWrite := Some(Idle))
  const Q6 := [RequestDelete, MarkExited(0)]
  const M6 := M5.(status := Exited, deletions := [Killing])
  const Q7 := [KillLive(0), RemoveEntry(0)]
  const M7 := M6.(handles := [true], manager := None, deletions := [Deleted])

  lemma IdleStep4() ensures CanRun(L3, Q4) && AtomicRun(L3, Q4) && Run(L3, Q4) == M4 {
    RunTwo(L3, GuardRead, GuardActs, M4);
  }

  lemma IdleStep5() ensures CanRun(M4, Q5) && AtomicRun(M4, Q5) && Run(M4, Q5) == M5 {
    RunTwo(M4, WriteRunning, AgentExits, M5);
  }

  lemma IdleStep6() ensures CanRun(M5, Q6) && AtomicRun(M5, Q6) && Run(M5, Q6) == M6 {
    RunTwo(M5, RequestDelete, MarkExited(0), M6);
  }

  lemma IdleStep7() ensures CanRun(M6, Q7) && AtomicRun(M6, Q7) && Run(M6, Q7) == M7 {
    RunTwo(M6, KillLive(0), RemoveEntry(0), M7);
  }

  predicate Leads(s: State, events: seq<Event>, t: State) {
    CanRun(s, events) && AtomicRun(s, events) && Run(s, events) == t
  }

  lemma LeadsOn(s: State, first: seq<Event>, t: State, second: seq<Event>, u: State)
    requires Leads(s, first, t) && Leads(t, second, u)
    ensures Leads(s, first + second, u)
  {
    hide CanRun, Run, AtomicRun;
    RunAppend(s, first, second);
  }

  lemma IdleIsDue()
    ensures M7.stage == Finished && Deleted in M7.deletions && M7.status == Exited && M7.exitWrite == Some(Idle)
    ensures Enabled(M7, WriteExit) && Apply(M7, WriteExit).status == Idle
  {
    assert M7.deletions[0] == Deleted;
  }

  /** A finished delete need not be final: in this run, with an atomic guard, the exit callback then writes `idle`. */
  lemma ExitCallbackOverwrites()
    ensures Reached(M7, true, P1 + P2 + P3 + Q4 + Q5 + Q6 + Q7)
    ensures M7.stage == Finished && Deleted in M7.deletions && M7.status == Exited && M7.exitWrite == Some(Idle)
    ensures Enabled(M7, WriteExit) && Apply(M7, WriteExit).status == Idle
  {
    hide CanRun, Run, AtomicRun, Enabled, Apply;
    IdleIsDue();
    LeakStep1(); LeakStep2(); LeakStep3(); IdleStep4(); IdleStep5(); IdleStep6(); IdleStep7();
    LeadsOn(L0, P1, L1, P2, L2);
    LeadsOn(L0, P1 + P2, L2, P3, L3);
    LeadsOn(L0, P1 + P2 + P3, L3, Q4, M4);
    LeadsOn(L0, P1 + P2 + P3 + Q4, M4, Q5, M5);
    LeadsOn(L0, P1 + P2 + P3 + Q4 + Q5, M5, Q6, M6);
    LeadsOn(L0, P1 + P2 + P3 + Q4 + Q5 + Q6, M6, Q7, M7);
  }
}
