/** singleflight.js as a step machine. */
module Singleflight {
  // The steps are calls, starts and settlements of the shared operations, their cleanups, and the delivery of
  // outcomes to the callers, in any order.

  import opened Wrappers
  import opened Counting

  datatype Outcome = Fulfilled(value: int) | Rejected(error: int)

  datatype Phase = Scheduled | Running | Settled(outcome: Outcome)

  /** One call of `fn`, and whether the reaction that removes its entry has run. */
  datatype Flight = Flight(key: string, phase: Phase, cleaned: bool)

  /** One call of singleflight: it holds the promise of a flight. */
  datatype Caller = Caller(key: string, flight: nat, received: Option<Outcome>)

  datatype State = State(flights: seq<Flight>, inflight: map<string, nat>, callers: seq<Caller>)

  const INITIAL := State([], map[], [])

  datatype Event =
    | Call(key: string)
    | Start(flight: nat)
    | Settle(flight: nat, outcome: Outcome)
    | Cleanup(flight: nat)
    | Deliver(caller: nat)

  predicate Enabled(s: State, e: Event) {
    match e
    case Call(_) => true
    case Start(f) => f < |s.flights| && s.flights[f].phase == Scheduled
    case Settle(f, _) => f < |s.flights| && s.flights[f].phase == Running
    case Cleanup(f) => f < |s.flights| && s.flights[f].phase.Settled? && !s.flights[f].cleaned
    // The promise is the one returned by finally: it settles after the cleanup.
    case Deliver(c) =>
      && c < |s.callers| && s.callers[c].received.None?
      && s.callers[c].flight < |s.flights| && s.flights[s.callers[c].flight].cleaned
      && s.flights[s.callers[c].flight].phase.Settled?
  }

  function Apply(s: State, e: Event): State
    requires Enabled(s, e)
  {
    match e
    case Call(key) =>
      if key in s.inflight then s.(callers := s.callers + [Caller(key, s.inflight[key], None)])
      else State(s.flights + [Flight(key, Scheduled, false)], s.inflight[key := |s.flights|],
                 s.callers + [Caller(key, |s.flights|, None)])
    case Start(f) => s.(flights := s.flights[f := s.flights[f].(phase := Running)])
    case Settle(f, outcome) => s.(flights := s.flights[f := s.flights[f].(phase := Settled(outcome))])
    case Cleanup(f) =>
      s.(flights := s.flights[f := s.flights[f].(cleaned := true)], inflight := s.inflight - {s.flights[f].key})
    case Deliver(c) =>
      var outcome := s.flights[s.callers[c].flight].phase.outcome;
      s.(callers := s.callers[c := s.callers[c].(received := Some(outcome))])
  }

  // ---- The invariant ----

  /** The entries are exactly the flights that are not cleaned up. */
  predicate EntriesAreFlights(s: State) {
    && (forall key | key in s.inflight ::
          s.inflight[key] < |s.flights| && s.flights[s.inflight[key]].key == key && !s.flights[s.inflight[key]].cleaned)
    && (forall f | 0 <= f < |s.flights| ::
          if s.flights[f].cleaned then s.flights[f].phase.Settled?
          else s.flights[f].key in s.inflight && s.inflight[s.flights[f].key] == f)
  }

  predicate CallersShare(s: State) {
    forall c | 0 <= c < |s.callers| ::
      && s.callers[c].flight < |s.flights| && s.flights[s.callers[c].flight].key == s.callers[c].key
      && (s.callers[c].received.Some? ==>
            s.flights[s.callers[c].flight] == Flight(s.callers[c].key, Settled(s.callers[c].received.value), true))
  }

  predicate Inv(s: State) {
    EntriesAreFlights(s) && CallersShare(s)
  }

  lemma StepKeepsEntries(s: State, e: Event)
    requires Inv(s) && Enabled(s, e)
    ensures EntriesAreFlights(Apply(s, e))
  {
    hide CallersShare;
  }

  lemma StepKeepsCallers(s: State, e: Event)
    requires Inv(s) && Enabled(s, e)
    ensures CallersShare(Apply(s, e))
  {
  }

  /** Every step of every interleaving keeps the invariant. */
  lemma StepKeepsInv(s: State, e: Event)
    requires Inv(s) && Enabled(s, e)
    ensures Inv(Apply(s, e))
  {
    StepKeepsEntries(s, e);
    StepKeepsCallers(s, e);
    hide EntriesAreFlights, CallersShare, Enabled, Apply;
  }

  // ---- Whole runs ----

  predicate CanRun(s: State, events: seq<Event>)
    decreases |events|
  {
    events == [] || (Enabled(s, events[0]) && CanRun(Apply(s, events[0]), events[1..]))
  }

  function Run(s: State, events: seq<Event>): State
    requires CanRun(s, events)
    decreases |events|
  {
    if events == [] then s else Run(Apply(s, events[0]), events[1..])
  }

  lemma {:induction false} RunKeepsInv(s: State, events: seq<Event>)
    requires Inv(s) && CanRun(s, events)
    ensures Inv(Run(s, events))
    decreases |events|
  {
    hide Inv, Enabled, Apply;
    if events != [] {
      StepKeepsInv(s, events[0]);
      RunKeepsInv(Apply(s, events[0]), events[1..]);
    }
  }

  /** At any time, at most one function per key is between its call and its cleanup, hence at most one runs. */
  lemma OneFlightPerKey(events: seq<Event>, f: nat, g: nat)
    requires CanRun(INITIAL, events)
    requires var flights := Run(INITIAL, events).flights;
      f < |flights| && g < |flights| && flights[f].key == flights[g].key && !flights[f].cleaned && !flights[g].cleaned
    ensures f == g
  {
    RunKeepsInv(INITIAL, events);
  }

  lemma RunningFlightsDiffer(events: seq<Event>, f: nat, g: nat)
    requires CanRun(INITIAL, events)
    requires var flights := Run(INITIAL, events).flights;
      f < |flights| && g < |flights| && f != g && flights[f].phase == Running == flights[g].phase
    ensures Run(INITIAL, events).flights[f].key != Run(INITIAL, events).flights[g].key
  {
    RunKeepsInv(INITIAL, events);
  }

  /**
   * The cleanup deletes by key alone, and yet what it removes is the entry of its own flight; the entries of all
   * other flights stay.
   */
  lemma CleanupRemovesItsOwnEntry(events: seq<Event>, f: nat)
    requires CanRun(INITIAL, events) && Enabled(Run(INITIAL, events), Cleanup(f))
    ensures var s := Run(INITIAL, events); var t := Apply(s, Cleanup(f)); var key := s.flights[f].key;
      && key in s.inflight && s.inflight[key] == f && key !in t.inflight
      && forall k | k != key ::
          (k in t.inflight <==> k in s.inflight) && (k in t.inflight ==> t.inflight[k] == s.inflight[k])
  {
    RunKeepsInv(INITIAL, events);
  }

  // ---- What a caller is given ----

  /** A flight, once made, keeps its key; its outcome, once there, is final; callers keep their flight. */
  predicate Extends(s: State, t: State) {
    && |s.flights| <= |t.flights| && |s.callers| <= |t.callers|
    && (forall f | 0 <= f < |s.flights| ::
          && t.flights[f].key == s.flights[f].key
          && (s.flights[f].phase.Settled? ==> t.flights[f].phase == s.flights[f].phase)
          && (s.flights[f].cleaned ==> t.flights[f].cleaned))
    && (forall c | 0 <= c < |s.callers| ::
          t.callers[c].key == s.callers[c].key && t.callers[c].flight == s.callers[c].flight)
  }

  lemma {:induction false} RunExtends(s: State, events: seq<Event>)
    requires CanRun(s, events)
    ensures Extends(s, Run(s, events))
    decreases |events|
  {
    if events != [] {
      var t := Apply(s, events[0]);
      assert Extends(s, t);
      hide Enabled, Apply;
      RunExtends(t, events[1..]);
    }
  }

  /**
   * A call joins the flight of its key exactly when one is not cleaned up yet, and then no function of its own is
   * ever run; otherwise it makes a new flight. What it is given at any later time is that flight's outcome.
   */
  lemma CallersGetTheirFlight(before: seq<Event>, key: string, after: seq<Event>)
    requires CanRun(INITIAL, before) && CanRun(Apply(Run(INITIAL, before), Call(key)), after)
    ensures var s := Run(INITIAL, before); var u := Apply(s, Call(key)); var t := Run(u, after); var c := |s.callers|;
      && c < |u.callers| <= |t.callers| && t.callers[c].flight == u.callers[c].flight < |t.flights|
      && (forall f | 0 <= f < |s.flights| && s.flights[f].key == key && !s.flights[f].cleaned ::
            t.callers[c].flight == f && |u.flights| == |s.flights|)
      && ((forall f | 0 <= f < |s.flights| && s.flights[f].key == key :: s.flights[f].cleaned) ==>
            t.callers[c].flight == |s.flights| && |u.flights| == |s.flights| + 1)
      && (t.callers[c].received.Some? ==> t.flights[t.callers[c].flight].phase == Settled(t.callers[c].received.value))
  {
    var s := Run(INITIAL, before);
    var u := Apply(s, Call(key));
    RunKeepsInv(INITIAL, before);
    StepKeepsInv(s, Call(key));
    RunKeepsInv(u, after);
    RunExtends(u, after);
  }

  /** Callers of one flight never see different outcomes, however far apart they are answered. */
  lemma SharersAgree(events: seq<Event>, c: nat, d: nat)
    requires CanRun(INITIAL, events)
    requires var callers := Run(INITIAL, events).callers;
      && c < |callers| && d < |callers| && callers[c].flight == callers[d].flight
      && callers[c].received.Some? && callers[d].received.Some?
    ensures var callers := Run(INITIAL, events).callers;
      callers[c].received == callers[d].received && callers[c].key == callers[d].key
  {
    RunKeepsInv(INITIAL, events);
  }

  // ---- Progress ----

  function FlightWork(f: Flight): nat {
    match f.phase
    case Scheduled => 3
    case Running => 2
    case Settled(_) => if f.cleaned then 0 else 1
  }

  function CallerWork(c: Caller): nat {
    if c.received.None? then 1 else 0
  }

  function Work(s: State): nat { Total(s.flights, FlightWork) + Total(s.callers, CallerWork) }

  lemma ReactionUsesWork(s: State, e: Event)
    requires Inv(s) && Enabled(s, e) && !e.Call?
    ensures Work(Apply(s, e)) == Work(s) - 1
  {
    hide Total;
    match e
    case Start(f) => TotalOfUpdate(s.flights, f, s.flights[f].(phase := Running), FlightWork);
    case Settle(f, outcome) => TotalOfUpdate(s.flights, f, s.flights[f].(phase := Settled(outcome)), FlightWork);
    case Cleanup(f) => TotalOfUpdate(s.flights, f, s.flights[f].(cleaned := true), FlightWork);
    case Deliver(c) =>
      var outcome := s.flights[s.callers[c].flight].phase.outcome;
      TotalOfUpdate(s.callers, c, s.callers[c].(received := Some(outcome)), CallerWork);
  }

  lemma {:induction false} RunUsesWork(s: State, events: seq<Event>)
    requires Inv(s) && CanRun(s, events) && forall e | e in events :: !e.Call?
    ensures Inv(Run(s, events)) && Work(Run(s, events)) == Work(s) - |events|
    decreases |events|
  {
    hide Inv, Work;
    if events != [] {
      var e := events[0];
      assert !e.Call?;
      ReactionUsesWork(s, e);
      StepKeepsInv(s, e);
      RunUsesWork(Apply(s, e), events[1..]);
    }
  }

  /**
   * When functions settle and no new call comes, at most Work steps are possible, and when none is left every
   * caller has its outcome and the map is empty.
   */
  lemma EverybodyIsAnswered(before: seq<Event>, reactions: seq<Event>)
    requires CanRun(INITIAL, before) && CanRun(Run(INITIAL, before), reactions)
    requires forall e | e in reactions :: !e.Call?
    ensures var s := Run(INITIAL, before); var t := Run(s, reactions);
      && |reactions| <= Work(s)
      && ((forall e: Event | !e.Call? :: !Enabled(t, e)) ==>
            t.inflight == map[] && forall c | 0 <= c < |t.callers| :: t.callers[c].received.Some?)
  {
    RunKeepsInv(INITIAL, before);
    var s := Run(INITIAL, before);
    RunUsesWork(s, reactions);
    var t := Run(s, reactions);
    hide Run, CanRun, Work;
    if forall e: Event | !e.Call? :: !Enabled(t, e) {
      NothingLeft(t);
    }
  }

  lemma NothingLeft(t: State)
    requires Inv(t) && forall e: Event | !e.Call? :: !Enabled(t, e)
    ensures t.inflight == map[] && forall c | 0 <= c < |t.callers| :: t.callers[c].received.Some?
  {
    forall f | 0 <= f < |t.flights| ensures t.flights[f].cleaned {
      assert !Enabled(t, Start(f)) && !Enabled(t, Settle(f, Fulfilled(0))) && !Enabled(t, Cleanup(f));
    }
    assert forall key :: key !in t.inflight;
    forall c | 0 <= c < |t.callers| ensures t.callers[c].received.Some? {
      assert !Enabled(t, Deliver(c));
    }
  }

  // ---- The module state of the source ----

  /** `inflight`, the flights its promises stand for, and the callers that hold those promises. */
  class SharedFlights {
    var inflight: map<string, nat>
    var flights: seq<Flight>
    var callers: seq<Caller>

    ghost function Snapshot(): State
      reads this
    {
      State(flights, inflight, callers)
    }

    ghost predicate Valid()
      reads this
    {
      Inv(Snapshot())
    }

    constructor ()
      ensures Valid() && Snapshot() == INITIAL
    {
      inflight, flights, callers := map[], [], [];
    }

    /** singleflight(key, fn) */
    method Singleflight(key: string) returns (promise: nat)
      requires Valid()
      modifies this
      ensures Valid() && Snapshot() == Apply(old(Snapshot()), Call(key))
      ensures promise < |flights| && flights[promise].key == key && !flights[promise].cleaned
      ensures key in old(inflight) ==> promise == old(inflight[key]) && flights == old(flights)
    {
      StepKeepsInv(Snapshot(), Call(key));
      if key in inflight {
        promise := inflight[key];
      } else {
        promise := |flights|;
        flights := flights + [Flight(key, Scheduled, false)];
        inflight := inflight[key := promise];
      }
      callers := callers + [Caller(key, promise, None)];
    }

    method StartFunction(flight: nat)
      requires Valid() && Enabled(Snapshot(), Start(flight))
      modifies this
      ensures Valid() && Snapshot() == Apply(old(Snapshot()), Start(flight))
    {
      StepKeepsInv(Snapshot(), Start(flight));
      flights := flights[flight := flights[flight].(phase := Running)];
    }

    method SettleFunction(flight: nat, outcome: Outcome)
      requires Valid() && Enabled(Snapshot(), Settle(flight, outcome))
      modifies this
      ensures Valid() && Snapshot() == Apply(old(Snapshot()), Settle(flight, outcome))
    {
      StepKeepsInv(Snapshot(), Settle(flight, outcome));
      flights := flights[flight := flights[flight].(phase := Settled(outcome))];
    }

    /** The reaction of finally: `inflight.delete(key)`, whatever the entry is. */
    method RunCleanup(flight: nat)
      requires Valid() && Enabled(Snapshot(), Cleanup(flight))
      modifies this
      ensures Valid() && Snapshot() == Apply(old(Snapshot()), Cleanup(flight))
      ensures old(inflight) == inflight[flights[flight].key := flight]
    {
      StepKeepsInv(Snapshot(), Cleanup(flight));
      inflight := inflight - {flights[flight].key};
      flights := flights[flight := flights[flight].(cleaned := true)];
    }

    method DeliverOutcome(caller: nat)
      requires Valid() && Enabled(Snapshot(), Deliver(caller))
      modifies this
      ensures Valid() && Snapshot() == Apply(old(Snapshot()), Deliver(caller))
    {
      StepKeepsInv(Snapshot(), Deliver(caller));
      var outcome := flights[callers[caller].flight].phase.outcome;
      callers := callers[caller := callers[caller].(received := Some(outcome))];
    }
  }
}
