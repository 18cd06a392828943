/** The answers of singleflight, told by the events of a run. */
module SingleflightAnswers {
  import opened Singleflight
  import opened Wrappers

  // ---- What the events say ----

  /** The flight that a call with the key would join: the last one, unless it is cleaned up. */
  function OpenFlight(events: seq<Event>, key: string): Option<nat> {
    if events == [] then None
    else
      var past, e := events[..|events| - 1], events[|events| - 1];
      match e
      case Call(k) =>
        if k == key && OpenFlight(past, key).None? then Some(|Keys(past)|) else OpenFlight(past, key)
      case Cleanup(f) => if OpenFlight(past, key) == Some(f) then None else OpenFlight(past, key)
      case _ => OpenFlight(past, key)
  }

  /** The keys of the flights, in the order of their numbers. */
  function Keys(events: seq<Event>): seq<string> {
    if events == [] then []
    else
      var past, e := events[..|events| - 1], events[|events| - 1];
      Keys(past) + (if e.Call? && OpenFlight(past, e.key).None? then [e.key] else [])
  }

  /** The flights of the callers, in the order of their calls. */
  function Joined(events: seq<Event>): seq<nat> {
    if events == [] then []
    else
      var past, e := events[..|events| - 1], events[|events| - 1];
      Joined(past)
      + (if !e.Call? then []
         else if OpenFlight(past, e.key).Some? then [OpenFlight(past, e.key).value]
         else [|Keys(past)|])
  }

  /** The function of the flight has ended. */
  ghost predicate Ended(events: seq<Event>, f: nat) {
    exists o :: Settle(f, o) in events
  }

  // ---- Every step keeps it ----

  ghost predicate TellsFlight(past: seq<Event>, s: State, f: nat)
    requires f < |s.flights| == |Keys(past)|
  {
    && s.flights[f].key == Keys(past)[f]
    && (s.flights[f].phase == Scheduled <==> Start(f) !in past)
    && (forall o :: s.flights[f].phase == Settled(o) <==> Settle(f, o) in past)
    && (s.flights[f].cleaned <==> Cleanup(f) in past)
  }

  predicate TellsCaller(past: seq<Event>, s: State, c: nat)
    requires c < |s.callers| == |Joined(past)|
  {
    s.callers[c].flight == Joined(past)[c] && (s.callers[c].received.Some? <==> Deliver(c) in past)
  }

  ghost predicate NoFlight(past: seq<Event>, f: nat) {
    Start(f) !in past && Cleanup(f) !in past && !Ended(past, f)
  }

  ghost predicate TellsFlights(past: seq<Event>, s: State) {
    && |s.flights| == |Keys(past)|
    && (forall f | 0 <= f < |s.flights| :: TellsFlight(past, s, f))
    && (forall f: nat | f >= |s.flights| :: NoFlight(past, f))
    && (forall key :: OpenFlight(past, key) == if key in s.inflight then Some(s.inflight[key]) else None)
  }

  ghost predicate TellsCallers(past: seq<Event>, s: State) {
    && |s.callers| == |Joined(past)|
    && (forall c | 0 <= c < |s.callers| :: TellsCaller(past, s, c))
    && (forall c: nat | c >= |s.callers| :: Deliver(c) !in past)
  }

  lemma Snoc(past: seq<Event>, e: Event)
    ensures Keys(past + [e]) == Keys(past) + (if e.Call? && OpenFlight(past, e.key).None? then [e.key] else [])
    ensures Joined(past + [e]) == Joined(past)
      + (if !e.Call? then []
         else if OpenFlight(past, e.key).Some? then [OpenFlight(past, e.key).value]
         else [|Keys(past)|])
    ensures forall f :: f in past + [e] <==> f in past || f == e
  {
    assert (past + [e])[..|past|] == past;
  }

  lemma OpenSnoc(past: seq<Event>, e: Event, key: string)
    ensures OpenFlight(past + [e], key) ==
      match e
      case Call(k) =>
        if k == key && OpenFlight(past, key).None? then Some(|Keys(past)|) else OpenFlight(past, key)
      case Cleanup(f) => if OpenFlight(past, key) == Some(f) then None else OpenFlight(past, key)
      case _ => OpenFlight(past, key)
  {
    assert (past + [e])[..|past|] == past;
  }

  lemma OpenNow(past: seq<Event>, s: State, e: Event, key: string)
    requires Inv(s) && TellsFlights(past, s) && Enabled(s, e)
    ensures var t := Apply(s, e);
      OpenFlight(past + [e], key) == if key in t.inflight then Some(t.inflight[key]) else None
  {
    hide OpenFlight, Keys, CallersShare;
    OpenSnoc(past, e, key);
  }

  lemma FlightTold(past: seq<Event>, s: State, e: Event, f: nat)
    requires TellsFlights(past, s) && Enabled(s, e) && f < |Apply(s, e).flights| == |Keys(past + [e])|
    ensures TellsFlight(past + [e], Apply(s, e), f)
  {
    hide OpenFlight, Joined;
    Snoc(past, e);
    if f < |s.flights| {
      assert TellsFlight(past, s, f);
    } else {
      assert NoFlight(past, f);
    }
    hide Keys;
  }

  lemma FlightsNow(past: seq<Event>, s: State, e: Event)
    requires TellsFlights(past, s) && Enabled(s, e)
    ensures |s.flights| <= |Apply(s, e).flights| == |Keys(past + [e])|
  {
    hide Keys, OpenFlight, TellsFlight, NoFlight;
    Snoc(past, e);
  }

  lemma StillNone(past: seq<Event>, s: State, e: Event, f: nat)
    requires Enabled(s, e) && |Apply(s, e).flights| <= f && NoFlight(past, f)
    ensures NoFlight(past + [e], f)
  {
    hide Keys, OpenFlight, Joined;
    Snoc(past, e);
  }

  lemma StepTellsFlights(past: seq<Event>, s: State, e: Event)
    requires Inv(s) && TellsFlights(past, s) && Enabled(s, e)
    ensures TellsFlights(past + [e], Apply(s, e))
  {
    hide Keys, OpenFlight, EntriesAreFlights, CallersShare, TellsFlight, NoFlight, Enabled, Apply;
    var t := Apply(s, e);
    FlightsNow(past, s, e);
    forall f | 0 <= f < |t.flights| ensures TellsFlight(past + [e], t, f) { FlightTold(past, s, e, f); }
    forall f: nat | f >= |t.flights| ensures NoFlight(past + [e], f) {
      assert NoFlight(past, f);
      StillNone(past, s, e, f);
    }
    forall key ensures OpenFlight(past + [e], key) == if key in t.inflight then Some(t.inflight[key]) else None {
      OpenNow(past, s, e, key);
    }
  }

  lemma StepTellsCallers(past: seq<Event>, s: State, e: Event)
    requires TellsFlights(past, s) && TellsCallers(past, s) && Enabled(s, e)
    ensures TellsCallers(past + [e], Apply(s, e))
  {
    hide Keys, OpenFlight, Joined;
    var t := Apply(s, e);
    Snoc(past, e);
    forall c | 0 <= c < |t.callers| ensures TellsCaller(past + [e], t, c) {
      if c < |s.callers| { assert TellsCaller(past, s, c); }
    }
  }

  lemma {:induction false} RunTells(past: seq<Event>, s: State, events: seq<Event>)
    requires Inv(s) && TellsFlights(past, s) && TellsCallers(past, s) && CanRun(s, events)
    ensures TellsFlights(past + events, Run(s, events)) && TellsCallers(past + events, Run(s, events))
    ensures Inv(Run(s, events))
    decreases |events|
  {
    hide Inv, TellsFlights, TellsCallers, Enabled, Apply;
    if events == [] {
      assert past + events == past;
    } else {
      var e := events[0];
      StepTellsFlights(past, s, e);
      StepTellsCallers(past, s, e);
      StepKeepsInv(s, e);
      RunTells(past + [e], Apply(s, e), events[1..]);
      assert (past + [e]) + events[1..] == past + events;
    }
  }

  lemma FromStart(events: seq<Event>)
    requires CanRun(INITIAL, events)
    ensures var s := Run(INITIAL, events); TellsFlights(events, s) && TellsCallers(events, s) && Inv(s)
  {
    RunTells([], INITIAL, events);
    assert [] + events == events;
  }

  // ---- Results ----

  /**
   * In every run a caller is answered exactly once its answer was delivered, and with the outcome of the flight that
   * it joined: the open one of its key at the time of the call, or else a new one. A flight has one outcome at most.
   */
  lemma AnswersExactly(events: seq<Event>, c: nat, o: Outcome, other: Outcome)
    requires CanRun(INITIAL, events) && c < |Joined(events)|
    ensures var s := Run(INITIAL, events);
      && |s.callers| == |Joined(events)|
      && (s.callers[c].received == Some(o) <==> Deliver(c) in events && Settle(Joined(events)[c], o) in events)
      && (Settle(Joined(events)[c], o) in events && Settle(Joined(events)[c], other) in events ==> o == other)
  {
    FromStart(events);
    var s := Run(INITIAL, events);
    hide Run, CanRun, Keys, Joined, OpenFlight, EntriesAreFlights;
    assert TellsCaller(events, s, c);
    assert TellsFlight(events, s, Joined(events)[c]);
  }

  /**
   * What can follow a run: a flight starts, ends with any outcome and is cleaned up, once each and in this order; and
   * its callers are answered after its cleanup, once each.
   */
  lemma NextExactly(events: seq<Event>, f: nat, o: Outcome, c: nat)
    requires CanRun(INITIAL, events)
    ensures var s := Run(INITIAL, events);
      && (Enabled(s, Start(f)) <==> f < |Keys(events)| && Start(f) !in events)
      && (Enabled(s, Settle(f, o)) <==> Start(f) in events && !Ended(events, f))
      && (Enabled(s, Cleanup(f)) <==> Ended(events, f) && Cleanup(f) !in events)
      && (Enabled(s, Deliver(c)) <==>
            c < |Joined(events)| && Cleanup(Joined(events)[c]) in events && Deliver(c) !in events)
  {
    FromStart(events);
    var s := Run(INITIAL, events);
    hide Run, CanRun, Keys, Joined, OpenFlight;
    FlightCan(events, s, f, o);
    CallerCan(events, s, c);
  }

  lemma FlightCan(events: seq<Event>, s: State, f: nat, o: Outcome)
    requires TellsFlights(events, s) && Inv(s)
    ensures Enabled(s, Start(f)) <==> f < |Keys(events)| && Start(f) !in events
    ensures Enabled(s, Settle(f, o)) <==> Start(f) in events && !Ended(events, f)
    ensures Enabled(s, Cleanup(f)) <==> Ended(events, f) && Cleanup(f) !in events
  {
    hide Keys, OpenFlight, CallersShare;
    if f < |s.flights| {
      assert TellsFlight(events, s, f);
      if s.flights[f].phase.Settled? {
        assert Settle(f, s.flights[f].phase.outcome) in events;
      }
    } else {
      assert NoFlight(events, f);
    }
  }

  lemma CallerCan(events: seq<Event>, s: State, c: nat)
    requires TellsFlights(events, s) && TellsCallers(events, s) && Inv(s)
    ensures Enabled(s, Deliver(c)) <==>
      c < |Joined(events)| && Cleanup(Joined(events)[c]) in events && Deliver(c) !in events
  {
    hide Keys, OpenFlight, Joined;
    if c < |s.callers| {
      assert TellsCaller(events, s, c);
      assert TellsFlight(events, s, s.callers[c].flight);
    }
  }
}
