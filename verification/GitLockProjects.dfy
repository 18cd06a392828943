/** Calls of the git lock for different projects. */
module GitLockProjects {
  import opened GitLock
  import opened Wrappers

  /** The projects that the calls were made for, in order; no project is the empty one. */
  function Projects(events: seq<Event>): seq<string> {
    if events == [] then []
    else
      var past, e := events[..|events| - 1], events[|events| - 1];
      Projects(past)
      + (if e.Lock? then [if e.projectId == None then "" else e.projectId.value] else [])
  }

  /** The callbacks that made the calls, in the order of the calls. */
  function Contexts(events: seq<Event>): seq<Option<nat>> {
    if events == [] then []
    else
      var past, e := events[..|events| - 1], events[|events| - 1];
      Contexts(past) + (if e.Lock? then [e.context] else [])
  }

  /** The code is run by a call for the project, by a call that such a call made, and so on. */
  predicate RunBy(projects: seq<string>, contexts: seq<Option<nat>>, context: Option<nat>, project: string)
    decreases if context.Some? then context.value + 1 else 0
  {
    && context.Some? && context.value < |projects| && context.value < |contexts|
    && (|| projects[context.value] == project
        || (&& contexts[context.value].Some? && contexts[context.value].value < context.value
            && RunBy(projects, contexts, contexts[context.value], project)))
  }

  /** The call is made by code that runs for its project already. */
  predicate IsNested(events: seq<Event>, c: nat)
    requires c < |Projects(events)| && c < |Contexts(events)|
  {
    RunBy(Projects(events), Contexts(events), Contexts(events)[c], Projects(events)[c])
  }

  /** Which calls have begun, settled and released their tail. */
  predicate TellsCall(past: seq<Event>, s: State, c: nat)
    requires c < |s.calls| == |Projects(past)| == |Contexts(past)|
  {
    && s.calls[c].key == Projects(past)[c] && s.calls[c].parent == Contexts(past)[c]
    && (s.calls[c].phase == Waiting <==> Start(c) !in past)
    && (s.calls[c].phase == Settled(true) <==> Settle(c, true) in past)
    && (s.calls[c].phase == Settled(false) <==> Settle(c, false) in past)
    && (s.calls[c].tailSettled <==> SettleTail(c) in past)
    && (s.calls[c].cleaned <==> Cleanup(c) in past)
  }

  ghost predicate Tells(past: seq<Event>, s: State) {
    && |s.calls| == |Projects(past)| == |Contexts(past)|
    && (forall c | 0 <= c < |s.calls| :: TellsCall(past, s, c))
    && (forall c: nat | c >= |s.calls| :: NoStepsOf(past, c))
  }

  predicate NoStepsOf(past: seq<Event>, c: nat) {
    && Start(c) !in past && Settle(c, true) !in past && Settle(c, false) !in past
    && SettleTail(c) !in past && Cleanup(c) !in past
  }

  lemma Snoc(past: seq<Event>, e: Event)
    ensures Projects(past + [e]) ==
      Projects(past) + (if e.Lock? then [if e.projectId == None then "" else e.projectId.value] else [])
    ensures Contexts(past + [e]) == Contexts(past) + (if e.Lock? then [e.context] else [])
    ensures forall f :: f in past + [e] <==> f in past || f == e
  {
    assert (past + [e])[..|past|] == past;
  }

  lemma StepsSnoc(past: seq<Event>, e: Event, c: nat)
    ensures var more := past + [e];
      && (Start(c) in more <==> Start(c) in past || e == Start(c))
      && (Settle(c, true) in more <==> Settle(c, true) in past || e == Settle(c, true))
      && (Settle(c, false) in more <==> Settle(c, false) in past || e == Settle(c, false))
      && (SettleTail(c) in more <==> SettleTail(c) in past || e == SettleTail(c))
      && (Cleanup(c) in more <==> Cleanup(c) in past || e == Cleanup(c))
  {
    hide Projects, Contexts;
    Snoc(past, e);
  }

  lemma StepTells(past: seq<Event>, s: State, e: Event)
    requires Tells(past, s) && Enabled(s, e)
    ensures Tells(past + [e], Apply(s, e))
  {
    hide Projects, Contexts, HeldIn;
    var t := Apply(s, e);
    assert |t.calls| == |Projects(past + [e])| == |Contexts(past + [e])| by { Snoc(past, e); }
    forall c | 0 <= c < |t.calls| ensures TellsCall(past + [e], t, c) { CallTold(past, s, e, c); }
    forall c: nat | c >= |t.calls| ensures NoStepsOf(past + [e], c) {
      assert NoStepsOf(past, c);
      StepsSnoc(past, e, c);
    }
  }

  lemma CallTold(past: seq<Event>, s: State, e: Event, c: nat)
    requires Tells(past, s) && Enabled(s, e)
    requires c < |Apply(s, e).calls| == |Projects(past + [e])| == |Contexts(past + [e])|
    ensures TellsCall(past + [e], Apply(s, e), c)
  {
    hide HeldIn, ChildrenSettled;
    StepsSnoc(past, e, c);
    Snoc(past, e);
    if c < |s.calls| {
      assert TellsCall(past, s, c);
    } else {
      assert NoStepsOf(past, c);
    }
    hide Projects, Contexts;
  }

  lemma {:induction false} RunTells(past: seq<Event>, s: State, events: seq<Event>)
    requires Tells(past, s) && CanRun(s, events)
    ensures Tells(past + events, Run(s, events))
    decreases |events|
  {
    hide Tells, Enabled, Apply;
    if events == [] {
      assert past + events == past;
    } else {
      StepTells(past, s, events[0]);
      RunTells(past + [events[0]], Apply(s, events[0]), events[1..]);
      assert (past + [events[0]]) + events[1..] == past + events;
    }
  }

  /**
   * Only calls of the same project, made before and with an unsettled tail, make a call wait: in every run a call
   * that has not started can start when there is none.
   */
  lemma OtherProjectsNeverWait(events: seq<Event>, c: nat)
    requires CanRun(INITIAL, events) && c < |Projects(events)| && Start(c) !in events
    requires forall d | 0 <= d < c && Projects(events)[d] == Projects(events)[c] :: SettleTail(d) in events
    ensures Enabled(Run(INITIAL, events), Start(c))
  {
    var s := Run(INITIAL, events);
    RunTells([], INITIAL, events);
    RunKeepsInv(INITIAL, events);
    assert [] + events == events;
    hide Projects, Contexts, Run, CanRun, Nested, Chained, Ordered, TailsLast, FlagsSettled;
    assert TellsCall(events, s, c);
    if s.calls[c].previous.Some? {
      var p := s.calls[c].previous.value;
      assert SameLock(s.calls, c, p) && TellsCall(events, s, p);
    }
  }

  /** And a section never overlaps an earlier one of its project: when it has started, the earlier have settled. */
  lemma SameProjectWaits(events: seq<Event>, c: nat, d: nat)
    requires CanRun(INITIAL, events) && d < c < |Projects(events)| && Projects(events)[d] == Projects(events)[c]
    requires Start(c) in events
    requires var calls := Run(INITIAL, events).calls; c < |calls| ==> calls[c].Outer() && calls[d].Outer()
    ensures Settle(d, true) in events || Settle(d, false) in events
  {
    var s := Run(INITIAL, events);
    RunTells([], INITIAL, events);
    assert [] + events == events;
    assert TellsCall(events, s, c) && TellsCall(events, s, d);
    FirstComeFirstServed(events, c, d);
  }

  // ---- Nesting, and what can follow a run ----

  lemma {:induction false} HeldIsRunBy(calls: seq<Call>, projects: seq<string>, contexts: seq<Option<nat>>,
                                       context: Option<nat>, project: string)
    requires |projects| == |contexts| == |calls|
    requires forall c | 0 <= c < |calls| :: calls[c].key == projects[c] && calls[c].parent == contexts[c]
    requires context.Some? ==> context.value < |calls|
    ensures project in HeldIn(calls, context) <==> RunBy(projects, contexts, context, project)
    decreases if context.Some? then context.value + 1 else 0
  {
    if context.Some? {
      var c := context.value;
      if contexts[c].Some? && contexts[c].value < c { HeldIsRunBy(calls, projects, contexts, contexts[c], project); }
    }
  }

  lemma NestedIs(events: seq<Event>, s: State, c: nat)
    requires Tells(events, s) && Nested(s.calls) && c < |s.calls|
    ensures s.calls[c].nested <==> IsNested(events, c)
  {
    hide Projects, Contexts, RunBy;
    forall d | 0 <= d < |s.calls|
      ensures s.calls[d].key == Projects(events)[d] && s.calls[d].parent == Contexts(events)[d]
    {
      assert TellsCall(events, s, d);
    }
    var parent := s.calls[c].parent;
    HeldIsRunBy(s.calls, Projects(events), Contexts(events), parent, s.calls[c].key);
    if parent.Some? { HeldOfPrefix(s.calls, c, parent.value); }
  }

  predicate HasSettled(events: seq<Event>, c: nat) {
    Settle(c, true) in events || Settle(c, false) in events
  }

  /**
   * What can follow a run: a callback settles, either way, once it has started and the calls it made have settled;
   * the tail of an outermost call settles after it and its cleanup runs after it, each once. A call that was made by
   * code running for its project already can start at once.
   */
  lemma NextExactly(events: seq<Event>, c: nat, rejected: bool)
    requires CanRun(INITIAL, events) && c < |Projects(events)|
    ensures |Contexts(events)| == |Projects(events)|
    ensures var s := Run(INITIAL, events);
      && (Enabled(s, Settle(c, rejected)) <==>
            && Start(c) in events && !HasSettled(events, c)
            && forall d | 0 <= d < |Contexts(events)| && Contexts(events)[d] == Some(c) :: HasSettled(events, d))
      && (Enabled(s, SettleTail(c)) <==> !IsNested(events, c) && HasSettled(events, c) && SettleTail(c) !in events)
      && (Enabled(s, Cleanup(c)) <==> !IsNested(events, c) && HasSettled(events, c) && Cleanup(c) !in events)
      && (IsNested(events, c) ==> (Enabled(s, Start(c)) <==> Start(c) !in events))
  {
    var s := Run(INITIAL, events);
    RunTells([], INITIAL, events);
    RunKeepsInv(INITIAL, events);
    assert [] + events == events;
    hide Run, CanRun, Projects, Contexts, Chained, Ordered, TailsLast, FlagsSettled, IsNested;
    NestedIs(events, s, c);
    CallCan(events, s, c, rejected);
  }

  lemma SettledIs(events: seq<Event>, s: State, c: nat)
    requires Tells(events, s) && c < |s.calls|
    ensures s.calls[c].phase.Settled? <==> HasSettled(events, c)
  {
    assert TellsCall(events, s, c);
    if s.calls[c].phase.Settled? { assert s.calls[c].phase == Settled(true) || s.calls[c].phase == Settled(false); }
  }

  lemma CallCan(events: seq<Event>, s: State, c: nat, rejected: bool)
    requires Tells(events, s) && c < |s.calls| && (s.calls[c].nested ==> s.calls[c].previous.None?)
    ensures Enabled(s, Settle(c, rejected)) <==>
      && Start(c) in events && !HasSettled(events, c)
      && forall d | 0 <= d < |Contexts(events)| && Contexts(events)[d] == Some(c) :: HasSettled(events, d)
    ensures Enabled(s, SettleTail(c)) <==>
      !s.calls[c].nested && HasSettled(events, c) && SettleTail(c) !in events
    ensures Enabled(s, Cleanup(c)) <==> !s.calls[c].nested && HasSettled(events, c) && Cleanup(c) !in events
    ensures s.calls[c].nested ==> (Enabled(s, Start(c)) <==> Start(c) !in events)
  {
    hide Projects, Contexts, HasSettled;
    forall d | 0 <= d < |s.calls|
      ensures s.calls[d].phase.Settled? <==> HasSettled(events, d)
      ensures s.calls[d].parent == Contexts(events)[d]
    {
      SettledIs(events, s, d);
      assert TellsCall(events, s, d);
    }
    assert TellsCall(events, s, c);
  }
}
