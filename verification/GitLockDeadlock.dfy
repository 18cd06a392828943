/** The git lock when callbacks call it for other projects too. */
module GitLockDeadlock {
  // Exactly a cycle of calls that wait for each other is fatal.

  import opened GitLock
  import opened Wrappers

  /** A queued call waits for the call it is chained on, a running callback for the calls it made. */
  predicate Waits(calls: seq<Call>, c: nat, d: nat) {
    && c < |calls| && d < |calls| && !calls[d].phase.Settled?
    && ((calls[c].phase == Waiting && calls[c].previous == Some(d))
        || (calls[c].phase == Running && calls[d].parent == Some(c)))
  }

  predicate Cycle(calls: seq<Call>, w: seq<nat>) {
    w != [] && forall i | 0 <= i < |w| :: Waits(calls, w[i], w[Next(w, i)])
  }

  function Next(w: seq<nat>, i: nat): (j: nat)
    requires i < |w|
    ensures j < |w|
  {
    if i + 1 < |w| then i + 1 else 0
  }

  ghost predicate Deadlocked(calls: seq<Call>) { exists w :: Cycle(calls, w) }

  // ---- A cycle stays ----

  lemma WaitingCannotMove(s: State, e: Event, c: nat, d: nat)
    requires Inv(s) && Enabled(s, e) && Waits(s.calls, c, d)
    ensures e.Lock? || e.call != c
  {
    hide Nested, Chained, Ordered, TailsLast, PreviousIsEarlier, HeldIn;
  }

  lemma StepKeepsCycle(s: State, e: Event, w: seq<nat>)
    requires Inv(s) && Enabled(s, e) && Cycle(s.calls, w)
    ensures Cycle(Apply(s, e).calls, w)
  {
    hide Inv;
    forall i | 0 <= i < |w| ensures Waits(Apply(s, e).calls, w[i], w[Next(w, i)]) {
      var j := Next(w, i);
      WaitingCannotMove(s, e, w[i], w[j]);
      WaitingCannotMove(s, e, w[j], w[Next(w, j)]);
      hide Enabled, HeldIn, KeyOf;
    }
  }

  /** The calls of a cycle never settle, whatever happens. */
  lemma {:induction false} CycleIsForever(s: State, events: seq<Event>, w: seq<nat>)
    requires Inv(s) && CanRun(s, events) && Cycle(s.calls, w)
    ensures Cycle(Run(s, events).calls, w)
    decreases |events|
  {
    hide Inv, Enabled, Apply, Cycle;
    if events != [] {
      StepKeepsInv(s, events[0]);
      StepKeepsCycle(s, events[0], w);
      CycleIsForever(Apply(s, events[0]), events[1..], w);
    }
  }

  // ---- Reactions make none ----

  lemma ReactionAddsNoWait(s: State, e: Event, c: nat, d: nat)
    requires Inv(s) && Enabled(s, e) && Internal(e) && Waits(Apply(s, e).calls, c, d)
    ensures Waits(s.calls, c, d)
  {
    hide Chained, Ordered, TailsLast, PreviousIsEarlier, HeldIn, Held;
  }

  lemma {:induction false} ReactionsAddNoCycle(s: State, events: seq<Event>, w: seq<nat>)
    requires Inv(s) && CanRun(s, events) && (forall e | e in events :: Internal(e)) && Cycle(Run(s, events).calls, w)
    ensures Cycle(s.calls, w)
    decreases |events|
  {
    hide Inv, Enabled, Apply, Waits;
    if events != [] {
      var e := events[0];
      assert Internal(e);
      StepKeepsInv(s, e);
      ReactionsAddNoCycle(Apply(s, e), events[1..], w);
      forall i | 0 <= i < |w| ensures Waits(s.calls, w[i], w[Next(w, i)]) {
        ReactionAddsNoWait(s, e, w[i], w[Next(w, i)]);
      }
    }
  }

  // ---- Without a reaction there is one ----

  lemma StuckWaits(t: State, c: nat) returns (d: nat)
    requires Inv(t) && (forall e | Internal(e) :: !Enabled(t, e)) && c < |t.calls| && !t.calls[c].phase.Settled?
    ensures Waits(t.calls, c, d)
  {
    hide Chained, Ordered, TailsLast, HeldIn;
    if t.calls[c].phase == Waiting {
      assert !Enabled(t, Start(c));
      d := t.calls[c].previous.value;
      assert SameLock(t.calls, c, d);
      assert !Enabled(t, SettleTail(d));
    } else {
      assert !Enabled(t, Settle(c, false));
      d :| d < |t.calls| && t.calls[d].parent == Some(c) && !t.calls[d].phase.Settled?;
    }
  }

  /** A path of calls each waiting for the next, no call twice. */
  predicate Path(calls: seq<Call>, path: seq<nat>) {
    && path != [] && (forall i | 0 <= i < |path| :: path[i] < |calls|)
    && (forall i, j | 0 <= i < j < |path| :: path[i] != path[j])
    && forall i | 0 <= i < |path| - 1 :: Waits(calls, path[i], path[i + 1])
  }

  lemma {:induction false} DistinctBelow(path: seq<nat>, n: nat)
    requires forall i | 0 <= i < |path| :: path[i] < n
    requires forall i, j | 0 <= i < j < |path| :: path[i] != path[j]
    ensures |path| <= n
  {
    if path != [] {
      assert path[0] < n;
      if n - 1 in path {
        var i :| 0 <= i < |path| && path[i] == n - 1;
        var rest := path[..i] + path[i + 1..];
        assert forall k | 0 <= k < |rest| :: rest[k] == path[if k < i then k else k + 1];
        DistinctBelow(rest, n - 1);
      } else {
        assert forall k | 0 <= k < |path| :: path[k] in path;
        DistinctBelow(path, n - 1);
      }
    }
  }

  lemma ClosePath(calls: seq<Call>, path: seq<nat>, i: nat)
    requires Path(calls, path) && i < |path| && Waits(calls, path[|path| - 1], path[i])
    ensures Cycle(calls, path[i..])
  {
    hide Waits;
    var w := path[i..];
    forall k | 0 <= k < |w| ensures Waits(calls, w[k], w[Next(w, k)]) {
      assert w[k] == path[i + k];
      if k + 1 < |w| { assert w[k + 1] == path[i + k + 1]; }
    }
  }

  lemma ExtendPath(calls: seq<Call>, path: seq<nat>, d: nat)
    requires Path(calls, path) && d !in path && Waits(calls, path[|path| - 1], d)
    ensures Path(calls, path + [d]) && |path| < |calls|
  {
    assert d < |calls|;
    hide Waits;
    var longer := path + [d];
    forall i | 0 <= i < |longer| - 1 ensures Waits(calls, longer[i], longer[i + 1]) {
      if i < |path| - 1 { assert longer[i] == path[i] && longer[i + 1] == path[i + 1]; }
    }
    DistinctBelow(longer, |calls|);
  }

  lemma {:induction false} PathClosesCycle(t: State, path: seq<nat>) returns (w: seq<nat>)
    requires Inv(t) && forall e | Internal(e) :: !Enabled(t, e)
    requires Path(t.calls, path) && !t.calls[path[|path| - 1]].phase.Settled?
    ensures Cycle(t.calls, w)
    decreases |t.calls| - |path|
  {
    var d := StuckWaits(t, path[|path| - 1]);
    assert !t.calls[d].phase.Settled?;
    hide Inv, Enabled, Waits, Path, Cycle;
    if d in path {
      var i :| 0 <= i < |path| && path[i] == d;
      ClosePath(t.calls, path, i);
      w := path[i..];
    } else {
      ExtendPath(t.calls, path, d);
      assert (path + [d])[|path|] == d;
      w := PathClosesCycle(t, path + [d]);
    }
  }

  /**
   * From any reachable state, whatever the nesting, a run of reactions ends; then every call has settled and is
   * cleaned up, and the map of tails is empty, if and only if no calls were waiting for each other in a cycle.
   */
  lemma FinishesExactlyWithoutCycle(before: seq<Event>, reactions: seq<Event>)
    requires CanRun(INITIAL, before) && CanRun(Run(INITIAL, before), reactions)
    requires forall e | e in reactions :: Internal(e)
    ensures var s := Run(INITIAL, before); var t := Run(s, reactions);
      && |reactions| <= Work(s.calls)
      && ((forall e | Internal(e) :: !Enabled(t, e)) ==>
            ((forall c | c in t.calls :: Done(c)) && t.tails == map[] <==> !Deadlocked(s.calls)))
  {
    var s := Run(INITIAL, before);
    RunKeepsInv(INITIAL, before);
    RunUsesWork(s, reactions);
    if forall e | Internal(e) :: !Enabled(Run(s, reactions), e) { StuckDecides(s, reactions); }
  }

  lemma StuckDecides(s: State, reactions: seq<Event>)
    requires Inv(s) && CanRun(s, reactions) && forall e | e in reactions :: Internal(e)
    requires forall e | Internal(e) :: !Enabled(Run(s, reactions), e)
    ensures var t := Run(s, reactions);
      (forall c | c in t.calls :: Done(c)) && t.tails == map[] <==> !Deadlocked(s.calls)
  {
    var t := Run(s, reactions);
    hide Inv, Enabled, Run, CanRun, Waits, Cycle, Done, Path;
    RunKeepsInv(s, reactions);
    if Deadlocked(s.calls) {
      var w :| Cycle(s.calls, w);
      CycleIsForever(s, reactions, w);
      CycleIsUnsettled(t.calls, w);
    } else {
      forall i | 0 <= i < |t.calls| ensures t.calls[i].phase.Settled? {
        if !t.calls[i].phase.Settled? {
          OnePath(t.calls, i);
          var w := PathClosesCycle(t, [i]);
          ReactionsAddNoCycle(s, reactions, w);
        }
      }
      SettledIsDone(t);
    }
  }

  lemma OnePath(calls: seq<Call>, i: nat)
    requires i < |calls|
    ensures Path(calls, [i])
  {
  }

  lemma CycleIsUnsettled(calls: seq<Call>, w: seq<nat>)
    requires Cycle(calls, w)
    ensures exists c :: c in calls && !Done(c)
  {
    assert Waits(calls, w[0], w[Next(w, 0)]);
    assert calls[w[0]] in calls;
  }
}
