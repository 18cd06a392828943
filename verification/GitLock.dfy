/** The per-project git lock of gitMutationLock.js as a step machine. */
module GitLock {
  // A step is one call of withProjectGitLock, or one promise reaction (a callback starts or settles, a tail settles, a
  // cleanup runs), in any order.

  import opened Wrappers
  import opened Counting

  datatype Phase = Waiting | Running | Settled(rejected: bool)

  /**
   * One call of withProjectGitLock. `parent` is the call whose callback made it, `nested` says that the key was
   * already held there, and `previous` is the call whose tail it was chained on.
   */
  datatype Call = Call(key: string, parent: Option<nat>, nested: bool, previous: Option<nat>,
                       phase: Phase, tailSettled: bool, cleaned: bool)
  {
    predicate Outer() { !nested }
  }

  datatype State = State(calls: seq<Call>, tails: map<string, nat>)

  const INITIAL := State([], map[])

  datatype Event =
    | Lock(context: Option<nat>, projectId: Option<string>)
    | Start(call: nat)
    | Settle(call: nat, rejected: bool)
    | SettleTail(call: nat)
    | Cleanup(call: nat)

  /** String(projectId || '') */
  function KeyOf(projectId: Option<string>): string {
    if projectId.Some? then projectId.value else ""
  }

  /** The held set seen by code running in the callback of a call. */
  function Held(calls: seq<Call>, c: nat): set<string>
    requires c < |calls|
    decreases c
  {
    {calls[c].key}
    + (if calls[c].parent.Some? && calls[c].parent.value < c then Held(calls, calls[c].parent.value) else {})
  }

  function HeldIn(calls: seq<Call>, context: Option<nat>): set<string> {
    if context.Some? && context.value < |calls| then Held(calls, context.value) else {}
  }

  predicate Enabled(s: State, e: Event) {
    match e
    // A call is made by top-level code, or by a callback that has not settled.
    case Lock(context, _) => context.Some? ==> context.value < |s.calls| && s.calls[context.value].phase == Running
    case Start(c) =>
      && c < |s.calls| && s.calls[c].phase == Waiting
      && (s.calls[c].previous.Some? ==> TailOf(s.calls, s.calls[c].previous.value))
    // A callback awaits the calls it makes.
    case Settle(c, _) => c < |s.calls| && s.calls[c].phase == Running && ChildrenSettled(s.calls, c)
    case SettleTail(c) => c < |s.calls| && s.calls[c].Outer() && s.calls[c].phase.Settled? && !s.calls[c].tailSettled
    case Cleanup(c) => c < |s.calls| && s.calls[c].Outer() && s.calls[c].phase.Settled? && !s.calls[c].cleaned
  }

  predicate TailOf(calls: seq<Call>, p: nat) {
    p < |calls| && calls[p].tailSettled
  }

  predicate ChildrenSettled(calls: seq<Call>, c: nat) {
    forall d | 0 <= d < |calls| :: calls[d].parent == Some(c) ==> calls[d].phase.Settled?
  }

  function NewCall(s: State, context: Option<nat>, key: string): Call {
    if key in HeldIn(s.calls, context) then Call(key, context, true, None, Waiting, false, false)
    else Call(key, context, false, if key in s.tails then Some(s.tails[key]) else None, Waiting, false, false)
  }

  function Apply(s: State, e: Event): State
    requires Enabled(s, e)
  {
    match e
    case Lock(context, projectId) =>
      var call := NewCall(s, context, KeyOf(projectId));
      State(s.calls + [call], if call.nested then s.tails else s.tails[call.key := |s.calls|])
    case Start(c) => s.(calls := s.calls[c := s.calls[c].(phase := Running)])
    case Settle(c, rejected) => s.(calls := s.calls[c := s.calls[c].(phase := Settled(rejected))])
    case SettleTail(c) => s.(calls := s.calls[c := s.calls[c].(tailSettled := true)])
    case Cleanup(c) =>
      var key := s.calls[c].key;
      State(s.calls[c := s.calls[c].(cleaned := true)],
            if key in s.tails && s.tails[key] == c then s.tails - {key} else s.tails)
  }

  // ---- The invariant ----

  predicate SameLock(calls: seq<Call>, c: nat, d: nat) {
    c < |calls| && d < |calls| && calls[c].Outer() && calls[d].Outer() && calls[c].key == calls[d].key
  }

  /** Callers come before their calls, hold the key of a nested one, and are still running while it is unsettled. */
  predicate Nested(calls: seq<Call>) {
    forall c | 0 <= c < |calls| ::
      && (calls[c].parent.Some? ==>
            && calls[c].parent.value < c
            && (!calls[c].phase.Settled? ==> calls[calls[c].parent.value].phase == Running))
      && (calls[c].nested <==> calls[c].key in HeldIn(calls[..c], calls[c].parent))
      && (calls[c].nested ==> calls[c].previous.None? && !calls[c].tailSettled && !calls[c].cleaned)
  }

  /** Each outermost call is chained on the latest outermost call before it, or on none when all before it settled. */
  predicate Chained(calls: seq<Call>) {
    forall c, d | 0 <= d < c < |calls| && SameLock(calls, c, d) ::
      match calls[c].previous
      case Some(p) => d <= p < c && SameLock(calls, c, p)
      case None => calls[d].phase.Settled?
  }

  predicate PreviousIsEarlier(calls: seq<Call>) {
    forall c | 0 <= c < |calls| && calls[c].previous.Some? ::
      calls[c].previous.value < c && SameLock(calls, c, calls[c].previous.value)
  }

  /** An outermost call that has started finds every earlier one settled. */
  predicate Ordered(calls: seq<Call>) {
    forall c, d | 0 <= d < c < |calls| && SameLock(calls, c, d) && calls[c].phase != Waiting :: calls[d].phase.Settled?
  }

  predicate FlagsSettled(calls: seq<Call>) {
    forall c | 0 <= c < |calls| :: calls[c].tailSettled || calls[c].cleaned ==> calls[c].phase.Settled?
  }

  /** An entry is the last outermost call of its key and not cleaned up; without an entry all have settled. */
  predicate TailsLast(s: State) {
    && (forall key | key in s.tails ::
          && s.tails[key] < |s.calls| && s.calls[s.tails[key]].Outer() && s.calls[s.tails[key]].key == key
          && !s.calls[s.tails[key]].cleaned)
    && (forall c | 0 <= c < |s.calls| && s.calls[c].Outer() ::
          if s.calls[c].key in s.tails then c <= s.tails[s.calls[c].key] else s.calls[c].phase.Settled?)
  }

  predicate Inv(s: State) {
    && Nested(s.calls) && PreviousIsEarlier(s.calls) && Chained(s.calls) && Ordered(s.calls) && FlagsSettled(s.calls)
    && TailsLast(s)
  }

  // ---- Every step keeps it ----

  lemma {:induction false} HeldOfPrefix(calls: seq<Call>, n: nat, c: nat)
    requires c < n <= |calls|
    ensures Held(calls[..n], c) == Held(calls, c)
    decreases c
  {
    if calls[c].parent.Some? && calls[c].parent.value < c { HeldOfPrefix(calls, n, calls[c].parent.value); }
  }

  /** Only the progress of calls differs. */
  predicate SameShape(a: seq<Call>, b: seq<Call>) {
    && |a| == |b|
    && forall c | 0 <= c < |a| ::
        a[c].key == b[c].key && a[c].parent == b[c].parent && a[c].nested == b[c].nested &&
            a[c].previous == b[c].previous
  }

  lemma {:induction false} HeldOfShape(a: seq<Call>, b: seq<Call>, c: nat)
    requires SameShape(a, b) && c < |a|
    ensures Held(a, c) == Held(b, c)
    decreases c
  {
    if a[c].parent.Some? && a[c].parent.value < c { HeldOfShape(a, b, a[c].parent.value); }
  }

  lemma HeldInShape(a: seq<Call>, b: seq<Call>, c: nat)
    requires SameShape(a, b) && c < |a|
    ensures HeldIn(a[..c], a[c].parent) == HeldIn(b[..c], b[c].parent)
  {
    var p := a[c].parent;
    if p.Some? && p.value < c {
      HeldOfPrefix(a, c, p.value);
      HeldOfPrefix(b, c, p.value);
      HeldOfShape(a, b, p.value);
    }
  }

  /** A call takes one step forward. */
  predicate Advances(a: seq<Call>, b: seq<Call>, c: nat) {
    && SameShape(a, b) && c < |a|
    && (forall d | 0 <= d < |a| && d != c :: b[d] == a[d])
    && (a[c].phase.Settled? ==> b[c].phase == a[c].phase)
    && (a[c].phase == Running ==> b[c].phase != Waiting)
  }

  lemma AdvanceKeepsShapeFacts(a: seq<Call>, b: seq<Call>, c: nat)
    requires Advances(a, b, c) && PreviousIsEarlier(a) && Chained(a)
    ensures PreviousIsEarlier(b) && Chained(b)
  {
    forall x, y | 0 <= y < x < |b| && SameLock(b, x, y)
      ensures match b[x].previous
              case Some(p) => y <= p < x && SameLock(b, x, p)
              case None => b[y].phase.Settled?
    {
      assert SameLock(a, x, y);
      if a[x].previous.Some? { assert SameLock(a, x, a[x].previous.value); }
    }
  }

  /** A callback settles after the calls it made; a nested call has no tail and no cleanup. */
  predicate AdvanceRespectsNesting(a: seq<Call>, b: seq<Call>, c: nat)
    requires Advances(a, b, c)
  {
    && (b[c].phase.Settled? ==> a[c].phase.Settled? || ChildrenSettled(a, c))
    && (a[c].nested ==> !b[c].tailSettled && !b[c].cleaned)
  }

  lemma AdvanceKeepsNested(a: seq<Call>, b: seq<Call>, c: nat)
    requires Advances(a, b, c) && Nested(a) && AdvanceRespectsNesting(a, b, c)
    ensures Nested(b)
  {
    forall x | 0 <= x < |b|
      ensures b[x].parent.Some? ==>
        && b[x].parent.value < x && (!b[x].phase.Settled? ==> b[b[x].parent.value].phase == Running)
      ensures b[x].nested <==> b[x].key in HeldIn(b[..x], b[x].parent)
      ensures b[x].nested ==> b[x].previous.None? && !b[x].tailSettled && !b[x].cleaned
    {
      HeldInShape(a, b, x);
      hide HeldIn;
      assert a[x].parent == b[x].parent;
    }
  }

  lemma LockKeepsNested(s: State, context: Option<nat>, projectId: Option<string>)
    requires Inv(s) && Enabled(s, Lock(context, projectId))
    ensures Nested(Apply(s, Lock(context, projectId)).calls)
  {
    var call := NewCall(s, context, KeyOf(projectId));
    assert call.nested <==> call.key in HeldIn(s.calls, call.parent);
    hide Chained, Ordered, TailsLast, PreviousIsEarlier, FlagsSettled, HeldIn, KeyOf, Nested;
    AppendKeepsNested(s.calls, call);
  }

  lemma AppendKeepsNested(a: seq<Call>, call: Call)
    requires Nested(a) && call.phase == Waiting && !call.tailSettled && !call.cleaned
    requires call.parent.Some? ==> call.parent.value < |a| && a[call.parent.value].phase == Running
    requires call.nested <==> call.key in HeldIn(a, call.parent)
    requires call.nested ==> call.previous.None?
    ensures Nested(a + [call])
  {
    var b := a + [call];
    hide HeldIn;
    forall x | 0 <= x < |b|
      ensures b[x].parent.Some? ==>
        && b[x].parent.value < x && (!b[x].phase.Settled? ==> b[b[x].parent.value].phase == Running)
      ensures b[x].nested <==> b[x].key in HeldIn(b[..x], b[x].parent)
      ensures b[x].nested ==> b[x].previous.None? && !b[x].tailSettled && !b[x].cleaned
    {
      if x < |a| {
        assert b[..x] == a[..x] && b[x] == a[x];
      } else {
        assert b[..x] == a;
      }
    }
  }

  lemma LockKeepsOrder(s: State, context: Option<nat>, projectId: Option<string>)
    requires Inv(s) && Enabled(s, Lock(context, projectId))
    ensures var b := Apply(s, Lock(context, projectId)).calls;
      PreviousIsEarlier(b) && Chained(b) && Ordered(b) && FlagsSettled(b)
  {
    hide HeldIn, KeyOf;
    var a, b := s.calls, Apply(s, Lock(context, projectId)).calls;
    forall x, y | 0 <= y < x < |b| && SameLock(b, x, y)
      ensures match b[x].previous
              case Some(p) => y <= p < x && SameLock(b, x, p)
              case None => b[y].phase.Settled?
    {
      if x < |a| {
        assert SameLock(a, x, y);
        if a[x].previous.Some? { assert SameLock(a, x, a[x].previous.value); }
      }
    }
    forall x, y | 0 <= y < x < |b| && SameLock(b, x, y) && b[x].phase != Waiting ensures b[y].phase.Settled? {
      assert SameLock(a, x, y);
    }
  }

  lemma LockKeepsInv(s: State, context: Option<nat>, projectId: Option<string>)
    requires Inv(s) && Enabled(s, Lock(context, projectId))
    ensures Inv(Apply(s, Lock(context, projectId)))
  {
    LockKeepsNested(s, context, projectId);
    LockKeepsOrder(s, context, projectId);
    LockKeepsTails(s, context, projectId);
    hide HeldIn, Nested, Chained, Ordered, PreviousIsEarlier, FlagsSettled, TailsLast;
  }

  lemma LockKeepsTails(s: State, context: Option<nat>, projectId: Option<string>)
    requires Inv(s) && Enabled(s, Lock(context, projectId))
    ensures TailsLast(Apply(s, Lock(context, projectId)))
  {
    hide HeldIn, KeyOf, Nested, Chained, Ordered, PreviousIsEarlier, FlagsSettled;
  }

  /** What is left to show when one call takes a step. */
  lemma AdvanceKeepsInv(s: State, t: State, c: nat)
    requires Inv(s) && Advances(s.calls, t.calls, c) && AdvanceRespectsNesting(s.calls, t.calls, c)
    requires Ordered(t.calls) && FlagsSettled(t.calls) && TailsLast(t)
    ensures Inv(t)
  {
    AdvanceKeepsShapeFacts(s.calls, t.calls, c);
    AdvanceKeepsNested(s.calls, t.calls, c);
    hide Nested, Chained, PreviousIsEarlier, Ordered, TailsLast, FlagsSettled, SameShape, Advances;
  }

  lemma StartAdvances(s: State, c: nat)
    requires Inv(s) && Enabled(s, Start(c))
    ensures Advances(s.calls, Apply(s, Start(c)).calls, c)
    ensures AdvanceRespectsNesting(s.calls, Apply(s, Start(c)).calls, c)
    ensures FlagsSettled(Apply(s, Start(c)).calls)
  {
    hide Chained, PreviousIsEarlier, Ordered, TailsLast;
  }

  lemma StartKeepsInv(s: State, c: nat)
    requires Inv(s) && Enabled(s, Start(c))
    ensures Inv(Apply(s, Start(c)))
  {
    var t := Apply(s, Start(c));
    StartAdvances(s, c);
    StartKeepsOrder(s, c);
    assert t.tails == s.tails && t.calls[c].cleaned == s.calls[c].cleaned;
    assert TailsLast(s);
    hide *;
    AdvanceKeepsTails(s, t, c);
    AdvanceKeepsInv(s, t, c);
  }

  lemma StartKeepsOrder(s: State, c: nat)
    requires Inv(s) && Enabled(s, Start(c))
    ensures Ordered(Apply(s, Start(c)).calls)
  {
    var a, b := s.calls, Apply(s, Start(c)).calls;
    hide Nested, TailsLast, TailOf;
    forall x, y | 0 <= y < x < |b| && SameLock(b, x, y) && b[x].phase != Waiting ensures b[y].phase.Settled? {
      assert SameLock(a, x, y);
      if x == c { StartableFindsSettled(s, c, y); }
    }
  }

  lemma StartableFindsSettled(s: State, c: nat, y: nat)
    requires Inv(s) && Enabled(s, Start(c)) && y < c && SameLock(s.calls, c, y)
    ensures s.calls[y].phase.Settled?
  {
    hide Nested, TailsLast;
    var a := s.calls;
    if a[c].previous.Some? {
      var p := a[c].previous.value;
      assert SameLock(a, c, p) && a[p].phase.Settled?;
      if y < p { assert SameLock(a, p, y); }
    }
  }

  lemma SettleAdvances(s: State, c: nat, rejected: bool)
    requires Inv(s) && Enabled(s, Settle(c, rejected))
    ensures Advances(s.calls, Apply(s, Settle(c, rejected)).calls, c)
    ensures AdvanceRespectsNesting(s.calls, Apply(s, Settle(c, rejected)).calls, c)
    ensures FlagsSettled(Apply(s, Settle(c, rejected)).calls)
  {
    hide Chained, PreviousIsEarlier, Ordered, TailsLast;
  }

  lemma SettleKeepsInv(s: State, c: nat, rejected: bool)
    requires Inv(s) && Enabled(s, Settle(c, rejected))
    ensures Inv(Apply(s, Settle(c, rejected)))
  {
    var t := Apply(s, Settle(c, rejected));
    SettleAdvances(s, c, rejected);
    assert t.tails == s.tails && t.calls[c].cleaned == s.calls[c].cleaned;
    assert TailsLast(s) && Ordered(s.calls) && s.calls[c].phase == Running;
    hide *;
    AdvanceKeepsOrder(s.calls, t.calls, c);
    AdvanceKeepsTails(s, t, c);
    AdvanceKeepsInv(s, t, c);
  }

  lemma AdvanceKeepsTails(s: State, t: State, c: nat)
    requires Advances(s.calls, t.calls, c) && t.tails == s.tails && t.calls[c].cleaned == s.calls[c].cleaned
    requires TailsLast(s)
    ensures TailsLast(t)
  {
  }

  lemma AdvanceKeepsOrder(a: seq<Call>, b: seq<Call>, c: nat)
    requires Advances(a, b, c) && Ordered(a) && (a[c].phase == Waiting ==> b[c].phase == Waiting)
    ensures Ordered(b)
  {
    forall x, y | 0 <= y < x < |b| && SameLock(b, x, y) && b[x].phase != Waiting ensures b[y].phase.Settled? {
      assert SameLock(a, x, y);
    }
  }

  lemma SettleTailKeepsInv(s: State, c: nat)
    requires Inv(s) && Enabled(s, SettleTail(c))
    ensures Inv(Apply(s, SettleTail(c)))
  {
    var a, b := s.calls, Apply(s, SettleTail(c)).calls;
    AdvanceKeepsShapeFacts(a, b, c);
    AdvanceKeepsNested(a, b, c);
    AdvanceKeepsOrder(a, b, c);
    AdvanceKeepsTails(s, Apply(s, SettleTail(c)), c);
    hide Nested, Chained, PreviousIsEarlier, Ordered, TailsLast;
  }

  lemma CleanupKeepsInv(s: State, c: nat)
    requires Inv(s) && Enabled(s, Cleanup(c))
    ensures Inv(Apply(s, Cleanup(c)))
  {
    var a, b := s.calls, Apply(s, Cleanup(c)).calls;
    AdvanceKeepsShapeFacts(a, b, c);
    AdvanceKeepsNested(a, b, c);
    AdvanceKeepsOrder(a, b, c);
    CleanupKeepsTails(s, c);
    hide Nested, Chained, PreviousIsEarlier, Ordered, TailsLast;
  }

  lemma CleanupKeepsTails(s: State, c: nat)
    requires Inv(s) && Enabled(s, Cleanup(c))
    ensures TailsLast(Apply(s, Cleanup(c)))
  {
    hide Nested, Chained, PreviousIsEarlier;
    var t := Apply(s, Cleanup(c));
    forall d | 0 <= d < |t.calls| && t.calls[d].Outer()
      ensures if t.calls[d].key in t.tails then d <= t.tails[t.calls[d].key] else t.calls[d].phase.Settled?
    {
      if d != c && t.calls[d].key == t.calls[c].key { assert SameLock(s.calls, c, d) && SameLock(s.calls, d, c); }
    }
  }

  /** Every step of every interleaving keeps the invariant. */
  lemma StepKeepsInv(s: State, e: Event)
    requires Inv(s) && Enabled(s, e)
    ensures Inv(Apply(s, e))
  {
    hide Inv;
    match e
    case Lock(context, projectId) => LockKeepsInv(s, context, projectId);
    case Start(c) => StartKeepsInv(s, c);
    case Settle(c, rejected) => SettleKeepsInv(s, c, rejected);
    case SettleTail(c) => SettleTailKeepsInv(s, c);
    case Cleanup(c) => CleanupKeepsInv(s, c);
  }

  // ---- Whole runs ----

  /** The events can be taken one after the other. */
  predicate CanRun(s: State, events: seq<Event>)
    decreases |events|
  {
    events == [] || (Enabled(s, events[0]) && CanRun(Apply(s, events[0]), events[1..]))
  }

  function Run(s: State, events: seq<Event>): State
    requires CanRun(s, events)
    decreases |events|
  {
    if events == [] then s else Run(Apply(s, events[0]), events[1..])
  }

  lemma {:induction false} RunKeepsInv(s: State, events: seq<Event>)
    requires Inv(s) && CanRun(s, events)
    ensures Inv(Run(s, events))
    decreases |events|
  {
    hide Inv, Enabled, Apply;
    if events != [] {
      StepKeepsInv(s, events[0]);
      RunKeepsInv(Apply(s, events[0]), events[1..]);
    }
  }

  /** The outermost call whose section covers code that holds the key. */
  function Holder(calls: seq<Call>, c: nat, key: string): (h: nat)
    requires Nested(calls) && c < |calls| && key in Held(calls, c)
    ensures h <= c && calls[h].Outer() && calls[h].key == key
    ensures calls[c].phase == Running ==> calls[h].phase == Running
    decreases c
  {
    if calls[c].Outer() && calls[c].key == key then c
    else
      HeldByParent(calls, c, key);
      Holder(calls, calls[c].parent.value, key)
  }

  lemma HeldByParent(calls: seq<Call>, c: nat, key: string)
    requires Nested(calls) && c < |calls| && key in Held(calls, c)
    requires !(calls[c].Outer() && calls[c].key == key)
    ensures calls[c].parent.Some? && calls[c].parent.value < c && key in Held(calls, calls[c].parent.value)
  {
    if calls[c].parent.Some? { HeldOfPrefix(calls, c, calls[c].parent.value); }
  }

  /**
   * Mutual exclusion over whole runs: callbacks of the same project that are between start and settlement all
   * belong to one outermost section, whether they are outermost or nested in it.
   */
  lemma MutualExclusion(events: seq<Event>, c: nat, d: nat)
    requires CanRun(INITIAL, events)
    requires var calls := Run(INITIAL, events).calls;
      c < |calls| && d < |calls| && calls[c].key == calls[d].key && calls[c].phase == Running == calls[d].phase
    ensures var calls := Run(INITIAL, events).calls;
      Nested(calls) && Holder(calls, c, calls[c].key) == Holder(calls, d, calls[d].key)
    ensures var calls := Run(INITIAL, events).calls; calls[c].Outer() && calls[d].Outer() ==> c == d
  {
    RunKeepsInv(INITIAL, events);
    OneSection(Run(INITIAL, events), c, d);
  }

  lemma OneSection(s: State, c: nat, d: nat)
    requires Inv(s) && c < |s.calls| && d < |s.calls|
    requires s.calls[c].key == s.calls[d].key && s.calls[c].phase == Running == s.calls[d].phase
    ensures Holder(s.calls, c, s.calls[c].key) == Holder(s.calls, d, s.calls[d].key)
    ensures s.calls[c].Outer() && s.calls[d].Outer() ==> c == d
  {
    hide TailsLast, Chained, PreviousIsEarlier, FlagsSettled;
    var h, k := Holder(s.calls, c, s.calls[c].key), Holder(s.calls, d, s.calls[d].key);
    assert SameLock(s.calls, h, k) && SameLock(s.calls, k, h);
    assert SameLock(s.calls, c, d) == SameLock(s.calls, d, c);
  }

  /** Outermost sections start in call order: when one has started, every earlier one of its key has settled. */
  lemma FirstComeFirstServed(events: seq<Event>, c: nat, d: nat)
    requires CanRun(INITIAL, events)
    requires var calls := Run(INITIAL, events).calls;
      d < c < |calls| && SameLock(calls, c, d) && calls[c].phase != Waiting
    ensures Run(INITIAL, events).calls[d].phase.Settled?
  {
    RunKeepsInv(INITIAL, events);
  }

  // ---- The map of tails ----

  /**
   * A cleanup drops an entry only when no later call is chained on its tail; a project with an unsettled
   * outermost call has an entry; and once every outermost call of a project is cleaned up it has none.
   */
  lemma EntriesAreExact(events: seq<Event>, key: string)
    requires CanRun(INITIAL, events)
    ensures var s := Run(INITIAL, events);
      && (forall c | 0 <= c < |s.calls| && s.calls[c].Outer() && s.calls[c].key == key ::
            && (!s.calls[c].phase.Settled? ==> key in s.tails)
            && (key in s.tails && s.tails[key] == c ==>
                  forall d | 0 <= d < |s.calls| && s.calls[d].Outer() :: s.calls[d].previous != Some(c)))
      && ((forall c | 0 <= c < |s.calls| && s.calls[c].Outer() && s.calls[c].key == key :: s.calls[c].cleaned)
            ==> key !in s.tails)
  {
    RunKeepsInv(INITIAL, events);
    hide Run, CanRun, Nested, Chained, Ordered;
    var s := Run(INITIAL, events);
    forall c, d | 0 <= c < |s.calls| && s.calls[c].Outer() && s.calls[c].key == key && key in s.tails &&
        s.tails[key] == c
        && 0 <= d < |s.calls| && s.calls[d].Outer()
      ensures s.calls[d].previous != Some(c)
    {
      var p := s.calls[d].previous;
      assert p.Some? ==> SameLock(s.calls, d, p.value) && p.value < d;
    }
  }

  // ---- Nested calls: MergeRequestService.create calls pushBranch while it holds the lock ----

  /**
   * A call made, at any depth, by the callback of a call for the same project is nested: it leaves the tails as
   * they are and can start at once, whatever else is queued.
   */
  lemma NestedCallNeverQueues(s: State, caller: nat, projectId: Option<string>)
    requires Inv(s) && Enabled(s, Lock(Some(caller), projectId)) && KeyOf(projectId) in Held(s.calls, caller)
    ensures var t := Apply(s, Lock(Some(caller), projectId));
      && t.tails == s.tails && |t.calls| == |s.calls| + 1 && t.calls[|s.calls|].nested
      && Enabled(t, Start(|s.calls|))
  {
  }

  /** It stays startable under every other step. */
  lemma NestedStaysStartable(s: State, e: Event, c: nat)
    requires Inv(s) && Enabled(s, e) && c < |s.calls| && s.calls[c].nested && Enabled(s, Start(c)) && e != Start(c)
    ensures Enabled(Apply(s, e), Start(c))
  {
    hide HeldIn, Chained, Ordered, TailsLast;
  }

  // ---- Progress, when callbacks only nest on their own project ----

  predicate OneKeyNesting(calls: seq<Call>) {
    forall c | 0 <= c < |calls| :: calls[c].parent.Some? ==> calls[c].nested
  }

  /** A promise reaction, as opposed to a new call. */
  predicate Internal(e: Event) {
    !e.Lock?
  }

  /** The call h, or a call made in its section, at any depth. */
  predicate Within(calls: seq<Call>, h: nat, x: nat)
    decreases x
  {
    x == h || (x < |calls| && calls[x].parent.Some? && calls[x].parent.value < x &&
               Within(calls, h, calls[x].parent.value))
  }

  lemma {:induction false} WithinIsTransitive(calls: seq<Call>, h: nat, d: nat, x: nat)
    requires Within(calls, h, d) && Within(calls, d, x)
    ensures Within(calls, h, x)
    decreases x
  {
    if x != d { WithinIsTransitive(calls, h, d, calls[x].parent.value); }
  }

  /** The calls made in the section of h are for its project. */
  ghost predicate SectionNests(calls: seq<Call>, h: nat) {
    forall x: nat | x < |calls| && x != h && Within(calls, h, x) :: calls[x].nested
  }

  lemma SectionsNest(calls: seq<Call>, h: nat)
    requires OneKeyNesting(calls)
    ensures SectionNests(calls, h)
  {
  }

  /** Code of a running callback can go on: it, or the deepest call it awaits, can take a step. */
  lemma RunningCanGoOn(s: State, c: nat) returns (e: Event)
    requires Inv(s) && SectionNests(s.calls, c) && c < |s.calls| && s.calls[c].phase == Running
    ensures Internal(e) && Enabled(s, e) && Within(s.calls, c, e.call)
    decreases |s.calls| - c
  {
    hide Chained, Ordered, TailsLast, PreviousIsEarlier, FlagsSettled;
    if ChildrenSettled(s.calls, c) {
      e := Settle(c, false);
    } else {
      var d: nat :| d < |s.calls| && s.calls[d].parent == Some(c) && !s.calls[d].phase.Settled?;
      assert c < d && Within(s.calls, c, c) && Within(s.calls, c, d);
      if s.calls[d].phase == Waiting {
        e := Start(d);
      } else {
        forall x: nat | x < |s.calls| && x != d && Within(s.calls, d, x) ensures s.calls[x].nested {
          WithinIsTransitive(s.calls, c, d, x);
          WithinIsLater(s.calls, d, x);
        }
        e := RunningCanGoOn(s, d);
        WithinIsTransitive(s.calls, c, d, e.call);
      }
    }
  }

  lemma {:induction false} WithinIsLater(calls: seq<Call>, h: nat, x: nat)
    requires Within(calls, h, x)
    ensures h <= x
    decreases x
  {
    if x != h { WithinIsLater(calls, h, calls[x].parent.value); }
  }

  /** As long as a call has not settled some promise reaction is possible: nothing is ever stuck. */
  lemma UnsettledCanGoOn(s: State, c: nat) returns (e: Event)
    requires Inv(s) && OneKeyNesting(s.calls) && c < |s.calls| && !s.calls[c].phase.Settled?
    ensures Internal(e) && Enabled(s, e)
    decreases c
  {
    if s.calls[c].phase == Running {
      SectionsNest(s.calls, c);
      e := RunningCanGoOn(s, c);
    } else if Enabled(s, Start(c)) {
      e := Start(c);
    } else {
      var p := s.calls[c].previous.value;
      assert SameLock(s.calls, c, p);
      if s.calls[p].phase.Settled? {
        e := SettleTail(p);
      } else {
        e := UnsettledCanGoOn(s, p);
      }
    }
  }

  /** The reactions a call still has to go through. */
  function WorkOf(call: Call): nat {
    match call.phase
    case Waiting => if call.nested then 2 else 4
    case Running => if call.nested then 1 else 3
    case Settled(_) => if call.nested then 0 else (if call.tailSettled then 0 else 1) + (if call.cleaned then 0 else 1)
  }

  function Work(calls: seq<Call>): nat { Total(calls, WorkOf) }

  /** Every promise reaction uses up exactly one unit of work. */
  lemma ReactionUsesWork(s: State, e: Event)
    requires Inv(s) && Enabled(s, e) && Internal(e)
    ensures Work(Apply(s, e).calls) == Work(s.calls) - 1
  {
    hide Chained, Ordered, TailsLast, PreviousIsEarlier, Total;
    match e
    case Start(c) => TotalOfUpdate(s.calls, c, s.calls[c].(phase := Running), WorkOf);
    case Settle(c, rejected) => TotalOfUpdate(s.calls, c, s.calls[c].(phase := Settled(rejected)), WorkOf);
    case SettleTail(c) => TotalOfUpdate(s.calls, c, s.calls[c].(tailSettled := true), WorkOf);
    case Cleanup(c) => TotalOfUpdate(s.calls, c, s.calls[c].(cleaned := true), WorkOf);
  }

  lemma {:induction false} RunUsesWork(s: State, events: seq<Event>)
    requires Inv(s) && CanRun(s, events) && forall e | e in events :: Internal(e)
    ensures Work(Run(s, events).calls) == Work(s.calls) - |events|
    ensures Inv(Run(s, events)) && SameShape(s.calls, Run(s, events).calls)
    decreases |events|
  {
    hide Inv, Work;
    if events != [] {
      var e := events[0];
      assert Internal(e);
      ReactionUsesWork(s, e);
      StepKeepsInv(s, e);
      RunUsesWork(Apply(s, e), events[1..]);
    }
  }

  predicate Done(call: Call) {
    call.phase.Settled? && (call.Outer() ==> call.tailSettled && call.cleaned)
  }

  /**
   * Everything finishes: from any reachable state, a run of promise reactions takes at most Work steps, and when
   * it cannot be continued every call has settled, is cleaned up, and the map of tails is empty.
   */
  lemma EverythingFinishes(before: seq<Event>, reactions: seq<Event>)
    requires CanRun(INITIAL, before) && CanRun(Run(INITIAL, before), reactions)
    requires forall e | e in reactions :: Internal(e)
    requires OneKeyNesting(Run(INITIAL, before).calls)
    ensures var s := Run(INITIAL, before); var t := Run(s, reactions);
      && |reactions| <= Work(s.calls)
      && ((forall e | Internal(e) :: !Enabled(t, e)) ==> (forall c | c in t.calls :: Done(c)) && t.tails == map[])
  {
    RunKeepsInv(INITIAL, before);
    var s := Run(INITIAL, before);
    RunUsesWork(s, reactions);
    var t := Run(s, reactions);
    if forall e | Internal(e) :: !Enabled(t, e) {
      StuckIsDone(t);
    }
  }

  lemma StuckIsDone(t: State)
    requires Inv(t) && OneKeyNesting(t.calls) && forall e | Internal(e) :: !Enabled(t, e)
    ensures (forall c | c in t.calls :: Done(c)) && t.tails == map[]
  {
    forall i | 0 <= i < |t.calls| ensures t.calls[i].phase.Settled? {
      if !t.calls[i].phase.Settled? { var e := UnsettledCanGoOn(t, i); }
    }
    SettledIsDone(t);
  }

  lemma SettledIsDone(t: State)
    requires Inv(t) && forall e | Internal(e) :: !Enabled(t, e)
    requires forall i | 0 <= i < |t.calls| :: t.calls[i].phase.Settled?
    ensures (forall c | c in t.calls :: Done(c)) && t.tails == map[]
  {
    forall i | 0 <= i < |t.calls| ensures Done(t.calls[i]) {
      assert !Enabled(t, SettleTail(i)) && !Enabled(t, Cleanup(i));
    }
    hide Enabled, Nested, Chained, Ordered, PreviousIsEarlier;
    assert forall key :: key !in t.tails;
  }

  // ---- A queued call and those in front of it, while new calls keep coming ----

  function AheadOf(call: Call): nat {
    match call.phase
    case Waiting => 3
    case Running => 2
    case Settled(_) => if call.tailSettled then 0 else 1
  }

  /** What the first n calls still have to do before an outermost call of the key may start. */
  function Ahead(calls: seq<Call>, key: string, n: nat): nat
    requires n <= |calls|
  {
    if n == 0 then 0
    else
      var last := calls[n - 1];
      Ahead(calls, key, n - 1) + (if last.Outer() && last.key == key then AheadOf(last) else 0)
  }

  lemma {:induction false} AheadAdvances(a: seq<Call>, b: seq<Call>, key: string, n: nat, c: nat)
    requires n <= |a| <= |b| && (forall d | 0 <= d < |a| && d != c :: b[d] == a[d])
    requires c < |a| ==> b[c].key == a[c].key && b[c].nested == a[c].nested && AheadOf(b[c]) <= AheadOf(a[c])
    ensures Ahead(b, key, n) ==
      Ahead(a, key, n) - (if c < n && a[c].Outer() && a[c].key == key then AheadOf(a[c]) - AheadOf(b[c]) else 0)
  {
    if n > 0 { AheadAdvances(a, b, key, n - 1, c); }
  }

  /**
   * No step, not even a new call, lengthens the queue in front of a call, and every reaction of an outermost
   * call in front of it that matters (start, settlement, tail) shortens it.
   */
  lemma QueueOnlyShrinks(s: State, e: Event, c: nat)
    requires Inv(s) && Enabled(s, e) && c < |s.calls|
    ensures var key, t := s.calls[c].key, Apply(s, e);
      && Ahead(t.calls, key, c) <= Ahead(s.calls, key, c)
      && (((e.Start? || e.Settle? || e.SettleTail?) && e.call < c && s.calls[e.call].Outer() &&
          s.calls[e.call].key == key)
            ==> Ahead(t.calls, key, c) == Ahead(s.calls, key, c) - 1)
  {
    hide Nested, Chained, Ordered, TailsLast, PreviousIsEarlier, Ahead, HeldIn;
    var t := Apply(s, e);
    var moved := if e.Lock? then |s.calls| else e.call;
    AheadAdvances(s.calls, t.calls, s.calls[c].key, c, moved);
  }

  lemma {:induction false} NothingAhead(calls: seq<Call>, key: string, n: nat, d: nat)
    requires d < n <= |calls| && Ahead(calls, key, n) == 0 && calls[d].Outer() && calls[d].key == key
    ensures calls[d].tailSettled && calls[d].phase.Settled?
  {
    if d < n - 1 { NothingAhead(calls, key, n - 1, d); }
  }

  /** A waiting call with nothing in front of it can start. */
  lemma HeadOfQueueCanStart(s: State, c: nat)
    requires Inv(s) && c < |s.calls| && s.calls[c].phase == Waiting && Ahead(s.calls, s.calls[c].key, c) == 0
    ensures Enabled(s, Start(c))
  {
    hide Nested, Chained, Ordered, TailsLast, Ahead;
    if s.calls[c].previous.Some? {
      assert SameLock(s.calls, c, s.calls[c].previous.value);
      NothingAhead(s.calls, s.calls[c].key, c, s.calls[c].previous.value);
    }
  }

  lemma {:induction false} FirstAhead(calls: seq<Call>, key: string, n: nat) returns (d: nat)
    requires n <= |calls| && Ahead(calls, key, n) > 0
    ensures d < n && calls[d].Outer() && calls[d].key == key && AheadOf(calls[d]) > 0 && Ahead(calls, key, d) == 0
  {
    if Ahead(calls, key, n - 1) > 0 { d := FirstAhead(calls, key, n - 1); } else { d := n - 1; }
  }

  /**
   * A call with a queue in front of it never waits in vain, even when new calls keep coming: a reaction of the first
   * unfinished call of that queue, or of a call nested in it, is possible. The calls made in the sections of other
   * projects do not matter.
   */
  lemma QueueAheadCanMove(s: State, c: nat) returns (d: nat, e: Event)
    requires Inv(s) && c < |s.calls| && Ahead(s.calls, s.calls[c].key, c) > 0
    requires forall h: nat | h < c && s.calls[h].Outer() && s.calls[h].key == s.calls[c].key :: SectionNests(s.calls, h)
    ensures d < c && s.calls[d].Outer() && s.calls[d].key == s.calls[c].key && AheadOf(s.calls[d]) > 0
    ensures Ahead(s.calls, s.calls[c].key, d) == 0
    ensures Internal(e) && Enabled(s, e) && Within(s.calls, d, e.call)
  {
    d := FirstAhead(s.calls, s.calls[c].key, c);
    if s.calls[d].phase == Running {
      e := RunningCanGoOn(s, d);
    } else if s.calls[d].phase == Waiting {
      HeadOfQueueCanStart(s, d);
      e := Start(d);
    } else {
      e := SettleTail(d);
    }
  }

  // ---- Nesting across projects is outside the guarantee ----

  const HOLD_BOTH := [Lock(None, Some("a")), Lock(None, Some("b")), Start(0), Start(1)]
  const CROSS := [Lock(Some(0), Some("b")), Lock(Some(1), Some("a"))]

  function Holding(key: string): Call { Call(key, None, false, None, Running, false, false) }

  function Awaiting(key: string, caller: nat, ahead: nat): Call {
    Call(key, Some(caller), false, Some(ahead), Waiting, false, false)
  }

  function BothHeld(): State { State([Holding("a"), Holding("b")], map["a" := 0, "b" := 1]) }

  function Crossed(): State {
    State([Holding("a"), Holding("b"), Awaiting("b", 0, 1), Awaiting("a", 1, 0)], map["a" := 3, "b" := 2])
  }

  lemma BothCanBeHeld()
    ensures CanRun(INITIAL, HOLD_BOTH) && Run(INITIAL, HOLD_BOTH) == BothHeld()
  {
    var e0, e1 := Lock(None, Some("a")), Lock(None, Some("b"));
    var s1 := Apply(INITIAL, e0);
    var s2 := Apply(s1, e1);
    var s3 := Apply(s2, Start(0));
    var s4 := Apply(s3, Start(1));
    assert s4 == BothHeld();
    RunOne(s3, Start(1), []);
    RunOne(s2, Start(0), [Start(1)]);
    RunOne(s1, e1, [Start(0), Start(1)]);
    RunOne(INITIAL, e0, [e1, Start(0), Start(1)]);
    hide *;
    assert HOLD_BOTH == [e0] + [e1, Start(0), Start(1)];
    assert [e1, Start(0), Start(1)] == [e1] + [Start(0), Start(1)];
    assert [Start(0), Start(1)] == [Start(0)] + [Start(1)];
    assert [Start(1)] == [Start(1)] + [];
  }

  lemma BothCanAwait()
    ensures CanRun(BothHeld(), CROSS) && Run(BothHeld(), CROSS) == Crossed()
  {
    var s4 := BothHeld();
    assert Held(s4.calls, 0) == {"a"};
    var s5 := Apply(s4, CROSS[0]);
    assert s5 == State([Holding("a"), Holding("b"), Awaiting("b", 0, 1)], map["a" := 0, "b" := 2]);
    assert Held(s5.calls, 1) == {"b"};
    var s6 := Apply(s5, CROSS[1]);
    assert s6 == Crossed();
    RunOne(s5, CROSS[1], []);
    RunOne(s4, CROSS[0], [CROSS[1]]);
    assert CROSS == [CROSS[0]] + [CROSS[1]] && [CROSS[1]] == [CROSS[1]] + [];
  }

  lemma {:induction false} RunAppend(s: State, first: seq<Event>, second: seq<Event>)
    requires CanRun(s, first) && CanRun(Run(s, first), second)
    ensures CanRun(s, first + second) && Run(s, first + second) == Run(Run(s, first), second)
    decreases |first|
  {
    hide Enabled, Apply;
    if first == [] {
      assert first + second == second;
    } else {
      RunAppend(Apply(s, first[0]), first[1..], second);
      assert (first + second)[1..] == first[1..] + second;
    }
  }

  /** Two callbacks that each await a call for the other's project wait forever. */
  lemma CrossNestingCanStick()
    ensures CanRun(INITIAL, HOLD_BOTH + CROSS)
    ensures var s := Run(INITIAL, HOLD_BOTH + CROSS);
      (forall e | Internal(e) :: !Enabled(s, e)) && exists c | 0 <= c < |s.calls| :: s.calls[c].phase == Running
  {
    BothCanBeHeld();
    BothCanAwait();
    RunAppend(INITIAL, HOLD_BOTH, CROSS);
    hide CanRun, Run;
    CrossedIsStuck();
    assert Crossed().calls[0].phase == Running;
  }

  lemma CrossedIsStuck()
    ensures forall e | Internal(e) :: !Enabled(Crossed(), e)
  {
    var calls := Crossed().calls;
    assert calls[2].parent == Some(0) && calls[3].parent == Some(1);
    assert !ChildrenSettled(calls, 0) && !ChildrenSettled(calls, 1);
  }

  lemma RunOne(s: State, e: Event, rest: seq<Event>)
    requires Enabled(s, e) && CanRun(Apply(s, e), rest)
    ensures CanRun(s, [e] + rest) && Run(s, [e] + rest) == Run(Apply(s, e), rest)
  {
    hide Enabled, Apply;
    assert ([e] + rest)[1..] == rest;
  }

  // ---- The module state of the source ----

  /** `tails`, and the calls whose promises it refers to. */
  class ProjectGitLock {
    var tails: map<string, nat>
    var calls: seq<Call>

    ghost function Snapshot(): State
      reads this
    {
      State(calls, tails)
    }

    ghost predicate Valid()
      reads this
    {
      Inv(Snapshot())
    }

    constructor ()
      ensures Valid() && Snapshot() == INITIAL
    {
      tails, calls := map[], [];
    }

    /** withProjectGitLock, called by top-level code or by the callback of another call. */
    method WithProjectGitLock(context: Option<nat>, projectId: Option<string>) returns (call: nat)
      requires Valid() && Enabled(Snapshot(), Lock(context, projectId))
      modifies this
      ensures Valid() && Snapshot() == Apply(old(Snapshot()), Lock(context, projectId)) && call == old(|calls|)
    {
      LockKeepsInv(Snapshot(), context, projectId);
      hide Inv;
      var key := if projectId.Some? then projectId.value else "";
      call := |calls|;
      var held := HeldIn(calls, context);
      if key in held {
        calls := calls + [Call(key, context, true, None, Waiting, false, false)];
        return;
      }
      var previous := if key in tails then Some(tails[key]) else None;
      calls := calls + [Call(key, context, false, previous, Waiting, false, false)];
      tails := tails[key := call];
    }

    method StartCallback(call: nat)
      requires Valid() && Enabled(Snapshot(), Start(call))
      modifies this
      ensures Valid() && Snapshot() == Apply(old(Snapshot()), Start(call))
    {
      StartKeepsInv(Snapshot(), call);
      hide Inv;
      calls := calls[call := calls[call].(phase := Running)];
    }

    method SettleCallback(call: nat, rejected: bool)
      requires Valid() && Enabled(Snapshot(), Settle(call, rejected))
      modifies this
      ensures Valid() && Snapshot() == Apply(old(Snapshot()), Settle(call, rejected))
    {
      SettleKeepsInv(Snapshot(), call, rejected);
      hide Inv;
      calls := calls[call := calls[call].(phase := Settled(rejected))];
    }

    /** The reaction `run.catch(() => {})`. */
    method SettleTailPromise(call: nat)
      requires Valid() && Enabled(Snapshot(), SettleTail(call))
      modifies this
      ensures Valid() && Snapshot() == Apply(old(Snapshot()), SettleTail(call))
    {
      SettleTailKeepsInv(Snapshot(), call);
      hide Inv;
      calls := calls[call := calls[call].(tailSettled := true)];
    }

    /** The reaction of run.finally. */
    method RunCleanup(call: nat)
      requires Valid() && Enabled(Snapshot(), Cleanup(call))
      modifies this
      ensures Valid() && Snapshot() == Apply(old(Snapshot()), Cleanup(call))
    {
      CleanupKeepsInv(Snapshot(), call);
      hide Inv;
      var key := calls[call].key;
      calls := calls[call := calls[call].(cleaned := true)];
      if key in tails && tails[key] == call {
        tails := tails - {key};
      }
    }
  }
}
