/** The fixed-window limiter of quota.js: one bucket per user and minute, dropped once its minute is over. */
module Quota {
  import opened Doubles
  import opened Wrappers
  import opened Text

  const WINDOW_MS := 60_000

  /** TIER_QPS, with the default for unknown tiers. */
  function LimitOf(tier: string): nat {
    if tier == "standard" then 30
    else if tier == "pro" then 60
    else if tier == "enterprise" then 120
    else 12
  }

  function SlotAt(now: nat): nat { now / WINDOW_MS }

  function BucketKey(user: string, slot: nat): string { user + ":" + Decimal(slot) }

  /** The number after the last colon. */
  function KeySlot(key: string): Option<nat> {
    var parts := Split(key, ':');
    var last := parts[|parts| - 1];
    if last != "" && AllDigits(last) then Some(ParseDecimal(last)) else None
  }

  datatype State = State(buckets: map<string, nat>, lastCleanup: nat)

  const INITIAL := State(map[], 0)

  predicate Expired(key: string, now: nat) {
    KeySlot(key).Some? && KeySlot(key).value < SlotAt(now)
  }

  function Cleanup(s: State, now: nat): State {
    if now - s.lastCleanup < WINDOW_MS then s
    else State(map key | key in s.buckets && !Expired(key, now) :: s.buckets[key], now)
  }

  /**
   * One call of checkLlmRequestQuota: the clock when the key is made and when the cleanup looks at it, and what the
   * settings store holds for the key (anything that is no positive number counts as 0).
   */
  datatype Call = Call(user: string, admin: bool, tier: string, begin: nat, end: nat, stored: int)

  function KeyOf(c: Call): string { BucketKey(c.user, SlotAt(c.begin)) }

  function Loaded(s: State, c: Call): nat {
    if KeyOf(c) in s.buckets then s.buckets[KeyOf(c)] else if c.stored > 0 then c.stored else 0
  }

  /** The call is let through. */
  predicate Admits(s: State, c: Call) {
    c.admin || Loaded(s, c) < LimitOf(c.tier)
  }

  function Check(s: State, c: Call): State {
    if c.admin then s
    else if Admits(s, c) then Cleanup(s.(buckets := s.buckets[KeyOf(c) := Loaded(s, c) + 1]), c.end)
    else s.(buckets := s.buckets[KeyOf(c) := Loaded(s, c)])
  }

  function After(calls: seq<Call>): State {
    if calls == [] then INITIAL else Check(After(calls[..|calls| - 1]), calls[|calls| - 1])
  }

  // ---- Keys ----

  lemma SlotOfKey(user: string, slot: nat)
    ensures KeySlot(BucketKey(user, slot)) == Some(slot)
  {
    var d := Decimal(slot);
    DigitsLack(d, ':');
    SplitOne(d, ':');
    SplitAppend(user, d, ':');
    ParsePrinted(slot);
    hide Split, Decimal, ParseDecimal;
    assert BucketKey(user, slot) == user + [':'] + d;
  }

  /** The last millisecond of a JavaScript clock. */
  const LAST_TIME := 8_640_000_000_000_000

  /** Number() gives back every minute of the clock as it was printed. */
  lemma MinutesAreExact(now: nat)
    requires now <= LAST_TIME
    ensures ToNumber(SlotAt(now)) == Finite(SlotAt(now))
  {
    PrecisionLimit(PRECISION);
    hide PowerOf2, ToNumber;
    assert SafeLimit() == PowerOf2(PRECISION);
    ExactNumber(SlotAt(now));
  }

  /** Different users, or different minutes, have different buckets, even when a user id holds a colon. */
  lemma KeysAreInjective(user: string, slot: nat, other: string, otherSlot: nat)
    requires BucketKey(user, slot) == BucketKey(other, otherSlot)
    ensures user == other && slot == otherSlot
  {
    SlotOfKey(user, slot);
    SlotOfKey(other, otherSlot);
    var key := BucketKey(user, slot);
    hide Decimal, Split;
    assert key[..|key| - |Decimal(slot)| - 1] == user && key[..|key| - |Decimal(slot)| - 1] == other;
  }

  // ---- The calls of one user in one minute ----

  /** A call that counts for the bucket. */
  predicate Counts(c: Call, user: string, slot: nat) {
    !c.admin && c.user == user && SlotAt(c.begin) == slot
  }

  function AdmittedIn(calls: seq<Call>, user: string, slot: nat): nat {
    if calls == [] then 0
    else
      var before, c := calls[..|calls| - 1], calls[|calls| - 1];
      AdmittedIn(before, user, slot) + (if Counts(c, user, slot) && Admits(After(before), c) then 1 else 0)
  }

  /** What the first call for the bucket loads. */
  function StartOf(calls: seq<Call>, user: string, slot: nat): Option<nat> {
    if calls == [] then None
    else
      var before, c := calls[..|calls| - 1], calls[|calls| - 1];
      if StartOf(before, user, slot).Some? then StartOf(before, user, slot)
      else if Counts(c, user, slot) then Some(Loaded(After(before), c))
      else None
  }

  /** Calls do not overlap, and the clock does not go back. */
  predicate InOrder(calls: seq<Call>) {
    && (forall i | 0 <= i < |calls| :: calls[i].begin <= calls[i].end)
    && forall i, j | 0 <= i < j < |calls| :: calls[i].end <= calls[j].begin
  }

  predicate SameLimit(calls: seq<Call>, user: string, limit: nat) {
    forall i | 0 <= i < |calls| && calls[i].user == user :: LimitOf(calls[i].tier) == limit
  }

  /** The bucket tells how often the user was admitted, as long as its minute is not over. */
  predicate BucketFits(calls: seq<Call>, user: string, slot: nat, limit: nat) {
    var s, key, start := After(calls), BucketKey(user, slot), StartOf(calls, user, slot);
    && (key in s.buckets ==> start.Some? && s.buckets[key] == start.value + AdmittedIn(calls, user, slot))
    && (key !in s.buckets && start.Some? ==> exists i :: 0 <= i < |calls| && SlotAt(calls[i].end) > slot)
    && (start.None? ==> AdmittedIn(calls, user, slot) == 0)
    && (start.Some? && AdmittedIn(calls, user, slot) > 0 ==> start.value + AdmittedIn(calls, user, slot) <= limit)
  }

  /** At most once in 60 000 ms a cleanup drops the buckets of minutes that are over, and no others. */
  lemma CleanupOf(s: State, now: nat, user: string, slot: nat)
    ensures var t, key := Cleanup(s, now), BucketKey(user, slot);
      && (key in t.buckets ==> key in s.buckets && t.buckets[key] == s.buckets[key])
      && (key in s.buckets && key !in t.buckets ==> SlotAt(now) > slot)
      && (now < s.lastCleanup + 60_000 ==> t == s)
      && (now >= s.lastCleanup + 60_000 ==>
            (key in t.buckets <==> key in s.buckets && now < (slot + 1) * 60_000) && t.lastCleanup == now)
  {
    SlotOfKey(user, slot);
    assert SlotAt(now) > slot <==> now >= (slot + 1) * 60_000;
    hide BucketKey, KeySlot;
  }

  /** What one call does to a bucket. */
  lemma CheckOf(s: State, c: Call, user: string, slot: nat)
    ensures var t, key := Check(s, c), BucketKey(user, slot);
      && (key in t.buckets ==>
            t.buckets[key] == (if Counts(c, user, slot) then Loaded(s, c) + (if Admits(s, c) then 1 else 0)
                               else if key in s.buckets then s.buckets[key] else 0))
      && (key in t.buckets ==> Counts(c, user, slot) || key in s.buckets)
      && (key !in t.buckets && (key in s.buckets || Counts(c, user, slot)) ==> SlotAt(c.end) > slot)
  {
    var key := BucketKey(user, slot);
    if !c.admin {
      if KeyOf(c) == key { KeysAreInjective(c.user, SlotAt(c.begin), user, slot); }
      var u := s.(buckets := s.buckets[KeyOf(c) := Loaded(s, c) + 1]);
      CleanupOf(u, c.end, user, slot);
    }
    hide BucketKey, KeySlot, Cleanup, LimitOf;
  }

  lemma {:induction false} BucketAlwaysFits(calls: seq<Call>, user: string, slot: nat, limit: nat)
    requires InOrder(calls) && SameLimit(calls, user, limit)
    ensures BucketFits(calls, user, slot, limit)
  {
    hide Check, Admits, Loaded, BucketKey;
    if calls != [] {
      var before, c := calls[..|calls| - 1], calls[|calls| - 1];
      BucketAlwaysFits(before, user, slot, limit);
      CheckOf(After(before), c, user, slot);
      StepFits(calls, user, slot, limit);
    }
  }

  lemma StepFits(calls: seq<Call>, user: string, slot: nat, limit: nat)
    requires calls != [] && InOrder(calls) && SameLimit(calls, user, limit)
    requires BucketFits(calls[..|calls| - 1], user, slot, limit)
    ensures BucketFits(calls, user, slot, limit)
  {
    var before, c := calls[..|calls| - 1], calls[|calls| - 1];
    CheckOf(After(before), c, user, slot);
    hide Check, BucketKey, KeySlot, Cleanup, LimitOf;
    if Counts(c, user, slot) && StartOf(before, user, slot).Some? {
      StillThere(calls, user, slot, limit);
    }
  }

  /** Before a call for the bucket no earlier call has seen a later minute, so the bucket is still there. */
  lemma StillThere(calls: seq<Call>, user: string, slot: nat, limit: nat)
    requires calls != [] && InOrder(calls) && Counts(calls[|calls| - 1], user, slot)
    requires BucketFits(calls[..|calls| - 1], user, slot, limit) && StartOf(calls[..|calls| - 1], user, slot).Some?
    ensures BucketKey(user, slot) in After(calls[..|calls| - 1]).buckets
  {
  }

  /**
   * A user with a fixed tier is admitted at most `limit` times in a minute; and a call is admitted exactly when
   * what the bucket started with and the admissions since do not reach the limit.
   */
  lemma AtMostLimitPerSlot(calls: seq<Call>, user: string, slot: nat, limit: nat)
    requires InOrder(calls) && SameLimit(calls, user, limit)
    ensures AdmittedIn(calls, user, slot) <= limit
  {
    BucketAlwaysFits(calls, user, slot, limit);
  }

  lemma AdmittedExactlyBelow(calls: seq<Call>, c: Call, limit: nat)
    requires InOrder(calls + [c]) && SameLimit(calls + [c], c.user, limit) && !c.admin
    ensures var slot := SlotAt(c.begin); var start := StartOf(calls + [c], c.user, slot);
      start.Some? && (Admits(After(calls), c) <==> start.value + AdmittedIn(calls, c.user, slot) < limit)
  {
    var all, slot := calls + [c], SlotAt(c.begin);
    assert all[..|all| - 1] == calls;
    assert InOrder(calls) && SameLimit(calls, c.user, limit);
    BucketAlwaysFits(calls, c.user, slot, limit);
    assert LimitOf(all[|all| - 1].tier) == limit;
    if StartOf(calls, c.user, slot).Some? { StillThere(all, c.user, slot, limit); }
  }

  /** What the store held for the first call that counts for the bucket. */
  function FirstStored(calls: seq<Call>, user: string, slot: nat): Option<nat> {
    if calls == [] then None
    else
      var before, c := calls[..|calls| - 1], calls[|calls| - 1];
      if FirstStored(before, user, slot).Some? then FirstStored(before, user, slot)
      else if Counts(c, user, slot) then Some(if c.stored <= 0 then 0 else c.stored)
      else None
  }

  lemma {:induction false} StartIsStored(calls: seq<Call>, user: string, slot: nat, limit: nat)
    requires InOrder(calls) && SameLimit(calls, user, limit)
    ensures StartOf(calls, user, slot) == FirstStored(calls, user, slot)
  {
    hide Check, Admits, BucketKey, Cleanup;
    if calls != [] {
      var before, c := calls[..|calls| - 1], calls[|calls| - 1];
      StartIsStored(before, user, slot, limit);
      BucketAlwaysFits(before, user, slot, limit);
    }
  }

  /** The tiers: a call is refused once 12, 30, 60 or 120 are counted in its minute. */
  lemma TiersAdmit(calls: seq<Call>, c: Call)
    requires InOrder(calls + [c]) && !c.admin
    requires forall i | 0 <= i < |calls| && calls[i].user == c.user :: calls[i].tier == c.tier
    ensures var minute := c.begin / 60_000;
      var start := FirstStored(calls + [c], c.user, minute);
      start.Some? &&
      var counted := start.value + AdmittedIn(calls, c.user, minute);
      && (c.tier == "basic" ==> (Admits(After(calls), c) <==> counted < 12))
      && (c.tier == "standard" ==> (Admits(After(calls), c) <==> counted < 30))
      && (c.tier == "pro" ==> (Admits(After(calls), c) <==> counted < 60))
      && (c.tier == "enterprise" ==> (Admits(After(calls), c) <==> counted < 120))
      && (c.tier !in ["basic", "standard", "pro", "enterprise"] ==> (Admits(After(calls), c) <==> counted < 12))
  {
    hide Admits, StartOf, FirstStored, AdmittedIn, After;
    assert SameLimit(calls + [c], c.user, LimitOf(c.tier)) by {
      assert forall i | 0 <= i < |calls| :: (calls + [c])[i] == calls[i];
    }
    AdmittedExactlyBelow(calls, c, LimitOf(c.tier));
    StartIsStored(calls + [c], c.user, SlotAt(c.begin), LimitOf(c.tier));
    assert SlotAt(c.begin) == c.begin / 60_000;
  }

  // ---- Any interval of one minute ----

  function AdmittedBetween(calls: seq<Call>, user: string, from: nat, to: nat): nat {
    if calls == [] then 0
    else
      var before, c := calls[..|calls| - 1], calls[|calls| - 1];
      AdmittedBetween(before, user, from, to)
      + (if !c.admin && c.user == user && from <= c.begin <= to && Admits(After(before), c) then 1 else 0)
  }

  lemma TwoSlots(from: nat, t: nat)
    requires from <= t <= from + WINDOW_MS
    ensures SlotAt(t) == SlotAt(from) || SlotAt(t) == SlotAt(from) + 1
  {
  }

  lemma {:induction false} BetweenIsInTwoSlots(calls: seq<Call>, user: string, from: nat)
    ensures AdmittedBetween(calls, user, from, from + WINDOW_MS)
            <= AdmittedIn(calls, user, SlotAt(from)) + AdmittedIn(calls, user, SlotAt(from) + 1)
  {
    hide Admits, After;
    if calls != [] {
      var before, c := calls[..|calls| - 1], calls[|calls| - 1];
      BetweenIsInTwoSlots(before, user, from);
      if from <= c.begin <= from + WINDOW_MS { TwoSlots(from, c.begin); }
      hide SlotAt;
    }
  }

  /** In any closed interval of 60 000 ms a user is admitted at most twice the limit. */
  lemma AtMostTwiceInAnyMinute(calls: seq<Call>, user: string, from: nat, limit: nat)
    requires InOrder(calls) && SameLimit(calls, user, limit)
    ensures AdmittedBetween(calls, user, from, from + 60_000) <= 2 * limit
  {
    BetweenIsInTwoSlots(calls, user, from);
    AtMostLimitPerSlot(calls, user, SlotAt(from), limit);
    AtMostLimitPerSlot(calls, user, SlotAt(from) + 1, limit);
  }

  // ---- The bound is reached ----

  /** n calls of a user at one moment. */
  function Burst(user: string, tier: string, at: nat, n: nat): seq<Call> {
    if n == 0 then [] else Burst(user, tier, at, n - 1) + [Call(user, false, tier, at, at, 0)]
  }

  /** All calls so far ended by then, and m of those in the current minute were admitted, from an empty bucket. */
  predicate Admitted(calls: seq<Call>, user: string, tier: string, at: nat, m: nat) {
    && InOrder(calls) && SameLimit(calls, user, LimitOf(tier))
    && (forall i | 0 <= i < |calls| :: calls[i].end <= at)
    && AdmittedIn(calls, user, SlotAt(at)) == m
    && StartOf(calls, user, SlotAt(at)) == if m == 0 then None else Some(0)
  }

  lemma OneMore(calls: seq<Call>, user: string, tier: string, at: nat, m: nat, from: nat, to: nat)
    requires Admitted(calls, user, tier, at, m) && m < LimitOf(tier) && from <= at <= to
    ensures var more := calls + [Call(user, false, tier, at, at, 0)];
      && Admitted(more, user, tier, at, m + 1)
      && AdmittedBetween(more, user, from, to) == AdmittedBetween(calls, user, from, to) + 1
  {
    var c := Call(user, false, tier, at, at, 0);
    var more := calls + [c];
    assert more[..|more| - 1] == calls && more[|more| - 1] == c;
    assert InOrder(more) && SameLimit(more, user, LimitOf(tier));
    AdmittedExactlyBelow(calls, c, LimitOf(tier));
    BucketAlwaysFits(calls, user, SlotAt(at), LimitOf(tier));
    hide InOrder, SameLimit, After, LimitOf, SlotAt, BucketKey, Cleanup, Check;
  }

  lemma {:induction false} BurstIsAdmitted(before: seq<Call>, user: string, tier: string, at: nat, n: nat,
                                           from: nat, to: nat)
    requires Admitted(before, user, tier, at, 0) && n <= LimitOf(tier) && from <= at <= to
    ensures var all := before + Burst(user, tier, at, n);
      && Admitted(all, user, tier, at, n)
      && AdmittedBetween(all, user, from, to) == AdmittedBetween(before, user, from, to) + n
  {
    hide Admitted, LimitOf, AdmittedBetween;
    var all := before + Burst(user, tier, at, n);
    if n == 0 {
      assert all == before;
    } else {
      BurstIsAdmitted(before, user, tier, at, n - 1, from, to);
      OneMore(before + Burst(user, tier, at, n - 1), user, tier, at, n - 1, from, to);
      assert all == (before + Burst(user, tier, at, n - 1)) + [Call(user, false, tier, at, at, 0)];
    }
  }

  /** Twice the limit is reached within one millisecond: at the end of a minute and at the start of the next. */
  lemma TwiceTheLimitIsReached(user: string, tier: string, k: nat) returns (calls: seq<Call>)
    ensures InOrder(calls) && SameLimit(calls, user, LimitOf(tier))
    ensures AdmittedBetween(calls, user, k * 60_000 + 59_999, (k + 1) * 60_000) == 2 * LimitOf(tier)
  {
    var last, next := k * WINDOW_MS + WINDOW_MS - 1, (k + 1) * WINDOW_MS;
    hide Admitted, LimitOf, SlotAt, Burst;
    SlotsOf(k);
    assert Admitted([], user, tier, last, 0) by { NothingYet(user, tier, last); }
    BurstIsAdmitted([], user, tier, last, LimitOf(tier), last, next);
    var first := [] + Burst(user, tier, last, LimitOf(tier));
    OtherSlot(first, user, tier, last, next, LimitOf(tier));
    BurstIsAdmitted(first, user, tier, next, LimitOf(tier), last, next);
    calls := first + Burst(user, tier, next, LimitOf(tier));
    AdmittedInOrder(calls, user, tier, next, LimitOf(tier));
  }

  lemma SlotsOf(k: nat)
    ensures SlotAt(k * WINDOW_MS + WINDOW_MS - 1) == k && SlotAt((k + 1) * WINDOW_MS) == k + 1
  {
  }

  lemma NothingYet(user: string, tier: string, at: nat)
    ensures Admitted([], user, tier, at, 0)
  {
  }

  lemma AdmittedInOrder(calls: seq<Call>, user: string, tier: string, at: nat, m: nat)
    requires Admitted(calls, user, tier, at, m)
    ensures InOrder(calls) && SameLimit(calls, user, LimitOf(tier))
  {
  }

  lemma OtherSlot(calls: seq<Call>, user: string, tier: string, last: nat, next: nat, m: nat)
    requires Admitted(calls, user, tier, last, m) && SlotAt(last) < SlotAt(next)
    ensures Admitted(calls, user, tier, next, 0)
  {
    forall i | 0 <= i < |calls| ensures !Counts(calls[i], user, SlotAt(next)) && calls[i].end <= next {
      assert calls[i].begin <= calls[i].end <= last;
      if SlotAt(last) < SlotAt(next) { assert last < next; }
    }
    NotCounted(calls, user, SlotAt(next));
  }

  lemma {:induction false} NotCounted(calls: seq<Call>, user: string, slot: nat)
    requires forall i | 0 <= i < |calls| :: !Counts(calls[i], user, slot)
    ensures AdmittedIn(calls, user, slot) == 0 && StartOf(calls, user, slot) == None
  {
    if calls != [] { NotCounted(calls[..|calls| - 1], user, slot); }
  }

  // ---- The module state of the source ----

  class RequestQuota {
    var buckets: map<string, nat>
    var lastCleanup: nat

    ghost function Snapshot(): State
      reads this
    {
      State(buckets, lastCleanup)
    }

    constructor ()
      ensures Snapshot() == INITIAL
    {
      buckets, lastCleanup := map[], 0;
    }

    method CleanupExpiredBuckets(now: nat)
      modifies this
      ensures Snapshot() == Cleanup(old(Snapshot()), now)
    {
      if now - lastCleanup < WINDOW_MS { return; }
      hide Expired, SlotAt;
      ghost var before := buckets;
      lastCleanup := now;
      var keys := buckets.Keys;
      while keys != {}
        invariant keys <= before.Keys
        invariant forall key :: key in buckets <==> key in before && (key in keys || !Expired(key, now))
        invariant forall key | key in buckets :: buckets[key] == before[key]
        invariant lastCleanup == now
        decreases |keys|
      {
        var key :| key in keys;
        keys := keys - {key};
        if Expired(key, now) {
          buckets := buckets - {key};
        }
      }
      assert buckets == map key | key in before && !Expired(key, now) :: before[key];
    }

    /** `stored` is the number in the settings store, if the bucket has to be loaded. */
    method LoadBucketCount(key: string, stored: int) returns (count: nat)
      modifies this
      ensures count == if key in old(buckets) then old(buckets)[key] else if stored > 0 then stored else 0
      ensures buckets == old(buckets)[key := count] && lastCleanup == old(lastCleanup)
    {
      if key in buckets {
        assert buckets == buckets[key := buckets[key]];
        return buckets[key];
      }
      count := if stored > 0 then stored else 0;
      buckets := buckets[key := count];
    }

    /** checkLlmRequestQuota, with the tier of the user's quota row and the clock at its two reads. */
    method CheckLlmRequestQuota(c: Call) returns (ok: bool)
      modifies this
      ensures Snapshot() == Check(old(Snapshot()), c) && ok == Admits(old(Snapshot()), c)
    {
      hide BucketKey, Cleanup, LimitOf, SlotAt;
      if c.admin { return true; }
      var key := BucketKey(c.user, SlotAt(c.begin));
      var current := LoadBucketCount(key, c.stored);
      if current >= LimitOf(c.tier) { return false; }
      ghost var loaded := buckets;
      buckets := buckets[key := current + 1];
      assert buckets == old(buckets)[key := current + 1];
      CleanupExpiredBuckets(c.end);
      ok := true;
    }
  }
}
