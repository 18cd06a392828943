/** The retries of the project delete. */
module ProjectDeleteRetries {
  // When other requests write during an attempt it can fail; a later attempt that is left alone decides.

  import opened Wrappers
  import opened ProjectDelete
  import opened ProjectDeleteQuiet

  // ---- How often an attempt fails ----

  /** A statement of the running attempt violates a foreign key. */
  predicate Fails(s: State, p: nat, e: Event) {
    e.Execute? && Delete(s.db, Matched(s.db, p, s.sids, e.table)).None?
  }

  /** How many attempts failed in a run. */
  function FailedAttempts(s: State, p: nat, events: seq<Event>): nat
    requires CanRun(s, p, events)
    decreases |events|
  {
    if events == [] then 0
    else (if Fails(s, p, events[0]) then 1 else 0) + FailedAttempts(Apply(s, p, events[0]), p, events[1..])
  }

  /** The attempts that failed so far, as the state shows them. */
  function FailedBefore(s: State): int { if s.phase == Done(false) then s.attempt else s.attempt - 1 }

  predicate AttemptFits(s: State) {
    1 <= s.attempt <= 3 && (s.phase == Done(false) ==> s.attempt == 3)
  }

  lemma StepCountsFailure(s: State, p: nat, e: Event)
    requires AttemptFits(s) && Enabled(s, e)
    ensures AttemptFits(Apply(s, p, e))
    ensures FailedBefore(Apply(s, p, e)) == FailedBefore(s) + (if Fails(s, p, e) then 1 else 0)
  {
    hide Matched, Delete, RoundTables, Writable, SameOwner;
  }

  lemma {:induction false} RunCountsFailures(s: State, p: nat, events: seq<Event>)
    requires AttemptFits(s) && CanRun(s, p, events)
    ensures AttemptFits(Run(s, p, events))
    ensures FailedBefore(Run(s, p, events)) == FailedBefore(s) + FailedAttempts(s, p, events)
    decreases |events|
  {
    hide Enabled, Apply, Fails, FailedBefore, AttemptFits;
    if events != [] {
      StepCountsFailure(s, p, events[0]);
      RunCountsFailures(Apply(s, p, events[0]), p, events[1..]);
    }
  }

  /** The delete gives up exactly when three attempts have failed, and no fourth is made. */
  lemma GivesUpExactly(db: Db, p: nat, events: seq<Event>)
    requires CanRun(Initial(db), p, events)
    ensures Run(Initial(db), p, events).phase == Done(false) <==> FailedAttempts(Initial(db), p, events) == 3
    ensures FailedAttempts(Initial(db), p, events) <= 3
  {
    RunCountsFailures(Initial(db), p, events);
    hide Run, FailedAttempts;
  }

  // ---- An attempt that is left alone ----

  /** No row of the project is left in these tables. */
  predicate Emptied(db: Db, p: nat, tables: set<Table>) {
    forall k | k in db && k.table in tables :: !Belongs(db, k, p)
  }

  /** The list names at least the project's sessions. */
  predicate Lists(db: Db, p: nat, sids: set<nat>) {
    forall k | k in db && k.table == Sessions && OwnSession(db, k.id, p) :: k.id in sids
  }

  lemma ShrinkKeepsOwner(db: Db, after: Db, p: nat, k: Key)
    requires Consistent(db) && Consistent(after) && Shrinks(db, after) && k in after
    ensures Belongs(after, k, p) <==> Belongs(db, k, p)
  {
    if Cascades(k.table) {
      SessionDecides(db, k, p);
      SessionDecides(after, k, p);
      var session := Key(Sessions, db[k][Sessions]);
      assert session in after && after[session] == db[session];
    }
  }

  lemma ShrinkKeeps(db: Db, after: Db, p: nat, sids: set<nat>, tables: set<Table>)
    requires Consistent(db) && Consistent(after) && Shrinks(db, after)
    requires StaysWithin(db, p) && Lists(db, p, sids) && Emptied(db, p, tables)
    ensures StaysWithin(after, p) && Lists(after, p, sids) && Emptied(after, p, tables)
  {
    forall k | k in after ensures Belongs(after, k, p) <==> Belongs(db, k, p) { ShrinkKeepsOwner(db, after, p, k); }
    hide Belongs;
    forall k, t | k in after && t in after[k] && Belongs(after, Key(t, after[k][t]), p) ensures Belongs(after, k, p) {
      ReferredIsThere(after, k, t);
    }
    assert forall k | k in after && k.table == Sessions && OwnSession(after, k.id, p) :: OwnSession(db, k.id, p);
  }

  lemma StatementWorks(db: Db, used: set<Key>, p: nat, sids: set<nat>, done: set<Table>, table: Table)
    requires Consistent(db) && StaysWithin(db, p) && Lists(db, p, sids) && SidsOwned(db, used, sids, p)
    requires db.Keys <= used && Emptied(db, p, done) && forall child | table in Parents(child) :: child in done
    ensures var result := Delete(db, Matched(db, p, sids, table));
      result.Some? && Shrinks(db, result.value) && Emptied(result.value, p, done + {table})
  {
    var rows := Matched(db, p, sids, table);
    NothingBlocks(db, used, p, sids, done, table);
    DeleteIsConsistent(db, rows);
    DeleteShrinks(db, rows);
    var after := Delete(db, rows).value;
    forall k | k in after && k.table in done + {table} ensures !Belongs(after, k, p) {
      ShrinkKeepsOwner(db, after, p, k);
      if k.table !in done && Belongs(db, k, p) { AllMatched(db, p, sids, table, k); }
    }
  }

  lemma NothingBlocks(db: Db, used: set<Key>, p: nat, sids: set<nat>, done: set<Table>, table: Table)
    requires Consistent(db) && StaysWithin(db, p) && SidsOwned(db, used, sids, p)
    requires db.Keys <= used && Emptied(db, p, done) && forall child | table in Parents(child) :: child in done
    ensures Delete(db, Matched(db, p, sids, table)).Some?
  {
    var rows := Matched(db, p, sids, table);
    var gone := rows + Cascaded(db, rows);
    forall k, d | d in gone ensures !Refers(db, k, d) {
      GoneBelongs(db, used, p, sids, table, d);
      if Refers(db, k, d) {
        ParentIsNoLeaf(db, k, d.table);
        ReferrerBelongs(db, p, k, d);
      }
    }
  }

  lemma ReferrerBelongs(db: Db, p: nat, k: Key, d: Key)
    requires StaysWithin(db, p) && Refers(db, k, d) && Belongs(db, d, p)
    ensures Belongs(db, k, p)
  {
    assert Key(d.table, db[k][d.table]) == d;
    hide Belongs;
  }

  lemma GoneBelongs(db: Db, used: set<Key>, p: nat, sids: set<nat>, table: Table, k: Key)
    requires Consistent(db) && db.Keys <= used && SidsOwned(db, used, sids, p)
    requires k in Matched(db, p, sids, table) + Cascaded(db, Matched(db, p, sids, table))
    ensures Belongs(db, k, p) && (k in Matched(db, p, sids, table) ==> k.table == table) &&
        (k !in Matched(db, p, sids, table) ==> Cascades(k.table))
  {
    if k in Matched(db, p, sids, table) {
      if Cascades(table) { SessionDecides(db, k, p); }
    } else {
      SessionDecides(db, k, p);
    }
  }

  lemma AllMatched(db: Db, p: nat, sids: set<nat>, table: Table, k: Key)
    requires Consistent(db) && Lists(db, p, sids) && k in db && k.table == table && Belongs(db, k, p)
    ensures k in Matched(db, p, sids, table)
  {
    if Cascades(table) { SessionDecides(db, k, p); }
  }

  /** An attempt that began with references within the project, and in which only the delete itself has run. */
  ghost predicate LeftAlone(s: State, p: nat) {
    && Inv(s, p) && AttemptFits(s) && StaysWithin(s.db, p) && s.phase != Done(false)
    && (s.phase.InRound? ==> Lists(s.db, p, s.sids) && Emptied(s.db, p, DoneTables(s.phase)))
  }

  lemma AloneExecutes(s: State, p: nat, table: Table)
    requires LeftAlone(s, p) && Enabled(s, Execute(table))
    ensures LeftAlone(Apply(s, p, Execute(table)), p)
  {
    hide StaysWithin, Lists, Emptied, Consistent, SidsOwned, Matched, Delete, Parents, DoneTables, Advance, Belongs;
    var done := DoneTables(s.phase);
    var rows := Matched(s.db, p, s.sids, table);
    ChildrenAreDone(s.phase, table);
    StatementWorks(s.db, s.used, p, s.sids, done, table);
    var after := Delete(s.db, rows).value;
    StepKeepsInv(s, p, Execute(table));
    StepCountsFailure(s, p, Execute(table));
    ShrinkKeeps(s.db, after, p, s.sids, done);
    AdvanceFits(s.phase, table);
    AdvanceIsNoFailure(s.phase, table);
  }

  lemma AdvanceIsNoFailure(phase: Phase, table: Table)
    requires phase.InRound?
    ensures Advance(phase, table) != Done(false)
  {
  }

  lemma AloneExecutesLate(s: State, p: nat, i: nat)
    requires LeftAlone(s, p) && Enabled(s, ExecuteLate(i))
    ensures LeftAlone(Apply(s, p, ExecuteLate(i)), p)
  {
    hide StaysWithin, Lists, Emptied, Consistent, SidsOwned, Matched, Delete, DoneTables, Belongs;
    var rows := Matched(s.db, p, s.late[i].sids, s.late[i].table);
    StepKeepsInv(s, p, ExecuteLate(i));
    StepCountsFailure(s, p, ExecuteLate(i));
    if Delete(s.db, rows).Some? {
      var after := Delete(s.db, rows).value;
      DeleteShrinks(s.db, rows);
      DeleteIsConsistent(s.db, rows);
      if s.phase.InRound? {
        ShrinkKeeps(s.db, after, p, s.sids, DoneTables(s.phase));
      } else {
        NothingListed(s.db, p);
        ShrinkKeeps(s.db, after, p, SessionIds(s.db, p), {});
      }
    }
  }

  lemma DeleteShrinks(db: Db, rows: set<Key>)
    requires Delete(db, rows).Some?
    ensures Shrinks(db, Delete(db, rows).value)
  {
  }

  lemma NothingListed(db: Db, p: nat)
    ensures Lists(db, p, SessionIds(db, p)) && Emptied(db, p, {})
  {
  }

  lemma AloneReads(s: State, p: nat)
    requires LeftAlone(s, p) && Enabled(s, ReadSessions)
    ensures LeftAlone(Apply(s, p, ReadSessions), p)
  {
    StepKeepsInv(s, p, ReadSessions);
    NothingListed(s.db, p);
    RoundsNotEmpty();
    assert DoneTables(InRound(1, RoundTables(1))) == {};
    hide StaysWithin, Lists, Emptied, Inv, DoneTables, RoundTables, SessionIds;
  }

  lemma {:induction false} RunLeftAlone(s: State, p: nat, events: seq<Event>)
    requires LeftAlone(s, p) && CanRun(s, p, events) && forall e | e in events :: !External(e)
    ensures LeftAlone(Run(s, p, events), p)
    decreases |events|
  {
    hide LeftAlone, Enabled, Apply;
    if events != [] {
      var e := events[0];
      assert !External(e);
      if e.ReadSessions? {
        AloneReads(s, p);
      } else if e.Execute? {
        AloneExecutes(s, p, e.table);
      } else {
        AloneExecutesLate(s, p, e.index);
      }
      RunLeftAlone(Apply(s, p, e), p, events[1..]);
    }
  }

  /**
   * Whatever other requests did before an attempt begins, and whatever statements of failed rounds are still to run:
   * if nothing is written from then on, the delete ends, and succeeds if and only if no row outside the project
   * refers to a row of it when the attempt begins.
   */
  lemma LeftAloneDecides(db: Db, p: nat, before: seq<Event>, after: seq<Event>)
    requires Consistent(db) && Key(Projects, p) in db && CanRun(Initial(db), p, before)
    requires Run(Initial(db), p, before).phase == Reading
    requires CanRun(Run(Initial(db), p, before), p, after) && forall e | e in after :: !External(e)
    ensures var s := Run(Initial(db), p, before);
      var t := Run(s, p, after);
      && 1 <= s.attempt <= 3
      && |after| <= Work(s)
      && ((forall e | !External(e) :: !Enabled(t, e)) ==> t.phase == Done(StaysWithin(s.db, p)))
  {
    var s := Run(Initial(db), p, before);
    InitialInv(db, p);
    RunKeepsInv(Initial(db), p, before);
    RunCountsFailures(Initial(db), p, before);
    QuietDecides(s, p, after);
  }

  lemma QuietDecides(s: State, p: nat, after: seq<Event>)
    requires Inv(s, p) && AttemptFits(s) && s.phase == Reading
    requires CanRun(s, p, after) && forall e | e in after :: !External(e)
    ensures var t := Run(s, p, after);
      && |after| <= Work(s)
      && ((forall e | !External(e) :: !Enabled(t, e)) ==> t.phase == Done(StaysWithin(s.db, p)))
  {
    hide Inv, Run, CanRun, StaysWithin, Work;
    var t := Run(s, p, after);
    RunKeepsInv(s, p, after);
    RunUsesWork(s, p, after);
    RunCountsFailures(s, p, after);
    WorkLeft(t, p);
    if forall e | !External(e) :: !Enabled(t, e) {
      StuckIsDone(t, p);
      if StaysWithin(s.db, p) {
        RunLeftAlone(s, p, after);
      } else {
        OutsideBlocks(s, p, after);
      }
    }
  }

  lemma WorkLeft(t: State, p: nat)
    requires 1 <= t.attempt <= 3
    ensures Work(t) >= 0
  {
  }

  lemma OutsideBlocks(s: State, p: nat, events: seq<Event>)
    requires Inv(s, p) && !StaysWithin(s.db, p)
    requires CanRun(s, p, events) && forall e | e in events :: !External(e)
    ensures Run(s, p, events).phase != Done(true)
  {
    RunKeepsInv(s, p, events);
    RunShrinks(s, p, events);
    var k, t :| k in s.db && t in s.db[k] && Belongs(s.db, Key(t, s.db[k][t]), p) && !Belongs(s.db, k, p);
    OthersUnchanged(s, p, events, k);
    hide Belongs, Run, CanRun, Consistent;
    OutsideReferenceBlocks(s.db, Run(s, p, events).db, p, k);
  }
}
