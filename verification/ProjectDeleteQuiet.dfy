/** The project delete with nothing written meanwhile. */
module ProjectDeleteQuiet {
  // It succeeds exactly when references stay within the project.

  import opened Wrappers
  import opened ProjectDelete

  /** References to rows of the project come from rows of the project. */
  predicate StaysWithin(db: Db, p: nat) {
    forall k, t | k in db && t in db[k] && Belongs(db, Key(t, db[k][t]), p) :: Belongs(db, k, p)
  }

  function Owned(db: Db, p: nat, tables: set<Table>): set<Key> {
    set k | k in db && k.table in tables && Belongs(db, k, p)
  }

  lemma MatchedIsOwned(db: Db, p: nat, done: set<Table>, table: Table)
    requires Consistent(db) && table !in done
    ensures Matched(db - Owned(db, p, done), p, SessionIds(db, p), table) == Owned(db, p, {table})
  {
    var rest := db - Owned(db, p, done);
    var sids := SessionIds(db, p);
    assert forall sid :: sid in sids <==> Key(Sessions, sid) in db && OwnSession(db, sid, p);
    forall k ensures k in Matched(rest, p, sids, table) <==> k in Owned(db, p, {table}) {
    }
  }

  /** A statement does not fail once the rows of the tables that refer to its table are gone. */
  lemma StatementSucceeds(db: Db, p: nat, done: set<Table>, table: Table)
    requires Consistent(db) && StaysWithin(db, p) && table !in done
    requires forall child | table in Parents(child) :: child in done
    ensures Delete(db - Owned(db, p, done), Matched(db - Owned(db, p, done), p, SessionIds(db, p), table))
            == Some(db - Owned(db, p, done + {table}))
  {
    var rest := db - Owned(db, p, done);
    MatchedIsOwned(db, p, done, table);
    var rows := Owned(db, p, {table});
    var gone := rows + Cascaded(rest, rows);
    forall k, d | d in rows && Refers(db, k, d) ensures k in Owned(db, p, done) {
      assert Belongs(db, Key(d.table, db[k][d.table]), p) && d.table in Parents(k.table);
    }
    assert forall k, d | d in rows && Refers(rest, k, d) :: Refers(db, k, d);
    assert forall k | k in Cascaded(rest, rows) :: Refers(rest, k, Key(Sessions, rest[k][Sessions]));
    assert Cascaded(rest, rows) <= rows;
    assert gone == rows;
    assert rest - rows == db - Owned(db, p, done + {table});
  }

  // The tables whose rows of the project are gone.
  function DoneTables(phase: Phase): set<Table> {
    match phase
    case Reading => {}
    case InRound(round, pending) =>
      set t | t in ALL_TABLES && (Round(t) < round || (Round(t) == round && t !in pending))
    case Done(_) => ALL_TABLES
  }

  /** The first attempt, on its way. */
  predicate FirstAttempt(s: State, db: Db, p: nat) {
    && s.attempt == 1 && s.late == [] && s.phase != Done(false) && PhaseFits(s.phase)
    && (s.phase.InRound? ==> s.sids == SessionIds(db, p))
    && s.db == db - Owned(db, p, DoneTables(s.phase))
  }

  lemma ChildrenAreDone(phase: Phase, table: Table)
    requires PhaseFits(phase) && phase.InRound? && table in phase.pending
    ensures table !in DoneTables(phase) && forall child | table in Parents(child) :: child in DoneTables(phase)
    ensures DoneTables(Advance(phase, table)) == DoneTables(phase) + {table}
  {
    forall child | table in Parents(child) ensures child in DoneTables(phase) { RoundsRespectGraph(child, table); }
    RoundsNotEmpty();
  }

  lemma ExecuteKeepsFirstAttempt(s: State, db: Db, p: nat, table: Table)
    requires Consistent(db) && StaysWithin(db, p) && FirstAttempt(s, db, p) && Enabled(s, Execute(table))
    ensures FirstAttempt(Apply(s, p, Execute(table)), db, p)
  {
    ChildrenAreDone(s.phase, table);
    StatementSucceeds(db, p, DoneTables(s.phase), table);
    AdvanceFits(s.phase, table);
    hide Consistent, StaysWithin, Parents, DoneTables, Owned, Delete, Matched, SessionIds, PhaseFits;
  }

  lemma StepKeepsFirstAttempt(s: State, db: Db, p: nat, e: Event)
    requires Consistent(db) && StaysWithin(db, p) && FirstAttempt(s, db, p) && Enabled(s, e) && !External(e)
    ensures FirstAttempt(Apply(s, p, e), db, p)
  {
    if e.Execute? {
      ExecuteKeepsFirstAttempt(s, db, p, e.table);
    } else {
      RoundsNotEmpty();
      assert DoneTables(InRound(1, RoundTables(1))) == {};
    }
  }

  /** No statement fails when references stay within the project, whatever the order inside the rounds. */
  lemma {:induction false} NoForeignKeyFails(s: State, db: Db, p: nat, events: seq<Event>)
    requires Consistent(db) && StaysWithin(db, p) && FirstAttempt(s, db, p)
    requires CanRun(s, p, events) && forall e | e in events :: !External(e)
    ensures FirstAttempt(Run(s, p, events), db, p)
    decreases |events|
  {
    hide Consistent, StaysWithin, FirstAttempt, Enabled, Apply;
    if events != [] {
      assert !External(events[0]);
      StepKeepsFirstAttempt(s, db, p, events[0]);
      NoForeignKeyFails(Apply(s, p, events[0]), db, p, events[1..]);
    }
  }

  /** Rows only go. */
  predicate Shrinks(db: Db, after: Db) {
    forall k | k in after :: k in db && after[k] == db[k]
  }

  lemma {:induction false} RunShrinks(s: State, p: nat, events: seq<Event>)
    requires CanRun(s, p, events) && forall e | e in events :: !External(e)
    ensures Shrinks(s.db, Run(s, p, events).db)
    decreases |events|
  {
    if events != [] {
      assert !External(events[0]);
      assert Shrinks(s.db, Apply(s, p, events[0]).db);
      hide Enabled, Apply;
      RunShrinks(Apply(s, p, events[0]), p, events[1..]);
    }
  }

  lemma ParentIsNoLeaf(db: Db, k: Key, t: Table)
    requires Consistent(db) && k in db && t in db[k]
    ensures !Cascades(t)
  {
    assert t in Parents(k.table);
  }

  lemma ProjectOfStays(db: Db, r: Key, p: nat)
    requires Consistent(db) && r in db && (r == Key(Projects, p) || (Projects in db[r] && db[r][Projects] == p))
    ensures Key(Projects, p) in db
  {
    hide Parents, Required;
  }

  /** A reference from outside keeps the project's row in place. */
  lemma OutsideReferenceBlocks(db: Db, after: Db, p: nat, k: Key)
    requires Consistent(db) && Consistent(after) && Shrinks(db, after)
    requires k in after && exists t :: t in db[k] && Belongs(db, Key(t, db[k][t]), p)
    ensures Key(Projects, p) in after
  {
    var t :| t in db[k] && Belongs(db, Key(t, db[k][t]), p);
    var r := Key(t, db[k][t]);
    assert k in db;
    ParentIsNoLeaf(db, k, t);
    assert after[k] == db[k];
    ReferredIsThere(after, k, t);
    hide Consistent;
    ProjectOfStays(after, r, p);
  }

  lemma ReferredIsThere(db: Db, k: Key, t: Table)
    requires Consistent(db) && k in db && t in db[k]
    ensures Key(t, db[k][t]) in db
  {
    hide Parents, Required;
  }

  /** The steps that are left, at most: attempts, rounds, statements. */
  function Work(s: State): int {
    (3 - s.attempt) * 40 + PhaseWork(s.phase) + |s.late|
  }

  function PhaseWork(phase: Phase): nat {
    match phase
    case Reading => 34
    case InRound(round, pending) =>
      20 + |pending| + (if round == 1 then 4 else if round == 2 then 2 else if round == 3 then 1 else 0)
    case Done(_) => 0
  }

  lemma RoundSizes()
    ensures |RoundTables(1)| == 9 && |RoundTables(2)| == 2 && |RoundTables(3)| == 1 && |RoundTables(4)| == 1
  {
    RoundsNotEmpty();
    assert RoundTables(1) == {SessionStreams, SessionConfigs, Deployments, Events, DevProfiles, Checkpoints, Branches,
                              MergeRequests, PullRequests};
  }

  lemma AdvanceUsesWork(phase: Phase, table: Table)
    requires phase.InRound? && PhaseFits(phase) && table in phase.pending
    ensures PhaseWork(Advance(phase, table)) < PhaseWork(phase)
  {
    RoundSizes();
    hide RoundTables;
    assert |phase.pending - {table}| == |phase.pending| - 1;
  }

  lemma {:induction false} LateLength(order: seq<Table>, tables: set<Table>, sids: set<nat>)
    ensures |LateFrom(order, tables, sids)| <= |order|
  {
    if order != [] { LateLength(order[1..], tables, sids); }
  }

  lemma StepUsesWork(s: State, p: nat, e: Event)
    requires Inv(s, p) && 1 <= s.attempt <= 3 && Enabled(s, e) && !External(e)
    ensures 1 <= Apply(s, p, e).attempt <= 3 && Work(Apply(s, p, e)) < Work(s)
  {
    hide Consistent, SidsOwned, Matched, Delete, RoundTables, Advance;
    match e
    case ReadSessions => RoundSizes();
    case Execute(table) =>
      AdvanceUsesWork(s.phase, table);
      LateLength([Projects, Runtimes, Sessions, SessionStreams, SessionConfigs, Deployments, Events, DevProfiles,
                  RepoSnapshots, Checkpoints, Branches, MergeRequests, PullRequests],
                 s.phase.pending - {table}, s.sids);
    case ExecuteLate(i) =>
  }

  lemma {:induction false} RunUsesWork(s: State, p: nat, events: seq<Event>)
    requires Inv(s, p) && 1 <= s.attempt <= 3 && CanRun(s, p, events) && forall e | e in events :: !External(e)
    ensures 1 <= Run(s, p, events).attempt <= 3 && Work(Run(s, p, events)) + |events| <= Work(s)
    decreases |events|
  {
    hide Inv, Enabled, Apply, Work;
    if events != [] {
      assert !External(events[0]);
      StepUsesWork(s, p, events[0]);
      StepKeepsInv(s, p, events[0]);
      RunUsesWork(Apply(s, p, events[0]), p, events[1..]);
    }
  }

  /**
   * With nothing written meanwhile the delete ends, and it succeeds exactly when no row outside the project refers
   * to a row of it. Then it does so in the first attempt, and exactly the project's rows are gone.
   */
  lemma SucceedsExactlyWithin(db: Db, p: nat, events: seq<Event>)
    requires Consistent(db) && Key(Projects, p) in db
    requires CanRun(Initial(db), p, events) && forall e | e in events :: !External(e)
    ensures |events| <= 114
    ensures var t := Run(Initial(db), p, events);
      (forall e | !External(e) :: !Enabled(t, e)) ==>
        && t.phase.Done? && (t.phase.ok <==> StaysWithin(db, p))
        && (t.phase.ok ==> t.attempt == 1 && t.db == db - Owned(db, p, ALL_TABLES))
  {
    InitialInv(db, p);
    RunKeepsInv(Initial(db), p, events);
    RunUsesWork(Initial(db), p, events);
    var t := Run(Initial(db), p, events);
    assert t.attempt <= 3 && Work(t) >= 0;
    if forall e | !External(e) :: !Enabled(t, e) {
      StuckIsDone(t, p);
      if StaysWithin(db, p) {
        assert Owned(db, p, {}) == {} && FirstAttempt(Initial(db), db, p);
        NoForeignKeyFails(Initial(db), db, p, events);
      } else {
        OutsideBlocksRun(db, p, events);
      }
    }
  }

  lemma StuckIsDone(t: State, p: nat)
    requires Inv(t, p) && forall e | !External(e) :: !Enabled(t, e)
    ensures t.phase.Done?
  {
    hide Consistent, SidsOwned, RoundTables;
    assert !Enabled(t, ReadSessions);
    if t.phase.InRound? { var table := CanExecute(t); }
  }

  lemma CanExecute(t: State) returns (table: Table)
    requires t.phase.InRound? && PhaseFits(t.phase)
    ensures Enabled(t, Execute(table))
  {
    table :| table in t.phase.pending;
  }

  lemma OutsideBlocksRun(db: Db, p: nat, events: seq<Event>)
    requires Consistent(db) && Key(Projects, p) in db && !StaysWithin(db, p)
    requires CanRun(Initial(db), p, events) && forall e | e in events :: !External(e)
    ensures Run(Initial(db), p, events).phase != Done(true)
  {
    InitialInv(db, p);
    RunKeepsInv(Initial(db), p, events);
    RunShrinks(Initial(db), p, events);
    var k, t :| k in db && t in db[k] && Belongs(db, Key(t, db[k][t]), p) && !Belongs(db, k, p);
    OthersUnchanged(Initial(db), p, events, k);
    OutsideReferenceBlocks(db, Run(Initial(db), p, events).db, p, k);
  }

  /** A session of project 2 that runs on a runtime of project 1. */
  const SHARED_RUNTIME: Db :=
    map[Key(Projects, 1) := map[], Key(Projects, 2) := map[], Key(Runtimes, 1) := map[Projects := 1],
        Key(Sessions, 1) := map[Projects := 2, Runtimes := 1]]

  /** The delete of project 1 then fails, in whatever order its statements run. */
  lemma SharedRuntimeBlocksDelete(events: seq<Event>)
    requires CanRun(Initial(SHARED_RUNTIME), 1, events) && forall e | e in events :: !External(e)
    requires forall e | !External(e) :: !Enabled(Run(Initial(SHARED_RUNTIME), 1, events), e)
    ensures Consistent(SHARED_RUNTIME) && Run(Initial(SHARED_RUNTIME), 1, events).phase == Done(false)
  {
    SharedRuntime();
    hide *;
    SucceedsExactlyWithin(SHARED_RUNTIME, 1, events);
  }

  lemma SharedRuntime()
    ensures Consistent(SHARED_RUNTIME) && Key(Projects, 1) in SHARED_RUNTIME && !StaysWithin(SHARED_RUNTIME, 1)
  {
    var db, k := SHARED_RUNTIME, Key(Sessions, 1);
    assert Runtimes in db[k] && Belongs(db, Key(Runtimes, db[k][Runtimes]), 1) && !Belongs(db, k, 1);
  }
}
