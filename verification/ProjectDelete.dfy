/** deleteProject.js over the foreign-key graph of schema.js. */
module ProjectDelete {
  // Four rounds of delete statements are retried at most three times, while other requests insert and update rows, and
  // statements of a failed round may still run.

  import opened Wrappers

  /** The tables that hold rows of a project, directly or through a session. */
  datatype Table =
    | Projects | Runtimes | Sessions | SessionStreams | SessionConfigs | Deployments | Events | DevProfiles
    | RepoSnapshots | Checkpoints | Branches | MergeRequests | PullRequests

  datatype Key = Key(table: Table, id: nat)

  /** The foreign-key columns of a row that are not null: the parent's id for each parent table. */
  type Row = map<Table, nat>

  type Db = map<Key, Row>

  /** The references of schema.js. pull_requests is known to the migrations only. */
  function Parents(table: Table): set<Table> {
    match table
    case Projects => {}
    case Sessions => {Projects, Runtimes}
    case SessionStreams => {Sessions}
    case SessionConfigs => {Sessions}
    case Deployments => {Projects, Runtimes}
    case Checkpoints => {Projects, Sessions, RepoSnapshots}
    case _ => {Projects}
  }

  /** The reference columns that are not nullable. */
  function Required(table: Table): set<Table> {
    match table
    case Projects => {}
    case Sessions => {}
    case Events => {}
    case SessionStreams => {Sessions}
    case SessionConfigs => {Sessions}
    case _ => {Projects}
  }

  /** onDelete: 'cascade' */
  predicate Cascades(table: Table) { table == SessionStreams || table == SessionConfigs }

  const ALL_TABLES := {Projects, Runtimes, Sessions, SessionStreams, SessionConfigs, Deployments, Events, DevProfiles,
                       RepoSnapshots, Checkpoints, Branches, MergeRequests, PullRequests}

  /** The round in which a table's rows are deleted. */
  function Round(table: Table): nat {
    match table
    case Projects => 4
    case Runtimes => 3
    case Sessions => 2
    case RepoSnapshots => 2
    case _ => 1
  }

  /** Rows are deleted before the rows they refer to. */
  lemma RoundsRespectGraph(child: Table, parent: Table)
    requires parent in Parents(child)
    ensures 1 <= Round(child) < Round(parent) <= 4
  {
  }

  predicate Refers(db: Db, k: Key, target: Key) {
    k in db && target.table in db[k] && db[k][target.table] == target.id
  }

  /** The constraints the database keeps. */
  predicate Consistent(db: Db) {
    forall k | k in db ::
      && Required(k.table) <= db[k].Keys <= Parents(k.table)
      && forall t | t in db[k] :: Key(t, db[k][t]) in db
  }

  // ---- Delete statements ----

  /** The rows a statement for the project matches; `sids` is the list of session ids it was given. */
  function Matched(db: Db, p: nat, sids: set<nat>, table: Table): set<Key> {
    set k | k in db && k.table == table &&
      (if table == Projects then k.id == p
       else if Cascades(table) then Sessions in db[k] && db[k][Sessions] in sids
       else Projects in db[k] && db[k][Projects] == p)
  }

  function Cascaded(db: Db, rows: set<Key>): set<Key> {
    set k | k in db && Cascades(k.table) && Sessions in db[k] && Key(Sessions, db[k][Sessions]) in rows
  }

  /** A row that stays refers to one that goes. */
  predicate Blocked(db: Db, gone: set<Key>) {
    exists k, d :: k in db && k !in gone && d in gone && Refers(db, k, d)
  }

  /** The effect of a statement: None when it violates a foreign key. */
  function Delete(db: Db, rows: set<Key>): Option<Db> {
    var gone := rows + Cascaded(db, rows);
    if Blocked(db, gone) then None else Some(db - gone)
  }

  lemma DeleteIsConsistent(db: Db, rows: set<Key>)
    requires Consistent(db) && Delete(db, rows).Some?
    ensures Consistent(Delete(db, rows).value)
  {
    var gone := rows + Cascaded(db, rows);
    var rest := db - gone;
    forall k | k in rest ensures forall t | t in rest[k] :: Key(t, rest[k][t]) in rest {
      forall t | t in rest[k] ensures Key(t, rest[k][t]) in rest {
        assert Refers(db, k, Key(t, db[k][t]));
      }
    }
  }

  /** The rows of a project: its own row, those that name it, and what hangs on its sessions. */
  predicate Belongs(db: Db, k: Key, p: nat) {
    && k in db
    && (k == Key(Projects, p)
        || (Projects in db[k] && db[k][Projects] == p)
        || (Cascades(k.table) && Sessions in db[k] && OwnSession(db, db[k][Sessions], p)))
  }

  predicate OwnSession(db: Db, sid: nat, p: nat) {
    Key(Sessions, sid) in db && Projects in db[Key(Sessions, sid)] && db[Key(Sessions, sid)][Projects] == p
  }

  function SessionIds(db: Db, p: nat): set<nat> {
    set k | k in db && k.table == Sessions && OwnSession(db, k.id, p) :: k.id
  }

  /** The tables whose rows can stand in the way of deleting a row. */
  predicate StandsInTheWay(child: Table, table: Table) {
    match table
    case Projects => child !in {Projects, SessionStreams, SessionConfigs}
    case Runtimes => child in {Sessions, Deployments}
    case Sessions => child == Checkpoints
    case RepoSnapshots => child == Checkpoints
    case _ => false
  }

  /** Such a row refers to one that the statement matches. */
  predicate InTheWay(db: Db, p: nat, sids: set<nat>, table: Table, k: Key) {
    && k in db && StandsInTheWay(k.table, table) && table in db[k]
    && Key(table, db[k][table]) in Matched(db, p, sids, table)
  }

  /** Streams and configs hang on a session that the statement matches. */
  predicate HangsOn(db: Db, p: nat, sids: set<nat>, table: Table, k: Key) {
    && table == Sessions && k in db && (k.table == SessionStreams || k.table == SessionConfigs) && Sessions in db[k]
    && Key(Sessions, db[k][Sessions]) in Matched(db, p, sids, Sessions)
  }

  lemma CascadedIs(db: Db, p: nat, sids: set<nat>, table: Table, k: Key)
    ensures k in Cascaded(db, Matched(db, p, sids, table)) <==> HangsOn(db, p, sids, table, k)
  {
  }

  lemma WhoRefers(db: Db, p: nat, sids: set<nat>, table: Table, k: Key, d: Key)
    requires Consistent(db) && d in Matched(db, p, sids, table) && Refers(db, k, d)
    ensures HangsOn(db, p, sids, table, k) || InTheWay(db, p, sids, table, k)
  {
    hide Required;
    assert d.table == table && table in Parents(k.table);
    assert d == Key(table, db[k][table]);
    hide Matched;
  }

  /**
   * A statement fails exactly when another table's row stands in its way: a checkpoint for sessions and snapshots, a
   * session or a deployment for runtimes, any row but streams and configs for the project. When it succeeds the rows
   * it matches are gone, and the streams and configs of its sessions with them, and no others.
   */
  lemma BlockedExactly(db: Db, p: nat, sids: set<nat>, table: Table)
    requires Consistent(db)
    ensures Delete(db, Matched(db, p, sids, table)).None? <==> exists k :: InTheWay(db, p, sids, table, k)
    ensures Delete(db, Matched(db, p, sids, table)).Some? ==>
      forall k :: k in Delete(db, Matched(db, p, sids, table)).value <==>
        k in db && k !in Matched(db, p, sids, table) && !HangsOn(db, p, sids, table, k)
  {
    var rows := Matched(db, p, sids, table);
    var gone := rows + Cascaded(db, rows);
    forall k ensures k in Cascaded(db, rows) <==> HangsOn(db, p, sids, table, k) {
      CascadedIs(db, p, sids, table, k);
    }
    if k :| InTheWay(db, p, sids, table, k) {
      assert k !in gone && Refers(db, k, Key(table, db[k][table]));
    }
    if Blocked(db, gone) {
      var k, d :| k in db && k !in gone && d in gone && Refers(db, k, d);
      assert d in rows by { NothingOnCascaded(db, p, sids, table, k, d); }
      WhoRefers(db, p, sids, table, k, d);
    }
  }

  lemma NothingOnCascaded(db: Db, p: nat, sids: set<nat>, table: Table, k: Key, d: Key)
    requires Consistent(db) && Refers(db, k, d)
    ensures !HangsOn(db, p, sids, table, d)
  {
    assert d.table in Parents(k.table);
  }

  // ---- The state machine ----

  /** Reading the session ids, running the statements of a round, or finished. */
  datatype Phase = Reading | InRound(round: nat, pending: set<Table>) | Done(ok: bool)

  datatype Statement = Statement(table: Table, sids: set<nat>)

  /** `used` are the keys that ever had a row; `late` the statements of failed rounds that have not run yet. */
  datatype State = State(db: Db, used: set<Key>, attempt: nat, phase: Phase, sids: set<nat>, late: seq<Statement>)

  const MAX_DELETE_RETRIES := 3

  function Initial(db: Db): State { State(db, db.Keys, 1, Reading, {}, []) }

  datatype Event =
    | ReadSessions
    | Execute(table: Table)
    | ExecuteLate(index: nat)
    | Insert(key: Key, row: Row)
    | Update(key: Key, row: Row)

  function RoundTables(round: nat): set<Table> {
    set t | t in ALL_TABLES && Round(t) == round
  }

  /** The row can be written under this key. */
  predicate Writable(db: Db, k: Key, row: Row) {
    && Required(k.table) <= row.Keys <= Parents(k.table)
    && forall t | t in row :: Key(t, row[t]) in db
  }

  /** The owner columns are never updated. */
  predicate SameOwner(a: Row, b: Row) {
    forall t | t in {Projects, Sessions} :: (t in a <==> t in b) && (t in a && t in b ==> a[t] == b[t])
  }

  predicate Enabled(s: State, e: Event) {
    match e
    case ReadSessions => s.phase == Reading
    case Execute(table) => s.phase.InRound? && table in s.phase.pending
    case ExecuteLate(i) => i < |s.late|
    case Insert(k, row) => k !in s.used && Writable(s.db, k, row)
    case Update(k, row) => k in s.db && Writable(s.db, k, row) && SameOwner(s.db[k], row)
  }

  /** Other requests can insert and update rows with all references that there are, or with the required ones only. */
  lemma AnyWrite(s: State, k: Key, row: Row)
    requires row.Keys == Required(k.table) || row.Keys == Parents(k.table)
    requires forall t | t in row :: Key(t, row[t]) in s.db
    ensures k !in s.used ==> Enabled(s, Insert(k, row))
    ensures k in s.db && SameOwner(s.db[k], row) ==> Enabled(s, Update(k, row))
  {
    assert Required(k.table) <= Parents(k.table);
  }

  predicate External(e: Event) { e.Insert? || e.Update? }

  /** After a statement of the round succeeded. */
  function Advance(phase: Phase, table: Table): Phase
    requires phase.InRound?
  {
    var pending := phase.pending - {table};
    if pending != {} then InRound(phase.round, pending)
    else if phase.round < 4 then InRound(phase.round + 1, RoundTables(phase.round + 1))
    else Done(true)
  }

  function LateStatements(tables: set<Table>, sids: set<nat>): seq<Statement>
    ensures forall x | x in LateStatements(tables, sids) :: x.table in tables && x.sids == sids
  {
    LateFrom([Projects, Runtimes, Sessions, SessionStreams, SessionConfigs, Deployments, Events, DevProfiles,
              RepoSnapshots, Checkpoints, Branches, MergeRequests, PullRequests], tables, sids)
  }

  function LateFrom(order: seq<Table>, tables: set<Table>, sids: set<nat>): (late: seq<Statement>)
    ensures forall x | x in late :: x.table in tables && x.sids == sids
    ensures forall t | t in order && t in tables :: Statement(t, sids) in late
  {
    if order == [] then []
    else
      (if order[0] in tables then [Statement(order[0], sids)] else []) + LateFrom(order[1..], tables, sids)
  }

  function Apply(s: State, p: nat, e: Event): State
    requires Enabled(s, e)
  {
    match e
    case ReadSessions => s.(sids := SessionIds(s.db, p), phase := InRound(1, RoundTables(1)))
    case Execute(table) =>
      (match Delete(s.db, Matched(s.db, p, s.sids, table))
       case Some(db) => s.(db := db, phase := Advance(s.phase, table))
       // Promise.all rejects; the other statements of the round still run.
       case None =>
         s.(late := s.late + LateStatements(s.phase.pending - {table}, s.sids),
            phase := if s.attempt < MAX_DELETE_RETRIES then Reading else Done(false),
            attempt := if s.attempt < MAX_DELETE_RETRIES then s.attempt + 1 else s.attempt))
    case ExecuteLate(i) =>
      var t := s.(late := s.late[..i] + s.late[i + 1..]);
      (match Delete(s.db, Matched(s.db, p, s.late[i].sids, s.late[i].table))
       case Some(db) => t.(db := db)
       case None => t)
    case Insert(k, row) => s.(db := s.db[k := row], used := s.used + {k})
    case Update(k, row) => s.(db := s.db[k := row])
  }

  // ---- Whatever happens meanwhile ----

  /** A list of session ids holds sessions of the project only; ids are never used twice. */
  ghost predicate SidsOwned(db: Db, used: set<Key>, sids: set<nat>, p: nat) {
    forall sid | sid in sids ::
      Key(Sessions, sid) in used && (Key(Sessions, sid) in db ==> OwnSession(db, sid, p))
  }

  ghost predicate Inv(s: State, p: nat) {
    && Consistent(s.db) && s.db.Keys <= s.used && Key(Projects, p) in s.used
    && SidsOwned(s.db, s.used, s.sids, p)
    && (forall i | 0 <= i < |s.late| :: SidsOwned(s.db, s.used, s.late[i].sids, p))
    && (s.phase == Done(true) ==> Key(Projects, p) !in s.db)
    && PhaseFits(s.phase)
  }

  predicate PhaseFits(phase: Phase) {
    phase.InRound? ==> phase.pending != {} && 1 <= phase.round <= 4 && phase.pending <= RoundTables(phase.round)
  }

  /** Rows may come and go; those that stay keep their owner, and those that come were never there. */
  predicate Drifts(db: Db, used: set<Key>, after: Db) {
    forall k | k in after && k in used :: k in db && SameOwner(db[k], after[k])
  }

  lemma SidsStayOwned(db: Db, used: set<Key>, after: Db, usedAfter: set<Key>, sids: set<nat>, p: nat)
    requires Drifts(db, used, after) && used <= usedAfter && SidsOwned(db, used, sids, p)
    ensures SidsOwned(after, usedAfter, sids, p)
  {
    forall sid | sid in sids && Key(Sessions, sid) in after ensures OwnSession(after, sid, p) {
      assert SameOwner(db[Key(Sessions, sid)], after[Key(Sessions, sid)]);
    }
  }

  lemma DeleteDrifts(db: Db, used: set<Key>, rows: set<Key>)
    requires Delete(db, rows).Some?
    ensures Drifts(db, used, Delete(db, rows).value) && Delete(db, rows).value.Keys <= db.Keys
  {
  }

  lemma WriteIsConsistent(db: Db, k: Key, row: Row)
    requires Consistent(db) && Writable(db, k, row)
    ensures Consistent(db[k := row])
  {
  }

  lemma SessionIdsOwned(db: Db, used: set<Key>, p: nat)
    requires db.Keys <= used
    ensures SidsOwned(db, used, SessionIds(db, p), p)
  {
  }

  lemma RoundsNotEmpty()
    ensures RoundTables(4) == {Projects} && RoundTables(3) == {Runtimes} && RoundTables(2) == {Sessions, RepoSnapshots}
    ensures Checkpoints in RoundTables(1)
  {
  }

  lemma AdvanceFits(phase: Phase, table: Table)
    requires phase.InRound? && PhaseFits(phase) && table in phase.pending
    ensures PhaseFits(Advance(phase, table)) && (Advance(phase, table) == Done(true) ==> table == Projects)
  {
    RoundsNotEmpty();
    hide RoundTables;
  }

  lemma SidsStay(s: State, p: nat, after: Db, used: set<Key>)
    requires Inv(s, p) && Drifts(s.db, s.used, after) && s.used <= used
    ensures SidsOwned(after, used, s.sids, p)
    ensures forall i | 0 <= i < |s.late| :: SidsOwned(after, used, s.late[i].sids, p)
  {
    hide Consistent, SidsOwned, Drifts, PhaseFits;
    SidsStayOwned(s.db, s.used, after, used, s.sids, p);
    forall i | 0 <= i < |s.late| ensures SidsOwned(after, used, s.late[i].sids, p) {
      SidsStayOwned(s.db, s.used, after, used, s.late[i].sids, p);
    }
  }

  lemma ProjectRowGoes(db: Db, p: nat, sids: set<nat>)
    requires Delete(db, Matched(db, p, sids, Projects)).Some?
    ensures Key(Projects, p) !in Delete(db, Matched(db, p, sids, Projects)).value
  {
    assert Key(Projects, p) in db ==> Key(Projects, p) in Matched(db, p, sids, Projects);
  }

  lemma ExecuteKeepsInv(s: State, p: nat, table: Table)
    requires Inv(s, p) && Enabled(s, Execute(table))
    ensures Inv(Apply(s, p, Execute(table)), p)
  {
    hide Consistent, SidsOwned, Drifts, Matched, Delete, Advance, PhaseFits, LateStatements;
    var rows := Matched(s.db, p, s.sids, table);
    var result := Delete(s.db, rows);
    if result.Some? {
      DeleteIsConsistent(s.db, rows);
      DeleteDrifts(s.db, s.used, rows);
      SidsStay(s, p, result.value, s.used);
      AdvanceFits(s.phase, table);
      if table == Projects { ProjectRowGoes(s.db, p, s.sids); }
    } else {
      OutsideRoundsFits();
    }
  }

  lemma OutsideRoundsFits()
    ensures PhaseFits(Reading) && forall ok :: PhaseFits(Done(ok))
  {
  }

  lemma LateKeepsInv(s: State, p: nat, i: nat)
    requires Inv(s, p) && Enabled(s, ExecuteLate(i))
    ensures Inv(Apply(s, p, ExecuteLate(i)), p)
  {
    hide Consistent, SidsOwned, Drifts, Matched, Delete, PhaseFits;
    var rows := Matched(s.db, p, s.late[i].sids, s.late[i].table);
    var result := Delete(s.db, rows);
    if result.Some? {
      DeleteIsConsistent(s.db, rows);
      DeleteDrifts(s.db, s.used, rows);
      SidsStay(s, p, result.value, s.used);
    }
    var late := s.late[..i] + s.late[i + 1..];
    assert forall j | 0 <= j < |late| :: late[j] == s.late[if j < i then j else j + 1];
  }

  lemma WriteKeepsInv(s: State, p: nat, e: Event)
    requires Inv(s, p) && Enabled(s, e) && External(e)
    ensures Inv(Apply(s, p, e), p)
  {
    var after := s.db[e.key := e.row];
    WriteIsConsistent(s.db, e.key, e.row);
    assert Drifts(s.db, s.used, after);
    SidsStay(s, p, after, Apply(s, p, e).used);
    hide Consistent, SidsOwned, Drifts, PhaseFits, Writable, SameOwner;
  }

  /** Every step, of the delete or of another request, keeps the invariant. */
  lemma StepKeepsInv(s: State, p: nat, e: Event)
    requires Inv(s, p) && Enabled(s, e)
    ensures Inv(Apply(s, p, e), p)
  {
    match e
    case ReadSessions =>
      SessionIdsOwned(s.db, s.used, p);
      RoundsNotEmpty();
      hide Consistent, SidsOwned, SessionIds, RoundTables;
    case Execute(table) => ExecuteKeepsInv(s, p, table);
    case ExecuteLate(i) => LateKeepsInv(s, p, i);
    case Insert(_, _) => WriteKeepsInv(s, p, e);
    case Update(_, _) => WriteKeepsInv(s, p, e);
  }

  // ---- Whole runs ----

  predicate CanRun(s: State, p: nat, events: seq<Event>)
    decreases |events|
  {
    events == [] || (Enabled(s, events[0]) && CanRun(Apply(s, p, events[0]), p, events[1..]))
  }

  function Run(s: State, p: nat, events: seq<Event>): State
    requires CanRun(s, p, events)
    decreases |events|
  {
    if events == [] then s else Run(Apply(s, p, events[0]), p, events[1..])
  }

  lemma {:induction false} RunKeepsInv(s: State, p: nat, events: seq<Event>)
    requires Inv(s, p) && CanRun(s, p, events)
    ensures Inv(Run(s, p, events), p)
    decreases |events|
  {
    hide Inv, Enabled, Apply;
    if events != [] {
      StepKeepsInv(s, p, events[0]);
      RunKeepsInv(Apply(s, p, events[0]), p, events[1..]);
    }
  }

  lemma InitialInv(db: Db, p: nat)
    requires Consistent(db) && Key(Projects, p) in db
    ensures Inv(Initial(db), p)
  {
    hide Consistent;
  }

  /**
   * With any interleaving of other requests, success in any of the attempts means that the project is gone, that
   * no row refers to it, and that no row of it is left, then and at any later time.
   */
  lemma SuccessLeavesNothing(db: Db, p: nat, events: seq<Event>, k: Key)
    requires Consistent(db) && Key(Projects, p) in db && CanRun(Initial(db), p, events)
    requires Run(Initial(db), p, events).phase == Done(true)
    ensures var t := Run(Initial(db), p, events);
      Consistent(t.db) && Key(Projects, p) !in t.db && !Refers(t.db, k, Key(Projects, p)) && !Belongs(t.db, k, p)
  {
    InitialInv(db, p);
    RunKeepsInv(Initial(db), p, events);
    hide Run, CanRun, SidsOwned;
    var t := Run(Initial(db), p, events).db;
    assert forall x, y | x in t && Projects in t[x] && t[x][Projects] == y :: Key(Projects, y) in t;
  }

  // ---- Rows of others ----

  lemma SessionDecides(db: Db, k: Key, p: nat)
    requires Consistent(db) && k in db && Cascades(k.table)
    ensures Sessions in db[k] && Key(Sessions, db[k][Sessions]) in db
    ensures Belongs(db, k, p) <==> Belongs(db, Key(Sessions, db[k][Sessions]), p)
  {
  }

  /** A statement, late or not, deletes rows of the project only, and what hangs on its sessions. */
  lemma OnlyOwnRowsGo(db: Db, used: set<Key>, p: nat, sids: set<nat>, table: Table, k: Key)
    requires Consistent(db) && db.Keys <= used && SidsOwned(db, used, sids, p)
    requires Delete(db, Matched(db, p, sids, table)).Some?
    requires k in db && !Belongs(db, k, p)
    ensures k in Delete(db, Matched(db, p, sids, table)).value
  {
    var rows := Matched(db, p, sids, table);
    if k in rows {
      if Cascades(table) { SessionDecides(db, k, p); }
    } else if k in Cascaded(db, rows) {
      SessionDecides(db, k, p);
    }
  }

  /** Rows of others stay, and stay theirs, as long as their owners' rows do. */
  lemma OthersStayOthers(db: Db, used: set<Key>, after: Db, p: nat, k: Key)
    requires Consistent(db) && Consistent(after) && db.Keys <= used && Drifts(db, used, after)
    requires k in db && !Belongs(db, k, p) && k in after
    ensures !Belongs(after, k, p)
  {
    assert SameOwner(db[k], after[k]);
    if Cascades(k.table) {
      SessionDecides(db, k, p);
      SessionDecides(after, k, p);
      var session := Key(Sessions, db[k][Sessions]);
      assert session in after && SameOwner(db[session], after[session]);
    }
  }

  lemma ExecuteKeepsOthers(s: State, p: nat, sids: set<nat>, table: Table, k: Key)
    requires Inv(s, p) && SidsOwned(s.db, s.used, sids, p) && k in s.db && !Belongs(s.db, k, p)
    ensures match Delete(s.db, Matched(s.db, p, sids, table))
            case Some(after) => k in after && after[k] == s.db[k] && !Belongs(after, k, p)
            case None => true
  {
    var rows := Matched(s.db, p, sids, table);
    if Delete(s.db, rows).Some? {
      OnlyOwnRowsGo(s.db, s.used, p, sids, table, k);
      DeleteIsConsistent(s.db, rows);
      DeleteDrifts(s.db, s.used, rows);
      var after := Delete(s.db, rows).value;
      assert after[k] == s.db[k];
      hide Delete, Matched, Belongs, Consistent, Drifts, SidsOwned;
      OthersStayOthers(s.db, s.used, after, p, k);
    }
  }

  lemma StepKeepsOthers(s: State, p: nat, e: Event, k: Key)
    requires Inv(s, p) && Enabled(s, e) && k in s.db && !Belongs(s.db, k, p)
    ensures var t := Apply(s, p, e);
      && k in t.db && !Belongs(t.db, k, p)
      && (!(e.Update? && e.key == k) ==> t.db[k] == s.db[k])
  {
    match e
    case ReadSessions =>
    case Execute(table) =>
      ExecuteKeepsOthers(s, p, s.sids, table, k);
      hide Belongs, Delete, Matched, Consistent, SidsOwned;
    case ExecuteLate(i) =>
      ExecuteKeepsOthers(s, p, s.late[i].sids, s.late[i].table, k);
      hide Belongs, Delete, Matched, Consistent, SidsOwned;
    case Insert(_, _) => WriteKeepsOthers(s, p, e, k);
    case Update(_, _) => WriteKeepsOthers(s, p, e, k);
  }

  lemma WriteKeepsOthers(s: State, p: nat, e: Event, k: Key)
    requires Inv(s, p) && Enabled(s, e) && External(e) && k in s.db && !Belongs(s.db, k, p)
    ensures !Belongs(Apply(s, p, e).db, k, p)
  {
    var after := s.db[e.key := e.row];
    WriteIsConsistent(s.db, e.key, e.row);
    assert Drifts(s.db, s.used, after);
    OthersStayOthers(s.db, s.used, after, p, k);
  }

  /**
   * Whatever the delete and other requests do, a row that does not belong to the project stays, keeps its content
   * unless a request updates that very row, and never comes to belong to the project.
   */
  lemma {:induction false} OthersUnchanged(s: State, p: nat, events: seq<Event>, k: Key)
    requires Inv(s, p) && CanRun(s, p, events) && k in s.db && !Belongs(s.db, k, p)
    ensures var t := Run(s, p, events);
      && k in t.db && !Belongs(t.db, k, p)
      && ((forall e | e in events :: !(e.Update? && e.key == k)) ==> t.db[k] == s.db[k])
    decreases |events|
  {
    hide Inv, Enabled, Apply, Belongs;
    if events != [] {
      StepKeepsInv(s, p, events[0]);
      StepKeepsOthers(s, p, events[0], k);
      OthersUnchanged(Apply(s, p, events[0]), p, events[1..], k);
    }
  }

  lemma OtherProjectsUnchanged(db: Db, p: nat, events: seq<Event>, k: Key)
    requires Consistent(db) && Key(Projects, p) in db && CanRun(Initial(db), p, events)
    requires k in db && !Belongs(db, k, p) && forall e | e in events :: !(e.Update? && e.key == k)
    ensures k in Run(Initial(db), p, events).db && Run(Initial(db), p, events).db[k] == db[k]
  {
    InitialInv(db, p);
    OthersUnchanged(Initial(db), p, events, k);
  }
}
