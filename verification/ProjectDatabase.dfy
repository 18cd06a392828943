/**
 * The database with its delete statements, and the retry loop of deleteProject.js run on it: each statement, round and
 * attempt is a method, proved against the meaning of a delete.
 */
module ProjectDatabase {
  import opened Wrappers
  import opened ProjectDelete
  import opened ProjectDeleteQuiet

  /** What the delete leaves of the rows it found. */
  ghost predicate Remains(db: Db, rows: Db, p: nat) {
    && Consistent(rows) && Shrinks(db, rows)
    && forall k | k in db && !Belongs(db, k, p) :: k in rows
  }

  lemma NothingGone(db: Db, p: nat)
    requires Consistent(db)
    ensures Remains(db, db, p)
  {
  }

  lemma RemainsMeans(db: Db, rows: Db, p: nat)
    requires Remains(db, rows, p)
    ensures Consistent(rows) && Shrinks(db, rows) && forall k | k in db && !Belongs(db, k, p) :: k in rows
  {
  }

  lemma RemainingSids(db: Db, rows: Db, p: nat)
    requires Remains(db, rows, p)
    ensures SidsOwned(rows, db.Keys, SessionIds(rows, p), p)
  {
    hide Consistent, Belongs;
  }

  lemma StatementKeepsRemains(db: Db, rows: Db, p: nat, sids: set<nat>, table: Table)
    requires Consistent(db) && Remains(db, rows, p) && SidsOwned(rows, db.Keys, sids, p)
    requires Delete(rows, Matched(rows, p, sids, table)).Some?
    ensures Remains(db, Delete(rows, Matched(rows, p, sids, table)).value, p)
    ensures SidsOwned(Delete(rows, Matched(rows, p, sids, table)).value, db.Keys, sids, p)
  {
    var after := Delete(rows, Matched(rows, p, sids, table)).value;
    DeleteIsConsistent(rows, Matched(rows, p, sids, table));
    DeleteDrifts(rows, db.Keys, Matched(rows, p, sids, table));
    SidsStayOwned(rows, db.Keys, after, db.Keys, sids, p);
    assert Shrinks(rows, after);
    forall k | k in db && !Belongs(db, k, p) ensures k in after {
      RemainsOthers(db, rows, p, k);
      OnlyOwnRowsGo(rows, db.Keys, p, sids, table, k);
    }
  }

  lemma RemainsOthers(db: Db, rows: Db, p: nat, k: Key)
    requires Consistent(db) && Remains(db, rows, p) && k in db && !Belongs(db, k, p)
    ensures k in rows && !Belongs(rows, k, p)
  {
    assert Drifts(db, db.Keys, rows);
    OthersStayOthers(db, db.Keys, rows, p, k);
  }

  /** The order in which the statements of a round reach the database. */
  ghost predicate OrderOf(order: seq<Table>, round: nat) {
    && (forall t :: t in order <==> Round(t) == round)
    && forall i, j | 0 <= i < j < |order| :: order[i] != order[j]
  }

  /** Tables of the rounds before, and those of the round whose statements ran. */
  function DoneBefore(order: seq<Table>, round: nat): set<Table> {
    set t: Table | Round(t) < round || t in order
  }

  lemma NextSucceeds(db: Db, p: nat, order: seq<Table>, i: nat, round: nat)
    requires Consistent(db) && StaysWithin(db, p) && OrderOf(order, round) && i < |order|
    ensures var rest := db - Owned(db, p, DoneBefore(order[..i], round));
      Delete(rest, Matched(rest, p, SessionIds(db, p), order[i])) ==
          Some(db - Owned(db, p, DoneBefore(order[..i + 1], round)))
  {
    var done := DoneBefore(order[..i], round);
    var table := order[i];
    assert table in order;
    forall child | table in Parents(child) ensures child in done { RoundsRespectGraph(child, table); }
    assert order[..i + 1] == order[..i] + [table];
    assert DoneBefore(order[..i + 1], round) == done + {table};
    hide DoneBefore, Owned, Delete, Matched, SessionIds, Consistent, StaysWithin, Parents, Round;
    StatementSucceeds(db, p, done, table);
  }

  lemma DoneRounds(order: seq<Table>, round: nat)
    requires OrderOf(order, round)
    ensures DoneBefore(order, round) == DoneBefore([], round + 1)
    ensures DoneBefore([], 1) == {} && DoneBefore([], 5) == ALL_TABLES
  {
  }

  lemma GoneMeansWithin(db: Db, rows: Db, p: nat)
    requires Consistent(db) && Remains(db, rows, p) && Key(Projects, p) !in rows
    ensures StaysWithin(db, p)
  {
    forall k, t | k in db && t in db[k] && Belongs(db, Key(t, db[k][t]), p) ensures Belongs(db, k, p) {
      if !Belongs(db, k, p) { OutsideReferenceBlocks(db, rows, p, k); }
    }
  }

  // ---- One statement ----

  /** The row is matched by the statement, or hangs by a cascade on a row that is. */
  predicate Goes(db: Db, p: nat, sids: set<nat>, table: Table, k: Key) {
    && k in db
    && (k in Matched(db, p, sids, table)
        || (Cascades(k.table) && Sessions in db[k] && Key(Sessions, db[k][Sessions]) in Matched(db, p, sids, table)))
  }

  /** Nothing that the statement matches is left, other rows are as before, and no row lost what it refers to. */
  ghost predicate Deleted(db: Db, after: Db, p: nat, sids: set<nat>, table: Table) {
    && Shrinks(db, after) && Matched(after, p, sids, table) == {}
    && (forall k | k in db && k !in after :: Goes(db, p, sids, table, k))
    && forall k, d | Refers(after, k, d) && d in db :: d in after
  }

  /** A row that the statement does not match or cascade to refers to one that it does. */
  ghost predicate Violates(db: Db, p: nat, sids: set<nat>, table: Table) {
    exists k, d :: Refers(db, k, d) && Goes(db, p, sids, table, d) && !Goes(db, p, sids, table, k)
  }

  /** A statement has one result: these are the only rows it can leave, and it fails when it would violate a key. */
  lemma DeletedIsDelete(db: Db, after: Db, p: nat, sids: set<nat>, table: Table)
    requires Deleted(db, after, p, sids, table)
    ensures !Violates(db, p, sids, table) && Delete(db, Matched(db, p, sids, table)) == Some(after)
  {
    GoesIsGone(db, after, p, sids, table);
    var gone := Matched(db, p, sids, table) + Cascaded(db, Matched(db, p, sids, table));
    assert forall k :: k in gone <==> Goes(db, p, sids, table, k);
    assert forall k, d | Refers(db, k, d) && k in after :: Refers(after, k, d);
    assert forall k | Goes(db, p, sids, table, k) :: k in db;
    hide Matched, Cascaded, Goes;
    assert after == db - gone;
  }

  lemma GoesIsGone(db: Db, after: Db, p: nat, sids: set<nat>, table: Table)
    requires Deleted(db, after, p, sids, table)
    ensures forall k | k in db :: k in after <==> !Goes(db, p, sids, table, k)
  {
    forall k | k in after ensures !Goes(db, p, sids, table, k) {
      assert k !in Matched(after, p, sids, table);
      if Cascades(k.table) && Sessions in db[k] {
        var session := Key(Sessions, db[k][Sessions]);
        assert Refers(after, k, session);
        if session in after { assert session !in Matched(after, p, sids, table); }
      }
    }
  }

  lemma DeleteDecides(db: Db, p: nat, sids: set<nat>, table: Table)
    ensures var result := Delete(db, Matched(db, p, sids, table));
      if result.Some? then Deleted(db, result.value, p, sids, table) && !Violates(db, p, sids, table)
      else Violates(db, p, sids, table)
  {
    var rows := Matched(db, p, sids, table);
    var gone := rows + Cascaded(db, rows);
    assert forall k :: k in gone <==> Goes(db, p, sids, table, k);
    if Blocked(db, gone) {
      var k, d :| k in db && k !in gone && d in gone && Refers(db, k, d);
      assert Refers(db, k, d) && Goes(db, p, sids, table, d) && !Goes(db, p, sids, table, k);
    } else {
      assert Delete(db, rows) == Some(db - gone);
      DeletedIsDelete(db, db - gone, p, sids, table);
    }
  }

  /** Every row of the list is a session of the project, as far as it is there. */
  ghost predicate ListOwned(db: Db, sids: set<nat>, p: nat) {
    forall sid | sid in sids && Key(Sessions, sid) in db :: OwnSession(db, sid, p)
  }

  lemma ListOwnedIsOwned(db: Db, sids: set<nat>, p: nat)
    requires ListOwned(db, sids, p)
    ensures SidsOwned(db, db.Keys + (set sid | sid in sids :: Key(Sessions, sid)), sids, p)
  {
  }

  lemma OthersStay(db: Db, p: nat, sids: set<nat>, table: Table)
    requires Consistent(db) && ListOwned(db, sids, p) && Delete(db, Matched(db, p, sids, table)).Some?
    ensures forall k | k in db && !Belongs(db, k, p) :: k in Delete(db, Matched(db, p, sids, table)).value
  {
    var used := db.Keys + (set sid | sid in sids :: Key(Sessions, sid));
    ListOwnedIsOwned(db, sids, p);
    forall k | k in db && !Belongs(db, k, p) ensures k in Delete(db, Matched(db, p, sids, table)).value {
      OnlyOwnRowsGo(db, used, p, sids, table, k);
    }
  }

  lemma NothingComesBack(db: Db, after: Db, p: nat, sids: set<nat>, table: Table)
    requires Deleted(db, after, p, sids, table)
    ensures Matched(after, p, sids, table) == {}
    ensures forall t | Matched(db, p, sids, t) == {} :: Matched(after, p, sids, t) == {}
  {
    forall t | Matched(db, p, sids, t) == {} ensures Matched(after, p, sids, t) == {} {
      assert forall k | k in Matched(after, p, sids, t) :: k in Matched(db, p, sids, t);
    }
  }

  lemma NoProjectRow(db: Db, p: nat, sids: set<nat>)
    ensures Matched(db, p, sids, Projects) == {} ==> Key(Projects, p) !in db
  {
    assert Key(Projects, p) in db ==> Key(Projects, p) in Matched(db, p, sids, Projects);
  }

  class Database {
    var rows: Db

    constructor (rows: Db)
      ensures this.rows == rows
    {
      this.rows := rows;
    }

    /** One DELETE statement: all of it, or an error. */
    method Execute(p: nat, sids: set<nat>, table: Table) returns (ok: bool)
      modifies this
      ensures ok <==> !Violates(old(rows), p, sids, table)
      ensures if ok then Deleted(old(rows), rows, p, sids, table) else rows == old(rows)
      ensures Consistent(old(rows)) ==> Consistent(rows)
      ensures Consistent(old(rows)) && ListOwned(old(rows), sids, p) ==>
        forall k | k in old(rows) && !Belongs(old(rows), k, p) :: k in rows
    {
      ghost var before := rows;
      var result := Delete(rows, Matched(rows, p, sids, table));
      ok := result.Some?;
      if ok { rows := result.value; }
      DeleteDecides(before, p, sids, table);
      if ok && Consistent(before) {
        DeleteIsConsistent(before, Matched(before, p, sids, table));
        if ListOwned(before, sids, p) { OthersStay(before, p, sids, table); }
      }
    }

    /** Promise.all over the statements of a round: all of them run, and it fails when one of them does. */
    method ExecuteRound(p: nat, sids: set<nat>, round: nat, order: seq<Table>, ghost db: Db) returns (ok: bool)
      requires Consistent(db) && Remains(db, rows, p) && SidsOwned(rows, db.Keys, sids, p) && OrderOf(order, round)
      modifies this
      ensures Remains(db, rows, p) && SidsOwned(rows, db.Keys, sids, p)
      ensures ok ==> forall t | t in order :: Matched(rows, p, sids, t) == {}
      ensures ok && Projects in order ==> Key(Projects, p) !in rows
      ensures StaysWithin(db, p) && sids == SessionIds(db, p) ==>
        old(rows) == db - Owned(db, p, DoneBefore([], round)) ==>
        ok && rows == db - Owned(db, p, DoneBefore(order, round))
    {
      ok := true;
      ghost var first := StaysWithin(db, p) && sids == SessionIds(db, p)
        && rows == db - Owned(db, p, DoneBefore([], round));
      hide Consistent, StaysWithin, Owned, DoneBefore, OrderOf, Matched, Delete, SessionIds, Remains, SidsOwned,
          Deleted, Violates, ListOwned;
      assert order[..0] == [];
      for i := 0 to |order|
        invariant Remains(db, rows, p) && SidsOwned(rows, db.Keys, sids, p)
        invariant ok ==> forall t | t in order[..i] :: Matched(rows, p, sids, t) == {}
        invariant first ==> ok && rows == db - Owned(db, p, DoneBefore(order[..i], round))
      {
        if first { NextSucceeds(db, p, order, i, round); }
        ghost var before := rows;
        var done := Execute(p, sids, order[i]);
        DeleteDecides(before, p, sids, order[i]);
        if done {
          DeletedIsDelete(before, rows, p, sids, order[i]);
          StatementKeepsRemains(db, before, p, sids, order[i]);
          NothingComesBack(before, rows, p, sids, order[i]);
        }
        ok := ok && done;
        assert order[..i + 1] == order[..i] + [order[i]];
      }
      assert order[..|order|] == order;
      NoProjectRow(rows, p, sids);
    }

    /**
     * deleteProjectForUser, phase 4, when no other request writes meanwhile: `orders` says in which order the
     * statements of each attempt and round reach the database. `attempts` is the number of attempts made.
     */
    method DeleteProjectForUser(p: nat, sessionIds: set<nat>, orders: (nat, nat) -> seq<Table>)
      returns (ok: bool, attempts: nat)
      requires Consistent(rows) && Key(Projects, p) in rows && sessionIds == SessionIds(rows, p)
      requires forall attempt: nat, round: nat :: OrderOf(orders(attempt, round), round)
      modifies this
      ensures ok <==> StaysWithin(old(rows), p)
      ensures attempts == if ok then 1 else 3
      ensures ok ==> rows == old(rows) - Owned(old(rows), p, ALL_TABLES)
      ensures Consistent(rows) && Shrinks(old(rows), rows)
      ensures forall k | k in old(rows) && !Belongs(old(rows), k, p) :: k in rows
    {
      hide Consistent, Owned, DoneBefore, OrderOf, SessionIds, Remains, SidsOwned, StaysWithin, Shrinks, Belongs;
      ghost var db := rows;
      var attempt := 1;
      ok, attempts := false, 0;
      NothingGone(db, p);
      while attempt <= MAX_DELETE_RETRIES
        invariant 1 <= attempt <= 4 && attempts == attempt - 1 && !ok && Remains(db, rows, p)
        invariant StaysWithin(db, p) ==> attempt == 1
        invariant attempt == 1 ==> rows == db
      {
        var sidList := if attempt == 1 then sessionIds else SessionIds(rows, p);
        RemainingSids(db, rows, p);
        ok := RunAttempt(p, sidList, attempt, orders, db);
        attempts := attempt;
        if ok { break; }
        attempt := attempt + 1;
      }
      RemainsMeans(db, rows, p);
    }

    /** One turn of the retry loop. */
    method RunAttempt(p: nat, sids: set<nat>, attempt: nat, orders: (nat, nat) -> seq<Table>, ghost db: Db)
      returns (ok: bool)
      requires Consistent(db) && Remains(db, rows, p) && SidsOwned(rows, db.Keys, sids, p)
      requires forall round: nat :: OrderOf(orders(attempt, round), round)
      modifies this
      ensures Remains(db, rows, p)
      ensures ok ==> StaysWithin(db, p)
      ensures StaysWithin(db, p) && old(rows) == db && sids == SessionIds(db, p) ==>
          ok && rows == db - Owned(db, p, ALL_TABLES)
    {
      ok := true;
      var round := 1;
      ghost var first := StaysWithin(db, p) && rows == db && sids == SessionIds(db, p);
      DoneRounds(orders(attempt, 4), 4);
      assert Owned(db, p, {}) == {} && db - {} == db;
      hide Consistent, StaysWithin, Owned, DoneBefore, SessionIds, Remains, SidsOwned;
      while round <= 4 && ok
        invariant 1 <= round <= 5 && Remains(db, rows, p) && SidsOwned(rows, db.Keys, sids, p)
        invariant first ==> ok && rows == db - Owned(db, p, DoneBefore([], round))
        invariant ok && round == 5 ==> Key(Projects, p) !in rows
        decreases 5 - round
      {
        var order := orders(attempt, round);
        DoneRounds(order, round);
        ok := ExecuteRound(p, sids, round, order, db);
        round := round + 1;
      }
      if ok { GoneMeansWithin(db, rows, p); }
    }
  }
}
