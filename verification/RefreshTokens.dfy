/** Refresh tokens of UserAdminService.js: rows inserted by logins and rotations. */
module RefreshTokens {
  // Each transaction is one step. Token values are fresh, and a hash stands for its token.

  import opened Wrappers

  const REFRESH_TOKEN_TTL_MS := 30 * 24 * 60 * 60 * 1000

  /** A row of refresh_tokens; `login` is the row of the login it descends from. */
  datatype Row = Row(token: nat, user: nat, createdAt: int, expiresAt: int, revokedAt: Option<int>, login: nat)

  /** `deadline` is when the check of the expiry reads the clock, `now` when the new row is made. */
  datatype Event =
    | Login(user: nat, now: int, token: nat)
    | Rotate(used: nat, user: nat, deadline: int, now: int, token: nat)
    | RevokeAll(user: nat, now: int)

  predicate Fresh(rows: seq<Row>, token: nat) {
    forall i | 0 <= i < |rows| :: rows[i].token != token
  }

  predicate Enabled(rows: seq<Row>, e: Event) {
    match e
    case Login(_, _, token) => Fresh(rows, token)
    case Rotate(_, _, _, _, token) => Fresh(rows, token)
    case RevokeAll(_, _) => true
  }

  /** The row can be rotated. */
  predicate Matches(row: Row, token: nat, user: nat, deadline: int) {
    row.token == token && row.user == user && row.revokedAt.None? && row.expiresAt > deadline
  }

  /** The first row the query answers with, or the number of rows. */
  function Find(rows: seq<Row>, token: nat, user: nat, deadline: int): (i: nat)
    ensures i <= |rows|
    ensures i < |rows| ==> Matches(rows[i], token, user, deadline)
    ensures forall j | 0 <= j < i :: !Matches(rows[j], token, user, deadline)
  {
    if rows == [] || Matches(rows[0], token, user, deadline) then 0
    else 1 + Find(rows[1..], token, user, deadline)
  }

  function NewRow(token: nat, user: nat, now: int, login: nat): Row {
    Row(token, user, now, now + REFRESH_TOKEN_TTL_MS, None, login)
  }

  function Revoked(rows: seq<Row>, user: nat, now: int): (after: seq<Row>)
    ensures |after| == |rows|
    ensures forall i | 0 <= i < |rows| ::
              after[i] == if rows[i].user == user then rows[i].(revokedAt := Some(now)) else rows[i]
  {
    if rows == [] then []
    else [if rows[0].user == user then rows[0].(revokedAt := Some(now)) else rows[0]] + Revoked(rows[1..], user, now)
  }

  function Apply(rows: seq<Row>, e: Event): seq<Row>
    requires Enabled(rows, e)
  {
    match e
    case Login(user, now, token) => rows + [NewRow(token, user, now, |rows|)]
    case Rotate(used, user, deadline, now, token) =>
      var i := Find(rows, used, user, deadline);
      if i == |rows| then rows
      else rows[i := rows[i].(revokedAt := Some(deadline))] + [NewRow(token, user, now, rows[i].login)]
    case RevokeAll(user, now) => Revoked(rows, user, now)
  }

  /** The rotation returns a new token. */
  predicate Succeeds(rows: seq<Row>, e: Event) {
    e.Rotate? && Find(rows, e.used, e.user, e.deadline) < |rows|
  }

  // ---- Runs ----

  predicate CanRun(rows: seq<Row>, events: seq<Event>)
    decreases |events|
  {
    events == [] || (Enabled(rows, events[0]) && CanRun(Apply(rows, events[0]), events[1..]))
  }

  function Run(rows: seq<Row>, events: seq<Event>): seq<Row>
    requires CanRun(rows, events)
    decreases |events|
  {
    if events == [] then rows else Run(Apply(rows, events[0]), events[1..])
  }

  /** Tokens are unique; a row belongs to the user of its login and comes after it. */
  predicate Inv(rows: seq<Row>) {
    && (forall i, j | 0 <= i < j < |rows| :: rows[i].token != rows[j].token)
    && (forall i | 0 <= i < |rows| :: rows[i].login <= i && rows[rows[i].login].user == rows[i].user
                                      && rows[rows[i].login].login == rows[i].login)
  }

  lemma AppendKeepsInv(rows: seq<Row>, row: Row)
    requires Inv(rows) && Fresh(rows, row.token) && row.login <= |rows|
    requires row.login < |rows| ==> rows[row.login].user == row.user && rows[row.login].login == row.login
    ensures Inv(rows + [row])
  {
  }

  lemma RevocationKeepsInv(rows: seq<Row>, after: seq<Row>)
    requires Inv(rows) && |after| == |rows|
    requires forall i | 0 <= i < |rows| :: after[i] == rows[i].(revokedAt := after[i].revokedAt)
    ensures Inv(after)
  {
    assert forall i | 0 <= i < |rows| ::
        after[i].token == rows[i].token && after[i].user == rows[i].user && after[i].login == rows[i].login;
  }

  lemma StepKeepsInv(rows: seq<Row>, e: Event)
    requires Inv(rows) && Enabled(rows, e)
    ensures Inv(Apply(rows, e))
  {
    match e
    case Login(user, now, token) =>
      AppendKeepsInv(rows, NewRow(token, user, now, |rows|));
    case Rotate(used, user, deadline, now, token) =>
      var i := Find(rows, used, user, deadline);
      if i < |rows| {
        var after := rows[i := rows[i].(revokedAt := Some(deadline))];
        RevocationKeepsInv(rows, after);
        assert after[rows[i].login].user == user && after[rows[i].login].login == rows[i].login;
        assert Fresh(after, token);
        hide Inv, Fresh, Find;
        AppendKeepsInv(after, NewRow(token, user, now, rows[i].login));
      }
    case RevokeAll(user, now) =>
      RevocationKeepsInv(rows, Revoked(rows, user, now));
  }

  lemma {:induction false} RunKeepsInv(rows: seq<Row>, events: seq<Event>)
    requires Inv(rows) && CanRun(rows, events)
    ensures Inv(Run(rows, events))
    decreases |events|
  {
    hide Inv, Enabled, Apply;
    if events != [] {
      StepKeepsInv(rows, events[0]);
      RunKeepsInv(Apply(rows, events[0]), events[1..]);
    }
  }

  // ---- Each token is rotated at most once ----

  lemma {:induction false} RevokedStays(rows: seq<Row>, events: seq<Event>, i: nat)
    requires CanRun(rows, events) && i < |rows| && rows[i].revokedAt.Some?
    ensures i < |Run(rows, events)| && Run(rows, events)[i].revokedAt.Some? &&
        Run(rows, events)[i].token == rows[i].token
    decreases |events|
  {
    if events != [] {
      assert Apply(rows, events[0])[i].revokedAt.Some? && Apply(rows, events[0])[i].token == rows[i].token;
      hide Enabled, Apply;
      RevokedStays(Apply(rows, events[0]), events[1..], i);
    }
  }

  /**
   * After a successful rotation, no later rotation of the same token succeeds, for whatever user and at whatever
   * time; the new token is another one.
   */
  lemma RotatedAtMostOnce(before: seq<Event>, first: Event, between: seq<Event>, second: Event)
    requires CanRun([], before) && Enabled(Run([], before), first) && Succeeds(Run([], before), first)
    requires CanRun(Apply(Run([], before), first), between) && second.Rotate? && second.used == first.used
    ensures first.token != first.used
    ensures !Succeeds(Run(Apply(Run([], before), first), between), second)
  {
    var rows := Run([], before);
    RunKeepsInv([], before);
    StepKeepsInv(rows, first);
    var i := Find(rows, first.used, first.user, first.deadline);
    var next := Apply(rows, first);
    RevokedStays(next, between, i);
    RunKeepsInv(next, between);
    hide Run, CanRun, Find;
  }

  // ---- Each login has one live token ----

  /** The tokens of a login that are not revoked. */
  function Live(rows: seq<Row>, login: nat): set<nat> {
    set i | 0 <= i < |rows| && rows[i].login == login && rows[i].revokedAt.None?
  }

  /** After a revoke-all a login has none; before it has exactly one. */
  ghost predicate OneLive(rows: seq<Row>, login: nat, revoked: bool) {
    if revoked then Live(rows, login) == {} else exists i :: Live(rows, login) == {i}
  }

  lemma RotateKeepsLive(rows: seq<Row>, e: Event, login: nat)
    requires Inv(rows) && Enabled(rows, e) && e.Rotate? && login < |rows|
    ensures Live(rows, login) == {} ==> Live(Apply(rows, e), login) == {}
    ensures forall i | Live(rows, login) == {i} :: Live(Apply(rows, e), login) in {{i}, {|rows|}}
  {
    var k := Find(rows, e.used, e.user, e.deadline);
    if k < |rows| {
      var after := Apply(rows, e);
      if rows[k].login == login {
        assert k in Live(rows, login);
        if i :| Live(rows, login) == {i} {
          assert k in {i};
          forall x ensures x in Live(after, login) <==> x == |rows| {
            assert x in Live(rows, login) <==> x == i;
          }
          assert Live(after, login) == {|rows|};
        }
      } else {
        assert Live(after, login) == Live(rows, login);
      }
    }
  }

  lemma StepKeepsLive(rows: seq<Row>, e: Event, login: nat, revoked: bool)
    requires Inv(rows) && Enabled(rows, e) && login < |rows| && rows[login].login == login &&
        OneLive(rows, login, revoked)
    ensures OneLive(Apply(rows, e), login, revoked || (e.RevokeAll? && e.user == rows[login].user))
  {
    var after := Apply(rows, e);
    match e
    case Login(_, _, _) =>
      assert Live(after, login) == Live(rows, login);
      hide Inv, Live;
    case Rotate(_, _, _, _, _) =>
      RotateKeepsLive(rows, e, login);
      hide Inv, Live, Apply;
    case RevokeAll(user, now) =>
      RevokeAllAndLive(rows, user, now, login);
      hide Inv, Live, Revoked;
  }

  lemma RevokeAllAndLive(rows: seq<Row>, user: nat, now: int, login: nat)
    requires Inv(rows) && login < |rows| && rows[login].login == login
    ensures Live(Revoked(rows, user, now), login) == if user == rows[login].user then {} else Live(rows, login)
  {
  }

  predicate RevokedIn(events: seq<Event>, user: nat) {
    exists e :: e in events && e.RevokeAll? && e.user == user
  }

  lemma {:induction false} RunKeepsLive(rows: seq<Row>, events: seq<Event>, login: nat, revoked: bool)
    requires Inv(rows) && CanRun(rows, events) && login < |rows| && rows[login].login == login &&
        OneLive(rows, login, revoked)
    ensures OneLive(Run(rows, events), login, revoked || RevokedIn(events, rows[login].user))
    decreases |events|
  {
    if events != [] {
      var e := events[0];
      var next := Apply(rows, e);
      StepKeepsInv(rows, e);
      StepKeepsLive(rows, e, login, revoked);
      assert next[login].login == login && next[login].user == rows[login].user;
      hide Inv, Enabled, Apply, OneLive;
      RunKeepsLive(next, events[1..], login, revoked || (e.RevokeAll? && e.user == rows[login].user));
      assert forall x :: x in events <==> x == e || x in events[1..];
    }
  }

  /**
   * Whatever happens after a login, exactly one token that descends from it is not revoked, until there is a
   * revoke-all for its user; from then on there is none, even if the user logs in again.
   */
  lemma LoginHasOneLiveToken(before: seq<Event>, user: nat, now: int, token: nat, after: seq<Event>)
    requires CanRun([], before) && Enabled(Run([], before), Login(user, now, token))
    requires CanRun(Apply(Run([], before), Login(user, now, token)), after)
    ensures var rows := Run([], before);
      OneLive(Run(Apply(rows, Login(user, now, token)), after), |rows|, RevokedIn(after, user))
  {
    var rows := Run([], before);
    RunKeepsInv([], before);
    var next := Apply(rows, Login(user, now, token));
    StepKeepsInv(rows, Login(user, now, token));
    assert Live(next, |rows|) == {|rows|};
    RunKeepsLive(next, after, |rows|, false);
  }

  // ---- Which rotations succeed ----

  /** A token that can be used: its user and when it was made. */
  datatype Usable = Usable(user: nat, since: int)

  /** Told by the events: made by a login or a rotation that succeeded, not rotated and not revoked since. */
  function UsableAfter(events: seq<Event>, token: nat): Option<Usable> {
    if events == [] then None
    else
      var past, e := events[..|events| - 1], events[|events| - 1];
      match e
      case Login(user, now, made) => if made == token then Some(Usable(user, now)) else UsableAfter(past, token)
      case Rotate(used, user, deadline, now, made) =>
        if !InTime(UsableAfter(past, used), user, deadline) then UsableAfter(past, token)
        else if made == token then Some(Usable(user, now))
        else if used == token then None
        else UsableAfter(past, token)
      case RevokeAll(user, _) =>
        var before := UsableAfter(past, token);
        if before.Some? && before.value.user == user then None else before
  }

  /** It belongs to the user and is not 30 days old. */
  predicate InTime(usable: Option<Usable>, user: nat, deadline: int) {
    usable.Some? && usable.value.user == user && deadline < usable.value.since + 2_592_000_000
  }

  function UsableRow(rows: seq<Row>, i: nat): Option<Usable>
    requires i < |rows|
  {
    if rows[i].revokedAt.None? then Some(Usable(rows[i].user, rows[i].createdAt)) else None
  }

  /** Tokens without a row cannot be used; the others as their row says, which expires after 30 days. */
  ghost predicate Told(past: seq<Event>, rows: seq<Row>) {
    && (forall token: nat | Fresh(rows, token) :: UsableAfter(past, token) == None)
    && (forall i | 0 <= i < |rows| :: ToldRow(past, rows, i))
  }

  predicate ToldRow(past: seq<Event>, rows: seq<Row>, i: nat)
    requires i < |rows|
  {
    UsableAfter(past, rows[i].token) == UsableRow(rows, i) && rows[i].expiresAt == rows[i].createdAt + 2_592_000_000
  }

  lemma RotationIsTold(past: seq<Event>, rows: seq<Row>, e: Event)
    requires Told(past, rows) && Inv(rows) && e.Rotate?
    ensures Succeeds(rows, e) <==> InTime(UsableAfter(past, e.used), e.user, e.deadline)
    ensures Succeeds(rows, e) ==> rows[Find(rows, e.used, e.user, e.deadline)].token == e.used
  {
    hide UsableAfter;
    var k := Find(rows, e.used, e.user, e.deadline);
    if k < |rows| {
      assert ToldRow(past, rows, k);
    } else if !Fresh(rows, e.used) {
      var i :| 0 <= i < |rows| && rows[i].token == e.used;
      assert ToldRow(past, rows, i) && !Matches(rows[i], e.used, e.user, e.deadline);
    }
  }

  lemma UsableSnoc(past: seq<Event>, e: Event, token: nat)
    ensures UsableAfter(past + [e], token) ==
      match e
      case Login(user, now, made) => if made == token then Some(Usable(user, now)) else UsableAfter(past, token)
      case Rotate(used, user, deadline, now, made) =>
        if !InTime(UsableAfter(past, used), user, deadline) then UsableAfter(past, token)
        else if made == token then Some(Usable(user, now))
        else if used == token then None
        else UsableAfter(past, token)
      case RevokeAll(user, _) =>
        var before := UsableAfter(past, token);
        if before.Some? && before.value.user == user then None else before
  {
    assert (past + [e])[..|past|] == past;
  }

  lemma StepTellsRow(past: seq<Event>, rows: seq<Row>, e: Event, i: nat)
    requires Told(past, rows) && Inv(rows) && Enabled(rows, e) && i < |Apply(rows, e)|
    ensures ToldRow(past + [e], Apply(rows, e), i)
  {
    hide UsableAfter, InTime;
    var after := Apply(rows, e);
    UsableSnoc(past, e, after[i].token);
    if i < |rows| { assert ToldRow(past, rows, i); }
    if e.Rotate? { RotationIsTold(past, rows, e); }
    hide Told;
  }

  lemma StepTellsFresh(past: seq<Event>, rows: seq<Row>, e: Event, token: nat)
    requires Told(past, rows) && Inv(rows) && Enabled(rows, e) && Fresh(Apply(rows, e), token)
    ensures UsableAfter(past + [e], token) == None
  {
    hide UsableAfter, InTime;
    var after := Apply(rows, e);
    UsableSnoc(past, e, token);
    if e.Rotate? { RotationIsTold(past, rows, e); }
    assert Fresh(rows, token) by {
      assert forall i | 0 <= i < |rows| :: after[i].token == rows[i].token;
    }
    if |after| > |rows| { assert after[|rows|].token != token; }
  }

  lemma {:induction false} RunTells(past: seq<Event>, rows: seq<Row>, events: seq<Event>)
    requires Told(past, rows) && Inv(rows) && CanRun(rows, events)
    ensures Told(past + events, Run(rows, events))
    decreases |events|
  {
    hide UsableAfter, Inv, Enabled, Apply, Fresh, ToldRow;
    if events == [] {
      assert past + events == past;
    } else {
      var e := events[0];
      var after := Apply(rows, e);
      forall i | 0 <= i < |after| ensures ToldRow(past + [e], after, i) { StepTellsRow(past, rows, e, i); }
      forall token: nat | Fresh(after, token) ensures UsableAfter(past + [e], token) == None {
        StepTellsFresh(past, rows, e, token);
      }
      StepKeepsInv(rows, e);
      RunTells(past + [e], after, events[1..]);
      assert (past + [e]) + events[1..] == past + events;
    }
  }

  predicate Made(events: seq<Event>, token: nat) {
    exists e :: e in events && (e.Login? || e.Rotate?) && e.token == token
  }

  /** Tokens of rows were made by an event. */
  predicate RowsMade(past: seq<Event>, rows: seq<Row>) {
    forall i | 0 <= i < |rows| :: Made(past, rows[i].token)
  }

  lemma {:induction false} RunMakesRows(past: seq<Event>, rows: seq<Row>, events: seq<Event>)
    requires RowsMade(past, rows) && CanRun(rows, events)
    ensures RowsMade(past + events, Run(rows, events))
    decreases |events|
  {
    if events == [] {
      assert past + events == past;
    } else {
      var e := events[0];
      StepMakesRows(past, rows, e);
      hide RowsMade, Enabled, Apply;
      RunMakesRows(past + [e], Apply(rows, e), events[1..]);
      assert (past + [e]) + events[1..] == past + events;
    }
  }

  lemma StepMakesRows(past: seq<Event>, rows: seq<Row>, e: Event)
    requires RowsMade(past, rows) && Enabled(rows, e)
    ensures RowsMade(past + [e], Apply(rows, e))
  {
    var after := Apply(rows, e);
    assert forall f | f in past :: f in past + [e];
    assert e in past + [e];
    forall i | 0 <= i < |after| ensures Made(past + [e], after[i].token) {
      if i < |rows| {
        var f :| f in past && (f.Login? || f.Rotate?) && f.token == rows[i].token;
        assert f in past + [e];
      }
    }
  }

  /** In every run a revoke-all can follow, and so can a login and a rotation with a token that was not made before. */
  lemma AnyCanFollow(events: seq<Event>, e: Event)
    requires CanRun([], events)
    ensures e.RevokeAll? || !Made(events, e.token) ==> Enabled(Run([], events), e)
  {
    RunMakesRows([], [], events);
    assert [] + events == events;
  }

  /**
   * In every run a rotation succeeds exactly when the token was made for that user, by a login or a rotation that
   * succeeded, less than 30 days ago, and has not been rotated or revoked since.
   */
  lemma RotatesExactlyUsable(events: seq<Event>, e: Event)
    requires CanRun([], events) && e.Rotate?
    ensures Succeeds(Run([], events), e) <==> InTime(UsableAfter(events, e.used), e.user, e.deadline)
  {
    RunTells([], [], events);
    RunKeepsInv([], events);
    assert [] + events == events;
    RotationIsTold(events, Run([], events), e);
  }

  // ---- The table of the source ----

  lemma FirstMatch(rows: seq<Row>, token: nat, user: nat, deadline: int, i: nat)
    requires i <= |rows| && forall j | 0 <= j < i :: !Matches(rows[j], token, user, deadline)
    requires i < |rows| ==> Matches(rows[i], token, user, deadline)
    ensures Find(rows, token, user, deadline) == i
  {
    var k := Find(rows, token, user, deadline);
    hide Matches, Find;
  }

  class RefreshTokenTable {
    var rows: seq<Row>

    ghost predicate Valid()
      reads this
    {
      Inv(rows)
    }

    constructor ()
      ensures Valid() && rows == []
    {
      rows := [];
    }

    /** createRefreshToken, in the transaction of a login or of a rotation. */
    method CreateRefreshToken(user: nat, now: int, token: nat, login: nat) returns (raw: nat)
      modifies this
      ensures rows == old(rows) + [NewRow(token, user, now, login)] && raw == token
    {
      rows := rows + [Row(token, user, now, now + REFRESH_TOKEN_TTL_MS, None, login)];
      raw := token;
    }

    /** The token issue of loginUser. */
    method IssueAtLogin(user: nat, now: int, token: nat) returns (raw: nat)
      requires Valid() && Fresh(rows, token)
      modifies this
      ensures Valid() && rows == Apply(old(rows), Login(user, now, token)) && raw == token
    {
      StepKeepsInv(rows, Login(user, now, token));
      hide Inv;
      raw := CreateRefreshToken(user, now, token, |rows|);
    }

    method RotateRefreshToken(oldToken: nat, user: nat, deadline: int, now: int, token: nat) returns (raw: Option<nat>)
      requires Valid() && Fresh(rows, token)
      modifies this
      ensures Valid() && rows == Apply(old(rows), Rotate(oldToken, user, deadline, now, token))
      ensures raw == if Succeeds(old(rows), Rotate(oldToken, user, deadline, now, token)) then Some(token) else None
    {
      StepKeepsInv(rows, Rotate(oldToken, user, deadline, now, token));
      hide Inv;
      var i := 0;
      while i < |rows| && !Matches(rows[i], oldToken, user, deadline)
        invariant 0 <= i <= |rows|
        invariant forall j | 0 <= j < i :: !Matches(rows[j], oldToken, user, deadline)
      {
        i := i + 1;
      }
      if i == |rows| {
        return None;
      }
      FirstMatch(rows, oldToken, user, deadline, i);
      hide Matches, Find, Fresh;
      var login := rows[i].login;
      rows := rows[i := rows[i].(revokedAt := Some(deadline))];
      var created := CreateRefreshToken(user, now, token, login);
      raw := Some(created);
    }

    method RevokeAllUserRefreshTokens(user: nat, now: int)
      requires Valid()
      modifies this
      ensures Valid() && rows == Apply(old(rows), RevokeAll(user, now))
    {
      StepKeepsInv(rows, RevokeAll(user, now));
      hide Inv;
      ghost var before := rows;
      var i := 0;
      while i < |rows|
        invariant 0 <= i <= |rows| == |before|
        invariant forall j | 0 <= j < |rows| ::
          rows[j] == if j < i && before[j].user == user then before[j].(revokedAt := Some(now)) else before[j]
      {
        if rows[i].user == user {
          rows := rows[i := rows[i].(revokedAt := Some(now))];
        }
        i := i + 1;
      }
      assert rows == Revoked(before, user, now);
    }
  }
}
