/**
 * The admin actions of the web match controller: generating the round-robin
 * schedule, entering or correcting a score, deleting a match.  The session
 * lookup of the logged-in player is reduced to the flag `isAdmin`; request
 * fields are `None` when missing or not an integer (or not a date).
 */
module MatchController {
  import opened Options
  import opened Scoring
  import opened Fixtures
  import opened Database

  /** Where the controller sends the browser. */
  datatype WebOutcome =
    | NotAdmin          // redirect with "only administrators ..."
    | ValidationFailed  // `$request->validate` rejected the form
    | NotFound          // `findOrFail` found no match (404)
    | Done              // redirect with a success message

  /** `required|integer|min:lo|max:hi` */
  predicate InRange(v: Option<int>, lo: int, hi: int) {
    v.Some? && lo <= v.value <= hi
  }

  /** `required|integer|min:0` for a score. */
  predicate ValidScore(v: Option<int>) {
    v.Some? && v.value >= 0
  }

  /**
   * Fixture number `k` of a schedule, as generated: a fresh id, the `k`-th
   * pair, field `k mod fields + 1`, start time `start + (k div fields) * step`,
   * not played and without scores.
   */
  ghost predicate IsFixture(m: Match, k: nat, pair: (int, int), firstId: int, fields: int, start: int, step: int)
    requires fields >= 1
  {
    && m.id == firstId + k
    && m.team1 == pair.0 && m.team2 == pair.1
    && m.field == k % fields + 1
    && m.start == Some(start + (k / fields) * step)
    && !m.played && m.score1.None? && m.score2.None?
  }

  /**
   * `generate`: after the admin check and the parameter validation, delete
   * every match, reset every team's points to 0 and insert the new schedule.
   * It runs on any well-formed store, also one whose points no longer agree
   * with its matches, and a successful run restores that agreement.
   */
  method Generate(db: Store, isAdmin: bool, fields: Option<int>, matchDuration: Option<int>,
                  breakBetween: Option<int>, startTime: Option<int>) returns (r: WebOutcome)
    requires db.WellFormed()
    modifies db
    ensures db.WellFormed()
    ensures r == Done || old(db.Valid()) ==> db.Valid()
    ensures r == if !isAdmin then NotAdmin
                 else if !(InRange(fields, 1, 10) && InRange(matchDuration, 5, 120)
                           && InRange(breakBetween, 0, 60) && startTime.Some?) then ValidationFailed
                 else Done
    ensures r != Done ==> unchanged(db)
    ensures r == Done ==>
      var pairs := FixturePairs(old(db.order));
      && db.order == old(db.order)
      && db.teams.Keys == old(db.teams).Keys
      && (forall t :: t in db.teams ==> db.teams[t] == old(db.teams)[t].(points := 0))
      && |db.matches| == |pairs|
      && (forall k :: 0 <= k < |db.matches| ==>
            IsFixture(db.matches[k], k, pairs[k], old(db.nextMatchId), fields.value, startTime.value,
                      matchDuration.value + breakBetween.value))
      && db.nextMatchId == old(db.nextMatchId) + |pairs|
      && db.nextTeamId == old(db.nextTeamId)
  {
    if !isAdmin {
      return NotAdmin;
    }
    if !(InRange(fields, 1, 10) && InRange(matchDuration, 5, 120) && InRange(breakBetween, 0, 60) && startTime.Some?) {
      return ValidationFailed;
    }
    var numFields, step, start := fields.value, matchDuration.value + breakBetween.value, startTime.value;

    db.matches := [];
    db.teams := map t | t in db.teams :: db.teams[t].(points := 0);
    ghost var firstId := db.nextMatchId;
    Schedule(db, numFields, step, start);
    GeneratedIsValid(db.teams, db.order, db.matches, db.nextTeamId, db.nextMatchId, firstId, numFields, start, step);
    r := Done;
  }

  /**
   * The nested loop of `generate` over the team list, inserting fixtures
   * into the emptied match table.
   */
  method Schedule(db: Store, numFields: int, step: int, start: int)
    requires db.matches == [] && numFields >= 1
    modifies db
    ensures db.teams == old(db.teams) && db.order == old(db.order) && db.nextTeamId == old(db.nextTeamId)
    ensures |db.matches| == |FixturePairs(db.order)|
    ensures forall k :: 0 <= k < |db.matches| ==>
              IsFixture(db.matches[k], k, FixturePairs(db.order)[k], old(db.nextMatchId), numFields, start, step)
    ensures db.nextMatchId == old(db.nextMatchId) + |FixturePairs(db.order)|
  {
    ghost var firstId := db.nextMatchId;
    var teams := db.order;
    var n := |teams|;
    var currentField := 1;
    var currentTime := start;
    ghost var slot := 0;
    ghost var done: seq<(int, int)> := [];

    var i := 0;
    while i < n
      invariant 0 <= i <= n
      invariant db.teams == old(db.teams) && db.order == teams && db.nextTeamId == old(db.nextTeamId)
      invariant done == Pairs(teams[..i], teams)
      invariant Progress(db.matches, db.nextMatchId, done, slot, currentField, currentTime, firstId, numFields, start, step)
    {
      currentField, currentTime, slot, done :=
        InsertRow(db, teams, teams[i], numFields, step, start, firstId, currentField, currentTime, slot, done);
      assert teams[..i + 1][..i] == teams[..i];
      assert Pairs(teams[..i + 1], teams) == Pairs(teams[..i], teams) + Row(teams[i], teams);
      i := i + 1;
    }
    assert teams[..n] == teams;
  }

  /**
   * The first |done| fixtures are in the store, and the running field and
   * clock stand where the next fixture goes: `slot` complete time slots so far.
   */
  ghost predicate Progress(ms: seq<Match>, nextMatchId: int, done: seq<(int, int)>, slot: int, currentField: int,
                           currentTime: int, firstId: int, fields: int, start: int, step: int)
  {
    && fields >= 1
    && |ms| == |done| && nextMatchId == firstId + |done|
    && (forall k :: 0 <= k < |ms| ==> IsFixture(ms[k], k, done[k], firstId, fields, start, step))
    && 1 <= currentField <= fields && slot >= 0
    && |done| == slot * fields + (currentField - 1)
    && currentTime == start + slot * step
  }

  /**
   * The inner loop of `generate` for outer team `a`: inserts `(a, b)` for
   * every `b` in `teams` with a larger id, packing the
   * fields and advancing the clock.
   */
  method InsertRow(db: Store, teams: seq<TeamId>, a: TeamId, numFields: int, step: int, start: int, ghost firstId: int,
                   field0: int, time0: int, ghost slot0: int, ghost done0: seq<(int, int)>)
    returns (currentField: int, currentTime: int, ghost slot: int, ghost done: seq<(int, int)>)
    requires Progress(db.matches, db.nextMatchId, done0, slot0, field0, time0, firstId, numFields, start, step)
    modifies db
    ensures done == done0 + Row(a, teams)
    ensures Progress(db.matches, db.nextMatchId, done, slot, currentField, currentTime, firstId, numFields, start, step)
    ensures db.teams == old(db.teams) && db.order == old(db.order) && db.nextTeamId == old(db.nextTeamId)
  {
    currentField, currentTime, slot, done := field0, time0, slot0, done0;
    var n := |teams|;
    var j := 0;
    while j < n
      invariant 0 <= j <= n
      invariant db.teams == old(db.teams) && db.order == old(db.order) && db.nextTeamId == old(db.nextTeamId)
      invariant done == done0 + Row(a, teams[..j])
      invariant Progress(db.matches, db.nextMatchId, done, slot, currentField, currentTime, firstId, numFields, start, step)
    {
      assert teams[..j + 1][..j] == teams[..j];
      assert Row(a, teams[..j + 1]) == Row(a, teams[..j]) + (if a < teams[j] then [(a, teams[j])] else []);
      if a < teams[j] {
        DivModOf(|done|, numFields, slot, currentField - 1);
        db.matches := db.matches + [Match(db.nextMatchId, a, teams[j], None, None,
                                          currentField, Some(currentTime), false)];
        db.nextMatchId := db.nextMatchId + 1;
        done := done + [(a, teams[j])];
        currentField := currentField + 1;
        if currentField > numFields {
          currentField := 1;
          currentTime := currentTime + step;
          assert (slot + 1) * numFields == slot * numFields + numFields;
          assert (slot + 1) * step == slot * step + step;
          slot := slot + 1;
        }
      }
      j := j + 1;
    }
    assert teams[..n] == teams;
  }

  /** The freshly generated state satisfies the store invariant, the ledger included. */
  lemma GeneratedIsValid(teams: map<TeamId, Team>, order: seq<TeamId>, ms: seq<Match>, nextTeamId: int, nextMatchId: int,
                         firstId: int, fields: int, start: int, step: int)
    requires fields >= 1
    requires Distinct(order) && (forall t :: t in teams <==> t in order) && (forall t :: t in teams ==> t < nextTeamId)
    requires forall t :: t in teams ==> teams[t].points == 0
    requires |ms| == |FixturePairs(order)| && nextMatchId == firstId + |ms|
    requires forall k :: 0 <= k < |ms| ==> IsFixture(ms[k], k, FixturePairs(order)[k], firstId, fields, start, step)
    ensures Tables(teams, order, ms, nextTeamId, nextMatchId) && Ledger(teams, ms)
  {
    PairsMembers(order, order);
    forall k | 0 <= k < |ms|
      ensures MatchRow(teams, ms[k], nextMatchId)
    {
      assert IsFixture(ms[k], k, FixturePairs(order)[k], firstId, fields, start, step);
    }
    forall k, l | 0 <= k < l < |ms|
      ensures ms[k].id != ms[l].id
    {
      assert IsFixture(ms[k], k, FixturePairs(order)[k], firstId, fields, start, step);
      assert IsFixture(ms[l], l, FixturePairs(order)[l], firstId, fields, start, step);
    }
    forall t | t in teams
      ensures teams[t].points == Earned(ms, t)
    {
      forall k | 0 <= k < |ms|
        ensures !ms[k].played
      {
        assert IsFixture(ms[k], k, FixturePairs(order)[k], firstId, fields, start, step);
      }
      EarnedUnplayed(ms, t);
    }
  }

  /**
   * `update`: after the admin check, score validation and `findOrFail`, run
   * the reverse-then-apply ledger step on the match.
   */
  method Update(db: Store, isAdmin: bool, id: int, score1: Option<int>, score2: Option<int>) returns (r: WebOutcome)
    requires db.WellFormed()
    modifies db
    ensures db.WellFormed()
    ensures old(db.Valid()) ==> db.Valid()
    ensures r == if !isAdmin then NotAdmin
                 else if !(ValidScore(score1) && ValidScore(score2)) then ValidationFailed
                 else if IndexOf(old(db.matches), id).None? then NotFound
                 else Done
    ensures r != Done ==> unchanged(db)
    ensures r == Done ==>
      var k := IndexOf(old(db.matches), id).value;
      && db.matches == old(db.matches)[k := Scored(old(db.matches)[k], score1.value, score2.value)]
      && db.teams == Rescored(old(db.teams), old(db.matches)[k], score1.value, score2.value)
      && db.order == old(db.order)
      && db.nextTeamId == old(db.nextTeamId) && db.nextMatchId == old(db.nextMatchId)
  {
    if !isAdmin {
      return NotAdmin;
    }
    if !(ValidScore(score1) && ValidScore(score2)) {
      return ValidationFailed;
    }
    var found := IndexOf(db.matches, id);
    if found.None? {
      return NotFound;
    }
    db.SetScore(found.value, score1.value, score2.value);
    r := Done;
  }

  /**
   * `destroy`: after the admin check and `findOrFail`, reverse the award if
   * the match was played, then delete the match row.
   */
  method Destroy(db: Store, isAdmin: bool, id: int) returns (r: WebOutcome)
    requires db.WellFormed()
    modifies db
    ensures db.WellFormed()
    ensures old(db.Valid()) ==> db.Valid()
    ensures r == if !isAdmin then NotAdmin
                 else if IndexOf(old(db.matches), id).None? then NotFound
                 else Done
    ensures r != Done ==> unchanged(db)
    ensures r == Done ==>
      var k := IndexOf(old(db.matches), id).value;
      var m := old(db.matches)[k];
      && db.matches == old(db.matches)[..k] + old(db.matches)[k + 1..]
      && db.teams == (if m.played then Debited(old(db.teams), m) else old(db.teams))
      && db.order == old(db.order)
      && db.nextTeamId == old(db.nextTeamId) && db.nextMatchId == old(db.nextMatchId)
  {
    if !isAdmin {
      return NotAdmin;
    }
    var found := IndexOf(db.matches, id);
    if found.None? {
      return NotFound;
    }
    var k := found.value;
    var m := db.matches[k];
    assert MatchRow(db.teams, m, db.nextMatchId);
    if m.played {
      db.RemovePoints(m);
    }
    db.matches := db.matches[..k] + db.matches[k + 1..];
    DeleteKeepsTables(old(db.teams), db.order, old(db.matches), db.nextTeamId, db.nextMatchId, k);
    if old(db.Valid()) {
      DeleteKeepsLedger(old(db.teams), old(db.matches), k);
    }
    r := Done;
  }

  /** The state after a deletion is well formed. */
  lemma DeleteKeepsTables(teams: map<TeamId, Team>, order: seq<TeamId>, ms: seq<Match>, nextTeamId: int, nextMatchId: int, k: nat)
    requires Tables(teams, order, ms, nextTeamId, nextMatchId) && k < |ms|
    ensures MatchRow(teams, ms[k], nextMatchId)
    ensures var teams' := if ms[k].played then Debited(teams, ms[k]) else teams;
            Tables(teams', order, ms[..k] + ms[k + 1..], nextTeamId, nextMatchId)
  {
    assert MatchRow(teams, ms[k], nextMatchId);
    var teams' := if ms[k].played then Debited(teams, ms[k]) else teams;
    var ms' := ms[..k] + ms[k + 1..];
    assert forall j :: 0 <= j < |ms'| ==> ms'[j] == (if j < k then ms[j] else ms[j + 1]);
    forall j | 0 <= j < |ms'|
      ensures MatchRow(teams', ms'[j], nextMatchId)
    {
      assert MatchRow(teams, if j < k then ms[j] else ms[j + 1], nextMatchId);
    }
    forall i, j | 0 <= i < j < |ms'|
      ensures ms'[i].id != ms'[j].id
    {
      var i', j' := if i < k then i else i + 1, if j < k then j else j + 1;
      assert ms'[i] == ms[i'] && ms'[j] == ms[j'];
    }
  }

  /** Deleting a match, with its award reversed when played, keeps the ledger invariant. */
  lemma DeleteKeepsLedger(teams: map<TeamId, Team>, ms: seq<Match>, k: nat)
    requires Ledger(teams, ms)
    requires k < |ms| && Participants(teams, ms[k]) && (ms[k].played ==> HasScores(ms[k]))
    ensures Ledger(if ms[k].played then Debited(teams, ms[k]) else teams, ms[..k] + ms[k + 1..])
  {
    var teams' := if ms[k].played then Debited(teams, ms[k]) else teams;
    forall t | t in teams'
      ensures teams'[t].points == Earned(ms[..k] + ms[k + 1..], t)
    {
      EarnedRemove(ms, k, t);
    }
  }
}
