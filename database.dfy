/**
 * The backend's persistent state (the `teams` and `matches` tables) and the
 * single-row writes the controllers issue against it.
 */
module Database {
  import opened Options
  import opened Scoring
  import Fixtures

  /** A stored match row is consistent: known distinct teams, a used id, scores exactly when played. */
  ghost predicate MatchRow(teams: map<TeamId, Team>, m: Match, nextMatchId: int) {
    && Participants(teams, m)
    && m.id < nextMatchId
    && (m.played <==> HasScores(m))
    && (m.score1.Some? ==> m.score1.value >= 0)
    && (m.score2.Some? ==> m.score2.value >= 0)
  }

  class Store {
    /** `teams`: id -> row. */
    var teams: map<TeamId, Team>
    /** The order in which `Team::all()` lists the teams. */
    var order: seq<TeamId>
    /** `matches`, in insertion order. */
    var matches: seq<Match>
    /** Auto-increment counters; deleting rows does not reset them. */
    var nextTeamId: int
    var nextMatchId: int

    ghost predicate WellFormed()
      reads this
    {
      Tables(teams, order, matches, nextTeamId, nextMatchId)
    }

    /** The store is well formed and every team's points agree with its played matches. */
    ghost predicate Valid()
      reads this
    {
      WellFormed() && Ledger(teams, matches)
    }

    /** An empty database. */
    constructor ()
      ensures Valid()
      ensures teams == map[] && order == [] && matches == []
      ensures nextTeamId == 1 && nextMatchId == 1
    {
      teams, order, matches := map[], [], [];
      nextTeamId, nextMatchId := 1, 1;
    }

    /** `Team::create` as the team form issues it: a fresh id and 0 points. */
    method CreateTeam(name: string, creator: int) returns (id: TeamId)
      requires WellFormed()
      modifies this
      ensures WellFormed()
      ensures old(Valid()) ==> Valid()
      ensures id == old(nextTeamId) && id !in old(teams)
      ensures teams == old(teams)[id := Team(name, creator, 0)]
      ensures order == old(order) + [id]
      ensures matches == old(matches) && nextMatchId == old(nextMatchId)
      ensures nextTeamId == old(nextTeamId) + 1
    {
      id := nextTeamId;
      assert id !in order;
      Fixtures.DistinctSnoc(order, id);
      nextTeamId := nextTeamId + 1;
      teams := teams[id := Team(name, creator, 0)];
      order := order + [id];
      forall t | t in teams && old(Valid())
        ensures teams[t].points == Earned(matches, t)
      {
        if t == id {
          forall k | 0 <= k < |matches|
            ensures AwardOf(matches[k], id) == 0
          {
            assert MatchRow(old(teams), matches[k], nextMatchId);
          }
          EarnedElsewhere(matches, id);
        }
      }
    }

    /** Adds the award for `m`'s scores to both teams: load both rows, adjust, save both. */
    method AssignPoints(m: Match)
      requires Participants(teams, m) && HasScores(m)
      modifies this
      ensures teams == Credited(old(teams), m)
      ensures order == old(order) && matches == old(matches)
      ensures nextTeamId == old(nextTeamId) && nextMatchId == old(nextMatchId)
    {
      var team1 := teams[m.team1];
      var team2 := teams[m.team2];
      if m.score1.value > m.score2.value {
        team1 := team1.(points := team1.points + 3);
      } else if m.score1.value < m.score2.value {
        team2 := team2.(points := team2.points + 3);
      } else {
        team1 := team1.(points := team1.points + 1);
        team2 := team2.(points := team2.points + 1);
      }
      teams := teams[m.team1 := team1];
      teams := teams[m.team2 := team2];
    }

    /** Takes the award for `m`'s scores away from both teams again. */
    method RemovePoints(m: Match)
      requires Participants(teams, m) && HasScores(m)
      modifies this
      ensures teams == Debited(old(teams), m)
      ensures order == old(order) && matches == old(matches)
      ensures nextTeamId == old(nextTeamId) && nextMatchId == old(nextMatchId)
    {
      var team1 := teams[m.team1];
      var team2 := teams[m.team2];
      if m.score1.value > m.score2.value {
        team1 := team1.(points := team1.points - 3);
      } else if m.score1.value < m.score2.value {
        team2 := team2.(points := team2.points - 3);
      } else {
        team1 := team1.(points := team1.points - 1);
        team2 := team2.(points := team2.points - 1);
      }
      teams := teams[m.team1 := team1];
      teams := teams[m.team2 := team2];
    }

    /**
     * The score-entry sequence both controllers run on the match at position
     * `k`: reverse the old award if it was played, store the scores with
     * `played = true`, add the new award.
     */
    method SetScore(k: nat, s1: int, s2: int)
      requires WellFormed()
      requires k < |matches| && s1 >= 0 && s2 >= 0
      modifies this
      ensures WellFormed()
      ensures old(Valid()) ==> Valid()
      ensures matches == old(matches)[k := Scored(old(matches)[k], s1, s2)]
      ensures teams == Rescored(old(teams), old(matches)[k], s1, s2)
      ensures order == old(order)
      ensures nextTeamId == old(nextTeamId) && nextMatchId == old(nextMatchId)
    {
      ghost var wasValid := Valid();
      var m := matches[k];
      assert MatchRow(teams, m, nextMatchId);
      if m.played {
        RemovePoints(m);
      }
      var m' := Scored(m, s1, s2);
      matches := matches[k := m'];
      AssignPoints(m');
      RescoreKeepsTables(old(teams), order, old(matches), nextTeamId, nextMatchId, k, s1, s2);
      if wasValid {
        RescoreKeepsLedger(old(teams), old(matches), k, s1, s2);
      }
    }
  }

  /** The two tables are consistent with each other and with the counters. */
  ghost predicate Tables(teams: map<TeamId, Team>, order: seq<TeamId>, matches: seq<Match>, nextTeamId: int, nextMatchId: int) {
    && Fixtures.Distinct(order)
    && (forall t :: t in teams <==> t in order)
    && (forall t :: t in teams ==> t < nextTeamId)
    && (forall k :: 0 <= k < |matches| ==> MatchRow(teams, matches[k], nextMatchId))
    && (forall k, l :: 0 <= k < l < |matches| ==> matches[k].id != matches[l].id)
  }

  lemma RescoreKeepsTables(teams: map<TeamId, Team>, order: seq<TeamId>, ms: seq<Match>, nextTeamId: int, nextMatchId: int,
                           k: nat, s1: int, s2: int)
    requires Tables(teams, order, ms, nextTeamId, nextMatchId)
    requires k < |ms| && s1 >= 0 && s2 >= 0
    ensures MatchRow(teams, ms[k], nextMatchId)
    ensures Tables(Rescored(teams, ms[k], s1, s2), order, ms[k := Scored(ms[k], s1, s2)], nextTeamId, nextMatchId)
  {
    assert MatchRow(teams, ms[k], nextMatchId);
    var teams' := Rescored(teams, ms[k], s1, s2);
    var ms' := ms[k := Scored(ms[k], s1, s2)];
    forall j | 0 <= j < |ms'|
      ensures MatchRow(teams', ms'[j], nextMatchId)
    {
      assert MatchRow(teams, ms[j], nextMatchId);
    }
  }

  /** Entering a score keeps the ledger invariant. */
  lemma RescoreKeepsLedger(teams: map<TeamId, Team>, ms: seq<Match>, k: nat, s1: int, s2: int)
    requires Ledger(teams, ms)
    requires k < |ms| && Participants(teams, ms[k]) && (ms[k].played ==> HasScores(ms[k]))
    ensures Ledger(Rescored(teams, ms[k], s1, s2), ms[k := Scored(ms[k], s1, s2)])
  {
    var teams' := Rescored(teams, ms[k], s1, s2);
    forall t | t in teams'
      ensures teams'[t].points == Earned(ms[k := Scored(ms[k], s1, s2)], t)
    {
      EarnedUpdate(ms, k, Scored(ms[k], s1, s2), t);
    }
  }

  /** A team that appears in no match has earned nothing. */
  lemma {:induction false} EarnedElsewhere(ms: seq<Match>, t: TeamId)
    requires forall k :: 0 <= k < |ms| ==> AwardOf(ms[k], t) == 0
    ensures Earned(ms, t) == 0
  {
    if ms != [] {
      EarnedElsewhere(ms[1..], t);
    }
  }
}
