/**
 * The standings ledger of the tournament backend: teams, matches, the
 * win-3 / draw-1 / loss-0 award and the running points totals it keeps.
 */
module Scoring {
  import opened Options

  type TeamId = int

  /** A row of the `teams` table (`creator_id` is the player who made it). */
  datatype Team = Team(name: string, creator: int, points: int)

  /**
   * A row of the `matches` table.  Scores and the start time are nullable;
   * times are whole minutes on one common clock.
   */
  datatype Match = Match(
    id: int,
    team1: TeamId,
    team2: TeamId,
    score1: Option<int>,
    score2: Option<int>,
    field: int,
    start: Option<int>,
    played: bool)

  /**
   * Points (team1, team2) for a final score: the winner gets 3 and the loser
   * 0, a draw gives both 1.
   */
  function Award(s1: int, s2: int): (r: (int, int))
    ensures r.0 == 3 <==> s1 > s2
    ensures r.1 == 3 <==> s1 < s2
    ensures r.0 == r.1 <==> s1 == s2
    ensures r.0 + r.1 == if s1 == s2 then 2 else 3
  {
    if s1 > s2 then (3, 0)
    else if s1 < s2 then (0, 3)
    else (1, 1)
  }

  /** Swapping the two sides swaps the award. */
  lemma AwardSwap(s1: int, s2: int)
    ensures Award(s2, s1) == (Award(s1, s2).1, Award(s1, s2).0)
  {
  }

  /** The points that match `m`, as currently stored, contributes to team `t`. */
  function AwardOf(m: Match, t: TeamId): (r: int)
    ensures 0 <= r <= 3
    ensures !m.played ==> r == 0
    ensures t != m.team1 && t != m.team2 ==> r == 0
  {
    if m.played && m.score1.Some? && m.score2.Some? then
      var a := Award(m.score1.value, m.score2.value);
      if t == m.team1 then a.0 else if t == m.team2 then a.1 else 0
    else 0
  }

  /** Sum of the awards to `t` over the played matches of `ms`. */
  function Earned(ms: seq<Match>, t: TeamId): (r: int)
    ensures r >= 0
    ensures r <= 3 * |ms|
  {
    if ms == [] then 0 else AwardOf(ms[0], t) + Earned(ms[1..], t)
  }

  /** The central invariant: every team's points are exactly what its played matches earned it. */
  ghost predicate Ledger(teams: map<TeamId, Team>, ms: seq<Match>)
    ensures Ledger(teams, ms) ==> forall t :: t in teams ==> 0 <= teams[t].points <= 3 * |ms|
  {
    forall t :: t in teams ==> teams[t].points == Earned(ms, t)
  }

  lemma {:induction false} EarnedConcat(a: seq<Match>, b: seq<Match>, t: TeamId)
    ensures Earned(a + b, t) == Earned(a, t) + Earned(b, t)
  {
    if a == [] {
      assert a + b == b;
    } else {
      assert (a + b)[1..] == a[1..] + b;
      EarnedConcat(a[1..], b, t);
    }
  }

  /** Replacing one match changes a team's total by exactly the difference of its two awards. */
  lemma {:induction false} EarnedUpdate(ms: seq<Match>, k: nat, m: Match, t: TeamId)
    requires k < |ms|
    ensures Earned(ms[k := m], t) == Earned(ms, t) - AwardOf(ms[k], t) + AwardOf(m, t)
  {
    if k > 0 {
      assert ms[k := m][1..] == ms[1..][k - 1 := m];
      EarnedUpdate(ms[1..], k - 1, m, t);
    } else {
      assert ms[k := m][1..] == ms[1..];
    }
  }

  /** Removing one match takes away exactly its award. */
  lemma EarnedRemove(ms: seq<Match>, k: nat, t: TeamId)
    requires k < |ms|
    ensures Earned(ms[..k] + ms[k + 1..], t) == Earned(ms, t) - AwardOf(ms[k], t)
  {
    assert ms == ms[..k] + ([ms[k]] + ms[k + 1..]);
    EarnedConcat(ms[..k], [ms[k]] + ms[k + 1..], t);
    EarnedConcat([ms[k]], ms[k + 1..], t);
    EarnedConcat(ms[..k], ms[k + 1..], t);
  }

  /** A list of unplayed matches earns nobody anything. */
  lemma {:induction false} EarnedUnplayed(ms: seq<Match>, t: TeamId)
    requires forall k :: 0 <= k < |ms| ==> !ms[k].played
    ensures Earned(ms, t) == 0
  {
    if ms != [] {
      EarnedUnplayed(ms[1..], t);
    }
  }

  /** Scores present on a match (the precondition of awarding it). */
  predicate HasScores(m: Match) {
    m.score1.Some? && m.score2.Some?
  }

  /** Both participants are known teams, and they are two different teams. */
  predicate Participants(teams: map<TeamId, Team>, m: Match) {
    m.team1 in teams && m.team2 in teams && m.team1 != m.team2
  }

  function AddPoints(teams: map<TeamId, Team>, t: TeamId, delta: int): (r: map<TeamId, Team>)
    requires t in teams
    ensures r.Keys == teams.Keys
  {
    teams[t := teams[t].(points := teams[t].points + delta)]
  }

  /**
   * The teams after the award for `m`'s scores is added: only the two
   * participants change, and only in their points.
   */
  function Credited(teams: map<TeamId, Team>, m: Match): (r: map<TeamId, Team>)
    requires Participants(teams, m) && HasScores(m)
    ensures r.Keys == teams.Keys
    ensures r[m.team1] == teams[m.team1].(points := teams[m.team1].points + Award(m.score1.value, m.score2.value).0)
    ensures r[m.team2] == teams[m.team2].(points := teams[m.team2].points + Award(m.score1.value, m.score2.value).1)
    ensures forall t :: t in teams && t != m.team1 && t != m.team2 ==> r[t] == teams[t]
  {
    var a := Award(m.score1.value, m.score2.value);
    AddPoints(AddPoints(teams, m.team1, a.0), m.team2, a.1)
  }

  /** The teams after the award for `m`'s scores is taken away again. */
  function Debited(teams: map<TeamId, Team>, m: Match): (r: map<TeamId, Team>)
    requires Participants(teams, m) && HasScores(m)
    ensures r.Keys == teams.Keys
    ensures r[m.team1] == teams[m.team1].(points := teams[m.team1].points - Award(m.score1.value, m.score2.value).0)
    ensures r[m.team2] == teams[m.team2].(points := teams[m.team2].points - Award(m.score1.value, m.score2.value).1)
    ensures forall t :: t in teams && t != m.team1 && t != m.team2 ==> r[t] == teams[t]
  {
    var a := Award(m.score1.value, m.score2.value);
    AddPoints(AddPoints(teams, m.team1, -a.0), m.team2, -a.1)
  }

  /** Taking the award away undoes adding it... */
  lemma DebitedCredited(teams: map<TeamId, Team>, m: Match)
    requires Participants(teams, m) && HasScores(m)
    ensures Debited(Credited(teams, m), m) == teams
  {
    var r := Debited(Credited(teams, m), m);
    assert forall t :: t in teams ==> r[t] == teams[t];
  }

  /** ...and adding it undoes taking it away. */
  lemma CreditedDebited(teams: map<TeamId, Team>, m: Match)
    requires Participants(teams, m) && HasScores(m)
    ensures Credited(Debited(teams, m), m) == teams
  {
    var r := Credited(Debited(teams, m), m);
    assert forall t :: t in teams ==> r[t] == teams[t];
  }

  /** For a played match, adding its award adds to every team exactly what the match earns it. */
  lemma CreditedAwardOf(teams: map<TeamId, Team>, m: Match, t: TeamId)
    requires Participants(teams, m) && HasScores(m) && m.played
    requires t in teams
    ensures Credited(teams, m)[t].points == teams[t].points + AwardOf(m, t)
    ensures Debited(teams, m)[t].points == teams[t].points - AwardOf(m, t)
  {
  }

  /** The match once a score is stored on it. */
  function Scored(m: Match, s1: int, s2: int): (r: Match)
    ensures r.played && r.score1 == Some(s1) && r.score2 == Some(s2)
    ensures r.id == m.id && r.team1 == m.team1 && r.team2 == m.team2
    ensures r.field == m.field && r.start == m.start
  {
    m.(score1 := Some(s1), score2 := Some(s2), played := true)
  }

  /**
   * The teams after a score (s1, s2) is entered on `m`: the old award is
   * reversed when `m` was already played, then the new award is added.
   */
  function Rescored(teams: map<TeamId, Team>, m: Match, s1: int, s2: int): (r: map<TeamId, Team>)
    requires Participants(teams, m) && (m.played ==> HasScores(m))
    ensures r.Keys == teams.Keys
    ensures forall t :: t in teams ==>
      r[t] == teams[t].(points := teams[t].points - AwardOf(m, t) + AwardOf(Scored(m, s1, s2), t))
  {
    var base := if m.played then Debited(teams, m) else teams;
    Credited(base, Scored(m, s1, s2))
  }

  /** Entering the score a played match already has changes no team. */
  lemma RescoredSame(teams: map<TeamId, Team>, m: Match)
    requires Participants(teams, m) && m.played && HasScores(m)
    ensures Rescored(teams, m, m.score1.value, m.score2.value) == teams
  {
    assert Scored(m, m.score1.value, m.score2.value) == m;
    var r := Rescored(teams, m, m.score1.value, m.score2.value);
    assert forall t :: t in teams ==> r[t] == teams[t];
  }

  /**
   * Corrections do not accumulate: scoring (a, b) and then correcting it to
   * (c, d) leaves every team as scoring (c, d) directly would.
   */
  lemma RescoredTwice(teams: map<TeamId, Team>, m: Match, a: int, b: int, c: int, d: int)
    requires Participants(teams, m) && (m.played ==> HasScores(m))
    ensures Rescored(Rescored(teams, m, a, b), Scored(m, a, b), c, d) == Rescored(teams, m, c, d)
  {
    var once := Rescored(teams, m, a, b);
    var r := Rescored(once, Scored(m, a, b), c, d);
    var direct := Rescored(teams, m, c, d);
    assert Scored(Scored(m, a, b), c, d) == Scored(m, c, d);
    assert forall t :: t in teams ==> r[t] == direct[t];
  }

  /** Position of the match with id `id` (Eloquent's `find`), if there is one. */
  function IndexOf(ms: seq<Match>, id: int): (r: Option<nat>)
    ensures r.Some? ==> r.value < |ms| && ms[r.value].id == id
    ensures r.Some? ==> forall k :: 0 <= k < r.value ==> ms[k].id != id
    ensures r.None? <==> forall k :: 0 <= k < |ms| ==> ms[k].id != id
  {
    if ms == [] then None
    else if ms[0].id == id then Some(0)
    else match IndexOf(ms[1..], id)
      case None => None
      case Some(k) => Some(k + 1)
  }
}
