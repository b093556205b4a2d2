/**
 * The JSON API used by the native client: the API-key guard, the score
 * update with its guard chain, and the ordered read endpoints.
 */
module ApiController {
  import opened Options
  import opened Scoring
  import opened Sorting
  import opened Database
  import MatchController

  /** What the key lookup `Player::where('api_key', ...)` yields. */
  datatype Player = Player(id: int, admin: bool)

  /** The rejections, in the order the API checks them. */
  datatype ApiError =
    | KeyRequired      // 401 "API key required"
    | InvalidKey       // 401 "Invalid API key"
    | AdminRequired    // 403 "Admin rechten vereist"
    | ValidationError  // 422, from `$request->validate`
    | MatchNotFound    // 404 "Wedstrijd niet gevonden"

  datatype Result<T> = Ok(value: T) | Err(error: ApiError)

  /** The HTTP status of each rejection. */
  function StatusCode(e: ApiError): (code: int)
    ensures code == 401 <==> e == KeyRequired || e == InvalidKey
    ensures code == 403 <==> e == AdminRequired
    ensures code == 404 <==> e == MatchNotFound
  {
    match e
    case KeyRequired => 401
    case InvalidKey => 401
    case AdminRequired => 403
    case ValidationError => 422
    case MatchNotFound => 404
  }

  /** `$request->header('X-API-KEY') ?? $request->query('api_key')`: the header wins whenever it is present. */
  function RequestKey(header: Option<string>, query: Option<string>): (r: Option<string>)
    ensures header.Some? ==> r == header
    ensures header.None? ==> r == query
  {
    if header.Some? then header else query
  }

  /** PHP's `!$apiKey`: null, the empty string and the string "0" are all false. */
  predicate Falsy(key: Option<string>)
    ensures key.Some? && |key.value| >= 2 ==> !Falsy(key)
  {
    key.None? || key.value == "" || key.value == "0"
  }

  /** The key check every API endpoint starts with. */
  function Authenticate(keys: map<string, Player>, header: Option<string>, query: Option<string>): (r: Result<Player>)
    ensures r == Err(KeyRequired) <==> Falsy(RequestKey(header, query))
    ensures r == Err(InvalidKey) <==> !Falsy(RequestKey(header, query)) && RequestKey(header, query).value !in keys
    ensures r.Ok? <==> !Falsy(RequestKey(header, query)) && RequestKey(header, query).value in keys
    ensures r.Ok? ==> r.value == keys[RequestKey(header, query).value]
  {
    var key := RequestKey(header, query);
    if Falsy(key) then Err(KeyRequired)
    else if key.value !in keys then Err(InvalidKey)
    else Ok(keys[key.value])
  }

  /** The `match` object of the success response. */
  datatype MatchEcho = MatchEcho(id: int, team1Name: string, team2Name: string,
                                 score1: Option<int>, score2: Option<int>, played: bool)

  /**
   * `PUT /api/matches/{id}`: missing key, unknown key, non-admin, invalid
   * scores and unknown match are rejected in that order and before anything
   * is written; otherwise the same reverse-then-apply ledger step as the web
   * form runs and the stored match is echoed back.
   */
  method UpdateMatch(db: Store, keys: map<string, Player>, header: Option<string>, query: Option<string>,
                     id: int, score1: Option<int>, score2: Option<int>) returns (r: Result<MatchEcho>)
    requires db.WellFormed()
    modifies db
    ensures db.WellFormed()
    ensures old(db.Valid()) ==> db.Valid()
    ensures r.Err? ==> unchanged(db)
    ensures var auth := Authenticate(keys, header, query);
            r.Err? <==> auth.Err? || !auth.value.admin
                        || !(MatchController.ValidScore(score1) && MatchController.ValidScore(score2))
                        || IndexOf(old(db.matches), id).None?
    ensures var auth := Authenticate(keys, header, query);
            r.Err? ==> r.error == if auth.Err? then auth.error
                                  else if !auth.value.admin then AdminRequired
                                  else if !(MatchController.ValidScore(score1) && MatchController.ValidScore(score2)) then ValidationError
                                  else MatchNotFound
    ensures r.Ok? ==>
      var k := IndexOf(old(db.matches), id).value;
      var m := old(db.matches)[k];
      && db.matches == old(db.matches)[k := Scored(m, score1.value, score2.value)]
      && db.teams == Rescored(old(db.teams), m, score1.value, score2.value)
      && db.order == old(db.order)
      && db.nextTeamId == old(db.nextTeamId) && db.nextMatchId == old(db.nextMatchId)
      && r.value == MatchEcho(m.id, old(db.teams)[m.team1].name, old(db.teams)[m.team2].name,
                              Some(score1.value), Some(score2.value), true)
  {
    var auth := Authenticate(keys, header, query);
    if auth.Err? {
      return Err(auth.error);
    }
    if !auth.value.admin {
      return Err(AdminRequired);
    }
    if !(MatchController.ValidScore(score1) && MatchController.ValidScore(score2)) {
      return Err(ValidationError);
    }
    var found := IndexOf(db.matches, id);
    if found.None? {
      return Err(MatchNotFound);
    }
    var k := found.value;
    db.SetScore(k, score1.value, score2.value);
    var m := db.matches[k];
    r := Ok(MatchEcho(m.id, db.teams[m.team1].name, db.teams[m.team2].name, m.score1, m.score2, m.played));
  }

  /** A read endpoint's body behind the key check (`teams`, `matches`, `standings`). */
  function Guarded<T>(keys: map<string, Player>, header: Option<string>, query: Option<string>, body: T): (r: Result<T>)
    ensures r.Ok? <==> Authenticate(keys, header, query).Ok?
    ensures r.Ok? ==> r.value == body
    ensures r.Err? ==> r.error == Authenticate(keys, header, query).error && r.error in {KeyRequired, InvalidKey}
  {
    var auth := Authenticate(keys, header, query);
    if auth.Err? then Err(auth.error) else Ok(body)
  }

  /** A team as `GET /api/teams` serialises it. */
  datatype TeamRecord = TeamRecord(id: TeamId, name: string, creator: int, points: int)

  /** A row of `GET /api/standings`: only id, name and points. */
  datatype StandingRow = StandingRow(id: TeamId, name: string, points: int)

  /** Every stored team, in table order. */
  function TeamRows(teams: map<TeamId, Team>, order: seq<TeamId>): (r: seq<TeamRecord>)
    requires forall i :: 0 <= i < |order| ==> order[i] in teams
    ensures |r| == |order|
    ensures forall i :: 0 <= i < |r| ==> r[i].id == order[i] && r[i].name == teams[order[i]].name && r[i].points == teams[order[i]].points
  {
    if order == [] then []
    else
      var t := teams[order[0]];
      [TeamRecord(order[0], t.name, t.creator, t.points)] + TeamRows(teams, order[1..])
  }

  function MorePoints(a: TeamRecord, b: TeamRecord): bool { a.points >= b.points }

  function MorePointsRow(a: StandingRow, b: StandingRow): bool { a.points >= b.points }

  function ToStanding(t: TeamRecord): StandingRow { StandingRow(t.id, t.name, t.points) }

  /** `GET /api/teams`: every team, ordered by points, highest first. */
  function Teams(teams: map<TeamId, Team>, order: seq<TeamId>): (r: seq<TeamRecord>)
    requires forall i :: 0 <= i < |order| ==> order[i] in teams
    ensures multiset(r) == multiset(TeamRows(teams, order))
    ensures SortedBy(r, MorePoints)
  {
    SortBySorted(TeamRows(teams, order), MorePoints);
    SortBy(TeamRows(teams, order), MorePoints)
  }

  /**
   * `GET /api/standings`: every team as (id, name, points), ordered by points,
   * highest first, and in the same order as `GET /api/teams`.
   */
  function Standings(teams: map<TeamId, Team>, order: seq<TeamId>): (r: seq<StandingRow>)
    requires forall i :: 0 <= i < |order| ==> order[i] in teams
    ensures multiset(r) == multiset(MapSeq(ToStanding, TeamRows(teams, order)))
    ensures SortedBy(r, MorePointsRow)
    ensures r == MapSeq(ToStanding, Teams(teams, order))
  {
    var rows := MapSeq(ToStanding, TeamRows(teams, order));
    SortBySorted(rows, MorePointsRow);
    SortByMap(TeamRows(teams, order), ToStanding, MorePoints, MorePointsRow);
    SortBy(rows, MorePointsRow)
  }

  /** A match as `GET /api/matches` formats it; a missing start time stays null. */
  datatype MatchView = MatchView(
    id: int, team1Id: TeamId, team1Name: string, team2Id: TeamId, team2Name: string,
    score1: Option<int>, score2: Option<int>, field: int, start: Option<int>, played: bool)

  function View(teams: map<TeamId, Team>, m: Match): (v: MatchView)
    requires m.team1 in teams && m.team2 in teams
    ensures v.id == m.id && v.team1Id == m.team1 && v.team2Id == m.team2
    ensures v.team1Name == teams[m.team1].name && v.team2Name == teams[m.team2].name
    ensures v.score1 == m.score1 && v.score2 == m.score2 && v.field == m.field
    ensures v.start == m.start && v.played == m.played
  {
    MatchView(m.id, m.team1, teams[m.team1].name, m.team2, teams[m.team2].name,
              m.score1, m.score2, m.field, m.start, m.played)
  }

  /** `ORDER BY start_time` ascending, with null start times first. */
  function StartsNoLater(a: MatchView, b: MatchView): bool {
    a.start.None? || (b.start.Some? && a.start.value <= b.start.value)
  }

  /** `GET /api/matches`: every stored match, projected, ordered by start time. */
  function Matches(teams: map<TeamId, Team>, ms: seq<Match>): (r: seq<MatchView>)
    requires forall k :: 0 <= k < |ms| ==> ms[k].team1 in teams && ms[k].team2 in teams
    ensures |r| == |ms|
    ensures multiset(r) == multiset(seq(|ms|, k requires 0 <= k < |ms| => View(teams, ms[k])))
    ensures SortedBy(r, StartsNoLater)
  {
    var views := seq(|ms|, k requires 0 <= k < |ms| => View(teams, ms[k]));
    SortBySorted(views, StartsNoLater);
    SortBy(views, StartsNoLater)
  }
}
