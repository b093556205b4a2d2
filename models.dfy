/**
 * The native client's record types and their display rules.  C# `decimal`
 * amounts are exact, so they are `real` here.
 */
module Models {
  import opened Options

  /** A match offered for betting. */
  datatype ApiMatch = ApiMatch(id: int, team1Id: int, team1Name: string, team2Id: int, team2Name: string)

  /** A played match with its final score; `winnerId` is null on a draw. */
  datatype ApiResult = ApiResult(id: int, team1Id: int, team1Name: string, team1Score: int,
                                 team2Id: int, team2Name: string, team2Score: int, winnerId: Option<int>)

  /** An account of the betting client. */
  datatype LocalUser = LocalUser(id: int, username: string, password: string, isAdmin: bool, credits: real)

  datatype BetType = Team1Win | Team2Win | Draw

  datatype BetStatus = Pending | Won | Lost

  /** A bet; `placedAt` is the moment of placing, in whole minutes on the client's clock. */
  datatype Bet = Bet(
    id: int,
    userId: int,
    matchId: int,
    matchDisplay: string,
    betType: BetType,
    predictedWinnerId: Option<int>,
    predictedWinnerName: string,
    amount: real,
    odds: real,
    status: BetStatus,
    payout: Option<real>,
    placedAt: int)

  /** `new LocalUser()`: empty strings, not an admin, 100 credits. */
  function NewLocalUser(): (u: LocalUser)
    ensures u.credits == 100.0 && !u.isAdmin
    ensures u.username == "" && u.password == ""
  {
    LocalUser(0, "", "", false, 100.0)
  }

  /** `new Bet()` at moment `now`: Pending, no payout yet. */
  function NewBet(now: int): (b: Bet)
    ensures b.status == Pending && b.payout.None? && b.placedAt == now
    ensures b.amount == 0.0 && b.odds == 0.0
  {
    Bet(0, 0, 0, "", Team1Win, None, "", 0.0, 0.0, Pending, None, now)
  }

  /** The odds the betting page offers: 3.5 on a draw, 2.0 on a team win. */
  function OddsFor(t: BetType): (odds: real)
    ensures odds > 0.0
    ensures t == Draw ==> odds == 3.5
    ensures t != Draw ==> odds == 2.0
  {
    if t == Draw then 3.5 else 2.0
  }

  /** Decimal digit `d` as a character. */
  function DigitChar(d: nat): (c: char)
    requires d < 10
    ensures '0' <= c <= '9'
  {
    (48 + d) as char
  }

  function DigitValue(c: char): (d: nat)
    requires '0' <= c <= '9'
    ensures d < 10
  {
    c as int - 48
  }

  predicate IsDigits(s: string) {
    forall i :: 0 <= i < |s| ==> '0' <= s[i] <= '9'
  }

  /** The decimal numeral of `n`, with no leading zeros. */
  function ShowNat(n: nat): (s: string)
    ensures |s| >= 1 && IsDigits(s)
  {
    if n < 10 then [DigitChar(n)] else ShowNat(n / 10) + [DigitChar(n % 10)]
  }

  /** C#'s `int.ToString()`: a minus sign for negative values. */
  function ShowInt(n: int): (s: string)
    ensures |s| >= 1
    ensures forall i :: 0 <= i < |s| ==> s[i] != ' '
  {
    if n < 0 then "-" + ShowNat(-n) else ShowNat(n)
  }

  /** The value of a decimal numeral. */
  function ReadNat(s: string): nat
    requires IsDigits(s)
  {
    if s == [] then 0 else ReadNat(s[..|s| - 1]) * 10 + DigitValue(s[|s| - 1])
  }

  function ReadInt(s: string): int
    requires |s| >= 1
    requires s[0] == '-' ==> IsDigits(s[1..])
    requires s[0] != '-' ==> IsDigits(s)
  {
    if s[0] == '-' then -(ReadNat(s[1..]) as int) else ReadNat(s)
  }

  lemma {:induction false} ReadShowNat(n: nat)
    ensures ReadNat(ShowNat(n)) == n
  {
    if n >= 10 {
      ReadShowNat(n / 10);
      var s := ShowNat(n);
      assert s[..|s| - 1] == ShowNat(n / 10);
    }
  }

  /** Reading back the rendering of a number gives the number. */
  lemma ReadShowInt(n: int)
    ensures var s := ShowInt(n); |s| >= 1 && (s[0] == '-' ==> IsDigits(s[1..])) && (s[0] != '-' ==> IsDigits(s))
    ensures ReadInt(ShowInt(n)) == n
  {
    if n < 0 {
      ReadShowNat(-n);
      assert ShowInt(n)[1..] == ShowNat(-n);
    } else {
      ReadShowNat(n);
    }
  }

  /** `ApiMatch.DisplayMatch` and `ApiResult.DisplayMatch`: "{Team1Name} vs {Team2Name}". */
  function DisplayMatch(team1Name: string, team2Name: string): (s: string)
    ensures |s| == |team1Name| + 4 + |team2Name|
    ensures s[..|team1Name|] == team1Name && s[|s| - |team2Name|..] == team2Name
    ensures s[|team1Name|..|team1Name| + 4] == " vs "
  {
    team1Name + " vs " + team2Name
  }

  /** `ApiResult.DisplayScore`: "{Team1Score} - {Team2Score}". */
  function DisplayScore(r: ApiResult): (s: string)
    ensures var n := FirstSpace(s);
            && s[..n] == ShowInt(r.team1Score)
            && s[n..] == " - " + ShowInt(r.team2Score)
  {
    var a, b := ShowInt(r.team1Score), ShowInt(r.team2Score);
    FirstSpaceAfter(a, " - " + b);
    assert a + " - " + b == a + (" - " + b);
    a + " - " + b
  }

  /** The index of the first space in `s`, or `|s|` when there is none. */
  function FirstSpace(s: string): (i: nat)
    ensures i <= |s|
  {
    if s == [] || s[0] == ' ' then 0 else 1 + FirstSpace(s[1..])
  }

  lemma {:induction false} FirstSpaceAfter(x: string, rest: string)
    requires forall i :: 0 <= i < |x| ==> x[i] != ' '
    requires |rest| >= 1 && rest[0] == ' '
    ensures FirstSpace(x + rest) == |x|
  {
    if x != [] {
      assert (x + rest)[1..] == x[1..] + rest;
      FirstSpaceAfter(x[1..], rest);
    } else {
      assert x + rest == rest;
    }
  }

  /** Two space-free words joined by " - " can be taken apart again. */
  lemma JoinedApart(x: string, y: string, x': string, y': string)
    requires forall i :: 0 <= i < |x| ==> x[i] != ' '
    requires forall i :: 0 <= i < |x'| ==> x'[i] != ' '
    requires x + " - " + y == x' + " - " + y'
    ensures x == x' && y == y'
  {
    var s := x + " - " + y;
    assert s == x + (" - " + y) && s == x' + (" - " + y');
    FirstSpaceAfter(x, " - " + y);
    FirstSpaceAfter(x', " - " + y');
    assert x == s[..|x|] == x';
    assert y == s[|x| + 3..] == y';
  }

  /** The score text determines both scores. */
  lemma DisplayScoreInjective(r: ApiResult, r': ApiResult)
    requires DisplayScore(r) == DisplayScore(r')
    ensures r.team1Score == r'.team1Score && r.team2Score == r'.team2Score
  {
    JoinedApart(ShowInt(r.team1Score), ShowInt(r.team2Score), ShowInt(r'.team1Score), ShowInt(r'.team2Score));
    ReadShowInt(r.team1Score);
    ReadShowInt(r'.team1Score);
    ReadShowInt(r.team2Score);
    ReadShowInt(r'.team2Score);
  }

  /** "{name} wint" never reads "Gelijkspel": the last letters differ. */
  lemma WintIsNotDraw(name: string)
    ensures name + " wint" != "Gelijkspel"
  {
    var s := name + " wint";
    assert s[|s| - 1] == 't';
    assert "Gelijkspel"[|"Gelijkspel"| - 1] == 'l';
  }

  /**
   * `ApiResult.DisplayResult`: team 1 is checked first, then team 2,
   * anything else reads as a draw.
   */
  function DisplayResult(r: ApiResult): (s: string)
    ensures r.winnerId == Some(r.team1Id) ==> s == r.team1Name + " wint"
    ensures r.winnerId != Some(r.team1Id) && r.winnerId == Some(r.team2Id) ==> s == r.team2Name + " wint"
    ensures s == "Gelijkspel" <==> r.winnerId != Some(r.team1Id) && r.winnerId != Some(r.team2Id)
  {
    WintIsNotDraw(r.team1Name);
    WintIsNotDraw(r.team2Name);
    if r.winnerId == Some(r.team1Id) then r.team1Name + " wint"
    else if r.winnerId == Some(r.team2Id) then r.team2Name + " wint"
    else "Gelijkspel"
  }

  /** `Bet.DisplayBet`: "Gelijkspel" exactly for a draw bet, else "{PredictedWinnerName} wint". */
  function DisplayBet(b: Bet): (s: string)
    ensures s == "Gelijkspel" <==> b.betType == Draw
    ensures b.betType != Draw ==> s == b.predictedWinnerName + " wint"
  {
    WintIsNotDraw(b.predictedWinnerName);
    if b.betType == Draw then "Gelijkspel" else b.predictedWinnerName + " wint"
  }

  /**
   * `Bet.DisplayStatus`: "Lopend", "Gewonnen (+payout)" or "Verloren".  The
   * two-decimal rendering of the payout is the caller's `f2`; a null payout
   * renders as nothing.
   */
  function DisplayStatus(b: Bet, f2: real -> string): (s: string)
    ensures b.status == Pending ==> s == "Lopend"
    ensures b.status == Lost ==> s == "Verloren"
    ensures b.status == Won ==> |s| >= 12 && s[..11] == "Gewonnen (+" && s[|s| - 1] == ')'
  {
    match b.status
    case Pending => "Lopend"
    case Won => "Gewonnen (+" + (if b.payout.Some? then f2(b.payout.value) else "") + ")"
    case Lost => "Verloren"
  }

  /** The status text tells the three statuses apart. */
  lemma DisplayStatusInjective(b: Bet, b': Bet, f2: real -> string)
    requires DisplayStatus(b, f2) == DisplayStatus(b', f2)
    ensures b.status == b'.status
  {
    var s, s' := DisplayStatus(b, f2), DisplayStatus(b', f2);
    assert s[0] == s'[0];
    assert b.status == Pending ==> s[0] == 'L';
    assert b.status == Won ==> s[0] == 'G';
    assert b.status == Lost ==> s[0] == 'V';
    assert b'.status == Pending ==> s'[0] == 'L';
    assert b'.status == Won ==> s'[0] == 'G';
    assert b'.status == Lost ==> s'[0] == 'V';
  }
}
