# Tournament scheduler, standings ledger and betting ledger

This project models two pieces of the tournament application in Dafny.

**The Laravel backend.** It keeps teams and matches in a database.
- An administrator generates a single round-robin schedule. Every team meets every other team once. The matches are packed onto a number of fields per time slot, and the clock advances by match duration plus break after each full slot.
- An administrator enters or corrects scores.
  - A win gives the winner 3 points and the loser 0.
  - A draw gives each team 1 point.
  - A correction first takes back the award of the stored score and then grants the award of the new one.
- The web match controller and the JSON API both perform this ledger step. The API copy sits behind an API-key check, an admin check, score validation and a match lookup, in that order. The API also serves the team list, the match list and the standings in a fixed order.

**The WinUI client's in-memory betting service** (`LocalDataService`).
- It keeps accounts and bets in two lists, with id counters and a logged-in user.
- Users register and log in. Names are matched case-insensitively; passwords are matched exactly.
- A user stakes credits on a match outcome, with at most one bet per match.
- Settling a match turns its pending bets into won or lost bets and pays winners stake × odds.
- The client's record types have small display rules.

The model files:

| file | contents |
|---|---|
| `scoring.dfy` (`Scoring`) | Match records, the award rule, the ledger sum `Earned`, and the pure team-map updates `Credited`, `Debited` and `Rescored`. |
| `fixtures.dfy` (`Fixtures`) | The fixture order of the nested team loop, with the pair count and the once-per-pair property. |
| `database.dfy` (`Database`) | Class `Store` (teams, team order, matches, auto-increment counters). Its invariant is that every team's points equal the awards from the played matches it appears in. Also holds the point writes shared by both controllers. |
| `match_controller.dfy` (`MatchController`) | `Generate`, `Update` and `Destroy` of the web controller. |
| `api_controller.dfy` (`ApiController`) | The key guard, `UpdateMatch`, and the `teams`, `standings` and `matches` endpoints. |
| `sorting.dfy` (`Sorting`) | The insertion sort that stands for `ORDER BY` and `OrderByDescending`. |
| `models.dfy` (`Models`) | Client records, their defaults and the display getters. |
| `local_data.dfy` (`LocalData`) | Class `LocalDataService` and its settlement arithmetic. |
| `options.dfy` (`Options`) | `Option` (null). |

How the source's inputs are modelled:
- Time is whole minutes from an arbitrary origin.
- C# `decimal` amounts are exact `real`s.
- A validated request field is `Option<int>`: `None` when it is missing or not an integer (or not a date).
- The logged-in web player is reduced to the flag `isAdmin`. The API key table is a map from key to player.
- The clock reading `DateTime.Now` of a new bet is a parameter `placedAt`.

## Model

| member | source | states |
|---|---|---|
| Scoring.Award | pra_c3_web/app/Http/Controllers/MatchController.php:143-153 | Team 1 gets 3 exactly when it scored more, team 2 gets 3 exactly when it scored more, the two awards are equal exactly on a draw, and a match hands out 3 points in total (2 on a draw). |
| Scoring.AwardSwap | pra_c3_web/app/Http/Controllers/MatchController.php:143-153 | Swapping the scores swaps the two awards. |
| Scoring.AwardOf | pra_c3_web/app/Http/Controllers/MatchController.php:138-157 | A match gives a team between 0 and 3 points, and nothing when it is unplayed or the team did not take part. |
| Scoring.Ledger | pra_c3_web/app/Http/Controllers/MatchController.php:121-133 | When the ledger holds, every team's points lie between 0 and 3 per stored match. |
| Scoring.Earned | pra_c3_web/app/Http/Controllers/MatchController.php:121-133 | The points a team has earned are non-negative and at most 3 per stored match. |
| Scoring.EarnedUpdate | pra_c3_web/app/Http/Controllers/MatchController.php:121-133 | Replacing one stored match changes a team's earned points by the new award minus the old award. |
| Scoring.EarnedRemove | pra_c3_web/app/Http/Controllers/MatchController.php:184-191 | Deleting one stored match takes exactly its award away from each team's earned points. |
| Scoring.EarnedUnplayed | pra_c3_web/app/Http/Controllers/MatchController.php:73-79 | A list of unplayed matches earns nobody any points. |
| Scoring.EarnedConcat | pra_c3_web/app/Http/Controllers/MatchController.php:66-91 | Earned points add up over concatenated match lists. |
| Scoring.Credited | pra_c3_web/app/Http/Controllers/MatchController.php:138-157 | `assignPoints` adds the award to team 1 and team 2, has the same team keys, and changes no other team. |
| Scoring.Debited | pra_c3_web/app/Http/Controllers/MatchController.php:159-175 | `removePoints` subtracts the same awards from the same two teams and changes no other team. |
| Scoring.DebitedCredited | pra_c3_web/app/Http/Controllers/MatchController.php:159-175 | Removing the points of a score after assigning them restores the teams exactly. |
| Scoring.CreditedDebited | pra_c3_web/app/Http/Controllers/ApiController.php:140-174 | Assigning after removing also restores the teams, so the two operations are mutual inverses. |
| Scoring.CreditedAwardOf | pra_c3_web/app/Http/Controllers/MatchController.php:138-175 | For a played match, assigning adds and removing subtracts exactly that match's award, for every team. |
| Scoring.Scored | pra_c3_web/app/Http/Controllers/MatchController.php:126-130 | Storing a score sets both scores and `played`, and keeps id, teams, field and start time. |
| Scoring.Rescored | pra_c3_web/app/Http/Controllers/MatchController.php:121-133 | After a correction, every team's points are the old points minus the old award (only if the match was played) plus the award of the new score. Only points change. |
| Scoring.RescoredSame | pra_c3_web/app/Http/Controllers/MatchController.php:121-133 | Resubmitting the stored score of a played match leaves every team unchanged. |
| Scoring.RescoredTwice | pra_c3_web/app/Http/Controllers/MatchController.php:121-133 | Two corrections in a row have the effect of one correction to the last score. |
| Scoring.IndexOf | pra_c3_web/app/Http/Controllers/MatchController.php:119 | The lookup finds the first match with the id, and finds none exactly when no stored match has it. |
| Fixtures.Row | pra_c3_web/app/Http/Controllers/MatchController.php:67-71 | One pass of the inner loop emits at most one fixture per team, each with the outer team first and a larger id second. |
| Fixtures.Pairs | pra_c3_web/app/Http/Controllers/MatchController.php:66-71 | Every fixture of the nested loops has team 1's id strictly below team 2's. |
| Fixtures.FixturePairs | pra_c3_web/app/Http/Controllers/MatchController.php:66-71 | The schedule of a team list is its nested-loop pairs, and none pairs a team with itself. |
| Fixtures.CountBelow | pra_c3_web/app/Http/Controllers/MatchController.php:69 | At most every team has a smaller id. |
| Fixtures.RowMembers | pra_c3_web/app/Http/Controllers/MatchController.php:67-71 | Every fixture of the inner loop for team `a` is `(a, b)` with `a < b` and `b` a listed team. |
| Fixtures.PairsMembers | pra_c3_web/app/Http/Controllers/MatchController.php:66-71 | Every emitted fixture has team 1's id strictly below team 2's, so no team plays itself. |
| Fixtures.RowCount | pra_c3_web/app/Http/Controllers/MatchController.php:67-71 | The inner loop for `x` emits `(a, b)` once when `x = a < b` and `b` is listed, and otherwise never. |
| Fixtures.PairsCount | pra_c3_web/app/Http/Controllers/MatchController.php:66-79 | The nested loops emit `(a, b)` once when `a < b` and both are listed, and otherwise never. |
| Fixtures.FixturesOncePerPair | pra_c3_web/app/Http/Controllers/MatchController.php:66-79 | For distinct team ids, each unordered pair gets exactly one match, with the smaller id as team 1. No other pair appears. |
| Fixtures.RowSnoc | pra_c3_web/app/Http/Controllers/MatchController.php:67-71 | A further inner team adds a fixture exactly when its id is larger. |
| Fixtures.PairsInnerSnoc | pra_c3_web/app/Http/Controllers/MatchController.php:66-71 | A further inner team adds one fixture per outer team with a smaller id. |
| Fixtures.BelowPlusAbove | pra_c3_web/app/Http/Controllers/MatchController.php:69 | Every other team has either a smaller or a larger id. |
| Fixtures.FixtureSnoc | pra_c3_web/app/Http/Controllers/MatchController.php:66-79 | One more team adds one match against each earlier team. |
| Fixtures.FixtureCountTwice | pra_c3_web/app/Http/Controllers/MatchController.php:66-79 | Twice the number of matches is n(n−1). |
| Fixtures.FixtureCount | pra_c3_web/app/Http/Controllers/MatchController.php:66-79 | n teams with distinct ids get exactly n(n−1)/2 matches. |
| Fixtures.RowOneToFour | pra_c3_web/app/Http/Controllers/MatchController.php:67-71 | For teams 1..4, the inner pass of each team yields exactly its later opponents, in order. |
| Fixtures.FourTeams | pra_c3_web/app/Http/Controllers/MatchController.php:66-79 | Four teams 1..4 yield (1,2), (1,3), (1,4), (2,3), (2,4), (3,4), in that order. |
| Fixtures.DivModOf | pra_c3_web/app/Http/Controllers/MatchController.php:82-89 | A fixture counted as `q` full slots plus `r` used fields has slot `k div fields = q` and field offset `k mod fields = r`. |
| Database.Store.CreateTeam | pra_c3_web/app/Http/Controllers/TeamController.php:43-47 | A new team gets the next id and 0 points and goes to the end of the table order. Nothing else changes. It runs on any well-formed store, which stays well formed, and the ledger is kept if it held. |
| Database.Store.AssignPoints | pra_c3_web/app/Http/Controllers/MatchController.php:138-157 | The two reads and read-modify-write saves leave the teams equal to `Credited` of the old teams. |
| Database.Store.RemovePoints | pra_c3_web/app/Http/Controllers/MatchController.php:159-175 | The writes leave the teams equal to `Debited` of the old teams. |
| Database.Store.SetScore | pra_c3_web/app/Http/Controllers/MatchController.php:121-133 | Remove if played, store the score, then assign. It runs on any well-formed store, which stays well formed. The ledger is kept if it held, only that match's row changes (to `Scored`), and the teams become `Rescored`. |
| Database.RescoreKeepsTables | pra_c3_web/app/Http/Controllers/MatchController.php:121-133 | A correction keeps the tables well formed. |
| Database.RescoreKeepsLedger | pra_c3_web/app/Http/Controllers/ApiController.php:112-124 | A correction keeps points equal to the awards of the stored scores. |
| Database.EarnedElsewhere | pra_c3_web/app/Http/Controllers/TeamController.php:43-47 | A team in no stored match has earned nothing. |
| MatchController.Generate | pra_c3_web/app/Http/Controllers/MatchController.php:35-91 | See the Generate note below the table. |
| MatchController.Schedule | pra_c3_web/app/Http/Controllers/MatchController.php:61-91 | The nested loop over the team list fills the emptied match table. It inserts exactly the fixtures of `FixturePairs(order)` in order, fixture k with field `k mod fields + 1`, start time `start + (k div fields)·step`, and the k-th fresh id. Teams and order are untouched. |
| MatchController.InsertRow | pra_c3_web/app/Http/Controllers/MatchController.php:67-90 | The inner loop appends the fixtures of `Row(a, teams)`. Each goes to the next field, and after the last field the clock goes on by one step. |
| MatchController.GeneratedIsValid | pra_c3_web/app/Http/Controllers/MatchController.php:50-79 | A zeroed team table plus the fresh unplayed schedule satisfies the store invariant, the ledger included. |
| MatchController.Update | pra_c3_web/app/Http/Controllers/MatchController.php:107-136 | The outcomes are non-admin, then invalid scores, then unknown id. Each leaves the store unchanged. Otherwise the reverse-then-apply step runs. The store stays well formed, and the ledger is kept if it held. |
| MatchController.Destroy | pra_c3_web/app/Http/Controllers/MatchController.php:177-194 | Non-admin or an unknown id changes nothing. Otherwise the award is taken back only if the match was played, exactly that match is removed, and no other team or match changes. The store stays well formed, and the ledger is kept if it held. |
| MatchController.DeleteKeepsTables | pra_c3_web/app/Http/Controllers/MatchController.php:184-191 | Deleting a match keeps the tables well formed. |
| MatchController.DeleteKeepsLedger | pra_c3_web/app/Http/Controllers/MatchController.php:184-191 | Deleting a match (after taking back its award if it was played) keeps the ledger invariant. |
| ApiController.StatusCode | pra_c3_web/app/Http/Controllers/ApiController.php:87-110 | A missing or unknown key is 401, non-admin is 403 and an unknown match is 404. |
| ApiController.RequestKey | pra_c3_web/app/Http/Controllers/ApiController.php:85 | The `X-API-KEY` header is used when present. Only when it is absent is the `api_key` query field used. |
| ApiController.Falsy | pra_c3_web/app/Http/Controllers/ApiController.php:87 | Any key of two or more characters passes the `!$apiKey` test. |
| ApiController.Authenticate | pra_c3_web/app/Http/Controllers/ApiController.php:85-95 | "Key required" happens exactly when the header-else-query key is PHP-falsy. "Invalid key" happens exactly when it is truthy and unknown. Otherwise the player of that key is returned. |
| ApiController.UpdateMatch | pra_c3_web/app/Http/Controllers/ApiController.php:83-138 | See the UpdateMatch note below the table. |
| ApiController.Guarded | pra_c3_web/app/Http/Controllers/ApiController.php:176-188 | A read endpoint answers its body exactly when the key check passes. Otherwise it answers one of the two 401 errors. |
| ApiController.TeamRows | pra_c3_web/app/Http/Controllers/ApiController.php:190 | One record per stored team, in table order, with that team's name and points. |
| ApiController.Teams | pra_c3_web/app/Http/Controllers/ApiController.php:190 | A permutation of all teams, ordered by points, highest first. |
| ApiController.Standings | pra_c3_web/app/Http/Controllers/ApiController.php:244 | Every team as (id, name, points), a permutation of all teams, ordered by points, highest first. It lists the teams in exactly the order of `Teams`. |
| ApiController.View | pra_c3_web/app/Http/Controllers/ApiController.php:212-225 | The projection copies id, team ids, scores, field, start time and `played`, and looks up both team names. A missing start time stays null. |
| ApiController.Matches | pra_c3_web/app/Http/Controllers/ApiController.php:209-225 | A permutation of the projections of all stored matches, ordered by start time, with a null start first. |
| Sorting.Insert | pra_c3_web/app/Http/Controllers/ApiController.php:190 | Inserting keeps every element and adds one. |
| Sorting.SortBy | pra_c3_web/app/Http/Controllers/ApiController.php:190 | Sorting returns a permutation of its input. |
| Sorting.InsertSorted | pra_c3_web/app/Http/Controllers/ApiController.php:190 | Inserting into a sorted list keeps it sorted. |
| Sorting.SortBySorted | pra_c3_web/app/Http/Controllers/ApiController.php:209 | For any total order, the result is sorted. |
| Sorting.MapSeq | pra_c3_web/app/Http/Controllers/ApiController.php:212-225 | The projection maps every element in place. |
| Sorting.SortByMap | pra_c3_web/app/Http/Controllers/ApiController.php:244 | Sorting commutes with a projection that keeps the sort key, so selecting columns does not reorder. |
| Sorting.InsertMap | pra_c3_web/app/Http/Controllers/ApiController.php:244 | Insertion commutes with a key-preserving projection. |
| Models.NewLocalUser | pra_c3_web/pra_c3_winui/Models.cs:209-228 | A new account is not an admin, has empty name and password, and 100 credits. |
| Models.NewBet | pra_c3_web/pra_c3_winui/Models.cs:292-304 | A new bet is Pending with no payout, placed at the current moment. |
| Models.OddsFor | pra_c3_web/pra_c3_winui/BettingPage.xaml.cs:110-117 | A draw bet gets odds 3.5 and a team bet 2.0. |
| Models.ShowNat | pra_c3_web/pra_c3_winui/Models.cs:119 | A number renders as a non-empty string of digits. |
| Models.ShowInt | pra_c3_web/pra_c3_winui/Models.cs:119 | An integer renders as a non-empty string without spaces. |
| Models.ReadShowNat | pra_c3_web/pra_c3_winui/Models.cs:119 | Reading back a natural's digits gives the number. |
| Models.ReadShowInt | pra_c3_web/pra_c3_winui/Models.cs:119 | Reading back an integer's rendering gives the integer. |
| Models.DisplayMatch | pra_c3_web/pra_c3_winui/Models.cs:50 | "{Team1Name} vs {Team2Name}" begins with team 1's name, ends with team 2's, and has " vs " between them. `ApiResult.DisplayMatch` at Models.cs:114 is the same rule. |
| Models.DisplayScore | pra_c3_web/pra_c3_winui/Models.cs:119 | The text before the first space is team 1's score as a numeral. The rest is " - " followed by team 2's score as a numeral. |
| Models.FirstSpace | pra_c3_web/pra_c3_winui/Models.cs:119 | The first space lies within the string. |
| Models.FirstSpaceAfter | pra_c3_web/pra_c3_winui/Models.cs:119 | In "{number} - …" the first space comes right after the number. |
| Models.JoinedApart | pra_c3_web/pra_c3_winui/Models.cs:119 | Two space-free parts joined by " - " are determined by the joined string. |
| Models.DisplayScoreInjective | pra_c3_web/pra_c3_winui/Models.cs:119 | Equal score texts mean equal scores: "{Team1Score} - {Team2Score}" loses nothing. |
| Models.WintIsNotDraw | pra_c3_web/pra_c3_winui/Models.cs:130-134 | No "{name} wint" reads "Gelijkspel". |
| Models.DisplayResult | pra_c3_web/pra_c3_winui/Models.cs:125-136 | Team 1 is checked first, then team 2. The text is "Gelijkspel" exactly when the winner id is neither team's id, null included. |
| Models.DisplayBet | pra_c3_web/pra_c3_winui/Models.cs:310 | The text is "Gelijkspel" exactly for a draw bet. Otherwise it is "{PredictedWinnerName} wint". |
| Models.DisplayStatus | pra_c3_web/pra_c3_winui/Models.cs:317-323 | Pending reads "Lopend" and Lost reads "Verloren". Won reads "Gewonnen (+…)". |
| Models.DisplayStatusInjective | pra_c3_web/pra_c3_winui/Models.cs:317-323 | The status text determines the status. |
| LocalData.Filter | pra_c3_web/pra_c3_winui/ApiService.cs:371 | `Where` keeps only elements satisfying the test, and never more elements than it was given. |
| LocalData.FilterCount | pra_c3_web/pra_c3_winui/ApiService.cs:371 | `Where` keeps exactly the elements satisfying the test, each as often as before. |
| LocalData.FilterConcat | pra_c3_web/pra_c3_winui/ApiService.cs:371 | `Where` keeps the input order: filtering a concatenation is filtering each part and concatenating. |
| LocalData.SameName | pra_c3_web/pra_c3_winui/ApiService.cs:259 | A name matches itself, and matching names have equal length. |
| LocalData.FirstWhere | pra_c3_web/pra_c3_winui/ApiService.cs:258-260 | `FirstOrDefault` finds the first element satisfying the test. It finds none exactly when no element does. |
| LocalData.FindLogin | pra_c3_web/pra_c3_winui/ApiService.cs:258-260 | Finds the first account whose name equals the given one ignoring case and whose password is exactly the given one. Finds none exactly when no account matches. |
| LocalData.FindUser | pra_c3_web/pra_c3_winui/ApiService.cs:425 | Finds an account with the bet's user id, or none exactly when no account has it. |
| LocalData.Wins | pra_c3_web/pra_c3_winui/ApiService.cs:405-414 | A bet on a team loses on a draw, and a draw bet loses when a team won. |
| LocalData.WinsRule | pra_c3_web/pra_c3_winui/ApiService.cs:405-414 | A draw bet wins exactly on a null winner. A bet on team `t` wins exactly when `t` won. |
| LocalData.Settled | pra_c3_web/pra_c3_winui/ApiService.cs:402-437 | A settled bet is Won exactly when its prediction came true, with payout stake × odds. Otherwise it is Lost with payout 0. Nothing but status and payout changes. |
| LocalData.Payout | pra_c3_web/pra_c3_winui/ApiService.cs:422 | With a non-negative stake, odds of at least 1 pay back at least the stake, and non-negative odds pay a non-negative amount. |
| LocalData.SettleOne | pra_c3_web/pra_c3_winui/ApiService.cs:397-437 | Only a Pending bet on the match changes. It becomes Won or Lost, and only its status and payout change. |
| LocalData.SettleAll | pra_c3_web/pra_c3_winui/ApiService.cs:397-438 | Every Pending bet on the match is settled, and every other bet is left as it was. |
| LocalData.WinningsNonNegative | pra_c3_web/pra_c3_winui/ApiService.cs:422-428 | With non-negative stakes and odds, settlement never lowers a balance. |
| LocalData.WinningsAfterSettle | pra_c3_web/pra_c3_winui/ApiService.cs:397 | After a settlement no bet of the match is pending, so settling again pays nobody. |
| LocalData.SettleIdempotent | pra_c3_web/pra_c3_winui/ApiService.cs:397 | Settling the same match twice with the same winner gives the same bets as settling once. |
| LocalData.Paid | pra_c3_web/pra_c3_winui/ApiService.cs:425-429 | Every account is credited with its winnings from the match, and nothing else about it changes. |
| LocalData.PaidTwice | pra_c3_web/pra_c3_winui/ApiService.cs:394-439 | A second `ProcessBetResult` with the same arguments changes no balance. |
| LocalData.Pay | pra_c3_web/pra_c3_winui/ApiService.cs:425-429 | The first account with the user id gains exactly the amount. No other account with another id changes, and an unknown id changes nothing. |
| LocalData.WinningsSnoc | pra_c3_web/pra_c3_winui/ApiService.cs:400-438 | The winnings of a user from one more bet grow by that bet's gain. |
| LocalData.PaidStep | pra_c3_web/pra_c3_winui/ApiService.cs:425-429 | Given distinct account ids, one more winning bet credits its payout to the one account with its user id. |
| LocalData.SettlementKeepsInvariants | pra_c3_web/pra_c3_winui/ApiService.cs:400-438 | Settlement keeps accounts and bets well formed. With non-negative stakes and odds, no balance becomes negative. |
| LocalData.SameAccountsKeepUsersOk | pra_c3_web/pra_c3_winui/ApiService.cs:340 | Changing only balances keeps the accounts well formed. |
| LocalData.RegisterKeepsUsersOk | pra_c3_web/pra_c3_winui/ApiService.cs:291-304 | An account under the counter's id, with a name not yet taken in any case, keeps ids and names unique. |
| LocalData.PlaceKeepsBetsOk | pra_c3_web/pra_c3_winui/ApiService.cs:334-356 | A fresh Pending bet on a match its user has not bet on keeps bet ids unique and one bet per (user, match). |
| LocalData.SettleKeepsBetsOk | pra_c3_web/pra_c3_winui/ApiService.cs:419-435 | Settlement keeps bet ids and the one-bet-per-match rule, and gives every settled bet a payout. |
| LocalData.SeedUsersOk | pra_c3_web/pra_c3_winui/ApiService.cs:215-244 | The three seeded accounts have distinct ids below 4 and distinct names. |
| LocalData.LocalDataService.Solvent | pra_c3_web/pra_c3_winui/ApiService.cs:323-359 | When the service is solvent, every stored bet's payout is non-negative. |
| LocalData.LocalDataService.constructor | pra_c3_web/pra_c3_winui/ApiService.cs:211-245 | Seeds exactly `admin` (id 1, admin, 0 credits) and `gokker1`/`gokker2` (ids 2 and 3, 100 credits), with no bets, nobody logged in, and next user id 4. |
| LocalData.LocalDataService.Login | pra_c3_web/pra_c3_winui/ApiService.cs:255-271 | Succeeds exactly when some account matches, and then logs in the first match. On failure the logged-in user stays as it was. Nothing else changes. |
| LocalData.LocalDataService.Logout | pra_c3_web/pra_c3_winui/ApiService.cs:276-280 | Nobody is logged in afterwards, and nothing else changes. |
| LocalData.LocalDataService.Register | pra_c3_web/pra_c3_winui/ApiService.cs:288-307 | See the Register note below the table. |
| LocalData.LocalDataService.HasBetOnMatch | pra_c3_web/pra_c3_winui/ApiService.cs:447-454 | False when logged out. Otherwise true exactly when a bet of the logged-in user is on the match. |
| LocalData.LocalDataService.PlaceBet | pra_c3_web/pra_c3_winui/ApiService.cs:323-359 | See the PlaceBet note below the table. |
| LocalData.LocalDataService.GetUserBets | pra_c3_web/pra_c3_winui/ApiService.cs:366-375 | Empty when logged out. Otherwise exactly the logged-in user's bets, newest first. |
| LocalData.LocalDataService.GetPendingBets | pra_c3_web/pra_c3_winui/ApiService.cs:382-386 | Exactly the Pending bets of all users. It is `Filter` over the stored bets, so they come in store order (`FilterConcat`). |
| LocalData.LocalDataService.ProcessBetResult | pra_c3_web/pra_c3_winui/ApiService.cs:394-439 | See the ProcessBetResult note below the table. |
| LocalData.LocalDataService.SettleBet | pra_c3_web/pra_c3_winui/ApiService.cs:400-438 | One pass of the settlement loop settles the bet at its position if it is due, and credits its payout if it won. |

Notes on the members whose contracts are too long for the table:

- **MatchController.Generate.**
  - Outcomes, in order: non-admin, then a parameter outside fields 1..10, duration 5..120 or break 0..60 (or no start time), then success. Both refusals leave the store unchanged.
  - On success, every existing match is gone and every team's points are 0.
  - Fixture k is the k-th pair of the nested loop. It has field `k mod fields + 1` and start `start + (k div fields)·(duration + break)`. It is unplayed, has null scores and a fresh id.
  - It needs only a well-formed store: the points may disagree with the matches, as they do after a team was deleted. A successful run restores the ledger, and a refusal keeps it if it held.
- **ApiController.UpdateMatch.**
  - Rejections, in order: no key, unknown key, non-admin, invalid scores, unknown match. Each leaves the store unchanged.
  - Otherwise the match's row becomes `Scored`, the teams become `Rescored`, the store stays well formed with the ledger kept if it held, and the response echoes the match's id, both team names, the new scores and `played = true`.
- **LocalData.LocalDataService.Register.**
  - Fails, with no change, exactly when the name is taken in any case.
  - Otherwise it appends a non-admin account with 100 credits under the counter's id and advances the counter. Ids and names stay unique. It does not log anyone in.
- **LocalData.LocalDataService.PlaceBet.**
  - Fails, with no change, exactly when nobody is logged in, the user is an admin, the credits are below the stake, or the user already has a bet on the match.
  - Otherwise it takes exactly the stake from that user and appends one Pending bet with a fresh id and no payout.
  - The balance stays non-negative, one bet per (user, match) is kept, and non-negative stakes and odds keep everybody solvent.
- **LocalData.LocalDataService.ProcessBetResult.**
  - The bets become `SettleAll` of the old bets, and the accounts become `Paid`: each credited with its winnings.
  - Nothing else changes, the invariant is kept, and solvency is kept.

## Left out

- HTTP, redirects, sessions, password hashing, API-key generation, JSON and Blade views are not modelled. The logged-in player is a flag, and the key table is a parameter.
- The score-correction step runs without transactions, as in the source. Concurrency is not modelled.
- `ApiController::register`/`login`, `AuthController` and `DashboardController` are authentication and display code, and are not modelled.
- `TeamController` is modelled only for team creation (`CreateTeam`). Deleting a team cascades to its matches, and the cascade does not take the opponents' points back. The ledger invariant therefore does not survive team deletion, and no such claim is made. Team creation, score entry and match deletion still run on such a store and keep it well formed. A later `generate` restores the ledger. Roster changes are not modelled.
- Carbon dates are whole minutes. Date formatting (`Y-m-d H:i:s`) and the culture-specific text of C# `int.ToString` are not modelled. An integer renders with an ASCII minus sign.
- `Models.DisplayStatus`: the `F2` rendering of the payout is a parameter, so the contract does not state the two-decimal text.
- `LocalData.SameName`: `OrdinalIgnoreCase` is modelled as ASCII case folding only. Other scripts' case pairs are not folded.
- `Sorting.SortBy`: stability is not stated. Teams with equal points (and matches with equal start times) come out in the order of a particular insertion sort. The database's tie order is unspecified, and `OrderByDescending` is stable.
- The `matches` endpoint places null start times first, as MySQL does. Generated schedules always set a start time.
- `Database.Store.SetScore`, `MatchController.Update`, `ApiController.UpdateMatch`: integers are unbounded in the model. The migrations declare the score and points columns as `integer` (32-bit), and the score validation has no maximum. So for a correction of a played match to a score of 2^31 or more, `removePoints` has already saved before the score update fails in the database, which leaves the old award taken back and the old score stored. The model accepts every score of 0 or more and does not capture that failure.
- The unused counter `$matchesOnCurrentTime` in `generate` is not modelled.
- The store invariant makes a played match have both scores, so `removePoints` and `assignPoints` only see integer scores. The outcome of their comparisons when a score is null is not modelled.
- A match of a team against itself is excluded by the store invariant. `generate` never creates one (ids are compared with `>=`).
- `LocalData.LocalDataService.Solvent`: the service does not check the stake or odds, so non-negative balances are proved only when stakes and odds are non-negative. A negative stake would pass the credit check and raise the balance. The betting page always passes odds 2.0 or 3.5.
- `LocalData.LocalDataService.ProcessBetResult`: the source iterates over a snapshot of the due bets. The model visits all bets in order and settles the due ones. The two are the same, because settling a bet only changes that bet.
- The native client's `ApiService` HTTP class and the WinUI pages are not modelled.
- With fewer than 2 teams, `generate` does not fail. It still deletes every match, resets the points and creates no matches (`MatchController.php:66-91`).
- A lost bet's payout is 0, not null (`ApiService.cs:435`).
