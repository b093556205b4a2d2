/**
 * The betting client's in-memory service: accounts, the logged-in user,
 * bets and their settlement.  Users and bets live in two lists; the
 * logged-in user is a reference into the user list, modelled as an index,
 * so a change to that user's credits is a change to the list.
 */
module LocalData {
  import opened Options
  import opened Models
  import opened Sorting

  /** ASCII upper case to lower case; every other character is kept. */
  function Lower(c: char): char {
    if 'A' <= c <= 'Z' then (c as int + 32) as char else c
  }

  /** `Equals(..., StringComparison.OrdinalIgnoreCase)`. */
  predicate SameName(a: string, b: string)
    ensures a == b ==> SameName(a, b)
    ensures SameName(a, b) ==> |a| == |b|
  {
    |a| == |b| && forall i :: 0 <= i < |a| ==> Lower(a[i]) == Lower(b[i])
  }

  /** LINQ `Where`: the elements satisfying `p`, in their order. */
  function Filter<T>(s: seq<T>, p: T -> bool): (r: seq<T>)
    ensures |r| <= |s|
    ensures forall i :: 0 <= i < |r| ==> p(r[i])
  {
    if s == [] then [] else (if p(s[0]) then [s[0]] else []) + Filter(s[1..], p)
  }

  /** `Where` keeps each element satisfying `p` as often as it occurs, and drops every other. */
  lemma {:induction false} FilterCount<T(!new)>(s: seq<T>, p: T -> bool)
    ensures forall x :: multiset(Filter(s, p))[x] == if p(x) then multiset(s)[x] else 0
  {
    if s != [] {
      assert s == [s[0]] + s[1..];
      FilterCount(s[1..], p);
    }
  }

  /** `Where` keeps the order of its input: filtering a concatenation filters both parts in turn. */
  lemma {:induction false} FilterConcat<T>(a: seq<T>, b: seq<T>, p: T -> bool)
    ensures Filter(a + b, p) == Filter(a, p) + Filter(b, p)
  {
    if a != [] {
      assert (a + b)[0] == a[0] && (a + b)[1..] == a[1..] + b;
      FilterConcat(a[1..], b, p);
      if p(a[0]) {
        assert [a[0]] + (Filter(a[1..], p) + Filter(b, p)) == ([a[0]] + Filter(a[1..], p)) + Filter(b, p);
      }
    } else {
      assert a + b == b;
    }
  }

  /** LINQ `FirstOrDefault`, as the index of the first element satisfying `p`. */
  function FirstWhere<T>(s: seq<T>, p: T -> bool): (r: Option<nat>)
    ensures r.Some? ==> r.value < |s| && p(s[r.value])
    ensures r.Some? ==> forall j :: 0 <= j < r.value ==> !p(s[j])
    ensures r.None? <==> forall j :: 0 <= j < |s| ==> !p(s[j])
  {
    if s == [] then None
    else if p(s[0]) then Some(0)
    else match FirstWhere(s[1..], p)
      case None => None
      case Some(k) => Some(k + 1)
  }

  predicate LoginMatches(u: LocalUser, username: string, password: string) {
    SameName(u.username, username) && u.password == password
  }

  /** The account `Login` picks: the first with that name (any case) and exactly that password. */
  function FindLogin(users: seq<LocalUser>, username: string, password: string): (r: Option<nat>)
    ensures r.Some? ==> r.value < |users| && LoginMatches(users[r.value], username, password)
    ensures r.Some? ==> forall j :: 0 <= j < r.value ==> !LoginMatches(users[j], username, password)
    ensures r.None? <==> forall j :: 0 <= j < |users| ==> !LoginMatches(users[j], username, password)
  {
    FirstWhere(users, (u: LocalUser) => LoginMatches(u, username, password))
  }

  /** The account with id `id`, if any. */
  function FindUser(users: seq<LocalUser>, id: int): (r: Option<nat>)
    ensures r.Some? ==> r.value < |users| && users[r.value].id == id
    ensures r.None? <==> forall j :: 0 <= j < |users| ==> users[j].id != id
  {
    FirstWhere(users, (u: LocalUser) => u.id == id)
  }

  /** Some account already carries `name`, ignoring case. */
  predicate NameTaken(users: seq<LocalUser>, name: string) {
    exists j :: 0 <= j < |users| && SameName(users[j].username, name)
  }

  /** Some bet of user `userId` is on match `matchId`. */
  predicate HasBet(bets: seq<Bet>, userId: int, matchId: int) {
    exists i :: 0 <= i < |bets| && bets[i].userId == userId && bets[i].matchId == matchId
  }

  /** A bet the settlement of `matchId` looks at: on that match and still Pending. */
  predicate Due(b: Bet, matchId: int) {
    b.matchId == matchId && b.status == Pending
  }

  /**
   * The winning rule: a draw bet wins on a null winner; any other bet wins
   * when its predicted winner equals the winner, where two nulls are equal.
   */
  predicate Wins(b: Bet, winnerId: Option<int>)
    ensures b.betType != Draw && b.predictedWinnerId.Some? && winnerId.None? ==> !Wins(b, winnerId)
    ensures b.betType == Draw && winnerId.Some? ==> !Wins(b, winnerId)
  {
    (b.betType == Draw && winnerId.None?) || (b.betType != Draw && b.predictedWinnerId == winnerId)
  }

  /** A team bet on team `t` wins exactly when `t` won; a draw bet exactly on a draw. */
  lemma WinsRule(b: Bet, winnerId: Option<int>)
    ensures b.betType == Draw ==> (Wins(b, winnerId) <==> winnerId.None?)
    ensures b.betType != Draw && b.predictedWinnerId.Some? ==>
              (Wins(b, winnerId) <==> winnerId == Some(b.predictedWinnerId.value))
  {
  }

  /** The documented payout of a winning bet: stake times odds. */
  function Payout(b: Bet): (r: real)
    ensures b.amount >= 0.0 && b.odds >= 0.0 ==> r >= 0.0
    ensures b.amount >= 0.0 && b.odds >= 1.0 ==> r >= b.amount
  {
    b.amount * b.odds
  }

  /** What settlement does to one bet of the match. */
  function Settled(b: Bet, winnerId: Option<int>): (r: Bet)
    ensures r.status == Won <==> Wins(b, winnerId)
    ensures r.status == Lost <==> !Wins(b, winnerId)
    ensures r.status == Won ==> r.payout == Some(Payout(b))
    ensures r.status == Lost ==> r.payout == Some(0.0)
    ensures r == b.(status := r.status, payout := r.payout)
  {
    if Wins(b, winnerId) then b.(status := Won, payout := Some(Payout(b)))
    else b.(status := Lost, payout := Some(0.0))
  }

  /** Settlement of one bet of the list: only a due bet changes, and it is left Won or Lost. */
  function SettleOne(b: Bet, matchId: int, winnerId: Option<int>): (r: Bet)
    ensures !Due(b, matchId) ==> r == b
    ensures Due(b, matchId) ==> r.status != Pending && r == b.(status := r.status, payout := r.payout)
  {
    if Due(b, matchId) then Settled(b, winnerId) else b
  }

  /** Every due bet settled, every other bet untouched. */
  function SettleAll(bets: seq<Bet>, matchId: int, winnerId: Option<int>): (r: seq<Bet>)
    ensures |r| == |bets|
    ensures forall i :: 0 <= i < |bets| ==> r[i] == SettleOne(bets[i], matchId, winnerId)
  {
    if bets == [] then []
    else SettleAll(bets[..|bets| - 1], matchId, winnerId) + [SettleOne(bets[|bets| - 1], matchId, winnerId)]
  }

  /** The payout one bet brings user `userId` when the match is settled. */
  function Gain(b: Bet, matchId: int, winnerId: Option<int>, userId: int): real {
    if Due(b, matchId) && b.userId == userId && Wins(b, winnerId) then Payout(b) else 0.0
  }

  /** The total the settlement of `matchId` credits to user `userId`. */
  function Winnings(bets: seq<Bet>, matchId: int, winnerId: Option<int>, userId: int): real {
    if bets == [] then 0.0
    else Winnings(bets[..|bets| - 1], matchId, winnerId, userId) + Gain(bets[|bets| - 1], matchId, winnerId, userId)
  }

  /** With non-negative stakes and odds, nobody loses credits at settlement. */
  lemma {:induction false} WinningsNonNegative(bets: seq<Bet>, matchId: int, winnerId: Option<int>, userId: int)
    requires forall i :: 0 <= i < |bets| ==> bets[i].amount >= 0.0 && bets[i].odds >= 0.0
    ensures Winnings(bets, matchId, winnerId, userId) >= 0.0
  {
    if bets != [] {
      var b := bets[|bets| - 1];
      WinningsNonNegative(bets[..|bets| - 1], matchId, winnerId, userId);
      assert Payout(b) >= 0.0;
    }
  }

  /** Once a match is settled nothing of it is due, so a second settlement credits nothing. */
  lemma {:induction false} WinningsAfterSettle(bets: seq<Bet>, matchId: int, winnerId: Option<int>, userId: int)
    ensures Winnings(SettleAll(bets, matchId, winnerId), matchId, winnerId, userId) == 0.0
  {
    if bets != [] {
      var s := SettleAll(bets, matchId, winnerId);
      assert s[..|s| - 1] == SettleAll(bets[..|bets| - 1], matchId, winnerId);
      WinningsAfterSettle(bets[..|bets| - 1], matchId, winnerId, userId);
    }
  }

  /** Settling a match twice is settling it once. */
  lemma SettleIdempotent(bets: seq<Bet>, matchId: int, winnerId: Option<int>)
    ensures SettleAll(SettleAll(bets, matchId, winnerId), matchId, winnerId) == SettleAll(bets, matchId, winnerId)
  {
    var s := SettleAll(bets, matchId, winnerId);
    assert forall i :: 0 <= i < |s| ==> !Due(s[i], matchId) || s[i] == bets[i];
  }

  /** Every user credited with their winnings from the settlement. */
  function Paid(users: seq<LocalUser>, bets: seq<Bet>, matchId: int, winnerId: Option<int>): (r: seq<LocalUser>)
    ensures |r| == |users|
    ensures forall j :: 0 <= j < |users| ==>
              r[j] == users[j].(credits := users[j].credits + Winnings(bets, matchId, winnerId, users[j].id))
  {
    seq(|users|, j requires 0 <= j < |users| =>
      users[j].(credits := users[j].credits + Winnings(bets, matchId, winnerId, users[j].id)))
  }

  /** A second settlement with the same result changes no balance. */
  lemma PaidTwice(users: seq<LocalUser>, bets: seq<Bet>, matchId: int, winnerId: Option<int>)
    ensures Paid(Paid(users, bets, matchId, winnerId), SettleAll(bets, matchId, winnerId), matchId, winnerId)
            == Paid(users, bets, matchId, winnerId)
  {
    var once := Paid(users, bets, matchId, winnerId);
    forall j | 0 <= j < |once|
      ensures Winnings(SettleAll(bets, matchId, winnerId), matchId, winnerId, once[j].id) == 0.0
    {
      WinningsAfterSettle(bets, matchId, winnerId, once[j].id);
    }
  }

  /** `user.Credits += amount` for the first account with id `userId`; nothing when there is none. */
  function Pay(users: seq<LocalUser>, userId: int, amount: real): (r: seq<LocalUser>)
    ensures SameAccounts(users, r)
    ensures forall j :: 0 <= j < |users| && users[j].id != userId ==> r[j] == users[j]
    ensures FindUser(users, userId).None? ==> r == users
    ensures FindUser(users, userId).Some? ==>
              var k := FindUser(users, userId).value;
              r[k] == users[k].(credits := users[k].credits + amount)
  {
    match FindUser(users, userId)
    case None => users
    case Some(k) => users[k := users[k].(credits := users[k].credits + amount)]
  }

  ghost predicate DistinctIds(users: seq<LocalUser>) {
    forall j, k :: 0 <= j < k < |users| ==> users[j].id != users[k].id
  }

  lemma WinningsSnoc(bets: seq<Bet>, i: nat, matchId: int, winnerId: Option<int>, userId: int)
    requires i < |bets|
    ensures Winnings(bets[..i + 1], matchId, winnerId, userId)
            == Winnings(bets[..i], matchId, winnerId, userId) + Gain(bets[i], matchId, winnerId, userId)
  {
    assert bets[..i + 1][..i] == bets[..i];
  }

  /** What settling one bet does to the balances. */
  function PayOne(users: seq<LocalUser>, b: Bet, matchId: int, winnerId: Option<int>): seq<LocalUser> {
    if Due(b, matchId) && Wins(b, winnerId) then Pay(users, b.userId, Payout(b)) else users
  }

  /** Crediting bet by bet: one more bet adds its payout to its owner, if it won. */
  lemma PaidStep(users: seq<LocalUser>, bets: seq<Bet>, i: nat, matchId: int, winnerId: Option<int>)
    requires i < |bets| && DistinctIds(users)
    ensures Paid(users, bets[..i + 1], matchId, winnerId)
            == PayOne(Paid(users, bets[..i], matchId, winnerId), bets[i], matchId, winnerId)
  {
    var b, before := bets[i], Paid(users, bets[..i], matchId, winnerId);
    var after := Paid(users, bets[..i + 1], matchId, winnerId);
    var target := PayOne(before, b, matchId, winnerId);
    var f := FindUser(before, b.userId);
    forall j | 0 <= j < |users|
      ensures after[j] == target[j]
    {
      WinningsSnoc(bets, i, matchId, winnerId, users[j].id);
      if Due(b, matchId) && Wins(b, winnerId) && users[j].id == b.userId {
        assert before[j].id == b.userId;
        assert f.Some? && users[f.value].id == b.userId;
        assert f.value == j;
      }
    }
    assert |after| == |users| == |target|;
    assert after == target;
  }

  ghost predicate Funded(users: seq<LocalUser>) {
    forall j :: 0 <= j < |users| ==> users[j].credits >= 0.0
  }

  ghost predicate Staked(bets: seq<Bet>) {
    forall i :: 0 <= i < |bets| ==> bets[i].amount >= 0.0 && bets[i].odds >= 0.0
  }

  /** Settling a match keeps the accounts and bets well formed, and with non-negative stakes nobody goes negative. */
  lemma SettlementKeepsInvariants(users: seq<LocalUser>, bets: seq<Bet>, nextUserId: int, nextBetId: int,
                                  matchId: int, winnerId: Option<int>)
    requires UsersOk(users, nextUserId) && BetsOk(bets, nextBetId)
    ensures UsersOk(Paid(users, bets, matchId, winnerId), nextUserId)
    ensures BetsOk(SettleAll(bets, matchId, winnerId), nextBetId)
    ensures Funded(users) && Staked(bets) ==>
              Funded(Paid(users, bets, matchId, winnerId)) && Staked(SettleAll(bets, matchId, winnerId))
  {
    var users' := Paid(users, bets, matchId, winnerId);
    SettleKeepsBetsOk(bets, nextBetId, matchId, winnerId);
    SameAccountsKeepUsersOk(users, users', nextUserId);
    if Funded(users) && Staked(bets) {
      forall j | 0 <= j < |users|
        ensures users'[j].credits >= 0.0
      {
        WinningsNonNegative(bets, matchId, winnerId, users[j].id);
      }
    }
  }

  /** Bets of user `userId`; `OrderByDescending(b => b.PlacedAt)` sorts newest first. */
  function NewerFirst(a: Bet, b: Bet): bool { a.placedAt >= b.placedAt }

  /** Account ids are positive, below the counter and distinct; names are distinct in any case. */
  ghost predicate UsersOk(users: seq<LocalUser>, nextUserId: int) {
    && nextUserId >= 1
    && (forall j :: 0 <= j < |users| ==> 0 < users[j].id < nextUserId)
    && (forall j, k :: 0 <= j < k < |users| ==> users[j].id != users[k].id)
    && (forall j, k :: 0 <= j < k < |users| ==> !SameName(users[j].username, users[k].username))
  }

  /**
   * Bet ids are positive, below the counter and distinct; a user has at most
   * one bet per match; a bet has a payout exactly when it is settled.
   */
  ghost predicate BetsOk(bets: seq<Bet>, nextBetId: int) {
    && nextBetId >= 1
    && (forall i :: 0 <= i < |bets| ==> 0 < bets[i].id < nextBetId)
    && (forall i, k :: 0 <= i < k < |bets| ==> bets[i].id != bets[k].id)
    && (forall i, k :: 0 <= i < k < |bets| ==>
          !(bets[i].userId == bets[k].userId && bets[i].matchId == bets[k].matchId))
    && (forall i :: 0 <= i < |bets| ==> (bets[i].status == Pending <==> bets[i].payout.None?))
  }

  /** The same accounts up to their balances. */
  ghost predicate SameAccounts(users: seq<LocalUser>, users': seq<LocalUser>) {
    |users'| == |users|
    && forall j :: 0 <= j < |users| ==> users'[j] == users[j].(credits := users'[j].credits)
  }

  lemma SameAccountsKeepUsersOk(users: seq<LocalUser>, users': seq<LocalUser>, nextUserId: int)
    requires UsersOk(users, nextUserId) && SameAccounts(users, users')
    ensures UsersOk(users', nextUserId)
  {
    assert forall j :: 0 <= j < |users| ==> users'[j].id == users[j].id && users'[j].username == users[j].username;
  }

  /** A fresh account under the counter, with a name nobody has, keeps the accounts well formed. */
  lemma RegisterKeepsUsersOk(users: seq<LocalUser>, nextUserId: int, u: LocalUser)
    requires UsersOk(users, nextUserId)
    requires u.id == nextUserId && !NameTaken(users, u.username)
    ensures UsersOk(users + [u], nextUserId + 1)
  {
    var users' := users + [u];
    forall j, k | 0 <= j < k < |users'|
      ensures users'[j].id != users'[k].id && !SameName(users'[j].username, users'[k].username)
    {
      if k == |users| {
        assert users'[j] == users[j];
      }
    }
  }

  /** A fresh Pending bet on a match its user has not bet on keeps the bets well formed. */
  lemma PlaceKeepsBetsOk(bets: seq<Bet>, nextBetId: int, b: Bet)
    requires BetsOk(bets, nextBetId)
    requires b.id == nextBetId && b.status == Pending && b.payout.None?
    requires !HasBet(bets, b.userId, b.matchId)
    ensures BetsOk(bets + [b], nextBetId + 1)
  {
    var bets' := bets + [b];
    forall i, k | 0 <= i < k < |bets'|
      ensures bets'[i].id != bets'[k].id
      ensures !(bets'[i].userId == bets'[k].userId && bets'[i].matchId == bets'[k].matchId)
    {
      if k == |bets| {
        assert bets'[i] == bets[i];
      }
    }
  }

  /** Settlement keeps the bets well formed: it only fixes status and payout, and always sets a payout. */
  lemma SettleKeepsBetsOk(bets: seq<Bet>, nextBetId: int, matchId: int, winnerId: Option<int>)
    requires BetsOk(bets, nextBetId)
    ensures BetsOk(SettleAll(bets, matchId, winnerId), nextBetId)
  {
    var s := SettleAll(bets, matchId, winnerId);
    assert forall i :: 0 <= i < |s| ==> s[i].id == bets[i].id && s[i].userId == bets[i].userId
                                        && s[i].matchId == bets[i].matchId;
  }

  /** Names that differ at some position, ignoring case, are different names. */
  lemma DifferAt(a: string, b: string, i: nat)
    requires i < |a| && i < |b| && Lower(a[i]) != Lower(b[i])
    ensures !SameName(a, b)
  {
  }

  /** The seeded accounts are well formed. */
  lemma SeedUsersOk()
    ensures UsersOk([LocalUser(1, "admin", "admin123", true, 0.0),
                     LocalUser(2, "gokker1", "wachtwoord", false, 100.0),
                     LocalUser(3, "gokker2", "wachtwoord", false, 100.0)], 4)
  {
    DifferAt("admin", "gokker1", 0);
    DifferAt("admin", "gokker2", 0);
    DifferAt("gokker1", "gokker2", 6);
  }

  class LocalDataService {
    var users: seq<LocalUser>
    var bets: seq<Bet>
    var nextUserId: int
    var nextBetId: int
    /** The logged-in user, as a position in `users`; None when nobody is logged in. */
    var current: Option<nat>

    /** The invariant every operation keeps. */
    ghost predicate Valid()
      reads this
    {
      UsersOk(users, nextUserId) && BetsOk(bets, nextBetId) && (current.Some? ==> current.value < |users|)
    }

    /** No balance is negative, and no stake or odds is negative either. */
    ghost predicate Solvent()
      reads this
      ensures Solvent() ==> forall i :: 0 <= i < |bets| ==> Payout(bets[i]) >= 0.0
    {
      Funded(users) && Staked(bets)
    }

    /** Three seeded accounts: the admin and two gamblers; nobody logged in. */
    constructor ()
      ensures Valid() && Solvent()
      ensures users == [LocalUser(1, "admin", "admin123", true, 0.0),
                        LocalUser(2, "gokker1", "wachtwoord", false, 100.0),
                        LocalUser(3, "gokker2", "wachtwoord", false, 100.0)]
      ensures nextUserId == 4 && bets == [] && nextBetId == 1 && current.None?
    {
      users := [LocalUser(1, "admin", "admin123", true, 0.0),
                LocalUser(2, "gokker1", "wachtwoord", false, 100.0),
                LocalUser(3, "gokker2", "wachtwoord", false, 100.0)];
      bets := [];
      nextUserId := 4;
      nextBetId := 1;
      current := None;
      SeedUsersOk();
    }

    /** Logs in the first matching account; on failure whoever was logged in stays logged in. */
    method Login(username: string, password: string) returns (ok: bool)
      requires Valid()
      modifies this
      ensures Valid()
      ensures ok <==> FindLogin(users, username, password).Some?
      ensures ok ==> current == FindLogin(users, username, password)
      ensures !ok ==> current == old(current)
      ensures users == old(users) && bets == old(bets)
      ensures nextUserId == old(nextUserId) && nextBetId == old(nextBetId)
    {
      var found := FindLogin(users, username, password);
      if found.Some? {
        current := found;
        return true;
      }
      return false;
    }

    method Logout()
      requires Valid()
      modifies this
      ensures Valid()
      ensures current.None?
      ensures users == old(users) && bets == old(bets)
      ensures nextUserId == old(nextUserId) && nextBetId == old(nextBetId)
    {
      current := None;
    }

    /**
     * Adds a non-admin account with 100 credits under the next id, unless the
     * name is taken in any case; registering does not log in.
     */
    method Register(username: string, password: string) returns (ok: bool)
      requires Valid()
      modifies this
      ensures Valid()
      ensures ok <==> !NameTaken(old(users), username)
      ensures ok ==> users == old(users) + [LocalUser(old(nextUserId), username, password, false, 100.0)]
                     && nextUserId == old(nextUserId) + 1
      ensures !ok ==> users == old(users) && nextUserId == old(nextUserId)
      ensures bets == old(bets) && nextBetId == old(nextBetId) && current == old(current)
      ensures old(Solvent()) ==> Solvent()
    {
      if NameTaken(users, username) {
        return false;
      }
      RegisterKeepsUsersOk(users, nextUserId, LocalUser(nextUserId, username, password, false, 100.0));
      users := users + [LocalUser(nextUserId, username, password, false, 100.0)];
      nextUserId := nextUserId + 1;
      return true;
    }

    /** Whether the logged-in user already has a bet on `matchId`; false when logged out. */
    function HasBetOnMatch(matchId: int): (r: bool)
      reads this
      requires Valid()
      ensures current.None? ==> !r
      ensures current.Some? ==> (r <==> HasBet(bets, users[current.value].id, matchId))
    {
      current.Some? && HasBet(bets, users[current.value].id, matchId)
    }

    /**
     * Places a Pending bet for the logged-in user: refused when nobody is
     * logged in, for the admin, when the stake exceeds the credits and when
     * the user already bet on the match; otherwise the stake is taken.
     */
    method PlaceBet(matchId: int, matchDisplay: string, betType: BetType, predictedWinnerId: Option<int>,
                    predictedWinnerName: string, amount: real, odds: real, placedAt: int) returns (ok: bool)
      requires Valid()
      modifies this
      ensures Valid()
      ensures ok <==> old(current).Some? && !old(users)[old(current).value].isAdmin
                      && old(users)[old(current).value].credits >= amount
                      && !old(HasBetOnMatch(matchId))
      ensures !ok ==> users == old(users) && bets == old(bets) && nextBetId == old(nextBetId)
      ensures ok ==>
        var c := old(current).value;
        var u := old(users)[c];
        && users == old(users)[c := u.(credits := u.credits - amount)]
        && bets == old(bets) + [Bet(old(nextBetId), u.id, matchId, matchDisplay, betType, predictedWinnerId,
                                    predictedWinnerName, amount, odds, Pending, None, placedAt)]
        && nextBetId == old(nextBetId) + 1
        && users[c].credits >= 0.0
      ensures current == old(current) && nextUserId == old(nextUserId)
      ensures old(Solvent()) && amount >= 0.0 && odds >= 0.0 ==> Solvent()
    {
      if current.None? || users[current.value].isAdmin {
        return false;
      }
      var c := current.value;
      if users[c].credits < amount {
        return false;
      }
      if HasBet(bets, users[c].id, matchId) {
        return false;
      }
      var u := users[c];
      var b := Bet(nextBetId, u.id, matchId, matchDisplay, betType, predictedWinnerId,
                   predictedWinnerName, amount, odds, Pending, None, placedAt);
      SameAccountsKeepUsersOk(users, users[c := u.(credits := u.credits - amount)], nextUserId);
      PlaceKeepsBetsOk(bets, nextBetId, b);
      users := users[c := u.(credits := u.credits - amount)];
      bets := bets + [b];
      nextBetId := nextBetId + 1;
      return true;
    }

    /** The logged-in user's bets, newest first; empty when logged out. */
    function GetUserBets(): (r: seq<Bet>)
      reads this
      requires Valid()
      ensures current.None? ==> r == []
      ensures current.Some? ==>
                (forall b :: multiset(r)[b] == if b.userId == users[current.value].id then multiset(bets)[b] else 0)
      ensures SortedBy(r, NewerFirst)
    {
      if current.None? then []
      else
        var id := users[current.value].id;
        var mine := Filter(bets, (b: Bet) => b.userId == id);
        FilterCount(bets, (b: Bet) => b.userId == id);
        SortBySorted(mine, NewerFirst);
        SortBy(mine, NewerFirst)
    }

    /** Every Pending bet, of every user. */
    function GetPendingBets(): (r: seq<Bet>)
      reads this
      ensures forall b :: multiset(r)[b] == if b.status == Pending then multiset(bets)[b] else 0
    {
      FilterCount(bets, (b: Bet) => b.status == Pending);
      Filter(bets, (b: Bet) => b.status == Pending)
    }

    /**
     * Settles every Pending bet on `matchId`: winners become Won with payout
     * stake times odds, credited to their owner; losers become Lost with
     * payout 0.  Nothing else changes.
     */
    method ProcessBetResult(matchId: int, winnerId: Option<int>)
      requires Valid()
      modifies this
      ensures Valid()
      ensures bets == SettleAll(old(bets), matchId, winnerId)
      ensures users == Paid(old(users), old(bets), matchId, winnerId)
      ensures current == old(current) && nextUserId == old(nextUserId) && nextBetId == old(nextBetId)
      ensures old(Solvent()) ==> Solvent()
    {
      ghost var bets0, users0 := bets, users;
      assert DistinctIds(users0);
      var i := 0;
      while i < |bets|
        invariant 0 <= i <= |bets| == |bets0|
        invariant forall k :: 0 <= k < i ==> bets[k] == SettleOne(bets0[k], matchId, winnerId)
        invariant forall k :: i <= k < |bets| ==> bets[k] == bets0[k]
        invariant users == Paid(users0, bets0[..i], matchId, winnerId)
        invariant current == old(current) && nextUserId == old(nextUserId) && nextBetId == old(nextBetId)
      {
        PaidStep(users0, bets0, i, matchId, winnerId);
        SettleBet(i, matchId, winnerId);
        i := i + 1;
      }
      assert bets0[..i] == bets0;
      SettlementKeepsInvariants(users0, bets0, nextUserId, nextBetId, matchId, winnerId);
    }

    /** The body of the settlement loop, for the bet at position `i`. */
    method SettleBet(i: nat, matchId: int, winnerId: Option<int>)
      requires i < |bets|
      modifies this
      ensures bets == old(bets)[i := SettleOne(old(bets)[i], matchId, winnerId)]
      ensures users == PayOne(old(users), old(bets)[i], matchId, winnerId)
      ensures current == old(current) && nextUserId == old(nextUserId) && nextBetId == old(nextBetId)
    {
      var bet := bets[i];
      if bet.matchId == matchId && bet.status == Pending {
        var won := false;
        if bet.betType == Draw && winnerId.None? {
          won := true;
        } else if bet.betType != Draw && bet.predictedWinnerId == winnerId {
          won := true;
        }
        assert won == Wins(bet, winnerId);
        if won {
          bets := bets[i := bet.(status := Won, payout := Some(Payout(bet)))];
          var owner := FindUser(users, bet.userId);
          if owner.Some? {
            var k := owner.value;
            users := users[k := users[k].(credits := users[k].credits + Payout(bet))];
          }
        } else {
          bets := bets[i := bet.(status := Lost, payout := Some(0.0))];
        }
      }
    }
  }
}
