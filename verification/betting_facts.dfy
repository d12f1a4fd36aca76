/** Properties of the betting handlers of server/index.js that relate several
    calls: placing and removing a bet undo each other, a bet only moves
    bottles between a balance and a stake, and no event except a negative bet
    can make a balance or a stake negative. */
module BettingFacts {
  import opened Options
  import opened Ledger
  import opened Settlement
  import opened Bracket
  import opened Server

  // ================================================================ betting

  /** Deleting the entry that `Put` just appended gives the book back. */
  lemma {:induction false} DeleteUndoesPut(b: Book, u: string, a: int)
    requires Keyed(b) && u !in Users(b)
    ensures Delete(Put(b, u, a), u) == b
  {
    if |b| > 0 {
      DeleteUndoesPut(b[1..], u, a);
      assert Put(b, u, a) == [b[0]] + Put(b[1..], u, a);
      assert Put(b, u, a)[1..] == Put(b[1..], u, a);
    }
  }

  /** The bet map after `place-bet` then `admin-remove-bet` of a fresh entry. */
  lemma RestoreBets(bets: map<string, Book>, player: string, u: string, amount: int)
    requires forall p :: p in bets ==> Keyed(bets[p]) && |bets[p]| > 0
    requires u !in Users(BookOn(bets, player))
    ensures var book := Put(BookOn(bets, player), u, amount);
      var rest := Delete(book, u);
      (if |rest| == 0 then bets[player := book] - {player} else bets[player := book][player := rest]) == bets
  {
    var book := BookOn(bets, player);
    DeleteUndoesPut(book, u, amount);
    if player in bets {
      assert |bets[player]| > 0;
      assert bets[player := Put(book, u, amount)][player := book] == bets;
    } else {
      assert bets[player := Put(book, u, amount)] - {player} == bets;
    }
  }

  /** The state `place-bet` produces for a fresh stake. */
  function Placed(s: State, u: string, player: string, amount: int): State
    requires u in s.users && Keyed(BookOn(s.bets, player))
  {
    s.(bets := s.bets[player := Put(BookOn(s.bets, player), u, amount)],
       users := s.users[u := s.users[u].(bottles := s.users[u].bottles - amount)])
  }

  /** The state `admin-remove-bet` produces when the stake is `a`. */
  function Removed(s: State, u: string, player: string, a: int): State
    requires u in s.users && Keyed(BookOn(s.bets, player))
  {
    var rest := Delete(BookOn(s.bets, player), u);
    s.(users := s.users[u := s.users[u].(bottles := s.users[u].bottles + a)],
       bets := if |rest| == 0 then s.bets - {player} else s.bets[player := rest])
  }

  /** `place-bet` of a fresh stake by a user who can afford it. */
  lemma PlacedFresh(s: State, u: string, player: string, amount: int)
    requires Valid(s) && u in s.users && amount <= s.users[u].bottles
    requires StakeOf(BookOn(s.bets, player), u).None?
    ensures PlaceBet(s, Member(u), player, amount) == Placed(s, u, player, amount)
  {
    var r := PlaceBet(s, Member(u), player, amount);
    var p := Placed(s, u, player, amount);
    var refund := StakeOr0(BookOn(s.bets, player), u);
    assert refund == 0;
    NoRefund(s.users, u, refund, amount);
    assert r.bets == p.bets;
    assert r.users == p.users;
  }

  /** A refund of 0 leaves only the debit. */
  lemma NoRefund(users: map<string, Account>, u: string, refund: int, amount: int)
    requires u in users && refund == 0
    ensures users[u := users[u].(bottles := users[u].bottles + refund - amount)]
         == users[u := users[u].(bottles := users[u].bottles - amount)]
  {
  }

  /** `admin-remove-bet` of a non-zero stake. */
  lemma RemovedStake(s: State, u: string, player: string, a: int)
    requires Valid(s) && u in s.users && StakeOr0(BookOn(s.bets, player), u) == a && a != 0
    ensures RemoveBet(s, Admin, player, u) == Removed(s, u, player, a)
  {
  }

  /** Removing a fresh stake of `amount` after placing it restores the state. */
  lemma UndoState(s: State, u: string, player: string, amount: int)
    requires forall p :: p in s.bets ==> Keyed(s.bets[p]) && |s.bets[p]| > 0
    requires u in s.users && u !in Users(BookOn(s.bets, player))
    requires Keyed(BookOn(s.bets, player))
    ensures Removed(Placed(s, u, player, amount), u, player, amount) == s
  {
    var p := Placed(s, u, player, amount);
    var r := Removed(p, u, player, amount);
    UndoUsers(s.users, u, amount);
    assert r.users == s.users;
    var book := Put(BookOn(s.bets, player), u, amount);
    assert BookOn(p.bets, player) == book;
    RestoreBets(s.bets, player, u, amount);
  }

  /** Debiting then crediting the same amount restores the balances. */
  lemma UndoUsers(users: map<string, Account>, u: string, amount: int)
    requires u in users
    ensures var users1 := users[u := users[u].(bottles := users[u].bottles - amount)];
      users1[u := users1[u].(bottles := users1[u].bottles + amount)] == users
  {
    var users1 := users[u := users[u].(bottles := users[u].bottles - amount)];
    assert users1[u].(bottles := users1[u].bottles + amount) == users[u];
  }

  /** An administrator removing a fresh, non-zero bet restores the state the
      user had before placing it: `admin-remove-bet` undoes `place-bet`. */
  lemma RemoveUndoesPlace(s: State, u: string, player: string, amount: int)
    requires Valid(s) && u in s.users && amount <= s.users[u].bottles && amount != 0
    requires StakeOf(BookOn(s.bets, player), u).None?
    ensures RemoveBet(PlaceBet(s, Member(u), player, amount), Admin, player, u) == s
  {
    PlacedFresh(s, u, player, amount);
    var p := Placed(s, u, player, amount);
    assert StakeOr0(BookOn(p.bets, player), u) == amount;
    RemovedStake(p, u, player, amount);
    assert forall q :: q in s.bets ==> Keyed(s.bets[q]) && |s.bets[q]| > 0;
    UndoState(s, u, player, amount);
  }

  /** Betting again on the same player replaces the bet instead of adding to
      it: one entry with the latest amount, and the balance is charged only
      the latest amount (net of the bet it had before the first call). */
  lemma RebetReplaces(s: State, u: string, player: string, first: int, second: int)
    requires Valid(s) && u in s.users && first <= s.users[u].bottles
    requires second <= s.users[u].bottles + StakeOr0(BookOn(s.bets, player), u) - first
    ensures var r := PlaceBet(PlaceBet(s, Member(u), player, first), Member(u), player, second);
      && StakeOf(r.bets[player], u) == Some(second)
      && Users(r.bets[player]) == Users(BookOn(s.bets, player)) + {u}
      && r.users[u].bottles == s.users[u].bottles + StakeOr0(BookOn(s.bets, player), u) - second
  {
    var mid := PlaceBet(s, Member(u), player, first);
    assert BookOn(mid.bets, player) == mid.bets[player];
  }

  /** A user's holding on a player: balance plus what is staked on that player. */
  function Holding(s: State, u: string, player: string): int
    requires u in s.users
  {
    s.users[u].bottles + StakeOr0(BookOn(s.bets, player), u)
  }

  /** Placing a bet only moves bottles between the user's balance and its
      stake on that player: balance plus that stake stays the same for every
      user, and the books on other players do not change. */
  lemma PlaceBetConservesHoldings(s: State, caller: Caller, player: string, amount: int, u: string)
    requires Valid(s) && u in s.users
    ensures u in PlaceBet(s, caller, player, amount).users
    ensures Holding(PlaceBet(s, caller, player, amount), u, player) == Holding(s, u, player)
  {
  }

  /** Removing a bet refunds exactly the stake it deletes: balance plus stake
      on that player stays the same for every user. */
  lemma RemoveBetConservesHoldings(s: State, caller: Caller, player: string, target: string, u: string)
    requires Valid(s) && u in s.users
    ensures u in RemoveBet(s, caller, player, target).users
    ensures Holding(RemoveBet(s, caller, player, target), u, player) == Holding(s, u, player)
  {
    var r := RemoveBet(s, caller, player, target);
    if r != s && u != target {
      assert StakeOf(BookOn(r.bets, player), u) == StakeOf(BookOn(s.bets, player), u);
    }
  }

  /** Nothing rejects a negative amount: such a bet, placed fresh, raises the
      bettor's balance. */
  lemma NegativeBetRaisesBalance(s: State, u: string, player: string, amount: int)
    requires Valid(s) && u in s.users && amount < 0 && amount <= s.users[u].bottles
    requires StakeOf(BookOn(s.bets, player), u).None?
    ensures PlaceBet(s, Member(u), player, amount).users[u].bottles == s.users[u].bottles - amount
    ensures PlaceBet(s, Member(u), player, amount).users[u].bottles > s.users[u].bottles
  {
  }

  // ============================================================== accounts

  /** A name can be registered once: a second registration of it is refused,
      even after a full reset, which keeps every account. */
  lemma RegisterOnce(s: State, username: string, password: string, again: string)
    requires Valid(s) && again != ""
    requires Register(s, username, password).Ok?
    ensures var r := Register(s, username, password).value;
      && Register(r, username, again) == Err(UserExists)
      && Register(FullReset(r, Admin), username, again) == Err(UserExists)
      && FullReset(r, Admin).users[username] == Account(password, StartingBottles)
  {
    var r := Register(s, username, password).value;
    assert Valid(r) by {
      assert r.tournament == s.tournament && r.bets == s.bets && r.chat == s.chat;
    }
  }

  // ============================================================== solvency

  predicate NonNegative(b: Book) {
    forall x :: x in b ==> x.amount >= 0
  }

  /** No balance and no stake is negative. */
  predicate Solvent(s: State) {
    && (forall u :: u in s.users ==> s.users[u].bottles >= 0)
    && (forall p :: p in s.bets ==> NonNegative(s.bets[p]))
  }

  lemma {:induction false} SumNonNegative(b: Book)
    requires NonNegative(b)
    ensures Sum(b) >= 0
  {
    if |b| > 0 {
      assert b[0] in b;
      SumNonNegative(b[1..]);
    }
  }

  /** With non-negative stakes every share is non-negative, so settlement
      never lowers a balance. */
  lemma SettleNeverDebits(users: map<string, Account>, bets: map<string, Book>, winner: string, loser: string)
    requires Keyed(BookOn(bets, winner))
    requires NonNegative(BookOn(bets, winner)) && NonNegative(BookOn(bets, loser))
    ensures forall u :: u in users ==> Settle(users, bets, winner, loser)[u].bottles >= users[u].bottles
  {
    var wb := BookOn(bets, winner);
    var W := Sum(wb);
    var L := Sum(BookOn(bets, loser));
    SumNonNegative(wb);
    SumNonNegative(BookOn(bets, loser));
    forall u | u in users && StakeOf(wb, u).Some?
      ensures Share(L, StakeOf(wb, u).value, W) >= 0
    {
      assert Stake(u, StakeOf(wb, u).value) in wb;
      if W != 0 {
        var a := StakeOf(wb, u).value;
        assert L * a >= 0;
      }
    }
  }

  /** In every valid state the bettors on a player are registered, so a
      decision pays out at most the loser's pool and loses less than one
      bottle per winning bettor to flooring. */
  lemma DecisionPaysPool(s: State, winner: string, loser: string)
    requires Valid(s)
    requires Sum(BookOn(s.bets, winner)) != 0
    requires Sum(BookOn(s.bets, winner)) + Sum(BookOn(s.bets, loser)) != 0
    ensures Sum(BookOn(s.bets, loser)) - |BookOn(s.bets, winner)|
              < Gained(s.users, Settle(s.users, s.bets, winner, loser), BookOn(s.bets, winner))
              <= Sum(BookOn(s.bets, loser))
  {
    assert winner in s.bets;
    SettleBounds(s.users, s.bets, winner, loser);
  }

  /** A decision keeps the ledger solvent: the books are untouched and
      balances only grow. */
  lemma DecisionKeepsSolvent(s: State, players: seq<Option<string>>, winner: string)
    requires Valid(s) && Solvent(s)
    ensures forall u :: u in s.users ==> u in SettleDecision(s, players, winner)
    ensures forall u :: u in s.users ==> SettleDecision(s, players, winner)[u].bottles >= 0
  {
    match LoserOf(players, winner)
    case None =>
    case Some(loser) =>
      SettleNeverDebits(s.users, s.bets, winner, loser);
  }

  lemma PlaceBetKeepsSolvent(s: State, caller: Caller, player: string, amount: int)
    requires Valid(s) && Solvent(s) && amount >= 0
    ensures Solvent(PlaceBet(s, caller, player, amount))
  {
    var r := PlaceBet(s, caller, player, amount);
    if r != s {
      var u := caller.username;
      var book := BookOn(s.bets, player);
      if StakeOf(book, u).Some? {
        assert Stake(u, StakeOf(book, u).value) in book;
      }
      assert NonNegative(book);
      assert r.bets[player] == Put(book, u, amount);
    }
  }

  lemma RemoveBetKeepsSolvent(s: State, caller: Caller, player: string, target: string)
    requires Valid(s) && Solvent(s)
    ensures Solvent(RemoveBet(s, caller, player, target))
  {
    var r := RemoveBet(s, caller, player, target);
    if r != s {
      var book := s.bets[player];
      assert Stake(target, StakeOf(book, target).value) in book;
      assert player in r.bets ==> r.bets[player] == Delete(book, target);
    }
  }

  lemma ReplaceKeepsSolvent(s: State, caller: Caller, oldPlayer: string, newPlayer: string)
    requires Valid(s) && Solvent(s)
    ensures Solvent(ReplacePlayer(s, caller, oldPlayer, newPlayer))
  {
  }

  /** Deciding a quarterfinal keeps the ledger solvent. */
  lemma QuarterFinalKeepsSolvent(s: State, caller: Caller, matchId: int, winner: string)
    requires Valid(s) && Solvent(s)
    ensures Solvent(SetQuarterFinalWinner(s, caller, matchId, winner))
  {
    if caller.Admin? && 1 <= matchId <= 4 {
      DecisionKeepsSolvent(s, s.tournament.quarterFinals[matchId - 1].players, winner);
    }
  }

  /** Deciding a semifinal keeps the ledger solvent. */
  lemma SemiFinalKeepsSolvent(s: State, caller: Caller, matchId: int, winner: string)
    requires Valid(s) && Solvent(s)
    ensures Solvent(SetSemiFinalWinner(s, caller, matchId, winner))
  {
    if caller.Admin? && 1 <= matchId <= 2 {
      DecisionKeepsSolvent(s, s.tournament.semiFinals[matchId - 1].players, winner);
    }
  }

  /** Deciding the final keeps the ledger solvent. */
  lemma FinalKeepsSolvent(s: State, caller: Caller, winner: string)
    requires Valid(s) && Solvent(s)
    ensures Solvent(SetFinalWinner(s, caller, winner))
  {
    DecisionKeepsSolvent(s, s.tournament.final.players, winner);
  }

  /** The events that neither settle nor touch a stake keep the ledger
      solvent: they leave balances and books alone, add a 20-bottle account,
      or reset to 20 bottles and no bets. */
  lemma QuietKeepsSolvent(s: State, caller: Caller, e: Event)
    requires Valid(s) && Solvent(s)
    requires e.RegisterUser? || e.RankGroup? || e.ResetOne? || e.ResetAll? || e.Say?
    ensures Solvent(Step(s, caller, e))
  {
    var r := Step(s, caller, e);
    if e.RegisterUser? {
      assert r.bets == s.bets;
    } else if e.ResetAll? {
      assert r == FullReset(s, caller);
    }
  }

  /** Every event keeps the ledger solvent, except a bet of a negative amount. */
  lemma StepKeepsSolvent(s: State, caller: Caller, e: Event)
    requires Valid(s) && Solvent(s)
    requires !(e.Bet? && e.amount < 0)
    ensures Solvent(Step(s, caller, e))
  {
    if e.DecideQuarterFinal? {
      QuarterFinalKeepsSolvent(s, caller, e.quarterId, e.quarterWinner);
      assert Step(s, caller, e) == SetQuarterFinalWinner(s, caller, e.quarterId, e.quarterWinner);
    } else if e.DecideSemiFinal? {
      SemiFinalKeepsSolvent(s, caller, e.semiId, e.semiWinner);
      assert Step(s, caller, e) == SetSemiFinalWinner(s, caller, e.semiId, e.semiWinner);
    } else if e.DecideFinal? {
      FinalKeepsSolvent(s, caller, e.champion);
      assert Step(s, caller, e) == SetFinalWinner(s, caller, e.champion);
    } else if e.Bet? {
      PlaceBetKeepsSolvent(s, caller, e.player, e.amount);
      assert Step(s, caller, e) == PlaceBet(s, caller, e.player, e.amount);
    } else if e.CancelBet? {
      RemoveBetKeepsSolvent(s, caller, e.betPlayer, e.target);
      assert Step(s, caller, e) == RemoveBet(s, caller, e.betPlayer, e.target);
    } else if e.Substitute? {
      ReplaceKeepsSolvent(s, caller, e.oldPlayer, e.newPlayer);
      assert Step(s, caller, e) == ReplacePlayer(s, caller, e.oldPlayer, e.newPlayer);
    } else {
      QuietKeepsSolvent(s, caller, e);
    }
  }

  /** Any run of events without a negative bet keeps the ledger solvent. */
  lemma {:induction false} RunKeepsSolvent(s: State, events: seq<(Caller, Event)>)
    requires Valid(s) && Solvent(s)
    requires forall i :: 0 <= i < |events| ==> !(events[i].1.Bet? && events[i].1.amount < 0)
    ensures Solvent(Run(s, events))
    decreases |events|
  {
    if |events| > 0 {
      StepKeepsSolvent(s, events[0].0, events[0].1);
      var next := Step(s, events[0].0, events[0].1);
      forall i | 0 <= i < |events[1..]| ensures !(events[1..][i].1.Bet? && events[1..][i].1.amount < 0) {
        assert events[1..][i] == events[i + 1];
      }
      RunKeepsSolvent(next, events[1..]);
    }
  }
}
