/** The socket handlers of server/index.js as pure transitions over the
    server's module-level state. Each handler takes the state and the calling
    connection and returns the next state; a handler that returns early
    returns the state unchanged. Broadcasts and acknowledgements are not part
    of the state and are left out. */
module Server {
  import opened Options
  import opened Ledger
  import opened Settlement
  import opened Bracket
  import opened Chat

  /** Who sent the event, as recorded in `connectedUsers`: nobody logged in,
      a logged-in user, or the administrator. */
  datatype Caller = Guest | Member(username: string) | Admin

  /** `tournamentState`, `registeredUsers`, `activeBets` and `chatMessages`. */
  datatype State = State(
    tournament: Tournament,
    users: map<string, Account>,
    bets: map<string, Book>,
    chat: seq<Message>)

  /** The state the server starts in. */
  const Start: State := State(Initial, map[], map[], [])

  /** What every handler keeps: the bracket has its fixed shape, every bet book
      has one entry per user, at least one entry and only registered bettors
      (accounts are never deleted), and the transcript holds at most 100
      messages. */
  predicate Valid(s: State) {
    && WellFormed(s.tournament)
    && (forall p :: p in s.bets ==> Keyed(s.bets[p]) && |s.bets[p]| > 0 && Users(s.bets[p]) <= s.users.Keys)
    && |s.chat| <= WindowSize
  }

  lemma StartValid()
    ensures Valid(Start)
  {
  }

  // ---------------------------------------------------------------- register

  datatype RegisterError = MissingCredentials | UserExists

  /** `register` (lines 100-121): an empty name or password, or a taken name,
      is refused; otherwise the user is added with 20 bottles and no other
      account changes. */
  function Register(s: State, username: string, password: string): (r: Result<State, RegisterError>)
    ensures username == "" || password == "" ==> r == Err(MissingCredentials)
    ensures username != "" && password != "" && username in s.users ==> r == Err(UserExists)
    ensures r.Ok? <==> username != "" && password != "" && username !in s.users
    ensures r.Ok? ==> r.value.users.Keys == s.users.Keys + {username}
    ensures r.Ok? ==> r.value.users[username] == Account(password, StartingBottles)
    ensures r.Ok? ==> forall u :: u in s.users ==> r.value.users[u] == s.users[u]
    ensures r.Ok? ==> r.value.(users := s.users) == s
  {
    if username == "" || password == "" then Err(MissingCredentials)
    else if username in s.users then Err(UserExists)
    else Ok(s.(users := s.users[username := Account(password, StartingBottles)]))
  }

  // ------------------------------------------------------------ group stage

  /** `set-group-rankings` (lines 155-187). The places are recorded as sent:
      nothing checks that they belong to the group, differ from each other,
      or that the round is still `groups`. Once all four groups have both
      places, the quarterfinals are seeded A1-B2, B1-A2, C1-D2, D1-C2 and the
      round becomes `quarterFinals`. An unknown group key makes the source
      throw before it changes anything; here the state is left unchanged. */
  function SetGroupRankings(s: State, caller: Caller, group: string, first: string, second: string): (r: State)
    requires Valid(s)
    ensures Valid(r)
    ensures !caller.Admin? || GroupIndex(group).None? ==> r == s
    ensures r.users == s.users && r.bets == s.bets && r.chat == s.chat
    ensures caller.Admin? && GroupIndex(group).Some? ==>
      var i := GroupIndex(group).value;
      var t := r.tournament;
      && t.groups[i] == s.tournament.groups[i].(first := Some(first), second := Some(second))
      && (forall j :: 0 <= j < 4 && j != i ==> t.groups[j] == s.tournament.groups[j])
      && t.semiFinals == s.tournament.semiFinals && t.final == s.tournament.final
      && (forall k :: 0 <= k < 4 ==>
            t.quarterFinals[k] == s.tournament.quarterFinals[k].(players := t.quarterFinals[k].players))
      && (AllRanked(t.groups) ==> t.currentRound == QuarterFinals)
      && (AllRanked(t.groups) ==> forall k :: 0 <= k < 4 ==>
            t.quarterFinals[k].players == [t.groups[Seed[k].0].first, t.groups[Seed[k].1].second])
      && (!AllRanked(t.groups) ==>
            t.currentRound == s.tournament.currentRound && t.quarterFinals == s.tournament.quarterFinals)
  {
    if !caller.Admin? then s
    else match GroupIndex(group)
      case None => s
      case Some(i) =>
        var gs := s.tournament.groups[i := s.tournament.groups[i].(first := Some(first), second := Some(second))];
        s.(tournament := SeedQuarterFinals(s.tournament.(groups := gs)))
  }

  // --------------------------------------------------------------- knockouts

  /** The balances after a decision: settlement runs when the match has a
      loser (line 199, 229, 252). No account is added or removed and no
      password changes; only registered backers of the winner can gain, each
      exactly its share of the loser's pool, and nothing at all happens
      without a loser or when both books sum to zero. */
  function SettleDecision(s: State, players: seq<Option<string>>, winner: string): (r: map<string, Account>)
    requires Valid(s)
    ensures r.Keys == s.users.Keys
    ensures forall u :: u in s.users ==> r[u].password == s.users[u].password
    ensures forall u :: u in s.users && u !in Users(BookOn(s.bets, winner)) ==> r[u] == s.users[u]
    ensures LoserOf(players, winner).None? ==> r == s.users
    ensures LoserOf(players, winner).Some? ==>
      var wb := BookOn(s.bets, winner);
      var lb := BookOn(s.bets, LoserOf(players, winner).value);
      && (Sum(wb) + Sum(lb) == 0 ==> r == s.users)
      && (Sum(wb) + Sum(lb) != 0 ==> forall u :: u in s.users && StakeOf(wb, u).Some? ==>
            r[u] == s.users[u].(bottles := s.users[u].bottles + Share(Sum(lb), StakeOf(wb, u).value, Sum(wb))))
  {
    match LoserOf(players, winner)
    case None => s.users
    case Some(loser) => Settle(s.users, s.bets, winner, loser)
  }

  /** With the fixed ids, `find(m => m.id === id)` finds match `id - 1`. */
  lemma FindById(ms: seq<Match>, n: nat, id: int)
    requires |ms| == n && forall i :: 0 <= i < n ==> ms[i].id == Some(i + 1)
    ensures 1 <= id <= n ==> FindMatch(ms, id) == Some(id - 1)
    ensures !(1 <= id <= n) ==> FindMatch(ms, id) == None
  {
    if 1 <= id <= n {
      assert ms[id - 1].id == Some(id);
    }
  }

  /** `set-quarterfinal-winner` (lines 190-217). An unknown id is ignored.
      Otherwise the winner is recorded as sent (even outside the match, even
      when already decided), bets are settled against the first slot not
      holding the winner, and once all four quarterfinals have a winner the
      semifinals are seeded QF1/QF2 and QF3/QF4 and the round becomes
      `semiFinals`. The bet books are never cleared. */
  function SetQuarterFinalWinner(s: State, caller: Caller, matchId: int, winner: string): (r: State)
    requires Valid(s)
    ensures Valid(r)
    ensures !caller.Admin? || !(1 <= matchId <= 4) ==> r == s
    ensures r.bets == s.bets && r.chat == s.chat
    ensures caller.Admin? && 1 <= matchId <= 4 ==>
      var k := matchId - 1;
      var m := s.tournament.quarterFinals[k];
      var t := r.tournament;
      && t.quarterFinals[k] == m.(winner := Some(winner))
      && (forall j :: 0 <= j < 4 && j != k ==> t.quarterFinals[j] == s.tournament.quarterFinals[j])
      && t.groups == s.tournament.groups && t.final == s.tournament.final
      && (forall j :: 0 <= j < 2 ==>
            t.semiFinals[j] == s.tournament.semiFinals[j].(players := t.semiFinals[j].players))
      && r.users == SettleDecision(s, m.players, winner)
      && (AllDecided(t.quarterFinals) ==> t.currentRound == SemiFinals)
      && (AllDecided(t.quarterFinals) ==> forall j :: 0 <= j < 2 ==>
            t.semiFinals[j].players == [t.quarterFinals[2 * j].winner, t.quarterFinals[2 * j + 1].winner])
      && (!AllDecided(t.quarterFinals) ==>
            t.currentRound == s.tournament.currentRound && t.semiFinals == s.tournament.semiFinals)
  {
    if !caller.Admin? then s
    else
      FindById(s.tournament.quarterFinals, 4, matchId);
      match FindMatch(s.tournament.quarterFinals, matchId)
      case None => s
      case Some(k) =>
        var m := s.tournament.quarterFinals[k];
        var qs := s.tournament.quarterFinals[k := m.(winner := Some(winner))];
        s.(tournament := SeedSemiFinals(s.tournament.(quarterFinals := qs)),
           users := SettleDecision(s, m.players, winner))
  }

  /** `set-semifinal-winner` (lines 220-243): as for a quarterfinal; once both
      semifinals have a winner they meet in the final and the round becomes
      `final`. */
  function SetSemiFinalWinner(s: State, caller: Caller, matchId: int, winner: string): (r: State)
    requires Valid(s)
    ensures Valid(r)
    ensures !caller.Admin? || !(1 <= matchId <= 2) ==> r == s
    ensures r.bets == s.bets && r.chat == s.chat
    ensures caller.Admin? && 1 <= matchId <= 2 ==>
      var k := matchId - 1;
      var m := s.tournament.semiFinals[k];
      var t := r.tournament;
      && t.semiFinals[k] == m.(winner := Some(winner))
      && (forall j :: 0 <= j < 2 && j != k ==> t.semiFinals[j] == s.tournament.semiFinals[j])
      && t.groups == s.tournament.groups && t.quarterFinals == s.tournament.quarterFinals
      && t.final == s.tournament.final.(players := t.final.players)
      && r.users == SettleDecision(s, m.players, winner)
      && (AllDecided(t.semiFinals) ==> t.currentRound == Final)
      && (AllDecided(t.semiFinals) ==> t.final.players == [t.semiFinals[0].winner, t.semiFinals[1].winner])
      && (!AllDecided(t.semiFinals) ==> t.currentRound == s.tournament.currentRound && t.final == s.tournament.final)
  {
    if !caller.Admin? then s
    else
      FindById(s.tournament.semiFinals, 2, matchId);
      match FindMatch(s.tournament.semiFinals, matchId)
      case None => s
      case Some(k) =>
        var m := s.tournament.semiFinals[k];
        var ss := s.tournament.semiFinals[k := m.(winner := Some(winner))];
        s.(tournament := SeedFinal(s.tournament.(semiFinals := ss)),
           users := SettleDecision(s, m.players, winner))
  }

  /** `set-final-winner` (lines 246-259): the winner is recorded, bets are
      settled, and the round becomes `finished` whatever it was. */
  function SetFinalWinner(s: State, caller: Caller, winner: string): (r: State)
    requires Valid(s)
    ensures Valid(r)
    ensures !caller.Admin? ==> r == s
    ensures r.bets == s.bets && r.chat == s.chat
    ensures caller.Admin? ==>
      && r.tournament == s.tournament.(final := s.tournament.final.(winner := Some(winner)), currentRound := Finished)
      && r.users == SettleDecision(s, s.tournament.final.players, winner)
  {
    if !caller.Admin? then s
    else
      var f := s.tournament.final;
      s.(tournament := s.tournament.(final := f.(winner := Some(winner)), currentRound := Finished),
         users := SettleDecision(s, f.players, winner))
  }

  // ----------------------------------------------------------------- betting

  /** `place-bet` (lines 262-286). Only a logged-in, non-admin user with an
      account can bet, and only if its balance is at least `amount` BEFORE the
      previous bet on the same player is refunded. The bet replaces any
      previous bet of the user on that player; the balance is refunded the
      previous bet and charged the new one. Nothing rejects a zero or negative
      amount. */
  function PlaceBet(s: State, caller: Caller, player: string, amount: int): (r: State)
    requires Valid(s)
    ensures Valid(r)
    ensures !caller.Member? ==> r == s
    ensures caller.Member? && (caller.username !in s.users || s.users[caller.username].bottles < amount) ==> r == s
    ensures r.tournament == s.tournament && r.chat == s.chat
    ensures caller.Member? && caller.username in s.users && amount <= s.users[caller.username].bottles ==>
      var u := caller.username;
      var before := BookOn(s.bets, player);
      && player in r.bets
      && StakeOf(r.bets[player], u) == Some(amount)
      && (forall v :: v != u ==> StakeOf(r.bets[player], v) == StakeOf(before, v))
      && Users(r.bets[player]) == Users(before) + {u}
      && r.users.Keys == s.users.Keys
      && r.users[u] == s.users[u].(bottles := s.users[u].bottles + StakeOr0(before, u) - amount)
      && (forall v :: v in s.users && v != u ==> r.users[v] == s.users[v])
      && (forall p :: p != player ==> (p in r.bets <==> p in s.bets))
      && (forall p :: p != player && p in s.bets ==> r.bets[p] == s.bets[p])
  {
    if !caller.Member? then s
    else
      var u := caller.username;
      if u !in s.users || s.users[u].bottles < amount then s
      else
        var book := BookOn(s.bets, player);
        var refund := StakeOr0(book, u);
        var account := s.users[u];
        var placed := Put(book, u, amount);
        assert Users(placed) <= s.users.Keys;
        s.(bets := s.bets[player := placed],
           users := s.users[u := account.(bottles := account.bottles + refund - amount)])
  }

  /** `admin-remove-bet` (lines 289-309). Refunds the user's stake on the
      player and deletes it, dropping the player's book once it is empty. A
      missing account or a missing stake is ignored, and so is a stake of 0,
      which JavaScript reads as absent. */
  function RemoveBet(s: State, caller: Caller, player: string, target: string): (r: State)
    requires Valid(s)
    ensures Valid(r)
    ensures !caller.Admin? || target !in s.users || StakeOr0(BookOn(s.bets, player), target) == 0 ==> r == s
    ensures r.tournament == s.tournament && r.chat == s.chat
    ensures caller.Admin? && target in s.users && StakeOr0(BookOn(s.bets, player), target) != 0 ==>
      var before := s.bets[player];
      && r.users == s.users[target := s.users[target].(bottles := s.users[target].bottles + StakeOr0(before, target))]
      && StakeOf(BookOn(r.bets, player), target).None?
      && (forall v :: v != target ==> StakeOf(BookOn(r.bets, player), v) == StakeOf(before, v))
      && (player in r.bets <==> Users(before) != {target})
      && (forall p :: p != player ==> (p in r.bets <==> p in s.bets))
      && (forall p :: p != player && p in s.bets ==> r.bets[p] == s.bets[p])
  {
    if !caller.Admin? || target !in s.users then s
    else
      var book := BookOn(s.bets, player);
      var stake := StakeOr0(book, target);
      if stake == 0 then s
      else
        var rest := Delete(book, target);
        var account := s.users[target];
        EmptyBook(rest);
        s.(users := s.users[target := account.(bottles := account.bottles + stake)],
           bets := if |rest| == 0 then s.bets - {player} else s.bets[player := rest])
  }

  /** A book is empty exactly when it has no users. */
  lemma EmptyBook(b: Book)
    ensures |b| == 0 <==> Users(b) == {}
  {
    if |b| > 0 {
      assert b[0].user in Users(b);
    }
  }

  // ------------------------------------------------------------ maintenance

  /** What `admin-reset-match` is pointed at: a group key, or a match id. */
  datatype MatchRef = GroupKey(key: string) | MatchNumber(number: int)

  /** `admin-reset-match` (lines 312-329): clears one group's places or one
      match's winner. The round, the other groups and matches, the slots that
      were already seeded from the cleared result, balances and bets are left
      as they are. Stage names other than the four below are ignored; a group
      reference that does not resolve makes the source throw before any change
      and leaves the state unchanged here. */
  function ResetMatch(s: State, caller: Caller, stage: string, target: MatchRef): (r: State)
    requires Valid(s)
    ensures Valid(r)
    ensures !caller.Admin? ==> r == s
    ensures r.users == s.users && r.bets == s.bets && r.chat == s.chat
    ensures r.tournament.currentRound == s.tournament.currentRound
    ensures stage !in {"group", "quarterFinals", "semiFinals", "final"} ==> r == s
    ensures caller.Admin? && stage == "group" ==>
      if target.GroupKey? && GroupIndex(target.key).Some? then
        var i := GroupIndex(target.key).value;
        r.tournament == s.tournament.(groups := s.tournament.groups[i := s.tournament.groups[i].(first := None, second := None)])
      else r == s
    ensures caller.Admin? && stage == "quarterFinals" ==>
      if target.MatchNumber? && 1 <= target.number <= 4 then
        var k := target.number - 1;
        r.tournament == s.tournament.(quarterFinals := s.tournament.quarterFinals[k := s.tournament.quarterFinals[k].(winner := None)])
      else r == s
    ensures caller.Admin? && stage == "semiFinals" ==>
      if target.MatchNumber? && 1 <= target.number <= 2 then
        var k := target.number - 1;
        r.tournament == s.tournament.(semiFinals := s.tournament.semiFinals[k := s.tournament.semiFinals[k].(winner := None)])
      else r == s
    ensures caller.Admin? && stage == "final" ==>
      r.tournament == s.tournament.(final := s.tournament.final.(winner := None))
  {
    if !caller.Admin? then s
    else if stage == "group" then
      match target
      case MatchNumber(_) => s
      case GroupKey(key) => s.(tournament := ClearGroup(s.tournament, key))
    else if stage == "quarterFinals" then
      match target
      case GroupKey(_) => s
      case MatchNumber(id) => s.(tournament := s.tournament.(quarterFinals := ClearWinner(s.tournament.quarterFinals, 4, id)))
    else if stage == "semiFinals" then
      match target
      case GroupKey(_) => s
      case MatchNumber(id) => s.(tournament := s.tournament.(semiFinals := ClearWinner(s.tournament.semiFinals, 2, id)))
    else if stage == "final" then
      s.(tournament := s.tournament.(final := s.tournament.final.(winner := None)))
    else s
  }

  /** `groups[key].first = null; groups[key].second = null` for a key that
      resolves; any other key leaves the bracket as it is. */
  function ClearGroup(t: Tournament, key: string): (r: Tournament)
    requires WellFormed(t)
    ensures WellFormed(r)
    ensures GroupIndex(key).None? ==> r == t
    ensures GroupIndex(key).Some? ==>
      r == t.(groups := t.groups[GroupIndex(key).value := t.groups[GroupIndex(key).value].(first := None, second := None)])
  {
    match GroupIndex(key)
    case None => t
    case Some(i) => t.(groups := t.groups[i := t.groups[i].(first := None, second := None)])
  }

  /** `find(m => m.id === id)` then `match.winner = null`, on a round whose
      matches have the ids 1..n. */
  function ClearWinner(ms: seq<Match>, n: nat, id: int): (r: seq<Match>)
    requires |ms| == n && forall i :: 0 <= i < n ==> ms[i].id == Some(i + 1)
    ensures |r| == n
    ensures forall i :: 0 <= i < n ==> r[i].id == ms[i].id && r[i].players == ms[i].players
    ensures !(1 <= id <= n) ==> r == ms
    ensures 1 <= id <= n ==> r == ms[id - 1 := ms[id - 1].(winner := None)]
  {
    FindById(ms, n, id);
    match FindMatch(ms, id)
    case None => ms
    case Some(k) => ms[k := ms[k].(winner := None)]
  }

  /** `admin-full-reset` (lines 332-377): the bracket goes back to its starting
      configuration, every existing account is reset to 20 bottles (keeping its
      password, no account is removed), and the bets and the chat are emptied. */
  function FullReset(s: State, caller: Caller): (r: State)
    requires Valid(s)
    ensures Valid(r)
    ensures !caller.Admin? ==> r == s
    ensures caller.Admin? ==>
      && r.tournament == Initial && r.tournament.currentRound == Groups
      && r.bets == map[] && r.chat == []
      && r.users.Keys == s.users.Keys
      && (forall u :: u in s.users ==> r.users[u] == Account(s.users[u].password, StartingBottles))
  {
    if !caller.Admin? then s
    else
      State(Initial, map u | u in s.users :: s.users[u].(bottles := StartingBottles), map[], [])
  }

  /** `admin-replace-player` (lines 380-423): the old name is renamed in the
      bracket, and its bet book, if any, is moved to the new name, overwriting
      a book already there. With equal names the book is deleted. Stakes are
      neither refunded nor merged. */
  function ReplacePlayer(s: State, caller: Caller, oldPlayer: string, newPlayer: string): (r: State)
    requires Valid(s)
    ensures Valid(r)
    ensures !caller.Admin? ==> r == s
    ensures r.users == s.users && r.chat == s.chat
    ensures caller.Admin? ==> r.tournament == RenameTournament(s.tournament, oldPlayer, newPlayer)
    ensures caller.Admin? && oldPlayer !in s.bets ==> r.bets == s.bets
    ensures caller.Admin? && oldPlayer in s.bets ==>
      && oldPlayer !in r.bets
      && (oldPlayer != newPlayer ==> newPlayer in r.bets && r.bets[newPlayer] == s.bets[oldPlayer])
      && (forall p :: p != oldPlayer && p != newPlayer ==> (p in r.bets <==> p in s.bets))
      && (forall p :: p != oldPlayer && p != newPlayer && p in s.bets ==> r.bets[p] == s.bets[p])
  {
    if !caller.Admin? then s
    else
      var bets := if oldPlayer in s.bets then s.bets[newPlayer := s.bets[oldPlayer]] - {oldPlayer} else s.bets;
      s.(tournament := RenameTournament(s.tournament, oldPlayer, newPlayer), bets := bets)
  }

  // -------------------------------------------------------------------- chat

  /** `chat-message` (lines 426-451): any logged-in non-admin connection may
      post (the account is not looked up). The stored text is the trimmed
      message cut to 200 characters; it is appended last and only the last 100
      messages are kept. */
  function ChatMessage(s: State, caller: Caller, text: string, id: int, timestamp: string): (r: State)
    requires Valid(s)
    ensures Valid(r)
    ensures !caller.Member? ==> r == s
    ensures r.tournament == s.tournament && r.users == s.users && r.bets == s.bets
    ensures caller.Member? ==>
      && r.chat == Append(s.chat, Message(id, caller.username, Clean(text), timestamp))
      && r.chat[|r.chat| - 1].message == Clean(text)
      && r.chat[|r.chat| - 1].username == caller.username
  {
    if !caller.Member? then s
    else s.(chat := Append(s.chat, Message(id, caller.username, Clean(text), timestamp)))
  }

  // ---------------------------------------------------------------- dispatch

  /** The socket events the core handles, with their payloads. */
  datatype Event =
    | RegisterUser(username: string, password: string)
    | RankGroup(group: string, first: string, second: string)
    | DecideQuarterFinal(quarterId: int, quarterWinner: string)
    | DecideSemiFinal(semiId: int, semiWinner: string)
    | DecideFinal(champion: string)
    | Bet(player: string, amount: int)
    | CancelBet(betPlayer: string, target: string)
    | ResetOne(stage: string, ref: MatchRef)
    | ResetAll
    | Substitute(oldPlayer: string, newPlayer: string)
    | Say(text: string, id: int, timestamp: string)

  /** The events whose handler begins with the `isAdmin` check. */
  predicate AdminOnly(e: Event) {
    !(e.RegisterUser? || e.Bet? || e.Say?)
  }

  /** One event handled to completion. A refused registration leaves the
      state as it was. */
  function Step(s: State, caller: Caller, e: Event): (r: State)
    requires Valid(s)
    ensures Valid(r)
    ensures AdminOnly(e) && !caller.Admin? ==> r == s
    ensures (e.Bet? || e.Say?) && !caller.Member? ==> r == s
  {
    match e
    case RegisterUser(u, pw) =>
      (match Register(s, u, pw)
       case Ok(next) => next
       case Err(_) => s)
    case RankGroup(g, f, sec) => SetGroupRankings(s, caller, g, f, sec)
    case DecideQuarterFinal(id, w) => SetQuarterFinalWinner(s, caller, id, w)
    case DecideSemiFinal(id, w) => SetSemiFinalWinner(s, caller, id, w)
    case DecideFinal(w) => SetFinalWinner(s, caller, w)
    case Bet(p, a) => PlaceBet(s, caller, p, a)
    case CancelBet(p, u) => RemoveBet(s, caller, p, u)
    case ResetOne(stage, ref) => ResetMatch(s, caller, stage, ref)
    case ResetAll => FullReset(s, caller)
    case Substitute(o, n) => ReplacePlayer(s, caller, o, n)
    case Say(text, id, ts) => ChatMessage(s, caller, text, id, ts)
  }

  /** A sequence of events handled one after the other. */
  function Run(s: State, events: seq<(Caller, Event)>): (r: State)
    requires Valid(s)
    ensures Valid(r)
    ensures (forall i :: 0 <= i < |events| ==> AdminOnly(events[i].1) && !events[i].0.Admin?) ==> r == s
    decreases |events|
  {
    if |events| == 0 then s
    else Run(Step(s, events[0].0, events[0].1), events[1..])
  }
}
