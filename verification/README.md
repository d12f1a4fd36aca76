# Tournament server core in Dafny

This project models the tournament engine in `server/index.js`: the socket
handlers that run a 12-player bracket and take bets on it. The bracket has four
groups of three, four quarterfinals seeded across the groups, two semifinals
and a final. Registered users start with 20 bottles and may stake them on a
player. When a match is decided, the backers of the winner are credited a
share of what was staked on the loser. The administrator can reset matches,
reset everything and replace a player. A chat transcript keeps the last 100
trimmed messages.

Each handler is a pure transition `State -> State` over the server's four
module-level variables: `tournamentState`, `registeredUsers`, `activeBets`
and `chatMessages`. The connection that sent the event is a `Caller`: a
guest, a logged-in user, or the administrator. A handler that returns early
returns the state unchanged.

Files and modules:

- `options.dfy` (`Options`): `Option`, `Result`, and `Filled`, the truthiness
  of a nullable string.
- `ledger.dfy` (`Ledger`): accounts and bet books. A player's book is a list
  of `(user, amount)` with unique users, in insertion order. This is the
  order of the JavaScript object `activeBets[player]` for usernames that are
  not array indices (see "Left out").
- `settlement.dfy` (`Settlement`): `processBetsForWinner` and its bound.
- `bracket.dfy` (`Bracket`): the bracket data, its seeding steps and the
  renaming used by replace-player.
- `chat.dfy` (`Chat`): trim, cut to 200, and the 100-message window.
- `server.dfy` (`Server`): the state, the `Valid` invariant every handler
  keeps, one function per handler, and `Step`/`Run` over event sequences.
- `betting_facts.dfy` (`BettingFacts`) and `tournament_facts.dfy`
  (`TournamentFacts`): lemmas that relate several handler calls.

The model follows the code as written, including its quirks:

- Stakes are not returned on a win. With 10 and 5 on the winner and 20 on the
  loser, the backers get 13 and 6 (`Settlement.TwoBackersExample`). The
  comment at `server/index.js:70` says winners get their bet back as well,
  but lines 71-76 only add the share of the loser's pool.
- Settlement never clears the books (lines 58-79), and nothing stops a match
  from being declared again, so a repeated declaration pays again (`TournamentFacts.RedeclarePaysTwice`).
- No handler checks the round. Ranking the last group of a finished
  tournament sends it back to the quarterfinals.
- `place-bet` checks the balance before refunding the previous stake, and it
  accepts zero and negative amounts.
- Replacing a player with itself deletes that player's book.
- An unknown group key makes the JavaScript throw before anything changes.
  Here that case is a no-op.

The model follows the code wherever a comment or a test says otherwise.

## Model

| member | source | states |
|---|---|---|
| Ledger.StakeOf | server/index.js:273-274 | a user has a stake exactly when it is one of the book's users, and the stake found is an entry of the book |
| Ledger.Put | server/index.js:270-278 | writing a stake keeps one entry per user, gives the user exactly the new amount, leaves every other user's stake, adds the user to the book's users, and changes the pool by new minus old stake |
| Ledger.PutAppends | server/index.js:278 | a user new to the book is appended after every existing entry |
| Ledger.Delete | server/index.js:297 | deleting a user's entry removes it from the book's users, leaves every other stake, and lowers the pool by exactly that stake |
| Settlement.FloorDiv | server/index.js:73-74 | `Math.floor` of an exact quotient, bracketed by the divisor for both signs |
| Settlement.Credit | server/index.js:71-76 | crediting a winner book adds each registered user's share to its balance and changes nothing else |
| Settlement.Settle | server/index.js:58-79 | only registered backers of the winner change, each gains exactly floor(L*a/W); a pool summing to 0 or a winner nobody backed changes nothing |
| Settlement.SettleBounds | server/index.js:58-79 | what settlement credits over the winner book is at most the loser pool L and more than L minus the number of winning bettors |
| Settlement.TwoBackersExample | server/index.js:70-76 | stakes of 10 and 5 on the winner against 20 on the loser are credited 13 and 6, with no stake returned |
| Bracket.GroupIndex | server/index.js:157 | a group key resolves exactly for A, B, C and D |
| Bracket.SeedQuarterFinals | server/index.js:161-183 | once all groups have both places the quarterfinals hold A1-B2, B1-A2, C1-D2, D1-C2 and the round is quarterFinals; otherwise nothing changes |
| Bracket.SeedSemiFinals | server/index.js:201-212 | once all quarterfinals have a winner, SF1 holds the winners of QF1 and QF2, SF2 those of QF3 and QF4, and the round is semiFinals; otherwise nothing changes |
| Bracket.SeedFinal | server/index.js:231-238 | once both semifinals have a winner they fill the final and the round is final; otherwise nothing changes |
| Bracket.FindMatch | server/index.js:193 | `find` by id returns the first match with that id, or none when no match has it |
| Bracket.LoserOf | server/index.js:196-199 | the loser is the first slot not holding the winner, and only when that slot is filled; a winner outside the match makes slot 0 the loser |
| Bracket.IndexOf | server/index.js:386 | `indexOf` returns the first position of the name, or none exactly when it is absent |
| Bracket.RenameGroup | server/index.js:384-395 | only the first occurrence of the old name in the player list is replaced; first and second are replaced when equal to it |
| Bracket.RenameMatch | server/index.js:398-413 | every slot and the winner equal to the old name are replaced, and nothing else changes |
| Bracket.RenameTournament | server/index.js:384-413 | the whole bracket is renamed group by group and match by match; its shape and round are kept |
| Chat.TrimStart | server/index.js:438 | the result is a suffix of the text, everything dropped is whitespace, and it does not start with whitespace |
| Chat.TrimEnd | server/index.js:438 | the result is a prefix of the text, everything dropped is whitespace, and it does not end with whitespace |
| Chat.Trim | server/index.js:438 | `trim()` is a slice of the text with only whitespace outside it and no whitespace at either end |
| Chat.TrimIdempotent | server/index.js:438 | trimming twice gives the same text as trimming once |
| Chat.Clean | server/index.js:438 | the stored text is the first min(n, 200) characters of the trimmed text of length n, so all of it when that is short and exactly 200 otherwise |
| Chat.CleanCanEndInSpace | server/index.js:438 | cutting after trimming can leave trailing whitespace in a stored message |
| Chat.Append | server/index.js:443-448 | the new message is last and the transcript is the last min(n+1, 100) entries of the old one extended by it |
| Server.StartValid | server/index.js:24-55 | the starting state meets the invariant every handler keeps: the fixed bracket shape, keyed non-empty books of registered bettors, at most 100 messages |
| Server.Register | server/index.js:100-121 | an empty name or password or a taken name is refused; otherwise exactly one account with 20 bottles is added and nothing else changes |
| Server.SetGroupRankings | server/index.js:155-187 | only the named group's places change; the round becomes quarterFinals with the cross-bracket slots when all four groups are ranked, else the round and slots stay |
| Server.SettleDecision | server/index.js:196-199 | no account is added or removed and no password changes; a user who did not back the winner keeps its balance; without a loser, or when both books sum to zero, nothing changes; otherwise each registered backer of the winner gains exactly floor(L*a/W) |
| Server.FindById | server/index.js:193 | with the fixed ids, the match with id k is at position k-1, and any other id finds nothing |
| Server.SetQuarterFinalWinner | server/index.js:190-217 | an unknown id changes nothing; otherwise the winner is recorded as sent, the books stay, balances are settled, and the semifinals are seeded once all four quarterfinals have a winner |
| Server.SetSemiFinalWinner | server/index.js:220-243 | an unknown id changes nothing; otherwise the winner is recorded, balances are settled, and the final is seeded once both semifinals have a winner |
| Server.SetFinalWinner | server/index.js:246-259 | the final's winner is recorded, balances are settled, and the round is finished whatever it was |
| Server.PlaceBet | server/index.js:262-286 | a guest, the administrator, an unknown user or a balance below the amount changes nothing; otherwise the user has exactly one stake of the amount and its balance becomes old balance plus previous stake minus amount |
| Server.RemoveBet | server/index.js:289-309 | a non-admin caller, an unknown user or a missing or zero stake changes nothing; otherwise the stake is refunded and deleted, and the book is dropped when it empties |
| Server.EmptyBook | server/index.js:299-301 | a book is empty exactly when it has no users |
| Server.ResetMatch | server/index.js:312-329 | only the named group's places or the named match's winner are cleared; the round, other matches, seeded slots, balances and bets stay |
| Server.ClearGroup | server/index.js:315-317 | a known group key clears exactly that group's two places and keeps the bracket well formed; an unknown key changes nothing |
| Server.ClearWinner | server/index.js:318-323 | the match with the given id loses its winner and every other match, id and player slot stays; an id that is not found changes nothing |
| Server.FullReset | server/index.js:332-377 | the bracket is the initial one in round groups, every account keeps its password with 20 bottles, and bets and chat are empty |
| Server.ReplacePlayer | server/index.js:380-423 | the bracket is renamed, and the old book moves to the new name, overwriting any book there and vanishing when the names are equal |
| Server.ChatMessage | server/index.js:426-451 | a guest or the administrator changes nothing; otherwise the cleaned text is appended as the caller's last message |
| Server.Step | server/index.js:100-451 | every event keeps the invariant, and an admin-only event from anyone but the administrator changes nothing |
| Server.Run | server/index.js:100-451 | a run of events keeps the invariant, and a run made only of refused admin events changes nothing |
| BettingFacts.DeleteUndoesPut | server/index.js:278-297 | deleting a newly added entry gives the book back |
| BettingFacts.RemoveUndoesPlace | server/index.js:262-309 | an administrator removing a fresh non-zero bet restores the whole state it was placed in |
| BettingFacts.RebetReplaces | server/index.js:273-279 | betting twice on a player leaves one stake of the latest amount, charged net of the earlier stake |
| BettingFacts.PlaceBetConservesHoldings | server/index.js:272-279 | a bet only moves bottles between a user's balance and its stake on that player |
| BettingFacts.RemoveBetConservesHoldings | server/index.js:296-297 | removing a bet refunds exactly the stake it deletes |
| BettingFacts.NegativeBetRaisesBalance | server/index.js:267-279 | a fresh negative bet is accepted and raises the bettor's balance |
| BettingFacts.RegisterOnce | server/index.js:100-121 | a registered name is refused a second time, also after a full reset, which keeps the account with 20 bottles |
| BettingFacts.DecisionPaysPool | server/index.js:58-79 | in every reachable state each bettor is registered, so a decision credits at most the loser pool L and more than L minus the number of winning bettors |
| BettingFacts.SettleNeverDebits | server/index.js:71-76 | with non-negative stakes settlement never lowers a balance |
| BettingFacts.StepKeepsSolvent | server/index.js:100-451 | no event except a negative bet makes a balance or a stake negative |
| BettingFacts.RunKeepsSolvent | server/index.js:100-451 | any run of events without a negative bet keeps every balance and stake non-negative |
| TournamentFacts.RankingSeedsQuarterFinals | server/index.js:158-183 | the group stage completes exactly when both places sent are non-empty and every other group is ranked; then the round is quarterFinals from any round |
| TournamentFacts.ReRankingReopensFinishedTournament | server/index.js:158-183 | re-ranking a group of a finished tournament sends it back to quarterFinals while the final keeps its winner |
| TournamentFacts.RedeclarePaysTwice | server/index.js:190-199 | declaring the same quarterfinal winner twice credits each backer its share twice and keeps the books |
| TournamentFacts.ResetMatchIdempotent | server/index.js:312-329 | resetting the same group or match twice is the same as once |
| TournamentFacts.FullResetIdempotent | server/index.js:332-377 | a full reset is idempotent and depends only on the accounts' names and passwords |
| TournamentFacts.ReplaceErasesOldName | server/index.js:380-419 | with different names and no duplicate in a group list, the old name is gone from the bracket and the bets, and its book is under the new name |
| TournamentFacts.ReplaceRenamesFirstOccurrenceOnly | server/index.js:386-389 | a name listed twice in a group keeps its second occurrence |
| TournamentFacts.SelfReplaceDropsBook | server/index.js:416-419 | replacing a player with itself deletes its book without refunding anyone |
| TournamentFacts.ReplaceRoundTrip | server/index.js:380-423 | replacing a player by an unused name and back restores the whole state |

## Left out

- Transport: the Express and socket.io setup, every `io.emit`/`socket.emit`,
  the `register` callback, connect and disconnect, and `getUsersList`. None of
  these change the modelled state.
- `connectedUsers` and login. The caller of each event is given as a `Caller`
  (guest, user or administrator) instead of being looked up by socket id. The
  login password check is not modelled. The auto-login after `register` is
  not modelled either.
- Settlement.Settle: shares are exact `floor(L*a/W)`. The code computes
  `L * (a / W)` in IEEE doubles, which can come out one below, for example
  `49 * (1/49)` floors to 0.
- Settlement.Settle: a winner book that sums to 0 while the total pool does
  not gives `NaN` or `Infinity` balances in the code. Here it credits 0. This
  needs zero or negative stakes.
- Server.SetGroupRankings: an unknown group key throws a `TypeError` before
  any change in the code. Here it is a no-op. The same applies to an
  `admin-reset-match` group reference that does not resolve. Keys such as
  `toString` or `__proto__` that reach `Object.prototype` are treated as unknown.
- Payload types: names are strings, amounts and ids are integers, and a
  missing field is not modelled. JavaScript's loose values (`undefined`,
  numeric strings, fractional amounts) are not modelled.
- Chat.Clean: lengths count Unicode characters, where JavaScript's
  `substring` counts UTF-16 code units.
- The chat message id and timestamp come from the clock. They are inputs of
  `ChatMessage`.
- A bet cap of 10 bottles is expected by `tests/socket-contracts.test.js:282-300`,
  which also sends a `playerName` field and waits for an acknowledgement of
  `place-bet`. `server/index.js:262-286` has no cap, reads `player` and sends
  no acknowledgement, so none of these are modelled.
- Ledger.PutAppends: JavaScript lists the keys of an object that look like
  array indices (`"0"`, `"7"`) first, in ascending numeric order, and only then
  the other keys in insertion order. A username such as `"7"` is therefore
  listed before existing entries, not after them. The model keeps insertion
  order for every name. No handler's result depends on this order: a
  settlement credits each entry on its own.
- Server.Register, Server.PlaceBet: names that reach `Object.prototype`
  (`constructor`, `toString`, `__proto__`) are ordinary keys here. In the code,
  `registeredUsers[username]` is truthy for them, so `register` refuses them as
  taken (line 106). In `place-bet` a player named `constructor` finds a
  function as its book, so no book is created and the stake is written onto
  that function (lines 270-278).
- Server.PlaceBet: balances and stakes are unbounded integers. In the code they
  are IEEE doubles (lines 274-279). Since any negative amount is accepted, a
  bet such as `-1e300` gives a balance beyond 2^53, where adding a small amount
  changes nothing. Two bets of `-1e308` on different players take the balance
  past the largest double, to `Infinity`. Balance arithmetic
  beyond 2^53 is not modelled.
