/** Properties of the bracket handlers of server/index.js that relate several
    calls or hold across the whole bracket: when ranking a group seeds the
    quarterfinals, what a repeated decision pays, and what replacing a player
    does to names and books. */
module TournamentFacts {
  import opened Options
  import opened Ledger
  import opened Settlement
  import opened Bracket
  import opened Server

  // ----------------------------------------------------------- group stage

  /** Every group other than `i` has both places. */
  predicate OthersRanked(gs: seq<Group>, i: nat)
    requires |gs| == 4
  {
    forall j :: 0 <= j < 4 && j != i ==> Ranked(gs[j])
  }

  /** Ranking a group completes the group stage exactly when both places sent
      are non-empty and every other group already has both places. When it
      does, the quarterfinals are seeded and the round is `quarterFinals`
      whatever round the bracket was in, a finished tournament included;
      the semifinals and the final keep what they had. */
  lemma RankingSeedsQuarterFinals(s: State, group: string, first: string, second: string)
    requires Valid(s) && GroupIndex(group).Some?
    ensures var t := SetGroupRankings(s, Admin, group, first, second).tournament;
      && (AllRanked(t.groups) <==> first != "" && second != "" && OthersRanked(s.tournament.groups, GroupIndex(group).value))
      && (AllRanked(t.groups) ==> t.currentRound == QuarterFinals)
      && (!AllRanked(t.groups) ==> t.currentRound == s.tournament.currentRound)
      && t.semiFinals == s.tournament.semiFinals && t.final == s.tournament.final
  {
    var i := GroupIndex(group).value;
    var t := SetGroupRankings(s, Admin, group, first, second).tournament;
    assert t.groups[i].first == Some(first) && t.groups[i].second == Some(second);
    if first != "" && second != "" && OthersRanked(s.tournament.groups, i) {
      forall j | 0 <= j < |t.groups| ensures Ranked(t.groups[j]) {
        if j != i {
          assert Ranked(s.tournament.groups[j]);
        }
      }
    }
    if AllRanked(t.groups) {
      assert Ranked(t.groups[i]);
      forall j | 0 <= j < 4 && j != i ensures Ranked(s.tournament.groups[j]) {
        assert Ranked(t.groups[j]);
      }
    }
  }

  /** A finished tournament is sent back to the quarterfinals by re-ranking
      the last group, while the final keeps its champion. */
  lemma ReRankingReopensFinishedTournament(s: State, group: string, first: string, second: string)
    requires Valid(s) && s.tournament.currentRound == Finished
    requires GroupIndex(group).Some? && AllRanked(s.tournament.groups)
    requires first != "" && second != ""
    ensures var t := SetGroupRankings(s, Admin, group, first, second).tournament;
      && t.currentRound == QuarterFinals
      && t.final.winner == s.tournament.final.winner
  {
    var i := GroupIndex(group).value;
    assert OthersRanked(s.tournament.groups, i) by {
      forall j | 0 <= j < 4 && j != i ensures Ranked(s.tournament.groups[j]) {
      }
    }
    RankingSeedsQuarterFinals(s, group, first, second);
  }

  // -------------------------------------------------------------- knockouts

  /** The quarterfinal handler does not check whether the match was already
      decided, and the books stay open: declaring the same winner twice pays
      every registered backer its share twice. */
  lemma RedeclarePaysTwice(s: State, matchId: int, winner: string, u: string)
    requires Valid(s) && 1 <= matchId <= 4
    requires LoserOf(s.tournament.quarterFinals[matchId - 1].players, winner).Some?
    requires u in s.users && StakeOf(BookOn(s.bets, winner), u).Some?
    ensures var loser := LoserOf(s.tournament.quarterFinals[matchId - 1].players, winner).value;
      var W := Sum(BookOn(s.bets, winner));
      var L := Sum(BookOn(s.bets, loser));
      var once := Share(L, StakeOf(BookOn(s.bets, winner), u).value, W);
      var r := SetQuarterFinalWinner(SetQuarterFinalWinner(s, Admin, matchId, winner), Admin, matchId, winner);
      && r.bets == s.bets
      && (W + L != 0 ==> r.users[u].bottles == s.users[u].bottles + 2 * once)
      && (W + L == 0 ==> r.users == s.users)
  {
    var k := matchId - 1;
    var players := s.tournament.quarterFinals[k].players;
    var loser := LoserOf(players, winner).value;
    var W := Sum(BookOn(s.bets, winner));
    var L := Sum(BookOn(s.bets, loser));
    var once := Share(L, StakeOf(BookOn(s.bets, winner), u).value, W);
    var mid := SetQuarterFinalWinner(s, Admin, matchId, winner);
    assert mid.tournament.quarterFinals[k].players == players;
    assert mid.bets == s.bets && mid.users == SettleDecision(s, players, winner);
    var r := SetQuarterFinalWinner(mid, Admin, matchId, winner);
    assert r.users == SettleDecision(mid, players, winner);
    if W + L != 0 {
      assert mid.users[u].bottles == s.users[u].bottles + once;
      assert r.users[u].bottles == mid.users[u].bottles + once;
    } else {
      assert mid.users == s.users;
    }
  }

  // ------------------------------------------------------------ maintenance

  /** Resetting the same group or match twice is the same as resetting it
      once. */
  lemma ResetMatchIdempotent(s: State, stage: string, target: MatchRef)
    requires Valid(s)
    ensures var once := ResetMatch(s, Admin, stage, target);
      ResetMatch(once, Admin, stage, target) == once
  {
    var once := ResetMatch(s, Admin, stage, target);
    var twice := ResetMatch(once, Admin, stage, target);
    assert twice.tournament == once.tournament;
  }

  /** A full reset is idempotent, and what it leaves depends only on the
      accounts: two states with the same passwords reset to the same state. */
  lemma FullResetIdempotent(s: State, s': State)
    requires Valid(s) && Valid(s')
    requires s.users.Keys == s'.users.Keys
    requires forall u :: u in s.users ==> s.users[u].password == s'.users[u].password
    ensures FullReset(FullReset(s, Admin), Admin) == FullReset(s, Admin)
    ensures FullReset(s, Admin) == FullReset(s', Admin)
  {
    var r := FullReset(s, Admin);
    var r' := FullReset(s', Admin);
    assert FullReset(r, Admin).users == r.users;
    assert r.users == r'.users;
  }

  // ----------------------------------------------------------------- renames

  /** `name` appears somewhere in a group: in its player list or in a place. */
  predicate InGroup(g: Group, name: string) {
    name in g.players || g.first == Some(name) || g.second == Some(name)
  }

  /** `name` appears somewhere in a match: in a slot or as the winner. */
  predicate InMatch(m: Match, name: string) {
    Some(name) in m.players || m.winner == Some(name)
  }

  /** `name` appears anywhere in the bracket. */
  predicate Mentions(t: Tournament, name: string) {
    || (exists i :: 0 <= i < |t.groups| && InGroup(t.groups[i], name))
    || (exists i :: 0 <= i < |t.quarterFinals| && InMatch(t.quarterFinals[i], name))
    || (exists i :: 0 <= i < |t.semiFinals| && InMatch(t.semiFinals[i], name))
    || InMatch(t.final, name)
  }

  /** `name` occurs at most once in a list. */
  predicate AtMostOnce(ps: seq<string>, name: string) {
    forall j, k :: 0 <= j < |ps| && 0 <= k < |ps| && ps[j] == name && ps[k] == name ==> j == k
  }

  /** Renaming a group whose list holds `from` at most once leaves no `from`. */
  lemma RenameGroupErases(g: Group, from: string, to: string)
    requires from != to && AtMostOnce(g.players, from)
    ensures !InGroup(RenameGroup(g, from, to), from)
  {
    var r := RenameGroup(g, from, to);
    forall j | 0 <= j < |r.players| ensures r.players[j] != from {
      if g.players[j] == from {
        assert from !in g.players[..j] by {
          forall k | 0 <= k < j ensures g.players[..j][k] != from {
          }
        }
        assert FirstAt(g.players, j, from);
      }
    }
  }

  /** Renaming a match leaves no `from` in it. */
  lemma RenameMatchErases(m: Match, from: string, to: string)
    requires from != to
    ensures !InMatch(RenameMatch(m, from, to), from)
  {
    var r := RenameMatch(m, from, to);
    forall j | 0 <= j < |r.players| ensures r.players[j] != Some(from) {
    }
  }

  /** After `admin-replace-player` with two different names the old name is
      gone from the bracket and from the bet map, provided no group lists it
      twice (only the first occurrence in a list is renamed). Its book, if it
      had one, now belongs to the new name. */
  lemma ReplaceErasesOldName(s: State, oldPlayer: string, newPlayer: string)
    requires Valid(s) && oldPlayer != newPlayer
    requires forall i :: 0 <= i < |s.tournament.groups| ==> AtMostOnce(s.tournament.groups[i].players, oldPlayer)
    ensures var r := ReplacePlayer(s, Admin, oldPlayer, newPlayer);
      && !Mentions(r.tournament, oldPlayer)
      && oldPlayer !in r.bets
      && (oldPlayer in s.bets ==> r.bets[newPlayer] == s.bets[oldPlayer])
  {
    var r := ReplacePlayer(s, Admin, oldPlayer, newPlayer);
    var t := r.tournament;
    forall i | 0 <= i < |t.groups| ensures !InGroup(t.groups[i], oldPlayer) {
      RenameGroupErases(s.tournament.groups[i], oldPlayer, newPlayer);
    }
    forall i | 0 <= i < |t.quarterFinals| ensures !InMatch(t.quarterFinals[i], oldPlayer) {
      RenameMatchErases(s.tournament.quarterFinals[i], oldPlayer, newPlayer);
    }
    forall i | 0 <= i < |t.semiFinals| ensures !InMatch(t.semiFinals[i], oldPlayer) {
      RenameMatchErases(s.tournament.semiFinals[i], oldPlayer, newPlayer);
    }
    RenameMatchErases(s.tournament.final, oldPlayer, newPlayer);
  }

  /** A duplicated name shows that only the first occurrence in a group list
      is renamed: `["x", "x", "y"]` becomes `["z", "x", "y"]`. */
  lemma ReplaceRenamesFirstOccurrenceOnly()
    ensures RenameGroup(Group("G", ["x", "x", "y"], None, None), "x", "z").players == ["z", "x", "y"]
  {
    var g := Group("G", ["x", "x", "y"], None, None);
    var r := RenameGroup(g, "x", "z");
    assert FirstAt(g.players, 0, "x");
    assert !FirstAt(g.players, 1, "x") by {
      assert g.players[..1] == ["x"];
    }
  }

  /** Renaming a name to itself deletes the player's book: every stake on that
      player is lost, and no balance is refunded. */
  lemma SelfReplaceDropsBook(s: State, player: string)
    requires Valid(s) && player in s.bets
    ensures var r := ReplacePlayer(s, Admin, player, player);
      && player !in r.bets
      && r.users == s.users
      && r.tournament == s.tournament
  {
    var r := ReplacePlayer(s, Admin, player, player);
    RenameTournamentSame(s.tournament, player);
  }

  /** Renaming a name to itself leaves the bracket unchanged. */
  lemma RenameTournamentSame(t: Tournament, name: string)
    ensures RenameTournament(t, name, name) == t
  {
    var r := RenameTournament(t, name, name);
    forall i | 0 <= i < |t.groups| ensures r.groups[i] == t.groups[i] {
      RenameGroupSame(t.groups[i], name);
    }
    forall i | 0 <= i < |t.quarterFinals| ensures r.quarterFinals[i] == t.quarterFinals[i] {
      RenameMatchSame(t.quarterFinals[i], name);
    }
    forall i | 0 <= i < |t.semiFinals| ensures r.semiFinals[i] == t.semiFinals[i] {
      RenameMatchSame(t.semiFinals[i], name);
    }
    RenameMatchSame(t.final, name);
  }

  lemma RenameGroupSame(g: Group, name: string)
    ensures RenameGroup(g, name, name) == g
  {
    var r := RenameGroup(g, name, name);
    assert r.players == g.players;
  }

  lemma RenameMatchSame(m: Match, name: string)
    ensures RenameMatch(m, name, name) == m
  {
    var r := RenameMatch(m, name, name);
    assert r.players == m.players;
  }

  /** Renaming back restores a group, when the new name was not in it. */
  lemma RenameGroupBack(g: Group, from: string, to: string)
    requires !InGroup(g, to)
    ensures RenameGroup(RenameGroup(g, from, to), to, from) == g
  {
    var p := RenameGroup(g, from, to);
    var r := RenameGroup(p, to, from);
    forall j | 0 <= j < |g.players| ensures r.players[j] == g.players[j] {
      forall k | 0 <= k < j && 0 <= k < |g.players| ensures p.players[k] == g.players[k] || p.players[k] == to {
      }
      if FirstAt(g.players, j, from) {
        assert p.players[..j] == g.players[..j] by {
          forall k | 0 <= k < j ensures p.players[k] == g.players[k] {
            assert g.players[k] != from by {
              assert g.players[..j][k] == g.players[k];
            }
            assert !FirstAt(g.players, k, from);
          }
        }
        assert to !in g.players[..j];
        assert FirstAt(p.players, j, to);
      } else {
        assert p.players[j] == g.players[j];
        assert g.players[j] != to;
        assert !FirstAt(p.players, j, to);
      }
    }
    assert r.players == g.players;
  }

  /** Renaming back restores a match, when the new name was not in it. */
  lemma RenameMatchBack(m: Match, from: string, to: string)
    requires !InMatch(m, to)
    ensures RenameMatch(RenameMatch(m, from, to), to, from) == m
  {
    var r := RenameMatch(RenameMatch(m, from, to), to, from);
    forall j | 0 <= j < |m.players| ensures r.players[j] == m.players[j] {
      assert m.players[j] != Some(to);
    }
    assert r.players == m.players;
  }

  /** Replacing a player by a name that appears nowhere, then replacing back,
      restores the whole state: bracket, books and balances. */
  lemma ReplaceRoundTrip(s: State, oldPlayer: string, newPlayer: string)
    requires Valid(s) && oldPlayer != newPlayer
    requires !Mentions(s.tournament, newPlayer) && newPlayer !in s.bets
    ensures ReplacePlayer(ReplacePlayer(s, Admin, oldPlayer, newPlayer), Admin, newPlayer, oldPlayer) == s
  {
    var t := s.tournament;
    var mid := ReplacePlayer(s, Admin, oldPlayer, newPlayer);
    var r := ReplacePlayer(mid, Admin, newPlayer, oldPlayer);
    var back := RenameTournament(RenameTournament(t, oldPlayer, newPlayer), newPlayer, oldPlayer);
    forall i | 0 <= i < |t.groups| ensures back.groups[i] == t.groups[i] {
      RenameGroupBack(t.groups[i], oldPlayer, newPlayer);
    }
    forall i | 0 <= i < |t.quarterFinals| ensures back.quarterFinals[i] == t.quarterFinals[i] {
      RenameMatchBack(t.quarterFinals[i], oldPlayer, newPlayer);
    }
    forall i | 0 <= i < |t.semiFinals| ensures back.semiFinals[i] == t.semiFinals[i] {
      RenameMatchBack(t.semiFinals[i], oldPlayer, newPlayer);
    }
    RenameMatchBack(t.final, oldPlayer, newPlayer);
    assert back.groups == t.groups && back.quarterFinals == t.quarterFinals && back.semiFinals == t.semiFinals;
    assert r.tournament == t;
    assert r.bets == s.bets;
  }
}
