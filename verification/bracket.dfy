/** The tournament bracket of server/index.js (`tournamentState`): four groups
    of three players, four quarterfinals fed by a cross-bracket seeding, two
    semifinals and a final, and the current round. Names are plain strings; a
    slot, place or winner that is still `null` is `None`. */
module Bracket {
  import opened Options

  datatype Round = Groups | QuarterFinals | SemiFinals | Final | Finished

  datatype Group = Group(name: string, players: seq<string>, first: Option<string>, second: Option<string>)

  /** A quarterfinal or semifinal has a numeric `id`; the final has none. */
  datatype Match = Match(id: Option<int>, name: string, players: seq<Option<string>>, winner: Option<string>)

  datatype Tournament = Tournament(
    groups: seq<Group>,
    quarterFinals: seq<Match>,
    semiFinals: seq<Match>,
    final: Match,
    currentRound: Round)

  /** The keys of `tournamentState.groups`, in declaration order. */
  const GroupKeys: seq<string> := ["A", "B", "C", "D"]

  /** `tournamentState.groups[key]` resolves only for the four group keys. */
  function GroupIndex(key: string): (r: Option<nat>)
    ensures r.Some? <==> key in GroupKeys
    ensures r.Some? ==> r.value < |GroupKeys| && GroupKeys[r.value] == key
  {
    if key == "A" then Some(0)
    else if key == "B" then Some(1)
    else if key == "C" then Some(2)
    else if key == "D" then Some(3)
    else None
  }

  function Unplayed(id: Option<int>, name: string): Match {
    Match(id, name, [None, None], None)
  }

  /** The starting bracket (lines 24-43, rebuilt verbatim at lines 338-357). */
  const Initial: Tournament := Tournament(
    [ Group("Група A", ["Черняк Юрій", "Костюк Артем", "Мороз Олександр"], None, None),
      Group("Група B", ["Денисюк Іван", "Віка", "Ройко Діма"], None, None),
      Group("Група C", ["Назарук Богдан", "Вітя", "Тарас"], None, None),
      Group("Група D", ["Дракон", "Черняк Микола", "Ліна"], None, None) ],
    [ Unplayed(Some(1), "1/4 фіналу 1"), Unplayed(Some(2), "1/4 фіналу 2"),
      Unplayed(Some(3), "1/4 фіналу 3"), Unplayed(Some(4), "1/4 фіналу 4") ],
    [ Unplayed(Some(1), "Півфінал 1"), Unplayed(Some(2), "Півфінал 2") ],
    Unplayed(None, "Фінал"),
    Groups)

  /** The shape every handler relies on: 4 groups of 3, quarterfinals with ids
      1..4, semifinals with ids 1..2, a final without id, two slots per match. */
  predicate WellFormed(t: Tournament) {
    && |t.groups| == 4
    && (forall i :: 0 <= i < 4 ==> |t.groups[i].players| == 3)
    && |t.quarterFinals| == 4
    && (forall i :: 0 <= i < 4 ==> t.quarterFinals[i].id == Some(i + 1) && |t.quarterFinals[i].players| == 2)
    && |t.semiFinals| == 2
    && (forall i :: 0 <= i < 2 ==> t.semiFinals[i].id == Some(i + 1) && |t.semiFinals[i].players| == 2)
    && t.final.id == None
    && |t.final.players| == 2
  }

  /** `g.first && g.second`. */
  predicate Ranked(g: Group) {
    Filled(g.first) && Filled(g.second)
  }

  predicate AllRanked(gs: seq<Group>) {
    forall i :: 0 <= i < |gs| ==> Ranked(gs[i])
  }

  /** `matches.every(m => m.winner)`. */
  predicate AllDecided(ms: seq<Match>) {
    forall i :: 0 <= i < |ms| ==> Filled(ms[i].winner)
  }

  /** The cross-bracket seeding as a table: quarterfinal `k` opposes the winner
      of group `Seed[k].0` to the runner-up of group `Seed[k].1`. */
  const Seed: seq<(nat, nat)> := [(0, 1), (1, 0), (2, 3), (3, 2)]

  /** Lines 164-183: once every group is ranked, fill the quarterfinal slots
      with A1-B2, B1-A2, C1-D2, D1-C2 and move to the quarterfinals. */
  function SeedQuarterFinals(t: Tournament): (r: Tournament)
    requires WellFormed(t)
    ensures WellFormed(r)
    ensures r.groups == t.groups && r.semiFinals == t.semiFinals && r.final == t.final
    ensures forall k :: 0 <= k < 4 ==>
      r.quarterFinals[k] == t.quarterFinals[k].(players := r.quarterFinals[k].players)
    ensures AllRanked(t.groups) ==> r.currentRound == QuarterFinals
    ensures AllRanked(t.groups) ==> forall k :: 0 <= k < 4 ==>
      r.quarterFinals[k].players == [t.groups[Seed[k].0].first, t.groups[Seed[k].1].second]
    ensures !AllRanked(t.groups) ==> r == t
  {
    if AllRanked(t.groups) then
      var g := t.groups;
      var q := t.quarterFinals;
      t.(quarterFinals := [
           q[0].(players := [g[0].first, g[1].second]),
           q[1].(players := [g[1].first, g[0].second]),
           q[2].(players := [g[2].first, g[3].second]),
           q[3].(players := [g[3].first, g[2].second])],
         currentRound := QuarterFinals)
    else t
  }

  /** Lines 202-212: once every quarterfinal has a winner, SF1 gets the winners
      of QF1 and QF2, SF2 those of QF3 and QF4, and the round moves on. */
  function SeedSemiFinals(t: Tournament): (r: Tournament)
    requires WellFormed(t)
    ensures WellFormed(r)
    ensures r.groups == t.groups && r.quarterFinals == t.quarterFinals && r.final == t.final
    ensures forall k :: 0 <= k < 2 ==>
      r.semiFinals[k] == t.semiFinals[k].(players := r.semiFinals[k].players)
    ensures AllDecided(t.quarterFinals) ==> r.currentRound == SemiFinals
    ensures AllDecided(t.quarterFinals) ==> forall k :: 0 <= k < 2 ==>
      r.semiFinals[k].players == [t.quarterFinals[2 * k].winner, t.quarterFinals[2 * k + 1].winner]
    ensures !AllDecided(t.quarterFinals) ==> r == t
  {
    if AllDecided(t.quarterFinals) then
      var q := t.quarterFinals;
      var s := t.semiFinals;
      t.(semiFinals := [
           s[0].(players := [q[0].winner, q[1].winner]),
           s[1].(players := [q[2].winner, q[3].winner])],
         currentRound := SemiFinals)
    else t
  }

  /** Lines 232-238: once both semifinals have a winner, they meet in the final. */
  function SeedFinal(t: Tournament): (r: Tournament)
    requires WellFormed(t)
    ensures WellFormed(r)
    ensures r.groups == t.groups && r.quarterFinals == t.quarterFinals && r.semiFinals == t.semiFinals
    ensures r.final == t.final.(players := r.final.players)
    ensures AllDecided(t.semiFinals) ==> r.currentRound == Final
    ensures AllDecided(t.semiFinals) ==> r.final.players == [t.semiFinals[0].winner, t.semiFinals[1].winner]
    ensures !AllDecided(t.semiFinals) ==> r == t
  {
    if AllDecided(t.semiFinals) then
      t.(final := t.final.(players := [t.semiFinals[0].winner, t.semiFinals[1].winner]),
         currentRound := Final)
    else t
  }

  /** `matches.find(m => m.id === id)`, as an index. */
  function FindMatch(ms: seq<Match>, id: int): (r: Option<nat>)
    ensures r.Some? ==> r.value < |ms| && ms[r.value].id == Some(id)
    ensures r.Some? ==> forall j :: 0 <= j < r.value ==> ms[j].id != Some(id)
    ensures r.None? <==> forall j :: 0 <= j < |ms| ==> ms[j].id != Some(id)
  {
    if |ms| == 0 then None
    else if ms[0].id == Some(id) then Some(0)
    else match FindMatch(ms[1..], id)
      case None => None
      case Some(k) => Some(k + 1)
  }

  /** The name in a slot, if the slot is truthy. */
  function NameIn(p: Option<string>): (r: Option<string>)
    ensures r.Some? <==> Filled(p)
    ensures r.Some? ==> p == Some(r.value)
  {
    if Filled(p) then Some(p.value) else None
  }

  /** `players.find(p => p !== winner)` followed by `if (loser)`: the first slot
      not holding the declared winner, when that slot holds a name. */
  function LoserOf(players: seq<Option<string>>, winner: string): (r: Option<string>)
    ensures r.Some? ==> r.value != winner && r.value != "" && Some(r.value) in players
    ensures |players| == 2 && players[0] != Some(winner) ==> r == NameIn(players[0])
    ensures |players| == 2 && players[0] == Some(winner) && players[1] != Some(winner) ==> r == NameIn(players[1])
    ensures (forall i :: 0 <= i < |players| ==> players[i] == Some(winner)) ==> r.None?
  {
    if |players| == 0 then None
    else if players[0] != Some(winner) then NameIn(players[0])
    else LoserOf(players[1..], winner)
  }

  /** `x === oldPlayer ? newPlayer : x` on a nullable name. */
  function Rename(o: Option<string>, from: string, to: string): (r: Option<string>)
    ensures o == Some(from) ==> r == Some(to)
    ensures o != Some(from) ==> r == o
  {
    if o == Some(from) then Some(to) else o
  }

  /** `ps.indexOf(x)`. */
  function IndexOf(ps: seq<string>, x: string): (r: Option<nat>)
    ensures r.Some? ==> r.value < |ps| && ps[r.value] == x && x !in ps[..r.value]
    ensures r.None? <==> x !in ps
  {
    if |ps| == 0 then None
    else if ps[0] == x then Some(0)
    else match IndexOf(ps[1..], x)
      case None => None
      case Some(k) =>
        assert ps[..k + 1] == [ps[0]] + ps[1..][..k];
        Some(k + 1)
  }

  /** Position `j` holds the first occurrence of `x` in `ps`. */
  predicate FirstAt(ps: seq<string>, j: int, x: string)
    requires 0 <= j <= |ps|
  {
    j < |ps| && ps[j] == x && x !in ps[..j]
  }

  /** Lines 385-394: only the first occurrence of the old name in the player list is
      renamed (`indexOf`); the places are renamed when they equal the old name. */
  function RenameGroup(g: Group, from: string, to: string): (r: Group)
    ensures r.name == g.name && |r.players| == |g.players|
    ensures forall j :: 0 <= j < |g.players| ==>
      r.players[j] == if FirstAt(g.players, j, from) then to else g.players[j]
    ensures r.first == Rename(g.first, from, to) && r.second == Rename(g.second, from, to)
  {
    var ps := match IndexOf(g.players, from)
      case None => g.players
      case Some(i) => g.players[i := to];
    g.(players := ps, first := Rename(g.first, from, to), second := Rename(g.second, from, to))
  }

  /** Lines 398-413: every slot and the winner are renamed when they equal the old name. */
  function RenameMatch(m: Match, from: string, to: string): (r: Match)
    ensures r.id == m.id && r.name == m.name && |r.players| == |m.players|
    ensures forall j :: 0 <= j < |m.players| ==> r.players[j] == Rename(m.players[j], from, to)
    ensures r.winner == Rename(m.winner, from, to)
  {
    m.(players := seq(|m.players|, j requires 0 <= j < |m.players| => Rename(m.players[j], from, to)),
       winner := Rename(m.winner, from, to))
  }

  /** The bracket part of `admin-replace-player` (lines 384-413). */
  function RenameTournament(t: Tournament, from: string, to: string): (r: Tournament)
    ensures |r.groups| == |t.groups| && |r.quarterFinals| == |t.quarterFinals| && |r.semiFinals| == |t.semiFinals|
    ensures forall i :: 0 <= i < |t.groups| ==> r.groups[i] == RenameGroup(t.groups[i], from, to)
    ensures forall i :: 0 <= i < |t.quarterFinals| ==> r.quarterFinals[i] == RenameMatch(t.quarterFinals[i], from, to)
    ensures forall i :: 0 <= i < |t.semiFinals| ==> r.semiFinals[i] == RenameMatch(t.semiFinals[i], from, to)
    ensures r.final == RenameMatch(t.final, from, to)
    ensures r.currentRound == t.currentRound
    ensures WellFormed(t) ==> WellFormed(r)
  {
    t.(groups := seq(|t.groups|, i requires 0 <= i < |t.groups| => RenameGroup(t.groups[i], from, to)),
       quarterFinals := seq(|t.quarterFinals|, i requires 0 <= i < |t.quarterFinals| => RenameMatch(t.quarterFinals[i], from, to)),
       semiFinals := seq(|t.semiFinals|, i requires 0 <= i < |t.semiFinals| => RenameMatch(t.semiFinals[i], from, to)),
       final := RenameMatch(t.final, from, to))
  }
}
