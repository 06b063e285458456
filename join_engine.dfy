/**
 * The join of the merge step: each player-stat row is resolved against the
 * player, game and team indexes and projected to a merged record, or skipped.
 */
module JoinEngine {
  import opened Records
  import opened MergedSchema

  /** The columns the projection subscripts in a player-stat row. */
  const StatKeys: set<string> := {"player_id", "game_id", "goals", "assists", "penalty_minutes"}

  /** The columns the projection subscripts in a player row (`nickname` is read with a default). */
  const PlayerKeys: set<string> := {"first_name", "last_name", "position"}

  /** The columns the projection subscripts in a game row. */
  const GameKeys: set<string> := {"game_date", "home_team_id", "away_team_id", "home_score", "away_score"}

  /** The columns the projection subscripts in a team row, when a team was found. */
  const TeamKeys: set<string> := {"team_name", "conference"}

  /** `record` has every column in `keys`. */
  predicate HasAll(record: Record, keys: set<string>)
  {
    keys <= record.Keys
  }

  /** `e` is a KeyError for a column of `keys` that `record` lacks. */
  predicate MissingFrom(e: Error, record: Record, keys: set<string>)
  {
    e.MissingKey? && e.key in keys && e.key !in record
  }

  /** The merged dict literal for a stat row whose player and game were found. */
  function Project(ps: Record, player: Record, game: Record, team: Option<Record>): (r: Result<MergedRecord>)
    ensures r.Ok? <==> HasAll(ps, StatKeys) && HasAll(player, PlayerKeys) && HasAll(game, GameKeys) &&
                       (Truthy(team) ==> HasAll(team.value, TeamKeys))
    ensures r.Err? ==> MissingFrom(r.error, ps, StatKeys) || MissingFrom(r.error, player, PlayerKeys) ||
                       MissingFrom(r.error, game, GameKeys) ||
                       (Truthy(team) && MissingFrom(r.error, team.value, TeamKeys))
  {
    var playerId :- Field(ps, "player_id");
    var firstName :- Field(player, "first_name");
    var lastName :- Field(player, "last_name");
    var nickname := if "nickname" in player then player["nickname"] else "";
    var position :- Field(player, "position");
    var teamName :- if Truthy(team) then Field(team.value, "team_name") else Ok("");
    var conference :- if Truthy(team) then Field(team.value, "conference") else Ok("");
    var gameId :- Field(ps, "game_id");
    var gameDate :- Field(game, "game_date");
    var homeTeamId :- Field(game, "home_team_id");
    var awayTeamId :- Field(game, "away_team_id");
    var homeScore :- Field(game, "home_score");
    var awayScore :- Field(game, "away_score");
    var goals :- Field(ps, "goals");
    var assists :- Field(ps, "assists");
    var penaltyMinutes :- Field(ps, "penalty_minutes");
    Ok(MergedRecord(playerId, firstName, lastName, nickname, position, teamName, conference,
                    gameId, gameDate, homeTeamId, awayTeamId, homeScore, awayScore,
                    goals, assists, penaltyMinutes))
  }

  /** The team of a found player: `teams.get(player["team_id"])`. */
  function TeamOf(player: Record, teams: map<string, Record>): (r: Result<Option<Record>>)
    ensures r.Ok? <==> "team_id" in player
    ensures r.Err? ==> r.error == MissingKey("team_id")
    ensures r.Ok? ==> (r.value.Some? <==> player["team_id"] in teams)
    ensures r.Ok? && r.value.Some? ==> r.value.value == teams[player["team_id"]]
  {
    var teamId :- Field(player, "team_id");
    Ok(Get(teams, teamId))
  }

  /** The stat row names a player and a game that both look up to a true (non-empty) record. */
  predicate Resolves(ps: Record, players: map<string, Record>, games: map<string, Record>)
  {
    && "player_id" in ps && "game_id" in ps
    && Truthy(Get(players, ps["player_id"]))
    && Truthy(Get(games, ps["game_id"]))
  }

  /**
   * One pass of the join loop over the stat row `ps`: the merged record, or
   * `None` when the row is skipped. The player, game and team are looked up
   * before the skip test, so a found player without `team_id` raises even when
   * the game is missing.
   */
  function MergeRow(ps: Record, players: map<string, Record>, games: map<string, Record>,
                    teams: map<string, Record>): (r: Result<Option<MergedRecord>>)
    ensures r.Ok? ==> (r.value.Some? <==> Resolves(ps, players, games))
    ensures r.Err? ==> r.error.MissingKey?
    ensures !LookupsSucceed(ps, players) ==> r.Err?
  {
    var playerId :- Field(ps, "player_id");
    var player := Get(players, playerId);
    var gameId :- Field(ps, "game_id");
    var game := Get(games, gameId);
    var team :- if Truthy(player) then TeamOf(player.value, teams) else Ok(None);
    if !Truthy(player) || !Truthy(game) then Ok(None)
    else
      var m :- Project(ps, player.value, game.value, team);
      Ok(Some(m))
  }

  /**
   * When the pass raises nothing, and the indexes' entries carry their own
   * key, a stat row is merged exactly when its `player_id` is a key of the
   * player index and its `game_id` a key of the game index.
   */
  lemma EmittedIffIndexed(ps: Record, players: map<string, Record>, games: map<string, Record>,
                          teams: map<string, Record>)
    requires KeyedBy(players, "player_id") && KeyedBy(games, "game_id")
    requires MergeRow(ps, players, games, teams).Ok?
    ensures "player_id" in ps && "game_id" in ps
    ensures MergeRow(ps, players, games, teams).value.Some? <==>
            ps["player_id"] in players && ps["game_id"] in games
  {
    TruthyIffIndexed(players, "player_id", ps["player_id"]);
    TruthyIffIndexed(games, "game_id", ps["game_id"]);
  }

  /** The lookups before the skip test succeed: the row has both ids, and a found player has `team_id`. */
  predicate LookupsSucceed(ps: Record, players: map<string, Record>)
  {
    && "player_id" in ps && "game_id" in ps
    && (Truthy(Get(players, ps["player_id"])) ==> "team_id" in players[ps["player_id"]])
  }

  /**
   * The team is looked up before the skip test: a found player without
   * `team_id` raises KeyError for it, even when the row's game is missing.
   */
  lemma FoundPlayerWithoutTeamRaises(ps: Record, players: map<string, Record>, games: map<string, Record>,
                                     teams: map<string, Record>)
    requires "player_id" in ps && "game_id" in ps
    requires Truthy(Get(players, ps["player_id"])) && "team_id" !in players[ps["player_id"]]
    ensures MergeRow(ps, players, games, teams) == Err(MissingKey("team_id"))
  {
  }

  /**
   * A row whose player or game is not found is skipped silently: once the
   * lookups succeed, the pass emits nothing and raises nothing, whatever
   * columns the row or its player lack otherwise.
   */
  lemma UnresolvedRowSkipped(ps: Record, players: map<string, Record>, games: map<string, Record>,
                             teams: map<string, Record>)
    requires LookupsSucceed(ps, players)
    requires !Resolves(ps, players, games)
    ensures MergeRow(ps, players, games, teams) == Ok(None)
  {
  }

  /** A skipped row leaves the join of the rows after it unchanged, error or not. */
  lemma UnresolvedRowDropped(ps: Record, rest: seq<Record>, players: map<string, Record>,
                             games: map<string, Record>, teams: map<string, Record>)
    requires LookupsSucceed(ps, players)
    requires !Resolves(ps, players, games)
    ensures JoinSpec([ps] + rest, players, games, teams) == JoinSpec(rest, players, games, teams)
  {
    assert ([ps] + rest)[0] == ps && ([ps] + rest)[1..] == rest;
    UnresolvedRowSkipped(ps, players, games, teams);
    var r := JoinSpec(rest, players, games, teams);
    if r.Ok? {
      assert [] + r.value == r.value;
    }
  }

  /** `player_id`, `game_id`, `goals`, `assists` and `penalty_minutes` are copied verbatim from the stat row. */
  lemma StatFieldsCopied(ps: Record, players: map<string, Record>, games: map<string, Record>,
                         teams: map<string, Record>)
    requires MergeRow(ps, players, games, teams).Ok? && MergeRow(ps, players, games, teams).value.Some?
    ensures HasAll(ps, StatKeys)
    ensures var m := MergeRow(ps, players, games, teams).value.value;
            && m.playerId == ps["player_id"] && m.gameId == ps["game_id"]
            && m.goals == ps["goals"] && m.assists == ps["assists"]
            && m.penaltyMinutes == ps["penalty_minutes"]
  {
  }

  /**
   * The name and position columns come from the player the stat row names
   * (`nickname` is "" when the player has none), and the game columns from
   * the game it names.
   */
  lemma PlayerAndGameFieldsResolved(ps: Record, players: map<string, Record>, games: map<string, Record>,
                                    teams: map<string, Record>)
    requires MergeRow(ps, players, games, teams).Ok? && MergeRow(ps, players, games, teams).value.Some?
    ensures Resolves(ps, players, games)
    ensures var m := MergeRow(ps, players, games, teams).value.value;
            var player := players[ps["player_id"]];
            var game := games[ps["game_id"]];
            && HasAll(player, PlayerKeys) && HasAll(game, GameKeys)
            && m.firstName == player["first_name"] && m.lastName == player["last_name"]
            && m.position == player["position"]
            && m.nickname == (if "nickname" in player then player["nickname"] else "")
            && m.gameDate == game["game_date"]
            && m.homeTeamId == game["home_team_id"] && m.awayTeamId == game["away_team_id"]
            && m.homeScore == game["home_score"] && m.awayScore == game["away_score"]
  {
  }

  /**
   * The team is found through the player's `team_id`. When no team is found
   * the record is still emitted, with empty `team_name` and `conference`.
   */
  lemma TeamFieldsOrEmpty(ps: Record, players: map<string, Record>, games: map<string, Record>,
                          teams: map<string, Record>)
    requires MergeRow(ps, players, games, teams).Ok? && MergeRow(ps, players, games, teams).value.Some?
    ensures Resolves(ps, players, games) && "team_id" in players[ps["player_id"]]
    ensures var m := MergeRow(ps, players, games, teams).value.value;
            var team := Get(teams, players[ps["player_id"]]["team_id"]);
            if Truthy(team) then
              HasAll(team.value, TeamKeys) &&
              m.teamName == team.value["team_name"] && m.conference == team.value["conference"]
            else
              m.teamName == "" && m.conference == ""
  {
  }

  /**
   * Nothing is computed: every value of a merged record is "" or a value
   * found in the stat row, its player, its game or its team.
   */
  lemma ValuesPassThrough(ps: Record, players: map<string, Record>, games: map<string, Record>,
                          teams: map<string, Record>)
    requires MergeRow(ps, players, games, teams).Ok? && MergeRow(ps, players, games, teams).value.Some?
    ensures Resolves(ps, players, games) && "team_id" in players[ps["player_id"]]
    ensures var m := MergeRow(ps, players, games, teams).value.value;
            var player := players[ps["player_id"]];
            var game := games[ps["game_id"]];
            var team := Get(teams, player["team_id"]);
            var found := ps.Values + player.Values + game.Values + (if team.Some? then team.value.Values else {});
            forall v :: v in Fields(m) ==> v == "" || v in found
  {
    StatFieldsCopied(ps, players, games, teams);
    PlayerAndGameFieldsResolved(ps, players, games, teams);
    TeamFieldsOrEmpty(ps, players, games, teams);
  }

  /** The order-preserving filter of the stat rows the join keeps. */
  function Kept(stats: seq<Record>, players: map<string, Record>, games: map<string, Record>): (r: seq<Record>)
    ensures |r| <= |stats|
    ensures forall k :: 0 <= k < |r| ==> r[k] in stats && Resolves(r[k], players, games)
  {
    if stats == [] then []
    else (if Resolves(stats[0], players, games) then [stats[0]] else []) + Kept(stats[1..], players, games)
  }

  /**
   * The join over the stat rows: one merged record per row that is not
   * skipped, in input order, or the first KeyError raised.
   */
  function JoinSpec(stats: seq<Record>, players: map<string, Record>, games: map<string, Record>,
                    teams: map<string, Record>): (r: Result<seq<MergedRecord>>)
    ensures r.Err? ==> r.error.MissingKey?
  {
    if stats == [] then Ok([])
    else
      var row :- MergeRow(stats[0], players, games, teams);
      var rest :- JoinSpec(stats[1..], players, games, teams);
      Ok((if row.Some? then [row.value] else []) + rest)
  }

  /** `front` followed by the join result `r`, or the error of `r`. */
  function Prepend(front: seq<MergedRecord>, r: Result<seq<MergedRecord>>): Result<seq<MergedRecord>>
  {
    match r
    case Ok(rest) => Ok(front + rest)
    case Err(e) => Err(e)
  }

  lemma PrependNothing(r: Result<seq<MergedRecord>>)
    ensures Prepend([], r) == r
  {
    if r.Ok? {
      assert [] + r.value == r.value;
    }
  }

  lemma PrependTwice(front: seq<MergedRecord>, middle: seq<MergedRecord>, r: Result<seq<MergedRecord>>)
    ensures Prepend(front, Prepend(middle, r)) == Prepend(front + middle, r)
  {
    if r.Ok? {
      assert front + (middle + r.value) == (front + middle) + r.value;
    }
  }

  /**
   * The join loop: walks the stat rows in order, skips a row whose player or
   * game is not found, and appends the projection of every other row.
   */
  method JoinStats(stats: seq<Record>, players: map<string, Record>, games: map<string, Record>,
                   teams: map<string, Record>) returns (r: Result<seq<MergedRecord>>)
    ensures r == JoinSpec(stats, players, games, teams)
  {
    var merged: seq<MergedRecord> := [];
    var i := 0;
    assert stats[i..] == stats;
    PrependNothing(JoinSpec(stats, players, games, teams));
    while i < |stats|
      invariant 0 <= i <= |stats|
      invariant JoinSpec(stats, players, games, teams) ==
                Prepend(merged, JoinSpec(stats[i..], players, games, teams))
    {
      var ps := stats[i];
      i := i + 1;
      assert stats[i - 1..][1..] == stats[i..];
      var playerId :- Field(ps, "player_id");
      var player := Get(players, playerId);
      var gameId :- Field(ps, "game_id");
      var game := Get(games, gameId);
      var team: Option<Record> := None;
      if Truthy(player) {
        team :- TeamOf(player.value, teams);
      }
      if !Truthy(player) || !Truthy(game) {
        assert MergeRow(ps, players, games, teams) == Ok(None);
        PrependNothing(JoinSpec(stats[i..], players, games, teams));
        continue;
      }
      var m :- Project(ps, player.value, game.value, team);
      assert MergeRow(ps, players, games, teams) == Ok(Some(m));
      PrependTwice(merged, [m], JoinSpec(stats[i..], players, games, teams));
      merged := merged + [m];
    }
    assert stats[i..] == [];
    assert merged + [] == merged;
    return Ok(merged);
  }

  /**
   * The join is the projection of the filtered stat rows: as many records as
   * kept rows, record k being the merge of kept row k.
   */
  lemma {:induction false} JoinIsProjectionOfKeptRows(stats: seq<Record>, players: map<string, Record>,
                                                      games: map<string, Record>, teams: map<string, Record>)
    requires JoinSpec(stats, players, games, teams).Ok?
    ensures var out := JoinSpec(stats, players, games, teams).value;
            var kept := Kept(stats, players, games);
            && |out| == |kept| <= |stats|
            && forall k :: 0 <= k < |out| ==> MergeRow(kept[k], players, games, teams) == Ok(Some(out[k]))
  {
    if stats != [] {
      var ps := stats[0];
      JoinIsProjectionOfKeptRows(stats[1..], players, games, teams);
      var row := MergeRow(ps, players, games, teams);
      var front := if row.value.Some? then [row.value.value] else [];
      var keptFront := if Resolves(ps, players, games) then [ps] else [];
      assert JoinSpec(stats, players, games, teams).value == front + JoinSpec(stats[1..], players, games, teams).value;
      assert Kept(stats, players, games) == keptFront + Kept(stats[1..], players, games);
      ProjectionCons(front, JoinSpec(stats[1..], players, games, teams).value,
                     keptFront, Kept(stats[1..], players, games), players, games, teams);
    }
  }

  /** Record k is the merge of kept row k, for a front of at most one row followed by a rest. */
  lemma ProjectionCons(front: seq<MergedRecord>, rest: seq<MergedRecord>, keptFront: seq<Record>, keptRest: seq<Record>,
                       players: map<string, Record>, games: map<string, Record>, teams: map<string, Record>)
    requires |front| == |keptFront| && |rest| == |keptRest|
    requires forall k :: 0 <= k < |front| ==> MergeRow(keptFront[k], players, games, teams) == Ok(Some(front[k]))
    requires forall k :: 0 <= k < |rest| ==> MergeRow(keptRest[k], players, games, teams) == Ok(Some(rest[k]))
    ensures forall k :: 0 <= k < |front + rest| ==>
              MergeRow((keptFront + keptRest)[k], players, games, teams) == Ok(Some((front + rest)[k]))
  {
    forall k | 0 <= k < |front + rest|
      ensures MergeRow((keptFront + keptRest)[k], players, games, teams) == Ok(Some((front + rest)[k]))
    {
      if k < |front| {
        assert (front + rest)[k] == front[k] && (keptFront + keptRest)[k] == keptFront[k];
      } else {
        assert (front + rest)[k] == rest[k - |front|];
        assert (keptFront + keptRest)[k] == keptRest[k - |front|];
      }
    }
  }

  /** Input whose rows all carry the columns the join subscripts. */
  predicate CompleteInputs(stats: seq<Record>, players: map<string, Record>, games: map<string, Record>,
                           teams: map<string, Record>)
  {
    && (forall i :: 0 <= i < |stats| ==> HasAll(stats[i], StatKeys))
    && (forall k :: k in players ==> HasAll(players[k], PlayerKeys) && "team_id" in players[k])
    && (forall k :: k in games ==> HasAll(games[k], GameKeys))
    && (forall k :: k in teams ==> HasAll(teams[k], TeamKeys))
  }

  /**
   * When every stat row has its five columns and every indexed player, game
   * and team has the columns the projection reads (a player also `team_id`),
   * the join succeeds, whichever ids fail to resolve.
   */
  lemma {:induction false} JoinSucceedsOnCompleteInputs(stats: seq<Record>, players: map<string, Record>,
                                                        games: map<string, Record>, teams: map<string, Record>)
    requires CompleteInputs(stats, players, games, teams)
    ensures JoinSpec(stats, players, games, teams).Ok?
  {
    if stats != [] {
      assert CompleteInputs(stats[1..], players, games, teams);
      JoinSucceedsOnCompleteInputs(stats[1..], players, games, teams);
    }
  }
}
