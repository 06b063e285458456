/**
 * The merge step as a whole: build the three indexes, join the stat rows,
 * and lay the result out as the merged CSV file.
 */
module MergeTask {
  import opened Records
  import opened MergedSchema
  import opened IndexBuilder
  import opened JoinEngine

  /**
   * The merged file as the dictionary writer lays it out: the header is the
   * key list of the first merged dict (so an empty list raises IndexError),
   * then one row per merged dict.
   */
  function WriteMerged(merged: seq<MergedRecord>): (r: Result<CsvTable>)
    ensures r.Ok? <==> |merged| > 0
    ensures r.Err? ==> r.error == EmptyMergeResult
  {
    if |merged| == 0 then Err(EmptyMergeResult)
    else Ok(CsvTable(Columns, seq(|merged|, i requires 0 <= i < |merged| => AsDict(merged[i]))))
  }

  /** The merge step: indexes for players, games and teams, in that order, then the join and the file. */
  function MergeSpec(stats: seq<Record>, players: seq<Record>, games: seq<Record>, teams: seq<Record>)
    : (r: Result<CsvTable>)
    ensures r.Err? ==> r.error.MissingKey? || r.error == EmptyMergeResult
    ensures r.Ok? ==> r.value.header == Columns && |r.value.rows| > 0
  {
    var playerIndex :- BuildIndex(players, "player_id");
    var gameIndex :- BuildIndex(games, "game_id");
    var teamIndex :- BuildIndex(teams, "team_id");
    var merged :- JoinSpec(stats, playerIndex, gameIndex, teamIndex);
    WriteMerged(merged)
  }

  /** The merge step, running the join loop. */
  method MergeData(stats: seq<Record>, players: seq<Record>, games: seq<Record>, teams: seq<Record>)
    returns (r: Result<CsvTable>)
    ensures r == MergeSpec(stats, players, games, teams)
  {
    var playerIndex :- BuildIndex(players, "player_id");
    var gameIndex :- BuildIndex(games, "game_id");
    var teamIndex :- BuildIndex(teams, "team_id");
    var merged :- JoinStats(stats, playerIndex, gameIndex, teamIndex);
    r := WriteMerged(merged);
  }

  /**
   * A merged file has the fixed 16-column header, at least one and at most
   * as many rows as there are stat rows, and every row has exactly the header
   * columns with the value of column j being the record's j-th field.
   */
  lemma MergedFileShape(stats: seq<Record>, players: seq<Record>, games: seq<Record>, teams: seq<Record>)
    requires MergeSpec(stats, players, games, teams).Ok?
    ensures var file := MergeSpec(stats, players, games, teams).value;
            && file.header == Columns
            && 0 < |file.rows| <= |stats|
            && forall i :: 0 <= i < |file.rows| ==> file.rows[i].Keys == set c | c in Columns
  {
    var playerIndex := BuildIndex(players, "player_id").value;
    var gameIndex := BuildIndex(games, "game_id").value;
    var teamIndex := BuildIndex(teams, "team_id").value;
    JoinIsProjectionOfKeptRows(stats, playerIndex, gameIndex, teamIndex);
    var merged := JoinSpec(stats, playerIndex, gameIndex, teamIndex).value;
    forall i | 0 <= i < |merged|
      ensures AsDict(merged[i]).Keys == set c | c in Columns
    {
      RecordShape(merged[i]);
    }
  }

  /**
   * The merge step raises IndexError exactly when the indexes build and the
   * join succeeds but no stat row resolves to a player and a game.
   */
  lemma EmptyJoinRaises(stats: seq<Record>, players: seq<Record>, games: seq<Record>, teams: seq<Record>)
    ensures MergeSpec(stats, players, games, teams) == Err(EmptyMergeResult) <==>
            && BuildIndex(players, "player_id").Ok?
            && BuildIndex(games, "game_id").Ok?
            && BuildIndex(teams, "team_id").Ok?
            && var playerIndex := BuildIndex(players, "player_id").value;
               var gameIndex := BuildIndex(games, "game_id").value;
               var teamIndex := BuildIndex(teams, "team_id").value;
               && JoinSpec(stats, playerIndex, gameIndex, teamIndex).Ok?
               && Kept(stats, playerIndex, gameIndex) == []
  {
    var pr := BuildIndex(players, "player_id");
    var gr := BuildIndex(games, "game_id");
    var tr := BuildIndex(teams, "team_id");
    if pr.Ok? && gr.Ok? && tr.Ok? && JoinSpec(stats, pr.value, gr.value, tr.value).Ok? {
      JoinIsProjectionOfKeptRows(stats, pr.value, gr.value, tr.value);
    }
  }

  /** With no stat rows at all the merge step fails: a KeyError while indexing, or IndexError. */
  lemma NoStatRowsRaises(players: seq<Record>, games: seq<Record>, teams: seq<Record>)
    ensures MergeSpec([], players, games, teams).Err?
  {
  }

  /** Once the three indexes are built, the merge step is the join followed by the file layout. */
  lemma MergeSpecFromIndexes(stats: seq<Record>, players: seq<Record>, games: seq<Record>, teams: seq<Record>,
                             playerIndex: map<string, Record>, gameIndex: map<string, Record>,
                             teamIndex: map<string, Record>)
    requires BuildIndex(players, "player_id") == Ok(playerIndex)
    requires BuildIndex(games, "game_id") == Ok(gameIndex)
    requires BuildIndex(teams, "team_id") == Ok(teamIndex)
    ensures MergeSpec(stats, players, games, teams) ==
            match JoinSpec(stats, playerIndex, gameIndex, teamIndex)
            case Err(e) => Err(e)
            case Ok(merged) => WriteMerged(merged)
  {
  }

  /** An index over a single record holds just that record. */
  lemma SingletonIndex(r: Record, key: string)
    requires key in r
    ensures BuildIndex([r], key) == Ok(map[r[key] := r])
  {
    assert [r][..0] == [];
  }

  /** A join over a single stat row is that row's merge. */
  lemma SingletonJoin(ps: Record, players: map<string, Record>, games: map<string, Record>,
                      teams: map<string, Record>)
    ensures JoinSpec([ps], players, games, teams) ==
            match MergeRow(ps, players, games, teams)
            case Err(e) => Err(e)
            case Ok(row) => Ok(if row.Some? then [row.value] else [])
  {
    assert [ps][1..] == [];
    assert JoinSpec([], players, games, teams) == Ok([]);
    var row := MergeRow(ps, players, games, teams);
    if row.Ok? {
      var front: seq<MergedRecord> := if row.value.Some? then [row.value.value] else [];
      assert front + [] == front;
    }
  }

  /** Writing a single merged record gives the header and that one row. */
  lemma SingletonWrite(m: MergedRecord)
    ensures WriteMerged([m]) == Ok(CsvTable(Columns, [AsDict(m)]))
  {
    var rows := seq(1, i requires 0 <= i < 1 => AsDict([m][i]));
    assert rows == [AsDict(m)];
  }

  const AnnaLee: Record := map[
    "player_id" := "P1", "first_name" := "Anna", "last_name" := "Lee",
    "position" := "C", "team_id" := "T1"]

  const Foxes: Record := map["team_id" := "T1", "team_name" := "Foxes", "conference" := "East"]

  const GameOne: Record := map[
    "game_id" := "G1", "game_date" := "2025-01-01", "home_team_id" := "T1",
    "away_team_id" := "T2", "home_score" := "3", "away_score" := "2"]

  /** A stat row of player `playerId` in game G1. */
  function StatLine(playerId: string): Record
  {
    map["player_id" := playerId, "game_id" := "G1", "goals" := "2", "assists" := "1",
        "penalty_minutes" := "0"]
  }

  /** The merged record expected for Anna Lee in game G1, with the given team columns. */
  function AnnaLeeInGameOne(teamName: string, conference: string): MergedRecord
  {
    MergedRecord("P1", "Anna", "Lee", "", "C", teamName, conference,
                 "G1", "2025-01-01", "T1", "T2", "3", "2", "2", "1", "0")
  }

  /** A pass over a row that resolves, whose player has `team_id`, is the projection of what it found. */
  lemma ResolvedRowProjects(ps: Record, players: map<string, Record>, games: map<string, Record>,
                            teams: map<string, Record>)
    requires Resolves(ps, players, games) && "team_id" in players[ps["player_id"]]
    ensures var player := players[ps["player_id"]];
            MergeRow(ps, players, games, teams) ==
            match Project(ps, player, games[ps["game_id"]], Get(teams, player["team_id"]))
            case Err(e) => Err(e)
            case Ok(m) => Ok(Some(m))
  {
  }

  /** On records with every subscripted column, the projection copies them field by field. */
  lemma ProjectCopies(ps: Record, player: Record, game: Record, team: Option<Record>)
    requires HasAll(ps, StatKeys) && HasAll(player, PlayerKeys) && HasAll(game, GameKeys)
    requires Truthy(team) ==> HasAll(team.value, TeamKeys)
    ensures Project(ps, player, game, team) ==
            Ok(MergedRecord(ps["player_id"], player["first_name"], player["last_name"],
                            if "nickname" in player then player["nickname"] else "", player["position"],
                            if Truthy(team) then team.value["team_name"] else "",
                            if Truthy(team) then team.value["conference"] else "",
                            ps["game_id"], game["game_date"], game["home_team_id"], game["away_team_id"],
                            game["home_score"], game["away_score"],
                            ps["goals"], ps["assists"], ps["penalty_minutes"]))
  {
  }

  /** Anna Lee's stat row resolves to her and to game G1, and she has every subscripted column. */
  lemma AnnaLeeResolves(player: Record)
    requires player == AnnaLee || player == AnnaLee["team_id" := "T9"]
    ensures Resolves(StatLine("P1"), map["P1" := player], map["G1" := GameOne])
    ensures "team_id" in player && HasAll(player, PlayerKeys) && "nickname" !in player
    ensures HasAll(StatLine("P1"), StatKeys) && HasAll(GameOne, GameKeys) && HasAll(Foxes, TeamKeys)
  {
    assert "player_id" in player && "game_id" in GameOne;
  }

  /** The fields of Anna Lee's stat row, of her player record and of game G1. */
  lemma AnnaLeeValues(player: Record, team: Option<Record>)
    requires player == AnnaLee || player == AnnaLee["team_id" := "T9"]
    requires team == Some(Foxes) || team == None
    ensures var ps := StatLine("P1");
            var teamName := if team.Some? then "Foxes" else "";
            var conference := if team.Some? then "East" else "";
            MergedRecord(ps["player_id"], player["first_name"], player["last_name"], "", player["position"],
                         teamName, conference,
                         ps["game_id"], GameOne["game_date"], GameOne["home_team_id"], GameOne["away_team_id"],
                         GameOne["home_score"], GameOne["away_score"],
                         ps["goals"], ps["assists"], ps["penalty_minutes"]) == AnnaLeeInGameOne(teamName, conference)
  {
  }

  /** Anna Lee's stat row in game G1 merges with her team, the Foxes. */
  lemma AnnaLeeMergesWithTeam()
    ensures MergeRow(StatLine("P1"), map["P1" := AnnaLee], map["G1" := GameOne], map["T1" := Foxes]) ==
            Ok(Some(AnnaLeeInGameOne("Foxes", "East")))
  {
    var players, games, teams := map["P1" := AnnaLee], map["G1" := GameOne], map["T1" := Foxes];
    AnnaLeeResolves(AnnaLee);
    assert Get(teams, AnnaLee["team_id"]) == Some(Foxes) && Truthy(Some(Foxes));
    ResolvedRowProjects(StatLine("P1"), players, games, teams);
    ProjectCopies(StatLine("P1"), AnnaLee, GameOne, Some(Foxes));
    AnnaLeeValues(AnnaLee, Some(Foxes));
  }

  /** With an unknown team id, Anna Lee's stat row still merges, with empty team columns. */
  lemma AnnaLeeMergesWithoutTeam()
    ensures MergeRow(StatLine("P1"), map["P1" := AnnaLee["team_id" := "T9"]], map["G1" := GameOne],
                     map["T1" := Foxes]) == Ok(Some(AnnaLeeInGameOne("", "")))
  {
    var player := AnnaLee["team_id" := "T9"];
    var players, games, teams := map["P1" := player], map["G1" := GameOne], map["T1" := Foxes];
    AnnaLeeResolves(player);
    assert Get(teams, player["team_id"]) == None;
    ResolvedRowProjects(StatLine("P1"), players, games, teams);
    ProjectCopies(StatLine("P1"), player, GameOne, None);
    AnnaLeeValues(player, None);
  }

  /** One resolvable stat row gives one merged row carrying its team and its goals. */
  lemma ScenarioOneMergedRow()
    ensures MergeSpec([StatLine("P1")], [AnnaLee], [GameOne], [Foxes]) ==
            Ok(CsvTable(Columns, [AsDict(AnnaLeeInGameOne("Foxes", "East"))]))
  {
    var players, games, teams := map["P1" := AnnaLee], map["G1" := GameOne], map["T1" := Foxes];
    SingletonIndex(AnnaLee, "player_id");
    SingletonIndex(GameOne, "game_id");
    SingletonIndex(Foxes, "team_id");
    MergeSpecFromIndexes([StatLine("P1")], [AnnaLee], [GameOne], [Foxes], players, games, teams);
    AnnaLeeMergesWithTeam();
    SingletonJoin(StatLine("P1"), players, games, teams);
    SingletonWrite(AnnaLeeInGameOne("Foxes", "East"));
  }

  /** A stat row naming an unknown player is skipped; with nothing left, writing the file raises IndexError. */
  lemma ScenarioUnknownPlayer()
    ensures JoinSpec([StatLine("P9")], map["P1" := AnnaLee], map["G1" := GameOne], map["T1" := Foxes]) == Ok([])
    ensures MergeSpec([StatLine("P9")], [AnnaLee], [GameOne], [Foxes]) == Err(EmptyMergeResult)
  {
    var players, games, teams := map["P1" := AnnaLee], map["G1" := GameOne], map["T1" := Foxes];
    SingletonIndex(AnnaLee, "player_id");
    SingletonIndex(GameOne, "game_id");
    SingletonIndex(Foxes, "team_id");
    MergeSpecFromIndexes([StatLine("P9")], [AnnaLee], [GameOne], [Foxes], players, games, teams);
    assert "P9" !in players;
    UnresolvedRowSkipped(StatLine("P9"), players, games, teams);
    SingletonJoin(StatLine("P9"), players, games, teams);
  }

  /** A player whose team is unknown is still merged, with empty team columns. */
  lemma ScenarioUnknownTeam()
    ensures MergeSpec([StatLine("P1")], [AnnaLee["team_id" := "T9"]], [GameOne], [Foxes]) ==
            Ok(CsvTable(Columns, [AsDict(AnnaLeeInGameOne("", ""))]))
  {
    var player := AnnaLee["team_id" := "T9"];
    var players, games, teams := map["P1" := player], map["G1" := GameOne], map["T1" := Foxes];
    SingletonIndex(player, "player_id");
    SingletonIndex(GameOne, "game_id");
    SingletonIndex(Foxes, "team_id");
    MergeSpecFromIndexes([StatLine("P1")], [player], [GameOne], [Foxes], players, games, teams);
    AnnaLeeMergesWithoutTeam();
    SingletonJoin(StatLine("P1"), players, games, teams);
    SingletonWrite(AnnaLeeInGameOne("", ""));
  }
}
