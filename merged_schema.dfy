/**
 * The merged record: the fixed 16-column projection of one player-game row.
 */
module MergedSchema {
  import opened Records

  /** One row of the merged file; every value is raw text taken from an input row or "". */
  datatype MergedRecord = MergedRecord(
    playerId: string,
    firstName: string,
    lastName: string,
    nickname: string,
    position: string,
    teamName: string,
    conference: string,
    gameId: string,
    gameDate: string,
    homeTeamId: string,
    awayTeamId: string,
    homeScore: string,
    awayScore: string,
    goals: string,
    assists: string,
    penaltyMinutes: string)

  /** The keys of the merged dict, in insertion order: the merged file's header. */
  const Columns: seq<string> := [
    "player_id", "first_name", "last_name", "nickname", "position",
    "team_name", "conference", "game_id", "game_date", "home_team_id",
    "away_team_id", "home_score", "away_score", "goals", "assists",
    "penalty_minutes"]

  /** The record's values in column order. */
  function Fields(m: MergedRecord): seq<string>
  {
    [m.playerId, m.firstName, m.lastName, m.nickname, m.position,
     m.teamName, m.conference, m.gameId, m.gameDate, m.homeTeamId,
     m.awayTeamId, m.homeScore, m.awayScore, m.goals, m.assists,
     m.penaltyMinutes]
  }

  /** The record as the dict the merge appends. */
  function AsDict(m: MergedRecord): Record
  {
    map[
      "player_id" := m.playerId,
      "first_name" := m.firstName,
      "last_name" := m.lastName,
      "nickname" := m.nickname,
      "position" := m.position,
      "team_name" := m.teamName,
      "conference" := m.conference,
      "game_id" := m.gameId,
      "game_date" := m.gameDate,
      "home_team_id" := m.homeTeamId,
      "away_team_id" := m.awayTeamId,
      "home_score" := m.homeScore,
      "away_score" := m.awayScore,
      "goals" := m.goals,
      "assists" := m.assists,
      "penalty_minutes" := m.penaltyMinutes]
  }

  /** The header has 16 columns and no column name repeats. */
  lemma ColumnsDistinct()
    ensures |Columns| == 16
    ensures forall i, j :: 0 <= i < j < |Columns| ==> Columns[i] != Columns[j]
  {
  }

  /** A sequence without repeats has as many distinct elements as it is long. */
  lemma {:induction false} DistinctElements(s: seq<string>)
    requires forall i, j :: 0 <= i < j < |s| ==> s[i] != s[j]
    ensures |set x | x in s| == |s|
  {
    if s != [] {
      DistinctElements(s[1..]);
      assert (set x | x in s) == {s[0]} + (set x | x in s[1..]);
      assert s[0] !in (set x | x in s[1..]) by {
        forall k | 0 <= k < |s[1..]|
          ensures s[1..][k] != s[0]
        {
          assert s[1..][k] == s[k + 1];
        }
      }
    }
  }

  /** The dict's keys are the header columns. */
  lemma DictKeys(m: MergedRecord)
    ensures AsDict(m).Keys == set c | c in Columns
  {
    assert Columns == [
      "player_id", "first_name", "last_name", "nickname", "position",
      "team_name", "conference", "game_id", "game_date", "home_team_id",
      "away_team_id", "home_score", "away_score", "goals", "assists",
      "penalty_minutes"];
  }

  /** Under column j the dict holds the record's j-th field. */
  lemma DictValues(m: MergedRecord)
    ensures |Fields(m)| == |Columns|
    ensures forall j :: 0 <= j < |Columns| ==> Columns[j] in AsDict(m) && AsDict(m)[Columns[j]] == Fields(m)[j]
  {
    assert |Fields(m)| == |Columns| == 16;
  }

  /**
   * Every merged dict has exactly the header columns as keys, and the value
   * under column j is the record's j-th field.
   */
  lemma RecordShape(m: MergedRecord)
    ensures |Fields(m)| == |Columns|
    ensures AsDict(m).Keys == set c | c in Columns
    ensures forall j :: 0 <= j < |Columns| ==> Columns[j] in AsDict(m) && AsDict(m)[Columns[j]] == Fields(m)[j]
  {
    DictKeys(m);
    DictValues(m);
  }

  /** No two columns collapse into one key: every merged dict has 16 distinct keys. */
  lemma SixteenKeys(m: MergedRecord)
    ensures |AsDict(m).Keys| == |Columns| == 16
  {
    RecordShape(m);
    ColumnsDistinct();
    DistinctElements(Columns);
  }
}
