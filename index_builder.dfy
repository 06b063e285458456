/**
 * The reference indexes of the merge step: `{r[key]: r for r in records}`,
 * built once each for players, games and teams.
 */
module IndexBuilder {
  import opened Records

  /**
   * The dict comprehension over `records`, evaluated left to right: each
   * record is stored under its `key` column, a later record replacing an
   * earlier one with the same key, and the first record without that column
   * raises a KeyError.
   */
  function BuildIndex(records: seq<Record>, key: string): (r: Result<map<string, Record>>)
    ensures r.Ok? <==> forall i :: 0 <= i < |records| ==> key in records[i]
    ensures r.Err? ==> r.error == MissingKey(key)
    ensures r.Ok? ==> KeyedBy(r.value, key)
    ensures r.Ok? ==> forall k :: k in r.value <==>
                        exists i :: 0 <= i < |records| && key in records[i] && records[i][key] == k
    decreases |records|
  {
    if records == [] then Ok(map[])
    else
      var earlier := records[..|records| - 1];
      var last := records[|records| - 1];
      var index :- BuildIndex(earlier, key);
      if key in last then
        assert forall i :: 0 <= i < |earlier| ==> earlier[i] == records[i];
        Ok(index[last[key] := last])
      else
        Err(MissingKey(key))
  }

  /** `records[j]` carries the last occurrence of its own key value. */
  ghost predicate LastWithKey(records: seq<Record>, key: string, j: int)
    requires forall i :: 0 <= i < |records| ==> key in records[i]
  {
    0 <= j < |records| &&
    forall i :: j < i < |records| ==> records[i][key] != records[j][key]
  }

  /**
   * Last write wins: the record the index holds under a key is the last
   * record in the input that carries that key.
   */
  lemma {:induction false} IndexHoldsLastRecord(records: seq<Record>, key: string, j: int)
    requires BuildIndex(records, key).Ok?
    requires LastWithKey(records, key, j)
    ensures records[j][key] in BuildIndex(records, key).value
    ensures BuildIndex(records, key).value[records[j][key]] == records[j]
    decreases |records|
  {
    var n := |records|;
    var earlier := records[..n - 1];
    if j < n - 1 {
      assert forall i :: 0 <= i < |earlier| ==> earlier[i] == records[i];
      assert LastWithKey(earlier, key, j);
      IndexHoldsLastRecord(earlier, key, j);
    }
  }
}
