/**
 * Parsed CSV rows and the failure values of the merge step.
 *
 * A row read by a dictionary CSV reader is a mapping from column name to the
 * raw text of the cell; nothing is ever converted to a number.
 */
module Records {

  /** One parsed CSV row: column name to raw cell text. */
  type Record = map<string, string>

  /** A record or Python's `None`. */
  datatype Option<+T> = None | Some(value: T)

  /** The exceptions the merge step can raise. */
  datatype Error =
    | MissingKey(key: string)   // KeyError raised by `record[key]`
    | EmptyMergeResult          // IndexError raised by `merged_data[0]` on an empty list

  /** A value, or the exception that was raised instead of producing it. */
  datatype Result<+T> = Ok(value: T) | Err(error: Error) {
    predicate IsFailure() { Err? }

    function PropagateFailure<U>(): Result<U>
      requires Err?
    {
      Err(error)
    }

    function Extract(): T
      requires Ok?
    {
      value
    }
  }

  /** The in-memory content of a CSV file: its header row and its data rows. */
  datatype CsvTable = CsvTable(header: seq<string>, rows: seq<Record>)

  /** `record[key]`: the cell, or a KeyError naming the key. */
  function Field(record: Record, key: string): (r: Result<string>)
    ensures r.Ok? <==> key in record
    ensures r.Ok? ==> r.value == record[key]
    ensures r.Err? ==> r.error == MissingKey(key)
  {
    if key in record then Ok(record[key]) else Err(MissingKey(key))
  }

  /** `index.get(k)`: the record stored under `k`, or `None`. */
  function Get(index: map<string, Record>, k: string): Option<Record>
  {
    if k in index then Some(index[k]) else None
  }

  /** Python truthiness of a value that is `None` or a dict: only a non-empty dict is true. */
  predicate Truthy(o: Option<Record>)
  {
    o.Some? && o.value != map[]
  }

  /** Every entry of `index` is a record whose `key` column holds the entry's own key. */
  predicate KeyedBy(index: map<string, Record>, key: string)
  {
    forall k :: k in index ==> key in index[k] && index[k][key] == k
  }

  /**
   * In an index whose entries carry their own key, looking a key up gives a
   * true value exactly when the key is present: no stored record is an empty dict.
   */
  lemma TruthyIffIndexed(index: map<string, Record>, key: string, k: string)
    requires KeyedBy(index, key)
    ensures Truthy(Get(index, k)) <==> k in index
  {
    if k in index {
      assert key in index[k];
    }
  }
}
