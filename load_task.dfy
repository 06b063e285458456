/**
 * The load step: shape the merged file's rows into positional tuples, build
 * the CREATE TABLE and INSERT statements from its header, and report how many
 * rows were loaded. The database itself is the outcome it gives.
 */
module LoadTask {
  import opened Records
  import opened MergedSchema
  import opened MergeTask

  /** The statement of the transaction at which the database raised an error. */
  datatype Stage = CreateTable | InsertRows | Commit

  /** What the database did with the transaction. */
  datatype DbOutcome = Committed | DatabaseError(stage: Stage)

  /**
   * The statements one load builds, those it passed to the cursor before the
   * transaction committed or failed, the batch of row tuples, and the count
   * it returns.
   */
  datatype LoadRun = LoadRun(createSql: string, insertSql: string, executed: seq<string>,
                             batch: seq<seq<string>>, inserted: nat)

  /** `tuple(row.get(col, "") for col in header)`. */
  function RowTuple(header: seq<string>, row: Record): (r: seq<string>)
    ensures |r| == |header|
    ensures forall j :: 0 <= j < |header| && header[j] in row ==> r[j] == row[header[j]]
    ensures forall j :: 0 <= j < |header| && header[j] !in row ==> r[j] == ""
  {
    seq(|header|, j requires 0 <= j < |header| => if header[j] in row then row[header[j]] else "")
  }

  /** One tuple per data row of the file, in file order. */
  function RowTuples(file: CsvTable): (r: seq<seq<string>>)
    ensures |r| == |file.rows|
    ensures forall i :: 0 <= i < |r| ==> |r[i]| == |file.header|
  {
    seq(|file.rows|, i requires 0 <= i < |file.rows| => RowTuple(file.header, file.rows[i]))
  }

  /** `[f'{col} TEXT' for col in header]`. */
  function ColumnDefs(header: seq<string>): seq<string>
  {
    seq(|header|, j requires 0 <= j < |header| => header[j] + " TEXT")
  }

  /** `['%s'] * n`. */
  function Placeholders(n: nat): seq<string>
  {
    seq(n, _ => "%s")
  }

  /** `sep.join(parts)`. */
  function JoinWith(sep: string, parts: seq<string>): string
  {
    if |parts| == 0 then ""
    else if |parts| == 1 then parts[0]
    else parts[0] + sep + JoinWith(sep, parts[1..])
  }

  /** The position of the first comma in `s`, or `|s|` when it has none. */
  function CommaIndex(s: string): (r: nat)
    ensures r <= |s|
    ensures r < |s| ==> s[r] == ','
    ensures forall k :: 0 <= k < r ==> s[k] != ','
  {
    if s == [] then 0
    else if s[0] == ',' then 0
    else 1 + CommaIndex(s[1..])
  }

  /**
   * Reads a comma-separated list back: cuts `s` at every comma and drops the
   * character after it. It undoes `JoinWith(", ", ·)` on items without commas.
   */
  function SplitList(s: string): seq<string>
    decreases |s|
  {
    var i := CommaIndex(s);
    if i == |s| then [s]
    else [s[..i]] + SplitList(if i + 2 <= |s| then s[i + 2..] else [])
  }

  /** A list joined with ", " and read back at its commas gives the items again. */
  lemma {:induction false} SplitJoinRoundTrip(parts: seq<string>)
    requires |parts| > 0
    requires forall k :: 0 <= k < |parts| ==> ',' !in parts[k]
    ensures SplitList(JoinWith(", ", parts)) == parts
  {
    var first := parts[0];
    if |parts| > 1 {
      var rest := JoinWith(", ", parts[1..]);
      var s := first + ", " + rest;
      assert s[|first|] == ',';
      assert forall k :: 0 <= k < |first| ==> s[k] == first[k];
      assert CommaIndex(s) == |first|;
      assert s[..|first|] == first;
      assert s[|first| + 2..] == rest;
      SplitJoinRoundTrip(parts[1..]);
      assert [first] + parts[1..] == parts;
    }
  }

  /** The CREATE TABLE statement's text before its column list. */
  function CreateHead(table: string): string
  {
    "\n                    CREATE TABLE IF NOT EXISTS " + table + " (\n                        "
  }

  /** The CREATE TABLE statement's text after its column list. */
  const CreateTail: string := "\n                    );\n                "

  /** The CREATE TABLE IF NOT EXISTS statement, with the layout of its triple-quoted f-string. */
  function CreateSql(table: string, header: seq<string>): string
  {
    CreateHead(table) + JoinWith(", ", ColumnDefs(header)) + CreateTail
  }

  /** The INSERT statement's text before its column list. */
  function InsertHead(table: string): string
  {
    "\n                    INSERT INTO " + table + " ("
  }

  /** The INSERT statement's text between its column list and its placeholder list. */
  const InsertMiddle: string := ")\n                    VALUES ("

  /** The INSERT statement's text after its placeholder list. */
  const InsertTail: string := ");\n                "

  /** The INSERT statement, with the layout of its triple-quoted f-string. */
  function InsertSql(table: string, header: seq<string>): string
  {
    InsertHead(table) + JoinWith(", ", header) + InsertMiddle + JoinWith(", ", Placeholders(|header|)) + InsertTail
  }

  /** Column names without commas, so that a list of them reads back unambiguously. */
  predicate PlainNames(header: seq<string>)
  {
    forall k :: 0 <= k < |header| ==> ',' !in header[k]
  }

  /**
   * The column list of the CREATE statement reads back as one `<name> TEXT`
   * definition per header name, in header order.
   */
  lemma CreateDeclaresTextColumns(table: string, header: seq<string>)
    requires |header| > 0 && PlainNames(header)
    ensures var sql := CreateSql(table, header);
            && |CreateHead(table)| + |CreateTail| <= |sql|
            && var defs := SplitList(sql[|CreateHead(table)|..|sql| - |CreateTail|]);
               && |defs| == |header|
               && forall j :: 0 <= j < |header| ==> defs[j] == header[j] + " TEXT"
  {
    var defs := ColumnDefs(header);
    forall k | 0 <= k < |defs|
      ensures ',' !in defs[k]
    {
      assert defs[k] == header[k] + " TEXT";
    }
    SplitJoinRoundTrip(defs);
    var list := JoinWith(", ", defs);
    var sql := CreateSql(table, header);
    assert sql[|CreateHead(table)|..|sql| - |CreateTail|] == list;
  }

  /**
   * The INSERT statement names the header's columns in header order and has
   * exactly one `%s` placeholder per column.
   */
  lemma InsertNamesColumnsAndPlaceholders(table: string, header: seq<string>)
    requires |header| > 0 && PlainNames(header)
    ensures var sql := InsertSql(table, header);
            var cols := |InsertHead(table)|;
            var values := |sql| - |InsertTail| - |JoinWith(", ", Placeholders(|header|))|;
            && cols + |InsertMiddle| + |InsertTail| <= values + |InsertTail| <= |sql|
            && cols + |JoinWith(", ", header)| + |InsertMiddle| == values
            && SplitList(sql[cols..cols + |JoinWith(", ", header)|]) == header
            && var marks := SplitList(sql[values..|sql| - |InsertTail|]);
               && |marks| == |header|
               && forall j :: 0 <= j < |marks| ==> marks[j] == "%s"
  {
    var marks := Placeholders(|header|);
    assert forall k :: 0 <= k < |marks| ==> marks[k] == "%s";
    SplitJoinRoundTrip(header);
    SplitJoinRoundTrip(marks);
    var sql := InsertSql(table, header);
    var colList := JoinWith(", ", header);
    var markList := JoinWith(", ", marks);
    var cols := |InsertHead(table)|;
    var values := cols + |colList| + |InsertMiddle|;
    assert sql == InsertHead(table) + colList + InsertMiddle + markList + InsertTail;
    assert sql[cols..cols + |colList|] == colList;
    assert sql[values..|sql| - |InsertTail|] == markList;
  }

  /**
   * The statements passed to the cursor before the outcome: CREATE to
   * `execute` always, INSERT to `executemany` unless CREATE failed (with an
   * empty batch `executemany` then runs nothing).
   */
  function Executed(createSql: string, insertSql: string, outcome: DbOutcome): (r: seq<string>)
    ensures 1 <= |r| <= 2 && r[0] == createSql
    ensures |r| == 2 <==> outcome != DatabaseError(CreateTable)
    ensures |r| == 2 ==> r[1] == insertSql
  {
    if outcome == DatabaseError(CreateTable) then [createSql] else [createSql, insertSql]
  }

  /**
   * `load_csv_to_pg` on the parsed file: every row becomes a tuple aligned to
   * the header with "" for a missing column; CREATE is passed to the cursor,
   * then INSERT unless CREATE failed; the count of rows is returned when the transaction
   * commits, and 0 when the database raises an error.
   */
  function LoadCsvToPg(file: CsvTable, table: string, outcome: DbOutcome): (r: LoadRun)
    ensures r.createSql == CreateSql(table, file.header) && r.insertSql == InsertSql(table, file.header)
    ensures 1 <= |r.executed| <= 2 && r.executed[0] == r.createSql
    ensures |r.executed| == 2 <==> outcome != DatabaseError(CreateTable)
    ensures |r.executed| == 2 ==> r.executed[1] == r.insertSql
    ensures |r.batch| == |file.rows|
    ensures forall i :: 0 <= i < |r.batch| ==> |r.batch[i]| == |file.header| == |Placeholders(|file.header|)|
    ensures forall i, j :: 0 <= i < |r.batch| && 0 <= j < |file.header| ==>
              r.batch[i][j] == (if file.header[j] in file.rows[i] then file.rows[i][file.header[j]] else "")
    ensures r.inserted == if outcome.Committed? then |r.batch| else 0
  {
    var createSql := CreateSql(table, file.header);
    var insertSql := InsertSql(table, file.header);
    var rows := RowTuples(file);
    var inserted := match outcome
      case Committed => |rows|
      case DatabaseError(_) => 0;
    LoadRun(createSql, insertSql, Executed(createSql, insertSql, outcome), rows, inserted)
  }

  /**
   * A failed load reports the same count as a committed load of a file
   * without data rows: a caller cannot tell the two apart.
   */
  lemma FailureLooksLikeEmptyLoad(file: CsvTable, table: string, stage: Stage)
    ensures LoadCsvToPg(file, table, DatabaseError(stage)).inserted == 0
    ensures LoadCsvToPg(CsvTable(file.header, []), table, Committed).inserted == 0
  {
  }

  /** The tuple of a merged dict under the merged header is the record's values in column order. */
  lemma MergedRowTuple(m: MergedRecord)
    ensures RowTuple(Columns, AsDict(m)) == Fields(m)
  {
    RecordShape(m);
    var t := RowTuple(Columns, AsDict(m));
    assert |t| == |Fields(m)|;
    forall j | 0 <= j < |t|
      ensures t[j] == Fields(m)[j]
    {
    }
  }

  /** The row tuples of the merged file are the merged records' values in column order. */
  lemma MergedFileTuples(merged: seq<MergedRecord>)
    requires WriteMerged(merged).Ok?
    ensures |RowTuples(WriteMerged(merged).value)| == |merged|
    ensures forall i :: 0 <= i < |merged| ==> RowTuples(WriteMerged(merged).value)[i] == Fields(merged[i])
  {
    var file := WriteMerged(merged).value;
    forall i | 0 <= i < |merged|
      ensures RowTuples(file)[i] == Fields(merged[i])
    {
      assert file.header == Columns && file.rows[i] == AsDict(merged[i]);
      MergedRowTuple(merged[i]);
    }
  }

  /**
   * Loading the merged file inserts, for every merged record, the tuple of
   * its 16 values in header order: no value is lost, moved or converted.
   */
  lemma MergedFileLoadsFieldForField(merged: seq<MergedRecord>, table: string, outcome: DbOutcome)
    requires WriteMerged(merged).Ok?
    ensures var run := LoadCsvToPg(WriteMerged(merged).value, table, outcome);
            |run.batch| == |merged| &&
            forall i :: 0 <= i < |merged| ==> run.batch[i] == Fields(merged[i])
  {
    var file := WriteMerged(merged).value;
    assert LoadCsvToPg(file, table, outcome).batch == RowTuples(file);
    MergedFileTuples(merged);
  }
}
