/** The per-worker CSV report of the benchmark harness: `TaskStats.toCSV`
    and `taskStatsToCsv`, written the same way by the simulation runner
    (analysis `Common`) and the stand-alone benchmark (analysis `Main`). */
module BenchmarkCsv {
  import opened Wrappers
  import opened Decimal
  import opened Text
  import Client

  /** `TaskStats`: a worker's tallies and its client's counters. The two
      durations, `long` fields of the client's state in the program, are
      carried here beside the counters. */
  datatype TaskStats = TaskStats(
    success: int,
    failed: int,
    timeouts: int,
    status: Client.ClientState,
    requestDurationMs: int,
    connectDurationMs: int,
    worker: int)

  /** The header columns, in order. */
  const COLUMNS: seq<string> := [
    "worker_id", "success", "failed", "timeouts", "channelsOpened",
    "channelsReused", "channelsClosed", "requestsRegistered",
    "requestCompleted", "channelConnected", "channelConnectionErrors",
    "requestDurationMs", "connectDurationMs"]

  /** The header line, without its newline. */
  const HEADER: string := Join(COLUMNS, ',')

  /** The values of a row, in the order of `COLUMNS`. */
  function Fields(t: TaskStats): (f: seq<int>)
    ensures |f| == |COLUMNS|
  {
    [t.worker, t.success, t.failed, t.timeouts,
     t.status.channelsOpened, t.status.channelsReused, t.status.channelsClosed,
     t.status.requestsRegistered, t.status.requestCompleted,
     t.status.channelConnected, t.status.channelConnectionErrors,
     t.requestDurationMs, t.connectDurationMs]
  }

  /** `String.valueOf` of each value. */
  function Texts(values: seq<int>): (texts: seq<string>)
    ensures |texts| == |values|
  {
    seq(|values|, i requires 0 <= i < |values| => DecimalString(values[i]))
  }

  /** `toCSV()`: the values joined by commas. */
  function ToCsv(t: TaskStats): string {
    Join(Texts(Fields(t)), ',')
  }

  /** The rows of the report, one per element, without their newlines. */
  function Rows(stats: seq<TaskStats>): (rows: seq<string>)
    ensures |rows| == |stats|
  {
    seq(|stats|, i requires 0 <= i < |stats| => ToCsv(stats[i]))
  }

  /** A header line and then one line per row, each ended by a newline. */
  function Lines(header: string, rows: seq<string>): string {
    if rows == [] then header + "\n"
    else Lines(header, rows[..|rows| - 1]) + rows[|rows| - 1] + "\n"
  }

  /** The report `taskStatsToCsv(stats)` builds. */
  function CsvText(stats: seq<TaskStats>): string {
    Lines(HEADER, Rows(stats))
  }

  /** `taskStatsToCsv`: the `StringBuilder` loop. */
  method TaskStatsToCsv(stats: seq<TaskStats>) returns (text: string)
    ensures text == CsvText(stats)
  {
    text := HEADER + "\n";
    for i := 0 to |stats|
      invariant text == Lines(HEADER, Rows(stats[..i]))
    {
      assert Rows(stats[..i + 1])[..i] == Rows(stats[..i]);
      text := text + ToCsv(stats[i]) + "\n";
    }
    assert stats[..|stats|] == stats;
  }

  /** A join of parts without `c` holds no `c` when the separator is not `c`. */
  lemma {:induction false} JoinExcludes(parts: seq<string>, sep: char, c: char)
    requires parts != [] && sep != c
    requires forall i | 0 <= i < |parts| :: Excludes(parts[i], c)
    ensures Excludes(Join(parts, sep), c)
  {
    if |parts| > 1 {
      JoinExcludes(parts[..|parts| - 1], sep, c);
    }
  }

  /** A value's text holds neither a comma nor a newline. */
  lemma DecimalStringIsPlain(x: int)
    ensures Excludes(DecimalString(x), ',') && Excludes(DecimalString(x), '\n')
  {
    DecimalStringChars(x);
  }

  /** A row holds no newline. */
  lemma RowIsOneLine(t: TaskStats)
    ensures Excludes(ToCsv(t), '\n')
  {
    var texts := Texts(Fields(t));
    forall i | 0 <= i < |texts|
      ensures Excludes(texts[i], '\n')
    {
      DecimalStringIsPlain(Fields(t)[i]);
    }
    JoinExcludes(texts, ',', '\n');
  }

  /** The characters of a column name: ASCII letters and the underscore. */
  predicate IsNameChar(c: char) {
    'a' <= c <= 'z' || 'A' <= c <= 'Z' || c == '_'
  }

  predicate IsName(s: string) {
    forall j | 0 <= j < |s| :: IsNameChar(s[j])
  }

  /** The column names are made of name characters; the literal is checked
      in three parts, each small enough for the solver. */
  lemma FirstColumnsAreNames()
    ensures forall i | 0 <= i < 5 :: IsName(COLUMNS[i])
  {
  }

  lemma MiddleColumnsAreNames()
    ensures forall i | 5 <= i < 9 :: IsName(COLUMNS[i])
  {
  }

  lemma LastColumnsAreNames()
    ensures forall i | 9 <= i < |COLUMNS| :: IsName(COLUMNS[i])
  {
  }

  /** No column name holds a comma or a newline. */
  lemma ColumnsArePlain()
    ensures forall i | 0 <= i < |COLUMNS| :: Excludes(COLUMNS[i], ',') && Excludes(COLUMNS[i], '\n')
  {
    FirstColumnsAreNames();
    MiddleColumnsAreNames();
    LastColumnsAreNames();
  }

  /** The header holds no newline and its comma-separated columns are
      `COLUMNS`. */
  lemma HeaderColumns()
    ensures Excludes(HEADER, '\n')
    ensures Split(HEADER, ',') == COLUMNS
  {
    ColumnsArePlain();
    JoinExcludes(COLUMNS, ',', '\n');
    SplitJoin(COLUMNS, ',');
  }

  /** A line without a newline, followed by one, splits into that line and
      an empty last field. */
  lemma OneLine(before: string, line: string)
    requires Excludes(line, '\n')
    ensures var f := Split(before, '\n');
      Split(before + line + "\n", '\n') == f[..|f| - 1] + [f[|f| - 1] + line] + [""]
  {
    SplitAppendField(before, line, '\n');
    SplitAppendSeparated(before + line, "", '\n');
    assert before + line + "\n" == before + line + ['\n'] + [];
  }

  /** Each row has one field per column, and each field reads back as the
      value of that column. */
  lemma RowFields(t: TaskStats)
    ensures |Split(ToCsv(t), ',')| == |COLUMNS|
    ensures forall i | 0 <= i < |COLUMNS| :: ParseDecimal(Split(ToCsv(t), ',')[i]) == Some(Fields(t)[i])
  {
    var texts := Texts(Fields(t));
    forall i | 0 <= i < |texts|
      ensures Excludes(texts[i], ',')
      ensures ParseDecimal(texts[i]) == Some(Fields(t)[i])
    {
      DecimalStringIsPlain(Fields(t)[i]);
      DecimalRoundTrip(Fields(t)[i]);
    }
    SplitJoin(texts, ',');
  }

  /** Lines without newlines are split back into the header, the rows
      and, after the final newline, an empty last field. */
  lemma {:induction false} LinesSplit(header: string, rows: seq<string>)
    requires Excludes(header, '\n')
    requires forall i | 0 <= i < |rows| :: Excludes(rows[i], '\n')
    ensures Split(Lines(header, rows), '\n') == [header] + rows + [""]
  {
    if rows == [] {
      OneLine([], header);
      assert [] + header + "\n" == header + "\n";
    } else {
      var init := rows[..|rows| - 1];
      LinesSplit(header, init);
      OneLine(Lines(header, init), rows[|rows| - 1]);
      var f := [header] + init + [""];
      assert f[..|f| - 1] == [header] + init && f[|f| - 1] + rows[|rows| - 1] == rows[|rows| - 1];
      assert init + [rows[|rows| - 1]] == rows;
    }
  }

  /** The report's lines are the header and then one row per element, in
      order; the final newline leaves an empty last field. */
  lemma CsvLines(stats: seq<TaskStats>)
    ensures Split(CsvText(stats), '\n') == [HEADER] + Rows(stats) + [""]
  {
    HeaderColumns();
    forall i | 0 <= i < |stats|
      ensures Excludes(Rows(stats)[i], '\n')
    {
      RowIsOneLine(stats[i]);
    }
    LinesSplit(HEADER, Rows(stats));
  }
}
