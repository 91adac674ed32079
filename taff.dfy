/** The allocation document ("TAFF") the service returns: a header naming the
    configuration file and the task and processor counts, then, when an
    allocation was found, its identifier and one 0/1 row per processor.
    The module gives the document as lines, the serialiser that builds it
    cell by cell, the "no allocation" document, and a reference reader that
    recovers everything written. */
module Taff {
  import opened Configuration
  import opened Grids
  import opened Text

  const ConfigPrefix := "CONFIG-FILE=\""
  const DataPrefix := "ALLOCATIONS-DATA="
  const AllocationIdLine := "ALLOCATION-ID=1"
  /** The line terminator (`Environment.NewLine`), fixed to a line feed. */
  const NewLine := "\n"

  /** First line: the configuration file's path between double quotes. */
  function ConfigLine(path: string): string {
    ConfigPrefix + path + "\""
  }

  /** Second line: whether an allocation follows (1) or not (0), then the
      number of tasks, then the number of processors. */
  function DataLine(hasAllocation: bool, tasks: nat, processors: nat): string {
    (if hasAllocation then "ALLOCATIONS-DATA=1," else "ALLOCATIONS-DATA=0,")
    + NatToString(tasks) + "," + NatToString(processors)
  }

  function CellTexts(row: seq<int>): (texts: seq<string>)
    ensures |texts| == |row|
  {
    seq(|row|, i requires 0 <= i < |row| => IntToString(row[i]))
  }

  /** One processor's row: its cells, comma-separated. */
  function RowLine(row: seq<int>): string {
    Join(CellTexts(row), ',')
  }

  function RowLines(rows: seq<seq<int>>): (lines: seq<string>)
    ensures |lines| == |rows|
  {
    seq(|rows|, r requires 0 <= r < |rows| => RowLine(rows[r]))
  }

  /** The document for a found allocation. A row line is written only when
      it has cells, so with no tasks the document is the header alone. */
  function AllocationDocument(path: string, tasks: nat, processors: nat, rows: seq<seq<int>>): string {
    Unlines([ConfigLine(path), DataLine(true, tasks, processors), AllocationIdLine]
            + (if tasks == 0 then [] else RowLines(rows)))
  }

  /** The document that says no allocation was found (`ZeroAllocations`). */
  function ZeroAllocations(cfg: Config): (taff: string)
    ensures taff == Unlines([ConfigLine(cfg.filePath), DataLine(false, cfg.numberOfTasks, cfg.numberOfProcessors)])
  {
    UnlinesTwo(ConfigLine(cfg.filePath), DataLine(false, cfg.numberOfTasks, cfg.numberOfProcessors));
    ConfigPrefix + cfg.filePath + "\"" + "\n"
    + "ALLOCATIONS-DATA=0," + NatToString(cfg.numberOfTasks) + "," + NatToString(cfg.numberOfProcessors) + "\n"
  }

  lemma UnlinesTwo(a: string, b: string)
    ensures Unlines([a, b]) == a + "\n" + b + "\n"
  {
    assert [a, b][1..] == [b];
    assert [b][1..] == [];
    assert Unlines([b]) == b + "\n" + Unlines([]);
  }

  lemma UnlinesThree(a: string, b: string, c: string)
    ensures Unlines([a, b, c]) == a + "\n" + b + "\n" + c + "\n"
  {
    assert [a, b, c][1..] == [b, c];
    UnlinesTwo(b, c);
  }

  /** The text after the serialiser has appended, to `prefix`, the first
      `k` cell texts of a row: every cell but the row's last is followed by
      a comma, the last by a line break. */
  function EmitCells(prefix: string, cells: seq<string>, k: nat): string
    requires k <= |cells|
  {
    if k == 0 then prefix
    else EmitCells(prefix, cells, k - 1) + (cells[k - 1] + (if k < |cells| then "," else NewLine))
  }

  /** The text after the serialiser has appended, to `header`, the first `n`
      rows of a table with `columns` cells per row. */
  function EmitRows(header: string, rows: seq<seq<int>>, columns: nat, n: nat): string
    requires n <= |rows| && forall r :: 0 <= r < |rows| ==> |rows[r]| == columns
  {
    if n == 0 then header else EmitCells(EmitRows(header, rows, columns, n - 1), CellTexts(rows[n - 1]), columns)
  }

  lemma {:induction false} EmitBeforeLast(prefix: string, cells: seq<string>, k: nat)
    requires 1 <= k < |cells|
    ensures EmitCells(prefix, cells, k) == prefix + (Join(cells[..k], ',') + ",")
    decreases k
  {
    if k == 1 {
      assert cells[..1] == [cells[0]];
    } else {
      EmitBeforeLast(prefix, cells, k - 1);
      assert cells[..k] == cells[..k - 1] + [cells[k - 1]];
      JoinSnoc(cells[..k - 1], cells[k - 1], ',');
    }
  }

  /** A complete row of the serialiser is the row's cells joined by commas
      and a line break; a row without cells writes nothing. */
  lemma {:induction false} EmitRow(prefix: string, cells: seq<string>)
    ensures EmitCells(prefix, cells, |cells|) == if cells == [] then prefix else prefix + (Join(cells, ',') + NewLine)
  {
    var n := |cells|;
    if n > 1 {
      EmitBeforeLast(prefix, cells, n - 1);
      assert cells == cells[..n - 1] + [cells[n - 1]];
      JoinSnoc(cells[..n - 1], cells[n - 1], ',');
    }
  }

  /** A line appended after a text is that text followed by the one-line document. */
  lemma AppendLine(header: string, text: string, line: string)
    ensures (header + text) + (line + NewLine) == header + (text + Unlines([line]))
  {
    assert [line][1..] == [];
    assert Unlines([line]) == line + NewLine + Unlines([]);
  }

  lemma RowLinesSnoc(rows: seq<seq<int>>, n: nat)
    requires 1 <= n <= |rows|
    ensures RowLines(rows[..n]) == RowLines(rows[..n - 1]) + [RowLine(rows[n - 1])]
  {
    var a, b := RowLines(rows[..n]), RowLines(rows[..n - 1]) + [RowLine(rows[n - 1])];
    forall i | 0 <= i < n ensures a[i] == b[i] {
      assert rows[..n][i] == rows[i];
    }
  }

  lemma EmitRowsStep(header: string, rows: seq<seq<int>>, columns: nat, n: nat)
    requires 1 <= n <= |rows| && forall r :: 0 <= r < |rows| ==> |rows[r]| == columns
    requires 1 <= columns
    requires EmitRows(header, rows, columns, n - 1) == header + Unlines(RowLines(rows[..n - 1]))
    ensures EmitRows(header, rows, columns, n) == header + Unlines(RowLines(rows[..n]))
  {
    var last := rows[n - 1];
    var lines := RowLines(rows[..n - 1]);
    var earlier := EmitRows(header, rows, columns, n - 1);
    calc {
      EmitRows(header, rows, columns, n);
      EmitCells(earlier, CellTexts(last), columns);
      { EmitRow(earlier, CellTexts(last)); }
      earlier + (RowLine(last) + NewLine);
      (header + Unlines(lines)) + (RowLine(last) + NewLine);
      { AppendLine(header, Unlines(lines), RowLine(last)); }
      header + (Unlines(lines) + Unlines([RowLine(last)]));
      { UnlinesAppend(lines, [RowLine(last)]); }
      header + Unlines(lines + [RowLine(last)]);
      { RowLinesSnoc(rows, n); }
      header + Unlines(RowLines(rows[..n]));
    }
  }

  lemma {:induction false} EmitRowsAsLines(header: string, rows: seq<seq<int>>, columns: nat, n: nat)
    requires n <= |rows| && forall r :: 0 <= r < |rows| ==> |rows[r]| == columns
    ensures EmitRows(header, rows, columns, n) == header + if columns == 0 then "" else Unlines(RowLines(rows[..n]))
    decreases n
  {
    if n == 0 {
      assert RowLines(rows[..0]) == [];
    } else {
      EmitRowsAsLines(header, rows, columns, n - 1);
      if columns > 0 {
        EmitRowsStep(header, rows, columns, n);
      } else {
        assert CellTexts(rows[n - 1]) == [];
      }
    }
  }

  /** The three header lines as the serialiser appends them. */
  lemma HeaderText(path: string, tasks: nat, processors: nat)
    ensures "" + (ConfigPrefix + path + "\"" + NewLine)
              + ("ALLOCATIONS-DATA=1," + NatToString(tasks) + "," + NatToString(processors) + NewLine)
              + (AllocationIdLine + NewLine)
         == Unlines([ConfigLine(path), DataLine(true, tasks, processors), AllocationIdLine])
  {
    var a, b, c := ConfigLine(path), DataLine(true, tasks, processors), AllocationIdLine;
    UnlinesThree(a, b, c);
    assert "" + (a + NewLine) + (b + NewLine) + (c + NewLine) == a + "\n" + b + "\n" + c + "\n";
  }

  /** The serialiser's rows appended to the header lines make up the
      allocation document. */
  lemma EmittedDocument(path: string, tasks: nat, processors: nat, rows: seq<seq<int>>)
    requires IsGrid(rows, processors, tasks)
    ensures EmitRows(Unlines([ConfigLine(path), DataLine(true, tasks, processors), AllocationIdLine]), rows, tasks, processors)
         == AllocationDocument(path, tasks, processors, rows)
  {
    var headerLines := [ConfigLine(path), DataLine(true, tasks, processors), AllocationIdLine];
    EmitRowsAsLines(Unlines(headerLines), rows, tasks, processors);
    assert rows[..processors] == rows;
    UnlinesAppend(headerLines, if tasks == 0 then [] else RowLines(rows));
  }

  /** The cell texts of one row of the array, as the reader of the array sees them. */
  lemma RowCells(allocation: array2<int>, row: nat)
    requires row < allocation.Length0
    ensures |CellTexts(Grid(allocation)[row])| == allocation.Length1
    ensures forall c :: 0 <= c < allocation.Length1 ==>
      CellTexts(Grid(allocation)[row])[c] == IntToString(allocation[row, c])
  {
  }

  /** The inner loop of `TaffFileFormat`: appends one processor's row of
      the array, cell by cell, to `prefix`. */
  method AppendRow(allocation: array2<int>, row: nat, ghost cells: seq<string>, prefix: string) returns (taff: string)
    requires row < allocation.Length0 && |cells| == allocation.Length1
    requires forall c :: 0 <= c < |cells| ==> cells[c] == IntToString(allocation[row, c])
    ensures taff == EmitCells(prefix, cells, |cells|)
  {
    var tasks := allocation.Length1;
    taff := prefix + "";
    for column := 0 to tasks
      invariant taff == EmitCells(prefix, cells, column)
    {
      var cell := IntToString(allocation[row, column]);
      assert cell == cells[column];
      if column < tasks - 1 {
        taff := taff + (cell + ",");
      } else {
        taff := taff + (cell + "" + NewLine);
        assert cell + "" == cell;
      }
    }
  }

  /** `TaffFileFormat`: writes the header, then the allocation row by row and
      cell by cell. The text is exactly the allocation document of the
      array's contents. */
  method TaffFileFormat(allocation: array2<int>, cfg: Config) returns (taff: string)
    requires allocation.Length0 == cfg.numberOfProcessors && allocation.Length1 == cfg.numberOfTasks
    ensures taff == AllocationDocument(cfg.filePath, cfg.numberOfTasks, cfg.numberOfProcessors, Grid(allocation))
  {
    var processors, tasks := cfg.numberOfProcessors, cfg.numberOfTasks;
    ghost var rows := Grid(allocation);
    taff := "";
    taff := taff + (ConfigPrefix + cfg.filePath + "\"" + NewLine);
    taff := taff + ("ALLOCATIONS-DATA=1," + NatToString(tasks) + "," + NatToString(processors) + NewLine);
    taff := taff + (AllocationIdLine + NewLine);
    HeaderText(cfg.filePath, tasks, processors);
    ghost var header := taff;

    for row := 0 to processors
      invariant taff == EmitRows(header, rows, tasks, row)
    {
      RowCells(allocation, row);
      taff := AppendRow(allocation, row, CellTexts(rows[row]), taff);
    }
    EmittedDocument(cfg.filePath, tasks, processors, rows);
  }

  /** What a reader of the document finds in it. */
  datatype Document = Document(
    configFile: string,
    hasAllocation: bool,
    tasks: nat,
    processors: nat,
    rows: seq<seq<int>>)

  function ParseConfigLine(line: string): Option<string> {
    if |ConfigPrefix| + 1 <= |line| && line[..|ConfigPrefix|] == ConfigPrefix && line[|line| - 1] == '"'
    then Some(line[|ConfigPrefix|..|line| - 1])
    else None
  }

  function ParseFlag(field: string): Option<bool> {
    if field == "1" then Some(true) else if field == "0" then Some(false) else None
  }

  function ParseDataLine(line: string): Option<(bool, nat, nat)> {
    if |DataPrefix| <= |line| && line[..|DataPrefix|] == DataPrefix then
      var fields := Split(line[|DataPrefix|..], ',');
      if |fields| == 3 then
        match (ParseFlag(fields[0]), ParseNat(fields[1]), ParseNat(fields[2]))
        case (Some(flag), Some(tasks), Some(processors)) => Some((flag, tasks, processors))
        case _ => None
      else None
    else None
  }

  function ParseCells(fields: seq<string>): Option<seq<int>> {
    if fields == [] then Some([])
    else
      match (ParseInt(fields[0]), ParseCells(fields[1..]))
      case (Some(v), Some(rest)) => Some([v] + rest)
      case _ => None
  }

  function ParseRows(lines: seq<string>): Option<seq<seq<int>>> {
    if lines == [] then Some([])
    else
      match (ParseCells(Split(lines[0], ',')), ParseRows(lines[1..]))
      case (Some(row), Some(rest)) => Some([row] + rest)
      case _ => None
  }

  /** Reference reader of the document format: every line must end with a
      line break; a "0" document has only the two header lines, a "1"
      document has the identifier line and then rows of comma-separated
      integers. */
  function ParseDocument(text: string): Option<Document> {
    var fields := Split(text, '\n');
    if fields[|fields| - 1] != "" || |fields| < 3 then None
    else
      var lines := fields[..|fields| - 1];
      match (ParseConfigLine(lines[0]), ParseDataLine(lines[1]))
      case (Some(path), Some((false, tasks, processors))) =>
        if |lines| == 2 then Some(Document(path, false, tasks, processors, [])) else None
      case (Some(path), Some((true, tasks, processors))) =>
        if 3 <= |lines| && lines[2] == AllocationIdLine then
          match ParseRows(lines[3..])
          case Some(rows) => Some(Document(path, true, tasks, processors, rows))
          case None => None
        else None
      case _ => None
  }

  lemma NoLineBreakInNumber(s: string)
    requires forall k :: 0 <= k < |s| ==> s[k] == '-' || IsDigit(s[k])
    ensures '\n' !in s && ',' !in s
  {
    assert forall k :: 0 <= k < |s| ==> s[k] != '\n' && s[k] != ',';
  }

  lemma {:induction false} JoinAvoids(pieces: seq<string>, sep: char, c: char)
    requires c != sep && NoneContains(pieces, c)
    ensures c !in Join(pieces, sep)
    decreases |pieces|
  {
    if |pieces| > 1 {
      JoinAvoids(pieces[1..], sep, c);
    }
  }

  lemma CellTextsAvoid(row: seq<int>)
    ensures NoneContains(CellTexts(row), ',') && NoneContains(CellTexts(row), '\n')
  {
    forall i | 0 <= i < |row| ensures ',' !in CellTexts(row)[i] && '\n' !in CellTexts(row)[i] {
      NoLineBreakInNumber(IntToString(row[i]));
    }
  }

  lemma {:induction false} ParseCellsRoundTrip(row: seq<int>)
    ensures ParseCells(CellTexts(row)) == Some(row)
    decreases |row|
  {
    if row != [] {
      IntToStringRoundTrip(row[0]);
      assert CellTexts(row)[1..] == CellTexts(row[1..]);
      ParseCellsRoundTrip(row[1..]);
      assert [row[0]] + row[1..] == row;
    }
  }

  /** Reading a row line gives back the row's cells. */
  lemma RowLineRoundTrip(row: seq<int>)
    requires 1 <= |row|
    ensures ParseCells(Split(RowLine(row), ',')) == Some(row)
  {
    CellTextsAvoid(row);
    SplitJoin(CellTexts(row), ',');
    ParseCellsRoundTrip(row);
  }

  lemma RowLinesTail(rows: seq<seq<int>>)
    requires rows != []
    ensures RowLines(rows)[0] == RowLine(rows[0]) && RowLines(rows)[1..] == RowLines(rows[1..])
  {
    var a, b := RowLines(rows)[1..], RowLines(rows[1..]);
    forall i | 0 <= i < |b| ensures a[i] == b[i] {
      assert rows[1..][i] == rows[i + 1];
    }
  }

  lemma {:induction false} ParseRowsRoundTrip(rows: seq<seq<int>>)
    requires forall r :: 0 <= r < |rows| ==> 1 <= |rows[r]|
    ensures ParseRows(RowLines(rows)) == Some(rows)
    decreases |rows|
  {
    if rows != [] {
      RowLineRoundTrip(rows[0]);
      RowLinesTail(rows);
      ParseRowsRoundTrip(rows[1..]);
      assert [rows[0]] + rows[1..] == rows;
    }
  }

  function DataFields(hasAllocation: bool, tasks: nat, processors: nat): seq<string> {
    [if hasAllocation then "1" else "0", NatToString(tasks), NatToString(processors)]
  }

  /** The data line is its prefix and the three fields joined by commas. */
  lemma DataLineAsJoin(hasAllocation: bool, tasks: nat, processors: nat)
    ensures DataLine(hasAllocation, tasks, processors)
         == DataPrefix + Join(DataFields(hasAllocation, tasks, processors), ',')
  {
    var flag := if hasAllocation then "1" else "0";
    var t, p := NatToString(tasks), NatToString(processors);
    JoinThree(flag, t, p, ',');
  }

  lemma JoinThree(a: string, b: string, c: string, sep: char)
    ensures Join([a, b, c], sep) == a + [sep] + b + [sep] + c
  {
    assert [a, b, c][1..] == [b, c];
    assert [b, c][1..] == [c];
    assert Join([b, c], sep) == b + [sep] + Join([c], sep);
  }

  lemma ParseDataLineRoundTrip(hasAllocation: bool, tasks: nat, processors: nat)
    ensures ParseDataLine(DataLine(hasAllocation, tasks, processors)) == Some((hasAllocation, tasks, processors))
    ensures '\n' !in DataLine(hasAllocation, tasks, processors)
  {
    var pieces := DataFields(hasAllocation, tasks, processors);
    NoLineBreakInNumber(pieces[0]);
    NoLineBreakInNumber(pieces[1]);
    NoLineBreakInNumber(pieces[2]);
    SplitJoin(pieces, ',');
    NatToStringRoundTrip(tasks);
    NatToStringRoundTrip(processors);
    var line := DataLine(hasAllocation, tasks, processors);
    DataLineAsJoin(hasAllocation, tasks, processors);
    assert line[..|DataPrefix|] == DataPrefix;
    assert line[|DataPrefix|..] == Join(pieces, ',');
    JoinAvoids(pieces, ',', '\n');
    assert '\n' !in DataPrefix;
  }

  lemma ParseConfigLineRoundTrip(path: string)
    requires '\n' !in path
    ensures ParseConfigLine(ConfigLine(path)) == Some(path)
    ensures '\n' !in ConfigLine(path)
  {
    var line := ConfigLine(path);
    assert line[..|ConfigPrefix|] == ConfigPrefix;
    assert line[|ConfigPrefix|..|line| - 1] == path;
  }

  /** The allocation document read back: the configuration path, the flag
      1, both counts and, when there are tasks, every row; with no tasks no
      row line was written, so none is read. */
  lemma AllocationDocumentRoundTrip(path: string, tasks: nat, processors: nat, rows: seq<seq<int>>)
    requires '\n' !in path
    requires IsGrid(rows, processors, tasks)
    ensures ParseDocument(AllocationDocument(path, tasks, processors, rows))
         == Some(Document(path, true, tasks, processors, if tasks == 0 then [] else rows))
  {
    var body := if tasks == 0 then [] else RowLines(rows);
    ParseConfigLineRoundTrip(path);
    ParseDataLineRoundTrip(true, tasks, processors);
    forall i | 0 <= i < |body| ensures '\n' !in body[i] {
      CellTextsAvoid(rows[i]);
      JoinAvoids(CellTexts(rows[i]), ',', '\n');
    }
    if tasks > 0 {
      ParseRowsRoundTrip(rows);
    }
    ReadAllocationLines(ConfigLine(path), DataLine(true, tasks, processors), body,
                        path, tasks, processors, if tasks == 0 then [] else rows);
  }

  /** A document made of a configuration line and a data line with flag 1
      that have no line breaks, the identifier line, and row lines without
      line breaks is read as that allocation. */
  lemma ReadAllocationLines(configLine: string, dataLine: string, body: seq<string>,
                            path: string, tasks: nat, processors: nat, rows: seq<seq<int>>)
    requires '\n' !in configLine && ParseConfigLine(configLine) == Some(path)
    requires '\n' !in dataLine && ParseDataLine(dataLine) == Some((true, tasks, processors))
    requires NoneContains(body, '\n') && ParseRows(body) == Some(rows)
    ensures ParseDocument(Unlines([configLine, dataLine, AllocationIdLine] + body))
         == Some(Document(path, true, tasks, processors, rows))
  {
    var lines := [configLine, dataLine, AllocationIdLine] + body;
    assert '\n' !in AllocationIdLine;
    assert NoneContains(lines, '\n');
    SplitUnlines(lines);
    var fields := Split(Unlines(lines), '\n');
    assert fields[..|fields| - 1] == lines;
    assert lines[3..] == body;
  }

  /** The "no allocation" document read back: the path, the flag 0 and both counts. */
  lemma ZeroAllocationsRoundTrip(cfg: Config)
    requires '\n' !in cfg.filePath
    ensures ParseDocument(ZeroAllocations(cfg))
         == Some(Document(cfg.filePath, false, cfg.numberOfTasks, cfg.numberOfProcessors, []))
  {
    var lines := [ConfigLine(cfg.filePath), DataLine(false, cfg.numberOfTasks, cfg.numberOfProcessors)];
    ParseConfigLineRoundTrip(cfg.filePath);
    ParseDataLineRoundTrip(false, cfg.numberOfTasks, cfg.numberOfProcessors);
    SplitUnlines(lines);
    var fields := Split(Unlines(lines), '\n');
    assert fields[..|fields| - 1] == lines;
  }
}
