/** The report writers of scm-to-xls.py, reduced to the rows they append to the
    active worksheet. A worksheet is the sequence of its rows, each a sequence
    of cell texts; the workbook, cell styling and saving are not modelled. */
module Writer {
  import opened Text
  import opened Decimal
  import opened Accessor

  type Sheet = seq<seq<string>>

  /** The two writers: `CommitHistoryWriter` and `ImpactStatementWriter`. */
  datatype ReportKind = CommitHistory | ImpactStatement

  const HistoryLabels: seq<string> :=
    ["Commit-ID", "Message", "Author", "E-Mail", "Date", "Changed files"]

  const ImpactLabels: seq<string> :=
    ["Commit-ID", "Message", "Author", "E-Mail", "Date", "Changed files",
     "Affected testcases", "Tested with version"]

  /** The text written to cell A1. */
  function Title(kind: ReportKind): string {
    match kind
    case CommitHistory => "Commit history"
    case ImpactStatement => "Impact statement"
  }

  /** The column labels of the header row. */
  function HeaderLabels(kind: ReportKind): (labels: seq<string>)
    ensures |labels| == if kind == CommitHistory then 6 else 8
    ensures labels[..6] == HistoryLabels
  {
    match kind
    case CommitHistory => HistoryLabels
    case ImpactStatement => ImpactLabels
  }

  /** `write_header` on a fresh worksheet: row 1 holds the title in A1 and the
      generation time (`now`, already rendered) in B1; the labels are appended
      as row 2. */
  function WriteHeader(kind: ReportKind, now: string): (sheet: Sheet)
    ensures |sheet| == 2
    ensures sheet[0] == [Title(kind), "Generated on " + now]
    ensures sheet[1] == HeaderLabels(kind)
  {
    [[Title(kind), "Generated on " + now], HeaderLabels(kind)]
  }

  /** The row appended for one log entry: id, message, author, e-mail, the
      commit time as `str` renders an integer, and the changed files joined by
      newlines. */
  function Row(e: LogEntry): (row: seq<string>)
    ensures |row| == |HistoryLabels|
    ensures row[0] == e.id && row[1] == e.msg && row[2] == e.author && row[3] == e.email
    ensures row[4] == IntToString(e.time) && StringToInt(row[4]) == e.time
    ensures row[5] == "" <==> (e.diff == [] || e.diff == [""])
  {
    var files := Join(e.diff, "\n");
    IntToStringRoundTrip(e.time);
    JoinEmpty(e.diff, "\n");
    [e.id, e.msg, e.author, e.email, IntToString(e.time), files]
  }

  /** The changed-files cell loses nothing: splitting it at the newlines gives
      back the list, for any non-empty list of names free of newlines (which
      every normalised list is). */
  lemma ChangedFilesCellRoundTrip(e: LogEntry)
    requires |e.diff| >= 1
    requires forall i :: 0 <= i < |e.diff| ==> '\n' !in e.diff[i]
    ensures Split(Row(e)[5], '\n') == e.diff
  {
    SplitJoin(e.diff, '\n');
  }

  /** A join with a non-empty separator is empty only for no pieces or one empty piece. */
  lemma JoinEmpty(parts: seq<string>, sep: string)
    requires |sep| > 0
    ensures Join(parts, sep) == "" <==> (parts == [] || parts == [""])
  {
    if |parts| >= 2 {
      assert |Join(parts, sep)| >= |sep|;
    }
  }

  /** `write_data`: one appended row per log entry, in log order. */
  function WriteData(sheet: Sheet, log: seq<LogEntry>): (out: Sheet)
    ensures |out| == |sheet| + |log|
    ensures out[..|sheet|] == sheet
    ensures forall i :: 0 <= i < |log| ==> out[|sheet| + i] == Row(log[i])
    decreases |log|
  {
    if |log| == 0 then sheet else WriteData(sheet + [Row(log[0])], log[1..])
  }

  /** Writing the data in two batches gives the same sheet as writing it at once. */
  lemma {:induction false} WriteDataAppend(sheet: Sheet, a: seq<LogEntry>, b: seq<LogEntry>)
    ensures WriteData(WriteData(sheet, a), b) == WriteData(sheet, a + b)
    decreases |a|
  {
    if |a| > 0 {
      assert (a + b)[1..] == a[1..] + b;
      assert (a + b)[0] == a[0];
      WriteDataAppend(sheet + [Row(a[0])], a[1..], b);
    } else {
      assert a + b == b;
    }
  }

  /** The whole report: header, then the data rows. */
  function Report(kind: ReportKind, now: string, log: seq<LogEntry>): (sheet: Sheet)
    ensures |sheet| == 2 + |log|
    ensures sheet[0] == [Title(kind), "Generated on " + now] && sheet[1] == HeaderLabels(kind)
    ensures forall j :: 0 <= j < |log| ==> sheet[2 + j] == Row(log[j])
  {
    var header := WriteHeader(kind, now);
    var sheet := WriteData(header, log);
    assert sheet[0] == sheet[..2][0] && sheet[1] == sheet[..2][1];
    sheet
  }

  /** The history header is exactly as wide as a data row and labels its cells
      in order; the impact header has two more labels than a data row has
      cells, left for manual completion. */
  lemma HeaderWidths(e: LogEntry)
    ensures |HeaderLabels(CommitHistory)| == |Row(e)|
    ensures |HeaderLabels(ImpactStatement)| == |Row(e)| + 2
    ensures HeaderLabels(ImpactStatement)[..|Row(e)|] == HeaderLabels(CommitHistory)
    ensures HeaderLabels(ImpactStatement)[|Row(e)|..] == ["Affected testcases", "Tested with version"]
  {
  }
}
