# scm-to-xls in Dafny

scm-to-xls exports the history of a Git repository to a spreadsheet. It can
write a commit history (`-H`) or an impact statement (`-I`). This project models
the deterministic core of `scm-to-xls.py` as pure Dafny functions over strings
and sequences, and proves properties about them:

- **Diff-stat normalisation** (`DiffStat`, built on `Text`). `GitAccessor.get_log`
  takes a commit's diff-stat text and turns it into its list of changed files:
  1. it splits the text into lines;
  2. it drops the last (summary) line, if any line exists;
  3. for each remaining line, it keeps the part before the first `|`, stripped
     of whitespace.

  A root commit gets the empty text, so its list is empty.
- **Log entries** (`Accessor`). Each walked commit becomes a `LogEntry`. A log
  has one entry per commit, in walk order.
- **Backend choice** (`Accessor`):
  - `git` selects the Git accessor;
  - `hg` and `svn` fail when the accessor is constructed;
  - any other `--scm` value leaves no accessor.
- **Rows and headers** (`Writer`, with `Decimal` for `str(int)`):
  - a data row has six cells: id, message, author, e-mail, `str(time)`, and the
    changed files joined with `"\n"`;
  - the history header has six labels;
  - the impact header has eight labels, and its first six are the history labels.
- **The driver** (`Cli`):
  - the two configuration checks, run in order: a report kind must be chosen,
    then an output name must be given;
  - the repository path;
  - the output name: `.xlsx` is appended if missing, then the name gets the
    prefix `History-` or `Impacts-` (history wins when both flags are set);
  - the whole run as one function, `Main`, from parsed options to either a
    `RunError` or the file name and rows that would be saved.

What the code does, as modelled:

- A data row has 6 cells in the order id, message, author, e-mail,
  `str(time)`, changed files. The time cell is `str` of the integer commit
  time.
- The label row is appended straight after row 1, which holds the title and
  the generation time.
- The impact header has 8 labels, while data rows have 6 cells.
- An unknown `--scm` value is not rejected up front. The header is written,
  then `write_data` crashes on the missing accessor before anything is saved.
  `Main` reports this as `NoAccessor`.
- A Git repository without commits has an unborn `HEAD`. Reading its target
  when the walk starts (line 39) fails inside `write_data`, after the header
  and before the save. A walk from `HEAD` is never empty otherwise, so `Main`
  reads an empty walk as this case and reports `NoCommits`.

A file path that contains `|` comes out truncated at that bar:
`DiffStat.FileNameStopsAtFirstBar` states this behaviour as written.

## Model

| member | source | states |
|---|---|---|
| Text.Split | scm-to-xls.py:46 | `str.split` with one separator: one piece more than there are separators, no piece contains the separator, and the first piece is exactly the text before the first separator |
| Text.Join | scm-to-xls.py:87 | reference definition of `sep.join(parts)`: the pieces with the separator between neighbours. JoinSplit, SplitJoin and JoinSplitLines tie it to Split and SplitLines |
| Text.JoinSplit | scm-to-xls.py:46 | joining the pieces of a split with the separator gives the original text back |
| Text.SplitJoin | scm-to-xls.py:87 | splitting a `"\n".join` of newline-free pieces recovers the pieces |
| Text.HeadBeforeUnique | scm-to-xls.py:46 | "the text before the first separator" describes one string only |
| Text.SplitLines | scm-to-xls.py:42 | `splitlines`: no line contains a newline, and there are no lines exactly when the text is empty |
| Text.SplitLinesCount | scm-to-xls.py:42 | a non-empty text has one line more than it has newlines before its last character, so a final newline opens no extra line |
| Text.SplitLinesTerminated | scm-to-xls.py:42 | lines that each end in a newline split back into exactly those lines |
| Text.SplitLinesJoin | scm-to-xls.py:42 | newline-joined lines split back into themselves unless the last line is empty |
| Text.JoinSplitLines | scm-to-xls.py:42 | rejoining the lines restores the text, up to its final newline |
| Text.Strip | scm-to-xls.py:46 | `str.strip()`: the result is a slice of the input with no whitespace at either end, and only whitespace (Python's `isspace` set) was removed around it |
| Text.StripUnique | scm-to-xls.py:46 | any trimmed slice with only whitespace around it is the strip: the strip is unique |
| Text.StripContained | scm-to-xls.py:46 | stripping only removes characters and never introduces one |
| Text.StripIdempotent | scm-to-xls.py:46 | stripping twice equals stripping once |
| DiffStat.FileName | scm-to-xls.py:46 | a line's file name has no bar character and no surrounding whitespace |
| DiffStat.FileNameOfHead | scm-to-xls.py:46 | the file name is the strip of the text before the first bar character |
| DiffStat.FileNameContained | scm-to-xls.py:46 | every character of the name comes from its line, so a newline-free line gives a newline-free name |
| DiffStat.DropSummary | scm-to-xls.py:43-44 | the last line is dropped when there is one, and nothing is dropped from an empty list; the rest keep their order |
| DiffStat.FileNames | scm-to-xls.py:46 | the list comprehension: one name per line, in order, name i being the file name of line i |
| DiffStat.ChangedFiles | scm-to-xls.py:40-46 | the empty diff (root commit) gives no files; no name has a bar character, a newline or surrounding whitespace |
| DiffStat.ChangedFilesLines | scm-to-xls.py:42-46 | no lines give no files; otherwise there is one file fewer than lines, which is the number of newlines before the last character; file i is the name on line i |
| DiffStat.ChangedFilesOfLines | scm-to-xls.py:43-46 | for a text with at least one line, the files are the names of all lines except the last |
| DiffStat.ChangedFilesOfStat | scm-to-xls.py:42-46 | for file lines plus a summary, each newline-terminated, exactly the summary is dropped and every file line gives its name, in order |
| DiffStat.ChangedFilesOfUnterminatedStat | scm-to-xls.py:42-46 | the same holds when the summary line has no final newline |
| DiffStat.SingleLineIsSummary | scm-to-xls.py:42-44 | a text of one line, terminated or not, is all summary and gives no files |
| DiffStat.HeadOfStatLine | scm-to-xls.py:46 | on a stat line made of a space, a bar-free name, any whitespace padding, a space, a bar character and counts, the text before the first bar is the padded name |
| DiffStat.StripPadded | scm-to-xls.py:46 | stripping a trimmed name with a space before it and any whitespace after it gives the name |
| DiffStat.FileNameOfStatLine | scm-to-xls.py:46 | a stat line yields its trimmed, bar-free name, whatever alignment padding separates the name from the bar |
| DiffStat.FileNamesOfStatLines | scm-to-xls.py:46 | the names read off formatted stat lines are the names the lines were formatted from, in order |
| DiffStat.ChangedFilesOfStatText | scm-to-xls.py:40-46 | normalising diff-stat text in the full format returns exactly its file names. The names may have different lengths and be padded to line up the bars; the counts and summary are arbitrary text. No part holds a character at which `str.splitlines` breaks a line. This is the parse/format round trip |
| DiffStat.PlainName | scm-to-xls.py:42-46 | reference definition of a name that survives the round trip: no bar character, no character at which `str.splitlines` breaks, no surrounding whitespace |
| DiffStat.FileNameStopsAtFirstBar | scm-to-xls.py:46 | everything from the first bar character on is cut, even a bar inside the file name |
| Decimal.NatToString | scm-to-xls.py:87 | `str` of a natural number: digits only, at least one, and a leading zero only for 0 |
| Decimal.IntToString | scm-to-xls.py:87 | `str` of an integer: a well-formed numeral with a minus sign exactly for negative numbers and a leading zero only for 0 |
| Decimal.NatToStringRoundTrip | scm-to-xls.py:87 | reading the digits back gives the number |
| Decimal.IntToStringRoundTrip | scm-to-xls.py:87 | reading `str(n)` back gives `n` |
| Decimal.IntToStringInjective | scm-to-xls.py:87 | different commit times give different time cells |
| Accessor.SelectBackend | scm-to-xls.py:147-152 | `git`, `hg` and `svn` each select their backend, exactly when the option equals that name; any other value selects none |
| Accessor.SelectBackendName | scm-to-xls.py:147-152 | a backend is selected exactly by its own name |
| Accessor.Open | scm-to-xls.py:59-68 | construction succeeds exactly for Git, on the given path; Hg and Svn fail with "not implemented" for their own backend |
| Accessor.EntryOf | scm-to-xls.py:40-54 | an entry copies id, message, committer name and e-mail, and time; a commit without parents gets no changed files; one with a parent gets the normalised files of its diff-stat |
| Accessor.GetLog | scm-to-xls.py:37-56 | one entry per walked commit, entry i from commit i, so order and count are preserved |
| Accessor.GetLogAppend | scm-to-xls.py:38-56 | the log of two walks in sequence is the two logs in sequence |
| Accessor.EntryOfStat | scm-to-xls.py:40-46 | a commit with a parent whose diff-stat text is formatted, with any alignment padding, from plain names gets exactly those names as its changed files |
| Writer.HeaderLabels | scm-to-xls.py:97-112 | the history header has 6 labels and the impact header 8; both start with the 6 history labels |
| Writer.Title | scm-to-xls.py:99-110 | reference definition of the A1 text: "Commit history" for the history writer (line 99), "Impact statement" for the impact writer (line 110) |
| Writer.WriteHeader | scm-to-xls.py:97-112 | row 1 holds the title and "Generated on" time; row 2 holds the labels; there is nothing else |
| Writer.Row | scm-to-xls.py:87 | a row has as many cells as the history header has labels: id, message, author, e-mail, `str(time)` (which reads back as the time), and a file cell that is empty exactly for `[]` or `[""]` |
| Writer.JoinEmpty | scm-to-xls.py:87 | a newline join is empty only for an empty list or a single empty name |
| Writer.ChangedFilesCellRoundTrip | scm-to-xls.py:87 | splitting the file cell at newlines gives back a non-empty, newline-free file list |
| Writer.WriteData | scm-to-xls.py:83-87 | existing rows are kept; one row is appended per entry, in log order |
| Writer.WriteDataAppend | scm-to-xls.py:86-87 | writing the entries in two batches gives the same sheet as writing them at once |
| Writer.Report | scm-to-xls.py:166-167 | header then data: 2 + n rows, the title row, the label row, then row 2+j is entry j's row |
| Writer.HeaderWidths | scm-to-xls.py:87-112 | the history header is as wide as a data row; the impact header is two labels wider, and the two extra labels are "Affected testcases" and "Tested with version" |
| Cli.Validate | scm-to-xls.py:135-141 | the missing report kind is reported exactly when neither flag is set, before the output name is looked at; the missing output name is reported exactly when a kind is set and the name is absent or empty; the checks pass exactly when a kind is set and a non-empty name is given, and then yield that name |
| Cli.RepoPath | scm-to-xls.py:143 | the path is `--repo` when that is given and non-empty, else the current directory |
| Text.EndsWith | scm-to-xls.py:156 | reference definition of `str.endswith`: the text is at least as long as the suffix, and its last characters are the suffix |
| Cli.WithXlsx | scm-to-xls.py:156-157 | the result ends in `.xlsx`, starts with the given name, is the name followed by `.xlsx` when it does not already end in it, and equals the name exactly when it does |
| Cli.WithXlsxIdempotent | scm-to-xls.py:156-157 | applying the suffix step twice equals applying it once |
| Cli.KindOf | scm-to-xls.py:159-164 | the report is the commit history exactly when `-H` is set, including with `-I`; it is the impact statement only when `-I` alone is set |
| Cli.Prefix | scm-to-xls.py:159-164 | reference definition of the file-name prefix: `History-` for the commit history, `Impacts-` for the impact statement |
| Cli.OutputName | scm-to-xls.py:154-164 | the file name is the kind's 8-character prefix followed by the name with `.xlsx` ensured |
| Cli.OutputNameKind | scm-to-xls.py:159-164 | equal file names mean equal report kinds and equal extended names |
| Cli.Main | scm-to-xls.py:135-168 | no report kind, then no output name, abort the run before anything else. With a valid configuration: `hg`/`svn` fail as unsupported, and any other non-`git` value fails for lack of an accessor. With `git`, a repository without commits (an empty walk) fails because `HEAD` has no target. A run succeeds exactly for a valid configuration with `git` and at least one walked commit. It then reads the resolved repository path. It writes to the name derived from the `-o` value, with the `History-` or `Impacts-` prefix and the `.xlsx` ending. Its first row holds the kind's title and "Generated on" time, its second the kind's labels, and then there is one row per walked commit |
| Cli.DefaultsAbort | scm-to-xls.py:118-137 | with only the option defaults, the run stops at the first check |
| Cli.NamingExamples | scm-to-xls.py:154-164 | `-H -o x` gives `History-x.xlsx`; `-I -o x.xlsx` gives `Impacts-x.xlsx` |

## Left out

- Text.SplitLines: it splits on `'\n'` only. Python's `splitlines` also breaks at `\r`, `\r\n`, `\v`, `\f`, `\x1c` to `\x1e`, `\x85`, U+2028 and U+2029 (`Text.IsLineBreak`). The diff-stat text ends its own lines with `\n`. But the library prints paths unquoted, so a path holding one of the other break characters is split into two lines by the program and not by the model. The round trip `DiffStat.ChangedFilesOfStatText` is stated only for names, padding, counts and summary without any of these characters (`DiffStat.PlainName`, `DiffStat.WellFormedStat`).
- Opening the repository with pygit2 (`Repository`, line 35) is a library call. A path that holds no repository is not modelled.
- The commit walk from `HEAD` in `GIT_SORT_TIME` order (line 39) is a library call. It is an input sequence of commits.
- Computing the diff and its statistics (line 40) is a library call. Each commit carries its diff-stat text.
- `str(c.id)` turns a pygit2 object id into hexadecimal. The id is taken as already rendered. The same goes for `str` of the message, name and e-mail, which are already strings.
- The openpyxl workbook, the active worksheet and `save` (lines 75, 89-90) are spreadsheet I/O. A sheet is modelled as its rows of cell texts, and a successful `Main` returns the file name and rows that would be saved.
- `datetime.now()` (lines 100, 111) and `getcwd()` (line 143) depend on the environment. They become the parameters `now` (already rendered) and `cwd`.
- `print`, `exit(-1)` and `OptionParser` parsing (lines 116-141) are side effects or library code. The parsed options are a record, and each exit is a `RunError`.
- The base-class `RuntimeError`s (lines 28-29, 77-81) cannot be reached from `main`.
- openpyxl checks each cell value as it is stored. That check is library code and is not modelled. It cuts a cell to 32,767 characters, so a large commit's file cell is saved truncated. It raises `IllegalCharacterError` for the control characters `\x00`-`\x08`, `\x0b`, `\x0c` and `\x0e`-`\x1f`. A message, name or file list holding one of them aborts the real run, while `Cli.Main` reports a success with the rows as built.
