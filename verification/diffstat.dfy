/** Normalisation of a commit's diff-stat text into the list of changed file
    names (`GitAccessor.get_log` in scm-to-xls.py).

    The text has one line per changed file, shaped `<name> | <count> <bars>`,
    and ends with a summary line (`N files changed, ...`). The program splits
    the text into lines, drops the last line whenever there is one, and keeps
    the part of each remaining line before the first `|`, with the surrounding
    whitespace stripped. */
module DiffStat {
  import opened Text

  /** The bare file name on one diff-stat line: the first piece of the line
      split at `|`, with the surrounding whitespace stripped. */
  function FileName(line: string): (name: string)
    ensures '|' !in name && Trimmed(name)
  {
    var h := Split(line, '|')[0];
    StripContained(h);
    Strip(h)
  }

  /** A name only keeps characters of its line; in particular it has no
      newline when its line has none. */
  lemma FileNameContained(line: string)
    ensures forall c :: c in FileName(line) ==> c in line
  {
    var h := Split(line, '|')[0];
    StripContained(h);
    assert forall c :: c in h ==> c in line;
  }

  /** The name is the strip of the text before the first `|`, whichever way
      that text is singled out. */
  lemma FileNameOfHead(line: string, h: string)
    requires HeadBefore(h, line, '|')
    ensures FileName(line) == Strip(h)
  {
    HeadBeforeUnique(h, Split(line, '|')[0], line, '|');
  }

  /** Drops the trailing summary line, but only when there is at least one
      line; an empty list stays empty. */
  function DropSummary(lines: seq<string>): (kept: seq<string>)
    ensures |kept| == if |lines| == 0 then 0 else |lines| - 1
    ensures kept == lines[..|kept|]
  {
    if |lines| >= 1 then lines[..|lines| - 1] else lines
  }

  /** The names of a list of diff-stat lines, one per line, in order. */
  function FileNames(lines: seq<string>): (names: seq<string>)
    ensures |names| == |lines|
    ensures forall i :: 0 <= i < |lines| ==> names[i] == FileName(lines[i])
  {
    seq(|lines|, i requires 0 <= i < |lines| => FileName(lines[i]))
  }

  /** The changed-files list of a commit whose diff-stat text is `diff`. Its
      length is the number of line breaks before the last character, one name
      per file line in order, each free of `|`, of newlines and of surrounding
      whitespace. */
  function ChangedFiles(diff: string): (files: seq<string>)
    ensures |diff| == 0 ==> files == []
    ensures forall i :: 0 <= i < |files| ==> '|' !in files[i] && '\n' !in files[i] && Trimmed(files[i])
  {
    var lines := DropSummary(SplitLines(diff));
    var files := FileNames(lines);
    assert forall i :: 0 <= i < |files| ==> '\n' !in files[i] by {
      forall i | 0 <= i < |files|
        ensures '\n' !in files[i]
      {
        FileNameContained(lines[i]);
      }
    }
    files
  }

  /** One name per line except the last, so exactly one fewer than the lines
      (never fewer than none), which is the number of line breaks before the
      last character; name i comes from line i. */
  lemma ChangedFilesLines(diff: string)
    ensures var files, lines := ChangedFiles(diff), SplitLines(diff);
      && (|lines| == 0 ==> |files| == 0)
      && (|lines| > 0 ==> |files| == |lines| - 1)
      && (|diff| > 0 ==> |files| == Occurrences(diff[..|diff| - 1], '\n'))
      && forall i :: 0 <= i < |files| ==> files[i] == FileName(lines[i])
  {
    if |diff| > 0 {
      SplitLinesCount(diff);
    }
  }

  /** Appending a newline-free line keeps the lines newline-free, and the
      appended line is the last one. */
  lemma AppendLine(lines: seq<string>, last: string)
    requires forall i :: 0 <= i < |lines| ==> '\n' !in lines[i]
    requires '\n' !in last
    ensures forall i :: 0 <= i < |lines| + 1 ==> '\n' !in (lines + [last])[i]
    ensures (lines + [last])[..|lines|] == lines
  {
  }

  /** The changed files of a text with at least one line are the names of all
      lines but the last. */
  lemma ChangedFilesOfLines(diff: string, lines: seq<string>)
    requires SplitLines(diff) == lines && |lines| >= 1
    ensures ChangedFiles(diff) == FileNames(lines[..|lines| - 1])
  {
  }

  /** For diff-stat text made of file lines and a summary line, each ending in a
      newline, exactly the summary is dropped and every file line is kept. */
  lemma ChangedFilesOfStat(fileLines: seq<string>, summary: string)
    requires forall i :: 0 <= i < |fileLines| ==> '\n' !in fileLines[i]
    requires '\n' !in summary
    ensures ChangedFiles(Join(fileLines + [summary], "\n") + "\n") == FileNames(fileLines)
  {
    var lines := fileLines + [summary];
    AppendLine(fileLines, summary);
    SplitLinesTerminated(lines);
    ChangedFilesOfLines(Join(lines, "\n") + "\n", lines);
  }

  /** The same holds when the summary line has no final newline. */
  lemma ChangedFilesOfUnterminatedStat(fileLines: seq<string>, summary: string)
    requires forall i :: 0 <= i < |fileLines| ==> '\n' !in fileLines[i]
    requires '\n' !in summary && summary != ""
    ensures ChangedFiles(Join(fileLines + [summary], "\n")) == FileNames(fileLines)
  {
    var lines := fileLines + [summary];
    AppendLine(fileLines, summary);
    SplitLinesJoin(lines);
    ChangedFilesOfLines(Join(lines, "\n"), lines);
  }

  /** A single line, terminated or not, is taken for the summary: no file survives. */
  lemma SingleLineIsSummary(line: string)
    requires '\n' !in line
    ensures ChangedFiles(line) == []
    ensures ChangedFiles(line + "\n") == []
  {
    SplitLinesTerminated([line]);
  }

  /** Whitespace holds no bar. */
  lemma NoBarInSpace(pad: string)
    requires AllSpace(pad)
    ensures '|' !in pad
  {
  }

  /** On a line ` <name><pad> | <counts>`, the text before the first bar is the
      padded name. */
  lemma HeadOfStatLine(name: string, pad: string, counts: string)
    requires '|' !in name && AllSpace(pad)
    ensures HeadBefore(" " + name + pad + " ", " " + name + pad + " | " + counts, '|')
  {
    NoBarInSpace(pad);
    var line := " " + name + pad + " | " + counts;
    var h := " " + name + pad + " ";
    assert line == h + "|" + (" " + counts);
    assert line[..|h|] == h;
  }

  /** Stripping a trimmed name with one space before it and whitespace after
      it gives the name. */
  lemma StripPadded(name: string, pad: string)
    requires Trimmed(name) && AllSpace(pad)
    ensures Strip(" " + name + pad + " ") == name
  {
    var h := " " + name + pad + " ";
    assert h[1..1 + |name|] == name && h[..1] == " " && h[1 + |name|..] == pad + " ";
    StripUnique(h, 1, 1 + |name|);
  }

  /** A file line of the usual shape yields the name before the bar, however
      far the bar is pushed out by the alignment padding. */
  lemma FileNameOfStatLine(name: string, pad: string, counts: string)
    requires '|' !in name && Trimmed(name) && AllSpace(pad)
    ensures FileName(StatLine(name, pad, counts)) == name
  {
    HeadOfStatLine(name, pad, counts);
    FileNameOfHead(StatLine(name, pad, counts), " " + name + pad + " ");
    StripPadded(name, pad);
  }

  /** A name as it can appear on a diff-stat line and come back intact. */
  predicate PlainName(name: string) {
    '|' !in name && NoLineBreak(name) && Trimmed(name)
  }

  /** One file line of the full diff-stat format, ` <name><pad> | <counts>`.
      The library pads every name with spaces to the width of the widest one,
      so that the bars line up; `pad` is that padding. */
  function StatLine(name: string, pad: string, counts: string): string {
    " " + name + pad + " | " + counts
  }

  /** A stat line built from line-break-free parts is one line. */
  lemma StatLineNoNewline(name: string, pad: string, counts: string)
    requires NoLineBreak(name) && NoLineBreak(pad) && NoLineBreak(counts)
    ensures '\n' !in StatLine(name, pad, counts)
  {
    NoLineBreakNoNewline(name);
    NoLineBreakNoNewline(pad);
    NoLineBreakNoNewline(counts);
  }

  /** Diff-stat text in the library's full format: one line per file, then the
      summary line, each ended by a newline. */
  function StatText(names: seq<string>, pads: seq<string>, counts: seq<string>, summary: string): string
    requires |names| == |pads| == |counts|
  {
    Join(StatLines(names, pads, counts) + [summary], "\n") + "\n"
  }

  /** The file lines of formatted diff-stat text, one per name, in order. */
  function StatLines(names: seq<string>, pads: seq<string>, counts: seq<string>): (lines: seq<string>)
    requires |names| == |pads| == |counts|
    ensures |lines| == |names|
    ensures forall i :: 0 <= i < |names| ==> lines[i] == StatLine(names[i], pads[i], counts[i])
  {
    seq(|names|, i requires 0 <= i < |names| => StatLine(names[i], pads[i], counts[i]))
  }

  /** The names read off formatted file lines are the names they were formatted from. */
  lemma FileNamesOfStatLines(names: seq<string>, pads: seq<string>, counts: seq<string>)
    requires WellFormedStat(names, pads, counts, "")
    ensures forall i :: 0 <= i < |names| ==> '\n' !in StatLines(names, pads, counts)[i]
    ensures FileNames(StatLines(names, pads, counts)) == names
  {
    var lines := StatLines(names, pads, counts);
    forall i | 0 <= i < |lines|
      ensures '\n' !in lines[i] && FileName(lines[i]) == names[i]
    {
      FileNameOfStatLine(names[i], pads[i], counts[i]);
      StatLineNoNewline(names[i], pads[i], counts[i]);
    }
  }

  /** The conditions under which formatted diff-stat text gives its names back:
      plain names, and whitespace padding, counts and summary in which
      `str.splitlines` finds no line break. */
  predicate WellFormedStat(names: seq<string>, pads: seq<string>, counts: seq<string>, summary: string) {
    && |names| == |pads| == |counts|
    && (forall i :: 0 <= i < |names| ==> PlainName(names[i]) && AllSpace(pads[i]) && NoLineBreak(pads[i]))
    && (forall i :: 0 <= i < |counts| ==> NoLineBreak(counts[i]))
    && NoLineBreak(summary)
  }

  /** Normalising formatted diff-stat text gives back exactly the file names. */
  lemma ChangedFilesOfStatText(names: seq<string>, pads: seq<string>, counts: seq<string>, summary: string)
    requires WellFormedStat(names, pads, counts, summary)
    ensures ChangedFiles(StatText(names, pads, counts, summary)) == names
  {
    var lines := StatLines(names, pads, counts);
    FileNamesOfStatLines(names, pads, counts);
    NoLineBreakNoNewline(summary);
    ChangedFilesOfStat(lines, summary);
  }

  /** Everything from the first `|` on is cut, even when that bar belongs to
      the file name itself: a path containing `|` is reported truncated. */
  lemma FileNameStopsAtFirstBar(name: string, rest: string)
    requires '|' !in name && Trimmed(name)
    ensures FileName(name + "|" + rest) == name
  {
    var line := name + "|" + rest;
    assert line[..|name|] == name && line[|name|] == '|';
    FileNameOfHead(line, name);
    assert name[0..|name|] == name && name[..0] == [] && name[|name|..] == [];
    StripUnique(name, 0, |name|);
  }
}
