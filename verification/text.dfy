/** The handful of Python string operations the program relies on, over `string`
    (`seq<char>`): `str.split` with a one-character separator, `sep.join`,
    `str.splitlines` (for `'\n'`-terminated text), `str.strip()` and
    `str.endswith`. */
module Text {

  /** The characters at which Python's `str.splitlines` breaks a line: `\n`,
      `\r`, `\v`, `\f`, `\x1c` to `\x1e`, `\x85`, U+2028 and U+2029. */
  predicate IsLineBreak(c: char) {
    var n := c as int;
    || (0x0A <= n <= 0x0D)
    || (0x1C <= n <= 0x1E)
    || n == 0x85
    || n == 0x2028
    || n == 0x2029
  }

  /** Text in which `str.splitlines` finds no line break. */
  predicate NoLineBreak(s: string) {
    forall c :: c in s ==> !IsLineBreak(c)
  }

  /** Text without line breaks has in particular no `'\n'`. */
  lemma NoLineBreakNoNewline(s: string)
    requires NoLineBreak(s)
    ensures '\n' !in s
  {
    assert IsLineBreak('\n');
  }

  /** Python's `str.isspace` for one character: exactly the code points that
      `str.strip()` with no argument removes. */
  predicate IsSpace(c: char) {
    var n := c as int;
    || (0x09 <= n <= 0x0D)
    || (0x1C <= n <= 0x20)
    || n == 0x85
    || n == 0xA0
    || n == 0x1680
    || (0x2000 <= n <= 0x200A)
    || n == 0x2028
    || n == 0x2029
    || n == 0x202F
    || n == 0x205F
    || n == 0x3000
  }

  predicate AllSpace(s: string) {
    forall k :: 0 <= k < |s| ==> IsSpace(s[k])
  }

  /** Neither end of `s` is whitespace. */
  predicate Trimmed(s: string) {
    s == [] || (!IsSpace(s[0]) && !IsSpace(s[|s| - 1]))
  }

  /** `h` is the part of `s` before the first `sep`: a prefix of `s` free of
      `sep` that ends either at the end of `s` or just before a `sep`. */
  predicate HeadBefore(h: string, s: string, sep: char) {
    && |h| <= |s|
    && h == s[..|h|]
    && sep !in h
    && (|h| == |s| || s[|h|] == sep)
  }

  /** `t` is `s` with the surrounding whitespace removed: a slice of `s` that is
      trimmed and flanked only by whitespace. */
  ghost predicate IsStripOf(t: string, s: string) {
    && Trimmed(t)
    && exists i, j :: 0 <= i <= j <= |s| && t == s[i..j] && AllSpace(s[..i]) && AllSpace(s[j..])
  }

  function Occurrences(s: string, c: char): nat {
    if |s| == 0 then 0 else (if s[0] == c then 1 else 0) + Occurrences(s[1..], c)
  }

  predicate EndsWith(s: string, suffix: string) {
    |suffix| <= |s| && s[|s| - |suffix|..] == suffix
  }

  /** Python's `s.split(sep)` for a one-character `sep`: the pieces between
      consecutive separators, always at least one (possibly empty) piece. */
  function Split(s: string, sep: char): (parts: seq<string>)
    ensures |parts| == Occurrences(s, sep) + 1
    ensures forall i :: 0 <= i < |parts| ==> sep !in parts[i]
    ensures HeadBefore(parts[0], s, sep)
    decreases |s|
  {
    if |s| == 0 then [""]
    else
      var rest := Split(s[1..], sep);
      if s[0] == sep then [""] + rest
      else
        var head := [s[0]] + rest[0];
        assert head == s[..|head|] by {
          assert rest[0] == s[1..][..|rest[0]|];
        }
        [head] + rest[1..]
  }

  /** Python's `sep.join(parts)`. */
  function Join(parts: seq<string>, sep: string): string {
    if |parts| == 0 then ""
    else if |parts| == 1 then parts[0]
    else parts[0] + sep + Join(parts[1..], sep)
  }

  /** Python's `s.splitlines()` for text whose only line break is `'\n'`: the
      lines without their terminators, and no empty line after a final
      newline; the empty text has no lines. */
  function SplitLines(s: string): (lines: seq<string>)
    ensures forall i :: 0 <= i < |lines| ==> '\n' !in lines[i]
    ensures |lines| == 0 <==> |s| == 0
  {
    if |s| == 0 then []
    else if s[|s| - 1] == '\n' then Split(s[..|s| - 1], '\n')
    else Split(s, '\n')
  }

  /** A non-empty text has one line more than it has newlines before its last
      character. */
  lemma SplitLinesCount(s: string)
    requires |s| > 0
    ensures |SplitLines(s)| == Occurrences(s[..|s| - 1], '\n') + 1
  {
    if s[|s| - 1] != '\n' {
      OccurrencesLastOther(s, '\n');
    }
  }

  /** Python's `s.strip()`. */
  function Strip(s: string): (t: string)
    ensures IsStripOf(t, s)
  {
    var l := TrimLeft(s);
    var t := TrimRight(l);
    var i := |s| - |l|;
    assert t == s[i..i + |t|] && s[i + |t|..] == l[|t|..];
    t
  }

  /** `s.lstrip()`: drops the leading whitespace. */
  function TrimLeft(s: string): (r: string)
    ensures |r| <= |s| && r == s[|s| - |r|..]
    ensures AllSpace(s[..|s| - |r|])
    ensures r == [] || !IsSpace(r[0])
    decreases |s|
  {
    if |s| > 0 && IsSpace(s[0]) then
      var r := TrimLeft(s[1..]);
      assert s[..|s| - |r|] == [s[0]] + s[1..][..|s| - 1 - |r|];
      r
    else s
  }

  /** `s.rstrip()`: drops the trailing whitespace. */
  function TrimRight(s: string): (r: string)
    ensures |r| <= |s| && r == s[..|r|]
    ensures AllSpace(s[|r|..])
    ensures r == [] || !IsSpace(r[|r| - 1])
    decreases |s|
  {
    if |s| > 0 && IsSpace(s[|s| - 1]) then
      var r := TrimRight(s[..|s| - 1]);
      assert s[|r|..] == s[..|s| - 1][|r|..] + [s[|s| - 1]];
      r
    else s
  }

  // ---------------------------------------------------------------------------
  // Small facts used above and by the lemmas below.

  lemma {:induction false} OccurrencesAppend(a: string, b: string, c: char)
    ensures Occurrences(a + b, c) == Occurrences(a, c) + Occurrences(b, c)
    decreases |a|
  {
    if |a| > 0 {
      assert (a + b)[1..] == a[1..] + b;
      OccurrencesAppend(a[1..], b, c);
    } else {
      assert a + b == b;
    }
  }

  lemma OccurrencesLastOther(s: string, c: char)
    requires |s| > 0 && s[|s| - 1] != c
    ensures Occurrences(s[..|s| - 1], c) == Occurrences(s, c)
  {
    assert s == s[..|s| - 1] + [s[|s| - 1]];
    OccurrencesAppend(s[..|s| - 1], [s[|s| - 1]], c);
  }

  // ---------------------------------------------------------------------------
  // Split and Join are inverse to each other.

  /** Joining the pieces of a split with the same separator gives the text back. */
  lemma {:induction false} JoinSplit(s: string, sep: char)
    ensures Join(Split(s, sep), [sep]) == s
    decreases |s|
  {
    if |s| > 0 {
      var rest := Split(s[1..], sep);
      JoinSplit(s[1..], sep);
      var parts := Split(s, sep);
      if s[0] == sep {
        assert parts == [""] + rest;
        assert parts[1..] == rest;
        assert Join(parts, [sep]) == "" + [sep] + Join(rest, [sep]);
      } else {
        assert parts == [[s[0]] + rest[0]] + rest[1..];
        assert parts[1..] == rest[1..];
        if |rest| == 1 {
          assert Join(parts, [sep]) == [s[0]] + rest[0];
        } else {
          assert Join(rest, [sep]) == rest[0] + [sep] + Join(rest[1..], [sep]);
          assert Join(parts, [sep]) == [s[0]] + rest[0] + [sep] + Join(rest[1..], [sep]);
        }
      }
    }
  }

  /** A piece free of the separator, followed by the separator, is split off whole. */
  lemma {:induction false} SplitCons(a: string, b: string, sep: char)
    requires sep !in a
    ensures Split(a + [sep] + b, sep) == [a] + Split(b, sep)
    decreases |a|
  {
    var s := a + [sep] + b;
    if |a| == 0 {
      assert s[1..] == b;
    } else {
      assert s[1..] == a[1..] + [sep] + b;
      SplitCons(a[1..], b, sep);
      assert [a[0]] + a[1..] == a;
    }
  }

  /** Text free of the separator splits into itself alone. */
  lemma {:induction false} SplitNoSeparator(a: string, sep: char)
    requires sep !in a
    ensures Split(a, sep) == [a]
    decreases |a|
  {
    if |a| > 0 {
      assert a[0] in a;
      assert forall c :: c in a[1..] ==> c in a;
      SplitNoSeparator(a[1..], sep);
      assert [a[0]] + a[1..] == a;
    }
  }

  /** Splitting a join of separator-free pieces recovers the pieces. */
  lemma {:induction false} SplitJoin(parts: seq<string>, sep: char)
    requires |parts| >= 1
    requires forall i :: 0 <= i < |parts| ==> sep !in parts[i]
    ensures Split(Join(parts, [sep]), sep) == parts
    decreases |parts|
  {
    if |parts| == 1 {
      SplitNoSeparator(parts[0], sep);
    } else {
      SplitJoin(parts[1..], sep);
      SplitCons(parts[0], Join(parts[1..], [sep]), sep);
      assert Join(parts, [sep]) == parts[0] + [sep] + Join(parts[1..], [sep]);
      assert parts == [parts[0]] + parts[1..];
    }
  }

  /** The first piece of a split is uniquely determined: it is the text before
      the first separator. */
  lemma HeadBeforeUnique(h1: string, h2: string, s: string, sep: char)
    requires HeadBefore(h1, s, sep) && HeadBefore(h2, s, sep)
    ensures h1 == h2
  {
  }

  // ---------------------------------------------------------------------------
  // SplitLines and Join with "\n" are inverse to each other.

  /** Lines each followed by a newline split back into exactly those lines. */
  lemma SplitLinesTerminated(lines: seq<string>)
    requires |lines| >= 1
    requires forall i :: 0 <= i < |lines| ==> '\n' !in lines[i]
    ensures SplitLines(Join(lines, "\n") + "\n") == lines
  {
    var s := Join(lines, "\n") + "\n";
    assert s[..|s| - 1] == Join(lines, "\n");
    SplitJoin(lines, '\n');
  }

  /** Lines joined by newlines split back into those lines unless the last one
      is empty (Python drops the empty line after a final newline). */
  lemma SplitLinesJoin(lines: seq<string>)
    requires forall i :: 0 <= i < |lines| ==> '\n' !in lines[i]
    requires |lines| == 0 || lines[|lines| - 1] != ""
    ensures SplitLines(Join(lines, "\n")) == lines
  {
    if |lines| > 0 {
      var s := Join(lines, "\n");
      SplitJoin(lines, '\n');
      JoinEndsWithLast(lines, "\n");
      assert |s| > 0;
      assert s[|s| - 1] != '\n';
    }
  }

  /** A non-empty last piece ends the joined text. */
  lemma {:induction false} JoinEndsWithLast(parts: seq<string>, sep: string)
    requires |parts| >= 1 && parts[|parts| - 1] != ""
    ensures EndsWith(Join(parts, sep), parts[|parts| - 1])
    decreases |parts|
  {
    if |parts| > 1 {
      JoinEndsWithLast(parts[1..], sep);
    }
  }

  /** Re-joining the lines of `s` restores `s`, up to its final newline. */
  lemma JoinSplitLines(s: string)
    ensures Join(SplitLines(s), "\n") + (if |s| > 0 && s[|s| - 1] == '\n' then "\n" else "") == s
  {
    if |s| > 0 {
      if s[|s| - 1] == '\n' {
        JoinSplit(s[..|s| - 1], '\n');
        assert s == s[..|s| - 1] + "\n";
      } else {
        JoinSplit(s, '\n');
      }
    }
  }

  // ---------------------------------------------------------------------------
  // Strip is the one and only way to trim a string.

  /** A non-space character lies at or after the end of an all-space prefix. */
  lemma NotSpaceAfter(s: string, i: int, k: int)
    requires 0 <= i <= |s| && AllSpace(s[..i])
    requires 0 <= k < |s| && !IsSpace(s[k])
    ensures i <= k
  {
    forall m | 0 <= m < i
      ensures IsSpace(s[m])
    {
      assert s[..i][m] == s[m];
    }
  }

  /** A non-space character lies before the start of an all-space suffix. */
  lemma NotSpaceBefore(s: string, j: int, k: int)
    requires 0 <= j <= |s| && AllSpace(s[j..])
    requires 0 <= k < |s| && !IsSpace(s[k])
    ensures k < j
  {
    forall m | j <= m < |s|
      ensures IsSpace(s[m])
    {
      assert s[j..][m - j] == s[m];
    }
  }

  /** Two trimmed slices of `s`, each flanked only by whitespace, are equal. */
  lemma TrimmedSliceUnique(s: string, i: int, j: int, i': int, j': int)
    requires 0 <= i <= j <= |s| && AllSpace(s[..i]) && AllSpace(s[j..]) && Trimmed(s[i..j])
    requires 0 <= i' <= j' <= |s| && AllSpace(s[..i']) && AllSpace(s[j'..]) && Trimmed(s[i'..j'])
    ensures s[i..j] == s[i'..j']
  {
    if i < j && i' < j' {
      assert s[i..j][0] == s[i] && s[i..j][j - i - 1] == s[j - 1];
      assert s[i'..j'][0] == s[i'] && s[i'..j'][j' - i' - 1] == s[j' - 1];
      NotSpaceAfter(s, i, i');
      NotSpaceAfter(s, i', i);
      NotSpaceBefore(s, j, j' - 1);
      NotSpaceBefore(s, j', j - 1);
    } else if i < j {
      assert false;
    } else if i' < j' {
      assert false;
    }
  }

  /** Where `Strip(s)` sits inside `s`. */
  lemma StripBounds(s: string) returns (i: int, j: int)
    ensures 0 <= i <= j <= |s| && AllSpace(s[..i]) && AllSpace(s[j..])
    ensures Strip(s) == s[i..j]
  {
    var l := TrimLeft(s);
    var u := TrimRight(l);
    i := |s| - |l|;
    j := i + |u|;
    assert u == s[i..j];
    assert s[j..] == l[|u|..];
  }

  /** Stripping only removes characters. */
  lemma StripContained(s: string)
    ensures forall c :: c in Strip(s) ==> c in s
  {
    var i, j := StripBounds(s);
    assert forall c :: c in s[i..j] ==> c in s;
  }

  /** Any trimmed slice `s[i..j]` flanked only by whitespace is `Strip(s)`:
      the strip of a string is unique. */
  lemma StripUnique(s: string, i: int, j: int)
    requires 0 <= i <= j <= |s| && AllSpace(s[..i]) && AllSpace(s[j..])
    requires Trimmed(s[i..j])
    ensures s[i..j] == Strip(s)
  {
    var i', j' := StripBounds(s);
    TrimmedSliceUnique(s, i, j, i', j');
  }

  /** Stripping twice is stripping once. */
  lemma StripIdempotent(s: string)
    ensures Strip(Strip(s)) == Strip(s)
  {
    var t := Strip(s);
    assert t == t[0..|t|] && t[..0] == [] && t[|t|..] == [];
    StripUnique(t, 0, |t|);
  }
}
