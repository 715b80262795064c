/** The `ScmAccessor` classes of scm-to-xls.py: the backend choice, the
    construction of an accessor, and `GitAccessor`'s conversion of walked
    commits into log entries. The commit walk itself (pygit2's `walk` from `HEAD` in
    commit-time order) and the diff-stat computation are library calls; the
    walk is an input sequence here and each commit carries its diff-stat text. */
module Accessor {
  import opened Results
  import opened Text
  import opened DiffStat

  /** One commit as the walk presents it. `stats` is the full-format diff-stat
      text of the commit against its first parent; it is only looked at when
      the commit has a parent. */
  datatype Commit = Commit(
    id: string,
    message: string,
    committerName: string,
    committerEmail: string,
    commitTime: int,
    parents: seq<string>,
    stats: string)

  /** `LogEntry`: what the accessor hands to the writer for each commit. */
  datatype LogEntry = LogEntry(
    id: string,
    msg: string,
    author: string,
    email: string,
    time: int,
    diff: seq<string>)

  /** The three backend kinds the `--scm` option names. */
  datatype Backend = Git | Hg | Svn

  /** A constructed accessor; only the Git one can be built. */
  datatype Accessor = GitAccessor(repoPath: string)

  /** The "not implemented" error that the Hg and Svn constructors raise. */
  datatype AccessorError = NotImplemented(backend: Backend)

  /** The `--scm` value that names each backend. */
  function BackendName(b: Backend): string {
    match b
    case Git => "git"
    case Hg => "hg"
    case Svn => "svn"
  }

  /** The `if/elif` chain over `options.scm`: a known name selects its backend,
      anything else selects none and leaves the accessor unset. */
  function SelectBackend(scm: string): (b: Option<Backend>)
    ensures b == Some(Git) <==> scm == "git"
    ensures b == Some(Hg) <==> scm == "hg"
    ensures b == Some(Svn) <==> scm == "svn"
    ensures b.Some? ==> BackendName(b.value) == scm
  {
    if scm == "git" then Some(Git)
    else if scm == "hg" then Some(Hg)
    else if scm == "svn" then Some(Svn)
    else None
  }

  /** Selection recognises exactly the three backend names. */
  lemma SelectBackendName(b: Backend, scm: string)
    ensures SelectBackend(scm) == Some(b) <==> scm == BackendName(b)
  {
  }

  /** Constructing the accessor for a backend: only Git yields one, the other
      two fail at construction rather than later with an empty log. */
  function Open(b: Backend, repoPath: string): (r: Result<Accessor, AccessorError>)
    ensures r.Success? <==> b == Git
    ensures r.Success? ==> r.value.repoPath == repoPath
    ensures r.Failure? ==> r.error == NotImplemented(b)
  {
    match b
    case Git => Success(GitAccessor(repoPath))
    case Hg => Failure(NotImplemented(Hg))
    case Svn => Failure(NotImplemented(Svn))
  }

  /** The log entry of one commit: its metadata, and the changed files taken
      from its diff-stat text, or from the empty text for a root commit. */
  function EntryOf(c: Commit): (e: LogEntry)
    ensures e.id == c.id && e.msg == c.message && e.time == c.commitTime
    ensures e.author == c.committerName && e.email == c.committerEmail
    ensures |c.parents| == 0 ==> e.diff == []
    ensures |c.parents| > 0 ==> e.diff == ChangedFiles(c.stats)
    ensures forall i :: 0 <= i < |e.diff| ==> '|' !in e.diff[i] && '\n' !in e.diff[i] && Trimmed(e.diff[i])
  {
    var diff := if |c.parents| > 0 then c.stats else "";
    LogEntry(c.id, c.message, c.committerName, c.committerEmail, c.commitTime, ChangedFiles(diff))
  }

  /** `GitAccessor.get_log`: one entry per walked commit, in walk order. */
  function GetLog(walk: seq<Commit>): (log: seq<LogEntry>)
    ensures |log| == |walk|
    ensures forall i :: 0 <= i < |walk| ==> log[i] == EntryOf(walk[i])
  {
    if |walk| == 0 then [] else [EntryOf(walk[0])] + GetLog(walk[1..])
  }

  /** The log of a concatenated walk is the concatenation of the logs. */
  lemma {:induction false} GetLogAppend(a: seq<Commit>, b: seq<Commit>)
    ensures GetLog(a + b) == GetLog(a) + GetLog(b)
    decreases |a|
  {
    if |a| > 0 {
      assert (a + b)[1..] == a[1..] + b;
      GetLogAppend(a[1..], b);
    } else {
      assert a + b == b;
    }
  }

  /** A commit with a parent whose diff-stat text is formatted from names
      gets exactly those names as its changed files. */
  lemma EntryOfStat(c: Commit, names: seq<string>, pads: seq<string>, counts: seq<string>, summary: string)
    requires WellFormedStat(names, pads, counts, summary)
    requires |c.parents| > 0 && c.stats == StatText(names, pads, counts, summary)
    ensures EntryOf(c).diff == names
  {
    ChangedFilesOfStatText(names, pads, counts, summary);
  }
}
