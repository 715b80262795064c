/** The command-line driver `main` of scm-to-xls.py once `OptionParser` has
    produced its options: the two configuration checks, the repository path,
    the backend choice, the output file name, and the writer run
    header -> data -> save. Printing, `exit(-1)`, the clock and the working
    directory are not modelled as effects: the current directory and the
    rendered current time are inputs, and each exit becomes a `RunError`. */
module Cli {
  import opened Results
  import opened Text
  import opened Accessor
  import opened Writer

  /** The parsed options. `outfile` and `repo` are `None` when not given;
      `impact` and `history` are the `store_true` flags; `scm` defaults to `"git"`. */
  datatype Options = Options(
    outfile: Option<string>,
    scm: string,
    impact: bool,
    history: bool,
    repo: Option<string>)

  /** Why a run produces no spreadsheet. */
  datatype RunError =
    | NoReportKind                  // neither -I nor -H: the run cannot tell which report to write
    | NoOutfile                     // -o missing or empty: no output name to save to
    | Unsupported(backend: Backend) // hg / svn: NotImplementedError at construction
    | NoAccessor                    // any other --scm: the accessor stays None and write_data fails
    | NoCommits                     // git on a repository without commits: HEAD has no target, so get_log fails

  /** What a successful run writes: the spreadsheet's file name and rows, and
      the repository path the Git accessor was opened on. */
  datatype Export = Export(repoPath: string, filename: string, sheet: Sheet)

  /** The option values when only the defaults apply. */
  const Defaults := Options(None, "git", false, false, None)

  /** The two configuration checks, in program order; on success, the output
      name given on the command line. */
  function Validate(o: Options): (r: Result<string, RunError>)
    ensures r == Failure(NoReportKind) <==> !o.history && !o.impact
    ensures r == Failure(NoOutfile) <==> (o.history || o.impact) && (o.outfile == None || o.outfile == Some(""))
    ensures r.Success? <==> (o.history || o.impact) && o.outfile.Some? && o.outfile.value != ""
    ensures r.Success? ==> o.outfile == Some(r.value)
  {
    if !o.history && !o.impact then Failure(NoReportKind)
    else if o.outfile.None? || o.outfile.value == "" then Failure(NoOutfile)
    else Success(o.outfile.value)
  }

  /** The repository location: `--repo` when given and non-empty, else the
      current directory. */
  function RepoPath(o: Options, cwd: string): (path: string)
    ensures path == cwd || o.repo == Some(path)
    ensures o.repo == None || o.repo == Some("") ==> path == cwd
    ensures o.repo.Some? && o.repo.value != "" ==> path == o.repo.value
  {
    if o.repo.Some? && o.repo.value != "" then o.repo.value else cwd
  }

  /** Appends `.xlsx` unless the name already ends with it. */
  function WithXlsx(name: string): (r: string)
    ensures !EndsWith(name, ".xlsx") ==> r == name + ".xlsx"
    ensures EndsWith(r, ".xlsx")
    ensures |name| <= |r| <= |name| + 5 && r[..|name|] == name
    ensures r == name <==> EndsWith(name, ".xlsx")
  {
    if EndsWith(name, ".xlsx") then name else name + ".xlsx"
  }

  /** Adding the extension is idempotent: a second application changes nothing. */
  lemma WithXlsxIdempotent(name: string)
    ensures WithXlsx(WithXlsx(name)) == WithXlsx(name)
  {
  }

  /** The report kind: history whenever `-H` is given, even together with `-I`. */
  function KindOf(o: Options): (kind: ReportKind)
    requires o.history || o.impact
    ensures kind == CommitHistory <==> o.history
    ensures kind == ImpactStatement <==> !o.history && o.impact
  {
    if o.history then CommitHistory else ImpactStatement
  }

  function Prefix(kind: ReportKind): string {
    match kind
    case CommitHistory => "History-"
    case ImpactStatement => "Impacts-"
  }

  /** The file name the writer saves to: the kind's prefix, then the given
      name with `.xlsx` ensured. */
  function OutputName(kind: ReportKind, outfile: string): (name: string)
    ensures |name| >= 8 && name[..8] == Prefix(kind)
    ensures name[8..] == WithXlsx(outfile) && EndsWith(name, ".xlsx")
  {
    Prefix(kind) + WithXlsx(outfile)
  }

  /** The two prefixes differ, so the file name tells the report kind. */
  lemma OutputNameKind(k1: ReportKind, k2: ReportKind, a: string, b: string)
    requires OutputName(k1, a) == OutputName(k2, b)
    ensures k1 == k2 && WithXlsx(a) == WithXlsx(b)
  {
    assert OutputName(k1, a)[..8] == OutputName(k2, b)[..8];
  }

  /** One run of `main`. `walk` stands for the commits pygit2 walks from `HEAD`
      in the repository at the resolved path; `now` is the rendered generation
      time. A walk from `HEAD` always holds at least the commit `HEAD` names, so
      an empty walk stands for a repository without commits, whose unborn
      `HEAD` makes `get_log` fail after the header is written and before
      anything is saved. */
  function Main(o: Options, cwd: string, now: string, walk: seq<Commit>): (r: Result<Export, RunError>)
    ensures !o.history && !o.impact ==> r == Failure(NoReportKind)
    ensures (o.history || o.impact) && (o.outfile == None || o.outfile == Some("")) ==> r == Failure(NoOutfile)
    ensures Validate(o).Success? && SelectBackend(o.scm) == Some(Hg) ==> r == Failure(Unsupported(Hg))
    ensures Validate(o).Success? && SelectBackend(o.scm) == Some(Svn) ==> r == Failure(Unsupported(Svn))
    ensures Validate(o).Success? && SelectBackend(o.scm) == None ==> r == Failure(NoAccessor)
    ensures Validate(o).Success? && o.scm == "git" && |walk| == 0 ==> r == Failure(NoCommits)
    ensures r.Success? <==> Validate(o).Success? && o.scm == "git" && |walk| > 0
    ensures r.Success? ==> && r.value.repoPath == RepoPath(o, cwd)
                           && EndsWith(r.value.filename, ".xlsx")
                           && (o.history ==> "History-" <= r.value.filename)
                           && (!o.history ==> "Impacts-" <= r.value.filename)
                           && |r.value.sheet| == 2 + |walk|
                           && r.value.sheet[1] == HeaderLabels(if o.history then CommitHistory else ImpactStatement)
    ensures r.Success? ==> && o.outfile.Some?
                           && r.value.filename == OutputName(KindOf(o), o.outfile.value)
                           && r.value.sheet[0] == [Title(KindOf(o)), "Generated on " + now]
    ensures r.Success? ==> forall j :: 0 <= j < |walk| ==> r.value.sheet[2 + j] == Row(EntryOf(walk[j]))
  {
    var outfile :- Validate(o);
    var path := RepoPath(o, cwd);
    var backend := SelectBackend(o.scm);
    if backend.None? then
      Failure(NoAccessor)
    else
      match Open(backend.value, path)
      case Failure(NotImplemented(b)) => Failure(Unsupported(b))
      case Success(accessor) =>
        if |walk| == 0 then
          Failure(NoCommits)
        else
          var kind := KindOf(o);
          var filename := OutputName(kind, outfile);
          Success(Export(accessor.repoPath, filename, Report(kind, now, GetLog(walk))))
  }

  /** With the defaults only, the run stops at the first check. */
  lemma DefaultsAbort(cwd: string, now: string, walk: seq<Commit>)
    ensures Main(Defaults, cwd, now, walk) == Failure(NoReportKind)
  {
  }

  /** `-H -o x` names the file `History-x.xlsx`; `-I -o x.xlsx` names it
      `Impacts-x.xlsx`, without a second extension. */
  lemma NamingExamples()
    ensures OutputName(CommitHistory, "x") == "History-x.xlsx"
    ensures OutputName(ImpactStatement, "x.xlsx") == "Impacts-x.xlsx"
  {
    assert EndsWith("x.xlsx", ".xlsx");
    assert !EndsWith("x", ".xlsx");
  }
}
