/** The repository queries of internal/git/repo.go: whether the working
    directory is inside a work tree, the trimmed output of three
    `git rev-parse` queries, and the location of the git directory, which
    for a linked worktree is named by the `gitdir: <path>` line of a `.git`
    file.

    Running git is the parameter `git`; what `os.Stat` and `os.ReadFile`
    report for the `.git` path is the parameter `stat`. */
module Repo {
  import opened Common
  import opened GoStrings

  datatype RepoError = CommandFailed(run: CmdResult) | StatFailed | ReadFailed

  /** What the file system reports for the `.git` path: it cannot be
      examined, it is a directory, or it is a file whose content is `None`
      when reading it fails. */
  datatype DotGit = Missing | Directory | File(content: Option<string>)

  type Stat = string -> DotGit

  const InsideWorkTreeArgs: seq<string> := ["rev-parse", "--is-inside-work-tree"]
  const ShowTopLevelArgs: seq<string> := ["rev-parse", "--show-toplevel"]
  const CurrentBranchArgs: seq<string> := ["rev-parse", "--abbrev-ref", "HEAD"]
  const HeadCommitArgs: seq<string> := ["rev-parse", "HEAD"]

  /** `IsInsideWorkTree`: true exactly when the query succeeds and its
      output, trimmed, is `true`; any failure reads as false. */
  function IsInsideWorkTree(git: Git): (inside: bool)
    ensures inside ==> git(InsideWorkTreeArgs).Completed?
  {
    match git(InsideWorkTreeArgs)
    case Completed(out) => TrimSpace(out) == "true"
    case _ => false
  }

  /** The output of a successful query with surrounding space removed, or
      the failure as reported. */
  function TrimmedOutput(git: Git, args: seq<string>): (r: Result<string, RepoError>)
    ensures r.Err? <==> !git(args).Completed?
    ensures r.Err? ==> r.error == CommandFailed(git(args))
    ensures r.Ok? ==> IsTrimmed(r.value)
  {
    match git(args)
    case Completed(out) => Ok(TrimSpace(out))
    case run => Err(CommandFailed(run))
  }

  /** `GetRepoRoot`: the top-level directory, as `git` prints it without surrounding space;
      the query's failure is the error. */
  function GetRepoRoot(git: Git): (r: Result<string, RepoError>)
    ensures r.Err? <==> !git(ShowTopLevelArgs).Completed?
    ensures r.Err? ==> r.error == CommandFailed(git(ShowTopLevelArgs))
    ensures r.Ok? ==> IsTrimmed(r.value)
  {
    TrimmedOutput(git, ShowTopLevelArgs)
  }

  /** `GetCurrentBranch`: the abbreviated name of HEAD, as `git` prints it without surrounding space;
      the query's failure is the error. */
  function GetCurrentBranch(git: Git): (r: Result<string, RepoError>)
    ensures r.Err? <==> !git(CurrentBranchArgs).Completed?
    ensures r.Err? ==> r.error == CommandFailed(git(CurrentBranchArgs))
    ensures r.Ok? ==> IsTrimmed(r.value)
  {
    TrimmedOutput(git, CurrentBranchArgs)
  }

  /** `GetHeadCommit`: the SHA of HEAD, as `git` prints it without surrounding space;
      the query's failure is the error. */
  function GetHeadCommit(git: Git): (r: Result<string, RepoError>)
    ensures r.Err? <==> !git(HeadCommitArgs).Completed?
    ensures r.Err? ==> r.error == CommandFailed(git(HeadCommitArgs))
    ensures r.Ok? ==> IsTrimmed(r.value)
  {
    TrimmedOutput(git, HeadCommitArgs)
  }

  /** A query whose output is a value padded with space (typically a line
      end) yields exactly that value. */
  lemma QueryYieldsValue(git: Git, args: seq<string>, lead: string, value: string, trail: string)
    requires AllSpace(lead) && IsTrimmed(value) && AllSpace(trail)
    requires git(args) == Completed(lead + value + trail)
    ensures TrimmedOutput(git, args) == Ok(value)
  {
    TrimSpaceOfPadded(lead, value, trail);
  }

  /** The work-tree query is answered by its output with surrounding space
      removed: inside exactly when that is `true`, so `true\n` is inside and
      `false\n` or any other word is not. */
  lemma InsideWorkTreeAnswers(git: Git, lead: string, value: string, trail: string)
    requires AllSpace(lead) && IsTrimmed(value) && AllSpace(trail)
    requires git(InsideWorkTreeArgs) == Completed(lead + value + trail)
    ensures IsInsideWorkTree(git) <==> value == "true"
  {
    TrimSpaceOfPadded(lead, value, trail);
  }

  /** `filepath.Join(root, ".git")` for the clean paths git reports: `.git`
      alone for an empty root, no doubled separator after a root of `/`. */
  function GitDirPath(root: string): string {
    if root == [] then ".git"
    else if root[|root| - 1] == '/' then root + ".git"
    else root + "/.git"
  }

  /** The joined path is the root followed by `.git`, with exactly one
      separator between them when the root is not empty. */
  lemma GitDirPathShape(root: string)
    ensures var p := GitDirPath(root);
      |p| >= 4 && p[|p| - 4..] == ".git" && p[..|p| - 4] + ".git" == p
      && (root == [] ==> p == ".git")
      && (root != [] ==> p[..|p| - 4] == (if root[|root| - 1] == '/' then root else root + "/"))
  {
    var p := GitDirPath(root);
    assert p[..|p| - 4] + p[|p| - 4..] == p;
  }

  /** `EnsureGitDir`: the `.git` path under the repository root when it is
      a directory; when it is a file, the trimmed text after its first
      `": "`, or the path of the file itself when it has no such separator. */
  function EnsureGitDir(git: Git, stat: Stat): (r: Result<string, RepoError>)
    ensures GetRepoRoot(git).Err? ==> r == Err(GetRepoRoot(git).error)
    ensures GetRepoRoot(git).Ok? && stat(GitDirPath(GetRepoRoot(git).value)).Missing? ==> r == Err(StatFailed)
    ensures GetRepoRoot(git).Ok? && stat(GitDirPath(GetRepoRoot(git).value)) == File(None) ==> r == Err(ReadFailed)
  {
    var root := GetRepoRoot(git);
    if root.Err? then Err(root.error)
    else
      var gitDir := GitDirPath(root.value);
      var info := stat(gitDir);
      if info.Missing? then Err(StatFailed)
      else if info.Directory? then Ok(gitDir)
      else if info.content.None? then Err(ReadFailed)
      else Ok(GitDirNamedBy(info.content.value, gitDir))
  }

  /** The git directory a `.git` file names: the trimmed text after its
      first `": "`, or `fallback` when it has none. */
  function GitDirNamedBy(content: string, fallback: string): (dir: string)
    ensures dir == fallback || IsTrimmed(dir)
    ensures CutColonSpace(content).Some? ==> dir == TrimSpace(CutColonSpace(content).value.1)
    ensures (forall j :: 0 <= j < |content| - 1 ==> !(content[j] == ':' && content[j + 1] == ' ')) ==> dir == fallback
  {
    match CutColonSpace(content)
    case Some((_, after)) => TrimSpace(after)
    case None => fallback
  }

  /** A `.git` directory is the git directory. */
  lemma GitDirOfDirectory(git: Git, stat: Stat, root: string)
    requires GetRepoRoot(git) == Ok(root) && stat(GitDirPath(root)) == Directory
    ensures EnsureGitDir(git, stat) == Ok(GitDirPath(root))
  {
  }

  /** A `.git` file: the git directory is the one the file names. */
  lemma GitDirOfFile(git: Git, stat: Stat, root: string, content: string)
    requires GetRepoRoot(git) == Ok(root) && stat(GitDirPath(root)) == File(Some(content))
    ensures EnsureGitDir(git, stat) == Ok(GitDirNamedBy(content, GitDirPath(root)))
  {
  }

  /** A worktree's `.git` file `gitdir: <path>` names the git directory;
      the path is taken whole, even when it contains `": "` itself. */
  lemma GitDirOfWorktreeFile(git: Git, stat: Stat, root: string, path: string)
    requires GetRepoRoot(git) == Ok(root)
    requires IsTrimmed(path)
    requires stat(GitDirPath(root)) == File(Some("gitdir: " + path + "\n"))
    ensures EnsureGitDir(git, stat) == Ok(path)
  {
    GitDirOfFile(git, stat, root, "gitdir: " + path + "\n");
    GitdirLine(path, GitDirPath(root));
  }

  lemma GitdirLine(path: string, fallback: string)
    requires IsTrimmed(path)
    ensures GitDirNamedBy("gitdir: " + path + "\n", fallback) == path
  {
    var content := "gitdir: " + path + "\n";
    assert content[6] == ':' && content[7] == ' ';
    var cut := CutColonSpace(content);
    assert cut.Some?;
    var (before, after) := cut.value;
    assert before == "gitdir";
    assert content == "gitdir" + ": " + (path + "\n");
    TrimSpaceDropsTrailingSpace(path, "\n");
  }

  /** A `.git` file without the separator falls back to its own path. */
  lemma GitDirOfFileWithoutSeparator(git: Git, stat: Stat, root: string, content: string)
    requires GetRepoRoot(git) == Ok(root)
    requires stat(GitDirPath(root)) == File(Some(content))
    requires forall j :: 0 <= j < |content| - 1 ==> !(content[j] == ':' && content[j + 1] == ' ')
    ensures EnsureGitDir(git, stat) == Ok(GitDirPath(root))
  {
    GitDirOfFile(git, stat, root, content);
    assert CutColonSpace(content).None?;
  }
}
