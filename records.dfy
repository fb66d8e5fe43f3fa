/** The records core/check_commits.go passes between its steps, the errors
    it returns, and the shape in which the output of a git command reaches
    the core. */
module Records {
  import opened Text
  import opened Semver

  /** A version found for (or computed for) one package. The Go struct holds
      a pointer to a Semver; every version the core stores is a clone that
      nothing mutates afterwards, so the model stores the value. */
  datatype VersionInfo = VersionInfo(package: string, version: Version, commitHash: string)

  /** One target of a run: a subdirectory, or the whole repository. The
      last and next versions are absent until the run has computed them. */
  datatype DirectoryVersionInfo = DirectoryVersionInfo(
    directory: string,
    fullPath: string,
    lastVersion: Option<VersionInfo>,
    nextVersion: Option<VersionInfo>,
    releaseNotes: seq<string>,
    useRoot: bool)

  /** A target as the resolution step creates it, before any version is known. */
  function NewTarget(directory: string, fullPath: string, useRoot: bool): DirectoryVersionInfo
  {
    DirectoryVersionInfo(directory, fullPath, None, None, [], useRoot)
  }

  /** What a git invocation gave back: whether it exited successfully, and
      what it wrote on standard output. */
  datatype CommandOutput = CommandOutput(ok: bool, stdout: string)

  /** What a `git push` gave back. */
  datatype PushOutcome = Pushed | PushFailed(stdout: string, stderr: string)

  /** The errors the core returns, one per `return ..., err` of the source. */
  datatype Error =
    | InvalidFormat                           // a tag line without exactly one comma
    | InvalidVersion(version: string)         // no "%d.%d.%d" at the start of the version
    | NotARepository                          // `git rev-parse --is-inside-work-tree` said no
    | RootDirError                            // `git rev-parse --show-toplevel` failed
    | TagListError(output: string)            // `git for-each-ref` failed
    | TagParseError(line: string, cause: Error)
    | RootCommitError(output: string)         // `git rev-list --max-parents=0` failed
    | HistoryError(output: string)            // `git log` failed
    | TagCreationError(tag: string)           // `git tag` failed
    | PushError(stdout: string, stderr: string)

  datatype Result<+T> = Ok(value: T) | Err(error: Error)
}
