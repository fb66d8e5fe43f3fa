/** The commit-history step (AnalyzeCommits in core/check_commits.go):
    classify the subject lines git reports since the last release, keep
    the highest severity and the lines as release notes, and bump a clone
    of the last version. */
module Analyze {
  import opened Text
  import opened Semver
  import opened Records
  import opened Classify

  /** The path `git log` is limited to: "./" for the repository root, else
      the directory without trailing '/', else (when that is empty) the
      full path without trailing '/'. */
  function PackagePath(dir: DirectoryVersionInfo): (path: string)
    ensures dir.useRoot ==> path == "./"
    ensures !dir.useRoot && TrimRight(dir.directory, "/") != "" ==> path == TrimRight(dir.directory, "/")
    ensures !dir.useRoot && TrimRight(dir.directory, "/") == "" ==> path == TrimRight(dir.fullPath, "/")
  {
    var packagePath := if dir.useRoot then "./" else TrimRight(dir.directory, "/");
    if packagePath == "" then TrimRight(dir.fullPath, "/") else packagePath
  }

  /** The highest severity among the subject lines, as the loop of
      AnalyzeCommits keeps it (NotConventional for no lines). */
  function Highest(lines: seq<string>): CommitType
  {
    if lines == [] then NotConventional
    else MaxType(Highest(lines[..|lines| - 1]), AnalyzeCommitMessage(Last(lines)))
  }

  /** The highest severity is at least that of every line, and that of one
      of them when there are lines. */
  lemma {:induction false} HighestBounds(lines: seq<string>)
    ensures forall k :: 0 <= k < |lines| ==> AnalyzeCommitMessage(lines[k]).Level() <= Highest(lines).Level()
    ensures lines != [] ==> exists k :: 0 <= k < |lines| && Highest(lines) == AnalyzeCommitMessage(lines[k])
  {
    if lines != [] {
      var before := lines[..|lines| - 1];
      var last := |lines| - 1;
      HighestBounds(before);
      assert forall k :: 0 <= k < |before| ==> lines[k] == before[k];
      var h := Highest(before);
      if Highest(lines) != AnalyzeCommitMessage(lines[last]) {
        // with no earlier line the maximum is the last line's severity
        assert Highest(lines) == h && before != [];
        var k :| 0 <= k < |before| && h == AnalyzeCommitMessage(before[k]);
        assert Highest(lines) == AnalyzeCommitMessage(lines[k]);
      }
    }
  }

  /** The range of history to read: every commit after the last release. */
  function Range(last: VersionInfo): string
  {
    last.commitHash + "..HEAD"
  }

  /** The target once AnalyzeCommits has succeeded on the given subject
      lines (newest first, as git lists them). */
  function Analyzed(dir: DirectoryVersionInfo, lines: seq<string>, preRelease: string, build: string): DirectoryVersionInfo
    requires dir.lastVersion.Some?
  {
    var last := dir.lastVersion.value;
    var notes := NonEmpty(lines);
    dir.(nextVersion := Some(VersionInfo(last.package, Bumped(last.version, Highest(notes), preRelease, build), "")),
         releaseNotes := notes)
  }

  /** The loop of AnalyzeCommits over git's lines: empty lines are skipped,
      every other line is classified, raises the running maximum, and is
      kept as a release note. */
  method ScanCommits(lines: seq<string>) returns (highest: CommitType, releaseNotesItems: seq<string>)
    ensures releaseNotesItems == NonEmpty(lines)
    ensures highest == Highest(releaseNotesItems)
  {
    highest := NotConventional;
    releaseNotesItems := [];
    var i := 0;
    while i < |lines|
      invariant 0 <= i <= |lines|
      invariant releaseNotesItems == NonEmpty(lines[..i])
      invariant highest == Highest(releaseNotesItems)
    {
      var line := lines[i];
      assert lines[..i + 1][..i] == lines[..i] && Last(lines[..i + 1]) == line;
      if |line| != 0 {
        var commitType := AnalyzeCommitMessage(line);
        if commitType.Level() > highest.Level() {
          highest := commitType;
        }
        releaseNotesItems := releaseNotesItems + [line];
        assert releaseNotesItems[..|releaseNotesItems| - 1] == NonEmpty(lines[..i]);
      }
      i := i + 1;
    }
    assert lines[..i] == lines;
  }

  /** AnalyzeCommits, with `git log --pretty=format:%s <range> -- <path>`
      given as the function gitLog from range and path to its output. On
      success the target gets its next version (with the last version's
      package and an empty hash) and its release notes; the last version
      is left as it was. A failing git log leaves the target untouched. */
  method AnalyzeCommits(dir: DirectoryVersionInfo, preRelease: string, build: string,
                        gitLog: (string, string) -> CommandOutput)
    returns (r: Result<DirectoryVersionInfo>)
    requires dir.lastVersion.Some?
    ensures var output := gitLog(Range(dir.lastVersion.value), PackagePath(dir));
      r == if output.ok then Ok(Analyzed(dir, Lines(output.stdout), preRelease, build))
           else Err(HistoryError(output.stdout))
  {
    var last := dir.lastVersion.value;
    var stored := new Semver.Of(last.version);
    var nextVersion := stored.Clone();
    var packagePath := TrimRight(dir.directory, "/");
    if dir.useRoot {
      packagePath := "./";
    }
    if packagePath == "" {
      packagePath := TrimRight(dir.fullPath, "/");
    }
    var output := gitLog(last.commitHash + "..HEAD", packagePath);
    if !output.ok {
      return Err(HistoryError(output.stdout));
    }

    var highest, releaseNotesItems := ScanCommits(Lines(output.stdout));
    nextVersion.BumpVersion(highest, preRelease, build);
    r := Ok(dir.(nextVersion := Some(VersionInfo(last.package, nextVersion.Value(), "")),
                 releaseNotes := releaseNotesItems));
  }

  // ---------------------------------------------------------------------
  // End-to-end behaviour of the history step

  /** Two subject lines: the more severe of their two types, the first
      one when both are equally severe. */
  lemma HighestOfTwo(first: string, second: string)
    ensures var a, b := AnalyzeCommitMessage(first), AnalyzeCommitMessage(second);
      Highest([first, second]) == if b.Level() > a.Level() then b else a
  {
    assert [first, second][..1] == [first];
    assert [first][..0] == [];
    assert Highest([first]) == MaxType(Highest([]), AnalyzeCommitMessage(first));
  }

  /** The lines git reports for two commits, newest first. */
  lemma TwoLines(first: string, second: string)
    requires '\n' !in first && '\r' !in first && '\n' !in second && '\r' !in second
    requires first != "" && second != ""
    ensures NonEmpty(Lines(first + "\n" + second)) == [first, second]
  {
    LinesOfTwo(first, second);
    NonEmptyPair(first, second);
  }

  lemma LinesOfTwo(first: string, second: string)
    requires '\n' !in first && '\r' !in first && '\n' !in second && '\r' !in second
    ensures Lines(first + "\n" + second) == [first, second]
  {
    NormalizeKeeps(first, second);
    assert first + "\n" + second == first + ['\n'] + second;
    SplitFirst(first, second, '\n');
  }

  lemma NonEmptyPair(first: string, second: string)
    requires first != "" && second != ""
    ensures NonEmpty([first, second]) == [first, second]
  {
    assert [first, second][..1] == [first];
    assert [first][..0] == [];
  }

  lemma NormalizeKeeps(first: string, second: string)
    requires '\r' !in first && '\r' !in second
    ensures NormalizeCRLF(first + "\n" + second) == first + "\n" + second
  {
    NormalizeWithoutCR(first + "\n" + second);
  }

  lemma {:induction false} NormalizeWithoutCR(s: string)
    requires '\r' !in s
    ensures NormalizeCRLF(s) == s
    decreases |s|
  {
    if s != [] {
      NormalizeWithoutCR(s[1..]);
      assert s == [s[0]] + s[1..];
    }
  }

  /** From the 0.1.0 baseline, a patch commit (such as "fix: a") and a
      feature commit (such as "feat: b") with no pre-release requested give
      the notes in git's order, the severity Minor, and the version
      0.1.0-.2: the empty pre-release request continues the empty track
      instead of bumping the minor number. */
  lemma AnalyzedPatchThenFeature(dir: DirectoryVersionInfo, first: string, second: string)
    requires dir.lastVersion.Some?
    requires dir.lastVersion.value.version == Version(0, 1, 0, "", "")
    requires '\n' !in first && '\r' !in first && '\n' !in second && '\r' !in second
    requires AnalyzeCommitMessage(first) == Patch && AnalyzeCommitMessage(second) == Minor
    ensures var next := Analyzed(dir, Lines(first + "\n" + second), "", "");
      && next.releaseNotes == [first, second]
      && Highest(next.releaseNotes) == Minor
      && next.nextVersion.value.version == Version(0, 1, 0, ".2", "")
  {
    assert first != "" && second != "";
    TwoLines(first, second);
    HighestOfTwo(first, second);
    EmptyRequestContinues(Version(0, 1, 0, "", ""), Minor, "");
  }
}
