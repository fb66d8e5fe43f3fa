/** Finding the last released version of a target (GetLatestVersion in
    core/check_commits.go). The process-wide list of parsed tags becomes
    the field of an explicit cache object, filled on first use. */
module Lookup {
  import opened Text
  import opened Semver
  import opened Records
  import opened Tags

  /** Reading the tag lines in order: the entries of the non-empty lines
      before the first line that does not parse, and that line's error if
      there is one. Entries read before a bad line are kept, as the source
      appends each entry as soon as it has parsed it. */
  function ParseTagLines(lines: seq<string>): (r: (seq<VersionInfo>, Option<Error>))
    ensures |r.0| <= |lines|
  {
    if lines == [] then ([], None)
    else
      var (entries, err) := ParseTagLines(lines[..|lines| - 1]);
      var line := Last(lines);
      if err.Some? || line == "" then (entries, err)
      else
        match ParseVersionInfo(line)
        case Err(e) => (entries, Some(TagParseError(line, e)))
        case Ok(info) => (entries + [info], None)
  }

  /** Once a line has failed, the lines after it are not read. */
  lemma {:induction false} ParseTagLinesStops(lines: seq<string>, i: nat)
    requires i <= |lines| && ParseTagLines(lines[..i]).1.Some?
    ensures ParseTagLines(lines) == ParseTagLines(lines[..i])
    decreases |lines| - i
  {
    if i < |lines| {
      var next := lines[..i + 1];
      assert next[..|next| - 1] == lines[..i];
      ParseTagLinesStops(lines, i + 1);
    } else {
      assert lines[..i] == lines;
    }
  }

  /** The entries of all tag lines, when every non-empty line parses. */
  function ParsedAll(lines: seq<string>): seq<VersionInfo>
    requires forall k :: 0 <= k < |lines| && lines[k] != "" ==> ParseVersionInfo(lines[k]).Ok?
  {
    if lines == [] then []
    else
      var entries := ParsedAll(lines[..|lines| - 1]);
      if Last(lines) == "" then entries else entries + [ParseVersionInfo(Last(lines)).value]
  }

  /** When every non-empty tag line parses, the cache holds one entry per
      non-empty line, in order, and there is no error. */
  lemma {:induction false} ParseTagLinesAllGood(lines: seq<string>)
    requires forall k :: 0 <= k < |lines| && lines[k] != "" ==> ParseVersionInfo(lines[k]).Ok?
    ensures ParseTagLines(lines) == (ParsedAll(lines), None)
    ensures |ParsedAll(lines)| == |NonEmpty(lines)|
  {
    if lines != [] {
      ParseTagLinesAllGood(lines[..|lines| - 1]);
    }
  }

  /** When the line at index i is the first non-empty line that does not
      parse, the run stops there with that line's error, keeping the
      entries of the lines before it. */
  lemma {:induction false} ParseTagLinesFirstBad(lines: seq<string>, i: nat)
    requires i < |lines| && lines[i] != "" && ParseVersionInfo(lines[i]).Err?
    requires forall k :: 0 <= k < i && lines[k] != "" ==> ParseVersionInfo(lines[k]).Ok?
    ensures ParseTagLines(lines)
         == (ParsedAll(lines[..i]), Some(TagParseError(lines[i], ParseVersionInfo(lines[i]).error)))
  {
    if |lines| == i + 1 {
      assert lines[..|lines| - 1] == lines[..i];
      ParseTagLinesAllGood(lines[..i]);
    } else {
      assert lines[..|lines| - 1][..i] == lines[..i];
      ParseTagLinesFirstBad(lines[..|lines| - 1], i);
    }
  }

  /** The tag cache after a fill: filled only while it is empty, from a
      successful listing of the tags. */
  function Filled(cached: seq<VersionInfo>, forEachRef: CommandOutput): (r: (seq<VersionInfo>, Option<Error>))
    ensures cached != [] ==> r == (cached, None)
    ensures cached == [] && !forEachRef.ok ==> r == ([], Some(TagListError(forEachRef.stdout)))
  {
    if cached != [] then (cached, None)
    else if !forEachRef.ok then ([], Some(TagListError(forEachRef.stdout)))
    else ParseTagLines(Lines(forEachRef.stdout))
  }

  /** The name tags of a target are looked up under: the last '/' segment
      of its directory, or the whole directory for the repository root. */
  function PackageName(dir: DirectoryVersionInfo): (name: string)
    ensures dir.useRoot ==> name == dir.directory
    ensures !dir.useRoot ==>
      && '/' !in name
      && exists pre :: TrimRight(dir.directory, "/") == pre + name && (pre == "" || Last(pre) == '/')
    ensures !dir.useRoot && '/' !in dir.directory ==> name == dir.directory
  {
    if dir.useRoot then dir.directory
    else
      var pathParts := Split(TrimRight(dir.directory, "/"), '/');
      LastSegment(TrimRight(dir.directory, "/"), '/');
      TrimRightAbsent(dir.directory, '/');
      Last(pathParts)
  }

  predicate Matches(entry: VersionInfo, packageName: string, directory: string)
  {
    entry.package == packageName || entry.package == directory
  }

  /** The index of the first entry that matches, if any. */
  function FindTag(entries: seq<VersionInfo>, packageName: string, directory: string): (r: Option<nat>)
    ensures r.Some? ==>
      && r.value < |entries| && Matches(entries[r.value], packageName, directory)
      && forall j :: 0 <= j < r.value ==> !Matches(entries[j], packageName, directory)
    ensures r.None? ==> forall j :: 0 <= j < |entries| ==> !Matches(entries[j], packageName, directory)
  {
    if entries == [] then None
    else if Matches(entries[0], packageName, directory) then Some(0)
    else
      match FindTag(entries[1..], packageName, directory)
      case None => None
      case Some(i) => Some(i + 1)
  }

  /** The version GetLatestVersion reports from a filled cache: the first
      matching entry's version and hash under the target's package name,
      or else 0.1.0 at the first line of the root-commit listing. */
  function LatestVersion(entries: seq<VersionInfo>, dir: DirectoryVersionInfo, revList: CommandOutput): Result<VersionInfo>
  {
    var packageName := PackageName(dir);
    match FindTag(entries, packageName, dir.directory)
    case Some(i) => Ok(VersionInfo(packageName, entries[i].version, entries[i].commitHash))
    case None =>
      if !revList.ok then Err(RootCommitError(revList.stdout))
      else Ok(VersionInfo(packageName, NewSemver(0, 1, 0), Lines(revList.stdout)[0]))
  }

  /** The most recent matching tag wins, whatever the versions of the
      entries after it; without one the baseline is 0.1.0 with neither
      pre-release nor build. */
  lemma LatestVersionCases(entries: seq<VersionInfo>, dir: DirectoryVersionInfo, revList: CommandOutput, i: nat)
    requires i < |entries| && Matches(entries[i], PackageName(dir), dir.directory)
    requires forall j :: 0 <= j < i ==> !Matches(entries[j], PackageName(dir), dir.directory)
    ensures LatestVersion(entries, dir, revList) == Ok(VersionInfo(PackageName(dir), entries[i].version, entries[i].commitHash))
  {
  }

  lemma LatestVersionBaseline(entries: seq<VersionInfo>, dir: DirectoryVersionInfo, revList: CommandOutput)
    requires forall j :: 0 <= j < |entries| ==> !Matches(entries[j], PackageName(dir), dir.directory)
    requires revList.ok
    ensures LatestVersion(entries, dir, revList)
         == Ok(VersionInfo(PackageName(dir), Version(0, 1, 0, "", ""), Lines(revList.stdout)[0]))
  {
  }

  /** The run-wide cache of parsed tags, newest first. */
  class TagCache {
    var latestTagInfo: seq<VersionInfo>

    constructor ()
      ensures latestTagInfo == []
    {
      latestTagInfo := [];
    }

    /** Lists and parses the tags while the cache is empty; stops at the
        first line that does not parse. */
    method Fill(forEachRef: CommandOutput) returns (err: Option<Error>)
      modifies this
      ensures (latestTagInfo, err) == Filled(old(latestTagInfo), forEachRef)
    {
      err := None;
      if latestTagInfo == [] {
        if !forEachRef.ok {
          return Some(TagListError(forEachRef.stdout));
        }
        var lines := Lines(forEachRef.stdout);
        var i := 0;
        while i < |lines|
          invariant 0 <= i <= |lines|
          invariant ParseTagLines(lines[..i]) == (latestTagInfo, None)
        {
          var line := lines[i];
          assert lines[..i + 1][..i] == lines[..i] && Last(lines[..i + 1]) == line;
          if |line| != 0 {
            var v := ParseVersionInfo(line);
            if v.Err? {
              err := Some(TagParseError(line, v.error));
              assert ParseTagLines(lines[..i + 1]) == (latestTagInfo, err);
              ParseTagLinesStops(lines, i + 1);
              return;
            }
            latestTagInfo := latestTagInfo + [v.value];
          }
          i := i + 1;
        }
        assert lines[..i] == lines;
      }
    }

    /** The first cached entry whose package is the given name or the
        given directory. */
    method Find(packageName: string, directory: string) returns (index: Option<nat>)
      ensures index == FindTag(latestTagInfo, packageName, directory)
    {
      var i := 0;
      while i < |latestTagInfo|
        invariant 0 <= i <= |latestTagInfo|
        invariant FindTag(latestTagInfo, packageName, directory)
               == ShiftIndex(FindTag(latestTagInfo[i..], packageName, directory), i)
      {
        var tag := latestTagInfo[i];
        if tag.package == packageName || tag.package == directory {
          return Some(i);
        }
        assert latestTagInfo[i..][1..] == latestTagInfo[i + 1..];
        i := i + 1;
      }
      return None;
    }

    /** GetLatestVersion: fill the cache if it is empty, then report the
        first matching tag or the 0.1.0 baseline. */
    method GetLatestVersion(dir: DirectoryVersionInfo, forEachRef: CommandOutput, revList: CommandOutput)
      returns (r: Result<VersionInfo>)
      modifies this
      ensures var (entries, err) := Filled(old(latestTagInfo), forEachRef);
        && latestTagInfo == entries
        && r == if err.Some? then Err(err.value) else LatestVersion(entries, dir, revList)
    {
      var err := Fill(forEachRef);
      if err.Some? {
        return Err(err.value);
      }
      var packageName := PackageName(dir);
      var index := Find(packageName, dir.directory);
      if index.Some? {
        var tag := latestTagInfo[index.value];
        return Ok(VersionInfo(packageName, tag.version, tag.commitHash));
      }
      if !revList.ok {
        return Err(RootCommitError(revList.stdout));
      }
      return Ok(VersionInfo(packageName, NewSemver(0, 1, 0), Lines(revList.stdout)[0]));
    }
  }

  /** An index into a suffix starting at i, as an index into the whole. */
  function ShiftIndex(r: Option<nat>, i: nat): Option<nat>
  {
    match r
    case None => None
    case Some(j) => Some(j + i)
  }
}
