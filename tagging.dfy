/** One run of the tool (DoTagging in core/check_commits.go): check that
    the working directory is a git repository, resolve the targets, find
    each target's last version and compute its next one, tag the targets
    whose version changed, compute the outputs and push. */
module Tagging {
  import opened Text
  import opened Semver
  import opened Records
  import opened Tags
  import opened Lookup
  import opened Analyze
  import opened Output

  /** The world as a run sees it: the output of each git command the run
      issues, the outcome of the commands that change the repository, the
      path functions of the operating system, and the JSON escaping of a
      release note. */
  datatype Environment = Environment(
    isInsideWorkTree: CommandOutput,      // git rev-parse --is-inside-work-tree
    showToplevel: CommandOutput,          // git rev-parse --show-toplevel
    forEachRef: CommandOutput,            // git for-each-ref ... refs/tags
    revList: CommandOutput,               // git rev-list --max-parents=0 HEAD
    log: (string, string) -> CommandOutput, // git log ... <range> -- <path>
    tag: string -> bool,                  // git tag <name> succeeded
    push: seq<string> -> PushOutcome,     // git <args>
    abs: string -> string,                // filepath.Abs, its error ignored
    parent: string -> string,             // path.Dir
    escape: string -> string)             // EscapeStringForJSON

  /** The command-line options a run uses. */
  datatype Options = Options(
    dryRun: bool,
    atomic: bool,
    preRelease: string,
    build: string,
    remote: string,
    branch: string,
    directories: seq<string>)

  /** What a run did to the repositories: the tags it asked git to create,
      in order, and the arguments of the push, if it pushed. */
  datatype Trace = Trace(tagged: seq<string>, pushed: Option<seq<string>>)

  // ---------------------------------------------------------------------
  // Repository checks

  /** IsGitRepo: the command succeeded and printed "true", with nothing but
      line breaks around it. */
  function IsGitRepo(output: CommandOutput): (inside: bool)
    ensures inside <==> output.ok && Surrounded(output.stdout, "true", '\n')
  {
    TrimExactly(output.stdout, "true", '\n');
    output.ok && Trim(output.stdout, "\n") == "true"
  }

  /** git's answers inside and outside a work tree. */
  lemma IsGitRepoAnswers(output: CommandOutput)
    ensures output.ok && output.stdout == "true\n" ==> IsGitRepo(output)
    ensures output.stdout == "false\n" ==> !IsGitRepo(output)
    ensures !output.ok ==> !IsGitRepo(output)
  {
    var s := output.stdout;
    if s == "true\n" {
      assert Only(s[..0], '\n') && Only(s[4..], '\n');
      TrimSurrounded(s, 0, 4, '\n');
    } else if s == "false\n" {
      assert Only(s[..0], '\n') && Only(s[5..], '\n');
      TrimSurrounded(s, 0, 5, '\n');
    }
  }

  /** GetGitRootDir: the top-level directory, without surrounding newlines. */
  function GitRootDir(output: CommandOutput): (r: Result<string>)
    ensures r.Err? <==> !output.ok
    ensures r.Ok? ==> r.value == Trim(output.stdout, "\n")
  {
    if !output.ok then Err(RootDirError) else Ok(Trim(output.stdout, "\n"))
  }

  // ---------------------------------------------------------------------
  // Resolving the targets

  /** path.Base: the last element of a path, trailing slashes ignored; "."
      for the empty path and "/" for a path of slashes only. */
  function BaseName(p: string): string
  {
    if p == "" then "."
    else
      var stripped := TrimRight(p, "/");
      if stripped == "" then "/" else Last(Split(stripped, '/'))
  }

  /** The base name of a path is its last element. */
  lemma BaseNameOfPath(parent: string, name: string)
    requires name != "" && '/' !in name
    ensures BaseName(parent + "/" + name) == name
  {
    var p := parent + "/" + name;
    assert p == parent + ['/'] + name;
    assert p[|p| - 1] == name[|name| - 1];
    assert TrimRight(p, "/") == p;
    SplitAppend(parent, name, '/');
    assert Split(name, '/') == [name];
  }

  /** The target of one directory named on the command line: the directory
      without surrounding slashes under the repository root, or, when it is
      the repository root itself, the root's base name under the root's
      parent, marked so that its history is read from "./". */
  function Target(directory: string, gitRoot: string, abs: string -> string, parent: string -> string)
    : (t: DirectoryVersionInfo)
    ensures t.lastVersion.None? && t.nextVersion.None? && t.releaseNotes == []
    ensures t.useRoot <==> abs(gitRoot) == abs(directory)
    ensures !t.useRoot ==> t.directory == Trim(directory, "/") && t.fullPath == gitRoot
    ensures t.useRoot ==> t.directory == BaseName(abs(gitRoot)) && t.fullPath == parent(gitRoot)
  {
    if abs(gitRoot) == abs(directory) then NewTarget(BaseName(abs(gitRoot)), parent(gitRoot), true)
    else NewTarget(Trim(directory, "/"), gitRoot, false)
  }

  /** The targets of the directories, in order. */
  function Targets(directories: seq<string>, gitRoot: string, abs: string -> string, parent: string -> string)
    : (targets: seq<DirectoryVersionInfo>)
    ensures |targets| == |directories|
  {
    if directories == [] then []
    else Targets(directories[..|directories| - 1], gitRoot, abs, parent) + [Target(Last(directories), gitRoot, abs, parent)]
  }

  lemma {:induction false} TargetsAt(directories: seq<string>, gitRoot: string, abs: string -> string, parent: string -> string, k: nat)
    requires k < |directories|
    ensures Targets(directories, gitRoot, abs, parent)[k] == Target(directories[k], gitRoot, abs, parent)
  {
    var init := directories[..|directories| - 1];
    if k < |init| {
      TargetsAt(init, gitRoot, abs, parent, k);
      assert init[k] == directories[k];
      assert Targets(directories, gitRoot, abs, parent)[k] == Targets(init, gitRoot, abs, parent)[k];
    } else {
      assert directories[k] == Last(directories);
    }
  }

  lemma TargetsStep(directories: seq<string>, i: nat, gitRoot: string, abs: string -> string, parent: string -> string)
    requires i < |directories|
    ensures Targets(directories[..i + 1], gitRoot, abs, parent)
            == Targets(directories[..i], gitRoot, abs, parent) + [Target(directories[i], gitRoot, abs, parent)]
  {
    assert directories[..i + 1][..i] == directories[..i];
    assert Last(directories[..i + 1]) == directories[i];
  }

  /** Without directories the run has one target, the whole repository. */
  function ResolvedTargets(directories: seq<string>, gitRoot: string, abs: string -> string, parent: string -> string)
    : (targets: seq<DirectoryVersionInfo>)
    ensures directories == [] ==> targets == [NewTarget("", gitRoot, false)]
    ensures directories != [] ==> |targets| == |directories|
  {
    if directories == [] then [NewTarget("", gitRoot, false)] else Targets(directories, gitRoot, abs, parent)
  }

  /** The loop that turns the command line's directories into targets. */
  method ResolveTargets(directories: seq<string>, gitRoot: string, abs: string -> string, parent: string -> string)
    returns (results: seq<DirectoryVersionInfo>)
    ensures results == ResolvedTargets(directories, gitRoot, abs, parent)
  {
    results := [];
    var isFullRepo := |directories| == 0;
    for i := 0 to |directories|
      invariant results == Targets(directories[..i], gitRoot, abs, parent)
    {
      var dir := directories[i];
      var useRoot := false;
      var fullPath := gitRoot;
      var sanedir := Trim(dir, "/");
      var dirPath := abs(dir);
      var gitRootPath := abs(gitRoot);
      if gitRootPath == dirPath {
        useRoot := true;
        sanedir := BaseName(gitRootPath);
        fullPath := parent(gitRoot);
      }
      assert NewTarget(sanedir, fullPath, useRoot) == Target(dir, gitRoot, abs, parent);
      TargetsStep(directories, i, gitRoot, abs, parent);
      results := results + [NewTarget(sanedir, fullPath, useRoot)];
    }
    assert directories[..|directories|] == directories;
    if isFullRepo {
      results := results + [NewTarget("", gitRoot, false)];
    }
  }

  // ---------------------------------------------------------------------
  // Computing the versions

  /** One target after GetLatestVersion and AnalyzeCommits on a filled
      tag cache; the first error stops it. */
  function ComputedTarget(target: DirectoryVersionInfo, entries: seq<VersionInfo>, env: Environment,
                          preRelease: string, build: string): (r: Result<DirectoryVersionInfo>)
    ensures r.Ok? ==> Computed(r.value)
    ensures r.Ok? ==> r.value.directory == target.directory && r.value.fullPath == target.fullPath
                      && r.value.useRoot == target.useRoot
    ensures r.Ok? ==> r.value.nextVersion.value.commitHash == ""
  {
    match LatestVersion(entries, target, env.revList)
    case Err(e) => Err(e)
    case Ok(last) =>
      var withLast := target.(lastVersion := Some(last));
      var output := env.log(Range(last), PackagePath(withLast));
      if output.ok then Ok(Analyzed(withLast, Lines(output.stdout), preRelease, build))
      else Err(HistoryError(output.stdout))
  }

  /** ComputedTarget on a given cache, as a function of the target. */
  function TargetStep(entries: seq<VersionInfo>, env: Environment, preRelease: string, build: string)
    : DirectoryVersionInfo -> Result<DirectoryVersionInfo>
  {
    t => ComputedTarget(t, entries, env, preRelease, build)
  }

  /** The targets computed in order by the given step; the first error
      stops the run. */
  function ComputedTargets(targets: seq<DirectoryVersionInfo>, step: DirectoryVersionInfo -> Result<DirectoryVersionInfo>)
    : (r: Result<seq<DirectoryVersionInfo>>)
    ensures r.Ok? ==> |r.value| == |targets|
  {
    if targets == [] then Ok([])
    else
      match ComputedTargets(targets[..|targets| - 1], step)
      case Err(e) => Err(e)
      case Ok(done) =>
        match step(Last(targets))
        case Err(e) => Err(e)
        case Ok(t) => Ok(done + [t])
  }

  /** Once a target has failed, the targets after it are not computed. */
  lemma {:induction false} ComputedTargetsStop(targets: seq<DirectoryVersionInfo>,
                                              step: DirectoryVersionInfo -> Result<DirectoryVersionInfo>, i: nat)
    requires i <= |targets| && ComputedTargets(targets[..i], step).Err?
    ensures ComputedTargets(targets, step) == ComputedTargets(targets[..i], step)
    decreases |targets| - i
  {
    if i < |targets| {
      var next := targets[..i + 1];
      assert next[..|next| - 1] == targets[..i];
      ComputedTargetsStop(targets, step, i + 1);
    } else {
      assert targets[..i] == targets;
    }
  }

  /** The k-th computed target is the step applied to the k-th target. */
  lemma {:induction false} ComputedTargetsAt(targets: seq<DirectoryVersionInfo>,
                                            step: DirectoryVersionInfo -> Result<DirectoryVersionInfo>, k: nat)
    requires ComputedTargets(targets, step).Ok? && k < |targets|
    ensures step(targets[k]) == Ok(ComputedTargets(targets, step).value[k])
  {
    var init := targets[..|targets| - 1];
    var done := ComputedTargets(init, step);
    var last := step(Last(targets));
    assert done.Ok? && last.Ok?;
    assert ComputedTargets(targets, step).value == done.value + [last.value];
    if k < |init| {
      ComputedTargetsAt(init, step, k);
    }
  }

  /** The computation of all targets from a fill of the tag cache and a
      step: nothing to do for no targets, else a failing fill is the first
      target's error, else the targets in order. */
  function ComputedRun(targets: seq<DirectoryVersionInfo>, fill: (seq<VersionInfo>, Option<Error>),
                       step: DirectoryVersionInfo -> Result<DirectoryVersionInfo>): (r: Result<seq<DirectoryVersionInfo>>)
    ensures r.Ok? ==> |r.value| == |targets|
  {
    if targets == [] then Ok([])
    else if fill.1.Some? then Err(fill.1.value)
    else ComputedTargets(targets, step)
  }

  /** The computation of all targets from the cache as it stood before the
      run. */
  function Computation(targets: seq<DirectoryVersionInfo>, cached: seq<VersionInfo>, env: Environment,
                       preRelease: string, build: string): (r: Result<seq<DirectoryVersionInfo>>)
    ensures r.Ok? ==> |r.value| == |targets| && AllComputed(r.value)
    ensures r.Ok? ==> forall k :: 0 <= k < |r.value| ==> r.value[k].nextVersion.value.commitHash == ""
  {
    var fill := Filled(cached, env.forEachRef);
    var step := TargetStep(fill.0, env, preRelease, build);
    TargetStepComputes(fill.0, env, preRelease, build);
    ComputedRunComputed(targets, fill, step, env, preRelease, build);
    ComputedRun(targets, fill, step)
  }

  /** The cache after the computation: filled by the first target, and
      left alone by the others. */
  function CacheAfterComputation(targets: seq<DirectoryVersionInfo>, cached: seq<VersionInfo>, env: Environment)
    : seq<VersionInfo>
  {
    if targets == [] then cached else Filled(cached, env.forEachRef).0
  }

  /** A successful fill is not repeated: filling again changes nothing. */
  lemma FilledStable(cached: seq<VersionInfo>, forEachRef: CommandOutput)
    requires Filled(cached, forEachRef).1.None?
    ensures Filled(Filled(cached, forEachRef).0, forEachRef) == Filled(cached, forEachRef)
  {
  }

  /** The tag cache after a fill, as a function of the cache before it. */
  function FillOf(forEachRef: CommandOutput): seq<VersionInfo> -> (seq<VersionInfo>, Option<Error>)
  {
    cached => Filled(cached, forEachRef)
  }

  /** The function fills the cache as Filled does. (The trigger keeps the
      parsing of the tag lines folded away until a caller names Filled
      itself.) */
  ghost predicate FillComputes(fillOf: seq<VersionInfo> -> (seq<VersionInfo>, Option<Error>), forEachRef: CommandOutput)
  {
    forall cached {:trigger Filled(cached, forEachRef)} :: fillOf(cached) == Filled(cached, forEachRef)
  }

  lemma FillOfComputes(forEachRef: CommandOutput)
    ensures FillComputes(FillOf(forEachRef), forEachRef)
  {
  }

  /** The step computes each target as ComputedTarget does on the given
      entries. (The trigger keeps the target computation folded away until
      a caller names ComputedTarget itself.) */
  ghost predicate StepComputes(step: DirectoryVersionInfo -> Result<DirectoryVersionInfo>, entries: seq<VersionInfo>,
                               env: Environment, preRelease: string, build: string)
  {
    forall t {:trigger ComputedTarget(t, entries, env, preRelease, build)} ::
      step(t) == ComputedTarget(t, entries, env, preRelease, build)
  }

  lemma TargetStepComputes(entries: seq<VersionInfo>, env: Environment, preRelease: string, build: string)
    ensures StepComputes(TargetStep(entries, env, preRelease, build), entries, env, preRelease, build)
  {
  }

  /** A successful computation leaves every target computed, with its
      directory, full path and root flag as they were. */
  lemma ComputedRunComputed(targets: seq<DirectoryVersionInfo>, fill: (seq<VersionInfo>, Option<Error>),
                            step: DirectoryVersionInfo -> Result<DirectoryVersionInfo>,
                            env: Environment, preRelease: string, build: string)
    requires StepComputes(step, fill.0, env, preRelease, build)
    ensures var r := ComputedRun(targets, fill, step);
      r.Ok? ==>
        && AllComputed(r.value)
        && forall k :: 0 <= k < |targets| ==>
             && r.value[k].directory == targets[k].directory
             && r.value[k].fullPath == targets[k].fullPath
             && r.value[k].useRoot == targets[k].useRoot
             && r.value[k].nextVersion.value.commitHash == ""
  {
    var r := ComputedRun(targets, fill, step);
    if r.Ok? && targets != [] {
      forall k | 0 <= k < |targets|
        ensures Computed(r.value[k]) && r.value[k].directory == targets[k].directory
        ensures r.value[k].fullPath == targets[k].fullPath && r.value[k].useRoot == targets[k].useRoot
        ensures r.value[k].nextVersion.value.commitHash == ""
      {
        ComputedTargetsAt(targets, step, k);
        assert step(targets[k]) == ComputedTarget(targets[k], fill.0, env, preRelease, build);
      }
    }
  }

  /** The body of DoTagging's loop over the targets: the last version of
      the target, then the commits since it. The cache is filled by the
      first call; on a filled cache the target is computed by the step. */
  method ComputeTarget(target: DirectoryVersionInfo, env: Environment, preRelease: string, build: string,
                       cache: TagCache, ghost fillOf: seq<VersionInfo> -> (seq<VersionInfo>, Option<Error>),
                       ghost fill: (seq<VersionInfo>, Option<Error>),
                       ghost step: DirectoryVersionInfo -> Result<DirectoryVersionInfo>)
    returns (r: Result<DirectoryVersionInfo>)
    requires FillComputes(fillOf, env.forEachRef) && fillOf(cache.latestTagInfo) == fill
    requires StepComputes(step, fill.0, env, preRelease, build)
    modifies cache
    ensures cache.latestTagInfo == fill.0
    ensures fill.1.None? ==> fillOf(cache.latestTagInfo) == fill
    ensures r == if fill.1.Some? then Err(fill.1.value) else step(target)
  {
    assert fillOf(cache.latestTagInfo) == Filled(cache.latestTagInfo, env.forEachRef);
    assert step(target) == ComputedTarget(target, fill.0, env, preRelease, build);
    if fill.1.None? {
      FilledStable(cache.latestTagInfo, env.forEachRef);
      assert fillOf(fill.0) == Filled(fill.0, env.forEachRef);
    }
    var last := cache.GetLatestVersion(target, env.forEachRef, env.revList);
    if last.Err? {
      return Err(last.error);
    }
    r := AnalyzeCommits(target.(lastVersion := Some(last.value)), preRelease, build, env.log);
  }

  /** The loop of DoTagging over the targets, each computed in place. */
  method ComputeAll(targets: seq<DirectoryVersionInfo>, env: Environment, preRelease: string, build: string,
                    cache: TagCache, ghost fillOf: seq<VersionInfo> -> (seq<VersionInfo>, Option<Error>),
                    ghost fill: (seq<VersionInfo>, Option<Error>),
                    ghost step: DirectoryVersionInfo -> Result<DirectoryVersionInfo>)
    returns (r: Result<seq<DirectoryVersionInfo>>)
    requires FillComputes(fillOf, env.forEachRef) && fillOf(cache.latestTagInfo) == fill
    requires StepComputes(step, fill.0, env, preRelease, build)
    modifies cache
    ensures r == ComputedRun(targets, fill, step)
    ensures cache.latestTagInfo == if targets == [] then old(cache.latestTagInfo) else fill.0
  {
    var results := targets;
    for idx := 0 to |results|
      invariant fillOf(cache.latestTagInfo) == fill
      invariant |results| == |targets| && results[idx..] == targets[idx..]
      invariant idx == 0 ==> cache.latestTagInfo == old(cache.latestTagInfo)
      invariant idx > 0 ==> cache.latestTagInfo == fill.0 && fill.1.None?
      invariant idx > 0 ==> ComputedTargets(targets[..idx], step) == Ok(results[..idx])
    {
      var target := results[idx];
      assert target == targets[idx];
      var computed := ComputeTarget(target, env, preRelease, build, cache, fillOf, fill, step);
      if computed.Err? {
        r := Err(computed.error);
        ComputeFailed(targets, fill, step, idx, r);
        return;
      }
      results := results[idx := computed.value];
      ComputeStep(targets, step, idx, results);
    }
    assert targets[..|targets|] == targets && results[..|results|] == results;
    return Ok(results);
  }

  /** The loop's step: the prefix grows by the target just computed. */
  lemma ComputeStep(targets: seq<DirectoryVersionInfo>, step: DirectoryVersionInfo -> Result<DirectoryVersionInfo>,
                    idx: nat, results: seq<DirectoryVersionInfo>)
    requires idx < |targets| == |results|
    requires idx > 0 ==> ComputedTargets(targets[..idx], step) == Ok(results[..idx])
    requires step(targets[idx]) == Ok(results[idx])
    ensures ComputedTargets(targets[..idx + 1], step) == Ok(results[..idx + 1])
  {
    var next := targets[..idx + 1];
    assert next[..|next| - 1] == targets[..idx] && Last(next) == targets[idx];
    if idx == 0 {
      assert targets[..0] == [] && results[..0] == [];
    }
    assert results[..idx] + [results[idx]] == results[..idx + 1];
  }

  /** The loop's exit on an error: the run's computation fails with it. */
  lemma ComputeFailed(targets: seq<DirectoryVersionInfo>, fill: (seq<VersionInfo>, Option<Error>),
                      step: DirectoryVersionInfo -> Result<DirectoryVersionInfo>, idx: nat,
                      r: Result<seq<DirectoryVersionInfo>>)
    requires idx < |targets| && r.Err?
    requires || (idx == 0 && fill.1.Some? && r == Err(fill.1.value))
             || (&& fill.1.None?
                 && (idx > 0 ==> ComputedTargets(targets[..idx], step).Ok?)
                 && step(targets[idx]) == Err(r.error))
    ensures r == ComputedRun(targets, fill, step)
  {
    if fill.1.None? {
      var next := targets[..idx + 1];
      assert next[..|next| - 1] == targets[..idx] && Last(next) == targets[idx];
      if idx == 0 {
        assert targets[..0] == [];
      }
      assert ComputedTargets(next, step) == r;
      ComputedTargetsStop(targets, step, idx + 1);
    }
  }

  // ---------------------------------------------------------------------
  // Tagging

  /** Whether a target gets a tag: it has a next version whose formatted
      form differs from that of its last version. */
  predicate NeedsTag(r: DirectoryVersionInfo)
  {
    r.nextVersion.Some? && r.lastVersion.Some? && Changed(r)
  }

  /** The tag a target gets when its version changed. */
  function PlannedTag(r: DirectoryVersionInfo): string
    requires r.nextVersion.Some?
  {
    TagName(r.nextVersion.value.package, r.nextVersion.value.version)
  }

  /** The tags of the targets whose formatted version changed, in order. */
  function PlannedTags(results: seq<DirectoryVersionInfo>): (tags: seq<string>)
    ensures |tags| <= |results|
  {
    if results == [] then []
    else
      var init := results[..|results| - 1];
      PlannedTags(init) + (if NeedsTag(Last(results)) then [PlannedTag(Last(results))] else [])
  }

  /** The tags git is asked to create, in order, stopping after the first
      one it fails to create, and that one. */
  function Attempted(tags: seq<string>, tag: string -> bool): (r: (seq<string>, Option<string>))
    ensures r.0 <= tags
    ensures r.1.None? ==> r.0 == tags
  {
    if tags == [] then ([], None)
    else
      var (done, failed) := Attempted(tags[..|tags| - 1], tag);
      if failed.Some? then (done, failed)
      else if tag(Last(tags)) then (done + [Last(tags)], None)
      else (done + [Last(tags)], Some(Last(tags)))
  }

  /** Without a failure every tag was created; with one, it is the last
      tag attempted, git refused it, and git created every tag before it. */
  lemma {:induction false} AttemptedOutcome(tags: seq<string>, tag: string -> bool)
    ensures var (done, failed) := Attempted(tags, tag);
      && (failed.None? ==> done == tags && forall k :: 0 <= k < |tags| ==> tag(tags[k]))
      && (failed.Some? ==> done != [] && failed.value == Last(done) && !tag(failed.value)
                           && forall k :: 0 <= k < |done| - 1 ==> tag(done[k]))
  {
    if tags != [] {
      var init := tags[..|tags| - 1];
      AttemptedOutcome(init, tag);
      var (done, failed) := Attempted(init, tag);
      if failed.None? {
        assert init + [Last(tags)] == tags;
      }
    }
  }

  /** Once a tag has failed, later tags are not attempted. */
  lemma {:induction false} AttemptedStops(prefix: seq<string>, tags: seq<string>, tag: string -> bool)
    requires prefix <= tags && Attempted(prefix, tag).1.Some?
    ensures Attempted(tags, tag) == Attempted(prefix, tag)
    decreases |tags|
  {
    if |tags| > |prefix| {
      var init := tags[..|tags| - 1];
      assert prefix == init[..|prefix|];
      AttemptedStops(prefix, init, tag);
    } else {
      assert tags == prefix;
    }
  }

  lemma PlannedTagsStep(results: seq<DirectoryVersionInfo>, i: nat)
    requires i < |results|
    ensures !NeedsTag(results[i]) ==> PlannedTags(results[..i + 1]) == PlannedTags(results[..i])
    ensures NeedsTag(results[i]) ==> PlannedTags(results[..i + 1]) == PlannedTags(results[..i]) + [PlannedTag(results[i])]
  {
    var next := results[..i + 1];
    assert next[..|next| - 1] == results[..i];
    if !NeedsTag(results[i]) {
      assert PlannedTags(results[..i]) + [] == PlannedTags(results[..i]);
    }
  }

  /** The tags planned for the first i targets come first. */
  lemma {:induction false} PlannedTagsPrefix(results: seq<DirectoryVersionInfo>, i: nat)
    requires i <= |results|
    ensures PlannedTags(results[..i]) <= PlannedTags(results)
  {
    if i < |results| {
      var init := results[..|results| - 1];
      assert init[..i] == results[..i];
      PlannedTagsPrefix(init, i);
      var a, b, c := PlannedTags(results[..i]), PlannedTags(init), PlannedTags(results);
      assert b <= c;
      assert c[..|a|] == c[..|b|][..|a|];
    } else {
      assert results[..i] == results;
    }
  }

  /** The tagging loop of DoTagging: for each target whose version changed,
      create its tag unless this is a dry run; the first failure stops. */
  method CreateTags(results: seq<DirectoryVersionInfo>, dryRun: bool, tag: string -> bool)
    returns (failed: Option<string>, tagged: seq<string>)
    requires forall k :: 0 <= k < |results| && results[k].nextVersion.Some? ==> results[k].lastVersion.Some?
    ensures (tagged, failed) == if dryRun then ([], None) else Attempted(PlannedTags(results), tag)
  {
    tagged, failed := [], None;
    for i := 0 to |results|
      invariant dryRun ==> tagged == []
      invariant !dryRun ==> Attempted(PlannedTags(results[..i]), tag) == (tagged, None)
    {
      var result := results[i];
      PlannedTagsStep(results, i);
      if result.nextVersion.None? || !Changed(result) {
        continue;
      }
      var name := TagName(result.nextVersion.value.package, result.nextVersion.value.version);
      assert name == PlannedTag(results[i]);
      if !dryRun {
        AttemptedSnoc(PlannedTags(results[..i]), name, tag);
        tagged := tagged + [name];
        if !tag(name) {
          failed := Some(name);
          PlannedTagsPrefix(results, i + 1);
          AttemptedStops(PlannedTags(results[..i + 1]), PlannedTags(results), tag);
          return;
        }
      }
    }
    assert results[..|results|] == results;
  }

  /** Attempting one more tag after the others succeeded. */
  lemma AttemptedSnoc(tags: seq<string>, name: string, tag: string -> bool)
    requires Attempted(tags, tag).1.None?
    ensures Attempted(tags + [name], tag) == (Attempted(tags, tag).0 + [name], if tag(name) then None else Some(name))
  {
    assert (tags + [name])[..|tags|] == tags;
  }

  // ---------------------------------------------------------------------
  // Pushing and the whole run

  /** The arguments of the push: the remote, the branch and every tag of
      the new-release column, atomically if asked. */
  function PushArgs(atomic: bool, remote: string, branch: string, tags: seq<string>): (args: seq<string>)
    ensures |args| == 3 + (if atomic then 1 else 0) + |tags| && args[0] == "push"
    ensures args[..|args| - |tags|] == ["push"] + (if atomic then ["--atomic"] else []) + [remote, branch]
    ensures args[|args| - |tags|..] == tags
  {
    ["push"] + (if atomic then ["--atomic"] else []) + [remote, branch] + tags
  }

  /** After the versions are computed: tag, generate the outputs, push. */
  function Published(results: seq<DirectoryVersionInfo>, options: Options, env: Environment): (Result<Outputs>, Trace)
    requires AllComputed(results)
  {
    var (tagged, failed) := if options.dryRun then ([], None) else Attempted(PlannedTags(results), env.tag);
    if failed.Some? then (Err(TagCreationError(failed.value)), Trace(tagged, None))
    else
      var outputs := Generated(results, options.dryRun, env.escape);
      if options.dryRun then (Ok(outputs), Trace(tagged, None))
      else PushedOutputs(outputs, tagged, options, env)
  }

  /** The push of the tags in the tag field of the outputs, after the
      given tags were created: the outputs, or the push's error. */
  function PushedOutputs(outputs: Outputs, tagged: seq<string>, options: Options, env: Environment): (Result<Outputs>, Trace)
  {
    var args := PushArgs(options.atomic, options.remote, options.branch, Split(outputs.newReleaseGitTag, ','));
    match env.push(args)
    case Pushed => (Ok(outputs), Trace(tagged, Some(args)))
    case PushFailed(stdout, stderr) => (Err(PushError(stdout, stderr)), Trace(tagged, Some(args)))
  }

  /** Whatever its outcome, the push is recorded with its arguments. */
  lemma PushRecorded(outputs: Outputs, tagged: seq<string>, options: Options, env: Environment)
    ensures PushedOutputs(outputs, tagged, options, env).1
         == Trace(tagged, Some(PushArgs(options.atomic, options.remote, options.branch, Split(outputs.newReleaseGitTag, ','))))
  {
  }

  /** A tag git refuses stops the run before the push: the error names the
      last tag attempted, and git created every tag before it. */
  lemma TagFailureStopsPush(results: seq<DirectoryVersionInfo>, options: Options, env: Environment)
    requires AllComputed(results)
    ensures var (r, trace) := Published(results, options, env);
      r.Err? && r.error.TagCreationError? ==>
        && !options.dryRun && trace.pushed.None?
        && trace.tagged != [] && r.error.tag == Last(trace.tagged) && !env.tag(r.error.tag)
        && forall k :: 0 <= k < |trace.tagged| - 1 ==> env.tag(trace.tagged[k])
  {
    if !options.dryRun {
      AttemptedOutcome(PlannedTags(results), env.tag);
    }
  }

  /** A dry run creates no tag and pushes nothing, whatever its outcome. */
  lemma DryRunLeavesNoTrace(results: seq<DirectoryVersionInfo>, options: Options, env: Environment)
    requires AllComputed(results) && options.dryRun
    ensures Published(results, options, env).1 == Trace([], None)
  {
  }

  /** A push comes only after git created every planned tag. */
  lemma PushFollowsTags(results: seq<DirectoryVersionInfo>, options: Options, env: Environment)
    requires AllComputed(results)
    ensures var trace := Published(results, options, env).1;
      trace.pushed.Some? ==>
        && !options.dryRun
        && trace.tagged == PlannedTags(results)
        && forall k :: 0 <= k < |trace.tagged| ==> env.tag(trace.tagged[k])
  {
    PublishedPush(results, options, env);
    AttemptedOutcome(PlannedTags(results), env.tag);
  }

  /** The push lists the next tag of every target, in order, changed or
      not. */
  lemma PushListsNextTags(results: seq<DirectoryVersionInfo>, options: Options, env: Environment)
    requires AllComputed(results) && results != []
    requires forall k :: 0 <= k < |results| ==>
      ',' !in results[k].nextVersion.value.package
      && ',' !in results[k].nextVersion.value.version.preRelease
      && ',' !in results[k].nextVersion.value.version.build
    ensures var trace := Published(results, options, env).1;
      trace.pushed.Some? ==>
        && var args := trace.pushed.value;
           && |args| == 3 + (if options.atomic then 1 else 0) + |results|
           && forall k :: 0 <= k < |results| ==> args[|args| - |results| + k] == NextTag(results[k])
  {
    var trace := Published(results, options, env).1;
    if trace.pushed.Some? {
      PublishedPush(results, options, env);
      var tags := Split(Generated(results, false, env.escape).newReleaseGitTag, ',');
      NextTagList(results, false, env.escape);
      TailNextTags(trace.pushed.value, options.atomic, options.remote, options.branch, tags, results);
    }
  }

  /** Push arguments built from the tag column list the next tags last. */
  lemma TailNextTags(args: seq<string>, atomic: bool, remote: string, branch: string, tags: seq<string>,
                     results: seq<DirectoryVersionInfo>)
    requires args == PushArgs(atomic, remote, branch, tags)
    requires AllComputed(results) && |tags| == |results|
    requires forall k {:trigger NextTag(results[k])} :: 0 <= k < |results| ==> tags[k] == NextTag(results[k])
    ensures |args| == 3 + (if atomic then 1 else 0) + |results|
    ensures forall k :: 0 <= k < |results| ==> args[|args| - |results| + k] == NextTag(results[k])
  {
    forall k | 0 <= k < |results|
      ensures args[|args| - |results| + k] == NextTag(results[k])
    {
      assert args[|args| - |tags|..][k] == tags[k];
    }
  }

  /** A run pushes only when it is not a dry run and git created every
      planned tag; the push lists the entries of the tag field. */
  lemma PublishedPush(results: seq<DirectoryVersionInfo>, options: Options, env: Environment)
    requires AllComputed(results)
    ensures var trace := Published(results, options, env).1;
      trace.pushed.Some? ==>
        && !options.dryRun
        && Attempted(PlannedTags(results), env.tag) == (PlannedTags(results), None)
        && trace.tagged == PlannedTags(results)
        && trace.pushed.value
           == PushArgs(options.atomic, options.remote, options.branch,
                       Split(Generated(results, false, env.escape).newReleaseGitTag, ','))
  {
  }

  /** Unless the run is a dry run or git refuses a tag, the run pushes,
      after creating every planned tag, and the push lists the entries of
      the tag field; this holds whether or not any tag was planned. */
  lemma PushUnlessDryRunOrRefused(results: seq<DirectoryVersionInfo>, options: Options, env: Environment)
    requires AllComputed(results) && !options.dryRun
    requires Attempted(PlannedTags(results), env.tag).1.None?
    ensures Published(results, options, env).1
         == Trace(PlannedTags(results),
                  Some(PushArgs(options.atomic, options.remote, options.branch,
                                Split(Generated(results, false, env.escape).newReleaseGitTag, ','))))
  {
    PushRecorded(Generated(results, false, env.escape), PlannedTags(results), options, env);
  }

  /** A run in which no target's version changed plans no tag, and pushes
      all the same unless it is a dry run. */
  lemma UnchangedRunStillPushes(results: seq<DirectoryVersionInfo>, options: Options, env: Environment)
    requires AllComputed(results) && !options.dryRun
    requires forall k :: 0 <= k < |results| ==> !Changed(results[k])
    ensures PlannedTags(results) == []
    ensures Published(results, options, env).1
         == Trace([], Some(PushArgs(options.atomic, options.remote, options.branch,
                                    Split(Generated(results, false, env.escape).newReleaseGitTag, ','))))
  {
    NoChangeNoPlan(results);
    PushUnlessDryRunOrRefused(results, options, env);
  }

  /** No tag is planned when no target's version changed. */
  lemma {:induction false} NoChangeNoPlan(results: seq<DirectoryVersionInfo>)
    requires AllComputed(results)
    requires forall k :: 0 <= k < |results| ==> !Changed(results[k])
    ensures PlannedTags(results) == []
  {
    if results != [] {
      NoChangeNoPlan(results[..|results| - 1]);
    }
  }

  /** Every planned tag is among the next tags the push lists, as long as
      no package starts with '/'. */
  lemma {:induction false} PlannedTagsPushed(results: seq<DirectoryVersionInfo>)
    requires AllComputed(results)
    requires forall k :: 0 <= k < |results| ==>
      var package := results[k].nextVersion.value.package;
      package == "" || package[0] != '/'
    ensures forall tag :: tag in PlannedTags(results) ==> tag in NextTags(results)
  {
    if results != [] {
      var init := results[..|results| - 1];
      var r := Last(results);
      PlannedTagsPushed(init);
      NextTagIsTagName(r.nextVersion.value.package, r.nextVersion.value.version);
      assert NextTags(results) == NextTags(init) + [NextTag(r)];
    }
  }

  /** A whole run, from the cache as it stood before the run. */
  function Run(options: Options, env: Environment, cached: seq<VersionInfo>): (Result<Outputs>, Trace)
  {
    if !IsGitRepo(env.isInsideWorkTree) then (Err(NotARepository), Trace([], None))
    else
      match GitRootDir(env.showToplevel)
      case Err(e) => (Err(e), Trace([], None))
      case Ok(gitRoot) =>
        var targets := ResolvedTargets(options.directories, gitRoot, env.abs, env.parent);
        match Computation(targets, cached, env, options.preRelease, options.build)
        case Err(e) => (Err(e), Trace([], None))
        case Ok(results) => Published(results, options, env)
  }

  /** The outputs of a successful run hold an empty next-head field: no
      target's next version has a commit yet. */
  lemma RunNextHeadEmpty(options: Options, env: Environment, cached: seq<VersionInfo>)
    ensures var r := Run(options, env, cached).0;
      r.Ok? ==> r.value.newReleaseGitHead == "" && Split(r.value.newReleaseGitHead, ',') == [""]
  {
    if IsGitRepo(env.isInsideWorkTree) && GitRootDir(env.showToplevel).Ok? {
      var targets := ResolvedTargets(options.directories, GitRootDir(env.showToplevel).value, env.abs, env.parent);
      var computed := Computation(targets, cached, env, options.preRelease, options.build);
      if computed.Ok? {
        PublishedOutputs(computed.value, options, env);
        NextHeadEmpty(computed.value, options.dryRun, env.escape);
      }
    }
  }

  /** A successful publication returns the generated outputs. */
  lemma PublishedOutputs(results: seq<DirectoryVersionInfo>, options: Options, env: Environment)
    requires AllComputed(results)
    ensures var r := Published(results, options, env).0;
      r.Ok? ==> r.value == Generated(results, options.dryRun, env.escape)
  {
  }

  /** The cache after a run: filled once the repository checks pass. */
  function CacheAfter(options: Options, env: Environment, cached: seq<VersionInfo>): seq<VersionInfo>
  {
    if !IsGitRepo(env.isInsideWorkTree) || GitRootDir(env.showToplevel).Err? then cached
    else Filled(cached, env.forEachRef).0
  }

  /** DoTagging. */
  method DoTagging(options: Options, env: Environment, cache: TagCache) returns (r: Result<Outputs>, trace: Trace)
    modifies cache
    ensures (r, trace) == Run(options, env, old(cache.latestTagInfo))
    ensures cache.latestTagInfo == CacheAfter(options, env, old(cache.latestTagInfo))
  {
    trace := Trace([], None);
    if !IsGitRepo(env.isInsideWorkTree) {
      return Err(NotARepository), trace;
    }
    var root := GitRootDir(env.showToplevel);
    if root.Err? {
      return Err(root.error), trace;
    }
    var gitRoot := root.value;
    var targets := ResolveTargets(options.directories, gitRoot, env.abs, env.parent);
    ghost var fill := Filled(cache.latestTagInfo, env.forEachRef);
    FillOfComputes(env.forEachRef);
    TargetStepComputes(fill.0, env, options.preRelease, options.build);
    var computed := ComputeAll(targets, env, options.preRelease, options.build, cache, FillOf(env.forEachRef),
                               fill, TargetStep(fill.0, env, options.preRelease, options.build));
    if computed.Err? {
      return Err(computed.error), trace;
    }
    ComputedRunComputed(targets, fill, TargetStep(fill.0, env, options.preRelease, options.build),
                        env, options.preRelease, options.build);
    r, trace := Publish(computed.value, options, env);
  }

  /** The part of DoTagging after the versions are computed: create the
      tags, generate the outputs and push. */
  method Publish(results: seq<DirectoryVersionInfo>, options: Options, env: Environment)
    returns (r: Result<Outputs>, trace: Trace)
    requires AllComputed(results)
    ensures (r, trace) == Published(results, options, env)
  {
    var failed, tagged := CreateTags(results, options.dryRun, env.tag);
    trace := Trace(tagged, None);
    if failed.Some? {
      return Err(TagCreationError(failed.value)), trace;
    }
    var outputs := GenerateOutputs(results, options.dryRun, env.escape);
    if !options.dryRun {
      var args := PushArgs(options.atomic, options.remote, options.branch, Split(outputs.newReleaseGitTag, ','));
      trace := Trace(tagged, Some(args));
      var outcome := env.push(args);
      if outcome.PushFailed? {
        return Err(PushError(outcome.stdout, outcome.stderr)), trace;
      }
    }
    return Ok(outputs), trace;
  }
}
