# semver-tags in Dafny

A model of the release-deciding core of semver-tags, a tool that computes
the next semantic version of one or more packages of a git repository
from their conventional-commit history. It then tags and pushes the new
versions and reports them as comma-separated output fields.

The model covers two source files.

`core/semver/semver.go` is modelled by module `Semver`:
- the version value `Version` and the bump rules as value functions (`Bumped`, `MajorBumped`, `IncrementedPreRelease`, ...);
- the mutable `Semver` object, whose methods update its fields in place and are each specified by the value function of the same rule;
- uint32 counters that wrap around, and the `strconv.Atoi` and `%d` round trip of the pre-release counter.

`core/check_commits.go` is modelled by these modules:
- `Classify`: AnalyzeCommitMessage, the classification of a subject line.
- `Tags`: ParseVersionInfo, reading a `refname,hash` tag line, with the round trip from a formatted tag back to its package and version.
- `Lookup`: GetLatestVersion. The process-wide `latestTagInfo` slice becomes the field of a `TagCache` object that is filled on first use.
- `Analyze`: AnalyzeCommits, the history loop and the bump.
- `Output`: GenerateOutputs, the loop that builds the output fields, with lemmas about what each field splits into.
- `Tagging`: DoTagging, the whole run. It resolves the targets, computes each target's versions in place, creates the tags, generates the outputs and pushes.

The Go string helpers the core relies on live in module `Text`: `strings.Split`, `SplitN`, `Join`, `Trim*`, `strconv.Atoi`, `fmt.Sscanf("%d.%d.%d")` on uint32 and `%d`.

The git commands a run issues are not executed. Their outputs are inputs of the model, bundled in `Tagging.Environment`:
- `rev-parse`, `for-each-ref` and `rev-list` are a fixed output each;
- `git log` is a function from the range and the path to its output;
- `git tag` is a predicate on the tag name;
- `git push` is a function from its arguments to its outcome.

`filepath.Abs`, `path.Dir` and `EscapeStringForJSON` are parameters in the same way. A whole run, `Tagging.DoTagging`, is proved equal to the function `Tagging.Run`. That function returns the result and a `Trace` of the tags the run asked git to create and the arguments of its push.

### Where the code and its documented behaviour differ

The model follows the code in each case.

- **Whole-repository target.** It is created with `UseRoot` false, an empty directory and the repository root as full path (`core/check_commits.go:433`). Its history is therefore read under the trimmed root path, not under "./".
- **Empty pre-release request.** When neither the request nor the current version has a pre-release, the trimmed request "" equals the current track "" (`core/semver/semver.go:42-50`). BumpVersion then continues that empty track instead of bumping by the commit type: 0.1.0 becomes 0.1.0-.2 whatever the commits say (`Semver.EmptyRequestContinues`). A conventional-commit release tool would be expected to take baseline v0.1.0 with commits `fix: a` and `feat: b` to v0.2.0. The code gives 0.1.0-.2 (`Analyze.AnalyzedPatchThenFeature`).
- **Zero commits.** A target with no commits is not left unchanged for the same reason.
- **Push with an empty plan.** The push runs whenever the run is not a dry run and git refuses no tag, even when no tag was planned (`Tagging.PushUnlessDryRunOrRefused`). A run in which no version changed plans no tag and still pushes every target's next tag (`Tagging.UnchangedRunStillPushes`).
- **Empty next commit hash.** AnalyzeCommits builds the next version without a commit hash (`core/check_commits.go:292`), so new_release_git_head is always empty, whatever the number of targets (`Tagging.RunNextHeadEmpty`).
- **What the push lists.** It lists the next tag of every target, changed or not (`Tagging.PushListsNextTags`).
- **Pushed name versus tag name.** The tag created for a target is its package, '/' and version, with leading '/' trimmed. The name in the tag field and in the push is the package followed by '/' only when the package is non-empty. The two agree unless the package itself starts with '/', which happens for a root target of a repository at "/" (`Tagging.PlannedTagsPushed` states the agreement under that condition).

## Model

| member | source | states |
|---|---|---|
| Semver.MaxType | core/check_commits.go:270-272 | the running maximum is one of its two arguments and at least as severe as both |
| Semver.Inc32 | core/semver/semver.go:79 | `+= 1` on a uint32 is the successor modulo 2^32 and never leaves the counter unchanged |
| Semver.Semver.constructor | core/semver/semver.go:28-30 | a new object holds the triple with no pre-release and no build |
| Semver.Semver.Of | core/check_commits.go:147-155 | the object stands for exactly the stored version value |
| Semver.Semver.Clone | core/semver/semver.go:32-37 | the clone is a fresh object holding the same version |
| Semver.Semver.BumpMajor | core/semver/semver.go:78-84 | major goes up by one (wrapping), minor and patch become 0, pre-release and build are cleared |
| Semver.Semver.BumpMinor | core/semver/semver.go:86-91 | minor goes up by one (wrapping), patch becomes 0, pre-release and build are cleared, major is kept |
| Semver.Semver.BumpPatch | core/semver/semver.go:93-97 | patch goes up by one (wrapping), pre-release and build are cleared, major and minor are kept |
| Semver.Semver.IncrementPreRelease | core/semver/semver.go:99-115 | only the pre-release changes: first segment then ".2", ".1" or the counter plus one |
| Semver.Semver.BumpVersion | core/semver/semver.go:40-76 | the new version is the continuation of the requested track, the start of a new track, or the bump for the commit type |
| Semver.TripleSeparators | core/semver/semver.go:120 | the `%d.%d.%d` text holds none of '-', '+', ',' and '/' |
| Semver.SplitSegments | core/semver/semver.go:100-106 | a pre-release `p.q...` splits into first segment p and second segment q |
| Semver.IncrementedPreReleaseCases | core/semver/semver.go:99-115 | the three cases: no second segment gives ".2", a non-integer gives ".1", an integer n gives n + 1 |
| Semver.CounterIncrements | core/semver/semver.go:106-114 | a counter written in decimal is read back and goes up by exactly one |
| Semver.AtoiIntDecimal | core/semver/semver.go:107-114 | Atoi reads back every int64 that `%d` writes, and that text holds no '.' |
| Semver.IncrementChanges | core/semver/semver.go:99-115 | every continuation changes the pre-release |
| Semver.EmptyRequestContinues | core/semver/semver.go:42-50 | with no pre-release requested and an empty current track, any commit type continues the empty track; 0.1.0 gets pre-release ".2" |
| Semver.ContinuationCounts | core/semver/semver.go:42-50 | continuing a track at counter n gives counter n + 1 and keeps triple and build, whatever the commit type |
| Semver.NewTrackThenContinue | core/semver/semver.go:47-58 | requesting a new track starts it at ".1" and requesting it again continues it at ".2" |
| Semver.Semver.FormattedString | core/semver/semver.go:117-130 | the object's formatted string starts with 'v' and the `%d.%d.%d` scan reads its three numbers back; the full layout is `Tags.FormattedParts`, the round trip `Tags.ParseFormattedRoundTrip` |
| Semver.FormattedTriple | core/semver/semver.go:117-130 | the formatted string is "v" followed by text whose triple Sscanf reads back |
| Semver.TripleScans | core/check_commits.go:141-145 | the triple text is read back by the `%d.%d.%d` scan |
| Semver.FormattedFixesTriple | core/semver/semver.go:117-130 | equal formatted strings mean equal major, minor and patch |
| Semver.BumpedChangesFormat | core/semver/semver.go:40-76 | a continuation, or a bump for a conventional commit type, always changes the formatted version |
| Semver.TypeBumpChangesTriple | core/semver/semver.go:61-72 | a bump for a conventional commit type changes the numeric triple, even when a counter wraps |
| Semver.ContinuationFormatDiffers | core/semver/semver.go:122-124 | a changed pre-release changes the formatted version |
| Text.SplitOnce | core/check_commits.go:87 | `SplitN(s, sep, 2)`: two parts exactly when sep occurs, rejoined by sep to give s, the first without sep |
| Text.Split | core/check_commits.go:114 | `strings.Split` gives at least one part and no part contains the separator |
| Text.JoinSplit | core/check_commits.go:119-123 | joining the parts of a split with its separator gives the text back |
| Text.SplitJoin | core/check_commits.go:119-123 | splitting a join of separator-free parts gives the parts back |
| Text.TrimRight | core/check_commits.go:246 | the result is the longest prefix not ending in the cutset, and everything cut is in the cutset |
| Text.TrimLeft | core/check_commits.go:460 | the result is the longest suffix not starting with the cutset, and everything cut is in the cutset |
| Text.NonEmpty | core/check_commits.go:264-268 | a line is kept exactly when it is one of the input lines and not empty |
| Text.EscapeNewlines | core/check_commits.go:350-351 | no '\n' survives, and a text without '\r' or '\n' is unchanged |
| Text.LastSegment | core/check_commits.go:213-214 | the last part of a split holds no separator and ends the text, right after a separator or at its start |
| Text.SplitTrimmedTerminated | core/check_commits.go:354-366 | separator-terminated parts, trimmed of a cutset holding the separator, split back into the parts when the last part is non-empty and does not end in the cutset |
| Text.ScanTripleRefusesFirst | core/check_commits.go:142-145 | text that does not start, after white space, with a digit run below 2^32 is refused by the scan |
| Text.ScanTripleRefusesTwo | core/check_commits.go:142-145 | two numbers without a third are refused by the scan |
| Text.ScanTripleRefusesLarge | core/check_commits.go:142-145 | a first number of 2^32 or more does not fit a uint32 and is refused |
| Text.Atoi | core/semver/semver.go:107 | a parsed number is an int64 read from an optionally signed run of digits |
| Text.WrapIncrement64 | core/semver/semver.go:114 | `number+1` on an int64 stays in range and is the successor below the maximum |
| Text.AtoiDecimal | core/semver/semver.go:107 | Atoi reads back the decimal text of every non-negative int64 |
| Text.ScanTripleDecimal | core/check_commits.go:142 | the scan reads three decimal uint32 numbers separated by '.', whatever non-digit text follows |
| Text.TrimSurrounded | core/check_commits.go:170 | trimming c off a text whose run of c ends at i and starts again at j leaves s[i..j] |
| Text.TrimExactly | core/check_commits.go:170 | trimming c gives t, which neither starts nor ends with c, exactly when the text is t with only c around it |
| Text.SplitTrimmedEntries | core/check_commits.go:354-366 | separator-terminated parts, trimmed of a cutset holding the separator, split back into the parts when the last part does not end in the cutset or is the only part and empty |
| Text.SplitTerminated | core/check_commits.go:354-366 | a field of comma-terminated entries, with the trailing comma trimmed, splits back into its entries |
| Classify.AnalyzeCommitMessage | core/check_commits.go:82-90 | a line without ':' is not conventional |
| Classify.ClassifyByPrefix | core/check_commits.go:87-99 | only the text before the first ':' decides the classification |
| Classify.ClassifyConventional | core/check_commits.go:92-110 | `type[(scope)][!]: text` is major with a '!' marker, else the severity of its type |
| Classify.UnscopedPrefix | core/check_commits.go:93-99 | without a scope, the type and the optional marker decide |
| Classify.ScopedPrefix | core/check_commits.go:93-99 | with a scope, the text before '(' is the type and a final '!' is the marker |
| Classify.KnownTypes | core/check_commits.go:101-110 | the type match is exact and case-sensitive: "feat" minor, "fix" and "chore" patch, "Feat" not conventional |
| Classify.FeatureExample | core/check_commits.go:104-105 | `feat: ...` is minor |
| Classify.ChoreExample | core/check_commits.go:102-103 | `chore: ...` is a patch |
| Classify.ScopedBreakingExample | core/check_commits.go:97-98 | `fix(api)!: ...` is major |
| Classify.BreakingExample | core/check_commits.go:97-98 | `feat!: ...` is major |
| Classify.CaseSensitiveExample | core/check_commits.go:108-109 | `Feat: ...` is not conventional |
| Classify.ClassifyPlain | core/check_commits.go:101-110 | a plain `type: text` has the severity of its type |
| Classify.ClassifyBreaking | core/check_commits.go:97-98 | any `type[(scope)]!: text` is major |
| Tags.VersionComponents | core/check_commits.go:125-139 | a version text without '-' has neither pre-release nor build |
| Tags.ParseVersionInfo | core/check_commits.go:113-160 | a line without exactly two comma-separated fields is refused; the hash is the second field |
| Tags.TagName | core/check_commits.go:460 | the whole-repository package "" tags with the bare formatted version |
| Tags.FormattedStartsWithV | core/semver/semver.go:118 | the formatted version is non-empty and starts with 'v' |
| Tags.FormattedSeparators | core/semver/semver.go:117-130 | a round-tripping version formats without ',' or '/' |
| Tags.VersionComponentsSplit | core/check_commits.go:125-139 | `t[-pre][+build]` splits back into t, pre and build |
| Tags.FormattedParts | core/semver/semver.go:117-130 | after the 'v' come the triple, the pre-release suffix and the build suffix |
| Tags.SplitTagLine | core/check_commits.go:114-116 | a line of two comma-free fields splits into those two fields |
| Tags.TagNameParts | core/check_commits.go:119-123 | the tag name splits on '/' into the package's segments and the formatted version |
| Tags.ParseTagRoundTrip | core/check_commits.go:113-160 | a tag line built from a package, a round-tripping version and a hash parses back to exactly those |
| Tags.ParseFromParts | core/check_commits.go:113-160 | ParseVersionInfo assembles the package, version and hash its steps produce |
| Tags.ParseFormattedRoundTrip | core/check_commits.go:113-160 | formatting then parsing gives the version back for the whole-repository package |
| Tags.ParseVersionText | core/check_commits.go:113-145 | `package/vT,hash` is the version `T` scans to, under package and hash, or the invalid-version error naming T when the scan fails |
| Tags.TwoNumbersRefused | core/check_commits.go:142-145 | `pkg/v1.2,h`, two numbers only, is refused as an invalid version 1.2 |
| Tags.LargeNumberRefused | core/check_commits.go:142-145 | `pkg/v4294967296.0.0,h`, a major above the uint32 range, is refused as an invalid version |
| Tags.NoDigitRefused | core/check_commits.go:142-145 | a version text starting with neither a digit nor white space is refused as an invalid version |
| Tags.BuildWithoutPreReleaseLost | core/check_commits.go:125-145 | a build without a pre-release is lost: `v1.2.3+b` reads back with no build |
| Lookup.ParseTagLines | core/check_commits.go:197-208 | parsing the tag lines keeps at most one entry per line |
| Lookup.ParseTagLinesStops | core/check_commits.go:202-205 | once a line fails, later lines are not read |
| Lookup.ParseTagLinesAllGood | core/check_commits.go:197-208 | when every non-empty line parses, there is one entry per non-empty line, in order, and no error |
| Lookup.ParseTagLinesFirstBad | core/check_commits.go:202-205 | the first bad line stops the fill with its error, keeping the entries before it |
| Lookup.Filled | core/check_commits.go:189-209 | a non-empty cache is kept; an empty one with a failed listing gives the listing error |
| Lookup.PackageName | core/check_commits.go:213-217 | the root's package name is its directory; any other is the last '/'-free segment of the directory with trailing '/' trimmed, so a directory without '/' is its own name |
| Lookup.FindTag | core/check_commits.go:218-228 | the index found is the first matching entry, and no entry matches when none is found |
| Lookup.LatestVersionCases | core/check_commits.go:218-228 | the first matching tag gives the version and hash, under the target's package name |
| Lookup.LatestVersionBaseline | core/check_commits.go:230-241 | without a matching tag the last version is 0.1.0 at the first root commit |
| Lookup.TagCache.constructor | core/check_commits.go:80 | the cache starts empty |
| Lookup.TagCache.Fill | core/check_commits.go:189-209 | the cache and the error after a fill are exactly `Filled` of the old cache |
| Lookup.TagCache.Find | core/check_commits.go:218-228 | the loop returns the index `FindTag` specifies |
| Lookup.TagCache.GetLatestVersion | core/check_commits.go:186-242 | the cache is filled once, and the result is the fill's error or the latest version from the filled cache |
| Analyze.PackagePath | core/check_commits.go:245-252 | the history is read under "./" for the root, else the trimmed directory, else the trimmed full path |
| Analyze.HighestBounds | core/check_commits.go:261-272 | the highest severity is at least every line's and, when there are lines, equals some line's |
| Analyze.ScanCommits | core/check_commits.go:261-286 | the notes are the non-empty lines in git's order, and the severity is their highest |
| Analyze.AnalyzeCommits | core/check_commits.go:244-295 | a failing git log is a history error; otherwise the target gets its notes and the bumped version |
| Analyze.HighestOfTwo | core/check_commits.go:269-272 | two lines give the more severe of their two classifications, the first one when both are equally severe |
| Analyze.TwoLines | core/check_commits.go:264-268 | the output of two commits gives their two lines as notes, newest first |
| Analyze.AnalyzedPatchThenFeature | core/check_commits.go:244-295 | from 0.1.0, a patch and a feature commit give notes in git's order, severity Minor and version 0.1.0-.2 |
| Output.EscapeNotes | core/check_commits.go:326-335 | the loop's text is every note escaped and quoted, joined by ',' |
| Output.QuotedNotesJoined | core/check_commits.go:326-334 | trimming the trailing ',' off the comma-terminated quoted notes leaves them joined by ',' |
| Output.NotesMemberText | core/check_commits.go:336 | the loop writes one member `"package_<p>":[...]` per target |
| Output.GenerateOutputs | core/check_commits.go:306-369 | the loop builds the record `Generated` specifies |
| Output.Flags | core/check_commits.go:312-316 | there is one published flag per target |
| Output.FlagsAt | core/check_commits.go:312-316 | the k-th flag is "true" or "false" as the k-th target's version changed |
| Output.NextTags | core/check_commits.go:338-342 | there is one next tag per target |
| Output.NextTagsAt | core/check_commits.go:338-342 | the k-th next tag is the k-th target's |
| Output.NotesMembers | core/check_commits.go:336 | there is one notes member per target |
| Output.RawStep | core/check_commits.go:311-346 | each loop pass appends exactly one target's entries |
| Output.RawPublished | core/check_commits.go:312-316 | before trimming, the published field is the flags, each followed by ',' |
| Output.RawNextTags | core/check_commits.go:338-342 | before trimming, the tag field is the next tags, each followed by ',' |
| Output.RawNotesJson | core/check_commits.go:310-336 | before trimming, the notes JSON is its head followed by the members, each followed by ',' |
| Output.RawDryRun | core/check_commits.go:337 | before trimming, the dry-run field is the flag once per target, each followed by ',' |
| Output.BoolTextCases | core/check_commits.go:337 | FormatBool gives "true" exactly for true and "false" exactly for false, without ',' |
| Output.PublishedSplit | core/check_commits.go:312-354 | the published field splits into the targets' flags |
| Output.PublishedFlags | core/check_commits.go:312-354 | the k-th published entry is "true" exactly when the k-th target's formatted version changed, "false" otherwise |
| Output.NextTagList | core/check_commits.go:338-363 | with comma-free names, the tag field splits into every target's next tag, in order |
| Output.NextTagCommaFree | core/check_commits.go:342 | a next tag of comma-free parts holds no ',' |
| Output.NextTagIsTagName | core/check_commits.go:460 | the output tag is the created tag name when the package does not start with '/' |
| Output.NotesJsonShape | core/check_commits.go:348-351 | the notes JSON is one object with the members joined by ',', line breaks escaped |
| Output.ClosedJson | core/check_commits.go:348-349 | trimming the trailing ',' off the terminated members leaves them joined by ',' |
| Output.DryRunSplit | core/check_commits.go:337-361 | the dry-run field splits into the flag once per target |
| Output.DryRunColumn | core/check_commits.go:337-361 | every dry-run entry is the run's flag, one per target |
| Output.RawColumn | core/check_commits.go:318-345 | before trimming, each value column is the targets' entries, each followed by ',' |
| Output.TrimmedColumn | core/check_commits.go:355-366 | finishing trims ',' off each column, and ",\n" off the package column |
| Output.ColumnSplit | core/check_commits.go:318-366 | a column of comma-free entries splits into the targets' entries, in order, when its last entry does not end in the cutset or is the empty entry of the only target |
| Output.NextVersionColumn | core/check_commits.go:320-355 | the version field lists every target's next `%d.%d.%d`, in order, which the scan reads back to its three numbers |
| Output.LastVersionColumn | core/check_commits.go:343-364 | the last-version field lists every target's last `%d.%d.%d`, in order, which the scan reads back to its three numbers |
| Output.NumberColumns | core/check_commits.go:321-358 | the major, minor and patch fields list every target's next numbers in decimal, in order, each read back to its number |
| Output.LastTagColumn | core/check_commits.go:338-366 | the last-tag field lists every target's package prefix and last formatted version, in order |
| Output.NextHeadEmpty | core/check_commits.go:324-359 | when every target's next hash is empty, the next-head field is "" and splits into the single entry "" |
| Output.LastHeadColumn | core/check_commits.go:344-365 | the last-head field lists every target's last commit hash, in order |
| Output.PackageColumn | core/check_commits.go:318-362 | the package field lists every target's package, in order, including the empty package of the single whole-repository target |
| Tagging.IsGitRepo | core/check_commits.go:162-173 | inside a work tree exactly when git succeeds and its output is "true" with only '\n' before and after it, which is what trimming '\n' and comparing with "true" decides |
| Tagging.IsGitRepoAnswers | core/check_commits.go:162-173 | git's "true\n" means inside a work tree; "false\n" or a failed command means outside |
| Tagging.GitRootDir | core/check_commits.go:175-184 | the root is an error exactly when git fails, else its output trimmed of newlines |
| Tagging.BaseNameOfPath | core/check_commits.go:423 | the base name of `parent/name` is name |
| Tagging.Target | core/check_commits.go:416-431 | the repository root becomes its base name under the root's parent; other directories become the trimmed directory under the root |
| Tagging.Targets | core/check_commits.go:416-431 | there is one target per directory |
| Tagging.TargetsAt | core/check_commits.go:416-431 | the k-th target is that of the k-th directory |
| Tagging.ResolvedTargets | core/check_commits.go:410-434 | no directories give the single whole-repository target; otherwise one target per directory |
| Tagging.ResolveTargets | core/check_commits.go:410-434 | the loop builds the targets `ResolvedTargets` specifies |
| Tagging.ComputedTarget | core/check_commits.go:437-449 | a computed target has both versions and keeps its directory, full path and root flag |
| Tagging.ComputedTargets | core/check_commits.go:437-450 | a successful computation has one result per target |
| Tagging.ComputedTargetsStop | core/check_commits.go:440-448 | once a target fails, later targets are not computed |
| Tagging.ComputedTargetsAt | core/check_commits.go:437-450 | the k-th result is the step applied to the k-th target |
| Tagging.ComputedRun | core/check_commits.go:436-450 | a successful computation has one result per target |
| Tagging.Computation | core/check_commits.go:436-450 | a successful computation has one computed result per target |
| Tagging.FilledStable | core/check_commits.go:189-190 | a cache filled without error is not filled again |
| Tagging.ComputedRunComputed | core/check_commits.go:437-450 | every result is computed and keeps its target's directory, full path and root flag |
| Tagging.ComputeTarget | core/check_commits.go:438-449 | the cache is filled once, and the target's result is the fill's error or the computed target |
| Tagging.ComputeAll | core/check_commits.go:436-450 | the loop computes the targets in place as `ComputedRun` specifies; the first error stops it |
| Tagging.PlannedTags | core/check_commits.go:453-473 | at most one tag is planned per target |
| Tagging.Attempted | core/check_commits.go:462-472 | the tags attempted are a prefix of the plan, and all of it when none failed |
| Tagging.AttemptedOutcome | core/check_commits.go:466-471 | without a failure every tag was created; with one, it is the last tag attempted and git created every tag before it |
| Tagging.AttemptedStops | core/check_commits.go:469-471 | once a tag fails, later tags are not attempted |
| Tagging.PlannedTagsStep | core/check_commits.go:453-460 | a target adds its tag to the plan exactly when its formatted version changed |
| Tagging.CreateTags | core/check_commits.go:453-473 | a dry run creates nothing; otherwise the planned tags are attempted in order up to the first failure |
| Tagging.PushArgs | core/check_commits.go:478-484 | the push arguments are "push", "--atomic" exactly when asked, the remote and branch, then the tags, and nothing else |
| Tagging.TagFailureStopsPush | core/check_commits.go:467-471 | a refused tag stops the run before the push and is reported; every earlier tag was created |
| Tagging.DryRunLeavesNoTrace | core/check_commits.go:463-477 | a dry run creates no tag and pushes nothing |
| Tagging.PushFollowsTags | core/check_commits.go:477-487 | a push happens only outside a dry run, after git created every planned tag |
| Tagging.PushListsNextTags | core/check_commits.go:478-486 | the push lists every target's next tag, in order, changed or not |
| Tagging.PushUnlessDryRunOrRefused | core/check_commits.go:462-486 | outside a dry run and with no tag refused, every planned tag is created and the push lists the entries of the tag field, even for an empty plan |
| Tagging.UnchangedRunStillPushes | core/check_commits.go:453-486 | a run in which no version changed plans no tag and, outside a dry run, still pushes the tag field |
| Tagging.PushRecorded | core/check_commits.go:477-486 | the push, failed or not, is recorded with the arguments built from the tag field |
| Tagging.TailNextTags | core/check_commits.go:478-484 | push arguments built from the next tags end with those tags, in order |
| Tagging.PublishedPush | core/check_commits.go:475-487 | a push means no dry run and all planned tags created; its arguments come from the tag field |
| Tagging.PlannedTagsPushed | core/check_commits.go:460-484 | every planned tag is among the next tags, when no package starts with '/' |
| Tagging.PublishedOutputs | core/check_commits.go:475-512 | a successful publication returns the record the outputs generate |
| Tagging.RunNextHeadEmpty | core/check_commits.go:292-359 | every successful run reports an empty new_release_git_head, because AnalyzeCommits never sets the next version's commit hash |
| Tagging.DoTagging | core/check_commits.go:388-528 | a run returns what `Run` specifies and leaves the cache filled once the repository checks pass |
| Tagging.Publish | core/check_commits.go:453-512 | tagging, output generation and push give the result and trace `Published` specifies: a refused tag stops the run, a dry run pushes nothing, and any other run pushes the tag field even when no tag was planned |

## Left out

- Logging (`logging.Log`) and the `Printable` formatters are left out. They have no effect on the result.
- The GitHub Actions sink (`SetGithubActionOutputs`) and the JSON print of the outputs (`json.Marshal`, `fmt.Print`) are left out. They only publish the record the model computes.
- The stdout and stderr pipes of the push are left out. Their creation or read errors are not modelled: the push is one outcome, success or failure with its two outputs.
- `EscapeStringForJSON` is a parameter function. Its error branch, which logs and skips a note, is not modelled, because `json.Marshal` of a Go string does not fail.
- Git commands are not executed. Their outputs are inputs, and each command gives the same output to every target of a run.
- The messages of the errors are a closed `Error` datatype rather than Go's formatted strings.
- `filepath.Abs` and `path.Dir` are parameter functions. The error of `filepath.Abs` is ignored, as in the source.
- The `preRelease` parameter of GetLatestVersion is left out. The source never uses it.
- Analyze.AnalyzeCommits: requires a last version. The source dereferences it and would panic on nil, and its caller always sets it first.
- Output.NextTagList: stated only for packages, pre-releases and builds without ','. With a ',' the tag field no longer splits into one entry per target.
- Tagging.PushListsNextTags: stated only for packages, pre-releases and builds without ',', for the same reason.
- Output.LastTagColumn: stated only for packages, pre-releases and builds without ','. With a ',' the field no longer splits into one entry per target.
- Output.LastHeadColumn: stated only for comma-free last commit hashes, and with an empty last hash only for a single target. A cached tag line carries whatever text follows its first ',' as the hash.
- Output.NextHeadEmpty: stated only when every next hash is empty. AnalyzeCommits never sets one, so this is every run (`Tagging.RunNextHeadEmpty`).
- Output.PackageColumn: stated only for comma-free packages whose last one does not end in a newline, because the trim of ",\n" would also cut into that package, and with an empty last package only for a single target.
- Tagging.PlannedTagsPushed: stated only for packages that do not start with '/'. For such a package the created tag and the pushed name differ.
- The process-wide `latestTagInfo` slice is a `TagCache` object passed to the run. Concurrency is not modelled, since the source has none.
