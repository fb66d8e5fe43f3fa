/** The export record of a run (GenerateOutputs in core/check_commits.go):
    every field is the per-target entries, in target order, each followed
    by a delimiter, with the trailing delimiters trimmed at the end. */
module Output {
  import opened Text
  import opened Semver
  import opened Records
  import opened Tags

  datatype Outputs = Outputs(
    newReleasePublished: string,
    newReleaseVersion: string,
    newReleaseMajorVersion: string,
    newReleaseMinorVersion: string,
    newReleasePatchVersion: string,
    newReleaseGitHead: string,
    newReleaseNotes: string,
    newReleaseNotesJson: string,
    dryRun: string,
    releasePackage: string,
    newReleaseGitTag: string,
    lastReleaseVersion: string,
    lastReleaseGitHead: string,
    lastReleaseGitTag: string)

  /** A target whose last and next versions have both been computed. */
  predicate Computed(r: DirectoryVersionInfo)
  {
    r.lastVersion.Some? && r.nextVersion.Some?
  }

  predicate AllComputed(results: seq<DirectoryVersionInfo>)
  {
    forall k :: 0 <= k < |results| ==> Computed(results[k])
  }

  /** strconv.FormatBool. */
  function BoolText(b: bool): string
  {
    if b then "true" else "false"
  }

  /** The flag followed by ',', as the loop writes it. */
  lemma BoolTextComma(b: bool)
    ensures BoolText(b) + "," == if b then "true," else "false,"
  {
  }

  /** The release is published when the formatted versions differ. */
  predicate Changed(r: DirectoryVersionInfo)
    requires Computed(r)
  {
    Formatted(r.nextVersion.value.version) != Formatted(r.lastVersion.value.version)
  }

  /** The package followed by '/' when it is non-empty. */
  function Prepended(package: string): string
  {
    if package != "" then package + "/" else ""
  }

  /** One release note as a JSON string, with the given escaping of its text. */
  function Quoted(note: string, escape: string -> string): string
  {
    "\"" + escape(note) + "\""
  }

  /** The notes as JSON strings, each followed by ','. */
  function QuotedNotes(notes: seq<string>, escape: string -> string): string
  {
    if notes == [] then "" else QuotedNotes(notes[..|notes| - 1], escape) + Quoted(Last(notes), escape) + ","
  }

  /** Each note as a JSON string, in order. */
  function QuotedEach(notes: seq<string>, escape: string -> string): seq<string>
  {
    seq(|notes|, k requires 0 <= k < |notes| => Quoted(notes[k], escape))
  }

  /** The notes, each quoted and followed by ',', with the commas trimmed
      off the end, are the quoted notes joined by ','. No comma of a note's
      own text is trimmed, since every quoted note ends in '"'. */
  lemma QuotedNotesJoined(notes: seq<string>, escape: string -> string)
    ensures TrimRight(QuotedNotes(notes, escape), ",") == Join(QuotedEach(notes, escape), ",")
  {
    QuotedNotesTerminated(notes, escape);
    if notes != [] {
      var quoted := QuotedEach(notes, escape);
      assert Last(quoted) == Quoted(Last(notes), escape);
      TrimTerminated(quoted, ',');
    }
  }

  lemma {:induction false} QuotedNotesTerminated(notes: seq<string>, escape: string -> string)
    ensures QuotedNotes(notes, escape) == Terminated(QuotedEach(notes, escape), ",")
  {
    if notes != [] {
      var init := notes[..|notes| - 1];
      QuotedNotesTerminated(init, escape);
      assert QuotedEach(notes, escape) == QuotedEach(init, escape) + [Quoted(Last(notes), escape)];
      TerminatedSnoc(QuotedEach(init, escape), Quoted(Last(notes), escape), ",");
    }
  }

  const JSON_HEAD := "{\"new_release_notes_escaped\":{"

  /** The JSON member for the notes of one target: its package, then the
      notes as JSON strings separated by ','. */
  function NotesMember(package: string, notes: seq<string>, escape: string -> string): string
  {
    "\"package_" + package + "\":[" + Join(QuotedEach(notes, escape), ",") + "]"
  }

  /** The record before the loop: every field empty but the notes JSON,
      which starts with the head of its object. */
  const INITIAL := Outputs("", "", "", "", "", "", "", JSON_HEAD, "", "", "", "", "", "")

  /** What one pass of the loop makes of the record: each field grows by
      the target's entry and a delimiter (",\n" after the notes, ','
      elsewhere). The tags of both versions take the next version's package. */
  function Appended(o: Outputs, r: DirectoryVersionInfo, dryRun: bool, escape: string -> string): Outputs
    requires Computed(r)
  {
    var next, last := r.nextVersion.value, r.lastVersion.value;
    o.(
      newReleasePublished := o.newReleasePublished + (if Changed(r) then "true," else "false,"),
      releasePackage := o.releasePackage + (next.package + ","),
      newReleaseVersion := o.newReleaseVersion + (Triple(next.version) + ","),
      newReleaseMajorVersion := o.newReleaseMajorVersion + (Decimal(next.version.major) + ","),
      newReleaseMinorVersion := o.newReleaseMinorVersion + (Decimal(next.version.minor) + ","),
      newReleasePatchVersion := o.newReleasePatchVersion + (Decimal(next.version.patch) + ","),
      newReleaseGitHead := o.newReleaseGitHead + (next.commitHash + ","),
      newReleaseNotes := o.newReleaseNotes + (Join(r.releaseNotes, "\n") + ",\n"),
      newReleaseNotesJson := o.newReleaseNotesJson + (NotesMember(next.package, r.releaseNotes, escape) + ","),
      dryRun := o.dryRun + (BoolText(dryRun) + ","),
      newReleaseGitTag := o.newReleaseGitTag + (Prepended(next.package) + Formatted(next.version) + ","),
      lastReleaseVersion := o.lastReleaseVersion + (Triple(last.version) + ","),
      lastReleaseGitHead := o.lastReleaseGitHead + (last.commitHash + ","),
      lastReleaseGitTag := o.lastReleaseGitTag + (Prepended(next.package) + Formatted(last.version) + ","))
  }

  /** The record as the loop leaves it after the given targets. */
  function Raw(results: seq<DirectoryVersionInfo>, dryRun: bool, escape: string -> string): Outputs
    requires AllComputed(results)
  {
    if results == [] then INITIAL
    else Appended(Raw(results[..|results| - 1], dryRun, escape), Last(results), dryRun, escape)
  }

  /** The record with its fields finished: the trailing delimiters trimmed
      (",\n" for the notes and the packages, ',' elsewhere), and the notes
      JSON closed and its line breaks escaped. */
  function Trimmed(raw: Outputs): Outputs
  {
    raw.(
      newReleasePublished := TrimRight(raw.newReleasePublished, ","),
      newReleaseVersion := TrimRight(raw.newReleaseVersion, ","),
      newReleaseMajorVersion := TrimRight(raw.newReleaseMajorVersion, ","),
      newReleaseMinorVersion := TrimRight(raw.newReleaseMinorVersion, ","),
      newReleasePatchVersion := TrimRight(raw.newReleasePatchVersion, ","),
      newReleaseGitHead := TrimRight(raw.newReleaseGitHead, ","),
      newReleaseNotes := TrimRight(raw.newReleaseNotes, ",\n"),
      newReleaseNotesJson := EscapeNewlines(TrimRight(raw.newReleaseNotesJson, ",") + "}}"),
      dryRun := TrimRight(raw.dryRun, ","),
      releasePackage := TrimRight(raw.releasePackage, ",\n"),
      newReleaseGitTag := TrimRight(raw.newReleaseGitTag, ","),
      lastReleaseVersion := TrimRight(raw.lastReleaseVersion, ","),
      lastReleaseGitHead := TrimRight(raw.lastReleaseGitHead, ","),
      lastReleaseGitTag := TrimRight(raw.lastReleaseGitTag, ","))
  }

  /** The record GenerateOutputs returns. */
  function Generated(results: seq<DirectoryVersionInfo>, dryRun: bool, escape: string -> string): Outputs
    requires AllComputed(results)
  {
    Trimmed(Raw(results, dryRun, escape))
  }

  /** The JSON strings of one target's notes, separated by ','. */
  method EscapeNotes(notes: seq<string>, escape: string -> string) returns (escaped: string)
    ensures escaped == Join(QuotedEach(notes, escape), ",")
  {
    escaped := "";
    for j := 0 to |notes|
      invariant escaped == QuotedNotes(notes[..j], escape)
    {
      assert notes[..j + 1][..j] == notes[..j];
      escaped := escaped + "\"" + escape(notes[j]) + "\",";
    }
    assert notes[..|notes|] == notes;
    escaped := TrimRight(escaped, ",");
    QuotedNotesJoined(notes, escape);
  }

  /** The member the loop writes for one target's notes is NotesMember. */
  lemma NotesMemberText(package: string, notes: seq<string>, escape: string -> string, escaped: string)
    requires escaped == Join(QuotedEach(notes, escape), ",")
    ensures "\"package_" + package + "\":[" + escaped + "]," == NotesMember(package, notes, escape) + ","
  {
  }

  /** GenerateOutputs, with EscapeStringForJSON given as the function escape. */
  method GenerateOutputs(results: seq<DirectoryVersionInfo>, dryRun: bool, escape: string -> string)
    returns (retVal: Outputs)
    requires AllComputed(results)
    ensures retVal == Generated(results, dryRun, escape)
  {
    retVal := INITIAL;
    for i := 0 to |results|
      invariant retVal == Raw(results[..i], dryRun, escape)
    {
      assert results[..i + 1][..i] == results[..i];
      var result := results[i];
      var next, last := result.nextVersion.value, result.lastVersion.value;
      if Formatted(next.version) == Formatted(last.version) {
        retVal := retVal.(newReleasePublished := retVal.newReleasePublished + "false,");
      } else {
        retVal := retVal.(newReleasePublished := retVal.newReleasePublished + "true,");
      }
      retVal := retVal.(releasePackage := retVal.releasePackage + (next.package + ","));
      retVal := retVal.(newReleaseVersion := retVal.newReleaseVersion + (Triple(next.version) + ","));
      retVal := retVal.(newReleaseMajorVersion := retVal.newReleaseMajorVersion + (Decimal(next.version.major) + ","));
      retVal := retVal.(newReleaseMinorVersion := retVal.newReleaseMinorVersion + (Decimal(next.version.minor) + ","));
      retVal := retVal.(newReleasePatchVersion := retVal.newReleasePatchVersion + (Decimal(next.version.patch) + ","));
      retVal := retVal.(newReleaseGitHead := retVal.newReleaseGitHead + (next.commitHash + ","));
      retVal := retVal.(newReleaseNotes := retVal.newReleaseNotes + (Join(result.releaseNotes, "\n") + ",\n"));
      var resultEscapedReleaseNotes := EscapeNotes(result.releaseNotes, escape);
      retVal := retVal.(newReleaseNotesJson := retVal.newReleaseNotesJson
        + ("\"package_" + next.package + "\":[" + resultEscapedReleaseNotes + "],"));
      retVal := retVal.(dryRun := retVal.dryRun + (BoolText(dryRun) + ","));
      var prependedPackage := next.package;
      if next.package != "" {
        prependedPackage := prependedPackage + "/";
      }
      retVal := retVal.(newReleaseGitTag := retVal.newReleaseGitTag + (prependedPackage + Formatted(next.version) + ","));
      retVal := retVal.(lastReleaseVersion := retVal.lastReleaseVersion + (Triple(last.version) + ","));
      retVal := retVal.(lastReleaseGitHead := retVal.lastReleaseGitHead + (last.commitHash + ","));
      retVal := retVal.(lastReleaseGitTag := retVal.lastReleaseGitTag + (prependedPackage + Formatted(last.version) + ","));
      NotesMemberText(next.package, result.releaseNotes, escape, resultEscapedReleaseNotes);
      BoolTextComma(Changed(result));
    }
    assert results[..|results|] == results;
    retVal := retVal.(newReleaseNotesJson := TrimRight(retVal.newReleaseNotesJson, ","));
    retVal := retVal.(newReleaseNotesJson := retVal.newReleaseNotesJson + "}}");
    retVal := retVal.(newReleaseNotesJson := EscapeNewlines(retVal.newReleaseNotesJson));

    retVal := retVal.(newReleasePublished := TrimRight(retVal.newReleasePublished, ","));
    retVal := retVal.(newReleaseVersion := TrimRight(retVal.newReleaseVersion, ","));
    retVal := retVal.(newReleaseMajorVersion := TrimRight(retVal.newReleaseMajorVersion, ","));
    retVal := retVal.(newReleaseMinorVersion := TrimRight(retVal.newReleaseMinorVersion, ","));
    retVal := retVal.(newReleasePatchVersion := TrimRight(retVal.newReleasePatchVersion, ","));
    retVal := retVal.(newReleaseGitHead := TrimRight(retVal.newReleaseGitHead, ","));
    retVal := retVal.(newReleaseNotes := TrimRight(retVal.newReleaseNotes, ",\n"));
    retVal := retVal.(dryRun := TrimRight(retVal.dryRun, ","));
    retVal := retVal.(releasePackage := TrimRight(retVal.releasePackage, ",\n"));
    retVal := retVal.(newReleaseGitTag := TrimRight(retVal.newReleaseGitTag, ","));
    retVal := retVal.(lastReleaseVersion := TrimRight(retVal.lastReleaseVersion, ","));
    retVal := retVal.(lastReleaseGitHead := TrimRight(retVal.lastReleaseGitHead, ","));
    retVal := retVal.(lastReleaseGitTag := TrimRight(retVal.lastReleaseGitTag, ","));
  }

  // ---------------------------------------------------------------------
  // What the fields hold

  /** The published flag of each target, in order. */
  function Flags(results: seq<DirectoryVersionInfo>): (flags: seq<string>)
    requires AllComputed(results)
    ensures |flags| == |results|
  {
    if results == [] then [] else Flags(results[..|results| - 1]) + [BoolText(Changed(Last(results)))]
  }

  lemma {:induction false} FlagsAt(results: seq<DirectoryVersionInfo>, k: nat)
    requires AllComputed(results) && k < |results|
    ensures Flags(results)[k] == BoolText(Changed(results[k]))
  {
    var n := |results|;
    var init := results[..n - 1];
    if k < n - 1 {
      FlagsAt(init, k);
      assert init[k] == results[k];
      assert Flags(results)[k] == Flags(init)[k];
    } else {
      assert results[k] == Last(results);
    }
  }

  /** The tag of a target's next version as the tag field writes it. */
  function NextTag(r: DirectoryVersionInfo): string
    requires Computed(r)
  {
    Prepended(r.nextVersion.value.package) + Formatted(r.nextVersion.value.version)
  }

  /** The next tag of each target, in order. */
  function NextTags(results: seq<DirectoryVersionInfo>): (tags: seq<string>)
    requires AllComputed(results)
    ensures |tags| == |results|
  {
    if results == [] then [] else NextTags(results[..|results| - 1]) + [NextTag(Last(results))]
  }

  lemma {:induction false} NextTagsAt(results: seq<DirectoryVersionInfo>, k: nat)
    requires AllComputed(results) && k < |results|
    ensures NextTags(results)[k] == NextTag(results[k])
  {
    var n := |results|;
    var init := results[..n - 1];
    if k < n - 1 {
      NextTagsAt(init, k);
      assert init[k] == results[k];
      assert NextTags(results)[k] == NextTags(init)[k];
    } else {
      assert results[k] == Last(results);
    }
  }

  /** The notes member of each target, in order. */
  function NotesMembers(results: seq<DirectoryVersionInfo>, escape: string -> string): (members: seq<string>)
    requires AllComputed(results)
    ensures |members| == |results|
  {
    if results == [] then []
    else
      var r := Last(results);
      NotesMembers(results[..|results| - 1], escape) + [NotesMember(r.nextVersion.value.package, r.releaseNotes, escape)]
  }

  /** The same text n times. */
  function Repeated(text: string, n: nat): (r: seq<string>)
    ensures |r| == n
  {
    if n == 0 then [] else Repeated(text, n - 1) + [text]
  }

  lemma {:induction false} RepeatedAt(text: string, n: nat, k: nat)
    requires k < n
    ensures Repeated(text, n)[k] == text
  {
    if k < n - 1 {
      RepeatedAt(text, n - 1, k);
    }
  }

  /** The loop's record after one more target. */
  lemma RawStep(results: seq<DirectoryVersionInfo>, dryRun: bool, escape: string -> string)
    requires AllComputed(results) && results != []
    ensures Raw(results, dryRun, escape)
         == Appended(Raw(results[..|results| - 1], dryRun, escape), Last(results), dryRun, escape)
  {
  }

  /** Before trimming, the published field is the flags each followed by ','. */
  lemma {:induction false} RawPublished(results: seq<DirectoryVersionInfo>, dryRun: bool, escape: string -> string)
    requires AllComputed(results)
    ensures Raw(results, dryRun, escape).newReleasePublished == Terminated(Flags(results), ",")
  {
    if results != [] {
      var init := results[..|results| - 1];
      RawPublished(init, dryRun, escape);
      var flag := BoolText(Changed(Last(results)));
      RawStep(results, dryRun, escape);
      assert Flags(results) == Flags(init) + [flag];
      TerminatedSnoc(Flags(init), flag, ",");
    }
  }

  /** Before trimming, the tag field is the next tags each followed by ','. */
  lemma {:induction false} RawNextTags(results: seq<DirectoryVersionInfo>, dryRun: bool, escape: string -> string)
    requires AllComputed(results)
    ensures Raw(results, dryRun, escape).newReleaseGitTag == Terminated(NextTags(results), ",")
  {
    if results != [] {
      var init := results[..|results| - 1];
      RawNextTags(init, dryRun, escape);
      TerminatedSnoc(NextTags(init), NextTag(Last(results)), ",");
    }
  }

  /** Before trimming, the notes JSON is the head followed by the members,
      each followed by ','. */
  lemma {:induction false} RawNotesJson(results: seq<DirectoryVersionInfo>, dryRun: bool, escape: string -> string)
    requires AllComputed(results)
    ensures Raw(results, dryRun, escape).newReleaseNotesJson == JSON_HEAD + Terminated(NotesMembers(results, escape), ",")
  {
    if results != [] {
      var init := results[..|results| - 1];
      RawNotesJson(init, dryRun, escape);
      var r := Last(results);
      var member := NotesMember(r.nextVersion.value.package, r.releaseNotes, escape);
      TerminatedSnoc(NotesMembers(init, escape), member, ",");
      AppendAssociates(JSON_HEAD, Terminated(NotesMembers(init, escape), ","), member + ",");
    }
  }

  /** Before trimming, the dry-run field is the flag once per target, each
      followed by ','. */
  lemma {:induction false} RawDryRun(results: seq<DirectoryVersionInfo>, dryRun: bool, escape: string -> string)
    requires AllComputed(results)
    ensures Raw(results, dryRun, escape).dryRun == Terminated(Repeated(BoolText(dryRun), |results|), ",")
  {
    if results != [] {
      var n := |results|;
      RawDryRun(results[..n - 1], dryRun, escape);
      TerminatedSnoc(Repeated(BoolText(dryRun), n - 1), BoolText(dryRun), ",");
    }
  }

  /** The flag text is "true" exactly when the flag is set, and holds no ','. */
  lemma BoolTextCases(b: bool)
    ensures BoolText(b) == "true" <==> b
    ensures BoolText(b) == "false" <==> !b
    ensures BoolText(b) != "" && ',' !in BoolText(b)
  {
  }

  /** The published field splits into the flags of the targets. */
  lemma PublishedSplit(results: seq<DirectoryVersionInfo>, dryRun: bool, escape: string -> string)
    requires AllComputed(results) && results != []
    ensures Split(Generated(results, dryRun, escape).newReleasePublished, ',') == Flags(results)
  {
    var flags := Flags(results);
    RawPublished(results, dryRun, escape);
    forall k | 0 <= k < |flags|
      ensures ',' !in flags[k]
    {
      FlagsAt(results, k);
      BoolTextCases(Changed(results[k]));
    }
    BoolTextCases(Changed(Last(results)));
    SplitTerminated(flags, ',');
  }

  /** The published field lists, for each target in order, "true" exactly
      when its next version is written differently from its last one, and
      "false" otherwise. */
  lemma PublishedFlags(results: seq<DirectoryVersionInfo>, dryRun: bool, escape: string -> string)
    requires AllComputed(results) && results != []
    ensures var flags := Split(Generated(results, dryRun, escape).newReleasePublished, ',');
      && |flags| == |results|
      && (forall k :: 0 <= k < |results| ==> (flags[k] == "true" <==> Changed(results[k])))
      && (forall k :: 0 <= k < |results| ==> (flags[k] == "false" <==> !Changed(results[k])))
  {
    PublishedSplit(results, dryRun, escape);
    forall k | 0 <= k < |results|
      ensures Flags(results)[k] == BoolText(Changed(results[k]))
    {
      FlagsAt(results, k);
      BoolTextCases(Changed(results[k]));
    }
  }

  /** With comma-free packages and versions, the tag field lists the next
      tag of every target in order, whether its version changed or not. */
  lemma NextTagList(results: seq<DirectoryVersionInfo>, dryRun: bool, escape: string -> string)
    requires AllComputed(results) && results != []
    requires forall k :: 0 <= k < |results| ==>
      ',' !in results[k].nextVersion.value.package
      && ',' !in results[k].nextVersion.value.version.preRelease
      && ',' !in results[k].nextVersion.value.version.build
    ensures var tags := Split(Generated(results, dryRun, escape).newReleaseGitTag, ',');
      && |tags| == |results|
      && forall k {:trigger NextTag(results[k])} :: 0 <= k < |results| ==> tags[k] == NextTag(results[k])
  {
    var tags := NextTags(results);
    RawNextTags(results, dryRun, escape);
    forall k | 0 <= k < |tags|
      ensures tags[k] == NextTag(results[k]) && ',' !in tags[k]
    {
      NextTagsAt(results, k);
      NextTagCommaFree(results[k]);
    }
    FormattedStartsWithV(Last(results).nextVersion.value.version);
    SplitTerminated(tags, ',');
  }

  lemma NextTagCommaFree(r: DirectoryVersionInfo)
    requires Computed(r)
    requires ',' !in r.nextVersion.value.package
    requires ',' !in r.nextVersion.value.version.preRelease && ',' !in r.nextVersion.value.version.build
    ensures ',' !in NextTag(r)
  {
    var v := r.nextVersion.value.version;
    TripleSeparators(v);
    assert Formatted(v) == "v" + Triple(v) + PreReleaseSuffix(v) + BuildSuffix(v);
  }

  /** A next tag is the name the tag is created under, as long as the
      package does not start with '/'. */
  lemma NextTagIsTagName(package: string, v: Version)
    requires package == "" || package[0] != '/'
    ensures Prepended(package) + Formatted(v) == TagName(package, v)
  {
    if package != "" {
      TrimLeftNone(package + "/" + Formatted(v), "/");
    }
  }

  /** The notes JSON is one object holding one member per target, in
      order, with its line breaks escaped. */
  lemma NotesJsonShape(results: seq<DirectoryVersionInfo>, dryRun: bool, escape: string -> string)
    requires AllComputed(results)
    ensures Generated(results, dryRun, escape).newReleaseNotesJson
         == EscapeNewlines(JSON_HEAD + Join(NotesMembers(results, escape), ",") + "}}")
  {
    RawNotesJson(results, dryRun, escape);
    ClosedJson(NotesMembers(results, escape));
  }

  /** Trimming the last ',' off the head and the terminated members leaves
      the head and the members joined by ','. */
  lemma ClosedJson(members: seq<string>)
    requires members != [] ==> EndsWith(Last(members), ']')
    ensures TrimRight(JSON_HEAD + Terminated(members, ","), ",") == JSON_HEAD + Join(members, ",")
  {
    if members == [] {
      assert JSON_HEAD[|JSON_HEAD| - 1] == '{';
      assert JSON_HEAD + "" == JSON_HEAD;
    } else {
      TerminatedJoin(members, ",");
      var joined := Join(members, ",");
      JoinLastChar(members, ",");
      var whole := JSON_HEAD + joined;
      assert whole[|whole| - 1] == ']';
      assert JSON_HEAD + (joined + ",") == whole + [','];
      TrimRightOne(whole, ',', ",");
    }
  }

  /** A flag repeated n times, each followed by ',', splits back after the
      trailing ',' is trimmed. */
  lemma RepeatedSplit(flag: string, n: nat)
    requires n > 0 && flag != "" && ',' !in flag
    ensures Split(TrimRight(Terminated(Repeated(flag, n), ","), ","), ',') == Repeated(flag, n)
  {
    var flags := Repeated(flag, n);
    RepeatedAt(flag, n, n - 1);
    forall k | 0 <= k < |flags|
      ensures ',' !in flags[k]
    {
      RepeatedAt(flag, n, k);
    }
    SplitTerminated(flags, ',');
  }

  /** The dry-run field splits into the flag once per target. */
  lemma DryRunSplit(results: seq<DirectoryVersionInfo>, dryRun: bool, escape: string -> string)
    requires AllComputed(results) && results != []
    ensures Split(Generated(results, dryRun, escape).dryRun, ',') == Repeated(BoolText(dryRun), |results|)
  {
    RawDryRun(results, dryRun, escape);
    BoolTextCases(dryRun);
    RepeatedSplit(BoolText(dryRun), |results|);
  }

  /** The dry-run field repeats the flag once per target. */
  lemma DryRunColumn(results: seq<DirectoryVersionInfo>, dryRun: bool, escape: string -> string)
    requires AllComputed(results) && results != []
    ensures var flags := Split(Generated(results, dryRun, escape).dryRun, ',');
      |flags| == |results| && forall k :: 0 <= k < |results| ==> flags[k] == BoolText(dryRun)
  {
    DryRunSplit(results, dryRun, escape);
    forall k | 0 <= k < |results|
      ensures Repeated(BoolText(dryRun), |results|)[k] == BoolText(dryRun)
    {
      RepeatedAt(BoolText(dryRun), |results|, k);
    }
  }

  // ---------------------------------------------------------------------
  // The fields trimmed of ','

  /** The fields that hold one plain entry per target followed by ','. */
  datatype Column = NextVersion | NextMajor | NextMinor | NextPatch | NextHead | LastVersion | LastHead | LastTag | Package

  /** The characters trimmed off the end of a column when the record is
      finished. */
  function Cutset(c: Column): string
  {
    if c.Package? then ",\n" else ","
  }

  /** The field of the record that a column names. */
  function ColumnText(o: Outputs, c: Column): string
  {
    match c
    case NextVersion => o.newReleaseVersion
    case NextMajor => o.newReleaseMajorVersion
    case NextMinor => o.newReleaseMinorVersion
    case NextPatch => o.newReleasePatchVersion
    case NextHead => o.newReleaseGitHead
    case LastVersion => o.lastReleaseVersion
    case LastHead => o.lastReleaseGitHead
    case LastTag => o.lastReleaseGitTag
    case Package => o.releasePackage
  }

  /** What one target writes into a column, before its ','. */
  function ColumnEntry(r: DirectoryVersionInfo, c: Column): string
    requires Computed(r)
  {
    var next, last := r.nextVersion.value, r.lastVersion.value;
    match c
    case NextVersion => Triple(next.version)
    case NextMajor => Decimal(next.version.major)
    case NextMinor => Decimal(next.version.minor)
    case NextPatch => Decimal(next.version.patch)
    case NextHead => next.commitHash
    case LastVersion => Triple(last.version)
    case LastHead => last.commitHash
    case LastTag => Prepended(next.package) + Formatted(last.version)
    case Package => next.package
  }

  /** Each column is the field of the record it names. */
  lemma ColumnFields(o: Outputs)
    ensures ColumnText(o, NextVersion) == o.newReleaseVersion && ColumnText(o, LastVersion) == o.lastReleaseVersion
    ensures ColumnText(o, NextMajor) == o.newReleaseMajorVersion && ColumnText(o, NextMinor) == o.newReleaseMinorVersion
    ensures ColumnText(o, NextPatch) == o.newReleasePatchVersion && ColumnText(o, LastTag) == o.lastReleaseGitTag
    ensures ColumnText(o, NextHead) == o.newReleaseGitHead && ColumnText(o, LastHead) == o.lastReleaseGitHead
    ensures ColumnText(o, Package) == o.releasePackage
  {
  }

  /** What a target writes into the version and number columns. */
  lemma VersionEntries(r: DirectoryVersionInfo)
    requires Computed(r)
    ensures var next, last := r.nextVersion.value.version, r.lastVersion.value.version;
      && ColumnEntry(r, NextVersion) == Triple(next) && ColumnEntry(r, LastVersion) == Triple(last)
      && ColumnEntry(r, NextMajor) == Decimal(next.major) && ColumnEntry(r, NextMinor) == Decimal(next.minor)
      && ColumnEntry(r, NextPatch) == Decimal(next.patch)
  {
  }

  /** What a target writes into the head, last-tag and package columns. */
  lemma NameEntries(r: DirectoryVersionInfo)
    requires Computed(r)
    ensures var next, last := r.nextVersion.value, r.lastVersion.value;
      && ColumnEntry(r, NextHead) == next.commitHash && ColumnEntry(r, LastHead) == last.commitHash
      && ColumnEntry(r, LastTag) == Prepended(next.package) + Formatted(last.version)
      && ColumnEntry(r, Package) == next.package
  {
  }

  /** The entries of each target in a column, in order. */
  function ColumnEntries(results: seq<DirectoryVersionInfo>, c: Column): (entries: seq<string>)
    requires AllComputed(results)
    ensures |entries| == |results|
  {
    if results == [] then [] else ColumnEntries(results[..|results| - 1], c) + [ColumnEntry(Last(results), c)]
  }

  lemma {:induction false} ColumnEntriesAt(results: seq<DirectoryVersionInfo>, c: Column, k: nat)
    requires AllComputed(results) && k < |results|
    ensures ColumnEntries(results, c)[k] == ColumnEntry(results[k], c)
  {
    var n := |results|;
    var init := results[..n - 1];
    if k < n - 1 {
      ColumnEntriesAt(init, c, k);
      assert init[k] == results[k];
      assert ColumnEntries(results, c)[k] == ColumnEntries(init, c)[k];
    } else {
      assert results[k] == Last(results);
    }
  }

  /** One pass of the loop appends the target's entry and ',' to a column. */
  lemma AppendedColumn(o: Outputs, r: DirectoryVersionInfo, dryRun: bool, escape: string -> string, c: Column)
    requires Computed(r)
    ensures ColumnText(Appended(o, r, dryRun, escape), c) == ColumnText(o, c) + (ColumnEntry(r, c) + ",")
  {
  }

  /** Before trimming, a column is the entries of the targets, each
      followed by ','. */
  lemma {:induction false} RawColumn(results: seq<DirectoryVersionInfo>, dryRun: bool, escape: string -> string, c: Column)
    requires AllComputed(results)
    ensures ColumnText(Raw(results, dryRun, escape), c) == Terminated(ColumnEntries(results, c), ",")
  {
    if results != [] {
      var init := results[..|results| - 1];
      RawColumn(init, dryRun, escape, c);
      RawStep(results, dryRun, escape);
      AppendedColumn(Raw(init, dryRun, escape), Last(results), dryRun, escape, c);
      TerminatedSnoc(ColumnEntries(init, c), ColumnEntry(Last(results), c), ",");
    }
  }

  /** Finishing the record trims the cutset off the end of a column. */
  lemma TrimmedColumn(raw: Outputs, c: Column)
    ensures ColumnText(Trimmed(raw), c) == TrimRight(ColumnText(raw, c), Cutset(c))
  {
  }

  /** A column splits on ',' into the entries of the targets, in order,
      when no entry holds a ',' and the last one ends in a character
      outside the cutset, or is the empty entry of the only target. */
  lemma ColumnSplit(results: seq<DirectoryVersionInfo>, dryRun: bool, escape: string -> string, c: Column)
    requires AllComputed(results) && results != []
    requires forall k :: 0 <= k < |results| ==> ',' !in ColumnEntry(results[k], c)
    requires var last := ColumnEntry(Last(results), c);
      && (last == "" ==> |results| == 1)
      && (last != "" ==> Last(last) !in Cutset(c))
    ensures var entries := Split(ColumnText(Generated(results, dryRun, escape), c), ',');
      |entries| == |results| && forall k :: 0 <= k < |results| ==> entries[k] == ColumnEntry(results[k], c)
  {
    EntriesSplit(results, c);
    EntriesOfColumn(results, c);
    GeneratedColumn(results, dryRun, escape, c);
  }

  /** The entries of such a column, each followed by ',' and trimmed of
      the cutset, split back into the entries. */
  lemma EntriesSplit(results: seq<DirectoryVersionInfo>, c: Column)
    requires AllComputed(results) && results != []
    requires forall k :: 0 <= k < |results| ==> ',' !in ColumnEntry(results[k], c)
    requires var last := ColumnEntry(Last(results), c);
      && (last == "" ==> |results| == 1)
      && (last != "" ==> Last(last) !in Cutset(c))
    ensures var entries := ColumnEntries(results, c);
      Split(TrimRight(Terminated(entries, ","), Cutset(c)), ',') == entries
  {
    EntriesOfColumn(results, c);
    SplitTrimmedEntries(ColumnEntries(results, c), ',', Cutset(c));
  }

  /** The entries of a column are the targets' entries, one by one. */
  lemma EntriesOfColumn(results: seq<DirectoryVersionInfo>, c: Column)
    requires AllComputed(results) && results != []
    ensures var entries := ColumnEntries(results, c);
      && Last(entries) == ColumnEntry(Last(results), c)
      && forall k :: 0 <= k < |results| ==> entries[k] == ColumnEntry(results[k], c)
  {
    forall k | 0 <= k < |results|
      ensures ColumnEntries(results, c)[k] == ColumnEntry(results[k], c)
    {
      ColumnEntriesAt(results, c, k);
    }
  }

  /** A finished column is its entries, each followed by ',', trimmed of the
      cutset. */
  lemma GeneratedColumn(results: seq<DirectoryVersionInfo>, dryRun: bool, escape: string -> string, c: Column)
    requires AllComputed(results)
    ensures ColumnText(Generated(results, dryRun, escape), c) == TrimRight(Terminated(ColumnEntries(results, c), ","), Cutset(c))
  {
    RawColumn(results, dryRun, escape, c);
    TrimmedColumn(Raw(results, dryRun, escape), c);
  }

  /** Empty entries in every target leave the column empty. */
  lemma EmptyColumn(results: seq<DirectoryVersionInfo>, dryRun: bool, escape: string -> string, c: Column)
    requires AllComputed(results)
    requires forall k :: 0 <= k < |results| ==> ColumnEntry(results[k], c) == ""
    ensures ColumnText(Generated(results, dryRun, escape), c) == ""
  {
    var entries := ColumnEntries(results, c);
    RawColumn(results, dryRun, escape, c);
    TrimmedColumn(Raw(results, dryRun, escape), c);
    forall k | 0 <= k < |results|
      ensures entries[k] == ""
    {
      ColumnEntriesAt(results, c, k);
    }
    TrimTerminatedEmpties(entries, ',', Cutset(c));
  }

  /** The entries of the version and number columns are never empty and
      hold no ','. */
  lemma NumberEntry(r: DirectoryVersionInfo, c: Column)
    requires Computed(r) && (c.NextVersion? || c.NextMajor? || c.NextMinor? || c.NextPatch? || c.LastVersion?)
    ensures ColumnEntry(r, c) != "" && ',' !in ColumnEntry(r, c)
  {
    var next, last := r.nextVersion.value.version, r.lastVersion.value.version;
    TripleSeparators(next);
    TripleSeparators(last);
    DigitsHoldNoPunctuation(Decimal(next.major));
    DigitsHoldNoPunctuation(Decimal(next.minor));
    DigitsHoldNoPunctuation(Decimal(next.patch));
  }

  /** A version or number column splits into its entries. */
  lemma NumberColumnSplit(results: seq<DirectoryVersionInfo>, dryRun: bool, escape: string -> string, c: Column)
    requires AllComputed(results) && results != []
    requires c.NextVersion? || c.NextMajor? || c.NextMinor? || c.NextPatch? || c.LastVersion?
    ensures var entries := Split(ColumnText(Generated(results, dryRun, escape), c), ',');
      |entries| == |results| && forall k :: 0 <= k < |results| ==> entries[k] == ColumnEntry(results[k], c)
  {
    forall k | 0 <= k < |results|
      ensures ',' !in ColumnEntry(results[k], c)
    {
      NumberEntry(results[k], c);
    }
    NumberEntry(Last(results), c);
    ColumnSplit(results, dryRun, escape, c);
  }

  /** The version field lists, for each target in order, the three numbers
      of its next version, without its pre-release or build; each entry
      reads back as those three numbers. */
  lemma NextVersionColumn(results: seq<DirectoryVersionInfo>, dryRun: bool, escape: string -> string)
    requires AllComputed(results) && results != []
    ensures var versions := Split(Generated(results, dryRun, escape).newReleaseVersion, ',');
      && |versions| == |results|
      && forall k :: 0 <= k < |results| ==>
           var v := results[k].nextVersion.value.version;
           versions[k] == Triple(v) && ScanTriple(versions[k]) == Some((v.major, v.minor, v.patch))
  {
    var o := Generated(results, dryRun, escape);
    NumberColumnSplit(results, dryRun, escape, NextVersion);
    ColumnFields(o);
    var versions := Split(o.newReleaseVersion, ',');
    forall k | 0 <= k < |results|
      ensures var v := results[k].nextVersion.value.version;
        versions[k] == Triple(v) && ScanTriple(versions[k]) == Some((v.major, v.minor, v.patch))
    {
      VersionEntries(results[k]);
      TripleScans(results[k].nextVersion.value.version);
    }
  }

  /** The last-version field lists, for each target in order, the three
      numbers of its last version, without its pre-release or build; each
      entry reads back as those three numbers. */
  lemma LastVersionColumn(results: seq<DirectoryVersionInfo>, dryRun: bool, escape: string -> string)
    requires AllComputed(results) && results != []
    ensures var versions := Split(Generated(results, dryRun, escape).lastReleaseVersion, ',');
      && |versions| == |results|
      && forall k :: 0 <= k < |results| ==>
           var v := results[k].lastVersion.value.version;
           versions[k] == Triple(v) && ScanTriple(versions[k]) == Some((v.major, v.minor, v.patch))
  {
    var o := Generated(results, dryRun, escape);
    NumberColumnSplit(results, dryRun, escape, LastVersion);
    ColumnFields(o);
    var versions := Split(o.lastReleaseVersion, ',');
    forall k | 0 <= k < |results|
      ensures var v := results[k].lastVersion.value.version;
        versions[k] == Triple(v) && ScanTriple(versions[k]) == Some((v.major, v.minor, v.patch))
    {
      VersionEntries(results[k]);
      TripleScans(results[k].lastVersion.value.version);
    }
  }

  /** The major, minor and patch fields list, for each target in order,
      the decimal form of that number of its next version, which reads
      back as the number. */
  lemma NumberColumns(results: seq<DirectoryVersionInfo>, dryRun: bool, escape: string -> string)
    requires AllComputed(results) && results != []
    ensures var o := Generated(results, dryRun, escape);
      var majors, minors, patches := Split(o.newReleaseMajorVersion, ','), Split(o.newReleaseMinorVersion, ','), Split(o.newReleasePatchVersion, ',');
      && |majors| == |minors| == |patches| == |results|
      && forall k :: 0 <= k < |results| ==>
           var v := results[k].nextVersion.value.version;
           && majors[k] == Decimal(v.major) && DigitsValue(majors[k]) == v.major
           && minors[k] == Decimal(v.minor) && DigitsValue(minors[k]) == v.minor
           && patches[k] == Decimal(v.patch) && DigitsValue(patches[k]) == v.patch
  {
    var o := Generated(results, dryRun, escape);
    NumberColumnSplit(results, dryRun, escape, NextMajor);
    NumberColumnSplit(results, dryRun, escape, NextMinor);
    NumberColumnSplit(results, dryRun, escape, NextPatch);
    ColumnFields(o);
    var majors, minors, patches := Split(o.newReleaseMajorVersion, ','), Split(o.newReleaseMinorVersion, ','), Split(o.newReleasePatchVersion, ',');
    forall k | 0 <= k < |results|
      ensures var v := results[k].nextVersion.value.version;
        && majors[k] == Decimal(v.major) && DigitsValue(majors[k]) == v.major
        && minors[k] == Decimal(v.minor) && DigitsValue(minors[k]) == v.minor
        && patches[k] == Decimal(v.patch) && DigitsValue(patches[k]) == v.patch
    {
      var v := results[k].nextVersion.value.version;
      VersionEntries(results[k]);
      DecimalValue(v.major);
      DecimalValue(v.minor);
      DecimalValue(v.patch);
    }
  }

  /** With comma-free packages and last versions, the last-tag field lists,
      for each target in order, its last version's tag under the next
      version's package. */
  lemma LastTagColumn(results: seq<DirectoryVersionInfo>, dryRun: bool, escape: string -> string)
    requires AllComputed(results) && results != []
    requires forall k :: 0 <= k < |results| ==>
      ',' !in results[k].nextVersion.value.package
      && ',' !in results[k].lastVersion.value.version.preRelease
      && ',' !in results[k].lastVersion.value.version.build
    ensures var tags := Split(Generated(results, dryRun, escape).lastReleaseGitTag, ',');
      && |tags| == |results|
      && forall k :: 0 <= k < |results| ==>
           tags[k] == Prepended(results[k].nextVersion.value.package) + Formatted(results[k].lastVersion.value.version)
  {
    forall k | 0 <= k < |results|
      ensures ',' !in ColumnEntry(results[k], LastTag)
    {
      var v := results[k].lastVersion.value.version;
      TripleSeparators(v);
      assert Formatted(v) == "v" + Triple(v) + PreReleaseSuffix(v) + BuildSuffix(v);
    }
    FormattedStartsWithV(Last(results).lastVersion.value.version);
    ColumnSplit(results, dryRun, escape, LastTag);
    var o := Generated(results, dryRun, escape);
    ColumnFields(o);
    var tags := Split(o.lastReleaseGitTag, ',');
    forall k | 0 <= k < |results|
      ensures tags[k] == Prepended(results[k].nextVersion.value.package) + Formatted(results[k].lastVersion.value.version)
    {
      NameEntries(results[k]);
    }
  }

  /** The next-head field is empty: the next version of a target has no
      commit yet, so every target writes an empty entry. With more than one
      target the field therefore does not split into one entry per target. */
  lemma NextHeadEmpty(results: seq<DirectoryVersionInfo>, dryRun: bool, escape: string -> string)
    requires AllComputed(results)
    requires forall k :: 0 <= k < |results| ==> results[k].nextVersion.value.commitHash == ""
    ensures Generated(results, dryRun, escape).newReleaseGitHead == ""
    ensures Split(Generated(results, dryRun, escape).newReleaseGitHead, ',') == [""]
  {
    forall k | 0 <= k < |results|
      ensures ColumnEntry(results[k], NextHead) == ""
    {
      NameEntries(results[k]);
    }
    EmptyColumn(results, dryRun, escape, NextHead);
    ColumnFields(Generated(results, dryRun, escape));
    assert Split("", ',') == [""];
  }

  /** With comma-free commit hashes, the last-head field lists the commit
      hash of each target's last version, in order. */
  lemma LastHeadColumn(results: seq<DirectoryVersionInfo>, dryRun: bool, escape: string -> string)
    requires AllComputed(results) && results != []
    requires forall k :: 0 <= k < |results| ==> ',' !in results[k].lastVersion.value.commitHash
    requires Last(results).lastVersion.value.commitHash == "" ==> |results| == 1
    ensures var lasts := Split(Generated(results, dryRun, escape).lastReleaseGitHead, ',');
      && |lasts| == |results|
      && forall k :: 0 <= k < |results| ==> lasts[k] == results[k].lastVersion.value.commitHash
  {
    forall k | 0 <= k < |results|
      ensures ColumnEntry(results[k], LastHead) == results[k].lastVersion.value.commitHash
    {
      NameEntries(results[k]);
    }
    NameEntries(Last(results));
    ColumnSplit(results, dryRun, escape, LastHead);
    ColumnFields(Generated(results, dryRun, escape));
  }

  /** With comma-free packages, the package field lists the package of each
      target's next version, in order, as long as the last one does not end
      in a line break and is empty only for the single whole-repository
      target. */
  lemma PackageColumn(results: seq<DirectoryVersionInfo>, dryRun: bool, escape: string -> string)
    requires AllComputed(results) && results != []
    requires forall k :: 0 <= k < |results| ==> ',' !in results[k].nextVersion.value.package
    requires var last := Last(results).nextVersion.value.package;
      && (last == "" ==> |results| == 1)
      && (last != "" ==> Last(last) != '\n')
    ensures var packages := Split(Generated(results, dryRun, escape).releasePackage, ',');
      && |packages| == |results|
      && forall k :: 0 <= k < |results| ==> packages[k] == results[k].nextVersion.value.package
  {
    forall k | 0 <= k < |results|
      ensures ColumnEntry(results[k], Package) == results[k].nextVersion.value.package
    {
      NameEntries(results[k]);
    }
    NameEntries(Last(results));
    ColumnSplit(results, dryRun, escape, Package);
    var o := Generated(results, dryRun, escape);
    ColumnFields(o);
  }
}
