/** Reading a tag line `refname,hash` into a package, a version and a
    commit hash (ParseVersionInfo in core/check_commits.go), and how that
    reading relates to the text form of a version. */
module Tags {
  import opened Text
  import opened Semver
  import opened Records

  /** The parts of a version text `1.2.3[-pre[+build]]`: the text before the
      first '-', then the pre-release and the build, cut at the first '+'
      after that '-'. Without a '-' there is neither pre-release nor build. */
  function VersionComponents(versionPart: string): (r: (string, string, string))
    ensures '-' !in versionPart ==> r == (versionPart, "", "")
  {
    var versionComponents := SplitOnce(versionPart, '-');
    var preRelease := if |versionComponents| > 1 then versionComponents[1] else "";
    var buildComponents := SplitOnce(preRelease, '+');
    if |buildComponents| > 1 then (versionComponents[0], buildComponents[0], buildComponents[1])
    else (versionComponents[0], preRelease, "")
  }

  /** ParseVersionInfo: a line that is not exactly two comma-separated
      fields is refused; the package is every '/' segment of the ref name
      but the last, joined again; the last segment, less one leading 'v',
      is the version, which must start with three '.'-separated numbers
      that fit in a uint32; the hash is the second field. */
  function ParseVersionInfo(line: string): (r: Result<VersionInfo>)
    ensures |Split(line, ',')| != 2 ==> r == Err(InvalidFormat)
    ensures r.Ok? ==> r.value.commitHash == Split(line, ',')[1] && ',' !in r.value.commitHash
  {
    var split := Split(line, ',');
    if |split| != 2 then Err(InvalidFormat)
    else
      var parts := Split(split[0], '/');
      var versionPart := TrimPrefix(Last(parts), 'v');
      var packageName := Join(parts[..|parts| - 1], "/");
      var (version, preRelease, build) := VersionComponents(versionPart);
      match ScanTriple(version)
      case None => Err(InvalidVersion(version))
      case Some((major, minor, patch)) =>
        Ok(VersionInfo(packageName, Version(major, minor, patch, preRelease, build), split[1]))
  }

  /** A tag line `package/v<text>,hash` whose text holds no separator is
      read as that package and hash and the version the text scans to, or
      refused as an invalid version naming the text when it does not scan. */
  lemma ParseVersionText(package: string, text: string, hash: string)
    requires ',' !in package && ',' !in hash
    requires ',' !in text && '/' !in text && '-' !in text
    ensures ParseVersionInfo(package + "/v" + text + "," + hash)
         == match ScanTriple(text)
            case None => Err(InvalidVersion(text))
            case Some((a, b, c)) => Ok(VersionInfo(package, Version(a, b, c, "", ""), hash))
  {
    var last := "v" + text;
    var refname := package + "/v" + text;
    assert refname == package + ['/'] + last;
    assert ',' !in last;
    SplitTagLine(refname, hash);
    SplitAppend(package, last, '/');
    var parts := Split(refname, '/');
    assert Split(last, '/') == [last];
    assert parts[..|parts| - 1] == Split(package, '/');
    JoinSplit(package, '/');
    assert TrimPrefix(last, 'v') == text;
  }

  /** A version of only two numbers is refused: `pkg/v1.2,h` names the
      invalid version 1.2. */
  lemma TwoNumbersRefused(package: string, a: Uint32, b: Uint32, hash: string)
    requires ',' !in package && ',' !in hash
    ensures var text := Decimal(a) + "." + Decimal(b);
      ParseVersionInfo(package + "/v" + text + "," + hash) == Err(InvalidVersion(text))
  {
    var text := Decimal(a) + "." + Decimal(b);
    NumbersSeparators(a, b);
    ScanTripleRefusesTwo(a, b, "");
    assert text + "" == text;
    ParseVersionText(package, text, hash);
  }

  /** A major number too large for a uint32 is refused:
      `pkg/v4294967296.0.0,h` names the invalid version 4294967296.0.0. */
  lemma LargeNumberRefused(package: string, n: nat, hash: string)
    requires ',' !in package && ',' !in hash
    requires n >= UINT32_LIMIT
    ensures var text := Decimal(n) + ".0.0";
      ParseVersionInfo(package + "/v" + text + "," + hash) == Err(InvalidVersion(text))
  {
    LargeText(n);
    ParseVersionText(package, Decimal(n) + ".0.0", hash);
  }

  lemma LargeText(n: nat)
    requires n >= UINT32_LIMIT
    ensures var text := Decimal(n) + ".0.0";
      ScanTriple(text) == None && ',' !in text && '/' !in text && '-' !in text
  {
    ScanTripleRefusesLarge(n, ".0.0");
    NumberSeparators(n, ".0.0");
  }

  /** A version text that starts with neither a digit nor white space is
      refused: `pkg/vx.1.2,h` names the invalid version x.1.2. */
  lemma NoDigitRefused(package: string, text: string, hash: string)
    requires ',' !in package && ',' !in hash
    requires ',' !in text && '/' !in text && '-' !in text
    requires text == "" || (!IsDigit(text[0]) && !IsScanSpace(text[0]))
    ensures ParseVersionInfo(package + "/v" + text + "," + hash) == Err(InvalidVersion(text))
  {
    ScanTripleRefusesFirst(text);
    ParseVersionText(package, text, hash);
  }

  /** Two decimal forms joined by '.' hold no separator of a tag line. */
  lemma NumbersSeparators(a: nat, b: nat)
    ensures var text := Decimal(a) + "." + Decimal(b);
      ',' !in text && '/' !in text && '-' !in text
  {
    var x, y := Decimal(a), Decimal(b);
    assert forall c :: c in x ==> IsDigit(c);
    assert forall c :: c in y ==> IsDigit(c);
  }

  /** So does a decimal form followed by dots and digits only. */
  lemma NumberSeparators(n: nat, rest: string)
    requires forall c :: c in rest ==> c == '.' || IsDigit(c)
    ensures var text := Decimal(n) + rest;
      ',' !in text && '/' !in text && '-' !in text
  {
    var x := Decimal(n);
    assert forall c :: c in x ==> IsDigit(c);
  }

  // ---------------------------------------------------------------------
  // Round trips with the text form of a version

  /** The versions whose text form ParseVersionInfo reads back unchanged:
      no ',' or '/' in the pre-release or the build, no '+' in the
      pre-release, and a build only together with a pre-release. */
  predicate RoundTrips(v: Version)
  {
    && ',' !in v.preRelease && '/' !in v.preRelease && '+' !in v.preRelease
    && ',' !in v.build && '/' !in v.build
    && (v.preRelease != "" || v.build == "")
  }

  /** The name a tag gets: the package, '/', and the formatted version,
      with leading '/' trimmed (so the whole-repository package "" gives
      the bare version). */
  function TagName(package: string, v: Version): (tag: string)
    ensures package == "" ==> tag == Formatted(v)
  {
    FormattedStartsWithV(v);
    TrimLeft(package + "/" + Formatted(v), "/")
  }

  lemma FormattedStartsWithV(v: Version)
    ensures Formatted(v) != "" && Formatted(v)[0] == 'v'
  {
  }

  /** The formatted version of a round-tripping version holds no ',' or '/'. */
  lemma FormattedSeparators(v: Version)
    requires RoundTrips(v)
    ensures ',' !in Formatted(v) && '/' !in Formatted(v)
  {
    TripleSeparators(v);
    assert Formatted(v) == "v" + Triple(v) + PreReleaseSuffix(v) + BuildSuffix(v);
  }

  /** Splitting a version text `t[-pre][+build]` recovers its parts when
      t holds no '-', pre holds no '+', and there is a build only together
      with a pre-release. */
  lemma VersionComponentsSplit(t: string, pre: string, build: string)
    requires '-' !in t && '+' !in pre
    requires pre != "" || build == ""
    ensures VersionComponents(t + (if pre != "" then "-" + pre else "") + (if build != "" then "+" + build else ""))
         == (t, pre, build)
  {
    if pre == "" {
      assert t + "" + "" == t;
    } else {
      var rest := pre + (if build != "" then "+" + build else "");
      assert t + ("-" + pre) + (if build != "" then "+" + build else "") == t + ['-'] + rest;
      SplitOnceAfter(t, rest, '-');
      if build == "" {
        assert rest == pre;
      } else {
        assert rest == pre + ['+'] + build;
        SplitOnceAfter(pre, build, '+');
      }
    }
  }

  /** The formatted version is "v" followed by the text that
      VersionComponents takes apart. */
  lemma FormattedParts(v: Version)
    ensures Formatted(v)[0] == 'v'
    ensures Formatted(v)[1..] == Triple(v) + PreReleaseSuffix(v) + BuildSuffix(v)
  {
  }

  /** A line of two comma-free fields splits into those fields. */
  lemma SplitTagLine(refname: string, hash: string)
    requires ',' !in refname && ',' !in hash
    ensures Split(refname + "," + hash, ',') == [refname, hash]
  {
    assert refname + "," + hash == refname + [','] + hash;
    SplitFirst(refname, hash, ',');
  }

  /** The tag name splits on '/' into the package's segments followed by
      the formatted version. */
  lemma TagNameParts(package: string, v: Version)
    requires RoundTrips(v)
    requires ',' !in package
    requires package == "" || package[0] != '/'
    ensures ',' !in TagName(package, v)
    ensures var parts := Split(TagName(package, v), '/');
      Last(parts) == Formatted(v) && Join(parts[..|parts| - 1], "/") == package
  {
    var f := Formatted(v);
    FormattedSeparators(v);
    var tag := TagName(package, v);
    if package == "" {
      assert Split(tag, '/') == [f];
      assert Split(tag, '/')[..0] == [];
    } else {
      TrimLeftNone(package + "/" + f, "/");
      assert tag == package + ['/'] + f;
      SplitAppend(package, f, '/');
      var parts := Split(tag, '/');
      assert parts == Split(package, '/') + [f];
      assert parts[..|parts| - 1] == Split(package, '/');
      JoinSplit(package, '/');
    }
  }

  /** A tag line built from a package, a round-tripping version and a hash
      reads back as that package, version and hash. */
  lemma ParseTagRoundTrip(package: string, v: Version, hash: string)
    requires RoundTrips(v)
    requires ',' !in package && ',' !in hash
    requires package == "" || package[0] != '/'
    ensures ParseVersionInfo(TagName(package, v) + "," + hash) == Ok(VersionInfo(package, v, hash))
  {
    var tag := TagName(package, v);
    TagNameParts(package, v);
    SplitTagLine(tag, hash);
    FormattedParts(v);
    TripleSeparators(v);
    VersionComponentsSplit(Triple(v), v.preRelease, v.build);
    TripleScans(v);
    ParseFromParts(tag + "," + hash, tag, hash, package, Formatted(v)[1..], v);
  }

  /** ParseVersionInfo assembles what its steps produce. */
  lemma ParseFromParts(line: string, refname: string, hash: string, package: string, versionPart: string, v: Version)
    requires Split(line, ',') == [refname, hash]
    requires var parts := Split(refname, '/');
      TrimPrefix(Last(parts), 'v') == versionPart && Join(parts[..|parts| - 1], "/") == package
    requires VersionComponents(versionPart) == (Triple(v), v.preRelease, v.build)
    requires ScanTriple(Triple(v)) == Some((v.major, v.minor, v.patch))
    ensures ParseVersionInfo(line) == Ok(VersionInfo(package, v, hash))
  {
  }

  /** Formatting then parsing: the whole-repository case of the round trip. */
  lemma ParseFormattedRoundTrip(v: Version, hash: string)
    requires RoundTrips(v) && ',' !in hash
    ensures ParseVersionInfo(Formatted(v) + "," + hash) == Ok(VersionInfo("", v, hash))
  {
    ParseTagRoundTrip("", v, hash);
  }

  /** A build without a pre-release is lost: `v1.2.3+b` reads back as
      1.2.3 with neither pre-release nor build, because the scan of the
      three numbers ignores what follows them. */
  lemma BuildWithoutPreReleaseLost(v: Version, hash: string)
    requires v.preRelease == "" && v.build != ""
    requires ',' !in v.build && '/' !in v.build && '-' !in v.build
    requires ',' !in hash
    ensures ParseVersionInfo(Formatted(v) + "," + hash) == Ok(VersionInfo("", v.(build := ""), hash))
  {
    var f := Formatted(v);
    FormattedParts(v);
    TripleSeparators(v);
    var t := Triple(v);
    assert f[1..] == t + ("+" + v.build);
    assert f == [f[0]] + f[1..];
    assert ',' !in f && '/' !in f;
    SplitTagLine(f, hash);
    assert Split(f, '/') == [f];
    assert '-' !in f[1..];
    ScanTripleDecimal(v.major, v.minor, v.patch, "+" + v.build);
    assert t + ("+" + v.build) == Decimal(v.major) + "." + Decimal(v.minor) + "." + Decimal(v.patch) + ("+" + v.build);
  }
}
