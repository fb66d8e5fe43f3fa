/** The semantic-version value and its bump rules (core/semver/semver.go).
    `Version` is the value a Go `Semver` struct holds; the class `Semver` is
    the mutable object whose methods update it in place, each specified by
    the value function of the same rule. */
module Semver {
  import opened Text

  /** The four commit severities, in the order of their Go constants. */
  datatype CommitType = NotConventional | Patch | Minor | Major
  {
    /** The integer the Go constant stands for. */
    function Level(): nat
    {
      match this
      case NotConventional => 0
      case Patch => 1
      case Minor => 2
      case Major => 3
    }
  }

  /** The running maximum `if commitType > highest { highest = commitType }`. */
  function MaxType(highest: CommitType, commitType: CommitType): (r: CommitType)
    ensures r == highest || r == commitType
    ensures r.Level() >= highest.Level() && r.Level() >= commitType.Level()
  {
    if commitType.Level() > highest.Level() then commitType else highest
  }

  datatype Version = Version(major: Uint32, minor: Uint32, patch: Uint32, preRelease: string, build: string)

  /** The value NewSemver builds: no pre-release, no build. */
  function NewSemver(major: Uint32, minor: Uint32, patch: Uint32): Version
  {
    Version(major, minor, patch, "", "")
  }

  /** `+= 1` on a uint32, which wraps around to 0. */
  function Inc32(x: Uint32): (r: Uint32)
    ensures r == (x + 1) % UINT32_LIMIT
    ensures r != x
  {
    if x == UINT32_LIMIT - 1 then 0 else x + 1
  }

  // ---------------------------------------------------------------------
  // Text form

  /** `fmt.Sprintf("%d.%d.%d", ...)` of the numeric triple. */
  function Triple(v: Version): string
  {
    Decimal(v.major) + "." + Decimal(v.minor) + "." + Decimal(v.patch)
  }

  /** The triple is written with digits and dots only, so none of the
      separators of a tag line occurs in it. */
  lemma TripleSeparators(v: Version)
    ensures '-' !in Triple(v) && '+' !in Triple(v) && ',' !in Triple(v) && '/' !in Triple(v)
  {
    var a, b, c := Decimal(v.major), Decimal(v.minor), Decimal(v.patch);
    forall x | x in Triple(v) ensures x == '.' || IsDigit(x) {
      assert Triple(v) == a + "." + b + "." + c;
      if x in a {
        var k :| 0 <= k < |a| && a[k] == x;
      } else if x in b {
        var k :| 0 <= k < |b| && b[k] == x;
      } else if x in c {
        var k :| 0 <= k < |c| && c[k] == x;
      }
    }
  }

  function PreReleaseSuffix(v: Version): string
  {
    if v.preRelease != "" then "-" + v.preRelease else ""
  }

  function BuildSuffix(v: Version): string
  {
    if v.build != "" then "+" + v.build else ""
  }

  /** FormattedString: "v", the triple, then "-" and the pre-release only when
      it is non-empty, then "+" and the build only when it is non-empty. */
  function Formatted(v: Version): string
  {
    "v" + Triple(v) + PreReleaseSuffix(v) + BuildSuffix(v)
  }

  // ---------------------------------------------------------------------
  // Bump rules on values

  function MajorBumped(v: Version): Version
  {
    Version(Inc32(v.major), 0, 0, "", "")
  }

  function MinorBumped(v: Version): Version
  {
    Version(v.major, Inc32(v.minor), 0, "", "")
  }

  function PatchBumped(v: Version): Version
  {
    Version(v.major, v.minor, Inc32(v.patch), "", "")
  }

  /** The first `.` segment of a pre-release: its track name. */
  function FirstSegment(preRelease: string): string
  {
    Split(preRelease, '.')[0]
  }

  /** The pre-release IncrementPreRelease leaves: the first segment followed
      by ".2" when there is no second segment, by ".1" when the second is
      not an integer, and by the integer plus one otherwise; any later
      segments are dropped. */
  function IncrementedPreRelease(preRelease: string): string
  {
    var parts := Split(preRelease, '.');
    if |parts| < 2 then parts[0] + ".2"
    else
      match Atoi(parts[1])
      case None => parts[0] + ".1"
      case Some(number) => parts[0] + "." + IntDecimal(WrapIncrement64(number))
  }

  /** The characters strings.Trim removes from a requested pre-release. */
  const PRE_RELEASE_SPACE := " \n\r\t"

  function WithBuild(v: Version, build: string): Version
  {
    if build != "" then v.(build := build) else v
  }

  /** The version BumpVersion leaves: continue the current pre-release track
      when the trimmed request names it (both may be empty), else start the
      requested track, else bump by the commit type. */
  function Bumped(v: Version, commitType: CommitType, preRelease: string, build: string): Version
  {
    var cleanPreRelease := Trim(preRelease, PRE_RELEASE_SPACE);
    if cleanPreRelease == FirstSegment(v.preRelease) then
      v.(preRelease := IncrementedPreRelease(v.preRelease))
    else if cleanPreRelease != "" then
      WithBuild(v.(preRelease := preRelease + ".1"), build)
    else
      match commitType
      case NotConventional => v
      case Patch => WithBuild(PatchBumped(v), build)
      case Minor => WithBuild(MinorBumped(v), build)
      case Major => WithBuild(MajorBumped(v), build)
  }

  // ---------------------------------------------------------------------
  // The mutable object

  class Semver {
    var major: Uint32
    var minor: Uint32
    var patch: Uint32
    var preRelease: string
    var build: string

    /** The version this object holds. */
    function Value(): Version
      reads this
    {
      Version(major, minor, patch, preRelease, build)
    }

    /** NewSemver. */
    constructor (major: Uint32, minor: Uint32, patch: Uint32)
      ensures Value() == NewSemver(major, minor, patch)
    {
      this.major, this.minor, this.patch := major, minor, patch;
      preRelease, build := "", "";
    }

    /** The object a stored version value stands for. */
    constructor Of(v: Version)
      ensures Value() == v
    {
      major, minor, patch := v.major, v.minor, v.patch;
      preRelease, build := v.preRelease, v.build;
    }

    /** A field-equal object that shares nothing with this one. */
    method Clone() returns (c: Semver)
      ensures fresh(c) && c.Value() == Value()
    {
      c := new Semver(major, minor, patch);
      c.preRelease := preRelease;
      c.build := build;
    }

    /** "v" and the triple Sscanf reads back, then the suffixes. */
    function FormattedString(): (s: string)
      reads this
      ensures |s| > 0 && s[0] == 'v'
      ensures ScanTriple(s[1..]) == Some((major, minor, patch))
    {
      var v := Value();
      FormattedTriple(v);
      Formatted(v)
    }

    method BumpMajor()
      modifies this
      ensures Value() == MajorBumped(old(Value()))
    {
      major := Inc32(major);
      minor := 0;
      patch := 0;
      preRelease := "";
      build := "";
    }

    method BumpMinor()
      modifies this
      ensures Value() == MinorBumped(old(Value()))
    {
      minor := Inc32(minor);
      patch := 0;
      preRelease := "";
      build := "";
    }

    method BumpPatch()
      modifies this
      ensures Value() == PatchBumped(old(Value()))
    {
      patch := Inc32(patch);
      preRelease := "";
      build := "";
    }

    method IncrementPreRelease()
      modifies this
      ensures Value() == old(Value()).(preRelease := IncrementedPreRelease(old(preRelease)))
    {
      var parts := Split(preRelease, '.');
      if |parts| < 2 {
        preRelease := parts[0] + ".2";
        return;
      }
      var numberPart := parts[1];
      var number := Atoi(numberPart);
      if number.None? {
        preRelease := parts[0] + ".1";
        return;
      }
      preRelease := parts[0] + "." + IntDecimal(WrapIncrement64(number.value));
    }

    method BumpVersion(commitType: CommitType, preRelease: string, build: string)
      modifies this
      ensures Value() == Bumped(old(Value()), commitType, preRelease, build)
    {
      var cleanPreRelease := Trim(preRelease, PRE_RELEASE_SPACE);
      var currentPreRelease := Split(this.preRelease, '.')[0];
      if cleanPreRelease == currentPreRelease {
        IncrementPreRelease();
        return;
      }
      if cleanPreRelease != "" {
        this.preRelease := preRelease + ".1";
        if build != "" {
          this.build := build;
        }
        return;
      }
      match commitType {
        case Patch => BumpPatch();
        case Minor => BumpMinor();
        case Major => BumpMajor();
        case NotConventional => return;
      }
      if build != "" {
        this.build := build;
      }
    }
  }

  /** The assertions of test/example_test.go, on the object. */
  method ExampleBumps()
  {
    var major := new Semver(0, 1, 0);
    major.BumpMajor();
    assert major.Value() == NewSemver(1, 0, 0);
    major.BumpMajor();
    assert major.Value() == NewSemver(2, 0, 0);

    var minor := new Semver(0, 1, 0);
    minor.BumpMinor();
    assert minor.Value() == NewSemver(0, 2, 0);
    minor.BumpMinor();
    assert minor.Value() == NewSemver(0, 3, 0);

    var patch := new Semver(0, 1, 0);
    patch.BumpPatch();
    assert patch.Value() == NewSemver(0, 1, 1);
    patch.BumpPatch();
    assert patch.Value() == NewSemver(0, 1, 2);
  }

  // ---------------------------------------------------------------------
  // Properties of the pre-release counter

  /** A pre-release made of a first segment p, a second segment q and
      further segments rest splits into p, q and the rest. */
  lemma SplitSegments(p: string, q: string, rest: string)
    requires '.' !in p && '.' !in q
    requires rest == "" || rest[0] == '.'
    ensures |Split(p + "." + q + rest, '.')| >= 2
    ensures Split(p + "." + q + rest, '.')[0] == p && Split(p + "." + q + rest, '.')[1] == q
  {
    var s := p + "." + q + rest;
    assert s == p + ['.'] + (q + rest);
    SplitFirst(p, q + rest, '.');
    var tail := Split(q + rest, '.');
    assert Split(s, '.') == [p] + tail;
    if rest == "" {
      assert q + rest == q;
    } else {
      assert q + rest == q + ['.'] + rest[1..];
      SplitFirst(q, rest[1..], '.');
    }
    assert tail[0] == q;
  }

  /** The three cases of IncrementPreRelease. */
  lemma IncrementedPreReleaseCases(p: string, q: string, rest: string)
    requires '.' !in p && '.' !in q
    requires rest == "" || rest[0] == '.'
    ensures IncrementedPreRelease(p) == p + ".2"
    ensures Atoi(q).None? ==> IncrementedPreRelease(p + "." + q + rest) == p + ".1"
    ensures Atoi(q).Some? ==>
      IncrementedPreRelease(p + "." + q + rest) == p + "." + IntDecimal(WrapIncrement64(Atoi(q).value))
  {
    var parts := Split(p + "." + q + rest, '.');
    SplitSegments(p, q, rest);
    assert |parts| >= 2 && parts[0] == p && parts[1] == q;
  }

  /** A counter written as a decimal number goes up by one. */
  lemma CounterIncrements(p: string, n: nat)
    requires '.' !in p
    requires n < MAX_INT64
    ensures IncrementedPreRelease(p + "." + Decimal(n)) == p + "." + Decimal(n + 1)
  {
    AtoiDecimal(n);
    assert p + "." + Decimal(n) == p + "." + Decimal(n) + "";
    IncrementedPreReleaseCases(p, Decimal(n), "");
  }

  /** Atoi reads back every int64 that %d wrote. */
  lemma AtoiIntDecimal(m: int)
    requires MIN_INT64 <= m <= MAX_INT64
    ensures Atoi(IntDecimal(m)) == Some(m)
    ensures '.' !in IntDecimal(m)
  {
    if m < 0 {
      DecimalValue(-m);
      AtoiNegative(Decimal(-m));
    } else {
      AtoiDecimal(m);
      DigitsHoldNoPunctuation(Decimal(m));
    }
  }

  /** Every continuation yields a pre-release different from the one it
      continued. */
  lemma IncrementChanges(preRelease: string)
    ensures IncrementedPreRelease(preRelease) != preRelease
  {
    var parts := Split(preRelease, '.');
    var r := IncrementedPreRelease(preRelease);
    if |parts| < 2 {
      assert r == parts[0] + ".2";
      assert r[|r| - 2] == '.';
      assert '.' in r;
    } else {
      var second := match Atoi(parts[1]) case None => "1" case Some(number) => IntDecimal(WrapIncrement64(number));
      AtoiDecimal(1);
      assert Decimal(1) == "1";
      if Atoi(parts[1]).Some? {
        AtoiIntDecimal(WrapIncrement64(Atoi(parts[1]).value));
      }
      assert '.' !in second && Atoi(second) != Atoi(parts[1]);
      assert r == parts[0] + ['.'] + second;
      SplitFirst(parts[0], second, '.');
      assert Split(r, '.')[1] == second != parts[1];
    }
  }

  // ---------------------------------------------------------------------
  // Properties of BumpVersion

  /** With no pre-release requested and no pre-release track (an empty first
      segment), BumpVersion continues the empty track whatever the commit
      type: 0.1.0 becomes 0.1.0-.2 and is never bumped numerically. */
  lemma EmptyRequestContinues(v: Version, commitType: CommitType, build: string)
    requires FirstSegment(v.preRelease) == ""
    ensures Bumped(v, commitType, "", build) == v.(preRelease := IncrementedPreRelease(v.preRelease))
    ensures v.preRelease == "" ==> Bumped(v, commitType, "", build) == v.(preRelease := ".2")
  {
    assert Trim("", PRE_RELEASE_SPACE) == "";
  }

  /** Continuing a track whose counter is n gives counter n + 1 and leaves
      the triple and the build alone, whatever the commit type and build. */
  lemma ContinuationCounts(v: Version, commitType: CommitType, preRelease: string, build: string, n: nat)
    requires '.' !in Trim(preRelease, PRE_RELEASE_SPACE)
    requires v.preRelease == Trim(preRelease, PRE_RELEASE_SPACE) + "." + Decimal(n)
    requires n < MAX_INT64
    ensures Bumped(v, commitType, preRelease, build)
         == v.(preRelease := Trim(preRelease, PRE_RELEASE_SPACE) + "." + Decimal(n + 1))
  {
    var track := Trim(preRelease, PRE_RELEASE_SPACE);
    assert v.preRelease == track + ['.'] + Decimal(n);
    SplitFirst(track, Decimal(n), '.');
    CounterIncrements(track, n);
  }

  /** Requesting a new track starts it at 1 (the numeric triple stays), and
      requesting it again continues it at 2. */
  lemma NewTrackThenContinue(v: Version, t1: CommitType, t2: CommitType, preRelease: string, b1: string, b2: string)
    requires preRelease != "" && Trim(preRelease, PRE_RELEASE_SPACE) == preRelease && '.' !in preRelease
    requires FirstSegment(v.preRelease) != preRelease
    ensures Bumped(v, t1, preRelease, b1) == WithBuild(v.(preRelease := preRelease + ".1"), b1)
    ensures Bumped(Bumped(v, t1, preRelease, b1), t2, preRelease, b2)
         == WithBuild(v.(preRelease := preRelease + ".2"), b1)
  {
    var w := Bumped(v, t1, preRelease, b1);
    assert w == WithBuild(v.(preRelease := preRelease + ".1"), b1);
    assert w.preRelease == preRelease + ['.'] + "1";
    SplitFirst(preRelease, "1", '.');
    assert FirstSegment(w.preRelease) == preRelease;
    AtoiDecimal(1);
    assert Decimal(1) == "1" && Decimal(2) == "2";
    CounterIncrements(preRelease, 1);
    assert IncrementedPreRelease(w.preRelease) == preRelease + ".2";
  }

  /** The formatted string starts with "v" and holds the triple, which
      Sscanf reads back. */
  lemma FormattedTriple(v: Version)
    ensures |Formatted(v)| > 0 && Formatted(v)[0] == 'v'
    ensures ScanTriple(Formatted(v)[1..]) == Some((v.major, v.minor, v.patch))
  {
    var suffix := PreReleaseSuffix(v) + BuildSuffix(v);
    SuffixNotDigit(v);
    assert Formatted(v) == "v" + (Triple(v) + suffix);
    ScanTripleDecimal(v.major, v.minor, v.patch, suffix);
  }

  lemma SuffixNotDigit(v: Version)
    ensures var suffix := PreReleaseSuffix(v) + BuildSuffix(v);
      suffix == "" || suffix[0] == '-' || suffix[0] == '+'
  {
  }

  /** Sscanf reads the triple back. */
  lemma TripleScans(v: Version)
    ensures ScanTriple(Triple(v)) == Some((v.major, v.minor, v.patch))
  {
    ScanTripleDecimal(v.major, v.minor, v.patch, "");
    assert Triple(v) == Decimal(v.major) + "." + Decimal(v.minor) + "." + Decimal(v.patch) + "";
  }

  /** Two versions with the same formatted string have the same triple. */
  lemma FormattedFixesTriple(v: Version, w: Version)
    requires Formatted(v) == Formatted(w)
    ensures v.major == w.major && v.minor == w.minor && v.patch == w.patch
  {
    FormattedTriple(v);
    FormattedTriple(w);
  }

  /** A BumpVersion that continues a track, or bumps for a conventional
      commit, always changes the formatted version, so a tag is planned. */
  lemma BumpedChangesFormat(v: Version, commitType: CommitType, preRelease: string, build: string)
    requires
      || Trim(preRelease, PRE_RELEASE_SPACE) == FirstSegment(v.preRelease)
      || (Trim(preRelease, PRE_RELEASE_SPACE) == "" && commitType != NotConventional)
    ensures Formatted(Bumped(v, commitType, preRelease, build)) != Formatted(v)
  {
    var w := Bumped(v, commitType, preRelease, build);
    if Trim(preRelease, PRE_RELEASE_SPACE) == FirstSegment(v.preRelease) {
      if Formatted(w) == Formatted(v) {
        IncrementChanges(v.preRelease);
        ContinuationFormatDiffers(v);
      }
    } else {
      TypeBumpChangesTriple(v, commitType, preRelease, build);
      if Formatted(w) == Formatted(v) {
        FormattedFixesTriple(v, w);
      }
    }
  }

  /** A bump by a conventional commit type changes the numeric triple,
      even where a uint32 counter wraps around to 0. */
  lemma TypeBumpChangesTriple(v: Version, commitType: CommitType, preRelease: string, build: string)
    requires Trim(preRelease, PRE_RELEASE_SPACE) != FirstSegment(v.preRelease)
    requires Trim(preRelease, PRE_RELEASE_SPACE) == "" && commitType != NotConventional
    ensures var w := Bumped(v, commitType, preRelease, build);
      w.major != v.major || w.minor != v.minor || w.patch != v.patch
  {
  }

  lemma ContinuationFormatDiffers(v: Version)
    requires IncrementedPreRelease(v.preRelease) != v.preRelease
    ensures Formatted(v.(preRelease := IncrementedPreRelease(v.preRelease))) != Formatted(v)
  {
    var w := v.(preRelease := IncrementedPreRelease(v.preRelease));
    var head := "v" + Triple(v);
    var b := BuildSuffix(v);
    var pw, pv := PreReleaseSuffix(w), PreReleaseSuffix(v);
    assert Formatted(w) == head + pw + b && Formatted(v) == head + pv + b;
    if |pw| != |pv| {
      assert |Formatted(w)| != |Formatted(v)|;
    } else {
      assert pw != pv by {
        if v.preRelease != "" && w.preRelease != "" {
          assert pw[1..] == w.preRelease && pv[1..] == v.preRelease;
        }
      }
      assert Formatted(w)[|head|..|head| + |pw|] == pw;
      assert Formatted(v)[|head|..|head| + |pv|] == pv;
    }
  }
}
