/** Classification of a conventional-commit subject line
    (AnalyzeCommitMessage in core/check_commits.go). */
module Classify {
  import opened Text
  import opened Semver

  /** The commit types that call for a patch release. */
  const PATCH_TYPES: set<string> := {"fix", "chore", "docs", "style", "refactor", "test", "revert"}

  /** The severity of a commit type without a breaking-change marker:
      an exact, case-sensitive match against the known types. */
  function TypeSeverity(commitType: string): CommitType
  {
    if commitType in PATCH_TYPES then Patch
    else if commitType == "feat" then Minor
    else if commitType == "BREAKING CHANGE" then Major
    else NotConventional
  }

  /** The severity of the text before the first ':' (type and scope). */
  function PrefixSeverity(typeAndScope: string): CommitType
  {
    var commitType := SplitOnce(typeAndScope, '(')[0];
    if EndsWith(commitType, '!') || EndsWith(typeAndScope, '!') then Major
    else TypeSeverity(commitType)
  }

  /** A line without ':' is not conventional; otherwise the text before
      the first ':' decides. */
  function AnalyzeCommitMessage(message: string): (r: CommitType)
    ensures ':' !in message ==> r == NotConventional
  {
    if ':' !in message then NotConventional
    else
      // SplitN(message, ":", 2) has two parts once message holds a ':'
      PrefixSeverity(SplitOnce(message, ':')[0])
  }

  /** Only the text before the first ':' matters: the description after it
      never changes the classification. */
  lemma ClassifyByPrefix(typeAndScope: string, description: string)
    requires ':' !in typeAndScope
    ensures AnalyzeCommitMessage(typeAndScope + ":" + description) == PrefixSeverity(typeAndScope)
  {
    SplitOnceAfter(typeAndScope, description, ':');
  }

  /** A subject written as `type[(scope)][!]: description`: the marker '!'
      (after the type or after the scope) makes it a major change;
      otherwise the type alone decides. */
  lemma ClassifyConventional(commitType: string, scope: string, bang: bool, description: string)
    requires ':' !in commitType && '(' !in commitType
    requires scope == "" || (scope[0] == '(' && ':' !in scope && !EndsWith(scope, '!'))
    ensures AnalyzeCommitMessage(commitType + scope + (if bang then "!:" else ":") + description)
         == if bang || EndsWith(commitType, '!') then Major else TypeSeverity(commitType)
  {
    var typeAndScope := commitType + scope + (if bang then "!" else "");
    MessageShape(commitType + scope, bang, description);
    ClassifyByPrefix(typeAndScope, description);
    if scope == "" {
      assert commitType + scope == commitType;
      UnscopedPrefix(commitType, bang);
    } else {
      ScopedPrefix(commitType, scope, bang);
    }
  }

  /** The subject is the type and scope with the marker, ':' and the description. */
  lemma MessageShape(typeAndScope: string, bang: bool, description: string)
    ensures typeAndScope + (if bang then "!:" else ":") + description
         == typeAndScope + (if bang then "!" else "") + ":" + description
  {
    if bang {
      AppendAssociates(typeAndScope, "!", ":");
      assert "!" + ":" == "!:";
    } else {
      assert typeAndScope + "" == typeAndScope;
    }
  }

  /** Without a scope, the type and the optional marker. */
  lemma UnscopedPrefix(commitType: string, bang: bool)
    requires '(' !in commitType
    ensures PrefixSeverity(commitType + (if bang then "!" else ""))
         == if bang || EndsWith(commitType, '!') then Major else TypeSeverity(commitType)
  {
    var typeAndScope := commitType + (if bang then "!" else "");
    assert '(' !in typeAndScope;
    if !bang {
      assert typeAndScope == commitType;
    }
  }

  /** With a scope, the text before its '(' is the type, and the marker
      is the last character. */
  lemma ScopedPrefix(commitType: string, scope: string, bang: bool)
    requires '(' !in commitType
    requires scope != "" && scope[0] == '(' && !EndsWith(scope, '!')
    ensures PrefixSeverity(commitType + scope + (if bang then "!" else ""))
         == if bang || EndsWith(commitType, '!') then Major else TypeSeverity(commitType)
  {
    var marker := if bang then "!" else "";
    var rest := scope[1..] + marker;
    var typeAndScope := commitType + scope + marker;
    SplitHead(commitType, scope, marker);
    SplitOnceAfter(commitType, rest, '(');
    assert EndsWith(typeAndScope, '!') <==> bang by {
      LastOfAppend(commitType + scope, marker);
    }
  }

  /** The severities of some commit types: the match is exact and
      case-sensitive. */
  lemma KnownTypes()
    ensures TypeSeverity("feat") == Minor
    ensures TypeSeverity("chore") == Patch && TypeSeverity("fix") == Patch
    ensures TypeSeverity("Feat") == NotConventional
  {
  }

  /** Examples of the commit convention, whatever the description: a
      feature is minor, a chore a patch, the marker '!' after a scope or
      after a type is major, and "Feat" is not a known type. */
  lemma FeatureExample(description: string)
    ensures AnalyzeCommitMessage("feat" + ":" + description) == Minor
  {
    ClassifyPlain("feat", description);
    KnownTypes();
  }

  lemma ChoreExample(description: string)
    ensures AnalyzeCommitMessage("chore" + ":" + description) == Patch
  {
    ClassifyPlain("chore", description);
    KnownTypes();
  }

  lemma ScopedBreakingExample(description: string)
    ensures AnalyzeCommitMessage("fix" + "(api)" + "!:" + description) == Major
  {
    ClassifyBreaking("fix", "(api)", description);
  }

  lemma BreakingExample(description: string)
    ensures AnalyzeCommitMessage("feat" + "!:" + description) == Major
  {
    ClassifyBreaking("feat", "", description);
    assert "feat" + "" == "feat";
  }

  lemma CaseSensitiveExample(description: string)
    ensures AnalyzeCommitMessage("Feat" + ":" + description) == NotConventional
  {
    ClassifyPlain("Feat", description);
    KnownTypes();
  }

  lemma ClassifyPlain(commitType: string, description: string)
    requires ':' !in commitType && '(' !in commitType && !EndsWith(commitType, '!')
    ensures AnalyzeCommitMessage(commitType + ":" + description) == TypeSeverity(commitType)
  {
    ClassifyConventional(commitType, "", false, description);
    assert commitType + "" == commitType;
  }

  lemma ClassifyBreaking(commitType: string, scope: string, description: string)
    requires ':' !in commitType && '(' !in commitType
    requires scope == "" || (scope[0] == '(' && ':' !in scope && !EndsWith(scope, '!'))
    ensures AnalyzeCommitMessage(commitType + scope + "!:" + description) == Major
  {
    ClassifyConventional(commitType, scope, true, description);
  }
}
