/** Models of the Go library routines on strings that the core relies on:
    strings.Split with a one-character separator, strings.SplitN(_, _, 2),
    strings.Join, strings.Trim/TrimLeft/TrimRight with a cutset,
    strings.TrimPrefix, strings.ReplaceAll of CRLF, fmt's %d for integers,
    strconv.Atoi for a 64-bit int and fmt.Sscanf's %d into a uint32.
    Strings are sequences of characters; the core only splits on ASCII
    characters, so bytes and characters agree wherever it matters. */
module Text {

  datatype Option<+T> = None | Some(value: T)

  /** The range of Go's uint32. */
  const UINT32_LIMIT: nat := 0x1_0000_0000
  type Uint32 = x: nat | x < UINT32_LIMIT

  /** The range of Go's int on a 64-bit platform. */
  const MIN_INT64: int := -0x8000_0000_0000_0000
  const MAX_INT64: int := 0x7FFF_FFFF_FFFF_FFFF

  // ---------------------------------------------------------------------
  // Searching and splitting

  /** Index of the first occurrence of c in s. */
  function IndexOf(s: string, c: char): (i: nat)
    requires c in s
    ensures i < |s| && s[i] == c && c !in s[..i]
  {
    if s[0] == c then 0
    else
      var j := IndexOf(s[1..], c);
      assert s[..j + 1] == [s[0]] + s[1..][..j];
      1 + j
  }

  /** strings.Split(s, string(sep)): the pieces between the occurrences of
      sep, from left to right; there is always at least one piece. */
  function Split(s: string, sep: char): (parts: seq<string>)
    ensures |parts| >= 1
    ensures forall k :: 0 <= k < |parts| ==> sep !in parts[k]
    decreases |s|
  {
    if sep in s then
      var i := IndexOf(s, sep);
      [s[..i]] + Split(s[i + 1..], sep)
    else
      [s]
  }

  lemma LastOfCons<T>(x: T, xs: seq<T>)
    requires xs != []
    ensures Last([x] + xs) == Last(xs)
  {
  }

  /** The last piece of a split is the end of the string, just after its
      last separator if it has one. */
  lemma {:induction false} LastSplitSuffix(s: string, sep: char)
    ensures var p := Last(Split(s, sep));
      |p| <= |s| && s[|s| - |p|..] == p && (|p| < |s| ==> s[|s| - |p| - 1] == sep)
    decreases |s|
  {
    if sep in s {
      var i := IndexOf(s, sep);
      var t := s[i + 1..];
      LastSplitSuffix(t, sep);
      var parts := Split(t, sep);
      var p := Last(parts);
      assert Split(s, sep) == [s[..i]] + parts;
      LastOfCons(s[..i], parts);
      SuffixAfter(s, i, p, sep);
    } else {
      assert Split(s, sep) == [s];
    }
  }

  /** The last piece of a split holds no separator and ends the string,
      after a separator or at its start; a string without a separator is
      its own last piece. */
  lemma LastSegment(s: string, sep: char)
    ensures var name := Last(Split(s, sep));
      && sep !in name
      && exists pre :: s == pre + name && (pre == "" || Last(pre) == sep)
    ensures sep !in s ==> Last(Split(s, sep)) == s
  {
    LastSplitSuffix(s, sep);
    var parts := Split(s, sep);
    assert sep !in parts[|parts| - 1];
    SuffixWitness(s, Last(parts), sep);
  }

  lemma SuffixWitness(s: string, name: string, sep: char)
    requires |name| <= |s| && s[|s| - |name|..] == name && (|name| < |s| ==> s[|s| - |name| - 1] == sep)
    ensures exists pre :: s == pre + name && (pre == "" || Last(pre) == sep)
  {
    var pre := s[..|s| - |name|];
    assert s == pre + name;
    if pre != "" {
      assert Last(pre) == s[|s| - |name| - 1];
    }
  }

  /** A suffix of the text after position i, just after a sep or
      starting it, is such a suffix of the whole text when s[i] is sep. */
  lemma SuffixAfter(s: string, i: nat, p: string, sep: char)
    requires i < |s| && s[i] == sep
    requires var t := s[i + 1..]; |p| <= |t| && t[|t| - |p|..] == p && (|p| < |t| ==> t[|t| - |p| - 1] == sep)
    ensures |p| <= |s| && s[|s| - |p|..] == p && (|p| < |s| ==> s[|s| - |p| - 1] == sep)
  {
    var t := s[i + 1..];
    assert s[|s| - |p|..] == t[|t| - |p|..];
    if |p| < |t| {
      assert s[|s| - |p| - 1] == t[|t| - |p| - 1];
    }
  }

  /** strings.SplitN(s, string(sep), 2): s cut at the first sep, or s alone. */
  function SplitOnce(s: string, sep: char): (parts: seq<string>)
    ensures 1 <= |parts| <= 2
    ensures |parts| == 2 <==> sep in s
    ensures |parts| == 1 ==> parts[0] == s
    ensures |parts| == 2 ==> parts[0] + [sep] + parts[1] == s && sep !in parts[0]
  {
    if sep in s then
      var i := IndexOf(s, sep);
      assert s == s[..i] + [sep] + s[i + 1..];
      [s[..i], s[i + 1..]]
    else
      [s]
  }

  /** strings.Join(parts, sep). */
  function Join(parts: seq<string>, sep: string): string
  {
    if |parts| == 0 then ""
    else if |parts| == 1 then parts[0]
    else parts[0] + sep + Join(parts[1..], sep)
  }

  function Last<T>(s: seq<T>): T
    requires |s| > 0
  {
    s[|s| - 1]
  }

  /** The first sep of a + [sep] + b is the one after a, when a has none. */
  lemma {:induction false} IndexOfAfter(a: string, b: string, sep: char)
    requires sep !in a
    ensures IndexOf(a + [sep] + b, sep) == |a|
  {
    if a != [] {
      assert (a + [sep] + b)[1..] == a[1..] + [sep] + b;
      IndexOfAfter(a[1..], b, sep);
    }
  }

  lemma SplitOnceAfter(a: string, b: string, sep: char)
    requires sep !in a
    ensures SplitOnce(a + [sep] + b, sep) == [a, b]
  {
    var s := a + [sep] + b;
    IndexOfAfter(a, b, sep);
    assert s[..|a|] == a && s[|a| + 1..] == b;
  }

  lemma SplitFirst(a: string, b: string, sep: char)
    requires sep !in a
    ensures Split(a + [sep] + b, sep) == [a] + Split(b, sep)
  {
    var s := a + [sep] + b;
    IndexOfAfter(a, b, sep);
    assert s[..|a|] == a && s[|a| + 1..] == b;
  }

  /** Splitting distributes over a separator placed between two strings. */
  lemma {:induction false} SplitAppend(a: string, b: string, sep: char)
    ensures Split(a + [sep] + b, sep) == Split(a, sep) + Split(b, sep)
    decreases |a|
  {
    if sep in a {
      var i := IndexOf(a, sep);
      var head, tail := a[..i], a[i + 1..];
      var later := tail + [sep] + b;
      assert a == head + [sep] + tail;
      assert a + [sep] + b == head + [sep] + later;
      calc {
        Split(a + [sep] + b, sep);
        { SplitFirst(head, later, sep); }
        [head] + Split(later, sep);
        { SplitAppend(tail, b, sep); }
        [head] + (Split(tail, sep) + Split(b, sep));
        { SplitFirst(head, tail, sep); }
        Split(a, sep) + Split(b, sep);
      }
    } else {
      SplitFirst(a, b, sep);
    }
  }

  /** Joining the pieces of a split gives back the string. */
  lemma {:induction false} JoinSplit(s: string, sep: char)
    ensures Join(Split(s, sep), [sep]) == s
    decreases |s|
  {
    if sep in s {
      var i := IndexOf(s, sep);
      var head, tail := s[..i], s[i + 1..];
      JoinSplit(tail, sep);
      assert Split(s, sep) == [head] + Split(tail, sep);
      JoinCons(head, Split(tail, sep), [sep]);
      CutAt(s, i);
    }
  }

  /** A string is the text before position i, the character at i and the
      text after it. */
  lemma CutAt(s: string, i: nat)
    requires i < |s|
    ensures s == s[..i] + [s[i]] + s[i + 1..]
  {
  }

  /** Join grows at its front by the new piece and the separator. */
  lemma JoinCons(part: string, parts: seq<string>, sep: string)
    requires parts != []
    ensures Join([part] + parts, sep) == part + sep + Join(parts, sep)
  {
    assert ([part] + parts)[1..] == parts;
  }

  /** Splitting a join of separator-free pieces gives back the pieces. */
  lemma {:induction false} SplitJoin(parts: seq<string>, sep: char)
    requires |parts| >= 1
    requires forall k :: 0 <= k < |parts| ==> sep !in parts[k]
    ensures Split(Join(parts, [sep]), sep) == parts
  {
    if |parts| > 1 {
      SplitJoin(parts[1..], sep);
      SplitFirst(parts[0], Join(parts[1..], [sep]), sep);
      assert parts == [parts[0]] + parts[1..];
    }
  }

  /** Each piece followed by the delimiter, as a loop that appends
      `piece + delimiter` builds it. */
  function Terminated(parts: seq<string>, delimiter: string): (s: string)
    ensures parts == [] ==> s == ""
  {
    if parts == [] then "" else Terminated(parts[..|parts| - 1], delimiter) + Last(parts) + delimiter
  }

  /** Join grows at its end by the separator and the new piece. */
  lemma {:induction false} JoinSnoc(parts: seq<string>, part: string, sep: string)
    requires parts != []
    ensures Join(parts + [part], sep) == Join(parts, sep) + sep + part
  {
    if |parts| > 1 {
      assert (parts + [part])[1..] == parts[1..] + [part];
      JoinSnoc(parts[1..], part, sep);
    }
  }

  /** A terminated list is the joined list followed by one delimiter. */
  lemma {:induction false} TerminatedJoin(parts: seq<string>, delimiter: string)
    requires parts != []
    ensures Terminated(parts, delimiter) == Join(parts, delimiter) + delimiter
  {
    var init := parts[..|parts| - 1];
    if init != [] {
      TerminatedJoin(init, delimiter);
      JoinSnoc(init, Last(parts), delimiter);
      assert init + [Last(parts)] == parts;
    }
  }

  /** A terminated list grows at its end by the new piece and the delimiter. */
  lemma TerminatedSnoc(parts: seq<string>, part: string, delimiter: string)
    ensures Terminated(parts + [part], delimiter) == Terminated(parts, delimiter) + (part + delimiter)
  {
    assert (parts + [part])[..|parts|] == parts;
  }

  /** Empty parts, each followed by c, are only c. */
  lemma {:induction false} TerminatedEmpties(parts: seq<string>, c: char)
    requires forall k :: 0 <= k < |parts| ==> parts[k] == ""
    ensures Only(Terminated(parts, [c]), c)
  {
    if parts != [] {
      TerminatedEmpties(parts[..|parts| - 1], c);
      assert Last(parts) == parts[|parts| - 1] == "";
      assert Terminated(parts, [c]) == Terminated(parts[..|parts| - 1], [c]) + [c];
    }
  }

  /** Trimming a cutset off a text of its characters leaves nothing. */
  lemma {:induction false} TrimRightOnly(s: string, c: char, cutset: string)
    requires c in cutset && Only(s, c)
    ensures TrimRight(s, cutset) == ""
  {
    if s != "" {
      assert s[|s| - 1] == c;
      var init := s[..|s| - 1];
      assert Only(init, c) by {
        forall k | 0 <= k < |init| ensures init[k] == c {
          assert init[k] == s[k];
        }
      }
      TrimRightOnly(init, c, cutset);
    }
  }

  lemma SplitEmpty(c: char)
    ensures Split("", c) == [""]
  {
  }

  /** Empty parts, each followed by c, trimmed of a cutset holding c,
      leave nothing; with one part, that splits back into the one part. */
  lemma TrimTerminatedEmpties(parts: seq<string>, c: char, cutset: string)
    requires c in cutset
    requires forall k :: 0 <= k < |parts| ==> parts[k] == ""
    ensures TrimRight(Terminated(parts, [c]), cutset) == ""
  {
    TerminatedEmpties(parts, c);
    TrimRightOnly(Terminated(parts, [c]), c, cutset);
  }

  /** One empty part, followed by c and trimmed, splits back into itself. */
  lemma SplitTrimmedEmpty(c: char, cutset: string)
    requires c in cutset
    ensures Split(TrimRight(Terminated([""], [c]), cutset), c) == [""]
  {
    TrimTerminatedEmpties([""], c, cutset);
    SplitEmpty(c);
  }

  /** Separator-terminated parts, trimmed of a cutset holding the
      separator, split back into the parts when the last part does not end
      in the cutset, or is the only part and empty. */
  lemma SplitTrimmedEntries(parts: seq<string>, c: char, cutset: string)
    requires c in cutset && parts != []
    requires forall k :: 0 <= k < |parts| ==> c !in parts[k]
    requires Last(parts) == "" ==> |parts| == 1
    requires Last(parts) != "" ==> Last(Last(parts)) !in cutset
    ensures Split(TrimRight(Terminated(parts, [c]), cutset), c) == parts
  {
    if Last(parts) == "" {
      assert parts == [""];
      SplitTrimmedEmpty(c, cutset);
    } else {
      SplitTrimmedTerminated(parts, c, cutset);
    }
  }

  /** Splitting a terminated list, trimmed of its last delimiter, gives back
      the pieces when none holds the delimiter and the last is not empty. */
  lemma SplitTerminated(parts: seq<string>, c: char)
    requires parts != [] && Last(parts) != ""
    requires forall k :: 0 <= k < |parts| ==> c !in parts[k]
    ensures Split(TrimRight(Terminated(parts, [c]), [c]), c) == parts
  {
    TrimTerminated(parts, c);
    SplitJoin(parts, c);
  }

  /** The same, when the trimming cuts a set of characters that holds the
      delimiter and the last piece ends outside that set. */
  lemma SplitTrimmedTerminated(parts: seq<string>, c: char, cutset: string)
    requires c in cutset
    requires parts != [] && Last(parts) != "" && Last(Last(parts)) !in cutset
    requires forall k :: 0 <= k < |parts| ==> c !in parts[k]
    ensures Split(TrimRight(Terminated(parts, [c]), cutset), c) == parts
  {
    TerminatedJoin(parts, [c]);
    JoinLastChar(parts, [c]);
    TrimRightOne(Join(parts, [c]), c, cutset);
    SplitJoin(parts, c);
  }

  /** Trimming the delimiter off a terminated list gives the joined list,
      when the last piece does not itself end in the delimiter. */
  lemma TrimTerminated(parts: seq<string>, c: char)
    requires parts != [] && Last(parts) != "" && !EndsWith(Last(parts), c)
    ensures TrimRight(Terminated(parts, [c]), [c]) == Join(parts, [c])
  {
    TerminatedJoin(parts, [c]);
    JoinLastChar(parts, [c]);
    TrimRightOne(Join(parts, [c]), c, [c]);
  }

  /** The join ends with the last character of the last piece. */
  lemma {:induction false} JoinLastChar(parts: seq<string>, sep: string)
    requires parts != [] && Last(parts) != ""
    ensures var j := Join(parts, sep); j != "" && j[|j| - 1] == Last(parts)[|Last(parts)| - 1]
  {
    if |parts| > 1 {
      var rest := parts[1..];
      assert Last(rest) == Last(parts);
      JoinLastChar(rest, sep);
      assert Join(parts, sep) == parts[0] + sep + Join(rest, sep);
    }
  }

  lemma AppendAssociates(a: string, b: string, c: string)
    ensures a + (b + c) == a + b + c
  {
  }

  /** Taking the first character of the middle piece apart. */
  lemma SplitHead(a: string, s: string, m: string)
    requires s != []
    ensures a + s + m == a + [s[0]] + (s[1..] + m)
  {
    assert s == [s[0]] + s[1..];
  }

  /** The last character of a + m is that of m, or that of a when m is empty. */
  lemma LastOfAppend(a: string, m: string)
    requires a != []
    ensures EndsWith(a + m, '!') <==> (if m == [] then EndsWith(a, '!') else EndsWith(m, '!'))
  {
    if m == [] {
      assert a + m == a;
    }
  }

  // ---------------------------------------------------------------------
  // Trimming

  predicate EndsWith(s: string, c: char)
  {
    |s| > 0 && s[|s| - 1] == c
  }

  /** strings.TrimRight(s, cutset): the longest prefix of s after which
      only cutset characters follow. */
  function TrimRight(s: string, cutset: string): (r: string)
    ensures |r| <= |s| && r == s[..|r|]
    ensures r == "" || r[|r| - 1] !in cutset
    ensures forall k :: |r| <= k < |s| ==> s[k] in cutset
  {
    if |s| > 0 && s[|s| - 1] in cutset then TrimRight(s[..|s| - 1], cutset) else s
  }

  /** strings.TrimLeft(s, cutset): the longest suffix of s before which
      only cutset characters stand. */
  function TrimLeft(s: string, cutset: string): (r: string)
    ensures |r| <= |s| && r == s[|s| - |r|..]
    ensures r == "" || r[0] !in cutset
    ensures forall k :: 0 <= k < |s| - |r| ==> s[k] in cutset
  {
    if |s| > 0 && s[0] in cutset then TrimLeft(s[1..], cutset) else s
  }

  /** strings.Trim(s, cutset). */
  function Trim(s: string, cutset: string): string
  {
    TrimLeft(TrimRight(s, cutset), cutset)
  }

  /** Every character of s is c. */
  predicate Only(s: string, c: char)
  {
    forall k :: 0 <= k < |s| ==> s[k] == c
  }

  /** Trimming c off both ends of a text leaves what stands between a run
      of c at its start and a run of c at its end. */
  lemma TrimSurrounded(s: string, i: nat, j: nat, c: char)
    requires i < j <= |s| && s[i] != c && s[j - 1] != c
    requires Only(s[..i], c) && Only(s[j..], c)
    ensures Trim(s, [c]) == s[i..j]
  {
    TrimRightAt(s, j, c);
    assert s[..j][..i] == s[..i];
    TrimLeftAt(s[..j], i, c);
    assert s[..j][i..] == s[i..j];
  }

  lemma {:induction false} TrimRightAt(s: string, j: nat, c: char)
    requires 0 < j <= |s| && s[j - 1] != c && Only(s[j..], c)
    ensures TrimRight(s, [c]) == s[..j]
    decreases |s|
  {
    if j < |s| {
      var init := s[..|s| - 1];
      assert s[|s| - 1] == s[j..][|s| - 1 - j];
      assert init[j..] == s[j..][..|s| - 1 - j];
      TrimRightAt(init, j, c);
      assert init[..j] == s[..j];
    } else {
      assert s[..j] == s;
    }
  }

  lemma {:induction false} TrimLeftAt(s: string, i: nat, c: char)
    requires i < |s| && s[i] != c && Only(s[..i], c)
    ensures TrimLeft(s, [c]) == s[i..]
  {
    if i > 0 {
      assert s[0] == s[..i][0];
      assert s[1..][..i - 1] == s[..i][1..];
      TrimLeftAt(s[1..], i - 1, c);
      assert s[1..][i - 1..] == s[i..];
    }
  }

  /** What Trim(s, c) leaves stands in s between a run of c and a run of c. */
  lemma TrimWithin(s: string, c: char)
    ensures Surrounded(s, Trim(s, [c]), c)
  {
    var r := TrimRight(s, [c]);
    var t := TrimLeft(r, [c]);
    var i := |r| - |t|;
    TrimmedRightOnly(s, c);
    TrimmedLeftOnly(r, c);
    SliceOfPrefix(s, r, i, t);
    SurroundedAt(s, t, i, c);
  }

  /** TrimRight leaves only c after what it keeps. */
  lemma TrimmedRightOnly(s: string, c: char)
    ensures Only(s[|TrimRight(s, [c])|..], c)
  {
    var r := TrimRight(s, [c]);
    forall k | 0 <= k < |s| - |r|
      ensures s[|r|..][k] == c
    {
      assert s[|r| + k] in [c];
    }
  }

  /** TrimLeft removes only c. */
  lemma TrimmedLeftOnly(r: string, c: char)
    ensures Only(r[..|r| - |TrimLeft(r, [c])|], c)
  {
    var t := TrimLeft(r, [c]);
    var front := r[..|r| - |t|];
    forall k | 0 <= k < |front|
      ensures front[k] == c
    {
      assert r[k] in [c];
    }
  }

  /** The tail of a prefix of s stands in s at the same place. */
  lemma SliceOfPrefix(s: string, r: string, i: nat, t: string)
    requires |r| <= |s| && r == s[..|r|]
    requires i + |t| == |r| && t == r[i..]
    ensures s[i..i + |t|] == t && s[..i] == r[..i] && s[i + |t|..] == s[|r|..]
  {
  }

  /** A witness for Surrounded. */
  lemma SurroundedAt(s: string, t: string, i: nat, c: char)
    requires i + |t| <= |s| && s[i..i + |t|] == t
    requires Only(s[..i], c) && Only(s[i + |t|..], c)
    ensures Surrounded(s, t, c)
  {
  }

  /** s is t with only c before and after it. */
  predicate Surrounded(s: string, t: string, c: char)
  {
    exists i :: 0 <= i <= |s| - |t| && s[i..i + |t|] == t && Only(s[..i], c) && Only(s[i + |t|..], c)
  }

  /** Trim(s, c) is t, which neither starts nor ends with c, exactly when
      s is t with only c before and after it. */
  lemma TrimExactly(s: string, t: string, c: char)
    requires t != [] && t[0] != c && t[|t| - 1] != c
    ensures Trim(s, [c]) == t <==> Surrounded(s, t, c)
  {
    TrimWithin(s, c);
    if Surrounded(s, t, c) {
      SurroundedTrim(s, t, c);
    }
  }

  lemma SurroundedTrim(s: string, t: string, c: char)
    requires t != [] && t[0] != c && t[|t| - 1] != c
    requires Surrounded(s, t, c)
    ensures Trim(s, [c]) == t
  {
    var i :| 0 <= i <= |s| - |t| && s[i..i + |t|] == t && Only(s[..i], c) && Only(s[i + |t|..], c);
    var j := i + |t|;
    SliceEnds(s, i, j, t);
    TrimSurrounded(s, i, j, c);
  }

  lemma SliceEnds(s: string, i: nat, j: nat, t: string)
    requires i < j <= |s| && s[i..j] == t
    ensures t[0] == s[i] && t[|t| - 1] == s[j - 1]
  {
  }

  /** strings.TrimPrefix(s, string(c)): drops one leading c. */
  function TrimPrefix(s: string, c: char): string
  {
    if |s| > 0 && s[0] == c then s[1..] else s
  }

  /** Nothing is trimmed off a string that does not hold the character. */
  lemma TrimRightAbsent(s: string, c: char)
    ensures c !in s ==> TrimRight(s, [c]) == s
  {
  }

  /** Removing a trailing separator that follows a last character outside
      the cutset leaves the rest alone. */
  lemma TrimRightOne(s: string, c: char, cutset: string)
    requires c in cutset
    requires s != [] && s[|s| - 1] !in cutset
    ensures TrimRight(s + [c], cutset) == s
  {
    assert (s + [c])[..|s|] == s;
  }

  /** Nothing is trimmed from a string that starts outside the cutset. */
  lemma TrimLeftNone(s: string, cutset: string)
    requires s != [] && s[0] !in cutset
    ensures TrimLeft(s, cutset) == s
  {
  }

  // ---------------------------------------------------------------------
  // Line handling

  /** strings.ReplaceAll(s, "\r\n", "\n"). */
  function NormalizeCRLF(s: string): (r: string)
    ensures |r| <= |s|
    ensures '\n' !in s ==> r == s
    decreases |s|
  {
    if |s| >= 2 && s[0] == '\r' && s[1] == '\n' then "\n" + NormalizeCRLF(s[2..])
    else if |s| == 0 then ""
    else [s[0]] + NormalizeCRLF(s[1..])
  }

  /** The lines of a command's output: CRLF turned into LF, then split on
      LF (the text after a final LF is an empty last line). */
  function Lines(output: string): (lines: seq<string>)
    ensures |lines| >= 1
  {
    Split(NormalizeCRLF(output), '\n')
  }

  /** The lines that are not empty, in their order. */
  function NonEmpty(lines: seq<string>): (r: seq<string>)
    ensures |r| <= |lines|
    ensures forall x :: x in r <==> x in lines && x != ""
  {
    if lines == [] then []
    else if Last(lines) == "" then NonEmpty(lines[..|lines| - 1])
    else NonEmpty(lines[..|lines| - 1]) + [Last(lines)]
  }

  /** The replacement of every match of the regular expression \r?\n by the
      two characters backslash and n. */
  function EscapeNewlines(s: string): (r: string)
    ensures '\n' !in r
    ensures '\n' !in s && '\r' !in s ==> r == s
    decreases |s|
  {
    if |s| >= 2 && s[0] == '\r' && s[1] == '\n' then "\\n" + EscapeNewlines(s[2..])
    else if |s| == 0 then ""
    else if s[0] == '\n' then "\\n" + EscapeNewlines(s[1..])
    else [s[0]] + EscapeNewlines(s[1..])
  }

  // ---------------------------------------------------------------------
  // Decimal numbers

  predicate IsDigit(c: char)
  {
    '0' <= c <= '9'
  }

  predicate AllDigits(s: string)
  {
    forall k :: 0 <= k < |s| ==> IsDigit(s[k])
  }

  function DigitChar(d: nat): (c: char)
    requires d < 10
    ensures IsDigit(c) && c as int - '0' as int == d
  {
    "0123456789"[d]
  }

  /** The value of a string of decimal digits, leading zeros allowed. */
  function DigitsValue(s: string): nat
    requires AllDigits(s)
  {
    if s == "" then 0 else DigitsValue(s[..|s| - 1]) * 10 + (s[|s| - 1] as int - '0' as int)
  }

  /** fmt's %d of a non-negative integer: its shortest decimal form. */
  function Decimal(n: nat): (s: string)
    ensures |s| >= 1 && AllDigits(s)
    ensures |s| > 1 ==> s[0] != '0'
    decreases n
  {
    if n < 10 then [DigitChar(n)] else Decimal(n / 10) + [DigitChar(n % 10)]
  }

  /** fmt's %d of a signed integer. */
  function IntDecimal(i: int): string
  {
    if i < 0 then "-" + Decimal(-i) else Decimal(i)
  }

  /** Reading back the decimal form of n gives n. */
  lemma {:induction false} DecimalValue(n: nat)
    ensures DigitsValue(Decimal(n)) == n
    decreases n
  {
    if n >= 10 {
      DecimalValue(n / 10);
      var s := Decimal(n);
      assert s[..|s| - 1] == Decimal(n / 10);
    }
  }

  /** strconv.Atoi on a 64-bit platform: an optional sign, then at least one
      decimal digit, with a value that fits in an int64. */
  function Atoi(s: string): (r: Option<int>)
    ensures r.Some? ==> MIN_INT64 <= r.value <= MAX_INT64
    ensures r.Some? ==> |s| > 0 && AllDigits(if s[0] in "+-" then s[1..] else s)
  {
    var digits := if |s| > 0 && s[0] in "+-" then s[1..] else s;
    if digits == "" || !AllDigits(digits) then None
    else
      var magnitude: int := DigitsValue(digits);
      var value := if s[0] == '-' then -magnitude else magnitude;
      if MIN_INT64 <= value <= MAX_INT64 then Some(value) else None
  }

  /** Go's int addition of 1 on a 64-bit platform wraps around. */
  function WrapIncrement64(i: int): (r: int)
    requires MIN_INT64 <= i <= MAX_INT64
    ensures MIN_INT64 <= r <= MAX_INT64
    ensures i < MAX_INT64 ==> r == i + 1
  {
    if i == MAX_INT64 then MIN_INT64 else i + 1
  }

  /** Atoi reads back what %d wrote. */
  lemma AtoiDecimal(n: nat)
    requires n <= MAX_INT64
    ensures Atoi(Decimal(n)) == Some(n)
  {
    DecimalValue(n);
    assert IsDigit(Decimal(n)[0]);
  }

  /** Atoi reads a '-' followed by digits as the negated value. */
  lemma AtoiNegative(d: string)
    requires d != "" && AllDigits(d) && DigitsValue(d) <= MAX_INT64 + 1
    ensures Atoi("-" + d) == Some(-(DigitsValue(d) as int))
    ensures '.' !in "-" + d
  {
    var s := "-" + d;
    assert s[0] == '-' && s[1..] == d;
    assert s[0] in "+-";
    DigitsHoldNoPunctuation(d);
  }

  /** A string of digits holds no '.' and no ','. */
  lemma DigitsHoldNoPunctuation(d: string)
    requires AllDigits(d)
    ensures '.' !in d && ',' !in d
  {
  }

  // ---------------------------------------------------------------------
  // fmt.Sscanf(s, "%d.%d.%d", &a, &b, &c) with uint32 operands

  /** The white space that Go's scanner skips before a number; a newline
      is not skipped but ends the scan with an error, which the digit test
      that follows reports in the same way. */
  predicate IsScanSpace(c: char)
  {
    || ('\t' <= c <= '\r' && c != '\n')
    || c == ' ' || c == '\U{0085}' || c == '\U{00A0}' || c == '\U{1680}'
    || ('\U{2000}' <= c <= '\U{200A}')
    || c == '\U{2028}' || c == '\U{2029}' || c == '\U{202F}' || c == '\U{205F}' || c == '\U{3000}'
  }

  function SkipScanSpace(s: string): (r: string)
    ensures |r| <= |s| && r == s[|s| - |r|..]
    ensures r == "" || !IsScanSpace(r[0])
  {
    if |s| > 0 && IsScanSpace(s[0]) then SkipScanSpace(s[1..]) else s
  }

  /** Length of the run of digits that s starts with. */
  function DigitRun(s: string): (n: nat)
    ensures n <= |s| && AllDigits(s[..n])
    ensures n < |s| ==> !IsDigit(s[n])
  {
    if |s| > 0 && IsDigit(s[0]) then
      var m := DigitRun(s[1..]);
      assert s[..m + 1] == [s[0]] + s[1..][..m];
      m + 1
    else 0
  }

  /** One %d into a uint32: the value read and the text left unread. */
  function ScanUint32(s: string): (r: Option<(Uint32, string)>)
    ensures r.Some? ==> |r.value.1| < |s|
  {
    var t := SkipScanSpace(s);
    var n := DigitRun(t);
    if n == 0 then None
    else
      var v := DigitsValue(t[..n]);
      if v < UINT32_LIMIT then Some((v, t[n..])) else None
  }

  /** The literal '.' of the format. */
  function ScanDot(s: string): Option<string>
  {
    if |s| > 0 && s[0] == '.' then Some(s[1..]) else None
  }

  /** A %d followed by the literal '.' of the format. */
  function ScanUint32Dot(s: string): Option<(Uint32, string)>
  {
    match ScanUint32(s)
    case None => None
    case Some((v, rest)) => if |rest| > 0 && rest[0] == '.' then Some((v, rest[1..])) else None
  }

  /** Sscanf(s, "%d.%d.%d", ...) succeeding with three operands; whatever
      follows the third number is ignored. */
  function ScanTriple(s: string): Option<(Uint32, Uint32, Uint32)>
  {
    match ScanUint32Dot(s)
    case None => None
    case Some((a, r1)) =>
      match ScanUint32Dot(r1)
      case None => None
      case Some((b, r2)) =>
        match ScanUint32(r2)
        case None => None
        case Some((c, _)) => Some((a, b, c))
  }

  /** %d reads the decimal form of n back, stopping at the first non-digit. */
  lemma ScanDecimal(n: Uint32, rest: string)
    requires rest == "" || !IsDigit(rest[0])
    ensures ScanUint32(Decimal(n) + rest) == Some((n, rest))
  {
    DecimalDigitRun(n, rest);
  }

  lemma {:induction false} DigitRunPrefix(d: string, rest: string)
    requires AllDigits(d)
    requires rest == "" || !IsDigit(rest[0])
    ensures DigitRun(d + rest) == |d|
  {
    if d != "" {
      assert (d + rest)[1..] == d[1..] + rest;
      DigitRunPrefix(d[1..], rest);
    }
  }

  /** Scanning the triple of decimal forms, followed by anything that does
      not start with a digit, gives the three numbers. */
  lemma ScanDecimalDot(n: Uint32, rest: string)
    ensures ScanUint32Dot(Decimal(n) + "." + rest) == Some((n, rest))
  {
    var dotted := "." + rest;
    ScanDecimal(n, dotted);
    AppendAssociates(Decimal(n), ".", rest);
    ScanThenDot(Decimal(n) + dotted, n, rest);
  }

  /** A number followed by '.' reads as the number and the text after the dot. */
  lemma ScanThenDot(s: string, n: Uint32, rest: string)
    requires ScanUint32(s) == Some((n, "." + rest))
    ensures ScanUint32Dot(s) == Some((n, rest))
  {
    assert ("." + rest)[1..] == rest;
  }

  lemma ScanTripleDecimal(a: Uint32, b: Uint32, c: Uint32, rest: string)
    requires rest == "" || !IsDigit(rest[0])
    ensures ScanTriple(Decimal(a) + "." + Decimal(b) + "." + Decimal(c) + rest) == Some((a, b, c))
  {
    var r2 := Decimal(c) + rest;
    var r1 := Decimal(b) + "." + r2;
    ConcatTriple(Decimal(a), Decimal(b), Decimal(c), rest);
    ScanDecimalDot(a, r1);
    ScanDecimalDot(b, r2);
    ScanDecimal(c, rest);
    ScanTripleSteps(Decimal(a) + "." + r1, a, r1, b, r2, c, rest);
  }

  /** %d fails, and so does the whole scan, when the text after the
      skipped spaces does not start with a digit, or when its digits name
      a number too large for a uint32. */
  lemma ScanTripleRefusesFirst(s: string)
    requires var t := SkipScanSpace(s); var n := DigitRun(t);
      n == 0 || DigitsValue(t[..n]) >= UINT32_LIMIT
    ensures ScanUint32(s) == None && ScanTriple(s) == None
  {
  }

  /** A version of two numbers, or of three with a number too large for a
      uint32 first, does not scan. */
  lemma ScanTripleRefusesTwo(a: Uint32, b: Uint32, rest: string)
    requires rest == "" || (rest[0] != '.' && !IsDigit(rest[0]))
    ensures ScanTriple(Decimal(a) + "." + Decimal(b) + rest) == None
  {
    var r1 := Decimal(b) + rest;
    var s := Decimal(a) + "." + Decimal(b) + rest;
    AppendAssociates(Decimal(a) + ".", Decimal(b), rest);
    assert s == Decimal(a) + "." + r1;
    ScanDecimalDot(a, r1);
    ScanDecimal(b, rest);
    assert ScanUint32Dot(r1) == None;
  }

  lemma ScanTripleRefusesLarge(n: nat, rest: string)
    requires n >= UINT32_LIMIT
    requires rest == "" || !IsDigit(rest[0])
    ensures ScanTriple(Decimal(n) + rest) == None
  {
    DecimalDigitRun(n, rest);
    ScanTripleRefusesFirst(Decimal(n) + rest);
  }

  /** The scanner sees the decimal form of n as the leading run of digits,
      with value n, when no digit follows it. */
  lemma DecimalDigitRun(n: nat, rest: string)
    requires rest == "" || !IsDigit(rest[0])
    ensures var s := Decimal(n) + rest;
      && SkipScanSpace(s) == s && DigitRun(s) == |Decimal(n)|
      && s[..|Decimal(n)|] == Decimal(n) && DigitsValue(Decimal(n)) == n
  {
    DigitsRun(Decimal(n), rest);
    DecimalValue(n);
  }

  /** The scanner sees a run of digits as the leading run when no digit
      follows it. */
  lemma DigitsRun(d: string, rest: string)
    requires d != "" && AllDigits(d)
    requires rest == "" || !IsDigit(rest[0])
    ensures var s := d + rest;
      SkipScanSpace(s) == s && DigitRun(s) == |d| && s[..|d|] == d
  {
    DigitStartNoSpace(d + rest);
    DigitRunPrefix(d, rest);
    assert (d + rest)[..|d|] == d;
  }

  lemma DigitStartNoSpace(s: string)
    requires s != "" && IsDigit(s[0])
    ensures SkipScanSpace(s) == s
  {
    assert !IsScanSpace(s[0]);
  }

  lemma ScanTripleSteps(s: string, a: Uint32, r1: string, b: Uint32, r2: string, c: Uint32, rest: string)
    requires ScanUint32Dot(s) == Some((a, r1))
    requires ScanUint32Dot(r1) == Some((b, r2))
    requires ScanUint32(r2) == Some((c, rest))
    ensures ScanTriple(s) == Some((a, b, c))
  {
  }

  lemma ConcatTriple(x: string, y: string, z: string, rest: string)
    ensures x + "." + y + "." + z + rest == x + "." + (y + "." + (z + rest))
  {
  }
}
