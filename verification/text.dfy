/** The Kotlin string operations the plugin relies on, as pure functions over
    `seq<char>`: `trim`, `isBlank`, `startsWith`/`endsWith`, `split(char)`,
    `lines()`, `joinToString` and the literal `replace(old, new)`. */
module Text {

  /** Kotlin's `Char.isWhitespace()`: the ASCII controls 9..13, 28..32, and
      the Unicode space, line and paragraph separators. */
  predicate IsWhitespace(c: char) {
    || ('\t' <= c <= '\r')
    || ('\U{001C}' <= c <= ' ')
    || c == '\U{00A0}'
    || c == '\U{1680}'
    || ('\U{2000}' <= c <= '\U{200A}')
    || c == '\U{2028}' || c == '\U{2029}'
    || c == '\U{202F}' || c == '\U{205F}' || c == '\U{3000}'
  }

  /** Kotlin's `isBlank()`: empty or whitespace only. */
  predicate IsBlank(s: string) {
    forall i | 0 <= i < |s| :: IsWhitespace(s[i])
  }

  predicate StartsWith(s: string, prefix: string) {
    |prefix| <= |s| && s[..|prefix|] == prefix
  }

  predicate EndsWith(s: string, suffix: string) {
    |suffix| <= |s| && s[|s| - |suffix|..] == suffix
  }

  /** A line in the sense of `lines()`: it holds no line-break character. */
  predicate NoBreak(s: string) {
    '\n' !in s && '\r' !in s
  }

  lemma BlankAppend(a: string, b: string)
    ensures IsBlank(a + b) <==> IsBlank(a) && IsBlank(b)
  {
    if IsBlank(a + b) {
      forall i | 0 <= i < |a| ensures IsWhitespace(a[i]) {
        assert a[i] == (a + b)[i];
      }
      forall i | 0 <= i < |b| ensures IsWhitespace(b[i]) {
        assert b[i] == (a + b)[|a| + i];
      }
    }
    if IsBlank(a) && IsBlank(b) {
      forall i | 0 <= i < |a + b| ensures IsWhitespace((a + b)[i]) {
        if i < |a| {
          assert (a + b)[i] == a[i];
        } else {
          assert (a + b)[i] == b[i - |a|];
        }
      }
    }
  }

  function TrimStart(s: string): (r: string)
    ensures |r| <= |s| && r == s[|s| - |r|..]
    ensures IsBlank(s[..|s| - |r|])
    ensures r == [] || !IsWhitespace(r[0])
    decreases |s|
  {
    if |s| > 0 && IsWhitespace(s[0]) then
      var r := TrimStart(s[1..]);
      BlankHeadDropped(s, r);
      r
    else s
  }

  function TrimEnd(s: string): (r: string)
    ensures |r| <= |s| && r == s[..|r|]
    ensures IsBlank(s[|r|..])
    ensures r == [] || !IsWhitespace(r[|r| - 1])
    decreases |s|
  {
    if |s| > 0 && IsWhitespace(s[|s| - 1]) then
      var r := TrimEnd(s[..|s| - 1]);
      BlankTailDropped(s, r);
      r
    else s
  }

  /** A suffix of `s[1..]` after a blank cut is a suffix of `s` after a
      blank cut, when `s[0]` is whitespace. */
  lemma BlankHeadDropped(s: string, r: string)
    requires |s| > 0 && IsWhitespace(s[0])
    requires |r| <= |s| - 1 && r == s[1..][|s| - 1 - |r|..] && IsBlank(s[1..][..|s| - 1 - |r|])
    ensures r == s[|s| - |r|..] && IsBlank(s[..|s| - |r|])
  {
    var cut := s[1..][..|s| - 1 - |r|];
    assert s[..|s| - |r|] == [s[0]] + cut;
    assert IsBlank([s[0]]);
    BlankAppend([s[0]], cut);
  }

  /** The mirror image: a prefix of `s[..|s| - 1]` before a blank cut. */
  lemma BlankTailDropped(s: string, r: string)
    requires |s| > 0 && IsWhitespace(s[|s| - 1])
    requires |r| <= |s| - 1 && r == s[..|s| - 1][..|r|] && IsBlank(s[..|s| - 1][|r|..])
    ensures r == s[..|r|] && IsBlank(s[|r|..])
  {
    var cut := s[..|s| - 1][|r|..];
    assert s[|r|..] == cut + [s[|s| - 1]];
    assert IsBlank([s[|s| - 1]]);
    BlankAppend(cut, [s[|s| - 1]]);
  }

  /** Kotlin's `trim()`: the infix left after removing leading and trailing
      whitespace. */
  function Trim(s: string): (r: string)
    ensures r == [] <==> IsBlank(s)
    ensures r != [] ==> !IsWhitespace(r[0]) && !IsWhitespace(r[|r| - 1])
    ensures |r| <= |s|
  {
    var t := TrimStart(s);
    var r := TrimEnd(t);
    TrimmedBoth(s, t, r);
    r
  }

  /** What `Trim` leaves: `t` is `s` without a blank prefix, `r` is `t`
      without a blank suffix. */
  lemma TrimmedBoth(s: string, t: string, r: string)
    requires |t| <= |s| && t == s[|s| - |t|..] && IsBlank(s[..|s| - |t|])
    requires t == [] || !IsWhitespace(t[0])
    requires |r| <= |t| && r == t[..|r|] && IsBlank(t[|r|..])
    requires r == [] || !IsWhitespace(r[|r| - 1])
    ensures r == [] <==> IsBlank(s)
    ensures r != [] ==> !IsWhitespace(r[0])
  {
    CutBlank(s, |s| - |t|);
    CutBlank(t, |r|);
    if r != [] {
      assert r[0] == t[0];
      assert !IsWhitespace(r[|r| - 1]);
    }
  }

  /** Cutting a string in two: it is blank exactly when both parts are. */
  lemma CutBlank(s: string, i: nat)
    requires i <= |s|
    ensures IsBlank(s) <==> IsBlank(s[..i]) && IsBlank(s[i..])
  {
    assert s == s[..i] + s[i..];
    BlankAppend(s[..i], s[i..]);
  }

  /** Trimming only removes characters. */
  lemma TrimKeepsChars(s: string, c: char)
    ensures c in Trim(s) ==> c in s
  {
    var t := TrimStart(s);
    var r := TrimEnd(t);
    assert Trim(s) == r;
    assert c in r ==> c in t;
    assert c in t ==> c in s;
  }

  /** `trim()` is determined by its result: whitespace around a core that
      starts and ends with a non-whitespace character is cut off exactly. */
  lemma TrimUnique(a: string, m: string, b: string)
    requires IsBlank(a) && IsBlank(b)
    requires m != [] ==> !IsWhitespace(m[0]) && !IsWhitespace(m[|m| - 1])
    ensures Trim(a + m + b) == m
  {
    if m == [] {
      BlankAppend(a, b);
      assert a + m + b == a + b;
    } else {
      TrimStartCuts(a, m + b);
      assert a + m + b == a + (m + b);
      TrimEndCuts(m, b);
    }
  }

  /** A string that starts and ends with non-whitespace is its own trim. */
  lemma TrimFixed(m: string)
    requires m != [] ==> !IsWhitespace(m[0]) && !IsWhitespace(m[|m| - 1])
    ensures Trim(m) == m
  {
    TrimUnique("", m, "");
    assert "" + m + "" == m;
  }

  lemma {:induction false} TrimStartCuts(a: string, t: string)
    requires IsBlank(a)
    requires t != [] ==> !IsWhitespace(t[0])
    ensures TrimStart(a + t) == t
    decreases |a|
  {
    if |a| == 0 {
      assert a + t == t;
    } else {
      assert (a + t)[1..] == a[1..] + t;
      TrimStartCuts(a[1..], t);
    }
  }

  lemma {:induction false} TrimEndCuts(m: string, b: string)
    requires IsBlank(b)
    requires m != [] ==> !IsWhitespace(m[|m| - 1])
    ensures TrimEnd(m + b) == m
    decreases |b|
  {
    if |b| == 0 {
      assert m + b == m;
    } else {
      assert (m + b)[..|m + b| - 1] == m + b[..|b| - 1];
      TrimEndCuts(m, b[..|b| - 1]);
    }
  }

  /** Kotlin's `joinToString(sep)`. */
  function Join(parts: seq<string>, sep: string): string
    decreases |parts|
  {
    if |parts| == 0 then ""
    else if |parts| == 1 then parts[0]
    else parts[0] + sep + Join(parts[1..], sep)
  }

  lemma JoinSnoc(parts: seq<string>, last: string, sep: string)
    requires |parts| > 0
    ensures Join(parts + [last], sep) == Join(parts, sep) + sep + last
    decreases |parts|
  {
    if |parts| == 1 {
      assert parts + [last] == [parts[0], last];
    } else {
      assert (parts + [last])[1..] == parts[1..] + [last];
      JoinSnoc(parts[1..], last, sep);
    }
  }

  lemma JoinAppend(a: seq<string>, b: seq<string>, sep: string)
    requires |a| > 0 && |b| > 0
    ensures Join(a + b, sep) == Join(a, sep) + sep + Join(b, sep)
    decreases |a|
  {
    if |a| == 1 {
      assert (a + b)[1..] == b;
    } else {
      assert (a + b)[1..] == a[1..] + b;
      JoinAppend(a[1..], b, sep);
    }
  }

  /** Kotlin's `split(c)`: the pieces between occurrences of `c`, empty
      pieces included. */
  function Split(s: string, c: char): (r: seq<string>)
    ensures |r| >= 1
    ensures forall i | 0 <= i < |r| :: c !in r[i]
    ensures Join(r, [c]) == s
    decreases |s|
  {
    if |s| == 0 then [""]
    else
      var rest := Split(s[1..], c);
      if s[0] == c then
        assert s == [c] + s[1..];
        [""] + rest
      else
        JoinConsFirst(s[0], rest, [c]);
        assert s == [s[0]] + s[1..];
        [[s[0]] + rest[0]] + rest[1..]
  }

  lemma JoinConsFirst(ch: char, parts: seq<string>, sep: string)
    requires |parts| > 0
    ensures Join([[ch] + parts[0]] + parts[1..], sep) == [ch] + Join(parts, sep)
  {
    var q := [[ch] + parts[0]] + parts[1..];
    assert q[1..] == parts[1..];
  }

  lemma {:induction false} SplitNoSeparator(s: string, c: char)
    requires c !in s
    ensures Split(s, c) == [s]
    decreases |s|
  {
    if |s| > 0 {
      SplitNoSeparator(s[1..], c);
      assert [s[0]] + s[1..] == s;
    }
  }

  lemma {:induction false} SplitAppend(a: string, c: char, b: string)
    ensures Split(a + [c] + b, c) == Split(a, c) + Split(b, c)
    decreases |a|
  {
    var s := a + [c] + b;
    if |a| == 0 {
      assert s[1..] == b;
    } else {
      assert s[1..] == a[1..] + [c] + b;
      SplitAppend(a[1..], c, b);
    }
  }

  /** Splitting undoes joining with a separator the parts do not contain. */
  lemma {:induction false} SplitJoin(parts: seq<string>, c: char)
    requires |parts| > 0
    requires forall i | 0 <= i < |parts| :: c !in parts[i]
    ensures Split(Join(parts, [c]), c) == parts
    decreases |parts|
  {
    if |parts| == 1 {
      SplitNoSeparator(parts[0], c);
    } else {
      SplitJoin(parts[1..], c);
      SplitNoSeparator(parts[0], c);
      SplitAppend(parts[0], c, Join(parts[1..], [c]));
    }
  }

  /** Kotlin's `lines()`: the text split at every "\r\n", "\n" or "\r"
      (a "\r\n" pair is one break). */
  function Lines(s: string): (r: seq<string>)
    ensures |r| >= 1
    ensures forall i | 0 <= i < |r| :: NoBreak(r[i])
    ensures '\r' !in s ==> r == Split(s, '\n')
    decreases |s|
  {
    if |s| == 0 then [""]
    else if s[0] == '\n' then
      assert s == ['\n'] + s[1..];
      [""] + Lines(s[1..])
    else if s[0] == '\r' then
      if |s| > 1 && s[1] == '\n' then [""] + Lines(s[2..]) else [""] + Lines(s[1..])
    else
      var rest := Lines(s[1..]);
      assert s == [s[0]] + s[1..];
      [[s[0]] + rest[0]] + rest[1..]
  }

  /** Splitting into lines undoes joining break-free lines with "\n". */
  lemma LinesOfJoin(parts: seq<string>)
    requires |parts| > 0
    requires forall i | 0 <= i < |parts| :: NoBreak(parts[i])
    ensures Lines(Join(parts, "\n")) == parts
  {
    NoCarriageReturnInJoin(parts);
    SplitJoin(parts, '\n');
  }

  lemma {:induction false} NoCarriageReturnInJoin(parts: seq<string>)
    requires forall i | 0 <= i < |parts| :: NoBreak(parts[i])
    ensures '\r' !in Join(parts, "\n")
    decreases |parts|
  {
    if |parts| > 1 {
      NoCarriageReturnInJoin(parts[1..]);
    }
  }

  /** A "\n" between two carriage-return-free texts separates their lines. */
  lemma LinesAppend(a: string, b: string)
    requires '\r' !in a && '\r' !in b
    ensures Lines(a + "\n" + b) == Lines(a) + Lines(b)
  {
    SplitAppend(a, '\n', b);
  }

  /** `p` occurs in `s` at index `i`. */
  predicate OccursAt(p: string, s: string, i: int) {
    0 <= i && i + |p| <= |s| && s[i..i + |p|] == p
  }

  /** Kotlin's `s.contains(p)`. */
  predicate Occurs(p: string, s: string) {
    exists i | 0 <= i <= |s| - |p| :: OccursAt(p, s, i)
  }

  lemma OccurrenceIndex(p: string, s: string, i: int, k: int)
    ensures OccursAt(p, s, i) && 0 <= k < |p| ==> s[i + k] == p[k]
  {
    if OccursAt(p, s, i) && 0 <= k < |p| {
      assert s[i..i + |p|][k] == s[i + k];
    }
  }

  /** Every character of an occurring text is a character of the host. */
  lemma OccursHasChars(p: string, s: string, k: int)
    requires Occurs(p, s) && 0 <= k < |p|
    ensures p[k] in s
  {
    var i :| 0 <= i <= |s| - |p| && OccursAt(p, s, i);
    assert 0 <= i && i + |p| <= |s|;
    assert s[i..i + |p|][k] == p[k];
  }

  /** A text without `c` that occurs in parts joined by `c` occurs in one part. */
  lemma {:induction false} OccursInJoin(p: string, parts: seq<string>, c: char)
    requires |parts| > 0
    requires c !in p && Occurs(p, Join(parts, [c]))
    ensures exists j :: 0 <= j < |parts| && Occurs(p, parts[j])
    decreases |parts|
  {
    var s := Join(parts, [c]);
    var i :| 0 <= i <= |s| - |p| && OccursAt(p, s, i);
    if |parts| == 1 {
      assert Occurs(p, parts[0]);
    } else {
      var a := parts[0];
      var rest := Join(parts[1..], [c]);
      assert s == a + [c] + rest;
      OccurrenceIndex(p, s, i, |a| - i);
      if i + |p| <= |a| {
        assert s[i..i + |p|] == a[i..i + |p|];
        assert OccursAt(p, a, i);
      } else {
        assert i > |a|;
        assert s[i..i + |p|] == rest[i - |a| - 1..i - |a| - 1 + |p|];
        assert OccursAt(p, rest, i - |a| - 1);
        OccursInJoin(p, parts[1..], c);
        var j :| 0 <= j < |parts[1..]| && Occurs(p, parts[1..][j]);
        assert parts[j + 1] == parts[1..][j];
      }
    }
  }

  /** A character foreign to the separator and to every part is foreign to
      their join. */
  lemma {:induction false} CharNotInJoin(parts: seq<string>, sep: string, c: char)
    requires c !in sep
    requires forall i | 0 <= i < |parts| :: c !in parts[i]
    ensures c !in Join(parts, sep)
    decreases |parts|
  {
    if |parts| > 1 {
      CharNotInJoin(parts[1..], sep, c);
    }
  }

  /** Every part sits somewhere inside the join. */
  lemma {:induction false} JoinAround(parts: seq<string>, sep: string, j: int)
    requires 0 <= j < |parts|
    ensures exists a, b :: Join(parts, sep) == a + parts[j] + b
    decreases |parts|
  {
    if |parts| == 1 {
      assert Join(parts, sep) == "" + parts[0] + "";
    } else if j == 0 {
      assert Join(parts, sep) == "" + parts[0] + (sep + Join(parts[1..], sep));
    } else {
      JoinAround(parts[1..], sep, j - 1);
      var a, b :| Join(parts[1..], sep) == a + parts[1..][j - 1] + b;
      assert Join(parts, sep) == (parts[0] + sep + a) + parts[j] + b;
    }
  }

  /** A character foreign to a text is foreign to each of its pieces. */
  lemma SplitPartsWithin(s: string, c: char, x: char)
    requires x !in s
    ensures forall i | 0 <= i < |Split(s, c)| :: x !in Split(s, c)[i]
  {
    var parts := Split(s, c);
    forall i | 0 <= i < |parts| ensures x !in parts[i] {
      JoinAround(parts, [c], i);
      var a, b :| Join(parts, [c]) == a + parts[i] + b;
      forall k | 0 <= k < |parts[i]| ensures parts[i][k] in s {
        assert (a + parts[i] + b)[|a| + k] == parts[i][k];
      }
    }
  }

  /** An occurrence survives adding text on either side. */
  lemma OccursWithin(p: string, s: string, a: string, b: string)
    requires Occurs(p, s)
    ensures Occurs(p, a + s + b)
  {
    var i :| 0 <= i <= |s| - |p| && OccursAt(p, s, i);
    var t := a + s + b;
    assert t[|a| + i..|a| + i + |p|] == s[i..i + |p|];
    assert OccursAt(p, t, |a| + i);
  }

  /** A text missing one of the pattern's characters does not contain it. */
  lemma AbsentChar(p: string, s: string, c: char)
    requires c in p && c !in s
    ensures !Occurs(p, s)
  {
    if Occurs(p, s) {
      var k :| 0 <= k < |p| && p[k] == c;
      OccursHasChars(p, s, k);
    }
  }

  /** Kotlin's literal `replace(old, new)`: every leftmost non-overlapping
      occurrence of `p` is replaced by `v`. A value no longer than the
      pattern never makes the text longer, and one of the same length keeps
      its length. */
  function ReplaceAll(s: string, p: string, v: string): (r: string)
    requires |p| > 0
    decreases |s|
  {
    if |s| < |p| then s
    else if s[..|p|] == p then v + ReplaceAll(s[|p|..], p, v)
    else [s[0]] + ReplaceAll(s[1..], p, v)
  }

  /** A text without the pattern passes through `replace` unchanged. */
  lemma {:induction false} ReplaceAbsent(s: string, p: string, v: string)
    requires |p| > 0 && !Occurs(p, s)
    ensures ReplaceAll(s, p, v) == s
    decreases |s|
  {
    if |s| >= |p| {
      assert !OccursAt(p, s, 0);
      assert s[..|p|] != p;
      forall i ensures !OccursAt(p, s[1..], i) {
        if OccursAt(p, s[1..], i) {
          assert s[1..][i..i + |p|] == s[i + 1..i + 1 + |p|];
          assert OccursAt(p, s, i + 1);
        }
      }
      ReplaceAbsent(s[1..], p, v);
      assert s == [s[0]] + s[1..];
    }
  }

  /** Replacing with the empty text shortens any text the pattern occurs in. */
  lemma {:induction false} ReplacePresentShrinks(s: string, p: string)
    requires |p| > 0 && Occurs(p, s)
    ensures |ReplaceAll(s, p, "")| < |s|
    decreases |s|
  {
    var i :| 0 <= i <= |s| - |p| && OccursAt(p, s, i);
    if s[..|p|] == p {
      ReplaceNeverGrows(s[|p|..], p, "");
    } else {
      assert i != 0;
      assert s[1..][i - 1..i - 1 + |p|] == s[i..i + |p|];
      assert OccursAt(p, s[1..], i - 1);
      ReplacePresentShrinks(s[1..], p);
    }
  }

  /** A value no longer than the pattern never makes the text longer, and
      one of the pattern's length keeps its length. */
  lemma {:induction false} ReplaceNeverGrows(s: string, p: string, v: string)
    requires |p| > 0 && |v| <= |p|
    ensures |ReplaceAll(s, p, v)| <= |s|
    ensures |v| == |p| ==> |ReplaceAll(s, p, v)| == |s|
    decreases |s|
  {
    if |s| >= |p| {
      if s[..|p|] == p {
        ReplaceNeverGrows(s[|p|..], p, v);
      } else {
        ReplaceNeverGrows(s[1..], p, v);
      }
    }
  }

  /** `ReplaceAbsent` as an implication, for use inside definitions. */
  lemma ReplaceAbsentWhen(s: string, p: string, v: string)
    requires |p| > 0
    ensures !Occurs(p, s) ==> ReplaceAll(s, p, v) == s
  {
    if !Occurs(p, s) {
      ReplaceAbsent(s, p, v);
    }
  }

  /** `replace` leaves a text unchanged exactly when the pattern is absent. */
  lemma ReplaceFixedIffAbsent(s: string, p: string)
    requires |p| > 0
    ensures !Occurs(p, s) <==> forall v :: ReplaceAll(s, p, v) == s
  {
    if !Occurs(p, s) {
      forall v ensures ReplaceAll(s, p, v) == s {
        ReplaceAbsent(s, p, v);
      }
    } else {
      ReplacePresentShrinks(s, p);
    }
  }

  /** A prefix that lacks the pattern's first character is copied verbatim. */
  lemma {:induction false} ReplaceSkipsPrefix(x: string, y: string, p: string, v: string)
    requires |p| > 0 && p[0] !in x
    ensures ReplaceAll(x + y, p, v) == x + ReplaceAll(y, p, v)
    decreases |x|
  {
    if |x| > 0 {
      var s := x + y;
      if |s| < |p| {
        ReplaceShortFixed(y, p, v);
      } else {
        assert s[0] == x[0];
        assert s[..|p|][0] == x[0];
        assert s[1..] == x[1..] + y;
        ReplaceSkipsPrefix(x[1..], y, p, v);
        assert x == [x[0]] + x[1..];
      }
    } else {
      assert x + y == y;
    }
  }

  lemma ReplaceShortFixed(s: string, p: string, v: string)
    requires 0 < |p| && |s| < |p|
    ensures ReplaceAll(s, p, v) == s
  {
  }

  /** `replace` distributes over a cut just before a character foreign to
      the pattern. */
  lemma {:induction false} ReplaceSplitsAt(a: string, c: string, p: string, v: string)
    requires |p| > 0 && |c| > 0 && c[0] !in p
    ensures ReplaceAll(a + c, p, v) == ReplaceAll(a, p, v) + ReplaceAll(c, p, v)
    decreases |a|
  {
    if |a| == 0 {
      assert a + c == c;
    } else if |a + c| < |p| {
      ReplaceShortFixed(a + c, p, v);
      ReplaceShortFixed(a, p, v);
      ReplaceShortFixed(c, p, v);
    } else if (a + c)[..|p|] == p {
      PatternInHead(a, c, p);
      ReplaceSplitsAt(a[|p|..], c, p, v);
      SplitsAfterMatch(a, c, p, v);
    } else {
      ReplaceSplitsAt(a[1..], c, p, v);
      SplitsAfterHead(a, c, p, v);
    }
  }

  /** The step of `ReplaceSplitsAt` past a leading occurrence. */
  lemma SplitsAfterMatch(a: string, c: string, p: string, v: string)
    requires 0 < |p| <= |a| && a[..|p|] == p && (a + c)[|p|..] == a[|p|..] + c
    requires ReplaceAll(a[|p|..] + c, p, v) == ReplaceAll(a[|p|..], p, v) + ReplaceAll(c, p, v)
    ensures ReplaceAll(a + c, p, v) == ReplaceAll(a, p, v) + ReplaceAll(c, p, v)
  {
    ConcatHead(a, c, |p|);
    ReplaceMatchStep(a + c, p, v);
    ReplaceMatchStep(a, p, v);
  }

  /** The step of `ReplaceSplitsAt` past a leading character that does not
      start an occurrence. */
  lemma SplitsAfterHead(a: string, c: string, p: string, v: string)
    requires 0 < |p| <= |a + c| && 0 < |a| && (a + c)[..|p|] != p
    requires ReplaceAll(a[1..] + c, p, v) == ReplaceAll(a[1..], p, v) + ReplaceAll(c, p, v)
    ensures ReplaceAll(a + c, p, v) == ReplaceAll(a, p, v) + ReplaceAll(c, p, v)
  {
    var s := a + c;
    var x, y := ReplaceAll(a[1..], p, v), ReplaceAll(c, p, v);
    assert ReplaceAll(s, p, v) == [a[0]] + (x + y) by {
      ConcatHead(a, c, 1);
      ReplaceStep(s, p, v);
    }
    assert ReplaceAll(a, p, v) == [a[0]] + x by {
      if |p| <= |a| {
        ConcatHead(a, c, |p|);
      }
      ReplaceHeadKept(a, p, v);
    }
    assert [a[0]] + (x + y) == ([a[0]] + x) + y;
  }

  /** An occurrence at the start of `a + c` lies inside `a` when the first
      character of `c` is foreign to the pattern. */
  lemma PatternInHead(a: string, c: string, p: string)
    requires |p| > 0 && |c| > 0 && c[0] !in p
    requires |p| <= |a + c| && (a + c)[..|p|] == p
    ensures |p| <= |a| && a[..|p|] == p && (a + c)[|p|..] == a[|p|..] + c
  {
    OccurrenceIndex(p, a + c, 0, |a|);
    assert a[..|p|] == (a + c)[..|p|];
  }

  /** A text that starts with the pattern has that occurrence replaced. */
  lemma ReplaceMatchStep(s: string, p: string, v: string)
    requires 0 < |p| <= |s| && s[..|p|] == p
    ensures ReplaceAll(s, p, v) == v + ReplaceAll(s[|p|..], p, v)
  {
  }

  /** A text that is shorter than the pattern, or does not start with it,
      keeps its first character. */
  lemma ReplaceHeadKept(s: string, p: string, v: string)
    requires 0 < |p| && 0 < |s| && (|s| < |p| || s[..|p|] != p)
    ensures ReplaceAll(s, p, v) == [s[0]] + ReplaceAll(s[1..], p, v)
  {
    if |s| < |p| {
      assert [s[0]] + s[1..] == s;
    }
  }

  /** A leading token that is not the pattern, and whose remaining characters
      cannot start it, is copied verbatim. */
  lemma ReplaceSkipsToken(t: string, y: string, p: string, v: string)
    requires 0 < |p| <= |t| && t[..|p|] != p && p[0] !in t[1..]
    ensures ReplaceAll(t + y, p, v) == t + ReplaceAll(y, p, v)
  {
    ConcatHead(t, y, |p|);
    ReplaceStep(t + y, p, v);
    ReplaceSkipsPrefix(t[1..], y, p, v);
    ConsOfTail(t, ReplaceAll(y, p, v));
  }

  lemma ConcatHead(t: string, y: string, n: nat)
    requires 0 < n <= |t|
    ensures (t + y)[..n] == t[..n] && (t + y)[0] == t[0] && (t + y)[1..] == t[1..] + y
  {
  }

  /** A text that does not start with the pattern keeps its first character. */
  lemma ReplaceStep(s: string, p: string, v: string)
    requires 0 < |p| <= |s| && s[..|p|] != p
    ensures ReplaceAll(s, p, v) == [s[0]] + ReplaceAll(s[1..], p, v)
  {
  }

  lemma ConsOfTail(t: string, r: string)
    requires |t| > 0
    ensures [t[0]] + (t[1..] + r) == t + r
  {
    assert t == [t[0]] + t[1..];
  }

  /** A text that starts with the pattern has that occurrence replaced. */
  lemma ReplaceAtStart(p: string, y: string, v: string)
    requires |p| > 0
    ensures ReplaceAll(p + y, p, v) == v + ReplaceAll(y, p, v)
  {
    var s := p + y;
    assert s[..|p|] == p && s[|p|..] == y;
  }

  /** `replace` works line by line when the pattern holds no "\n". */
  lemma {:induction false} ReplaceByLines(parts: seq<string>, p: string, v: string)
    requires |p| > 0 && '\n' !in p
    ensures ReplaceAll(Join(parts, "\n"), p, v) == Join(ReplaceEach(parts, p, v), "\n")
    decreases |parts|
  {
    if |parts| > 1 {
      ReplaceSplitsAt(parts[0], "\n" + Join(parts[1..], "\n"), p, v);
      assert parts[0] + "\n" + Join(parts[1..], "\n") == parts[0] + ("\n" + Join(parts[1..], "\n"));
      ReplaceSkipsPrefix("\n", Join(parts[1..], "\n"), p, v);
      ReplaceByLines(parts[1..], p, v);
      assert ReplaceEach(parts, p, v)[1..] == ReplaceEach(parts[1..], p, v);
    }
  }

  function ReplaceEach(parts: seq<string>, p: string, v: string): (r: seq<string>)
    requires |p| > 0
    ensures |r| == |parts|
    ensures forall i | 0 <= i < |parts| :: r[i] == ReplaceAll(parts[i], p, v)
  {
    seq(|parts|, i requires 0 <= i < |parts| => ReplaceAll(parts[i], p, v))
  }

  lemma ReplaceEachAppend(a: seq<string>, b: seq<string>, p: string, v: string)
    requires |p| > 0
    ensures ReplaceEach(a + b, p, v) == ReplaceEach(a, p, v) + ReplaceEach(b, p, v)
  {
  }

  /** Lines lacking the pattern's first character pass through unchanged. */
  lemma ReplaceEachAbsent(parts: seq<string>, p: string, v: string)
    requires |p| > 0
    requires forall i | 0 <= i < |parts| :: p[0] !in parts[i]
    ensures ReplaceEach(parts, p, v) == parts
  {
    forall i | 0 <= i < |parts| ensures ReplaceAll(parts[i], p, v) == parts[i] {
      AbsentChar(p, parts[i], p[0]);
      ReplaceAbsent(parts[i], p, v);
    }
  }

  /** Replacing a single character is splitting at it and joining with the
      replacement. */
  lemma {:induction false} ReplaceCharIsSplitJoin(s: string, c: char, v: string)
    ensures ReplaceAll(s, [c], v) == Join(Split(s, c), v)
    decreases |s|
  {
    if |s| > 0 {
      ReplaceCharIsSplitJoin(s[1..], c, v);
      var rest := Split(s[1..], c);
      if s[0] == c {
        assert s[..1] == [c];
      } else {
        assert s[..1] != [c];
        JoinConsFirst(s[0], rest, v);
      }
    }
  }
}
