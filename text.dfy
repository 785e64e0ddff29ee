/** String and character helpers shared by the models: ASCII case mapping,
    the whitespace sets of JavaScript's `trim` and Python's `str.strip` /
    regex `\s`, substring search, decimal rendering and parsing, and the
    comma split of Python's `str.split(",")`. */
module Text {

  // ---------------------------------------------------------------------------
  // Characters

  predicate IsDigit(c: char) { '0' <= c <= '9' }

  /** The class `[A-Za-z0-9]` of a Python regular expression. */
  predicate IsAsciiAlnum(c: char) { 'A' <= c <= 'Z' || 'a' <= c <= 'z' || IsDigit(c) }

  /** WhiteSpace and LineTerminator of ECMAScript, the characters `trim` removes. */
  predicate IsJsSpace(c: char) {
    c == '\t' || c == '\n' || c == '\U{B}' || c == '\U{C}' || c == '\r' || c == ' '
    || c == '\U{A0}' || c == '\U{1680}' || ('\U{2000}' <= c <= '\U{200A}')
    || c == '\U{2028}' || c == '\U{2029}' || c == '\U{202F}' || c == '\U{205F}'
    || c == '\U{3000}' || c == '\U{FEFF}'
  }

  /** The characters for which Python's `str.isspace` holds; `\s` of a `str`
      regular expression and `str.strip()` use the same set. */
  predicate IsPySpace(c: char) {
    c == '\t' || c == '\n' || c == '\U{B}' || c == '\U{C}' || c == '\r'
    || ('\U{1C}' <= c <= '\U{1F}') || c == ' ' || c == '\U{85}' || c == '\U{A0}'
    || c == '\U{1680}' || ('\U{2000}' <= c <= '\U{200A}') || c == '\U{2028}'
    || c == '\U{2029}' || c == '\U{202F}' || c == '\U{205F}' || c == '\U{3000}'
  }

  function LowerChar(c: char): char {
    if 'A' <= c <= 'Z' then (c as int + 32) as char else c
  }

  function UpperChar(c: char): char {
    if 'a' <= c <= 'z' then (c as int - 32) as char else c
  }

  /** `s.toLowerCase()` on the ASCII letters. */
  function ToLower(s: string): (r: string)
    ensures |r| == |s| && forall i :: 0 <= i < |s| ==> r[i] == LowerChar(s[i])
  {
    seq(|s|, i requires 0 <= i < |s| => LowerChar(s[i]))
  }

  /** `s.toUpperCase()` on the ASCII letters. */
  function ToUpper(s: string): (r: string)
    ensures |r| == |s| && forall i :: 0 <= i < |s| ==> r[i] == UpperChar(s[i])
  {
    seq(|s|, i requires 0 <= i < |s| => UpperChar(s[i]))
  }

  /** `a.toLowerCase() === b.toLowerCase()`. */
  predicate EqualsIgnoreCase(a: string, b: string) { ToLower(a) == ToLower(b) }

  // ---------------------------------------------------------------------------
  // Stripping

  /** The length of the longest prefix of `s` whose characters satisfy `p`. */
  function LeadingCount(s: string, p: char -> bool): (n: nat)
    ensures n <= |s|
    ensures forall i :: 0 <= i < n ==> p(s[i])
    ensures n < |s| ==> !p(s[n])
  {
    if s == [] || !p(s[0]) then 0 else 1 + LeadingCount(s[1..], p)
  }

  /** The length of the longest suffix of `s` whose characters satisfy `p`. */
  function TrailingCount(s: string, p: char -> bool): (n: nat)
    ensures n <= |s|
    ensures forall i :: |s| - n <= i < |s| ==> p(s[i])
    ensures n < |s| ==> !p(s[|s| - n - 1])
  {
    if s == [] || !p(s[|s| - 1]) then 0 else 1 + TrailingCount(s[..|s| - 1], p)
  }

  /** `s` without the characters satisfying `p` at either end. */
  function Strip(s: string, p: char -> bool): (r: string)
    ensures |r| <= |s|
    ensures r != [] ==> !p(r[0]) && !p(r[|r| - 1])
  {
    var rest := s[LeadingCount(s, p)..];
    rest[..|rest| - TrailingCount(rest, p)]
  }

  /** Stripping keeps a slice of `s` and removes only characters satisfying `p`. */
  lemma StripSlice(s: string, p: char -> bool)
    ensures exists i, j :: 0 <= i <= j <= |s| && Strip(s, p) == s[i..j]
              && (forall k :: 0 <= k < i ==> p(s[k])) && (forall k :: j <= k < |s| ==> p(s[k]))
  {
    var a := LeadingCount(s, p);
    var rest := s[a..];
    var b := TrailingCount(rest, p);
    var j := |s| - b;
    assert Strip(s, p) == s[a..j] by {
      assert rest[..|rest| - b] == s[a..j];
    }
    assert forall k :: 0 <= k < a ==> p(s[k]);
    forall k | j <= k < |s|
      ensures p(s[k])
    {
      assert s[k] == rest[k - a];
    }
  }

  /** Stripping leaves nothing exactly when every character satisfies `p`. */
  lemma StripEmpty(s: string, p: char -> bool)
    ensures Strip(s, p) == [] <==> forall k :: 0 <= k < |s| ==> p(s[k])
  {
    var r := Strip(s, p);
    StripSlice(s, p);
    var i, j :| 0 <= i <= j <= |s| && r == s[i..j]
              && (forall k :: 0 <= k < i ==> p(s[k])) && (forall k :: j <= k < |s| ==> p(s[k]));
    if r != [] {
      assert r[0] == s[i];
    }
  }

  /** A string that neither starts nor ends with a stripped character is unchanged by stripping. */
  lemma StripUnchanged(s: string, p: char -> bool)
    requires s != [] && !p(s[0]) && !p(s[|s| - 1])
    ensures Strip(s, p) == s
  {
    var r := Strip(s, p);
    StripSlice(s, p);
    var i, j :| 0 <= i <= j <= |s| && r == s[i..j]
              && (forall k :: 0 <= k < i ==> p(s[k])) && (forall k :: j <= k < |s| ==> p(s[k]));
    assert i == 0;
    assert j == |s|;
  }

  /** `n` is the length of the leading run exactly when it is followed by a
      character outside the run. */
  lemma {:induction false} LeadingCountIs(s: string, p: char -> bool, n: nat)
    requires n <= |s| && (forall i :: 0 <= i < n ==> p(s[i])) && (n < |s| ==> !p(s[n]))
    ensures LeadingCount(s, p) == n
    decreases n
  {
    if n > 0 {
      assert forall i :: 0 <= i < n - 1 ==> s[1..][i] == s[i + 1];
      LeadingCountIs(s[1..], p, n - 1);
    }
  }

  lemma {:induction false} TrailingCountIs(s: string, p: char -> bool, n: nat)
    requires n <= |s| && (forall i :: |s| - n <= i < |s| ==> p(s[i]))
    requires n < |s| ==> !p(s[|s| - n - 1])
    ensures TrailingCount(s, p) == n
    decreases n
  {
    if n > 0 {
      var t := s[..|s| - 1];
      assert forall i :: |t| - (n - 1) <= i < |t| ==> t[i] == s[i];
      TrailingCountIs(t, p, n - 1);
    }
  }

  /** Stripping keeps exactly the slice `s[i..j]` when everything outside it
      satisfies `p` and both of its ends do not. */
  lemma StripIs(s: string, p: char -> bool, i: nat, j: nat)
    requires i < j <= |s| && !p(s[i]) && !p(s[j - 1])
    requires forall k :: 0 <= k < i ==> p(s[k])
    requires forall k :: j <= k < |s| ==> p(s[k])
    ensures Strip(s, p) == s[i..j]
  {
    LeadingCountIs(s, p, i);
    var rest := s[i..];
    assert forall k :: 0 <= k < |rest| ==> rest[k] == s[i + k];
    TrailingCountIs(rest, p, |s| - j);
    assert rest[..|rest| - (|s| - j)] == s[i..j];
  }

  /** A stripped character in front does not change the stripped text. */
  lemma StripPrefixed(c: char, b: string, p: char -> bool)
    requires p(c)
    ensures Strip([c] + b, p) == Strip(b, p)
  {
    var s := [c] + b;
    assert s[1..] == b;
    assert LeadingCount(s, p) == 1 + LeadingCount(b, p);
    assert s[LeadingCount(s, p)..] == b[LeadingCount(b, p)..];
  }

  /** A stripped character behind does not change the stripped text. */
  lemma StripSuffixed(a: string, c: char, p: char -> bool)
    requires p(c)
    ensures Strip(a + [c], p) == Strip(a, p)
  {
    if Strip(a, p) == [] {
      StripEmpty(a, p);
      StripEmpty(a + [c], p);
      assert forall k :: 0 <= k < |a| ==> (a + [c])[k] == a[k];
    } else {
      var i := LeadingCount(a, p);
      var rest := a[i..];
      var j := i + |rest| - TrailingCount(rest, p);
      assert Strip(a, p) == a[i..j];
      assert Strip(a, p)[0] == a[i] && Strip(a, p)[j - i - 1] == a[j - 1];
      assert forall k :: j <= k < |a| ==> a[k] == rest[k - i];
      StripSuffixedSlice(a, c, p, i, j);
    }
  }

  lemma StripSuffixedSlice(a: string, c: char, p: char -> bool, i: nat, j: nat)
    requires p(c) && i < j <= |a| && !p(a[i]) && !p(a[j - 1])
    requires forall k :: 0 <= k < i ==> p(a[k])
    requires forall k :: j <= k < |a| ==> p(a[k])
    ensures Strip(a + [c], p) == a[i..j]
  {
    var s := a + [c];
    assert forall k :: 0 <= k < |a| ==> s[k] == a[k];
    StripIs(s, p, i, j);
    assert s[i..j] == a[i..j];
  }

  /** Two texts that do not strip to nothing, joined by `c`: only the run
      before the first and the run after the second go. */
  lemma StripJoined(a: string, c: char, b: string, p: char -> bool)
    requires Strip(a, p) != [] && Strip(b, p) != []
    ensures Strip(a + [c] + b, p) == a[LeadingCount(a, p)..] + [c] + b[..|b| - TrailingCount(b, p)]
  {
    var i, j := LeadingCount(a, p), |b| - TrailingCount(b, p);
    StripEmpty(a, p);
    StripEmpty(b, p);
    StripJoinedSlice(a, c, b, p, i, j);
    JoinedSlice(a, c, b, i, j);
  }

  lemma StripJoinedSlice(a: string, c: char, b: string, p: char -> bool, i: nat, j: nat)
    requires i < |a| && 0 < j <= |b| && !p(a[i]) && !p(b[j - 1])
    requires forall k :: 0 <= k < i ==> p(a[k])
    requires forall k :: j <= k < |b| ==> p(b[k])
    ensures Strip(a + [c] + b, p) == (a + [c] + b)[i..|a| + 1 + j]
  {
    var s := a + [c] + b;
    assert forall k :: 0 <= k < |a| ==> s[k] == a[k];
    assert forall k :: |a| + 1 <= k < |s| ==> s[k] == b[k - |a| - 1];
    StripIs(s, p, i, |a| + 1 + j);
  }

  lemma JoinedSlice(a: string, c: char, b: string, i: nat, j: nat)
    requires i <= |a| && j <= |b|
    ensures (a + [c] + b)[i..|a| + 1 + j] == a[i..] + [c] + b[..j]
  {
    var s := a + [c] + b;
    var lhs, rhs := s[i..|a| + 1 + j], a[i..] + [c] + b[..j];
    assert |lhs| == |rhs|;
    forall k | 0 <= k < |lhs|
      ensures lhs[k] == rhs[k]
    {
      if k < |a| - i {
        assert lhs[k] == a[i + k];
      } else if k > |a| - i {
        assert lhs[k] == b[k - (|a| - i) - 1];
      }
    }
  }

  /** JavaScript's `s.trim()`. */
  function JsTrim(s: string): string { Strip(s, IsJsSpace) }

  /** Python's `s.strip()`. */
  function PyStrip(s: string): string { Strip(s, IsPySpace) }

  // ---------------------------------------------------------------------------
  // Substrings

  predicate OccursAt(hay: string, needle: string, i: int) {
    0 <= i && i + |needle| <= |hay| && hay[i..i + |needle|] == needle
  }

  /** JavaScript's `hay.includes(needle)`. */
  predicate Contains(hay: string, needle: string) {
    exists i :: 0 <= i <= |hay| && OccursAt(hay, needle, i)
  }

  lemma ConcatAssoc(a: string, b: string, c: string)
    ensures (a + b) + c == a + (b + c)
  {
  }

  /** Every string contains itself. */
  lemma ContainsSelf(s: string)
    ensures Contains(s, s)
  {
    assert OccursAt(s, s, 0);
  }

  /** A string contains itself wherever it is embedded. */
  lemma ContainsMiddle(a: string, needle: string, c: string)
    ensures Contains(a + needle + c, needle)
  {
    assert (a + needle + c)[|a|..|a| + |needle|] == needle;
    assert OccursAt(a + needle + c, needle, |a|);
  }

  /** What a string contains, any string around it contains too. */
  lemma ContainsWithin(a: string, b: string, c: string, needle: string)
    requires Contains(b, needle)
    ensures Contains(a + b + c, needle)
  {
    var i :| 0 <= i <= |b| && OccursAt(b, needle, i);
    assert (a + b + c)[|a| + i..|a| + i + |needle|] == b[i..i + |needle|];
    assert OccursAt(a + b + c, needle, |a| + i);
  }

  /** What a string contains, it still contains with text appended. */
  lemma ContainsLeft(a: string, b: string, needle: string)
    requires Contains(a, needle)
    ensures Contains(a + b, needle)
  {
    var i :| 0 <= i <= |a| && OccursAt(a, needle, i);
    assert (a + b)[i..i + |needle|] == a[i..i + |needle|];
    assert OccursAt(a + b, needle, i);
  }

  /** What a string contains, it still contains with text prepended. */
  lemma ContainsRight(a: string, b: string, needle: string)
    requires Contains(b, needle)
    ensures Contains(a + b, needle)
  {
    var i :| 0 <= i <= |b| && OccursAt(b, needle, i);
    assert (a + b)[|a| + i..|a| + i + |needle|] == b[i..i + |needle|];
    assert OccursAt(a + b, needle, |a| + i);
  }

  predicate StartsWith(s: string, prefix: string) {
    |prefix| <= |s| && s[..|prefix|] == prefix
  }

  predicate EndsWith(s: string, suffix: string) {
    |suffix| <= |s| && s[|s| - |suffix|..] == suffix
  }

  /** Python's `s.replace(pat, rep)`: every non-overlapping occurrence, from the left. */
  function ReplaceAll(s: string, pat: string, rep: string): string
    requires pat != ""
  {
    if |s| < |pat| then s
    else if s[..|pat|] == pat then rep + ReplaceAll(s[|pat|..], pat, rep)
    else [s[0]] + ReplaceAll(s[1..], pat, rep)
  }

  /** A string that lacks a character of `pat` contains no occurrence of it to replace. */
  lemma {:induction false} ReplaceAllAbsent(s: string, pat: string, rep: string, c: char)
    requires pat != "" && c in pat && c !in s
    ensures ReplaceAll(s, pat, rep) == s
  {
    if |s| >= |pat| {
      var k :| 0 <= k < |pat| && pat[k] == c;
      assert s[..|pat|][k] != pat[k];
      ReplaceAllAbsent(s[1..], pat, rep, c);
    }
  }

  /** Python's `re.sub(pattern_char, rep_char, s)` for a one-character pattern. */
  function ReplaceChar(s: string, from: char, to: char): (r: string)
    ensures |r| == |s|
    ensures forall i :: 0 <= i < |s| ==> r[i] == if s[i] == from then to else s[i]
  {
    seq(|s|, i requires 0 <= i < |s| => if s[i] == from then to else s[i])
  }

  // ---------------------------------------------------------------------------
  // Decimal numbers

  predicate AllDigits(s: string) { forall i :: 0 <= i < |s| ==> IsDigit(s[i]) }

  function DigitChar(d: nat): (c: char)
    requires d < 10
    ensures IsDigit(c)
  {
    ('0' as int + d) as char
  }

  /** The value of a run of ASCII digits, as Python's `int` and JavaScript's
      `Number` read it (leading zeros allowed). */
  function ParseDigits(s: string): nat
    requires AllDigits(s)
  {
    if s == [] then 0 else 10 * ParseDigits(s[..|s| - 1]) + (s[|s| - 1] as int - '0' as int)
  }

  /** The decimal rendering of a natural number (`str(n)`, `${n}`). */
  function NatToString(n: nat): (r: string)
    ensures |r| >= 1 && AllDigits(r)
    ensures r[0] == '0' ==> n == 0
  {
    if n < 10 then [DigitChar(n)] else NatToString(n / 10) + [DigitChar(n % 10)]
  }

  /** The decimal rendering of an integer, with a leading `-` when negative. */
  function IntToString(i: int): string {
    if i < 0 then "-" + NatToString(-i) else NatToString(i)
  }

  /** Reading back a rendered number gives the number. */
  lemma {:induction false} ParseNatToString(n: nat)
    ensures ParseDigits(NatToString(n)) == n
  {
    if n >= 10 {
      ParseNatToString(n / 10);
      var s := NatToString(n);
      assert s[..|s| - 1] == NatToString(n / 10);
    }
  }

  // ---------------------------------------------------------------------------
  // Splitting

  /** Python's `s.split(sep)` for a one-character separator: always at least
      one piece; empty pieces are kept. */
  function Split(s: string, sep: char): (parts: seq<string>)
    ensures |parts| >= 1
    ensures forall k :: 0 <= k < |parts| ==> sep !in parts[k]
  {
    if s == [] then [""]
    else if s[0] == sep then [""] + Split(s[1..], sep)
    else
      var rest := Split(s[1..], sep);
      [[s[0]] + rest[0]] + rest[1..]
  }

  /** `sep.join(parts)`. */
  function Join(parts: seq<string>, sep: char): string
    requires |parts| >= 1
  {
    if |parts| == 1 then parts[0] else parts[0] + [sep] + Join(parts[1..], sep)
  }

  /** Joining the pieces gives back the string that was split. */
  lemma {:induction false} JoinSplit(s: string, sep: char)
    ensures Join(Split(s, sep), sep) == s
  {
    if s != [] {
      JoinSplit(s[1..], sep);
      var rest := Split(s[1..], sep);
      if s[0] != sep {
        var parts := Split(s, sep);
        if |rest| > 1 {
          assert parts[1..] == rest[1..];
        }
      }
    }
  }

  /** Splitting a join of separator-free pieces gives back the pieces. */
  lemma {:induction false} SplitJoin(parts: seq<string>, sep: char)
    requires |parts| >= 1
    requires forall k :: 0 <= k < |parts| ==> sep !in parts[k]
    ensures Split(Join(parts, sep), sep) == parts
  {
    if |parts| == 1 {
      SplitNoSep(parts[0], sep);
    } else {
      SplitJoin(parts[1..], sep);
      SplitPrefix(parts[0], Join(parts[1..], sep), sep);
      assert parts == [parts[0]] + parts[1..];
    }
  }

  lemma {:induction false} SplitNoSep(s: string, sep: char)
    requires sep !in s
    ensures Split(s, sep) == [s]
  {
    if s != [] {
      SplitNoSep(s[1..], sep);
      assert s[0] != sep;
      assert [s[0]] + s[1..] == s;
    }
  }

  lemma {:induction false} SplitPrefix(a: string, b: string, sep: char)
    requires sep !in a
    ensures Split(a + [sep] + b, sep) == [a] + Split(b, sep)
  {
    if a == [] {
      assert a + [sep] + b == [sep] + b;
    } else {
      assert (a + [sep] + b)[1..] == a[1..] + [sep] + b;
      assert (a + [sep] + b)[0] == a[0] != sep;
      SplitPrefix(a[1..], b, sep);
      assert [a[0]] + a[1..] == a;
    }
  }
}
