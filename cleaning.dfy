/** The per-value transforms of the member-data cleaning notebook: the GMT
    offset folding and time-zone normalisation, the numeric `GMT_Offset`
    column read back from the normalised text, the solo-project tier digit,
    the voyage signup ids, the voyage-tier list, the combined `Role` and the
    sanitised column names. Each is a function of one cell value; the
    DataFrame that applies them column by column is not modelled. */
module Cleaning {
  import opened Common
  import opened Text

  // ---------------------------------------------------------------------------
  // GMT offsets

  /** `coerce_gmt_offset`: folds an hour offset into -11..12. Python's `%` by a
      positive divisor is never negative, exactly like Dafny's, so the second
      branch, kept as the source writes it, is never taken. */
  function CoerceGmtOffset(offset: int): (r: int)
    ensures -11 <= r <= 12
    ensures (r - offset) % 24 == 0
  {
    var o := offset % 24;
    if o > 12 then o - 24
    else if o < -11 then o + 24
    else o
  }

  /** The folded offset is the only value of -11..12 that agrees with the input
      modulo 24, so an offset already in range is returned unchanged. */
  lemma CoerceGmtOffsetUnique(offset: int, r: int)
    requires -11 <= r <= 12 && (r - offset) % 24 == 0
    ensures CoerceGmtOffset(offset) == r
  {
    var c := CoerceGmtOffset(offset);
    assert (r - c) % 24 == 0 by {
      assert r - c == (r - offset) - (c - offset);
    }
    assert -23 <= r - c <= 23;
  }

  /** Python's `%` by 24 leaves a value in 0..23, so the `elif offset < -11`
      branch of `coerce_gmt_offset` is never taken: the fold is the remainder
      with only the `> 12` correction. */
  lemma CoerceGmtOffsetElifDead(offset: int)
    ensures !(offset % 24 < -11)
    ensures CoerceGmtOffset(offset) == if offset % 24 > 12 then offset % 24 - 24 else offset % 24
  {
  }

  /** The offsets and expected results of the notebook's table test. */
  const CoerceTestOffsets: seq<int> :=
    [25, 24, 23, 13, 12, 11, 5, 1, 0, -1, -5, -11, -12, -13, -20, -23, -24, -25]
  const CoerceTestExpected: seq<int> :=
    [1, 0, -1, -11, 12, 11, 5, 1, 0, -1, -5, -11, 12, 11, 4, 1, 0, -1]

  /** `coerce_gmt_offset` passes the notebook's table. */
  lemma CoerceGmtOffsetTable()
    ensures |CoerceTestOffsets| == |CoerceTestExpected|
    ensures forall i :: 0 <= i < |CoerceTestOffsets| ==>
              CoerceGmtOffset(CoerceTestOffsets[i]) == CoerceTestExpected[i]
  {
  }

  /** One letter of the pattern `GMT`, matched with or without `re.IGNORECASE`. */
  predicate LetterMatches(c: char, letter: char, ignoreCase: bool) {
    c == letter || (ignoreCase && LowerChar(c) == LowerChar(letter))
  }

  /** `re.match(r"GMT\s*([+-]?\d+)", s)`: the integer of the captured group
      when the pattern matches at the start of `s`. The greedy `\s*` and `\d+`
      never need to backtrack, so the longest runs are taken. */
  function MatchGmt(s: string, ignoreCase: bool): Option<int> {
    if |s| < 3 || !LetterMatches(s[0], 'G', ignoreCase) || !LetterMatches(s[1], 'M', ignoreCase)
       || !LetterMatches(s[2], 'T', ignoreCase)
    then None
    else SignedDigits(s[3 + LeadingCount(s[3..], IsPySpace)..])
  }

  /** `[+-]?\d+` at the start of `rest`, read as an integer. */
  function SignedDigits(rest: string): Option<int> {
    var signed := rest != [] && (rest[0] == '+' || rest[0] == '-');
    var tail := if signed then rest[1..] else rest;
    var digits := tail[..LeadingCount(tail, IsDigit)];
    if digits == [] then None
    else
      var magnitude: int := ParseDigits(digits);
      Some(if signed && rest[0] == '-' then -magnitude else magnitude)
  }

  /** `re.sub(r"−", "-", tz)`: the minus sign U+2212 becomes an ASCII hyphen. */
  function NormalizeDashes(s: string): string {
    ReplaceChar(s, '\U{2212}', '-')
  }

  /** The offset `normalize_gmt` reads from a non-empty cell, before folding. */
  function ParsedOffset(tz: string): Option<int> {
    MatchGmt(NormalizeDashes(tz), true)
  }

  /** The value of a sign character and a magnitude: negative for `-` and for
      the minus sign U+2212. */
  function SignValue(sign: char, k: nat): int {
    if sign == '+' then k else -(k as int)
  }

  /** `GMT`, a sign character and the decimal digits of `k`. */
  function SignedGmt(sign: char, k: nat): string {
    "GMT" + ([sign] + NatToString(k))
  }

  /** `f"GMT+{offset}"` for a non-negative offset, `f"GMT{offset}"` otherwise:
      either way `GMT`, an ASCII sign and the digits of the magnitude. */
  function FormatGmt(offset: int): (r: string)
    ensures r == SignedGmt(if offset >= 0 then '+' else '-', if offset >= 0 then offset else -offset)
  {
    if offset >= 0 then "GMT+" + NatToString(offset) else "GMT" + IntToString(offset)
  }

  /** `normalize_gmt`: None for a missing or empty cell and for text that does
      not start with `GMT`, optional white space, an optional sign and digits;
      otherwise the canonical `GMT±n` of the folded offset. */
  function NormalizeGmt(tz: Option<string>): Option<string> {
    match tz
    case None => None
    case Some(t) =>
      if t == "" then None
      else
        match MatchGmt(NormalizeDashes(t), true)
        case None => None
        case Some(offset) => Some(FormatGmt(CoerceGmtOffset(offset)))
  }

  /** Unfolds `NormalizeGmt` through the offset it parses. */
  lemma NormalizeGmtParsed(tz: Option<string>)
    ensures NormalizeGmt(tz).Some? <==> tz.Some? && tz.value != "" && ParsedOffset(tz.value).Some?
    ensures NormalizeGmt(tz).Some? ==>
              NormalizeGmt(tz).value == FormatGmt(CoerceGmtOffset(ParsedOffset(tz.value).value))
  {
  }

  /** `re.search(r"GMT\s*([+-]?\d+)", s)` (case-sensitive), as `str.extract` does it. */
  function SearchGmt(s: string): Option<int>
    decreases |s|
  {
    match MatchGmt(s, false)
    case Some(n) => Some(n)
    case None => if s == [] then None else SearchGmt(s[1..])
  }

  /** The `GMT_Offset` column: the signed integer extracted from the cleaned
      time zone, or null. */
  function GmtOffsetColumn(tz: Option<string>): Option<int> {
    match tz
    case None => None
    case Some(t) => SearchGmt(t)
  }

  lemma {:induction false} LeadingDigitsOf(d: string, t: string)
    requires AllDigits(d)
    requires t == [] || !IsDigit(t[0])
    ensures LeadingCount(d + t, IsDigit) == |d|
  {
    if d != [] {
      assert (d + t)[1..] == d[1..] + t;
      LeadingDigitsOf(d[1..], t);
    }
  }

  /** An ASCII sign, a run of digits and text that does not start with a digit
      read as the signed value of the digits. */
  lemma SignedDigitsOf(sign: char, digits: string, t: string)
    requires sign == '+' || sign == '-'
    requires digits != [] && AllDigits(digits)
    requires t == [] || !IsDigit(t[0])
    ensures SignedDigits([sign] + (digits + t)) == Some(SignValue(sign, ParseDigits(digits)))
  {
    var rest := [sign] + (digits + t);
    assert rest[1..] == digits + t;
    LeadingDigitsOf(digits, t);
    assert (digits + t)[..|digits|] == digits;
  }

  /** `GMT` directly followed by an ASCII sign is matched on the text after `GMT`. */
  lemma MatchGmtAfterPrefix(rest: string, ignoreCase: bool)
    requires rest != [] && (rest[0] == '+' || rest[0] == '-')
    ensures MatchGmt("GMT" + rest, ignoreCase) == SignedDigits(rest)
  {
    var s := "GMT" + rest;
    assert s[0] == 'G' && s[1] == 'M' && s[2] == 'T';
    assert s[3..] == rest;
    assert !IsPySpace(rest[0]);
  }

  /** `GMT`, an ASCII sign, a run of digits and text that does not start with
      a digit match as the signed value of the digits. */
  lemma MatchGmtSigned(sign: char, digits: string, t: string, ignoreCase: bool)
    requires sign == '+' || sign == '-'
    requires digits != [] && AllDigits(digits)
    requires t == [] || !IsDigit(t[0])
    ensures MatchGmt("GMT" + ([sign] + (digits + t)), ignoreCase) == Some(SignValue(sign, ParseDigits(digits)))
  {
    MatchGmtAfterPrefix([sign] + (digits + t), ignoreCase);
    SignedDigitsOf(sign, digits, t);
  }

  /** The canonical text reads back as its offset, with or without case folding,
      whatever text follows it, as long as that text does not start with a digit. */
  lemma MatchFormatGmt(offset: int, t: string, ignoreCase: bool)
    requires t == [] || !IsDigit(t[0])
    ensures MatchGmt(FormatGmt(offset) + t, ignoreCase) == Some(offset)
  {
    var sign := if offset >= 0 then '+' else '-';
    var k: nat := if offset >= 0 then offset else -offset;
    var d := NatToString(k);
    var f := FormatGmt(offset);
    assert f == "GMT" + ([sign] + d);
    assert f + t == "GMT" + ([sign] + (d + t)) by {
      assert |f + t| == 4 + |d + t|;
      forall i | 0 <= i < |f + t|
        ensures (f + t)[i] == ("GMT" + ([sign] + (d + t)))[i]
      {
      }
    }
    MatchGmtSigned(sign, d, t, ignoreCase);
    ParseNatToString(k);
    assert SignValue(sign, ParseDigits(d)) == offset;
  }

  /** Text without the minus sign U+2212 is left as it is. */
  lemma NormalizeDashesAbsent(s: string)
    requires forall i :: 0 <= i < |s| ==> s[i] != '\U{2212}'
    ensures NormalizeDashes(s) == s
  {
  }

  /** Replacing the minus sign U+2212 in `GMT`, a sign and digits touches the
      sign only. */
  lemma NormalizeDashesSigned(sign: char, d: string)
    requires AllDigits(d)
    ensures NormalizeDashes("GMT" + ([sign] + d)) == "GMT" + ([if sign == '\U{2212}' then '-' else sign] + d)
  {
    var s := "GMT" + ([sign] + d);
    var f := "GMT" + ([if sign == '\U{2212}' then '-' else sign] + d);
    forall i | 0 <= i < |s|
      ensures NormalizeDashes(s)[i] == f[i]
    {
      if i >= 4 {
        assert s[i] == d[i - 4] == f[i];
        assert IsDigit(d[i - 4]);
      }
    }
  }

  /** The canonical form never contains the character U+2212. */
  lemma NormalizeDashesFormat(offset: int, t: string)
    ensures NormalizeDashes(FormatGmt(offset) + t) == FormatGmt(offset) + NormalizeDashes(t)
  {
    var f := FormatGmt(offset);
    var k: nat := if offset >= 0 then offset else -offset;
    NormalizeDashesSigned(if offset >= 0 then '+' else '-', NatToString(k));
    assert NormalizeDashes(f) == f;
    var r := NormalizeDashes(f + t);
    forall i | 0 <= i < |f + t|
      ensures r[i] == (f + NormalizeDashes(t))[i]
    {
      if i < |f| {
        assert (f + t)[i] == f[i];
        assert r[i] == NormalizeDashes(f)[i];
      } else {
        assert (f + t)[i] == t[i - |f|];
      }
    }
  }

  /** A non-empty cell whose offset parses normalises as the canonical text of
      the folded offset. */
  lemma NormalizeParsed(t: string, offset: int)
    requires t != "" && ParsedOffset(t) == Some(offset)
    ensures NormalizeGmt(Some(t)) == Some(FormatGmt(CoerceGmtOffset(offset)))
  {
    NormalizeGmtParsed(Some(t));
  }

  /** Round trip: the `GMT_Offset` read back from a normalised time zone is the
      folded value of the offset `normalize_gmt` parsed. */
  lemma GmtOffsetRoundTrip(tz: Option<string>)
    requires NormalizeGmt(tz).Some?
    ensures GmtOffsetColumn(NormalizeGmt(tz)) == Some(CoerceGmtOffset(ParsedOffset(tz.value).value))
  {
    NormalizeGmtParsed(tz);
    var c := CoerceGmtOffset(ParsedOffset(tz.value).value);
    MatchFormatGmt(c, "", false);
    assert FormatGmt(c) + "" == FormatGmt(c);
  }

  /** Normalising a normalised time zone leaves it unchanged. */
  lemma NormalizeGmtIdempotent(tz: Option<string>)
    ensures NormalizeGmt(NormalizeGmt(tz)) == NormalizeGmt(tz)
  {
    NormalizeGmtParsed(tz);
    if NormalizeGmt(tz).Some? {
      var c := CoerceGmtOffset(ParsedOffset(tz.value).value);
      var f := FormatGmt(c);
      NormalizeDashesFormat(c, "");
      assert f + "" == f;
      assert NormalizeDashes("") == "";
      MatchFormatGmt(c, "", true);
      CoerceGmtOffsetUnique(c, c);
      NormalizeParsed(f, c);
    }
  }

  /** Text after a well-formed offset is ignored: `GMT±n` followed by anything
      that does not start with a digit normalises as `GMT±n` alone. */
  lemma NormalizeGmtIgnoresTrailingText(offset: int, t: string)
    requires t == [] || !IsDigit(t[0])
    ensures NormalizeGmt(Some(FormatGmt(offset) + t)) == Some(FormatGmt(CoerceGmtOffset(offset)))
  {
    NormalizeDashesFormat(offset, t);
    var t' := NormalizeDashes(t);
    assert t' == [] || !IsDigit(t'[0]);
    MatchFormatGmt(offset, t', true);
    NormalizeParsed(FormatGmt(offset) + t, offset);
  }

  /** The minus sign U+2212 is read exactly like `-`. */
  lemma NormalizeGmtDashes(tz: string)
    ensures NormalizeGmt(Some(NormalizeDashes(tz))) == NormalizeGmt(Some(tz))
  {
    assert NormalizeDashes(NormalizeDashes(tz)) == NormalizeDashes(tz);
  }

  /** `s` splits as `p + w + sg + d + rest` the way `GMT\s*([+-]?\d+)` reads it
      with `re.IGNORECASE`: `p` spells `GMT` in either case, `w` is white
      space, `sg` an optional ASCII sign and `d` a run of digits that `rest`
      does not continue. */
  predicate GmtShape(s: string, p: string, w: string, sg: string, d: string, rest: string) {
    s == p + (w + (sg + (d + rest)))
    && EqualsIgnoreCase(p, "GMT")
    && (forall i :: 0 <= i < |w| ==> IsPySpace(w[i]))
    && (sg == "" || sg == "+" || sg == "-")
    && d != [] && AllDigits(d)
    && (rest == [] || !IsDigit(rest[0]))
  }

  /** The integer written as an optional sign and a magnitude. */
  function SignedMagnitude(sg: string, k: nat): int {
    if sg == "-" then -(k as int) else k
  }

  /** `p` spells `GMT` in either case exactly when each of its three letters
      matches under `re.IGNORECASE`. */
  lemma GmtLetters(p: string)
    ensures EqualsIgnoreCase(p, "GMT") <==>
              |p| == 3 && LetterMatches(p[0], 'G', true) && LetterMatches(p[1], 'M', true)
              && LetterMatches(p[2], 'T', true)
  {
    if |p| == 3 && LetterMatches(p[0], 'G', true) && LetterMatches(p[1], 'M', true)
       && LetterMatches(p[2], 'T', true) {
      assert ToLower(p) == ToLower("GMT");
    }
    if EqualsIgnoreCase(p, "GMT") {
      assert |ToLower(p)| == |ToLower("GMT")|;
      assert ToLower(p)[0] == 'g' && ToLower(p)[1] == 'm' && ToLower(p)[2] == 't';
    }
  }

  /** An optional sign, digits and a tail that does not continue them read as
      the signed number. */
  lemma SignedDigitsOfShape(sg: string, d: string, rest: string)
    requires sg == "" || sg == "+" || sg == "-"
    requires d != [] && AllDigits(d)
    requires rest == [] || !IsDigit(rest[0])
    ensures SignedDigits(sg + (d + rest)) == Some(SignedMagnitude(sg, ParseDigits(d)))
  {
    if sg == "" {
      assert sg + (d + rest) == d + rest;
      LeadingDigitsOf(d, rest);
      assert (d + rest)[..|d|] == d;
    } else {
      assert sg + (d + rest) == [sg[0]] + (d + rest);
      SignedDigitsOf(sg[0], d, rest);
    }
  }

  /** After the three letters, the white space is skipped and the rest read as
      a signed number. */
  lemma MatchGmtAfterSpace(s: string, w: string, u: string)
    requires |s| >= 3 && s[3..] == w + u
    requires EqualsIgnoreCase(s[..3], "GMT")
    requires forall i :: 0 <= i < |w| ==> IsPySpace(w[i])
    requires u != [] && !IsPySpace(u[0])
    ensures MatchGmt(s, true) == SignedDigits(u)
  {
    GmtLetters(s[..3]);
    LeadingSpaceOf(w, u);
    assert s[3 + |w|..] == u;
  }

  /** Every text of that shape matches, as its signed number. */
  lemma MatchGmtOfShape(s: string, p: string, w: string, sg: string, d: string, rest: string)
    requires GmtShape(s, p, w, sg, d, rest)
    ensures MatchGmt(s, true) == Some(SignedMagnitude(sg, ParseDigits(d)))
  {
    GmtLetters(p);
    var u := sg + (d + rest);
    assert s[..3] == p && s[3..] == w + u;
    assert u[0] == '+' || u[0] == '-' || IsDigit(u[0]);
    MatchGmtAfterSpace(s, w, u);
    SignedDigitsOfShape(sg, d, rest);
  }

  /** A signed number that reads splits into its optional sign, its digits and
      a tail that does not continue them. */
  lemma ShapeOfSignedDigits(u: string) returns (sg: string, d: string, rest: string)
    requires SignedDigits(u).Some?
    ensures u == sg + (d + rest)
    ensures sg == "" || sg == "+" || sg == "-"
    ensures d != [] && AllDigits(d)
    ensures rest == [] || !IsDigit(rest[0])
  {
    var signed := u != [] && (u[0] == '+' || u[0] == '-');
    sg := if signed then u[..1] else "";
    var tail := u[|sg|..];
    var m := LeadingCount(tail, IsDigit);
    d := tail[..m];
    rest := tail[m..];
    assert d + rest == tail;
  }

  /** The longest prefix of `t` whose characters satisfy `q`, and the rest. */
  lemma LeadingRun(t: string, q: char -> bool) returns (w: string, u: string)
    ensures t == w + u && |w| == LeadingCount(t, q)
    ensures forall i :: 0 <= i < |w| ==> q(w[i])
  {
    var n := LeadingCount(t, q);
    w, u := t[..n], t[n..];
    assert forall i :: 0 <= i < |w| ==> w[i] == t[i];
  }

  /** Conversely, every match comes from a text of that shape. */
  lemma ShapeOfMatchGmt(s: string) returns (p: string, w: string, sg: string, d: string, rest: string)
    requires MatchGmt(s, true).Some?
    ensures GmtShape(s, p, w, sg, d, rest)
  {
    var u;
    w, u := SplitMatchGmt(s);
    p := s[..3];
    sg, d, rest := ShapeOfSignedDigits(u);
  }

  /** A match splits into `GMT`, the white space after it and the signed
      number it reads. */
  lemma SplitMatchGmt(s: string) returns (w: string, u: string)
    requires MatchGmt(s, true).Some?
    ensures |s| >= 3 && s == s[..3] + (w + u) && EqualsIgnoreCase(s[..3], "GMT")
    ensures forall i :: 0 <= i < |w| ==> IsPySpace(w[i])
    ensures SignedDigits(u).Some?
  {
    GmtLetters(s[..3]);
    var t := s[3..];
    w, u := LeadingRun(t, IsPySpace);
    assert s[3 + |w|..] == u;
    assert s == s[..3] + t;
  }

  /** `normalize_gmt` accepts a cell exactly when its text, with U+2212 read as
      `-`, starts with `GMT` in either case, optional white space, an optional
      sign and digits; the result is then the canonical text of the folded
      signed number, whatever text follows it. */
  lemma NormalizeGmtSpec(tz: Option<string>)
    ensures NormalizeGmt(tz).Some? <==>
              tz.Some? && exists p, w, sg, d, rest :: GmtShape(NormalizeDashes(tz.value), p, w, sg, d, rest)
    ensures forall p, w, sg, d, rest :: tz.Some? && GmtShape(NormalizeDashes(tz.value), p, w, sg, d, rest) ==>
              NormalizeGmt(tz) == Some(FormatGmt(CoerceGmtOffset(SignedMagnitude(sg, ParseDigits(d)))))
  {
    if tz.Some? {
      var t := tz.value;
      forall p, w, sg, d, rest | GmtShape(NormalizeDashes(t), p, w, sg, d, rest)
        ensures NormalizeGmt(tz) == Some(FormatGmt(CoerceGmtOffset(SignedMagnitude(sg, ParseDigits(d)))))
      {
        MatchGmtOfShape(NormalizeDashes(t), p, w, sg, d, rest);
        assert t != "";
      }
      if NormalizeGmt(tz).Some? {
        var p, w, sg, d, rest := ShapeOfMatchGmt(NormalizeDashes(t));
      }
    }
  }

  lemma LooseFormShape()
    ensures NormalizeDashes("gmt  05") == "gmt  05"
    ensures GmtShape("gmt  05", "gmt", "  ", "", "05", "")
  {
    NormalizeDashesAbsent("gmt  05");
    assert ToLower("gmt") == ToLower("GMT");
  }

  /** Lower case, white space after `GMT`, a missing sign and leading zeros are
      all accepted: `gmt  05` normalises as `GMT+5`. */
  lemma LooseFormValue()
    ensures FormatGmt(CoerceGmtOffset(SignedMagnitude("", ParseDigits("05")))) == "GMT+5"
  {
    assert ParseDigits("05") == 5;
    CoerceGmtOffsetUnique(5, 5);
    assert FormatGmt(5) == "GMT+5";
  }

  lemma NormalizeGmtLooseForm()
    ensures NormalizeGmt(Some("gmt  05")) == Some("GMT+5")
  {
    LooseFormShape();
    NormalizeGmtSpec(Some("gmt  05"));
    LooseFormValue();
  }

  /** The raw time zones of the notebook's test and the results it expects. */
  const RoughTimezones: seq<Option<string>> := [
    None, Some("GMT-5 (New York)"), Some("GMT\U{2212}5"), Some("GMT\U{2212}8"), Some("GMT+1"),
    Some("GMT-5"), Some("GMT-8"), Some("GMT+3"), Some("GMT+5"), Some("GMT+10"), Some("GMT-12"),
    Some("GMT+6"), Some("GMT-6"), Some("GMT+2"), Some("GMT+8"), Some("GMT-0"), Some("GMT-7"),
    Some("GMT-4"), Some("GMT+7"), Some("GMT+9"), Some("GMT-2"), Some("GMT-3"), Some("GMT+4"),
    Some("GMT+0"), Some("GMT+12"), Some("GMT\U{2212}7"), Some("GMT\U{2212}6"), Some("GMT\U{2212}3"),
    Some("GMT\U{2212}1"), Some("GMT\U{2212}10"), Some("GMT\U{2212}4"), Some("GMT+22"), Some("#N/A"),
    Some("GMT+)")]
  const ExpectedTimezones: seq<Option<string>> := [
    None, Some("GMT-5"), Some("GMT-5"), Some("GMT-8"), Some("GMT+1"),
    Some("GMT-5"), Some("GMT-8"), Some("GMT+3"), Some("GMT+5"), Some("GMT+10"), Some("GMT+12"),
    Some("GMT+6"), Some("GMT-6"), Some("GMT+2"), Some("GMT+8"), Some("GMT+0"), Some("GMT-7"),
    Some("GMT-4"), Some("GMT+7"), Some("GMT+9"), Some("GMT-2"), Some("GMT-3"), Some("GMT+4"),
    Some("GMT+0"), Some("GMT+12"), Some("GMT-7"), Some("GMT-6"), Some("GMT-3"),
    Some("GMT-1"), Some("GMT-10"), Some("GMT-4"), Some("GMT-2"), None,
    None]

  /** The check the time-zone test evidently intends: the normaliser maps each
      raw value to its expected result. */
  predicate TimezoneTest(normalize: Option<string> -> Option<string>) {
    |RoughTimezones| == |ExpectedTimezones|
    && forall i :: 0 <= i < |RoughTimezones| ==> normalize(RoughTimezones[i]) == ExpectedTimezones[i]
  }

  /** The time-zone test as written: each round computes `normalize_gmt` but
      asserts `processed_offset == answer`, the variables left over from the
      offsets loop, whose last round paired -25 with -1. */
  predicate TimezoneTestAsWritten(normalize: Option<string> -> Option<string>) {
    var processedOffset := CoerceGmtOffset(CoerceTestOffsets[|CoerceTestOffsets| - 1]);
    var answer := CoerceTestExpected[|CoerceTestExpected| - 1];
    forall i :: 0 <= i < |RoughTimezones| ==> normalize(RoughTimezones[i]) == normalize(RoughTimezones[i]) && processedOffset == answer
  }

  /** The test as written accepts any normaliser, even one that always gives None. */
  lemma TimezoneTestAsWrittenAcceptsAnything(normalize: Option<string> -> Option<string>)
    ensures TimezoneTestAsWritten(normalize)
    ensures TimezoneTestAsWritten(_ => None) && !TimezoneTest(_ => None)
  {
    assert ExpectedTimezones[1] != None;
  }

  /** A canonical time zone normalises as its folded offset. */
  lemma NormalizeCanonical(offset: int)
    ensures NormalizeGmt(Some(FormatGmt(offset))) == Some(FormatGmt(CoerceGmtOffset(offset)))
  {
    assert FormatGmt(offset) + "" == FormatGmt(offset);
    NormalizeGmtIgnoresTrailingText(offset, "");
  }

  /** `GMT`, a sign and a rendered number normalise as the folded signed number,
      whether the sign is `+`, `-` or the minus sign U+2212; in particular
      `GMT-0` normalises as `GMT+0`. */
  lemma NormalizeSignedNumber(sign: char, k: nat)
    requires sign == '+' || sign == '-' || sign == '\U{2212}'
    ensures NormalizeGmt(Some(SignedGmt(sign, k))) == Some(FormatGmt(CoerceGmtOffset(SignValue(sign, k))))
  {
    var d := NatToString(k);
    var ascii := if sign == '+' then '+' else '-';
    NormalizeDashesSigned(sign, d);
    assert d + "" == d;
    MatchGmtSigned(ascii, d, "", true);
    ParseNatToString(k);
    assert ParsedOffset(SignedGmt(sign, k)) == Some(SignValue(sign, k));
    NormalizeParsed(SignedGmt(sign, k), SignValue(sign, k));
  }

  /** Text that does not start with the letter G, in either case, is not a
      time zone. */
  lemma NormalizeNotGmt(t: string)
    requires t != [] && t[0] != 'G' && t[0] != 'g'
    ensures NormalizeGmt(Some(t)) == None
  {
    assert NormalizeDashes(t)[0] == (if t[0] == '\U{2212}' then '-' else t[0]);
  }

  /** `GMT` and a sign followed by something other than a digit is not a
      time zone. */
  lemma NormalizeSignWithoutDigits(sign: char, t: string)
    requires sign == '+' || sign == '-'
    requires t != [] && !IsDigit(t[0])
    ensures NormalizeGmt(Some("GMT" + [sign] + t)) == None
  {
    var s := "GMT" + [sign] + t;
    var n := NormalizeDashes(s);
    assert n[..4] == s[..4];
    assert n[3..][0] == sign;
    assert LeadingCount(n[3..], IsPySpace) == 0;
    assert n[4..][0] == NormalizeDashes(t)[0];
    assert LeadingCount(n[4..], IsDigit) == 0;
  }

  /** The shape of one row of the time-zone test. */
  datatype TimezoneRow =
    | MissingRow
    | SignedRow(sign: char, k: nat)
    | TrailingTextRow(offset: int, t: string)
    | NotGmtRow(t: string)
    | SignWithoutDigitsRow(sign: char, t: string)

  /** `raw` has the shape `row` names, and `expected` is what that shape
      normalises to. */
  predicate Describes(row: TimezoneRow, raw: Option<string>, expected: Option<string>) {
    match row
    case MissingRow => raw == None && expected == None
    case SignedRow(sign, k) =>
      (sign == '+' || sign == '-' || sign == '\U{2212}') && raw == Some(SignedGmt(sign, k))
      && expected == Some(FormatGmt(CoerceGmtOffset(SignValue(sign, k))))
    case TrailingTextRow(offset, t) =>
      (t == [] || !IsDigit(t[0])) && raw == Some(FormatGmt(offset) + t)
      && expected == Some(FormatGmt(CoerceGmtOffset(offset)))
    case NotGmtRow(t) => t != [] && t[0] != 'G' && t[0] != 'g' && raw == Some(t) && expected == None
    case SignWithoutDigitsRow(sign, t) =>
      (sign == '+' || sign == '-') && t != [] && !IsDigit(t[0]) && raw == Some("GMT" + [sign] + t)
      && expected == None
  }

  /** Every row shape normalises to the value it describes. */
  lemma DescribedRowNormalizes(row: TimezoneRow, raw: Option<string>, expected: Option<string>)
    requires Describes(row, raw, expected)
    ensures NormalizeGmt(raw) == expected
  {
    match row
    case MissingRow =>
    case SignedRow(sign, k) => NormalizeSignedNumber(sign, k);
    case TrailingTextRow(offset, t) => NormalizeGmtIgnoresTrailingText(offset, t);
    case NotGmtRow(t) => NormalizeNotGmt(t);
    case SignWithoutDigitsRow(sign, t) => NormalizeSignWithoutDigits(sign, t);
  }

  /** The shape of each row of the test. */
  const TimezoneRows: seq<TimezoneRow> := [
    MissingRow, TrailingTextRow(-5, " (New York)"), SignedRow('\U{2212}', 5), SignedRow('\U{2212}',
    8), SignedRow('+', 1), SignedRow('-', 5), SignedRow('-', 8), SignedRow('+', 3), SignedRow('+',
    5), SignedRow('+', 10), SignedRow('-', 12), SignedRow('+', 6), SignedRow('-', 6), SignedRow('+',
    2), SignedRow('+', 8), SignedRow('-', 0), SignedRow('-', 7), SignedRow('-', 4), SignedRow('+',
    7), SignedRow('+', 9), SignedRow('-', 2), SignedRow('-', 3), SignedRow('+', 4), SignedRow('+',
    0), SignedRow('+', 12), SignedRow('\U{2212}', 7), SignedRow('\U{2212}', 6),
    SignedRow('\U{2212}', 3), SignedRow('\U{2212}', 1), SignedRow('\U{2212}', 10),
    SignedRow('\U{2212}', 4), SignedRow('+', 22), NotGmtRow("#N/A"), SignWithoutDigitsRow('+', ")")]

  /** A row `GMT`, U+2212 and `k` with `0 < k <= 11`: the offset is negative. */
  lemma UnicodeMinusRow(k: nat, digits: string)
    requires 0 < k <= 11 && NatToString(k) == digits
    ensures Describes(SignedRow('\U{2212}', k), Some("GMT\U{2212}" + digits), Some("GMT-" + digits))
  {
    var o := -(k as int);
    assert SignValue('\U{2212}', k) == o;
    CoerceGmtOffsetUnique(o, o);
    assert FormatGmt(o) == SignedGmt('-', k);
    SignedGmtText('\U{2212}', digits);
    SignedGmtText('-', digits);
    assert "GMT\U{2212}" == "GMT" + ['\U{2212}'] && "GMT-" == "GMT" + ['-'];
  }

  /** `GMT`, a sign and digits, as one text. */
  lemma SignedGmtText(sign: char, digits: string)
    ensures "GMT" + ([sign] + digits) == "GMT" + [sign] + digits
  {
  }

  lemma TimezoneRowDescribed0()
    ensures Describes(TimezoneRows[0], RoughTimezones[0], ExpectedTimezones[0])
  {
    assert TimezoneRows[0] == MissingRow;
    assert RoughTimezones[0] == None && ExpectedTimezones[0] == None;
  }

  lemma TimezoneRowDescribed1()
    ensures Describes(TimezoneRows[1], RoughTimezones[1], ExpectedTimezones[1])
  {
    assert TimezoneRows[1] == TrailingTextRow(-5, " (New York)");
    assert RoughTimezones[1] == Some("GMT-5 (New York)") && ExpectedTimezones[1] == Some("GMT-5");
    assert NatToString(5) == "5";
    assert FormatGmt(-5) == "GMT-5";
    assert "GMT-5 (New York)" == FormatGmt(-5) + " (New York)";
    CoerceGmtOffsetUnique(-5, -5);
    assert !IsDigit(' ');
  }

  lemma TimezoneRowDescribed2()
    ensures Describes(TimezoneRows[2], RoughTimezones[2], ExpectedTimezones[2])
  {
    assert NatToString(5) == "5";
    UnicodeMinusRow(5, "5");
    assert "GMT\U{2212}5" == "GMT\U{2212}" + "5" && "GMT-5" == "GMT-" + "5";
    assert TimezoneRows[2] == SignedRow('\U{2212}', 5);
    assert RoughTimezones[2] == Some("GMT\U{2212}5") && ExpectedTimezones[2] == Some("GMT-5");
  }

  lemma TimezoneRowDescribed3()
    ensures Describes(TimezoneRows[3], RoughTimezones[3], ExpectedTimezones[3])
  {
    assert NatToString(8) == "8";
    UnicodeMinusRow(8, "8");
    assert "GMT\U{2212}8" == "GMT\U{2212}" + "8" && "GMT-8" == "GMT-" + "8";
    assert TimezoneRows[3] == SignedRow('\U{2212}', 8);
    assert RoughTimezones[3] == Some("GMT\U{2212}8") && ExpectedTimezones[3] == Some("GMT-8");
  }

  lemma TimezoneRowDescribed4()
    ensures Describes(TimezoneRows[4], RoughTimezones[4], ExpectedTimezones[4])
  {
    assert TimezoneRows[4] == SignedRow('+', 1);
    assert RoughTimezones[4] == Some("GMT+1") && ExpectedTimezones[4] == Some("GMT+1");
    assert NatToString(1) == "1";
    assert "GMT+1" == SignedGmt('+', 1);
    CoerceGmtOffsetUnique(1, 1);
    assert FormatGmt(1) == "GMT+1";
  }

  lemma TimezoneRowDescribed5()
    ensures Describes(TimezoneRows[5], RoughTimezones[5], ExpectedTimezones[5])
  {
    assert TimezoneRows[5] == SignedRow('-', 5);
    assert RoughTimezones[5] == Some("GMT-5") && ExpectedTimezones[5] == Some("GMT-5");
    assert NatToString(5) == "5";
    assert "GMT-5" == SignedGmt('-', 5);
    CoerceGmtOffsetUnique(-5, -5);
    assert FormatGmt(-5) == "GMT-5";
  }

  lemma TimezoneRowDescribed6()
    ensures Describes(TimezoneRows[6], RoughTimezones[6], ExpectedTimezones[6])
  {
    assert TimezoneRows[6] == SignedRow('-', 8);
    assert RoughTimezones[6] == Some("GMT-8") && ExpectedTimezones[6] == Some("GMT-8");
    assert NatToString(8) == "8";
    assert "GMT-8" == SignedGmt('-', 8);
    CoerceGmtOffsetUnique(-8, -8);
    assert FormatGmt(-8) == "GMT-8";
  }

  lemma TimezoneRowDescribed7()
    ensures Describes(TimezoneRows[7], RoughTimezones[7], ExpectedTimezones[7])
  {
    assert TimezoneRows[7] == SignedRow('+', 3);
    assert RoughTimezones[7] == Some("GMT+3") && ExpectedTimezones[7] == Some("GMT+3");
    assert NatToString(3) == "3";
    assert "GMT+3" == SignedGmt('+', 3);
    CoerceGmtOffsetUnique(3, 3);
    assert FormatGmt(3) == "GMT+3";
  }

  lemma TimezoneRowDescribed8()
    ensures Describes(TimezoneRows[8], RoughTimezones[8], ExpectedTimezones[8])
  {
    assert TimezoneRows[8] == SignedRow('+', 5);
    assert RoughTimezones[8] == Some("GMT+5") && ExpectedTimezones[8] == Some("GMT+5");
    assert NatToString(5) == "5";
    assert "GMT+5" == SignedGmt('+', 5);
    CoerceGmtOffsetUnique(5, 5);
    assert FormatGmt(5) == "GMT+5";
  }

  lemma TimezoneRowDescribed9()
    ensures Describes(TimezoneRows[9], RoughTimezones[9], ExpectedTimezones[9])
  {
    assert TimezoneRows[9] == SignedRow('+', 10);
    assert RoughTimezones[9] == Some("GMT+10") && ExpectedTimezones[9] == Some("GMT+10");
    assert NatToString(10) == "10";
    assert "GMT+10" == SignedGmt('+', 10);
    CoerceGmtOffsetUnique(10, 10);
    assert FormatGmt(10) == "GMT+10";
  }

  lemma TimezoneRowDescribed10()
    ensures Describes(TimezoneRows[10], RoughTimezones[10], ExpectedTimezones[10])
  {
    assert TimezoneRows[10] == SignedRow('-', 12);
    assert RoughTimezones[10] == Some("GMT-12") && ExpectedTimezones[10] == Some("GMT+12");
    assert NatToString(12) == "12";
    assert "GMT-12" == SignedGmt('-', 12);
    CoerceGmtOffsetUnique(-12, 12);
    assert FormatGmt(12) == "GMT+12";
  }

  lemma TimezoneRowDescribed11()
    ensures Describes(TimezoneRows[11], RoughTimezones[11], ExpectedTimezones[11])
  {
    assert TimezoneRows[11] == SignedRow('+', 6);
    assert RoughTimezones[11] == Some("GMT+6") && ExpectedTimezones[11] == Some("GMT+6");
    assert NatToString(6) == "6";
    assert "GMT+6" == SignedGmt('+', 6);
    CoerceGmtOffsetUnique(6, 6);
    assert FormatGmt(6) == "GMT+6";
  }

  lemma TimezoneRowDescribed12()
    ensures Describes(TimezoneRows[12], RoughTimezones[12], ExpectedTimezones[12])
  {
    assert TimezoneRows[12] == SignedRow('-', 6);
    assert RoughTimezones[12] == Some("GMT-6") && ExpectedTimezones[12] == Some("GMT-6");
    assert NatToString(6) == "6";
    assert "GMT-6" == SignedGmt('-', 6);
    CoerceGmtOffsetUnique(-6, -6);
    assert FormatGmt(-6) == "GMT-6";
  }

  lemma TimezoneRowDescribed13()
    ensures Describes(TimezoneRows[13], RoughTimezones[13], ExpectedTimezones[13])
  {
    assert TimezoneRows[13] == SignedRow('+', 2);
    assert RoughTimezones[13] == Some("GMT+2") && ExpectedTimezones[13] == Some("GMT+2");
    assert NatToString(2) == "2";
    assert "GMT+2" == SignedGmt('+', 2);
    CoerceGmtOffsetUnique(2, 2);
    assert FormatGmt(2) == "GMT+2";
  }

  lemma TimezoneRowDescribed14()
    ensures Describes(TimezoneRows[14], RoughTimezones[14], ExpectedTimezones[14])
  {
    assert TimezoneRows[14] == SignedRow('+', 8);
    assert RoughTimezones[14] == Some("GMT+8") && ExpectedTimezones[14] == Some("GMT+8");
    assert NatToString(8) == "8";
    assert "GMT+8" == SignedGmt('+', 8);
    CoerceGmtOffsetUnique(8, 8);
    assert FormatGmt(8) == "GMT+8";
  }

  lemma TimezoneRowDescribed15()
    ensures Describes(TimezoneRows[15], RoughTimezones[15], ExpectedTimezones[15])
  {
    assert TimezoneRows[15] == SignedRow('-', 0);
    assert RoughTimezones[15] == Some("GMT-0") && ExpectedTimezones[15] == Some("GMT+0");
    assert NatToString(0) == "0";
    assert "GMT-0" == SignedGmt('-', 0);
    CoerceGmtOffsetUnique(0, 0);
    assert FormatGmt(0) == "GMT+0";
  }

  lemma TimezoneRowDescribed16()
    ensures Describes(TimezoneRows[16], RoughTimezones[16], ExpectedTimezones[16])
  {
    assert TimezoneRows[16] == SignedRow('-', 7);
    assert RoughTimezones[16] == Some("GMT-7") && ExpectedTimezones[16] == Some("GMT-7");
    assert NatToString(7) == "7";
    assert "GMT-7" == SignedGmt('-', 7);
    CoerceGmtOffsetUnique(-7, -7);
    assert FormatGmt(-7) == "GMT-7";
  }

  lemma TimezoneRowDescribed17()
    ensures Describes(TimezoneRows[17], RoughTimezones[17], ExpectedTimezones[17])
  {
    assert TimezoneRows[17] == SignedRow('-', 4);
    assert RoughTimezones[17] == Some("GMT-4") && ExpectedTimezones[17] == Some("GMT-4");
    assert NatToString(4) == "4";
    assert "GMT-4" == SignedGmt('-', 4);
    CoerceGmtOffsetUnique(-4, -4);
    assert FormatGmt(-4) == "GMT-4";
  }

  lemma TimezoneRowDescribed18()
    ensures Describes(TimezoneRows[18], RoughTimezones[18], ExpectedTimezones[18])
  {
    assert TimezoneRows[18] == SignedRow('+', 7);
    assert RoughTimezones[18] == Some("GMT+7") && ExpectedTimezones[18] == Some("GMT+7");
    assert NatToString(7) == "7";
    assert "GMT+7" == SignedGmt('+', 7);
    CoerceGmtOffsetUnique(7, 7);
    assert FormatGmt(7) == "GMT+7";
  }

  lemma TimezoneRowDescribed19()
    ensures Describes(TimezoneRows[19], RoughTimezones[19], ExpectedTimezones[19])
  {
    assert TimezoneRows[19] == SignedRow('+', 9);
    assert RoughTimezones[19] == Some("GMT+9") && ExpectedTimezones[19] == Some("GMT+9");
    assert NatToString(9) == "9";
    assert "GMT+9" == SignedGmt('+', 9);
    CoerceGmtOffsetUnique(9, 9);
    assert FormatGmt(9) == "GMT+9";
  }

  lemma TimezoneRowDescribed20()
    ensures Describes(TimezoneRows[20], RoughTimezones[20], ExpectedTimezones[20])
  {
    assert TimezoneRows[20] == SignedRow('-', 2);
    assert RoughTimezones[20] == Some("GMT-2") && ExpectedTimezones[20] == Some("GMT-2");
    assert NatToString(2) == "2";
    assert "GMT-2" == SignedGmt('-', 2);
    CoerceGmtOffsetUnique(-2, -2);
    assert FormatGmt(-2) == "GMT-2";
  }

  lemma TimezoneRowDescribed21()
    ensures Describes(TimezoneRows[21], RoughTimezones[21], ExpectedTimezones[21])
  {
    assert TimezoneRows[21] == SignedRow('-', 3);
    assert RoughTimezones[21] == Some("GMT-3") && ExpectedTimezones[21] == Some("GMT-3");
    assert NatToString(3) == "3";
    assert "GMT-3" == SignedGmt('-', 3);
    CoerceGmtOffsetUnique(-3, -3);
    assert FormatGmt(-3) == "GMT-3";
  }

  lemma TimezoneRowDescribed22()
    ensures Describes(TimezoneRows[22], RoughTimezones[22], ExpectedTimezones[22])
  {
    assert TimezoneRows[22] == SignedRow('+', 4);
    assert RoughTimezones[22] == Some("GMT+4") && ExpectedTimezones[22] == Some("GMT+4");
    assert NatToString(4) == "4";
    assert "GMT+4" == SignedGmt('+', 4);
    CoerceGmtOffsetUnique(4, 4);
    assert FormatGmt(4) == "GMT+4";
  }

  lemma TimezoneRowDescribed23()
    ensures Describes(TimezoneRows[23], RoughTimezones[23], ExpectedTimezones[23])
  {
    assert TimezoneRows[23] == SignedRow('+', 0);
    assert RoughTimezones[23] == Some("GMT+0") && ExpectedTimezones[23] == Some("GMT+0");
    assert NatToString(0) == "0";
    assert "GMT+0" == SignedGmt('+', 0);
    CoerceGmtOffsetUnique(0, 0);
    assert FormatGmt(0) == "GMT+0";
  }

  lemma TimezoneRowDescribed24()
    ensures Describes(TimezoneRows[24], RoughTimezones[24], ExpectedTimezones[24])
  {
    assert TimezoneRows[24] == SignedRow('+', 12);
    assert RoughTimezones[24] == Some("GMT+12") && ExpectedTimezones[24] == Some("GMT+12");
    assert NatToString(12) == "12";
    assert "GMT+12" == SignedGmt('+', 12);
    CoerceGmtOffsetUnique(12, 12);
    assert FormatGmt(12) == "GMT+12";
  }

  lemma TimezoneRowDescribed25()
    ensures Describes(TimezoneRows[25], RoughTimezones[25], ExpectedTimezones[25])
  {
    assert NatToString(7) == "7";
    UnicodeMinusRow(7, "7");
    assert "GMT\U{2212}7" == "GMT\U{2212}" + "7" && "GMT-7" == "GMT-" + "7";
    assert TimezoneRows[25] == SignedRow('\U{2212}', 7);
    assert RoughTimezones[25] == Some("GMT\U{2212}7") && ExpectedTimezones[25] == Some("GMT-7");
  }

  lemma TimezoneRowDescribed26()
    ensures Describes(TimezoneRows[26], RoughTimezones[26], ExpectedTimezones[26])
  {
    assert NatToString(6) == "6";
    UnicodeMinusRow(6, "6");
    assert "GMT\U{2212}6" == "GMT\U{2212}" + "6" && "GMT-6" == "GMT-" + "6";
    assert TimezoneRows[26] == SignedRow('\U{2212}', 6);
    assert RoughTimezones[26] == Some("GMT\U{2212}6") && ExpectedTimezones[26] == Some("GMT-6");
  }

  lemma TimezoneRowDescribed27()
    ensures Describes(TimezoneRows[27], RoughTimezones[27], ExpectedTimezones[27])
  {
    assert NatToString(3) == "3";
    UnicodeMinusRow(3, "3");
    assert "GMT\U{2212}3" == "GMT\U{2212}" + "3" && "GMT-3" == "GMT-" + "3";
    assert TimezoneRows[27] == SignedRow('\U{2212}', 3);
    assert RoughTimezones[27] == Some("GMT\U{2212}3") && ExpectedTimezones[27] == Some("GMT-3");
  }

  lemma TimezoneRowDescribed28()
    ensures Describes(TimezoneRows[28], RoughTimezones[28], ExpectedTimezones[28])
  {
    assert NatToString(1) == "1";
    UnicodeMinusRow(1, "1");
    assert "GMT\U{2212}1" == "GMT\U{2212}" + "1" && "GMT-1" == "GMT-" + "1";
    assert TimezoneRows[28] == SignedRow('\U{2212}', 1);
    assert RoughTimezones[28] == Some("GMT\U{2212}1") && ExpectedTimezones[28] == Some("GMT-1");
  }

  lemma TimezoneRowDescribed29()
    ensures Describes(TimezoneRows[29], RoughTimezones[29], ExpectedTimezones[29])
  {
    assert NatToString(10) == "10";
    UnicodeMinusRow(10, "10");
    assert "GMT\U{2212}10" == "GMT\U{2212}" + "10" && "GMT-10" == "GMT-" + "10";
    assert TimezoneRows[29] == SignedRow('\U{2212}', 10);
    assert RoughTimezones[29] == Some("GMT\U{2212}10") && ExpectedTimezones[29] == Some("GMT-10");
  }

  lemma TimezoneRowDescribed30()
    ensures Describes(TimezoneRows[30], RoughTimezones[30], ExpectedTimezones[30])
  {
    assert NatToString(4) == "4";
    UnicodeMinusRow(4, "4");
    assert "GMT\U{2212}4" == "GMT\U{2212}" + "4" && "GMT-4" == "GMT-" + "4";
    assert TimezoneRows[30] == SignedRow('\U{2212}', 4);
    assert RoughTimezones[30] == Some("GMT\U{2212}4") && ExpectedTimezones[30] == Some("GMT-4");
  }

  lemma TimezoneRowDescribed31()
    ensures Describes(TimezoneRows[31], RoughTimezones[31], ExpectedTimezones[31])
  {
    assert TimezoneRows[31] == SignedRow('+', 22);
    assert RoughTimezones[31] == Some("GMT+22") && ExpectedTimezones[31] == Some("GMT-2");
    assert NatToString(22) == "22";
    assert NatToString(2) == "2";
    assert "GMT+22" == SignedGmt('+', 22);
    CoerceGmtOffsetUnique(22, -2);
    assert FormatGmt(-2) == "GMT-2";
  }

  lemma TimezoneRowDescribed32()
    ensures Describes(TimezoneRows[32], RoughTimezones[32], ExpectedTimezones[32])
  {
    assert TimezoneRows[32] == NotGmtRow("#N/A");
    assert RoughTimezones[32] == Some("#N/A") && ExpectedTimezones[32] == None;
  }

  lemma TimezoneRowDescribed33()
    ensures Describes(TimezoneRows[33], RoughTimezones[33], ExpectedTimezones[33])
  {
    assert TimezoneRows[33] == SignWithoutDigitsRow('+', ")");
    assert RoughTimezones[33] == Some("GMT+)") && ExpectedTimezones[33] == None;
    assert "GMT+)" == "GMT" + ['+'] + ")";
  }

  /** `normalize_gmt` passes the intended time-zone test. */
  lemma NormalizeGmtTable()
    ensures TimezoneTest(NormalizeGmt)
  {
    forall i | 0 <= i < |RoughTimezones| ensures NormalizeGmt(RoughTimezones[i]) == ExpectedTimezones[i] {
      if i == 0 {
        TimezoneRowDescribed0();
      } else if i == 1 {
        TimezoneRowDescribed1();
      } else if i == 2 {
        TimezoneRowDescribed2();
      } else if i == 3 {
        TimezoneRowDescribed3();
      } else if i == 4 {
        TimezoneRowDescribed4();
      } else if i == 5 {
        TimezoneRowDescribed5();
      } else if i == 6 {
        TimezoneRowDescribed6();
      } else if i == 7 {
        TimezoneRowDescribed7();
      } else if i == 8 {
        TimezoneRowDescribed8();
      } else if i == 9 {
        TimezoneRowDescribed9();
      } else if i == 10 {
        TimezoneRowDescribed10();
      } else if i == 11 {
        TimezoneRowDescribed11();
      } else if i == 12 {
        TimezoneRowDescribed12();
      } else if i == 13 {
        TimezoneRowDescribed13();
      } else if i == 14 {
        TimezoneRowDescribed14();
      } else if i == 15 {
        TimezoneRowDescribed15();
      } else if i == 16 {
        TimezoneRowDescribed16();
      } else if i == 17 {
        TimezoneRowDescribed17();
      } else if i == 18 {
        TimezoneRowDescribed18();
      } else if i == 19 {
        TimezoneRowDescribed19();
      } else if i == 20 {
        TimezoneRowDescribed20();
      } else if i == 21 {
        TimezoneRowDescribed21();
      } else if i == 22 {
        TimezoneRowDescribed22();
      } else if i == 23 {
        TimezoneRowDescribed23();
      } else if i == 24 {
        TimezoneRowDescribed24();
      } else if i == 25 {
        TimezoneRowDescribed25();
      } else if i == 26 {
        TimezoneRowDescribed26();
      } else if i == 27 {
        TimezoneRowDescribed27();
      } else if i == 28 {
        TimezoneRowDescribed28();
      } else if i == 29 {
        TimezoneRowDescribed29();
      } else if i == 30 {
        TimezoneRowDescribed30();
      } else if i == 31 {
        TimezoneRowDescribed31();
      } else if i == 32 {
        TimezoneRowDescribed32();
      } else {
        TimezoneRowDescribed33();
      }
      DescribedRowNormalizes(TimezoneRows[i], RoughTimezones[i], ExpectedTimezones[i]);
    }
  }

  // ---------------------------------------------------------------------------
  // Solo project tier, voyages, role

  /** `str.extract(r"^Tier\s+(\d).*")` converted to a number: the digit after a
      leading `Tier` and at least one white-space character, else null. */
  function SoloTier(cell: Option<string>): (r: Option<int>)
    ensures r.Some? ==> 0 <= r.value <= 9
  {
    match cell
    case None => None
    case Some(t) =>
      if !StartsWith(t, "Tier") then None
      else
        var k := 4 + LeadingCount(t[4..], IsPySpace);
        if k == 4 || k >= |t| || !IsDigit(t[k]) then None
        else Some(t[k] as int - '0' as int)
  }

  /** Every `Tier`, white space, digit prefix yields that digit. */
  lemma SoloTierOf(space: string, d: nat, rest: string)
    requires space != [] && forall i :: 0 <= i < |space| ==> IsPySpace(space[i])
    requires d < 10
    ensures SoloTier(Some("Tier" + space + [DigitChar(d)] + rest)) == Some(d)
  {
    var t := "Tier" + space + [DigitChar(d)] + rest;
    assert t[4..] == space + ([DigitChar(d)] + rest);
    LeadingSpaceOf(space, [DigitChar(d)] + rest);
    assert t[4 + |space|] == DigitChar(d);
  }

  lemma {:induction false} LeadingSpaceOf(w: string, t: string)
    requires forall i :: 0 <= i < |w| ==> IsPySpace(w[i])
    requires t != [] && !IsPySpace(t[0])
    ensures LeadingCount(w + t, IsPySpace) == |w|
  {
    if w != [] {
      assert (w + t)[1..] == w[1..] + t;
      LeadingSpaceOf(w[1..], t);
    }
  }

  /** Conversely, a tier is found only in a cell of that shape. */
  lemma SoloTierShape(t: string)
    requires SoloTier(Some(t)).Some?
    ensures exists k :: 4 < k < |t| && t[..4] == "Tier"
              && (forall i :: 4 <= i < k ==> IsPySpace(t[i]))
              && t[k] == DigitChar(SoloTier(Some(t)).value)
  {
    var k := 4 + LeadingCount(t[4..], IsPySpace);
    assert forall i :: 4 <= i < k ==> t[i] == t[4..][i - 4];
  }

  /** `str.extractall(r"V(\d+)")` gathered into a list: every number that follows
      a `V`, left to right, scanning on after each match. */
  function VoyageIds(s: string): (r: seq<nat>)
    decreases |s|
  {
    if |s| < 2 then []
    else if s[0] == 'V' && IsDigit(s[1]) then
      var n := LeadingCount(s[1..], IsDigit);
      [ParseDigits(s[1..1 + n])] + VoyageIds(s[1 + n..])
    else VoyageIds(s[1..])
  }

  /** The `Voyage_Signup_ids` cell. A missing cell is first turned into text
      by `astype(str)`; that text has no match, so the result is the empty list. */
  function VoyageSignupIds(cell: Option<string>): (r: seq<nat>)
    ensures cell.None? ==> r == []
    ensures r == [] <==> cell.None? || NoVoyageMark(cell.value)
  {
    match cell
    case None => VoyageIds("None")
    case Some(t) => VoyageIdsEmpty(t); VoyageIds(t)
  }

  /** A `V` directly followed by a digit starts at `i`: a place where `V(\d+)`
      matches. */
  predicate VoyageMarkAt(s: string, i: int) {
    0 <= i < |s| - 1 && s[i] == 'V' && IsDigit(s[i + 1])
  }

  /** No `V` in `t` is directly followed by a digit. */
  predicate NoVoyageMark(t: string) {
    forall i :: 0 <= i < |t| ==> !VoyageMarkAt(t, i)
  }

  /** No voyage id is found exactly when no `V` is directly followed by a digit. */
  lemma {:induction false} VoyageIdsEmpty(s: string)
    ensures VoyageIds(s) == [] <==> NoVoyageMark(s)
    decreases |s|
  {
    if |s| >= 2 {
      if s[0] == 'V' && IsDigit(s[1]) {
        assert VoyageMarkAt(s, 0);
      } else {
        VoyageIdsEmpty(s[1..]);
        assert !VoyageMarkAt(s, 0);
        assert forall i :: VoyageMarkAt(s[1..], i) ==> VoyageMarkAt(s, i + 1);
        forall i | VoyageMarkAt(s, i)
          ensures VoyageMarkAt(s[1..], i - 1)
        {
        }
      }
    }
  }

  /** Text before `b` in which no `V` starts a match contributes no id. */
  lemma {:induction false} VoyageIdsSkip(a: string, b: string)
    requires forall i :: 0 <= i < |a| ==> !VoyageMarkAt(a + b, i)
    ensures VoyageIds(a + b) == VoyageIds(b)
    decreases |a|
  {
    if a != [] {
      var s := a + b;
      if |s| >= 2 {
        assert !VoyageMarkAt(s, 0);
        assert s[1..] == a[1..] + b;
        forall i | 0 <= i < |a[1..]|
          ensures !VoyageMarkAt(a[1..] + b, i)
        {
          assert !VoyageMarkAt(s, i + 1);
        }
        VoyageIdsSkip(a[1..], b);
      }
    } else {
      assert a + b == b;
    }
  }

  /** A text without a match keeps none when it is followed by something that
      does not start with a digit. */
  lemma NoVoyageMarkBefore(a: string, b: string)
    requires NoVoyageMark(a)
    requires b == [] || !IsDigit(b[0])
    ensures forall i :: 0 <= i < |a| ==> !VoyageMarkAt(a + b, i)
  {
    forall i | 0 <= i < |a|
      ensures !VoyageMarkAt(a + b, i)
    {
      if i < |a| - 1 {
        assert !VoyageMarkAt(a, i);
      }
    }
  }

  /** What may stand between two signups: no `V` directly followed by a digit,
      and no leading digit that would lengthen the number before it. */
  predicate VoyageSeparator(t: string) {
    NoVoyageMark(t) && (t == [] || !IsDigit(t[0]))
  }

  /** A leading text, then each id as `V<n>` followed by its separator. */
  function VoyageText(lead: string, ids: seq<nat>, seps: seq<string>): string
    requires |seps| == |ids|
    decreases |ids|
  {
    if ids == [] then lead
    else lead + ("V" + (NatToString(ids[0]) + VoyageText(seps[0], ids[1..], seps[1..])))
  }

  lemma VoyageTextStart(lead: string, ids: seq<nat>, seps: seq<string>)
    requires |seps| == |ids|
    requires lead == [] || !IsDigit(lead[0])
    ensures VoyageText(lead, ids, seps) == [] || !IsDigit(VoyageText(lead, ids, seps)[0])
  {
    if ids != [] && lead == [] {
      assert VoyageText(lead, ids, seps)[0] == 'V';
    }
  }

  /** Round trip: `V<n>` entries after any leading text and separated by any
      separators read back as the ids, in order; `"V12, V3"` and
      `"Voyage V4 (tier 2)"` are two such texts. */
  lemma {:induction false} VoyageIdsOfText(lead: string, ids: seq<nat>, seps: seq<string>)
    requires |seps| == |ids|
    requires NoVoyageMark(lead)
    requires forall k :: 0 <= k < |seps| ==> VoyageSeparator(seps[k])
    ensures VoyageIds(VoyageText(lead, ids, seps)) == ids
    decreases |ids|
  {
    if ids == [] {
      VoyageIdsEmpty(lead);
    } else {
      assert forall k :: 0 <= k < |seps[1..]| ==> seps[1..][k] == seps[k + 1];
      VoyageIdsOfText(seps[0], ids[1..], seps[1..]);
      VoyageTextStep(lead, ids, seps);
    }
  }

  /** One step of the round trip: the text after the first id reads back as
      the remaining ids. */
  lemma VoyageTextStep(lead: string, ids: seq<nat>, seps: seq<string>)
    requires |seps| == |ids| > 0
    requires NoVoyageMark(lead) && VoyageSeparator(seps[0])
    requires VoyageIds(VoyageText(seps[0], ids[1..], seps[1..])) == ids[1..]
    ensures VoyageIds(VoyageText(lead, ids, seps)) == ids
  {
    var d := NatToString(ids[0]);
    var tail := VoyageText(seps[0], ids[1..], seps[1..]);
    VoyageTextStart(seps[0], ids[1..], seps[1..]);
    VoyageIdsOfEntry(lead, d, tail);
    ParseNatToString(ids[0]);
    assert ids == [ids[0]] + ids[1..];
  }

  /** Text without a mark, then `V`, digits and text not starting with a
      digit: the digits are the first id read. */
  lemma VoyageIdsOfEntry(lead: string, d: string, tail: string)
    requires NoVoyageMark(lead)
    requires d != [] && AllDigits(d)
    requires tail == [] || !IsDigit(tail[0])
    ensures VoyageIds(lead + ("V" + (d + tail))) == [ParseDigits(d)] + VoyageIds(tail)
  {
    var b := "V" + (d + tail);
    assert b[0] == 'V';
    NoVoyageMarkBefore(lead, b);
    VoyageIdsSkip(lead, b);
    ConcatAssoc("V", d, tail);
    VoyageIdsAfterDigits(d, tail);
  }

  /** The signups written as `V<n>` separated by commas. */
  function VoyageList(ids: seq<nat>): string {
    if ids == [] then ""
    else if |ids| == 1 then "V" + NatToString(ids[0])
    else "V" + NatToString(ids[0]) + "," + VoyageList(ids[1..])
  }

  lemma VoyageIdsAfterDigits(d: string, rest: string)
    requires d != [] && AllDigits(d)
    requires rest == [] || !IsDigit(rest[0])
    ensures VoyageIds("V" + d + rest) == [ParseDigits(d)] + VoyageIds(rest)
  {
    var s := "V" + d + rest;
    assert s[1..] == d + rest;
    LeadingDigitsOf(d, rest);
    assert s[1..1 + |d|] == d;
    assert s[1 + |d|..] == rest;
  }

  lemma VoyageIdsComma(t: string)
    ensures VoyageIds("," + t) == VoyageIds(t)
  {
    if t != [] {
      assert ("," + t)[1..] == t;
    }
  }

  /** The ids of a list of several `V<n>` are the first id, then the ids of the rest. */
  lemma VoyageIdsOfCons(ids: seq<nat>)
    requires |ids| >= 2
    ensures VoyageIds(VoyageList(ids)) == [ids[0]] + VoyageIds(VoyageList(ids[1..]))
  {
    var d := NatToString(ids[0]);
    ParseNatToString(ids[0]);
    var rest := "," + VoyageList(ids[1..]);
    assert VoyageList(ids) == "V" + d + rest;
    VoyageIdsAfterDigits(d, rest);
    VoyageIdsComma(VoyageList(ids[1..]));
  }

  /** Round trip: the ids of a comma-separated list of `V<n>` are the list. */
  lemma {:induction false} VoyageIdsOfList(ids: seq<nat>)
    ensures VoyageIds(VoyageList(ids)) == ids
  {
    if |ids| == 1 {
      var d := NatToString(ids[0]);
      ParseNatToString(ids[0]);
      assert VoyageList(ids) == "V" + d + "";
      VoyageIdsAfterDigits(d, "");
    } else if |ids| >= 2 {
      VoyageIdsOfCons(ids);
      VoyageIdsOfList(ids[1..]);
      assert ids == [ids[0]] + ids[1..];
    }
  }

  /** `[] if pd.isna(x) else x.split(",")`: the voyage tiers as a list; joining
      the pieces with commas gives back the cell. */
  function VoyageTierList(cell: Option<string>): (r: seq<string>)
    ensures cell.None? ==> r == []
    ensures cell.Some? ==> |r| >= 1 && Join(r, ',') == cell.value
    ensures forall k :: 0 <= k < |r| ==> ',' !in r[k]
  {
    match cell
    case None => []
    case Some(t) => JoinSplit(t, ','); Split(t, ',')
  }

  /** `Role_Type.str.cat(Voyage_Role, sep=' ', na_rep='').str.strip()`, with an
      empty result replaced by None. */
  function CombineRole(roleType: Option<string>, voyageRole: Option<string>): (r: Option<string>)
    ensures r.Some? ==> r.value != [] && !IsPySpace(r.value[0]) && !IsPySpace(r.value[|r.value| - 1])
  {
    var joined := PyStrip(OrEmpty(roleType) + " " + OrEmpty(voyageRole));
    if joined == "" then None else Some(joined)
  }

  function OrEmpty(cell: Option<string>): string {
    match cell
    case None => ""
    case Some(s) => s
  }

  /** The role is None exactly when both parts are missing or blank. */
  lemma CombineRoleNone(roleType: Option<string>, voyageRole: Option<string>)
    ensures CombineRole(roleType, voyageRole).None? <==>
              (forall i :: 0 <= i < |OrEmpty(roleType)| ==> IsPySpace(OrEmpty(roleType)[i]))
              && (forall i :: 0 <= i < |OrEmpty(voyageRole)| ==> IsPySpace(OrEmpty(voyageRole)[i]))
  {
    var a, b := OrEmpty(roleType), OrEmpty(voyageRole);
    StripEmpty(a + " " + b, IsPySpace);
    AllSpaceJoined(a, b);
  }

  /** `a + " " + b` is all white space exactly when `a` and `b` are. */
  lemma AllSpaceJoined(a: string, b: string)
    ensures (forall k :: 0 <= k < |a + " " + b| ==> IsPySpace((a + " " + b)[k])) <==>
              (forall i :: 0 <= i < |a| ==> IsPySpace(a[i])) && (forall i :: 0 <= i < |b| ==> IsPySpace(b[i]))
  {
    var s := a + " " + b;
    assert forall i :: 0 <= i < |a| ==> a[i] == s[i];
    assert forall i :: 0 <= i < |b| ==> b[i] == s[|a| + 1 + i];
  }

  /** Two present, already trimmed parts are joined by one space. */
  lemma CombineRoleBoth(roleType: string, voyageRole: string)
    requires roleType != [] && !IsPySpace(roleType[0])
    requires voyageRole != [] && !IsPySpace(voyageRole[|voyageRole| - 1])
    ensures CombineRole(Some(roleType), Some(voyageRole)) == Some(roleType + " " + voyageRole)
  {
    StripUnchanged(roleType + " " + voyageRole, IsPySpace);
  }

  /** Only the voyage role present, or the role type missing: the result is
      the voyage role stripped, None when that leaves nothing. */
  lemma CombineRoleOnlyVoyage(voyageRole: string)
    ensures CombineRole(None, Some(voyageRole)) ==
              if PyStrip(voyageRole) == "" then None else Some(PyStrip(voyageRole))
  {
    assert OrEmpty(None) + " " + voyageRole == [' '] + voyageRole;
    StripPrefixed(' ', voyageRole, IsPySpace);
  }

  /** Only the role type present: the result is the role type stripped, None
      when that leaves nothing. */
  lemma CombineRoleOnlyType(roleType: string)
    ensures CombineRole(Some(roleType), None) ==
              if PyStrip(roleType) == "" then None else Some(PyStrip(roleType))
  {
    assert roleType + " " + OrEmpty(None) == roleType + [' '];
    StripSuffixed(roleType, ' ', IsPySpace);
  }

  /** Two parts that are not blank: white space before the role type and
      after the voyage role goes, the rest is kept around the joining space. */
  lemma CombineRoleTwo(roleType: string, voyageRole: string)
    requires PyStrip(roleType) != "" && PyStrip(voyageRole) != ""
    ensures CombineRole(Some(roleType), Some(voyageRole)) ==
              Some(roleType[LeadingCount(roleType, IsPySpace)..] + " "
                   + voyageRole[..|voyageRole| - TrailingCount(voyageRole, IsPySpace)])
  {
    StripJoined(roleType, ' ', voyageRole, IsPySpace);
  }

  // ---------------------------------------------------------------------------
  // Column names

  /** `re.sub(r"[^A-Za-z0-9]+", "_", s)`: each run of other characters becomes one `_`. */
  function CollapseNonAlnum(s: string): (r: string)
    ensures |r| <= |s|
    ensures CleanName(r)
    ensures s != [] ==> r != [] && (r[0] == '_' <==> !IsAsciiAlnum(s[0]))
    decreases |s|
  {
    if s == [] then []
    else if IsAsciiAlnum(s[0]) then [s[0]] + CollapseNonAlnum(s[1..])
    else
      var n := LeadingCount(s, IsNotAlnum);
      "_" + CollapseNonAlnum(s[n..])
  }

  lemma {:induction false} LeadingCountAppend(a: string, b: string, p: char -> bool)
    ensures LeadingCount(a + b, p) ==
              if LeadingCount(a, p) < |a| then LeadingCount(a, p) else |a| + LeadingCount(b, p)
    decreases |a|
  {
    if a == [] {
      assert a + b == b;
    } else {
      assert (a + b)[1..] == a[1..] + b;
      if p(a[0]) {
        LeadingCountAppend(a[1..], b, p);
      }
    }
  }

  /** The ASCII letters and digits survive the collapse, in their order. */
  lemma {:induction false} CollapseKeepsAlnum(s: string)
    ensures Filter(CollapseNonAlnum(s), IsAsciiAlnum) == Filter(s, IsAsciiAlnum)
    decreases |s|
  {
    if s != [] {
      if IsAsciiAlnum(s[0]) {
        CollapseKeepsAlnum(s[1..]);
        CollapseKeepsAlnumHead(s);
      } else {
        CollapseKeepsAlnum(s[LeadingCount(s, IsNotAlnum)..]);
        CollapseKeepsAlnumRun(s);
      }
    }
  }

  lemma CollapseKeepsAlnumHead(s: string)
    requires s != [] && IsAsciiAlnum(s[0])
    requires Filter(CollapseNonAlnum(s[1..]), IsAsciiAlnum) == Filter(s[1..], IsAsciiAlnum)
    ensures Filter(CollapseNonAlnum(s), IsAsciiAlnum) == Filter(s, IsAsciiAlnum)
  {
    var c := CollapseNonAlnum(s);
    assert s == [s[0]] + s[1..];
    CollapseAlnumPrepend(s[0], s[1..]);
    assert c[0] == s[0] && c[1..] == CollapseNonAlnum(s[1..]);
  }

  lemma CollapseKeepsAlnumRun(s: string)
    requires s != [] && !IsAsciiAlnum(s[0])
    requires var n := LeadingCount(s, IsNotAlnum);
             Filter(CollapseNonAlnum(s[n..]), IsAsciiAlnum) == Filter(s[n..], IsAsciiAlnum)
    ensures Filter(CollapseNonAlnum(s), IsAsciiAlnum) == Filter(s, IsAsciiAlnum)
  {
    CollapseRunCons(s);
    FilterUnderscoreCons(CollapseNonAlnum(s[LeadingCount(s, IsNotAlnum)..]));
    FilterSkipRun(s);
  }

  /** A leading run of characters outside `[A-Za-z0-9]` contributes nothing
      to the alphanumerics of a text. */
  lemma {:induction false} FilterSkipRun(s: string)
    ensures Filter(s, IsAsciiAlnum) == Filter(s[LeadingCount(s, IsNotAlnum)..], IsAsciiAlnum)
    decreases |s|
  {
    if s != [] && IsNotAlnum(s[0]) {
      FilterSkipRun(s[1..]);
      assert s[1..][LeadingCount(s[1..], IsNotAlnum)..] == s[LeadingCount(s, IsNotAlnum)..];
    }
  }

  lemma FilterUnderscoreCons(t: string)
    ensures Filter("_" + t, IsAsciiAlnum) == Filter(t, IsAsciiAlnum)
  {
    assert ("_" + t)[0] == '_' && ("_" + t)[1..] == t;
  }

  lemma CollapseRunCons(s: string)
    requires s != [] && !IsAsciiAlnum(s[0])
    ensures CollapseNonAlnum(s) == "_" + CollapseNonAlnum(s[LeadingCount(s, IsNotAlnum)..])
  {
  }

  lemma {:induction false} FilterNone<T>(t: seq<T>, p: T -> bool)
    requires forall i :: 0 <= i < |t| ==> !p(t[i])
    ensures Filter(t, p) == []
    decreases |t|
  {
    if t != [] {
      assert forall i :: 0 <= i < |t[1..]| ==> t[1..][i] == t[i + 1];
      FilterNone(t[1..], p);
    }
  }

  /** A non-empty run of characters outside `[A-Za-z0-9]` becomes one `_`. */
  lemma CollapseRun(t: string)
    requires t != [] && forall i :: 0 <= i < |t| ==> !IsAsciiAlnum(t[i])
    ensures CollapseNonAlnum(t) == "_"
  {
    assert LeadingCount(t, IsNotAlnum) == |t|;
    assert t[|t|..] == [];
  }

  /** Collapsing works piece by piece when the cut does not split a run of
      characters outside `[A-Za-z0-9]`; with `CollapseClean` and `CollapseRun`
      this fixes the result on every input. */
  lemma {:induction false} CollapseAppend(a: string, b: string)
    requires a == [] || b == [] || IsAsciiAlnum(a[|a| - 1]) || IsAsciiAlnum(b[0])
    ensures CollapseNonAlnum(a + b) == CollapseNonAlnum(a) + CollapseNonAlnum(b)
    decreases |a|
  {
    if a == [] {
      assert a + b == b;
    } else if IsAsciiAlnum(a[0]) {
      CollapseAppend(a[1..], b);
      CollapseAppendAlnum(a, b);
    } else {
      var n := LeadingCount(a, IsNotAlnum);
      if n < |a| {
        CollapseAppend(a[n..], b);
        CollapseAppendRun(a, b);
      } else {
        CollapseAppendWholeRun(a, b);
      }
    }
  }

  /** One step of the collapse, on a non-empty text. */
  lemma CollapseCons(s: string)
    requires s != []
    ensures CollapseNonAlnum(s) ==
              if IsAsciiAlnum(s[0]) then [s[0]] + CollapseNonAlnum(s[1..])
              else "_" + CollapseNonAlnum(s[LeadingCount(s, IsNotAlnum)..])
  {
  }

  lemma CollapseAppendAlnum(a: string, b: string)
    requires a != [] && IsAsciiAlnum(a[0])
    requires CollapseNonAlnum(a[1..] + b) == CollapseNonAlnum(a[1..]) + CollapseNonAlnum(b)
    ensures CollapseNonAlnum(a + b) == CollapseNonAlnum(a) + CollapseNonAlnum(b)
  {
    var c, t := a[0], a[1..];
    assert a == [c] + t;
    ConcatAssoc([c], t, b);
    CollapseAlnumPrepend(c, t + b);
    CollapseAlnumPrepend(c, t);
    ConcatAssoc([c], CollapseNonAlnum(t), CollapseNonAlnum(b));
  }

  lemma CollapseAlnumPrepend(c: char, t: string)
    requires IsAsciiAlnum(c)
    ensures CollapseNonAlnum([c] + t) == [c] + CollapseNonAlnum(t)
  {
    assert ([c] + t)[1..] == t;
  }

  lemma CollapseAppendRun(a: string, b: string)
    requires a != [] && !IsAsciiAlnum(a[0]) && LeadingCount(a, IsNotAlnum) < |a|
    requires CollapseNonAlnum(a[LeadingCount(a, IsNotAlnum)..] + b) ==
               CollapseNonAlnum(a[LeadingCount(a, IsNotAlnum)..]) + CollapseNonAlnum(b)
    ensures CollapseNonAlnum(a + b) == CollapseNonAlnum(a) + CollapseNonAlnum(b)
  {
    var n := LeadingCount(a, IsNotAlnum);
    var x, y := CollapseNonAlnum(a[n..]), CollapseNonAlnum(b);
    LeadingCountAppend(a, b, IsNotAlnum);
    assert (a + b)[0] == a[0] && (a + b)[n..] == a[n..] + b;
    CollapseRunCons(a + b);
    CollapseRunCons(a);
    ConcatAssoc("_", x, y);
  }

  lemma CollapseAppendWholeRun(a: string, b: string)
    requires a != [] && LeadingCount(a, IsNotAlnum) == |a|
    requires b == [] || IsAsciiAlnum(b[0])
    ensures CollapseNonAlnum(a + b) == CollapseNonAlnum(a) + CollapseNonAlnum(b)
  {
    LeadingCountAppend(a, b, IsNotAlnum);
    assert IsNotAlnum(a[0]);
    assert (a + b)[0] == a[0] && (a + b)[|a|..] == b;
    CollapseCons(a + b);
    CollapseCons(a);
    assert a[|a|..] == [];
    assert CollapseNonAlnum(a) == "_";
    assert CollapseNonAlnum(a + b) == "_" + CollapseNonAlnum(b);
  }

  /** The verbose column name the notebook renames. */
  const VerboseCountryColumn := "Country name (from Country)"

  /** `str.replace("Country name (from Country)", "Country_name")`. */
  function RenameCountryColumn(name: string): string {
    ReplaceAll(name, VerboseCountryColumn, "Country_name")
  }

  /** Only `[A-Za-z0-9_]`, and never two `_` in a row. */
  predicate CleanName(s: string) {
    (forall i :: 0 <= i < |s| ==> IsAsciiAlnum(s[i]) || s[i] == '_')
    && (forall i :: 0 <= i < |s| - 1 ==> s[i] != '_' || s[i + 1] != '_')
  }

  /** The column-name clean-up: the verbose country-name column is renamed,
      every run of characters outside `[A-Za-z0-9]` becomes `_`, and `_` is
      stripped from both ends. */
  function SanitizeColumnName(name: string): (r: string)
    ensures CleanName(r)
    ensures r != [] ==> r[0] != '_' && r[|r| - 1] != '_'
    ensures Filter(r, IsAsciiAlnum) == Filter(RenameCountryColumn(name), IsAsciiAlnum)
  {
    var c := CollapseNonAlnum(RenameCountryColumn(name));
    StripKeepsClean(c);
    CollapseKeepsAlnum(RenameCountryColumn(name));
    StripKeepsAlnum(c);
    Strip(c, IsUnderscore)
  }

  /** Stripping `_` removes no letter or digit. */
  lemma StripKeepsAlnum(c: string)
    ensures Filter(Strip(c, IsUnderscore), IsAsciiAlnum) == Filter(c, IsAsciiAlnum)
  {
    var a := LeadingCount(c, IsUnderscore);
    var rest := c[a..];
    var b := TrailingCount(rest, IsUnderscore);
    var l, m, r := c[..a], rest[..|rest| - b], rest[|rest| - b..];
    assert forall k :: 0 <= k < |l| ==> l[k] == c[k];
    assert forall k :: 0 <= k < |r| ==> r[k] == rest[|rest| - b + k];
    assert c == l + (m + r) by {
      assert rest == m + r;
    }
    UnderscoresAround(l, m, r);
  }

  lemma UnderscoresAround(l: string, m: string, r: string)
    requires forall k :: 0 <= k < |l| ==> l[k] == '_'
    requires forall k :: 0 <= k < |r| ==> r[k] == '_'
    ensures Filter(l + (m + r), IsAsciiAlnum) == Filter(m, IsAsciiAlnum)
  {
    FilterNone(l, IsAsciiAlnum);
    FilterNone(r, IsAsciiAlnum);
    FilterAppend(l, m + r, IsAsciiAlnum);
    FilterAppend(m, r, IsAsciiAlnum);
    assert Filter(m, IsAsciiAlnum) + [] == Filter(m, IsAsciiAlnum);
  }

  /** A name without a space is not renamed, so its letters and digits are
      exactly those of the sanitised name, in order. */
  lemma SanitizeKeepsAlnum(name: string)
    requires ' ' !in name
    ensures Filter(SanitizeColumnName(name), IsAsciiAlnum) == Filter(name, IsAsciiAlnum)
  {
    ReplaceAllAbsent(name, VerboseCountryColumn, "Country_name", ' ');
  }

  lemma StripKeepsClean(c: string)
    requires CleanName(c)
    ensures CleanName(Strip(c, IsUnderscore))
  {
    var r := Strip(c, IsUnderscore);
    StripSlice(c, IsUnderscore);
    var i, j :| 0 <= i <= j <= |c| && r == c[i..j];
    assert forall k :: 0 <= k < |r| ==> r[k] == c[i + k];
  }

  predicate IsUnderscore(c: char) { c == '_' }

  predicate IsNotAlnum(c: char) { !IsAsciiAlnum(c) }

  lemma {:induction false} CollapseClean(s: string)
    requires CleanName(s)
    ensures CollapseNonAlnum(s) == s
  {
    if s != [] {
      assert CleanName(s[1..]) by {
        assert forall i :: 0 <= i < |s| - 1 ==> s[1..][i] == s[i + 1];
      }
      if IsAsciiAlnum(s[0]) {
        CollapseClean(s[1..]);
      } else {
        var n := LeadingCount(s, IsNotAlnum);
        if |s| > 1 {
          assert IsAsciiAlnum(s[1]);
        }
        assert n == 1;
        CollapseClean(s[1..]);
        assert "_" + s[1..] == s;
      }
    }
  }

  /** Sanitising a sanitised name leaves it unchanged. */
  lemma SanitizeColumnNameIdempotent(name: string)
    ensures SanitizeColumnName(SanitizeColumnName(name)) == SanitizeColumnName(name)
  {
    var r := SanitizeColumnName(name);
    ReplaceAllAbsent(r, VerboseCountryColumn, "Country_name", ' ');
    CollapseClean(r);
    if r != [] {
      StripUnchanged(r, IsUnderscore);
    }
  }

  /** The verbose country-name column becomes `Country_name`. */
  lemma SanitizeCountryNameColumn()
    ensures SanitizeColumnName(VerboseCountryColumn) == "Country_name"
  {
    var pat := VerboseCountryColumn;
    assert pat[..|pat|] == pat;
    assert pat[|pat|..] == [];
    assert RenameCountryColumn(pat) == "Country_name";
    CollapseClean("Country_name");
    StripUnchanged("Country_name", IsUnderscore);
  }
}
