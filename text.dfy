/**
 * Python's string operations as the booking code uses them: whitespace
 * stripping, prefix and substring tests, `split("-")[-1]`, `int()` on text,
 * `str()` and the `:03d` format of an integer, ASCII lower-casing and the
 * ASCII part of `urllib.parse.unquote`.
 */
module Text {
  import opened Wrappers

  /**
   * The characters of Python's `str.isspace()` (Unicode White_Space and the
   * ASCII separators 0x1C-0x1F), as inclusive ranges of code points.
   */
  const SpaceRanges: seq<(char, char)> := [
    ('\t', '\r'), ('\U{1C}', ' '), ('\U{85}', '\U{85}'), ('\U{A0}', '\U{A0}'),
    ('\U{1680}', '\U{1680}'), ('\U{2000}', '\U{200A}'), ('\U{2028}', '\U{2029}'),
    ('\U{202F}', '\U{202F}'), ('\U{205F}', '\U{205F}'), ('\U{3000}', '\U{3000}')]

  /** `c` lies in one of the ranges from index `i` on. */
  predicate InRanges(c: char, rs: seq<(char, char)>, i: nat)
    requires i <= |rs|
    decreases |rs| - i
  {
    i < |rs| && ((rs[i].0 <= c && c <= rs[i].1) || InRanges(c, rs, i + 1))
  }

  /** Python's `str.isspace()` for one character. */
  predicate IsSpace(c: char) {
    InRanges(c, SpaceRanges, 0)
  }

  /**
   * Whether `strip(chars)` removes `c`: with `chars` None (Python's default)
   * whitespace is removed, otherwise the characters of the given set.
   */
  predicate Strips(c: char, chars: Option<set<char>>) {
    match chars
    case None => IsSpace(c)
    case Some(cs) => c in cs
  }

  predicate IsDigit(c: char) {
    '0' <= c <= '9'
  }

  function DigitValue(c: char): nat
    requires IsDigit(c)
  {
    c as int - '0' as int
  }

  function DigitChar(d: nat): (c: char)
    requires d < 10
    ensures IsDigit(c) && DigitValue(c) == d
  {
    ('0' as int + d) as char
  }

  /** `s.startswith(p)`. */
  predicate StartsWith(s: string, p: string) {
    |p| <= |s| && forall i :: 0 <= i < |p| ==> s[i] == p[i]
  }

  /** `sub` occurs in `s` starting at index `i`. */
  predicate OccursAt(s: string, sub: string, i: int) {
    0 <= i && i + |sub| <= |s| && s[i..i + |sub|] == sub
  }

  /** `sub in s`: `sub` occurs as a contiguous piece of `s`. */
  predicate Contains(s: string, sub: string) {
    exists i :: 0 <= i <= |s| - |sub| && OccursAt(s, sub, i)
  }

  /** The first index at or after `i` whose character is not stripped. */
  function LeadEnd(s: string, chars: Option<set<char>>, i: nat): (k: nat)
    requires i <= |s|
    ensures i <= k <= |s|
    decreases |s| - i
  {
    if i < |s| && Strips(s[i], chars) then LeadEnd(s, chars, i + 1) else i
  }

  /** The index after the last character before `i` that is not stripped. */
  function TrailStart(s: string, chars: Option<set<char>>, i: nat): (k: nat)
    requires i <= |s|
    ensures k <= i
  {
    if i > 0 && Strips(s[i - 1], chars) then TrailStart(s, chars, i - 1) else i
  }

  /** `s.lstrip(chars)`. */
  function TrimLeft(s: string, chars: Option<set<char>>): string {
    s[LeadEnd(s, chars, 0)..]
  }

  /** `s.rstrip(chars)`. */
  function TrimRight(s: string, chars: Option<set<char>>): string {
    s[..TrailStart(s, chars, |s|)]
  }

  /** `s.strip(chars)`: both ends. */
  function StripChars(s: string, chars: Option<set<char>>): string {
    TrimRight(TrimLeft(s, chars), chars)
  }

  /** `s.strip()`: both ends, Python's whitespace. */
  function Strip(s: string): string {
    StripChars(s, None)
  }

  function LowerChar(c: char): char {
    if 'A' <= c <= 'Z' then (c as int + 32) as char else c
  }

  /** `s.lower()` on the ASCII letters. */
  function Lower(s: string): (r: string)
    ensures |r| == |s|
  {
    seq(|s|, i requires 0 <= i < |s| => LowerChar(s[i]))
  }

  /** The index just after the last `sep` before index `i`, or 0 when there is none. */
  function SegmentStart(s: string, sep: char, i: nat): (k: nat)
    requires i <= |s|
    ensures k <= i
  {
    if i == 0 then 0 else if s[i - 1] == sep then i else SegmentStart(s, sep, i - 1)
  }

  /** `s.split(sep)[-1]`: what follows the last `sep`, or all of `s`. */
  function LastSegment(s: string, sep: char): string {
    s[SegmentStart(s, sep, |s|)..]
  }

  /**
   * The digit part that `int()` accepts: ASCII digits, where single
   * underscores may stand between two digits.
   */
  predicate IsDigitRun(s: string) {
    && |s| > 0
    && IsDigit(s[0]) && IsDigit(s[|s| - 1])
    && (forall i :: 0 <= i < |s| ==> IsDigit(s[i]) || s[i] == '_')
    && (forall i, j :: 0 <= i < |s| && i < j < |s| && j == i + 1 ==> s[i] == '_' ==> s[j] != '_')
  }

  /** The decimal value of the digits of `s`, underscores skipped. */
  function DigitsValue(s: string): nat
    requires forall i :: 0 <= i < |s| ==> IsDigit(s[i]) || s[i] == '_'
  {
    PrefixValue(s, |s|)
  }

  /** The decimal value of the first `n` characters of `s`, underscores skipped. */
  function PrefixValue(s: string, n: nat): nat
    requires n <= |s|
    requires forall i :: 0 <= i < |s| ==> IsDigit(s[i]) || s[i] == '_'
  {
    if n == 0 then 0
    else if s[n - 1] == '_' then PrefixValue(s, n - 1)
    else PrefixValue(s, n - 1) * 10 + DigitValue(s[n - 1])
  }

  /**
   * Python's `int(s)` on text: surrounding whitespace is ignored, then an
   * optional sign and a digit run. None stands for the ValueError.
   */
  function ParseInt(s: string): Option<int> {
    var t := Strip(s);
    if |t| > 0 && (t[0] == '+' || t[0] == '-') then
      if IsDigitRun(t[1..]) then
        var v: int := DigitsValue(t[1..]);
        Some(if t[0] == '-' then -v else v)
      else None
    else if IsDigitRun(t) then Some(DigitsValue(t))
    else None
  }

  /** `str(n)` for a non-negative integer. */
  function NatToString(n: nat): (r: string)
    ensures |r| > 0
    ensures forall i :: 0 <= i < |r| ==> IsDigit(r[i])
  {
    if n < 10 then [DigitChar(n)] else NatToString(n / 10) + [DigitChar(n % 10)]
  }

  /** `str(n)`. */
  function IntToString(n: int): string {
    if n < 0 then "-" + NatToString(-n) else NatToString(n)
  }

  function Zeros(k: nat): (r: string)
    ensures |r| == k && forall i :: 0 <= i < k ==> r[i] == '0'
  {
    if k == 0 then "" else Zeros(k - 1) + "0"
  }

  /** `f"{n:0<width>d}"`: zeros go after the sign, the sign counts in the width. */
  function ZeroPadded(n: int, width: nat): string {
    var digits := NatToString(if n < 0 then -n else n);
    var sign := if n < 0 then "-" else "";
    var fill := if |sign| + |digits| < width then width - |sign| - |digits| else 0;
    sign + Zeros(fill) + digits
  }

  predicate IsHex(c: char) {
    IsDigit(c) || 'a' <= c <= 'f' || 'A' <= c <= 'F'
  }

  function HexValue(c: char): nat
    requires IsHex(c)
  {
    if IsDigit(c) then DigitValue(c)
    else if 'a' <= c <= 'f' then c as int - 'a' as int + 10
    else c as int - 'A' as int + 10
  }

  /** True when `s` starts with a `%XX` escape of an ASCII character. */
  predicate AsciiEscapeAt(s: string) {
    |s| >= 3 && s[0] == '%' && IsHex(s[1]) && IsHex(s[2]) && HexValue(s[1]) < 8
  }

  /**
   * `urllib.parse.unquote` restricted to escapes of ASCII characters; any
   * other `%` is kept as it is.
   */
  function PercentDecode(s: string): (r: string)
    ensures |r| <= |s|
    decreases |s|
  {
    if |s| == 0 then ""
    else if AsciiEscapeAt(s) then
      [(HexValue(s[1]) * 16 + HexValue(s[2])) as char] + PercentDecode(s[3..])
    else [s[0]] + PercentDecode(s[1..])
  }

  // ---------------------------------------------------------------------
  // Lemmas
  // ---------------------------------------------------------------------

  /** The value of a prefix depends only on the characters in it. */
  lemma {:induction false} PrefixValueFrame(s: string, t: string, n: nat)
    requires n <= |s| && n <= |t|
    requires forall i :: 0 <= i < |s| ==> IsDigit(s[i]) || s[i] == '_'
    requires forall i :: 0 <= i < |t| ==> IsDigit(t[i]) || t[i] == '_'
    requires forall i :: 0 <= i < n ==> s[i] == t[i]
    ensures PrefixValue(s, n) == PrefixValue(t, n)
  {
    if n > 0 {
      PrefixValueFrame(s, t, n - 1);
    }
  }

  /** Reading back the decimal digits of `n` gives `n`. */
  lemma {:induction false} NatToStringValue(n: nat)
    ensures DigitsValue(NatToString(n)) == n
  {
    var s := NatToString(n);
    if n >= 10 {
      var x := NatToString(n / 10);
      var d := DigitChar(n % 10);
      assert s == x + [d];
      NatToStringValue(n / 10);
      PrefixValueFrame(s, x, |x|);
      assert PrefixValue(s, |s|) == PrefixValue(s, |x|) * 10 + DigitValue(d);
    }
  }

  /** A run of zeros is worth 0. */
  lemma {:induction false} ZerosPrefixValue(s: string, n: nat)
    requires n <= |s|
    requires forall i :: 0 <= i < |s| ==> IsDigit(s[i]) || s[i] == '_'
    requires forall i :: 0 <= i < n ==> s[i] == '0'
    ensures PrefixValue(s, n) == 0
  {
    if n > 0 {
      ZerosPrefixValue(s, n - 1);
    }
  }

  /** Past `k` leading zeros, the value equals that of the digits alone. */
  lemma {:induction false} LeadingZerosPrefix(k: nat, s: string, m: nat)
    requires m <= |s|
    requires forall i :: 0 <= i < |s| ==> IsDigit(s[i])
    requires forall i :: 0 <= i < |Zeros(k) + s| ==> IsDigit((Zeros(k) + s)[i])
    ensures PrefixValue(Zeros(k) + s, k + m) == PrefixValue(s, m)
  {
    var z := Zeros(k) + s;
    if m == 0 {
      ZerosPrefixValue(z, k);
    } else {
      LeadingZerosPrefix(k, s, m - 1);
      assert z[k + m - 1] == s[m - 1];
    }
  }

  /** Leading zeros do not change the value of a digit string. */
  lemma LeadingZerosValue(k: nat, s: string)
    requires forall i :: 0 <= i < |s| ==> IsDigit(s[i])
    ensures forall i :: 0 <= i < |Zeros(k) + s| ==> IsDigit((Zeros(k) + s)[i])
    ensures DigitsValue(Zeros(k) + s) == DigitsValue(s)
  {
    var z := Zeros(k) + s;
    assert forall i :: 0 <= i < |z| ==> IsDigit(z[i]) by {
      forall i | 0 <= i < |z|
        ensures IsDigit(z[i])
      {
        if i >= k {
          assert z[i] == s[i - k];
        }
      }
    }
    LeadingZerosPrefix(k, s, |s|);
  }

  /** The characters `LeadEnd` skips are stripped, and it stops at one that is not. */
  lemma {:induction false} LeadEndSpec(s: string, chars: Option<set<char>>, i: nat)
    requires i <= |s|
    ensures forall j :: i <= j < LeadEnd(s, chars, i) ==> Strips(s[j], chars)
    ensures LeadEnd(s, chars, i) < |s| ==> !Strips(s[LeadEnd(s, chars, i)], chars)
    decreases |s| - i
  {
    if i < |s| && Strips(s[i], chars) {
      LeadEndSpec(s, chars, i + 1);
    }
  }

  /** The characters `TrailStart` skips are stripped, and it stops after one that is not. */
  lemma {:induction false} TrailStartSpec(s: string, chars: Option<set<char>>, i: nat)
    requires i <= |s|
    ensures forall j :: TrailStart(s, chars, i) <= j < i ==> Strips(s[j], chars)
    ensures TrailStart(s, chars, i) > 0 ==> !Strips(s[TrailStart(s, chars, i) - 1], chars)
  {
    if i > 0 && Strips(s[i - 1], chars) {
      TrailStartSpec(s, chars, i - 1);
    }
  }

  /**
   * `strip` removes exactly a run of stripped characters at each end: the
   * result is the slice of `s` starting at the first kept character, every
   * character cut off is stripped, and the result neither starts nor ends
   * with a stripped character.
   */
  lemma StripCharsSpec(s: string, chars: Option<set<char>>)
    ensures var r := StripChars(s, chars); var k := LeadEnd(s, chars, 0);
      && k + |r| <= |s|
      && (forall i :: 0 <= i < |r| ==> r[i] == s[k + i])
      && (forall i :: 0 <= i < k ==> Strips(s[i], chars))
      && (forall i :: k + |r| <= i < |s| ==> Strips(s[i], chars))
      && (|r| > 0 ==> !Strips(r[0], chars) && !Strips(r[|r| - 1], chars))
  {
    var t := TrimLeft(s, chars);
    LeadEndSpec(s, chars, 0);
    TrailStartSpec(t, chars, |t|);
  }

  /** `rstrip` keeps a prefix and cuts off only stripped characters. */
  lemma TrimRightSpec(s: string, chars: Option<set<char>>)
    ensures var r := TrimRight(s, chars);
      && |r| <= |s|
      && (forall i :: 0 <= i < |r| ==> r[i] == s[i])
      && (forall i :: |r| <= i < |s| ==> Strips(s[i], chars))
      && (|r| > 0 ==> !Strips(r[|r| - 1], chars))
  {
    TrailStartSpec(s, chars, |s|);
  }

  /** The characters `SegmentStart` passes over are not separators; the one before it is. */
  lemma {:induction false} SegmentStartSpec(s: string, sep: char, i: nat)
    requires i <= |s|
    ensures forall j :: SegmentStart(s, sep, i) <= j < i ==> s[j] != sep
    ensures SegmentStart(s, sep, i) > 0 ==> s[SegmentStart(s, sep, i) - 1] == sep
  {
    if i > 0 && s[i - 1] != sep {
      SegmentStartSpec(s, sep, i - 1);
    }
  }

  /**
   * `s.split(sep)[-1]` is a suffix of `s` with no separator in it, and it is
   * either all of `s` or preceded by a separator.
   */
  lemma LastSegmentSpec(s: string, sep: char)
    ensures var r := LastSegment(s, sep);
      && |r| <= |s|
      && (forall i :: 0 <= i < |r| ==> r[i] == s[|s| - |r| + i] && r[i] != sep)
      && (|r| < |s| ==> s[|s| - |r| - 1] == sep)
  {
    SegmentStartSpec(s, sep, |s|);
  }

  lemma {:induction false} NotInRanges(c: char, rs: seq<(char, char)>, i: nat)
    requires i <= |rs|
    requires forall j :: i <= j < |rs| ==> c < rs[j].0 || rs[j].1 < c
    ensures !InRanges(c, rs, i)
    decreases |rs| - i
  {
    if i < |rs| {
      NotInRanges(c, rs, i + 1);
    }
  }

  /** Printable ASCII characters (letters, digits, punctuation) are not whitespace. */
  lemma PrintableNotSpace(c: char)
    requires '!' <= c <= '~'
    ensures !IsSpace(c)
  {
    NotInRanges(c, SpaceRanges, 0);
  }

  /** Stripping leaves text alone that has no stripped character at either end. */
  lemma StripCharsUnchanged(s: string, chars: Option<set<char>>)
    requires |s| > 0 ==> !Strips(s[0], chars) && !Strips(s[|s| - 1], chars)
    ensures StripChars(s, chars) == s
  {
    assert LeadEnd(s, chars, 0) == 0;
    assert TrailStart(s, chars, |s|) == |s|;
  }

  /** Stripping leaves text alone that has no whitespace at either end. */
  lemma StripUnchanged(s: string)
    requires |s| > 0 ==> !IsSpace(s[0]) && !IsSpace(s[|s| - 1])
    ensures Strip(s) == s
  {
    StripCharsUnchanged(s, None);
  }

  /** `not s.strip()` holds exactly for text made only of whitespace (the empty text included). */
  lemma StripEmptyIff(s: string)
    ensures Strip(s) == "" <==> forall i :: 0 <= i < |s| ==> IsSpace(s[i])
  {
    StripCharsSpec(s, None);
    var k := LeadEnd(s, None, 0);
    if Strip(s) != "" {
      assert !IsSpace(s[k]);
    }
  }

  lemma ParseStripped(t: string)
    requires Strip(t) == t && IsDigitRun(t)
    ensures ParseInt(t) == Some(DigitsValue(t) as int)
  {
  }

  /** `int()` reads a plain digit string as its decimal value. */
  lemma ParseDigits(body: string)
    requires |body| > 0 && forall i :: 0 <= i < |body| ==> IsDigit(body[i])
    ensures ParseInt(body) == Some(DigitsValue(body) as int)
  {
    assert IsDigitRun(body);
    PrintableNotSpace(body[0]);
    PrintableNotSpace(body[|body| - 1]);
    StripUnchanged(body);
    ParseStripped(body);
  }

  /** `int(f"{n:0<width>d}") == n`: the padded format reads back as the number. */
  lemma ZeroPaddedRoundTrip(n: nat, width: nat)
    ensures ParseInt(ZeroPadded(n, width)) == Some(n)
  {
    var digits := NatToString(n);
    var fill := if |digits| < width then width - |digits| else 0;
    var body := Zeros(fill) + digits;
    assert ZeroPadded(n, width) == body;
    assert forall i :: 0 <= i < |body| ==> IsDigit(body[i]);
    LeadingZerosValue(fill, digits);
    NatToStringValue(n);
    ParseDigits(body);
  }

  /** Distinct numbers have distinct padded forms. */
  lemma ZeroPaddedInjective(a: nat, b: nat, width: nat)
    requires ZeroPadded(a, width) == ZeroPadded(b, width)
    ensures a == b
  {
    ZeroPaddedRoundTrip(a, width);
    ZeroPaddedRoundTrip(b, width);
  }

  /** A padded non-negative number is made of digits only (so holds no `-`). */
  lemma ZeroPaddedDigits(n: nat, width: nat)
    ensures forall i :: 0 <= i < |ZeroPadded(n, width)| ==> IsDigit(ZeroPadded(n, width)[i])
  {
  }

  /** Numbers below 1000 print in at most three digits, larger ones in four or more. */
  lemma NatToStringLength(n: nat)
    ensures n < 10 ==> |NatToString(n)| == 1
    ensures 10 <= n < 100 ==> |NatToString(n)| == 2
    ensures 100 <= n < 1000 ==> |NatToString(n)| == 3
    ensures n >= 1000 ==> |NatToString(n)| >= 4
  {
    if n >= 1000 {
      assert n / 10 >= 100;
      assert (n / 10) / 10 >= 10;
      assert ((n / 10) / 10) / 10 >= 1;
    }
  }

  /** `:03d` pads to exactly three characters below 1000 and prints in full from 1000. */
  lemma ZeroPadded3Shape(n: nat)
    ensures n < 1000 ==> |ZeroPadded(n, 3)| == 3
    ensures n >= 1000 ==> ZeroPadded(n, 3) == NatToString(n)
  {
    NatToStringLength(n);
  }

  /** A parsed value is never negative when the text holds no `-`. */
  lemma {:induction false} ParseIntNoMinus(s: string)
    requires forall i :: 0 <= i < |s| ==> s[i] != '-'
    requires ParseInt(s).Some?
    ensures ParseInt(s).value >= 0
  {
    var t := Strip(s);
    if |t| > 0 {
      assert t[0] == s[LeadEnd(s, None, 0)];
    }
  }

  /** What follows the last separator after `p + [sep]` is exactly the appended tail. */
  lemma LastSegmentAfter(p: string, sep: char, tail: string)
    requires forall i :: 0 <= i < |tail| ==> tail[i] != sep
    ensures LastSegment(p + [sep] + tail, sep) == tail
  {
    var s := p + [sep] + tail;
    var k := SegmentStart(s, sep, |s|);
    SegmentStartSpec(s, sep, |s|);
    assert s[|p|] == sep;
    assert k == |p| + 1;
    assert s[k..] == tail;
  }


  lemma PercentDecodePlainStep(c: char, rest: string)
    requires c != '%'
    ensures PercentDecode([c] + rest) == [c] + PercentDecode(rest)
  {
    var s := [c] + rest;
    assert !AsciiEscapeAt(s);
    assert s[1..] == rest;
  }

  /** Text without `%` passes through decoding unchanged, also in front of more text. */
  lemma {:induction false} PercentDecodeAppend(a: string, b: string)
    requires forall i :: 0 <= i < |a| ==> a[i] != '%'
    ensures PercentDecode(a + b) == a + PercentDecode(b)
    decreases |a|
  {
    if |a| == 0 {
      assert a + b == b;
    } else {
      assert a + b == [a[0]] + (a[1..] + b);
      PercentDecodePlainStep(a[0], a[1..] + b);
      PercentDecodeAppend(a[1..], b);
      assert a == [a[0]] + a[1..];
    }
  }

  /** An ASCII escape decodes to its character: `%7B` is `{`, `%7D` is `}`. */
  lemma PercentDecodeEscape(hi: char, lo: char, rest: string)
    requires IsHex(hi) && IsHex(lo) && HexValue(hi) < 8
    ensures PercentDecode(['%', hi, lo] + rest) == [(HexValue(hi) * 16 + HexValue(lo)) as char] + PercentDecode(rest)
  {
    var s := ['%', hi, lo] + rest;
    assert AsciiEscapeAt(s);
    assert s[3..] == rest;
  }
}
