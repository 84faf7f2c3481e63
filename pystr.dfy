/** Python string operations the services rely on, restricted to ASCII:
    `str.isspace`, `str.strip`, `str.upper`, `str.lower`, slicing with clamped
    indices, `endswith`/`startswith`/`in`, `rsplit(".", 1)[-1]` and the
    decimal digits of an integer. */
module PyStr {
  import opened Wrappers

  /** `c.isspace()` for ASCII: tab, line feed, vertical tab, form feed,
      carriage return, the four separators 0x1C-0x1F and the space. */
  predicate IsSpace(c: char) {
    (9 <= c as int <= 13) || (28 <= c as int <= 32)
  }

  predicate IsDigit(c: char) {
    '0' <= c <= '9'
  }

  predicate IsLowerAscii(c: char) {
    'a' <= c <= 'z'
  }

  predicate IsUpperAscii(c: char) {
    'A' <= c <= 'Z'
  }

  /** What `\w` matches among ASCII characters. */
  predicate IsWordChar(c: char) {
    IsLowerAscii(c) || IsUpperAscii(c) || IsDigit(c) || c == '_'
  }

  function UpperChar(c: char): char {
    if IsLowerAscii(c) then (c as int - 32) as char else c
  }

  function LowerChar(c: char): char {
    if IsUpperAscii(c) then (c as int + 32) as char else c
  }

  /** `s.upper()` on ASCII text. */
  function Upper(s: string): string {
    seq(|s|, i requires 0 <= i < |s| => UpperChar(s[i]))
  }

  /** `s.lower()` on ASCII text. */
  function Lower(s: string): string {
    seq(|s|, i requires 0 <= i < |s| => LowerChar(s[i]))
  }

  // ---------------------------------------------------------------------------
  // str.strip()

  /** Number of whitespace characters at the front of `s`. */
  function LeadingSpaces(s: string): (n: nat)
    ensures n <= |s|
  {
    if |s| > 0 && IsSpace(s[0]) then 1 + LeadingSpaces(s[1..]) else 0
  }

  /** Number of whitespace characters at the back of `s`. */
  function TrailingSpaces(s: string): (n: nat)
    ensures n <= |s|
  {
    if |s| > 0 && IsSpace(s[|s| - 1]) then 1 + TrailingSpaces(s[..|s| - 1]) else 0
  }

  function StripLeft(s: string): string {
    s[LeadingSpaces(s)..]
  }

  function StripRight(s: string): string {
    s[..|s| - TrailingSpaces(s)]
  }

  /** `s.strip()` with no argument. */
  function Strip(s: string): string {
    StripRight(StripLeft(s))
  }

  lemma {:induction false} LeadingSpacesAreSpaces(s: string)
    ensures forall i :: 0 <= i < LeadingSpaces(s) ==> IsSpace(s[i])
    ensures LeadingSpaces(s) < |s| ==> !IsSpace(s[LeadingSpaces(s)])
  {
    if |s| > 0 && IsSpace(s[0]) {
      LeadingSpacesAreSpaces(s[1..]);
    }
  }

  lemma {:induction false} TrailingSpacesAreSpaces(s: string)
    ensures forall i :: |s| - TrailingSpaces(s) <= i < |s| ==> IsSpace(s[i])
    ensures TrailingSpaces(s) < |s| ==> !IsSpace(s[|s| - 1 - TrailingSpaces(s)])
  {
    if |s| > 0 && IsSpace(s[|s| - 1]) {
      TrailingSpacesAreSpaces(s[..|s| - 1]);
    }
  }

  /** Index of the first character `strip` keeps. */
  function StripStart(s: string): nat {
    LeadingSpaces(s)
  }

  /** Index one past the last character `strip` keeps. */
  function StripEnd(s: string): (b: nat)
    ensures StripStart(s) <= b <= |s|
  {
    |s| - TrailingSpaces(s[LeadingSpaces(s)..])
  }

  /** What `strip` keeps is the slice `s[StripStart(s)..StripEnd(s)]`. */
  lemma StripIsSlice(s: string)
    ensures Strip(s) == s[StripStart(s)..StripEnd(s)]
  {
    var a := LeadingSpaces(s);
    var t := s[a..];
    assert Strip(s) == t[..|t| - TrailingSpaces(t)];
  }

  /** The characters `strip` removes are exactly a whitespace prefix and a
      whitespace suffix, and what remains neither starts nor ends with
      whitespace. */
  lemma StripRemovesOnlySpace(s: string)
    ensures forall i :: 0 <= i < StripStart(s) ==> IsSpace(s[i])
    ensures forall i :: StripEnd(s) <= i < |s| ==> IsSpace(s[i])
    ensures StripStart(s) < StripEnd(s) ==> !IsSpace(s[StripStart(s)]) && !IsSpace(s[StripEnd(s) - 1])
  {
    var a := LeadingSpaces(s);
    var t := s[a..];
    var b := StripEnd(s);
    LeadingSpacesAreSpaces(s);
    TrailingSpacesAreSpaces(t);
    forall i | b <= i < |s| ensures IsSpace(s[i]) {
      assert s[i] == t[i - a];
    }
    if a < b {
      assert s[b - 1] == t[|t| - 1 - TrailingSpaces(t)];
    }
  }

  lemma StripIsTrimmedSlice(s: string)
    ensures Strip(s) == s[StripStart(s)..StripEnd(s)]
    ensures forall i :: 0 <= i < StripStart(s) ==> IsSpace(s[i])
    ensures forall i :: StripEnd(s) <= i < |s| ==> IsSpace(s[i])
    ensures StripStart(s) < StripEnd(s) ==> !IsSpace(s[StripStart(s)]) && !IsSpace(s[StripEnd(s) - 1])
  {
    StripIsSlice(s);
    StripRemovesOnlySpace(s);
  }

  /** The result of `strip` has no leading or trailing whitespace. */
  lemma StripHasNoEdgeSpace(s: string)
    ensures Strip(s) != [] ==> !IsSpace(Strip(s)[0]) && !IsSpace(Strip(s)[|Strip(s)| - 1])
  {
    StripIsTrimmedSlice(s);
  }

  /** A string with no edge whitespace is its own `strip`. */
  lemma {:induction false} StripOfTrimmed(s: string)
    requires s != [] ==> !IsSpace(s[0]) && !IsSpace(s[|s| - 1])
    ensures Strip(s) == s
  {
    assert LeadingSpaces(s) == 0;
    assert s[0..] == s;
    assert TrailingSpaces(s) == 0;
  }

  /** `strip` is idempotent. */
  lemma StripIdempotent(s: string)
    ensures Strip(Strip(s)) == Strip(s)
  {
    StripHasNoEdgeSpace(s);
    StripOfTrimmed(Strip(s));
  }

  /** `strip` gives "" exactly when every character is whitespace. */
  lemma StripEmptyIffAllSpace(s: string)
    ensures Strip(s) == [] <==> forall i :: 0 <= i < |s| ==> IsSpace(s[i])
  {
    StripIsTrimmedSlice(s);
    var a := StripStart(s);
    if forall i :: 0 <= i < |s| ==> IsSpace(s[i]) {
      if a < |s| {
        assert IsSpace(s[a]);
      }
    }
  }

  /** Every character of `s` is either whitespace or occurs in `strip(s)`. */
  lemma StripKeepsNonSpace(s: string, i: nat)
    requires i < |s| && !IsSpace(s[i])
    ensures exists j :: 0 <= j < |Strip(s)| && Strip(s)[j] == s[i]
  {
    StripIsTrimmedSlice(s);
    var a := StripStart(s);
    assert Strip(s)[i - a] == s[i];
  }

  // ---------------------------------------------------------------------------
  // Case mapping

  /** `upper` and `strip` commute on ASCII text, so `s.upper().strip()` and
      `s.strip().upper()` agree. */
  lemma {:induction false} UpperStripCommute(s: string)
    ensures Strip(Upper(s)) == Upper(Strip(s))
  {
    LeadingUpper(s);
    var a := LeadingSpaces(s);
    assert Upper(s)[a..] == Upper(s[a..]);
    TrailingUpper(s[a..]);
  }

  lemma {:induction false} LeadingUpper(s: string)
    ensures LeadingSpaces(Upper(s)) == LeadingSpaces(s)
  {
    if |s| > 0 {
      assert Upper(s)[1..] == Upper(s[1..]);
      LeadingUpper(s[1..]);
    }
  }

  lemma {:induction false} TrailingUpper(s: string)
    ensures TrailingSpaces(Upper(s)) == TrailingSpaces(s)
  {
    if |s| > 0 {
      assert Upper(s)[..|s| - 1] == Upper(s[..|s| - 1]);
      TrailingUpper(s[..|s| - 1]);
    }
  }

  /** `upper` leaves no ASCII lower-case letter and is idempotent. */
  lemma UpperIdempotent(s: string)
    ensures forall i :: 0 <= i < |Upper(s)| ==> !IsLowerAscii(Upper(s)[i])
    ensures Upper(Upper(s)) == Upper(s)
  {
  }

  // ---------------------------------------------------------------------------
  // Slicing

  /** Python's clamping of one slice index `i` against a length `n`:
      a negative index counts from the end, and the result lies in [0, n]. */
  function ClampIndex(i: int, n: nat): (k: nat)
    ensures k <= n
  {
    if i < 0 then (if i + n < 0 then 0 else i + n)
    else if i > n then n
    else i
  }

  /** `s[start:stop]`, where None stands for an omitted index. */
  function Slice(s: string, start: Option<int>, stop: Option<int>): string {
    var a := if start.None? then 0 else ClampIndex(start.value, |s|);
    var b := if stop.None? then |s| else ClampIndex(stop.value, |s|);
    if a < b then s[a..b] else []
  }

  /** Slicing never fails: with non-negative bounds, each bound is clamped to
      the length, and an empty or inverted range gives "". */
  lemma SliceClamps(s: string, start: nat, stop: nat)
    ensures var a := if start < |s| then start else |s|;
            var b := if stop < |s| then stop else |s|;
            Slice(s, Some(start), Some(stop)) == if a < b then s[a..b] else []
    ensures start >= stop ==> Slice(s, Some(start), Some(stop)) == []
    ensures |Slice(s, Some(start), Some(stop))| <= |s|
  {
  }

  // ---------------------------------------------------------------------------
  // Searching

  predicate StartsWith(s: string, prefix: string) {
    |prefix| <= |s| && s[..|prefix|] == prefix
  }

  predicate EndsWith(s: string, suffix: string) {
    |suffix| <= |s| && s[|s| - |suffix|..] == suffix
  }

  /** `sub in s`. */
  predicate Contains(s: string, sub: string)
    decreases |s|
  {
    StartsWith(s, sub) || (|s| > 0 && Contains(s[1..], sub))
  }

  /** `sub` occurs in `s` at position `i`. */
  predicate OccursAt(s: string, sub: string, i: int) {
    0 <= i && i + |sub| <= |s| && s[i..i + |sub|] == sub
  }

  /** `sub in s` holds iff `sub` occurs in `s` at some position. */
  lemma {:induction false} ContainsIff(s: string, sub: string)
    ensures Contains(s, sub) <==> exists i :: OccursAt(s, sub, i)
    decreases |s|
  {
    if |s| > 0 {
      var t := s[1..];
      ContainsIff(t, sub);
      if Contains(s, sub) {
        if StartsWith(s, sub) {
          assert OccursAt(s, sub, 0);
        } else {
          var k :| OccursAt(t, sub, k);
          assert s[k + 1..k + 1 + |sub|] == t[k..k + |sub|];
          assert OccursAt(s, sub, k + 1);
        }
      }
      if exists i :: OccursAt(s, sub, i) {
        var i :| OccursAt(s, sub, i);
        if i > 0 {
          assert s[i..i + |sub|] == t[i - 1..i - 1 + |sub|];
          assert OccursAt(t, sub, i - 1);
        } else {
          assert s[..|sub|] == s[i..i + |sub|];
        }
      }
    } else if |sub| == 0 {
      assert OccursAt(s, sub, 0);
    }
  }

  /** Every character of an occurring `sub` is found in `s`. */
  lemma ContainsChar(s: string, sub: string, k: nat)
    requires Contains(s, sub) && k < |sub|
    ensures exists j :: 0 <= j < |s| && s[j] == sub[k]
  {
    ContainsIff(s, sub);
    var i :| OccursAt(s, sub, i);
    assert s[i + k] == s[i..i + |sub|][k];
  }

  /** `s.rsplit(sep, 1)[-1]` for a one-character separator: the text after
      the last separator, or all of `s` when there is none. */
  function AfterLast(s: string, sep: char): string {
    if |s| == 0 then []
    else if s[|s| - 1] == sep then []
    else AfterLast(s[..|s| - 1], sep) + [s[|s| - 1]]
  }

  /** The text `rsplit` keeps is a separator-free suffix of `s`, and it is
      preceded by the separator unless it is all of `s`. */
  lemma {:induction false} AfterLastIsLastPart(s: string, sep: char)
    ensures |AfterLast(s, sep)| <= |s|
    ensures AfterLast(s, sep) == s[|s| - |AfterLast(s, sep)|..]
    ensures sep !in AfterLast(s, sep)
    ensures |AfterLast(s, sep)| < |s| ==> s[|s| - |AfterLast(s, sep)| - 1] == sep
  {
    if |s| > 0 && s[|s| - 1] != sep {
      var init := s[..|s| - 1];
      var c := s[|s| - 1];
      AfterLastIsLastPart(init, sep);
      var t := AfterLast(init, sep);
      var r := t + [c];
      assert AfterLast(s, sep) == r;
      var n := |init| - |t|;
      assert s == init + [c];
      assert s[n..] == init[n..] + [c];
      assert r == s[|s| - |r|..];
      assert forall k :: 0 <= k < |r| ==> r[k] != sep by {
        forall k | 0 <= k < |r| ensures r[k] != sep {
          if k < |t| { assert r[k] == t[k]; }
        }
      }
      if |r| < |s| {
        assert s[|s| - |r| - 1] == init[n - 1];
      }
    }
  }

  // ---------------------------------------------------------------------------
  // Decimal numerals

  function DigitValue(c: char): nat
    requires IsDigit(c)
  {
    c as int - '0' as int
  }

  predicate AllDigits(s: string) {
    forall i :: 0 <= i < |s| ==> IsDigit(s[i])
  }

  /** The value of a string of decimal digits (`int(s)`). */
  function DecimalValue(s: string): nat
    requires AllDigits(s)
  {
    if |s| == 0 then 0 else 10 * DecimalValue(s[..|s| - 1]) + DigitValue(s[|s| - 1])
  }

  /** `str(n)` for a natural number. */
  function NatToString(n: nat): (r: string)
    ensures r != [] && AllDigits(r)
  {
    if n < 10 then [('0' as int + n) as char]
    else NatToString(n / 10) + [('0' as int + n % 10) as char]
  }

  /** `str(i)` for an integer. */
  function IntToString(i: int): string {
    if i < 0 then "-" + NatToString(-i) else NatToString(i)
  }

  /** `int(str(n)) == n`: the digits written for a status code read back as it. */
  lemma {:induction false} NatToStringRoundTrip(n: nat)
    ensures DecimalValue(NatToString(n)) == n
  {
    if n >= 10 {
      NatToStringRoundTrip(n / 10);
      var r := NatToString(n);
      assert r[..|r| - 1] == NatToString(n / 10);
    }
  }
}
