/** The APR detector of the upload route: the pattern
    `(\d{1,2}\.\d{1,2})\s*%`, its leftmost non-overlapping matches as
    `re.findall` reports them, and the choice of the smallest plausible rate.
    Rates are kept in hundredths: every captured numeral has at most two
    digits on each side of the dot, so comparisons and `min` are exact. */
module AprScan {
  import opened Wrappers
  import opened PyStr

  // ===========================================================================
  // APR pattern `(\d{1,2}\.\d{1,2})\s*%`

  /** A match found at `start`: the dot, the end of the captured numeral and
      the end of the whole match (one past the '%'). */
  datatype AprMatch = AprMatch(start: nat, dot: nat, fracEnd: nat, end: nat)

  /** The pattern matches at `p` with the dot at `a`, the group ending at `c`
      and the '%' at `d`. */
  predicate IsAprMatch(s: string, p: nat, a: nat, c: nat, d: nat) {
    p < a <= p + 2 && a < |s|
    && (forall k :: p <= k < a ==> IsDigit(s[k]))
    && s[a] == '.'
    && a + 1 < c <= a + 3 && c <= |s|
    && (forall k :: a < k < c ==> IsDigit(s[k]))
    && c <= d < |s|
    && (forall k :: c <= k < d ==> IsSpace(s[k]))
    && s[d] == '%'
  }

  predicate ValidMatch(s: string, m: AprMatch) {
    m.end >= 1 && IsAprMatch(s, m.start, m.dot, m.fracEnd, m.end - 1)
  }

  /** The number of digits, at most two, that `\d{1,2}` takes at `i`. */
  function DigitsAt(s: string, i: nat): (n: nat)
    requires i <= |s|
    ensures n <= 2 && i + n <= |s|
    ensures forall k :: i <= k < i + n ==> IsDigit(s[k])
    ensures n < 2 && i + n < |s| ==> !IsDigit(s[i + n])
  {
    if i < |s| && IsDigit(s[i]) then
      (if i + 1 < |s| && IsDigit(s[i + 1]) then 2 else 1)
    else 0
  }

  /** The number of whitespace characters `\s*` takes at `i`. */
  function SpacesAt(s: string, i: nat): (n: nat)
    requires i <= |s|
    ensures i + n <= |s|
    ensures forall k :: i <= k < i + n ==> IsSpace(s[k])
    ensures i + n < |s| ==> !IsSpace(s[i + n])
    decreases |s| - i
  {
    if i < |s| && IsSpace(s[i]) then 1 + SpacesAt(s, i + 1) else 0
  }

  /** The match of the pattern at `p`, if any. Each of `\d{1,2}`, `\d{1,2}`
      and `\s*` is greedy, and giving back a character never helps: what it
      gives back is a digit or a space where the pattern next wants '.',
      a space or '%'. */
  function MatchAt(s: string, p: nat): (r: Option<AprMatch>)
    requires p <= |s|
    ensures r.Some? ==> r.value.start == p && p < r.value.dot < r.value.fracEnd < r.value.end <= |s|
  {
    var n1 := DigitsAt(s, p);
    var a := p + n1;
    if n1 == 0 || a >= |s| || s[a] != '.' then None
    else
      var n2 := DigitsAt(s, a + 1);
      var c := a + 1 + n2;
      if n2 == 0 then None
      else
        var d := c + SpacesAt(s, c);
        if d < |s| && s[d] == '%' then Some(AprMatch(p, a, c, d + 1)) else None
  }

  /** What `MatchAt` finds is a match of the pattern. */
  lemma MatchAtSound(s: string, p: nat)
    requires p <= |s|
    ensures MatchAt(s, p).Some? ==> ValidMatch(s, MatchAt(s, p).value)
  {
  }

  /** The match is unique: whenever the pattern matches at `p`, `MatchAt`
      finds exactly that match. */
  lemma MatchAtComplete(s: string, p: nat, a: nat, c: nat, d: nat)
    requires IsAprMatch(s, p, a, c, d)
    ensures MatchAt(s, p) == Some(AprMatch(p, a, c, d + 1))
  {
    assert DigitsAt(s, p) == a - p by {
      assert !IsDigit(s[a]);
    }
    assert DigitsAt(s, a + 1) == c - a - 1 by {
      if c < |s| {
        assert c == d || IsSpace(s[c]);
        assert !IsDigit(s[c]);
      }
    }
    var n := SpacesAt(s, c);
    assert n == d - c by {
      assert !IsSpace(s[d]);
    }
  }

  /** The outcome of trying the pattern at each position of a text. A table
      is well formed when each match starts at its own position and ends
      within the text. */
  predicate WellFormedTable(t: seq<Option<AprMatch>>) {
    forall q :: 0 <= q < |t| && t[q].Some? ==>
      t[q].value.start == q < t[q].value.dot < t[q].value.fracEnd < t[q].value.end <= |t|
  }

  function MatchTable(s: string): (t: seq<Option<AprMatch>>)
    ensures |t| == |s| && WellFormedTable(t)
    ensures forall q :: 0 <= q < |s| ==> t[q] == MatchAt(s, q)
  {
    seq(|s|, q requires 0 <= q < |s| => MatchAt(s, q))
  }

  /** `pattern.findall` from position `p`: try each position in turn, and
      after a match resume at its end. */
  function MatchesFrom(t: seq<Option<AprMatch>>, p: nat): (ms: seq<AprMatch>)
    requires WellFormedTable(t) && p <= |t|
    ensures forall k :: 0 <= k < |ms| ==> p <= ms[k].start < ms[k].dot < ms[k].fracEnd < ms[k].end <= |t|
    decreases |t| - p
  {
    if p == |t| then []
    else if t[p].Some? then [t[p].value] + MatchesFrom(t, t[p].value.end)
    else MatchesFrom(t, p + 1)
  }

  /** Each match of `ms` is the table's match at its start, and each ends
      before the next begins. */
  predicate Chained(t: seq<Option<AprMatch>>, ms: seq<AprMatch>) {
    |ms| == 0
    || (ms[0].start < |t| && t[ms[0].start] == Some(ms[0])
        && (|ms| > 1 ==> ms[0].end <= ms[1].start)
        && Chained(t, ms[1..]))
  }

  lemma {:induction false} ChainedAt(t: seq<Option<AprMatch>>, ms: seq<AprMatch>, k: nat)
    requires Chained(t, ms) && k < |ms|
    ensures ms[k].start < |t| && t[ms[k].start] == Some(ms[k])
    ensures k + 1 < |ms| ==> ms[k].end <= ms[k + 1].start
  {
    if k > 0 {
      ChainedAt(t, ms[1..], k - 1);
    }
  }

  /** Each reported match is the match at its start, and the matches come
      in order without overlapping. */
  lemma {:induction false} MatchesFromInOrder(t: seq<Option<AprMatch>>, p: nat)
    requires WellFormedTable(t) && p <= |t|
    ensures Chained(t, MatchesFrom(t, p))
    decreases |t| - p
  {
    if p < |t| {
      if t[p].Some? {
        var m := t[p].value;
        var rest := MatchesFrom(t, m.end);
        MatchesFromInOrder(t, m.end);
        var ms := [m] + rest;
        assert MatchesFrom(t, p) == ms;
        assert ms[1..] == rest;
      } else {
        assert MatchesFrom(t, p) == MatchesFrom(t, p + 1);
        MatchesFromInOrder(t, p + 1);
      }
    }
  }

  /** Position `q` lies inside one of the matches `ms`. */
  predicate InSomeMatch(ms: seq<AprMatch>, q: nat) {
    |ms| > 0 && (ms[0].start <= q < ms[0].end || InSomeMatch(ms[1..], q))
  }

  /** No match is skipped: every position from `p` on where the table has a
      match lies inside a reported match. With the lemma above, the
      reported matches are exactly the leftmost non-overlapping ones. */
  lemma {:induction false} MatchesFromCoverAll(t: seq<Option<AprMatch>>, p: nat)
    requires WellFormedTable(t) && p <= |t|
    ensures forall q :: p <= q < |t| && t[q].Some? ==> InSomeMatch(MatchesFrom(t, p), q)
    decreases |t| - p
  {
    if p < |t| {
      if t[p].Some? {
        var m := t[p].value;
        var rest := MatchesFrom(t, m.end);
        MatchesFromCoverAll(t, m.end);
        var ms := [m] + rest;
        assert MatchesFrom(t, p) == ms;
        assert ms[1..] == rest;
      } else {
        assert MatchesFrom(t, p) == MatchesFrom(t, p + 1);
        MatchesFromCoverAll(t, p + 1);
      }
    }
  }

  /** An APR numeral as the pattern captures it: one or two digits, a dot,
      one or two digits. */
  predicate IsAprNumeral(t: string) {
    3 <= |t| <= 5
    && var i := if t[1] == '.' then 1 else 2;
    t[i] == '.' && AllDigits(t[..i]) && AllDigits(t[i + 1..]) && 1 <= |t| - i - 1 <= 2
  }

  /** `float(t)` in hundredths, exact for an APR numeral: "6.49" is 649 and
      "5.5" is 550. */
  function Hundredths(t: string): (h: nat)
    requires IsAprNumeral(t)
    ensures h < 10000
  {
    var i := if t[1] == '.' then 1 else 2;
    var whole := DecimalValue(t[..i]);
    var frac := DecimalValue(t[i + 1..]);
    assert whole < 100 by { TwoDigitsBound(t[..i]); }
    assert frac < 100 && (|t| - i - 1 == 1 ==> frac < 10) by { TwoDigitsBound(t[i + 1..]); }
    whole * 100 + (if |t| - i - 1 == 1 then 10 * frac else frac)
  }

  lemma TwoDigitsBound(t: string)
    requires AllDigits(t) && |t| <= 2
    ensures DecimalValue(t) < 100
    ensures |t| <= 1 ==> DecimalValue(t) < 10
  {
    if |t| == 2 {
      assert DecimalValue(t[..1]) < 10 by { assert t[..1][..0] == []; }
    }
  }

  /** The text a match captures is an APR numeral. */
  lemma MatchNumeral(s: string, m: AprMatch)
    requires ValidMatch(s, m)
    ensures IsAprNumeral(s[m.start..m.fracEnd])
  {
    var t := s[m.start..m.fracEnd];
    var i := m.dot - m.start;
    assert IsAprMatch(s, m.start, m.dot, m.fracEnd, m.end - 1);
    assert s[m.dot] == '.';
    assert t[i] == s[m.dot];
    assert 1 <= i <= 2 && 3 <= |t| <= 5;
    if i == 2 {
      assert t[1] == s[m.start + 1];
      assert IsDigit(s[m.start + 1]);
      assert t[1] != '.';
    }
    assert t[..i] == s[m.start..m.dot];
    assert t[i + 1..] == s[m.dot + 1..m.fracEnd];
  }

  /** `apr_pattern.findall(s)`: the captured numerals of the matches. */
  function FindAll(s: string): (r: seq<string>)
    ensures forall k :: 0 <= k < |r| ==> IsAprNumeral(r[k])
  {
    var ms := MatchesFrom(MatchTable(s), 0);
    MatchesFromInOrder(MatchTable(s), 0);
    forall k | 0 <= k < |ms| ensures IsAprNumeral(s[ms[k].start..ms[k].fracEnd]) {
      ChainedAt(MatchTable(s), ms, k);
      MatchAtSound(s, ms[k].start);
      MatchNumeral(s, ms[k]);
    }
    seq(|ms|, k requires 0 <= k < |ms| => s[ms[k].start..ms[k].fracEnd])
  }

  /** The matches `findall` reports in `s` are the leftmost non-overlapping
      matches of the pattern: each is the match at its start, each ends
      before the next begins, and every position where the pattern matches
      lies inside one of them. */
  lemma FindAllLeftmost(s: string)
    ensures var ms := MatchesFrom(MatchTable(s), 0);
            (forall k :: 0 <= k < |ms| ==> MatchAt(s, ms[k].start) == Some(ms[k]) && ValidMatch(s, ms[k]))
            && (forall k :: 0 <= k < |ms| - 1 ==> ms[k].end <= ms[k + 1].start)
            && (forall q :: 0 <= q < |s| && MatchAt(s, q).Some? ==> InSomeMatch(ms, q))
  {
    FoundMatchesSound(s);
    FoundMatchesCover(s);
  }

  /** Each reported match is the match at its start, and they do not overlap. */
  lemma FoundMatchesSound(s: string)
    ensures var ms := MatchesFrom(MatchTable(s), 0);
            (forall k :: 0 <= k < |ms| ==> MatchAt(s, ms[k].start) == Some(ms[k]) && ValidMatch(s, ms[k]))
            && (forall k :: 0 <= k < |ms| - 1 ==> ms[k].end <= ms[k + 1].start)
  {
    var t := MatchTable(s);
    var ms := MatchesFrom(t, 0);
    MatchesFromInOrder(t, 0);
    forall k | 0 <= k < |ms|
      ensures MatchAt(s, ms[k].start) == Some(ms[k]) && ValidMatch(s, ms[k])
      ensures k < |ms| - 1 ==> ms[k].end <= ms[k + 1].start
    {
      ChainedAt(t, ms, k);
      MatchAtSound(s, ms[k].start);
    }
  }

  /** Every position where the pattern matches lies inside a reported match. */
  lemma FoundMatchesCover(s: string)
    ensures var ms := MatchesFrom(MatchTable(s), 0);
            forall q :: 0 <= q < |s| && MatchAt(s, q).Some? ==> InSomeMatch(ms, q)
  {
    var t := MatchTable(s);
    var ms := MatchesFrom(t, 0);
    MatchesFromCoverAll(t, 0);
    forall q | 0 <= q < |s| && MatchAt(s, q).Some? ensures InSomeMatch(ms, q) {
      assert t[q].Some?;
    }
  }

  // ===========================================================================
  // APR selection

  predicate AllNumerals(cands: seq<string>) {
    forall k :: 0 <= k < |cands| ==> IsAprNumeral(cands[k])
  }

  /** `[float(a) for a in cands if float(a) < 20]`, in hundredths. */
  function Plausible(cands: seq<string>): (r: seq<nat>)
    requires AllNumerals(cands)
    ensures |r| <= |cands|
    ensures forall k :: 0 <= k < |r| ==> r[k] < 2000
  {
    if |cands| == 0 then []
    else
      var h := Hundredths(cands[|cands| - 1]);
      Plausible(cands[..|cands| - 1]) + (if h < 2000 then [h] else [])
  }

  /** `min(xs)`. */
  function MinOf(xs: seq<nat>): nat
    requires |xs| > 0
  {
    if |xs| == 1 then xs[0]
    else
      var m := MinOf(xs[..|xs| - 1]);
      if xs[|xs| - 1] < m then xs[|xs| - 1] else m
  }

  lemma {:induction false} MinOfIsLeast(xs: seq<nat>)
    requires |xs| > 0
    ensures MinOf(xs) in xs
    ensures forall k :: 0 <= k < |xs| ==> MinOf(xs) <= xs[k]
  {
    if |xs| > 1 {
      MinOfIsLeast(xs[..|xs| - 1]);
    }
  }

  /** Every candidate below 20 is kept. */
  lemma {:induction false} PlausibleKeeps(cands: seq<string>, k: nat)
    requires AllNumerals(cands) && k < |cands| && Hundredths(cands[k]) < 2000
    ensures Hundredths(cands[k]) in Plausible(cands)
  {
    var init := cands[..|cands| - 1];
    if k < |cands| - 1 {
      assert init[k] == cands[k];
      PlausibleKeeps(init, k);
    }
  }

  /** Every kept value is below 20 and is the value of a candidate. */
  lemma {:induction false} PlausibleSound(cands: seq<string>, h: nat)
    requires AllNumerals(cands) && h in Plausible(cands)
    ensures h < 2000 && exists k :: 0 <= k < |cands| && Hundredths(cands[k]) == h
  {
    var init := cands[..|cands| - 1];
    if h in Plausible(init) {
      PlausibleSound(init, h);
      var k :| 0 <= k < |init| && Hundredths(init[k]) == h;
      assert cands[k] == init[k];
    } else {
      assert Hundredths(cands[|cands| - 1]) == h;
    }
  }

  /** The selection of `detected_apr`, in hundredths. */
  function SelectApr(cands: seq<string>): (r: Option<nat>)
    requires AllNumerals(cands)
    ensures r.None? <==> |Plausible(cands)| == 0
    ensures r.Some? ==> r.value < 2000 && r.value in Plausible(cands)
  {
    if |cands| == 0 then None
    else
      var values := Plausible(cands);
      if |values| == 0 then None
      else
        MinOfIsLeast(values);
        Some(MinOf(values))
  }

  /** `detected_apr` is None iff no candidate is below 20; otherwise it is a
      candidate below 20 and no larger than any other such candidate. */
  lemma SelectAprIsLeastPlausible(cands: seq<string>)
    requires AllNumerals(cands)
    ensures SelectApr(cands).None? <==> forall k :: 0 <= k < |cands| ==> Hundredths(cands[k]) >= 2000
    ensures SelectApr(cands).Some? ==>
              SelectApr(cands).value < 2000
              && (exists k :: 0 <= k < |cands| && Hundredths(cands[k]) == SelectApr(cands).value)
              && forall k :: 0 <= k < |cands| && Hundredths(cands[k]) < 2000 ==> SelectApr(cands).value <= Hundredths(cands[k])
  {
    var values := Plausible(cands);
    if |values| > 0 {
      MinOfIsLeast(values);
      PlausibleSound(cands, MinOf(values));
      forall k | 0 <= k < |cands| && Hundredths(cands[k]) < 2000
        ensures MinOf(values) <= Hundredths(cands[k])
      {
        PlausibleKeeps(cands, k);
      }
    } else {
      forall k | 0 <= k < |cands| ensures Hundredths(cands[k]) >= 2000 {
        if Hundredths(cands[k]) < 2000 {
          PlausibleKeeps(cands, k);
        }
      }
    }
  }
}
