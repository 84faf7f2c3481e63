/** The region classifier of the deal-audit route and its scan of an address
    for a two-letter state code. */
module RatingRegions {
  import opened Wrappers
  import opened PyStr

  // ===========================================================================
  // Region classifier

  /** A two-letter code, as its two characters. */
  type Code = (char, char)

  /** `code in codes` for a string `code` and a set of two-letter codes. */
  predicate InCodes(code: string, codes: set<Code>) {
    |code| == 2 && (code[0], code[1]) in codes
  }

  function CodeSet(codes: seq<Code>): set<Code> {
    set c | c in codes
  }

  const WestList: seq<Code> :=
    [('A','K'), ('A','Z'), ('C','A'), ('C','O'), ('H','I'), ('I','D'), ('M','T'), ('N','V'),
     ('N','M'), ('O','R'), ('U','T'), ('W','A'), ('W','Y')]
  const SouthList: seq<Code> :=
    [('A','L'), ('A','R'), ('F','L'), ('G','A'), ('K','Y'), ('L','A'), ('M','S'), ('N','C'),
     ('O','K'), ('S','C'), ('T','N'), ('T','X'), ('V','A'), ('W','V'), ('D','C')]
  const NorthList: seq<Code> :=
    [('C','T'), ('D','E'), ('I','L'), ('I','N'), ('I','A'), ('K','S'), ('M','E'), ('M','D'),
     ('M','A'), ('M','I'), ('M','N'), ('M','O'), ('N','E'), ('N','H'), ('N','J'), ('N','Y'),
     ('N','D'), ('O','H'), ('P','A'), ('R','I'), ('S','D'), ('V','T'), ('W','I')]

  const WestStates: set<Code> := CodeSet(WestList)
  const SouthStates: set<Code> := CodeSet(SouthList)
  const NorthStates: set<Code> := CodeSet(NorthList)

  const OutsideUs: string := "Outside US"
  const RegionLabels: set<string> := {"West", "South", "North", "East", OutsideUs}

  /** `categorize_region`: None or "" is "Outside US"; any other string is
      upper-cased and stripped and looked up in the three sets in turn, and
      falls through to "East". */
  function CategorizeRegion(stateCode: Option<string>): (r: string)
    ensures r in RegionLabels
    ensures r == OutsideUs <==> stateCode == None || stateCode == Some("")
  {
    if stateCode == None || stateCode == Some("") then OutsideUs
    else
      var key := Strip(Upper(stateCode.value));
      if InCodes(key, WestStates) then "West"
      else if InCodes(key, SouthStates) then "South"
      else if InCodes(key, NorthStates) then "North"
      else "East"
  }

  predicate Distinct(codes: seq<Code>) {
    forall i, j :: 0 <= i < j < |codes| ==> codes[i] != codes[j]
  }

  lemma {:induction false} CardOfDistinct(codes: seq<Code>)
    requires Distinct(codes)
    ensures |CodeSet(codes)| == |codes|
  {
    if |codes| > 0 {
      CardOfDistinct(codes[1..]);
      assert CodeSet(codes) == CodeSet(codes[1..]) + {codes[0]};
    }
  }

  lemma WestHas13()
    ensures |WestStates| == 13
  {
    assert Distinct(WestList);
    CardOfDistinct(WestList);
  }

  lemma SouthHas15()
    ensures |SouthStates| == 15
  {
    assert Distinct(SouthList);
    CardOfDistinct(SouthList);
  }

  lemma NorthHas23()
    ensures |NorthStates| == 23
  {
    NorthRows0To2();
    NorthRows2To4();
    NorthRows4To7();
    NorthRows7To10();
    NorthRows10To15();
    NorthRows15To23();
    assert Distinct(NorthList);
    CardOfDistinct(NorthList);
  }

  /** The codes in rows `lo` to `hi` of `codes` differ from every later one. */
  predicate DistinctRows(codes: seq<Code>, lo: nat, hi: nat) {
    forall i, j :: lo <= i < hi && i < j < |codes| ==> codes[i] != codes[j]
  }

  // The NorthRows lemmas only split the distinctness of the North list into
  // chunks, so that each proof stays small for the solver.

  lemma NorthRows0To2()
    ensures DistinctRows(NorthList, 0, 2)
  {
  }

  lemma NorthRows2To4()
    ensures DistinctRows(NorthList, 2, 4)
  {
  }

  lemma NorthRows4To7()
    ensures DistinctRows(NorthList, 4, 7)
  {
  }

  lemma NorthRows7To10()
    ensures DistinctRows(NorthList, 7, 10)
  {
  }

  lemma NorthRows10To15()
    ensures DistinctRows(NorthList, 10, 15)
  {
  }

  lemma NorthRows15To23()
    ensures DistinctRows(NorthList, 15, 23)
  {
  }

  lemma WestSouthDisjoint()
    ensures WestStates !! SouthStates
  {
    assert forall i, j :: 0 <= i < |WestList| && 0 <= j < |SouthList| ==> WestList[i] != SouthList[j];
  }

  lemma WestNorthDisjoint()
    ensures WestStates !! NorthStates
  {
    assert forall i, j :: 0 <= i < |WestList| && 0 <= j < |NorthList| ==> WestList[i] != NorthList[j];
  }

  lemma SouthNorthDisjoint()
    ensures SouthStates !! NorthStates
  {
    assert forall i, j :: 0 <= i < |SouthList| && 0 <= j < |NorthList| ==> SouthList[i] != NorthList[j];
  }

  lemma StateSetsDisjoint()
    ensures WestStates !! SouthStates && WestStates !! NorthStates && SouthStates !! NorthStates
  {
    WestSouthDisjoint();
    WestNorthDisjoint();
    SouthNorthDisjoint();
  }

  /** The three sets are pairwise disjoint and hold 13 + 15 + 23 = 51 codes:
      the fifty states and DC. */
  lemma StateSetsPartition()
    ensures WestStates !! SouthStates && WestStates !! NorthStates && SouthStates !! NorthStates
    ensures |WestStates| == 13 && |SouthStates| == 15 && |NorthStates| == 23
    ensures |WestStates + SouthStates + NorthStates| == 51
  {
    WestHas13();
    SouthHas15();
    NorthHas23();
    StateSetsDisjoint();
  }

  /** A code that is already upper-case and has no whitespace is its own key. */
  lemma {:induction false} KeyOfPlainCode(s: string)
    requires forall i :: 0 <= i < |s| ==> IsUpperAscii(s[i])
    ensures Strip(Upper(s)) == s
  {
    assert Upper(s) == s;
    StripOfTrimmed(s);
  }

  lemma CodesAreUpperCase()
    ensures forall i :: 0 <= i < |WestList| ==> IsUpperAscii(WestList[i].0) && IsUpperAscii(WestList[i].1)
    ensures forall i :: 0 <= i < |SouthList| ==> IsUpperAscii(SouthList[i].0) && IsUpperAscii(SouthList[i].1)
    ensures forall i :: 0 <= i < |NorthList| ==> IsUpperAscii(NorthList[i].0) && IsUpperAscii(NorthList[i].1)
  {
  }

  /** Every member of a set is classified under that set's label. */
  lemma MembersGetTheirLabel(code: Code)
    ensures code in WestStates ==> CategorizeRegion(Some([code.0, code.1])) == "West"
    ensures code in SouthStates ==> CategorizeRegion(Some([code.0, code.1])) == "South"
    ensures code in NorthStates ==> CategorizeRegion(Some([code.0, code.1])) == "North"
  {
    var s := [code.0, code.1];
    CodesAreUpperCase();
    if code in WestStates || code in SouthStates || code in NorthStates {
      assert IsUpperAscii(code.0) && IsUpperAscii(code.1);
      KeyOfPlainCode(s);
      assert (s[0], s[1]) == code;
      StateSetsDisjoint();
    }
  }

  /** For a non-empty input only `upper(strip(s))` matters, so case and
      surrounding whitespace never change the label; an input that strips to
      nothing still counts as a (non-empty) unknown code. */
  lemma {:induction false} CategorizeUsesNormalizedKey(s: string, t: string)
    requires s != [] && t != []
    requires Upper(Strip(s)) == Upper(Strip(t))
    ensures CategorizeRegion(Some(s)) == CategorizeRegion(Some(t))
  {
    UpperStripCommute(s);
    UpperStripCommute(t);
    assert Strip(Upper(s)) == Strip(Upper(t));
  }

  /** Any non-empty string outside the three sets, "XX" or " " included, is
      "East" and never "Outside US". */
  lemma UnknownCodesAreEast(s: string)
    requires s != []
    requires !InCodes(Strip(Upper(s)), WestStates + SouthStates + NorthStates)
    ensures CategorizeRegion(Some(s)) == "East"
  {
  }

  // ===========================================================================
  // State code in an address

  /** The alternation of the address pattern,
      `A[KLRZ]|C[AOT]|D[CE]|FL|GA|HI|I[ADLN]|K[SY]|LA|M[ADEINOST]|N[CDEHJMVY]|O[HKR]|P[AR]|RI|S[CD]|T[NX]|UT|V[AIT]|W[AIVY]`:
      for each first letter, the second letters it admits. */
  function SecondLetters(first: char): string {
    match first
    case 'A' => "KLRZ"
    case 'C' => "AOT"
    case 'D' => "CE"
    case 'F' => "L"
    case 'G' => "A"
    case 'H' => "I"
    case 'I' => "ADLN"
    case 'K' => "SY"
    case 'L' => "A"
    case 'M' => "ADEINOST"
    case 'N' => "CDEHJMVY"
    case 'O' => "HKR"
    case 'P' => "AR"
    case 'R' => "I"
    case 'S' => "CD"
    case 'T' => "NX"
    case 'U' => "T"
    case 'V' => "AIT"
    case 'W' => "AIVY"
    case _ => ""
  }

  predicate PatternAccepts(code: Code) {
    code.1 in SecondLetters(code.0)
  }

  lemma WestArePatternCodes()
    ensures forall i :: 0 <= i < |WestList| ==> PatternAccepts(WestList[i])
  {
  }

  lemma SouthArePatternCodes()
    ensures forall i :: 0 <= i < |SouthList| ==> PatternAccepts(SouthList[i])
  {
  }

  lemma NorthArePatternCodes()
    ensures forall i :: 0 <= i < |NorthList| ==> PatternAccepts(NorthList[i])
  {
  }

  /** Every classified code is accepted by the address pattern. */
  lemma StatesArePatternCodes()
    ensures forall i :: 0 <= i < |WestList| ==> PatternAccepts(WestList[i])
    ensures forall i :: 0 <= i < |SouthList| ==> PatternAccepts(SouthList[i])
    ensures forall i :: 0 <= i < |NorthList| ==> PatternAccepts(NorthList[i])
  {
    WestArePatternCodes();
    SouthArePatternCodes();
    NorthArePatternCodes();
  }

  /** The address pattern accepts only classified codes, PR and VI. */
  lemma PatternCodesAreStatesOrTerritories(code: Code)
    requires PatternAccepts(code)
    ensures code in WestStates || code in SouthStates || code in NorthStates || code == ('P','R') || code == ('V','I')
  {
    if code.0 <= 'D' {
      PatternCodesAToD(code);
    } else if code.0 <= 'K' {
      PatternCodesEToK(code);
    } else if code.0 <= 'O' {
      PatternCodesLToO(code);
    } else {
      PatternCodesPToW(code);
    }
  }

  // The PatternCodes lemmas below only split the case analysis above by first
  // letter, so that each proof stays small for the solver.

  lemma PatternCodesAToD(code: Code)
    requires PatternAccepts(code) && code.0 <= 'D'
    ensures code in WestStates || code in SouthStates || code in NorthStates || code == ('P','R') || code == ('V','I')
  {
    match code.0
    case 'A' =>
    case 'C' =>
    case 'D' =>
    case _ =>
  }

  lemma PatternCodesEToK(code: Code)
    requires PatternAccepts(code) && 'E' <= code.0 <= 'K'
    ensures code in WestStates || code in SouthStates || code in NorthStates || code == ('P','R') || code == ('V','I')
  {
    match code.0
    case 'F' =>
    case 'G' =>
    case 'H' =>
    case 'I' =>
    case 'K' =>
    case _ =>
  }

  lemma PatternCodesLToO(code: Code)
    requires PatternAccepts(code) && 'L' <= code.0 <= 'O'
    ensures code in WestStates || code in SouthStates || code in NorthStates || code == ('P','R') || code == ('V','I')
  {
    match code.0
    case 'L' =>
    case 'M' =>
    case 'N' =>
    case 'O' =>
    case _ =>
  }

  lemma PatternCodesPToW(code: Code)
    requires PatternAccepts(code) && 'P' <= code.0
    ensures code in WestStates || code in SouthStates || code in NorthStates || code == ('P','R') || code == ('V','I')
  {
    match code.0
    case 'P' =>
    case 'R' =>
    case 'S' =>
    case 'T' =>
    case 'U' =>
    case 'V' =>
    case 'W' =>
    case _ =>
  }

  /** `\b` at position k of u: exactly one side of k is a word character. */
  predicate IsBoundary(u: string, k: nat)
    requires k <= |u|
  {
    (k > 0 && IsWordChar(u[k - 1])) != (k < |u| && IsWordChar(u[k]))
  }

  /** The pattern `\b(...)\b` matches the two characters at position i. */
  predicate CodeAt(u: string, i: nat)
    requires i + 2 <= |u|
  {
    IsBoundary(u, i) && PatternAccepts((u[i], u[i + 1])) && IsBoundary(u, i + 2)
  }

  /** `re.search` from position i: the leftmost position at which the
      pattern matches. */
  function SearchPos(u: string, i: nat): (r: Option<nat>)
    requires i <= |u|
    decreases |u| - i
    ensures r.Some? ==> i <= r.value && r.value + 2 <= |u| && CodeAt(u, r.value)
    ensures r.Some? ==> forall j :: i <= j < r.value ==> !CodeAt(u, j)
    ensures r.None? ==> forall k :: i <= k && k + 2 <= |u| ==> !CodeAt(u, k)
  {
    if i + 2 > |u| then None
    else if CodeAt(u, i) then Some(i)
    else SearchPos(u, i + 1)
  }

  /** The text `re.search(...).group()` returns from position i. */
  function SearchCode(u: string, i: nat): (r: Option<string>)
    requires i <= |u|
    ensures r.Some? ==> |r.value| == 2 && PatternAccepts((r.value[0], r.value[1]))
    ensures r.Some? ==>
      exists k :: i <= k && k + 2 <= |u| && CodeAt(u, k) && r.value == u[k..k + 2] &&
        forall j :: i <= j < k ==> !CodeAt(u, j)
    ensures r.None? ==> forall k :: i <= k && k + 2 <= |u| ==> !CodeAt(u, k)
  {
    match SearchPos(u, i)
    case None => None
    case Some(k) =>
      var code := u[k..k + 2];
      assert code[0] == u[k] && code[1] == u[k + 1];
      Some(code)
  }

  /** `extract_state_from_address`: None for None or "", otherwise the
      leftmost code of the upper-cased address that stands between word
      boundaries. */
  function ExtractStateFromAddress(address: Option<string>): (r: Option<string>)
    ensures address == None || address == Some("") ==> r == None
    ensures r.Some? ==> |r.value| == 2 && PatternAccepts((r.value[0], r.value[1]))
  {
    if address == None || address == Some("") then None
    else SearchCode(Upper(address.value), 0)
  }

  /** For a non-empty address the result is the leftmost pattern match in the
      upper-cased text, and None exactly when nothing matches. */
  lemma ExtractStateIsLeftmostMatch(address: string)
    requires address != []
    ensures var u := Upper(address);
            var r := ExtractStateFromAddress(Some(address));
            && (r.Some? ==> exists k :: 0 <= k && k + 2 <= |u| && CodeAt(u, k) && r.value == u[k..k + 2] &&
                                         forall j :: 0 <= j < k ==> !CodeAt(u, j))
            && (r.None? <==> forall k :: 0 <= k && k + 2 <= |u| ==> !CodeAt(u, k))
  {
    var u := Upper(address);
    var r := SearchCode(u, 0);
    if r.Some? {
      var k :| 0 <= k && k + 2 <= |u| && CodeAt(u, k) && r.value == u[k..k + 2] &&
               forall j :: 0 <= j < k ==> !CodeAt(u, j);
    }
  }
}
