/** Worked examples of the APR detector. */
module AprExamples {
  import opened Wrappers
  import opened PyStr
  import opened AprScan

  /** "6.49 %" holds one match, the whole text, whose numeral is "6.49". */
  lemma FindAllExample()
    ensures FindAll("6.49 %") == ["6.49"]
  {
    var s := "6.49 %";
    var t := MatchTable(s);
    assert DigitsAt(s, 0) == 1 && DigitsAt(s, 2) == 2;
    assert SpacesAt(s, 4) == 1 by {
      assert SpacesAt(s, 5) == 0;
    }
    assert t[0] == Some(AprMatch(0, 1, 4, 6));
    assert MatchesFrom(t, 6) == [];
    assert MatchesFrom(t, 0) == [AprMatch(0, 1, 4, 6)];
    assert s[0..4] == "6.49";
  }

  lemma Hundredths1899()
    ensures IsAprNumeral("18.99") && Hundredths("18.99") == 1899
  {
    assert "18.99"[..2] == "18" && "18.99"[3..] == "99";
    assert "18"[..1] == "1" && "99"[..1] == "9" && "1"[..0] == [] && "9"[..0] == [];
  }

  lemma Hundredths649()
    ensures IsAprNumeral("6.49") && Hundredths("6.49") == 649
  {
    assert "6.49"[..1] == "6" && "6.49"[2..] == "49";
    assert "49"[..1] == "4" && "4"[..0] == [] && "6"[..0] == [];
  }

  lemma Hundredths2500()
    ensures IsAprNumeral("25.00") && Hundredths("25.00") == 2500
  {
    assert "25.00"[..2] == "25" && "25.00"[3..] == "00";
    assert "25"[..1] == "2" && "00"[..1] == "0" && "2"[..0] == [] && "0"[..0] == [];
  }

  /** 18.99 and 6.49 are kept, 25.00 is dropped, in order. */
  lemma PlausibleExample()
    ensures AllNumerals(["18.99", "6.49", "25.00"])
    ensures Plausible(["18.99", "6.49", "25.00"]) == [1899, 649]
  {
    Hundredths1899();
    Hundredths649();
    Hundredths2500();
    var c1: seq<string> := ["18.99"];
    var c2 := c1 + ["6.49"];
    var c3 := c2 + ["25.00"];
    assert c1[..0] == [];
    assert Plausible(c1) == [1899];
    assert c2[..1] == c1;
    assert Plausible(c2) == [1899, 649];
    assert c3[..2] == c2;
    assert Plausible(c3) == [1899, 649];
    assert c3 == ["18.99", "6.49", "25.00"];
  }

  /** ["18.99", "6.49", "25.00"] selects 6.49. */
  lemma SelectAprExample()
    ensures AllNumerals(["18.99", "6.49", "25.00"])
    ensures SelectApr(["18.99", "6.49", "25.00"]) == Some(649)
  {
    PlausibleExample();
    assert MinOf([1899, 649]) == 649 by {
      assert [1899, 649][..1] == [1899];
    }
  }
}
