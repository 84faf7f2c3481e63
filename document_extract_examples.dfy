/** Concrete media-type choices and reply repairs. */
module DocumentExtractExamples {
  import opened Wrappers
  import opened PyStr
  import opened DocumentExtract

  /** The image test is case-sensitive: an upper-case image type is neither
      kept nor taken for a PDF, and is sent as JPEG. */
  lemma UpperCaseImageIsJpeg()
    ensures MediaType("IMAGE/PNG") == "image/jpeg"
  {
    var ct := "IMAGE/PNG";
    assert ct[0] == 'I';
    var l := Lower(ct);
    assert forall j :: 0 <= j < |l| ==> l[j] != 'd';
    if Contains(l, "pdf") {
      ContainsChar(l, "pdf", 1);
    }
  }

  /** A PDF type in any case is sent as "application/pdf". */
  lemma MixedCasePdfIsPdf()
    ensures MediaType("Application/PDF") == "application/pdf"
  {
    var ct := "Application/PDF";
    assert ct[0] == 'A';
    var l := Lower(ct);
    assert l[12] == 'p' && l[13] == 'd' && l[14] == 'f';
    assert OccursAt(l, "pdf", 12);
    ContainsIff(l, "pdf");
  }

  /** An image type is kept as it is. */
  lemma ImageTypeIsKept()
    ensures MediaType("image/png") == "image/png"
  {
    assert "image/png"[..5] == "image";
  }

  /** A reply fenced as markdown gives back the object inside the fence. */
  lemma FencedReplyIsRepaired()
    ensures JsonBlock("```json\n{\"a\": 1}\n```") == Some("{\"a\": 1}")
  {
    var before := "```json\n";
    var obj := "{\"a\": 1}";
    var after := "\n```";
    JsonBlockOfWrapped(before, obj, after);
    assert before + obj + after == "```json\n{\"a\": 1}\n```";
  }

  /** A '}' that only comes before the '{' gives no block. */
  lemma ReversedBracesGiveNoBlock()
    ensures JsonBlock("} {") == None
  {
    var s := "} {";
    JsonBlockIsSearch(s);
    forall i, j ensures !BraceMatch(s, i, j) {
    }
  }
}
