/** Worked examples of the upload route's file-type check and plan. */
module RouteExamples {
  import opened Wrappers
  import opened PyStr
  import opened ExtractRoute

  /** The extension is compared in lower case, so "X.PDF" passes, and a
      single such file is sent to OCR as it is. */
  lemma UpperCaseExtensionPasses()
    ensures Extension("X.PDF") == ".pdf"
    ensures FirstUnsupported(["X.PDF"]).None?
    ensures PlanFor(["X.PDF"]) == SinglePdf("X.PDF")
  {
    assert Lower("X.PDF") == "x.pdf" by {
      var l := Lower("X.PDF");
      assert l[0] == 'x' && l[1] == '.' && l[2] == 'p' && l[3] == 'd' && l[4] == 'f';
    }
    assert AfterLast("x.pdf", '.') == "pdf" by {
      assert "x.p"[..2] == "x.";
      assert AfterLast("x.p", '.') == "p";
      assert "x.pd"[..3] == "x.p";
      assert AfterLast("x.pd", '.') == "pd";
      assert "x.pdf"[..4] == "x.pd";
    }
    assert EndsWith("x.pdf", ".pdf") by {
      assert "x.pdf"[1..] == ".pdf";
    }
  }

  /** A name without a dot is its own extension: "pdf" passes validation
      but, as its name does not end with ".pdf", is sent to the image
      converter. */
  lemma DotlessPdfIsConverted()
    ensures Extension("pdf") == ".pdf"
    ensures FirstUnsupported(["pdf"]).None?
    ensures PlanFor(["pdf"]) == ImagesToPdf(["pdf"])
  {
    assert Lower("pdf") == "pdf";
    assert AfterLast("pdf", '.') == "pdf" by {
      assert "pdf"[..2] == "pd";
      assert "pd"[..1] == "p";
      assert "p"[..0] == "";
    }
  }

  /** Only the part after the last dot counts. */
  lemma DoubleExtensionUsesLastPart()
    ensures Extension("scan.tar.gz") == ".gz"
    ensures FirstUnsupported(["a.png", "scan.tar.gz", "b.tif"]) == Some(1)
  {
    assert Lower("scan.tar.gz") == "scan.tar.gz";
    assert AfterLast("scan.tar.gz", '.') == "gz" by {
      assert "scan.tar.gz"[..10] == "scan.tar.g";
      assert "scan.tar.g"[..9] == "scan.tar.";
    }
    assert Extension("a.png") == ".png" by {
      assert Lower("a.png") == "a.png";
      assert AfterLast("a.png", '.') == "png" by {
        assert "a.png"[..4] == "a.pn";
        assert "a.pn"[..3] == "a.p";
        assert "a.p"[..2] == "a.";
      }
    }
  }
}
