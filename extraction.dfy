/** How the crawler turns a fetched document into tokens (crawler.py lines
    118-123 and 146-170): the content-type classification, the text of a PDF
    assembled page by page, and the name under which a PDF is stored. Parsing
    the PDF itself is not modelled: it arrives as the outcome of each page's
    text extraction. */
module Extraction {
  import opened Wrappers
  import opened Text
  import opened Decimal

  datatype DocType = Html | Pdf | Binary

  /** The `type` value written into a document's metadata. */
  function TypeName(t: DocType): string
  {
    match t
    case Html => "html"
    case Pdf => "pdf"
    case Binary => "binary"
  }

  /** `'html' if 'html' in ctype else ('pdf' if 'pdf' in ctype else 'binary')`. */
  function Classify(ctype: string): DocType
  {
    if Contains(ctype, "html") then Html
    else if Contains(ctype, "pdf") then Pdf
    else Binary
  }

  /** The classification in terms of where the marker words occur: html wins
      over pdf, and a type naming neither is binary. */
  lemma ClassifyByOccurrence(ctype: string)
    ensures Classify(ctype) == Html <==> exists i: nat :: OccursAt(ctype, "html", i)
    ensures Classify(ctype) == Pdf <==>
      (forall i: nat :: !OccursAt(ctype, "html", i)) && exists i: nat :: OccursAt(ctype, "pdf", i)
    ensures Classify(ctype) == Binary <==>
      (forall i: nat :: !OccursAt(ctype, "html", i)) && (forall i: nat :: !OccursAt(ctype, "pdf", i))
  {
    ContainsIff(ctype, "html");
    ContainsIff(ctype, "pdf");
  }

  /** An html marker wins even when the type also names pdf. */
  lemma HtmlTakesPrecedence(ctype: string)
    requires exists i: nat :: OccursAt(ctype, "html", i)
    ensures Classify(ctype) == Html
  {
    ClassifyByOccurrence(ctype);
  }

  // ---------------------------------------------------------------------------
  // PDF text

  /** What reading one page yields: its text (`None` when the page has none,
      which reads as `''`), or an exception, after which the page is skipped. */
  datatype PageResult = PageText(text: Option<string>) | PageError

  /** The page texts kept, in page order. */
  function PageTexts(pages: seq<PageResult>): seq<string>
    decreases |pages|
  {
    if pages == [] then []
    else
      PageTexts(pages[..|pages| - 1]) +
      match pages[|pages| - 1]
      case PageText(t) => [t.GetOr("")]
      case PageError => []
  }

  /** The tokens of a PDF: those of its page texts joined with newlines, or
      none when the document could not be opened or its pages listed (`None`). */
  function PdfTokens(pages: Option<seq<PageResult>>): seq<string>
  {
    match pages
    case None => []
    case Some(ps) => Tokens(JoinWith("\n", PageTexts(ps)))
  }

  /** The page loop of crawler.py lines 158-170. */
  method ReadPdfTokens(pages: Option<seq<PageResult>>) returns (tokens: seq<string>)
    ensures tokens == PdfTokens(pages)
  {
    tokens := [];
    if pages.Some? {
      var ps := pages.value;
      var parts: seq<string> := [];
      var i := 0;
      while i < |ps|
        invariant 0 <= i <= |ps|
        invariant parts == PageTexts(ps[..i])
      {
        assert ps[..i + 1][..i] == ps[..i];
        match ps[i] {
          case PageText(t) => parts := parts + [if t.Some? then t.value else ""];
          case PageError =>
        }
        i := i + 1;
      }
      assert ps[..|ps|] == ps;
      tokens := Tokens(JoinWith("\n", parts));
    }
  }

  /** A PDF's tokens are those of its readable pages, one page after another. */
  lemma PdfTokensOfPages(ps: seq<PageResult>)
    ensures PdfTokens(Some(ps)) == TokensOfAll(PageTexts(ps))
  {
    TokensOfJoin('\n', PageTexts(ps));
  }

  lemma {:induction false} PageTextKept(ps: seq<PageResult>, k: nat)
    requires k < |ps| && ps[k].PageText?
    ensures ps[k].text.GetOr("") in PageTexts(ps)
    decreases |ps|
  {
    if k < |ps| - 1 {
      assert ps[..|ps| - 1][k] == ps[k];
      PageTextKept(ps[..|ps| - 1], k);
    }
  }

  lemma {:induction false} TokensOfAllFromPart(parts: seq<string>, part: string)
    requires part in parts && Tokens(part) != []
    ensures TokensOfAll(parts) != []
    decreases |parts|
  {
    if parts[0] != part {
      TokensOfAllFromPart(parts[1..], part);
    }
  }

  /** A failing page loses only its own text: one readable page with a word
      makes the document's token list non-empty, whatever the other pages do. */
  lemma PdfSurvivesPageErrors(ps: seq<PageResult>, k: nat)
    requires k < |ps| && ps[k].PageText? && Tokens(ps[k].text.GetOr("")) != []
    ensures PdfTokens(Some(ps)) != []
  {
    PdfTokensOfPages(ps);
    PageTextKept(ps, k);
    TokensOfAllFromPart(PageTexts(ps), ps[k].text.GetOr(""));
  }

  // ---------------------------------------------------------------------------
  // Stored file names

  /** `os.path.join(dir, name)` on a POSIX system. */
  function JoinPath(dir: string, name: string): (r: string)
    ensures |r| >= |name|
  {
    if |name| > 0 && name[0] == '/' then name
    else if dir == "" || dir[|dir| - 1] == '/' then dir + name
    else dir + "/" + name
  }

  /** `f"doc_{seq}{ext}"`, the file name `save_bin` writes to. */
  function SaveBinName(seqNo: nat, ext: string): string
  {
    "doc_" + NatToString(seqNo) + ext
  }

  lemma CancelAround(p: string, x: string, y: string, q: string)
    requires p + x + q == p + y + q
    ensures x == y
  {
    assert |x| == |y|;
    assert x == (p + x + q)[|p|..|p| + |x|];
    assert y == (p + y + q)[|p|..|p| + |y|];
  }

  /** Documents with different sequence numbers are stored under different
      paths, so within one crawl no stored file is overwritten. */
  lemma SaveBinPathsDistinct(dir: string, m: nat, n: nat, ext: string)
    requires m != n
    ensures JoinPath(dir, SaveBinName(m, ext)) != JoinPath(dir, SaveBinName(n, ext))
  {
    var a, b := SaveBinName(m, ext), SaveBinName(n, ext);
    if JoinPath(dir, a) == JoinPath(dir, b) {
      assert a[0] == 'd' && b[0] == 'd';
      if dir == "" || dir[|dir| - 1] == '/' {
        assert dir + a + "" == dir + b + "";
        CancelAround(dir, a, b, "");
      } else {
        assert (dir + "/") + a + "" == (dir + "/") + b + "";
        CancelAround(dir + "/", a, b, "");
      }
      assert "doc_" + NatToString(m) + ext == "doc_" + NatToString(n) + ext;
      CancelAround("doc_", NatToString(m), NatToString(n), ext);
      NatToStringInjective(m, n);
    }
  }
}
