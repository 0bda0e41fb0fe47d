/** The earlier OCR script: every page of the PDF is rendered as an image
    and run through tesseract, with no text-layer shortcut. Rendering and
    OCR are inputs: the number of page images (or the exception rendering
    raised) and the per-page OCR outcome. */
module PageOcr {
  import opened Python
  import Text
  import Tesseract

  /** The text one page image adds: its OCR text under a numbered header,
      or a numbered error line. */
  function PageSection(i: nat, result: Attempt<string>): string {
    match result
    case Ok(t) => "--- Page " + Text.NatToString(i + 1) + " ---\n" + t + "\n\n"
    case Raised(e) => "--- Error on Page " + Text.NatToString(i + 1) + ": " + e + " ---\n\n"
  }

  /** The opening of page `i`'s section, whichever way its OCR went. */
  function SectionOpening(i: nat, result: Attempt<string>): string {
    match result
    case Ok(_) => "--- Page " + Text.NatToString(i + 1) + " ---\n"
    case Raised(_) => "--- Error on Page " + Text.NatToString(i + 1) + ": "
  }

  /** The text after the first `n` page images have been processed. */
  function Assemble(n: nat, ocr: Tesseract.Ocr, code: string): string {
    if n == 0 then "" else Assemble(n - 1, ocr, code) + PageSection(n - 1, ocr(n - 1, code))
  }

  /** One section per page image, in page order. */
  function Sections(n: nat, ocr: Tesseract.Ocr, code: string): (r: seq<string>)
    ensures |r| == n
  {
    seq(n, i requires 0 <= i < n => PageSection(i, ocr(i, code)))
  }

  /** `ocr_pdf`: an exception while rendering the pages propagates to the
      caller; otherwise each page image contributes one section, and a
      failing page contributes its error line without stopping the rest. */
  function OcrPdf(images: Attempt<nat>, ocr: Tesseract.Ocr, language: string): (r: Attempt<string>)
    ensures images.Raised? ==> r == Raised(images.message)
    ensures images == Ok(0) ==> r == Ok("")
    ensures images.Ok? ==> r.Ok? && r.value == Text.Flatten(Sections(images.value, ocr, Tesseract.LanguageCode(language)))
  {
    match images
    case Raised(e) => Raised(e)
    case Ok(n) =>
      var code := Tesseract.LanguageCode(language);
      AssembleIsFlattenedSections(n, ocr, code);
      Ok(Assemble(n, ocr, code))
  }

  /** Building the text page by page gives exactly the page sections
      concatenated in page order. */
  lemma {:induction false} AssembleIsFlattenedSections(n: nat, ocr: Tesseract.Ocr, code: string)
    ensures Assemble(n, ocr, code) == Text.Flatten(Sections(n, ocr, code))
  {
    if n > 0 {
      AssembleIsFlattenedSections(n - 1, ocr, code);
      assert Sections(n, ocr, code)[..n - 1] == Sections(n - 1, ocr, code);
    }
  }

  /** Page `i`'s section follows the sections of pages 1 .. i and opens with
      the 1-based number i + 1, as a page header or as an error line. */
  lemma PagesInOrder(n: nat, ocr: Tesseract.Ocr, code: string, i: nat)
    requires i < n
    ensures var secs := Sections(n, ocr, code);
            var out := Text.Flatten(secs);
            var start := |Text.Flatten(secs[..i])|;
            var opening := SectionOpening(i, ocr(i, code));
            start + |opening| <= |out| && out[start .. start + |opening|] == opening
  {
    var secs := Sections(n, ocr, code);
    Text.PartAt(secs, i);
    var opening := SectionOpening(i, ocr(i, code));
    match ocr(i, code) {
      case Ok(t) =>
        assert secs[i] == opening + (t + "\n\n");
      case Raised(e) =>
        assert secs[i] == opening + (e + " ---\n\n");
    }
    var start := |Text.Flatten(secs[..i])|;
    assert Text.Flatten(secs)[start .. start + |opening|] == secs[i][..|opening|];
  }

  /** Only "traditional-chinese" changes the OCR language: any two other
      settings give the same result. */
  lemma OtherLanguagesReadAsEnglish(images: Attempt<nat>, ocr: Tesseract.Ocr, language: string, other: string)
    requires language != Tesseract.TraditionalChinese && other != Tesseract.TraditionalChinese
    ensures OcrPdf(images, ocr, language) == OcrPdf(images, ocr, other)
    ensures images.Ok? ==> OcrPdf(images, ocr, language) == Ok(Text.Flatten(Sections(images.value, ocr, "eng")))
  {
  }

  /** The script's entry point, `argv` including the script name. A missing
      argument is an uncaught IndexError; a rendering failure is reported on
      standard error with status 1; otherwise the text is printed. */
  function RunScript(argv: seq<string>, images: Attempt<nat>, ocr: Tesseract.Ocr): (exit: Exit)
    ensures |argv| < 3 ==> exit.Uncaught?
    ensures |argv| >= 3 && images.Raised? ==>
              exit == Finished(1, "", "Error processing PDF: " + images.message + "\n")
    ensures |argv| >= 3 && images.Ok? ==>
              exit == Finished(0, Text.Flatten(Sections(images.value, ocr, Tesseract.LanguageCode(argv[2]))) + "\n", "")
  {
    if |argv| < 3 then Uncaught("IndexError: list index out of range")
    else
      match OcrPdf(images, ocr, argv[2])
      case Ok(text) => Finished(0, text + "\n", "")
      case Raised(e) => Finished(1, "", "Error processing PDF: " + e + "\n")
  }
}
