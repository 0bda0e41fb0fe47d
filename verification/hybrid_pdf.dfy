/** The backend extraction script: PDFs are read page by page, taking a
    page's own text layer when it has enough text and falling back to OCR
    otherwise; .docx and .txt files go to their own readers. The libraries
    (PyPDF2, pdf2image, pytesseract, python-docx, file reading) are inputs:
    what they would return, or the exception they would raise. */
module HybridPdf {
  import opened Python
  import Text
  import Tesseract

  /** What PyPDF2 reports for a file: opening it raised, or, for each page
      in order, the result of extracting that page's text. */
  datatype PdfFile = PdfFile(pages: Attempt<seq<Attempt<string>>>)

  /** A page's text layer is used only when it has more than this many
      characters once surrounding whitespace is stripped. */
  const MinTextLayerLength := 20

  const TextLayer := "Text Layer"
  const OcrFallback := "OCR Fallback"

  predicate UsesTextLayer(pageText: string) {
    pageText != "" && |Strip(pageText)| > MinTextLayerLength
  }

  /** The text layer is used exactly when some two non-whitespace characters
      of the page text lie 20 or more positions apart, i.e. the stripped
      text, which runs from the first to the last of them, is over 20 long. */
  lemma TextLayerThreshold(pageText: string)
    ensures UsesTextLayer(pageText) <==>
      exists i, j :: 0 <= i <= j < |pageText| && j - i >= MinTextLayerLength
                     && !IsSpace(pageText[i]) && !IsSpace(pageText[j])
  {
    var lo, hi := StripIsSlice(pageText);
    if UsesTextLayer(pageText) {
      assert lo <= hi - 1 < |pageText| && hi - 1 - lo >= MinTextLayerLength
        && !IsSpace(pageText[lo]) && !IsSpace(pageText[hi - 1]);
    }
    if exists i, j :: 0 <= i <= j < |pageText| && j - i >= MinTextLayerLength
                      && !IsSpace(pageText[i]) && !IsSpace(pageText[j]) {
      var i, j :| 0 <= i <= j < |pageText| && j - i >= MinTextLayerLength
                  && !IsSpace(pageText[i]) && !IsSpace(pageText[j]);
      assert lo <= i && j < hi;
    }
  }

  /** The line that opens the section of 0-based page `i`; pages are
      numbered from 1. */
  function SectionHeader(i: nat, source: string): string {
    "--- Page " + Text.NatToString(i + 1) + " (" + source + ") ---\n"
  }

  /** Which way a page's text was obtained, as its header names it. */
  function Source(pageText: string): string {
    if UsesTextLayer(pageText) then TextLayer else OcrFallback
  }

  /** What follows a page's header: the text layer, or the OCR text, or the
      OCR error. */
  function SectionBody(pageText: string, ocr: Attempt<string>): string {
    if UsesTextLayer(pageText) then pageText + "\n\n"
    else
      match ocr
      case Ok(t) => t + "\n\n"
      case Raised(e) => "OCR failed for this page: " + e + "\n\n"
  }

  /** The text one page adds to the output. */
  function PageSection(i: nat, pageText: string, ocr: Attempt<string>): string {
    SectionHeader(i, Source(pageText)) + SectionBody(pageText, ocr)
  }

  /** One section per page, in page order. */
  function Sections(texts: seq<string>, ocr: Tesseract.Ocr, code: string): (r: seq<string>)
    ensures |r| == |texts|
  {
    seq(|texts|, i requires 0 <= i < |texts| => PageSection(i, texts[i], ocr(i, code)))
  }

  /** The index of the first page whose text could not be extracted, or the
      page count when every page's could. */
  function FirstRaised(pages: seq<Attempt<string>>): (k: nat)
    ensures k <= |pages|
    ensures forall i :: 0 <= i < k ==> pages[i].Ok?
    ensures k < |pages| ==> pages[k].Raised?
  {
    if |pages| == 0 || pages[0].Raised? then 0 else 1 + FirstRaised(pages[1..])
  }

  /** The extracted texts of the first `n` pages. */
  function TextsUpTo(pages: seq<Attempt<string>>, n: nat): (r: seq<string>)
    requires n <= |pages| && forall i :: 0 <= i < n ==> pages[i].Ok?
    ensures |r| == n && forall i :: 0 <= i < n ==> r[i] == pages[i].value
  {
    seq(n, i requires 0 <= i < n => pages[i].value)
  }

  function ErrorText(message: string): string {
    "Error processing PDF file: " + message
  }

  /** The result of the extraction as one expression: any exception outside
      the per-page OCR discards what was gathered and yields only the error
      line; otherwise the page sections, concatenated. */
  function HybridText(file: PdfFile, language: string, ocr: Tesseract.Ocr): string {
    match file.pages
    case Raised(e) => ErrorText(e)
    case Ok(pages) =>
      var k := FirstRaised(pages);
      if k < |pages| then ErrorText(pages[k].message)
      else Text.Flatten(Sections(TextsUpTo(pages, |pages|), ocr, Tesseract.LanguageCode(language)))
  }

  lemma SectionsStep(pages: seq<Attempt<string>>, i: nat, ocr: Tesseract.Ocr, code: string)
    requires i < |pages| && forall k :: 0 <= k <= i ==> pages[k].Ok?
    ensures Sections(TextsUpTo(pages, i + 1), ocr, code)
         == Sections(TextsUpTo(pages, i), ocr, code) + [PageSection(i, pages[i].value, ocr(i, code))]
  {
    var more := TextsUpTo(pages, i + 1);
    var fewer := TextsUpTo(pages, i);
    var longer := Sections(more, ocr, code);
    var shorter := Sections(fewer, ocr, code);
    var extended := shorter + [PageSection(i, pages[i].value, ocr(i, code))];
    assert |longer| == |extended| == i + 1;
    forall k | 0 <= k < i + 1
      ensures longer[k] == extended[k]
    {
      assert more[k] == pages[k].value;
      assert longer[k] == PageSection(k, more[k], ocr(k, code));
      if k < i {
        assert fewer[k] == pages[k].value;
        assert shorter[k] == PageSection(k, fewer[k], ocr(k, code));
      }
    }
  }

  lemma AppendSection(pages: seq<Attempt<string>>, i: nat, ocr: Tesseract.Ocr, code: string)
    requires i < |pages| && forall k :: 0 <= k <= i ==> pages[k].Ok?
    ensures Text.Flatten(Sections(TextsUpTo(pages, i + 1), ocr, code))
         == Text.Flatten(Sections(TextsUpTo(pages, i), ocr, code)) + PageSection(i, pages[i].value, ocr(i, code))
  {
    var next := Sections(TextsUpTo(pages, i + 1), ocr, code);
    SectionsStep(pages, i, ocr, code);
    Text.FlattenStep(next, i);
    assert next[..i + 1] == next;
    assert next[..i] == Sections(TextsUpTo(pages, i), ocr, code);
  }

  /** The body of the page loop: the page's section is appended, its text
      layer when that has enough text, else the OCR text or the OCR error. */
  method AddPage(fullText: string, i: nat, pageText: string, ocrResult: Attempt<string>) returns (r: string)
    ensures r == fullText + PageSection(i, pageText, ocrResult)
  {
    if UsesTextLayer(pageText) {
      r := fullText + (SectionHeader(i, TextLayer) + (pageText + "\n\n"));
    } else {
      r := fullText + SectionHeader(i, OcrFallback);
      match ocrResult {
        case Ok(ocrText) =>
          r := r + (ocrText + "\n\n");
        case Raised(ocrError) =>
          r := r + ("OCR failed for this page: " + ocrError + "\n\n");
      }
    }
  }

  /** The page loop: the text is built up one page section at a time; an
      exception while reading the file or a page's text ends the loop and
      the function returns only the error line; an OCR exception is
      recorded in that page's section and the loop goes on. */
  method ExtractTextFromPdfHybrid(file: PdfFile, language: string, ocr: Tesseract.Ocr) returns (fullText: string)
    ensures fullText == HybridText(file, language, ocr)
    ensures file.pages.Raised? ==> fullText == ErrorText(file.pages.message)
    ensures file.pages.Ok? && FirstRaised(file.pages.value) < |file.pages.value| ==>
              fullText == ErrorText(file.pages.value[FirstRaised(file.pages.value)].message)
    ensures file.pages.Ok? && FirstRaised(file.pages.value) == |file.pages.value| ==>
              var pages := file.pages.value;
              var secs := Sections(TextsUpTo(pages, |pages|), ocr, Tesseract.LanguageCode(language));
              |secs| == |pages| && fullText == Text.Flatten(secs)
  {
    fullText := "";
    if file.pages.Raised? {
      return ErrorText(file.pages.message);
    }
    var pages := file.pages.value;
    var code := Tesseract.LanguageCode(language);
    var i := 0;
    while i < |pages|
      invariant 0 <= i <= |pages|
      invariant forall k :: 0 <= k < i ==> pages[k].Ok?
      invariant fullText == Text.Flatten(Sections(TextsUpTo(pages, i), ocr, code))
    {
      if pages[i].Raised? {
        assert FirstRaised(pages) == i;
        return ErrorText(pages[i].message);
      }
      fullText := AddPage(fullText, i, pages[i].value, ocr(i, code));
      AppendSection(pages, i, ocr, code);
      i := i + 1;
    }
    assert FirstRaised(pages) == |pages|;
  }

  /** Page `i`'s section sits in the output right after the sections of
      pages 1 .. i, and opens with the header carrying the 1-based number
      i + 1 and the path the page took. */
  lemma PageSectionsInOrder(texts: seq<string>, ocr: Tesseract.Ocr, code: string, i: nat)
    requires i < |texts|
    ensures var secs := Sections(texts, ocr, code);
            var out := Text.Flatten(secs);
            var start := |Text.Flatten(secs[..i])|;
            var header := SectionHeader(i, Source(texts[i]));
            start + |header| <= |out| && out[start .. start + |header|] == header
  {
    var secs := Sections(texts, ocr, code);
    Text.PartAt(secs, i);
    var start := |Text.Flatten(secs[..i])|;
    var header := SectionHeader(i, Source(texts[i]));
    var body := SectionBody(texts[i], ocr(i, code));
    assert secs[i] == header + body;
    assert secs[i][..|header|] == header;
    Text.PrefixAt(Text.Flatten(secs), start, secs[i], header);
  }

  /** An OCR failure stays on its page: the failing page's section records
      the error, and every other page's section is what it would have been
      had the OCR of that page succeeded. */
  lemma OcrFailureIsLocal(texts: seq<string>, ocr: Tesseract.Ocr, other: Tesseract.Ocr, code: string, j: nat)
    requires j < |texts| && !UsesTextLayer(texts[j]) && ocr(j, code).Raised?
    requires forall i :: 0 <= i < |texts| && i != j ==> ocr(i, code) == other(i, code)
    ensures |Sections(texts, ocr, code)| == |Sections(texts, other, code)| == |texts|
    ensures Sections(texts, ocr, code)[j]
         == SectionHeader(j, OcrFallback) + "OCR failed for this page: " + ocr(j, code).message + "\n\n"
    ensures forall i :: 0 <= i < |texts| && i != j ==>
              Sections(texts, ocr, code)[i] == Sections(texts, other, code)[i]
  {
  }

  /** The .docx reader: the paragraphs joined by newlines, or an error
      line when the document cannot be read. A document with no paragraphs
      reads as "". */
  function ExtractDocx(paragraphs: Attempt<seq<string>>): (r: string)
    ensures paragraphs.Ok? ==> r == Text.Join("\n", paragraphs.value)
    ensures paragraphs == Ok([]) ==> r == ""
    ensures paragraphs.Raised? ==> r == "Error reading DOCX file: " + paragraphs.message
  {
    match paragraphs
    case Ok(ps) =>
      Text.Join("\n", ps)
    case Raised(e) => "Error reading DOCX file: " + e
  }

  /** The .txt reader: the text `f.read()` returns, or an error line when
      the file cannot be opened or read. `contents` is that text after the
      file layer's work: UTF-8 decoding with undecodable bytes dropped, and
      "\r\n" and "\r" translated to "\n". The reader adds nothing further. */
  function ExtractTxt(contents: Attempt<string>): (r: string)
    ensures contents.Ok? ==> r == contents.value
    ensures contents.Raised? ==> r == "Error reading TXT file: " + contents.message
  {
    match contents
    case Ok(s) => s
    case Raised(e) => "Error reading TXT file: " + e
  }

  datatype Extractor = PdfHybrid | Docx | PlainText | NoExtractor

  /** The reader chosen by the file's extension, compared case-insensitively. */
  function ChooseExtractor(path: string): (e: Extractor)
    ensures e == PdfHybrid <==> Lower(Extension(path)) == ".pdf"
    ensures e == Docx <==> Lower(Extension(path)) == ".docx"
    ensures e == PlainText <==> Lower(Extension(path)) == ".txt"
    ensures e == NoExtractor <==> Lower(Extension(path)) !in {".pdf", ".docx", ".txt"}
  {
    var ext := Lower(Extension(path));
    if ext == ".pdf" then PdfHybrid
    else if ext == ".docx" then Docx
    else if ext == ".txt" then PlainText
    else NoExtractor
  }

  /** For a file name whose final component has a character other than '.'
      before its last dot, the reader depends only on the lowercased text
      after that dot: "Report.PDF" and "a..pdf" go to the PDF reader, and
      "notes.md" to none. */
  lemma ChooseByNameSuffix(stem: string, ext: string)
    requires exists k :: 0 <= k < |stem| && stem[k] != '.' && stem[k] != '/'
                         && forall m :: k < m < |stem| ==> stem[m] != '/'
    requires forall k :: 0 <= k < |ext| ==> ext[k] != '.' && ext[k] != '/'
    ensures ChooseExtractor(stem + "." + ext) ==
      if Lower(ext) == "pdf" then PdfHybrid
      else if Lower(ext) == "docx" then Docx
      else if Lower(ext) == "txt" then PlainText
      else NoExtractor
  {
    var low := Lower(ext);
    assert Lower(Extension(stem + "." + ext)) == "." + low by {
      ExtensionOfName(stem, ext);
      LowerAfterDot(ext);
    }
    assert "." + low == ".pdf" <==> low == "pdf" by {
      assert ("." + low)[1..] == low && ".pdf"[1..] == "pdf";
    }
    assert "." + low == ".docx" <==> low == "docx" by {
      assert ("." + low)[1..] == low && ".docx"[1..] == "docx";
    }
    assert "." + low == ".txt" <==> low == "txt" by {
      assert ("." + low)[1..] == low && ".txt"[1..] == "txt";
    }
  }

  /** A file whose final path component is leading dots and then a name
      without a dot (".pdf", "uploads/.txt") goes to no reader. */
  lemma DotFileUnsupported(dir: string, dots: string, name: string)
    requires dir == "" || dir[|dir| - 1] == '/'
    requires |dots| > 0 && forall k :: 0 <= k < |dots| ==> dots[k] == '.'
    requires forall k :: 0 <= k < |name| ==> name[k] != '.' && name[k] != '/'
    ensures ChooseExtractor(dir + dots + name) == NoExtractor
  {
    LeadingDotsHaveNoExtension(dir, dots, name);
  }

  /** Lowercasing leaves the dot in front of an extension alone. */
  lemma LowerAfterDot(ext: string)
    ensures Lower("." + ext) == "." + Lower(ext)
  {
    assert Lower("." + ext)[0] == '.';
    forall k | 1 <= k < |ext| + 1
      ensures Lower("." + ext)[k] == Lower(ext)[k - 1]
    {
      assert ("." + ext)[k] == ext[k - 1];
    }
  }

  /** What the libraries would report for the file named on the command line. */
  datatype Library = Library(pdf: PdfFile, docx: Attempt<seq<string>>, txt: Attempt<string>, ocr: Tesseract.Ocr)

  const Usage := "Usage: python process_pdf.py <file_path> <language>"
  const Unsupported := "Unsupported file type."

  /** The script's entry point, `argv` including the script name: fewer than
      two arguments print the usage line to standard error and exit with
      status 1 without extracting anything; otherwise the text the chosen
      reader produces is printed, followed by a newline. */
  method RunScript(argv: seq<string>, lib: Library) returns (exit: Exit)
    ensures |argv| < 3 ==> exit == Finished(1, "", Usage + "\n")
    ensures |argv| >= 3 ==> exit.Finished? && exit.status == 0 && exit.stderr == ""
    ensures |argv| >= 3 ==>
      match ChooseExtractor(argv[1])
      case PdfHybrid => exit.stdout == HybridText(lib.pdf, argv[2], lib.ocr) + "\n"
      case Docx => exit.stdout == ExtractDocx(lib.docx) + "\n"
      case PlainText => exit.stdout == ExtractTxt(lib.txt) + "\n"
      case NoExtractor => exit.stdout == Unsupported + "\n"
  {
    if |argv| < 3 {
      return Finished(1, "", Usage + "\n");
    }
    var inputFilePath := argv[1];
    var inputLanguage := argv[2];
    var extractedText := "";
    var fileExtension := Lower(Extension(inputFilePath));
    if fileExtension == ".pdf" {
      extractedText := ExtractTextFromPdfHybrid(lib.pdf, inputLanguage, lib.ocr);
    } else if fileExtension == ".docx" {
      extractedText := ExtractDocx(lib.docx);
    } else if fileExtension == ".txt" {
      extractedText := ExtractTxt(lib.txt);
    } else {
      extractedText := Unsupported;
    }
    exit := Finished(0, extractedText + "\n", "");
  }
}
