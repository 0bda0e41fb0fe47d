/** The language setting the web page sends, mapped to the language code
    tesseract is run with. Both OCR scripts use the same mapping. */
module Tesseract {
  import Python

  /** What tesseract reads from the image of page `i` (0-based) of the PDF
      when run with the given language code: the text, or the exception it
      raised. How the page image was obtained is up to the caller. */
  type Ocr = (nat, string) -> Python.Attempt<string>

  const TraditionalChinese := "traditional-chinese"

  /** "traditional-chinese" selects tesseract's Traditional Chinese model
      "chi_tra"; every other setting, including "english" and the empty
      string, falls back to English, "eng". */
  function LanguageCode(language: string): (code: string)
    ensures code == "chi_tra" <==> language == TraditionalChinese
    ensures code == "eng" <==> language != TraditionalChinese
  {
    if language == TraditionalChinese then "chi_tra" else "eng"
  }
}
