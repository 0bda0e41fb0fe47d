# Agentic document processor: wizard state machine and OCR text assembly

This project is a Dafny model of the two halves of a small document-processing
application:

- The web page's wizard (`src/App.jsx`). The user uploads a file and turns
  it into text: a text file is read directly, and a PDF goes through a
  simulated OCR run. The user then previews the text and runs a chain of
  agents, where each agent's input is the previous agent's output. Finally
  the agents and their outputs are exported. The page state is one immutable
  `Wizard.State` record, and each handler is a function from state to state.
  A handler that awaits is split at the await. Its Start phase runs on the
  click and returns the values the handler captured then. Its Finish phase
  runs when the await resumes. The stale-capture behaviour of the real
  closures is therefore explicit.
- The two OCR back-end scripts:
  - `server/ocr_scripts/process_pdf.py` (module `HybridPdf`) reads a PDF page
    by page. It keeps a page's text layer when that layer has more than 20
    characters once leading and trailing whitespace is stripped (whitespace
    inside the text counts), and falls back to tesseract OCR otherwise. It also
    dispatches `.docx` and `.txt` files by extension.
  - `ocr_scripts/process_pdf.py` (module `PageOcr`) OCRs every page.
  - Both map the page's language setting to a tesseract code (module
    `Tesseract`).
  - The Python behaviour they depend on is in module `Python`: exceptions,
    `str.isspace`, `str.strip`, `str.lower`, `os.path.splitext` and process
    exit. Module `Text` holds concatenation in order, `str.join`, and decimal
    rendering of page numbers.

Library calls are inputs of the model: PyPDF2's page texts, the page images,
tesseract's output and python-docx's paragraphs. Each is given as a value or
as the exception the call raised (`Python.Attempt`). Agent output text,
elapsed times, `Date.now()` and the text a FileReader returns are also
parameters.

## Model

| member | source | states |
|---|---|---|
| Text.NatToStringRoundTrip | server/ocr_scripts/process_pdf.py:51 | Reading back the decimal digits of a rendered page number gives the number again. |
| Text.NatToStringInjective | server/ocr_scripts/process_pdf.py:51 | Distinct page numbers render as distinct strings, so no two pages share a header. |
| Text.JoinStep | server/ocr_scripts/process_pdf.py:20 | `sep.join` of one part is that part, and joining one more part appends the separator and then the part. |
| Text.JoinPartAt | server/ocr_scripts/process_pdf.py:20 | In `sep.join(parts)`, the join of the parts before part i, then one separator (unless i is 0), then part i, is a prefix: every part appears whole and in order, with one separator between neighbours. |
| Text.PartAt | server/ocr_scripts/process_pdf.py:51-62 | In text built by appending parts, part i appears whole, starting right after the parts before it. |
| Python.SkipSpace | server/ocr_scripts/process_pdf.py:50 | The left scan of `strip` stops at the first non-whitespace character, or at the end, and passes over only whitespace. |
| Python.SkipSpaceBack | server/ocr_scripts/process_pdf.py:50 | The right scan of `strip` stops just after the last non-whitespace character, and passes over only whitespace. |
| Python.StripIsSlice | server/ocr_scripts/process_pdf.py:50 | `strip()` returns the slice between the first and the last non-whitespace character. Everything cut off is whitespace, and the result is empty or begins and ends with non-whitespace. |
| Python.StripIdempotent | server/ocr_scripts/process_pdf.py:50 | Stripping an already stripped string changes nothing. |
| Python.Lower | server/ocr_scripts/process_pdf.py:80 | `lower()` keeps the length and lowercases each character on its own. |
| Python.RFind | server/ocr_scripts/process_pdf.py:80 | Returns the last index holding the character (no later one holds it), or -1 when none does. |
| Python.Extension | server/ocr_scripts/process_pdf.py:80 | The extension from `splitext` is empty, or a suffix of the path that starts with '.' and has no other '.' or '/'. |
| Python.LeadingDotsHaveNoExtension | server/ocr_scripts/process_pdf.py:80 | A final path component of one or more dots and then a name without a dot (".pdf", "dir/.txt", "..docx") has the empty extension. |
| Python.ExtensionOfName | server/ocr_scripts/process_pdf.py:80 | When the stem's final path component has a character other than '.' ("report", "report.", "a/.x"), `stem.ext` has extension `.ext` exactly, case preserved. |
| Python.LowerIsPdf | server/ocr_scripts/process_pdf.py:80-82 | The lowercased extension equals ".pdf" exactly when the extension is ".pdf" with each letter in either case. |
| Tesseract.LanguageCode | server/ocr_scripts/process_pdf.py:41-43 | The code is "chi_tra" exactly when the setting is "traditional-chinese", and "eng" exactly otherwise. |
| HybridPdf.TextLayerThreshold | server/ocr_scripts/process_pdf.py:50 | A page's text layer is used exactly when two non-whitespace characters lie 20 or more positions apart. |
| HybridPdf.FirstRaised | server/ocr_scripts/process_pdf.py:45-46 | Finds the first page whose text extraction raised. Every earlier page succeeded. |
| HybridPdf.AppendSection | server/ocr_scripts/process_pdf.py:45-62 | Each pass of the page loop extends the text by exactly that page's section. |
| HybridPdf.AddPage | server/ocr_scripts/process_pdf.py:50-62 | The loop body appends the page's section: the Text Layer header and the page text, or the OCR Fallback header and then the OCR text or the OCR error. |
| HybridPdf.ExtractTextFromPdfHybrid | server/ocr_scripts/process_pdf.py:32-67 | If the file or any page's text cannot be read, the result is only the error line for the first failure. Otherwise it is the page sections concatenated in page order. |
| HybridPdf.PageSectionsInOrder | server/ocr_scripts/process_pdf.py:45-54 | Page i's section starts right after those of the earlier pages. Its header names page i+1 and the path the page took. |
| HybridPdf.OcrFailureIsLocal | server/ocr_scripts/process_pdf.py:55-62 | A failing page OCR yields the OCR Fallback header and then the error line. Every other page's section is unaffected. |
| HybridPdf.ChooseExtractor | server/ocr_scripts/process_pdf.py:80-90 | Each reader is chosen exactly when the lowercased extension is its own, and none when the extension is none of .pdf/.docx/.txt. |
| HybridPdf.ChooseByNameSuffix | server/ocr_scripts/process_pdf.py:80-90 | For a file name whose final component has a character other than '.' before its last dot, only the lowercased text after the final dot decides the reader. |
| HybridPdf.DotFileUnsupported | server/ocr_scripts/process_pdf.py:80-90 | A file named only by leading dots and an extension-like name (".pdf") goes to no reader, so it is reported as unsupported. |
| HybridPdf.ExtractDocx | server/ocr_scripts/process_pdf.py:16-22 | A readable document gives its paragraphs joined by newlines (none gives ""). A read failure gives only the "Error reading DOCX file" line with the exception's message. |
| HybridPdf.ExtractTxt | server/ocr_scripts/process_pdf.py:24-30 | The text `f.read()` returns is the result as it is; the reader adds no header or trailer. A read failure gives only the "Error reading TXT file" line with the exception's message. |
| HybridPdf.RunScript | server/ocr_scripts/process_pdf.py:71-93 | With fewer than two arguments: usage on stderr and status 1. Otherwise: the chosen reader's text and a newline on stdout, status 0. |
| PageOcr.OcrPdf | ocr_scripts/process_pdf.py:7-32 | A rendering exception propagates. No pages gives "". Otherwise the result is the page sections concatenated in order. |
| PageOcr.AssembleIsFlattenedSections | ocr_scripts/process_pdf.py:24-30 | Building the text with `+=` page by page equals joining the page sections in page order. |
| PageOcr.PagesInOrder | ocr_scripts/process_pdf.py:24-30 | Page i's section follows the earlier ones and opens with page number i+1, either as a header or as an error line. |
| PageOcr.OtherLanguagesReadAsEnglish | ocr_scripts/process_pdf.py:19-21 | Any two settings other than "traditional-chinese" give the same result, and that result is the English OCR. |
| PageOcr.RunScript | ocr_scripts/process_pdf.py:34-49 | A missing argument is an uncaught exception. A rendering error goes to stderr with status 1. Otherwise the text is printed. |
| Wizard.Initial | src/App.jsx:19-36 | The first render is on the upload step with no file, empty text, OCR method "llm", language "traditional-chinese", pages "all", no agents or outputs, five selected and the cursor at 0. That state already meets the session invariant. |
| Wizard.Mount | src/App.jsx:43-53 | The agents become exactly the five defaults of the source, each with one empty output record; nothing else changes. |
| Wizard.HandleFileUpload | src/App.jsx:56-74 | No file picked: nothing changes. Otherwise the file and its name are recorded. A PDF clears the document; any other file's text becomes the document. No other field changes. |
| Wizard.StartProcess | src/App.jsx:78-89 | No file: nothing happens. A non-PDF goes to the preview. A PDF makes the page busy, shows the notice and captures the current OCR settings. |
| Wizard.HandleProcessAndPreview | src/App.jsx:78-108 | A PDF run ends on the preview, not busy, with OCR text naming the file. Only the step, busy flag and document change. |
| Wizard.ClickProcess | src/App.jsx:240-243 | A click has an effect exactly when the button is enabled: on the upload step, with a file and its name known and the page not busy. An enabled click runs the handler. |
| Wizard.OcrInFlightBlocksProcess | src/App.jsx:240-243 | While the OCR of a PDF is in flight, a second click on the process button does nothing. |
| Wizard.UploadTextThenPreview | src/App.jsx:56-85 | Uploading a text file and pressing the button previews that file's own text. |
| Wizard.UploadPdfThenPreview | src/App.jsx:56-108 | Uploading a PDF and pressing the button previews OCR text naming the uploaded file. |
| Wizard.FileSwitchedDuringOcr | src/App.jsx:78-108 | If another file is picked during the OCR wait, the preview shows OCR text naming the old file while the new file is recorded. |
| Wizard.StartAgent | src/App.jsx:111-114 | Starting a run makes the page busy. A run is started exactly when the index names an agent. |
| Wizard.ExecuteAgent | src/App.jsx:111-129 | Only slot `index` is written, with the document (agent 0) or the previous output as input and the agent's output on it. The cursor advances only below the selected count. A bad index leaves the page busy. |
| Wizard.AgentInFlightBlocksProcess | src/App.jsx:111-112 | While an agent runs, the process button does nothing. |
| Wizard.OverlappingRunsLoseEarlierResult | src/App.jsx:121-123 | If a second run starts before the first finishes, the second run's write restores the first run's slot to its old value. |
| Wizard.RunChain | src/App.jsx:111-129 | After agents 0..k-1 run in turn, each slot holds the chain's input for that agent, that agent's output on it and its time. Later slots are untouched. From agent 0 the cursor ends on agent k, or on the last selected agent. |
| Wizard.Set | src/App.jsx:133 | The written field reads back the new value; all other fields keep theirs. |
| Wizard.UpdateAgentParam | src/App.jsx:131-135 | Only the named field of the named agent changes. An index with no agent changes nothing. |
| Wizard.ExportResults | src/App.jsx:137-143 | The record holds the file name, the time stamp, and prefixes of the agent and output lists of the selected length, with JS `slice` semantics for negative counts on both lists (counting back from the end, never below 0). |
| Wizard.ExportAfterChain | src/App.jsx:137-143 | Exporting after k selected agents have run shows each one's chain input, output and time. |
| Wizard.ExportClick | src/App.jsx:137-151 | A download happens exactly when `document` is the DOM document, and it carries the export record. |
| Wizard.ExportAsWrittenNeverDownloads | src/App.jsx:147 | As written, the export click throws and downloads nothing, whatever the state. |
| Wizard.ExportFixedDownloadsRecord | src/App.jsx:145-150 | With the DOM document, the click downloads the record under a name carrying the click time, distinct for distinct times. |
| Wizard.Apply | src/App.jsx:43-135 | Every handler keeps the agent and output lists aligned and keeps the session invariant. |
| Wizard.HiddenControlsDoNothing | src/App.jsx:165-181 | The file field, OCR settings, process button and back/next buttons do nothing on the configuration and execution steps, and the file field does nothing on the preview step either. |
| Wizard.Replay | src/App.jsx:19-53 | Every state reachable from the first render satisfies the session invariant. The lists line up, are empty or of length 5, five agents are selected and the cursor is in 0..4. |

## Left out

- `server/server.js` and `server/ocr_scripts/pdf_to_images.py` are not part of this model. They are the HTTP layer and an image-only helper.
- The PyPDF2, pdf2image, pytesseract and python-docx libraries and file reading are inputs (a value or the exception raised), not models. Temporary directories are not modelled: their creation and cleanup are assumed to succeed (see the two lines below).
- HybridPdf.AddPage: a `TemporaryDirectory` cleanup that raises after line 60 has appended the OCR text is not modelled. In the source that page's section would hold the OCR text and then the "OCR failed for this page" line (`server/ocr_scripts/process_pdf.py:56-62`). `ocrResult` is either the text or the exception, never both.
- PageOcr.OcrPdf: a `TemporaryDirectory` cleanup that raises after the page loop is not modelled. In the source it propagates out of `ocr_pdf`, and the script prints "Error processing PDF" with status 1 (`ocr_scripts/process_pdf.py:13-31`). `PageOcr.RunScript` assumes the cleanup succeeds and finishes with status 0 whenever the pages render.
- HybridPdf.ExtractTxt: the input `txt` is the text `f.read()` returns, not the file's bytes. The UTF-8 decoding with undecodable bytes dropped (`errors='ignore'`) and the universal-newline translation of "\r\n" and "\r" to "\n" (`server/ocr_scripts/process_pdf.py:27`) are not modelled.
- The pdf2image import check (`server/ocr_scripts/process_pdf.py:10-14`) is not modelled: the import it guards already ran at line 6.
- The "An unexpected error occurred" branch (`server/ocr_scripts/process_pdf.py:95-97`) is not modelled. Every exception in the readers is caught inside them. `print` is assumed to succeed: an encoding failure of standard output is not modelled.
- HybridPdf.ExtractTextFromPdfHybrid: a page whose `extract_text()` returns `None` is treated as the empty string. Both fail the `if page_text` test the same way.
- Python.Lower: only ASCII letters are lowercased, not the full Unicode mapping. No other character lowercases into a string equal to ".pdf", ".docx" or ".txt", so the choice of reader is the same.
- Python.IsSpace lists the characters for which Python's `str.isspace` holds. It is written out, not derived from the Unicode database.
- The JSX rendering, themes and flower styles are not modelled. The Config and Execute steps are elided in the source file and are not modelled. Events are the mount effect, the controls the source renders (the file field on the upload step, the OCR settings when a PDF is picked on the upload step, the process button while enabled, and the preview's back/next buttons; each does nothing where the source does not render it), and the two handlers whose controls sit in the elided steps: `AgentExecuted` and `ParamEdited`. Those two have no UI gating in the model, so `AgentExecuted` can fire in any step, busy or not.
- Wizard.ExecuteAgent: the output text the source fills in from a template (`src/App.jsx:118`) is the parameter `run`. The template renders JS numbers (temperature, text length), which are not modelled.
- Wizard.ExecuteAgent requires the agent and output lists to have the same length. `Wizard.Replay` proves this holds in every reachable state. Holes in JS arrays are not modelled.
- Wizard.ExecuteAgent: a bad index throws after the busy flag is set. The model leaves the page busy with nothing else changed, which matches the source.
- Wizard.StartAgent captures the agent by value. In the source the captured object is shared, so a parameter edit during the two-second wait would reach that run's output (`src/App.jsx:113`, `133`).
- Wizard.UpdateAgentParam: the field is one of the five known fields. Writing an arbitrary property name is not modelled.
- Timing is not modelled: elapsed times are opaque reals and `Date.now()` is a parameter. The delays are not modelled either: each async handler's Start/Finish split stands for its await. Only the interleavings named in the lemmas above are stated.
- Wizard.HandleFileUpload: the FileReader callback is collapsed into the change handler. A text file's contents become the document at once, not when the read completes.

## Findings

| source | as written | input that shows it | evidently intended | confidence | as-written member | corrected member |
|---|---|---|---|---|---|---|
| src/App.jsx:147 | Inside the component, `document` is the page-text state from `useState` (line 27), which hides the DOM document. `document.createElement('a')` is then called on a string and throws a TypeError. | Any click on export, in any state, e.g. right after the first render. | Create the anchor on the DOM document (`window.document`) and download the JSON record. | high (not executed) | Wizard.ExportAsWrittenNeverDownloads | Wizard.ExportFixedDownloadsRecord |
