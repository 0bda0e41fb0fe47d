/** The document-processing wizard of the web page: upload a file, turn it
    into text (read directly, or by a simulated OCR for PDFs), preview it,
    then run a chain of agents where each agent's input is the previous
    agent's output, and export the agents and their outputs.

    The page's state is one immutable record and every handler is a pure
    function from state to state. A handler that awaits is split at the
    await: its Start phase is what runs synchronously on the click, and it
    hands over the values the handler captured then; its Finish phase is
    what runs when the await resumes. The handler as a whole is Finish after
    Start. Agent and OCR output text, timing and file reading are inputs. */
module Wizard {
  import Text

  datatype Option<+T> = None | Some(value: T)

  datatype Step = Upload | Preview | Config | Execute

  /** A field value of an agent as the page stores it: text, or a number
      (the temperature and top-p, kept as opaque values). */
  datatype Value = Str(s: string) | Number(x: real)

  datatype Field = Name | Prompt | Model | Temperature | TopP

  /** The configuration of one agent. */
  datatype Agent = Agent(name: Value, prompt: Value, model: Value, temperature: Value, topP: Value)

  /** What running one agent recorded: the text it was given, the text it
      produced and the elapsed time. */
  datatype AgentOutput = AgentOutput(input: string, output: string, time: real)

  const EmptyOutput := AgentOutput("", "", 0.0)

  /** A file picked in the upload field: its name, its MIME type and the
      text a FileReader would read from it. */
  datatype UploadedFile = UploadedFile(name: string, mimeType: string, contents: string)

  const PdfMimeType := "application/pdf"

  predicate IsPdf(f: UploadedFile) {
    f.mimeType == PdfMimeType
  }

  datatype State = State(
    step: Step,
    file: Option<UploadedFile>,
    document: string,
    fileName: string,
    ocrMethod: string,
    ocrLanguage: string,
    selectedPages: string,
    agents: seq<Agent>,
    selectedAgentCount: int,
    currentAgentIndex: int,
    outputs: seq<AgentOutput>,
    busy: bool)

  /** The state on first render, before the mount effect has run: the
      upload step, no file, no text, the OCR defaults "llm",
      "traditional-chinese" and "all", no agents or outputs yet, five agents
      selected and the cursor on the first. It already meets the session
      invariant. */
  function Initial(): (r: State)
    ensures r.step == Upload && r.file == None && r.document == "" && r.fileName == ""
    ensures r.ocrMethod == "llm" && r.ocrLanguage == "traditional-chinese" && r.selectedPages == "all"
    ensures r.agents == [] && r.outputs == [] && r.selectedAgentCount == 5 && r.currentAgentIndex == 0
    ensures !r.busy
    ensures SessionInvariant(r)
  {
    State(Upload, None, "", "", "llm", "traditional-chinese", "all", [], 5, 0, [], false)
  }

  function DefaultAgents(): seq<Agent> {
    [ Agent(Str("文件摘要器"), Str("請提供這份文件的簡要摘要，包含主要重點。"), Str("gpt-4o-mini"), Number(0.7), Number(0.9)),
      Agent(Str("關鍵詞提取器"), Str("從文件中提取最重要的關鍵詞和術語。"), Str("gemini-2.5-flash"), Number(0.5), Number(0.9)),
      Agent(Str("情感分析器"), Str("分析文件的整體情感傾向和語氣。"), Str("gpt-4o-mini"), Number(0.6), Number(0.9)),
      Agent(Str("實體識別器"), Str("識別文件中的所有命名實體（人名、地名、組織名）。"), Str("gemini-2.5-flash"), Number(0.4), Number(0.9)),
      Agent(Str("行動項目提取器"), Str("列出文件中提到的所有行動項目和待辦事項。"), Str("gpt-4o-mini"), Number(0.7), Number(0.9)) ]
  }

  /** The agent lists and the output lists line up index by index. */
  predicate Aligned(s: State) {
    |s.agents| == |s.outputs|
  }

  /** The mount effect: the default agents, and one empty output record per
      agent. Nothing else changes. */
  function Mount(s: State): (r: State)
    ensures r.agents == DefaultAgents()
    ensures |r.agents| == |r.outputs| == 5
    ensures forall i :: 0 <= i < |r.outputs| ==> r.outputs[i] == EmptyOutput
    ensures r.(agents := s.agents, outputs := s.outputs) == s
  {
    var defaults := DefaultAgents();
    s.(agents := defaults, outputs := seq(|defaults|, _ => EmptyOutput))
  }

  // ---------------------------------------------------------------------
  // Upload and preview

  /** The file input's change handler. With no file picked nothing changes;
      otherwise the file and its name are recorded, a PDF clears the
      document (its text comes from OCR later) and any other file's text
      becomes the document. */
  function HandleFileUpload(s: State, picked: Option<UploadedFile>): (r: State)
    ensures picked.None? ==> r == s
    ensures picked.Some? ==> r.file == picked && r.fileName == picked.value.name
    ensures picked.Some? && IsPdf(picked.value) ==> r.document == ""
    ensures picked.Some? && !IsPdf(picked.value) ==> r.document == picked.value.contents
    ensures r.(file := s.file, fileName := s.fileName, document := s.document) == s
  {
    match picked
    case None => s
    case Some(f) =>
      var t := s.(fileName := f.name, file := Some(f));
      if !IsPdf(f) then t.(document := f.contents) else t.(document := "")
  }

  /** The OCR settings a PDF run captured when it was started. */
  datatype OcrJob = OcrJob(fileName: string, ocrMethod: string, language: string, pages: string)

  const SimulatedOcrBanner := "--- SIMULATED OCR RESULT ---\n"

  /** The document shown while the OCR runs. */
  function ProcessingNotice(j: OcrJob): string {
    "[正在處理 OCR...]\n\n檔案: " + j.fileName + "\n方法: " + j.ocrMethod
    + "\n語言: " + j.language + "\n頁面: " + j.pages + "\n\n請稍候..."
  }

  /** The text the simulated OCR produces: a banner, the file name, then
      the remaining settings and a canned sample text. */
  function SimulatedOcrText(j: OcrJob): string {
    SimulatedOcrBanner + "File: " + j.fileName + "\n" + SimulatedOcrDetails(j)
  }

  /** The canned text the simulation returns for every PDF. */
  const SimulatedSampleText :=
    "這是從 PDF 文件模擬提取的文字內容。\n\n"
    + "第一章：開端\n\n很久很久以前，在一個遙遠的國度... Lorem ipsum dolor sit amet, consectetur adipiscing elit. \n\n"
    + "第二章：發展\n\n旅程充滿了挑戰與冒險... Sed do eiusmod tempor incididunt ut labore et dolore magna aliqua. Ut enim ad minim veniam, quis nostrud exercitation ullamco laboris nisi ut aliquip ex ea commodo consequat.\n\n"
    + "--- END OF SIMULATION ---"

  function SimulatedOcrDetails(j: OcrJob): string {
    "OCR Method: " + j.ocrMethod + "\n"
    + "Language: " + j.language + "\n"
    + "Pages: " + j.pages + "\n\n"
    + SimulatedSampleText
  }

  /** The synchronous part of the process-and-preview handler. Without a
      file nothing happens; a non-PDF goes straight to the preview; a PDF
      sets the busy flag, shows the processing notice and starts the OCR
      with the current settings. */
  function StartProcess(s: State): (r: (State, Option<OcrJob>))
    ensures s.file.None? ==> r == (s, None)
    ensures s.file.Some? && !IsPdf(s.file.value) ==> r == (s.(step := Preview), None)
    ensures s.file.Some? && IsPdf(s.file.value) ==>
      && r.1 == Some(OcrJob(s.fileName, s.ocrMethod, s.ocrLanguage, s.selectedPages))
      && r.0 == s.(busy := true, document := ProcessingNotice(r.1.value))
  {
    match s.file
    case None => (s, None)
    case Some(f) =>
      if !IsPdf(f) then (s.(step := Preview), None)
      else
        var job := OcrJob(s.fileName, s.ocrMethod, s.ocrLanguage, s.selectedPages);
        (s.(busy := true, document := ProcessingNotice(job)), Some(job))
  }

  /** The part of the PDF path that runs after the OCR delay. */
  function FinishProcess(s: State, job: OcrJob): State {
    s.(document := SimulatedOcrText(job), busy := false, step := Preview)
  }

  /** The whole process-and-preview handler when nothing else happens while
      it waits: no file changes nothing; a non-PDF moves to the preview
      with the document untouched; a PDF ends on the preview, not busy, with
      the OCR text for the current file name as the document. */
  function HandleProcessAndPreview(s: State): (r: State)
    ensures s.file.None? ==> r == s
    ensures s.file.Some? && !IsPdf(s.file.value) ==> r == s.(step := Preview)
    ensures s.file.Some? && IsPdf(s.file.value) ==>
      && r.step == Preview && !r.busy
      && SimulatedOcrBanner + "File: " + s.fileName + "\n" <= r.document
      && r.(document := s.document, busy := s.busy, step := s.step) == s
  {
    match StartProcess(s)
    case (t, None) => t
    case (t, Some(job)) =>
      var r := FinishProcess(t, job);
      assert r.document == (SimulatedOcrBanner + "File: " + s.fileName + "\n") + SimulatedOcrDetails(job);
      r
  }

  /** The OCR method, language and page fields are shown on the upload step
      once a PDF has been picked. */
  predicate OcrOptionsShown(s: State) {
    s.step == Upload && s.file.Some? && IsPdf(s.file.value)
  }

  /** The process button is shown on the upload step once a file name is
      known, and is disabled while there is no file or the page is busy. */
  predicate ProcessButtonEnabled(s: State) {
    s.step == Upload && s.fileName != "" && s.file.Some? && !s.busy
  }

  /** A click on the process button: it starts the handler only when the
      button is enabled, and an enabled click always has an effect (a move
      to the preview, or an OCR run started). */
  function ClickProcess(s: State): (r: (State, Option<OcrJob>))
    ensures ProcessButtonEnabled(s) <==> r != (s, None)
    ensures ProcessButtonEnabled(s) ==> r == StartProcess(s)
  {
    if ProcessButtonEnabled(s) then StartProcess(s) else (s, None)
  }

  /** While a PDF's OCR is in flight the page is busy, so a second click on
      the process button does nothing. */
  lemma {:induction false} OcrInFlightBlocksProcess(s: State)
    requires s.file.Some? && IsPdf(s.file.value)
    ensures StartProcess(s).0.busy
    ensures ClickProcess(StartProcess(s).0) == (StartProcess(s).0, None)
  {
  }

  /** Uploading a text file and pressing the button previews the file's own
      text. */
  lemma UploadTextThenPreview(s: State, f: UploadedFile)
    requires !IsPdf(f)
    ensures var r := HandleProcessAndPreview(HandleFileUpload(s, Some(f)));
            r.step == Preview && r.document == f.contents && r.fileName == f.name
  {
  }

  /** Uploading a PDF and pressing the button previews OCR text that names
      the uploaded file, with the page no longer busy. */
  lemma UploadPdfThenPreview(s: State, f: UploadedFile)
    requires IsPdf(f)
    ensures var r := HandleProcessAndPreview(HandleFileUpload(s, Some(f)));
            r.step == Preview && !r.busy && SimulatedOcrBanner + "File: " + f.name + "\n" <= r.document
  {
  }

  /** The file field stays on screen while a PDF is processed. Picking
      another file during the wait does not stop the run: it ends on the
      preview with OCR text naming the file the run started on, while the
      newly picked file is the one recorded. */
  lemma FileSwitchedDuringOcr(s: State, g: UploadedFile)
    requires s.file.Some? && IsPdf(s.file.value)
    ensures var (t, job) := StartProcess(s);
            job.Some? &&
            var r := FinishProcess(HandleFileUpload(t, Some(g)), job.value);
            && r.step == Preview && !r.busy
            && r.file == Some(g) && r.fileName == g.name
            && SimulatedOcrBanner + "File: " + s.fileName + "\n" <= r.document
  {
    var (t, job) := StartProcess(s);
    var r := FinishProcess(HandleFileUpload(t, Some(g)), job.value);
    assert r.document == (SimulatedOcrBanner + "File: " + s.fileName + "\n") + SimulatedOcrDetails(job.value);
  }

  // ---------------------------------------------------------------------
  // The agent chain

  /** The values an agent run captured when it was started: which agent,
      the text it is given, and the output list and agent count of that
      moment (the handler writes its result into that captured list). */
  datatype AgentJob = AgentJob(index: nat, agent: Agent, input: string, snapshot: seq<AgentOutput>, count: int)

  predicate Fits(j: AgentJob) {
    j.index < |j.snapshot|
  }

  /** The synchronous part of running agent `index`: the page becomes busy
      and the agent's input is read, the document for the first agent and
      the previous agent's output otherwise. An index with no agent makes
      the handler throw (at once, or when it resumes), which leaves the
      page busy and nothing else changed. */
  function StartAgent(s: State, index: int): (r: (State, Option<AgentJob>))
    requires Aligned(s)
    ensures r.0 == s.(busy := true)
    ensures r.1.Some? <==> 0 <= index < |s.agents|
    ensures r.1.Some? ==> Fits(r.1.value) && r.1.value.index == index
  {
    var t := s.(busy := true);
    if 0 <= index < |s.agents| then
      var input := if index == 0 then s.document else s.outputs[index - 1].output;
      (t, Some(AgentJob(index, s.agents[index], input, s.outputs, s.selectedAgentCount)))
    else (t, None)
  }

  /** The part of an agent run after its delay: the result goes into the
      captured list at the agent's index, the page stops being busy, and the
      cursor moves to the next agent if this was not the last selected one. */
  function FinishAgent(s: State, job: AgentJob, output: string, time: real): State
    requires Fits(job)
  {
    var t := s.(outputs := job.snapshot[job.index := AgentOutput(job.input, output, time)], busy := false);
    if job.index < job.count - 1 then t.(currentAgentIndex := job.index + 1) else t
  }

  /** Running agent `index` when nothing else happens while it waits; `run`
      stands for the agent's output on a given input. Exactly slot `index`
      is written, with the document (first agent) or the previous agent's
      output as input; the cursor advances only while it stays below the
      selected agent count. */
  function ExecuteAgent(s: State, index: int, run: (Agent, string) -> string, time: real): (r: State)
    requires Aligned(s)
    ensures Aligned(r)
    ensures !(0 <= index < |s.agents|) ==> r == s.(busy := true)
    ensures 0 <= index < |s.agents| ==>
      && |r.outputs| == |s.outputs|
      && r.outputs[index].input == (if index == 0 then s.document else s.outputs[index - 1].output)
      && r.outputs[index].output == run(s.agents[index], r.outputs[index].input)
      && r.outputs[index].time == time
      && (forall j :: 0 <= j < |s.outputs| && j != index ==> r.outputs[j] == s.outputs[j])
      && !r.busy
      && r.currentAgentIndex == (if index < s.selectedAgentCount - 1 then index + 1 else s.currentAgentIndex)
      && r.(outputs := s.outputs, busy := s.busy, currentAgentIndex := s.currentAgentIndex) == s
    ensures r.currentAgentIndex == s.currentAgentIndex || r.currentAgentIndex <= s.selectedAgentCount - 1
  {
    match StartAgent(s, index)
    case (t, None) => t
    case (t, Some(job)) => FinishAgent(t, job, run(job.agent, job.input), time)
  }

  /** While an agent runs the page is busy, so the process button is disabled. */
  lemma {:induction false} AgentInFlightBlocksProcess(s: State, index: int)
    requires Aligned(s)
    ensures StartAgent(s, index).0.busy
    ensures ClickProcess(StartAgent(s, index).0) == (StartAgent(s, index).0, None)
  {
  }

  /** Each run writes into the output list it captured when it started. If
      a second agent is started before the first has finished, the second
      run's write puts back the list as it was before the first run, so the
      first agent's result is lost. */
  lemma OverlappingRunsLoseEarlierResult(s: State, i: nat, j: nat, outI: string, outJ: string, timeI: real, timeJ: real)
    requires Aligned(s) && i < |s.agents| && j < |s.agents| && i != j
    ensures var (t, first) := StartAgent(s, i);
            var (u, second) := StartAgent(t, j);
            first.Some? && second.Some? &&
            var r := FinishAgent(FinishAgent(u, first.value, outI, timeI), second.value, outJ, timeJ);
            r.outputs[i] == s.outputs[i] && r.outputs[j].output == outJ
  {
  }

  /** The text agent `j` of a chain is given: the document for the first
      agent, otherwise what the previous agent made of its own input. */
  function ChainInput(agents: seq<Agent>, document: string, run: (Agent, string) -> string, j: nat): string
    requires j <= |agents|
  {
    if j == 0 then document else run(agents[j - 1], ChainInput(agents, document, run, j - 1))
  }

  /** Slot `j` of `outputs` records agent j of the chain started from `s`:
      its input, its output on that input, and the time given for it. */
  predicate Recorded(outputs: seq<AgentOutput>, s: State, run: (Agent, string) -> string, times: nat -> real, j: nat)
    requires j < |outputs| && j < |s.agents|
  {
    outputs[j] == AgentOutput(ChainInput(s.agents, s.document, run, j), ChainInput(s.agents, s.document, run, j + 1), times(j))
  }

  /** Running the first `k` agents one after another, each started once the
      previous one has finished. Agent j is recorded with the chain's input
      for it and its own output on that input, at the time given for it;
      the later slots are left alone. Started on the first agent, the
      cursor ends on agent `k`, or on the last selected agent once all of
      them have run. */
  method RunChain(s: State, k: nat, run: (Agent, string) -> string, times: nat -> real) returns (r: State)
    requires Aligned(s) && k <= |s.agents|
    ensures Aligned(r) && |r.outputs| == |s.outputs|
    ensures r.agents == s.agents && r.document == s.document && r.selectedAgentCount == s.selectedAgentCount && r.fileName == s.fileName
    ensures k > 0 ==> !r.busy
    ensures forall j :: 0 <= j < k ==> Recorded(r.outputs, s, run, times, j)
    ensures forall j :: k <= j < |s.outputs| ==> r.outputs[j] == s.outputs[j]
    ensures s.currentAgentIndex == 0 && 0 < k <= s.selectedAgentCount ==>
      r.currentAgentIndex == if k < s.selectedAgentCount then k else k - 1
  {
    r := s;
    var i := 0;
    while i < k
      invariant i <= k
      invariant Aligned(r) && |r.outputs| == |s.outputs|
      invariant r.agents == s.agents && r.document == s.document && r.selectedAgentCount == s.selectedAgentCount && r.fileName == s.fileName
      invariant i > 0 ==> !r.busy
      invariant forall j :: 0 <= j < i ==> Recorded(r.outputs, s, run, times, j)
      invariant forall j :: i <= j < |s.outputs| ==> r.outputs[j] == s.outputs[j]
      invariant s.currentAgentIndex == 0 && i <= s.selectedAgentCount ==>
        r.currentAgentIndex == if i == 0 || i < s.selectedAgentCount then i else i - 1
    {
      var next := ExecuteAgent(r, i, run, times(i));
      assert Recorded(next.outputs, s, run, times, i) by {
        if i > 0 {
          assert Recorded(r.outputs, s, run, times, i - 1);
        }
      }
      forall j | 0 <= j < i
        ensures Recorded(next.outputs, s, run, times, j)
      {
        assert Recorded(r.outputs, s, run, times, j);
        assert next.outputs[j] == r.outputs[j];
      }
      r := next;
      i := i + 1;
    }
  }

  // ---------------------------------------------------------------------
  // Editing agents

  function Get(a: Agent, f: Field): Value {
    match f
    case Name => a.name
    case Prompt => a.prompt
    case Model => a.model
    case Temperature => a.temperature
    case TopP => a.topP
  }

  /** Writing one field: that field reads back the new value and every
      other field keeps its old one. */
  function Set(a: Agent, f: Field, v: Value): (r: Agent)
    ensures Get(r, f) == v
    ensures forall g :: g != f ==> Get(r, g) == Get(a, g)
  {
    match f
    case Name => a.(name := v)
    case Prompt => a.(prompt := v)
    case Model => a.(model := v)
    case Temperature => a.(temperature := v)
    case TopP => a.(topP := v)
  }

  /** Writing back a field's own value changes nothing. */
  lemma SetOwnValue(a: Agent, f: Field)
    ensures Set(a, f, Get(a, f)) == a
  {
  }

  /** The agent-parameter handler. An index with no agent makes it throw
      before the list is replaced, so nothing changes. */
  function UpdateAgentParam(s: State, index: int, field: Field, value: Value): (r: State)
    ensures |r.agents| == |s.agents|
    ensures 0 <= index < |s.agents| ==>
      Get(r.agents[index], field) == value
      && forall g :: g != field ==> Get(r.agents[index], g) == Get(s.agents[index], g)
    ensures forall j :: 0 <= j < |s.agents| && j != index ==> r.agents[j] == s.agents[j]
    ensures !(0 <= index < |s.agents|) ==> r == s
    ensures r.(agents := s.agents) == s
  {
    if 0 <= index < |s.agents| then s.(agents := s.agents[index := Set(s.agents[index], field, value)])
    else s
  }

  // ---------------------------------------------------------------------
  // Export

  /** The exported record (written out as JSON by the page). */
  datatype Exported = Exported(fileName: string, agents: seq<Agent>, outputs: seq<AgentOutput>, timestamp: string)

  /** Where `list.slice(0, end)` stops on a list of length `len`: a
      negative end counts back from the end of the list. */
  function SliceEnd(len: nat, end: int): (k: nat)
    ensures k <= len
  {
    if end < 0 then (if len + end < 0 then 0 else len + end)
    else if end < len then end else len
  }

  /** The export handler: the file name, the selected agents and their
      outputs (the first `selectedAgentCount` of each list, fewer if the
      list is shorter), and the time stamp. */
  function ExportResults(s: State, timestamp: string): (r: Exported)
    ensures r.fileName == s.fileName && r.timestamp == timestamp
    ensures r.agents <= s.agents && r.outputs <= s.outputs
    ensures 0 <= s.selectedAgentCount ==>
      |r.agents| == (if s.selectedAgentCount < |s.agents| then s.selectedAgentCount else |s.agents|)
      && |r.outputs| == (if s.selectedAgentCount < |s.outputs| then s.selectedAgentCount else |s.outputs|)
    ensures s.selectedAgentCount < 0 ==>
      |r.agents| == (if |s.agents| + s.selectedAgentCount < 0 then 0 else |s.agents| + s.selectedAgentCount)
      && |r.outputs| == (if |s.outputs| + s.selectedAgentCount < 0 then 0 else |s.outputs| + s.selectedAgentCount)
  {
    Exported(
      s.fileName,
      s.agents[..SliceEnd(|s.agents|, s.selectedAgentCount)],
      s.outputs[..SliceEnd(|s.outputs|, s.selectedAgentCount)],
      timestamp)
  }

  /** What the name `document` denotes where the export handler runs: the
      page's own document text (the state variable declared in the
      component), or the browser's DOM document. */
  datatype DocumentBinding = PageText(text: string) | BrowserDocument

  /** What a click on export leads to: the record offered as a download
      under a file name, or the exception the handler threw. */
  datatype ExportOutcome = Downloaded(record: Exported, downloadName: string) | Threw(error: string)

  /** The export click: the record is built and serialised, then an anchor
      element is made with `document.createElement('a')`, pointed at the
      record and clicked. Only the DOM document has `createElement`; on a
      string the call throws a TypeError and nothing is downloaded. `now`
      stands for `Date.now()`. */
  function ExportClick(s: State, doc: DocumentBinding, timestamp: string, now: nat): (r: ExportOutcome)
    ensures r.Downloaded? <==> doc == BrowserDocument
    ensures r.Downloaded? ==> r.record == ExportResults(s, timestamp)
  {
    var record := ExportResults(s, timestamp);
    match doc
    case PageText(_) => Threw("TypeError: document.createElement is not a function")
    case BrowserDocument => Downloaded(record, "processing-results-" + Text.NatToString(now) + ".json")
  }

  /** The handler as written: inside the component `document` is the page
      text from `useState`, which hides the DOM document. */
  function ExportClickAsWritten(s: State, timestamp: string, now: nat): ExportOutcome {
    ExportClick(s, PageText(s.document), timestamp, now)
  }

  /** As written, exporting never downloads anything, whatever the state. */
  lemma ExportAsWrittenNeverDownloads(s: State, timestamp: string, now: nat)
    ensures ExportClickAsWritten(s, timestamp, now).Threw?
  {
  }

  /** The handler as evidently intended, creating the anchor on the DOM
      document (`window.document`). */
  function ExportClickFixed(s: State, timestamp: string, now: nat): ExportOutcome {
    ExportClick(s, BrowserDocument, timestamp, now)
  }

  /** With the DOM document the click downloads the exported record, under
      a name that carries the click time, and distinct click times give
      distinct names. */
  lemma ExportFixedDownloadsRecord(s: State, timestamp: string, now: nat, later: nat)
    requires now != later
    ensures var r := ExportClickFixed(s, timestamp, now);
            r.Downloaded? && r.record == ExportResults(s, timestamp)
            && "processing-results-" <= r.downloadName
            && r.downloadName != ExportClickFixed(s, timestamp, later).downloadName
  {
    var a := Text.NatToString(now);
    var b := Text.NatToString(later);
    if "processing-results-" + a + ".json" == "processing-results-" + b + ".json" {
      assert a == ("processing-results-" + a + ".json")[19 .. 19 + |a|];
      Text.NatToStringInjective(now, later);
    }
  }

  /** Exporting after the first `k` selected agents have run shows, for each
      of them, the chain's input for it and its output. */
  method ExportAfterChain(s: State, k: nat, run: (Agent, string) -> string, times: nat -> real, timestamp: string)
    returns (e: Exported)
    requires Aligned(s) && k <= |s.agents| && k <= s.selectedAgentCount
    ensures e.fileName == s.fileName && e.timestamp == timestamp && |e.outputs| >= k
    ensures forall j :: 0 <= j < k ==> Recorded(e.outputs, s, run, times, j)
  {
    var r := RunChain(s, k, run, times);
    e := ExportResults(r, timestamp);
    forall j | 0 <= j < k
      ensures Recorded(e.outputs, s, run, times, j)
    {
      assert Recorded(r.outputs, s, run, times, j);
      assert e.outputs[j] == r.outputs[j];
    }
  }

  // ---------------------------------------------------------------------
  // Whole sessions

  /** The things a user (or the page itself) can do, each handler run to
      completion. */
  datatype Event =
    | Mounted
    | FileChosen(picked: Option<UploadedFile>)
    | OcrMethodChosen(ocrMethod: string)
    | OcrLanguageChosen(language: string)
    | PagesTyped(pages: string)
    | ProcessClicked
    | BackClicked
    | NextClicked
    | AgentExecuted(index: int, run: (Agent, string) -> string, time: real)
    | ParamEdited(index: int, field: Field, value: Value)

  /** What holds in every state a session can reach: the agent and output
      lists line up, both empty (before the mount effect) or both of the
      default length, five agents are selected and the cursor lies in
      0 .. 4. */
  predicate SessionInvariant(s: State) {
    && Aligned(s)
    && (|s.agents| == 0 || |s.agents| == 5)
    && s.selectedAgentCount == 5
    && 0 <= s.currentAgentIndex < s.selectedAgentCount
  }

  /** Running one handler to completion; every handler keeps the session
      invariant. */
  function Apply(s: State, e: Event): (r: State)
    requires Aligned(s)
    ensures Aligned(r)
    ensures SessionInvariant(s) ==> SessionInvariant(r)
  {
    match e
    case Mounted => Mount(s)
    case FileChosen(picked) => if s.step == Upload then HandleFileUpload(s, picked) else s
    case OcrMethodChosen(m) => if OcrOptionsShown(s) then s.(ocrMethod := m) else s
    case OcrLanguageChosen(l) => if OcrOptionsShown(s) then s.(ocrLanguage := l) else s
    case PagesTyped(p) => if OcrOptionsShown(s) then s.(selectedPages := p) else s
    case ProcessClicked => if ProcessButtonEnabled(s) then HandleProcessAndPreview(s) else s
    case BackClicked => if s.step == Preview then s.(step := Upload) else s
    case NextClicked => if s.step == Preview then s.(step := Config) else s
    case AgentExecuted(index, run, time) => ExecuteAgent(s, index, run, time)
    case ParamEdited(index, field, value) => UpdateAgentParam(s, index, field, value)
  }

  /** The file field, the OCR settings, the process button and the back and
      next buttons are rendered only on the upload and preview steps, so on
      the configuration and execution steps they do nothing; and the file
      field belongs to the upload step alone. */
  lemma HiddenControlsDoNothing(s: State, e: Event)
    requires Aligned(s)
    requires !e.Mounted? && !e.AgentExecuted? && !e.ParamEdited?
    requires s.step == Config || s.step == Execute || (e.FileChosen? && s.step == Preview)
    ensures Apply(s, e) == s
  {
  }

  /** The state after a sequence of events from the first render; every
      such state satisfies the session invariant. */
  function Replay(events: seq<Event>): (r: State)
    ensures SessionInvariant(r)
  {
    if |events| == 0 then Initial() else Apply(Replay(events[..|events| - 1]), events[|events| - 1])
  }
}
