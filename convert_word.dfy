/**
 * The Word-to-PDF route (POST /api/convert-word): it stores the upload under a
 * time-stamped name in the temporary folder, tries LibreOffice and then Python's
 * docx2pdf, answers with the PDF and removes both temporary files.
 *
 * The shell and the file system are inputs. A `Shell` says which commands
 * succeed and which files a successful command writes; the temporary folder's
 * files are a map from path to bytes; the clock reading is the `timestamp`
 * parameter and TEMP_DIR the `tempDir` parameter.
 */
module ConvertWord {
  import opened Wrappers
  import opened JsText

  // ---------------------------------------------------------------------------
  // File names

  /** The characters the name sanitiser keeps: `[a-zA-Z0-9._-]`. */
  predicate SafeChar(c: char) {
    ('a' <= c <= 'z') || ('A' <= c <= 'Z') || ('0' <= c <= '9') || c == '.' || c == '_' || c == '-'
  }

  predicate AllSafe(s: string) {
    forall i :: 0 <= i < |s| ==> SafeChar(s[i])
  }

  /** The replacement of one character: the regular expression has no `u` flag, so it
   *  works on UTF-16 code units and a character outside the Basic Multilingual Plane
   *  becomes two underscores. */
  function SanitizeChar(c: char): (r: string)
    ensures |r| == CodeUnits(c) && AllSafe(r)
  {
    if SafeChar(c) then [c] else if CodeUnits(c) == 2 then "__" else "_"
  }

  /** `file.name.replace(/[^a-zA-Z0-9._-]/g, '_')`. */
  function Sanitize(s: string): (r: string)
    ensures |r| == Utf16Length(s)
    ensures AllSafe(r)
  {
    if s == [] then [] else SanitizeChar(s[0]) + Sanitize(s[1..])
  }

  /** Within the Basic Multilingual Plane the sanitiser works one for one: each kept
   *  character stays in place and each other one becomes a single `_`. */
  lemma {:induction false} SanitizeOneForOne(s: string)
    requires forall i :: 0 <= i < |s| ==> CodeUnits(s[i]) == 1
    ensures |Sanitize(s)| == |s|
    ensures forall i :: 0 <= i < |s| ==> Sanitize(s)[i] == (if SafeChar(s[i]) then s[i] else '_')
  {
    if s != [] {
      SanitizeOneForOne(s[1..]);
      var r := Sanitize(s);
      assert r == SanitizeChar(s[0]) + Sanitize(s[1..]);
      assert |SanitizeChar(s[0])| == 1;
      forall i | 0 <= i < |s|
        ensures r[i] == (if SafeChar(s[i]) then s[i] else '_')
      {
        if i > 0 {
          assert r[i] == Sanitize(s[1..])[i - 1] && s[i] == s[1..][i - 1];
        }
      }
    }
  }

  /** A name made of kept characters comes out unchanged. */
  lemma {:induction false} SanitizeKeepsSafeNames(s: string)
    requires AllSafe(s)
    ensures Sanitize(s) == s
  {
    if s != [] {
      assert AllSafe(s[1..]) by {
        forall i | 0 <= i < |s[1..]|
          ensures SafeChar(s[1..][i])
        {
          assert s[1..][i] == s[i + 1];
        }
      }
      SanitizeKeepsSafeNames(s[1..]);
      assert s == [s[0]] + s[1..];
    }
  }

  /** Sanitising twice is sanitising once. */
  lemma SanitizeIdempotent(s: string)
    ensures Sanitize(Sanitize(s)) == Sanitize(s)
  {
    SanitizeKeepsSafeNames(Sanitize(s));
  }

  /** `originalName.replace(/\.docx?$/i, '')`: one trailing `.doc` or `.docx`, in any
   *  case, is removed. */
  function StripDocExt(s: string): (r: string)
    ensures |r| <= |s| && r == s[..|r|]
  {
    if EndsWithIgnoringCase(s, ".docx") then s[..|s| - 5]
    else if EndsWithIgnoringCase(s, ".doc") then s[..|s| - 4]
    else s
  }

  /** The extension is removed once, and only once: what stays before it is kept,
   *  even when it ends in `.doc` itself. */
  lemma StripDocExtOnce(b: string, ext: string)
    requires Lower(ext) == ".doc" || Lower(ext) == ".docx"
    ensures StripDocExt(b + ext) == b
  {
    var s := b + ext;
    LowerAppend(b, ext);
    var low := Lower(b) + Lower(ext);
    assert low[|low| - |ext|..] == Lower(ext);
    if Lower(ext) == ".doc" {
      assert low[|low| - 1] == 'c';
    }
    assert s[..|b|] == b;
  }

  /** Any other name is kept whole. */
  lemma StripDocExtOther(s: string)
    requires !EndsWithIgnoringCase(s, ".docx") && !EndsWithIgnoringCase(s, ".doc")
    ensures StripDocExt(s) == s
  {
  }

  /** What was removed, if anything, is a `.doc` or `.docx` in some case. */
  lemma StripDocExtRemoves(s: string)
    ensures var r := StripDocExt(s);
      r == s || Lower(s[|r|..]) == ".doc" || Lower(s[|r|..]) == ".docx"
  {
    var r := StripDocExt(s);
    if r != s {
      var n := |s| - |r|;
      assert Lower(s)[|s| - n..] == Lower(s[|r|..]);
    }
  }

  /** `baseName`: the sanitised name without its Word extension. */
  function BaseName(name: string): (r: string)
    ensures AllSafe(r)
  {
    var o := Sanitize(name);
    var r := StripDocExt(o);
    assert forall i :: 0 <= i < |r| ==> r[i] == o[i];
    r
  }

  /** `path.join(dir, segment)` for a normalised folder and a single path segment. */
  function Join(dir: string, segment: string): string {
    dir + "/" + segment
  }

  /** The temporary file the upload is written to: `{timestamp}_{originalName}`. */
  function InputName(timestamp: int, name: string): string {
    IntToString(timestamp) + "_" + Sanitize(name)
  }

  /** The PDF the converters are expected to write: `{timestamp}_{baseName}.pdf`. */
  function OutputName(timestamp: int, name: string): string {
    IntToString(timestamp) + "_" + BaseName(name) + ".pdf"
  }

  /** The name the browser saves the PDF under. */
  function DownloadName(name: string): string {
    BaseName(name) + ".pdf"
  }

  /** The Content-Disposition header of the answer. */
  function ContentDisposition(name: string): string {
    "attachment; filename=\"" + DownloadName(name) + "\""
  }

  predicate IsSeparator(c: char) {
    c == '/' || c == '\\'
  }

  /** A temporary file name is one path segment that is neither `.` nor `..`. */
  predicate PlainSegment(s: string) {
    s != "" && s != "." && s != ".." && forall i :: 0 <= i < |s| ==> !IsSeparator(s[i])
  }

  /** Whatever the uploaded name, the upload is stored directly inside the
   *  temporary folder. */
  lemma InputNameStaysInFolder(timestamp: int, name: string)
    ensures PlainSegment(InputName(timestamp, name))
  {
    var t := IntToString(timestamp);
    var o := Sanitize(name);
    var input := t + "_" + o;
    assert input[0] == t[0];
    forall i | 0 <= i < |input|
      ensures !IsSeparator(input[i])
    {
      if i >= |t| + 1 {
        assert input[i] == o[i - |t| - 1];
      }
    }
  }

  /** Whatever the uploaded name, the expected PDF lies directly inside the
   *  temporary folder. */
  lemma OutputNameStaysInFolder(timestamp: int, name: string)
    ensures PlainSegment(OutputName(timestamp, name))
  {
    var t := IntToString(timestamp);
    var b := BaseName(name);
    var output := t + "_" + b + ".pdf";
    assert output[0] == t[0];
    forall i | 0 <= i < |output|
      ensures !IsSeparator(output[i])
    {
      if |t| + 1 <= i < |t| + 1 + |b| {
        assert output[i] == b[i - |t| - 1];
      }
    }
  }

  /** The saved name cannot close the quotes of the Content-Disposition header. */
  lemma DownloadNameUnquoted(name: string)
    ensures forall i :: 0 <= i < |DownloadName(name)| ==> DownloadName(name)[i] != '"'
  {
    var b := BaseName(name);
    var d := DownloadName(name);
    forall i | 0 <= i < |d|
      ensures d[i] != '"'
    {
      if i < |b| {
        assert d[i] == b[i];
      }
    }
  }

  /** A name that keeps its text, or loses only a Word extension, never ends in `.pdf`
   *  where the original name ended: whatever the prefix, the two differ. */
  lemma ExtensionSwapDiffers(p: string, o: string, b: string)
    requires |b| <= |o| && b == o[..|b|]
    requires b == o || Lower(o[|b|..]) == ".doc" || Lower(o[|b|..]) == ".docx"
    ensures p + o != p + b + ".pdf"
  {
    var input, output := p + o, p + b + ".pdf";
    if b != o && |input| == |output| {
      var ext := o[|b|..];
      assert |ext| == 4 && Lower(ext)[3] == 'c';
      assert input[|input| - 1] == ext[3];
      assert output[|output| - 1] == 'f';
    }
  }

  /** The upload and the expected PDF never share a path, so writing one never
   *  replaces the other and the two cleanups remove two different files. */
  lemma InputDiffersFromOutput(timestamp: int, name: string)
    ensures InputName(timestamp, name) != OutputName(timestamp, name)
  {
    var o := Sanitize(name);
    StripDocExtRemoves(o);
    ExtensionSwapDiffers(IntToString(timestamp) + "_", o, StripDocExt(o));
  }

  // ---------------------------------------------------------------------------
  // The shell

  /** The commands the route runs. */
  datatype Command =
    | Version(tool: Tool, program: string)                             // `--version` probe
    | LibreConvert(soffice: string, input: string, outDir: string)     // convertWithLibreOffice
    | Docx2pdfConvert(python: string, input: string, output: string)   // convertWithDocx2pdf

  datatype Tool = LibreOffice | Python

  /** The programs tried for each tool, in order. */
  const LibreOfficeCandidates: seq<string> := ["soffice", "C:\\Program Files\\LibreOffice\\program\\soffice.exe",
    "C:\\Program Files (x86)\\LibreOffice\\program\\soffice.exe", "/usr/bin/soffice", "/usr/bin/libreoffice"]
  const PythonCandidates: seq<string> := ["python", "python3", "py"]

  function Candidates(t: Tool): (cs: seq<string>)
    ensures |cs| > 0
  {
    match t
    case LibreOffice => LibreOfficeCandidates
    case Python => PythonCandidates
  }

  /** `inputPath.replace(/\\/g, '\\\\')`: every backslash doubled. */
  function Escape(s: string): (r: string)
    ensures |r| >= |s|
  {
    if s == [] then [] else (if s[0] == '\\' then "\\\\" else [s[0]]) + Escape(s[1..])
  }

  /** A path without backslashes, such as every POSIX path, is passed as it is. */
  lemma {:induction false} EscapePlainPath(s: string)
    requires forall i :: 0 <= i < |s| ==> s[i] != '\\'
    ensures Escape(s) == s
  {
    if s != [] {
      EscapePlainPath(s[1..]);
      assert s == [s[0]] + s[1..];
    }
  }

  /** The command line handed to `exec`. */
  function CommandLine(c: Command): string {
    match c
    case Version(LibreOffice, p) => "\"" + p + "\" --version"
    case Version(Python, p) => p + " --version"
    case LibreConvert(soffice, input, outDir) =>
      "\"" + soffice + "\" --headless --convert-to pdf --outdir \"" + outDir + "\" \"" + input + "\""
    case Docx2pdfConvert(python, input, output) =>
      python + " -c \"from docx2pdf import convert; convert(r\\\"" + Escape(input) + "\\\", r\\\""
      + Escape(output) + "\\\")\""
  }

  /** On POSIX paths the docx2pdf script names the upload and the PDF exactly as
   *  they are, inside raw Python strings. */
  lemma Docx2pdfLineOnPosixPaths(python: string, input: string, output: string)
    requires forall i :: 0 <= i < |input| ==> input[i] != '\\'
    requires forall i :: 0 <= i < |output| ==> output[i] != '\\'
    ensures CommandLine(Docx2pdfConvert(python, input, output))
         == python + " -c \"from docx2pdf import convert; convert(r\\\"" + input + "\\\", r\\\"" + output + "\\\")\""
  {
    EscapePlainPath(input);
    EscapePlainPath(output);
  }

  /** Which commands exit successfully within their timeout, and what a successful
   *  one writes; a failing command writes nothing. The answers are given per
   *  command, which covers any shell whose answers depend on the command line. */
  datatype Shell = Shell(succeeds: Command -> bool, writes: Command -> map<string, Bytes>)

  /** The files after running `c`. */
  function AfterRun(shell: Shell, c: Command, files: map<string, Bytes>): map<string, Bytes> {
    if shell.succeeds(c) then files + shell.writes(c) else files
  }

  predicate Works(t: Tool, shell: Shell, j: nat)
    requires j < |Candidates(t)|
  {
    shell.succeeds(Version(t, Candidates(t)[j]))
  }

  /** The index of the first candidate from `i` on whose probe succeeds. */
  function FirstWorkingFrom(t: Tool, shell: Shell, i: nat): (r: Option<nat>)
    requires i <= |Candidates(t)|
    ensures r.Some? ==> i <= r.value < |Candidates(t)| && Works(t, shell, r.value)
    ensures r.Some? ==> forall j :: i <= j < r.value ==> !Works(t, shell, j)
    ensures r.None? <==> forall j :: i <= j < |Candidates(t)| ==> !Works(t, shell, j)
    decreases |Candidates(t)| - i
  {
    if i == |Candidates(t)| then None
    else if Works(t, shell, i) then Some(i)
    else FirstWorkingFrom(t, shell, i + 1)
  }

  /** The first working candidate is the one found, however far the search started
   *  before it. */
  lemma {:induction false} FirstWorkingFromIs(t: Tool, shell: Shell, i: nat, k: nat)
    requires i <= k < |Candidates(t)| && Works(t, shell, k)
    requires forall j :: i <= j < k ==> !Works(t, shell, j)
    ensures FirstWorkingFrom(t, shell, i) == Some(k)
    decreases k - i
  {
    if i < k {
      FirstWorkingFromIs(t, shell, i + 1, k);
    }
  }

  /** findLibreOffice / findPython: the first candidate whose probe succeeds. */
  function Found(t: Tool, shell: Shell): Option<string> {
    match FirstWorkingFrom(t, shell, 0)
    case Some(k) => Some(Candidates(t)[k])
    case None => None
  }

  /** The probes of the first `n` candidates, in order. */
  function Probes(t: Tool, n: nat): (r: seq<Command>)
    requires n <= |Candidates(t)|
    ensures |r| == n && forall j :: 0 <= j < n ==> r[j] == Version(t, Candidates(t)[j])
  {
    seq(n, j requires 0 <= j < n => Version(t, Candidates(t)[j]))
  }

  /** The probes one search runs: up to and including the first that succeeds. */
  function ProbeLog(t: Tool, shell: Shell): seq<Command> {
    match FirstWorkingFrom(t, shell, 0)
    case Some(k) => Probes(t, k + 1)
    case None => Probes(t, |Candidates(t)|)
  }

  /** A search stops at the first success: every probe but possibly the last failed,
   *  and a candidate is returned exactly when the last probe succeeded on it. */
  lemma ProbeLogMeaning(t: Tool, shell: Shell)
    ensures var log := ProbeLog(t, shell);
      && 0 < |log| <= |Candidates(t)|
      && (forall j :: 0 <= j < |log| - 1 ==> !shell.succeeds(log[j]))
      && (Found(t, shell).Some? <==> shell.succeeds(log[|log| - 1]))
      && (Found(t, shell).Some? ==> log[|log| - 1] == Version(t, Found(t, shell).value))
  {
  }

  // ---------------------------------------------------------------------------
  // The request

  /** What `formData.get('file')` returns. */
  datatype FormFile =
    | NoFile                              // null
    | TextField(value: string)            // a plain form value, which has no `name`
    | Upload(name: string, bytes: Bytes)  // an uploaded file

  /** A request whose body `request.formData()` cannot read carries the message of
   *  the error that call throws. */
  datatype Request = Unreadable(reason: string) | Form(file: FormFile)

  /** Why a request ended in a 500. */
  datatype Failure =
    | FormDataFailed   // the body is not form data
    | NameMissing      // `file.name` is undefined, so `.replace` throws
    | NotConverted     // neither converter produced the PDF

  datatype Response =
    | BadRequest(error: string)
    | Pdf(body: Bytes, disposition: string)
    | ServerError(failure: Failure, message: string)   // `{ error: error.message }`, status 500

  const NoFileError := "No se envió ningún archivo"
  const NotConvertedError := "No se pudo convertir. Se necesita LibreOffice o Microsoft Word instalado en el servidor. "
    + "Instala LibreOffice (gratis): https://www.libreoffice.org/download/ "
    + "o instala docx2pdf: pip install docx2pdf (requiere Word)."
  /** The message of the TypeError that `file.name.replace` throws when `file` is a plain form value. */
  const NameTypeError := "Cannot read properties of undefined (reading 'replace')"

  function Status(r: Response): int {
    match r
    case BadRequest(_) => 400
    case Pdf(_, _) => 200
    case ServerError(_, _) => 500
  }

  /** The state of the conversion after a stage: the files, the commands this
   *  request has run, and `converted`. */
  datatype Attempt = Attempt(files: map<string, Bytes>, commands: seq<Command>, converted: bool)

  /** The LibreOffice stage: convert into the temporary folder and look for the PDF
   *  under the expected name. */
  function LibreOfficeStage(shell: Shell, tempDir: string, input: string, output: string, files: map<string, Bytes>): Attempt {
    match Found(LibreOffice, shell)
    case None => Attempt(files, ProbeLog(LibreOffice, shell), false)
    case Some(soffice) =>
      var c := LibreConvert(soffice, input, tempDir);
      var after := AfterRun(shell, c, files);
      Attempt(after, ProbeLog(LibreOffice, shell) + [c], shell.succeeds(c) && output in after)
  }

  /** Finding Python and running docx2pdf on the upload. */
  function Docx2pdfRun(shell: Shell, input: string, output: string, files: map<string, Bytes>): Attempt {
    match Found(Python, shell)
    case None => Attempt(files, ProbeLog(Python, shell), false)
    case Some(python) =>
      var c := Docx2pdfConvert(python, input, output);
      var after := AfterRun(shell, c, files);
      Attempt(after, ProbeLog(Python, shell) + [c], shell.succeeds(c) && output in after)
  }

  /** The docx2pdf stage, which runs only when the first did not convert. */
  function Docx2pdfStage(shell: Shell, input: string, output: string, a: Attempt): Attempt {
    if a.converted then a
    else
      var d := Docx2pdfRun(shell, input, output, a.files);
      Attempt(d.files, a.commands + d.commands, d.converted)
  }

  /** The answer, the temporary folder afterwards and the commands run. */
  datatype Served = Served(response: Response, files: map<string, Bytes>, commands: seq<Command>)

  /** The conversion of an upload, from its writing to the cleanup. */
  function ConvertUpload(timestamp: int, tempDir: string, shell: Shell, files: map<string, Bytes>, name: string, bytes: Bytes): Served {
    var input := Join(tempDir, InputName(timestamp, name));
    var output := Join(tempDir, OutputName(timestamp, name));
    var a := Docx2pdfStage(shell, input, output, LibreOfficeStage(shell, tempDir, input, output, files[input := bytes]));
    Answer(a, input, output, ContentDisposition(name))
  }

  /** The end of POST: the PDF when it was converted, a 500 otherwise, and in both
   *  cases the two temporary files removed. */
  function Answer(a: Attempt, input: string, output: string, disposition: string): Served {
    var cleaned := a.files - {input, output};
    if !a.converted || output !in a.files then Served(ServerError(NotConverted, NotConvertedError), cleaned, a.commands)
    else Served(Pdf(a.files[output], disposition), cleaned, a.commands)
  }

  /** POST: the files and commands of one request. */
  function PostOf(request: Request, timestamp: int, tempDir: string, shell: Shell, files: map<string, Bytes>): Served {
    match request
    case Unreadable(reason) => Served(ServerError(FormDataFailed, reason), files, [])
    case Form(NoFile) => Served(BadRequest(NoFileError), files, [])
    case Form(TextField(v)) =>
      if v == "" then Served(BadRequest(NoFileError), files, [])
      else Served(ServerError(NameMissing, NameTypeError), files, [])
    case Form(Upload(name, bytes)) => ConvertUpload(timestamp, tempDir, shell, files, name, bytes)
  }

  /** The answer's status: 400 exactly for a missing or empty `file` field, a PDF
   *  only for an upload, and a request refused before conversion runs no command
   *  and leaves the folder alone. Each 500 carries its error's message: the
   *  install hint when nothing converted, the form parser's error, or the
   *  TypeError of reading `name` from a plain form value. */
  lemma PostStatus(request: Request, timestamp: int, tempDir: string, shell: Shell, files: map<string, Bytes>)
    ensures var r := PostOf(request, timestamp, tempDir, shell, files);
      && (Status(r.response) == 400 <==> request.Form? && (request.file.NoFile? || request.file == TextField("")))
      && (r.response.BadRequest? ==> r.response.error == NoFileError)
      && (r.response.Pdf? ==> request.Form? && request.file.Upload?)
      && (!(request.Form? && request.file.Upload?) ==> r.files == files && r.commands == [])
      && (request.Form? && request.file.Upload? ==> r.response.Pdf? || r.response == ServerError(NotConverted, NotConvertedError))
      && (request.Unreadable? ==> r.response == ServerError(FormDataFailed, request.reason))
      && (request.Form? && request.file.TextField? && request.file.value != "" ==> r.response == ServerError(NameMissing, NameTypeError))
  {
  }

  /** Both temporary files are gone afterwards, on the PDF path and on the error path. */
  lemma UploadCleanedUp(timestamp: int, tempDir: string, shell: Shell, files: map<string, Bytes>, name: string, bytes: Bytes)
    ensures var r := ConvertUpload(timestamp, tempDir, shell, files, name, bytes);
      && Join(tempDir, InputName(timestamp, name)) !in r.files
      && Join(tempDir, OutputName(timestamp, name)) !in r.files
  {
  }

  /** The PDF sent back is the file at the expected output path after the
   *  converters ran, saved under the base name; it is sent exactly when one of
   *  the two stages converted. */
  lemma PdfIsConvertedOutput(timestamp: int, tempDir: string, shell: Shell, files: map<string, Bytes>, name: string, bytes: Bytes)
    ensures var input := Join(tempDir, InputName(timestamp, name));
      var output := Join(tempDir, OutputName(timestamp, name));
      var a := Docx2pdfStage(shell, input, output, LibreOfficeStage(shell, tempDir, input, output, files[input := bytes]));
      var r := ConvertUpload(timestamp, tempDir, shell, files, name, bytes);
      && (r.response.Pdf? <==> a.converted)
      && (r.response.Pdf? ==> r.response.body == a.files[output] && r.response.disposition == ContentDisposition(name))
      && (!r.response.Pdf? ==> r.response == ServerError(NotConverted, NotConvertedError))
  {
  }

  /** When LibreOffice converts: it was found, its command succeeded and the PDF is
   *  at the expected path. */
  lemma LibreOfficeConverts(shell: Shell, tempDir: string, input: string, output: string, files: map<string, Bytes>)
    ensures var lib := LibreOfficeStage(shell, tempDir, input, output, files);
      lib.converted <==>
        (Found(LibreOffice, shell).Some?
         && shell.succeeds(LibreConvert(Found(LibreOffice, shell).value, input, tempDir))
         && output in AfterRun(shell, LibreConvert(Found(LibreOffice, shell).value, input, tempDir), files))
  {
  }

  /** docx2pdf runs only when LibreOffice was not found, failed, or left no PDF at
   *  the expected path, and then it always gets its turn once Python is found. */
  lemma Docx2pdfOnlyAsFallback(shell: Shell, tempDir: string, input: string, output: string, files: map<string, Bytes>)
    ensures var lib := LibreOfficeStage(shell, tempDir, input, output, files);
      var cs := Docx2pdfStage(shell, input, output, lib).commands;
      (exists k :: 0 <= k < |cs| && cs[k].Docx2pdfConvert?) <==> !lib.converted && Found(Python, shell).Some?
  {
    var lib := LibreOfficeStage(shell, tempDir, input, output, files);
    var lp := ProbeLog(LibreOffice, shell);
    assert forall k :: 0 <= k < |lp| ==> lp[k].Version?;
    if !lib.converted {
      var d := Docx2pdfRun(shell, input, output, lib.files);
      var py := ProbeLog(Python, shell);
      assert forall k :: 0 <= k < |py| ==> py[k].Version?;
      var cs := lib.commands + d.commands;
      if Found(Python, shell).Some? {
        assert cs[|cs| - 1].Docx2pdfConvert?;
      } else {
        assert forall k :: 0 <= k < |cs| ==> !cs[k].Docx2pdfConvert?;
      }
    }
  }

  /** All of LibreOffice's commands come before docx2pdf's. */
  lemma LibreOfficeFirst(shell: Shell, tempDir: string, input: string, output: string, files: map<string, Bytes>)
    ensures var cs := Docx2pdfStage(shell, input, output, LibreOfficeStage(shell, tempDir, input, output, files)).commands;
      forall i, j :: 0 <= i < j < |cs| && cs[i].Docx2pdfConvert? ==> !cs[j].LibreConvert? && !(cs[j].Version? && cs[j].tool == LibreOffice)
  {
    var lib := LibreOfficeStage(shell, tempDir, input, output, files);
    var lp := ProbeLog(LibreOffice, shell);
    assert forall k :: 0 <= k < |lp| ==> lp[k].Version?;
    if !lib.converted {
      var d := Docx2pdfRun(shell, input, output, lib.files);
      var py := ProbeLog(Python, shell);
      assert forall k :: 0 <= k < |py| ==> py[k].Version? && py[k].tool == Python;
      assert forall k :: 0 <= k < |d.commands| ==> !d.commands[k].LibreConvert? && !(d.commands[k].Version? && d.commands[k].tool == LibreOffice);
    }
  }

  // ---------------------------------------------------------------------------
  // The route, step by step

  /** The server's temporary folder and the commands it has run. */
  class ConversionHost {
    var files: map<string, Bytes>
    var dirs: set<string>
    var commands: seq<Command>

    constructor (files0: map<string, Bytes>)
      ensures files == files0 && dirs == {} && commands == []
    {
      files := files0;
      dirs := {};
      commands := [];
    }

    /** ensureTempDir (a failing mkdir is not modelled). */
    method EnsureTempDir(tempDir: string)
      modifies this`dirs
      ensures dirs == old(dirs) + {tempDir}
    {
      dirs := dirs + {tempDir};
    }

    /** cleanFile: removes the file when it exists; `existsSync('')` is false. */
    method CleanFile(path: string)
      modifies this`files
      ensures files == if path != "" then old(files) - {path} else old(files)
    {
      if path != "" && path in files {
        files := files - {path};
      }
    }

    /** `execAsync(CommandLine(c))`: true when the command exits successfully. */
    method Exec(c: Command, shell: Shell) returns (ok: bool)
      modifies this`files, this`commands
      ensures ok == shell.succeeds(c)
      ensures files == AfterRun(shell, c, old(files))
      ensures commands == old(commands) + [c]
    {
      commands := commands + [c];
      ok := shell.succeeds(c);
      if ok {
        files := files + shell.writes(c);
      }
    }

    /** findLibreOffice and findPython: each candidate's `--version` in turn, and the
     *  first that succeeds. A probe writes no file. */
    method FindTool(t: Tool, shell: Shell) returns (found: Option<string>)
      modifies this`commands
      ensures found == Found(t, shell)
      ensures commands == old(commands) + ProbeLog(t, shell)
    {
      var candidates := Candidates(t);
      var i := 0;
      while i < |candidates|
        invariant 0 <= i <= |candidates|
        invariant forall j :: 0 <= j < i ==> !Works(t, shell, j)
        invariant commands == old(commands) + Probes(t, i)
      {
        var c := Version(t, candidates[i]);
        commands := commands + [c];
        assert Probes(t, i + 1) == Probes(t, i) + [c];
        if shell.succeeds(c) {
          FirstWorkingFromIs(t, shell, 0, i);
          return Some(candidates[i]);
        }
        i := i + 1;
      }
      return None;
    }

    /** The LibreOffice stage of POST. */
    method TryLibreOffice(shell: Shell, tempDir: string, inputPath: string, outputPath: string) returns (converted: bool)
      modifies this`files, this`commands
      ensures var a := LibreOfficeStage(shell, tempDir, inputPath, outputPath, old(files));
        files == a.files && commands == old(commands) + a.commands && converted == a.converted
    {
      converted := false;
      var soffice := FindTool(LibreOffice, shell);
      if soffice.Some? {
        var ok := Exec(LibreConvert(soffice.value, inputPath, tempDir), shell);
        if ok && outputPath in files {
          converted := true;
        }
      }
    }

    /** The docx2pdf stage of POST. */
    method TryDocx2pdf(shell: Shell, inputPath: string, outputPath: string) returns (converted: bool)
      modifies this`files, this`commands
      ensures var a := Docx2pdfRun(shell, inputPath, outputPath, old(files));
        files == a.files && commands == old(commands) + a.commands && converted == a.converted
    {
      converted := false;
      var python := FindTool(Python, shell);
      if python.Some? {
        var ok := Exec(Docx2pdfConvert(python.value, inputPath, outputPath), shell);
        if ok && outputPath in files {
          converted := true;
        }
      }
    }

    /** POST /api/convert-word. */
    method Post(request: Request, timestamp: int, tempDir: string, shell: Shell) returns (response: Response)
      modifies this
      ensures var s := PostOf(request, timestamp, tempDir, shell, old(files));
        response == s.response && files == s.files && commands == old(commands) + s.commands
      ensures dirs == old(dirs) + {tempDir}
    {
      var inputPath := "";
      var outputPath := "";
      EnsureTempDir(tempDir);
      if request.Unreadable? {
        CleanFile(inputPath);
        CleanFile(outputPath);
        return ServerError(FormDataFailed, request.reason);
      }
      var file := request.file;
      if file.NoFile? || file == TextField("") {
        return BadRequest(NoFileError);
      }
      if file.TextField? {
        CleanFile(inputPath);
        CleanFile(outputPath);
        return ServerError(NameMissing, NameTypeError);
      }
      response := ConvertFile(file.name, file.bytes, timestamp, tempDir, shell);
    }

    /** The two converters in turn, from `let converted = false` to the last
     *  `converted = true`. */
    method RunConverters(shell: Shell, tempDir: string, inputPath: string, outputPath: string) returns (converted: bool)
      modifies this`files, this`commands
      ensures var a := Docx2pdfStage(shell, inputPath, outputPath, LibreOfficeStage(shell, tempDir, inputPath, outputPath, old(files)));
        files == a.files && commands == old(commands) + a.commands && converted == a.converted
    {
      ghost var lib := LibreOfficeStage(shell, tempDir, inputPath, outputPath, files);
      ghost var commands0 := commands;
      converted := TryLibreOffice(shell, tempDir, inputPath, outputPath);
      if !converted {
        ghost var commands1 := commands;
        converted := TryDocx2pdf(shell, inputPath, outputPath);
        ghost var d := Docx2pdfRun(shell, inputPath, outputPath, lib.files);
        assert commands == commands0 + (lib.commands + d.commands);
      }
    }

    /** The part of POST after the upload is known: write it, convert it, read the
     *  PDF and clean up. */
    method ConvertFile(name: string, bytes: Bytes, timestamp: int, tempDir: string, shell: Shell) returns (response: Response)
      modifies this`files, this`commands
      ensures var s := ConvertUpload(timestamp, tempDir, shell, old(files), name, bytes);
        response == s.response && files == s.files && commands == old(commands) + s.commands
    {
      var originalName := Sanitize(name);
      var baseName := StripDocExt(originalName);
      var inputPath := Join(tempDir, IntToString(timestamp) + "_" + originalName);
      var outputPath := Join(tempDir, IntToString(timestamp) + "_" + baseName + ".pdf");
      assert inputPath == Join(tempDir, InputName(timestamp, name));
      assert outputPath == Join(tempDir, OutputName(timestamp, name));
      files := files[inputPath := bytes];
      var converted := RunConverters(shell, tempDir, inputPath, outputPath);
      response := Finish(converted, inputPath, outputPath, "attachment; filename=\"" + (baseName + ".pdf") + "\"");
    }

    /** Reading the PDF and removing the temporary files. */
    method Finish(converted: bool, inputPath: string, outputPath: string, disposition: string) returns (response: Response)
      requires inputPath != "" && outputPath != ""
      modifies this`files
      ensures var s := Answer(Attempt(old(files), [], converted), inputPath, outputPath, disposition);
        response == s.response && files == s.files
    {
      if !converted || outputPath !in files {
        CleanFile(inputPath);
        CleanFile(outputPath);
        return ServerError(NotConverted, NotConvertedError);
      }
      var pdf := files[outputPath];
      CleanFile(inputPath);
      CleanFile(outputPath);
      response := Pdf(pdf, disposition);
    }
  }
}
