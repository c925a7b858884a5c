/** The HTTP side of main.py: `run_crew`, which guards the crew behind a file
    existence check and turns every failure into a string, and the
    `POST /analyze` handler, which validates the upload, stores it under a
    fresh temporary name in the shared `data/` directory, runs the crew and
    removes the temporary file on every path. The crew itself, the
    file-system calls that can fail and the generated identifier are
    parameters. */
module Api {
  import opened Wrappers
  import opened Text

  type Bytes = seq<bv8>

  const DefaultQuery := "Analyze this financial document for investment insights"

  /** The upload limit, 10 MiB; an upload of exactly this size is accepted. */
  const MaxUploadBytes := 10 * 1024 * 1024

  /* ---------------------------------------------------------------------
     run_crew
     --------------------------------------------------------------------- */

  /** What the crew's `kickoff` did with the inputs it was given. */
  datatype CrewOutcome = Completed(output: string) | Raised(error: string)

  /** `run_crew(query, file_path)`: a missing file is reported without
      starting the crew; otherwise the crew runs on the query and the path,
      and an exception it raises is returned as text. It never raises. */
  function RunCrew(query: string, filePath: string, fileExists: bool,
                   kickoff: (string, string) -> CrewOutcome): (r: string)
    ensures !fileExists ==> r == "Error: File not found at " + filePath
    ensures fileExists ==> match kickoff(query, filePath)
      case Completed(text) => r == text
      case Raised(e) => r == "Error in analysis: " + e
  {
    if !fileExists then "Error: File not found at " + filePath
    else match kickoff(query, filePath)
      case Completed(text) => text
      case Raised(e) => "Error in analysis: " + e
  }

  /** When the file is missing the crew is never consulted: the reply is the
      same whatever the crew would have done. */
  lemma MissingFileSkipsCrew(query: string, filePath: string,
                             k1: (string, string) -> CrewOutcome, k2: (string, string) -> CrewOutcome)
    ensures RunCrew(query, filePath, false, k1) == RunCrew(query, filePath, false, k2)
    ensures RunCrew(query, filePath, false, k1) == "Error: File not found at " + filePath
  {
  }

  /* ---------------------------------------------------------------------
     Upload validation and exception translation
     --------------------------------------------------------------------- */

  /** An `HTTPException` with its status code and detail text. */
  datatype HttpError = HttpError(status: nat, detail: string)

  /** The handler's reply: the success envelope or a raised HTTP error. */
  datatype Response =
    | Success(query: string, analysis: string, fileProcessed: string)
    | Failure(error: HttpError)

  const UnsupportedTypeDetail := "Only PDF files are supported"
  const TooLargeDetail := "File size too large. Maximum 10MB allowed."
  const SaveFailedPrefix := "Failed to save uploaded file: "
  const ProcessingPrefix := "Error processing financial document: "

  /** The two checks inside the handler's `try`, in order: the file name must
      end in `.pdf` in any case, then the upload must be at most 10 MiB. The
      name check wins when both fail. */
  function ValidateUpload(fileName: string, size: nat): (r: Option<HttpError>)
    ensures r == None <==> IsPdfName(fileName) && size <= MaxUploadBytes
    ensures !IsPdfName(fileName) ==> r == Some(HttpError(400, UnsupportedTypeDetail))
    ensures IsPdfName(fileName) && size > MaxUploadBytes ==> r == Some(HttpError(413, TooLargeDetail))
  {
    if !IsPdfName(fileName) then Some(HttpError(400, UnsupportedTypeDetail))
    else if size > MaxUploadBytes then Some(HttpError(413, TooLargeDetail))
    else None
  }

  /** The size bound is inclusive. */
  lemma SizeBoundary(fileName: string)
    requires IsPdfName(fileName)
    ensures ValidateUpload(fileName, MaxUploadBytes) == None
    ensures ValidateUpload(fileName, MaxUploadBytes + 1) == Some(HttpError(413, TooLargeDetail))
  {
  }

  /** `str()` of an `HTTPException`: its status code, a colon and its detail.
      The text starts with a digit and ends with the detail unchanged. */
  function ExceptionText(e: HttpError): (s: string)
    ensures |s| > |e.detail| + 2 && '0' <= s[0] <= '9'
    ensures s[|s| - |e.detail|..] == e.detail
  {
    var tail := ": " + e.detail;
    var s := Decimal(e.status) + tail;
    assert s[|s| - |e.detail|..] == tail[2..] == e.detail;
    s
  }

  /** The text of an exception determines its status and detail. */
  lemma ExceptionTextInjective(a: HttpError, b: HttpError)
    requires ExceptionText(a) == ExceptionText(b)
    ensures a == b
  {
    var xa, xb := ": " + a.detail, ": " + b.detail;
    assert xa[0] == ':' && xb[0] == ':';
    DecimalThenSeparator(a.status, b.status, xa, xb);
    CancelPrefix(": ", a.detail, b.detail);
  }

  /** The handler's `except Exception as e` clause: whatever was raised inside
      the `try`, including the handler's own 400, 413 and 500 errors, is
      raised again as a 500 whose detail embeds the original exception. */
  function Reraise(e: HttpError): (r: HttpError)
    ensures r.status == 500
    ensures |r.detail| > |ProcessingPrefix| && r.detail[..|ProcessingPrefix|] == ProcessingPrefix
  {
    HttpError(500, ProcessingPrefix + ExceptionText(e))
  }

  /** Distinct exceptions inside the `try` surface as distinct 500 errors:
      the original status and detail can still be read from the text. */
  lemma ReraiseInjective(a: HttpError, b: HttpError)
    requires Reraise(a) == Reraise(b)
    ensures a == b
  {
    CancelPrefix(ProcessingPrefix, ExceptionText(a), ExceptionText(b));
    ExceptionTextInjective(a, b);
  }

  /** A rejected upload is reported to the client with status 500, never
      with the 400 or 413 the validation raised. */
  lemma RejectionSurfacesAs500(fileName: string, size: nat)
    requires ValidateUpload(fileName, size).Some?
    ensures Reraise(ValidateUpload(fileName, size).value).status == 500
    ensures ValidateUpload(fileName, size).value.status in {400, 413}
  {
  }

  /* ---------------------------------------------------------------------
     Query defaulting and the temporary path
     --------------------------------------------------------------------- */

  /** The query after `if query == "": query = <default>`: only the empty
      string is replaced, so a whitespace-only query is kept as it is. */
  function EffectiveQuery(query: string): (r: string)
    ensures r != ""
    ensures query != "" ==> r == query
    ensures query == "" ==> r == DefaultQuery
  {
    if query == "" then DefaultQuery else query
  }

  /** A whitespace-only query reaches the crew as the empty string, while
      the response echoes it unchanged. */
  lemma BlankQueryReachesCrewEmpty(query: string)
    requires query != "" && IsBlank(query)
    ensures EffectiveQuery(query) == query
    ensures Strip(EffectiveQuery(query)) == ""
  {
  }

  /** `f"data/financial_document_{file_id}.pdf"`: a name in the `data/`
      directory that passes the reader's `.pdf` check. */
  function TempPath(fileId: string): (p: string)
    ensures |p| > 5 && p[..5] == "data/"
    ensures IsPdfName(p)
  {
    var p := "data/financial_document_" + (fileId + ".pdf");
    assert p[|p| - 4..] == ".pdf";
    assert Lower(".pdf") == ".pdf";
    assert p[..5] == "data/";
    p
  }

  /** Different identifiers give different names, so requests with distinct
      identifiers never share a temporary file. */
  lemma TempPathInjective(a: string, b: string)
    ensures TempPath(a) == TempPath(b) ==> a == b
  {
    if TempPath(a) == TempPath(b) {
      CancelPrefix("data/financial_document_", a + ".pdf", b + ".pdf");
      assert a == (a + ".pdf")[..|a|];
      assert b == (b + ".pdf")[..|b|];
    }
  }

  /** Storing a file and then removing it leaves the other files as they
      were. */
  lemma StoreThenRemove(m: map<string, Bytes>, path: string, content: Bytes)
    ensures m[path := content] - {path} == m - {path}
  {
  }

  /* ---------------------------------------------------------------------
     The handler
     --------------------------------------------------------------------- */

  /** The server's view of the shared `data/` directory: the files in it by
      path. */
  class Server {
    var files: map<string, Bytes>

    constructor (files: map<string, Bytes>)
      ensures this.files == files
    {
      this.files := files;
    }

    /** `analyze_financial_document`. `fileId` is the freshly generated
        identifier; `writeError` is the I/O error saving the upload raised,
        if any; `kickoff` is the crew; `removeOk` says whether removing the
        temporary file in the `finally` block succeeds (a failure there is
        swallowed). */
    method AnalyzeFinancialDocument(fileName: string, upload: Bytes, query: string, fileId: string,
                                    writeError: Option<string>,
                                    kickoff: (string, string) -> CrewOutcome,
                                    removeOk: bool)
      returns (resp: Response)
      modifies this
      ensures var check := ValidateUpload(fileName, |upload|);
        && (check.Some? ==> resp == Failure(Reraise(check.value)))
        && (check.None? && writeError.Some? ==>
              resp == Failure(Reraise(HttpError(500, SaveFailedPrefix + writeError.value))))
        && (check.None? && writeError.None? ==>
              resp == Success(EffectiveQuery(query),
                              RunCrew(Strip(EffectiveQuery(query)), TempPath(fileId), true, kickoff),
                              fileName))
      ensures removeOk ==> files == old(files) - {TempPath(fileId)}
      ensures !removeOk ==>
        files == if ValidateUpload(fileName, |upload|).None? && writeError.None?
                 then old(files)[TempPath(fileId) := upload]
                 else old(files)
    {
      var path := TempPath(fileId);
      var raised, result := TryAnalyze(fileName, upload, query, path, writeError, kickoff);
      // The generic exception clause turns whatever the `try` body raised
      // into a 500.
      if raised.Some? {
        result := Failure(Reraise(raised.value));
      }
      // The clean-up clause runs on every path.
      RemoveTemporary(path, removeOk);
      if removeOk {
        StoreThenRemove(old(files), path, upload);
      }
      resp := result;
    }

    /** The `finally` block's `os.remove(temp_file_path)` when the file exists;
        a failing removal is swallowed and leaves the store as it was. */
    method RemoveTemporary(path: string, removeOk: bool)
      modifies this
      ensures files == if removeOk then old(files) - {path} else old(files)
    {
      if path in files && removeOk {
        files := files - {path};
      }
    }

    /** The body of the handler's `try`: the name check, reading and
        size-checking the upload, saving it at `path`, defaulting the query
        and running the crew on the stripped query. It gives back the HTTP
        error it raised, or else the success envelope; the upload is stored
        only when nothing was raised. */
    method TryAnalyze(fileName: string, upload: Bytes, query: string, path: string,
                      writeError: Option<string>,
                      kickoff: (string, string) -> CrewOutcome)
      returns (raised: Option<HttpError>, envelope: Response)
      modifies this
      ensures raised ==
        if ValidateUpload(fileName, |upload|).Some? then ValidateUpload(fileName, |upload|)
        else if writeError.Some? then Some(HttpError(500, SaveFailedPrefix + writeError.value))
        else None
      ensures raised.None? ==>
        envelope == Success(EffectiveQuery(query), RunCrew(Strip(EffectiveQuery(query)), path, true, kickoff), fileName)
      ensures files == if raised.None? then old(files)[path := upload] else old(files)
    {
      envelope := Failure(HttpError(500, ""));
      raised := ValidateUpload(fileName, |upload|);
      if raised.Some? {
        return;
      }
      if writeError.Some? {
        raised := Some(HttpError(500, SaveFailedPrefix + writeError.value));
        return;
      }
      files := files[path := upload];
      var q := query;
      if q == "" {
        q := DefaultQuery;
      }
      var analysis := RunCrew(Strip(q), path, path in files, kickoff);
      envelope := Success(q, analysis, fileName);
    }
  }
}
