# Financial document analyser: a Dafny model of its tools and upload handler

The system takes an uploaded PDF and a question. It saves the file under a
temporary name and hands the question and the path to a crew of LLM agents.
It returns the crew's text in a JSON envelope and deletes the temporary file.
The repository's own logic is in two places, and this project models both:

- **The tools the agents call** (`tools.py`):
  - The financial-document reader checks, in order: the path exists, it is a
    regular file, its name ends in `.pdf` in any case, the PDF parses, and it
    has a page. Each failed check returns its own error string.
  - For each page, the reader skips it when extraction fails or the text is
    blank. Otherwise it collapses every `"\n\n"` to `"\n"` with a `while`
    loop and appends the page plus one newline.
  - At the end it returns a warning when nothing readable was found, and the
    stripped text otherwise.
  - Two analysis stubs check their input and report a length and a word count.
- **The HTTP side** (`main.py`):
  - `run_crew` reports a missing file without starting the crew, and turns
    any crew failure into a returned string.
  - The `POST /analyze` handler checks the name, then the size (at most
    10 MiB). It saves the upload, replaces an empty query with the default,
    runs the crew on the stripped query and builds the success envelope. A
    `finally` block removes the temporary file.

Modules:

- `Text` (text.dfy): the Python string operations used, with their laws.
  These are `isspace`, `strip`, `split()`, `' '.join`, the lower-cased
  `.pdf` suffix test, and `str()` of a number.
- `Tools` (tools.dfy): the reader is a method with the page loop and the
  collapse loop. The stubs are functions.
- `Api` (api.dfy): `run_crew` is a function. The handler is a method of a
  `Server` class whose `files` map is the shared `data/` directory.
- `Wrappers` (wrappers.dfy): `Option`.

The PDF library is replaced by what it produces. A regular file holds a
document that is either corrupt (the parser's read error), inaccessible (any
other exception while opening or parsing), or parsed into pages. Each page is
`Option<string>`, where `None` means extraction raised. External inputs are
method parameters:

- the crew's `kickoff`: a function from (query, path) to completed text or a
  raised error;
- the generated identifier;
- whether saving the upload fails, and with which message;
- whether the cleanup removal succeeds.

Behaviour the model takes from the code that a reader might not expect:

- The handler constructs a 400 (not a PDF) and a 413 (too large) error, but
  raises them inside its `try`. The generic `except Exception` turns them into 500. Its detail is
  `"Error processing financial document: 400: Only PDF files are supported"`,
  which is how the framework's `HTTPException` prints. So the client never
  sees 400 or 413 (`Api.RejectionSurfacesAs500`, `Api.Server.AnalyzeFinancialDocument`).
- A PDF with no pages is reported as the error string
  `"Error: PDF file contains no pages"`, in the same form as the
  corrupt-file error. It is still distinct from the corrupt-file, access-error
  and no-text replies (`Tools.NoPagesIsDistinct`).
- Collapsing runs of newlines happens only within a page. A page ending in a
  newline followed by a page starting with one gives two empty lines in a row
  (`Tools.BlankLinesAcrossPages`). What does hold is that the result never has
  four `\n` characters in a row (`Tools.ExtractedRunsShort`). Within one page,
  every run of consecutive `\n` characters becomes a single `\n`, which
  removes empty lines altogether rather than keeping one.
- The collapse only joins adjacent `\n` characters. Lines holding only spaces
  or tabs, and `\r\n` line endings, come through unchanged, so several
  whitespace-only lines in a row can still reach the result.

## Model

| member | source | states |
|---|---|---|
| `Text.Strip` | tools.py:88-91 | `strip()` returns the part of the input between two blank margins. It neither starts nor ends with whitespace, and it is empty exactly when the input is blank |
| `Text.SkipSpaces` | tools.py:91 | the scan for the start of `strip()` stops at the first non-whitespace character, having passed only whitespace |
| `Text.TrimSpaces` | tools.py:91 | the scan for the end of `strip()` stops just after the last non-whitespace character, having passed only whitespace |
| `Text.Split` | tools.py:122 | every token `split()` returns is a non-empty run of non-whitespace characters |
| `Text.Normalize` | tools.py:122 | `' '.join(s.split())` has whitespace only as single spaces strictly inside it, and it splits into the same words as `s` |
| `Text.SplitJoin` | tools.py:122 | splitting words that were joined by single spaces gives the same words back |
| `Text.NormalizeIdempotent` | tools.py:122 | normalising the normalised text changes nothing |
| `Text.SplitStrip` | tools.py:119-122 | stripping before splitting does not change the tokens |
| `Text.IsPdfName` | tools.py:47 | the lower-cased `.pdf` suffix test depends only on the last four characters: it passes exactly when they, lower-cased, are `.pdf` |
| `Text.PdfNameExactly` | tools.py:47 | the lower-cased `.pdf` suffix test accepts exactly the names ending in a dot and p, d, f in either case |
| `Text.PdfNameExamples` | main.py:64 | `report.PDF` and `report.Pdf` pass; `report.pdfx` and `pdf` do not |
| `Text.Decimal` | tools.py:125-132 | `str(n)` is a non-empty string of digits without a leading zero |
| `Text.DecimalRoundTrip` | tools.py:125-132 | reading back the digits of `str(n)` gives `n` |
| `Tools.ReplaceDoubleNewlines` | tools.py:71 | one `replace` pass never lengthens the text and keeps its first character |
| `Tools.ReplaceShortens` | tools.py:70-71 | while `"\n\n"` remains, one `replace` strictly shortens the text, so the collapse loop terminates |
| `Tools.ReplacePreservesSquash` | tools.py:71 | one `replace` pass does not change the result of collapsing every newline run to one newline |
| `Tools.SquashHasNoDoubleNewline` | tools.py:70-71 | the collapsed text holds no `"\n\n"` |
| `Tools.SquashOfClean` | tools.py:70 | text with no `"\n\n"` is left as it is, so the loop stops at the right point |
| `Tools.CollapseBlankLines` | tools.py:70-71 | the `while` loop ends with no `"\n\n"` left, and its result is the input with each newline run reduced to one newline |
| `Tools.SquashKeepsBlankness` | tools.py:68-71 | collapsing newlines keeps a page blank or non-blank |
| `Tools.ReportConcat` | tools.py:62-77 | the report over consecutive page ranges is the concatenation of their reports, so pages are appended in index order |
| `Tools.SinglePageReport` | tools.py:68-73 | a readable page contributes its collapsed text followed by exactly one newline, and that text holds no `"\n\n"` |
| `Tools.ReportBlankIff` | tools.py:62-89 | the accumulated report is blank exactly when every page failed extraction or was blank |
| `Tools.ReadDataTool` | tools.py:35-91 | the reader's checks run in order with their own messages: missing path, non-file, non-`.pdf` name (before opening), parse error, access error, no pages. After them comes the no-text warning when the page loop's report is blank, and the stripped report otherwise |
| `Tools.ExtractedText` | tools.py:87-91 | once any page is readable the report is not blank, so the reader returns text and not the warning; that text is non-empty and has no leading or trailing whitespace |
| `Tools.ReportRunsShort` | tools.py:62-77 | across all page boundaries the report never holds four newlines in a row |
| `Tools.ExtractedRunsShort` | tools.py:91 | the returned text never holds four `\n` characters in a row. Whitespace-only lines are not counted here |
| `Tools.BlankLinesAcrossPages` | tools.py:62-91 | pages `"a\n"` and `"\nb"` give `"a\n\n\nb"`: two empty lines survive across a page boundary |
| `Tools.NoPagesIsDistinct` | tools.py:59-60 | the no-pages reply differs from the corrupt-file reply, the access-error reply and the no-text warning |
| `Tools.AnalyzeInvestment` | tools.py:113-132 | blank input, empty included, is refused. Otherwise `data_length` is the length of the normalised text and `word_count` its number of words, which is positive, with `data_length >= 2 * word_count - 1` |
| `Tools.InvestmentFacts` | tools.py:119-127 | normalising the stripped text equals normalising the raw text, and non-blank text has at least one word |
| `Tools.RenderInvestment` | tools.py:114-132 | the reply is the error message for refused input, and it starts with `{`, as Python prints a dictionary, exactly when there is a result |
| `Tools.RenderInvestmentInjective` | tools.py:125-132 | the tool's reply string determines the report: both counts can be read back |
| `Tools.AssessRisk` | tools.py:153-166 | blank input is refused; otherwise `data_processed` is the length of the raw, unstripped input |
| `Tools.RenderRisk` | tools.py:155-166 | the reply is the error message for refused input, and it starts with `{` exactly when there is a result |
| `Tools.RenderRiskInjective` | tools.py:159-166 | the tool's reply string determines the report: the processed length can be read back |
| `Tools.StubsMeasureDifferently` | tools.py:119-127 | on `" a "` the risk tool reports 3 and the investment tool a length of 1 and one word |
| `Api.RunCrew` | main.py:18-45 | a missing file is reported as `Error: File not found at <path>`. Otherwise the crew runs on the query and path; its text is returned, or `Error in analysis: <error>` when it raised |
| `Api.MissingFileSkipsCrew` | main.py:24-26 | with the file missing, the reply does not depend on the crew at all |
| `Api.ValidateUpload` | main.py:63-76 | an upload passes exactly when the name has a `.pdf` suffix and the size is at most 10 MiB. The name check comes first (400), then the size check (413) |
| `Api.SizeBoundary` | main.py:72 | an upload of exactly 10 MiB is accepted and one byte more is rejected with 413 |
| `Api.ExceptionText` | main.py:109 | `str(e)` of an `HTTPException` starts with a digit of its status code and ends with its detail unchanged |
| `Api.ExceptionTextInjective` | main.py:109 | the text of an `HTTPException` determines both its status code and its detail |
| `Api.Reraise` | main.py:108-109 | everything raised inside the `try` leaves the handler as status 500, with a detail that starts `Error processing financial document: ` |
| `Api.ReraiseInjective` | main.py:108-109 | the 500's detail still determines the original status and detail |
| `Api.RejectionSurfacesAs500` | main.py:64-76 | a validation rejection is raised as 400 or 413 but surfaces as 500 |
| `Api.EffectiveQuery` | main.py:93-94 | only the empty query is replaced by the default; any other query is kept |
| `Api.BlankQueryReachesCrewEmpty` | main.py:93-103 | a whitespace-only query is echoed unchanged, but the crew receives the empty string |
| `Api.TempPath` | main.py:60 | the temporary name lies in the `data/` directory and passes the `.pdf` test |
| `Api.TempPathInjective` | main.py:59-60 | distinct identifiers give distinct temporary names |
| `Api.Server.TryAnalyze` | main.py:62-106 | the `try` body raises the validation error, else the save error as a 500; otherwise it stores the upload at the temporary path and returns the envelope. The envelope holds the defaulted query, the crew's reply to the stripped query and the original file name. The store changes only when nothing was raised |
| `Api.Server.RemoveTemporary` | main.py:110-118 | the `finally` step: when removal succeeds the store no longer holds the temporary path and is otherwise unchanged; a failed removal is swallowed and changes nothing |
| `Api.Server.AnalyzeFinancialDocument` | main.py:52-119 | the response is the re-raised 500 for a rejected name or size or a failed save, and the success envelope otherwise, even when the crew failed. When removal succeeds the store afterwards is the old store without the temporary path, on every path; when it fails, only a successful save leaves the upload behind |

## Left out

- PDF parsing and text extraction (the PyPDF2 library) are not modelled. A file
  is described by its outcome: read error, other access error, or pages of
  optional text.
- The reader's outermost `except Exception` (tools.py:93-95) is not modelled.
  Nothing in the modelled steps can raise once the path is a string.
  The same holds for the stubs' `except` branches (tools.py:134-136, 168-170).
- Logging (`logger.*`, `logging.basicConfig`) and `load_dotenv` are left out.
  They do not affect any result.
- Lower-casing uses ASCII letters only. Python's Unicode `lower()` cannot turn
  another character into the `.`, `p`, `d` or `f` of the suffix test, so the
  test's outcome is the same.
- The crew (crewai `Crew`, `Task`, `Agent`, the LLM and the web-search tool) is
  an opaque `kickoff` parameter. The files agents.py and task.py hold only
  configuration and are not part of this model. Whether the crew reads the
  temporary file through the reader is not modelled.
- FastAPI routing, multipart parsing and `async` reading of the upload are not
  modelled. The global exception handler (main.py:121-128), the health endpoint
  and `uvicorn` are not modelled either. A failing `file.read()` and a missing
  upload filename are not modelled.
- `uuid4` is the `fileId` parameter. Uniqueness is not assumed: on a clash, the
  `finally` block removes whatever file is at that path.
- The default paths `'data/sample.pdf'` of `read_data_tool` (tools.py:25) and
  `run_crew` (main.py:18) are not modelled. The path is always a parameter,
  and a caller can pass that path explicitly, so no behaviour is lost.
- `os.makedirs("data")` is not modelled; the directory always exists.
- A failed save is modelled as writing nothing. Only `IOError` from the save is
  modelled. A partially written file and other exception types are not.
- `query is None` (main.py:93) is not modelled. The form always supplies a
  string, and the framework fills in the default when the field is absent.
