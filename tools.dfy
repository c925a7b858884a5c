/** The agent tools of tools.py: the financial-document reader, which turns a
    PDF on disk into plain text and never raises, and the two analysis stubs,
    which check their input and report shallow statistics. The PDF library is
    abstracted: a file is described by what opening, parsing and extracting
    each page produced. */
module Tools {
  import opened Wrappers
  import opened Text

  /** What opening and parsing a regular file as a PDF produces. */
  datatype PdfDocument =
    | Corrupt(readError: string)             // the parser raised its read error
    | Inaccessible(accessError: string)      // any other exception while opening or parsing
    | Parsed(pages: seq<Option<string>>)     // one entry per page; None where extraction raised

  /** What the file system holds at a path. */
  datatype PathEntry =
    | Missing
    | NotRegularFile                         // exists, but is a directory or a special file
    | RegularFile(document: PdfDocument)

  // The reader's fixed replies.
  const NoPagesMessage := "Error: PDF file contains no pages"
  const NoTextWarning := "Warning: No readable text content found in the PDF file"

  function NotFoundMessage(path: string): string { "Error: File not found at path " + path }
  function NotAFileMessage(path: string): string { "Error: Path is not a file: " + path }
  function NotAPdfMessage(path: string): string { "Error: File is not a PDF: " + path }
  function CorruptMessage(detail: string): string { "Error: Invalid or corrupted PDF file - " + detail }
  function AccessMessage(detail: string): string { "Error: Cannot access file - " + detail }

  /* ---------------------------------------------------------------------
     Collapsing empty lines inside one page
     --------------------------------------------------------------------- */

  /** `"\n\n" in s`. */
  predicate HasDoubleNewline(s: string) {
    exists i | 0 <= i < |s| - 1 :: s[i] == '\n' && s[i + 1] == '\n'
  }

  /** `s.replace("\n\n", "\n")`: every non-overlapping pair of newlines,
      scanning left to right, becomes one newline. */
  function ReplaceDoubleNewlines(s: string): (r: string)
    ensures |r| <= |s|
    ensures |s| > 0 ==> |r| > 0 && r[0] == s[0]
  {
    if |s| < 2 then s
    else if s[0] == '\n' && s[1] == '\n' then "\n" + ReplaceDoubleNewlines(s[2..])
    else [s[0]] + ReplaceDoubleNewlines(s[1..])
  }

  /** Reference meaning of the collapse: every maximal run of newlines in `s`
      is replaced by a single newline, and nothing else changes. */
  function Squash(s: string): (r: string)
    ensures |r| <= |s|
    ensures |s| > 0 ==> |r| > 0 && r[0] == s[0]
  {
    if |s| < 2 then s
    else if s[0] == '\n' && s[1] == '\n' then Squash(s[1..])
    else [s[0]] + Squash(s[1..])
  }

  lemma SquashCons(c: char, x: string)
    ensures Squash([c] + x) ==
      if c == '\n' && |x| > 0 && x[0] == '\n' then Squash(x) else [c] + Squash(x)
  {
    assert ([c] + x)[1..] == x;
  }

  /** A squashed string holds no pair of adjacent newlines. */
  lemma {:induction false} SquashHasNoDoubleNewline(s: string)
    ensures !HasDoubleNewline(Squash(s))
  {
    if |s| >= 2 {
      SquashHasNoDoubleNewline(s[1..]);
      if !(s[0] == '\n' && s[1] == '\n') {
        var r, t := Squash(s), Squash(s[1..]);
        forall i | 0 <= i < |r| - 1 ensures !(r[i] == '\n' && r[i + 1] == '\n') {
          if i > 0 {
            assert r[i] == t[i - 1] && r[i + 1] == t[i];
          }
        }
      }
    }
  }

  /** A string without adjacent newlines is its own squash. */
  lemma {:induction false} SquashOfClean(s: string)
    requires !HasDoubleNewline(s)
    ensures Squash(s) == s
  {
    if |s| >= 2 {
      assert !(s[0] == '\n' && s[1] == '\n');
      assert !HasDoubleNewline(s[1..]) by {
        forall i | 0 <= i < |s| - 2 ensures !(s[1..][i] == '\n' && s[1..][i + 1] == '\n') {
          assert s[1..][i] == s[i + 1] && s[1..][i + 1] == s[i + 2];
        }
      }
      SquashOfClean(s[1..]);
    }
  }

  /** One pass of `replace` does not change what the collapse converges to. */
  lemma {:induction false} ReplacePreservesSquash(s: string)
    ensures Squash(ReplaceDoubleNewlines(s)) == Squash(s)
    decreases |s|
  {
    if |s| >= 2 {
      if s[0] == '\n' && s[1] == '\n' {
        var t := s[2..];
        ReplacePreservesSquash(t);
        SquashCons('\n', ReplaceDoubleNewlines(t));
        SquashCons('\n', t);
        assert s[1..] == "\n" + t;
      } else {
        var t := s[1..];
        ReplacePreservesSquash(t);
        SquashCons(s[0], ReplaceDoubleNewlines(t));
        SquashCons(s[0], t);
        assert s == [s[0]] + t;
      }
    }
  }

  /** While a pair of newlines remains, a pass of `replace` shortens the text:
      this is why the collapse loop terminates. */
  lemma {:induction false} ReplaceShortens(s: string)
    requires HasDoubleNewline(s)
    ensures |ReplaceDoubleNewlines(s)| < |s|
    decreases |s|
  {
    if !(s[0] == '\n' && s[1] == '\n') {
      var i :| 0 <= i < |s| - 1 && s[i] == '\n' && s[i + 1] == '\n';
      assert s[1..][i - 1] == s[i] && s[1..][i] == s[i + 1];
      ReplaceShortens(s[1..]);
    }
  }

  /** The loop `while "\n\n" in content: content = content.replace("\n\n", "\n")`.
      It ends with no pair of adjacent newlines left, every run of newlines
      reduced to one, and every other character kept in place. */
  method CollapseBlankLines(content: string) returns (r: string)
    ensures !HasDoubleNewline(r)
    ensures r == Squash(content)
  {
    r := content;
    while HasDoubleNewline(r)
      invariant Squash(r) == Squash(content)
      decreases |r|
    {
      ReplaceShortens(r);
      ReplacePreservesSquash(r);
      r := ReplaceDoubleNewlines(r);
    }
    SquashOfClean(r);
  }

  /** Squashing removes only newlines, so it keeps a text blank or non-blank. */
  lemma {:induction false} SquashKeepsBlankness(s: string)
    ensures IsBlank(Squash(s)) <==> IsBlank(s)
  {
    if |s| >= 2 {
      SquashKeepsBlankness(s[1..]);
      assert s == [s[0]] + s[1..];
      assert IsBlank(s) <==> IsSpace(s[0]) && IsBlank(s[1..]);
      if !(s[0] == '\n' && s[1] == '\n') {
        var r := Squash(s);
        assert r == [s[0]] + Squash(s[1..]);
        assert IsBlank(r) <==> IsSpace(r[0]) && IsBlank(r[1..]);
      }
    }
  }

  /* ---------------------------------------------------------------------
     The page loop
     --------------------------------------------------------------------- */

  /** A page whose extraction succeeded and gave some non-whitespace text. */
  predicate Readable(page: Option<string>) {
    page.Some? && !IsBlank(page.value)
  }

  /** What one page adds to the report: nothing when extraction raised or the
      text is blank, otherwise the collapsed text and one newline. */
  function PageText(page: Option<string>): string {
    if Readable(page) then Squash(page.value) + "\n" else ""
  }

  /** The accumulated `full_report` after the pages in order. */
  function Report(pages: seq<Option<string>>): string {
    if |pages| == 0 then ""
    else Report(pages[..|pages| - 1]) + PageText(pages[|pages| - 1])
  }

  /** The report for consecutive page ranges is the concatenation of their
      reports: pages contribute independently and in page order. */
  lemma {:induction false} ReportConcat(p: seq<Option<string>>, q: seq<Option<string>>)
    ensures Report(p + q) == Report(p) + Report(q)
    decreases |q|
  {
    if |q| == 0 {
      assert p + q == p;
    } else {
      var q', last := q[..|q| - 1], q[|q| - 1];
      assert (p + q)[..|p + q| - 1] == p + q';
      assert (p + q)[|p + q| - 1] == last;
      ReportConcat(p, q');
      assert Report(p + q) == Report(p + q') + PageText(last);
      assert Report(q) == Report(q') + PageText(last);
    }
  }

  /** The report of a single readable page is its collapsed text followed by
      exactly one newline, and that text holds no pair of adjacent newlines. */
  lemma SinglePageReport(t: string)
    requires !IsBlank(t)
    ensures Report([Some(t)]) == Squash(t) + "\n"
    ensures !HasDoubleNewline(Squash(t))
  {
    assert [Some(t)][..0] == [];
    SquashHasNoDoubleNewline(t);
  }

  /** The report is blank exactly when no page is readable. */
  lemma {:induction false} ReportBlankIff(pages: seq<Option<string>>)
    ensures IsBlank(Report(pages)) <==> forall i | 0 <= i < |pages| :: !Readable(pages[i])
    decreases |pages|
  {
    if |pages| > 0 {
      var init, last := pages[..|pages| - 1], pages[|pages| - 1];
      ReportBlankIff(init);
      var a, b := Report(init), PageText(last);
      assert Report(pages) == a + b;
      assert IsBlank(a + b) <==> IsBlank(a) && IsBlank(b) by {
        assert forall i | 0 <= i < |a| :: (a + b)[i] == a[i];
        assert forall i | 0 <= i < |b| :: (a + b)[|a| + i] == b[i];
      }
      if Readable(last) {
        SquashKeepsBlankness(last.value);
        assert !IsBlank(b) by { assert b[..|b| - 1] == Squash(last.value); }
      }
      assert forall i | 0 <= i < |init| :: init[i] == pages[i];
    }
  }

  /** `FinancialDocumentTool.read_data_tool`. The checks run in order: the path
      exists, it is a regular file, its name ends in `.pdf` in any case, the
      file parses, the PDF has a page. Then each page is extracted, collapsed
      and appended. Every outcome is a returned string. */
  method ReadDataTool(path: string, entry: PathEntry) returns (r: string)
    ensures entry == Missing ==> r == NotFoundMessage(path)
    ensures entry == NotRegularFile ==> r == NotAFileMessage(path)
    ensures entry.RegularFile? && !IsPdfName(path) ==> r == NotAPdfMessage(path)
    ensures entry.RegularFile? && IsPdfName(path) && entry.document.Corrupt? ==>
      r == CorruptMessage(entry.document.readError)
    ensures entry.RegularFile? && IsPdfName(path) && entry.document.Inaccessible? ==>
      r == AccessMessage(entry.document.accessError)
    ensures entry.RegularFile? && IsPdfName(path) && entry.document.Parsed? ==>
      var pages := entry.document.pages;
      r == if |pages| == 0 then NoPagesMessage
           else if IsBlank(Report(pages)) then NoTextWarning
           else Strip(Report(pages))
  {
    match entry {
      case Missing =>
        return NotFoundMessage(path);
      case NotRegularFile =>
        return NotAFileMessage(path);
      case RegularFile(document) =>
        if !IsPdfName(path) {
          return NotAPdfMessage(path);
        }
        match document {
          case Corrupt(e) =>
            return CorruptMessage(e);
          case Inaccessible(e) =>
            return AccessMessage(e);
          case Parsed(pages) =>
            if |pages| == 0 {
              return NoPagesMessage;
            }
            var report := "";
            var i := 0;
            while i < |pages|
              invariant 0 <= i <= |pages|
              invariant report == Report(pages[..i])
            {
              assert pages[..i + 1][..i] == pages[..i];
              match pages[i] {
                case None =>
                case Some(content) =>
                  if !IsBlank(content) {
                    var collapsed := CollapseBlankLines(content);
                    report := report + collapsed + "\n";
                  }
              }
              i := i + 1;
            }
            assert pages[..i] == pages;
            if IsBlank(report) {
              return NoTextWarning;
            }
            return Strip(report);
        }
    }
  }

  /** Once some page is readable, the reader returns text rather than the
      warning, and that text is non-empty with no leading or trailing
      whitespace. */
  lemma ExtractedText(pages: seq<Option<string>>, j: nat)
    requires j < |pages| && Readable(pages[j])
    ensures !IsBlank(Report(pages))
    ensures var text := Strip(Report(pages));
      text != [] && !IsSpace(text[0]) && !IsSpace(text[|text| - 1])
  {
    ReportBlankIff(pages);
  }

  /* ---------------------------------------------------------------------
     Empty lines across page boundaries
     --------------------------------------------------------------------- */

  /** Four newlines start at index `i`. */
  predicate FourNewlinesAt(s: string, i: int) {
    0 <= i <= |s| - 4 && s[i] == '\n' && s[i + 1] == '\n' && s[i + 2] == '\n' && s[i + 3] == '\n'
  }

  /** Four newlines in a row: three consecutive empty lines. */
  predicate HasFourNewlines(s: string) {
    exists i | 0 <= i <= |s| - 4 :: FourNewlinesAt(s, i)
  }

  /** The string does not end in three newlines. */
  predicate EndsWithoutThreeNewlines(s: string) {
    !(|s| >= 3 && s[|s| - 1] == '\n' && s[|s| - 2] == '\n' && s[|s| - 3] == '\n')
  }

  /** The contribution of a readable page holds no three newlines in a row,
      does not start with two, and has some other character among its last
      three. */
  lemma PageTextShape(page: Option<string>)
    requires Readable(page)
    ensures var c := PageText(page);
      && |c| >= 2
      && !HasFourNewlines(c)
      && !(c[0] == '\n' && c[1] == '\n')
      && (c[|c| - 2] != '\n' || (|c| >= 3 && c[|c| - 3] != '\n'))
  {
    var t := page.value;
    var sq := Squash(t);
    var c := sq + "\n";
    SquashHasNoDoubleNewline(t);
    SquashKeepsBlankness(t);
    assert |sq| > 0;
    assert sq != "\n";
    if |sq| >= 2 && sq[|sq| - 1] == '\n' {
      assert sq[|sq| - 2] != '\n';
    }
    if |sq| >= 2 {
      assert !(sq[0] == '\n' && sq[1] == '\n');
    }
    forall i | 0 <= i <= |c| - 4
      ensures !FourNewlinesAt(c, i)
    {
      assert c[i] == sq[i] && c[i + 1] == sq[i + 1];
    }
  }

  /** Appending a page's contribution keeps runs of newlines below four. */
  lemma AppendKeepsRunsShort(a: string, c: string)
    requires !HasFourNewlines(a) && EndsWithoutThreeNewlines(a)
    requires |c| >= 2 && !HasFourNewlines(c) && !(c[0] == '\n' && c[1] == '\n')
    requires c[|c| - 2] != '\n' || (|c| >= 3 && c[|c| - 3] != '\n')
    ensures !HasFourNewlines(a + c) && EndsWithoutThreeNewlines(a + c)
  {
    var s := a + c;
    forall i | 0 <= i <= |s| - 4
      ensures !FourNewlinesAt(s, i)
    {
      if i + 3 < |a| {
        assert !FourNewlinesAt(a, i);
        assert s[i] == a[i] && s[i + 1] == a[i + 1] && s[i + 2] == a[i + 2] && s[i + 3] == a[i + 3];
      } else if i >= |a| {
        var j := i - |a|;
        assert !FourNewlinesAt(c, j);
        assert s[i] == c[j] && s[i + 1] == c[j + 1] && s[i + 2] == c[j + 2] && s[i + 3] == c[j + 3];
      } else if |a| - i == 3 {
        assert s[i] == a[|a| - 3] && s[i + 1] == a[|a| - 2] && s[i + 2] == a[|a| - 1];
      } else {
        assert s[|a|] == c[0] && s[|a| + 1] == c[1];
      }
    }
    assert s[|s| - 2] == c[|c| - 2];
    if |c| >= 3 { assert s[|s| - 3] == c[|c| - 3]; }
  }

  /** However the pages end and begin, the report never holds four newlines
      in a row. */
  lemma {:induction false} ReportRunsShort(pages: seq<Option<string>>)
    ensures !HasFourNewlines(Report(pages)) && EndsWithoutThreeNewlines(Report(pages))
    decreases |pages|
  {
    if |pages| > 0 {
      var init, last := pages[..|pages| - 1], pages[|pages| - 1];
      ReportRunsShort(init);
      PageKeepsRunsShort(Report(init), last);
    }
  }

  /** Appending any page, readable or not, keeps runs of newlines short. */
  lemma PageKeepsRunsShort(a: string, page: Option<string>)
    requires !HasFourNewlines(a) && EndsWithoutThreeNewlines(a)
    ensures !HasFourNewlines(a + PageText(page)) && EndsWithoutThreeNewlines(a + PageText(page))
  {
    if Readable(page) {
      PageTextShape(page);
      AppendKeepsRunsShort(a, PageText(page));
    } else {
      assert a + PageText(page) == a;
    }
  }

  lemma SliceKeepsRunsShort(s: string, i: nat, j: nat)
    requires i <= j <= |s| && !HasFourNewlines(s)
    ensures !HasFourNewlines(s[i..j])
  {
    var t := s[i..j];
    forall k | 0 <= k <= |t| - 4 ensures !FourNewlinesAt(t, k) {
      assert !FourNewlinesAt(s, i + k);
      assert t[k] == s[i + k] && t[k + 1] == s[i + k + 1] && t[k + 2] == s[i + k + 2] && t[k + 3] == s[i + k + 3];
    }
  }

  /** Stripping cuts a string down to an inner part, without joining runs. */
  lemma StripKeepsRunsShort(s: string)
    requires !HasFourNewlines(s)
    ensures !HasFourNewlines(Strip(s))
  {
    SliceKeepsRunsShort(s, StripStart(s), StripEnd(s));
  }

  /** The text the reader returns never holds four `\n` characters in a row:
      at most two consecutive empty lines. Whitespace-only lines are not
      collapsed and do not count here. */
  lemma ExtractedRunsShort(pages: seq<Option<string>>)
    ensures !HasFourNewlines(Strip(Report(pages)))
  {
    ReportRunsShort(pages);
    StripKeepsRunsShort(Report(pages));
  }

  /** Within a page every run of newlines is collapsed, but a page ending in
      a newline followed by a page starting with one leaves two empty lines
      in a row in the result. */
  lemma BlankLinesAcrossPages()
    ensures Strip(Report([Some("a\n"), Some("\nb")])) == "a\n\n\nb"
  {
    TwoPageReport();
    StripOneNewline("a\n\n\nb");
    assert "a\n\n\nb" + "\n" == "a\n\n\nb\n";
  }

  lemma TwoPageReport()
    ensures Report([Some("a\n"), Some("\nb")]) == "a\n\n\nb\n"
  {
    var pages := [Some("a\n"), Some("\nb")];
    assert IsSpace('\n') && !IsSpace('a') && !IsSpace('b');
    assert Squash("a\n") == "a\n" by { assert "a\n"[1..] == "\n"; }
    assert Squash("\nb") == "\nb" by { assert "\nb"[1..] == "b"; }
    assert Readable(pages[0]) by { assert "a\n"[0] == 'a'; }
    assert Readable(pages[1]) by { assert "\nb"[1] == 'b'; }
    assert pages[..1] == [Some("a\n")] && pages[..1][..0] == [];
    assert Report(pages[..1]) == "a\n\n";
    assert PageText(pages[1]) == "\nb\n";
  }

  /** Stripping a text that starts and ends with a letter, plus one newline,
      removes just that newline. */
  lemma StripOneNewline(s: string)
    requires |s| > 0 && 'a' <= s[0] <= 'z' && 'a' <= s[|s| - 1] <= 'z'
    ensures Strip(s + "\n") == s
  {
    var r := s + "\n";
    assert r[0] == s[0] && !IsSpace(r[0]);
    assert StripStart(r) == 0;
    assert r[|r| - 2] == s[|s| - 1] && !IsSpace(r[|r| - 2]);
    assert StripEnd(r) == |s|;
    assert r[0..|s|] == s;
  }

  /** An empty PDF is reported differently from a corrupt or unreadable file
      and from a PDF without text. */
  lemma NoPagesIsDistinct(detail: string)
    ensures NoPagesMessage != CorruptMessage(detail)
    ensures NoPagesMessage != AccessMessage(detail)
    ensures NoPagesMessage != NoTextWarning
  {
    assert NoPagesMessage[7] == 'P';
    assert CorruptMessage(detail)[7] == 'I';
    assert AccessMessage(detail)[7] == 'C';
    assert |NoPagesMessage| != |NoTextWarning|;
  }

  /* ---------------------------------------------------------------------
     The analysis stubs
     --------------------------------------------------------------------- */

  /** What `InvestmentTool.analyze_investment_tool` reports. */
  datatype InvestmentReport =
    | NoInvestmentData
    | InvestmentSummary(dataLength: nat, wordCount: nat)

  /** Blank input is refused; otherwise the text is stripped and its words
      re-joined by single spaces, and the report gives the length of that
      text and its number of words. */
  function AnalyzeInvestment(data: string): (r: InvestmentReport)
    ensures r == NoInvestmentData <==> IsBlank(data)
    ensures r.InvestmentSummary? ==>
      r.dataLength == |Normalize(data)| && r.wordCount == |Split(data)|
      && r.wordCount > 0 && r.dataLength >= 2 * r.wordCount - 1
  {
    if data == "" || IsBlank(data) then NoInvestmentData
    else
      var processed := Normalize(Strip(data));
      InvestmentFacts(data);
      InvestmentSummary(|processed|, |Split(processed)|)
  }

  lemma InvestmentFacts(data: string)
    requires !IsBlank(data)
    ensures Normalize(Strip(data)) == Normalize(data)
    ensures |Split(data)| > 0
    ensures |Normalize(data)| >= 2 * |Split(data)| - 1
  {
    SplitStrip(data);
    var s := Strip(data);
    assert !IsSpace(s[0]);
    JoinLength(Split(data));
  }

  lemma {:induction false} JoinLength(ws: seq<string>)
    requires forall i | 0 <= i < |ws| :: IsWord(ws[i])
    ensures |Join(ws, " ")| >= 2 * |ws| - 1
  {
    if |ws| > 1 {
      JoinLength(ws[1..]);
    }
  }

  const InvestmentErrorMessage := "E" + "rror: No financial data provided for analysis"

  // The fixed parts of `str()` of the investment result dictionary.
  const LengthKey := "{" + "'data_length': "
  const CountKey := ", 'word_count': "
  const InvestmentTail :=
    "," + " 'status': 'Analysis complete', 'note': 'Investment analysis functionality to be implemented'}"

  /** The tool's string reply: the error message, or Python's `str()` of the
      result dictionary. */
  function RenderInvestment(r: InvestmentReport): (s: string)
    ensures r.NoInvestmentData? ==> s == InvestmentErrorMessage
    ensures |s| > 0 && (s[0] == '{' <==> r.InvestmentSummary?)
  {
    match r
    case NoInvestmentData => InvestmentErrorMessage
    case InvestmentSummary(n, m) => LengthKey + (Decimal(n) + (CountKey + (Decimal(m) + InvestmentTail)))
  }

  /** The reply determines the report: both counts can be read back from it. */
  lemma RenderInvestmentInjective(a: InvestmentReport, b: InvestmentReport)
    requires RenderInvestment(a) == RenderInvestment(b)
    ensures a == b
  {
    if a.InvestmentSummary? && b.InvestmentSummary? {
      var xa := CountKey + (Decimal(a.wordCount) + InvestmentTail);
      var xb := CountKey + (Decimal(b.wordCount) + InvestmentTail);
      CancelPrefix(LengthKey, Decimal(a.dataLength) + xa, Decimal(b.dataLength) + xb);
      DecimalThenSeparator(a.dataLength, b.dataLength, xa, xb);
      CancelPrefix(CountKey, Decimal(a.wordCount) + InvestmentTail, Decimal(b.wordCount) + InvestmentTail);
      DecimalThenSeparator(a.wordCount, b.wordCount, InvestmentTail, InvestmentTail);
    }
  }

  /** What `RiskTool.create_risk_assessment_tool` reports. */
  datatype RiskReport =
    | NoRiskData
    | RiskSummary(dataProcessed: nat)

  /** Blank input is refused; otherwise the report gives the length of the
      input exactly as received, whitespace included. */
  function AssessRisk(data: string): (r: RiskReport)
    ensures r == NoRiskData <==> IsBlank(data)
    ensures r.RiskSummary? ==> r.dataProcessed == |data|
  {
    if data == "" || IsBlank(data) then NoRiskData else RiskSummary(|data|)
  }

  const RiskErrorMessage := "E" + "rror: No financial data provided for risk assessment"

  // The fixed parts of `str()` of the risk result dictionary.
  const ProcessedKey := "{" + "'data_processed': "
  const RiskTail :=
    "," + " 'risk_level': 'To be determined', 'assessment_status': 'Preliminary analysis complete', 'note': 'Risk assessment functionality to be implemented'}"

  /** The tool's string reply: the error message, or Python's `str()` of the
      result dictionary. */
  function RenderRisk(r: RiskReport): (s: string)
    ensures r.NoRiskData? ==> s == RiskErrorMessage
    ensures |s| > 0 && (s[0] == '{' <==> r.RiskSummary?)
  {
    match r
    case NoRiskData => RiskErrorMessage
    case RiskSummary(n) => ProcessedKey + (Decimal(n) + RiskTail)
  }

  /** The reply determines the report: the processed length can be read back
      from it. */
  lemma RenderRiskInjective(a: RiskReport, b: RiskReport)
    requires RenderRisk(a) == RenderRisk(b)
    ensures a == b
  {
    if a.RiskSummary? && b.RiskSummary? {
      CancelPrefix(ProcessedKey, Decimal(a.dataProcessed) + RiskTail, Decimal(b.dataProcessed) + RiskTail);
      DecimalThenSeparator(a.dataProcessed, b.dataProcessed, RiskTail, RiskTail);
    }
  }

  /** The two stubs measure different things: the risk tool counts the raw
      input, the investment tool the normalised text. */
  lemma StubsMeasureDifferently()
    ensures AssessRisk(" a ") == RiskSummary(3)
    ensures AnalyzeInvestment(" a ") == InvestmentSummary(1, 1)
  {
    var s := " a ";
    assert IsSpace(s[0]) && !IsSpace(s[1]) && IsSpace(s[2]);
    assert s[1..] == "a ";
    assert WordLength("a ") == 1 by { assert "a "[1..] == " "; }
    assert "a "[..1] == "a" && "a "[1..] == " ";
    assert Split(" ") == [] by { assert " "[1..] == ""; }
    assert Split(s) == ["a"];
  }
}
