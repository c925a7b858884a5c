/** The handful of Python string operations the tools and the endpoint rely on:
    `str.isspace`, `str.strip`, `str.split()` with no separator, `str.join`,
    the lower-cased suffix test `s.lower().endswith(".pdf")` and `str(n)` for a
    non-negative integer. Strings are sequences of Unicode code points. */
module Text {

  /** The code points for which Python's `str.isspace()` holds; `strip()` and
      `split()` without arguments treat exactly these as whitespace. */
  predicate IsSpace(c: char) {
    var n := c as int;
    (0x09 <= n <= 0x0D) || (0x1C <= n <= 0x20) || n == 0x85 || n == 0xA0 || n == 0x1680
    || (0x2000 <= n <= 0x200A) || n == 0x2028 || n == 0x2029 || n == 0x202F
    || n == 0x205F || n == 0x3000
  }

  /** `not s.strip()` in Python: the string is empty or holds only whitespace. */
  predicate IsBlank(s: string) {
    forall i | 0 <= i < |s| :: IsSpace(s[i])
  }

  /** The index of the first non-whitespace character of `s` at or after
      `i`, or `|s|` when there is none. */
  function SkipSpaces(s: string, i: nat): (j: nat)
    requires i <= |s|
    ensures i <= j <= |s|
    ensures forall k | i <= k < j :: IsSpace(s[k])
    ensures j < |s| ==> !IsSpace(s[j])
    decreases |s| - i
  {
    if i < |s| && IsSpace(s[i]) then SkipSpaces(s, i + 1) else i
  }

  /** The index just past the last non-whitespace character of `s[lo..hi]`,
      or `lo` when there is none. */
  function TrimSpaces(s: string, lo: nat, hi: nat): (j: nat)
    requires lo <= hi <= |s|
    ensures lo <= j <= hi
    ensures forall k | j <= k < hi :: IsSpace(s[k])
    ensures j > lo ==> !IsSpace(s[j - 1])
    decreases hi
  {
    if hi > lo && IsSpace(s[hi - 1]) then TrimSpaces(s, lo, hi - 1) else hi
  }

  /** Where `s.strip()` starts in `s`. */
  function StripStart(s: string): nat {
    SkipSpaces(s, 0)
  }

  /** Where `s.strip()` ends in `s`. */
  function StripEnd(s: string): nat
    requires StripStart(s) <= |s|
  {
    TrimSpaces(s, StripStart(s), |s|)
  }

  /** Python's `s.strip()`: the text between the leading and the trailing
      whitespace. It is the part of `s` between two blank margins, it neither
      starts nor ends with whitespace, and it is empty exactly when `s` is blank. */
  function Strip(s: string): (r: string)
    ensures StripStart(s) <= StripEnd(s) <= |s| && r == s[StripStart(s)..StripEnd(s)]
    ensures forall k | 0 <= k < StripStart(s) :: IsSpace(s[k])
    ensures forall k | StripEnd(s) <= k < |s| :: IsSpace(s[k])
    ensures r != [] ==> !IsSpace(r[0]) && !IsSpace(r[|r| - 1])
    ensures r == [] <==> IsBlank(s)
  {
    s[StripStart(s)..StripEnd(s)]
  }

  /** A token of `str.split()`: a non-empty run of non-whitespace characters. */
  predicate IsWord(w: string) {
    |w| > 0 && forall i | 0 <= i < |w| :: !IsSpace(w[i])
  }

  /** Length of the run of non-whitespace characters that starts `s`. */
  function WordLength(s: string): (k: nat)
    ensures k <= |s|
    ensures forall i | 0 <= i < k :: !IsSpace(s[i])
    ensures k < |s| ==> IsSpace(s[k])
  {
    if |s| > 0 && !IsSpace(s[0]) then 1 + WordLength(s[1..]) else 0
  }

  /** Python's `s.split()` with no separator: the maximal runs of
      non-whitespace characters, in order. Every token is a word. */
  function Split(s: string): (ws: seq<string>)
    ensures forall i | 0 <= i < |ws| :: IsWord(ws[i])
    decreases |s|
  {
    if |s| == 0 then []
    else if IsSpace(s[0]) then Split(s[1..])
    else
      var k := WordLength(s);
      [s[..k]] + Split(s[k..])
  }

  /** Python's `sep.join(ws)`. */
  function Join(ws: seq<string>, sep: string): string {
    if |ws| == 0 then ""
    else if |ws| == 1 then ws[0]
    else ws[0] + sep + Join(ws[1..], sep)
  }

  /** Whitespace occurs in `s` only as single ASCII spaces that are neither its
      first nor its last character: no leading, trailing or doubled spaces, no
      tab or newline. */
  predicate SingleSpaced(s: string) {
    forall i | 0 <= i < |s| && IsSpace(s[i]) ::
      s[i] == ' ' && 0 < i < |s| - 1 && !IsSpace(s[i - 1]) && !IsSpace(s[i + 1])
  }

  /** `' '.join(s.split())`: the words of `s` separated by single spaces. */
  function Normalize(s: string): (r: string)
    ensures SingleSpaced(r)
    ensures Split(r) == Split(s)
  {
    var ws := Split(s);
    JoinSingleSpaced(ws);
    SplitJoin(ws);
    Join(ws, " ")
  }

  lemma {:induction false} JoinSingleSpaced(ws: seq<string>)
    requires forall i | 0 <= i < |ws| :: IsWord(ws[i])
    ensures SingleSpaced(Join(ws, " "))
    ensures |ws| > 0 ==> |Join(ws, " ")| >= |ws[0]| && Join(ws, " ")[..|ws[0]|] == ws[0]
  {
    if |ws| > 1 {
      var w, rest := ws[0], Join(ws[1..], " ");
      JoinSingleSpaced(ws[1..]);
      var s := Join(ws, " ");
      assert s == w + " " + rest;
      assert rest[0] == ws[1][0];
      forall i | 0 <= i < |w| ensures !IsSpace(s[i]) {
        assert s[i] == w[i];
      }
      forall i | |w| <= i < |s| && IsSpace(s[i])
        ensures s[i] == ' ' && 0 < i < |s| - 1 && !IsSpace(s[i - 1]) && !IsSpace(s[i + 1])
      {
        if i == |w| {
          assert s[i - 1] == w[|w| - 1];
          assert s[i + 1] == rest[0];
        } else {
          var j := i - |w| - 1;
          assert s[i] == rest[j];
          assert s[i - 1] == rest[j - 1];
          assert s[i + 1] == rest[j + 1];
        }
      }
    }
  }

  /** Splitting a string of words joined by single spaces gives the words back. */
  lemma {:induction false} SplitJoin(ws: seq<string>)
    requires forall i | 0 <= i < |ws| :: IsWord(ws[i])
    ensures Split(Join(ws, " ")) == ws
  {
    if |ws| == 1 {
      SplitWord(ws[0], "");
      assert ws[0] + "" == ws[0];
    } else if |ws| > 1 {
      var rest := Join(ws[1..], " ");
      SplitWord(ws[0], " " + rest);
      assert Join(ws, " ") == ws[0] + (" " + rest);
      assert (" " + rest)[1..] == rest;
      SplitJoin(ws[1..]);
    }
  }

  /** A word followed by whitespace or by nothing is split off as one token. */
  lemma SplitWord(w: string, tail: string)
    requires IsWord(w)
    requires tail == [] || IsSpace(tail[0])
    ensures Split(w + tail) == [w] + Split(tail)
  {
    var s := w + tail;
    WordLengthOfPrefix(w, tail);
    assert s[..|w|] == w;
    assert s[|w|..] == tail;
  }

  lemma {:induction false} WordLengthOfPrefix(w: string, tail: string)
    requires forall i | 0 <= i < |w| :: !IsSpace(w[i])
    requires tail == [] || IsSpace(tail[0])
    ensures WordLength(w + tail) == |w|
  {
    if |w| > 0 {
      assert (w + tail)[1..] == w[1..] + tail;
      WordLengthOfPrefix(w[1..], tail);
    }
  }

  /** Normalising is idempotent. */
  lemma NormalizeIdempotent(s: string)
    ensures Normalize(Normalize(s)) == Normalize(s)
  {
  }

  /** Whitespace in front of a string is ignored by `split()`. */
  lemma {:induction false} SplitBlankPrefix(w: string, s: string)
    requires IsBlank(w)
    ensures Split(w + s) == Split(s)
  {
    if |w| > 0 {
      assert (w + s)[0] == w[0];
      assert (w + s)[1..] == w[1..] + s;
      SplitBlankPrefix(w[1..], s);
    } else {
      assert w + s == s;
    }
  }

  lemma {:induction false} SplitOfBlank(w: string)
    requires IsBlank(w)
    ensures Split(w) == []
  {
    SplitBlankPrefix(w, "");
    assert w + "" == w;
  }

  /** Whitespace after a string is ignored by `split()`. */
  lemma {:induction false} SplitBlankSuffix(s: string, w: string)
    requires IsBlank(w)
    ensures Split(s + w) == Split(s)
    decreases |s|
  {
    if |s| == 0 {
      assert s + w == w;
      SplitOfBlank(w);
    } else if IsSpace(s[0]) {
      assert (s + w)[1..] == s[1..] + w;
      SplitBlankSuffix(s[1..], w);
    } else {
      var k := WordLength(s);
      var t := s + w;
      WordLengthThroughBlank(s, w);
      assert t[..k] == s[..k];
      assert t[k..] == s[k..] + w;
      SplitBlankSuffix(s[k..], w);
    }
  }

  lemma {:induction false} WordLengthThroughBlank(s: string, w: string)
    requires IsBlank(w)
    ensures WordLength(s + w) == WordLength(s)
  {
    if |s| > 0 && !IsSpace(s[0]) {
      assert (s + w)[1..] == s[1..] + w;
      WordLengthThroughBlank(s[1..], w);
    } else if |s| == 0 {
      assert s + w == w;
    }
  }

  /** `s.strip().split()` and `s.split()` give the same tokens. */
  lemma SplitStrip(s: string)
    ensures Split(Strip(s)) == Split(s)
  {
    var i, j := StripStart(s), StripEnd(s);
    BlankSlice(s, 0, i);
    BlankSlice(s, j, |s|);
    assert s == s[0..i] + (s[i..j] + s[j..|s|]);
    SplitBlankPrefix(s[0..i], s[i..j] + s[j..|s|]);
    SplitBlankSuffix(s[i..j], s[j..|s|]);
  }

  lemma BlankSlice(s: string, lo: nat, hi: nat)
    requires lo <= hi <= |s|
    requires forall k | lo <= k < hi :: IsSpace(s[k])
    ensures IsBlank(s[lo..hi])
  {
    var w := s[lo..hi];
    forall k | 0 <= k < |w|
      ensures IsSpace(w[k])
    {
      assert w[k] == s[lo + k];
    }
  }

  /** ASCII lower-casing of one character. */
  function LowerChar(c: char): char {
    if 'A' <= c <= 'Z' then (c as int + 32) as char else c
  }

  function Lower(s: string): string {
    seq(|s|, i requires 0 <= i < |s| => LowerChar(s[i]))
  }

  predicate EndsWith(s: string, suffix: string) {
    |suffix| <= |s| && s[|s| - |suffix|..] == suffix
  }

  /** `name.lower().endswith(".pdf")`: lower-casing works character by
      character, so the test looks only at the last four characters. */
  predicate IsPdfName(name: string)
    ensures IsPdfName(name) <==> |name| >= 4 && Lower(name[|name| - 4..]) == ".pdf"
  {
    if |name| >= 4 then LowerOfSuffix(name, 4); EndsWith(Lower(name), ".pdf")
    else EndsWith(Lower(name), ".pdf")
  }

  /** Lower-casing a suffix gives the suffix of the lower-cased string. */
  lemma LowerOfSuffix(s: string, k: nat)
    requires k <= |s|
    ensures Lower(s)[|s| - k..] == Lower(s[|s| - k..])
  {
    var a, b := Lower(s)[|s| - k..], Lower(s[|s| - k..]);
    forall i | 0 <= i < k
      ensures a[i] == b[i]
    {
      assert a[i] == LowerChar(s[|s| - k + i]);
    }
  }

  /** The suffix test accepts exactly the names whose last four characters are
      a dot and the letters p, d, f in either case. */
  lemma PdfNameExactly(name: string)
    ensures IsPdfName(name) <==>
      |name| >= 4
      && name[|name| - 4] == '.'
      && (name[|name| - 3] == 'p' || name[|name| - 3] == 'P')
      && (name[|name| - 2] == 'd' || name[|name| - 2] == 'D')
      && (name[|name| - 1] == 'f' || name[|name| - 1] == 'F')
  {
    var l := Lower(name);
    if |name| >= 4 {
      var t := l[|l| - 4..];
      assert t[0] == LowerChar(name[|name| - 4]);
      assert t[1] == LowerChar(name[|name| - 3]);
      assert t[2] == LowerChar(name[|name| - 2]);
      assert t[3] == LowerChar(name[|name| - 1]);
      if t == ".pdf" {
        assert t[0] == '.' && t[1] == 'p' && t[2] == 'd' && t[3] == 'f';
      }
    }
  }

  lemma PdfNameExamples()
    ensures IsPdfName("report.PDF")
    ensures IsPdfName("report.Pdf")
    ensures !IsPdfName("report.pdfx")
    ensures !IsPdfName("pdf")
  {
    PdfNameExactly("report.PDF");
    PdfNameExactly("report.Pdf");
    PdfNameExactly("report.pdfx");
    PdfNameExactly("pdf");
  }

  function DigitChar(d: nat): (c: char)
    requires d < 10
    ensures '0' <= c <= '9'
  {
    ('0' as int + d) as char
  }

  /** `str(n)` for a non-negative integer: its decimal digits, most
      significant first, with no leading zero. */
  function Decimal(n: nat): (r: string)
    ensures |r| > 0 && forall i | 0 <= i < |r| :: '0' <= r[i] <= '9'
    ensures |r| > 1 ==> r[0] != '0'
  {
    if n < 10 then [DigitChar(n)]
    else
      var p := Decimal(n / 10);
      p + [DigitChar(n % 10)]
  }

  /** The value of a string of decimal digits. */
  function DecimalValue(s: string): nat
    requires forall i | 0 <= i < |s| :: '0' <= s[i] <= '9'
  {
    if s == [] then 0
    else 10 * DecimalValue(s[..|s| - 1]) + (s[|s| - 1] as int - '0' as int)
  }

  /** Reading back the digits of `str(n)` gives `n`. */
  lemma {:induction false} DecimalRoundTrip(n: nat)
    ensures DecimalValue(Decimal(n)) == n
  {
    if n >= 10 {
      var r := Decimal(n);
      assert r[..|r| - 1] == Decimal(n / 10);
      DecimalRoundTrip(n / 10);
    }
  }

  /** Distinct numbers print differently. */
  lemma DecimalInjective(a: nat, b: nat)
    requires Decimal(a) == Decimal(b)
    ensures a == b
  {
    DecimalRoundTrip(a);
    DecimalRoundTrip(b);
  }

  /** A common prefix cancels. */
  lemma CancelPrefix(p: string, x: string, y: string)
    requires p + x == p + y
    ensures x == y
  {
    assert x == (p + x)[|p|..];
    assert y == (p + y)[|p|..];
  }

  /** A number printed in front of a non-digit can be read back
      unambiguously, and so can what follows it. */
  lemma DecimalThenSeparator(a: nat, b: nat, x: string, y: string)
    requires |x| > 0 && !('0' <= x[0] <= '9') && |y| > 0 && !('0' <= y[0] <= '9')
    requires Decimal(a) + x == Decimal(b) + y
    ensures a == b && x == y
  {
    var da, db := Decimal(a), Decimal(b);
    assert (da + x)[|da|] == x[0] && (db + y)[|db|] == y[0];
    assert |da| == |db|;
    assert da == (da + x)[..|da|];
    assert db == (db + y)[..|db|];
    DecimalInjective(a, b);
    assert x == (da + x)[|da|..];
    assert y == (db + y)[|db|..];
  }
}
