/** The few pieces of Python's runtime the OCR scripts rely on: exceptions,
    `str.strip`, `str.lower`, `os.path.splitext` and process exit. */
module Python {

  /** The outcome of a call that may raise: a value, or an exception whose
      `str(e)` is `message`. */
  datatype Attempt<+T> = Ok(value: T) | Raised(message: string)

  /** How a script ends: normally (after `print`s and an optional `sys.exit`),
      or with an uncaught exception, for which Python prints a traceback to
      standard error and exits with status 1. */
  datatype Exit = Finished(status: int, stdout: string, stderr: string) | Uncaught(error: string)

  /** `c.isspace()`: the characters whose bidirectional class is WS, B or S,
      or whose general category is Zs. */
  predicate IsSpace(c: char) {
    IsSpaceCode(c as int)
  }

  predicate IsSpaceCode(n: int) {
    || 9 <= n <= 13 || 28 <= n <= 32 || n == 0x85 || n == 0xA0 || n == 0x1680
    || 0x2000 <= n <= 0x200A || n == 0x2028 || n == 0x2029 || n == 0x202F || n == 0x205F || n == 0x3000
  }

  /** Where a left-to-right scan from `i` over whitespace stops: the first
      non-whitespace position at or after `i`, or the end of `s`. */
  function SkipSpace(s: string, i: nat): (k: nat)
    requires i <= |s|
    ensures i <= k <= |s|
    ensures forall m :: i <= m < k ==> IsSpace(s[m])
    ensures k < |s| ==> !IsSpace(s[k])
    decreases |s| - i
  {
    if i < |s| && IsSpace(s[i]) then SkipSpace(s, i + 1) else i
  }

  /** Where a right-to-left scan from `j` over whitespace stops, going no
      further left than `lo`: one past the last non-whitespace position
      below `j`, or `lo`. */
  function SkipSpaceBack(s: string, lo: nat, j: nat): (k: nat)
    requires lo <= j <= |s|
    ensures lo <= k <= j
    ensures forall m :: k <= m < j ==> IsSpace(s[m])
    ensures k > lo ==> !IsSpace(s[k - 1])
  {
    if j > lo && IsSpace(s[j - 1]) then SkipSpaceBack(s, lo, j - 1) else j
  }

  /** `s.strip()`: CPython scans in from the left and then from the right
      and returns the slice between the two stopping points. */
  function Strip(s: string): string {
    var lo := SkipSpace(s, 0);
    s[lo .. SkipSpaceBack(s, lo, |s|)]
  }

  /** `s.strip()` is the slice of `s` from its first to its last
      non-whitespace character: everything cut away is whitespace, and what
      remains is empty or begins and ends with non-whitespace. */
  lemma StripIsSlice(s: string) returns (lo: nat, hi: nat)
    ensures lo <= hi <= |s| && Strip(s) == s[lo..hi]
    ensures forall k :: 0 <= k < lo ==> IsSpace(s[k])
    ensures forall k :: hi <= k < |s| ==> IsSpace(s[k])
    ensures lo < hi ==> !IsSpace(s[lo]) && !IsSpace(s[hi - 1])
  {
    lo := SkipSpace(s, 0);
    hi := SkipSpaceBack(s, lo, |s|);
  }

  /** A string with no whitespace at either end is its own `strip`. */
  lemma StripKeepsTrimmed(s: string)
    requires |s| > 0 ==> !IsSpace(s[0]) && !IsSpace(s[|s| - 1])
    ensures Strip(s) == s
  {
    assert |s| > 0 ==> SkipSpaceBack(s, 0, |s|) == |s|;
    assert s[0..|s|] == s;
  }

  /** Stripping twice is stripping once. */
  lemma StripIdempotent(s: string)
    ensures Strip(Strip(s)) == Strip(s)
  {
    var lo, hi := StripIsSlice(s);
    StripKeepsTrimmed(Strip(s));
  }

  /** `c.lower()` on ASCII letters; other characters are left alone. */
  function LowerChar(c: char): char {
    if 'A' <= c <= 'Z' then (c as int + 32) as char else c
  }

  /** `s.lower()`, restricted to ASCII case mapping. */
  function Lower(s: string): (r: string)
    ensures |r| == |s|
    ensures forall k :: 0 <= k < |s| ==> r[k] == LowerChar(s[k])
  {
    seq(|s|, k requires 0 <= k < |s| => LowerChar(s[k]))
  }

  /** `s.rfind(c)`: the index of the last occurrence of `c`, or -1. */
  function RFind(s: string, c: char): (r: int)
    ensures -1 <= r < |s|
    ensures r >= 0 ==> s[r] == c
    ensures forall k :: r < k < |s| ==> s[k] != c
  {
    if |s| == 0 then -1
    else if s[|s| - 1] == c then |s| - 1
    else RFind(s[..|s| - 1], c)
  }

  /** The second half of `os.path.splitext(p)` on POSIX: the text from the
      last '.' of the final path component, provided that component has a
      character other than '.' before that dot (so ".bashrc" has no
      extension); otherwise "". */
  function Extension(p: string): (r: string)
    ensures r == "" || (|r| <= |p| && r == p[|p| - |r|..] && r[0] == '.')
    ensures r != "" ==> forall k :: 1 <= k < |r| ==> r[k] != '.' && r[k] != '/'
  {
    var sep := RFind(p, '/');
    var dot := RFind(p, '.');
    if dot > sep && exists k :: sep + 1 <= k < dot && p[k] != '.' then p[dot..] else ""
  }

  /** A final path component made of leading dots and then a name without
      a dot has no extension: ".pdf", "dir/.txt" and "..docx" give "", so
      such files are not taken for PDF, DOCX or text files. */
  lemma LeadingDotsHaveNoExtension(dir: string, dots: string, name: string)
    requires dir == "" || dir[|dir| - 1] == '/'
    requires |dots| > 0 && forall k :: 0 <= k < |dots| ==> dots[k] == '.'
    requires forall k :: 0 <= k < |name| ==> name[k] != '.' && name[k] != '/'
    ensures Extension(dir + dots + name) == ""
  {
    var p := dir + dots + name;
    var lastDot := |dir| + |dots| - 1;
    assert p[lastDot] == '.';
    assert forall k :: lastDot < k < |p| ==> p[k] == name[k - lastDot - 1];
    assert RFind(p, '.') == lastDot;
    assert forall k :: |dir| <= k < |p| ==> p[k] != '/';
    assert dir != "" ==> p[|dir| - 1] == '/';
    var sep := RFind(p, '/');
    assert sep == |dir| - 1;
    assert forall k :: sep + 1 <= k < lastDot ==> p[k] == dots[k - |dir|];
  }

  /** A file name whose final path component has a character other than
      '.' before the appended dot ("report.PDF", "report..pdf", "a/.x.txt")
      has exactly the extension that was appended to it, case preserved. */
  lemma ExtensionOfName(stem: string, ext: string)
    requires exists k :: 0 <= k < |stem| && stem[k] != '.' && stem[k] != '/'
                         && forall m :: k < m < |stem| ==> stem[m] != '/'
    requires forall k :: 0 <= k < |ext| ==> ext[k] != '.' && ext[k] != '/'
    ensures Extension(stem + "." + ext) == "." + ext
  {
    var p := stem + "." + ext;
    var n := |stem|;
    var k :| 0 <= k < n && stem[k] != '.' && stem[k] != '/' && forall m :: k < m < n ==> stem[m] != '/';
    assert p[n] == '.';
    assert forall m :: n < m < |p| ==> p[m] == ext[m - n - 1];
    var dot := RFind(p, '.');
    assert dot == n;
    assert forall m :: k <= m < n ==> p[m] == stem[m];
    var sep := RFind(p, '/');
    assert sep < k;
    assert sep + 1 <= k < dot && p[k] != '.';
    assert p[dot..] == "." + ext;
  }

  /** The only strings `lower()` maps to ".pdf" are ".pdf" with any of its
      letters in either case: the PDF reader is chosen for ".PDF" or
      ".Pdf" and for nothing else. */
  lemma LowerIsPdf(e: string)
    ensures Lower(e) == ".pdf" <==>
      |e| == 4 && e[0] == '.' && (e[1] == 'p' || e[1] == 'P')
      && (e[2] == 'd' || e[2] == 'D') && (e[3] == 'f' || e[3] == 'F')
  {
    if Lower(e) == ".pdf" {
      assert LowerChar(e[0]) == '.' && LowerChar(e[1]) == 'p';
      assert LowerChar(e[2]) == 'd' && LowerChar(e[3]) == 'f';
    }
  }
}
