/** The text handling of AdbMem/adb_meminfo_monitor.py: the conversion of a
    `dumpsys meminfo` report into Markdown (`format_meminfo_to_markdown`)
    and the scan of `ps -A` output for the target process
    (`find_target_process`). Running `adb`, reading the configuration and
    printing are not part of this model; the command output is a parameter
    (`None` when the command failed). Python `str` is `seq<char>`. */
module AdbMeminfo {
  import opened Wrappers

  // ---------------------------------------------------------------------
  // Python string primitives

  /** `str.isspace` for one character: the characters that `strip()`,
      `split()` and the regular expression `\s` treat as whitespace. */
  predicate IsSpace(c: char) {
    ('\U{0009}' <= c <= '\U{000D}') || ('\U{001C}' <= c <= '\U{0020}') ||
    c == '\U{0085}' || c == '\U{00A0}' || c == '\U{1680}' ||
    ('\U{2000}' <= c <= '\U{200A}') || c == '\U{2028}' || c == '\U{2029}' ||
    c == '\U{202F}' || c == '\U{205F}' || c == '\U{3000}'
  }

  /** Only whitespace (or nothing at all). */
  predicate IsBlank(s: string) {
    forall k | 0 <= k < |s| :: IsSpace(s[k])
  }

  predicate NoSpace(s: string) {
    forall k | 0 <= k < |s| :: !IsSpace(s[k])
  }

  /** `a` is a trailing part of `b`. */
  predicate IsSuffix<T(==)>(a: seq<T>, b: seq<T>) {
    |a| <= |b| && a == b[|b| - |a|..]
  }

  lemma AppendAssoc<T>(a: seq<T>, x: T, b: seq<T>)
    ensures (a + [x]) + b == a + ([x] + b)
  {
  }

  lemma AppendEmpty<T>(a: seq<T>)
    ensures a + [] == a
  {
  }

  /** `s.rstrip()`. */
  function RStrip(s: string): (r: string)
    ensures |r| <= |s|
  {
    if s != [] && IsSpace(s[|s| - 1]) then RStrip(s[..|s| - 1]) else s
  }

  /** `s.lstrip()`. */
  function LStrip(s: string): (r: string)
    ensures |r| <= |s|
    ensures r == [] || !IsSpace(r[0])
  {
    if s != [] && IsSpace(s[0]) then LStrip(s[1..]) else s
  }

  /** `rstrip` keeps the longest prefix that does not end in whitespace. */
  lemma {:induction false} RStripShape(s: string)
    ensures RStrip(s) <= s
    ensures RStrip(s) == [] || !IsSpace(RStrip(s)[|RStrip(s)| - 1])
    ensures forall k | |RStrip(s)| <= k < |s| :: IsSpace(s[k])
    decreases |s|
  {
    if s != [] && IsSpace(s[|s| - 1]) {
      RStripShape(s[..|s| - 1]);
    }
  }

  /** `lstrip` keeps the longest suffix that does not start with whitespace. */
  lemma {:induction false} LStripShape(s: string)
    ensures IsSuffix(LStrip(s), s)
    ensures forall k | 0 <= k < |s| - |LStrip(s)| :: IsSpace(s[k])
    decreases |s|
  {
    if s != [] && IsSpace(s[0]) {
      LStripShape(s[1..]);
      forall k | 1 <= k < |s| - |LStrip(s)|
        ensures IsSpace(s[k])
      {
        assert s[k] == s[1..][k - 1];
      }
    }
  }

  /** `s.strip()`. */
  function Strip(s: string): string {
    RStrip(LStrip(s))
  }

  /** Stripping leaves nothing exactly when the text is blank, and otherwise
      a text that neither starts nor ends with whitespace. */
  lemma StripShape(s: string)
    ensures Strip(s) == [] <==> IsBlank(s)
    ensures Strip(s) != [] ==> !IsSpace(Strip(s)[0]) && !IsSpace(Strip(s)[|Strip(s)| - 1])
  {
    var l := LStrip(s);
    var r := RStrip(l);
    LStripShape(s);
    RStripShape(l);
    if l != [] {
      assert !IsSpace(l[0]);
    }
    if l != [] {
      assert s[|s| - |l|] == l[0];
    }
  }

  /** Stripping trailing whitespace keeps a line blank or non-blank. */
  lemma RStripBlank(s: string)
    ensures IsBlank(RStrip(s)) <==> IsBlank(s)
  {
    var r := RStrip(s);
    RStripShape(s);
    if r != [] {
      assert !IsSpace(r[|r| - 1]);
    }
    if !IsBlank(r) {
      var k :| 0 <= k < |r| && !IsSpace(r[k]);
      assert s[k] == r[k];
    }
  }

  /** The length of the leading run of non-whitespace. */
  function TokenEnd(t: string): (n: nat)
    ensures n <= |t|
    ensures n < |t| ==> IsSpace(t[n])
  {
    if t == [] || IsSpace(t[0]) then 0 else 1 + TokenEnd(t[1..])
  }

  /** Every character before `TokenEnd(t)` is a non-space. */
  lemma {:induction false} TokenEndShape(t: string)
    ensures forall k | 0 <= k < TokenEnd(t) :: !IsSpace(t[k])
    decreases |t|
  {
    if t != [] && !IsSpace(t[0]) {
      TokenEndShape(t[1..]);
      forall k | 1 <= k < TokenEnd(t)
        ensures !IsSpace(t[k])
      {
        assert t[k] == t[1..][k - 1];
      }
    }
  }

  /** `s.split()`: the maximal runs of non-whitespace, in order. */
  function Words(s: string): seq<string>
    decreases |s|
  {
    var t := LStrip(s);
    if t == [] then []
    else
      var n := TokenEnd(t);
      [t[..n]] + Words(t[n..])
  }

  /** There are no words exactly when the text is blank. */
  lemma WordsBlank(s: string)
    ensures Words(s) == [] <==> IsBlank(s)
  {
    var t := LStrip(s);
    LStripShape(s);
    if t != [] {
      assert s[|s| - |t|] == t[0];
    }
  }

  /** Every word is a non-empty run without whitespace. */
  lemma {:induction false} WordsAreTokens(s: string)
    ensures forall k | 0 <= k < |Words(s)| :: Words(s)[k] != [] && NoSpace(Words(s)[k])
    decreases |s|
  {
    var t := LStrip(s);
    if t != [] {
      var n := TokenEnd(t);
      var first := t[..n];
      TokenEndShape(t);
      assert first != [] && NoSpace(first) by {
        assert n != 0;
        forall k | 0 <= k < |first|
          ensures !IsSpace(first[k])
        {
          assert first[k] == t[k];
        }
      }
      var rest := Words(t[n..]);
      WordsAreTokens(t[n..]);
      assert Words(s) == [first] + rest;
      forall k | 0 <= k < |Words(s)|
        ensures Words(s)[k] != [] && NoSpace(Words(s)[k])
      {
        if k > 0 {
          assert Words(s)[k] == rest[k - 1];
        }
      }
    }
  }

  /** The non-whitespace characters of `s`, in order. */
  function NonSpaces(s: string): string {
    if s == [] then [] else (if IsSpace(s[0]) then [] else [s[0]]) + NonSpaces(s[1..])
  }

  /** The words glued back together. */
  function Concat(ws: seq<string>): string {
    if ws == [] then [] else ws[0] + Concat(ws[1..])
  }

  lemma {:induction false} NonSpacesAppend(a: string, b: string)
    ensures NonSpaces(a + b) == NonSpaces(a) + NonSpaces(b)
    decreases |a|
  {
    if a != [] {
      assert (a + b)[0] == a[0] && (a + b)[1..] == a[1..] + b;
      NonSpacesAppend(a[1..], b);
      var head: string := if IsSpace(a[0]) then [] else [a[0]];
      assert NonSpaces(a + b) == head + (NonSpaces(a[1..]) + NonSpaces(b));
      assert NonSpaces(a) == head + NonSpaces(a[1..]);
    } else {
      assert a + b == b;
    }
  }

  lemma {:induction false} NonSpacesBlank(s: string)
    requires IsBlank(s)
    ensures NonSpaces(s) == []
    decreases |s|
  {
    if s != [] {
      NonSpacesBlank(s[1..]);
    }
  }

  lemma {:induction false} NonSpacesWord(w: string)
    requires NoSpace(w)
    ensures NonSpaces(w) == w
    decreases |w|
  {
    if w != [] {
      NonSpacesWord(w[1..]);
    }
  }

  /** `split()` loses no character but whitespace and keeps the text order:
      the words glued together are the text with its whitespace removed. */
  lemma {:induction false} WordsKeepText(s: string)
    ensures Concat(Words(s)) == NonSpaces(s)
    decreases |s|
  {
    var t := LStrip(s);
    LStripShape(s);
    var lead := s[..|s| - |t|];
    assert s == lead + t;
    assert IsBlank(lead) by {
      forall k | 0 <= k < |lead|
        ensures IsSpace(lead[k])
      {
        assert lead[k] == s[k];
      }
    }
    NonSpacesAppend(lead, t);
    NonSpacesBlank(lead);
    if t != [] {
      var n := TokenEnd(t);
      TokenEndShape(t);
      assert t == t[..n] + t[n..];
      NonSpacesAppend(t[..n], t[n..]);
      assert NoSpace(t[..n]) by {
        forall k | 0 <= k < n
          ensures !IsSpace(t[..n][k])
        {
          assert t[..n][k] == t[k];
        }
      }
      NonSpacesWord(t[..n]);
      WordsKeepText(t[n..]);
      assert Words(s) == [t[..n]] + Words(t[n..]);
      assert Concat(Words(s)) == t[..n] + Concat(Words(t[n..]));
    }
  }

  /** The index of the first `c` in `s`. */
  function IndexOf(s: string, c: char): (r: nat)
    requires c in s
    ensures r < |s| && s[r] == c && c !in s[..r]
  {
    if s[0] == c then 0 else 1 + IndexOf(s[1..], c)
  }

  /** `s.split(sep)` for a one-character separator. */
  function SplitOn(s: string, sep: char): (parts: seq<string>)
    ensures |parts| >= 1
    ensures forall k | 0 <= k < |parts| :: sep !in parts[k]
    decreases |s|
  {
    if sep in s then
      var n := IndexOf(s, sep);
      [s[..n]] + SplitOn(s[n + 1..], sep)
    else [s]
  }

  /** `sep.join(xs)`. */
  function Join(sep: string, xs: seq<string>): string {
    if |xs| == 0 then ""
    else if |xs| == 1 then xs[0]
    else xs[0] + sep + Join(sep, xs[1..])
  }

  /** Joining the pieces of a split with the separator gives back the text. */
  lemma {:induction false} SplitJoin(s: string, sep: char)
    ensures Join([sep], SplitOn(s, sep)) == s
    decreases |s|
  {
    if sep in s {
      var n := IndexOf(s, sep);
      var rest := SplitOn(s[n + 1..], sep);
      SplitJoin(s[n + 1..], sep);
      assert SplitOn(s, sep) == [s[..n]] + rest;
      assert ([s[..n]] + rest)[1..] == rest;
      assert s == s[..n] + [sep] + s[n + 1..];
    }
  }

  /** `s.split(sep, 1)`. */
  function SplitOnce(s: string, sep: char): (parts: seq<string>)
    ensures sep in s ==> |parts| == 2 && sep !in parts[0] && s == parts[0] + [sep] + parts[1]
    ensures sep !in s ==> parts == [s]
  {
    if sep in s then
      var n := IndexOf(s, sep);
      assert s == s[..n] + [sep] + s[n + 1..];
      [s[..n], s[n + 1..]]
    else [s]
  }

  /** `kw in s`: `kw` occurs in `s` as a substring. */
  predicate Contains(s: string, kw: string) {
    exists p | 0 <= p <= |s| - |kw| :: OccursAt(s, p, kw)
  }

  predicate OccursAt(s: string, p: int, kw: string) {
    0 <= p && p + |kw| <= |s| && s[p..p + |kw|] == kw
  }

  /** `str.isupper()` on ASCII letters: some uppercase letter and no
      lowercase one. */
  predicate IsUpper(s: string) {
    HasUpper(s) && NoLower(s)
  }

  predicate HasUpper(s: string) {
    s != [] && ('A' <= s[0] <= 'Z' || HasUpper(s[1..]))
  }

  predicate NoLower(s: string) {
    s == [] || (!('a' <= s[0] <= 'z') && NoLower(s[1..]))
  }

  /** `s.replace(',', '')`. */
  function RemoveCommas(s: string): string {
    if s == [] then []
    else (if s[0] == ',' then [] else [s[0]]) + RemoveCommas(s[1..])
  }

  /** `str.isdigit()` on ASCII digits: non-empty and only digits. */
  predicate IsDigits(s: string) {
    s != [] && AllDigits(s)
  }

  predicate AllDigits(s: string) {
    s == [] || ('0' <= s[0] <= '9' && AllDigits(s[1..]))
  }

  /** `part.replace(',', '').isdigit()`: a number such as `12,345`. */
  predicate IsNumber(part: string) {
    IsDigits(RemoveCommas(part))
  }

  // ---------------------------------------------------------------------
  // Keyword search `\b(A|B|...)\b`

  /** `\w` on ASCII: letters, digits and the underscore. */
  predicate IsWordChar(c: char) {
    'a' <= c <= 'z' || 'A' <= c <= 'Z' || '0' <= c <= '9' || c == '_'
  }

  predicate WordCharAt(s: string, p: int) {
    0 <= p < |s| && IsWordChar(s[p])
  }

  /** `\b` at position `p`: a word character on exactly one side. */
  predicate BoundaryAt(s: string, p: int) {
    WordCharAt(s, p - 1) != WordCharAt(s, p)
  }

  /** `kw` occurs at `p` with a word boundary on both sides. */
  predicate KeywordAt(s: string, p: int, kw: string) {
    OccursAt(s, p, kw) && BoundaryAt(s, p) && BoundaryAt(s, p + |kw|)
  }

  /** `re.search(r'\b(kw1|kw2|...)\b', s)` succeeds. The alternatives are
      tried in turn at every position, so the search succeeds exactly when
      one of them occurs between two word boundaries. */
  predicate Search(s: string, kws: seq<string>) {
    exists p, k | 0 <= p <= |s| && 0 <= k < |kws| :: KeywordAt(s, p, kws[k])
  }

  /** The column names of the first header line, also the tokens that the
      header merge never appends to a first-line name. */
  const ColumnKeywords: seq<string> := ["Pss", "Private", "Shared", "SwapPss", "Rss", "Heap"]

  /** The column qualifiers of the second header line. */
  const QualifierKeywords: seq<string> := ["Total", "Dirty", "Clean", "Size", "Alloc", "Free"]

  /** Every keyword starts with a letter. */
  predicate LetterLed(kws: seq<string>) {
    forall k | 0 <= k < |kws| :: kws[k] != [] && 'A' <= kws[k][0] <= 'Z'
  }

  /** A line in which a letter-led keyword is found is not blank. */
  lemma SearchNotBlank(s: string, kws: seq<string>)
    requires LetterLed(kws) && Search(s, kws)
    ensures !IsBlank(s)
  {
    var p, k :| 0 <= p <= |s| && 0 <= k < |kws| && KeywordAt(s, p, kws[k]);
    assert s[p] == s[p..p + |kws[k]|][0];
  }

  // ---------------------------------------------------------------------
  // find_target_process

  /** A line of `ps -A` output that names the target process: it contains
      the keyword and has at least one column. */
  predicate NamesProcess(line: string, keyword: string) {
    Contains(line, keyword) && Words(line) != []
  }

  /** Line `k` is the first line that names the process, and `name` is
      its last column. */
  predicate FirstNaming(lines: seq<string>, keyword: string, k: int, name: string) {
    0 <= k < |lines| && NamesProcess(lines[k], keyword) &&
    name == Words(lines[k])[|Words(lines[k])| - 1] &&
    forall j | 0 <= j < k :: !NamesProcess(lines[j], keyword)
  }

  /** The scan of `find_target_process` over the `ps -A` output: the last
      column of the first line that contains the keyword and is not blank;
      `None` when the command failed or no line qualifies. */
  method FindTargetProcess(output: Option<string>, keyword: string) returns (processName: Option<string>)
    ensures output.None? ==> processName.None?
    ensures output.Some? && processName.None? ==>
      forall k | 0 <= k < |SplitOn(output.value, '\n')| :: !NamesProcess(SplitOn(output.value, '\n')[k], keyword)
    ensures output.Some? && processName.Some? ==>
      exists k :: FirstNaming(SplitOn(output.value, '\n'), keyword, k, processName.value)
  {
    if output.None? {
      return None;
    }
    var lines := SplitOn(output.value, '\n');
    var idx := 0;
    while idx < |lines|
      invariant 0 <= idx <= |lines|
      invariant forall j | 0 <= j < idx :: !NamesProcess(lines[j], keyword)
    {
      var line := lines[idx];
      if Contains(line, keyword) {
        var parts := Words(line);
        if |parts| > 0 {
          assert FirstNaming(lines, keyword, idx, parts[|parts| - 1]);
          return Some(parts[|parts| - 1]);
        }
      }
      idx := idx + 1;
    }
    return None;
  }

  // ---------------------------------------------------------------------
  // Header merge

  /** The header cells made from the two header lines' tokens: each
      first-line token takes the next second-line token as its qualifier
      unless that token is itself a column name; second-line tokens left
      once the first line is exhausted become cells of their own. */
  function Merge(parts1: seq<string>, parts2: seq<string>): seq<string>
    decreases |parts1| + |parts2|
  {
    if parts1 == [] then parts2
    else if parts2 != [] && parts2[0] !in ColumnKeywords then
      [parts1[0] + " " + parts2[0]] + Merge(parts1[1..], parts2[1..])
    else
      [parts1[0]] + Merge(parts1[1..], parts2)
  }

  /** One header per first-line token, in order and starting with that
      token, then the second-line tokens that were left over. */
  lemma {:induction false} MergeShape(parts1: seq<string>, parts2: seq<string>)
    ensures |parts1| <= |Merge(parts1, parts2)| <= |parts1| + |parts2|
    ensures forall k | 0 <= k < |parts1| :: parts1[k] <= Merge(parts1, parts2)[k]
    ensures IsSuffix(Merge(parts1, parts2)[|parts1|..], parts2)
    decreases |parts1| + |parts2|
  {
    if parts1 != [] {
      var m := Merge(parts1, parts2);
      var head := m[0];
      var p2 := if parts2 != [] && parts2[0] !in ColumnKeywords then parts2[1..] else parts2;
      var rest := Merge(parts1[1..], p2);
      MergeShape(parts1[1..], p2);
      assert m == [head] + rest;
      assert parts1[0] <= head;
      forall k | 0 <= k < |parts1|
        ensures parts1[k] <= m[k]
      {
        if k > 0 {
          assert m[k] == rest[k - 1] && parts1[k] == parts1[1..][k - 1];
        }
      }
      assert m[|parts1|..] == rest[|parts1| - 1..];
    }
  }

  /** One step of `Merge` while first-line tokens remain. */
  lemma MergeStepFirst(parts1: seq<string>, parts2: seq<string>, j1: nat, j2: nat)
    requires j1 < |parts1| && j2 <= |parts2|
    ensures Merge(parts1[j1..], parts2[j2..]) ==
      if j2 < |parts2| && parts2[j2] !in ColumnKeywords
      then [parts1[j1] + " " + parts2[j2]] + Merge(parts1[j1 + 1..], parts2[j2 + 1..])
      else [parts1[j1]] + Merge(parts1[j1 + 1..], parts2[j2..])
  {
    assert parts1[j1..][0] == parts1[j1] && parts1[j1..][1..] == parts1[j1 + 1..];
    if j2 < |parts2| {
      assert parts2[j2..][0] == parts2[j2] && parts2[j2..][1..] == parts2[j2 + 1..];
    }
  }

  /** One step of `Merge` once the first-line tokens are used up. */
  lemma MergeStepSecond(parts1: seq<string>, parts2: seq<string>, j2: nat)
    requires j2 < |parts2|
    ensures Merge(parts1[|parts1|..], parts2[j2..]) == [parts2[j2]] + Merge(parts1[|parts1|..], parts2[j2 + 1..])
  {
    assert parts2[j2..] == [parts2[j2]] + parts2[j2 + 1..];
  }

  /** The `j1`/`j2` loop that builds `headers`. */
  method MergeHeaders(parts1: seq<string>, parts2: seq<string>) returns (headers: seq<string>)
    ensures headers == Merge(parts1, parts2)
  {
    headers := [];
    var j1, j2 := 0, 0;
    assert parts1[0..] == parts1 && parts2[0..] == parts2;
    while j1 < |parts1| || j2 < |parts2|
      invariant 0 <= j1 <= |parts1| && 0 <= j2 <= |parts2|
      invariant headers + Merge(parts1[j1..], parts2[j2..]) == Merge(parts1, parts2)
      decreases |parts1| - j1 + |parts2| - j2
    {
      if j1 < |parts1| {
        MergeStepFirst(parts1, parts2, j1, j2);
        if j2 < |parts2| && parts2[j2] !in ColumnKeywords {
          AppendAssoc(headers, parts1[j1] + " " + parts2[j2], Merge(parts1[j1 + 1..], parts2[j2 + 1..]));
          headers := headers + [parts1[j1] + " " + parts2[j2]];
          j2 := j2 + 1;
        } else {
          AppendAssoc(headers, parts1[j1], Merge(parts1[j1 + 1..], parts2[j2..]));
          headers := headers + [parts1[j1]];
        }
        j1 := j1 + 1;
      } else {
        MergeStepSecond(parts1, parts2, j2);
        AppendAssoc(headers, parts2[j2], Merge(parts1[j1..], parts2[j2 + 1..]));
        headers := headers + [parts2[j2]];
        j2 := j2 + 1;
      }
    }
    assert parts1[j1..] == [] && parts2[j2..] == [];
    AppendEmpty(headers);
  }

  /** `"\n| " + " | ".join(headers) + " |"`. */
  function HeaderRow(headers: seq<string>): (r: string)
    ensures "\n| " <= r
  {
    "\n| " + Join(" | ", headers) + " |"
  }

  function Repeat(s: string, n: nat): (r: seq<string>)
    ensures |r| == n && forall k | 0 <= k < n :: r[k] == s
  {
    if n == 0 then [] else [s] + Repeat(s, n - 1)
  }

  /** `"| " + " | ".join(["---"] * n) + " |"`. */
  function SeparatorRow(n: nat): string {
    "| " + Join(" | ", Repeat("---", n)) + " |"
  }

  /** `n` cells `" --- |"` in a row. */
  function Cells(n: nat): (r: string)
    ensures |r| == 6 * n
  {
    if n == 0 then "" else " --- |" + Cells(n - 1)
  }

  /** The separator row under `n` headers is `|` followed by exactly `n`
      cells `---`. */
  lemma {:induction false} SeparatorCells(n: nat)
    requires 1 <= n
    ensures SeparatorRow(n) == "|" + Cells(n)
  {
    SeparatorTail(n);
  }

  lemma {:induction false} SeparatorTail(n: nat)
    requires 1 <= n
    ensures " " + Join(" | ", Repeat("---", n)) + " |" == Cells(n)
  {
    if n > 1 {
      SeparatorTail(n - 1);
      var rest := Join(" | ", Repeat("---", n - 1));
      assert Repeat("---", n)[1..] == Repeat("---", n - 1);
      assert Join(" | ", Repeat("---", n)) == "---" + " | " + rest;
      calc {
        " " + Join(" | ", Repeat("---", n)) + " |";
        " " + ("---" + " | " + rest) + " |";
        " --- |" + (" " + rest + " |");
        " --- |" + Cells(n - 1);
      }
    }
  }

  // ---------------------------------------------------------------------
  // Data rows

  /** The index of the first token that is a number, or `-1`. */
  function FirstNumber(parts: seq<string>): (r: int)
    ensures -1 <= r < |parts|
  {
    if parts == [] then -1
    else if IsNumber(parts[0]) then 0
    else
      var r := FirstNumber(parts[1..]);
      if r == -1 then -1 else r + 1
  }

  /** `FirstNumber` is `-1` exactly when no token is a number, and otherwise
      the index of the first token that is. */
  lemma {:induction false} FirstNumberShape(parts: seq<string>)
    ensures FirstNumber(parts) == -1 <==> forall k | 0 <= k < |parts| :: !IsNumber(parts[k])
    ensures 0 <= FirstNumber(parts) ==>
      IsNumber(parts[FirstNumber(parts)]) && forall k | 0 <= k < FirstNumber(parts) :: !IsNumber(parts[k])
    decreases |parts|
  {
    if parts != [] && !IsNumber(parts[0]) {
      FirstNumberShape(parts[1..]);
      assert forall k | 1 <= k < |parts| :: parts[k] == parts[1..][k - 1];
    }
  }

  /** The `for idx, part in enumerate(data_parts)` loop that finds
      `first_num_idx`. */
  method FirstNumberIndex(parts: seq<string>) returns (firstNumIdx: int)
    ensures firstNumIdx == FirstNumber(parts)
  {
    FirstNumberShape(parts);
    firstNumIdx := -1;
    var idx := 0;
    while idx < |parts|
      invariant 0 <= idx <= |parts|
      invariant forall k | 0 <= k < idx :: !IsNumber(parts[k])
    {
      if IsNumber(parts[idx]) {
        firstNumIdx := idx;
        break;
      }
      idx := idx + 1;
    }
  }

  /** `sum(1 for part in parts if part.replace(',', '').isdigit())`. */
  function CountNumbers(parts: seq<string>): (r: nat)
    ensures r <= |parts|
  {
    if parts == [] then 0
    else (if IsNumber(parts[0]) then 1 else 0) + CountNumbers(parts[1..])
  }

  /** No number is counted exactly when there is no first number. */
  lemma {:induction false} CountNumbersNone(parts: seq<string>)
    ensures CountNumbers(parts) == 0 <==> FirstNumber(parts) == -1
    decreases |parts|
  {
    if parts != [] {
      CountNumbersNone(parts[1..]);
    }
  }

  /** A line that continues a table: not blank, not all uppercase, no `:`,
      and at least one word before its first number. */
  predicate IsDataLine(dataLine: string) {
    Strip(dataLine) != [] && |Words(dataLine)| > 0 &&
    !(IsUpper(Strip(dataLine)) || ':' in dataLine) &&
    FirstNumber(Words(dataLine)) > 0
  }

  /** The table row of a data line: the words before the first number as
      one label cell, then every remaining token as a cell. */
  function DataRow(dataLine: string): (r: string)
    requires IsDataLine(dataLine)
    ensures r != []
  {
    var dataParts := Words(dataLine);
    var firstNumIdx := FirstNumber(dataParts);
    var labelText := Join(" ", dataParts[..firstNumIdx]);
    var values := dataParts[firstNumIdx..];
    "| " + Join(" | ", [labelText] + values) + " |"
  }

  /** What a line gives inside a table: its row, or `None` where reading
      stops. */
  function ParseData(dataLine: string): Option<string> {
    if IsDataLine(dataLine) then Some(DataRow(dataLine)) else None
  }

  /** `ParseData` of every line, trailing whitespace removed. */
  function ParseAll(lines: seq<string>): (parsed: seq<Option<string>>)
    ensures |parsed| == |lines|
  {
    seq(|lines|, k requires 0 <= k < |lines| => ParseData(RStrip(lines[k])))
  }

  /** The values of the `Some`s from `i` on up to the first `None`, and the
      index of that `None` (or the end). */
  function TakeRows<T>(parsed: seq<Option<T>>, i: nat): (r: (seq<T>, nat))
    requires i <= |parsed|
    ensures i <= r.1 <= |parsed|
    ensures |r.0| == r.1 - i
    decreases |parsed| - i
  {
    if i == |parsed| || parsed[i].None? then ([], i)
    else
      var rest := TakeRows(parsed, i + 1);
      ([parsed[i].value] + rest.0, rest.1)
  }

  /** The rows read from line `i` on, and the index of the first line not
      read. */
  function DataRows(lines: seq<string>, i: nat): (r: (seq<string>, nat))
    requires i <= |lines|
    ensures i <= r.1 <= |lines|
  {
    TakeRows(ParseAll(lines), i)
  }

  /** One step of `TakeRows`. */
  lemma TakeRowsStep<T>(parsed: seq<Option<T>>, i: nat)
    requires i < |parsed|
    ensures parsed[i].None? ==> TakeRows(parsed, i) == ([], i)
    ensures parsed[i].Some? ==>
      TakeRows(parsed, i) == ([parsed[i].value] + TakeRows(parsed, i + 1).0, TakeRows(parsed, i + 1).1)
  {
  }

  /** Reading stops at the first `None`, without consuming it. */
  lemma {:induction false} TakeRowsStop<T>(parsed: seq<Option<T>>, i: nat)
    requires i <= |parsed|
    ensures TakeRows(parsed, i).1 < |parsed| ==> parsed[TakeRows(parsed, i).1].None?
    decreases |parsed| - i
  {
    if i < |parsed| && parsed[i].Some? {
      TakeRowsStop(parsed, i + 1);
    }
  }

  /** Everything read is a `Some`, and its value is the row, in order. */
  lemma {:induction false} TakeRowsRead<T>(parsed: seq<Option<T>>, i: nat, k: nat)
    requires i <= |parsed| && i <= k < TakeRows(parsed, i).1
    ensures parsed[k].Some? && TakeRows(parsed, i).0[k - i] == parsed[k].value
    decreases k - i
  {
    if i < k {
      TakeRowsRead(parsed, i + 1, k);
    }
  }

  /** Reading table rows from line `i`: every line read is a data line and
      gives its row, in order, and reading stops, without consuming it, at
      the first line that is not a data line. */
  lemma DataRowsShape(lines: seq<string>, i: nat)
    requires i <= |lines|
    ensures forall k | i <= k < DataRows(lines, i).1 ::
      IsDataLine(RStrip(lines[k])) && DataRows(lines, i).0[k - i] == DataRow(RStrip(lines[k]))
    ensures DataRows(lines, i).1 < |lines| ==> !IsDataLine(RStrip(lines[DataRows(lines, i).1]))
  {
    var parsed := ParseAll(lines);
    TakeRowsStop(parsed, i);
    forall k | i <= k < DataRows(lines, i).1
      ensures IsDataLine(RStrip(lines[k])) && DataRows(lines, i).0[k - i] == DataRow(RStrip(lines[k]))
    {
      TakeRowsRead(parsed, i, k);
    }
  }

  /** One pass of the data-row loop: the row of `dataLine`, or `None` where
      the loop breaks (a blank line, an uppercase line, a line with `:`, or
      no label before the first number). */
  method ParseDataLine(dataLine: string) returns (row: Option<string>)
    ensures row == ParseData(dataLine)
  {
    if Strip(dataLine) == [] {
      return None;
    }
    var dataParts := Words(dataLine);
    if |dataParts| > 0 {
      if IsUpper(Strip(dataLine)) || ':' in dataLine {
        return None;
      }
      var firstNumIdx := FirstNumberIndex(dataParts);
      if firstNumIdx > 0 {
        var labelText := Join(" ", dataParts[..firstNumIdx]);
        var values := dataParts[firstNumIdx..];
        var rowData := [labelText] + values;
        return Some("| " + Join(" | ", rowData) + " |");
      } else {
        return None;
      }
    } else {
      return None;
    }
  }

  /** The inner `while` loop that reads a table's data rows from line `i0`
      on; `i` is where the outer loop resumes. */
  method ReadDataRows(lines: seq<string>, i0: nat) returns (rows: seq<string>, i: nat)
    requires i0 <= |lines|
    ensures rows == DataRows(lines, i0).0 && i == DataRows(lines, i0).1
  {
    rows := [];
    i := i0;
    while i < |lines|
      invariant i0 <= i <= |lines|
      invariant rows + DataRows(lines, i).0 == DataRows(lines, i0).0
      invariant DataRows(lines, i).1 == DataRows(lines, i0).1
      decreases |lines| - i
    {
      var row := ParseDataLine(RStrip(lines[i]));
      if row.None? {
        break;
      }
      DataRowsAdvance(lines, i0, i, rows, row.value);
      rows := rows + [row.value];
      i := i + 1;
    }
    assert i < |lines| ==> ParseData(RStrip(lines[i])).None?;
    DataRowsDone(lines, i0, i, rows);
  }

  /** A data line read: the row joins `rows` and reading goes on. */
  lemma DataRowsAdvance(lines: seq<string>, i0: nat, i: nat, rows: seq<string>, row: string)
    requires i0 <= i < |lines| && ParseData(RStrip(lines[i])) == Some(row)
    requires rows + DataRows(lines, i).0 == DataRows(lines, i0).0
    requires DataRows(lines, i).1 == DataRows(lines, i0).1
    ensures (rows + [row]) + DataRows(lines, i + 1).0 == DataRows(lines, i0).0
    ensures DataRows(lines, i + 1).1 == DataRows(lines, i0).1
  {
    var parsed := ParseAll(lines);
    assert parsed[i] == Some(row);
    TakeRowsStep(parsed, i);
    AppendAssoc(rows, row, DataRows(lines, i + 1).0);
  }

  /** Reading ends at the last line or at a line that is not a data line. */
  lemma DataRowsDone(lines: seq<string>, i0: nat, i: nat, rows: seq<string>)
    requires i0 <= i <= |lines| && (i == |lines| || ParseData(RStrip(lines[i])).None?)
    requires rows + DataRows(lines, i).0 == DataRows(lines, i0).0
    requires DataRows(lines, i).1 == DataRows(lines, i0).1
    ensures rows == DataRows(lines, i0).0 && i == DataRows(lines, i0).1
  {
    var parsed := ParseAll(lines);
    if i < |lines| {
      assert parsed[i].None?;
      TakeRowsStep(parsed, i);
    }
    AppendEmpty(rows);
  }

  // ---------------------------------------------------------------------
  // Lines outside tables

  /** A section heading: all uppercase, or starting with `App Summary` or
      `Objects`. */
  predicate IsHeading(line: string) {
    IsUpper(Strip(line)) || "App Summary" <= line || "Objects" <= line
  }

  /** `re.search(r'^\s+', line)`: the line is indented. */
  predicate Indented(line: string) {
    |line| > 0 && IsSpace(line[0])
  }

  /** `**key**: value`, the two halves of the line around its first colon,
      each stripped. */
  function KeyValue(line: string): (r: string)
  {
    var keyValue := SplitOnce(line, ':');
    if |keyValue| == 2 then
      "**" + Strip(keyValue[0]) + "**: " + Strip(keyValue[1])
    else line
  }

  /** The Markdown of a line that does not start a table. */
  function LineOutput(line: string): string {
    if IsHeading(line) then "\n### " + line
    else if ':' in line && !Indented(line) then KeyValue(line)
    else line
  }

  /** Only the empty line gives empty Markdown. */
  lemma LineOutputNonEmpty(line: string)
    ensures line != [] ==> LineOutput(line) != []
  {
  }

  /** A heading becomes `\n### line`; a non-indented line with a colon
      becomes `**key**: value`, split at its first colon with both halves
      stripped; any other line is kept as it is. */
  lemma LineOutputShape(line: string)
    ensures IsHeading(line) ==> LineOutput(line) == "\n### " + line
    ensures !IsHeading(line) && ':' in line && !Indented(line) ==>
      exists key, value | line == key + ":" + value && ':' !in key ::
        LineOutput(line) == "**" + Strip(key) + "**: " + Strip(value)
    ensures !IsHeading(line) && !(':' in line && !Indented(line)) ==> LineOutput(line) == line
    ensures LineOutput(line) == [] ==> line == []
  {
    LineOutputNonEmpty(line);
    if !IsHeading(line) && ':' in line && !Indented(line) {
      var keyValue := SplitOnce(line, ':');
      assert line == keyValue[0] + ":" + keyValue[1] && ':' !in keyValue[0];
      assert LineOutput(line) == "**" + Strip(keyValue[0]) + "**: " + Strip(keyValue[1]);
    }
  }

  // ---------------------------------------------------------------------
  // format_meminfo_to_markdown

  /** The reply to a missing or empty report. */
  const ErrorMessage: string := "**错误**: 无法获取内存信息\n"

  /** Line `i` and the next one form a two-line table header: a column name
      on the first, a qualifier on the second, and fewer than three numbers
      on the first. */
  predicate TableStart(lines: seq<string>, i: nat)
    requires i < |lines|
  {
    i + 1 < |lines| &&
    Search(RStrip(lines[i]), ColumnKeywords) &&
    Search(RStrip(lines[i + 1]), QualifierKeywords) &&
    CountNumbers(Words(RStrip(lines[i]))) < 3
  }

  /** How the outer loop treats a line it reaches. */
  datatype LineKind =
    | BlankLine
    | TableHeader(headerRow: string, separatorRow: string)
    | TextLine(text: string)

  /** The treatment of line `i` when the outer loop reaches it. */
  function Classify(lines: seq<string>, i: nat): LineKind
    requires i < |lines|
  {
    var line := RStrip(lines[i]);
    if Strip(line) == [] then BlankLine
    else if TableStart(lines, i) then
      var headers := Merge(Words(line), Words(RStrip(lines[i + 1])));
      TableHeader(HeaderRow(headers), SeparatorRow(|headers|))
    else TextLine(LineOutput(line))
  }

  /** `Classify` at every line. */
  function Kinds(lines: seq<string>): (kinds: seq<LineKind>)
    ensures |kinds| == |lines|
  {
    seq(|lines|, k requires 0 <= k < |lines| => Classify(lines, k))
  }

  /** The entries of `markdown_output` from line `i` on, given each line's
      treatment and each line's table row: a blank line gives `""`, a text
      line its text, and a header pair its two rows followed by the table
      rows read after it (a header has a second line, so `i + 2` is at most
      the line count). */
  function EmitKinds(kinds: seq<LineKind>, parsed: seq<Option<string>>, i: nat): seq<string>
    requires |kinds| == |parsed| && i <= |kinds|
    decreases |kinds| - i
  {
    if i == |kinds| then []
    else
      match kinds[i]
      case BlankLine => [""] + EmitKinds(kinds, parsed, i + 1)
      case TextLine(text) => [text] + EmitKinds(kinds, parsed, i + 1)
      case TableHeader(headerRow, separatorRow) =>
        var rows := TakeRows(parsed, if i + 2 <= |parsed| then i + 2 else |parsed|);
        [headerRow, separatorRow] + rows.0 + EmitKinds(kinds, parsed, rows.1)
  }

  /** The entries of `markdown_output` for the lines of a report. */
  function Emit(lines: seq<string>): seq<string> {
    EmitKinds(Kinds(lines), ParseAll(lines), 0)
  }

  /** The Markdown for a report. */
  function Markdown(meminfoText: Option<string>): (md: string)
    ensures meminfoText.None? || meminfoText.value == [] ==> md == ErrorMessage
  {
    if meminfoText.None? || meminfoText.value == [] then ErrorMessage
    else Join("\n", Emit(SplitOn(Strip(meminfoText.value), '\n')))
  }

  /** The treatments and rows line up with the lines: blank lines are
      exactly those treated as blank; text lines, header rows and table
      rows are not empty; a header's second line and a table row's line are
      not blank. */
  ghost predicate Aligned(kinds: seq<LineKind>, parsed: seq<Option<string>>, blank: seq<bool>) {
    |kinds| == |parsed| == |blank| &&
    (forall k | 0 <= k < |kinds| :: kinds[k].BlankLine? <==> blank[k]) &&
    (forall k | 0 <= k < |kinds| :: kinds[k].TextLine? ==> kinds[k].text != []) &&
    (forall k | 0 <= k < |kinds| :: kinds[k].TableHeader? ==>
      kinds[k].headerRow != [] && kinds[k].separatorRow != [] && k + 1 < |kinds| && !blank[k + 1]) &&
    (forall k | 0 <= k < |parsed| :: parsed[k].Some? ==> parsed[k].value != [] && !blank[k])
  }

  /** `out` holds one entry for each line from `i` on, empty exactly for
      the blank ones. */
  predicate OnePerLine(out: seq<string>, blank: seq<bool>, i: nat) {
    i <= |blank| && |out| == |blank| - i &&
    forall k | i <= k < |blank| :: (out[k - i] == [] <==> blank[k])
  }

  /** Over aligned treatments every line gives exactly one entry, at its
      own position, empty exactly when the line is blank. */
  lemma {:induction false} EmitKindsOnePerLine(kinds: seq<LineKind>, parsed: seq<Option<string>>, blank: seq<bool>, i: nat)
    requires Aligned(kinds, parsed, blank) && i <= |kinds|
    ensures OnePerLine(EmitKinds(kinds, parsed, i), blank, i)
    decreases |kinds| - i
  {
    if i < |kinds| {
      var out := EmitKinds(kinds, parsed, i);
      match kinds[i]
      case BlankLine =>
        EmitKindsOnePerLine(kinds, parsed, blank, i + 1);
        assert out == [""] + EmitKinds(kinds, parsed, i + 1);
        OnePerLineCons("", EmitKinds(kinds, parsed, i + 1), blank, i);
      case TextLine(text) =>
        EmitKindsOnePerLine(kinds, parsed, blank, i + 1);
        assert out == [text] + EmitKinds(kinds, parsed, i + 1);
        OnePerLineCons(text, EmitKinds(kinds, parsed, i + 1), blank, i);
      case TableHeader(headerRow, separatorRow) =>
        EmitKindsOnePerLine(kinds, parsed, blank, TakeRows(parsed, i + 2).1);
        HeaderEntries(kinds, parsed, blank, i);
    }
  }

  /** One more line in front, with its own entry. */
  lemma OnePerLineCons(entry: string, rest: seq<string>, blank: seq<bool>, i: nat)
    requires i < |blank| && OnePerLine(rest, blank, i + 1) && (entry == [] <==> blank[i])
    ensures OnePerLine([entry] + rest, blank, i)
  {
    var out := [entry] + rest;
    forall k | i <= k < |blank|
      ensures out[k - i] == [] <==> blank[k]
    {
      if k > i {
        assert out[k - i] == rest[k - (i + 1)];
      }
    }
  }

  /** The header case of `EmitKindsOnePerLine`: two header entries, one
      entry per table row, then the entries of the lines after the table. */
  lemma HeaderEntries(kinds: seq<LineKind>, parsed: seq<Option<string>>, blank: seq<bool>, i: nat)
    requires Aligned(kinds, parsed, blank) && i < |kinds| && kinds[i].TableHeader?
    requires OnePerLine(EmitKinds(kinds, parsed, TakeRows(parsed, i + 2).1), blank, TakeRows(parsed, i + 2).1)
    ensures OnePerLine(EmitKinds(kinds, parsed, i), blank, i)
  {
    var out := EmitKinds(kinds, parsed, i);
    var rows := TakeRows(parsed, i + 2);
    var rest := EmitKinds(kinds, parsed, rows.1);
    var head := [kinds[i].headerRow, kinds[i].separatorRow];
    assert out == head + rows.0 + rest;
    forall k | i <= k < |kinds|
      ensures out[k - i] == [] <==> blank[k]
    {
      if k < i + 2 {
        assert out[k - i] == head[k - i];
      } else if k < rows.1 {
        TakeRowsRead(parsed, i + 2, k);
        assert out[k - i] == rows.0[k - i - 2];
      } else {
        assert out[k - i] == rest[k - rows.1];
      }
    }
  }

  /** The treatments and rows of a report's lines are aligned with its
      blank lines. */
  lemma KindsAligned(lines: seq<string>)
    ensures Aligned(Kinds(lines), ParseAll(lines), seq(|lines|, k requires 0 <= k < |lines| => IsBlank(lines[k])))
  {
    var kinds := Kinds(lines);
    var parsed := ParseAll(lines);
    var blank := seq(|lines|, k requires 0 <= k < |lines| => IsBlank(lines[k]));
    forall k | 0 <= k < |lines|
      ensures kinds[k].BlankLine? <==> blank[k]
      ensures kinds[k].TextLine? ==> kinds[k].text != []
      ensures kinds[k].TableHeader? ==>
        kinds[k].headerRow != [] && kinds[k].separatorRow != [] && k + 1 < |kinds| && !blank[k + 1]
      ensures parsed[k].Some? ==> parsed[k].value != [] && !blank[k]
    {
      assert kinds[k] == Classify(lines, k);
      assert parsed[k] == ParseData(RStrip(lines[k]));
      assert blank[k] == IsBlank(lines[k]);
      if k + 1 < |lines| {
        assert blank[k + 1] == IsBlank(lines[k + 1]);
      }
      ClassifyShape(lines, k);
      ParseDataShape(lines[k]);
    }
  }

  /** A table row is never empty and never comes from a blank line. */
  lemma ParseDataShape(line: string)
    ensures ParseData(RStrip(line)).Some? ==> ParseData(RStrip(line)).value != [] && !IsBlank(line)
  {
    StripShape(RStrip(line));
    RStripBlank(line);
  }

  /** One line's treatment: blank exactly for a blank line, a non-empty
      text for a text line, and a header only with a non-blank second
      line. */
  lemma ClassifyShape(lines: seq<string>, k: nat)
    requires k < |lines|
    ensures Classify(lines, k).BlankLine? <==> IsBlank(lines[k])
    ensures Classify(lines, k).TextLine? ==> Classify(lines, k).text != []
    ensures Classify(lines, k).TableHeader? ==>
      Classify(lines, k).headerRow != [] && Classify(lines, k).separatorRow != [] &&
      k + 1 < |lines| && !IsBlank(lines[k + 1])
  {
    var line := RStrip(lines[k]);
    StripShape(line);
    RStripBlank(lines[k]);
    if Strip(line) == [] {
      assert Classify(lines, k) == BlankLine;
    } else if TableStart(lines, k) {
      TableStartNotBlank(lines, k);
    } else {
      assert line != [];
      LineOutputNonEmpty(line);
      assert Classify(lines, k) == TextLine(LineOutput(line));
    }
  }

  /** A table header's second line is not blank. */
  lemma TableStartNotBlank(lines: seq<string>, k: nat)
    requires k < |lines| && TableStart(lines, k)
    ensures !IsBlank(lines[k + 1])
  {
    SearchNotBlank(RStrip(lines[k + 1]), QualifierKeywords);
    RStripBlank(lines[k + 1]);
  }

  /** Every line of a report gives exactly one entry of `markdown_output`,
      at its own position, and that entry is empty exactly when the line is
      blank. */
  lemma EveryLineOnce(lines: seq<string>)
    ensures |Emit(lines)| == |lines|
    ensures forall k | 0 <= k < |lines| :: (Emit(lines)[k] == [] <==> IsBlank(lines[k]))
  {
    var blank := seq(|lines|, k requires 0 <= k < |lines| => IsBlank(lines[k]));
    var out := EmitKinds(Kinds(lines), ParseAll(lines), 0);
    assert Emit(lines) == out;
    KindsAligned(lines);
    EmitKindsOnePerLine(Kinds(lines), ParseAll(lines), blank, 0);
    forall k | 0 <= k < |lines|
      ensures out[k] == [] <==> IsBlank(lines[k])
    {
      assert out[k - 0] == [] <==> blank[k];
      assert blank[k] == IsBlank(lines[k]);
    }
  }

  /** One pass of the outer loop at line `i`: the entries it appends and
      the line it moves on to. */
  method FormatLine(lines: seq<string>, i: nat) returns (entries: seq<string>, next: nat)
    requires i < |lines|
    ensures i < next <= |lines|
    ensures entries + EmitKinds(Kinds(lines), ParseAll(lines), next) == EmitKinds(Kinds(lines), ParseAll(lines), i)
  {
    ghost var kinds := Kinds(lines);
    ghost var parsed := ParseAll(lines);
    assert kinds[i] == Classify(lines, i);
    var line := RStrip(lines[i]);
    if Strip(line) == [] {
      return [""], i + 1;
    }
    if i + 1 < |lines| {
      var nextLine := RStrip(lines[i + 1]);
      if Search(line, ColumnKeywords) && Search(nextLine, QualifierKeywords) {
        var numCount := CountNumbers(Words(line));
        if numCount < 3 {
          var headers := MergeHeaders(Words(line), Words(nextLine));
          var rows, resume := ReadDataRows(lines, i + 2);
          return [HeaderRow(headers), SeparatorRow(|headers|)] + rows, resume;
        }
      }
    }
    if IsHeading(line) {
      entries := ["\n### " + line];
    } else if ':' in line && !Indented(line) {
      var keyValue := SplitOnce(line, ':');
      if |keyValue| == 2 {
        entries := ["**" + Strip(keyValue[0]) + "**: " + Strip(keyValue[1])];
      } else {
        entries := [line];
      }
    } else {
      entries := [line];
    }
    next := i + 1;
  }

  /** `format_meminfo_to_markdown`: the outer `while` loop over the
      stripped report's lines, appending to `markdown_output`, then the
      lines joined with newlines. */
  method FormatMeminfoToMarkdown(meminfoText: Option<string>) returns (md: string)
    ensures md == Markdown(meminfoText)
  {
    if meminfoText.None? || meminfoText.value == [] {
      return ErrorMessage;
    }
    var markdownOutput: seq<string> := [];
    var lines := SplitOn(Strip(meminfoText.value), '\n');
    ghost var kinds := Kinds(lines);
    ghost var parsed := ParseAll(lines);
    var i := 0;
    while i < |lines|
      invariant 0 <= i <= |lines|
      invariant markdownOutput + EmitKinds(kinds, parsed, i) == EmitKinds(kinds, parsed, 0)
      decreases |lines| - i
    {
      var entries, next := FormatLine(lines, i);
      assert entries + EmitKinds(kinds, parsed, next) == EmitKinds(kinds, parsed, i);
      markdownOutput := markdownOutput + entries;
      i := next;
    }
    AppendEmpty(markdownOutput);
    md := Join("\n", markdownOutput);
  }
}
