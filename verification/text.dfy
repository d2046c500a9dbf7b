/**
 * The text primitives the quality metrics are built from: Python's `str.isspace`,
 * `str.strip`, `str.lower`, `str.split(sep)`, `str.split()`, `sep in s`, and the two
 * regular expressions `re.split(r'[.!?]+', ...)` and `re.findall(r'\b\w+\b', ...)`,
 * together with the JavaScript `trim`, `split(',')` and `split(/\s+/)` the front end uses.
 *
 * `\w` and `lower` are ASCII only; whitespace is the full set each language uses.
 */
module Text {
  import opened Wrappers

  // ---------------------------------------------------------------------------
  // Character classes
  // ---------------------------------------------------------------------------

  /** Python's `str.isspace` (also what `\s` and `strip()` use). */
  predicate IsSpace(c: char) {
    var n := c as int;
    (9 <= n <= 13) || (28 <= n <= 32) || n == 0x85 || n == 0xA0 || n == 0x1680
    || (0x2000 <= n <= 0x200A) || n == 0x2028 || n == 0x2029 || n == 0x202F
    || n == 0x205F || n == 0x3000
  }

  predicate IsNotSpace(c: char) {
    !IsSpace(c)
  }

  /** JavaScript's WhiteSpace and LineTerminator (what `trim()` and `\s` use). */
  predicate IsJsSpace(c: char) {
    var n := c as int;
    (9 <= n <= 13) || n == 32 || n == 0xA0 || n == 0x1680 || (0x2000 <= n <= 0x200A)
    || n == 0x2028 || n == 0x2029 || n == 0x202F || n == 0x205F || n == 0x3000
    || n == 0xFEFF
  }

  /** Regex `\w`, ASCII. */
  predicate IsWordChar(c: char) {
    ('a' <= c <= 'z') || ('A' <= c <= 'Z') || ('0' <= c <= '9') || c == '_'
  }

  predicate IsDigit(c: char) {
    '0' <= c <= '9'
  }

  predicate IsUpper(c: char) {
    'A' <= c <= 'Z'
  }

  function LowerChar(c: char): char {
    if 'A' <= c <= 'Z' then (c as int + 32) as char else c
  }

  /** `str.lower()`, ASCII. */
  function Lower(s: string): (r: string)
    ensures |r| == |s|
  {
    seq(|s|, i requires 0 <= i < |s| => LowerChar(s[i]))
  }

  // ---------------------------------------------------------------------------
  // Prefixes, substrings
  // ---------------------------------------------------------------------------

  predicate StartsWith(s: string, prefix: string) {
    |prefix| <= |s| && s[..|prefix|] == prefix
  }

  /** Python's `sub in s`. */
  predicate Contains(s: string, sub: string)
    decreases |s|
  {
    StartsWith(s, sub) || (s != [] && Contains(s[1..], sub))
  }

  /** `sub` occurs in `s` starting at index `i`. */
  predicate OccursAt(s: string, sub: string, i: int) {
    0 <= i <= |s| - |sub| && s[i..i + |sub|] == sub
  }

  /** `sub in s` holds exactly when `sub` occurs at some index of `s`. */
  lemma {:induction false} ContainsAt(s: string, sub: string)
    ensures Contains(s, sub) <==> exists i :: OccursAt(s, sub, i)
    decreases |s|
  {
    if Contains(s, sub) {
      if StartsWith(s, sub) {
        assert OccursAt(s, sub, 0);
      } else {
        ContainsAt(s[1..], sub);
        var i :| OccursAt(s[1..], sub, i);
        assert s[1..][i..i + |sub|] == s[i + 1..i + 1 + |sub|];
        assert OccursAt(s, sub, i + 1);
      }
    }
    if exists i :: OccursAt(s, sub, i) {
      var i :| OccursAt(s, sub, i);
      if i == 0 {
        assert StartsWith(s, sub);
      } else {
        assert s[1..][i - 1..i - 1 + |sub|] == s[i..i + |sub|];
        assert OccursAt(s[1..], sub, i - 1);
        ContainsAt(s[1..], sub);
      }
    }
  }

  // ---------------------------------------------------------------------------
  // strip
  // ---------------------------------------------------------------------------

  function LStrip(s: string): (r: string)
    ensures |r| <= |s| && r == s[|s| - |r|..]
    ensures r != [] ==> !IsSpace(r[0])
    ensures forall i :: 0 <= i < |s| - |r| ==> IsSpace(s[i])
    decreases |s|
  {
    if s != [] && IsSpace(s[0]) then LStrip(s[1..]) else s
  }

  function RStrip(s: string): (r: string)
    ensures |r| <= |s| && r == s[..|r|]
    ensures r != [] ==> !IsSpace(r[|r| - 1])
    ensures forall i :: |r| <= i < |s| ==> IsSpace(s[i])
    decreases |s|
  {
    if s != [] && IsSpace(s[|s| - 1]) then RStrip(s[..|s| - 1]) else s
  }

  /** Python's `str.strip()`: `s` without whitespace at either end. */
  function Strip(s: string): (r: string)
    ensures exists i, j :: 0 <= i <= j <= |s| && r == s[i..j]
    ensures r != [] ==> !IsSpace(r[0]) && !IsSpace(r[|r| - 1])
  {
    var l := LStrip(s);
    var r := RStrip(l);
    assert r == s[|s| - |l|..|s| - |l| + |r|];
    r
  }

  /**
   * The strip is the slice of the text left after dropping whitespace, and only whitespace,
   * from both ends.
   */
  lemma StripShape(s: string)
    ensures exists i, j ::
      && 0 <= i <= j <= |s| && Strip(s) == s[i..j]
      && (forall k :: 0 <= k < i || j <= k < |s| ==> IsSpace(s[k]))
  {
    var i, j := StripBounds(s);
  }

  /** The bounds of the strip: what `LStrip` drops, and then what `RStrip` drops. */
  lemma StripBounds(s: string) returns (i: nat, j: nat)
    ensures i <= j <= |s| && RStrip(LStrip(s)) == s[i..j]
    ensures forall k :: 0 <= k < i || j <= k < |s| ==> IsSpace(s[k])
  {
    var l := LStrip(s);
    var r := RStrip(l);
    i := |s| - |l|;
    j := i + |r|;
    assert r == s[i..j];
    forall k | j <= k < |s|
      ensures IsSpace(s[k])
    {
      assert s[k] == l[k - i];
    }
  }

  /** `not s.strip()`: the text is empty or all whitespace. */
  predicate IsBlank(s: string) {
    Strip(s) == []
  }

  lemma BlankIffAllSpace(s: string)
    ensures IsBlank(s) <==> forall i :: 0 <= i < |s| ==> IsSpace(s[i])
  {
    var l := LStrip(s);
    if forall i :: 0 <= i < |s| ==> IsSpace(s[i]) {
      assert l == [];
    }
  }

  /** A text whose last character is not whitespace is not blank. */
  lemma NotBlankWhenLastNotSpace(s: string)
    requires s != [] && !IsSpace(s[|s| - 1])
    ensures !IsBlank(s)
  {
    BlankIffAllSpace(s);
  }

  // ---------------------------------------------------------------------------
  // str.split(sep) and its inverse
  // ---------------------------------------------------------------------------

  /** Python's `s.split(sep)` (and JavaScript's `s.split(sep)`) for a non-empty separator. */
  function Split(s: string, sep: string): (pieces: seq<string>)
    requires sep != []
    ensures |pieces| >= 1
    decreases |s|
  {
    if |s| < |sep| then [s]
    else if s[..|sep|] == sep then [[]] + Split(s[|sep|..], sep)
    else
      var rest := Split(s[1..], sep);
      [[s[0]] + rest[0]] + rest[1..]
  }

  /** `sep.join(pieces)`. */
  function Join(pieces: seq<string>, sep: string): string
    requires |pieces| >= 1
  {
    if |pieces| == 1 then pieces[0] else pieces[0] + sep + Join(pieces[1..], sep)
  }

  /** Splitting loses nothing: joining the pieces back gives the original text. */
  lemma {:induction false} JoinSplit(s: string, sep: string)
    requires sep != []
    ensures Join(Split(s, sep), sep) == s
    decreases |s|
  {
    if |s| < |sep| {
    } else if s[..|sep|] == sep {
      JoinSplit(s[|sep|..], sep);
      JoinEmptyFirst(Split(s[|sep|..], sep), sep);
      assert s == sep + s[|sep|..];
    } else {
      JoinSplit(s[1..], sep);
      JoinExtendFirst(s[0], Split(s[1..], sep), sep);
      assert s == [s[0]] + s[1..];
    }
  }

  /** An empty first piece contributes only its separator. */
  lemma JoinEmptyFirst(pieces: seq<string>, sep: string)
    requires |pieces| >= 1
    ensures Join([[]] + pieces, sep) == sep + Join(pieces, sep)
  {
    assert ([[]] + pieces)[1..] == pieces;
  }

  /** Putting a character in front of the first piece puts it in front of the joined text. */
  lemma JoinExtendFirst(c: char, pieces: seq<string>, sep: string)
    requires |pieces| >= 1
    ensures Join([[c] + pieces[0]] + pieces[1..], sep) == [c] + Join(pieces, sep)
  {
    var extended := [[c] + pieces[0]] + pieces[1..];
    assert extended[1..] == pieces[1..];
    if |pieces| > 1 {
      assert Join(extended, sep) == [c] + pieces[0] + sep + Join(pieces[1..], sep);
    }
  }

  /** Splitting at a one-character separator gives one piece more than it has occurrences. */
  lemma {:induction false} SplitCount(s: string, c: char)
    ensures |Split(s, [c])| == CountIn(s, {c}) + 1
    decreases |s|
  {
    if |s| >= 1 {
      SplitCount(s[1..], c);
      assert s[..1] == [s[0]];
    }
  }

  /** A text without the separator is one piece. */
  lemma {:induction false} SplitAbsent(s: string, c: char)
    requires forall i :: 0 <= i < |s| ==> s[i] != c
    ensures Split(s, [c]) == [s]
    decreases |s|
  {
    if |s| >= 1 {
      SplitAbsent(s[1..], c);
      assert s[..1] == [s[0]];
      assert [s[0]] + s[1..] == s;
    }
  }

  /** The first piece ends at the first separator; the rest of the text is split on. */
  lemma {:induction false} SplitAtFirst(a: string, b: string, c: char)
    requires forall i :: 0 <= i < |a| ==> a[i] != c
    ensures Split(a + [c] + b, [c]) == [a] + Split(b, [c])
    decreases |a|
  {
    var s := a + [c] + b;
    if a == [] {
      assert s == [c] + b && s[..1] == [c] && s[1..] == b;
    } else {
      SplitAtFirst(a[1..], b, c);
      assert s[..1] == [a[0]] && s[1..] == a[1..] + [c] + b;
      assert [a[0]] + a[1..] == a;
    }
  }

  /**
   * Splitting undoes joining: pieces that do not contain the one-character separator come
   * back unchanged.
   */
  lemma {:induction false} SplitJoin(pieces: seq<string>, c: char)
    requires |pieces| >= 1
    requires forall k, i :: 0 <= k < |pieces| && 0 <= i < |pieces[k]| ==> pieces[k][i] != c
    ensures Split(Join(pieces, [c]), [c]) == pieces
    decreases |pieces|
  {
    if |pieces| == 1 {
      SplitAbsent(pieces[0], c);
    } else {
      SplitJoin(pieces[1..], c);
      SplitAtFirst(pieces[0], Join(pieces[1..], [c]), c);
      assert [pieces[0]] + pieces[1..] == pieces;
    }
  }

  // ---------------------------------------------------------------------------
  // re.split over a character class
  // ---------------------------------------------------------------------------

  function CountIn(s: string, ds: set<char>): nat
    decreases |s|
  {
    if s == [] then 0 else (if s[0] in ds then 1 else 0) + CountIn(s[1..], ds)
  }

  /**
   * The text between single delimiter characters. `re.split(r'[.!?]+', s)` differs only
   * by the empty pieces between adjacent delimiters, which every caller drops.
   */
  function SplitAny(s: string, ds: set<char>): (pieces: seq<string>)
    ensures |pieces| >= 1
    decreases |s|
  {
    if s == [] then [[]]
    else if s[0] in ds then [[]] + SplitAny(s[1..], ds)
    else
      var rest := SplitAny(s[1..], ds);
      [[s[0]] + rest[0]] + rest[1..]
  }

  /** There is one more piece than delimiters, and no piece holds a delimiter. */
  lemma {:induction false} SplitAnyShape(s: string, ds: set<char>)
    ensures |SplitAny(s, ds)| == CountIn(s, ds) + 1
    ensures forall k, i :: 0 <= k < |SplitAny(s, ds)| && 0 <= i < |SplitAny(s, ds)[k]| ==> SplitAny(s, ds)[k][i] !in ds
    decreases |s|
  {
    if s != [] {
      SplitAnyShape(s[1..], ds);
    }
  }

  /** When the text does not end in a delimiter, its last character ends the last piece. */
  lemma {:induction false} SplitAnyLast(s: string, ds: set<char>)
    requires s != [] && s[|s| - 1] !in ds
    ensures var pieces := SplitAny(s, ds);
      var last := pieces[|pieces| - 1];
      last != [] && last[|last| - 1] == s[|s| - 1]
    decreases |s|
  {
    var pieces := SplitAny(s, ds);
    if |s| == 1 {
      assert s[1..] == [];
      var rest := SplitAny(s[1..], ds);
      assert rest == [[]];
      assert pieces == [[s[0]] + rest[0]] + rest[1..];
      assert pieces[0] == [s[0]] && |pieces| == 1;
    } else {
      SplitAnyLast(s[1..], ds);
      var rest := SplitAny(s[1..], ds);
      var tail := rest[|rest| - 1];
      assert s[1..][|s| - 2] == s[|s| - 1];
      if s[0] in ds {
        assert pieces == [[]] + rest;
        assert pieces[|pieces| - 1] == tail;
      } else if |rest| == 1 {
        assert pieces == [[s[0]] + tail];
      } else {
        assert pieces == [[s[0]] + rest[0]] + rest[1..];
        assert pieces[|pieces| - 1] == tail;
      }
    }
  }

  // ---------------------------------------------------------------------------
  // Stripped, non-blank pieces
  // ---------------------------------------------------------------------------

  /** `[p.strip() for p in pieces if p.strip()]`. */
  function StrippedNonBlank(pieces: seq<string>): (r: seq<string>)
    ensures |r| <= |pieces|
    ensures forall k :: 0 <= k < |r| ==> r[k] != []
  {
    if pieces == [] then []
    else
      var t := Strip(pieces[0]);
      (if t != [] then [t] else []) + StrippedNonBlank(pieces[1..])
  }

  /** A non-blank piece always leaves something after the filter. */
  lemma {:induction false} StrippedNonBlankKeeps(pieces: seq<string>, k: nat)
    requires k < |pieces| && !IsBlank(pieces[k])
    ensures |StrippedNonBlank(pieces)| >= 1
  {
    if k == 0 {
      assert Strip(pieces[0]) != [];
      assert StrippedNonBlank(pieces) == [Strip(pieces[0])] + StrippedNonBlank(pieces[1..]);
    } else {
      assert pieces[1..][k - 1] == pieces[k];
      StrippedNonBlankKeeps(pieces[1..], k - 1);
      assert |StrippedNonBlank(pieces)| >= |StrippedNonBlank(pieces[1..])|;
    }
  }

  const SentenceEnds: set<char> := {'.', '!', '?'}

  /** `[s.strip() for s in re.split(r'[.!?]+', text) if s.strip()]`. */
  function Sentences(text: string): seq<string> {
    StrippedNonBlank(SplitAny(text, SentenceEnds))
  }

  /** A text ending in a character that is neither whitespace nor `.!?` has a sentence. */
  lemma SentencesWhenOpenEnd(text: string)
    requires text != [] && text[|text| - 1] !in SentenceEnds && !IsSpace(text[|text| - 1])
    ensures |Sentences(text)| >= 1
  {
    var pieces := SplitAny(text, SentenceEnds);
    SplitAnyLast(text, SentenceEnds);
    NotBlankWhenLastNotSpace(pieces[|pieces| - 1]);
    StrippedNonBlankKeeps(pieces, |pieces| - 1);
  }

  /** `[p.strip() for p in text.split('\n\n') if p.strip()]`. */
  function Paragraphs(text: string): seq<string> {
    StrippedNonBlank(Split(text, "\n\n"))
  }

  // ---------------------------------------------------------------------------
  // Maximal runs: re.findall(r'\b\w+\b', s) and str.split()
  // ---------------------------------------------------------------------------

  function RunLength(s: string, p: char -> bool): (n: nat)
    ensures n <= |s|
    ensures forall i :: 0 <= i < n ==> p(s[i])
    ensures n < |s| ==> !p(s[n])
    decreases |s|
  {
    if s == [] || !p(s[0]) then 0 else 1 + RunLength(s[1..], p)
  }

  /** The maximal runs of characters satisfying `p`, left to right. */
  function Runs(s: string, p: char -> bool): (rs: seq<string>)
    ensures forall k :: 0 <= k < |rs| ==> rs[k] != []
    decreases |s|
  {
    if s == [] then []
    else if !p(s[0]) then Runs(s[1..], p)
    else
      var n := RunLength(s, p);
      [s[..n]] + Runs(s[n..], p)
  }

  /**
   * The positions where a run of `p` starts: a matching character at the start of `s` or
   * after a character that does not match. `after` says whether the character before `s`
   * matches.
   */
  function RunStarts(s: string, p: char -> bool, after: bool): nat
    decreases |s|
  {
    if s == [] then 0 else (if p(s[0]) && !after then 1 else 0) + RunStarts(s[1..], p, p(s[0]))
  }

  /** Inside a run no new run starts. */
  lemma {:induction false} RunStartsInsideRun(s: string, p: char -> bool, n: nat)
    requires n <= |s|
    requires forall i :: 0 <= i < n ==> p(s[i])
    ensures RunStarts(s, p, true) == RunStarts(s[n..], p, true)
    decreases n
  {
    if n > 0 {
      RunStartsInsideRun(s[1..], p, n - 1);
      assert s[1..][n - 1..] == s[n..];
    }
  }

  /**
   * The runs are maximal: there is one per run start, so two consecutive runs are always
   * separated by a character that does not match.
   */
  lemma {:induction false} RunsCount(s: string, p: char -> bool)
    ensures |Runs(s, p)| == RunStarts(s, p, false)
    decreases |s|
  {
    if s != [] {
      if !p(s[0]) {
        RunsCount(s[1..], p);
      } else {
        var n := RunLength(s, p);
        RunsCount(s[n..], p);
        RunStartsInsideRun(s[1..], p, n - 1);
        assert s[1..][n - 1..] == s[n..];
      }
    }
  }

  function Filter(s: string, p: char -> bool): string
    decreases |s|
  {
    if s == [] then [] else (if p(s[0]) then [s[0]] else []) + Filter(s[1..], p)
  }

  function Concat(ss: seq<string>): string {
    if ss == [] then [] else ss[0] + Concat(ss[1..])
  }

  lemma {:induction false} FilterAppend(a: string, b: string, p: char -> bool)
    ensures Filter(a + b, p) == Filter(a, p) + Filter(b, p)
    decreases |a|
  {
    if a == [] {
      assert a + b == b;
    } else {
      FilterAppend(a[1..], b, p);
      var head := if p(a[0]) then [a[0]] else [];
      assert (a + b)[0] == a[0] && (a + b)[1..] == a[1..] + b;
      assert Filter(a + b, p) == head + (Filter(a[1..], p) + Filter(b, p));
      assert Filter(a, p) == head + Filter(a[1..], p);
    }
  }

  lemma {:induction false} FilterAll(a: string, p: char -> bool)
    requires forall i :: 0 <= i < |a| ==> p(a[i])
    ensures Filter(a, p) == a
    decreases |a|
  {
    if a != [] {
      FilterAll(a[1..], p);
    }
  }

  /** The runs are exactly the characters satisfying `p`, in order: nothing is lost or invented. */
  lemma {:induction false} RunsCoverFilter(s: string, p: char -> bool)
    ensures Concat(Runs(s, p)) == Filter(s, p)
    decreases |s|
  {
    if s != [] {
      if !p(s[0]) {
        RunsCoverFilter(s[1..], p);
      } else {
        var n := RunLength(s, p);
        RunsCoverFilter(s[n..], p);
        assert s == s[..n] + s[n..];
        FilterAppend(s[..n], s[n..], p);
        FilterAll(s[..n], p);
        assert Runs(s, p)[1..] == Runs(s[n..], p);
      }
    }
  }

  /** Words as `re.findall(r'\b\w+\b', s)` finds them. */
  function Words(s: string): seq<string> {
    Runs(s, IsWordChar)
  }

  /** Fields as `s.split()` with no argument gives them. */
  function Fields(s: string): seq<string> {
    Runs(s, IsNotSpace)
  }

  /** Total length of a list of strings: `sum(len(w) for w in words)`. */
  function TotalLength(ss: seq<string>): nat {
    if ss == [] then 0 else |ss[0]| + TotalLength(ss[1..])
  }

  lemma {:induction false} TotalLengthOfNonEmpty(ss: seq<string>)
    requires forall k :: 0 <= k < |ss| ==> ss[k] != []
    ensures TotalLength(ss) >= |ss|
  {
    if ss != [] {
      TotalLengthOfNonEmpty(ss[1..]);
    }
  }

  // ---------------------------------------------------------------------------
  // JavaScript split at runs: s.split(/\s+/)
  // ---------------------------------------------------------------------------

  /** The pieces `s.split(re)` gives for a regex matching maximal runs of `p`. */
  function SplitAtRuns(s: string, p: char -> bool): (pieces: seq<string>)
    ensures |pieces| >= 1
    decreases |s|
  {
    if s == [] then [[]]
    else if p(s[0]) then [[]] + SplitAtRuns(s[RunLength(s, p)..], p)
    else
      var rest := SplitAtRuns(s[1..], p);
      [[s[0]] + rest[0]] + rest[1..]
  }

  /** Splitting at the maximal runs of `p` gives one piece more than there are runs. */
  lemma {:induction false} SplitAtRunsCount(s: string, p: char -> bool)
    ensures |SplitAtRuns(s, p)| == |Runs(s, p)| + 1
    decreases |s|
  {
    if s != [] {
      if p(s[0]) {
        var n := RunLength(s, p);
        SplitAtRunsCount(s[n..], p);
      } else {
        SplitAtRunsCount(s[1..], p);
      }
    }
  }

  /** Characters outside a run of `q` do not start one: skipping them leaves the runs unchanged. */
  lemma {:induction false} RunsSkip(s: string, q: char -> bool, n: nat)
    requires n <= |s|
    requires forall i :: 0 <= i < n ==> !q(s[i])
    ensures Runs(s, q) == Runs(s[n..], q)
    decreases n
  {
    if n > 0 {
      RunsSkip(s[1..], q, n - 1);
      assert s[1..][n - 1..] == s[n..];
    }
  }

  /**
   * Dropping the first character of a run of `q`: the number of runs stays the same while the
   * run goes on, and drops by one when that character was the whole run.
   */
  lemma RunsStep(s: string, q: char -> bool)
    requires s != [] && q(s[0])
    ensures |Runs(s, q)| == |Runs(s[1..], q)| + (if |s| >= 2 && q(s[1]) then 0 else 1)
  {
    var m := RunLength(s, q);
    if |s| >= 2 && q(s[1]) {
      assert RunLength(s[1..], q) == m - 1;
      assert s[1..][m - 1..] == s[m..];
    } else {
      assert m == 1;
    }
  }

  /**
   * The pieces of `s.split(re)`, with `re` matching the runs of `p`, are the runs of the other
   * characters plus one empty piece for a leading and one for a trailing run of `p` (a single
   * empty piece for the empty text).
   */
  lemma {:induction false} SplitAtRunsWords(s: string, p: char -> bool, q: char -> bool)
    requires forall c :: q(c) == !p(c)
    ensures |SplitAtRuns(s, p)| == if s == [] then 1 else
      |Runs(s, q)| + (if p(s[0]) then 1 else 0) + (if p(s[|s| - 1]) then 1 else 0)
    decreases |s|
  {
    if s != [] {
      if p(s[0]) {
        var n := RunLength(s, p);
        RunsSkip(s, q, n);
        SplitAtRunsWords(s[n..], p, q);
        if n < |s| {
          assert s[n..][|s[n..]| - 1] == s[|s| - 1];
        }
      } else {
        SplitAtRunsWords(s[1..], p, q);
        RunsStep(s, q);
        if |s| >= 2 {
          assert s[1..][|s[1..]| - 1] == s[|s| - 1];
        }
      }
    }
  }

  // ---------------------------------------------------------------------------
  // JavaScript trim() and parseFloat
  // ---------------------------------------------------------------------------

  function TrimStart(s: string): (r: string)
    ensures |r| <= |s| && r == s[|s| - |r|..]
    ensures r != [] ==> !IsJsSpace(r[0])
    ensures forall i :: 0 <= i < |s| - |r| ==> IsJsSpace(s[i])
    decreases |s|
  {
    if s != [] && IsJsSpace(s[0]) then TrimStart(s[1..]) else s
  }

  function TrimEnd(s: string): (r: string)
    ensures |r| <= |s| && r == s[..|r|]
    ensures r != [] ==> !IsJsSpace(r[|r| - 1])
    ensures forall i :: |r| <= i < |s| ==> IsJsSpace(s[i])
    decreases |s|
  {
    if s != [] && IsJsSpace(s[|s| - 1]) then TrimEnd(s[..|s| - 1]) else s
  }

  /** `s.trim()`: `s` without JavaScript whitespace at either end. */
  function Trim(s: string): string {
    TrimEnd(TrimStart(s))
  }

  /**
   * The trim is the slice of the text left after dropping whitespace, and only whitespace,
   * from both ends.
   */
  lemma TrimShape(s: string)
    ensures exists i, j ::
      && 0 <= i <= j <= |s| && Trim(s) == s[i..j]
      && (forall k :: 0 <= k < i || j <= k < |s| ==> IsJsSpace(s[k]))
    ensures Trim(s) != [] ==> !IsJsSpace(Trim(s)[0]) && !IsJsSpace(Trim(s)[|Trim(s)| - 1])
  {
    var i, j := TrimBounds(s);
    if Trim(s) != [] {
      assert Trim(s)[0] == TrimStart(s)[0];
    }
  }

  /** The bounds of the trim: what `TrimStart` drops, and then what `TrimEnd` drops. */
  lemma TrimBounds(s: string) returns (i: nat, j: nat)
    ensures i <= j <= |s| && TrimEnd(TrimStart(s)) == s[i..j]
    ensures forall k :: 0 <= k < i || j <= k < |s| ==> IsJsSpace(s[k])
  {
    var l := TrimStart(s);
    var r := TrimEnd(l);
    i := |s| - |l|;
    j := i + |r|;
    assert r == s[i..j];
    forall k | j <= k < |s|
      ensures IsJsSpace(s[k])
    {
      assert s[k] == l[k - i];
    }
  }

  function DigitValue(c: char): nat
    requires IsDigit(c)
  {
    if c == '0' then 0 else if c == '1' then 1 else if c == '2' then 2 else if c == '3' then 3
    else if c == '4' then 4 else if c == '5' then 5 else if c == '6' then 6 else if c == '7' then 7
    else if c == '8' then 8 else 9
  }

  /** The number a string of decimal digits denotes. */
  function DigitsValue(ds: string): nat
    requires forall i :: 0 <= i < |ds| ==> IsDigit(ds[i])
  {
    if ds == [] then 0 else DigitsValue(ds[..|ds| - 1]) * 10 + DigitValue(ds[|ds| - 1])
  }

  function Pow10(n: nat): (p: nat)
    ensures p >= 1
  {
    if n == 0 then 1 else 10 * Pow10(n - 1)
  }

  /**
   * Reads the rest of a decimal literal left to right: `digits` is the number the digits
   * read so far spell, `places` how many of them follow the point, and `any` whether there
   * was a digit at all. Reading stops at the first character that cannot continue the
   * literal.
   */
  function ScanDecimal(s: string, inFraction: bool, digits: nat, places: nat, any: bool): Option<real>
    decreases |s|
  {
    if s != [] && IsDigit(s[0]) then
      ScanDecimal(s[1..], inFraction, digits * 10 + DigitValue(s[0]), if inFraction then places + 1 else places, true)
    else if s != [] && s[0] == '.' && !inFraction then
      ScanDecimal(s[1..], true, digits, places, any)
    else if any then
      Some(digits as real / Pow10(places) as real)
    else
      None
  }

  /**
   * The unsigned part of a `parseFloat` literal: digits with an optional fraction, at least
   * one digit in all. The longest such prefix is read and the rest ignored.
   */
  function UnsignedDecimal(body: string): Option<real> {
    ScanDecimal(body, false, 0, 0, false)
  }

  /**
   * JavaScript `parseFloat` on plain decimal literals: an optional sign, then digits with
   * an optional fraction, at least one digit in all. `None` stands for `NaN`.
   */
  function ParseFloat(s: string): Option<real> {
    var negative := s != [] && s[0] == '-';
    var body := if s != [] && (s[0] == '+' || s[0] == '-') then s[1..] else s;
    match UnsignedDecimal(body)
    case None => None
    case Some(magnitude) => Some(if negative then -magnitude else magnitude)
  }

  /** Once a digit has been read, the scan always yields a number. */
  lemma {:induction false} ScanAfterDigit(s: string, inFraction: bool, digits: nat, places: nat)
    ensures ScanDecimal(s, inFraction, digits, places, true).Some?
    decreases |s|
  {
    if s != [] && IsDigit(s[0]) {
      ScanAfterDigit(s[1..], inFraction, digits * 10 + DigitValue(s[0]), if inFraction then places + 1 else places);
    } else if s != [] && s[0] == '.' && !inFraction {
      ScanAfterDigit(s[1..], true, digits, places);
    }
  }

  /** No number can be read exactly when the text does not start with a digit or ".<digit>". */
  lemma UnsignedDecimalNaN(body: string)
    ensures UnsignedDecimal(body).None? <==>
      && (body == [] || !IsDigit(body[0]))
      && (|body| < 2 || body[0] != '.' || !IsDigit(body[1]))
  {
    if body != [] && IsDigit(body[0]) {
      ScanAfterDigit(body[1..], false, DigitValue(body[0]), 0);
    } else if body != [] && body[0] == '.' {
      var rest := body[1..];
      assert UnsignedDecimal(body) == ScanDecimal(rest, true, 0, 0, false);
      if rest != [] && IsDigit(rest[0]) {
        ScanAfterDigit(rest[1..], true, DigitValue(rest[0]), 1);
        assert ScanDecimal(rest, true, 0, 0, false) == ScanDecimal(rest[1..], true, DigitValue(rest[0]), 1, true);
      }
    }
  }

  /** `parseFloat` gives `NaN` exactly when no digit, or "." and a digit, follows the sign. */
  lemma ParseFloatNaN(s: string)
    ensures ParseFloat(s).None? <==>
      var body := if s != [] && (s[0] == '+' || s[0] == '-') then s[1..] else s;
      && (body == [] || !IsDigit(body[0]))
      && (|body| < 2 || body[0] != '.' || !IsDigit(body[1]))
  {
    var body := if s != [] && (s[0] == '+' || s[0] == '-') then s[1..] else s;
    UnsignedDecimalNaN(body);
  }

  /** A text with no whitespace at either end is its own trim. */
  lemma TrimUnpadded(s: string)
    requires s != [] ==> !IsJsSpace(s[0]) && !IsJsSpace(s[|s| - 1])
    ensures Trim(s) == s
  {
  }

  /** Leading whitespace does not change the trim. */
  lemma TrimLeadingSpace(s: string)
    requires s != [] && IsJsSpace(s[0])
    ensures Trim(s) == Trim(s[1..])
  {
  }

  /**
   * Scanning a run of digits appends them to the number read so far, counting them as
   * fraction places after the point.
   */
  lemma {:induction false} ScanDigits(prefix: string, ds: string, rest: string, inFraction: bool, places: nat, any: bool)
    requires forall i :: 0 <= i < |prefix| ==> IsDigit(prefix[i])
    requires forall i :: 0 <= i < |ds| ==> IsDigit(ds[i])
    ensures forall i :: 0 <= i < |prefix + ds| ==> IsDigit((prefix + ds)[i])
    ensures ScanDecimal(ds + rest, inFraction, DigitsValue(prefix), places, any)
      == ScanDecimal(rest, inFraction, DigitsValue(prefix + ds),
                     if inFraction then places + |ds| else places, any || ds != [])
    decreases |ds|
  {
    if ds == [] {
      assert prefix + ds == prefix && ds + rest == rest;
    } else {
      var next := prefix + [ds[0]];
      assert next[..|next| - 1] == prefix;
      assert DigitsValue(next) == DigitsValue(prefix) * 10 + DigitValue(ds[0]);
      assert (ds + rest)[0] == ds[0] && (ds + rest)[1..] == ds[1..] + rest;
      ScanDigits(next, ds[1..], rest, inFraction, if inFraction then places + 1 else places, true);
      assert next + ds[1..] == prefix + ds;
    }
  }

  /**
   * `parseFloat` reads a literal "<digits>.<digits>" as the integer the digits spell
   * divided by ten to the number of fraction digits.
   */
  lemma ParseFloatDecimal(whole: string, fraction: string)
    requires whole != []
    requires forall i :: 0 <= i < |whole| ==> IsDigit(whole[i])
    requires forall i :: 0 <= i < |fraction| ==> IsDigit(fraction[i])
    ensures forall i :: 0 <= i < |whole + fraction| ==> IsDigit((whole + fraction)[i])
    ensures ParseFloat(whole + ['.'] + fraction)
      == Some(DigitsValue(whole + fraction) as real / Pow10(|fraction|) as real)
  {
    var s := whole + ['.'] + fraction;
    assert s[0] == whole[0] && s[0] != '+' && s[0] != '-';
    assert s == whole + (['.'] + fraction);
    ScanDigits([], whole, ['.'] + fraction, false, 0, false);
    assert [] + whole == whole;
    assert (['.'] + fraction)[1..] == fraction;
    ScanDigits(whole, fraction, [], true, 0, true);
    assert fraction + [] == fraction;
  }
}
