/**
 * The programmatic quality metrics of the back end (`ResponseMetrics` in metrics.py):
 * six heuristic scores of a text and their weighted overall score. Scores are exact
 * `real`s: the rounding to three decimals is not modelled, and `sqrt(v) > c` is
 * compared as `v > c * c`.
 */
module Metrics {
  import opened Wrappers
  import opened Dicts
  import opened Text

  function Min(a: real, b: real): real {
    if a <= b then a else b
  }

  function Max(a: real, b: real): real {
    if a >= b then a else b
  }

  function Abs(x: real): real {
    if x >= 0.0 then x else -x
  }

  /** `min(max(x, 0.0), 1.0)`. */
  function Clamp01(x: real): (r: real)
    ensures 0.0 <= r <= 1.0
    ensures 0.0 <= x <= 1.0 ==> r == x
  {
    Min(Max(x, 0.0), 1.0)
  }

  /** A quotient of values in proportion: `x / n` lies in [lo, hi] when `x` lies in [lo * n, hi * n]. */
  lemma DivBetween(x: real, n: real, lo: real, hi: real)
    requires n > 0.0 && lo * n <= x <= hi * n
    ensures lo <= x / n <= hi
    ensures x > 0.0 ==> x / n > 0.0
  {
  }

  function Sum(xs: seq<real>): real {
    if xs == [] then 0.0 else xs[0] + Sum(xs[1..])
  }

  function SumNat(xs: seq<nat>): nat {
    if xs == [] then 0 else xs[0] + SumNat(xs[1..])
  }

  /** Every value of the list lies in [lo, hi]. */
  predicate AllBetween(xs: seq<real>, lo: real, hi: real) {
    forall i :: 0 <= i < |xs| ==> lo <= xs[i] <= hi
  }

  lemma {:induction false} SumBetween(xs: seq<real>, lo: real, hi: real)
    requires AllBetween(xs, lo, hi)
    ensures lo * |xs| as real <= Sum(xs) <= hi * |xs| as real
  {
    if xs != [] {
      SumBetween(xs[1..], lo, hi);
    }
  }

  /** How many of `phrases` occur in `text`: `sum(1 for w in phrases if w in text)`. */
  function CountContained(phrases: seq<string>, text: string): (n: nat)
    ensures n <= |phrases|
  {
    if phrases == [] then 0
    else (if Contains(text, phrases[0]) then 1 else 0) + CountContained(phrases[1..], text)
  }

  /** `any(p in text for p in phrases)`. */
  predicate AnyContained(phrases: seq<string>, text: string) {
    exists i :: 0 <= i < |phrases| && Contains(text, phrases[i])
  }

  // ===========================================================================
  // Coherence
  // ===========================================================================

  const TransitionWords: seq<string> := [
    "however", "therefore", "furthermore", "moreover", "additionally",
    "consequently", "thus", "hence", "nevertheless", "meanwhile",
    "subsequently", "specifically", "particularly", "similarly",
    "conversely", "alternatively", "in addition", "for example",
    "in contrast", "as a result", "on the other hand"
  ]

  /** The share of transition phrases per sentence, capped at 1. */
  function TransitionRatio(text: string, sentenceCount: nat): (r: real)
    requires sentenceCount > 0
    ensures 0.0 <= r <= 1.0
  {
    var n := CountContained(TransitionWords, Lower(text)) as real;
    DivBetween(n, sentenceCount as real, 0.0, n);
    Min(n / sentenceCount as real, 1.0)
  }

  /** `[' '.join(words[i:i+3]) for i in range(len(words) - 2)]`. */
  function Trigrams(words: seq<string>): (ts: seq<string>)
    ensures |words| >= 2 ==> |ts| == |words| - 2
    ensures |words| < 2 ==> ts == []
  {
    if |words| < 3 then []
    else [words[0] + " " + words[1] + " " + words[2]] + Trigrams(words[1..])
  }

  /** How often `t` occurs in `ts` (a `Counter` entry). */
  function CountOf(ts: seq<string>, t: string): (n: nat)
    ensures n <= |ts|
    ensures t in ts ==> n >= 1
  {
    if ts == [] then 0 else (if ts[0] == t then 1 else 0) + CountOf(ts[1..], t)
  }

  /** The largest `Counter` value among the entries `ts[i..]`. */
  function MaxCountFrom(ts: seq<string>, i: nat): (m: nat)
    requires i <= |ts|
    ensures forall j :: i <= j < |ts| ==> CountOf(ts, ts[j]) <= m
    ensures i < |ts| ==> exists j :: i <= j < |ts| && CountOf(ts, ts[j]) == m
    ensures m <= |ts|
    decreases |ts| - i
  {
    if i == |ts| then 0
    else
      var rest := MaxCountFrom(ts, i + 1);
      var here := CountOf(ts, ts[i]);
      if here >= rest then here else rest
  }

  /** `max(Counter(ts).values()) if ts else 1`. */
  function MaxRepetition(ts: seq<string>): (m: nat)
    ensures ts != [] ==> 1 <= m <= |ts|
    ensures ts != [] ==> forall j :: 0 <= j < |ts| ==> CountOf(ts, ts[j]) <= m
    ensures ts == [] ==> m == 1
  {
    if ts == [] then 1
    else
      var m := MaxCountFrom(ts, 0);
      assert CountOf(ts, ts[0]) >= 1;
      m
  }

  /** The repetition penalty: 0 below ten words, else 0.1 per extra use of the commonest trigram, at most 0.5. */
  function RepetitionPenalty(words: seq<string>): real {
    if |words| < 10 then 0.0
    else Min((MaxRepetition(Trigrams(words)) - 1) as real * 0.1, 0.5)
  }

  lemma RepetitionPenaltyBounds(words: seq<string>)
    ensures 0.0 <= RepetitionPenalty(words) <= 0.5
    ensures |words| < 10 ==> RepetitionPenalty(words) == 0.0
  {
    if |words| >= 10 {
      assert |Trigrams(words)| == |words| - 2;
    }
  }

  /** `ResponseMetrics.coherence_score`. */
  function CoherenceScore(text: string): real {
    if IsBlank(text) then 0.0
    else
      var sentences := Sentences(text);
      if |sentences| < 2 then 0.5
      else
        var ratio := TransitionRatio(text, |sentences|);
        var penalty := RepetitionPenalty(Words(Lower(text)));
        Clamp01(ratio * 0.6 + 0.4 * (1.0 - penalty))
  }

  /**
   * Coherence is 0 for blank text, exactly 0.5 with fewer than two sentences, and
   * otherwise lies in [0.2, 1] without the clamp ever acting; below ten words there is
   * no repetition penalty, so the score is 0.4 plus 0.6 times the transition ratio.
   */
  lemma CoherenceShape(text: string)
    ensures IsBlank(text) ==> CoherenceScore(text) == 0.0
    ensures !IsBlank(text) && |Sentences(text)| < 2 ==> CoherenceScore(text) == 0.5
    ensures !IsBlank(text) && |Sentences(text)| >= 2 ==>
      var ratio := TransitionRatio(text, |Sentences(text)|);
      var penalty := RepetitionPenalty(Words(Lower(text)));
      && 0.2 <= CoherenceScore(text) <= 1.0
      && CoherenceScore(text) == ratio * 0.6 + 0.4 * (1.0 - penalty)
    ensures !IsBlank(text) && |Sentences(text)| >= 2 && |Words(Lower(text))| < 10 ==>
      CoherenceScore(text) == 0.4 + 0.6 * TransitionRatio(text, |Sentences(text)|)
  {
    RepetitionPenaltyBounds(Words(Lower(text)));
  }

  // ===========================================================================
  // Lexical diversity
  // ===========================================================================

  /** `len(set(ws))`. */
  function Distinct(ws: seq<string>): nat {
    |set w | w in ws|
  }

  lemma {:induction false} DistinctBounds(ws: seq<string>)
    ensures Distinct(ws) <= |ws|
    ensures ws != [] ==> 1 <= Distinct(ws)
  {
    if ws != [] {
      DistinctBounds(ws[1..]);
      var rest := set w | w in ws[1..];
      assert (set w | w in ws) == rest + {ws[0]};
      assert ws[0] in (set w | w in ws);
    }
  }

  /** The type-token ratio `len(set(ws)) / len(ws)`. */
  function Ttr(ws: seq<string>): (r: real)
    requires ws != []
    ensures 0.0 < r <= 1.0
  {
    DistinctBounds(ws);
    DivBetween(Distinct(ws) as real, |ws| as real, 0.0, 1.0);
    Distinct(ws) as real / |ws| as real
  }

  const WindowSize: nat := 50
  const WindowStep: nat := 25

  /** The ratios of the windows `words[i:i+50]` for `i` in `range(start, len(words) - 50, 25)`. */
  function WindowTtrs(words: seq<string>, start: nat): (ttrs: seq<real>)
    ensures AllBetween(ttrs, 0.0, 1.0)
    decreases |words| - start
  {
    if start + WindowSize >= |words| then []
    else [Ttr(words[start..start + WindowSize])] + WindowTtrs(words, start + WindowStep)
  }

  /** The window list has one entry per stride that still leaves a full window and a word after it. */
  lemma {:induction false} WindowCount(words: seq<string>, start: nat)
    ensures start + WindowSize >= |words| ==> |WindowTtrs(words, start)| == 0
    ensures start + WindowSize < |words| ==>
      |WindowTtrs(words, start)| == (|words| - WindowSize - start - 1) / WindowStep + 1
    decreases |words| - start
  {
    if start + WindowSize < |words| {
      WindowCount(words, start + WindowStep);
    }
  }

  /** `ResponseMetrics.lexical_diversity`. */
  function LexicalDiversity(text: string): real {
    if IsBlank(text) then 0.0
    else
      var words := Words(Lower(text));
      if |words| == 0 then 0.0
      else
        var ttrs := WindowTtrs(words, 0);
        var ttr := if |words| > 100 && ttrs != [] then Sum(ttrs) / |ttrs| as real else Ttr(words);
        Min(ttr, 1.0)
  }

  /**
   * Lexical diversity lies in [0, 1]; up to 100 words it is distinct words over words;
   * above 100 words the window list is never empty and the score is the windows' mean.
   */
  lemma LexicalDiversityShape(text: string)
    ensures 0.0 <= LexicalDiversity(text) <= 1.0
    ensures IsBlank(text) ==> LexicalDiversity(text) == 0.0
    ensures !IsBlank(text) && 0 < |Words(Lower(text))| <= 100 ==>
      LexicalDiversity(text) == Distinct(Words(Lower(text))) as real / |Words(Lower(text))| as real
    ensures !IsBlank(text) && |Words(Lower(text))| > 100 ==>
      var ttrs := WindowTtrs(Words(Lower(text)), 0);
      ttrs != [] && LexicalDiversity(text) == Sum(ttrs) / |ttrs| as real
  {
    var words := Words(Lower(text));
    var ttrs := WindowTtrs(words, 0);
    if ttrs != [] {
      SumBetween(ttrs, 0.0, 1.0);
      DivBetween(Sum(ttrs), |ttrs| as real, 0.0, 1.0);
    }
  }

  /** The window loop of `lexical_diversity`, appending one ratio per window. */
  method ComputeLexicalDiversity(text: string) returns (score: real)
    ensures score == LexicalDiversity(text)
    ensures 0.0 <= score <= 1.0
  {
    LexicalDiversityShape(text);
    if IsBlank(text) {
      return 0.0;
    }
    var words := Words(Lower(text));
    if |words| == 0 {
      return 0.0;
    }
    var ttr := Ttr(words);
    if |words| > 100 {
      var ttrs: seq<real> := [];
      var i: nat := 0;
      while i + WindowSize < |words|
        invariant ttrs + WindowTtrs(words, i) == WindowTtrs(words, 0)
        decreases |words| - i
      {
        var window := words[i..i + WindowSize];
        ttrs := ttrs + [Ttr(window)];
        i := i + WindowStep;
      }
      assert ttrs == WindowTtrs(words, 0);
      if ttrs != [] {
        ttr := Sum(ttrs) / |ttrs| as real;
      }
    }
    score := Min(ttr, 1.0);
  }

  // ===========================================================================
  // Completeness
  // ===========================================================================

  /** The characters that earn the proper-ending bonus: `text[-1] in '.!?"'`. */
  const ClosingMarks: set<char> := {'.', '!', '?', '"'}

  /** The characters that cost the trailing penalty: `text[-1] in ',.;:'`. */
  const TrailingMarks: set<char> := {',', '.', ';', ':'}

  const ConclusionPhrases: seq<string> := ["in conclusion", "finally", "to summarize", "in summary"]

  /** 0.3, 0.2 or 0.1 for at least three, two or one items, else 0. */
  function CountBonus(n: nat): (r: real)
    ensures 0.0 <= r <= 0.3
    ensures n >= 1 ==> r >= 0.1
  {
    if n >= 3 then 0.3 else if n == 2 then 0.2 else if n == 1 then 0.1 else 0.0
  }

  /** `any(phrase in text.lower() for phrase in conclusion_indicators)`. */
  predicate Concluded(t: string) {
    AnyContained(ConclusionPhrases, Lower(t))
  }

  /** Word counts of the sentences, as `len(s.split())`. */
  function SentenceLengths(sentences: seq<string>): (ls: seq<nat>)
    ensures |ls| == |sentences|
  {
    if sentences == [] then [] else [|Fields(sentences[0])|] + SentenceLengths(sentences[1..])
  }

  /** There are sentences, and they average at least ten words. */
  predicate LongSentences(sentences: seq<string>) {
    sentences != [] && SumNat(SentenceLengths(sentences)) as real / |sentences| as real >= 10.0
  }

  /**
   * The completeness sum from what it depends on: the last character, the sentence count,
   * whether a conclusion phrase occurs, and whether sentences average ten words.
   */
  function CompletenessSum(last: char, sentenceCount: nat, concluded: bool, longSentences: bool): real {
    (if last in ClosingMarks then 0.4 else 0.0) + CountBonus(sentenceCount)
      + (if concluded then 0.2 else 0.0) - (if last in TrailingMarks then 0.1 else 0.0)
      + (if longSentences then 0.1 else 0.0)
  }

  /** The unclamped completeness of a stripped, non-empty text. */
  function CompletenessRaw(t: string): real
    requires t != []
  {
    var sentences := Sentences(t);
    CompletenessSum(t[|t| - 1], |sentences|, Concluded(t), LongSentences(sentences))
  }

  /** `ResponseMetrics.completeness_score`. */
  function CompletenessScore(text: string): real {
    if IsBlank(text) then 0.0 else Clamp01(CompletenessRaw(Strip(text)))
  }

  /**
   * What the last character of the stripped text is worth on its own: a '.' earns the
   * closing bonus and pays the trailing penalty, 0.3 net; '!', '?' and '"' earn 0.4;
   * ',', ';' and ':' cost 0.1; anything else is worth nothing.
   */
  function EndingValue(c: char): real {
    if c == '.' then 0.3
    else if c in {'!', '?', '"'} then 0.4
    else if c in {',', ';', ':'} then -0.1
    else 0.0
  }

  /**
   * The sum is the ending's value plus the three bonuses, and it lies in [0, 1] whenever
   * an ending that costs the penalty comes with at least one sentence.
   */
  lemma CompletenessSumShape(last: char, sentenceCount: nat, concluded: bool, longSentences: bool)
    requires last in {',', ';', ':'} ==> sentenceCount >= 1
    ensures CompletenessSum(last, sentenceCount, concluded, longSentences)
      == EndingValue(last) + CountBonus(sentenceCount) + (if concluded then 0.2 else 0.0)
         + (if longSentences then 0.1 else 0.0)
    ensures 0.0 <= CompletenessSum(last, sentenceCount, concluded, longSentences) <= 1.0
  {
  }

  /**
   * Completeness is 0 for blank text. Otherwise the raw sum is the ending's value plus
   * the sentence, conclusion and length bonuses, and it already lies in [0, 1]: the
   * bonuses add up to at most 1.0, and a text ending in ',', ';' or ':' always has a
   * sentence, whose 0.1 offsets the penalty. So the clamp never changes the score.
   */
  lemma CompletenessShape(text: string)
    ensures IsBlank(text) ==> CompletenessScore(text) == 0.0
    ensures !IsBlank(text) ==>
      var t := Strip(text);
      var sentences := Sentences(t);
      && CompletenessRaw(t) == EndingValue(t[|t| - 1]) + CountBonus(|sentences|)
           + (if Concluded(t) then 0.2 else 0.0) + (if LongSentences(sentences) then 0.1 else 0.0)
      && 0.0 <= CompletenessRaw(t) <= 1.0
      && CompletenessScore(text) == CompletenessRaw(t)
  {
    if !IsBlank(text) {
      CompletenessRawShape(Strip(text));
    }
  }

  /** The raw sum of a stripped text, which ends in a character that is not a space. */
  lemma CompletenessRawShape(t: string)
    requires t != [] && !IsSpace(t[|t| - 1])
    ensures CompletenessRaw(t) == EndingValue(t[|t| - 1]) + CountBonus(|Sentences(t)|)
      + (if Concluded(t) then 0.2 else 0.0) + (if LongSentences(Sentences(t)) then 0.1 else 0.0)
    ensures 0.0 <= CompletenessRaw(t) <= 1.0
  {
    var c := t[|t| - 1];
    if c in {',', ';', ':'} {
      SentencesWhenOpenEnd(t);
    }
    var sentences := Sentences(t);
    CompletenessSumShape(c, |sentences|, Concluded(t), LongSentences(sentences));
  }

  /** `completeness_score` as the source computes it, by successive updates of `score`. */
  method ComputeCompleteness(text: string) returns (score: real)
    ensures score == CompletenessScore(text)
    ensures 0.0 <= score <= 1.0
  {
    if IsBlank(text) {
      return 0.0;
    }
    var t := Strip(text);
    var last := t[|t| - 1];
    score := 0.0;
    if last in ClosingMarks {
      score := score + 0.4;
    }
    ghost var closing := score;
    var sentences := Sentences(t);
    if |sentences| >= 3 {
      score := score + 0.3;
    } else if |sentences| >= 2 {
      score := score + 0.2;
    } else if |sentences| == 1 {
      score := score + 0.1;
    }
    assert score == closing + CountBonus(|sentences|);
    if AnyContained(ConclusionPhrases, Lower(t)) {
      score := score + 0.2;
    }
    assert score == closing + CountBonus(|sentences|) + (if Concluded(t) then 0.2 else 0.0);
    if last in TrailingMarks {
      score := score - 0.1;
    }
    ghost var sum := score;
    if |sentences| > 0 {
      var avgLength := SumNat(SentenceLengths(sentences)) as real / |sentences| as real;
      if avgLength >= 10.0 {
        score := score + 0.1;
      }
    }
    assert score == sum + (if LongSentences(sentences) then 0.1 else 0.0);
    assert score == CompletenessSum(last, |sentences|, Concluded(t), LongSentences(sentences));
    score := Clamp01(score);
  }

  // ===========================================================================
  // Structure
  // ===========================================================================

  /** Every character of `s` satisfies `p`. */
  predicate All(s: string, p: char -> bool) {
    forall i :: 0 <= i < |s| ==> p(s[i])
  }

  /** Index `p` is where `^` matches under `re.MULTILINE`. */
  predicate LineStart(text: string, p: int) {
    p == 0 || (0 < p <= |text| && text[p - 1] == '\n')
  }

  /** `^\s*\d+\.` matches with `\s*` over `text[p..q]` and `\d+` over `text[q..r]`. */
  predicate NumberedItemAt(text: string, p: int, q: int, r: int) {
    0 <= p <= q < r < |text| && LineStart(text, p)
    && All(text[p..q], IsSpace) && All(text[q..r], IsDigit) && text[r] == '.'
  }

  predicate HasNumberedList(text: string) {
    exists p, q, r | 0 <= p <= q < r < |text| :: NumberedItemAt(text, p, q, r)
  }

  /**
   * The bullet class `[-*â€¢]` as written: it is the UTF-8 bytes of '•' read as
   * Windows-1252, so it holds '-', '*', 'â', '€' and '¢', and not '•'.
   */
  const BulletChars: set<char> := {'-', '*', '\U{E2}', '\U{20AC}', '\U{A2}'}

  /** `^\s*[-*â€¢]` matches with `\s*` over `text[p..q]`. */
  predicate BulletItemAt(text: string, p: int, q: int) {
    0 <= p <= q < |text| && LineStart(text, p) && All(text[p..q], IsSpace) && text[q] in BulletChars
  }

  predicate HasBulletList(text: string) {
    exists p, q | 0 <= p <= q < |text| :: BulletItemAt(text, p, q)
  }

  predicate IsHash(c: char) {
    c == '#'
  }

  /** `^#+\s+.+$` matches with `#+` over `text[p..k]`, `\s+` over `text[k..j]` and `.+` from `j`. */
  predicate HashHeaderAt(text: string, p: int, k: int, j: int) {
    0 <= p < k < j < |text| && LineStart(text, p)
    && All(text[p..k], IsHash) && All(text[k..j], IsSpace) && text[j] != '\n'
  }

  predicate IsSentenceEnd(c: char) {
    c in SentenceEnds
  }

  /** `^[A-Z][^.!?]*:$` matches from `p` to the ':' at `q`. */
  predicate ColonHeaderAt(text: string, p: int, q: int) {
    0 <= p < q < |text| && LineStart(text, p) && IsUpper(text[p])
    && (forall i :: p < i < q ==> !IsSentenceEnd(text[i]))
    && text[q] == ':' && (q + 1 == |text| || text[q + 1] == '\n')
  }

  predicate HasHeaders(text: string) {
    || (exists p, k, j | 0 <= p < k < j < |text| :: HashHeaderAt(text, p, k, j))
    || (exists p, q | 0 <= p < q < |text| :: ColonHeaderAt(text, p, q))
  }

  /** The mean of the counts. */
  function Mean(ls: seq<nat>): real
    requires ls != []
  {
    SumNat(ls) as real / |ls| as real
  }

  function SumSquaredDeviations(ls: seq<nat>, mean: real): real {
    if ls == [] then 0.0 else (ls[0] as real - mean) * (ls[0] as real - mean) + SumSquaredDeviations(ls[1..], mean)
  }

  /** The population variance, the square of the source's `std_dev`. */
  function Variance(ls: seq<nat>): real
    requires ls != []
  {
    SumSquaredDeviations(ls, Mean(ls)) / |ls| as real
  }

  /** 0.2 when `std_dev > 5`, 0.1 when `std_dev > 3`, else 0. */
  function SpreadBonus(sentences: seq<string>): (r: real)
    ensures 0.0 <= r <= 0.2
  {
    if sentences == [] then 0.0
    else
      var v := Variance(SentenceLengths(sentences));
      if v > 25.0 then 0.2 else if v > 9.0 then 0.1 else 0.0
  }

  function ListBonus(text: string): (r: real)
    ensures r == 0.0 || r == 0.3
  {
    if HasNumberedList(text) || HasBulletList(text) then 0.3 else 0.0
  }

  function HeaderBonus(text: string): (r: real)
    ensures r == 0.0 || r == 0.2
  {
    if HasHeaders(text) then 0.2 else 0.0
  }

  function StructureRaw(text: string): real {
    CountBonus(|Paragraphs(text)|) + ListBonus(text) + SpreadBonus(Sentences(text)) + HeaderBonus(text)
  }

  /** `ResponseMetrics.structure_score`. */
  function StructureScore(text: string): real {
    if IsBlank(text) then 0.0 else Clamp01(StructureRaw(text))
  }

  lemma {:induction false} SumOfEqual(ls: seq<nat>, c: nat)
    requires forall i :: 0 <= i < |ls| ==> ls[i] == c
    ensures SumNat(ls) == c * |ls|
  {
    if ls != [] {
      SumOfEqual(ls[1..], c);
    }
  }

  lemma {:induction false} NoDeviationFromEqual(ls: seq<nat>, c: nat)
    requires forall i :: 0 <= i < |ls| ==> ls[i] == c
    ensures SumSquaredDeviations(ls, c as real) == 0.0
  {
    if ls != [] {
      NoDeviationFromEqual(ls[1..], c);
    }
  }

  /** Sentences that all have the same number of words earn no spread bonus. */
  lemma UniformSentencesNoSpread(sentences: seq<string>)
    requires sentences != []
    requires forall i :: 0 <= i < |sentences| ==> |Fields(sentences[i])| == |Fields(sentences[0])|
    ensures SpreadBonus(sentences) == 0.0
  {
    var ls := SentenceLengths(sentences);
    var c := |Fields(sentences[0])|;
    assert forall i :: 0 <= i < |ls| ==> ls[i] == c by {
      SentenceLengthsAt(sentences);
    }
    SumOfEqual(ls, c);
    assert Mean(ls) == c as real;
    NoDeviationFromEqual(ls, c);
  }

  lemma {:induction false} SentenceLengthsAt(sentences: seq<string>)
    ensures forall i :: 0 <= i < |sentences| ==> SentenceLengths(sentences)[i] == |Fields(sentences[i])|
  {
    if sentences != [] {
      SentenceLengthsAt(sentences[1..]);
    }
  }

  /**
   * Structure is 0 for blank text; otherwise the paragraph bonus (0.3, 0.2, 0.1 for
   * at least three, two, one paragraphs), the list bonus 0.3, the spread bonus and the
   * header bonus 0.2 add up to a value already in [0, 1], so the clamp never acts.
   */
  lemma StructureShape(text: string)
    ensures IsBlank(text) ==> StructureScore(text) == 0.0
    ensures !IsBlank(text) ==> 0.0 <= StructureRaw(text) <= 1.0 && StructureScore(text) == StructureRaw(text)
  {
  }

  /** `structure_score` as the source computes it, by successive updates of `score`. */
  method ComputeStructure(text: string) returns (score: real)
    ensures score == StructureScore(text)
    ensures 0.0 <= score <= 1.0
  {
    if IsBlank(text) {
      return 0.0;
    }
    score := 0.0;
    var paragraphs := Paragraphs(text);
    if |paragraphs| >= 3 {
      score := score + 0.3;
    } else if |paragraphs| == 2 {
      score := score + 0.2;
    } else if |paragraphs| == 1 {
      score := score + 0.1;
    }
    if HasNumberedList(text) || HasBulletList(text) {
      score := score + 0.3;
    }
    var sentences := Sentences(text);
    if sentences != [] {
      var lengths := SentenceLengths(sentences);
      var variance := Variance(lengths);
      if variance > 25.0 {
        score := score + 0.2;
      } else if variance > 9.0 {
        score := score + 0.1;
      }
    }
    if HasHeaders(text) {
      score := score + 0.2;
    }
    score := Clamp01(score);
  }

  // ===========================================================================
  // Readability
  // ===========================================================================

  /** 1 minus the relative distance of `x` from `target`, floored at 0. */
  function Closeness(x: real, target: real): (r: real)
    requires target > 0.0
    ensures 0.0 <= r <= 1.0
    ensures r == 1.0 <==> x == target
  {
    1.0 - Min(Abs(x - target) / target, 1.0)
  }

  /** `ResponseMetrics.readability_score`. */
  function ReadabilityScore(text: string): real {
    if IsBlank(text) then 0.0
    else
      var sentences := Sentences(text);
      if sentences == [] then 0.0
      else
        var words := Words(text);
        if words == [] then 0.0
        else
          var wordsPerSentence := |words| as real / |sentences| as real;
          var charsPerWord := TotalLength(words) as real / |words| as real;
          Clamp01(Closeness(wordsPerSentence, 17.5) * 0.6 + Closeness(charsPerWord, 5.0) * 0.4)
  }

  /**
   * Readability lies in [0, 1], is 0 without sentences or without words, and is 1
   * exactly when sentences average 17.5 words and words average 5 characters.
   */
  lemma ReadabilityShape(text: string)
    ensures 0.0 <= ReadabilityScore(text) <= 1.0
    ensures Sentences(text) == [] || Words(text) == [] ==> ReadabilityScore(text) == 0.0
    ensures Sentences(text) != [] && Words(text) != [] ==>
      (ReadabilityScore(text) == 1.0 <==>
        && |Words(text)| as real / |Sentences(text)| as real == 17.5
        && TotalLength(Words(text)) as real / |Words(text)| as real == 5.0)
  {
    var sentences := Sentences(text);
    var words := Words(text);
    if sentences != [] && words != [] {
      if IsBlank(text) {
        BlankIffAllSpace(text);
        WordsOfBlank(text);
      }
    }
  }

  /** A blank text has no words. */
  lemma {:induction false} WordsOfBlank(text: string)
    requires forall i :: 0 <= i < |text| ==> IsSpace(text[i])
    ensures Words(text) == []
  {
    if text != [] {
      WordsOfBlank(text[1..]);
    }
  }

  // ===========================================================================
  // Length appropriateness
  // ===========================================================================

  /** The piecewise-linear score of a word count. */
  function LengthScoreForCount(n: nat): real {
    var x := n as real;
    if 75 <= n <= 300 then 1.0
    else if 50 <= n < 75 then 0.7 + ((x - 50.0) / 25.0) * 0.3
    else if 300 < n <= 500 then 1.0 - ((x - 300.0) / 200.0) * 0.3
    else if 25 <= n < 50 then 0.4 + ((x - 25.0) / 25.0) * 0.3
    else if n < 25 then Max(x / 25.0 * 0.4, 0.1)
    else Max(0.7 - ((x - 500.0) / 500.0) * 0.5, 0.2)
  }

  /** `ResponseMetrics.length_appropriateness`. */
  function LengthAppropriateness(text: string): real {
    if IsBlank(text) then 0.0 else LengthScoreForCount(|Words(text)|)
  }

  /**
   * The length score is 1 on 75-300 words, lies in [0.1, 1], is at least 0.2 above 500
   * words, rises up to 75 words and falls from 300 on.
   */
  lemma LengthScoreShape(n: nat, m: nat)
    ensures 75 <= n <= 300 ==> LengthScoreForCount(n) == 1.0
    ensures 0.1 <= LengthScoreForCount(n) <= 1.0
    ensures n > 500 ==> LengthScoreForCount(n) >= 0.2
    ensures n <= m <= 75 ==> LengthScoreForCount(n) <= LengthScoreForCount(m)
    ensures 300 <= n <= m ==> LengthScoreForCount(n) >= LengthScoreForCount(m)
  {
  }

  /**
   * The curve has no jumps, at 25, 50, 75, 300 and 500 words or anywhere else: two
   * word counts `d` apart score at most `0.016 * d` apart.
   */
  lemma LengthScoreContinuous(n: nat, m: nat)
    requires n <= m
    ensures Abs(LengthScoreForCount(m) - LengthScoreForCount(n)) <= 0.016 * (m - n) as real
  {
  }

  /** Length appropriateness is 0 for blank text and at least 0.1 for any other. */
  lemma LengthAppropriatenessShape(text: string)
    ensures IsBlank(text) ==> LengthAppropriateness(text) == 0.0
    ensures !IsBlank(text) ==> 0.1 <= LengthAppropriateness(text) <= 1.0
  {
    LengthScoreShape(|Words(text)|, 0);
  }

  // ===========================================================================
  // All metrics and the overall score
  // ===========================================================================

  const MetricNames: seq<string> := [
    "coherence_score", "lexical_diversity", "completeness_score",
    "structure_score", "readability_score", "length_appropriateness"
  ]

  const OverallKey: string := "overall_score"

  /** The six metric names and `overall_score` are pairwise different: their third letters differ. */
  lemma StoredKeysDifferent()
    ensures forall i, j :: 0 <= i < j < |MetricNames + [OverallKey]| ==>
      (MetricNames + [OverallKey])[i] != (MetricNames + [OverallKey])[j]
    ensures OverallKey !in MetricNames
  {
    var ks := MetricNames + [OverallKey];
    assert ks[0][2] == 'h' && ks[1][2] == 'x' && ks[2][2] == 'm' && ks[3][2] == 'r';
    assert ks[4][2] == 'a' && ks[5][2] == 'n' && ks[6][2] == 'e';
  }

  /** `metrics.get(key, 0)`. */
  function ScoreOr0(metrics: Dict<real>, key: string): real {
    Get(metrics, key).GetOr(0.0)
  }

  /**
   * `ResponseMetrics.calculate_overall_score`: the sum over the weights dict, in its order,
   * of each score (0 when missing) times its weight: 0.25 for coherence and completeness,
   * 0.15 for lexical diversity and structure, 0.10 for readability and length.
   */
  function OverallScore(metrics: Dict<real>): real {
    ScoreOr0(metrics, "coherence_score") * 0.25
    + ScoreOr0(metrics, "lexical_diversity") * 0.15
    + ScoreOr0(metrics, "completeness_score") * 0.25
    + ScoreOr0(metrics, "structure_score") * 0.15
    + ScoreOr0(metrics, "readability_score") * 0.10
    + ScoreOr0(metrics, "length_appropriateness") * 0.10
  }

  /** Every value stored in the dict lies in [0, 1]. */
  predicate ScoresInUnit(metrics: Dict<real>) {
    forall i :: 0 <= i < |metrics| ==> 0.0 <= metrics[i].1 <= 1.0
  }

  /** With every score in [0, 1], the score under any key, 0 when missing, is in [0, 1]. */
  lemma ScoreInUnit(metrics: Dict<real>, key: string)
    requires ScoresInUnit(metrics)
    ensures 0.0 <= ScoreOr0(metrics, key) <= 1.0
  {
    if Get(metrics, key).Some? {
      var i :| 0 <= i < |metrics| && metrics[i] == (key, Get(metrics, key).value);
    }
  }

  /** A dict whose every value is 0 gives 0 under any key. */
  lemma ScoreOfZeros(metrics: Dict<real>, key: string)
    requires forall i :: 0 <= i < |metrics| ==> metrics[i].1 == 0.0
    ensures ScoreOr0(metrics, key) == 0.0
  {
    if Get(metrics, key).Some? {
      var i :| 0 <= i < |metrics| && metrics[i] == (key, Get(metrics, key).value);
    }
  }

  /**
   * The weights sum to 1 and a missing key counts as 0, so when every stored score
   * lies in [0, 1] so does the overall score; with none of the six keys it is 0.
   */
  lemma OverallScoreBounds(metrics: Dict<real>)
    requires ScoresInUnit(metrics)
    ensures 0.0 <= OverallScore(metrics) <= 1.0
    ensures (forall k :: k in MetricNames ==> k !in Keys(metrics)) ==> OverallScore(metrics) == 0.0
  {
    ScoreInUnit(metrics, "coherence_score");
    ScoreInUnit(metrics, "lexical_diversity");
    ScoreInUnit(metrics, "completeness_score");
    ScoreInUnit(metrics, "structure_score");
    ScoreInUnit(metrics, "readability_score");
    ScoreInUnit(metrics, "length_appropriateness");
  }

  /** Six metrics that are all 1 give an overall score of 1. */
  lemma OverallScoreOfPerfect(metrics: Dict<real>)
    requires forall i :: 0 <= i < |MetricNames| ==> Get(metrics, MetricNames[i]) == Some(1.0)
    ensures OverallScore(metrics) == 1.0
  {
    assert Get(metrics, MetricNames[0]) == Some(1.0) && Get(metrics, MetricNames[1]) == Some(1.0);
    assert Get(metrics, MetricNames[2]) == Some(1.0) && Get(metrics, MetricNames[3]) == Some(1.0);
    assert Get(metrics, MetricNames[4]) == Some(1.0) && Get(metrics, MetricNames[5]) == Some(1.0);
  }

  /** A dict of zeros has an overall score of 0. */
  lemma OverallScoreOfZeros(metrics: Dict<real>)
    requires forall i :: 0 <= i < |metrics| ==> metrics[i].1 == 0.0
    ensures OverallScore(metrics) == 0.0
  {
    ScoreOfZeros(metrics, "coherence_score");
    ScoreOfZeros(metrics, "lexical_diversity");
    ScoreOfZeros(metrics, "completeness_score");
    ScoreOfZeros(metrics, "structure_score");
    ScoreOfZeros(metrics, "readability_score");
    ScoreOfZeros(metrics, "length_appropriateness");
  }

  /** The dict `calculate_all_metrics` builds from the six scores, keys in the source's order. */
  function MetricsOf(coherence: real, lexical: real, completeness: real, structure: real,
                     readability: real, length: real): Dict<real>
  {
    [
      ("coherence_score", coherence),
      ("lexical_diversity", lexical),
      ("completeness_score", completeness),
      ("structure_score", structure),
      ("readability_score", readability),
      ("length_appropriateness", length)
    ]
  }

  /** `metrics["overall_score"] = calculate_overall_score(metrics)`: appended last. */
  function WithOverall(metrics: Dict<real>): Dict<real> {
    metrics + [(OverallKey, OverallScore(metrics))]
  }

  /** The six scores are stored under the six metric names, in order. */
  lemma MetricsOfKeys(coherence: real, lexical: real, completeness: real, structure: real,
                      readability: real, length: real)
    ensures Keys(MetricsOf(coherence, lexical, completeness, structure, readability, length)) == MetricNames
  {
  }

  lemma MetricsOfInUnit(coherence: real, lexical: real, completeness: real, structure: real,
                        readability: real, length: real)
    requires 0.0 <= coherence <= 1.0 && 0.0 <= lexical <= 1.0 && 0.0 <= completeness <= 1.0
    requires 0.0 <= structure <= 1.0 && 0.0 <= readability <= 1.0 && 0.0 <= length <= 1.0
    ensures ScoresInUnit(MetricsOf(coherence, lexical, completeness, structure, readability, length))
  {
  }

  /**
   * Adding the overall score to a dict with the six metric names appends one more key,
   * distinct from the others.
   */
  lemma WithOverallKeys(metrics: Dict<real>)
    requires Keys(metrics) == MetricNames
    ensures Keys(WithOverall(metrics)) == MetricNames + [OverallKey]
    ensures DistinctKeys(WithOverall(metrics))
  {
    OverallEntryKeys(metrics, OverallScore(metrics));
  }

  /** The same for whatever value is stored under `overall_score`. */
  lemma OverallEntryKeys(metrics: Dict<real>, overall: real)
    requires Keys(metrics) == MetricNames
    ensures Keys(metrics + [(OverallKey, overall)]) == MetricNames + [OverallKey]
    ensures DistinctKeys(metrics + [(OverallKey, overall)])
  {
    var d := metrics + [(OverallKey, overall)];
    KeysAppend(metrics, [(OverallKey, overall)]);
    StoredKeysDifferent();
    forall i, j | 0 <= i < j < |d|
      ensures d[i].0 != d[j].0
    {
      assert d[i].0 == Keys(d)[i] && d[j].0 == Keys(d)[j];
    }
  }

  /** With every score in [0, 1], the overall score added is in [0, 1] too. */
  lemma WithOverallInUnit(metrics: Dict<real>)
    requires ScoresInUnit(metrics)
    ensures ScoresInUnit(WithOverall(metrics))
  {
    OverallScoreBounds(metrics);
  }

  /** `ResponseMetrics.calculate_all_metrics`. */
  function AllMetrics(text: string): Dict<real> {
    MetricsOf(CoherenceScore(text), LexicalDiversity(text), CompletenessScore(text), StructureScore(text),
              ReadabilityScore(text), LengthAppropriateness(text))
  }

  /** The six metrics followed by `overall_score`, as the generate endpoint stores them. */
  function ScoredMetrics(text: string): Dict<real> {
    WithOverall(AllMetrics(text))
  }

  /** Every one of the six metrics lies in [0, 1]. */
  lemma MetricsInUnit(text: string)
    ensures 0.0 <= CoherenceScore(text) <= 1.0 && 0.0 <= LexicalDiversity(text) <= 1.0
    ensures 0.0 <= CompletenessScore(text) <= 1.0 && 0.0 <= StructureScore(text) <= 1.0
    ensures 0.0 <= ReadabilityScore(text) <= 1.0 && 0.0 <= LengthAppropriateness(text) <= 1.0
  {
    CoherenceShape(text);
    LexicalDiversityShape(text);
    CompletenessShape(text);
    StructureShape(text);
    ReadabilityShape(text);
    LengthAppropriatenessShape(text);
  }

  /**
   * `calculate_all_metrics` returns exactly the six keys, in order, each with a score in
   * [0, 1]; the stored dict adds `overall_score` last, also in [0, 1].
   */
  lemma ScoredMetricsShape(text: string)
    ensures Keys(AllMetrics(text)) == MetricNames
    ensures ScoresInUnit(AllMetrics(text))
    ensures Keys(ScoredMetrics(text)) == MetricNames + [OverallKey]
    ensures DistinctKeys(ScoredMetrics(text))
    ensures ScoresInUnit(ScoredMetrics(text))
  {
    MetricsInUnit(text);
    var c, l, m, s, r, la := CoherenceScore(text), LexicalDiversity(text), CompletenessScore(text),
                             StructureScore(text), ReadabilityScore(text), LengthAppropriateness(text);
    MetricsOfKeys(c, l, m, s, r, la);
    MetricsOfInUnit(c, l, m, s, r, la);
    WithOverallKeys(AllMetrics(text));
    WithOverallInUnit(AllMetrics(text));
  }

  /** Every metric of a blank text, the overall score included, is 0. */
  lemma ScoredMetricsOfBlank(text: string)
    requires IsBlank(text)
    ensures forall i :: 0 <= i < |ScoredMetrics(text)| ==> ScoredMetrics(text)[i].1 == 0.0
  {
    var m := AllMetrics(text);
    assert forall i :: 0 <= i < |m| ==> m[i].1 == 0.0;
    OverallScoreOfZeros(m);
  }
}
