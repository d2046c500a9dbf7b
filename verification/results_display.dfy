/**
 * The results view of one experiment: the comparison chart rows, the radar of the selected
 * response, the best-response banner, the metric cards and the word count. Rendering, the
 * charts' drawing and the JSON download are not modelled; what is modelled is the data each
 * of them is given.
 */
module ResultsDisplay {
  import opened Wrappers
  import opened Dicts
  import opened Text
  import opened Metrics
  import opened Schemas

  /** `x || 0` for a score that may be absent (`undefined` or `null`): absent gives 0. */
  function OrZero(x: Option<real>): real {
    x.GetOr(0.0)
  }

  /** `resp.metrics?.overall_score`. */
  function OverallOf(r: ResponseData): Option<real> {
    if r.metrics.Some? then r.metrics.value.overall else None
  }

  /** The score the best-response comparison uses: `resp.metrics?.overall_score || 0`. */
  function Score(r: ResponseData): real {
    OrZero(OverallOf(r))
  }

  /** Every score of the record, `overall_score` included when set, lies in [0, 1]. */
  predicate RecordInUnit(m: MetricsRecord) {
    0.0 <= m.coherence <= 1.0 && 0.0 <= m.lexicalDiversity <= 1.0 && 0.0 <= m.completeness <= 1.0
    && 0.0 <= m.structure <= 1.0 && 0.0 <= m.readability <= 1.0 && 0.0 <= m.lengthAppropriateness <= 1.0
    && (m.overall.Some? ==> 0.0 <= m.overall.value <= 1.0)
  }

  /** The metrics stored for a content read back as a record with every score in [0, 1]. */
  lemma StoredRecordInUnit(text: string)
    ensures ParseMetrics(ScoredMetrics(text)).Some?
    ensures RecordInUnit(ParseMetrics(ScoredMetrics(text)).value)
    ensures ParseMetrics(ScoredMetrics(text)).value.overall.Some?
  {
    ParseScoredMetrics(text);
    MetricsInUnit(text);
    var c, l, m, s, r, la := CoherenceScore(text), LexicalDiversity(text), CompletenessScore(text),
                             StructureScore(text), ReadabilityScore(text), LengthAppropriateness(text);
    MetricsOfInUnit(c, l, m, s, r, la);
    OverallScoreBounds(AllMetrics(text));
  }

  // ---------------------------------------------------------------------------
  // The comparison chart
  // ---------------------------------------------------------------------------

  /** One bar group of the comparison chart. */
  datatype ChartRow = ChartRow(
    name: string, temperature: real, topP: real, overall: real, coherence: real,
    diversity: real, completeness: real, structure: real, readability: real)

  /**
   * The label `T:${temperature} P:${top_p}`; `show` is JavaScript's conversion of a number to
   * its shortest decimal text.
   */
  function ChartName(temperature: real, topP: real, show: real -> string): string {
    "T:" + show(temperature) + " P:" + show(topP)
  }

  /** The metric picked by `field`, 0 when the response has no metrics. */
  function MetricOrZero(r: ResponseData, field: MetricsRecord -> real): real {
    if r.metrics.Some? then field(r.metrics.value) else 0.0
  }

  function ChartRowOf(r: ResponseData, show: real -> string): ChartRow {
    ChartRow(
      ChartName(r.temperature, r.topP, show), r.temperature, r.topP, Score(r),
      MetricOrZero(r, (m: MetricsRecord) => m.coherence), MetricOrZero(r, (m: MetricsRecord) => m.lexicalDiversity),
      MetricOrZero(r, (m: MetricsRecord) => m.completeness), MetricOrZero(r, (m: MetricsRecord) => m.structure),
      MetricOrZero(r, (m: MetricsRecord) => m.readability))
  }

  /**
   * `metricsChartData`: one row per response, in the responses' order, labelled with its
   * parameters; every field whose metric is missing, or whose response has no metrics at
   * all, is 0.
   */
  function ChartData(rs: seq<ResponseData>, show: real -> string): (rows: seq<ChartRow>)
    ensures |rows| == |rs|
    ensures forall k :: 0 <= k < |rs| ==>
      rows[k].name == "T:" + show(rs[k].temperature) + " P:" + show(rs[k].topP)
      && rows[k].temperature == rs[k].temperature && rows[k].topP == rs[k].topP
    ensures forall k :: 0 <= k < |rs| && rs[k].metrics.None? ==>
      rows[k].overall == 0.0 && rows[k].coherence == 0.0 && rows[k].diversity == 0.0
      && rows[k].completeness == 0.0 && rows[k].structure == 0.0 && rows[k].readability == 0.0
    ensures forall k :: 0 <= k < |rs| && rs[k].metrics.Some? ==>
      var m := rs[k].metrics.value;
      rows[k].overall == m.overall.GetOr(0.0) && rows[k].coherence == m.coherence
      && rows[k].diversity == m.lexicalDiversity && rows[k].completeness == m.completeness
      && rows[k].structure == m.structure && rows[k].readability == m.readability
  {
    seq(|rs|, k requires 0 <= k < |rs| => ChartRowOf(rs[k], show))
  }

  /**
   * The label reads back: when the number texts hold no space, splitting the label at its
   * space gives the temperature part and the top_p part.
   */
  lemma ChartNameSplits(temperature: real, topP: real, show: real -> string)
    requires forall i :: 0 <= i < |show(temperature)| ==> show(temperature)[i] != ' '
    requires forall i :: 0 <= i < |show(topP)| ==> show(topP)[i] != ' '
    ensures Split(ChartName(temperature, topP, show), " ") == ["T:" + show(temperature), "P:" + show(topP)]
  {
    var pieces := ["T:" + show(temperature), "P:" + show(topP)];
    assert pieces[1..] == ["P:" + show(topP)];
    assert Join(pieces, [' ']) == ChartName(temperature, topP, show);
    forall k, i | 0 <= k < |pieces| && 0 <= i < |pieces[k]|
      ensures pieces[k][i] != ' '
    {
      if k == 0 && i >= 2 {
        assert pieces[k][i] == show(temperature)[i - 2];
      } else if k == 1 && i >= 2 {
        assert pieces[k][i] == show(topP)[i - 2];
      }
    }
    SplitJoin(pieces, ' ');
  }

  /**
   * With stored metrics in [0, 1], every score field of every chart row lies in [0, 1], the
   * chart's y-axis domain.
   */
  lemma ChartInUnit(rs: seq<ResponseData>, show: real -> string)
    requires forall k :: 0 <= k < |rs| && rs[k].metrics.Some? ==> RecordInUnit(rs[k].metrics.value)
    ensures forall k :: 0 <= k < |rs| ==>
      var row := ChartData(rs, show)[k];
      0.0 <= row.overall <= 1.0 && 0.0 <= row.coherence <= 1.0 && 0.0 <= row.diversity <= 1.0
      && 0.0 <= row.completeness <= 1.0 && 0.0 <= row.structure <= 1.0 && 0.0 <= row.readability <= 1.0
  {
  }

  // ---------------------------------------------------------------------------
  // The radar of the selected response
  // ---------------------------------------------------------------------------

  datatype RadarPoint = RadarPoint(metric: string, value: real)

  const RadarLabels: seq<string> := ["Coherence", "Diversity", "Completeness", "Structure", "Readability", "Length"]

  /**
   * `radarData`: the six metrics under fixed labels when the response has metrics, nothing
   * otherwise; the overall score is not among them.
   */
  function RadarData(r: ResponseData): (points: seq<RadarPoint>)
    ensures r.metrics.None? <==> points == []
    ensures r.metrics.Some? ==> |points| == |RadarLabels|
    ensures forall i :: 0 <= i < |points| ==> points[i].metric == RadarLabels[i]
  {
    match r.metrics
    case None => []
    case Some(m) =>
      [
        RadarPoint("Coherence", m.coherence),
        RadarPoint("Diversity", m.lexicalDiversity),
        RadarPoint("Completeness", m.completeness),
        RadarPoint("Structure", m.structure),
        RadarPoint("Readability", m.readability),
        RadarPoint("Length", m.lengthAppropriateness)
      ]
  }

  /**
   * The radar shows the stored scores in the order they are stored: point `i` is the value
   * under the `i`-th metric name.
   */
  lemma RadarFollowsStoredOrder(r: ResponseData)
    requires r.metrics.Some?
    ensures forall i :: 0 <= i < |RadarData(r)| ==>
      MetricsDict(r.metrics.value)[i] == (MetricNames[i], RadarData(r)[i].value)
  {
  }

  // ---------------------------------------------------------------------------
  // The best response and the initial selection
  // ---------------------------------------------------------------------------

  /**
   * `responses.reduce((best, current) => score(current) > score(best) ? current : best)`
   * from position `k` on, with the best so far at position `best`.
   */
  function ReduceBest(rs: seq<ResponseData>, best: nat, k: nat): (i: nat)
    requires best < k <= |rs|
    ensures best <= i < |rs|
    decreases |rs| - k
  {
    if k == |rs| then best
    else ReduceBest(rs, if Score(rs[k]) > Score(rs[best]) then k else best, k + 1)
  }

  /** `bestResponse`: the reduce has no initial value, so an empty list throws a `TypeError`. */
  function BestResponse(rs: seq<ResponseData>): (best: Option<ResponseData>)
    ensures best.Some? <==> rs != []
    ensures best.Some? ==> best.value in rs
  {
    if rs == [] then None else Some(rs[ReduceBest(rs, 0, 1)])
  }

  /** `useState(experiment.responses[0])`: `undefined` when there are no responses. */
  function InitialSelection(rs: seq<ResponseData>): (selected: Option<ResponseData>)
    ensures selected.Some? <==> rs != []
  {
    if rs == [] then None else Some(rs[0])
  }

  lemma {:induction false} ReduceBestFirstMaximum(rs: seq<ResponseData>, best: nat, k: nat)
    requires best < k <= |rs|
    requires forall j :: 0 <= j < k ==> Score(rs[j]) <= Score(rs[best])
    requires forall j :: 0 <= j < best ==> Score(rs[j]) < Score(rs[best])
    ensures forall j :: 0 <= j < |rs| ==> Score(rs[j]) <= Score(rs[ReduceBest(rs, best, k)])
    ensures forall j :: 0 <= j < ReduceBest(rs, best, k) ==> Score(rs[j]) < Score(rs[ReduceBest(rs, best, k)])
    decreases |rs| - k
  {
    if k < |rs| {
      ReduceBestFirstMaximum(rs, if Score(rs[k]) > Score(rs[best]) then k else best, k + 1);
    }
  }

  /**
   * The best response is the first one with the highest score: no response scores higher,
   * and every response before it scores strictly lower, because a tie keeps the earlier one.
   */
  lemma BestIsFirstMaximum(rs: seq<ResponseData>) returns (i: nat)
    requires rs != []
    ensures i < |rs| && BestResponse(rs) == Some(rs[i])
    ensures forall j :: 0 <= j < |rs| ==> Score(rs[j]) <= Score(rs[i])
    ensures forall j :: 0 <= j < i ==> Score(rs[j]) < Score(rs[i])
  {
    i := ReduceBest(rs, 0, 1);
    ReduceBestFirstMaximum(rs, 0, 1);
  }

  /**
   * When no response scores above the first one (all equal, or none has an overall score),
   * the banner shows the initially selected response.
   */
  lemma BestOfEqualScores(rs: seq<ResponseData>)
    requires rs != []
    requires forall j :: 0 <= j < |rs| ==> Score(rs[j]) <= Score(rs[0])
    ensures BestResponse(rs) == InitialSelection(rs)
  {
    var i := BestIsFirstMaximum(rs);
  }

  // ---------------------------------------------------------------------------
  // The metric cards
  // ---------------------------------------------------------------------------

  /** The colour band of a metric bar. */
  datatype Grade = Poor | Average | Good | Excellent

  /** The bands from the top: at least 0.8, 0.6 or 0.4, else poor. */
  function GradeOf(value: real): Grade {
    if value >= 0.8 then Excellent
    else if value >= 0.6 then Good
    else if value >= 0.4 then Average
    else Poor
  }

  function Rank(g: Grade): nat {
    match g
    case Poor => 0
    case Average => 1
    case Good => 2
    case Excellent => 3
  }

  /** A higher value never gets a lower band. */
  lemma GradeMonotone(v: real, w: real)
    requires v <= w
    ensures Rank(GradeOf(v)) <= Rank(GradeOf(w))
  {
  }

  /** `s.replace(/_/g, ' ')` and the like: every `from` becomes `to`. */
  function ReplaceChar(s: string, from: char, to: char): (r: string)
    ensures |r| == |s|
    ensures forall i :: 0 <= i < |s| ==> r[i] == (if s[i] == from then to else s[i])
  {
    if s == [] then [] else [if s[0] == from then to else s[0]] + ReplaceChar(s[1..], from, to)
  }

  /** A key holding no space is recovered from its label by turning the spaces back. */
  lemma ReplaceCharBack(s: string, from: char, to: char)
    requires forall i :: 0 <= i < |s| ==> s[i] != to
    ensures ReplaceChar(ReplaceChar(s, from, to), to, from) == s
  {
  }

  /** One card: the name, the value, the bar width in percent and its band. */
  datatype Card = Card(name: string, value: real, width: real, grade: Grade)

  /**
   * `Object.entries(metrics)` of the record as the API sends it: the six scores, then
   * `overall_score`, which is `null` when unset.
   */
  function Entries(m: MetricsRecord): seq<(string, Option<real>)> {
    [
      (MetricNames[0], Some(m.coherence)),
      (MetricNames[1], Some(m.lexicalDiversity)),
      (MetricNames[2], Some(m.completeness)),
      (MetricNames[3], Some(m.structure)),
      (MetricNames[4], Some(m.readability)),
      (MetricNames[5], Some(m.lengthAppropriateness)),
      (OverallKey, m.overall)
    ]
  }

  /**
   * The cards of a list of entries. `value.toFixed(3)` throws on a `null` value, so one
   * `null` entry makes the whole list fail.
   */
  function CardsOf(entries: seq<(string, Option<real>)>): (cards: Option<seq<Card>>)
    ensures cards.Some? <==> forall i :: 0 <= i < |entries| ==> entries[i].1.Some?
    ensures cards.Some? ==> |cards.value| == |entries|
    ensures cards.Some? ==> forall i :: 0 <= i < |entries| ==>
      cards.value[i] == Card(ReplaceChar(entries[i].0, '_', ' '), entries[i].1.value,
                             entries[i].1.value * 100.0, GradeOf(entries[i].1.value))
  {
    if entries == [] then Some([])
    else
      match (entries[0].1, CardsOf(entries[1..]))
      case (Some(v), Some(rest)) =>
        Some([Card(ReplaceChar(entries[0].0, '_', ' '), v, v * 100.0, GradeOf(v))] + rest)
      case _ => None
  }

  /** The metric cards of the selected response: none without metrics. */
  function MetricCards(m: Option<MetricsRecord>): Option<seq<Card>> {
    if m.None? then Some([]) else CardsOf(Entries(m.value))
  }

  /**
   * The cards render exactly when the overall score is set; then there are seven, the six
   * metrics and the overall score in stored order, each labelled with its key's underscores
   * turned into spaces and showing the stored value.
   */
  lemma MetricCardsOfRecord(m: MetricsRecord)
    ensures MetricCards(Some(m)).Some? <==> m.overall.Some?
    ensures m.overall.Some? ==> |MetricCards(Some(m)).value| == 7
    ensures m.overall.Some? ==> forall i :: 0 <= i < 7 ==>
      MetricCards(Some(m)).value[i].name == ReplaceChar(Keys(MetricsDict(m))[i], '_', ' ')
      && MetricCards(Some(m)).value[i].value == MetricsDict(m)[i].1
  {
    MetricsDictKeys(m);
    var es := Entries(m);
    if m.overall.None? {
      assert !es[6].1.Some?;
    } else {
      forall i | 0 <= i < 7
        ensures es[i].0 == Keys(MetricsDict(m))[i] && es[i].1 == Some(MetricsDict(m)[i].1)
      {
        assert Keys(MetricsDict(m))[i] == (MetricNames + [OverallKey])[i];
      }
    }
  }

  /** Entries all set and in [0, 1] give cards whose bars lie within 0-100%. */
  lemma CardsWithinBounds(entries: seq<(string, Option<real>)>)
    requires forall i :: 0 <= i < |entries| ==> entries[i].1.Some? && 0.0 <= entries[i].1.value <= 1.0
    ensures CardsOf(entries).Some?
    ensures forall c :: c in CardsOf(entries).value ==> 0.0 <= c.width <= 100.0
  {
  }

  /** The entries of a record with every score in [0, 1] are all in [0, 1]; `overall_score` when set. */
  lemma EntriesInUnit(m: MetricsRecord)
    requires m.overall.Some? && RecordInUnit(m)
    ensures forall i :: 0 <= i < |Entries(m)| ==> Entries(m)[i].1.Some? && 0.0 <= Entries(m)[i].1.value <= 1.0
  {
  }

  /** The metrics stored for any content always render their cards, each bar within 0-100%. */
  lemma StoredMetricsShowCards(text: string)
    ensures MetricCards(ParseMetrics(ScoredMetrics(text))).Some?
    ensures forall c :: c in MetricCards(ParseMetrics(ScoredMetrics(text))).value ==> 0.0 <= c.width <= 100.0
  {
    StoredRecordInUnit(text);
    var m := ParseMetrics(ScoredMetrics(text)).value;
    EntriesInUnit(m);
    CardsWithinBounds(Entries(m));
  }

  // ---------------------------------------------------------------------------
  // The word count
  // ---------------------------------------------------------------------------

  predicate IsNotJsSpace(c: char) {
    !IsJsSpace(c)
  }

  /**
   * `content.split(/\s+/).length`: one more than the number of whitespace runs, so at least
   * 1, even for empty content.
   */
  function WordCount(content: string): (n: nat)
    ensures n == |Runs(content, IsJsSpace)| + 1
    ensures n >= 1
  {
    SplitAtRunsCount(content, IsJsSpace);
    |SplitAtRuns(content, IsJsSpace)|
  }

  /**
   * The count is the number of words (runs of other characters), plus one for leading and
   * one for trailing whitespace; empty content counts 1.
   */
  lemma WordCountCountsWords(content: string)
    ensures WordCount(content) == if content == [] then 1 else
      |Runs(content, IsNotJsSpace)| + (if IsJsSpace(content[0]) then 1 else 0)
      + (if IsJsSpace(content[|content| - 1]) then 1 else 0)
  {
    SplitAtRunsWords(content, IsJsSpace, IsNotJsSpace);
  }
}
