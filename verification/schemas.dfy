/**
 * The request and response shapes of the HTTP API and the field constraints pydantic
 * enforces on them. A field missing from the incoming JSON is `None`.
 */
module Schemas {
  import opened Wrappers
  import opened Dicts
  import opened Metrics

  /** Why pydantic rejected a request body (HTTP 422). */
  datatype ValidationError = MissingField(field: string) | PromptLength(length: nat) | BadFormat(format: string)

  const DefaultModel: string := "gpt-3.5-turbo"
  const DefaultTemperatures: seq<real> := [0.3, 0.7, 1.0]
  const DefaultTopPs: seq<real> := [0.9, 0.95, 1.0]
  const MaxPromptLength: nat := 5000

  /** `GenerateRequest` after validation. */
  datatype GenerateRequest = GenerateRequest(
    prompt: string, model: string, temperatureRange: seq<real>, topPRange: seq<real>)

  /**
   * `GenerateRequest(**body)`: the prompt is required and must hold 1 to 5000 characters;
   * the other fields take their defaults when absent, and the range values are not checked.
   */
  function ParseGenerateRequest(prompt: Option<string>, model: Option<string>,
                                temperatureRange: Option<seq<real>>, topPRange: Option<seq<real>>)
    : (r: Result<GenerateRequest, ValidationError>)
    ensures r.Success? <==> prompt.Some? && 1 <= |prompt.value| <= MaxPromptLength
    ensures prompt.None? ==> r == Failure(MissingField("prompt"))
    ensures r.Success? ==> r.value.prompt == prompt.value
    ensures r.Success? ==> r.value.model == (if model.Some? then model.value else DefaultModel)
    ensures r.Success? ==> r.value.temperatureRange == (if temperatureRange.Some? then temperatureRange.value else DefaultTemperatures)
    ensures r.Success? ==> r.value.topPRange == (if topPRange.Some? then topPRange.value else DefaultTopPs)
  {
    match prompt
    case None => Failure(MissingField("prompt"))
    case Some(p) =>
      if |p| < 1 || |p| > MaxPromptLength then Failure(PromptLength(|p|))
      else Success(GenerateRequest(p, model.GetOr(DefaultModel),
                                   temperatureRange.GetOr(DefaultTemperatures), topPRange.GetOr(DefaultTopPs)))
  }

  /** A request carrying only a prompt gets the default model and the default 3 x 3 grid. */
  lemma DefaultRequest(prompt: string)
    requires 1 <= |prompt| <= MaxPromptLength
    ensures ParseGenerateRequest(Some(prompt), None, None, None)
      == Success(GenerateRequest(prompt, "gpt-3.5-turbo", [0.3, 0.7, 1.0], [0.9, 0.95, 1.0]))
    ensures |DefaultTemperatures| * |DefaultTopPs| == 9
  {
  }

  /** `ResponseMetrics` (the schema): six required scores and an optional overall score. */
  datatype MetricsRecord = MetricsRecord(
    coherence: real, lexicalDiversity: real, completeness: real, structure: real,
    readability: real, lengthAppropriateness: real, overall: Option<real>)

  /** The six score keys `ResponseMetrics` requires are all present. */
  predicate HasMetricKeys(d: Dict<real>) {
    "coherence_score" in Keys(d) && "lexical_diversity" in Keys(d) && "completeness_score" in Keys(d)
    && "structure_score" in Keys(d) && "readability_score" in Keys(d) && "length_appropriateness" in Keys(d)
  }

  /**
   * `ResponseMetrics(**d)`: fails when one of the six scores is missing; `overall_score`
   * is taken when present; other keys are ignored.
   */
  function ParseMetrics(d: Dict<real>): (r: Option<MetricsRecord>)
    ensures r.Some? <==> HasMetricKeys(d)
    ensures r.Some? ==> r.value.overall == Get(d, OverallKey)
    ensures r.Some? ==> (Get(d, "coherence_score") == Some(r.value.coherence)
      && Get(d, "lexical_diversity") == Some(r.value.lexicalDiversity)
      && Get(d, "completeness_score") == Some(r.value.completeness)
      && Get(d, "structure_score") == Some(r.value.structure)
      && Get(d, "readability_score") == Some(r.value.readability)
      && Get(d, "length_appropriateness") == Some(r.value.lengthAppropriateness))
  {
    match (Get(d, "coherence_score"), Get(d, "lexical_diversity"), Get(d, "completeness_score"),
           Get(d, "structure_score"), Get(d, "readability_score"), Get(d, "length_appropriateness"))
    case (Some(c), Some(l), Some(m), Some(s), Some(rd), Some(la)) =>
      Some(MetricsRecord(c, l, m, s, rd, la, Get(d, OverallKey)))
    case _ => None
  }

  /** The record as the dict it serialises to, in field order, with `overall_score` when set. */
  function MetricsDict(m: MetricsRecord): Dict<real> {
    MetricsOf(m.coherence, m.lexicalDiversity, m.completeness, m.structure, m.readability, m.lengthAppropriateness)
    + (if m.overall.Some? then [(OverallKey, m.overall.value)] else [])
  }

  /** The serialised record has the six metric names, then `overall_score` when set, all distinct. */
  lemma MetricsDictKeys(m: MetricsRecord)
    ensures Keys(MetricsDict(m)) == MetricNames + (if m.overall.Some? then [OverallKey] else [])
    ensures DistinctKeys(MetricsDict(m))
  {
    var six := MetricsOf(m.coherence, m.lexicalDiversity, m.completeness, m.structure, m.readability,
                         m.lengthAppropriateness);
    MetricsOfKeys(m.coherence, m.lexicalDiversity, m.completeness, m.structure, m.readability,
                  m.lengthAppropriateness);
    if m.overall.Some? {
      OverallEntryKeys(six, m.overall.value);
    } else {
      StoredKeysDifferent();
      assert MetricsDict(m) == six;
    }
  }

  /** Parsing the serialised record gives the record back. */
  lemma ParseMetricsDict(m: MetricsRecord)
    ensures ParseMetrics(MetricsDict(m)) == Some(m)
  {
    var d := MetricsDict(m);
    MetricsDictKeys(m);
    GetEntry(d, 0);
    GetEntry(d, 1);
    GetEntry(d, 2);
    GetEntry(d, 3);
    GetEntry(d, 4);
    GetEntry(d, 5);
    if m.overall.Some? {
      GetEntry(d, 6);
    } else {
      StoredKeysDifferent();
    }
  }

  /**
   * The metrics stored for a text always parse, with each field the score of the same
   * name and the overall score present.
   */
  lemma ParseScoredMetrics(text: string)
    ensures ParseMetrics(ScoredMetrics(text)).Some?
    ensures ParseMetrics(ScoredMetrics(text)).value == MetricsRecord(
      CoherenceScore(text), LexicalDiversity(text), CompletenessScore(text), StructureScore(text),
      ReadabilityScore(text), LengthAppropriateness(text), Some(OverallScore(AllMetrics(text))))
  {
    var c, l, m, s, r, la := CoherenceScore(text), LexicalDiversity(text), CompletenessScore(text),
                             StructureScore(text), ReadabilityScore(text), LengthAppropriateness(text);
    var rec := MetricsRecord(c, l, m, s, r, la, Some(OverallScore(MetricsOf(c, l, m, s, r, la))));
    ScoredIsRecordDict(c, l, m, s, r, la);
    ParseMetricsDict(rec);
  }

  /** The six scores with the overall score appended are the dict of the record holding them. */
  lemma ScoredIsRecordDict(c: real, l: real, m: real, s: real, r: real, la: real)
    ensures WithOverall(MetricsOf(c, l, m, s, r, la))
      == MetricsDict(MetricsRecord(c, l, m, s, r, la, Some(OverallScore(MetricsOf(c, l, m, s, r, la)))))
  {
  }

  /** `ResponseData`. Timestamps are integers. */
  datatype ResponseData = ResponseData(
    id: int, temperature: real, topP: real, model: string, content: string,
    metrics: Option<MetricsRecord>, createdAt: int)

  /** `ExperimentResponse`. */
  datatype ExperimentResponse = ExperimentResponse(
    id: int, prompt: string, createdAt: int, responses: seq<ResponseData>)

  /** `ExperimentListItem`. */
  datatype ExperimentListItem = ExperimentListItem(
    id: int, prompt: string, createdAt: int, responseCount: nat)

  const DefaultFormat: string := "json"

  /** `ExportRequest` after validation. */
  datatype ExportRequest = ExportRequest(experimentIds: seq<int>, format: string)

  /**
   * `ExportRequest(**body)`: the id list is required; the format defaults to "json" and
   * must match `^(json|csv)$` in full.
   */
  function ParseExportRequest(experimentIds: Option<seq<int>>, format: Option<string>)
    : (r: Result<ExportRequest, ValidationError>)
    ensures r.Success? <==> experimentIds.Some? && (format.None? || format.value == "json" || format.value == "csv")
    ensures r.Success? ==> r.value.experimentIds == experimentIds.value
    ensures r.Success? ==> r.value.format == (if format.Some? then format.value else "json")
  {
    match experimentIds
    case None => Failure(MissingField("experiment_ids"))
    case Some(ids) =>
      var f := format.GetOr(DefaultFormat);
      if f == "json" || f == "csv" then Success(ExportRequest(ids, f)) else Failure(BadFormat(f))
  }

  /** A format that is not exactly "json" or "csv" is rejected, "JSON" and "json " among them. */
  lemma ExportFormatRejected(ids: seq<int>)
    ensures ParseExportRequest(Some(ids), Some("JSON")).Failure?
    ensures ParseExportRequest(Some(ids), Some("json ")).Failure?
    ensures ParseExportRequest(Some(ids), None) == Success(ExportRequest(ids, "json"))
  {
    assert "JSON" != "json" && "JSON" != "csv";
    assert "json " != "json" && "json " != "csv";
  }
}
