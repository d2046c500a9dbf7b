/**
 * The HTTP endpoints of `main.py` over the two tables: generate, list, get, delete and
 * export. The database is a `Store` object whose two tables are sequences of rows in
 * rowid order; a request that fails leaves them as they were, as the session rollback does.
 */
module Api {
  import opened Wrappers
  import opened Dicts
  import opened Metrics
  import opened LlmService
  import opened Schemas
  import opened Models
  import opened Sorting

  /** An `HTTPException`: 404 with its detail, or 500 with the endpoint's message prefix. */
  datatype HttpError = NotFound(detail: string) | ServerError(context: string)

  const ExperimentNotFound: string := "Experiment not found"
  const NoExperimentsFound: string := "No experiments found"
  const GenerateFailed: string := "Error generating responses"
  const ExportFailed: string := "Error exporting data"
  const Deleted: string := "Experiment deleted successfully"

  // ---------------------------------------------------------------------------
  // Row ids
  // ---------------------------------------------------------------------------

  /** Rowids increase along the `experiments` table. */
  predicate ExperimentIdsIncreasing(es: seq<Experiment>) {
    forall i, j :: 0 <= i < j < |es| ==> es[i].id < es[j].id
  }

  /** Rowids increase along the `responses` table. */
  predicate ResponseIdsIncreasing(rs: seq<Response>) {
    forall i, j :: 0 <= i < j < |rs| ==> rs[i].id < rs[j].id
  }

  predicate HasExperiment(es: seq<Experiment>, id: int) {
    exists e :: e in es && e.id == id
  }

  /** The rowid SQLite gives a new experiment: one more than the largest in use, else 1. */
  function NextExperimentId(es: seq<Experiment>): (n: int)
    requires ExperimentIdsIncreasing(es)
    ensures forall e :: e in es ==> e.id < n
    ensures es == [] ==> n == 1
  {
    if es == [] then 1 else es[|es| - 1].id + 1
  }

  /** The rowid SQLite gives a new response: one more than the largest in use, else 1. */
  function NextResponseId(rs: seq<Response>): (n: int)
    requires ResponseIdsIncreasing(rs)
    ensures forall r :: r in rs ==> r.id < n
    ensures rs == [] ==> n == 1
  {
    if rs == [] then 1 else rs[|rs| - 1].id + 1
  }

  // ---------------------------------------------------------------------------
  // generate: one stored response per grid entry
  // ---------------------------------------------------------------------------

  /** The keys of every stored metrics dict: the six scores, then `overall_score`. */
  predicate HasStoredKeys(r: Response) {
    r.metrics.Some? && Keys(r.metrics.value) == MetricNames + [OverallKey]
  }

  /** A scoring function whose dicts always have the stored keys. */
  ghost predicate KeysAlwaysStored(score: string -> Dict<real>) {
    forall t :: Keys(score(t)) == MetricNames + [OverallKey]
  }

  /** The metrics `generate_responses` stores have the stored keys, whatever the text. */
  lemma ScoredMetricsKeysStored()
    ensures KeysAlwaysStored(ScoredMetrics)
  {
    forall t
      ensures Keys(ScoredMetrics(t)) == MetricNames + [OverallKey]
    {
      ScoredMetricsShape(t);
    }
  }

  /**
   * The rows `generate_responses` adds, one per generated triple, ids counting up from
   * `firstId`, each with the metrics `score` gives its content.
   */
  function StoredRows(firstId: int, experimentId: int, generated: seq<Generated>, model: string, now: int,
                      score: string -> Dict<real>): (rows: seq<Response>)
    requires forall k :: 0 <= k < |generated| ==> generated[k].content.Some?
    ensures |rows| == |generated|
  {
    if generated == [] then []
    else
      var n := |generated| - 1;
      var g := generated[n];
      StoredRows(firstId, experimentId, generated[..n], model, now, score)
        + [Response(firstId + n, experimentId, g.temperature, g.topP, model, g.content.value, now,
                    Some(score(g.content.value)))]
  }

  /** Row `k` carries id `firstId + k`, the parameters and content of triple `k`, and its metrics. */
  lemma {:induction false} StoredRowsAt(firstId: int, experimentId: int, generated: seq<Generated>,
                                        model: string, now: int, score: string -> Dict<real>, k: nat)
    requires forall k :: 0 <= k < |generated| ==> generated[k].content.Some?
    requires k < |generated|
    ensures var text := generated[k].content.value;
      StoredRows(firstId, experimentId, generated, model, now, score)[k]
        == Response(firstId + k, experimentId, generated[k].temperature, generated[k].topP, model, text, now,
                    Some(score(text)))
  {
    var n := |generated| - 1;
    if k < n {
      StoredRowsAt(firstId, experimentId, generated[..n], model, now, score, k);
      assert generated[..n][k] == generated[k];
    }
  }

  /** Adding triple `k` appends its row. */
  lemma StoredRowsStep(firstId: int, experimentId: int, generated: seq<Generated>, model: string, now: int,
                       score: string -> Dict<real>, k: nat)
    requires k < |generated|
    requires forall m :: 0 <= m <= k ==> generated[m].content.Some?
    ensures var text := generated[k].content.value;
      StoredRows(firstId, experimentId, generated[..k + 1], model, now, score)
        == StoredRows(firstId, experimentId, generated[..k], model, now, score)
           + [Response(firstId + k, experimentId, generated[k].temperature, generated[k].topP, model, text, now,
                       Some(score(text)))]
  {
    assert generated[..k + 1][..k] == generated[..k];
    assert generated[..k + 1][k] == generated[k];
  }

  /** With a scoring function that always gives the stored keys, every added row has them. */
  lemma {:induction false} StoredRowsKeys(firstId: int, experimentId: int, generated: seq<Generated>,
                                          model: string, now: int, score: string -> Dict<real>)
    requires forall k :: 0 <= k < |generated| ==> generated[k].content.Some?
    requires KeysAlwaysStored(score)
    ensures forall r :: r in StoredRows(firstId, experimentId, generated, model, now, score) ==> HasStoredKeys(r)
  {
    if generated != [] {
      var n := |generated| - 1;
      StoredRowsKeys(firstId, experimentId, generated[..n], model, now, score);
      assert Keys(score(generated[n].content.value)) == MetricNames + [OverallKey];
    }
  }

  /** No grid entry's generation ended without content. */
  predicate AllAnswered(service: Service, model: string, replies: seq<Reply>) {
    forall k :: 0 <= k < |replies| ==> !GenerateResponse(service, model, replies[k]).NoContent?
  }

  /**
   * What a successful `generate_responses` stores: for grid entry `k`, the response with
   * rowid `firstId + k`, that entry's temperature and top_p, the text its generation
   * produced (an error message included), and the metrics `score` gives that text.
   */
  function AddedRows(service: Service, request: GenerateRequest, replies: seq<Reply>, firstId: int,
                     experimentId: int, now: int, score: string -> Dict<real>): (rows: seq<Response>)
    requires |replies| == |request.temperatureRange| * |request.topPRange|
    requires AllAnswered(service, request.model, replies)
    ensures |rows| == |replies|
  {
    var grid := Grid(request.temperatureRange, request.topPRange);
    GridLength(request.temperatureRange, request.topPRange);
    seq(|replies|, k requires 0 <= k < |replies| =>
      var text := ResultText(GenerateResponse(service, request.model, replies[k])).value;
      Response(firstId + k, experimentId, grid[k].0, grid[k].1, request.model, text, now, Some(score(text))))
  }

  /** The rows the loop builds from the paired results are the rows `AddedRows` describes. */
  lemma StoredRowsAdded(service: Service, request: GenerateRequest, replies: seq<Reply>, generated: seq<Generated>,
                        firstId: int, experimentId: int, now: int, score: string -> Dict<real>)
    requires |replies| == |request.temperatureRange| * |request.topPRange|
    requires |generated| == |Grid(request.temperatureRange, request.topPRange)| == |replies|
    requires forall k :: 0 <= k < |generated| ==>
      (generated[k].temperature, generated[k].topP) == Grid(request.temperatureRange, request.topPRange)[k]
      && generated[k].content == ResultText(GenerateResponse(service, request.model, replies[k]))
    requires forall k :: 0 <= k < |generated| ==> generated[k].content.Some?
    ensures AllAnswered(service, request.model, replies)
    ensures StoredRows(firstId, experimentId, generated, request.model, now, score)
      == AddedRows(service, request, replies, firstId, experimentId, now, score)
  {
    assert AllAnswered(service, request.model, replies) by {
      forall k | 0 <= k < |replies|
        ensures !GenerateResponse(service, request.model, replies[k]).NoContent?
      {
        assert generated[k].content.Some?;
      }
    }
    var stored := StoredRows(firstId, experimentId, generated, request.model, now, score);
    var added := AddedRows(service, request, replies, firstId, experimentId, now, score);
    forall k | 0 <= k < |generated|
      ensures stored[k] == added[k]
    {
      StoredRowsAt(firstId, experimentId, generated, request.model, now, score, k);
    }
  }

  /** The added rows number on from `firstId` and all belong to the new experiment. */
  lemma AddedRowsIds(service: Service, request: GenerateRequest, replies: seq<Reply>, firstId: int,
                     experimentId: int, now: int, score: string -> Dict<real>)
    requires |replies| == |request.temperatureRange| * |request.topPRange|
    requires AllAnswered(service, request.model, replies)
    ensures var rows := AddedRows(service, request, replies, firstId, experimentId, now, score);
      forall k :: 0 <= k < |rows| ==> rows[k].id == firstId + k && rows[k].experimentId == experimentId
  {
  }

  /**
   * `ResponseData` for a row; `None` where `ResponseMetrics(**metrics)` raises. A NULL or
   * empty metrics dict gives no metrics.
   */
  function AsData(r: Response): (d: Option<ResponseData>)
    ensures d.None? <==> r.metrics.Some? && r.metrics.value != [] && !HasMetricKeys(r.metrics.value)
    ensures d.Some? ==> (d.value.id == r.id && d.value.temperature == r.temperature
      && d.value.topP == r.topP && d.value.model == r.model && d.value.content == r.content
      && d.value.createdAt == r.createdAt)
    ensures d.Some? && r.metrics.Some? && r.metrics.value != [] ==> d.value.metrics == ParseMetrics(r.metrics.value)
  {
    match r.metrics
    case None => Some(ResponseData(r.id, r.temperature, r.topP, r.model, r.content, None, r.createdAt))
    case Some(m) =>
      if m == [] then Some(ResponseData(r.id, r.temperature, r.topP, r.model, r.content, None, r.createdAt))
      else match ParseMetrics(m)
        case None => None
        case Some(rec) => Some(ResponseData(r.id, r.temperature, r.topP, r.model, r.content, Some(rec), r.createdAt))
  }

  /** The list comprehension building `responses=[...]`; fails if any row fails. */
  function AllData(rows: seq<Response>): (d: Option<seq<ResponseData>>)
    ensures d.None? <==> exists i :: 0 <= i < |rows| && AsData(rows[i]).None?
    ensures d.Some? ==> |d.value| == |rows| && forall i :: 0 <= i < |rows| ==> AsData(rows[i]) == Some(d.value[i])
  {
    if rows == [] then Some([])
    else match (AsData(rows[0]), AllData(rows[1..]))
      case (Some(x), Some(xs)) =>
        assert forall i :: 1 <= i < |rows| ==> rows[i] == rows[1..][i - 1];
        Some([x] + xs)
      case (None, _) => None
      case (_, None) =>
        assert forall i :: 0 <= i < |rows[1..]| ==> rows[1..][i] == rows[i + 1];
        None
  }

  /** A dict with the stored keys holds every key `ResponseMetrics` requires. */
  lemma StoredKeysParse(d: Dict<real>)
    requires Keys(d) == MetricNames + [OverallKey]
    ensures d != [] && HasMetricKeys(d)
  {
    var keys := Keys(d);
    assert keys[0] == "coherence_score" && keys[1] == "lexical_diversity" && keys[2] == "completeness_score";
    assert keys[3] == "structure_score" && keys[4] == "readability_score" && keys[5] == "length_appropriateness";
  }

  /** Rows whose metrics have the stored keys always convert, each with its metrics parsed. */
  lemma {:induction false} StoredRowsConvert(rows: seq<Response>)
    requires forall r :: r in rows ==> HasStoredKeys(r)
    ensures AllData(rows).Some?
  {
    forall i | 0 <= i < |rows|
      ensures AsData(rows[i]).Some?
    {
      assert rows[i] in rows;
      StoredKeysParse(rows[i].metrics.value);
    }
  }

  // ---------------------------------------------------------------------------
  // get: ordering by (temperature, top_p)
  // ---------------------------------------------------------------------------

  /** `ORDER BY temperature, top_p`. */
  predicate ByParams(a: Response, b: Response) {
    a.temperature < b.temperature || (a.temperature == b.temperature && a.topP <= b.topP)
  }

  lemma ByParamsPreorder()
    ensures TotalPreorder(ByParams)
  {
  }

  // ---------------------------------------------------------------------------
  // list: response counts, newest first, skip and limit
  // ---------------------------------------------------------------------------

  /** One row of the outer join grouped by experiment: zero responses count as 0. */
  function Item(e: Experiment, responses: seq<Response>): (it: ExperimentListItem)
    ensures it.id == e.id && it.prompt == e.prompt && it.createdAt == e.createdAt
    ensures it.responseCount == |ResponsesOf(responses, e.id)|
  {
    ExperimentListItem(e.id, e.prompt, e.createdAt, |ResponsesOf(responses, e.id)|)
  }

  function Items(es: seq<Experiment>, responses: seq<Response>): (items: seq<ExperimentListItem>)
    ensures |items| == |es|
    ensures forall i :: 0 <= i < |es| ==> items[i] == Item(es[i], responses)
  {
    seq(|es|, i requires 0 <= i < |es| => Item(es[i], responses))
  }

  /** `ORDER BY created_at DESC`. */
  predicate NewerFirst(a: ExperimentListItem, b: ExperimentListItem) {
    a.createdAt >= b.createdAt
  }

  lemma NewerFirstPreorder()
    ensures TotalPreorder(NewerFirst)
  {
  }

  /**
   * `OFFSET skip LIMIT limit` as SQLite applies them: a negative offset skips nothing and
   * a negative limit takes every remaining row.
   */
  function Page<T>(s: seq<T>, skip: int, limit: int): (p: seq<T>)
    ensures |p| <= |s|
    ensures var off := if skip < 0 then 0 else if skip > |s| then |s| else skip;
      (limit < 0 ==> p == s[off..])
      && (0 <= limit ==> |p| == (if limit < |s| - off then limit else |s| - off))
      && (forall i :: 0 <= i < |p| ==> off + i < |s| && p[i] == s[off + i])
  {
    var off := if skip < 0 then 0 else if skip > |s| then |s| else skip;
    var rest := s[off..];
    if limit < 0 || limit >= |rest| then rest else rest[..limit]
  }

  /** The page the list endpoint serves without query parameters: the first 100 rows, or all. */
  lemma DefaultPage<T>(s: seq<T>)
    ensures Page(s, 0, 100) == if |s| <= 100 then s else s[..100]
  {
  }

  /** A page is the run of rows that starts at the clamped offset. */
  lemma PageSlice<T>(s: seq<T>, skip: int, limit: int) returns (off: nat)
    ensures off + |Page(s, skip, limit)| <= |s|
    ensures Page(s, skip, limit) == s[off..off + |Page(s, skip, limit)|]
    ensures off == (if skip < 0 then 0 else if skip > |s| then |s| else skip)
  {
    off := if skip < 0 then 0 else if skip > |s| then |s| else skip;
  }

  // ---------------------------------------------------------------------------
  // export: flattened rows and CSV
  // ---------------------------------------------------------------------------

  /** A JSON or CSV cell; `Blank` is the empty string `DictWriter` writes for a missing key. */
  datatype Value = Int(i: int) | Num(x: real) | Text(s: string) | Time(t: int) | Blank

  type ExportRow = Dict<Value>

  const FixedColumns: seq<string> := ["experiment_id", "prompt", "temperature", "top_p", "model", "content", "created_at"]

  /** `{f"metric_{k}": v for k, v in metrics.items()}`. */
  function MetricColumns(metrics: Dict<real>): (cols: Dict<Value>)
    ensures |cols| == |metrics|
    ensures forall i :: 0 <= i < |metrics| ==> cols[i] == ("metric_" + metrics[i].0, Num(metrics[i].1))
  {
    seq(|metrics|, i requires 0 <= i < |metrics| => ("metric_" + metrics[i].0, Num(metrics[i].1)))
  }

  /** The column names a metrics dict contributes. */
  function MetricColumnNames(keys: seq<string>): (names: seq<string>)
    ensures |names| == |keys|
    ensures forall i :: 0 <= i < |keys| ==> names[i] == "metric_" + keys[i]
  {
    seq(|keys|, i requires 0 <= i < |keys| => "metric_" + keys[i])
  }

  /** One export row: the experiment and response columns, then every metric renamed. */
  function ExportRowOf(e: Experiment, r: Response): (row: ExportRow)
    ensures Keys(row) == FixedColumns + MetricColumnNames(Keys(r.metrics.GetOr([])))
  {
    var fixed := [("experiment_id", Int(e.id)), ("prompt", Text(e.prompt)), ("temperature", Num(r.temperature)),
                  ("top_p", Num(r.topP)), ("model", Text(r.model)), ("content", Text(r.content)),
                  ("created_at", Time(r.createdAt))];
    var metrics := MetricColumns(r.metrics.GetOr([]));
    KeysAppend(fixed, metrics);
    MetricColumnKeys(r.metrics.GetOr([]));
    assert Keys(fixed) == FixedColumns;
    fixed + metrics
  }

  lemma MetricColumnKeys(metrics: Dict<real>)
    ensures Keys(MetricColumns(metrics)) == MetricColumnNames(Keys(metrics))
  {
  }

  /** The rows for one experiment's responses, in the order the responses were fetched. */
  function RowsOf(e: Experiment, mine: seq<Response>): (rows: seq<ExportRow>)
    ensures |rows| == |mine|
    ensures forall k :: 0 <= k < |mine| ==> rows[k] == ExportRowOf(e, mine[k])
  {
    if mine == [] then [] else RowsOf(e, mine[..|mine| - 1]) + [ExportRowOf(e, mine[|mine| - 1])]
  }

  /** `export_data`: for each experiment found, a row per response of that experiment. */
  function ExportRows(found: seq<Experiment>, fetched: seq<Response>): seq<ExportRow> {
    if found == [] then []
    else
      var e := found[|found| - 1];
      ExportRows(found[..|found| - 1], fetched) + RowsOf(e, ResponsesOf(fetched, e.id))
  }

  /** `select(Experiment).where(Experiment.id.in_(ids))`, in table order. */
  function ExperimentsIn(es: seq<Experiment>, ids: seq<int>): (found: seq<Experiment>)
    ensures forall e :: e in found <==> e in es && e.id in ids
  {
    if es == [] then []
    else (if es[0].id in ids then [es[0]] else []) + ExperimentsIn(es[1..], ids)
  }

  /** `select(Response).where(Response.experiment_id.in_(ids))`, in table order. */
  function ResponsesIn(rs: seq<Response>, ids: seq<int>): (fetched: seq<Response>)
    ensures forall r :: r in fetched <==> r in rs && r.experimentId in ids
  {
    if rs == [] then []
    else (if rs[0].experimentId in ids then [rs[0]] else []) + ResponsesIn(rs[1..], ids)
  }

  /** The CSV output: empty text for no rows, else a header line and one record per row. */
  datatype CsvTable = NoRows | Table(header: seq<string>, records: seq<seq<Value>>)

  /** Every key of the row is a column of the header. */
  predicate KeysWithin(row: ExportRow, header: seq<string>) {
    forall i :: 0 <= i < |row| ==> row[i].0 in header
  }

  /** The cells `DictWriter` writes for a row: the value under each header column, or "". */
  function Record(header: seq<string>, row: ExportRow): (cells: seq<Value>)
    ensures |cells| == |header|
    ensures forall j :: 0 <= j < |header| ==> cells[j] == Get(row, header[j]).GetOr(Blank)
  {
    seq(|header|, j requires 0 <= j < |header| => Get(row, header[j]).GetOr(Blank))
  }

  /**
   * `csv.DictWriter(fieldnames=rows[0].keys())`: a later row with a key outside the header
   * raises `ValueError`, which the endpoint reports as a 500.
   */
  function CsvOf(rows: seq<ExportRow>): (r: Result<CsvTable, HttpError>)
    ensures rows == [] ==> r == Success(NoRows)
    ensures rows != [] ==>
      (r.Failure? <==> exists i :: 0 <= i < |rows| && !KeysWithin(rows[i], Keys(rows[0])))
    ensures r.Failure? ==> r.error == ServerError(ExportFailed)
    ensures rows != [] && r.Success? ==>
      r.value.Table? && r.value.header == Keys(rows[0]) && |r.value.records| == |rows|
      && forall i :: 0 <= i < |rows| ==> r.value.records[i] == Record(Keys(rows[0]), rows[i])
  {
    if rows == [] then Success(NoRows)
    else
      var header := Keys(rows[0]);
      if exists i :: 0 <= i < |rows| && !KeysWithin(rows[i], header) then Failure(ServerError(ExportFailed))
      else Success(Table(header, seq(|rows|, i requires 0 <= i < |rows| => Record(header, rows[i]))))
  }

  /** What `/api/export` returns. */
  datatype ExportData = Json(rows: seq<ExportRow>) | Csv(table: CsvTable)

  /**
   * When every fetched response's metrics have the same keys, every export row has the same
   * columns: the fixed ones, then the renamed metrics.
   */
  lemma {:induction false} ExportRowKeys(found: seq<Experiment>, fetched: seq<Response>, metricKeys: seq<string>)
    requires forall r :: r in fetched ==> r.metrics.Some? && Keys(r.metrics.value) == metricKeys
    ensures forall row :: row in ExportRows(found, fetched) ==>
      Keys(row) == FixedColumns + MetricColumnNames(metricKeys)
    decreases |found|
  {
    if found != [] {
      var e := found[|found| - 1];
      ExportRowKeys(found[..|found| - 1], fetched, metricKeys);
      var mine := ResponsesOf(fetched, e.id);
      forall row | row in RowsOf(e, mine)
        ensures Keys(row) == FixedColumns + MetricColumnNames(metricKeys)
      {
        var k :| 0 <= k < |mine| && RowsOf(e, mine)[k] == row;
        assert mine[k] in fetched;
      }
    }
  }

  /** Rows that all have the same keys always make a CSV table. */
  lemma CsvOfUniformRows(rows: seq<ExportRow>, keys: seq<string>)
    requires rows != []
    requires forall row :: row in rows ==> Keys(row) == keys
    ensures CsvOf(rows).Success?
    ensures CsvOf(rows).value == Table(keys, CsvOf(rows).value.records)
  {
    forall i | 0 <= i < |rows|
      ensures KeysWithin(rows[i], Keys(rows[0]))
    {
      assert rows[i] in rows && rows[0] in rows;
      forall m | 0 <= m < |rows[i]|
        ensures rows[i][m].0 in Keys(rows[0])
      {
        assert Keys(rows[i])[m] == rows[i][m].0;
      }
    }
  }

  /**
   * With the stored metric keys on every response, an export never fails: the JSON rows are
   * returned as they are, and the CSV rows all have the same columns, so `DictWriter` meets
   * no key outside its header.
   */
  lemma ExportSucceeds(found: seq<Experiment>, rs: seq<Response>, ids: seq<int>, format: string)
    requires forall r :: r in rs ==> HasStoredKeys(r)
    ensures Formatted(ExportRows(found, ResponsesIn(rs, ids)), format).Success?
  {
    var fetched := ResponsesIn(rs, ids);
    var rows := ExportRows(found, fetched);
    ExportRowKeys(found, fetched, MetricNames + [OverallKey]);
    if rows != [] {
      CsvOfUniformRows(rows, FixedColumns + MetricColumnNames(MetricNames + [OverallKey]));
    }
  }

  /**
   * The loop over `responses_data` in `generate_responses`: one row per triple with its
   * metrics, or `None` when some content is `None`, so that the NOT NULL column rejects
   * the flush and the whole transaction.
   */
  method BuildRows(generated: seq<Generated>, experimentId: int, firstId: int, model: string, now: int,
                   score: string -> Dict<real>)
    returns (rows: Option<seq<Response>>)
    ensures rows.None? <==> exists k :: 0 <= k < |generated| && generated[k].content.None?
    ensures rows.Some? ==> rows.value == StoredRows(firstId, experimentId, generated, model, now, score)
  {
    var added: seq<Response> := [];
    for k := 0 to |generated|
      invariant forall m :: 0 <= m < k ==> generated[m].content.Some?
      invariant added == StoredRows(firstId, experimentId, generated[..k], model, now, score)
    {
      match generated[k].content
      case None =>
        // Nothing added so far survives the rollback.
        return None;
      case Some(text) =>
        var metrics := score(text);
        var row := NewResponse(firstId + k, Some(experimentId), Some(generated[k].temperature),
                               Some(generated[k].topP), Some(model), Some(text), None, Some(metrics), now);
        StoredRowsStep(firstId, experimentId, generated, model, now, score, k);
        added := added + [row.value];
    }
    assert generated[..|generated|] == generated;
    rows := Some(added);
  }

  /** The outer loop building `export_data`: experiment by experiment, in the order found. */
  method CollectRows(found: seq<Experiment>, fetched: seq<Response>) returns (rows: seq<ExportRow>)
    ensures rows == ExportRows(found, fetched)
  {
    rows := [];
    for i := 0 to |found|
      invariant rows == ExportRows(found[..i], fetched)
    {
      var mine := ResponsesOf(fetched, found[i].id);
      rows := AppendRows(rows, found[i], mine);
      ExportRowsStep(found, fetched, i);
    }
    assert found[..|found|] == found;
  }

  /** The inner loop: one row appended per response of experiment `e`. */
  method AppendRows(rows: seq<ExportRow>, e: Experiment, mine: seq<Response>) returns (out: seq<ExportRow>)
    ensures out == rows + RowsOf(e, mine)
  {
    out := rows;
    for j := 0 to |mine|
      invariant out == rows + RowsOf(e, mine[..j])
    {
      RowsOfStep(e, mine, j);
      out := out + [ExportRowOf(e, mine[j])];
    }
    assert mine[..|mine|] == mine;
  }

  lemma RowsOfStep(e: Experiment, mine: seq<Response>, j: nat)
    requires j < |mine|
    ensures RowsOf(e, mine[..j + 1]) == RowsOf(e, mine[..j]) + [ExportRowOf(e, mine[j])]
  {
    assert mine[..j + 1][..j] == mine[..j];
  }

  lemma ExportRowsStep(found: seq<Experiment>, fetched: seq<Response>, i: nat)
    requires i < |found|
    ensures ExportRows(found[..i + 1], fetched)
      == ExportRows(found[..i], fetched) + RowsOf(found[i], ResponsesOf(fetched, found[i].id))
  {
    assert found[..i + 1][..i] == found[..i];
  }

  /** The endpoint's answer for the collected rows in the requested format. */
  function Formatted(rows: seq<ExportRow>, format: string): (r: Result<ExportData, HttpError>)
    ensures format == "json" ==> r == Success(Json(rows))
    ensures format != "json" ==> (r.Success? <==> CsvOf(rows).Success?)
    ensures format != "json" && r.Success? ==> r.value == Csv(CsvOf(rows).value)
    ensures format != "json" && r.Failure? ==> r.error == ServerError(ExportFailed)
  {
    if format == "json" then Success(Json(rows))
    else match CsvOf(rows)
      case Success(t) => Success(Csv(t))
      case Failure(err) => Failure(err)
  }

  // ---------------------------------------------------------------------------
  // The database
  // ---------------------------------------------------------------------------

  class Store {
    /** The `experiments` table in rowid order. */
    var experiments: seq<Experiment>
    /** The `responses` table in rowid order. */
    var responses: seq<Response>
    /**
     * What `generate_responses` stores as a response's metrics: `calculate_all_metrics` of
     * the content with `overall_score` added. The constructor fixes it to `ScoredMetrics`;
     * the table operations only rely on the keys it produces.
     */
    const scoreOf: string -> Dict<real>

    /**
     * Rowids increase along each table, every response belongs to a stored experiment (the
     * foreign key), and every stored metrics dict has the six score keys and `overall_score`.
     */
    ghost predicate Valid()
      reads this
    {
      ExperimentIdsIncreasing(experiments)
      && ResponseIdsIncreasing(responses)
      && (forall r :: r in responses ==> HasExperiment(experiments, r.experimentId))
      && (forall r :: r in responses ==> HasStoredKeys(r))
      && KeysAlwaysStored(scoreOf)
    }

    /** A freshly initialised database has two empty tables. */
    constructor ()
      ensures Valid()
      ensures experiments == [] && responses == []
      ensures scoreOf == ScoredMetrics
    {
      experiments := [];
      responses := [];
      scoreOf := ScoredMetrics;
      ScoredMetricsKeysStored();
    }

    /**
     * `POST /api/generate`. `replies[k]` is what the provider returns for grid entry `k`.
     * If any generation has no content the NOT NULL constraint fails at commit, the
     * session rolls back, and the endpoint answers 500 with both tables unchanged.
     * Otherwise the experiment gets the next rowid, and grid entry `k` becomes the response
     * with the next rowid plus `k`, its text and its metrics; the answer converts exactly
     * those rows.
     */
    method Generate(request: GenerateRequest, service: Service, replies: seq<Reply>, now: int)
      returns (r: Result<ExperimentResponse, HttpError>)
      requires Valid()
      requires |replies| == |request.temperatureRange| * |request.topPRange|
      modifies this
      ensures Valid()
      ensures r.Success? <==> AllAnswered(service, request.model, replies)
      ensures r.Failure? ==>
        r.error == ServerError(GenerateFailed) && experiments == old(experiments) && responses == old(responses)
      ensures r.Success? ==>
        var expId := NextExperimentId(old(experiments));
        var added := AddedRows(service, request, replies, NextResponseId(old(responses)), expId, now, scoreOf);
        experiments == old(experiments) + [Experiment(expId, request.prompt, now)]
        && responses == old(responses) + added
        && r.value.id == expId && r.value.prompt == request.prompt && r.value.createdAt == now
        && Some(r.value.responses) == AllData(added)
    {
      var expId := NextExperimentId(experiments);
      var experiment := NewExperiment(expId, Some(request.prompt), None, now).value;
      var firstId := NextResponseId(responses);
      var generated := GenerateMultipleResponses(service, request.model, request.temperatureRange,
                                                 request.topPRange, replies);
      var built := BuildRows(generated, expId, firstId, request.model, now, scoreOf);
      if built.None? {
        ghost var m :| 0 <= m < |generated| && generated[m].content.None?;
        assert GenerateResponse(service, request.model, replies[m]).NoContent?;
        r := Failure(ServerError(GenerateFailed));
        return;
      }
      var response := Insert(request, service, replies, now, experiment, generated, built.value);
      r := Success(response);
    }

    /**
     * The successful end of `generate_responses`: the rows built from the paired results
     * are the rows `AddedRows` describes; they are committed with the experiment and
     * converted for the answer.
     */
    method Insert(request: GenerateRequest, service: Service, replies: seq<Reply>, now: int,
                  experiment: Experiment, generated: seq<Generated>, rows: seq<Response>)
      returns (response: ExperimentResponse)
      requires Valid()
      requires |replies| == |request.temperatureRange| * |request.topPRange|
      requires experiment == Experiment(NextExperimentId(experiments), request.prompt, now)
      requires |generated| == |Grid(request.temperatureRange, request.topPRange)| == |replies|
      requires forall k :: 0 <= k < |generated| ==>
        (generated[k].temperature, generated[k].topP) == Grid(request.temperatureRange, request.topPRange)[k]
        && generated[k].content == ResultText(GenerateResponse(service, request.model, replies[k]))
      requires forall k :: 0 <= k < |generated| ==> generated[k].content.Some?
      requires rows == StoredRows(NextResponseId(responses), experiment.id, generated, request.model, now, scoreOf)
      modifies this
      ensures Valid()
      ensures AllAnswered(service, request.model, replies)
      ensures var added := AddedRows(service, request, replies, NextResponseId(old(responses)), experiment.id, now, scoreOf);
        experiments == old(experiments) + [experiment]
        && responses == old(responses) + added
        && AllData(added) == Some(response.responses)
        && response.id == experiment.id && response.prompt == request.prompt && response.createdAt == now
    {
      var firstId := NextResponseId(responses);
      StoredRowsAdded(service, request, replies, generated, firstId, experiment.id, now, scoreOf);
      AddedRowsIds(service, request, replies, firstId, experiment.id, now, scoreOf);
      StoredRowsKeys(firstId, experiment.id, generated, request.model, now, scoreOf);
      StoredRowsConvert(rows);
      Commit(experiment, rows);
      response := ExperimentResponse(experiment.id, experiment.prompt, experiment.createdAt, AllData(rows).value);
    }

    /**
     * `db.commit()` of a new experiment and its responses: rowids continue from the largest
     * in use, and every new response belongs to the new experiment and has the stored keys.
     */
    method Commit(experiment: Experiment, rows: seq<Response>)
      requires Valid()
      requires experiment.id == NextExperimentId(experiments)
      requires forall k :: 0 <= k < |rows| ==>
        rows[k].id == NextResponseId(responses) + k && rows[k].experimentId == experiment.id
      requires forall x :: x in rows ==> HasStoredKeys(x)
      modifies this
      ensures Valid()
      ensures experiments == old(experiments) + [experiment] && responses == old(responses) + rows
    {
      AppendExperimentIncreasing(experiments, experiment);
      AppendResponsesIncreasing(responses, rows);
      ghost var before := experiments;
      experiments := experiments + [experiment];
      responses := responses + rows;
      forall x | x in responses
        ensures HasExperiment(experiments, x.experimentId)
      {
        if x in rows {
          var k :| 0 <= k < |rows| && rows[k] == x;
          assert experiment in experiments;
        } else {
          var e :| e in before && e.id == x.experimentId;
          assert e in experiments;
        }
      }
    }

    /**
     * `GET /api/experiments/{id}`: 404 for an unknown id; otherwise the experiment with
     * exactly its responses, ordered by (temperature, top_p).
     */
    method Get(id: int) returns (r: Result<ExperimentResponse, HttpError>)
      requires Valid()
      ensures r.Failure? <==> !HasExperiment(experiments, id)
      ensures r.Failure? ==> r.error == NotFound(ExperimentNotFound)
      ensures r.Success? ==> (r.value.id == id
        && exists i :: 0 <= i < |experiments| && experiments[i] == Experiment(id, r.value.prompt, r.value.createdAt))
      ensures r.Success? ==> Some(r.value.responses) == AllData(Sort(ResponsesOf(responses, id), ByParams))
      ensures r.Success? ==> |r.value.responses| == |ResponsesOf(responses, id)|
      ensures r.Success? ==> DataByParams(r.value.responses)
    {
      var k := FindExperiment(experiments, id);
      if k.None? {
        return Failure(NotFound(ExperimentNotFound));
      }
      var rows := Sort(ResponsesOf(responses, id), ByParams);
      OrderedResponses(responses, id);
      var e := experiments[k.value];
      r := Success(ExperimentResponse(e.id, e.prompt, e.createdAt, AllData(rows).value));
    }

    /**
     * `GET /api/experiments?skip=&limit=`: every experiment with its response count, newest
     * first, then the page `skip`/`limit` selects. Without query parameters the first 100.
     */
    method List(skip: int := 0, limit: int := 100) returns (items: seq<ExperimentListItem>)
      requires Valid()
      ensures items == Page(Sort(Items(experiments, responses), NewerFirst), skip, limit)
      ensures 0 <= limit ==> |items| <= limit
      ensures Sorted(items, NewerFirst)
      ensures forall it :: it in items ==> exists e :: e in experiments && it == Item(e, responses)
      ensures skip <= 0 && (limit < 0 || |experiments| <= limit) ==>
        multiset(items) == multiset(Items(experiments, responses))
    {
      items := Page(Sort(Items(experiments, responses), NewerFirst), skip, limit);
      ListedItems(experiments, responses, skip, limit);
    }

    /**
     * `DELETE /api/experiments/{id}`: 404 for an unknown id; otherwise the experiment and,
     * by the cascade, its responses go, and nothing else changes.
     */
    method Delete(id: int) returns (r: Result<string, HttpError>)
      requires Valid()
      modifies this
      ensures Valid()
      ensures r.Failure? <==> !HasExperiment(old(experiments), id)
      ensures r.Failure? ==> (r.error == NotFound(ExperimentNotFound)
        && experiments == old(experiments) && responses == old(responses))
      ensures r.Success? ==> (r.value == Deleted
        && experiments == RemoveExperiment(old(experiments), id)
        && responses == Cascade(old(responses), id))
    {
      if !HasExperiment(experiments, id) {
        return Failure(NotFound(ExperimentNotFound));
      }
      RemoveIncreasing(experiments, id);
      CascadeIncreasing(responses, id);
      experiments := RemoveExperiment(experiments, id);
      responses := Cascade(responses, id);
      forall x | x in responses
        ensures HasExperiment(experiments, x.experimentId)
      {
        var e :| e in old(experiments) && e.id == x.experimentId;
        assert e in experiments;
      }
      r := Success(Deleted);
    }

    /**
     * `POST /api/export`: 404 when none of the ids exists; otherwise one row per response
     * of each experiment found, returned as the rows or as a CSV table.
     */
    method Export(request: ExportRequest) returns (r: Result<ExportData, HttpError>)
      requires Valid()
      ensures var found := ExperimentsIn(experiments, request.experimentIds);
        (r == Failure(NotFound(NoExperimentsFound)) <==> found == [])
        && (found != [] ==>
              r == Formatted(ExportRows(found, ResponsesIn(responses, request.experimentIds)), request.format))
      ensures r.Success? <==> ExperimentsIn(experiments, request.experimentIds) != []
    {
      var found := ExperimentsIn(experiments, request.experimentIds);
      if found == [] {
        return Failure(NotFound(NoExperimentsFound));
      }
      var fetched := ResponsesIn(responses, request.experimentIds);
      var rows := CollectRows(found, fetched);
      ExportSucceeds(found, responses, request.experimentIds, request.format);
      r := Formatted(rows, request.format);
    }
  }

  /**
   * `select(Experiment).where(Experiment.id == experiment_id)` with `scalar_one_or_none()`:
   * the position of the experiment with that id. Rowids are unique, so the first match is
   * the only one.
   */
  method FindExperiment(es: seq<Experiment>, id: int) returns (k: Option<nat>)
    ensures k.None? <==> !HasExperiment(es, id)
    ensures k.Some? ==> k.value < |es| && es[k.value].id == id
    ensures k.Some? ==> forall m :: 0 <= m < k.value ==> es[m].id != id
  {
    var i := 0;
    while i < |es|
      invariant 0 <= i <= |es|
      invariant forall m :: 0 <= m < i ==> es[m].id != id
    {
      if es[i].id == id {
        return Some(i);
      }
      i := i + 1;
    }
    k := None;
  }

  /** Consecutive answers are in `ORDER BY temperature, top_p` order. */
  predicate DataByParams(data: seq<ResponseData>) {
    forall i, j :: 0 <= i < j < |data| ==>
      data[i].temperature < data[j].temperature
      || (data[i].temperature == data[j].temperature && data[i].topP <= data[j].topP)
  }

  /**
   * An experiment's responses, sorted: the same rows, in (temperature, top_p) order, and
   * with stored metrics they always convert, keeping that order.
   */
  lemma OrderedResponses(responses: seq<Response>, id: int)
    requires forall r :: r in responses ==> HasStoredKeys(r)
    ensures var rows := Sort(ResponsesOf(responses, id), ByParams);
      multiset(rows) == multiset(ResponsesOf(responses, id))
      && Sorted(rows, ByParams)
      && AllData(rows).Some? && DataByParams(AllData(rows).value)
  {
    var rows := Sort(ResponsesOf(responses, id), ByParams);
    ByParamsPreorder();
    SortSorted(ResponsesOf(responses, id), ByParams);
    forall x | x in rows
      ensures HasStoredKeys(x)
    {
      assert x in multiset(rows);
    }
    StoredRowsConvert(rows);
    var data := AllData(rows).value;
    forall i, j | 0 <= i < j < |data|
      ensures data[i].temperature < data[j].temperature
        || (data[i].temperature == data[j].temperature && data[i].topP <= data[j].topP)
    {
      assert ByParams(rows[i], rows[j]);
      assert AsData(rows[i]) == Some(data[i]) && AsData(rows[j]) == Some(data[j]);
    }
  }

  /**
   * The listed page is in newest-first order, holds only stored experiments with their
   * response counts, and with no offset and no binding limit lists every experiment.
   */
  lemma ListedItems(es: seq<Experiment>, responses: seq<Response>, skip: int, limit: int)
    ensures var items := Page(Sort(Items(es, responses), NewerFirst), skip, limit);
      Sorted(items, NewerFirst)
      && (forall it :: it in items ==> exists e :: e in es && it == Item(e, responses))
      && (skip <= 0 && (limit < 0 || |es| <= limit) ==> multiset(items) == multiset(Items(es, responses)))
  {
    var all := Items(es, responses);
    var sorted := Sort(all, NewerFirst);
    NewerFirstPreorder();
    SortSorted(all, NewerFirst);
    var items := Page(sorted, skip, limit);
    var off := PageSlice(sorted, skip, limit);
    SortedSlice(sorted, NewerFirst, off, off + |items|);
    forall it | it in items
      ensures exists e :: e in es && it == Item(e, responses)
    {
      assert it in multiset(all);
      var i :| 0 <= i < |all| && all[i] == it;
      assert es[i] in es;
    }
    if skip <= 0 && (limit < 0 || |es| <= limit) {
      assert items == sorted;
    }
  }

  /** A new experiment with the next rowid keeps the rowids increasing. */
  lemma AppendExperimentIncreasing(es: seq<Experiment>, e: Experiment)
    requires ExperimentIdsIncreasing(es) && e.id == NextExperimentId(es)
    ensures ExperimentIdsIncreasing(es + [e])
  {
    forall i, j | 0 <= i < j < |es + [e]|
      ensures (es + [e])[i].id < (es + [e])[j].id
    {
      assert es[i] in es;
    }
  }

  /** Rows numbered on from the next rowid keep the rowids increasing. */
  lemma AppendResponsesIncreasing(rs: seq<Response>, rows: seq<Response>)
    requires ResponseIdsIncreasing(rs)
    requires forall k :: 0 <= k < |rows| ==> rows[k].id == NextResponseId(rs) + k
    ensures ResponseIdsIncreasing(rs + rows)
  {
    var all := rs + rows;
    forall i, j | 0 <= i < j < |all|
      ensures all[i].id < all[j].id
    {
      if j < |rs| {
        assert all[i] == rs[i] && all[j] == rs[j];
      } else if i < |rs| {
        assert rs[i] in rs;
        assert all[j] == rows[j - |rs|];
      } else {
        assert all[i] == rows[i - |rs|] && all[j] == rows[j - |rs|];
      }
    }
  }

  /** `session.delete(experiment)`: the experiment rows other than `id`, in table order. */
  function RemoveExperiment(es: seq<Experiment>, id: int): (rest: seq<Experiment>)
    ensures forall e :: e in rest <==> e in es && e.id != id
  {
    if es == [] then []
    else (if es[0].id != id then [es[0]] else []) + RemoveExperiment(es[1..], id)
  }

  lemma {:induction false} RemoveIncreasing(es: seq<Experiment>, id: int)
    requires ExperimentIdsIncreasing(es)
    ensures ExperimentIdsIncreasing(RemoveExperiment(es, id))
  {
    if es != [] {
      RemoveIncreasing(es[1..], id);
      var rest := RemoveExperiment(es[1..], id);
      forall k | 0 <= k < |rest|
        ensures es[0].id < rest[k].id
      {
        assert rest[k] in rest;
        var j :| 0 <= j < |es[1..]| && es[1..][j] == rest[k];
        assert es[j + 1] == rest[k];
      }
    }
  }

  lemma {:induction false} CascadeIncreasing(rs: seq<Response>, id: int)
    requires ResponseIdsIncreasing(rs)
    ensures ResponseIdsIncreasing(Cascade(rs, id))
  {
    if rs != [] {
      CascadeIncreasing(rs[1..], id);
      var rest := Cascade(rs[1..], id);
      forall k | 0 <= k < |rest|
        ensures rs[0].id < rest[k].id
      {
        assert rest[k] in rest;
        var j :| 0 <= j < |rs[1..]| && rs[1..][j] == rest[k];
        assert rs[j + 1] == rest[k];
      }
    }
  }

  /**
   * After a delete the experiment is gone: fetching it fails and no page of the list
   * shows it, whatever the offset and limit.
   */
  lemma DeletedNotListed(es: seq<Experiment>, responses: seq<Response>, id: int, skip: int, limit: int)
    ensures !HasExperiment(RemoveExperiment(es, id), id)
    ensures var rest := RemoveExperiment(es, id);
      forall it :: it in Page(Sort(Items(rest, Cascade(responses, id)), NewerFirst), skip, limit) ==> it.id != id
  {
    var rest := RemoveExperiment(es, id);
    ListedItems(rest, Cascade(responses, id), skip, limit);
  }
}
