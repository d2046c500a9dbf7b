/**
 * `LLMService`: the temperature x top_p grid, provider routing by model-name prefix, and
 * the pairing of each generation outcome with its parameters. The provider SDK calls are
 * not modelled: what each call would return is an input (`Reply`), one per grid entry.
 */
module LlmService {
  import opened Wrappers
  import opened Text

  /**
   * The clients `LLMService.__init__` sets up. `openaiClient` is set exactly when the
   * key is present and non-empty. `anthropicClient` is `None` when the attribute was never
   * assigned (as in the constructor, where the assignment is commented out), else whether
   * a client object is held.
   */
  datatype Service = Service(openaiClient: bool, anthropicClient: Option<bool>)

  /** `LLMService()` given the value of the `OPENAI_API_KEY` environment variable. */
  function NewService(openaiKey: Option<string>): (s: Service)
    ensures s.openaiClient <==> openaiKey.Some? && openaiKey.value != []
    ensures s.anthropicClient.None?
  {
    Service(openaiKey.Some? && openaiKey.value != [], None)
  }

  /** What one SDK request returns: the message text, or the error the SDK raised. */
  datatype Reply = Replied(text: string) | ApiError(detail: string)

  /** What one `generate_response` task ends with under `gather(..., return_exceptions=True)`. */
  datatype Outcome = Content(text: string) | NoContent | Raised(message: string)

  const OpenAiNotConfigured: string := "OpenAI API key not configured"
  const AnthropicNotConfigured: string := "Anthropic API key not configured"
  const MissingAnthropicAttribute: string := "'LLMService' object has no attribute 'anthropic_client'"

  /** `generate_response_openai`: no client is an error; SDK errors are re-raised with a prefix. */
  function OpenAiResponse(s: Service, reply: Reply): (o: Outcome)
    ensures !s.openaiClient ==> o == Raised(OpenAiNotConfigured)
    ensures s.openaiClient && reply.Replied? ==> o == Content(reply.text)
    ensures s.openaiClient && reply.ApiError? ==> o == Raised("OpenAI API error: " + reply.detail)
  {
    if !s.openaiClient then Raised(OpenAiNotConfigured)
    else match reply
      case Replied(t) => Content(t)
      case ApiError(d) => Raised("OpenAI API error: " + d)
  }

  /** `generate_response_anthropic`, reading an attribute that may be missing. */
  function AnthropicResponse(s: Service, reply: Reply): (o: Outcome)
    ensures s.anthropicClient.None? ==> o == Raised(MissingAnthropicAttribute)
    ensures s.anthropicClient == Some(false) ==> o == Raised(AnthropicNotConfigured)
    ensures s.anthropicClient == Some(true) && reply.Replied? ==> o == Content(reply.text)
    ensures s.anthropicClient == Some(true) && reply.ApiError? ==> o == Raised("Anthropic API error: " + reply.detail)
  {
    match s.anthropicClient
    case None => Raised(MissingAnthropicAttribute)
    case Some(false) => Raised(AnthropicNotConfigured)
    case Some(true) =>
      match reply
      case Replied(t) => Content(t)
      case ApiError(d) => Raised("Anthropic API error: " + d)
  }

  datatype Provider = OpenAi | Anthropic | NoProvider

  /** The provider `generate_response` hands the request to; `NoProvider` falls off the end. */
  function Route(s: Service, model: string): (p: Provider)
    ensures p == OpenAi <==> StartsWith(model, "gpt") && s.openaiClient
    ensures p == Anthropic <==> !StartsWith(model, "gpt") && StartsWith(model, "claude") && s.anthropicClient != Some(false)
  {
    if StartsWith(model, "gpt") then
      if s.openaiClient then OpenAi else NoProvider
    else if StartsWith(model, "claude") then
      // Reading the never-assigned attribute raises inside the provider call's test.
      if s.anthropicClient != Some(false) then Anthropic else NoProvider
    else NoProvider
  }

  /** `generate_response`: route by prefix; with no provider the coroutine returns `None`. */
  function GenerateResponse(s: Service, model: string, reply: Reply): Outcome {
    match Route(s, model)
    case OpenAi => OpenAiResponse(s, reply)
    case Anthropic => AnthropicResponse(s, reply)
    case NoProvider => NoContent
  }

  /**
   * What the routing yields, case by case: a configured "gpt" model returns the SDK text
   * or an "OpenAI API error", a "claude" model on a service built by `NewService` always
   * raises the missing-attribute error, and every other model gives no content.
   */
  lemma GenerateResponseCases(s: Service, model: string, reply: Reply)
    ensures GenerateResponse(s, model, reply).Content? ==>
      reply.Replied? && GenerateResponse(s, model, reply).text == reply.text
    ensures StartsWith(model, "gpt") && s.openaiClient && reply.Replied? ==>
      GenerateResponse(s, model, reply) == Content(reply.text)
    ensures StartsWith(model, "gpt") && s.openaiClient && reply.ApiError? ==>
      GenerateResponse(s, model, reply) == Raised("OpenAI API error: " + reply.detail)
    ensures StartsWith(model, "gpt") && !s.openaiClient ==> GenerateResponse(s, model, reply) == NoContent
    ensures !StartsWith(model, "gpt") && StartsWith(model, "claude") && s.anthropicClient.None? ==>
      GenerateResponse(s, model, reply) == Raised(MissingAnthropicAttribute)
    ensures !StartsWith(model, "gpt") && !StartsWith(model, "claude") ==> GenerateResponse(s, model, reply) == NoContent
  {
  }

  // ---------------------------------------------------------------------------
  // Parameter grid and pairing
  // ---------------------------------------------------------------------------

  /** The pairs `(t, p)` for one temperature, in `top_p_range` order. */
  function Row(t: real, tops: seq<real>): (row: seq<(real, real)>)
    ensures |row| == |tops|
    ensures forall j :: 0 <= j < |tops| ==> row[j] == (t, tops[j])
  {
    if tops == [] then [] else Row(t, tops[..|tops| - 1]) + [(t, tops[|tops| - 1])]
  }

  /** `param_combinations`: temperatures in the outer loop, top_p values in the inner one. */
  function Grid(temps: seq<real>, tops: seq<real>): (g: seq<(real, real)>)
  {
    if temps == [] then [] else Grid(temps[..|temps| - 1], tops) + Row(temps[|temps| - 1], tops)
  }

  lemma MulStep(n: nat, m: nat)
    ensures (n + 1) * m == n * m + m
  {
  }

  lemma LessMul(a: nat, b: nat, m: nat)
    requires a <= b
    ensures a * m <= b * m
  {
  }

  /** The grid has one entry per parameter pair. */
  lemma {:induction false} GridLength(temps: seq<real>, tops: seq<real>)
    ensures |Grid(temps, tops)| == |temps| * |tops|
    decreases |temps|
  {
    if temps != [] {
      GridLength(temps[..|temps| - 1], tops);
      MulStep(|temps| - 1, |tops|);
    }
  }

  /** Entry `i * |tops| + j` of the grid is `(temps[i], tops[j])`: temperature outer, top_p inner. */
  lemma {:induction false} GridAt(temps: seq<real>, tops: seq<real>, i: nat, j: nat)
    requires i < |temps| && j < |tops|
    ensures |Grid(temps, tops)| == |temps| * |tops|
    ensures i * |tops| + j < |Grid(temps, tops)|
    ensures Grid(temps, tops)[i * |tops| + j] == (temps[i], tops[j])
    decreases |temps|
  {
    var n := |temps| - 1;
    var init := temps[..n];
    var m := |tops|;
    GridLength(temps, tops);
    GridLength(init, tops);
    MulStep(i, m);
    LessMul(i + 1, n + 1, m);
    MulStep(n, m);
    if i < n {
      GridAt(init, tops, i, j);
      LessMul(i + 1, n, m);
      assert init[i] == temps[i];
      assert Grid(temps, tops)[i * m + j] == Grid(init, tops)[i * m + j];
    } else {
      assert i * m + j == |Grid(init, tops)| + j;
    }
  }

  /** The text a result carries: a failure becomes "Error: <message>"; nothing is dropped. */
  function ResultText(o: Outcome): (r: Option<string>)
    ensures r.None? <==> o.NoContent?
    ensures o.Content? ==> r == Some(o.text)
    ensures o.Raised? ==> r == Some("Error: " + o.message)
  {
    match o
    case Content(t) => Some(t)
    case NoContent => None
    case Raised(m) => Some("Error: " + m)
  }

  /** One `(temp, top_p, content)` triple; `content` is `None` where the coroutine returned `None`. */
  datatype Generated = Generated(temperature: real, topP: real, content: Option<string>)

  /**
   * `generate_multiple_responses`: build the grid and the tasks with nested loops, then
   * pair each outcome with its parameters. `replies[k]` is what the SDK returns for grid
   * entry `k`.
   */
  method GenerateMultipleResponses(s: Service, model: string, temps: seq<real>, tops: seq<real>, replies: seq<Reply>)
    returns (results: seq<Generated>)
    requires |replies| == |temps| * |tops|
    ensures |results| == |Grid(temps, tops)| == |temps| * |tops|
    ensures forall k :: 0 <= k < |results| ==>
      (results[k].temperature, results[k].topP) == Grid(temps, tops)[k]
      && results[k].content == ResultText(GenerateResponse(s, model, replies[k]))
  {
    var params, outcomes := RunGrid(s, model, temps, tops, replies);
    results := PairOutcomes(params, outcomes);
  }

  /** The nested loops: one parameter pair and one task per grid entry, in grid order. */
  method RunGrid(s: Service, model: string, temps: seq<real>, tops: seq<real>, replies: seq<Reply>)
    returns (params: seq<(real, real)>, outcomes: seq<Outcome>)
    requires |replies| == |temps| * |tops|
    ensures params == Grid(temps, tops) && |params| == |temps| * |tops|
    ensures |outcomes| == |params|
    ensures forall k :: 0 <= k < |outcomes| ==> outcomes[k] == GenerateResponse(s, model, replies[k])
  {
    params := [];
    outcomes := [];
    for i := 0 to |temps|
      invariant params == Grid(temps[..i], tops)
      invariant |params| == i * |tops|
      invariant |outcomes| == |params|
      invariant forall k :: 0 <= k < |outcomes| ==> outcomes[k] == GenerateResponse(s, model, replies[k])
    {
      MulStep(i, |tops|);
      LessMul(i + 1, |temps|, |tops|);
      params, outcomes := RunRow(s, model, temps[i], tops, replies, params, outcomes);
      assert temps[..i + 1][..i] == temps[..i];
    }
    assert temps[..|temps|] == temps;
  }

  /**
   * The inner loop for one temperature: appends one pair and one task per top_p value to
   * what the outer loop has built so far.
   */
  method RunRow(s: Service, model: string, t: real, tops: seq<real>, replies: seq<Reply>,
                params0: seq<(real, real)>, outcomes0: seq<Outcome>)
    returns (params: seq<(real, real)>, outcomes: seq<Outcome>)
    requires |outcomes0| == |params0| && |params0| + |tops| <= |replies|
    requires forall k :: 0 <= k < |outcomes0| ==> outcomes0[k] == GenerateResponse(s, model, replies[k])
    ensures params == params0 + Row(t, tops)
    ensures |outcomes| == |params| == |params0| + |tops|
    ensures forall k :: 0 <= k < |outcomes| ==> outcomes[k] == GenerateResponse(s, model, replies[k])
  {
    params, outcomes := params0, outcomes0;
    for j := 0 to |tops|
      invariant params == params0 + Row(t, tops[..j])
      invariant |outcomes| == |params| == |params0| + j
      invariant forall k :: 0 <= k < |outcomes| ==> outcomes[k] == GenerateResponse(s, model, replies[k])
    {
      assert tops[..j + 1][..j] == tops[..j];
      params := params + [(t, tops[j])];
      outcomes := outcomes + [GenerateResponse(s, model, replies[|outcomes|])];
    }
    assert tops[..|tops|] == tops;
  }

  /** `zip(param_combinations, responses)`: each outcome's text with its parameters. */
  method PairOutcomes(params: seq<(real, real)>, outcomes: seq<Outcome>) returns (results: seq<Generated>)
    requires |outcomes| == |params|
    ensures |results| == |params|
    ensures forall k :: 0 <= k < |results| ==>
      results[k] == Generated(params[k].0, params[k].1, ResultText(outcomes[k]))
  {
    results := [];
    for k := 0 to |outcomes|
      invariant |results| == k
      invariant forall m :: 0 <= m < k ==>
        results[m] == Generated(params[m].0, params[m].1, ResultText(outcomes[m]))
    {
      var (t, p) := params[k];
      results := results + [Generated(t, p, ResultText(outcomes[k]))];
    }
  }
}
