/**
 * The two database tables, `experiments` and `responses`: their row shapes, which columns
 * may be NULL, the column defaults, and the cascade that deletes an experiment's responses
 * with it. Timestamps are integers supplied by the caller.
 */
module Models {
  import opened Wrappers
  import opened Dicts

  /** A row of `experiments`. */
  datatype Experiment = Experiment(id: int, prompt: string, createdAt: int)

  /** A row of `responses`; `metrics` is the JSON column, which may be NULL. */
  datatype Response = Response(
    id: int, experimentId: int, temperature: real, topP: real, model: string,
    content: string, createdAt: int, metrics: Option<Dict<real>>)

  /** The `model` column's default. */
  const DefaultModel: string := "gpt-3.5-turbo"

  /**
   * Flushing a new `Experiment`: the prompt is NOT NULL, `created_at` defaults to the time
   * of the insert. `None` stands for the integrity error the insert raises.
   */
  function NewExperiment(id: int, prompt: Option<string>, createdAt: Option<int>, now: int): (r: Option<Experiment>)
    ensures r.Some? <==> prompt.Some?
    ensures r.Some? ==> r.value.id == id && r.value.prompt == prompt.value
    ensures r.Some? && createdAt.None? ==> r.value.createdAt == now
    ensures r.Some? && createdAt.Some? ==> r.value.createdAt == createdAt.value
  {
    if prompt.None? then None else Some(Experiment(id, prompt.value, createdAt.GetOr(now)))
  }

  /**
   * Flushing a new `Response`: experiment id, temperature, top_p and content are NOT NULL;
   * model and created_at take their defaults when not given; metrics may stay NULL.
   */
  function NewResponse(id: int, experimentId: Option<int>, temperature: Option<real>, topP: Option<real>,
                       model: Option<string>, content: Option<string>, createdAt: Option<int>,
                       metrics: Option<Dict<real>>, now: int): (r: Option<Response>)
    ensures r.Some? <==> experimentId.Some? && temperature.Some? && topP.Some? && content.Some?
    ensures r.Some? ==> (r.value.id == id && r.value.experimentId == experimentId.value
      && r.value.temperature == temperature.value && r.value.topP == topP.value
      && r.value.content == content.value && r.value.metrics == metrics)
    ensures r.Some? ==> r.value.model == (if model.Some? then model.value else DefaultModel)
    ensures r.Some? ==> r.value.createdAt == (if createdAt.Some? then createdAt.value else now)
  {
    if experimentId.None? || temperature.None? || topP.None? || content.None? then None
    else Some(Response(id, experimentId.value, temperature.value, topP.value, model.GetOr(DefaultModel),
                       content.value, createdAt.GetOr(now), metrics))
  }

  /** The responses that belong to one experiment, in table order. */
  function ResponsesOf(responses: seq<Response>, experimentId: int): (mine: seq<Response>)
    ensures |mine| <= |responses|
    ensures forall r :: r in mine <==> r in responses && r.experimentId == experimentId
  {
    if responses == [] then [] else
      (if responses[0].experimentId == experimentId then [responses[0]] else [])
      + ResponsesOf(responses[1..], experimentId)
  }

  /** The responses that survive deleting experiment `experimentId` with its cascade. */
  function Cascade(responses: seq<Response>, experimentId: int): (rest: seq<Response>)
    ensures |rest| <= |responses|
    ensures forall r :: r in rest <==> r in responses && r.experimentId != experimentId
  {
    if responses == [] then [] else
      (if responses[0].experimentId != experimentId then [responses[0]] else [])
      + Cascade(responses[1..], experimentId)
  }

  /**
   * The cascade and the experiment's own responses split the table: each response lands
   * on exactly one side, none is lost and none is duplicated.
   */
  lemma {:induction false} CascadePartition(responses: seq<Response>, experimentId: int)
    ensures multiset(Cascade(responses, experimentId)) + multiset(ResponsesOf(responses, experimentId))
      == multiset(responses)
    ensures |Cascade(responses, experimentId)| + |ResponsesOf(responses, experimentId)| == |responses|
  {
    if responses != [] {
      CascadePartition(responses[1..], experimentId);
      assert responses == [responses[0]] + responses[1..];
    }
  }

  /** When no response references the experiment, the cascade removes nothing. */
  lemma {:induction false} CascadeOfUnreferenced(responses: seq<Response>, experimentId: int)
    requires forall i :: 0 <= i < |responses| ==> responses[i].experimentId != experimentId
    ensures Cascade(responses, experimentId) == responses
  {
    if responses != [] {
      CascadeOfUnreferenced(responses[1..], experimentId);
    }
  }
}
