/**
 * The structured-output wrapper around the agent SDK's query: merge a
 * JSON-schema output directive into the caller's options, run the query, and
 * validate the structured payload of the result message against the schema.
 */
module Structured {
  import opened Common
  import opened Messages

  /** The `output_format` directive: `{"type": kind, "schema": schema}`. */
  datatype OutputFormat = OutputFormat(kind: string, schema: Json)

  /**
   * The agent options, as far as this wrapper is concerned: a few named
   * settings passed through untouched, the remaining ones by name in
   * `otherSettings`, and the output directive it overwrites.
   */
  datatype AgentOptions = AgentOptions(
    permissionMode: Option<string>,
    settingSources: Option<seq<string>>,
    maxThinkingTokens: Option<int>,
    otherSettings: map<string, Json>,
    outputFormat: Option<OutputFormat>)

  /** The options a default-constructed `ClaudeAgentOptions()` carries. */
  const DefaultOptions := AgentOptions(None, None, None, map[], None)

  /**
   * A schema class: the JSON schema it reports and its validation of a payload
   * (either the record or the validation error's detail). Both are supplied
   * by the schema library and are not modelled further.
   */
  datatype Schema<T> = Schema(jsonSchema: Json, validate: Json -> Result<T, string>)

  /** The directive asking the agent for a JSON object conforming to `schema`. */
  function SchemaDirective<T>(schema: Schema<T>): OutputFormat {
    OutputFormat("json_schema", schema.jsonSchema)
  }

  /**
   * `_merge_options`: the caller's options (defaults when there are none) with
   * only the output directive replaced by the schema's. Options are values, so
   * the caller's own options are left as they were.
   */
  function MergeOptions<T>(options: Option<AgentOptions>, schema: Schema<T>): (r: AgentOptions)
    ensures r.outputFormat == Some(OutputFormat("json_schema", schema.jsonSchema))
    ensures options.None? ==> r.(outputFormat := None) == DefaultOptions
    ensures options.Some? ==> r.(outputFormat := options.value.outputFormat) == options.value
  {
    match options
    case None => DefaultOptions.(outputFormat := Some(SchemaDirective(schema)))
    case Some(o) => o.(outputFormat := Some(SchemaDirective(schema)))
  }

  /** Merging again with another schema keeps only the last directive; with the same one it changes nothing. */
  lemma MergeOverwrites<T>(options: Option<AgentOptions>, first: Schema<T>, second: Schema<T>)
    ensures MergeOptions(Some(MergeOptions(options, first)), second) == MergeOptions(options, second)
  {
  }

  /** The message carries a structured payload the wrapper picks up: a result with a truthy `structured_output`. */
  predicate Carries(m: Message) {
    m.ResultMessage? && Truthy(m.structuredOutput)
  }

  /** The payload of the last message of `ms` that carries one. */
  function LastStructuredOutput(ms: seq<Message>): Option<Json>
    decreases |ms|
  {
    if ms == [] then None
    else if Carries(ms[|ms| - 1]) then Some(ms[|ms| - 1].structuredOutput)
    else LastStructuredOutput(ms[..|ms| - 1])
  }

  /** `i` is the index of the last carrying message of `ms`. */
  ghost predicate IsLastCarrier(ms: seq<Message>, i: int) {
    0 <= i < |ms| && Carries(ms[i]) && forall j :: i < j < |ms| ==> !Carries(ms[j])
  }

  /** Nothing is selected iff no message carries a payload; otherwise the last carrier's payload wins. */
  lemma {:induction false} LastStructuredOutputSpec(ms: seq<Message>)
    ensures LastStructuredOutput(ms).None? <==> forall m :: m in ms ==> !Carries(m)
    ensures LastStructuredOutput(ms).Some? ==>
      exists i :: IsLastCarrier(ms, i) && ms[i].structuredOutput == LastStructuredOutput(ms).value
    decreases |ms|
  {
    if ms != [] {
      var k := |ms| - 1;
      var init := ms[..k];
      assert ms == init + [ms[k]];
      if Carries(ms[k]) {
        assert IsLastCarrier(ms, k);
      } else {
        LastStructuredOutputSpec(init);
        if LastStructuredOutput(init).Some? {
          var i :| IsLastCarrier(init, i) && init[i].structuredOutput == LastStructuredOutput(init).value;
          assert IsLastCarrier(ms, i);
        }
      }
    }
  }

  /** Inserting a message that carries no payload anywhere in the stream does not change the selection. */
  lemma {:induction false} NonCarrierIgnored(before: seq<Message>, m: Message, after: seq<Message>)
    requires !Carries(m)
    ensures LastStructuredOutput(before + [m] + after) == LastStructuredOutput(before + after)
    decreases |after|
  {
    if after == [] {
      assert (before + [m] + after)[..|before|] == before;
      assert before + after == before;
    } else {
      var k := |after| - 1;
      NonCarrierIgnored(before, m, after[..k]);
      assert (before + [m] + after)[..|before| + 1 + k] == before + [m] + after[..k];
      assert (before + after)[..|before| + k] == before + after[..k];
    }
  }

  /** The two ways `structured_query` fails. */
  datatype QueryError =
    | NoStructuredOutput          // ValueError("No structured output received from query")
    | ValidationFailed(detail: string)

  /** What `structured_query` does with the selected payload: fail without one, validate it otherwise. */
  function QueryOutcome<T>(schema: Schema<T>, selected: Option<Json>): Result<T, QueryError> {
    match selected
    case None => Err(NoStructuredOutput)
    case Some(payload) =>
      match schema.validate(payload)
      case Ok(record) => Ok(record)
      case Err(detail) => Err(ValidationFailed(detail))
  }

  /**
   * `structured_query`: run `query` on the prompt and merged options, keep the
   * payload of the last result message that carries one, and validate it.
   */
  method StructuredQuery<T>(
    prompt: string, schema: Schema<T>, options: Option<AgentOptions>,
    query: (string, AgentOptions) -> seq<Message>)
    returns (r: Result<T, QueryError>)
    ensures r == QueryOutcome(schema, LastStructuredOutput(query(prompt, MergeOptions(options, schema))))
    ensures r == Err(NoStructuredOutput) <==>
      forall m :: m in query(prompt, MergeOptions(options, schema)) ==> !Carries(m)
  {
    var mergedOptions := MergeOptions(options, schema);
    var stream := query(prompt, mergedOptions);
    var structuredOutput: Option<Json> := None;
    for i := 0 to |stream|
      invariant structuredOutput == LastStructuredOutput(stream[..i])
    {
      var message := stream[i];
      assert stream[..i + 1][..i] == stream[..i];
      if message.ResultMessage? && Truthy(message.structuredOutput) {
        structuredOutput := Some(message.structuredOutput);
      }
    }
    assert stream[..|stream|] == stream;
    LastStructuredOutputSpec(stream);
    match structuredOutput
    case None =>
      r := Err(NoStructuredOutput);
    case Some(payload) =>
      match schema.validate(payload)
      case Ok(record) =>
        r := Ok(record);
      case Err(detail) =>
        r := Err(ValidationFailed(detail));
  }

  /**
   * What `structured_query_stream` yields: one (message, record or None) pair
   * per message until validation raises, and the validation error if it did.
   */
  datatype StreamOutcome<T> = StreamOutcome(pairs: seq<(Message, Option<T>)>, failure: Option<string>)

  /** The per-message mapping of `structured_query_stream` over a message stream. */
  function StreamPairs<T>(ms: seq<Message>, schema: Schema<T>): (r: StreamOutcome<T>)
    ensures |r.pairs| <= |ms|
    ensures forall i :: 0 <= i < |r.pairs| ==> r.pairs[i].0 == ms[i]
    ensures forall i :: 0 <= i < |r.pairs| ==>
      if Carries(ms[i]) then r.pairs[i].1.Some? && schema.validate(ms[i].structuredOutput) == Ok(r.pairs[i].1.value)
      else r.pairs[i].1.None?
    ensures r.failure.None? <==> |r.pairs| == |ms|
    ensures r.failure.Some? ==>
      Carries(ms[|r.pairs|]) && schema.validate(ms[|r.pairs|].structuredOutput) == Err(r.failure.value)
    decreases |ms|
  {
    if ms == [] then StreamOutcome([], None)
    else
      var rest := StreamPairs(ms[1..], schema);
      if Carries(ms[0]) then
        match schema.validate(ms[0].structuredOutput)
        case Err(detail) => StreamOutcome([], Some(detail))
        case Ok(record) => StreamOutcome([(ms[0], Some(record))] + rest.pairs, rest.failure)
      else StreamOutcome([(ms[0], None)] + rest.pairs, rest.failure)
  }

  /**
   * `structured_query_stream`: run `query` on the prompt and merged options and
   * yield every message of its stream in order, each paired with the validated
   * record of its payload when it carries one; a payload that fails validation
   * ends the stream with the validation error.
   */
  function StructuredQueryStream<T>(
    prompt: string, schema: Schema<T>, options: Option<AgentOptions>,
    query: (string, AgentOptions) -> seq<Message>): (r: StreamOutcome<T>)
    ensures var ms := query(prompt, MergeOptions(options, schema));
      && |r.pairs| <= |ms|
      && (forall i :: 0 <= i < |r.pairs| ==> r.pairs[i].0 == ms[i])
      && (forall i :: 0 <= i < |r.pairs| ==> (r.pairs[i].1.Some? <==> Carries(ms[i])))
      && (forall i :: 0 <= i < |r.pairs| && Carries(ms[i]) ==>
            schema.validate(ms[i].structuredOutput) == Ok(r.pairs[i].1.value))
      && (r.failure.None? <==> |r.pairs| == |ms|)
      && (r.failure.Some? ==>
            Carries(ms[|r.pairs|]) && schema.validate(ms[|r.pairs|].structuredOutput) == Err(r.failure.value))
  {
    StreamPairs(query(prompt, MergeOptions(options, schema)), schema)
  }

  /**
   * The streaming form validates every carried payload and the blocking form
   * only the last: whenever the stream runs to its end, the blocking form
   * fails exactly when no message carried a payload, and its record is the
   * one paired with the last carrier.
   */
  lemma StreamCompletesThenQueryAgrees<T>(ms: seq<Message>, schema: Schema<T>)
    requires StreamPairs(ms, schema).failure.None?
    ensures QueryOutcome(schema, LastStructuredOutput(ms)).Err? <==> forall m :: m in ms ==> !Carries(m)
    ensures LastStructuredOutput(ms).Some? ==>
      exists i :: IsLastCarrier(ms, i) && QueryOutcome(schema, LastStructuredOutput(ms)) == Ok(StreamPairs(ms, schema).pairs[i].1.value)
  {
    var r := StreamPairs(ms, schema);
    LastStructuredOutputSpec(ms);
    if LastStructuredOutput(ms).Some? {
      var i :| IsLastCarrier(ms, i) && ms[i].structuredOutput == LastStructuredOutput(ms).value;
      assert schema.validate(ms[i].structuredOutput) == Ok(r.pairs[i].1.value);
    }
  }
}
