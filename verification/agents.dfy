/**
 * The two reasoning-service stages, without the service itself: the call is
 * an oracle that either finishes with raw text after some number of seconds
 * or raises, and `json.loads` is an oracle `parse` that may reject its input.
 * What remains is the timeout bound, the fence extraction, and the checks
 * that turn a parsed interpretation into a `StructuredRuleCreate`.
 */
module Agents {
  import opened Common
  import opened Json
  import opened Models
  import Fence

  /** Seconds the rule interpreter waits for the service. */
  const InterpreterTimeout: nat := 60
  /** Seconds the compliance reasoner waits for the service. */
  const ReasonerTimeout: nat := 90

  /** What one call to the reasoning service did. */
  datatype CallOutcome =
    | Finished(raw: string, seconds: nat)
    | Raised(seconds: nat)

  /** Why a reasoning stage produced nothing usable. */
  datatype Failure =
    | TimedOut(limit: nat)
    | ServiceError
    | MalformedOutput(payload: string)
    | NotAnObject
    | MissingKey(key: string)
    | UnknownSeverity(value: Json)
    | FieldTypeMismatch(key: string)
    | MalformedEvaluations
    | UnhashableRuleId(id: Json)

  /** The parser `json.loads` stands for: `None` where it raises. */
  type Parser = string -> Option<Json>

  /**
   * `future.result(timeout=limit)`: the raw text if the call finished in
   * time.  A call still running at the limit times out, whether it would
   * later have finished or raised.
   */
  function Await(call: CallOutcome, limit: nat): (r: Result<string, Failure>)
    ensures r.Ok? <==> call.Finished? && call.seconds <= limit
    ensures r.Ok? ==> r.value == call.raw
    ensures call.seconds > limit ==> r == Err(TimedOut(limit))
    ensures call.Raised? && call.seconds <= limit ==> r == Err(ServiceError)
  {
    if call.seconds > limit then Err(TimedOut(limit))
    else
      match call
      case Raised(_) => Err(ServiceError)
      case Finished(raw, _) => Ok(raw)
  }

  /** `json.loads` applied to the extracted payload of `raw`. */
  function ParseOutput(raw: string, parse: Parser): (r: Result<Json, Failure>)
    ensures r.Ok? <==> parse(Fence.Extract(raw)).Some?
    ensures r.Ok? ==> r.value == parse(Fence.Extract(raw)).value
  {
    var payload := Fence.Extract(raw);
    match parse(payload)
    case None => Err(MalformedOutput(payload))
    case Some(j) => Ok(j)
  }

  /** The keys an interpretation must carry, in the order they are read. */
  const RequiredKeys: seq<string> := ["rule_id", "version", "applicability_conditions", "obligations", "exceptions", "severity"]

  /** The first required key `fields` lacks, if any. */
  function FirstMissing(fields: map<string, Json>, keys: seq<string>): (r: Option<string>)
    ensures r.None? <==> forall k :: 0 <= k < |keys| ==> keys[k] in fields
    ensures r.Some? ==> r.value !in fields && exists k :: 0 <= k < |keys| && keys[k] == r.value
    ensures r.Some? ==> exists k :: 0 <= k < |keys| && keys[k] == r.value && forall j :: 0 <= j < k ==> keys[j] in fields
  {
    if |keys| == 0 then None
    else if keys[0] !in fields then Some(keys[0])
    else
      var r := FirstMissing(fields, keys[1..]);
      assert forall k :: 0 < k < |keys| ==> keys[k] == keys[1..][k - 1];
      r
  }

  /** True iff every required key is present. */
  predicate HasRequiredKeys(fields: map<string, Json>)
  {
    "rule_id" in fields && "version" in fields && "applicability_conditions" in fields
    && "obligations" in fields && "exceptions" in fields && "severity" in fields
  }

  /** `HasRequiredKeys` is exactly "no required key is missing". */
  lemma RequiredKeysPresent(fields: map<string, Json>)
    ensures HasRequiredKeys(fields) <==> FirstMissing(fields, RequiredKeys).None?
  {
    if FirstMissing(fields, RequiredKeys).None? {
      assert RequiredKeys[0] in fields && RequiredKeys[1] in fields && RequiredKeys[2] in fields;
      assert RequiredKeys[3] in fields && RequiredKeys[4] in fields && RequiredKeys[5] in fields;
    }
  }

  /** True iff the parsed interpretation can become a `StructuredRuleCreate`. */
  predicate WellShaped(j: Json)
  {
    && j.JObj?
    && HasRequiredKeys(j.fields)
    && j.fields["rule_id"].JStr?
    && j.fields["version"].JStr?
    && IsStringList(j.fields["applicability_conditions"])
    && IsStringList(j.fields["obligations"])
    && IsStringList(j.fields["exceptions"])
    && j.fields["severity"].JStr?
    && ParseSeverity(j.fields["severity"].s).Some?
  }

  /**
   * The construction of a `StructuredRuleCreate` from the parsed object: each
   * key is looked up in order (a missing one raises `KeyError`), the severity
   * goes through the enum (an unknown one raises `ValueError`), then the model
   * checks the field types.  The full raw text is kept for audit.
   */
  function ToStructuredRule(j: Json, raw: string): (r: Result<StructuredRuleCreate, Failure>)
    ensures r.Ok? <==> WellShaped(j)
    ensures r.Ok? ==>
      && r.value.ruleId == j.fields["rule_id"].s
      && r.value.version == j.fields["version"].s
      && r.value.applicabilityConditions == Strings(j.fields["applicability_conditions"])
      && r.value.obligations == Strings(j.fields["obligations"])
      && r.value.exceptions == Strings(j.fields["exceptions"])
      && SeverityName(r.value.severity) == j.fields["severity"].s
      && r.value.rawAiOutput == Some(raw)
    ensures !j.JObj? ==> r == Err(NotAnObject)
    ensures j.JObj? && FirstMissing(j.fields, RequiredKeys).Some? ==>
      r == Err(MissingKey(FirstMissing(j.fields, RequiredKeys).value))
  {
    if !j.JObj? then Err(NotAnObject)
    else
      RequiredKeysPresent(j.fields);
      match FirstMissing(j.fields, RequiredKeys)
      case Some(key) => Err(MissingKey(key))
      case None =>
        var f := j.fields;
        var sev := f["severity"];
        if !sev.JStr? || ParseSeverity(sev.s).None? then Err(UnknownSeverity(sev))
        else if !f["rule_id"].JStr? then Err(FieldTypeMismatch("rule_id"))
        else if !f["version"].JStr? then Err(FieldTypeMismatch("version"))
        else if !IsStringList(f["applicability_conditions"]) then Err(FieldTypeMismatch("applicability_conditions"))
        else if !IsStringList(f["obligations"]) then Err(FieldTypeMismatch("obligations"))
        else if !IsStringList(f["exceptions"]) then Err(FieldTypeMismatch("exceptions"))
        else
          Ok(StructuredRuleCreate(
            f["rule_id"].s, f["version"].s,
            Strings(f["applicability_conditions"]), Strings(f["obligations"]), Strings(f["exceptions"]),
            ParseSeverity(sev.s).value, Some(raw)))
  }

  /** The JSON object the interpreter asks the service to return for `x`. */
  function Serialize(x: StructuredRuleCreate): Json
  {
    JObj(map[
      "rule_id" := JStr(x.ruleId),
      "version" := JStr(x.version),
      "applicability_conditions" := StringList(x.applicabilityConditions),
      "obligations" := StringList(x.obligations),
      "exceptions" := StringList(x.exceptions),
      "severity" := JStr(SeverityName(x.severity))])
  }

  /** A well-formed answer is read back as exactly the rule it describes, with the raw text attached. */
  lemma ToStructuredRuleRoundTrip(x: StructuredRuleCreate, raw: string)
    ensures ToStructuredRule(Serialize(x), raw) == Ok(x.(rawAiOutput := Some(raw)))
  {
    var j := Serialize(x);
    RequiredKeysPresent(j.fields);
    SeverityNameRoundTrip(x.severity);
  }

  /**
   * `PolicyInterpreterAgent.interpret`: one service call about `rule`, bounded
   * by the interpreter timeout, then extraction, parsing and validation.
   */
  function Interpret(rule: ComplianceRule, interpreter: ComplianceRule -> CallOutcome, parse: Parser): (r: Result<StructuredRuleCreate, Failure>)
    ensures r.Ok? <==>
      && Await(interpreter(rule), InterpreterTimeout).Ok?
      && ParseOutput(interpreter(rule).raw, parse).Ok?
      && WellShaped(ParseOutput(interpreter(rule).raw, parse).value)
    ensures r.Ok? ==> r.value.rawAiOutput == Some(interpreter(rule).raw)
    ensures r.Ok? ==>
      var f := ParseOutput(interpreter(rule).raw, parse).value.fields;
      && r.value.ruleId == f["rule_id"].s
      && r.value.version == f["version"].s
      && r.value.applicabilityConditions == Strings(f["applicability_conditions"])
      && r.value.obligations == Strings(f["obligations"])
      && r.value.exceptions == Strings(f["exceptions"])
      && SeverityName(r.value.severity) == f["severity"].s
  {
    var raw :- Await(interpreter(rule), InterpreterTimeout);
    var j :- ParseOutput(raw, parse);
    ToStructuredRule(j, raw)
  }

  /**
   * `ComplianceReasoningAgent.evaluate`: one service call about the event and
   * the whole rule list, bounded by the reasoner timeout; the parsed answer is
   * returned unchecked.
   */
  function Evaluate(event: WorkflowEvent, rules: seq<StructuredRule>,
                    reasoner: (WorkflowEvent, seq<StructuredRule>) -> CallOutcome, parse: Parser): (r: Result<Json, Failure>)
    ensures r.Ok? <==>
      && Await(reasoner(event, rules), ReasonerTimeout).Ok?
      && ParseOutput(reasoner(event, rules).raw, parse).Ok?
    ensures reasoner(event, rules).Finished? && reasoner(event, rules).seconds > ReasonerTimeout ==>
      r == Err(TimedOut(ReasonerTimeout))
    ensures r.Ok? ==> r.value == ParseOutput(reasoner(event, rules).raw, parse).value
  {
    var raw :- Await(reasoner(event, rules), ReasonerTimeout);
    ParseOutput(raw, parse)
  }

  /** An interpretation with an unknown severity is rejected, whatever else it says. */
  lemma InterpretRejectsUnknownSeverity(rule: ComplianceRule, interpreter: ComplianceRule -> CallOutcome, parse: Parser, value: string)
    requires interpreter(rule).Finished? && interpreter(rule).seconds <= InterpreterTimeout
    requires var j := parse(Fence.Extract(interpreter(rule).raw));
             j.Some? && j.value.JObj? && "severity" in j.value.fields && j.value.fields["severity"] == JStr(value)
    requires value !in {"LOW", "MEDIUM", "HIGH"}
    ensures Interpret(rule, interpreter, parse).Err?
  {
  }

  /** A service answer that is a fenced rendering of `x` is interpreted as `x`, keeping the raw text. */
  lemma InterpretFencedAnswer(rule: ComplianceRule, interpreter: ComplianceRule -> CallOutcome, parse: Parser,
                              x: StructuredRuleCreate, body: string)
    requires !Fence.Contains(body, Fence.Ticks) && Fence.Trimmed(body)
    requires interpreter(rule) == Finished(Fence.JsonTicks + "\n" + body + "\n" + Fence.Ticks, 0)
    requires parse(body) == Some(Serialize(x))
    ensures Interpret(rule, interpreter, parse) == Ok(x.(rawAiOutput := Some(interpreter(rule).raw)))
  {
    Fence.ExtractRoundTrip(body);
    ToStructuredRuleRoundTrip(x, interpreter(rule).raw);
  }

  /** A reasoning answer that is a fenced rendering of `j`, returned in time, is read as exactly `j`. */
  lemma EvaluateFencedAnswer(event: WorkflowEvent, rules: seq<StructuredRule>,
                             reasoner: (WorkflowEvent, seq<StructuredRule>) -> CallOutcome, parse: Parser,
                             j: Json, body: string, seconds: nat)
    requires !Fence.Contains(body, Fence.Ticks) && Fence.Trimmed(body)
    requires seconds <= ReasonerTimeout
    requires reasoner(event, rules) == Finished(Fence.JsonTicks + "\n" + body + "\n" + Fence.Ticks, seconds)
    requires parse(body) == Some(j)
    ensures Evaluate(event, rules, reasoner, parse) == Ok(j)
  {
    Fence.ExtractRoundTrip(body);
  }
}
