/**
 * The audit orchestrator: audit of a workflow's latest event against the
 * latest interpretation of every ACTIVE rule, with degradation to
 * REQUIRES_REVIEW when the reasoning stage fails, and replay of a past
 * decision against the exact rule versions it recorded.  Each operation is a
 * transition of the store; the reasoning service and `json.loads` are oracles.
 */
module Audit {
  import opened Common
  import opened Json
  import opened Models
  import opened Engine
  import opened Store
  import opened Agents

  datatype ApiError =
    | NotFound
    | InvalidResponse
    | NoEventInForce
    | Unhandled(cause: Failure)

  /** What an audit hands back: a stored decision, or one that was never stored. */
  datatype AuditReply = Recorded(decision: ComplianceDecision) | Unrecorded(body: DecisionBody)

  type Reasoner = (WorkflowEvent, seq<StructuredRule>) -> CallOutcome

  /** An evaluation the orchestrator can read: `e["rule_id"]`, `e["status"]` and `e["reasoning_steps"]` all exist. */
  predicate EvaluationShaped(e: Json)
  {
    e.JObj? && "rule_id" in e.fields && "status" in e.fields && "reasoning_steps" in e.fields
  }

  /**
   * The evaluations of a reasoning answer as the orchestrator reads them:
   * `answer.get("evaluations", [])` passed to the engine and iterated twice.
   * Anything that would raise along the way gives `None`.  An empty object
   * or empty string in place of the list reads as no evaluations.
   */
  function ReadEvaluations(answer: Json): (r: Option<seq<Evaluation>>)
    ensures r.Some? ==> answer.JObj?
    ensures r.Some? ==> forall k :: 0 <= k < |r.value| ==>
      "rule_id" in r.value[k] && "status" in r.value[k] && "reasoning_steps" in r.value[k]
    ensures answer.JObj? && "evaluations" !in answer.fields ==> r == Some([])
    ensures answer.JObj? && "evaluations" in answer.fields && answer.fields["evaluations"].JArr? ==>
      var items := answer.fields["evaluations"].items;
      && (r.Some? <==> forall k :: 0 <= k < |items| ==> EvaluationShaped(items[k]))
      && (r.Some? ==> |r.value| == |items| && forall k :: 0 <= k < |items| ==> r.value[k] == items[k].fields)
  {
    if !answer.JObj? then None
    else
      var evaluations := if "evaluations" in answer.fields then answer.fields["evaluations"] else JArr([]);
      match evaluations
      case JArr(items) =>
        if forall k :: 0 <= k < |items| ==> EvaluationShaped(items[k])
        then Some(seq(|items|, k requires 0 <= k < |items| => items[k].fields))
        else None
      case JObj(fields) => if |fields| == 0 then Some([]) else None
      case JStr(s) => if |s| == 0 then Some([]) else None
      case _ => None
  }

  /** `violated_rules`: the `rule_id` of every NON_COMPLIANT evaluation, in evaluation order. */
  function ViolatedRules(evals: seq<Evaluation>): (r: seq<Json>)
    requires forall k :: 0 <= k < |evals| ==> "rule_id" in evals[k]
    ensures |r| == |ViolatedIds(evals)|
    ensures forall k :: 0 <= k < |r| ==> ViolatedIds(evals)[k] == Some(r[k])
  {
    if |evals| == 0 then []
    else
      var init := evals[..|evals| - 1];
      var last := evals[|evals| - 1];
      assert forall k :: 0 <= k < |init| ==> init[k] == evals[k];
      ViolatedRules(init) + (if IsViolation(last) then [last["rule_id"]] else [])
  }

  /** `reasoning_trace`: one entry per evaluation, carrying its rule id and steps. */
  function TraceOf(evals: seq<Evaluation>): (r: seq<TraceEntry>)
    requires forall k :: 0 <= k < |evals| ==> "rule_id" in evals[k] && "reasoning_steps" in evals[k]
    ensures |r| == |evals|
    ensures forall k :: 0 <= k < |r| ==> r[k] == RuleTrace(evals[k]["rule_id"], evals[k]["reasoning_steps"])
  {
    seq(|evals|, k requires 0 <= k < |evals| => RuleTrace(evals[k]["rule_id"], evals[k]["reasoning_steps"]))
  }

  /** `{r.rule_id: r.severity for r in structured_rules}`. */
  function SeverityMap(rules: seq<StructuredRule>): (m: map<string, RuleSeverity>)
    ensures forall rid :: rid in m <==> exists k :: 0 <= k < |rules| && rules[k].content.ruleId == rid
    ensures forall k :: 0 <= k < |rules| && (forall j :: k < j < |rules| ==> rules[j].content.ruleId != rules[k].content.ruleId) ==>
      m[rules[k].content.ruleId] == rules[k].content.severity
  {
    if |rules| == 0 then map[]
    else
      var init := rules[..|rules| - 1];
      var last := rules[|rules| - 1];
      assert forall k :: 0 <= k < |init| ==> init[k] == rules[k];
      SeverityMap(init)[last.content.ruleId := last.content.severity]
  }

  /** The text a failure contributes to the diagnostic trace entry. */
  function Describe(f: Failure): string
  {
    match f
    case TimedOut(_) => "Compliance reasoning timed out"
    case ServiceError => "reasoning service error"
    case MalformedOutput(_) => "malformed JSON output"
    case NotAnObject => "answer is not an object"
    case MissingKey(key) => "missing key " + key
    case UnknownSeverity(_) => "unknown severity"
    case FieldTypeMismatch(key) => "invalid field " + key
    case MalformedEvaluations => "malformed evaluations"
    case UnhashableRuleId(_) => "unhashable type"
  }

  /** The single trace entry recorded when reasoning fails. */
  function DiagnosticTrace(f: Failure): TraceEntry
  {
    RuleTrace(JStr("System Diagnostic"), JArr([JObj(map[
      "step" := JStr("AI Reasoning Protocol"),
      "result" := JStr("Execution Failed"),
      "detail" := JStr("The reasoning agent encountered an error: " + Describe(f) + ". A manual override or review is required.")])]))
  }

  /** What the reasoning stage amounts to for one request. */
  datatype Verdict =
    | Decided(outcome: DecisionOutcome, violated: seq<Json>, trace: seq<TraceEntry>)
    | Degraded(cause: Failure)

  /**
   * The engine's verdict on a reasoning answer, or the failure that prevents
   * one: a failed call, evaluations that cannot be read, or `decide` raising.
   */
  function Judge(answer: Result<Json, Failure>, rules: seq<StructuredRule>): (v: Verdict)
    ensures v.Decided? ==> v.outcome != RequiresReview
    ensures answer.Err? ==> v == Degraded(answer.error)
    ensures answer.Ok? && ReadEvaluations(answer.value).None? ==> v == Degraded(MalformedEvaluations)
    ensures answer.Ok? && ReadEvaluations(answer.value).Some? ==>
      var evals := ReadEvaluations(answer.value).value;
      var d := Decide(evals, SeverityMap(rules));
      && (d.Err? ==> v == Degraded(UnhashableRuleId(d.error.id)))
      && (d.Ok? ==> v == Decided(d.value, ViolatedRules(evals), TraceOf(evals)))
      && (v.Decided? ==>
            && |v.violated| == CountViolations(evals)
            && (v.violated == [] <==> v.outcome == Compliant)
            && |v.trace| == |evals|)
  {
    match answer
    case Err(f) => Degraded(f)
    case Ok(j) =>
      match ReadEvaluations(j)
      case None => Degraded(MalformedEvaluations)
      case Some(evals) =>
        match Decide(evals, SeverityMap(rules))
        case Err(e) => Degraded(UnhashableRuleId(e.id))
        case Ok(outcome) => Decided(outcome, ViolatedRules(evals), TraceOf(evals))
  }

  /** The decision an audit records for a verdict: a failure degrades to REQUIRES_REVIEW. */
  function Record(wid: string, v: Verdict, versions: seq<RuleKey>, now: nat): (d: DecisionBody)
    ensures d.workflowId == wid && d.ruleVersions == versions && d.createdAt == now
    ensures v.Degraded? ==> d.outcome == RequiresReview && d.violatedRules == [] && d.reasoningTrace == [DiagnosticTrace(v.cause)]
    ensures v.Decided? ==> d.outcome == v.outcome && d.violatedRules == v.violated && d.reasoningTrace == v.trace
  {
    match v
    case Decided(outcome, violated, trace) => DecisionBody(wid, outcome, violated, trace, versions, now)
    case Degraded(f) => DecisionBody(wid, RequiresReview, [], [DiagnosticTrace(f)], versions, now)
  }

  /**
   * The interpretations an audit sends to the reasoner, and the `rule_versions`
   * it records: for each active rule id in turn, its most recent structured
   * rule, if it has one.  A repeated id contributes its rule again but only
   * one key.
   */
  function Resolve(structured: seq<StructuredRule>, ids: seq<string>): (r: (seq<StructuredRule>, seq<RuleKey>))
    ensures IsMapping(r.1)
    ensures |r.0| <= |ids|
    ensures forall x :: HasRule(r.1, x) <==> x in ids && LatestStructured(structured, x).Some?
    ensures forall x :: HasRule(r.1, x) ==> VersionOf(r.1, x) == LatestStructured(structured, x).value.content.version
    ensures forall k :: 0 <= k < |r.0| ==> exists i :: 0 <= i < |ids| && LatestStructured(structured, ids[i]) == Some(r.0[k])
  {
    if |ids| == 0 then ([], [])
    else
      var init := ids[..|ids| - 1];
      var rid := ids[|ids| - 1];
      var prev := Resolve(structured, init);
      assert forall k :: 0 <= k < |init| ==> init[k] == ids[k];
      assert forall x :: x in ids <==> x in init || x == rid;
      var r := ResolveStep(structured, prev, rid);
      assert LatestStructured(structured, rid).Some? ==> LatestStructured(structured, ids[|ids| - 1]) == Some(r.0[|prev.0|]);
      r
  }

  /** One turn of the resolution loop: add the latest interpretation of `rid`, if any. */
  function ResolveStep(structured: seq<StructuredRule>, prev: (seq<StructuredRule>, seq<RuleKey>), rid: string): (r: (seq<StructuredRule>, seq<RuleKey>))
    requires IsMapping(prev.1)
  {
    match LatestStructured(structured, rid)
    case None => prev
    case Some(row) => (prev.0 + [row], Put(prev.1, rid, row.content.version))
  }

  /** The rules an audit evaluates: before any reasoning, everything but the call is fixed. */
  function AuditRules(s: Store): (seq<StructuredRule>, seq<RuleKey>)
  {
    Resolve(s.structured, ActiveRuleIds(s.rules))
  }

  /** The part of an audit after the rules are known to be non-empty: one reasoning call, one decision appended. */
  function AuditActive(s: Store, wid: string, event: WorkflowEvent, now: nat, reasoner: Reasoner, parse: Parser): (r: (Store, Result<AuditReply, ApiError>))
    ensures r.1.Ok? && r.1.value.Recorded?
    ensures r.0.decisions == s.decisions + [r.1.value.decision]
    ensures r.0.events == s.events && r.0.rules == s.rules && r.0.structured == s.structured
    ensures r.1.value.decision.id == |s.decisions| + 1
    ensures var d := r.1.value.decision.body;
            var (rules, versions) := AuditRules(s);
            var v := Judge(Evaluate(event, rules, reasoner, parse), rules);
            && d.workflowId == wid && d.ruleVersions == versions && d.createdAt == now
            && (v.Decided? ==> d.outcome == v.outcome && d.violatedRules == v.violated && d.reasoningTrace == v.trace)
            && (v.Degraded? ==> d.outcome == RequiresReview && d.violatedRules == [] && d.reasoningTrace == [DiagnosticTrace(v.cause)])
  {
    var (rules, versions) := AuditRules(s);
    var body := Record(wid, Judge(Evaluate(event, rules, reasoner, parse), rules), versions, now);
    (AppendDecision(s, body), Ok(Recorded(ComplianceDecision(|s.decisions| + 1, body))))
  }

  /** The reply of the short-circuit taken when no rule is ACTIVE. */
  function NoActiveRulesReply(wid: string, now: nat): DecisionBody
  {
    DecisionBody(wid, Compliant, [], [Info("No active rules found")], [], now)
  }

  /**
   * `audit_workflow` as the code is written: the short-circuit builds the
   * response without the required `id`, so the response model rejects it.
   */
  function AuditWorkflowAsWritten(s: Store, wid: string, now: nat, reasoner: Reasoner, parse: Parser): (r: (Store, Result<AuditReply, ApiError>))
    ensures LatestEvent(s.events, wid, None).Some? && ActiveRuleIds(s.rules) == [] ==> r == (s, Err(InvalidResponse))
    ensures LatestEvent(s.events, wid, None).None? ==> r == (s, Err(NotFound))
    ensures LatestEvent(s.events, wid, None).Some? && ActiveRuleIds(s.rules) != [] ==>
      && r.1.Ok? && r.1.value.Recorded?
      && r.0.decisions == s.decisions + [r.1.value.decision]
      && r.0.events == s.events && r.0.rules == s.rules && r.0.structured == s.structured
  {
    match LatestEvent(s.events, wid, None)
    case None => (s, Err(NotFound))
    case Some(event) =>
      if ActiveRuleIds(s.rules) == [] then (s, Err(InvalidResponse))
      else AuditActive(s, wid, event, now, reasoner, parse)
  }

  /**
   * `audit_workflow` with the short-circuit returning its COMPLIANT reply
   * unstored, as evidently intended.
   */
  function AuditWorkflow(s: Store, wid: string, now: nat, reasoner: Reasoner, parse: Parser): (r: (Store, Result<AuditReply, ApiError>))
    ensures LatestEvent(s.events, wid, None).None? ==> r == (s, Err(NotFound))
    ensures LatestEvent(s.events, wid, None).Some? && ActiveRuleIds(s.rules) == [] ==>
      r == (s, Ok(Unrecorded(NoActiveRulesReply(wid, now))))
    ensures LatestEvent(s.events, wid, None).Some? && ActiveRuleIds(s.rules) != [] ==>
      && r.1.Ok? && r.1.value.Recorded?
      && r.0.decisions == s.decisions + [r.1.value.decision]
      && r.0.events == s.events && r.0.rules == s.rules && r.0.structured == s.structured
      && r.1.value.decision.body.workflowId == wid
      && r.1.value.decision.body.createdAt == now
      && r.1.value.decision.body.ruleVersions == AuditRules(s).1
    ensures r.1.Ok? && r.1.value.Recorded? && r.1.value.decision.body.outcome != RequiresReview ==>
      var rules := AuditRules(s).0;
      var answer := Evaluate(LatestEvent(s.events, wid, None).value, rules, reasoner, parse);
      && answer.Ok? && ReadEvaluations(answer.value).Some?
      && var evals := ReadEvaluations(answer.value).value;
         && Decide(evals, SeverityMap(rules)) == Ok(r.1.value.decision.body.outcome)
         && r.1.value.decision.body.violatedRules == ViolatedRules(evals)
         && r.1.value.decision.body.reasoningTrace == TraceOf(evals)
  {
    match LatestEvent(s.events, wid, None)
    case None => (s, Err(NotFound))
    case Some(event) =>
      if ActiveRuleIds(s.rules) == [] then (s, Ok(Unrecorded(NoActiveRulesReply(wid, now))))
      else AuditActive(s, wid, event, now, reasoner, parse)
  }

  /** The two versions differ only where no rule is ACTIVE: there the code as written fails. */
  lemma AuditAsWrittenRejectsShortCircuit(s: Store, wid: string, now: nat, reasoner: Reasoner, parse: Parser)
    requires LatestEvent(s.events, wid, None).Some? && ActiveRuleIds(s.rules) == []
    ensures AuditWorkflowAsWritten(s, wid, now, reasoner, parse).1 == Err(InvalidResponse)
    ensures AuditWorkflow(s, wid, now, reasoner, parse).1.Ok?
  {
  }

  /** Wherever some rule is ACTIVE, the two versions agree. */
  lemma AuditAsWrittenAgreesOtherwise(s: Store, wid: string, now: nat, reasoner: Reasoner, parse: Parser)
    requires LatestEvent(s.events, wid, None).None? || ActiveRuleIds(s.rules) != []
    ensures AuditWorkflowAsWritten(s, wid, now, reasoner, parse) == AuditWorkflow(s, wid, now, reasoner, parse)
  {
  }

  /** With no ACTIVE rule the reasoner is never consulted: any two reasoners give the same audit. */
  lemma NoActiveRulesSkipsReasoner(s: Store, wid: string, now: nat, r1: Reasoner, r2: Reasoner, parse: Parser)
    requires ActiveRuleIds(s.rules) == []
    ensures AuditWorkflow(s, wid, now, r1, parse) == AuditWorkflow(s, wid, now, r2, parse)
  {
  }

  /**
   * A failed or unreadable reasoning answer, or one on which `decide` raises,
   * still records exactly one decision, for human review.
   */
  lemma ReasoningFailureDegrades(s: Store, wid: string, now: nat, reasoner: Reasoner, parse: Parser)
    requires LatestEvent(s.events, wid, None).Some? && ActiveRuleIds(s.rules) != []
    requires var answer := Evaluate(LatestEvent(s.events, wid, None).value, AuditRules(s).0, reasoner, parse);
             || answer.Err?
             || ReadEvaluations(answer.value).None?
             || Decide(ReadEvaluations(answer.value).value, SeverityMap(AuditRules(s).0)).Err?
    ensures var r := AuditWorkflow(s, wid, now, reasoner, parse);
            && r.1.Ok? && r.1.value.Recorded?
            && |r.0.decisions| == |s.decisions| + 1
            && r.1.value.decision.body.outcome == RequiresReview
            && r.1.value.decision.body.violatedRules == []
            && |r.1.value.decision.body.reasoningTrace| == 1
            && r.1.value.decision.body.reasoningTrace[0].RuleTrace?
            && r.1.value.decision.body.reasoningTrace[0].ruleId == JStr("System Diagnostic")
            && r.1.value.decision.body.ruleVersions == AuditRules(s).1
  {
  }

  /** Active rules without any interpretation still lead to a reasoning call, with no rules in it. */
  lemma UninterpretedRulesStillReason(s: Store, wid: string, now: nat, reasoner: Reasoner, parse: Parser)
    requires LatestEvent(s.events, wid, None).Some? && ActiveRuleIds(s.rules) != []
    requires forall k :: 0 <= k < |s.structured| ==> s.structured[k].content.ruleId !in ActiveRuleIds(s.rules)
    ensures var r := AuditWorkflow(s, wid, now, reasoner, parse);
            && r.1.Ok? && r.1.value.Recorded?
            && r.1.value.decision.body ==
               Record(wid, Judge(Evaluate(LatestEvent(s.events, wid, None).value, [], reasoner, parse), []), [], now)
  {
    ResolveNothing(s.structured, ActiveRuleIds(s.rules));
  }

  /** Ids without any interpretation resolve to no rules and no versions. */
  lemma {:induction false} ResolveNothing(structured: seq<StructuredRule>, ids: seq<string>)
    requires forall k :: 0 <= k < |structured| ==> structured[k].content.ruleId !in ids
    ensures Resolve(structured, ids) == ([], [])
  {
    if |ids| > 0 {
      var init := ids[..|ids| - 1];
      assert forall x :: x in init ==> x in ids;
      ResolveNothing(structured, init);
      assert LatestStructured(structured, ids[|ids| - 1]).None?;
    }
  }

  /**
   * An active rule id that appears twice is sent to the reasoner once per
   * appearance, but has one key in the recorded versions.
   */
  lemma DuplicateActiveIds(structured: seq<StructuredRule>, ids: seq<string>, i: nat, j: nat)
    requires i < j < |ids| && ids[i] == ids[j]
    requires LatestStructured(structured, ids[i]).Some?
    ensures var r := Resolve(structured, ids);
            var row := LatestStructured(structured, ids[i]).value;
            && multiset(r.0)[row] == multiset(ids)[ids[i]] >= 2
            && HasRule(r.1, ids[i])
            && forall k :: 0 <= k < |r.1| && r.1[k].ruleId == ids[i] ==> r.1[k] == RuleKey(ids[i], row.content.version)
  {
    ResolveCounts(structured, ids, ids[i]);
    RepeatedTwice(ids, i, j);
  }

  /** An element at two positions of a sequence occurs at least twice in it. */
  lemma RepeatedTwice<T>(s: seq<T>, i: nat, j: nat)
    requires i < j < |s| && s[i] == s[j]
    ensures multiset(s)[s[i]] >= 2
  {
    assert s == s[..j] + s[j..];
    assert s[..j][i] == s[i];
    assert s[j..][0] == s[i];
    assert multiset(s) == multiset(s[..j]) + multiset(s[j..]);
  }

  /** The rules sent for a concatenation of ids are those sent for each part, in order. */
  lemma {:induction false} ResolveAppend(structured: seq<StructuredRule>, a: seq<string>, b: seq<string>)
    ensures Resolve(structured, a + b).0 == Resolve(structured, a).0 + Resolve(structured, b).0
    decreases |b|
  {
    if |b| == 0 {
      assert a + b == a;
    } else {
      var b' := b[..|b| - 1];
      var last := LatestStructured(structured, b[|b| - 1]);
      var tail := if last.Some? then [last.value] else [];
      assert Resolve(structured, a + b).0 == Resolve(structured, a + b').0 + tail by {
        assert (a + b)[..|a + b| - 1] == a + b';
        assert (a + b)[|a + b| - 1] == b[|b| - 1];
        ResolveSentUnfold(structured, a + b);
      }
      assert Resolve(structured, b).0 == Resolve(structured, b').0 + tail by {
        ResolveSentUnfold(structured, b);
      }
      ResolveAppend(structured, a, b');
    }
  }

  /** The rules sent for a non-empty list: those for all but its last id, then the last id's latest rule, if any. */
  lemma ResolveSentUnfold(structured: seq<StructuredRule>, ids: seq<string>)
    requires |ids| > 0
    ensures var last := LatestStructured(structured, ids[|ids| - 1]);
            Resolve(structured, ids).0 == Resolve(structured, ids[..|ids| - 1]).0 + (if last.Some? then [last.value] else [])
  {
    ResolveUnfold(structured, ids);
  }

  /**
   * Each id with an interpretation contributes its latest interpretation once
   * per appearance in the active ids, and nothing else contributes that row.
   */
  lemma {:induction false} ResolveCounts(structured: seq<StructuredRule>, ids: seq<string>, x: string)
    requires LatestStructured(structured, x).Some?
    ensures multiset(Resolve(structured, ids).0)[LatestStructured(structured, x).value] == multiset(ids)[x]
    decreases |ids|
  {
    if |ids| > 0 {
      var init := ids[..|ids| - 1];
      var rid := ids[|ids| - 1];
      assert ids == init + [rid];
      ResolveCounts(structured, init, x);
      ResolveSentUnfold(structured, ids);
      var last := LatestStructured(structured, rid);
      if last.Some? && rid != x {
        assert last.value.content.ruleId == rid;
        assert LatestStructured(structured, x).value.content.ruleId == x;
      }
    }
  }

  /** Resolution of a non-empty list is one step after resolving all but its last id. */
  lemma ResolveUnfold(structured: seq<StructuredRule>, ids: seq<string>)
    requires |ids| > 0
    ensures Resolve(structured, ids) == ResolveStep(structured, Resolve(structured, ids[..|ids| - 1]), ids[|ids| - 1])
  {
  }

  /** The interpretations a replay re-evaluates: for each recorded key, the first row with exactly that key. */
  function Pinned(structured: seq<StructuredRule>, versions: seq<RuleKey>): (r: seq<StructuredRule>)
    ensures |r| <= |versions|
    ensures forall k :: 0 <= k < |r| ==> r[k] in structured && exists i :: 0 <= i < |versions| && r[k].Key() == versions[i]
    ensures forall i :: 0 <= i < |versions| && FirstWithKey(structured, versions[i]).Some? ==>
      FirstWithKey(structured, versions[i]).value in r
  {
    if |versions| == 0 then []
    else
      var init := versions[..|versions| - 1];
      var key := versions[|versions| - 1];
      var rest := Pinned(structured, init);
      assert forall k :: 0 <= k < |init| ==> init[k] == versions[k];
      match FirstWithKey(structured, key)
      case None => rest
      case Some(row) => rest + [row]
  }

  /** The rules pinned for a concatenation of keys are those pinned for each part, in order. */
  lemma {:induction false} PinnedAppend(structured: seq<StructuredRule>, a: seq<RuleKey>, b: seq<RuleKey>)
    ensures Pinned(structured, a + b) == Pinned(structured, a) + Pinned(structured, b)
    decreases |b|
  {
    if |b| == 0 {
      assert a + b == a;
    } else {
      var b' := b[..|b| - 1];
      assert (a + b)[..|a + b| - 1] == a + b';
      assert (a + b)[|a + b| - 1] == b[|b| - 1];
      PinnedAppend(structured, a, b');
    }
  }

  /**
   * `replay_decision`: the recorded decision's rule versions, the event in
   * force when it was made, one reasoning call, and a new decision carrying
   * the same rule versions.  The decision's own workflow is never compared
   * with `wid`, and there is no degradation: any failure is an error and
   * nothing is recorded.
   */
  function ReplayDecision(s: Store, wid: string, did: nat, now: nat, reasoner: Reasoner, parse: Parser): (r: (Store, Result<ComplianceDecision, ApiError>))
    ensures FindDecision(s.decisions, did).None? ==> r == (s, Err(NotFound))
    ensures r.1.Err? ==> r.0 == s
    ensures r.1.Ok? ==>
      var prior := FindDecision(s.decisions, did).value;
      && r.0 == AppendDecision(s, r.1.value.body)
      && r.1.value.id == |s.decisions| + 1
      && r.1.value.body.workflowId == wid
      && r.1.value.body.ruleVersions == prior.body.ruleVersions
      && r.1.value.body.createdAt == now
    ensures r.1.Ok? <==>
      && FindDecision(s.decisions, did).Some?
      && var prior := FindDecision(s.decisions, did).value;
         var event := LatestEvent(s.events, wid, Some(prior.body.createdAt));
         var rules := Pinned(s.structured, prior.body.ruleVersions);
         event.Some? && Judge(Evaluate(event.value, rules, reasoner, parse), rules).Decided?
    ensures r.1.Ok? ==>
      var prior := FindDecision(s.decisions, did).value;
      var event := LatestEvent(s.events, wid, Some(prior.body.createdAt)).value;
      var rules := Pinned(s.structured, prior.body.ruleVersions);
      var body := r.1.value.body;
      Judge(Evaluate(event, rules, reasoner, parse), rules) == Decided(body.outcome, body.violatedRules, body.reasoningTrace)
  {
    match FindDecision(s.decisions, did)
    case None => (s, Err(NotFound))
    case Some(prior) =>
      var event := LatestEvent(s.events, wid, Some(prior.body.createdAt));
      var rules := Pinned(s.structured, prior.body.ruleVersions);
      if event.None? then (s, Err(NoEventInForce))
      else
        match Judge(Evaluate(event.value, rules, reasoner, parse), rules)
        case Degraded(f) => (s, Err(Unhandled(f)))
        case Decided(outcome, violated, trace) =>
          var body := DecisionBody(wid, outcome, violated, trace, prior.body.ruleVersions, now);
          (AppendDecision(s, body), Ok(ComplianceDecision(|s.decisions| + 1, body)))
  }
}
