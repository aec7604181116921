/**
 * Rule creation and update, each followed by an interpretation of the rule.
 * A failed interpretation undoes the rule write before the error is
 * returned: a created rule is deleted again, an updated rule gets back every
 * field it had.
 */
module RuleMutation {
  import opened Common
  import opened Models
  import opened Store
  import opened Agents

  /** The body of a create or update request; absent optional fields are `None`. */
  datatype RuleRequest = RuleRequest(
    ruleId: string,
    category: RuleCategory,
    ruleText: string,
    severity: RuleSeverity,
    version: string,
    status: Option<RuleStatus>,
    effectiveFrom: Option<nat>)

  datatype RuleError = RuleNotFound | InterpretationFailed(cause: Failure)

  /** The status a request carries once validated: ACTIVE unless it names one. */
  function RequestedStatus(req: RuleRequest): (st: RuleStatus)
    ensures req.status.None? ==> st == Active
    ensures req.status.Some? ==> st == req.status.value
  {
    match req.status
    case None => Active
    case Some(st) => st
  }

  /** The row a create request describes, before the table assigns its id; a missing date defaults to `now`. */
  function NewRule(req: RuleRequest, now: nat): (rule: ComplianceRule)
    ensures rule.status == RequestedStatus(req)
    ensures rule.effectiveFrom == (if req.effectiveFrom.Some? then req.effectiveFrom.value else now)
    ensures rule.ruleId == req.ruleId && rule.ruleText == req.ruleText && rule.version == req.version
    ensures rule.category == req.category && rule.severity == req.severity
  {
    ComplianceRule(0, req.ruleId, req.category, req.ruleText, req.severity, req.version,
                   if req.effectiveFrom.Some? then req.effectiveFrom.value else now, RequestedStatus(req))
  }

  /**
   * `create_compliance_rule`: store the rule, interpret it, store the
   * interpretation; if interpretation fails, delete the rule again.
   */
  function CreateRule(s: Store, req: RuleRequest, now: nat, interpreter: ComplianceRule -> CallOutcome, parse: Parser): (r: (Store, Result<ComplianceRule, RuleError>))
    ensures r.1.Err? ==> r.0 == s && r.1.error.InterpretationFailed?
    ensures r.1.Ok? <==> Interpret(NewRule(req, now).(id := NextRuleId(s.rules)), interpreter, parse).Ok?
    ensures r.1.Ok? ==>
      var stored := r.1.value;
      && stored == NewRule(req, now).(id := NextRuleId(s.rules))
      && (forall k :: 0 <= k < |s.rules| ==> s.rules[k].id != stored.id)
      && r.0.rules == s.rules + [stored]
      && |r.0.structured| == |s.structured| + 1
      && r.0.structured[..|s.structured|] == s.structured
      && r.0.structured[|s.structured|].content == Interpret(stored, interpreter, parse).value
      && r.0.events == s.events && r.0.decisions == s.decisions
  {
    var s1 := InsertRule(s, NewRule(req, now));
    var stored := s1.rules[|s.rules|];
    match Interpret(stored, interpreter, parse)
    case Ok(x) =>
      var s2 := AppendStructured(s1, x, now);
      assert s2.structured[..|s.structured|] == s.structured;
      (s2, Ok(stored))
    case Err(f) =>
      InsertThenDeleteRule(s, NewRule(req, now));
      (Delete(s1, ComplianceRules, |s.rules|).0, Err(InterpretationFailed(f)))
  }

  /**
   * The rule after an update request: each field the request gives a truthy
   * value replaces the stored one.  Enum fields are always truthy, and the
   * status defaults to ACTIVE, so those three are always replaced.
   */
  function Overwrite(rule: ComplianceRule, req: RuleRequest): (r: ComplianceRule)
    ensures r.id == rule.id
    ensures r.ruleId == (if |req.ruleId| > 0 then req.ruleId else rule.ruleId)
    ensures r.ruleText == (if |req.ruleText| > 0 then req.ruleText else rule.ruleText)
    ensures r.version == (if |req.version| > 0 then req.version else rule.version)
    ensures r.effectiveFrom == (if req.effectiveFrom.Some? then req.effectiveFrom.value else rule.effectiveFrom)
    ensures r.category == req.category && r.severity == req.severity && r.status == RequestedStatus(req)
  {
    rule.(
      ruleId := if |req.ruleId| > 0 then req.ruleId else rule.ruleId,
      category := req.category,
      ruleText := if |req.ruleText| > 0 then req.ruleText else rule.ruleText,
      severity := req.severity,
      version := if |req.version| > 0 then req.version else rule.version,
      status := RequestedStatus(req),
      effectiveFrom := if req.effectiveFrom.Some? then req.effectiveFrom.value else rule.effectiveFrom)
  }

  /**
   * `update_compliance_rule`: overwrite the first rule row with id `rid`,
   * re-interpret it, and store the interpretation; if interpretation fails,
   * write every old field value back.
   */
  function UpdateRule(s: Store, rid: string, req: RuleRequest, now: nat, interpreter: ComplianceRule -> CallOutcome, parse: Parser): (r: (Store, Result<ComplianceRule, RuleError>))
    ensures FirstRuleIndex(s.rules, rid).None? ==> r == (s, Err(RuleNotFound))
    ensures r.1.Err? ==> r.0 == s
    ensures r.1.Ok? ==>
      var i := FirstRuleIndex(s.rules, rid).value;
      && r.1.value == Overwrite(s.rules[i], req)
      && r.0.rules == s.rules[i := r.1.value]
      && |r.0.structured| == |s.structured| + 1
      && r.0.structured[..|s.structured|] == s.structured
      && Interpret(r.1.value, interpreter, parse).Ok?
      && r.0.structured[|s.structured|].content == Interpret(r.1.value, interpreter, parse).value
      && r.0.events == s.events && r.0.decisions == s.decisions
    ensures FirstRuleIndex(s.rules, rid).Some? ==>
      (r.1.Ok? <==> Interpret(Overwrite(s.rules[FirstRuleIndex(s.rules, rid).value], req), interpreter, parse).Ok?)
  {
    match FirstRuleIndex(s.rules, rid)
    case None => (s, Err(RuleNotFound))
    case Some(i) =>
      var current := s.rules[i];
      var updated := Overwrite(current, req);
      var s1 := Update(s, i, RuleRow(updated)).0;
      assert s1.rules == s.rules[i := updated] by {
        assert RowAt(s1, ComplianceRules, i) == RuleRow(updated);
        assert forall k :: 0 <= k < |s.rules| && k != i ==> RowAt(s1, ComplianceRules, k) == RowAt(s, ComplianceRules, k);
      }
      match Interpret(updated, interpreter, parse)
      case Ok(x) =>
        var s2 := AppendStructured(s1, x, now);
        assert s2.structured[..|s.structured|] == s.structured;
        (s2, Ok(updated))
      case Err(f) =>
        var s3 := Update(s1, i, RuleRow(current)).0;
        assert s3.rules == s.rules by {
          assert RowAt(s3, ComplianceRules, i) == RuleRow(current);
          assert forall k :: 0 <= k < |s.rules| && k != i ==> RowAt(s3, ComplianceRules, k) == RowAt(s1, ComplianceRules, k);
        }
        (s3, Err(InterpretationFailed(f)))
  }

  /** A failed interpretation leaves no trace of a create: same rules, no interpretation added. */
  lemma FailedCreateLeavesNoRule(s: Store, req: RuleRequest, now: nat, interpreter: ComplianceRule -> CallOutcome, parse: Parser)
    requires interpreter(NewRule(req, now).(id := NextRuleId(s.rules))).Raised?
    ensures var seconds := interpreter(NewRule(req, now).(id := NextRuleId(s.rules))).seconds;
            CreateRule(s, req, now, interpreter, parse) ==
              (s, Err(InterpretationFailed(if seconds > InterpreterTimeout then TimedOut(InterpreterTimeout) else ServiceError)))
  {
  }

  /** A re-interpretation that times out restores the rule exactly. */
  lemma TimedOutUpdateRestores(s: Store, rid: string, req: RuleRequest, now: nat, interpreter: ComplianceRule -> CallOutcome, parse: Parser)
    requires FirstRuleIndex(s.rules, rid).Some?
    requires var rule := Overwrite(s.rules[FirstRuleIndex(s.rules, rid).value], req);
             interpreter(rule).Finished? && interpreter(rule).seconds > InterpreterTimeout
    ensures UpdateRule(s, rid, req, now, interpreter, parse) == (s, Err(InterpretationFailed(TimedOut(InterpreterTimeout))))
  {
  }
}
