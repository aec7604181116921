/**
 * The enumerations and record shapes of the audit system: workflow events,
 * human-authored compliance rules, their structured interpretations and the
 * compliance decisions recorded against workflows.  Timestamps are abstract
 * instants (`nat`); row ids are the tables' integer primary keys.
 */
module Models {
  import opened Common
  import opened Json

  datatype WorkflowType = ClaimProcessing | PolicyIssuance | DataAccessRequest | ApprovalEscalation

  datatype RuleCategory = Privacy | Security | Operational | Financial

  datatype RuleSeverity = Low | Medium | High

  datatype RuleStatus = Active | Deprecated

  datatype DecisionOutcome = Compliant | NonCompliant | RequiresReview

  /** The string value of each severity, as stored and as the reasoning service writes it. */
  function SeverityName(s: RuleSeverity): string
  {
    match s
    case Low => "LOW"
    case Medium => "MEDIUM"
    case High => "HIGH"
  }

  /** `RuleSeverity(value)`: the member whose value is `x`, or `None` where the enum raises. */
  function ParseSeverity(x: string): (r: Option<RuleSeverity>)
    ensures r.Some? <==> x in {"LOW", "MEDIUM", "HIGH"}
    ensures r.Some? ==> SeverityName(r.value) == x
  {
    if x == "LOW" then Some(Low)
    else if x == "MEDIUM" then Some(Medium)
    else if x == "HIGH" then Some(High)
    else None
  }

  /** Every severity is recovered from its own name, so the three names are distinct. */
  lemma SeverityNameRoundTrip(s: RuleSeverity)
    ensures ParseSeverity(SeverityName(s)) == Some(s)
  {
  }

  /** The string value of each decision outcome. */
  function OutcomeName(d: DecisionOutcome): string
  {
    match d
    case Compliant => "COMPLIANT"
    case NonCompliant => "NON_COMPLIANT"
    case RequiresReview => "REQUIRES_REVIEW"
  }

  /** `DecisionOutcome(value)`: the member whose value is `x`, or `None` where the enum raises. */
  function ParseOutcome(x: string): (r: Option<DecisionOutcome>)
    ensures r.Some? <==> x in {"COMPLIANT", "NON_COMPLIANT", "REQUIRES_REVIEW"}
    ensures r.Some? ==> OutcomeName(r.value) == x
  {
    if x == "COMPLIANT" then Some(Compliant)
    else if x == "NON_COMPLIANT" then Some(NonCompliant)
    else if x == "REQUIRES_REVIEW" then Some(RequiresReview)
    else None
  }

  /** An immutable fact about a business action, submitted at `submittedAt`. */
  datatype WorkflowEvent = WorkflowEvent(
    id: nat,
    workflowId: string,
    workflowType: WorkflowType,
    attributes: map<string, Json>,
    actorId: string,
    sourceSystem: string,
    submittedAt: nat)

  /** A human-authored rule.  `ruleId` is not unique across rows. */
  datatype ComplianceRule = ComplianceRule(
    id: nat,
    ruleId: string,
    category: RuleCategory,
    ruleText: string,
    severity: RuleSeverity,
    version: string,
    effectiveFrom: nat,
    status: RuleStatus)

  /** The validated interpretation of one rule, before it is stored. */
  datatype StructuredRuleCreate = StructuredRuleCreate(
    ruleId: string,
    version: string,
    applicabilityConditions: seq<string>,
    obligations: seq<string>,
    exceptions: seq<string>,
    severity: RuleSeverity,
    rawAiOutput: Option<string>)

  /** A stored interpretation; several rows may share a `ruleId`, one per interpretation. */
  datatype StructuredRule = StructuredRule(id: nat, content: StructuredRuleCreate, createdAt: nat)
  {
    function Key(): RuleKey
    {
      RuleKey(content.ruleId, content.version)
    }
  }

  /** The compound identity `(rule_id, version)` that links a rule to its interpretation. */
  datatype RuleKey = RuleKey(ruleId: string, version: string)

  /** One element of a decision's reasoning trace. */
  datatype TraceEntry =
    | RuleTrace(ruleId: Json, steps: Json)
    | Info(text: string)

  /** What a decision records, apart from its row id. */
  datatype DecisionBody = DecisionBody(
    workflowId: string,
    outcome: DecisionOutcome,
    violatedRules: seq<Json>,
    reasoningTrace: seq<TraceEntry>,
    ruleVersions: seq<RuleKey>,
    createdAt: nat)

  /** A stored decision. */
  datatype ComplianceDecision = ComplianceDecision(id: nat, body: DecisionBody)

  /*
   * `rule_versions` is a Python dict, which keeps its keys in insertion order;
   * it is modelled as a sequence of keys with distinct rule ids.
   */

  /** The rule ids of a `rule_versions` mapping, in insertion order. */
  function RuleIds(vs: seq<RuleKey>): (r: seq<string>)
    ensures |r| == |vs|
    ensures forall k :: 0 <= k < |r| ==> r[k] == vs[k].ruleId
  {
    seq(|vs|, k requires 0 <= k < |vs| => vs[k].ruleId)
  }

  /** True iff `rid` is a key of the mapping. */
  predicate HasRule(vs: seq<RuleKey>, rid: string)
  {
    exists k :: 0 <= k < |vs| && vs[k].ruleId == rid
  }

  /** True iff no rule id is a key twice: a well-formed dict. */
  predicate IsMapping(vs: seq<RuleKey>)
  {
    forall i, j :: 0 <= i < j < |vs| ==> vs[i].ruleId != vs[j].ruleId
  }

  /** `rule_versions[rid]`. */
  function VersionOf(vs: seq<RuleKey>, rid: string): (v: string)
    requires HasRule(vs, rid)
    ensures exists k :: 0 <= k < |vs| && vs[k] == RuleKey(rid, v)
    ensures IsMapping(vs) ==> forall k :: 0 <= k < |vs| && vs[k].ruleId == rid ==> vs[k].version == v
  {
    if vs[|vs| - 1].ruleId == rid then vs[|vs| - 1].version
    else
      assert HasRule(vs[..|vs| - 1], rid) by {
        var k :| 0 <= k < |vs| && vs[k].ruleId == rid;
        assert vs[..|vs| - 1][k] == vs[k];
      }
      var v := VersionOf(vs[..|vs| - 1], rid);
      ghost var k :| 0 <= k < |vs| - 1 && vs[..|vs| - 1][k] == RuleKey(rid, v);
      assert vs[k] == RuleKey(rid, v);
      v
  }

  /**
   * `rule_versions[rid] = v`: an existing key keeps its position and takes the
   * new version; a new key is appended.
   */
  function Put(vs: seq<RuleKey>, rid: string, v: string): (r: seq<RuleKey>)
    requires IsMapping(vs)
    ensures IsMapping(r)
    ensures HasRule(r, rid) && VersionOf(r, rid) == v
    ensures forall x :: HasRule(r, x) <==> HasRule(vs, x) || x == rid
    ensures forall x :: x != rid && HasRule(vs, x) ==> VersionOf(r, x) == VersionOf(vs, x)
    ensures HasRule(vs, rid) ==> |r| == |vs| && RuleIds(r) == RuleIds(vs)
    ensures !HasRule(vs, rid) ==> r == vs + [RuleKey(rid, v)]
  {
    if HasRule(vs, rid) then
      var k :| 0 <= k < |vs| && vs[k].ruleId == rid;
      var r := vs[k := RuleKey(rid, v)];
      assert r[k] == RuleKey(rid, v);
      assert forall x :: HasRule(r, x) ==> HasRule(vs, x);
      assert forall x :: HasRule(vs, x) ==> HasRule(r, x) by {
        forall x | HasRule(vs, x) ensures HasRule(r, x) {
          var j :| 0 <= j < |vs| && vs[j].ruleId == x;
          assert r[j].ruleId == x;
        }
      }
      r
    else
      var r := vs + [RuleKey(rid, v)];
      assert r[|vs|] == RuleKey(rid, v);
      assert forall x :: HasRule(vs, x) ==> HasRule(r, x) by {
        forall x | HasRule(vs, x) ensures HasRule(r, x) {
          var j :| 0 <= j < |vs| && vs[j].ruleId == x;
          assert r[j].ruleId == x;
        }
      }
      r
  }
}
