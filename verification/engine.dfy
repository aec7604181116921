/**
 * The deterministic decision layer: maps the reasoning service's per-rule
 * verdicts (and the rules' severities) to the final outcome of an audit.
 * An evaluation is a JSON object (`Dict[str, Any]`); only its `status` and
 * `rule_id` entries are read, each through `.get`, so either may be absent.
 */
module Engine {
  import opened Common
  import opened Json
  import opened Models

  type Evaluation = map<string, Json>

  /** `evaluation.get(key)`. */
  function Get(e: Evaluation, key: string): Option<Json>
  {
    if key in e then Some(e[key]) else None
  }

  /** An evaluation counts as a violation exactly when its status is the string "NON_COMPLIANT". */
  predicate IsViolation(e: Evaluation)
  {
    Get(e, "status") == Some(JStr(OutcomeName(NonCompliant)))
  }

  /** The number of violations among `evals`. */
  function CountViolations(evals: seq<Evaluation>): nat
  {
    if |evals| == 0 then 0
    else CountViolations(evals[..|evals| - 1]) + (if IsViolation(evals[|evals| - 1]) then 1 else 0)
  }

  /**
   * The `violated_rules` list the engine accumulates: `evaluation.get("rule_id")`
   * of every violation, in evaluation order (`None` where the id is absent).
   */
  function ViolatedIds(evals: seq<Evaluation>): (r: seq<Option<Json>>)
    ensures |r| == CountViolations(evals)
    ensures |r| == 0 <==> forall i :: 0 <= i < |evals| ==> !IsViolation(evals[i])
    ensures forall k :: 0 <= k < |r| ==> exists i :: 0 <= i < |evals| && IsViolation(evals[i]) && r[k] == Get(evals[i], "rule_id")
  {
    if |evals| == 0 then []
    else
      var init := evals[..|evals| - 1];
      var last := evals[|evals| - 1];
      var rest := ViolatedIds(init);
      assert forall i :: 0 <= i < |init| ==> init[i] == evals[i];
      if IsViolation(last) then rest + [Get(last, "rule_id")] else rest
  }

  /** One evaluation contributes its `rule_id` if it is a violation, and nothing otherwise. */
  lemma ViolatedIdsSingle(e: Evaluation)
    ensures ViolatedIds([e]) == if IsViolation(e) then [Get(e, "rule_id")] else []
  {
    assert [e][..0] == [];
  }

  /** The violated list of a concatenation is the concatenation of the violated lists: evaluation order is kept. */
  lemma {:induction false} ViolatedIdsAppend(a: seq<Evaluation>, b: seq<Evaluation>)
    ensures ViolatedIds(a + b) == ViolatedIds(a) + ViolatedIds(b)
    decreases |b|
  {
    if |b| == 0 {
      assert a + b == a;
    } else {
      var b' := b[..|b| - 1];
      assert (a + b)[..|a + b| - 1] == a + b';
      assert (a + b)[|a + b| - 1] == b[|b| - 1];
      ViolatedIdsAppend(a, b');
    }
  }

  /** True iff `severities.get(id) == RuleSeverity.HIGH`: only a string id can be a key of the map. */
  predicate IsHigh(id: Option<Json>, severities: map<string, RuleSeverity>)
  {
    id.Some? && id.value.JStr? && id.value.s in severities && severities[id.value.s] == High
  }

  /** True iff `severities.get(id)` can be evaluated: an absent id is Python's `None`, which hashes. */
  predicate Hashes(id: Option<Json>)
  {
    id.None? || Hashable(id.value)
  }

  /**
   * True iff the scan for a HIGH violation raises: it reaches an id that
   * cannot be hashed before it has found a HIGH one.
   */
  predicate ScanRaises(violated: seq<Option<Json>>, severities: map<string, RuleSeverity>)
  {
    exists k :: 0 <= k < |violated| && !Hashes(violated[k]) && forall j :: 0 <= j < k ==> !IsHigh(violated[j], severities)
  }

  /** What `decide` raises: the `TypeError` of looking up an unhashable rule id. */
  datatype EngineError = TypeErrorOn(id: Json)

  /**
   * `any(rule_severities.get(rid) == RuleSeverity.HIGH for rid in violated_rules)`:
   * the ids are looked up in order and the scan stops at the first HIGH one.
   */
  function AnyHigh(violated: seq<Option<Json>>, severities: map<string, RuleSeverity>): (r: Result<bool, EngineError>)
    ensures r.Err? <==> ScanRaises(violated, severities)
    ensures r.Err? ==> exists k :: 0 <= k < |violated| && violated[k] == Some(r.error.id) && !Hashes(violated[k])
    ensures r.Ok? ==> (r.value <==> exists k :: 0 <= k < |violated| && IsHigh(violated[k], severities))
  {
    if |violated| == 0 then Ok(false)
    else if !Hashes(violated[0]) then Err(TypeErrorOn(violated[0].value))
    else if IsHigh(violated[0], severities) then Ok(true)
    else
      var r := AnyHigh(violated[1..], severities);
      assert forall k :: 0 < k < |violated| ==> violated[k] == violated[1..][k - 1];
      assert ScanRaises(violated[1..], severities) ==> ScanRaises(violated, severities) by {
        if ScanRaises(violated[1..], severities) {
          var k :| 0 <= k < |violated[1..]| && !Hashes(violated[1..][k])
                   && forall j :: 0 <= j < k ==> !IsHigh(violated[1..][j], severities);
          assert !Hashes(violated[k + 1]);
          assert forall j :: 0 <= j < k + 1 ==> !IsHigh(violated[j], severities) by {
            forall j | 0 <= j < k + 1 ensures !IsHigh(violated[j], severities) {
              if j > 0 { assert violated[j] == violated[1..][j - 1]; }
            }
          }
        }
      }
      assert ScanRaises(violated, severities) ==> ScanRaises(violated[1..], severities) by {
        if ScanRaises(violated, severities) {
          var k :| 0 <= k < |violated| && !Hashes(violated[k]) && forall j :: 0 <= j < k ==> !IsHigh(violated[j], severities);
          assert k > 0;
          assert !Hashes(violated[1..][k - 1]);
        }
      }
      r
  }

  /** True iff every violation's `rule_id` can be hashed (for example, every one is a string or absent). */
  predicate ViolationIdsHash(evals: seq<Evaluation>)
  {
    forall i :: 0 <= i < |evals| && IsViolation(evals[i]) ==> Hashes(Get(evals[i], "rule_id"))
  }

  /**
   * `DecisionEngine.decide`.  The severity test is computed but both of its
   * branches return NON_COMPLIANT; the test itself raises when it reaches an
   * unhashable rule id before a HIGH one.
   */
  function Decide(evals: seq<Evaluation>, severities: map<string, RuleSeverity>): (r: Result<DecisionOutcome, EngineError>)
    ensures r.Ok? ==> r.value != RequiresReview
    ensures r.Ok? ==> (r.value == NonCompliant <==> exists i :: 0 <= i < |evals| && IsViolation(evals[i]))
    ensures (forall i :: 0 <= i < |evals| ==> !IsViolation(evals[i])) ==> r == Ok(Compliant)
    ensures r.Err? <==> ScanRaises(ViolatedIds(evals), severities)
    ensures ViolationIdsHash(evals) ==> r.Ok?
  {
    if |evals| == 0 then Ok(Compliant)
    else
      var violated := ViolatedIds(evals);
      if |violated| == 0 then Ok(Compliant)
      else
        var high :- AnyHigh(violated, severities);
        if high then Ok(NonCompliant) else Ok(NonCompliant)
  }

  /** `DecisionEngine.resolve_conflicts`: a seam that hands back its input unchanged. */
  function ResolveConflicts(evals: seq<Evaluation>): (r: seq<Evaluation>)
    ensures r == evals
  {
    evals
  }

  /** With nothing evaluated the outcome is COMPLIANT, whatever the severities. */
  lemma DecideEmpty(severities: map<string, RuleSeverity>)
    ensures Decide([], severities) == Ok(Compliant)
  {
  }

  /**
   * The severity map never changes an outcome: where both maps let `decide`
   * finish, they give the same answer, and with hashable ids it always
   * finishes.  Whether it finishes can depend on the map (`DecideDependsOnSeverities`).
   */
  lemma DecideIgnoresSeverities(evals: seq<Evaluation>, s1: map<string, RuleSeverity>, s2: map<string, RuleSeverity>)
    ensures Decide(evals, s1).Ok? && Decide(evals, s2).Ok? ==> Decide(evals, s1) == Decide(evals, s2)
    ensures ViolationIdsHash(evals) ==> Decide(evals, s1) == Decide(evals, s2)
  {
  }

  /**
   * Permuting the evaluations never changes an outcome: where `decide`
   * finishes on both orders the answers agree, and with hashable ids it
   * finishes on every order.  Whether it finishes can depend on the order
   * (`DecideDependsOnOrder`).
   */
  lemma DecidePermutationInvariant(a: seq<Evaluation>, b: seq<Evaluation>, severities: map<string, RuleSeverity>)
    requires multiset(a) == multiset(b)
    ensures Decide(a, severities).Ok? && Decide(b, severities).Ok? ==> Decide(a, severities) == Decide(b, severities)
    ensures ViolationIdsHash(a) ==> Decide(a, severities) == Decide(b, severities)
  {
    ViolationTransfers(a, b);
    ViolationTransfers(b, a);
    if ViolationIdsHash(a) {
      forall j | 0 <= j < |b| && IsViolation(b[j]) ensures Hashes(Get(b[j], "rule_id")) {
        assert b[j] in multiset(a);
      }
    }
  }

  /** A violation in `a` is a violation somewhere in any permutation `b` of it. */
  lemma ViolationTransfers(a: seq<Evaluation>, b: seq<Evaluation>)
    requires multiset(a) == multiset(b)
    ensures (exists i :: 0 <= i < |a| && IsViolation(a[i])) ==> exists j :: 0 <= j < |b| && IsViolation(b[j])
  {
    if i :| 0 <= i < |a| && IsViolation(a[i]) {
      assert a[i] in multiset(a);
      assert a[i] in multiset(b);
      var j :| 0 <= j < |b| && b[j] == a[i];
    }
  }

  /** A violation whose `rule_id` is a list. */
  const ListIdViolation: Evaluation := map["rule_id" := JArr([JStr("x")]), "status" := JStr("NON_COMPLIANT")]
  /** A violation of rule "R1". */
  const R1Violation: Evaluation := map["rule_id" := JStr("R1"), "status" := JStr("NON_COMPLIANT")]

  /** A leading violation whose id cannot be hashed makes `decide` raise, whatever follows it. */
  lemma DecideRaisesOnLeadingUnhashable(e: Evaluation, rest: seq<Evaluation>, severities: map<string, RuleSeverity>)
    requires IsViolation(e) && !Hashes(Get(e, "rule_id"))
    ensures Decide([e] + rest, severities) == Err(TypeErrorOn(Get(e, "rule_id").value))
  {
    ViolatedIdsSingle(e);
    ViolatedIdsAppend([e], rest);
    var v := ViolatedIds([e] + rest);
    assert v[0] == Get(e, "rule_id");
    assert ScanRaises(v, severities);
  }

  /** A leading HIGH violation settles `decide` on NON_COMPLIANT, whatever follows it. */
  lemma DecideStopsAtLeadingHigh(e: Evaluation, rest: seq<Evaluation>, severities: map<string, RuleSeverity>)
    requires IsViolation(e) && IsHigh(Get(e, "rule_id"), severities)
    ensures Decide([e] + rest, severities) == Ok(NonCompliant)
  {
    var evals := [e] + rest;
    var v := ViolatedIds(evals);
    assert |v| > 0 && v[0] == Get(e, "rule_id") by {
      ViolatedIdsSingle(e);
      ViolatedIdsAppend([e], rest);
    }
    assert AnyHigh(v, severities) == Ok(true);
  }

  /**
   * A leading violation with a hashable id that is not HIGH is passed over:
   * `decide` raises exactly when it would without it.
   */
  lemma DecideSkipsLeadingLow(e: Evaluation, rest: seq<Evaluation>, severities: map<string, RuleSeverity>)
    requires IsViolation(e) && Hashes(Get(e, "rule_id")) && !IsHigh(Get(e, "rule_id"), severities)
    ensures Decide([e] + rest, severities).Err? <==> Decide(rest, severities).Err?
  {
    ViolatedIdsSingle(e);
    ViolatedIdsAppend([e], rest);
    ScanSkipsLow(Get(e, "rule_id"), ViolatedIds(rest), severities);
  }

  /** The HIGH scan passes over a hashable id that is not HIGH. */
  lemma ScanSkipsLow(id: Option<Json>, w: seq<Option<Json>>, severities: map<string, RuleSeverity>)
    requires Hashes(id) && !IsHigh(id, severities)
    ensures ScanRaises([id] + w, severities) <==> ScanRaises(w, severities)
  {
    var v := [id] + w;
    if ScanRaises(w, severities) {
      var k :| 0 <= k < |w| && !Hashes(w[k]) && forall j :: 0 <= j < k ==> !IsHigh(w[j], severities);
      assert v[k + 1] == w[k];
      forall j | 0 <= j < k + 1
        ensures !IsHigh(v[j], severities)
      {
        if j > 0 {
          assert v[j] == w[j - 1];
        }
      }
      assert ScanRaises(v, severities);
    }
    if ScanRaises(v, severities) {
      var k :| 0 <= k < |v| && !Hashes(v[k]) && forall j :: 0 <= j < k ==> !IsHigh(v[j], severities);
      assert k > 0;
      assert w[k - 1] == v[k];
      forall j | 0 <= j < k - 1
        ensures !IsHigh(w[j], severities)
      {
        assert w[j] == v[j + 1];
      }
      assert ScanRaises(w, severities);
    }
  }

  /**
   * The order of the evaluations decides whether `decide` raises: a list id
   * met first raises, but a HIGH id met first ends the scan before it.
   */
  lemma DecideDependsOnOrder()
    ensures Decide([ListIdViolation, R1Violation], map["R1" := High]).Err?
    ensures Decide([R1Violation, ListIdViolation], map["R1" := High]) == Ok(NonCompliant)
  {
    ExampleViolations();
    DecideRaisesOnLeadingUnhashable(ListIdViolation, [R1Violation], map["R1" := High]);
    assert [ListIdViolation] + [R1Violation] == [ListIdViolation, R1Violation];
    DecideStopsAtLeadingHigh(R1Violation, [ListIdViolation], map["R1" := High]);
    assert [R1Violation] + [ListIdViolation] == [R1Violation, ListIdViolation];
  }

  /**
   * The severities decide whether `decide` raises: the answers that
   * `DecideDependsOnOrder` finishes on raise once "R1" is not HIGH.
   */
  lemma DecideDependsOnSeverities()
    ensures Decide([R1Violation, ListIdViolation], map["R1" := Low]).Err?
  {
    ExampleViolations();
    DecideRaisesOnLeadingUnhashable(ListIdViolation, [], map["R1" := Low]);
    assert [ListIdViolation] + [] == [ListIdViolation];
    DecideSkipsLeadingLow(R1Violation, [ListIdViolation], map["R1" := Low]);
    assert [R1Violation] + [ListIdViolation] == [R1Violation, ListIdViolation];
  }

  /** What the two example evaluations are: violations, with a list id and the id "R1". */
  lemma ExampleViolations()
    ensures IsViolation(ListIdViolation) && Get(ListIdViolation, "rule_id") == Some(JArr([JStr("x")]))
    ensures IsViolation(R1Violation) && Get(R1Violation, "rule_id") == Some(JStr("R1"))
  {
  }

  /**
   * An entry whose status is absent, or is anything but the string
   * "NON_COMPLIANT", never changes what `decide` does, wherever it is inserted.
   */
  lemma DecideIgnoresNonViolations(a: seq<Evaluation>, b: seq<Evaluation>, e: Evaluation, severities: map<string, RuleSeverity>)
    requires "status" !in e || e["status"] != JStr("NON_COMPLIANT")
    ensures Decide(a + [e] + b, severities) == Decide(a + b, severities)
  {
    assert !IsViolation(e);
    ViolatedIdsSingle(e);
    ViolatedIdsAppend(a, [e]);
    ViolatedIdsAppend(a + [e], b);
    ViolatedIdsAppend(a, b);
    assert ViolatedIds(a + [e] + b) == ViolatedIds(a + b);
    DecideByViolatedIds(a + [e] + b, a + b, severities);
  }

  /** `decide` looks at the evaluations only through the violated ids it collects. */
  lemma DecideByViolatedIds(a: seq<Evaluation>, b: seq<Evaluation>, severities: map<string, RuleSeverity>)
    requires ViolatedIds(a) == ViolatedIds(b)
    ensures Decide(a, severities) == Decide(b, severities)
  {
  }

  /** Passing the evaluations through the conflict-resolution seam first changes nothing. */
  lemma ResolveConflictsPreservesDecision(evals: seq<Evaluation>, severities: map<string, RuleSeverity>)
    ensures Decide(ResolveConflicts(evals), severities) == Decide(evals, severities)
  {
  }
}
