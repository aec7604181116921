/**
 * Why replay is faithful: a decision replayed later, with the same reasoning
 * answers, re-evaluates the very interpretations and event its audit used,
 * and so records the same outcome, violations, trace and rule versions.
 */
module Replay {
  import opened Common
  import opened Json
  import opened Models
  import opened Store
  import opened Agents
  import opened Audit

  /** Pinning a non-empty list of keys is one lookup after pinning all but the last. */
  lemma PinnedUnfold(structured: seq<StructuredRule>, versions: seq<RuleKey>)
    requires |versions| > 0
    ensures var rest := Pinned(structured, versions[..|versions| - 1]);
            Pinned(structured, versions) ==
              match FirstWithKey(structured, versions[|versions| - 1])
              case None => rest
              case Some(row) => rest + [row]
  {
  }

  /** Under unique keys, the first row with a row's own key is that row. */
  lemma FirstWithOwnKey(structured: seq<StructuredRule>, row: StructuredRule)
    requires UniqueKeys(structured) && row in structured
    ensures FirstWithKey(structured, row.Key()) == Some(row)
  {
    var i :| 0 <= i < |structured| && structured[i] == row;
    var found := FirstWithKey(structured, row.Key());
    assert found.Some?;
    var k :| 0 <= k < |structured| && structured[k] == found.value
             && forall j :: 0 <= j < k ==> structured[j].Key() != row.Key();
    assert k == i;
  }

  /**
   * The recorded versions of an audit pin exactly the interpretations it sent
   * to the reasoner, however many interpretations are added afterwards,
   * provided the active ids were distinct and `(rule_id, version)` identified
   * interpretations.
   */
  lemma {:induction false} PinnedRecoversResolved(structured: seq<StructuredRule>, later: seq<StructuredRule>, ids: seq<string>)
    requires Distinct(ids) && UniqueKeys(structured)
    ensures Pinned(structured + later, Resolve(structured, ids).1) == Resolve(structured, ids).0
  {
    if |ids| > 0 {
      var init := ids[..|ids| - 1];
      var rid := ids[|ids| - 1];
      assert Distinct(init);
      PinnedRecoversResolved(structured, later, init);
      ResolveUnfold(structured, ids);
      var prev := Resolve(structured, init);
      match LatestStructured(structured, rid)
      case None =>
      case Some(row) =>
        assert rid !in init;
        assert !HasRule(prev.1, rid);
        var key := RuleKey(rid, row.content.version);
        assert Resolve(structured, ids).1 == prev.1 + [key];
        assert (prev.1 + [key])[..|prev.1|] == prev.1;
        PinnedUnfold(structured + later, prev.1 + [key]);
        FirstWithOwnKey(structured, row);
        FirstWithKeyStable(structured, later, key);
    }
  }

  /**
   * The event in force at the audit's instant `t`, among all events recorded
   * by the time of the replay, is the one the audit used, when every event the
   * audit saw was submitted by `t` and every later one after it.
   */
  lemma ReplayEventIsAuditEvent(events: seq<WorkflowEvent>, later: seq<WorkflowEvent>, wid: string, t: nat)
    requires forall k :: 0 <= k < |events| ==> events[k].submittedAt <= t
    requires forall k :: 0 <= k < |later| ==> later[k].submittedAt > t
    ensures LatestEvent(events + later, wid, Some(t)) == LatestEvent(events, wid, None)
  {
    var bounded := (e: WorkflowEvent) => EventMatches(e, wid, Some(t));
    var unbounded := (e: WorkflowEvent) => EventMatches(e, wid, None);
    var time := (e: WorkflowEvent) => e.submittedAt;
    MostRecentIgnoresRejected(events, later, bounded, time);
    MostRecentAgreeingFilters(events, bounded, unbounded, time);
  }

  /**
   * Replaying an audited decision later, with the same reasoning answers,
   * reproduces it: same outcome, same violated rules, same trace, same rule
   * versions.  The later store may have more events (all submitted after the
   * audit), more interpretations and more decisions, and any rule table at all.
   */
  lemma ReplayReproducesAudit(s: Store, wid: string, now: nat, reasoner: Reasoner, parse: Parser,
                              s1: Store, d: ComplianceDecision, editedRules: seq<ComplianceRule>,
                              laterEvents: seq<WorkflowEvent>, laterStructured: seq<StructuredRule>,
                              laterDecisions: seq<ComplianceDecision>, now2: nat)
    requires Distinct(ActiveRuleIds(s.rules)) && UniqueKeys(s.structured)
    requires forall k :: 0 <= k < |s.events| ==> s.events[k].submittedAt <= now
    requires forall k :: 0 <= k < |laterEvents| ==> laterEvents[k].submittedAt > now
    requires AuditWorkflow(s, wid, now, reasoner, parse) == (s1, Ok(Recorded(d)))
    requires d.body.outcome != RequiresReview
    requires DecisionIdsAreRowNumbers(s1.decisions + laterDecisions)
    ensures var s2 := Store(s1.events + laterEvents, editedRules, s1.structured + laterStructured, s1.decisions + laterDecisions);
            var r := ReplayDecision(s2, wid, d.id, now2, reasoner, parse);
            && r.1.Ok?
            && r.1.value.body.outcome == d.body.outcome
            && r.1.value.body.violatedRules == d.body.violatedRules
            && r.1.value.body.reasoningTrace == d.body.reasoningTrace
            && r.1.value.body.ruleVersions == d.body.ruleVersions
  {
    var s2 := Store(s1.events + laterEvents, editedRules, s1.structured + laterStructured, s1.decisions + laterDecisions);
    assert LatestEvent(s.events, wid, None).Some? && ActiveRuleIds(s.rules) != [];
    var event := LatestEvent(s.events, wid, None).value;
    var (rules, versions) := AuditRules(s);
    assert s1.events == s.events && s1.structured == s.structured;
    assert d.id == |s.decisions| + 1;
    assert s2.decisions[|s.decisions|] == d;
    assert FindDecision(s2.decisions, d.id) == Some(d);
    ReplayEventIsAuditEvent(s.events, laterEvents, wid, now);
    PinnedRecoversResolved(s.structured, laterStructured, ActiveRuleIds(s.rules));
    assert Pinned(s2.structured, d.body.ruleVersions) == rules;
    assert d.body == Record(wid, Judge(Evaluate(event, rules, reasoner, parse), rules), versions, now);
  }
}
