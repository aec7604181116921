/**
 * The persistence layer the audit core relies on: four tables held as
 * sequences in insertion order, the queries the core issues against them,
 * and the append-only guard registered on three of them.  A rejected write
 * leaves the whole store as it was (the session is rolled back).
 */
module Store {
  import opened Common
  import opened Models

  datatype Store = Store(
    events: seq<WorkflowEvent>,
    rules: seq<ComplianceRule>,
    structured: seq<StructuredRule>,
    decisions: seq<ComplianceDecision>)

  datatype Table = WorkflowEvents | ComplianceRules | StructuredRules | ComplianceDecisions

  /** The tables whose `before_update` and `before_delete` listeners raise. */
  predicate AppendOnly(t: Table)
  {
    t == WorkflowEvents || t == ComplianceDecisions || t == StructuredRules
  }

  /** A row of any table. */
  datatype Row =
    | EventRow(event: WorkflowEvent)
    | RuleRow(rule: ComplianceRule)
    | StructuredRow(structured: StructuredRule)
    | DecisionRow(decision: ComplianceDecision)

  function TableOf(row: Row): Table
  {
    match row
    case EventRow(_) => WorkflowEvents
    case RuleRow(_) => ComplianceRules
    case StructuredRow(_) => StructuredRules
    case DecisionRow(_) => ComplianceDecisions
  }

  function Size(s: Store, t: Table): nat
  {
    match t
    case WorkflowEvents => |s.events|
    case ComplianceRules => |s.rules|
    case StructuredRules => |s.structured|
    case ComplianceDecisions => |s.decisions|
  }

  /** The row at `index` of table `t`. */
  function RowAt(s: Store, t: Table, index: nat): Row
    requires index < Size(s, t)
  {
    match t
    case WorkflowEvents => EventRow(s.events[index])
    case ComplianceRules => RuleRow(s.rules[index])
    case StructuredRules => StructuredRow(s.structured[index])
    case ComplianceDecisions => DecisionRow(s.decisions[index])
  }

  datatype StoreError =
    | UpdateRejected(table: Table)
    | DeleteRejected(table: Table)
    | NoSuchRow

  /**
   * Flushes a changed row.  The guarded tables refuse every update; a rule
   * row is overwritten in place.
   */
  function Update(s: Store, index: nat, row: Row): (r: (Store, Result<(), StoreError>))
    ensures AppendOnly(TableOf(row)) ==> r == (s, Err(UpdateRejected(TableOf(row))))
    ensures r.1.Err? ==> r.0 == s
    ensures r.1.Ok? <==> !AppendOnly(TableOf(row)) && index < Size(s, TableOf(row))
    ensures r.1.Ok? ==> Size(r.0, TableOf(row)) == Size(s, TableOf(row)) && RowAt(r.0, TableOf(row), index) == row
    ensures r.1.Ok? ==> forall k :: 0 <= k < Size(s, TableOf(row)) && k != index ==>
      RowAt(r.0, TableOf(row), k) == RowAt(s, TableOf(row), k)
    ensures r.0.events == s.events && r.0.structured == s.structured && r.0.decisions == s.decisions
  {
    if AppendOnly(TableOf(row)) then (s, Err(UpdateRejected(TableOf(row))))
    else if index >= |s.rules| then (s, Err(NoSuchRow))
    else (s.(rules := s.rules[index := row.rule]), Ok(()))
  }

  /**
   * Deletes the row at `index` of table `t`.  The guarded tables refuse every
   * delete; a rule row is removed and the rows after it move up.
   */
  function Delete(s: Store, t: Table, index: nat): (r: (Store, Result<(), StoreError>))
    ensures AppendOnly(t) ==> r == (s, Err(DeleteRejected(t)))
    ensures r.1.Err? ==> r.0 == s
    ensures r.1.Ok? <==> !AppendOnly(t) && index < Size(s, t)
    ensures r.1.Ok? ==> Size(r.0, t) + 1 == Size(s, t)
    ensures r.1.Ok? ==> forall k :: 0 <= k < Size(r.0, t) ==>
      RowAt(r.0, t, k) == RowAt(s, t, if k < index then k else k + 1)
    ensures r.0.events == s.events && r.0.structured == s.structured && r.0.decisions == s.decisions
  {
    if AppendOnly(t) then (s, Err(DeleteRejected(t)))
    else if index >= |s.rules| then (s, Err(NoSuchRow))
    else (s.(rules := s.rules[..index] + s.rules[index + 1..]), Ok(()))
  }

  /** A workflow event can be neither changed nor removed, and trying leaves every row as it was. */
  lemma EventsAreWriteOnce(s: Store, index: nat, e: WorkflowEvent)
    ensures Update(s, index, EventRow(e)) == (s, Err(UpdateRejected(WorkflowEvents)))
    ensures Delete(s, WorkflowEvents, index) == (s, Err(DeleteRejected(WorkflowEvents)))
  {
  }

  /** The same holds of decisions. */
  lemma DecisionsAreWriteOnce(s: Store, index: nat, d: ComplianceDecision)
    ensures Update(s, index, DecisionRow(d)) == (s, Err(UpdateRejected(ComplianceDecisions)))
    ensures Delete(s, ComplianceDecisions, index) == (s, Err(DeleteRejected(ComplianceDecisions)))
  {
  }

  /** Rule rows, unlike the others, can be rewritten and removed. */
  lemma RulesAreMutable(s: Store, index: nat, rule: ComplianceRule)
    requires index < |s.rules|
    ensures Update(s, index, RuleRow(rule)).1.Ok? && Update(s, index, RuleRow(rule)).0.rules[index] == rule
    ensures Delete(s, ComplianceRules, index).1.Ok? && |Delete(s, ComplianceRules, index).0.rules| == |s.rules| - 1
  {
    assert RowAt(Update(s, index, RuleRow(rule)).0, ComplianceRules, index) == RuleRow(rule);
  }

  /** The next primary key of the rule table: one past the largest in use. */
  function NextRuleId(rules: seq<ComplianceRule>): (id: nat)
    ensures id > 0
    ensures forall k :: 0 <= k < |rules| ==> rules[k].id < id
  {
    if |rules| == 0 then 1
    else
      var rest := NextRuleId(rules[..|rules| - 1]);
      assert forall k :: 0 <= k < |rules| - 1 ==> rules[k] == rules[..|rules| - 1][k];
      if rules[|rules| - 1].id < rest then rest else rules[|rules| - 1].id + 1
  }

  /** Adds a rule row; its id is fresh. */
  function InsertRule(s: Store, rule: ComplianceRule): (r: Store)
    ensures r.rules == s.rules + [rule.(id := NextRuleId(s.rules))]
    ensures r.events == s.events && r.structured == s.structured && r.decisions == s.decisions
  {
    s.(rules := s.rules + [rule.(id := NextRuleId(s.rules))])
  }

  /** Deleting the row just inserted gives back the store as it was. */
  lemma InsertThenDeleteRule(s: Store, rule: ComplianceRule)
    ensures Delete(InsertRule(s, rule), ComplianceRules, |s.rules|) == (s, Ok(()))
  {
    var t := InsertRule(s, rule);
    assert t.rules[..|s.rules|] + t.rules[|s.rules| + 1..] == s.rules;
  }

  /** Appends a structured rule stamped `now`, numbered after the existing rows. */
  function AppendStructured(s: Store, content: StructuredRuleCreate, now: nat): (r: Store)
    ensures r.structured == s.structured + [StructuredRule(|s.structured| + 1, content, now)]
    ensures r.events == s.events && r.rules == s.rules && r.decisions == s.decisions
  {
    s.(structured := s.structured + [StructuredRule(|s.structured| + 1, content, now)])
  }

  /** Appends a decision, numbered after the existing rows. */
  function AppendDecision(s: Store, body: DecisionBody): (r: Store)
    ensures r.decisions == s.decisions + [ComplianceDecision(|s.decisions| + 1, body)]
    ensures r.events == s.events && r.rules == s.rules && r.structured == s.structured
  {
    s.(decisions := s.decisions + [ComplianceDecision(|s.decisions| + 1, body)])
  }

  /** The decision table's ids are its row numbers, as an autoincrement key on a never-deleted table makes them. */
  predicate DecisionIdsAreRowNumbers(decisions: seq<ComplianceDecision>)
  {
    forall k :: 0 <= k < |decisions| ==> decisions[k].id == k + 1
  }

  /** The decision with primary key `id`. */
  function FindDecision(decisions: seq<ComplianceDecision>, id: nat): (r: Option<ComplianceDecision>)
    ensures r.Some? ==> r.value in decisions && r.value.id == id
    ensures r.None? <==> forall k :: 0 <= k < |decisions| ==> decisions[k].id != id
    ensures DecisionIdsAreRowNumbers(decisions) && 1 <= id <= |decisions| ==> r == Some(decisions[id - 1])
  {
    if |decisions| == 0 then None
    else if decisions[0].id == id then Some(decisions[0])
    else
      var r := FindDecision(decisions[1..], id);
      assert forall k :: 0 < k < |decisions| ==> decisions[k] == decisions[1..][k - 1];
      if DecisionIdsAreRowNumbers(decisions) then
        assert DecisionIdsAreRowNumbers(decisions[1..]) ==> decisions[1..] == [] by {
          if |decisions| > 1 {
            assert decisions[1..][0].id == 2;
          }
        }
        r
      else
        r
  }

  /**
   * The most recent element of `xs` among those `keep` accepts, by `time`:
   * `ORDER BY time DESC ... .first()`.  Ties go to the row inserted last;
   * nothing in the system relies on how they are broken.
   */
  function MostRecent<T>(xs: seq<T>, keep: T -> bool, time: T -> nat): (r: Option<T>)
    ensures r.Some? ==> r.value in xs && keep(r.value)
    ensures r.Some? ==> forall k :: 0 <= k < |xs| && keep(xs[k]) ==> time(xs[k]) <= time(r.value)
    ensures r.None? <==> forall k :: 0 <= k < |xs| ==> !keep(xs[k])
  {
    if |xs| == 0 then None
    else
      var init := xs[..|xs| - 1];
      var last := xs[|xs| - 1];
      var rest := MostRecent(init, keep, time);
      assert forall k :: 0 <= k < |init| ==> init[k] == xs[k];
      if keep(last) && (rest.None? || time(rest.value) <= time(last)) then Some(last) else rest
  }

  /** Rows appended after `xs` that `keep` rejects do not change the most recent row. */
  lemma {:induction false} MostRecentIgnoresRejected<T>(xs: seq<T>, ys: seq<T>, keep: T -> bool, time: T -> nat)
    requires forall k :: 0 <= k < |ys| ==> !keep(ys[k])
    ensures MostRecent(xs + ys, keep, time) == MostRecent(xs, keep, time)
    decreases |ys|
  {
    if |ys| > 0 {
      var ys' := ys[..|ys| - 1];
      assert (xs + ys)[..|xs + ys| - 1] == xs + ys';
      assert (xs + ys)[|xs + ys| - 1] == ys[|ys| - 1];
      assert !keep(ys[|ys| - 1]);
      assert MostRecent(xs + ys, keep, time) == MostRecent(xs + ys', keep, time);
      MostRecentIgnoresRejected(xs, ys', keep, time);
    } else {
      assert xs + ys == xs;
    }
  }

  /** Two filters that agree on every element select the same row. */
  lemma {:induction false} MostRecentAgreeingFilters<T>(xs: seq<T>, keep1: T -> bool, keep2: T -> bool, time: T -> nat)
    requires forall k :: 0 <= k < |xs| ==> keep1(xs[k]) == keep2(xs[k])
    ensures MostRecent(xs, keep1, time) == MostRecent(xs, keep2, time)
    decreases |xs|
  {
    if |xs| > 0 {
      var init := xs[..|xs| - 1];
      assert forall k :: 0 <= k < |init| ==> init[k] == xs[k];
      MostRecentAgreeingFilters(init, keep1, keep2, time);
    }
  }

  /** True iff `e` belongs to workflow `wid` and, if a bound is given, was submitted no later than it. */
  predicate EventMatches(e: WorkflowEvent, wid: string, bound: Option<nat>)
  {
    e.workflowId == wid && (bound.None? || e.submittedAt <= bound.value)
  }

  /** The latest event of workflow `wid` (submitted no later than `bound`, if given). */
  function LatestEvent(events: seq<WorkflowEvent>, wid: string, bound: Option<nat>): (r: Option<WorkflowEvent>)
    ensures r.Some? ==> r.value in events && EventMatches(r.value, wid, bound)
    ensures r.Some? ==> forall k :: 0 <= k < |events| && EventMatches(events[k], wid, bound) ==>
      events[k].submittedAt <= r.value.submittedAt
    ensures r.None? <==> forall k :: 0 <= k < |events| ==> !EventMatches(events[k], wid, bound)
  {
    MostRecent(events, (e: WorkflowEvent) => EventMatches(e, wid, bound), (e: WorkflowEvent) => e.submittedAt)
  }

  /** The most recently created interpretation of rule `rid`. */
  function LatestStructured(structured: seq<StructuredRule>, rid: string): (r: Option<StructuredRule>)
    ensures r.Some? ==> r.value in structured && r.value.content.ruleId == rid
    ensures r.Some? ==> forall k :: 0 <= k < |structured| && structured[k].content.ruleId == rid ==>
      structured[k].createdAt <= r.value.createdAt
    ensures r.None? <==> forall k :: 0 <= k < |structured| ==> structured[k].content.ruleId != rid
  {
    MostRecent(structured, (x: StructuredRule) => x.content.ruleId == rid, (x: StructuredRule) => x.createdAt)
  }

  /** The first interpretation in table order whose `(rule_id, version)` is `key`. */
  function FirstWithKey(structured: seq<StructuredRule>, key: RuleKey): (r: Option<StructuredRule>)
    ensures r.Some? ==> r.value.Key() == key
    ensures r.Some? ==> exists k :: (0 <= k < |structured| && structured[k] == r.value
                                     && forall j :: 0 <= j < k ==> structured[j].Key() != key)
    ensures r.None? <==> forall k :: 0 <= k < |structured| ==> structured[k].Key() != key
  {
    if |structured| == 0 then None
    else if structured[0].Key() == key then Some(structured[0])
    else
      var r := FirstWithKey(structured[1..], key);
      assert forall k :: 0 < k < |structured| ==> structured[k] == structured[1..][k - 1];
      r
  }

  /** Rows appended later never change which row a key finds first, once one exists. */
  lemma {:induction false} FirstWithKeyStable(structured: seq<StructuredRule>, later: seq<StructuredRule>, key: RuleKey)
    requires FirstWithKey(structured, key).Some?
    ensures FirstWithKey(structured + later, key) == FirstWithKey(structured, key)
    decreases |structured|
  {
    if structured[0].Key() != key {
      assert (structured + later)[1..] == structured[1..] + later;
      FirstWithKeyStable(structured[1..], later, key);
    }
  }

  /** True iff no two interpretations share a `(rule_id, version)`. */
  predicate UniqueKeys(structured: seq<StructuredRule>)
  {
    forall i, j :: 0 <= i < j < |structured| ==> structured[i].Key() != structured[j].Key()
  }

  /** The rule ids of the ACTIVE rules, in table order, repeats included. */
  function ActiveRuleIds(rules: seq<ComplianceRule>): (r: seq<string>)
    ensures |r| <= |rules|
    ensures forall x :: x in r <==> exists k :: 0 <= k < |rules| && rules[k].status == Active && rules[k].ruleId == x
    ensures |r| == 0 <==> forall k :: 0 <= k < |rules| ==> rules[k].status != Active
  {
    if |rules| == 0 then []
    else
      var init := rules[..|rules| - 1];
      var last := rules[|rules| - 1];
      assert forall k :: 0 <= k < |init| ==> init[k] == rules[k];
      ActiveRuleIds(init) + (if last.status == Active then [last.ruleId] else [])
  }

  /** The ids of one rule: its id when it is ACTIVE, else nothing. */
  lemma ActiveRuleIdsSingle(rule: ComplianceRule)
    ensures ActiveRuleIds([rule]) == if rule.status == Active then [rule.ruleId] else []
  {
    assert [rule][..0] == [];
  }

  /** The active ids of two consecutive runs of rows are those of each run, in order. */
  lemma {:induction false} ActiveRuleIdsAppend(a: seq<ComplianceRule>, b: seq<ComplianceRule>)
    ensures ActiveRuleIds(a + b) == ActiveRuleIds(a) + ActiveRuleIds(b)
    decreases |b|
  {
    if |b| == 0 {
      assert a + b == a;
    } else {
      var b' := b[..|b| - 1];
      assert (a + b)[..|a + b| - 1] == a + b';
      assert (a + b)[|a + b| - 1] == b[|b| - 1];
      ActiveRuleIdsAppend(a, b');
    }
  }

  /** The index of the first rule row with id `rid`. */
  function FirstRuleIndex(rules: seq<ComplianceRule>, rid: string): (r: Option<nat>)
    ensures r.Some? ==> r.value < |rules| && rules[r.value].ruleId == rid
    ensures r.Some? ==> forall k :: 0 <= k < r.value ==> rules[k].ruleId != rid
    ensures r.None? <==> forall k :: 0 <= k < |rules| ==> rules[k].ruleId != rid
  {
    if |rules| == 0 then None
    else if rules[0].ruleId == rid then Some(0)
    else
      match FirstRuleIndex(rules[1..], rid)
      case None => None
      case Some(i) => Some(i + 1)
  }
}
