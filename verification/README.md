# Compliance reasoning and audit core, in Dafny

A model of the back end of an insurance compliance audit service. Workflow
events (claims, policy issuances, data-access requests, escalations) are
stored as immutable facts. Compliance rules are written by people. An
external policy-interpreter service turns each rule into a structured
interpretation. When a workflow is audited, an external reasoning service
receives the latest event together with the latest interpretation of every
ACTIVE rule. It answers with one evaluation per rule. A deterministic
decision engine then turns those evaluations into COMPLIANT, NON_COMPLIANT or
REQUIRES_REVIEW, and the decision is recorded with the rule versions it used.
A recorded decision can be replayed against the same rule versions.

The modules follow the program's structure:

- `Common`: `Option`, `Result` and `Distinct`.
- `Json`: the JSON values the services exchange, and Python truthiness.
- `Models`: the enumerations, the four tables' record shapes and the
  `rule_versions` mapping (a dict that keeps insertion order).
- `Engine`: `DecisionEngine.decide` and `resolve_conflicts`.
- `Fence`: the extraction of a JSON payload from a fenced service answer.
  It is written with the exact semantics of `str.split(...)[1]`,
  `split(...)[0]` and `strip()`.
- `Agents`: the two service calls and their timeouts, parsing, and the
  validation that builds a `StructuredRuleCreate`.
- `Store`: the four tables, the queries the core issues, and the
  update/delete guard on the append-only tables.
- `Audit`: `audit_workflow` and `replay_decision`.
- `Replay`: the proof that a replay reproduces the audit it replays.
- `RuleMutation`: `create_compliance_rule` and `update_compliance_rule`,
  including the compensating rollback on a failed interpretation.

Some things the model takes as parameters:

- The two external services are functions from their input to a
  `CallOutcome`. A call either finishes with raw text after some number of
  seconds, or raises.
- `json.loads` is a `Parser` that returns `None` where it would raise.
- The clock is a `now: nat` argument.

Every store transition is a pure function from a `Store` to the new `Store`
and a `Result`. A failure path returns the store exactly as the code leaves
it. Where the code compensates, the rollback is proved rather than assumed.

Where the prose description of the system and the code disagree, the model
follows the code:

- The audit returns its "no active rules" reply only when no rule is ACTIVE.
  It does not do so when active rules merely lack interpretations: those
  still lead to a reasoning call with an empty rule list
  (`Audit.UninterpretedRulesStillReason`).
- Replay does not check that the replayed decision belongs to the workflow
  in the URL.
- Replay has no degradation path: any failure is an error, and nothing is
  recorded.
- An update whose body omits `status` sets the rule back to ACTIVE. The
  request's `status` defaults to ACTIVE, and an enum member is always
  truthy.
- `decide` can raise. Its HIGH scan looks each violated `rule_id` up in a
  dict, in order, and stops at the first HIGH one. A `rule_id` that is a
  JSON list or object cannot be hashed, so reaching one first raises a
  `TypeError`. Whether that happens depends on the order of the
  evaluations and on the severities (`Engine.DecideDependsOnOrder`,
  `Engine.DecideDependsOnSeverities`). An audit degrades such an answer to
  REQUIRES_REVIEW. A replay has no handler, so it fails and records nothing.
- The audit never calls `resolve_conflicts`.

## Model

| member | source | states |
|---|---|---|
| Models.ParseSeverity | Insurance_Compliance_Reasoning_Audit_Agent/backend/app/models.py:19-22 | constructing a severity succeeds exactly on "LOW", "MEDIUM" and "HIGH", and the member it gives has that name |
| Models.SeverityNameRoundTrip | Insurance_Compliance_Reasoning_Audit_Agent/backend/app/models.py:19-22 | every severity is recovered from its own string value |
| Models.ParseOutcome | Insurance_Compliance_Reasoning_Audit_Agent/backend/app/models.py:28-31 | constructing an outcome succeeds exactly on the three outcome names, and the member it gives has that name |
| Models.VersionOf | Insurance_Compliance_Reasoning_Audit_Agent/backend/app/main.py:316-323 | reading `rule_versions[rid]` gives the version stored under `rid`; in a well-formed dict that version is the only one for `rid` |
| Models.Put | Insurance_Compliance_Reasoning_Audit_Agent/backend/app/main.py:323 | assigning `rule_versions[rid] = v` keeps the dict well formed; afterwards `rid` maps to `v` and every other key keeps its version; an existing key keeps its position, and a new key goes at the end |
| Engine.ViolatedIds | Insurance_Compliance_Reasoning_Audit_Agent/backend/app/engine.py:13-16 | the engine's violated list has one entry per NON_COMPLIANT evaluation and is empty iff there is none; each entry is the `rule_id` (possibly absent) of a violating evaluation |
| Engine.ViolatedIdsSingle | Insurance_Compliance_Reasoning_Audit_Agent/backend/app/engine.py:14-16 | one evaluation contributes its `rule_id` if its status is "NON_COMPLIANT", and nothing otherwise |
| Engine.ViolatedIdsAppend | Insurance_Compliance_Reasoning_Audit_Agent/backend/app/engine.py:14-16 | the violated list of two runs of evaluations is the first run's list followed by the second's: evaluation order is kept |
| Engine.AnyHigh | Insurance_Compliance_Reasoning_Audit_Agent/backend/app/engine.py:25 | the HIGH scan raises iff it meets an id that cannot be hashed (a list or an object) before any HIGH id, and the error carries such an id; otherwise it answers whether some id is a string mapped to HIGH |
| Engine.Decide | Insurance_Compliance_Reasoning_Audit_Agent/backend/app/engine.py:6-31 | `decide` raises iff the HIGH scan over the violated ids does, which never happens when every violated id is hashable; when it returns, it never answers REQUIRES_REVIEW, and answers NON_COMPLIANT iff some evaluation's status is "NON_COMPLIANT"; no violation gives COMPLIANT |
| Engine.DecideEmpty | Insurance_Compliance_Reasoning_Audit_Agent/backend/app/engine.py:10-11 | no evaluations give COMPLIANT, whatever the severities |
| Engine.DecideIgnoresSeverities | Insurance_Compliance_Reasoning_Audit_Agent/backend/app/engine.py:21-31 | whenever `decide` returns under two severity maps, it returns the same outcome; when every violated id is hashable it returns under both, so the severities never change the outcome |
| Engine.DecidePermutationInvariant | Insurance_Compliance_Reasoning_Audit_Agent/backend/app/engine.py:13-25 | whenever `decide` returns on two orderings of the same evaluations, it returns the same outcome; when every violated id is hashable it returns on both |
| Engine.ViolationTransfers | Insurance_Compliance_Reasoning_Audit_Agent/backend/app/engine.py:14-16 | a violation in one list of evaluations is a violation somewhere in every permutation of it |
| Engine.DecideIgnoresNonViolations | Insurance_Compliance_Reasoning_Audit_Agent/backend/app/engine.py:15 | an evaluation whose status is absent or anything but "NON_COMPLIANT" never changes the outcome, wherever it is inserted |
| Engine.DecideByViolatedIds | Insurance_Compliance_Reasoning_Audit_Agent/backend/app/engine.py:10-31 | `decide` sees the evaluations only through the violated ids it collects: two lists with the same violated ids get the same result |
| Engine.DecideRaisesOnLeadingUnhashable | Insurance_Compliance_Reasoning_Audit_Agent/backend/app/engine.py:25 | a first violation whose id is a list or an object makes `decide` raise on that id, whatever follows |
| Engine.DecideStopsAtLeadingHigh | Insurance_Compliance_Reasoning_Audit_Agent/backend/app/engine.py:25-28 | a first violation whose id is HIGH settles the outcome on NON_COMPLIANT before any later id is looked up |
| Engine.DecideSkipsLeadingLow | Insurance_Compliance_Reasoning_Audit_Agent/backend/app/engine.py:25 | a first violation with a hashable id that is not HIGH is passed over: `decide` raises iff it raises on the rest |
| Engine.ScanSkipsLow | Insurance_Compliance_Reasoning_Audit_Agent/backend/app/engine.py:25 | the HIGH scan over a hashable, non-HIGH id followed by more ids raises iff the scan over the rest raises |
| Engine.DecideDependsOnOrder | Insurance_Compliance_Reasoning_Audit_Agent/backend/app/engine.py:25 | the same two violations, a list id and a HIGH id, make `decide` raise in one order and answer NON_COMPLIANT in the other |
| Engine.DecideDependsOnSeverities | Insurance_Compliance_Reasoning_Audit_Agent/backend/app/engine.py:25 | those two violations make `decide` raise once the second id's rule is LOW, where HIGH gave NON_COMPLIANT |
| Engine.ResolveConflicts | Insurance_Compliance_Reasoning_Audit_Agent/backend/app/engine.py:33-38 | conflict resolution is a placeholder that hands back its evaluations unchanged; the audit never calls it |
| Engine.ResolveConflictsPreservesDecision | Insurance_Compliance_Reasoning_Audit_Agent/backend/app/engine.py:33-38 | passing the evaluations through conflict resolution first never changes the outcome (the audit itself never calls it) |
| Fence.UpToFirst | Insurance_Compliance_Reasoning_Audit_Agent/backend/app/agents.py:74 | `split(sep)[0]` is a prefix of its input that does not contain `sep`, is the whole input when `sep` is absent, and otherwise ends exactly where the first `sep` begins |
| Fence.Strip | Insurance_Compliance_Reasoning_Audit_Agent/backend/app/agents.py:74 | `strip()` gives a slice of its input with no leading or trailing whitespace, and everything of the input outside that slice is whitespace; a text with no outer whitespace is unchanged |
| Fence.Extract | Insurance_Compliance_Reasoning_Audit_Agent/backend/app/agents.py:71-76 | the extracted payload never contains a fence; an unfenced answer is passed on unchanged, and a fenced one is stripped |
| Fence.ExtractIdempotent | Insurance_Compliance_Reasoning_Audit_Agent/backend/app/agents.py:71-76 | extracting a second time changes nothing |
| Fence.ExtractJsonBlock | Insurance_Compliance_Reasoning_Audit_Agent/backend/app/agents.py:73-74 | with a single ```` ```json ```` tag, the payload is the stripped text between that tag and the next fence |
| Fence.ExtractPlainBlock | Insurance_Compliance_Reasoning_Audit_Agent/backend/app/agents.py:75-76 | with no ```` ```json ```` tag, the payload is the stripped text between the first two fences |
| Fence.ExtractOverlappingTags | Insurance_Compliance_Reasoning_Audit_Agent/backend/app/agents.py:74 | the split semantics differ from "the text up to the next fence": for a tag followed by five back-ticks and a second tag, the payload is two back-ticks, where the text up to the next fence would be empty |
| Fence.ExtractRoundTrip | Insurance_Compliance_Reasoning_Audit_Agent/backend/app/agents.py:71-76 | a trimmed, fence-free body wrapped in a ```` ```json ```` block is recovered exactly |
| Fence.StripIsSlice | Insurance_Compliance_Reasoning_Audit_Agent/backend/app/agents.py:74 | `strip()` gives a contiguous slice of its input, and what it cuts on either side is whitespace |
| Fence.NoOccurrenceInStrip | Insurance_Compliance_Reasoning_Audit_Agent/backend/app/agents.py:74 | stripping cannot create a fence that was not there |
| Agents.Await | Insurance_Compliance_Reasoning_Audit_Agent/backend/app/agents.py:63-68 | waiting on a service call succeeds iff it finished within the limit, giving its raw text; any call still running at the limit fails with a timeout naming the limit, even one that would later raise; a call that raises within the limit is a service failure |
| Agents.ParseOutput | Insurance_Compliance_Reasoning_Audit_Agent/backend/app/agents.py:70-78 | parsing succeeds iff the parser accepts the extracted payload, and gives the parser's value |
| Agents.FirstMissing | Insurance_Compliance_Reasoning_Audit_Agent/backend/app/agents.py:80-86 | the first key, in reading order, that an interpretation object lacks: every earlier key is present; none iff all are present |
| Agents.ToStructuredRule | Insurance_Compliance_Reasoning_Audit_Agent/backend/app/agents.py:80-88 | a structured rule is built iff the answer is an object with every key, string fields, string-list fields and a known severity; its fields are the answer's and it keeps the raw text; otherwise the failure names the first missing key, or says the answer is not an object |
| Agents.ToStructuredRuleRoundTrip | Insurance_Compliance_Reasoning_Audit_Agent/backend/app/agents.py:80-88 | validating the JSON rendering of any structured rule gives that rule back, with the raw text attached |
| Agents.Interpret | Insurance_Compliance_Reasoning_Audit_Agent/backend/app/agents.py:26-88 | an interpretation succeeds iff the call finishes within 60 seconds, its payload parses and the result is well shaped; the rule it gives is the one validated from the parsed object, field for field, and keeps the raw answer |
| Agents.Evaluate | Insurance_Compliance_Reasoning_Audit_Agent/backend/app/agents.py:115-189 | a reasoning call succeeds iff it finishes within 90 seconds and its payload parses, and then returns the parsed answer unchecked; a late call fails with a 90-second timeout |
| Agents.InterpretRejectsUnknownSeverity | Insurance_Compliance_Reasoning_Audit_Agent/backend/app/agents.py:86 | an interpretation whose severity is not a known name is rejected, whatever else it says |
| Agents.InterpretFencedAnswer | Insurance_Compliance_Reasoning_Audit_Agent/backend/app/agents.py:70-88 | a service answer that is a fenced JSON rendering of a structured rule is interpreted as exactly that rule, with the raw text kept |
| Agents.EvaluateFencedAnswer | Insurance_Compliance_Reasoning_Audit_Agent/backend/app/agents.py:115-189 | a reasoning answer that is a fenced rendering of a value and arrives within 90 seconds is read as exactly that value |
| Store.Update | Insurance_Compliance_Reasoning_Audit_Agent/backend/app/models.py:89-101 | an update of an event, decision or structured rule is always rejected, and the store is left unchanged; a rule row is overwritten in place and no other row changes |
| Store.Delete | Insurance_Compliance_Reasoning_Audit_Agent/backend/app/models.py:89-101 | a delete from an append-only table is always rejected, and the store is left unchanged; deleting a rule row removes exactly that row |
| Store.EventsAreWriteOnce | Insurance_Compliance_Reasoning_Audit_Agent/backend/app/models.py:94-101 | no update or delete of a workflow event ever succeeds, and trying changes nothing |
| Store.DecisionsAreWriteOnce | Insurance_Compliance_Reasoning_Audit_Agent/backend/app/models.py:94-101 | no update or delete of a decision ever succeeds, and trying changes nothing |
| Store.RulesAreMutable | Insurance_Compliance_Reasoning_Audit_Agent/backend/app/models.py:98-101 | rules are not guarded: an existing rule row can be rewritten and removed |
| Store.NextRuleId | Insurance_Compliance_Reasoning_Audit_Agent/backend/app/models.py:47 | the next rule primary key is positive and larger than every key in use |
| Store.InsertThenDeleteRule | Insurance_Compliance_Reasoning_Audit_Agent/backend/app/main.py:492-513 | deleting the rule row just inserted gives back the store as it was |
| Store.FindDecision | Insurance_Compliance_Reasoning_Audit_Agent/backend/app/main.py:429-433 | the lookup by primary key finds a row with that key, if there is one; when ids are row numbers, it finds row `id` |
| Store.MostRecent | Insurance_Compliance_Reasoning_Audit_Agent/backend/app/main.py:293-295 | `ORDER BY time DESC ... first()` picks an accepted row with no accepted row later than it, and none iff no row is accepted |
| Store.MostRecentIgnoresRejected | Insurance_Compliance_Reasoning_Audit_Agent/backend/app/main.py:436-440 | rows appended later that the filter rejects never change the most recent row |
| Store.MostRecentAgreeingFilters | Insurance_Compliance_Reasoning_Audit_Agent/backend/app/main.py:436-440 | two filters that agree on every row select the same row |
| Store.LatestEvent | Insurance_Compliance_Reasoning_Audit_Agent/backend/app/main.py:293-297 | the selected event belongs to the workflow, is within the bound, and no matching event was submitted later; none iff no event matches |
| Store.LatestStructured | Insurance_Compliance_Reasoning_Audit_Agent/backend/app/main.py:318-320 | the selected interpretation is of the rule, and none of that rule was created later; none iff the rule has none |
| Store.FirstWithKey | Insurance_Compliance_Reasoning_Audit_Agent/backend/app/main.py:445-447 | the lookup by rule id and version finds the first row in table order with that key; none iff no row has it |
| Store.FirstWithKeyStable | Insurance_Compliance_Reasoning_Audit_Agent/backend/app/main.py:445-447 | rows appended later never change which row a key finds, once one exists |
| Store.ActiveRuleIds | Insurance_Compliance_Reasoning_Audit_Agent/backend/app/main.py:300-313 | the ids collected are exactly those of the ACTIVE rows; the list is empty iff no row is ACTIVE |
| Store.ActiveRuleIdsSingle | Insurance_Compliance_Reasoning_Audit_Agent/backend/app/main.py:312-313 | one rule row contributes its id iff it is ACTIVE |
| Store.ActiveRuleIdsAppend | Insurance_Compliance_Reasoning_Audit_Agent/backend/app/main.py:300-313 | the ids of two runs of rows are the first run's ids followed by the second's: table order and repeats are kept |
| Store.FirstRuleIndex | Insurance_Compliance_Reasoning_Audit_Agent/backend/app/main.py:553-557 | the lookup by `rule_id` finds the first row with that id; none iff no row has it |
| Audit.ReadEvaluations | Insurance_Compliance_Reasoning_Audit_Agent/backend/app/main.py:336-348 | an answer that is an object without "evaluations" reads as no evaluations; a list reads successfully iff every item has `rule_id`, `status` and `reasoning_steps`, and then item for item; anything read came from an object |
| Audit.ViolatedRules | Insurance_Compliance_Reasoning_Audit_Agent/backend/app/main.py:341-344 | the recorded violated rules agree entry for entry with the engine's violated list |
| Audit.TraceOf | Insurance_Compliance_Reasoning_Audit_Agent/backend/app/main.py:345-348 | the trace has one entry per evaluation, carrying its rule id and steps |
| Audit.SeverityMap | Insurance_Compliance_Reasoning_Audit_Agent/backend/app/main.py:335 | the severity map's keys are exactly the rule ids of the interpretations sent, and each maps to the severity of the last interpretation with that rule id |
| Audit.Judge | Insurance_Compliance_Reasoning_Audit_Agent/backend/app/main.py:326-362 | a failed call, or an answer whose evaluations cannot be read, is that failure; when `decide` raises, the failure names the unhashable id; otherwise the verdict is `decide`'s outcome with the violated ids and the trace, in evaluation order, never REQUIRES_REVIEW, one violated rule per violation, and no violated rules means COMPLIANT |
| Audit.Record | Insurance_Compliance_Reasoning_Audit_Agent/backend/app/main.py:350-387 | a failure degrades to REQUIRES_REVIEW, with no violated rules and a single diagnostic trace entry; a verdict is recorded as given; both keep the workflow, the rule versions and the time |
| Audit.Resolve | Insurance_Compliance_Reasoning_Audit_Agent/backend/app/main.py:313-323 | the recorded versions form a dict whose keys are exactly the active ids that have an interpretation, each mapped to its latest version; every rule sent is the latest interpretation of some active id |
| Audit.ResolveAppend | Insurance_Compliance_Reasoning_Audit_Agent/backend/app/main.py:316-322 | the rules sent for two runs of active ids are those for the first run followed by those for the second: id order is kept |
| Audit.ResolveCounts | Insurance_Compliance_Reasoning_Audit_Agent/backend/app/main.py:316-322 | the latest interpretation of an id is sent exactly as many times as the id appears among the active ids |
| Audit.AuditActive | Insurance_Compliance_Reasoning_Audit_Agent/backend/app/main.py:326-387 | once the rules are known, an audit appends exactly one decision, numbered one past the existing decisions, and changes no other table; it carries the workflow, resolved versions and time, and the verdict's outcome, violated rules and trace, or REQUIRES_REVIEW with one diagnostic entry on a failure |
| Audit.AuditWorkflowAsWritten | Insurance_Compliance_Reasoning_Audit_Agent/backend/app/main.py:292-387 | as written, an audit with an event but no ACTIVE rule fails, and the store is unchanged; an unknown workflow is not found; with ACTIVE rules exactly one decision is appended and no other table changes, also when the reasoning fails or `decide` raises |
| Audit.AuditWorkflow | Insurance_Compliance_Reasoning_Audit_Agent/backend/app/main.py:292-387 | an unknown workflow is not found, and nothing is recorded; no ACTIVE rule gives an unrecorded COMPLIANT reply; otherwise exactly one decision is appended and no other table changes; it carries the workflow, time and resolved versions; a decided outcome is `decide`'s on the evaluations, with the violated ids and trace in evaluation order |
| Audit.AuditAsWrittenRejectsShortCircuit | Insurance_Compliance_Reasoning_Audit_Agent/backend/app/main.py:303-311 | with an event and no ACTIVE rule, the code as written fails where the corrected audit succeeds |
| Audit.AuditAsWrittenAgreesOtherwise | Insurance_Compliance_Reasoning_Audit_Agent/backend/app/main.py:292-387 | in every other case the code as written and the corrected audit agree |
| Audit.NoActiveRulesSkipsReasoner | Insurance_Compliance_Reasoning_Audit_Agent/backend/app/main.py:303-311 | with no ACTIVE rule the reasoning service is never consulted: any two services give the same audit |
| Audit.ReasoningFailureDegrades | Insurance_Compliance_Reasoning_Audit_Agent/backend/app/main.py:362-387 | a failed or unreadable reasoning answer, or one on which `decide` raises, still records exactly one decision: REQUIRES_REVIEW, no violated rules, one "System Diagnostic" trace entry, and the resolved versions |
| Audit.UninterpretedRulesStillReason | Insurance_Compliance_Reasoning_Audit_Agent/backend/app/main.py:313-328 | active rules none of which has an interpretation still lead to a reasoning call, with no rules and no versions |
| Audit.ResolveNothing | Insurance_Compliance_Reasoning_Audit_Agent/backend/app/main.py:317-323 | ids without any interpretation resolve to no rules and no versions |
| Audit.DuplicateActiveIds | Insurance_Compliance_Reasoning_Audit_Agent/backend/app/main.py:313-323 | an active id that appears at two positions has its interpretation sent once per appearance, at least twice, but has exactly one key in the versions, mapped to that interpretation's version |
| Audit.Pinned | Insurance_Compliance_Reasoning_Audit_Agent/backend/app/main.py:443-449 | every interpretation a replay re-evaluates is a stored row whose rule id and version are a recorded key, there are at most as many as keys, and every recorded key that some row has contributes its first such row |
| Audit.PinnedAppend | Insurance_Compliance_Reasoning_Audit_Agent/backend/app/main.py:443-449 | the rules pinned for two runs of keys are those for the first run followed by those for the second: key order is kept |
| Audit.ReplayDecision | Insurance_Compliance_Reasoning_Audit_Agent/backend/app/main.py:429-478 | an unknown decision is not found; a replay succeeds iff the decision exists, an event of the workflow was in force when it was made, and the reasoning answer can be judged; success appends one decision with the next id, the given workflow, the old rule versions and the current time, whose outcome, violated rules and trace are the verdict on that event and the pinned rules; failure changes nothing |
| Replay.PinnedRecoversResolved | Insurance_Compliance_Reasoning_Audit_Agent/backend/app/main.py:443-449 | when active ids are distinct and rule id and version identify an interpretation, looking up the recorded versions recovers exactly the rules the audit sent, even after more interpretations are added |
| Replay.ReplayEventIsAuditEvent | Insurance_Compliance_Reasoning_Audit_Agent/backend/app/main.py:436-440 | if the audited events were submitted by the decision time and every later one after it, the replay selects the event the audit saw |
| Replay.ReplayReproducesAudit | Insurance_Compliance_Reasoning_Audit_Agent/backend/app/main.py:415-478 | replaying a decided audit later, with the same reasoning answers, reproduces its outcome, violated rules, trace and rule versions, whatever events, interpretations and decisions were added since and whatever the rule table now holds |
| RuleMutation.RequestedStatus | Insurance_Compliance_Reasoning_Audit_Agent/backend/app/schemas.py:39 | a request without a status asks for ACTIVE |
| RuleMutation.NewRule | Insurance_Compliance_Reasoning_Audit_Agent/backend/app/main.py:493 | the created row carries the request's fields; an absent status becomes ACTIVE and an absent date becomes the current time |
| RuleMutation.CreateRule | Insurance_Compliance_Reasoning_Audit_Agent/backend/app/main.py:487-515 | creation succeeds iff the new rule's interpretation succeeds; then the rule is added with a fresh id and exactly one interpretation is appended; on failure the store is exactly as before, the rule deleted again |
| RuleMutation.Overwrite | Insurance_Compliance_Reasoning_Audit_Agent/backend/app/main.py:565-566 | an update overwrites each string field only when the request's value is non-empty, and the date only when given; category, severity and status are always overwritten, and the row keeps its id |
| RuleMutation.UpdateRule | Insurance_Compliance_Reasoning_Audit_Agent/backend/app/main.py:547-587 | an unknown rule id is not found; otherwise the first row with that id is overwritten and re-interpreted; success appends exactly one interpretation; on failure every field is written back, and the store is exactly as before |
| RuleMutation.FailedCreateLeavesNoRule | Insurance_Compliance_Reasoning_Audit_Agent/backend/app/main.py:504-513 | a create whose interpretation call raises leaves the store exactly as it was, and reports a service failure, or the 60-second timeout when the call was still running at the limit |
| RuleMutation.TimedOutUpdateRestores | Insurance_Compliance_Reasoning_Audit_Agent/backend/app/main.py:577-585 | an update whose re-interpretation times out restores the rule exactly, and reports the 60-second timeout |

## Left out

- The language-model services themselves: the prompts, the agent framework and the model calls. A call is an outcome (raw text and duration, or an exception).
- Thread-pool execution of the calls: a call that overruns its timeout is modelled by its duration, not by a running thread.
- The internals of `json.loads`: parsing is a parameter. Numbers are integers, because no floating-point value is inspected anywhere in the core.
- Exception message texts: a failure's text in the diagnostic trace entry is abstracted by `Describe`. The surrounding template and the fixed step fields are kept.
- Authentication, JWT handling, users and password hashing.
- The in-memory metrics counters, rule-coverage counters, latency data and logging. They do not affect any stored row or reply.
- The FastAPI routing, sessions and commit machinery. A committed write is an update of the pure store, and a raised exception returns the store as the code leaves it.
- The read-only listing endpoints, the dashboard and `create_workflow_event`. They are not part of the audit core.
- Response-model validation, beyond the one place where it rejects a reply (see Findings).
- Concurrent requests. Each request is one atomic store transition.
- Store.MostRecent: ties between rows with equal timestamps go to the row inserted last. The database's order for ties is unspecified, and no property here depends on it.
- Audit.ReplayDecision: a missing event is an error (`NoEventInForce`). In the code, that event is passed to the reasoner, which fails on it before any call.
- Replay.ReplayReproducesAudit: assumes that the reasoning service answers the same question the same way. It also assumes that no two interpretations share a rule id and version, that active rule ids are distinct, and that the clock is monotone. The code enforces none of these.
- Engine.DecideIgnoresSeverities: the outcome is the same under two severity maps only when `decide` returns under both. With a list or object `rule_id`, the severities decide whether it raises (`Engine.DecideDependsOnSeverities`).
- Engine.DecidePermutationInvariant: the outcome is the same for two orderings only when `decide` returns on both. With a list or object `rule_id`, the order decides whether it raises (`Engine.DecideDependsOnOrder`).
- Audit.Judge: an answer can hold both an item that lacks a key and a `rule_id` on which `decide` raises. The model then names the malformed answer as the failure. The code raises the `TypeError` instead, because `decide` runs before the missing key is read. Only the diagnostic text differs.
- Store.FirstWithKey: the code's `.first()` has no ORDER BY, so the database may return any matching row. The model takes the first in insertion order.
- Store.FirstRuleIndex: as for `Store.FirstWithKey`, an unordered `.first()` is modelled as the first row in insertion order.
- Store.NextRuleId: the rule table's new key is one past the largest in use. This is what an auto-increment key without reuse gives, but the exact key depends on the database.

## Findings

| source | as written | input that shows it | evidently intended | confidence | as-written member | corrected member |
|---|---|---|---|---|---|---|
| Insurance_Compliance_Reasoning_Audit_Agent/backend/app/main.py:303-311 | with no ACTIVE rule, the audit returns a `ComplianceDecision` response object built without its required `id`, so the object's validation raises and the request fails with a server error | a workflow with at least one event and a rule table whose rules are all DEPRECATED (or empty) | an unrecorded COMPLIANT reply with the trace entry "No active rules found" and no rule versions | high; not executed | Audit.AuditAsWrittenRejectsShortCircuit | Audit.AuditWorkflow |
