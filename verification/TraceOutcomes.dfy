/** What the authority report demands of a record and what it counts it as, in the words of the records. */
module TraceOutcomes {
  import opened Options
  import opened TraceReport

  // ---------- The words of a record ----------

  ghost predicate Hex64(s: string) {
    |s| == 64 && forall i :: 0 <= i < |s| ==> '0' <= s[i] <= '9' || 'a' <= s[i] <= 'f'
  }

  lemma Hex64Means(s: string)
    ensures ValidDigest(s) <==> Hex64(s)
  {
    assert forall i :: 0 <= i < |s| ==> s[i] in s;
  }

  /** One word, in small or capital letters. */
  ghost predicate Spells(s: string, small: string, capital: string)
    requires |small| == |capital|
  {
    |s| == |small| && forall i :: 0 <= i < |s| ==> s[i] == small[i] || s[i] == capital[i]
  }

  lemma SpellsCanary(s: string)
    ensures EqIgnoreCase(s, "canary") <==> Spells(s, "canary", "CANARY")
  {
    SameLetters("canary", "CANARY", s);
  }

  lemma SpellsDisabled(s: string)
    ensures EqIgnoreCase(s, "disabled") <==> Spells(s, "disabled", "DISABLED")
  {
    SameLetters("disabled", "DISABLED", s);
  }

  lemma SameLetters(small: string, capital: string, s: string)
    requires |small| == |capital|
    requires forall i :: 0 <= i < |small|
               ==> 'a' <= small[i] <= 'z' && capital[i] as int == small[i] as int - 32
    ensures EqIgnoreCase(s, small) <==> Spells(s, small, capital)
  {
  }

  /** The record expects this result. */
  ghost predicate Expects(r: TraceRecord, result: string) {
    r.expectedResult == Some(result)
  }

  ghost predicate ExpectsRelease(r: TraceRecord) {
    Expects(r, "compositional") || Expects(r, "audited_verbatim")
  }

  lemma ScopeMeans(r: TraceRecord, scope: Scope)
    ensures InScope(r, scope)
            <==> match scope
                 case All => true
                 case Positive => ExpectsRelease(r)
                 case Negative => r.expectedResult.Some? && !ExpectsRelease(r)
  {
  }

  // ---------- What a record must have ----------

  /** Step `i` is the first one of the plan. */
  ghost predicate FirstPlanStep(steps: seq<TraceStep>, i: nat) {
    && i < |steps| && steps[i].stage == "response_plan_v2"
    && forall j :: 0 <= j < i ==> steps[j].stage != "response_plan_v2"
  }

  lemma {:induction false} FirstStepMeans(steps: seq<TraceStep>)
    ensures FirstV2Step(steps).None? <==> forall i :: 0 <= i < |steps| ==> steps[i].stage != "response_plan_v2"
    ensures forall i: nat :: FirstPlanStep(steps, i) ==> FirstV2Step(steps) == Some(steps[i])
    decreases |steps|
  {
    if steps != [] && steps[0].stage != "response_plan_v2" {
      FirstStepMeans(steps[1..]);
      forall i: nat | FirstPlanStep(steps, i) ensures FirstV2Step(steps) == Some(steps[i]) {
        assert steps[1..][i - 1] == steps[i];
        assert forall j :: 0 <= j < i - 1 ==> steps[1..][j] == steps[j + 1];
        assert FirstPlanStep(steps[1..], i - 1);
      }
      forall i | 0 <= i < |steps| ensures i > 0 ==> steps[i] == steps[1..][i - 1] {
      }
    }
  }

  ghost predicate Has(step: TraceStep, field: string, value: string) {
    field in step.metadata && step.metadata[field] == value
  }

  ghost predicate Reads(receipt: Receipt, field: string, value: string) {
    field in receipt.fields && receipt.fields[field] == value
  }

  /** Which of the nine fields a receipt must have, and which of them are digests. */
  ghost function Needed(): seq<string> {
    ["artifact_digest", "contract_digest", "output_digest", "replay_bundle_digest", "topic", "requested_mode",
     "effective_mode", "authority", "guard_classification"]
  }

  ghost predicate Readable(receipt: Receipt, guard: string) {
    && "artifact_digest" in receipt.fields && Hex64(receipt.fields["artifact_digest"])
    && "contract_digest" in receipt.fields && Hex64(receipt.fields["contract_digest"])
    && "output_digest" in receipt.fields && Hex64(receipt.fields["output_digest"])
    && "replay_bundle_digest" in receipt.fields && Hex64(receipt.fields["replay_bundle_digest"])
    && "topic" in receipt.fields && "requested_mode" in receipt.fields && "effective_mode" in receipt.fields
    && "authority" in receipt.fields && Reads(receipt, "guard_classification", guard) && receipt.outcome.Some?
  }

  lemma ReadableMeans(receipt: Receipt, guard: string)
    ensures ReadReceipt(receipt, guard).Ok? <==> Readable(receipt, guard)
    ensures Readable(receipt, guard)
            ==> ReadReceipt(receipt, guard).value
                == Facts(
                     receipt.fields["artifact_digest"], receipt.fields["contract_digest"],
                     receipt.fields["output_digest"], receipt.fields["replay_bundle_digest"],
                     receipt.fields["topic"], receipt.fields["requested_mode"], receipt.fields["effective_mode"],
                     receipt.fields["authority"], receipt.outcome.value)
  {
    hide ValidDigest, Hex64;
    forall s ensures ValidDigest(s) <==> Hex64(s) {
      Hex64Means(s);
    }
  }

  ghost predicate KnownOutcome(name: string) {
    || name == "compositional" || name == "audited_verbatim"
    || name == "typed_non_declarative" || name == "realization_downgrade"
  }

  lemma OutcomeNames(name: string)
    ensures OutcomeNamed(name).Some? <==> KnownOutcome(name)
    ensures OutcomeNamed(name) == Some(Compositional) <==> name == "compositional"
    ensures OutcomeNamed(name) == Some(AuditedVerbatim) <==> name == "audited_verbatim"
    ensures OutcomeNamed(name) == Some(TypedNonDeclarative) <==> name == "typed_non_declarative"
    ensures OutcomeNamed(name) == Some(RealizationDowngrade) <==> name == "realization_downgrade"
  {
  }

  /** Some step of the plan reports that its replay agreed. */
  ghost predicate ReplayAgreed(r: TraceRecord) {
    exists i :: 0 <= i < |r.steps| && r.steps[i].stage == "response_plan_v2" && Has(r.steps[i], "replay_parity", "true")
  }

  lemma ReplayMeans(r: TraceRecord)
    ensures ReplayOk(r.steps) <==> ReplayAgreed(r)
  {
    if ReplayAgreed(r) {
      var i :| 0 <= i < |r.steps| && r.steps[i].stage == "response_plan_v2" && Has(r.steps[i], "replay_parity", "true");
      assert r.steps[i] in r.steps;
    }
  }

  /** What a release demands: canary authority and modes, an allowed topic, a released outcome, the guard's
      emission, an agreeing replay, and the digests of the receipt in the first step of the plan, which neither
      downgraded nor fell back. */
  ghost predicate Releasable(r: TraceRecord, receipt: Receipt, guard: string, allowlist: set<string>) {
    && Readable(receipt, guard)
    && Spells(receipt.fields["authority"], "canary", "CANARY")
    && receipt.fields["topic"] in allowlist
    && Reads(receipt, "requested_mode", "canary") && Reads(receipt, "effective_mode", "canary")
    && (receipt.outcome == Some("compositional") || receipt.outcome == Some("audited_verbatim"))
    && guard == "v2_successfully_emitted"
    && ReplayAgreed(r)
    && exists i: nat :: FirstPlanStep(r.steps, i) && Confirms(r.steps[i], receipt)
  }

  ghost predicate Confirms(step: TraceStep, receipt: Receipt) {
    && Reads(receipt, "artifact_digest", step.outputDigest)
    && "contract_digest" in receipt.fields && Has(step, "contract_digest", receipt.fields["contract_digest"])
    && "output_digest" in receipt.fields && Has(step, "authority_surface_digest", receipt.fields["output_digest"])
    && "replay_bundle_digest" in receipt.fields
    && Has(step, "replay_bundle_digest", receipt.fields["replay_bundle_digest"])
    && receipt.surfaceDigest == Some(receipt.fields["output_digest"])
    && Has(step, "downgrade_count", "0") && Has(step, "v1_fallback_used", "false")
  }

  lemma ConfirmsMeans(step: TraceStep, receipt: Receipt, guard: string)
    requires Readable(receipt, guard) && ReadReceipt(receipt, guard).Ok?
    ensures Confirms(step, receipt)
            <==> && DigestsMatch(ReadReceipt(receipt, guard).value, receipt, step)
                 && Metadata(step, "downgrade_count") == Some("0")
                 && Metadata(step, "v1_fallback_used") == Some("false")
  {
    hide Hex64, ReadReceipt;
    ReadableMeans(receipt, guard);
  }

  lemma ReleasableMeans(r: TraceRecord, receipt: Receipt, guard: string, allowlist: set<string>)
    requires ReadReceipt(receipt, guard).Ok? && FirstV2Step(r.steps).Some?
    ensures ReleaseEligible(
              ReadReceipt(receipt, guard).value, receipt, FirstV2Step(r.steps).value, r.steps, guard, allowlist)
            <==> Releasable(r, receipt, guard, allowlist)
  {
    hide Hex64, ReadReceipt, FirstV2Step, ReplayOk, ReplayAgreed, Confirms, DigestsMatch, Metadata, OutcomeNamed,
         EqIgnoreCase, Spells;
    var facts, step := ReadReceipt(receipt, guard).value, FirstV2Step(r.steps).value;
    ReadableMeans(receipt, guard);
    ConfirmsMeans(step, receipt, guard);
    SpellsCanary(facts.authority);
    OutcomeNames(facts.outcome);
    ReplayMeans(r);
    FirstStepMeans(r.steps);
    var i := SomeFirst(r.steps);
    assert FirstPlanStep(r.steps, i) && r.steps[i] == step;
  }

  lemma {:induction false} SomeFirst(steps: seq<TraceStep>) returns (i: nat)
    requires FirstV2Step(steps).Some?
    ensures FirstPlanStep(steps, i) && FirstV2Step(steps) == Some(steps[i])
    decreases |steps|
  {
    if steps[0].stage == "response_plan_v2" {
      i := 0;
    } else {
      var j := SomeFirst(steps[1..]);
      i := j + 1;
      assert forall k :: 0 < k < i ==> steps[k] == steps[1..][k - 1];
    }
  }

  /** Everything a record in scope must satisfy to be counted. */
  ghost predicate Countable(r: TraceRecord, caseIds: set<string>, failClosed: bool, allowlist: set<string>) {
    && (forall i :: 0 <= i < |r.steps| ==> Hex64(r.steps[i].inputDigest) && Hex64(r.steps[i].outputDigest))
    && r.schema == "qxfx0.authority-trace.v1" && r.guard.Some?
    && (r.expectedResult.Some? || r.expectedGuard.Some?
        ==> r.caseId.Some? && r.inputClass.Some? && r.caseId.value !in caseIds)
    && if r.receipt.Object?
       then && Readable(r.receipt.receipt, r.guard.value) && KnownOutcome(r.receipt.receipt.outcome.value)
            && (exists i :: 0 <= i < |r.steps| && r.steps[i].stage == "response_plan_v2")
            && (failClosed ==> Releasable(r, r.receipt.receipt, r.guard.value, allowlist))
       else r.guard == Some("authority_denied_before_render") && !failClosed
  }

  lemma ScreenMeans(r: TraceRecord)
    ensures Screen(r).Ok?
            <==> && (forall i :: 0 <= i < |r.steps| ==> Hex64(r.steps[i].inputDigest) && Hex64(r.steps[i].outputDigest))
                 && r.schema == "qxfx0.authority-trace.v1" && r.guard.Some?
    ensures Screen(r).Ok? ==> Screen(r).value == r.guard.value
  {
    hide ValidDigest, Hex64;
    forall i | 0 <= i < |r.steps|
      ensures ValidDigest(r.steps[i].inputDigest) <==> Hex64(r.steps[i].inputDigest)
      ensures ValidDigest(r.steps[i].outputDigest) <==> Hex64(r.steps[i].outputDigest)
    {
      Hex64Means(r.steps[i].inputDigest);
      Hex64Means(r.steps[i].outputDigest);
    }
    assert forall i :: 0 <= i < |r.steps| ==> r.steps[i] in r.steps;
  }

  lemma JudgeMeans(r: TraceRecord, guard: string, failClosed: bool, allowlist: set<string>)
    requires r.receipt.Object? && r.guard == Some(guard)
    ensures Judge(r, r.receipt.receipt, guard, failClosed, allowlist).Ok?
            <==> && Readable(r.receipt.receipt, guard) && KnownOutcome(r.receipt.receipt.outcome.value)
                 && (exists i :: 0 <= i < |r.steps| && r.steps[i].stage == "response_plan_v2")
                 && (failClosed ==> Releasable(r, r.receipt.receipt, guard, allowlist))
  {
    hide Hex64, ReadReceipt, FirstV2Step, Releasable, ReleaseEligible, ReplayOk, OutcomeNamed, KnownOutcome, RolledBack;
    var receipt := r.receipt.receipt;
    ReadableMeans(receipt, guard);
    FirstStepMeans(r.steps);
    if Readable(receipt, guard) {
      OutcomeNames(receipt.outcome.value);
      if FirstV2Step(r.steps).Some? {
        ReleasableMeans(r, receipt, guard, allowlist);
      }
    }
  }

  /** A record in scope is counted exactly when it has everything it must have; a record out of scope passes
      when its digests, schema and guard are in order. */
  lemma AbsorbedIff(report: Report, r: TraceRecord, failClosed: bool, scope: Scope, allowlist: set<string>)
    ensures Absorb(report, r, failClosed, scope, allowlist).Ok?
            <==> if InScope(r, scope) then Countable(r, report.caseIds, failClosed, allowlist) else Screen(r).Ok?
  {
    hide Screen, Judge, Readable, Releasable, KnownOutcome, Hex64, LabelOf, Settle, Deny, InScope;
    ScreenMeans(r);
    if Screen(r).Ok? && r.receipt.Object? {
      JudgeMeans(r, r.guard.value, failClosed, allowlist);
    }
  }

  // ---------- What a record is refused for ----------

  /** The error names something that is wrong with the record. */
  ghost predicate Offence(
    error: ReportError, r: TraceRecord, caseIds: set<string>, failClosed: bool, allowlist: set<string>)
  {
    var labelled := r.expectedResult.Some? || r.expectedGuard.Some?;
    match error
    case InvalidStageDigest =>
      exists i :: 0 <= i < |r.steps| && !(Hex64(r.steps[i].inputDigest) && Hex64(r.steps[i].outputDigest))
    case NoAuthorityEvidence => r.guard.None? && r.receipt.Absent?
    case WrongSchema => r.schema != "qxfx0.authority-trace.v1"
    case NoGuard => r.guard.None? && !r.receipt.Absent?
    case NoCaseId => labelled && r.caseId.None?
    case NoInputClass => labelled && r.inputClass.None?
    case DuplicateCaseId(id) => labelled && r.caseId == Some(id) && id in caseIds
    case NoReceipt => !r.receipt.Object? && r.guard != Some("authority_denied_before_render")
    case MissingField(f) => r.receipt.Object? && f in Needed() && f !in r.receipt.receipt.fields
    case InvalidDigest(f) =>
      r.receipt.Object? && f in Needed()[..4] && f in r.receipt.receipt.fields && !Hex64(r.receipt.receipt.fields[f])
    case ConflictingGuards => r.receipt.Object? && r.guard.Some?
                              && !Reads(r.receipt.receipt, "guard_classification", r.guard.value)
    case InvalidOutcome => r.receipt.Object? && r.receipt.receipt.outcome.None?
    case UnknownOutcome(o) => r.receipt.Object? && r.receipt.receipt.outcome == Some(o) && !KnownOutcome(o)
    case NoV2Step => forall i :: 0 <= i < |r.steps| ==> r.steps[i].stage != "response_plan_v2"
    case NotReleaseEligible =>
      failClosed && r.guard.Some?
      && (r.receipt.Object? ==> !Releasable(r, r.receipt.receipt, r.guard.value, allowlist))
    case MalformedRecord => false
    case NoRecords => false
  }

  lemma ReceiptOffence(r: TraceRecord, guard: string, caseIds: set<string>, failClosed: bool, allowlist: set<string>)
    requires r.receipt.Object? && r.guard == Some(guard) && ReadReceipt(r.receipt.receipt, guard).Err?
    ensures Offence(ReadReceipt(r.receipt.receipt, guard).error, r, caseIds, failClosed, allowlist)
  {
    hide ValidDigest, Hex64, Releasable, KnownOutcome;
    forall s ensures ValidDigest(s) <==> Hex64(s) {
      Hex64Means(s);
    }
    NeededFields();
    hide Needed;
  }

  lemma NeededFields()
    ensures |Needed()| == 9
    ensures forall f :: f in ["artifact_digest", "contract_digest", "output_digest", "replay_bundle_digest"]
              ==> f in Needed() && f in Needed()[..4]
    ensures forall f :: f in ["topic", "requested_mode", "effective_mode", "authority", "guard_classification"]
              ==> f in Needed()
  {
  }

  lemma JudgeOffence(r: TraceRecord, guard: string, caseIds: set<string>, failClosed: bool, allowlist: set<string>)
    requires r.receipt.Object? && r.guard == Some(guard)
    requires Judge(r, r.receipt.receipt, guard, failClosed, allowlist).Err?
    ensures Offence(Judge(r, r.receipt.receipt, guard, failClosed, allowlist).error, r, caseIds, failClosed, allowlist)
  {
    hide ReadReceipt, FirstV2Step, Releasable, ReleaseEligible, ReplayOk, OutcomeNamed, KnownOutcome, RolledBack, Hex64,
         Readable, Needed;
    var receipt := r.receipt.receipt;
    if ReadReceipt(receipt, guard).Err? {
      ReceiptOffence(r, guard, caseIds, failClosed, allowlist);
    } else {
      ReadableMeans(receipt, guard);
      OutcomeFound(receipt, guard);
      OutcomeNames(receipt.outcome.value);
      FirstStepMeans(r.steps);
      if FirstV2Step(r.steps).Some? {
        ReleasableMeans(r, receipt, guard, allowlist);
      }
    }
  }

  lemma OutcomeFound(receipt: Receipt, guard: string)
    requires ReadReceipt(receipt, guard).Ok?
    ensures receipt.outcome == Some(ReadReceipt(receipt, guard).value.outcome)
  {
  }

  /** Every refusal of a record names an offence of that record. */
  lemma RefusedForOffence(report: Report, r: TraceRecord, failClosed: bool, scope: Scope, allowlist: set<string>)
    ensures var after := Absorb(report, r, failClosed, scope, allowlist);
            after.Err? ==> Offence(after.error, r, report.caseIds, failClosed, allowlist)
  {
    hide Screen, Judge, Offence, LabelOf, Settle, Deny, InScope;
    if Screen(r).Err? {
      ScreenOffence(r, report.caseIds, failClosed, allowlist);
    } else {
      ScreenMeans(r);
      EnrolOffence(report, r, failClosed, allowlist);
      if r.receipt.Object? {
        if Judge(r, r.receipt.receipt, r.guard.value, failClosed, allowlist).Err? {
          JudgeOffence(r, r.guard.value, report.caseIds, failClosed, allowlist);
        }
      } else {
        DenialOffence(r, report.caseIds, failClosed, allowlist);
      }
    }
  }

  lemma ScreenOffence(r: TraceRecord, caseIds: set<string>, failClosed: bool, allowlist: set<string>)
    requires Screen(r).Err?
    ensures Offence(Screen(r).error, r, caseIds, failClosed, allowlist)
  {
    hide ValidDigest, Hex64;
    forall i | 0 <= i < |r.steps|
      ensures ValidDigest(r.steps[i].inputDigest) <==> Hex64(r.steps[i].inputDigest)
      ensures ValidDigest(r.steps[i].outputDigest) <==> Hex64(r.steps[i].outputDigest)
    {
      Hex64Means(r.steps[i].inputDigest);
      Hex64Means(r.steps[i].outputDigest);
    }
  }

  lemma EnrolOffence(report: Report, r: TraceRecord, failClosed: bool, allowlist: set<string>)
    ensures Enrol(report, r).Err? ==> Offence(Enrol(report, r).error, r, report.caseIds, failClosed, allowlist)
  {
  }

  lemma DenialOffence(r: TraceRecord, caseIds: set<string>, failClosed: bool, allowlist: set<string>)
    requires !r.receipt.Object? && r.guard.Some?
    ensures Offence(NoReceipt, r, caseIds, failClosed, allowlist) <==> r.guard.value != "authority_denied_before_render"
    ensures Offence(NotReleaseEligible, r, caseIds, failClosed, allowlist) <==> failClosed
  {
  }

  // ---------- What a record counts as ----------

  /** A rollback: without a receipt always; with one if its authority is disabled or the guard denied. */
  ghost predicate IsRollback(r: TraceRecord) {
    r.receipt.Object?
    ==> || ("authority" in r.receipt.receipt.fields
            && Spells(r.receipt.receipt.fields["authority"], "disabled", "DISABLED"))
        || r.guard == Some("authority_denied_before_render")
  }

  /** A record counts as one turn, and under the outcome its receipt names. */
  lemma TurnWeights(r: TraceRecord)
    ensures var outcome := if r.receipt.Object? then r.receipt.receipt.outcome else None;
            && Weight(r, Turns) == 1
            && Weight(r, Ended(Compositional)) == One(outcome == Some("compositional"))
            && Weight(r, Ended(AuditedVerbatim)) == One(outcome == Some("audited_verbatim"))
            && Weight(r, Ended(TypedNonDeclarative)) == One(outcome == Some("typed_non_declarative"))
            && Weight(r, Ended(RealizationDowngrade)) == One(outcome == Some("realization_downgrade"))
  {
    hide EndedAs;
    EndedMeans(r);
  }

  /** With a receipt it may count as a replay failure and as a guard block, without one it counts as a denial;
      and either may be a rollback. */
  lemma FailureWeights(r: TraceRecord, expected: bool)
    ensures Weight(r, ReplayFailures) == One(r.receipt.Object? && !ReplayAgreed(r))
    ensures Weight(r, GuardBlocks) == One(r.receipt.Object? && r.guard == Some("v2_rendered_guard_blocked"))
    ensures Weight(r, Rollbacks) == One(IsRollback(r))
    ensures Weight(r, RollbacksThat(expected)) == One(IsRollback(r) && Expects(r, "authority_denied") == expected)
    ensures Weight(r, Denials(expected)) == One(!r.receipt.Object? && Expects(r, "authority_denied") == expected)
  {
    hide ReplayOk, ReplayAgreed, WasRolledBack, IsRollback;
    ReplayMeans(r);
    RollbackMeans(r);
  }

  /** By its label it counts as positive or negative; it may fail its expectation twice, by its guard and by its
      result, and without a receipt the result is a denial. */
  lemma LabelWeights(r: TraceRecord)
    ensures Weight(r, PositiveTurns) == One(ExpectsRelease(r))
    ensures Weight(r, NegativeTurns) == One(r.expectedResult.Some? && !ExpectsRelease(r))
    ensures Weight(r, ExpectationFailures)
            == One(r.expectedGuard.Some? && r.expectedGuard != r.guard)
               + One(if r.receipt.Object?
                     then r.expectedResult.Some? && r.receipt.receipt.outcome.Some?
                          && r.expectedResult != r.receipt.receipt.outcome
                     else !Expects(r, "authority_denied"))
  {
  }

  lemma RollbackMeans(r: TraceRecord)
    ensures WasRolledBack(r) <==> IsRollback(r)
  {
    hide EqIgnoreCase, Spells;
    if r.receipt.Object? && "authority" in r.receipt.receipt.fields {
      SpellsDisabled(r.receipt.receipt.fields["authority"]);
    }
  }

  lemma EndedMeans(r: TraceRecord)
    ensures var outcome := if r.receipt.Object? then r.receipt.receipt.outcome else None;
            && (EndedAs(r) == Some(Compositional) <==> outcome == Some("compositional"))
            && (EndedAs(r) == Some(AuditedVerbatim) <==> outcome == Some("audited_verbatim"))
            && (EndedAs(r) == Some(TypedNonDeclarative) <==> outcome == Some("typed_non_declarative"))
            && (EndedAs(r) == Some(RealizationDowngrade) <==> outcome == Some("realization_downgrade"))
  {
    hide OutcomeNamed;
    if r.receipt.Object? && r.receipt.receipt.outcome.Some? {
      OutcomeNames(r.receipt.receipt.outcome.value);
    }
  }
}
