/** `authority_report`: a fold over trace records with a scope filter and a fail-closed mode. */
module TraceReport {
  import opened Options

  // ---------- Records ----------

  datatype TraceStep = TraceStep(
    stage: string, inputDigest: string, outputDigest: string, metadata: map<string, string>)

  /** A receipt: its string-valued fields, the name of its outcome, and the surface digest found there. */
  datatype Receipt = Receipt(fields: map<string, string>, outcome: Option<string>, surfaceDigest: Option<string>)

  /** The receipt field may be absent, or present without being an object. */
  datatype ReceiptField = Absent | Other | Object(receipt: Receipt)

  datatype TraceRecord = TraceRecord(
    schema: string,
    steps: seq<TraceStep>,
    receipt: ReceiptField,
    guard: Option<string>,
    caseId: Option<string>,
    inputClass: Option<string>,
    expectedResult: Option<string>,
    expectedGuard: Option<string>)

  datatype Line = Blank | Malformed | Parsed(record: TraceRecord)

  datatype Scope = All | Positive | Negative

  datatype ReportError =
    | MalformedRecord | InvalidStageDigest | NoAuthorityEvidence | WrongSchema | NoGuard | NoCaseId | NoInputClass
    | DuplicateCaseId(id: string) | NotReleaseEligible | NoReceipt | MissingField(field: string)
    | InvalidDigest(field: string) | ConflictingGuards | InvalidOutcome | UnknownOutcome(outcome: string)
    | NoV2Step | NoRecords

  datatype Checked<+T> = Ok(value: T) | Err(error: ReportError) {
    predicate IsFailure() {
      Err?
    }

    function PropagateFailure<U>(): Checked<U>
      requires Err?
    {
      Err(error)
    }

    function Extract(): T
      requires Ok?
    {
      value
    }
  }

  function Need(condition: bool, error: ReportError): Checked<()> {
    if condition then Ok(()) else Err(error)
  }

  // ---------- The report ----------

  datatype Counters = Counters(
    turns: nat,
    compositional: nat,
    auditedVerbatim: nat,
    typedNonDeclarative: nat,
    realizationDowngrade: nat,
    replayFailures: nat,
    guardBlocks: nat,
    rollbackActivations: nat,
    positiveTurns: nat,
    negativeTurns: nat,
    expectationFailures: nat,
    expectedDenials: nat,
    unexpectedDenials: nat,
    expectedRollbacks: nat,
    unexpectedRollbacks: nat)

  const ZERO := Counters(0, 0, 0, 0, 0, 0, 0, 0, 0, 0, 0, 0, 0, 0, 0)

  datatype Report = Report(counts: Counters, caseIds: set<string>, inputClasses: map<string, nat>)

  const EMPTY := Report(ZERO, {}, map[])

  function One(condition: bool): nat {
    if condition then 1 else 0
  }

  predicate ValidDigest(s: string) {
    |s| == 64 && forall c :: c in s ==> '0' <= c <= '9' || 'a' <= c <= 'f'
  }

  function AsciiLower(c: char): char {
    if 'A' <= c <= 'Z' then (c as int + 32) as char else c
  }

  predicate EqIgnoreCase(a: string, b: string) {
    |a| == |b| && forall i :: 0 <= i < |a| ==> AsciiLower(a[i]) == AsciiLower(b[i])
  }

  predicate IsPositive(r: TraceRecord) {
    r.expectedResult == Some("compositional") || r.expectedResult == Some("audited_verbatim")
  }

  predicate IsNegative(r: TraceRecord) {
    r.expectedResult.Some? && !IsPositive(r)
  }

  predicate InScope(r: TraceRecord, scope: Scope) {
    match scope
    case All => true
    case Positive => IsPositive(r)
    case Negative => IsNegative(r)
  }

  /** Checks made of every record before the scope filter; yields the guard classification. */
  function Screen(r: TraceRecord): Checked<string> {
    var _ :- Need(forall s :: s in r.steps ==> ValidDigest(s.inputDigest) && ValidDigest(s.outputDigest),
                  InvalidStageDigest);
    var _ :- Need(r.guard.Some? || !r.receipt.Absent?, NoAuthorityEvidence);
    var _ :- Need(r.schema == "qxfx0.authority-trace.v1", WrongSchema);
    var _ :- Need(r.guard.Some?, NoGuard);
    Ok(r.guard.value)
  }

  predicate Labelled(r: TraceRecord) {
    r.expectedResult.Some? || r.expectedGuard.Some?
  }

  function Bump(classes: map<string, nat>, name: string): map<string, nat> {
    classes[name := (if name in classes then classes[name] else 0) + 1]
  }

  /** The counters after the labels of a record. */
  function Label(c: Counters, positive: bool, negative: bool, guardMismatch: bool): Counters {
    c.(
      positiveTurns := c.positiveTurns + One(positive),
      negativeTurns := c.negativeTurns + One(negative),
      expectationFailures := c.expectationFailures + One(guardMismatch))
  }

  /** Labelled records need a case of their own and an input class. */
  function Enrol(report: Report, r: TraceRecord): Checked<Report> {
    var _ :- Need(!Labelled(r) || r.caseId.Some?, NoCaseId);
    var _ :- Need(!Labelled(r) || r.inputClass.Some?, NoInputClass);
    var _ :- Need(!Labelled(r) || r.caseId.value !in report.caseIds,
                  DuplicateCaseId(if r.caseId.Some? then r.caseId.value else ""));
    if Labelled(r)
    then Ok(report.(caseIds := report.caseIds + {r.caseId.value},
                    inputClasses := Bump(report.inputClasses, r.inputClass.value)))
    else Ok(report)
  }

  /** The counters after a denial before rendering. */
  function Deny(c: Counters, expected: bool): Counters {
    c.(
      turns := c.turns + 1,
      expectedDenials := c.expectedDenials + One(expected),
      expectedRollbacks := c.expectedRollbacks + One(expected),
      unexpectedDenials := c.unexpectedDenials + One(!expected),
      unexpectedRollbacks := c.unexpectedRollbacks + One(!expected),
      expectationFailures := c.expectationFailures + One(!expected),
      rollbackActivations := c.rollbackActivations + 1)
  }

  predicate DenialExpected(r: TraceRecord) {
    r.expectedResult == Some("authority_denied")
  }

  /** A record without a receipt is a denial before rendering, or an error. */
  function DenialTurn(c: Counters, r: TraceRecord, guard: string, failClosed: bool): Checked<Counters> {
    var _ :- Need(guard == "authority_denied_before_render", NoReceipt);
    var _ :- Need(!failClosed, NotReleaseEligible);
    Ok(Deny(c, DenialExpected(r)))
  }

  function Field(receipt: Receipt, field: string): Checked<string> {
    if field in receipt.fields then Ok(receipt.fields[field]) else Err(MissingField(field))
  }

  function DigestField(receipt: Receipt, field: string): Checked<string> {
    var value :- Field(receipt, field);
    var _ :- Need(ValidDigest(value), InvalidDigest(field));
    Ok(value)
  }

  datatype Outcome = Compositional | AuditedVerbatim | TypedNonDeclarative | RealizationDowngrade

  function OutcomeNamed(name: string): Option<Outcome> {
    match name
    case "compositional" => Some(Compositional)
    case "audited_verbatim" => Some(AuditedVerbatim)
    case "typed_non_declarative" => Some(TypedNonDeclarative)
    case "realization_downgrade" => Some(RealizationDowngrade)
    case _ => None
  }

  function Metadata(step: TraceStep, field: string): Option<string> {
    if field in step.metadata then Some(step.metadata[field]) else None
  }

  function FirstV2Step(steps: seq<TraceStep>): Option<TraceStep> {
    if steps == [] then None
    else if steps[0].stage == "response_plan_v2" then Some(steps[0])
    else FirstV2Step(steps[1..])
  }

  predicate ReplayOk(steps: seq<TraceStep>) {
    exists s :: s in steps && s.stage == "response_plan_v2" && Metadata(s, "replay_parity") == Some("true")
  }

  /** The parts of a receipt the rest of the fold uses. */
  datatype Facts = Facts(
    artifact: string, contract: string, output: string, bundle: string,
    topic: string, requestedMode: string, effectiveMode: string, authority: string, outcome: string)

  function ReadReceipt(receipt: Receipt, guard: string): Checked<Facts> {
    var artifact :- DigestField(receipt, "artifact_digest");
    var contract :- DigestField(receipt, "contract_digest");
    var output :- DigestField(receipt, "output_digest");
    var bundle :- DigestField(receipt, "replay_bundle_digest");
    var topic :- Field(receipt, "topic");
    var requestedMode :- Field(receipt, "requested_mode");
    var effectiveMode :- Field(receipt, "effective_mode");
    var authority :- Field(receipt, "authority");
    var receiptGuard :- Field(receipt, "guard_classification");
    var _ :- Need(receiptGuard == guard, ConflictingGuards);
    var _ :- Need(receipt.outcome.Some?, InvalidOutcome);
    Ok(Facts(artifact, contract, output, bundle, topic, requestedMode, effectiveMode, authority, receipt.outcome.value))
  }

  predicate DigestsMatch(facts: Facts, receipt: Receipt, step: TraceStep) {
    && step.outputDigest == facts.artifact
    && Metadata(step, "contract_digest") == Some(facts.contract)
    && Metadata(step, "authority_surface_digest") == Some(facts.output)
    && Metadata(step, "replay_bundle_digest") == Some(facts.bundle)
    && receipt.surfaceDigest == Some(facts.output)
  }

  predicate RolledBack(facts: Facts, guard: string) {
    EqIgnoreCase(facts.authority, "disabled") || guard == "authority_denied_before_render"
  }

  /** What a fail-closed run demands of a record with a receipt. */
  predicate ReleaseEligible(
    facts: Facts, receipt: Receipt, step: TraceStep, steps: seq<TraceStep>, guard: string, allowlist: set<string>)
  {
    && EqIgnoreCase(facts.authority, "canary")
    && facts.topic in allowlist
    && facts.requestedMode == "canary" && facts.effectiveMode == "canary"
    && (OutcomeNamed(facts.outcome) == Some(Compositional) || OutcomeNamed(facts.outcome) == Some(AuditedVerbatim))
    && guard == "v2_successfully_emitted"
    && ReplayOk(steps)
    && DigestsMatch(facts, receipt, step)
    && Metadata(step, "downgrade_count") == Some("0")
    && Metadata(step, "v1_fallback_used") == Some("false")
  }

  /** What the fold needs to know of a record with a readable receipt. */
  datatype Verdict = Verdict(
    outcome: Outcome, replayOk: bool, blocked: bool, back: bool, denialExpected: bool, mismatch: bool)

  /** The counters after a record with a readable receipt. */
  function Settle(c: Counters, v: Verdict): Counters {
    c.(
      turns := c.turns + 1,
      compositional := c.compositional + One(v.outcome.Compositional?),
      auditedVerbatim := c.auditedVerbatim + One(v.outcome.AuditedVerbatim?),
      typedNonDeclarative := c.typedNonDeclarative + One(v.outcome.TypedNonDeclarative?),
      realizationDowngrade := c.realizationDowngrade + One(v.outcome.RealizationDowngrade?),
      replayFailures := c.replayFailures + One(!v.replayOk),
      guardBlocks := c.guardBlocks + One(v.blocked),
      rollbackActivations := c.rollbackActivations + One(v.back),
      expectedRollbacks := c.expectedRollbacks + One(v.back && v.denialExpected),
      unexpectedRollbacks := c.unexpectedRollbacks + One(v.back && !v.denialExpected),
      expectationFailures := c.expectationFailures + One(v.mismatch))
  }

  function Judge(r: TraceRecord, receipt: Receipt, guard: string, failClosed: bool, allowlist: set<string>)
    : Checked<Verdict>
  {
    var facts :- ReadReceipt(receipt, guard);
    var outcome := OutcomeNamed(facts.outcome);
    var _ :- Need(outcome.Some?, UnknownOutcome(facts.outcome));
    var step := FirstV2Step(r.steps);
    var _ :- Need(step.Some?, NoV2Step);
    var _ :- Need(!failClosed || ReleaseEligible(facts, receipt, step.value, r.steps, guard, allowlist),
                  NotReleaseEligible);
    Ok(Verdict(
         outcome.value, ReplayOk(r.steps), guard == "v2_rendered_guard_blocked", RolledBack(facts, guard),
         DenialExpected(r), r.expectedResult.Some? && r.expectedResult.value != facts.outcome))
  }

  function Turn(c: Counters, r: TraceRecord, guard: string, failClosed: bool, allowlist: set<string>)
    : Checked<Counters>
  {
    match r.receipt
    case Object(receipt) =>
      var verdict :- Judge(r, receipt, guard, failClosed, allowlist);
      Ok(Settle(c, verdict))
    case _ => DenialTurn(c, r, guard, failClosed)
  }

  function LabelOf(c: Counters, r: TraceRecord, guard: string): Counters {
    Label(c, IsPositive(r), IsNegative(r), r.expectedGuard.Some? && r.expectedGuard.value != guard)
  }

  /** One record in scope. */
  function Count(report: Report, r: TraceRecord, guard: string, failClosed: bool, allowlist: set<string>)
    : Checked<Report>
  {
    var enrolled :- Enrol(report, r);
    var counts :- Turn(LabelOf(enrolled.counts, r, guard), r, guard, failClosed, allowlist);
    Ok(enrolled.(counts := counts))
  }

  function Absorb(report: Report, r: TraceRecord, failClosed: bool, scope: Scope, allowlist: set<string>)
    : Checked<Report>
  {
    var guard :- Screen(r);
    if InScope(r, scope) then Count(report, r, guard, failClosed, allowlist) else Ok(report)
  }

  function Fold(lines: seq<Line>, failClosed: bool, scope: Scope, allowlist: set<string>): Checked<Report> {
    if lines == [] then Ok(EMPTY)
    else
      var before :- Fold(lines[..|lines| - 1], failClosed, scope, allowlist);
      match lines[|lines| - 1]
      case Blank => Ok(before)
      case Malformed => Err(MalformedRecord)
      case Parsed(r) => Absorb(before, r, failClosed, scope, allowlist)
  }

  function Flatten(artifacts: seq<seq<Line>>): seq<Line> {
    if artifacts == [] then [] else Flatten(artifacts[..|artifacts| - 1]) + artifacts[|artifacts| - 1]
  }

  /** Read one artifact on top of what has been read before. */
  method ReadArtifact(
      before: Report, lines: seq<Line>, failClosed: bool, scope: Scope, allowlist: set<string>, ghost read: seq<Line>)
    returns (result: Checked<Report>)
    requires Fold(read, failClosed, scope, allowlist) == Ok(before)
    ensures result == Fold(read + lines, failClosed, scope, allowlist)
  {
    hide Absorb, Fold;
    var report := before;
    ghost var done := read;
    assert read + lines[..0] == read;
    for i := 0 to |lines|
      invariant done == read + lines[..i]
      invariant Fold(done, failClosed, scope, allowlist) == Ok(report)
    {
      FoldSnoc(done, lines[i], failClosed, scope, allowlist);
      assert read + lines == done + [lines[i]] + lines[i + 1..];
      FoldStops(done + [lines[i]], lines[i + 1..], failClosed, scope, allowlist);
      done := done + [lines[i]];
      match lines[i] {
        case Blank =>
        case Malformed =>
          return Err(MalformedRecord);
        case Parsed(r) =>
          var next := Absorb(report, r, failClosed, scope, allowlist);
          if next.Err? {
            return next;
          }
          report := next.value;
      }
    }
    assert done == read + lines;
    return Ok(report);
  }

  /** Reading stops at the first error; a report without a turn is an error of its own. */
  method AuthorityReport(artifacts: seq<seq<Line>>, failClosed: bool, scope: Scope, allowlist: set<string>)
    returns (result: Checked<Report>)
    ensures var folded := Fold(Flatten(artifacts), failClosed, scope, allowlist);
            result == if folded.Ok? && folded.value.counts.turns == 0 then Err(NoRecords) else folded
  {
    hide Absorb, Fold, Flatten;
    var report := EMPTY;
    NothingRead(failClosed, scope, allowlist);
    assert artifacts[..0] == [];
    for a := 0 to |artifacts|
      invariant Fold(Flatten(artifacts[..a]), failClosed, scope, allowlist) == Ok(report)
    {
      ghost var read := Flatten(artifacts[..a]);
      FlattenSnoc(artifacts, a);
      FoldStops(read + artifacts[a], Flatten(artifacts[a + 1..]), failClosed, scope, allowlist);
      result := ReadArtifact(report, artifacts[a], failClosed, scope, allowlist, read);
      if result.Err? {
        return;
      }
      report := result.value;
    }
    assert artifacts[..|artifacts|] == artifacts;
    if |artifacts| == 0 || report.counts.turns == 0 {
      return Err(NoRecords);
    }
    return Ok(report);
  }

  lemma NothingRead(failClosed: bool, scope: Scope, allowlist: set<string>)
    ensures Flatten([]) == [] && Fold([], failClosed, scope, allowlist) == Ok(EMPTY)
  {
  }

  lemma FoldSnoc(lines: seq<Line>, line: Line, failClosed: bool, scope: Scope, allowlist: set<string>)
    ensures Fold(lines + [line], failClosed, scope, allowlist)
            == match Fold(lines, failClosed, scope, allowlist)
               case Err(error) => Err(error)
               case Ok(before) =>
                 match line
                 case Blank => Ok(before)
                 case Malformed => Err(MalformedRecord)
                 case Parsed(r) => Absorb(before, r, failClosed, scope, allowlist)
  {
    hide Absorb;
    assert (lines + [line])[..|lines|] == lines;
  }

  lemma {:induction false} FoldStops(
      lines: seq<Line>, more: seq<Line>, failClosed: bool, scope: Scope, allowlist: set<string>)
    ensures Fold(lines, failClosed, scope, allowlist).Err?
            ==> Fold(lines + more, failClosed, scope, allowlist) == Fold(lines, failClosed, scope, allowlist)
    decreases |more|
  {
    hide Absorb;
    if more == [] {
      assert lines + more == lines;
    } else {
      var n := |more| - 1;
      assert lines + more == lines + more[..n] + [more[n]];
      FoldStops(lines, more[..n], failClosed, scope, allowlist);
      FoldSnoc(lines + more[..n], more[n], failClosed, scope, allowlist);
    }
  }

  lemma {:induction false} FlattenConcat(a: seq<seq<Line>>, b: seq<seq<Line>>)
    ensures Flatten(a + b) == Flatten(a) + Flatten(b)
    decreases |b|
  {
    if b == [] {
      assert a + b == a;
    } else {
      assert (a + b)[..|a + b| - 1] == a + b[..|b| - 1];
      FlattenConcat(a, b[..|b| - 1]);
    }
  }

  lemma FlattenOne(before: seq<seq<Line>>, last: seq<Line>)
    ensures Flatten(before + [last]) == Flatten(before) + last
  {
    assert (before + [last])[..|before|] == before;
  }

  lemma FlattenAround(before: seq<seq<Line>>, last: seq<Line>, after: seq<seq<Line>>)
    ensures Flatten(before + [last] + after) == Flatten(before) + last + Flatten(after)
  {
    hide Flatten;
    FlattenOne(before, last);
    FlattenConcat(before + [last], after);
  }

  lemma Around(artifacts: seq<seq<Line>>, a: nat)
    requires a < |artifacts|
    ensures artifacts[..a + 1] == artifacts[..a] + [artifacts[a]]
    ensures artifacts == artifacts[..a] + [artifacts[a]] + artifacts[a + 1..]
  {
  }

  lemma FlattenSnoc(artifacts: seq<seq<Line>>, a: nat)
    requires a < |artifacts|
    ensures Flatten(artifacts[..a + 1]) == Flatten(artifacts[..a]) + artifacts[a]
    ensures Flatten(artifacts) == Flatten(artifacts[..a]) + artifacts[a] + Flatten(artifacts[a + 1..])
  {
    hide Flatten;
    Around(artifacts, a);
    FlattenOne(artifacts[..a], artifacts[a]);
    FlattenAround(artifacts[..a], artifacts[a], artifacts[a + 1..]);
  }

  // ---------- Conservation ----------

  /** Every turn has exactly one outcome or denial, every rollback is expected or not, denials are
      rollbacks, and no turn is labelled both ways. */
  ghost predicate Balanced(c: Counters) {
    && c.turns == c.compositional + c.auditedVerbatim + c.typedNonDeclarative + c.realizationDowngrade
                  + c.expectedDenials + c.unexpectedDenials
    && c.rollbackActivations == c.expectedRollbacks + c.unexpectedRollbacks
    && c.expectedDenials <= c.expectedRollbacks && c.unexpectedDenials <= c.unexpectedRollbacks
    && c.unexpectedDenials <= c.expectationFailures
    && c.positiveTurns + c.negativeTurns <= c.turns
    && c.rollbackActivations <= c.turns && c.replayFailures <= c.turns && c.guardBlocks <= c.turns
  }

  lemma SettleBalances(c: Counters, v: Verdict, positive: bool, negative: bool, guardMismatch: bool)
    requires Balanced(c) && !(positive && negative)
    ensures Balanced(Settle(Label(c, positive, negative, guardMismatch), v))
  {
  }

  lemma DenyBalances(c: Counters, expected: bool, positive: bool, negative: bool, guardMismatch: bool)
    requires Balanced(c) && !(positive && negative)
    ensures Balanced(Deny(Label(c, positive, negative, guardMismatch), expected))
  {
  }

  lemma TurnBalances(c: Counters, r: TraceRecord, guard: string, failClosed: bool, allowlist: set<string>)
    requires Balanced(c)
    ensures var after := Turn(LabelOf(c, r, guard), r, guard, failClosed, allowlist);
            after.Ok? ==> Balanced(after.value)
  {
    hide Judge, IsPositive, Balanced, Label, Settle, Deny;
    var guardMismatch := r.expectedGuard.Some? && r.expectedGuard.value != guard;
    DenyBalances(c, DenialExpected(r), IsPositive(r), IsNegative(r), guardMismatch);
    if r.receipt.Object? {
      var verdict := Judge(r, r.receipt.receipt, guard, failClosed, allowlist);
      if verdict.Ok? {
        SettleBalances(c, verdict.value, IsPositive(r), IsNegative(r), guardMismatch);
      }
    }
  }

  /** Counts are conserved by every run over any records. */
  lemma {:induction false} FoldBalances(lines: seq<Line>, failClosed: bool, scope: Scope, allowlist: set<string>)
    ensures var folded := Fold(lines, failClosed, scope, allowlist);
            folded.Ok? ==> Balanced(folded.value.counts)
    decreases |lines|
  {
    hide Screen, Turn, LabelOf, Balanced;
    if lines == [] {
      ZeroIsBalanced();
    } else {
      var n := |lines| - 1;
      FoldBalances(lines[..n], failClosed, scope, allowlist);
      var before := Fold(lines[..n], failClosed, scope, allowlist);
      if before.Ok? && lines[n].Parsed? && Screen(lines[n].record).Ok? {
        var r := lines[n].record;
        TurnBalances(before.value.counts, r, Screen(r).value, failClosed, allowlist);
      }
    }
  }

  lemma ZeroIsBalanced()
    ensures Balanced(ZERO)
  {
  }

  // ---------- What each counter counts ----------

  /** The counters, by name. */
  datatype Mark =
    | Turns | Ended(outcome: Outcome) | ReplayFailures | GuardBlocks | Rollbacks | PositiveTurns | NegativeTurns
    | ExpectationFailures | Denials(expected: bool) | RollbacksThat(expected: bool)

  function Value(c: Counters, mark: Mark): nat {
    match mark
    case Turns => c.turns
    case Ended(Compositional) => c.compositional
    case Ended(AuditedVerbatim) => c.auditedVerbatim
    case Ended(TypedNonDeclarative) => c.typedNonDeclarative
    case Ended(RealizationDowngrade) => c.realizationDowngrade
    case ReplayFailures => c.replayFailures
    case GuardBlocks => c.guardBlocks
    case Rollbacks => c.rollbackActivations
    case PositiveTurns => c.positiveTurns
    case NegativeTurns => c.negativeTurns
    case ExpectationFailures => c.expectationFailures
    case Denials(expected) => if expected then c.expectedDenials else c.unexpectedDenials
    case RollbacksThat(expected) => if expected then c.expectedRollbacks else c.unexpectedRollbacks
  }

  /** The outcome its receipt names, if the record has a receipt. */
  function EndedAs(r: TraceRecord): Option<Outcome> {
    if r.receipt.Object? && r.receipt.receipt.outcome.Some? then OutcomeNamed(r.receipt.receipt.outcome.value) else None
  }

  predicate Guarded(r: TraceRecord, classification: string) {
    r.guard == Some(classification)
  }

  predicate AuthorityDisabled(receipt: Receipt) {
    "authority" in receipt.fields && EqIgnoreCase(receipt.fields["authority"], "disabled")
  }

  predicate WasRolledBack(r: TraceRecord) {
    r.receipt.Object? ==> AuthorityDisabled(r.receipt.receipt) || Guarded(r, "authority_denied_before_render")
  }

  predicate GuardUnexpected(r: TraceRecord) {
    r.expectedGuard.Some? && r.expectedGuard != r.guard
  }

  /** A result other than the expected one; a record without a receipt is expected to be a denial. */
  predicate ResultUnexpected(r: TraceRecord) {
    if r.receipt.Object?
    then r.expectedResult.Some? && r.receipt.receipt.outcome.Some? && r.expectedResult != r.receipt.receipt.outcome
    else !DenialExpected(r)
  }

  /** How often a record is counted under a name, read off the record alone. */
  function Weight(r: TraceRecord, mark: Mark): nat {
    match mark
    case Turns => 1
    case Ended(outcome) => One(EndedAs(r) == Some(outcome))
    case ReplayFailures => One(r.receipt.Object? && !ReplayOk(r.steps))
    case GuardBlocks => One(r.receipt.Object? && Guarded(r, "v2_rendered_guard_blocked"))
    case Rollbacks => One(WasRolledBack(r))
    case PositiveTurns => One(IsPositive(r))
    case NegativeTurns => One(IsNegative(r))
    case ExpectationFailures => One(GuardUnexpected(r)) + One(ResultUnexpected(r))
    case Denials(expected) => One(!r.receipt.Object? && DenialExpected(r) == expected)
    case RollbacksThat(expected) => One(WasRolledBack(r) && DenialExpected(r) == expected)
  }

  /** The total weight of the records in scope. */
  function Total(lines: seq<Line>, scope: Scope, mark: Mark): nat {
    if lines == [] then 0
    else
      Total(lines[..|lines| - 1], scope, mark)
      + match lines[|lines| - 1]
        case Parsed(r) => if InScope(r, scope) then Weight(r, mark) else 0
        case _ => 0
  }

  lemma DenyWeighs(c: Counters, r: TraceRecord, guard: string, mark: Mark)
    requires !r.receipt.Object? && r.guard == Some(guard)
    ensures Value(Deny(LabelOf(c, r, guard), DenialExpected(r)), mark) == Value(c, mark) + Weight(r, mark)
  {
    hide IsPositive, DenialExpected, ReplayOk, OutcomeNamed, EqIgnoreCase;
  }

  /** What a verdict says of its record. */
  ghost predicate Describes(v: Verdict, r: TraceRecord) {
    && EndedAs(r) == Some(v.outcome)
    && v.replayOk == ReplayOk(r.steps)
    && v.blocked == Guarded(r, "v2_rendered_guard_blocked")
    && v.back == WasRolledBack(r)
    && v.denialExpected == DenialExpected(r)
    && v.mismatch == ResultUnexpected(r)
  }

  lemma JudgeDescribes(r: TraceRecord, guard: string, failClosed: bool, allowlist: set<string>)
    requires r.receipt.Object? && r.guard == Some(guard)
    ensures var verdict := Judge(r, r.receipt.receipt, guard, failClosed, allowlist);
            verdict.Ok? ==> Describes(verdict.value, r)
  {
    hide ReplayOk, FirstV2Step, ReleaseEligible, OutcomeNamed, DenialExpected, EqIgnoreCase, ValidDigest;
  }

  lemma SettleWeighs(c: Counters, r: TraceRecord, guard: string, v: Verdict, mark: Mark)
    requires r.receipt.Object? && r.guard == Some(guard) && Describes(v, r)
    ensures Value(Settle(LabelOf(c, r, guard), v), mark) == Value(c, mark) + Weight(r, mark)
  {
    hide IsPositive, DenialExpected, ReplayOk, WasRolledBack, EndedAs, ResultUnexpected;
  }

  lemma TurnWeighs(c: Counters, r: TraceRecord, guard: string, failClosed: bool, allowlist: set<string>, mark: Mark)
    requires r.guard == Some(guard)
    ensures var after := Turn(LabelOf(c, r, guard), r, guard, failClosed, allowlist);
            after.Ok? ==> Value(after.value, mark) == Value(c, mark) + Weight(r, mark)
  {
    hide Judge, LabelOf, Settle, Deny, Value, Weight, DenialExpected, Describes;
    if r.receipt.Object? {
      var verdict := Judge(r, r.receipt.receipt, guard, failClosed, allowlist);
      if verdict.Ok? {
        JudgeDescribes(r, guard, failClosed, allowlist);
        SettleWeighs(c, r, guard, verdict.value, mark);
      }
    } else {
      DenyWeighs(c, r, guard, mark);
    }
  }

  lemma EnrolKeepsCounts(report: Report, r: TraceRecord)
    ensures Enrol(report, r).Ok? ==> Enrol(report, r).value.counts == report.counts
  {
  }

  lemma ScreenedGuard(r: TraceRecord)
    ensures Screen(r).Ok? ==> r.guard == Some(Screen(r).value)
  {
    hide ValidDigest;
  }

  /** Every counter of a successful report is the number of records in scope that have what it counts. */
  lemma {:induction false} CountersExact(
      lines: seq<Line>, failClosed: bool, scope: Scope, allowlist: set<string>, mark: Mark)
    ensures var folded := Fold(lines, failClosed, scope, allowlist);
            folded.Ok? ==> Value(folded.value.counts, mark) == Total(lines, scope, mark)
    decreases |lines|
  {
    hide Screen, Turn, LabelOf, Enrol, Value, Weight, InScope;
    if lines == [] {
      ZeroHasNoValue(mark);
    } else {
      var n := |lines| - 1;
      CountersExact(lines[..n], failClosed, scope, allowlist, mark);
      var before := Fold(lines[..n], failClosed, scope, allowlist);
      if before.Ok? && lines[n].Parsed? && Screen(lines[n].record).Ok? {
        var r := lines[n].record;
        ScreenedGuard(r);
        EnrolKeepsCounts(before.value, r);
        TurnWeighs(before.value.counts, r, Screen(r).value, failClosed, allowlist, mark);
      }
    }
  }

  lemma ZeroHasNoValue(mark: Mark)
    ensures Value(ZERO, mark) == 0
  {
  }

  function ClassCount(r: Report, name: string): nat {
    if name in r.inputClasses then r.inputClasses[name] else 0
  }

  /** The labelled records in scope, in order. */
  function LabelledRecords(lines: seq<Line>, scope: Scope): seq<TraceRecord> {
    if lines == [] then []
    else
      LabelledRecords(lines[..|lines| - 1], scope)
      + match lines[|lines| - 1]
        case Parsed(r) => if InScope(r, scope) && Labelled(r) then [r] else []
        case _ => []
  }

  function OfClass(records: seq<TraceRecord>, name: string): nat {
    if records == [] then 0
    else OfClass(records[..|records| - 1], name) + One(records[|records| - 1].inputClass == Some(name))
  }

  function CasesOf(records: seq<TraceRecord>): set<string> {
    set k | 0 <= k < |records| && records[k].caseId.Some? :: records[k].caseId.value
  }

  /** The report's cases are those of these records, no two of which share one, and its classes are
      tallied over the same records. */
  ghost predicate Enrolled(report: Report, records: seq<TraceRecord>) {
    && report.caseIds == CasesOf(records) && |report.caseIds| == |records|
    && forall name :: ClassCount(report, name) == OfClass(records, name)
  }

  lemma CasesOfSnoc(records: seq<TraceRecord>, r: TraceRecord)
    requires r.caseId.Some?
    ensures CasesOf(records + [r]) == CasesOf(records) + {r.caseId.value}
  {
    var more := records + [r];
    assert more[|records|] == r;
    forall id | id in CasesOf(records) + {r.caseId.value} ensures id in CasesOf(more) {
      if id in CasesOf(records) {
        var k :| 0 <= k < |records| && records[k].caseId == Some(id);
        assert more[k] == records[k];
      }
    }
  }

  lemma EnrolEnrols(report: Report, r: TraceRecord, records: seq<TraceRecord>)
    requires Enrolled(report, records) && Labelled(r) && Enrol(report, r).Ok?
    ensures Enrolled(Enrol(report, r).value, records + [r])
  {
    hide CasesOf;
    CasesOfSnoc(records, r);
    var after, more := Enrol(report, r).value, records + [r];
    assert more[..|records|] == records && more[|records|] == r;
    assert |after.caseIds| == |report.caseIds| + 1;
    forall name ensures ClassCount(after, name) == OfClass(more, name) {
      assert OfClass(more, name) == OfClass(records, name) + One(r.inputClass == Some(name));
    }
  }

  lemma EnrolledIgnoresCounts(report: Report, counts: Counters, records: seq<TraceRecord>)
    requires Enrolled(report, records)
    ensures Enrolled(report.(counts := counts), records)
  {
    assert forall name :: ClassCount(report.(counts := counts), name) == ClassCount(report, name);
  }

  lemma CountEnrols(
      report: Report, r: TraceRecord, guard: string, failClosed: bool, allowlist: set<string>,
      records: seq<TraceRecord>)
    requires Enrolled(report, records) && Count(report, r, guard, failClosed, allowlist).Ok?
    ensures Enrolled(Count(report, r, guard, failClosed, allowlist).value,
                     if Labelled(r) then records + [r] else records)
  {
    hide Turn, LabelOf, Enrolled;
    if Labelled(r) {
      EnrolEnrols(report, r, records);
    }
    EnrolledIgnoresCounts(
      Enrol(report, r).value, Count(report, r, guard, failClosed, allowlist).value.counts,
      if Labelled(r) then records + [r] else records);
  }

  /** Every labelled record in scope has a case of its own in the report, and nothing else has. */
  lemma {:induction false} CasesExact(lines: seq<Line>, failClosed: bool, scope: Scope, allowlist: set<string>)
    ensures var folded := Fold(lines, failClosed, scope, allowlist);
            folded.Ok? ==> Enrolled(folded.value, LabelledRecords(lines, scope))
    decreases |lines|
  {
    hide Count, Screen, Enrolled, Labelled;
    if lines == [] {
      NothingEnrolled();
    } else {
      var n := |lines| - 1;
      assert LabelledRecords(lines[..n], scope) + [] == LabelledRecords(lines[..n], scope);
      CasesExact(lines[..n], failClosed, scope, allowlist);
      var before := Fold(lines[..n], failClosed, scope, allowlist);
      if before.Ok? && lines[n].Parsed? && Screen(lines[n].record).Ok? && InScope(lines[n].record, scope) {
        var r := lines[n].record;
        var guard := Screen(r).value;
        if Count(before.value, r, guard, failClosed, allowlist).Ok? {
          CountEnrols(before.value, r, guard, failClosed, allowlist, LabelledRecords(lines[..n], scope));
        }
      }
    }
  }

  lemma NothingEnrolled()
    ensures Enrolled(EMPTY, [])
  {
    assert EMPTY.caseIds == {} && EMPTY.inputClasses == map[];
  }

  // ---------- Fail-closed mode ----------

  /** Nothing but clean releases. */
  ghost predicate Released(c: Counters) {
    && c.turns == c.compositional + c.auditedVerbatim
    && c.typedNonDeclarative == 0 && c.realizationDowngrade == 0
    && c.expectedDenials == 0 && c.unexpectedDenials == 0
    && c.rollbackActivations == 0 && c.expectedRollbacks == 0 && c.unexpectedRollbacks == 0
    && c.guardBlocks == 0 && c.replayFailures == 0
  }

  lemma CanaryIsNotDisabled(s: string)
    ensures !(EqIgnoreCase(s, "canary") && EqIgnoreCase(s, "disabled"))
  {
    assert |"canary"| == 6 && |"disabled"| == 8;
  }

  lemma EmittedIsNotBlocked(guard: string)
    requires guard == "v2_successfully_emitted"
    ensures guard != "v2_rendered_guard_blocked" && guard != "authority_denied_before_render"
  {
    assert guard[3] == 's' && "v2_rendered_guard_blocked"[3] == 'r' && "authority_denied_before_render"[3] == 'h';
  }

  ghost predicate Clean(v: Verdict) {
    (v.outcome.Compositional? || v.outcome.AuditedVerbatim?) && v.replayOk && !v.blocked && !v.back
  }

  lemma CleanTurnReleases(c: Counters, v: Verdict, positive: bool, negative: bool, guardMismatch: bool)
    requires Released(c) && Clean(v)
    ensures Released(Settle(Label(c, positive, negative, guardMismatch), v))
  {
  }

  lemma FailClosedIsClean(r: TraceRecord, receipt: Receipt, guard: string, allowlist: set<string>)
    ensures var verdict := Judge(r, receipt, guard, true, allowlist);
            verdict.Ok? ==> Clean(verdict.value)
  {
    hide ReadReceipt, ReplayOk, FirstV2Step, DigestsMatch, OutcomeNamed, IsPositive, EqIgnoreCase;
    if Judge(r, receipt, guard, true, allowlist).Ok? {
      CanaryIsNotDisabled(ReadReceipt(receipt, guard).value.authority);
      EmittedIsNotBlocked(guard);
    }
  }

  lemma TurnReleases(c: Counters, r: TraceRecord, guard: string, allowlist: set<string>)
    requires Released(c)
    ensures var after := Turn(LabelOf(c, r, guard), r, guard, true, allowlist);
            after.Ok? ==> Released(after.value)
  {
    hide Judge, IsPositive, Released, Label, Settle, Deny;
    if r.receipt.Object? {
      var verdict := Judge(r, r.receipt.receipt, guard, true, allowlist);
      if verdict.Ok? {
        FailClosedIsClean(r, r.receipt.receipt, guard, allowlist);
        CleanTurnReleases(
          c, verdict.value, IsPositive(r), IsNegative(r), r.expectedGuard.Some? && r.expectedGuard.value != guard);
      }
    }
  }

  /** A fail-closed success vouches for every turn, in every scope. */
  lemma {:induction false} FailClosedVouches(lines: seq<Line>, scope: Scope, allowlist: set<string>)
    ensures var folded := Fold(lines, true, scope, allowlist);
            folded.Ok? ==> Released(folded.value.counts)
    decreases |lines|
  {
    hide Screen, Turn, LabelOf, Released;
    if lines == [] {
      ZeroIsReleased();
    } else {
      var n := |lines| - 1;
      FailClosedVouches(lines[..n], scope, allowlist);
      var before := Fold(lines[..n], true, scope, allowlist);
      if before.Ok? && lines[n].Parsed? && Screen(lines[n].record).Ok? {
        var r := lines[n].record;
        TurnReleases(before.value.counts, r, Screen(r).value, allowlist);
      }
    }
  }

  lemma ZeroIsReleased()
    ensures Released(ZERO)
  {
  }

  /** What a release demands of a record, read off the record. */
  predicate Clears(r: TraceRecord, allowlist: set<string>) {
    && r.guard.Some? && r.receipt.Object?
    && var facts, step := ReadReceipt(r.receipt.receipt, r.guard.value), FirstV2Step(r.steps);
       && facts.Ok? && step.Some?
       && ReleaseEligible(facts.value, r.receipt.receipt, step.value, r.steps, r.guard.value, allowlist)
  }

  predicate AllClear(lines: seq<Line>, scope: Scope, allowlist: set<string>) {
    forall i :: 0 <= i < |lines| && lines[i].Parsed? && InScope(lines[i].record, scope)
                ==> Clears(lines[i].record, allowlist)
  }

  lemma JudgeFailsClosed(r: TraceRecord, guard: string, allowlist: set<string>)
    requires r.guard == Some(guard) && r.receipt.Object?
    ensures var strict, lax := Judge(r, r.receipt.receipt, guard, true, allowlist),
                               Judge(r, r.receipt.receipt, guard, false, allowlist);
            && (strict.Ok? <==> lax.Ok? && Clears(r, allowlist))
            && (strict.Ok? ==> strict == lax)
  {
    hide ReadReceipt, FirstV2Step, ReleaseEligible, ReplayOk, OutcomeNamed, RolledBack;
  }

  lemma CountFailsClosed(report: Report, r: TraceRecord, guard: string, allowlist: set<string>)
    requires r.guard == Some(guard)
    ensures var strict, lax := Count(report, r, guard, true, allowlist), Count(report, r, guard, false, allowlist);
            && (strict.Ok? <==> lax.Ok? && Clears(r, allowlist))
            && (strict.Ok? ==> strict == lax)
  {
    hide Judge, LabelOf, Enrol, Settle, Deny, Clears;
    if r.receipt.Object? {
      JudgeFailsClosed(r, guard, allowlist);
    } else {
      NoReceiptNeverClears(r, allowlist);
    }
  }

  lemma NoReceiptNeverClears(r: TraceRecord, allowlist: set<string>)
    requires !r.receipt.Object?
    ensures !Clears(r, allowlist)
  {
  }

  /** A fail-closed report succeeds exactly when the open one does and every record in scope clears, and
      then it is the same report. */
  lemma {:induction false} FailClosedExact(lines: seq<Line>, scope: Scope, allowlist: set<string>)
    ensures var strict, lax := Fold(lines, true, scope, allowlist), Fold(lines, false, scope, allowlist);
            && (strict.Ok? <==> lax.Ok? && AllClear(lines, scope, allowlist))
            && (strict.Ok? ==> strict == lax)
    decreases |lines|
  {
    hide Count, Clears, Screen, InScope;
    if lines != [] {
      var n := |lines| - 1;
      var init, line := lines[..n], lines[n];
      FailClosedExact(init, scope, allowlist);
      assert lines == init + [line];
      assert AllClear(lines, scope, allowlist)
        <==> AllClear(init, scope, allowlist)
             && (line.Parsed? && InScope(line.record, scope) ==> Clears(line.record, allowlist));
      var before := Fold(init, false, scope, allowlist);
      if before.Ok? && line.Parsed? && Screen(line.record).Ok? {
        ScreenedGuard(line.record);
        CountFailsClosed(before.value, line.record, Screen(line.record).value, allowlist);
      }
    }
  }

  // ---------- Scopes partition labelled records ----------

  /** Component-wise: `all` counts what `a` and `b` count together. */
  ghost predicate IsSum(all: Counters, a: Counters, b: Counters) {
    && all.turns == a.turns + b.turns
    && all.compositional == a.compositional + b.compositional
    && all.auditedVerbatim == a.auditedVerbatim + b.auditedVerbatim
    && all.typedNonDeclarative == a.typedNonDeclarative + b.typedNonDeclarative
    && all.realizationDowngrade == a.realizationDowngrade + b.realizationDowngrade
    && all.replayFailures == a.replayFailures + b.replayFailures
    && all.guardBlocks == a.guardBlocks + b.guardBlocks
    && all.rollbackActivations == a.rollbackActivations + b.rollbackActivations
    && all.positiveTurns == a.positiveTurns + b.positiveTurns
    && all.negativeTurns == a.negativeTurns + b.negativeTurns
    && all.expectationFailures == a.expectationFailures + b.expectationFailures
    && all.expectedDenials == a.expectedDenials + b.expectedDenials
    && all.unexpectedDenials == a.unexpectedDenials + b.unexpectedDenials
    && all.expectedRollbacks == a.expectedRollbacks + b.expectedRollbacks
    && all.unexpectedRollbacks == a.unexpectedRollbacks + b.unexpectedRollbacks
  }

  /** `all` is the component-wise sum of a positive and a negative report. */
  ghost predicate Adds(all: Report, p: Report, n: Report) {
    && IsSum(all.counts, p.counts, n.counts)
    && p.counts.negativeTurns == 0 && n.counts.positiveTurns == 0
    && all.caseIds == p.caseIds + n.caseIds && p.caseIds !! n.caseIds
    && forall name :: ClassCount(all, name) == ClassCount(p, name) + ClassCount(n, name)
  }

  ghost predicate AllLabelled(lines: seq<Line>) {
    forall i :: 0 <= i < |lines| && lines[i].Parsed? ==> lines[i].record.expectedResult.Some?
  }

  lemma SumCommutes(all: Counters, a: Counters, b: Counters)
    ensures IsSum(all, a, b) <==> IsSum(all, b, a)
  {
  }

  lemma LabelAdds(all: Counters, a: Counters, b: Counters, positive: bool, negative: bool, guardMismatch: bool)
    requires IsSum(all, a, b)
    ensures IsSum(Label(all, positive, negative, guardMismatch), Label(a, positive, negative, guardMismatch), b)
  {
  }

  lemma DenyAdds(all: Counters, a: Counters, b: Counters, expected: bool)
    requires IsSum(all, a, b)
    ensures IsSum(Deny(all, expected), Deny(a, expected), b)
  {
  }

  lemma SettleAdds(all: Counters, a: Counters, b: Counters, v: Verdict)
    requires IsSum(all, a, b)
    ensures IsSum(Settle(all, v), Settle(a, v), b)
  {
  }

  /** Counting a record in one summand moves the sum by the same amount. */
  lemma TurnAdds(
      all: Counters, a: Counters, b: Counters, r: TraceRecord, guard: string, failClosed: bool, allowlist: set<string>)
    requires IsSum(all, a, b)
    requires Turn(LabelOf(all, r, guard), r, guard, failClosed, allowlist).Ok?
    ensures var a' := Turn(LabelOf(a, r, guard), r, guard, failClosed, allowlist);
            a'.Ok? && IsSum(Turn(LabelOf(all, r, guard), r, guard, failClosed, allowlist).value, a'.value, b)
  {
    hide Judge, IsPositive, IsSum, Label, Settle, Deny;
    LabelAdds(all, a, b, IsPositive(r), IsNegative(r), r.expectedGuard.Some? && r.expectedGuard.value != guard);
    DenyAdds(LabelOf(all, r, guard), LabelOf(a, r, guard), b, DenialExpected(r));
    if r.receipt.Object? {
      SettleAdds(
        LabelOf(all, r, guard), LabelOf(a, r, guard), b,
        Judge(r, r.receipt.receipt, guard, failClosed, allowlist).value);
    }
  }

  /** A turn leaves the label counts of the other sign alone. */
  lemma TurnKeepsSign(c: Counters, r: TraceRecord, guard: string, failClosed: bool, allowlist: set<string>)
    requires Turn(LabelOf(c, r, guard), r, guard, failClosed, allowlist).Ok?
    ensures var after := Turn(LabelOf(c, r, guard), r, guard, failClosed, allowlist).value;
            && (IsPositive(r) ==> after.negativeTurns == c.negativeTurns)
            && (!IsPositive(r) ==> after.positiveTurns == c.positiveTurns)
  {
    hide Judge;
  }

  lemma EnrolAdds(all: Report, p: Report, n: Report, r: TraceRecord)
    requires all.caseIds == p.caseIds + n.caseIds && p.caseIds !! n.caseIds
    requires forall name :: ClassCount(all, name) == ClassCount(p, name) + ClassCount(n, name)
    requires r.expectedResult.Some? && Enrol(all, r).Ok?
    ensures Enrol(p, r).Ok?
    ensures var all', p' := Enrol(all, r).value, Enrol(p, r).value;
            && all'.caseIds == p'.caseIds + n.caseIds && p'.caseIds !! n.caseIds
            && forall name :: ClassCount(all', name) == ClassCount(p', name) + ClassCount(n, name)
  {
  }

  /** Counting a record in one partial report moves the sum exactly as counting it in the whole. */
  lemma CountAdds(
      all: Report, p: Report, n: Report, r: TraceRecord, guard: string, failClosed: bool, allowlist: set<string>)
    requires Adds(all, p, n) && r.expectedResult.Some?
    requires Count(all, r, guard, failClosed, allowlist).Ok?
    ensures var all' := Count(all, r, guard, failClosed, allowlist).value;
            if IsPositive(r)
            then var p' := Count(p, r, guard, failClosed, allowlist); p'.Ok? && Adds(all', p'.value, n)
            else var n' := Count(n, r, guard, failClosed, allowlist); n'.Ok? && Adds(all', p, n'.value)
  {
    hide Turn, LabelOf, IsPositive, IsSum;
    assert Enrol(all, r).value.counts == all.counts;
    if IsPositive(r) {
      EnrolAdds(all, p, n, r);
      TurnAdds(all.counts, p.counts, n.counts, r, guard, failClosed, allowlist);
      TurnKeepsSign(p.counts, r, guard, failClosed, allowlist);
    } else {
      SumCommutes(all.counts, p.counts, n.counts);
      EnrolAdds(all, n, p, r);
      TurnAdds(all.counts, n.counts, p.counts, r, guard, failClosed, allowlist);
      TurnKeepsSign(n.counts, r, guard, failClosed, allowlist);
      SumCommutes(Turn(LabelOf(all.counts, r, guard), r, guard, failClosed, allowlist).value,
                  Turn(LabelOf(n.counts, r, guard), r, guard, failClosed, allowlist).value, p.counts);
    }
  }

  /** For labelled records, whenever the whole report succeeds so do both partial folds, and they sum to
      it component by component. */
  lemma {:induction false} ScopesAdd(lines: seq<Line>, failClosed: bool, allowlist: set<string>)
    requires AllLabelled(lines) && Fold(lines, failClosed, All, allowlist).Ok?
    ensures Fold(lines, failClosed, Positive, allowlist).Ok? && Fold(lines, failClosed, Negative, allowlist).Ok?
    ensures Adds(
              Fold(lines, failClosed, All, allowlist).value,
              Fold(lines, failClosed, Positive, allowlist).value,
              Fold(lines, failClosed, Negative, allowlist).value)
    decreases |lines|
  {
    hide Count, Screen, Adds;
    if lines == [] {
      EmptyAdds();
    } else {
      var n := |lines| - 1;
      ScopesAdd(lines[..n], failClosed, allowlist);
      if lines[n].Parsed? {
        var r := lines[n].record;
        CountAdds(
          Fold(lines[..n], failClosed, All, allowlist).value,
          Fold(lines[..n], failClosed, Positive, allowlist).value,
          Fold(lines[..n], failClosed, Negative, allowlist).value,
          r, Screen(r).value, failClosed, allowlist);
      }
    }
  }

  lemma ZeroAddsNothing(c: Counters)
    ensures IsSum(c, c, ZERO)
  {
  }

  lemma EmptyAdds()
    ensures Adds(EMPTY, EMPTY, EMPTY)
  {
    hide IsSum;
    ZeroAddsNothing(ZERO);
    assert EMPTY.caseIds == {} && EMPTY.inputClasses == map[];
  }
}
