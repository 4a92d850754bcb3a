/** A dialogue turn as a transaction: session check, snapshot, stages, roll-back, guard, bookkeeping.
    A stage is any function of the state and the context; it may rewrite the semantic state, the conversation
    state and the last decision, also when it fails. `G` is the part of the semantic state not modelled. */
module Turns {
  import opened Options
  import Text

  const WINDOW: nat := 10_000
  const MAX_ID: nat := 128
  const MAX_INPUT: nat := 8_192
  const REFUSAL: string := "QxFx0: ответ отклонён системой безопасности."
  const RECOVERED: string := "QxFx0: внутренняя ошибка обработки, состояние восстановлено."
  const ID_REJECTED: string := "QxFx0: идентификатор сессии отклонён; состояние не изменено."

  // ---------- State ----------

  datatype Family = CMGround | CMRepair | OtherFamily(name: string)

  datatype GuardStatus =
    | InvariantOk | InvariantWarn(reason: string) | InvariantBlock(reason: string)
    | Blocked(reason: string) | Allowed | Unavailable(reason: string)
  {
    predicate Blocks() {
      InvariantBlock? || Blocked?
    }
  }

  datatype Decision = Decision(family: Family, status: GuardStatus, legitimacy: real)

  datatype EventKind =
    | TurnCompleted | GuardBlocked | GuardWarning | CommitmentRevised | CommitmentContradicted
    | GraphEnriched(relations: nat)

  datatype Event = Event(turn: nat, kind: EventKind, family: Family, status: GuardStatus)

  datatype Field = Field(
    resonance: real, confidence: real, consolidation: real, counterfactual: real, arousal: real, valence: real)
  {
    predicate InBounds() {
      && 0.0 <= resonance <= 1.0 && 0.0 <= confidence <= 1.0 && 0.0 <= consolidation <= 1.0
      && 0.0 <= counterfactual <= 1.0 && 0.0 <= arousal <= 1.0 && -1.0 <= valence <= 1.0
    }
  }

  datatype Semantic<G> = Semantic(field: Field, rest: G)

  datatype Dialogue = Dialogue(
    turnCount: nat, history: seq<string>, lastFamily: Family, lastTopic: Option<string>, conversationState: Option<nat>)

  datatype State<G> = State(
    sessionId: string, dialogue: Dialogue, semantic: Semantic<G>, decision: Option<Decision>, governance: seq<Event>)

  /** A new session: no id, no turn, no history. */
  predicate Fresh<G>(s: State<G>) {
    && s.sessionId == "" && s.dialogue == Dialogue(0, [], CMGround, None, None)
    && s.decision == None && s.governance == []
  }

  // ---------- Validation ----------

  predicate IsControl(c: char) {
    c < ' ' || '\U{007F}' <= c <= '\U{009F}'
  }

  predicate AcceptableId(id: string) {
    Text.Trim(id) != "" && |id| <= MAX_ID && forall i :: 0 <= i < |id| ==> !IsControl(id[i])
  }

  /** `replay_check`: turns do not go back, and a blocking event has a blocking status. */
  predicate Replays(log: seq<Event>) {
    && (forall i :: 0 < i < |log| ==> log[i - 1].turn <= log[i].turn)
    && forall i :: 0 <= i < |log| && log[i].kind == GuardBlocked ==> log[i].status.Blocks()
  }

  predicate LegitimateDecision(d: Option<Decision>) {
    d.Some? ==> 0.0 <= d.value.legitimacy <= 1.0
  }

  predicate KnownPhase(phase: Option<nat>) {
    phase.Some? ==> phase.value <= 7
  }

  predicate Valid<G>(w: World<G>, s: State<G>) {
    && AcceptableId(s.sessionId)
    && |s.dialogue.history| <= s.dialogue.turnCount && |s.dialogue.history| <= WINDOW
    && |s.governance| <= WINDOW && Replays(s.governance)
    && KnownPhase(s.dialogue.conversationState) && LegitimateDecision(s.decision)
    && s.semantic.field.InBounds() && w.intact(s.semantic.rest)
  }

  // ---------- Stages ----------

  datatype Input = Input(sessionId: string, rawText: string)

  /** What the stages hand to each other. */
  datatype Context = Context(
    rawText: string, subject: string, conatusEnergy: real, family: Family, phase: string, pathDepth: nat,
    response: string)

  /** What a stage may rewrite. */
  datatype Effect<G> = Effect(semantic: Semantic<G>, conversationState: Option<nat>, decision: Option<Decision>)

  datatype StageResult<G> = Done(effect: Effect<G>, context: Context) | Failed(effect: Effect<G>)

  type Stage<!G> = (State<G>, Context) -> StageResult<G>

  /** Everything the turn driver calls and the model does not look into. */
  datatype World<!G> = World(
    intact: G -> bool,
    normalize: (State<G>, Input) -> (G, Context),
    prepare: Stage<G>,
    route: Stage<G>,
    planShadow: Stage<G>,
    render: Stage<G>,
    admits: (State<G>, Context) -> bool,
    finalize: Stage<G>,
    safety: (Context, seq<string>) -> GuardStatus,
    quality: Context -> Option<string>,
    ground: Stage<G>,
    topicKnown: (G, string) -> bool)

  function Apply<G>(s: State<G>, e: Effect<G>): State<G> {
    s.(
      semantic := e.semantic,
      dialogue := s.dialogue.(conversationState := e.conversationState),
      decision := e.decision)
  }

  /** What the driver has learnt for a recovery output. */
  datatype Recovery = Recovery(
    family: Option<Family>, phase: Option<string>, conatusEnergy: Option<real>, pathDepth: Option<nat>)

  const NOTHING_LEARNT := Recovery(None, None, None, None)

  function LearnEnergy(l: Recovery, c: Context): Recovery {
    l.(conatusEnergy := Some(c.conatusEnergy))
  }

  function LearnRoute(l: Recovery, c: Context): Recovery {
    l.(family := Some(c.family), phase := Some(c.phase))
  }

  function LearnDepth(l: Recovery, c: Context): Recovery {
    l.(pathDepth := Some(c.pathDepth))
  }

  datatype Guarded = Guarded(family: Family, status: GuardStatus, blocked: bool)

  /** `guard_stage`. */
  function Guard<G>(w: World<G>, context: Context, history: seq<string>): Guarded {
    if Text.Trim(context.rawText) == "" then Guarded(CMRepair, InvariantBlock("пустой ввод"), true)
    else if |context.rawText| > MAX_INPUT then Guarded(CMRepair, InvariantBlock("слишком длинный ввод"), true)
    else
      var safety := w.safety(context, history);
      if safety.InvariantBlock? then Guarded(CMRepair, safety, true)
      else
        match w.quality(context)
        case Some(reason) => Guarded(CMRepair, Blocked(reason), true)
        case None => Guarded(context.family, if safety.InvariantWarn? then safety else Allowed, false)
  }

  function DecisionOf(g: Guarded): Decision {
    Decision(g.family, g.status, if g.blocked then 0.0 else 1.0)
  }

  /** The last `WINDOW` elements: push, then drain the excess. */
  function Window<T>(s: seq<T>): (r: seq<T>)
    ensures |r| <= WINDOW
  {
    if |s| > WINDOW then s[|s| - WINDOW..] else s
  }

  /** Append, then drain from the front what exceeds the window. */
  function Push<T>(s: seq<T>, x: T): (r: seq<T>)
    ensures r == Window(s + [x])
  {
    var longer := s + [x];
    if |longer| > WINDOW then longer[|longer| - WINDOW..] else longer
  }

  /** `persist_stage`'s event. */
  function EventOf<G>(s: State<G>, g: Guarded): Event {
    var warned := s.decision.Some? && s.decision.value.status.InvariantWarn?;
    Event(
      s.dialogue.turnCount + 1,
      if g.blocked then GuardBlocked else if warned then GuardWarning else TurnCompleted,
      g.family,
      if s.decision.Some? then s.decision.value.status else InvariantOk)
  }

  function Min(a: real, b: real): real {
    if a <= b then a else b
  }

  function Max(a: real, b: real): real {
    if a <= b then b else a
  }

  /** Field adjustments of an accepted turn. */
  function Adjust(f: Field, known: bool): Field {
    var g :=
      if known
      then f.(confidence := Min(f.confidence + 0.1, 1.0), resonance := Min(f.resonance + 0.05, 1.0),
              valence := Min(f.valence + 0.05, 1.0), arousal := Min(f.arousal + 0.03, 1.0))
      else f.(counterfactual := Min(f.counterfactual + 0.1, 1.0),
              valence := Max(f.valence - 0.05, -1.0), arousal := Min(f.arousal + 0.05, 1.0));
    g.(arousal := Max(g.arousal - 0.02, 0.0))
  }

  // ---------- Outputs ----------

  datatype Shown = Named(name: string) | OfFamily(family: Family) | OfDiscriminant(discriminant: nat) | Idle

  datatype Output = Output(
    response: string, family: Family, status: GuardStatus, blocked: bool, events: nat, conatusEnergy: real,
    pathDepth: nat, conversationState: Shown)

  function SessionOutput<G>(s: State<G>, reason: string): Output {
    var phase := s.dialogue.conversationState;
    Output(ID_REJECTED, CMRepair, InvariantBlock(reason), true, |s.governance|, 0.0, 0,
           if phase.Some? then OfDiscriminant(phase.value) else Idle)
  }

  function Or<T>(o: Option<T>, default: T): T {
    if o.Some? then o.value else default
  }

  function RecoveryOutput<G>(s: State<G>, learnt: Recovery): Output {
    var family := Or(learnt.family, CMGround);
    Output(RECOVERED, family, Blocked("stage error"), true, |s.governance|,
           Or(learnt.conatusEnergy, 0.0), Or(learnt.pathDepth, 0),
           if learnt.phase.Some? then Named(learnt.phase.value) else OfFamily(family))
  }

  function TurnOutput<G>(s: State<G>, context: Context, g: Guarded): Output {
    Output(if g.blocked then REFUSAL else context.response, g.family, g.status, g.blocked, |s.governance|,
           context.conatusEnergy, context.pathDepth, Named(context.phase))
  }

  // ---------- A turn, as a function ----------

  datatype Attempt<G> = Reached(state: State<G>, context: Context, learnt: Recovery) | Aborted(learnt: Recovery)

  function Then<G>(a: Attempt<G>, stage: Stage<G>): Attempt<G> {
    if a.Aborted? then a
    else
      match stage(a.state, a.context)
      case Failed(_) => Aborted(a.learnt)
      case Done(effect, context) => Reached(Apply(a.state, effect), context, a.learnt)
  }

  function Learn<G>(a: Attempt<G>, learn: (Recovery, Context) -> Recovery): Attempt<G> {
    if a.Aborted? then a else a.(learnt := learn(a.learnt, a.context))
  }

  /** Everything before the guard, on a copy of the state. */
  function BeforeGuard<G>(w: World<G>, s: State<G>, input: Input): Attempt<G> {
    var (rest, context) := w.normalize(s, input);
    var prepared := Then(Reached(s.(semantic := s.semantic.(rest := rest)), context, NOTHING_LEARNT), w.prepare);
    var routed := Then(Learn(prepared, LearnEnergy), w.route);
    var planned := Then(Learn(routed, LearnRoute), w.planShadow);
    var rendered := Learn(Then(planned, w.render), LearnDepth);
    if rendered.Reached? && !w.admits(rendered.state, rendered.context) then Aborted(rendered.learnt)
    else Then(rendered, w.finalize)
  }

  /** The guard, then grounding of an accepted turn; yields the state to persist. */
  function Settle<G>(w: World<G>, a: Attempt<G>): Attempt<G> {
    if a.Aborted? then a
    else
      var g := Guard(w, a.context, a.state.dialogue.history);
      var guarded := a.(state := a.state.(decision := Some(DecisionOf(g))));
      if g.blocked then guarded else Then(guarded, (t: State<G>, c: Context) => Grounded(w, t, c))
  }

  /** Grounding hands no context on. */
  function Grounded<G>(w: World<G>, s: State<G>, c: Context): StageResult<G> {
    match w.ground(s, c)
    case Done(effect, _) => Done(effect, c)
    case Failed(effect) => Failed(effect)
  }

  /** Persisting and bookkeeping; `s` is the state at the start of the turn, `t` the state the stages left. */
  function Record<G>(w: World<G>, s: State<G>, t: State<G>, context: Context, g: Guarded): State<G> {
    var dialogue := Dialogue(
      t.dialogue.turnCount + 1,
      Window(t.dialogue.history + [if g.blocked then REFUSAL else context.response]),
      g.family,
      Some(context.subject),
      if g.blocked then s.dialogue.conversationState else t.dialogue.conversationState);
    var semantic :=
      if g.blocked then s.semantic
      else t.semantic.(field := Adjust(t.semantic.field, w.topicKnown(t.semantic.rest, context.subject)));
    State(t.sessionId, dialogue, semantic, t.decision, Window(t.governance + [EventOf(t, g)]))
  }

  /** Take the input's id if there is none yet. */
  function Adopt<G>(s: State<G>, id: string): State<G> {
    if s.sessionId == "" then s.(sessionId := id) else s
  }

  datatype Turned<G> = Turned(state: State<G>, output: Output)

  function Turn<G>(w: World<G>, s: State<G>, input: Input): Turned<G> {
    if !AcceptableId(input.sessionId) then Turned(s, SessionOutput(s, "invalid session_id"))
    else if s.sessionId != "" && s.sessionId != input.sessionId
    then Turned(s, SessionOutput(s, "session_id does not match loaded state"))
    else
      var begun := Adopt(s, input.sessionId);
      if !Valid(w, begun) then Turned(begun, SessionOutput(begun, "loaded state violates invariants"))
      else
        var before := BeforeGuard(w, begun, input);
        match Settle(w, before)
        case Aborted(learnt) => Turned(begun, RecoveryOutput(begun, learnt))
        case Reached(t, context, _) =>
          var g := Guard(w, context, t.dialogue.history);
          var after := Record(w, begun, t, context, g);
          Turned(after, TurnOutput(after, context, g))
  }

  // ---------- The turn driver ----------

  class Session<G> {
    var sessionId: string
    var dialogue: Dialogue
    var semantic: Semantic<G>
    var decision: Option<Decision>
    var governance: seq<Event>

    /** A new session around a semantic state. */
    constructor (semantic: Semantic<G>)
      ensures Fresh(Snapshot()) && Snapshot().semantic == semantic
    {
      sessionId := "";
      dialogue := Dialogue(0, [], CMGround, None, None);
      this.semantic := semantic;
      decision := None;
      governance := [];
    }

    function Snapshot(): State<G>
      reads this
    {
      State(sessionId, dialogue, semantic, decision, governance)
    }

    method Restore(snapshot: State<G>)
      modifies this
      ensures Snapshot() == snapshot
    {
      sessionId := snapshot.sessionId;
      dialogue := snapshot.dialogue;
      semantic := snapshot.semantic;
      decision := snapshot.decision;
      governance := snapshot.governance;
    }

    /** Run a stage in place: what it rewrote stays rewritten, also when it fails. */
    method Execute(stage: Stage<G>, context: Context) returns (result: StageResult<G>)
      modifies this
      ensures result == stage(old(Snapshot()), context)
      ensures Snapshot() == Apply(old(Snapshot()), result.effect)
    {
      result := stage(Snapshot(), context);
      semantic := result.effect.semantic;
      dialogue := dialogue.(conversationState := result.effect.conversationState);
      decision := result.effect.decision;
    }

    /** The stages before the guard, in place. */
    method RunStages(w: World<G>, input: Input) returns (failed: bool, context: Context, learnt: Recovery)
      modifies this
      ensures var attempt := BeforeGuard(w, old(Snapshot()), input);
              if failed then attempt == Aborted(learnt) else attempt == Reached(Snapshot(), context, learnt)
    {
      learnt := NOTHING_LEARNT;
      var (rest, opening) := w.normalize(Snapshot(), input);
      semantic := semantic.(rest := rest);
      context := opening;

      var prepared := Execute(w.prepare, context);
      if prepared.Failed? {
        return true, context, learnt;
      }
      learnt := LearnEnergy(learnt, prepared.context);
      var routed := Execute(w.route, prepared.context);
      if routed.Failed? {
        return true, context, learnt;
      }
      learnt := LearnRoute(learnt, routed.context);
      var planned := Execute(w.planShadow, routed.context);
      if planned.Failed? {
        return true, context, learnt;
      }
      var rendered := Execute(w.render, planned.context);
      if rendered.Failed? {
        return true, context, learnt;
      }
      learnt := LearnDepth(learnt, rendered.context);
      if !w.admits(Snapshot(), rendered.context) {
        return true, context, learnt;
      }
      var finalized := Execute(w.finalize, rendered.context);
      if finalized.Failed? {
        return true, context, learnt;
      }
      return false, finalized.context, learnt;
    }

    /** The guard, and grounding of an accepted turn, in place. */
    method RunGuard(w: World<G>, context: Context, ghost learnt: Recovery) returns (failed: bool, g: Guarded)
      modifies this
      ensures g == Guard(w, context, old(Snapshot()).dialogue.history)
      ensures var settled := Settle(w, Reached(old(Snapshot()), context, learnt));
              if failed then settled == Aborted(learnt) else settled == Reached(Snapshot(), context, learnt)
    {
      hide Guard;
      g := Guard(w, context, dialogue.history);
      decision := Some(DecisionOf(g));
      failed := false;
      if !g.blocked {
        var grounded := Execute((t: State<G>, c: Context) => Grounded(w, t, c), context);
        failed := grounded.Failed?;
      }
    }

    /** Persist the turn, then the bookkeeping of a turn that reached the guard. */
    method Conclude(w: World<G>, snapshot: State<G>, context: Context, g: Guarded) returns (output: Output)
      modifies this
      ensures Snapshot() == Record(w, snapshot, old(Snapshot()), context, g)
      ensures output == TurnOutput(Snapshot(), context, g)
    {
      governance := Push(governance, EventOf(Snapshot(), g));
      var response := context.response;
      if g.blocked {
        semantic := snapshot.semantic;
        dialogue := dialogue.(conversationState := snapshot.dialogue.conversationState);
        response := REFUSAL;
      }
      dialogue := dialogue.(
        turnCount := dialogue.turnCount + 1,
        lastFamily := g.family,
        lastTopic := Some(context.subject),
        history := Push(dialogue.history, response));
      if !g.blocked {
        semantic := semantic.(field := Adjust(semantic.field, w.topicKnown(semantic.rest, context.subject)));
      }
      output := TurnOutput(Snapshot(), context, g);
    }

    /** One turn. */
    method ProcessTurn(w: World<G>, input: Input) returns (output: Output)
      modifies this
      ensures Turned(Snapshot(), output) == Turn(w, old(Snapshot()), input)
    {
      hide Record, Guard, AcceptableId, Valid, BeforeGuard, Settle;
      if !AcceptableId(input.sessionId) {
        return SessionOutput(Snapshot(), "invalid session_id");
      }
      if sessionId == "" {
        sessionId := input.sessionId;
      } else if sessionId != input.sessionId {
        return SessionOutput(Snapshot(), "session_id does not match loaded state");
      }
      if !Valid(w, Snapshot()) {
        return SessionOutput(Snapshot(), "loaded state violates invariants");
      }
      var snapshot := Snapshot();
      var failed, context, learnt := RunStages(w, input);
      var g := Guarded(CMGround, InvariantOk, false);
      if failed {
        SettleAborted(w, learnt);
      } else {
        ghost var reached := Snapshot();
        failed, g := RunGuard(w, context, learnt);
        SettleKeepsHistory(w, reached, context, learnt);
      }
      if failed {
        Restore(snapshot);
        return RecoveryOutput(snapshot, learnt);
      }
      output := Conclude(w, snapshot, context, g);
    }
  }

  lemma SettleAborted<G>(w: World<G>, learnt: Recovery)
    ensures Settle(w, Aborted(learnt)) == Aborted(learnt)
  {
  }

  lemma SettleKeepsHistory<G>(w: World<G>, s: State<G>, context: Context, learnt: Recovery)
    ensures var settled := Settle(w, Reached(s, context, learnt));
            settled.Reached? ==> settled.state.dialogue.history == s.dialogue.history
  {
    hide Guard;
  }

  // ---------- What one turn does ----------

  /** Stages leave the session id, the count, the history, the last move and the log alone. */
  ghost predicate SameBooks<G>(s: State<G>, t: State<G>) {
    && t.sessionId == s.sessionId && t.governance == s.governance
    && t.dialogue == s.dialogue.(conversationState := t.dialogue.conversationState)
  }

  ghost predicate KeepsBooks<G>(s: State<G>, a: Attempt<G>) {
    a.Reached? ==> SameBooks(s, a.state)
  }

  lemma ThenKeepsBooks<G>(s: State<G>, a: Attempt<G>, stage: Stage<G>)
    requires KeepsBooks(s, a)
    ensures KeepsBooks(s, Then(a, stage))
  {
  }

  lemma LearnKeepsBooks<G>(s: State<G>, a: Attempt<G>, learn: (Recovery, Context) -> Recovery)
    requires KeepsBooks(s, a)
    ensures KeepsBooks(s, Learn(a, learn))
  {
  }

  lemma StagesKeepBooks<G>(w: World<G>, s: State<G>, input: Input)
    ensures KeepsBooks(s, BeforeGuard(w, s, input))
    ensures KeepsBooks(s, Settle(w, BeforeGuard(w, s, input)))
  {
    hide Then, Learn, Guard;
    var (rest, context) := w.normalize(s, input);
    var opening := Reached(s.(semantic := s.semantic.(rest := rest)), context, NOTHING_LEARNT);
    var prepared := Then(opening, w.prepare);
    ThenKeepsBooks(s, opening, w.prepare);
    LearnKeepsBooks(s, prepared, LearnEnergy);
    var routed := Then(Learn(prepared, LearnEnergy), w.route);
    ThenKeepsBooks(s, Learn(prepared, LearnEnergy), w.route);
    LearnKeepsBooks(s, routed, LearnRoute);
    var planned := Then(Learn(routed, LearnRoute), w.planShadow);
    ThenKeepsBooks(s, Learn(routed, LearnRoute), w.planShadow);
    ThenKeepsBooks(s, planned, w.render);
    var rendered := Learn(Then(planned, w.render), LearnDepth);
    LearnKeepsBooks(s, Then(planned, w.render), LearnDepth);
    ThenKeepsBooks(s, rendered, w.finalize);
    SettleKeepsBooks(w, s, BeforeGuard(w, s, input));
  }

  lemma SettleKeepsBooks<G>(w: World<G>, s: State<G>, a: Attempt<G>)
    requires KeepsBooks(s, a)
    ensures KeepsBooks(s, Settle(w, a))
  {
    hide Guard;
  }

  /** The session check fails. */
  predicate Refused<G>(w: World<G>, s: State<G>, input: Input) {
    || !AcceptableId(input.sessionId)
    || (s.sessionId != "" && s.sessionId != input.sessionId)
    || !Valid(w, Adopt(s, input.sessionId))
  }

  function Latest(log: seq<Event>): Event
    requires |log| > 0
  {
    log[|log| - 1]
  }

  /** What a turn that reached the end did to the state `s` it began with. */
  ghost predicate Advances<G>(s: State<G>, after: State<G>, out: Output) {
    && after.sessionId == s.sessionId
    && after.dialogue.turnCount == s.dialogue.turnCount + 1
    && after.dialogue.history == Window(s.dialogue.history + [out.response])
    && after.dialogue.lastFamily == out.family
    && |after.governance| > 0
    && after.governance == Window(s.governance + [Latest(after.governance)])
    && Latest(after.governance).turn == after.dialogue.turnCount && Latest(after.governance).family == out.family
    && (Latest(after.governance).kind == GuardBlocked <==> out.blocked)
    && (out.blocked ==> Latest(after.governance).status.Blocks())
    && (out.blocked ==> out.response == REFUSAL && after.semantic == s.semantic
                        && after.dialogue.conversationState == s.dialogue.conversationState)
  }

  lemma WindowKeepsLast<T>(s: seq<T>, x: T)
    ensures var r := Window(s + [x]); |r| > 0 && r[|r| - 1] == x
  {
  }

  lemma RecordAdvances<G>(w: World<G>, s: State<G>, t: State<G>, context: Context, g: Guarded)
    requires SameBooks(s, t) && (g.blocked ==> t.decision == Some(DecisionOf(g)) && g.status.Blocks())
    ensures var after := Record(w, s, t, context, g); Advances(s, after, TurnOutput(after, context, g))
  {
    hide Adjust, Window;
    WindowKeepsLast(t.governance, EventOf(t, g));
  }

  lemma GuardBlocksWithReason<G>(w: World<G>, context: Context, history: seq<string>)
    ensures var g := Guard(w, context, history); g.blocked <==> g.status.Blocks()
  {
  }

  /** A refused turn, or one whose stages fail, changes nothing but a session id that was missing; any other
      turn advances the books by one entry each, and keeps the semantic state when it is blocked. */
  lemma TurnIsATransaction<G>(w: World<G>, s: State<G>, input: Input)
    ensures var turned := Turn(w, s, input);
            var begun := Adopt(s, input.sessionId);
            if Refused(w, s, input)
            then turned.output.blocked && turned.output.response == ID_REJECTED
                 && turned.state == if AcceptableId(input.sessionId) then begun else s
            else if Settle(w, BeforeGuard(w, begun, input)).Aborted?
            then turned.output.blocked && turned.output.response == RECOVERED && turned.state == begun
            else Advances(begun, turned.state, turned.output)
  {
    hide AcceptableId, Valid, BeforeGuard, Settle, Record, Guard, Advances;
    var begun := Adopt(s, input.sessionId);
    if !Refused(w, s, input) {
      var before := BeforeGuard(w, begun, input);
      StagesKeepBooks(w, begun, input);
      if Settle(w, before).Reached? {
        SettledDecision(w, before);
        var settled := Settle(w, before);
        var g := Guard(w, settled.context, settled.state.dialogue.history);
        RecordAdvances(w, begun, settled.state, settled.context, g);
      }
    }
  }

  lemma SettledDecision<G>(w: World<G>, a: Attempt<G>)
    ensures var settled := Settle(w, a);
            settled.Reached?
            ==> var g := Guard(w, settled.context, settled.state.dialogue.history);
                g.blocked ==> settled.state.decision == Some(DecisionOf(g)) && g.status.Blocks()
  {
    if a.Reached? {
      hide Guard;
      GuardBlocksWithReason(w, a.context, a.state.dialogue.history);
      SettleKeepsHistory(w, a.state, a.context, a.learnt);
    }
  }

  /** The refusal text says that nothing changed. That holds except when an acceptable id was adopted by a
      session that then fails validation. */
  lemma RefusalChangesNothingIff<G>(w: World<G>, s: State<G>, input: Input)
    requires Refused(w, s, input)
    ensures Turn(w, s, input).output.response == ID_REJECTED
    ensures Turn(w, s, input).state == s <==> s.sessionId != "" || !AcceptableId(input.sessionId)
  {
    hide Valid;
    assert Text.Trim("") == "";
  }

  /** A session without an id whose history outruns its count adopts an id from a turn it refuses. */
  lemma RefusedTurnMayAdopt<G>(w: World<G>, semantic: Semantic<G>, text: string)
    ensures var s := State("", Dialogue(0, ["x"], CMGround, None, None), semantic, None, []);
            var turned := Turn(w, s, Input("a", text));
            turned.output.response == ID_REJECTED && turned.state == s.(sessionId := "a") && turned.state != s
  {
    var s := State("", Dialogue(0, ["x"], CMGround, None, None), semantic, None, []);
    assert Text.TrimStart("a") == "a" && Text.TrimEnd("a") == "a";
    assert |s.dialogue.history| == 1;
  }

  // ---------- Runs ----------

  /** A turn of a run: the behaviour of the stages may differ from turn to turn. */
  datatype Step<!G> = Step(world: World<G>, input: Input)

  function Run<G>(s: State<G>, steps: seq<Step<G>>): State<G>
    decreases |steps|
  {
    if steps == [] then s
    else
      var last := steps[|steps| - 1];
      Turn(last.world, Run(s, steps[..|steps| - 1]), last.input).state
  }

  /** The responses of the turns that reached the end, in order. */
  function Responses<G>(s: State<G>, steps: seq<Step<G>>): seq<string>
    decreases |steps|
  {
    if steps == [] then []
    else
      var last := steps[|steps| - 1];
      var before := Run(s, steps[..|steps| - 1]);
      var turned := Turn(last.world, before, last.input);
      Responses(s, steps[..|steps| - 1])
      + if turned.state.dialogue.turnCount != before.dialogue.turnCount then [turned.output.response] else []
  }

  lemma WindowOfWindow<T>(s: seq<T>, x: T)
    ensures Window(Window(s) + [x]) == Window(s + [x])
  {
  }

  /** What a turn does to count and history, whatever happened in it. */
  lemma TurnCounts<G>(w: World<G>, s: State<G>, input: Input)
    ensures var turned := Turn(w, s, input);
            || turned.state.dialogue == s.dialogue
            || (turned.state.dialogue.turnCount == s.dialogue.turnCount + 1
                && turned.state.dialogue.history == Window(s.dialogue.history + [turned.output.response]))
  {
    hide Turn, Refused, BeforeGuard, Settle, AcceptableId, Window;
    TurnIsATransaction(w, s, input);
  }

  /** The history is the window over what was there and every response recorded since; the count is exact. */
  lemma {:induction false} HistoryExact<G>(s: State<G>, steps: seq<Step<G>>)
    requires |s.dialogue.history| <= WINDOW
    ensures var after := Run(s, steps).dialogue;
            && after.turnCount == s.dialogue.turnCount + |Responses(s, steps)|
            && after.history == Window(s.dialogue.history + Responses(s, steps))
    decreases |steps|
  {
    hide Turn, Window;
    if steps == [] {
      WindowOfShort(s.dialogue.history);
      assert s.dialogue.history + [] == s.dialogue.history;
    } else {
      var init, last := steps[..|steps| - 1], steps[|steps| - 1];
      HistoryExact(s, init);
      var before := Run(s, init);
      var turned := Turn(last.world, before, last.input);
      TurnCounts(last.world, before, last.input);
      var sofar := s.dialogue.history + Responses(s, init);
      assert s.dialogue.history + (Responses(s, init) + [turned.output.response]) == sofar + [turned.output.response];
      assert Responses(s, init) + [] == Responses(s, init);
      WindowOfWindow(sofar, turned.output.response);
    }
  }

  lemma WindowOfShort<T>(s: seq<T>)
    requires |s| <= WINDOW
    ensures Window(s) == s
  {
  }

  /** From a new session, the history is exactly the last responses recorded, at most `WINDOW` of them. */
  lemma FreshHistory<G>(s: State<G>, steps: seq<Step<G>>)
    requires Fresh(s)
    ensures var after, said := Run(s, steps).dialogue, Responses(s, steps);
            && after.turnCount == |said|
            && after.history == said[|said| - (if |said| < WINDOW then |said| else WINDOW)..]
  {
    hide Run, Responses, Window;
    HistoryExact(s, steps);
    var said := Responses(s, steps);
    assert [] + said == said;
    WindowExact(said);
  }

  lemma WindowExact<T>(s: seq<T>)
    ensures Window(s) == s[|s| - (if |s| < WINDOW then |s| else WINDOW)..]
  {
    assert s[0..] == s;
  }

  // ---------- Session ids ----------

  /** The id a session has after these turns: its own, or the first acceptable one offered. */
  function IdAfter<G>(id: string, steps: seq<Step<G>>): string
    decreases |steps|
  {
    if id != "" || steps == [] then id
    else IdAfter(if AcceptableId(steps[0].input.sessionId) then steps[0].input.sessionId else "", steps[1..])
  }

  lemma {:induction false} IdAfterSnoc<G>(id: string, steps: seq<Step<G>>, last: Step<G>)
    ensures IdAfter(id, steps + [last])
            == if IdAfter(id, steps) == "" && AcceptableId(last.input.sessionId)
               then last.input.sessionId else IdAfter(id, steps)
    decreases |steps|
  {
    hide AcceptableId;
    if id == "" {
      if steps == [] {
        assert (steps + [last])[1..] == [];
      } else {
        assert (steps + [last])[1..] == steps[1..] + [last];
        IdAfterSnoc(if AcceptableId(steps[0].input.sessionId) then steps[0].input.sessionId else "", steps[1..], last);
      }
    }
  }

  /** Once set, the session id never changes; it is set by the first acceptable id offered. */
  lemma {:induction false} SessionIdExact<G>(s: State<G>, steps: seq<Step<G>>)
    ensures Run(s, steps).sessionId == IdAfter(s.sessionId, steps)
    ensures s.sessionId != "" ==> Run(s, steps).sessionId == s.sessionId
    decreases |steps|
  {
    hide Turn, AcceptableId;
    if steps != [] {
      var init, last := steps[..|steps| - 1], steps[|steps| - 1];
      SessionIdExact(s, init);
      IdAfterSnoc(s.sessionId, init, last);
      assert steps == init + [last];
      TurnAdopts(last.world, Run(s, init), last.input);
    }
  }

  lemma TurnAdopts<G>(w: World<G>, s: State<G>, input: Input)
    ensures Turn(w, s, input).state.sessionId
            == if s.sessionId == "" && AcceptableId(input.sessionId) then input.sessionId else s.sessionId
  {
    hide Turn, BeforeGuard, Settle, AcceptableId, Window, Valid;
    TurnIsATransaction(w, s, input);
  }

  // ---------- History and governance log in step ----------

  /** Entry by entry, the log numbers the turns of the history and marks the refusals. */
  ghost predicate InStep<G>(s: State<G>) {
    var log, history := s.governance, s.dialogue.history;
    && |log| == |history| && |log| <= WINDOW && |log| <= s.dialogue.turnCount
    && (forall i :: 0 <= i < |log| ==> log[i].turn == s.dialogue.turnCount - |log| + 1 + i)
    && (forall i :: 0 <= i < |log| && log[i].kind == GuardBlocked
                    ==> log[i].status.Blocks() && history[i] == REFUSAL)
  }

  lemma InStepReplays<G>(s: State<G>)
    requires InStep(s)
    ensures Replays(s.governance)
  {
  }

  lemma AdvanceKeepsStep<G>(s: State<G>, after: State<G>, out: Output)
    requires InStep(s) && Advances(s, after, out)
    ensures InStep(after)
  {
    var event := Latest(after.governance);
    var log, history := s.governance + [event], s.dialogue.history + [out.response];
    var drop := if |log| > WINDOW then |log| - WINDOW else 0;
    assert after.governance == log[drop..] && after.dialogue.history == history[drop..];
    forall i | 0 <= i < |after.governance|
      ensures after.governance[i].turn == after.dialogue.turnCount - |after.governance| + 1 + i
    {
      assert after.governance[i] == log[drop + i];
    }
  }

  lemma TurnKeepsStep<G>(w: World<G>, s: State<G>, input: Input)
    requires InStep(s)
    ensures InStep(Turn(w, s, input).state)
  {
    hide Turn, Refused, BeforeGuard, Settle, AcceptableId, Advances;
    TurnIsATransaction(w, s, input);
    var begun, turned := Adopt(s, input.sessionId), Turn(w, s, input);
    if Advances(begun, turned.state, turned.output) {
      AdvanceKeepsStep(begun, turned.state, turned.output);
    }
  }

  /** Whatever run starts in step stays in step, and then the log replays. */
  lemma {:induction false} RunStaysInStep<G>(s: State<G>, steps: seq<Step<G>>)
    requires InStep(s)
    ensures InStep(Run(s, steps)) && Replays(Run(s, steps).governance)
    decreases |steps|
  {
    hide Turn, InStep, Replays;
    if steps != [] {
      var init, last := steps[..|steps| - 1], steps[|steps| - 1];
      RunStaysInStep(s, init);
      TurnKeepsStep(last.world, Run(s, init), last.input);
    }
    InStepReplays(Run(s, steps));
  }

  /** In every run of a new session the log and the history stay in step, so the log always replays. */
  lemma FreshRunStaysInStep<G>(s: State<G>, steps: seq<Step<G>>)
    requires Fresh(s)
    ensures InStep(Run(s, steps)) && Replays(Run(s, steps).governance)
  {
    RunStaysInStep(s, steps);
  }

  lemma ReplaysSnoc(log: seq<Event>, e: Event)
    requires Replays(log) && (e.kind == GuardBlocked ==> e.status.Blocks())
    ensures Replays(log + [e]) <==> |log| == 0 || Latest(log).turn <= e.turn
  {
    var more := log + [e];
    if |log| > 0 {
      assert more[|log| - 1] == Latest(log) && more[|log|] == e;
    }
  }

  lemma ReplaysSuffix(log: seq<Event>, k: nat)
    requires Replays(log) && k <= |log|
    ensures Replays(log[k..])
  {
  }

  lemma ReplaysOnceMoreIff(log: seq<Event>, e: Event)
    requires Replays(log) && (e.kind == GuardBlocked ==> e.status.Blocks())
    ensures Replays(Window(log + [e])) <==> |log| == 0 || Latest(log).turn <= e.turn
  {
    hide Replays;
    var drop := |log| + 1 - |Window(log + [e])|;
    assert Window(log + [e]) == log[drop..] + [e];
    ReplaysSuffix(log, drop);
    ReplaysSnoc(log[drop..], e);
  }

  lemma NextTurnReplaysIff<G>(s: State<G>, after: State<G>, out: Output)
    requires Replays(s.governance) && Advances(s, after, out)
    ensures Replays(after.governance)
            <==> |s.governance| == 0 || Latest(s.governance).turn <= s.dialogue.turnCount + 1
  {
    hide Replays, Window;
    ReplaysOnceMoreIff(s.governance, Latest(after.governance));
  }

  // ---------- Orderly stages never lock a session out ----------

  /** The parts of a state a stage may rewrite are as validation wants them. */
  ghost predicate Sound<G>(w: World<G>, s: State<G>) {
    && KnownPhase(s.dialogue.conversationState) && LegitimateDecision(s.decision)
    && s.semantic.field.InBounds() && w.intact(s.semantic.rest)
  }

  ghost predicate OrderlyStage<G(!new)>(w: World<G>, stage: Stage<G>) {
    forall s, c {:trigger stage(s, c)} :: Sound(w, s) && stage(s, c).Done? ==> Sound(w, Apply(s, stage(s, c).effect))
  }

  /** Stages that succeed leave sound parts; those that fail may leave anything. */
  ghost predicate Orderly<G(!new)>(w: World<G>) {
    && OrderlyStage(w, w.prepare) && OrderlyStage(w, w.route) && OrderlyStage(w, w.planShadow)
    && OrderlyStage(w, w.render) && OrderlyStage(w, w.finalize) && OrderlyStage(w, w.ground)
    && forall s, input {:trigger w.normalize(s, input)} :: Sound(w, s) ==> w.intact(w.normalize(s, input).0)
  }

  ghost predicate KeepsSound<G>(w: World<G>, a: Attempt<G>) {
    a.Reached? ==> Sound(w, a.state)
  }

  lemma ThenKeepsSound<G(!new)>(w: World<G>, a: Attempt<G>, stage: Stage<G>)
    requires KeepsSound(w, a) && OrderlyStage(w, stage)
    ensures KeepsSound(w, Then(a, stage))
  {
    hide Sound;
  }

  lemma LearnKeepsSound<G>(w: World<G>, a: Attempt<G>, learn: (Recovery, Context) -> Recovery)
    requires KeepsSound(w, a)
    ensures KeepsSound(w, Learn(a, learn))
  {
  }

  lemma StagesKeepSound<G(!new)>(w: World<G>, s: State<G>, input: Input)
    requires Orderly(w) && Sound(w, s)
    ensures KeepsSound(w, BeforeGuard(w, s, input))
  {
    hide Then, Learn, OrderlyStage;
    var (rest, context) := w.normalize(s, input);
    var opening := Reached(s.(semantic := s.semantic.(rest := rest)), context, NOTHING_LEARNT);
    var prepared := Then(opening, w.prepare);
    ThenKeepsSound(w, opening, w.prepare);
    LearnKeepsSound(w, prepared, LearnEnergy);
    var routed := Then(Learn(prepared, LearnEnergy), w.route);
    ThenKeepsSound(w, Learn(prepared, LearnEnergy), w.route);
    LearnKeepsSound(w, routed, LearnRoute);
    var planned := Then(Learn(routed, LearnRoute), w.planShadow);
    ThenKeepsSound(w, Learn(routed, LearnRoute), w.planShadow);
    ThenKeepsSound(w, planned, w.render);
    var rendered := Learn(Then(planned, w.render), LearnDepth);
    LearnKeepsSound(w, Then(planned, w.render), LearnDepth);
    ThenKeepsSound(w, rendered, w.finalize);
  }

  lemma SettleKeepsSound<G(!new)>(w: World<G>, a: Attempt<G>)
    requires Orderly(w) && KeepsSound(w, a)
    ensures KeepsSound(w, Settle(w, a))
  {
    hide Guard;
    if a.Reached? {
      var guarded := a.state.(decision := Some(DecisionOf(Guard(w, a.context, a.state.dialogue.history))));
      assert Sound(w, guarded);
      var _ := w.ground(guarded, a.context);
    }
  }

  lemma AdjustKeepsBounds(f: Field, known: bool)
    requires f.InBounds()
    ensures Adjust(f, known).InBounds()
  {
  }

  lemma RecordKeepsSound<G>(w: World<G>, s: State<G>, t: State<G>, context: Context, g: Guarded)
    requires Sound(w, s) && Sound(w, t)
    ensures Sound(w, Record(w, s, t, context, g))
  {
    hide Adjust, Window, EventOf;
    AdjustKeepsBounds(t.semantic.field, w.topicKnown(t.semantic.rest, context.subject));
  }

  lemma TurnKeepsSound<G(!new)>(w: World<G>, s: State<G>, input: Input)
    requires Orderly(w) && Sound(w, s)
    ensures Sound(w, Turn(w, s, input).state)
  {
    hide AcceptableId, Valid, BeforeGuard, Settle, Guard, Record, Orderly;
    var begun := Adopt(s, input.sessionId);
    StagesKeepSound(w, begun, input);
    SettleKeepsSound(w, BeforeGuard(w, begun, input));
    var settled := Settle(w, BeforeGuard(w, begun, input));
    if settled.Reached? {
      var g := Guard(w, settled.context, settled.state.dialogue.history);
      RecordKeepsSound(w, begun, settled.state, settled.context, g);
    }
  }

  /** All turns share what counts as intact and have orderly stages. */
  ghost predicate OrderlyRun<G(!new)>(intact: G -> bool, steps: seq<Step<G>>) {
    forall i :: 0 <= i < |steps| ==> Orderly(steps[i].world) && steps[i].world.intact == intact
  }

  lemma {:induction false} RunStaysSound<G(!new)>(w: World<G>, s: State<G>, steps: seq<Step<G>>)
    requires OrderlyRun(w.intact, steps) && Sound(w, s)
    ensures Sound(w, Run(s, steps))
    decreases |steps|
  {
    hide Turn, Orderly;
    if steps != [] {
      var init, last := steps[..|steps| - 1], steps[|steps| - 1];
      RunStaysSound(w, s, init);
      TurnKeepsSound(last.world, Run(s, init), last.input);
    }
  }

  // ---------- Sessions that stay usable ----------

  /** The log is not ahead of the turn count. */
  ghost predicate LogInTime<G>(s: State<G>) {
    |s.governance| == 0 || Latest(s.governance).turn <= s.dialogue.turnCount + 1
  }

  /** The books are as validation wants them and the log is not ahead; there may be no id yet. */
  ghost predicate BooksInOrder<G>(s: State<G>) {
    && (s.sessionId == "" || AcceptableId(s.sessionId))
    && |s.dialogue.history| <= s.dialogue.turnCount && |s.dialogue.history| <= WINDOW
    && |s.governance| <= WINDOW && Replays(s.governance) && LogInTime(s)
  }

  lemma FreshInOrder<G>(s: State<G>)
    requires Fresh(s)
    ensures BooksInOrder(s)
  {
  }

  lemma ValidHasId<G>(w: World<G>, s: State<G>)
    requires Valid(w, s)
    ensures s.sessionId != ""
  {
    assert Text.Trim("") == "";
  }

  lemma ValidParts<G>(w: World<G>, s: State<G>)
    ensures Valid(w, s) && LogInTime(s) <==> s.sessionId != "" && Sound(w, s) && BooksInOrder(s)
  {
    assert Text.Trim("") == "";
    assert !AcceptableId("");
    hide AcceptableId, Replays;
  }

  lemma AdvanceKeepsOrder<G>(s: State<G>, after: State<G>, out: Output)
    requires BooksInOrder(s) && Advances(s, after, out)
    ensures BooksInOrder(after) && after.sessionId == s.sessionId
  {
    hide AcceptableId, Replays;
    NextTurnReplaysIff(s, after, out);
  }

  lemma TurnKeepsOrder<G>(w: World<G>, s: State<G>, input: Input)
    requires BooksInOrder(s)
    ensures BooksInOrder(Turn(w, s, input).state)
  {
    hide Turn, Valid, BeforeGuard, Settle, AcceptableId, Advances, Replays;
    TurnIsATransaction(w, s, input);
    var begun, turned := Adopt(s, input.sessionId), Turn(w, s, input);
    if AcceptableId(input.sessionId) && Advances(begun, turned.state, turned.output) {
      AdvanceKeepsOrder(begun, turned.state, turned.output);
    }
  }

  lemma {:induction false} RunKeepsOrder<G>(s: State<G>, steps: seq<Step<G>>)
    requires BooksInOrder(s)
    ensures BooksInOrder(Run(s, steps))
    decreases |steps|
  {
    hide Turn, BooksInOrder;
    if steps != [] {
      var init, last := steps[..|steps| - 1], steps[|steps| - 1];
      RunKeepsOrder(s, init);
      TurnKeepsOrder(last.world, Run(s, init), last.input);
    }
  }

  /** After any run of orderly turns, from a new session or from a valid one whose log is not ahead, a turn
      is refused exactly when its id is unacceptable or is not the session's own. */
  lemma NeverLockedOut<G(!new)>(w: World<G>, s: State<G>, steps: seq<Step<G>>, input: Input)
    requires (Fresh(s) && Sound(w, s)) || (Valid(w, s) && LogInTime(s))
    requires OrderlyRun(w.intact, steps)
    ensures var now := Run(s, steps);
            Refused(w, now, input)
            <==> !AcceptableId(input.sessionId) || (now.sessionId != "" && now.sessionId != input.sessionId)
  {
    hide AcceptableId, Run, Orderly, Valid, Sound, BooksInOrder, LogInTime;
    if Fresh(s) && Sound(w, s) {
      FreshInOrder(s);
    } else {
      ValidParts(w, s);
    }
    RunKeepsOrder(s, steps);
    RunStaysSound(w, s, steps);
    var now := Run(s, steps);
    if AcceptableId(input.sessionId) && (now.sessionId == "" || now.sessionId == input.sessionId) {
      AdoptedIsValid(w, now, input.sessionId);
    }
  }

  lemma AdoptedIsValid<G>(w: World<G>, s: State<G>, id: string)
    requires Sound(w, s) && BooksInOrder(s) && AcceptableId(id)
    ensures Valid(w, Adopt(s, id))
  {
    hide AcceptableId, Replays;
  }

  /** A recorded turn of a valid session leaves it valid exactly when its log was not ahead. */
  lemma RecordedTurnStaysValidIff<G(!new)>(w: World<G>, s: State<G>, input: Input)
    requires Orderly(w) && Valid(w, s) && !Refused(w, s, input)
    requires Settle(w, BeforeGuard(w, Adopt(s, input.sessionId), input)).Reached?
    ensures Valid(w, Turn(w, s, input).state) <==> LogInTime(s)
  {
    hide Turn, Settle, BeforeGuard, AcceptableId, Advances, Replays, Orderly;
    ValidHasId(w, s);
    TurnIsATransaction(w, s, input);
    var turned := Turn(w, s, input);
    NextTurnReplaysIff(s, turned.state, turned.output);
    if LogInTime(s) {
      ValidParts(w, s);
      TurnKeepsSound(w, s, input);
      AdvanceKeepsOrder(s, turned.state, turned.output);
      ValidParts(w, turned.state);
    }
  }

  /** A valid session whose log is ahead refuses everything once a turn has been recorded. */
  lemma LogAheadLocksOut<G>(w: World<G>, s: State<G>, input: Input, later: World<G>, next: Input)
    requires Valid(w, s) && !LogInTime(s) && !Refused(w, s, input)
    requires Settle(w, BeforeGuard(w, Adopt(s, input.sessionId), input)).Reached?
    ensures Refused(later, Turn(w, s, input).state, next)
  {
    hide Turn, Settle, BeforeGuard, AcceptableId, Advances, Replays;
    ValidHasId(w, s);
    TurnIsATransaction(w, s, input);
    var turned := Turn(w, s, input);
    NextTurnReplaysIff(s, turned.state, turned.output);
  }

  /** Stages that change nothing and answer with the input. */
  function Echo(): World<()> {
    var idle := (s: State<()>, c: Context) =>
      Done(Effect(s.semantic, s.dialogue.conversationState, s.decision), c);
    World(
      (rest: ()) => true,
      (s: State<()>, input: Input) => ((), Context(input.rawText, "", 0.0, CMGround, "", 0, input.rawText)),
      idle, idle, idle, idle,
      (s: State<()>, c: Context) => true,
      idle,
      (c: Context, history: seq<string>) => InvariantOk,
      (c: Context) => None,
      idle,
      (rest: (), topic: string) => false)
  }

  /** No turn yet, but an event of turn five in the log. */
  function Ahead(): State<()> {
    State("a", Dialogue(0, [], CMGround, None, None), Semantic(Field(0.0, 0.0, 0.0, 0.0, 0.0, 0.0), ()), None,
          [Event(5, TurnCompleted, CMGround, Allowed)])
  }

  lemma AIsAcceptable()
    ensures AcceptableId("a") && Text.Trim("a") == "a"
  {
    assert Text.TrimStart("a") == "a" && Text.TrimEnd("a") == "a";
  }

  /** A session that passes validation, records one turn and is refused from then on. */
  lemma ValidSessionLocksItselfOut(later: World<()>, next: Input)
    ensures Valid(Echo(), Ahead()) && !Refused(Echo(), Ahead(), Input("a", "a"))
    ensures var after := Turn(Echo(), Ahead(), Input("a", "a")).state;
            after.dialogue.turnCount == 1 && Refused(later, after, next)
  {
    AIsAcceptable();
    hide AcceptableId, Text.Trim;
    var input := Input("a", "a");
    assert Settle(Echo(), BeforeGuard(Echo(), Ahead(), input)).Reached?;
    LogAheadLocksOut(Echo(), Ahead(), input, later, next);
    TurnIsATransaction(Echo(), Ahead(), input);
  }
}
