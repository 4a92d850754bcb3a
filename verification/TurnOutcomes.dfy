/** What a turn answers and leaves behind, case by case: refusals, stage faults, blocked and accepted turns. */
module TurnOutcomes {
  import opened Options
  import opened Turns
  import Text

  // ---------- Refusals ----------

  /** Something besides whitespace, at most 128 characters, and no control character. */
  ghost predicate FitId(id: string) {
    && (exists c :: c in id && !Text.IsWhitespace(c)) && |id| <= 128
    && forall c :: c in id ==> !(c < '\U{0020}' || '\U{007F}' <= c <= '\U{009F}')
  }

  lemma FitIdMeans(id: string)
    ensures AcceptableId(id) <==> FitId(id)
  {
    Text.TrimsToNothing(id);
    assert forall i :: 0 <= i < |id| ==> id[i] in id;
  }

  /** The bounds that validation demands, in numbers. */
  ghost predicate FitState<G>(w: World<G>, s: State<G>) {
    var log, f := s.governance, s.semantic.field;
    && |s.dialogue.history| <= s.dialogue.turnCount && |s.dialogue.history| <= 10_000 && |log| <= 10_000
    && (forall i :: 0 < i < |log| ==> log[i - 1].turn <= log[i].turn)
    && (forall i :: 0 <= i < |log| && log[i].kind == GuardBlocked
                    ==> log[i].status.InvariantBlock? || log[i].status.Blocked?)
    && (s.dialogue.conversationState.Some? ==> s.dialogue.conversationState.value <= 7)
    && (s.decision.Some? ==> 0.0 <= s.decision.value.legitimacy <= 1.0)
    && 0.0 <= f.resonance <= 1.0 && 0.0 <= f.confidence <= 1.0 && 0.0 <= f.consolidation <= 1.0
    && 0.0 <= f.counterfactual <= 1.0 && 0.0 <= f.arousal <= 1.0 && -1.0 <= f.valence <= 1.0
    && w.intact(s.semantic.rest)
  }

  lemma FitStateMeans<G>(w: World<G>, s: State<G>)
    ensures Valid(w, s) <==> FitId(s.sessionId) && FitState(w, s)
  {
    hide AcceptableId, FitId;
    FitIdMeans(s.sessionId);
  }

  /** When a turn is refused and what it answers: the reason is the first that applies. */
  lemma RefusalMeans<G>(w: World<G>, s: State<G>, input: Input)
    ensures var foreign := s.sessionId != "" && s.sessionId != input.sessionId;
            && (Refused(w, s, input) <==> !FitId(input.sessionId) || foreign || !FitState(w, s))
            && (Refused(w, s, input)
                ==> Turn(w, s, input).output
                    == Output(
                         "QxFx0: идентификатор сессии отклонён; состояние не изменено.", CMRepair,
                         InvariantBlock(
                           if !FitId(input.sessionId) then "invalid session_id"
                           else if foreign then "session_id does not match loaded state"
                           else "loaded state violates invariants"),
                         true, |s.governance|, 0.0, 0,
                         if s.dialogue.conversationState.Some?
                         then OfDiscriminant(s.dialogue.conversationState.value) else Idle))
  {
    hide AcceptableId, FitId, Valid, FitState;
    FitIdMeans(input.sessionId);
    var begun := Adopt(s, input.sessionId);
    FitStateMeans(w, begun);
    FitIgnoresId(w, s, begun);
  }

  lemma FitIgnoresId<G>(w: World<G>, s: State<G>, t: State<G>)
    requires t == s.(sessionId := t.sessionId)
    ensures FitState(w, s) <==> FitState(w, t)
  {
  }

  // ---------- Stage faults ----------

  /** Where the stages lead: to a fault, or through to the guard. A fault answers with `output`; `recovery` is
      what a fault after the guard would answer. */
  datatype Journey<G> = Fault(output: Output) | Arrived(state: State<G>, context: Context, recovery: Output)

  ghost function Rewritten<G>(s: State<G>, e: Effect<G>): (t: State<G>)
    ensures t.semantic == e.semantic && t.decision == e.decision
    ensures t.dialogue.conversationState == e.conversationState
    ensures t.sessionId == s.sessionId && t.governance == s.governance
    ensures t.dialogue.turnCount == s.dialogue.turnCount && t.dialogue.history == s.dialogue.history
    ensures t.dialogue.lastFamily == s.dialogue.lastFamily && t.dialogue.lastTopic == s.dialogue.lastTopic
  {
    State(s.sessionId, Dialogue(s.dialogue.turnCount, s.dialogue.history, s.dialogue.lastFamily, s.dialogue.lastTopic,
                                e.conversationState),
          e.semantic, e.decision, s.governance)
  }

  ghost function FaultOutput(family: Family, shown: Shown, energy: real, depth: nat, events: nat): Output {
    Output("QxFx0: внутренняя ошибка обработки, состояние восстановлено.", family, Blocked("stage error"), true, events,
           energy, depth, shown)
  }

  /** The stages in their order. A fault in the first answers with nothing learnt, in the second with the energy
      the first found, in the next two also with the family and the state of the conversation, and from then on
      also with the depth of the path. */
  ghost function JourneyOf<G>(w: World<G>, s: State<G>, input: Input): Journey<G> {
    var (rest, opening) := w.normalize(s, input);
    var s0, events := State(s.sessionId, s.dialogue, Semantic(s.semantic.field, rest), s.decision, s.governance),
                      |s.governance|;
    match w.prepare(s0, opening)
    case Failed(_) => Fault(FaultOutput(CMGround, OfFamily(CMGround), 0.0, 0, events))
    case Done(e1, c1) =>
      var s1 := Rewritten(s0, e1);
      match w.route(s1, c1)
      case Failed(_) => Fault(FaultOutput(CMGround, OfFamily(CMGround), c1.conatusEnergy, 0, events))
      case Done(e2, c2) =>
        var s2 := Rewritten(s1, e2);
        var early := FaultOutput(c2.family, Named(c2.phase), c1.conatusEnergy, 0, events);
        match w.planShadow(s2, c2)
        case Failed(_) => Fault(early)
        case Done(e3, c3) =>
          var s3 := Rewritten(s2, e3);
          match w.render(s3, c3)
          case Failed(_) => Fault(early)
          case Done(e4, c4) =>
            var s4 := Rewritten(s3, e4);
            var late := FaultOutput(c2.family, Named(c2.phase), c1.conatusEnergy, c4.pathDepth, events);
            if !w.admits(s4, c4) then Fault(late)
            else
              match w.finalize(s4, c4)
              case Failed(_) => Fault(late)
              case Done(e5, c5) => Arrived(Rewritten(s4, e5), c5, late)
  }

  lemma JourneyMeans<G>(w: World<G>, s: State<G>, input: Input)
    ensures var before, journey := BeforeGuard(w, s, input), JourneyOf(w, s, input);
            && (before.Aborted? <==> journey.Fault?)
            && RecoveryOutput(s, before.learnt) == (if journey.Fault? then journey.output else journey.recovery)
            && (before.Reached? ==> before.state == journey.state && before.context == journey.context)
  {
  }

  /** A turn with a fault answers with what had been learnt, and leaves the state as it was. */
  lemma FaultMeans<G>(w: World<G>, s: State<G>, input: Input)
    requires !Refused(w, s, input)
    ensures var begun := Adopt(s, input.sessionId);
            var journey := JourneyOf(w, begun, input);
            journey.Fault? ==> Turn(w, s, input) == Turned(begun, journey.output)
  {
    hide JourneyOf, BeforeGuard, Valid, AcceptableId, RecoveryOutput;
    JourneyMeans(w, Adopt(s, input.sessionId), input);
  }

  // ---------- Blocked and accepted turns ----------

  /** The first reason to block a turn: nothing but whitespace, more than 8,192 characters, a safety block, or a
      quality verdict. */
  ghost function FirstReason<G>(w: World<G>, c: Context, history: seq<string>): Option<GuardStatus> {
    if forall x :: x in c.rawText ==> Text.IsWhitespace(x) then Some(InvariantBlock("пустой ввод"))
    else if |c.rawText| > 8_192 then Some(InvariantBlock("слишком длинный ввод"))
    else if w.safety(c, history).InvariantBlock? then Some(w.safety(c, history))
    else if w.quality(c).Some? then Some(Blocked(w.quality(c).value))
    else None
  }

  /** The status of a turn that is not blocked: a warning stays one. */
  ghost function Passed<G>(w: World<G>, c: Context, history: seq<string>): GuardStatus {
    if w.safety(c, history).InvariantWarn? then w.safety(c, history) else Allowed
  }

  lemma GuardMeans<G>(w: World<G>, c: Context, history: seq<string>)
    ensures var reason := FirstReason(w, c, history);
            Guard(w, c, history)
            == if reason.Some? then Guarded(CMRepair, reason.value, true)
               else Guarded(c.family, Passed(w, c, history), false)
  {
    Text.TrimsToNothing(c.rawText);
  }

  ghost function LastOf<T>(s: seq<T>): seq<T> {
    if |s| > 10_000 then s[|s| - 10_000..] else s
  }

  lemma WindowIsLast<T>(s: seq<T>)
    ensures Window(s) == LastOf(s)
  {
  }

  /** A blocked turn: the fixed text, the repair family and the first reason; everything semantic is as before
      the turn, and count, history and log have moved on. */
  lemma BlockedMeans<G>(w: World<G>, s: State<G>, input: Input)
    requires !Refused(w, s, input) && JourneyOf(w, Adopt(s, input.sessionId), input).Arrived?
    ensures var begun, turned := Adopt(s, input.sessionId), Turn(w, s, input);
            var (c, was) := (JourneyOf(w, begun, input).context, begun.dialogue);
            var reason := FirstReason(w, c, was.history);
            reason.Some?
            ==> && turned.state
                   == State(
                        begun.sessionId,
                        Dialogue(was.turnCount + 1,
                                 LastOf(was.history + ["QxFx0: ответ отклонён системой безопасности."]),
                                 CMRepair, Some(c.subject), was.conversationState),
                        begun.semantic, Some(Decision(CMRepair, reason.value, 0.0)),
                        LastOf(begun.governance + [Event(was.turnCount + 1, GuardBlocked, CMRepair, reason.value)]))
                && turned.output
                   == Output("QxFx0: ответ отклонён системой безопасности.", CMRepair, reason.value, true,
                             |turned.state.governance|, c.conatusEnergy, c.pathDepth, Named(c.phase))
  {
    hide JourneyOf, BeforeGuard, Valid, AcceptableId, Guard, FirstReason, Window, LastOf, RecoveryOutput;
    var begun := Adopt(s, input.sessionId);
    JourneyMeans(w, begun, input);
    JourneyBooks(w, begun, input);
    var c, t := JourneyOf(w, begun, input).context, JourneyOf(w, begun, input).state;
    GuardMeans(w, c, begun.dialogue.history);
    var reason := FirstReason(w, c, begun.dialogue.history);
    if reason.Some? {
      WindowIsLast(begun.dialogue.history + [REFUSAL]);
      WindowIsLast(begun.governance + [Event(begun.dialogue.turnCount + 1, GuardBlocked, CMRepair, reason.value)]);
    }
  }

  lemma JourneyBooks<G>(w: World<G>, s: State<G>, input: Input)
    ensures JourneyOf(w, s, input).Arrived? ==> SameBooks(s, JourneyOf(w, s, input).state)
  {
    hide BeforeGuard, JourneyOf, Settle, SameBooks;
    StagesKeepBooks(w, s, input);
    JourneyMeans(w, s, input);
  }

  /** The state grounding sees: an accepted turn's decision has been taken. */
  ghost function Decided<G>(w: World<G>, t: State<G>, c: Context): State<G> {
    State(t.sessionId, t.dialogue, t.semantic, Some(Decision(c.family, Passed(w, c, t.dialogue.history), 1.0)),
          t.governance)
  }

  /** An accepted turn: the response and the family of the stages with the guard's verdict; what grounding left
      is kept, the field is adjusted, and count, history and log move on. If grounding fails, so does the turn. */
  lemma AcceptedMeans<G>(w: World<G>, s: State<G>, input: Input)
    requires !Refused(w, s, input) && JourneyOf(w, Adopt(s, input.sessionId), input).Arrived?
    ensures var begun, turned := Adopt(s, input.sessionId), Turn(w, s, input);
            var journey := JourneyOf(w, begun, input);
            var (c, was) := (journey.context, begun.dialogue);
            FirstReason(w, c, was.history).None?
            ==> match w.ground(Decided(w, journey.state, c), c)
                case Failed(_) => turned == Turned(begun, journey.recovery)
                case Done(e, _) =>
                  var status := if e.decision.Some? then e.decision.value.status else InvariantOk;
                  && turned.state
                     == State(
                          begun.sessionId,
                          Dialogue(was.turnCount + 1, LastOf(was.history + [c.response]), c.family, Some(c.subject),
                                   e.conversationState),
                          Semantic(Adjust(e.semantic.field, w.topicKnown(e.semantic.rest, c.subject)), e.semantic.rest),
                          e.decision,
                          LastOf(begun.governance
                                 + [Event(was.turnCount + 1,
                                          if status.InvariantWarn? then GuardWarning else TurnCompleted,
                                          c.family, status)]))
                  && turned.output
                     == Output(c.response, c.family, Passed(w, c, was.history), false, |turned.state.governance|,
                               c.conatusEnergy, c.pathDepth, Named(c.phase))
  {
    hide JourneyOf, BeforeGuard, Valid, AcceptableId, Guard, FirstReason, Window, LastOf, RecoveryOutput, Adjust,
         Passed;
    var begun := Adopt(s, input.sessionId);
    JourneyMeans(w, begun, input);
    JourneyBooks(w, begun, input);
    var journey := JourneyOf(w, begun, input);
    var c := journey.context;
    GuardMeans(w, c, begun.dialogue.history);
    if FirstReason(w, c, begun.dialogue.history).None? && w.ground(Decided(w, journey.state, c), c).Done? {
      var e := w.ground(Decided(w, journey.state, c), c).effect;
      var status := if e.decision.Some? then e.decision.value.status else InvariantOk;
      WindowIsLast(begun.dialogue.history + [c.response]);
      WindowIsLast(
        begun.governance
        + [Event(begun.dialogue.turnCount + 1, if status.InvariantWarn? then GuardWarning else TurnCompleted,
                 c.family, status)]);
    }
  }

  // ---------- The field ----------

  /** An accepted turn on a known topic raises confidence, resonance and valence, one on an unknown topic raises
      the counterfactual and lowers valence; each by its step up to its bound. Arousal settles by its step less
      the decay. */
  lemma AdjustMeans(f: Field, known: bool)
    requires f.InBounds()
    ensures var g := Adjust(f, known);
            && g.consolidation == f.consolidation
            && (known ==> && g.confidence == (if f.confidence <= 0.9 then f.confidence + 0.1 else 1.0)
                          && g.resonance == (if f.resonance <= 0.95 then f.resonance + 0.05 else 1.0)
                          && g.valence == (if f.valence <= 0.95 then f.valence + 0.05 else 1.0)
                          && g.counterfactual == f.counterfactual
                          && g.arousal == (if f.arousal <= 0.97 then f.arousal + 0.01 else 0.98))
            && (!known ==> && g.counterfactual == (if f.counterfactual <= 0.9 then f.counterfactual + 0.1 else 1.0)
                           && g.valence == (if f.valence >= -0.95 then f.valence - 0.05 else -1.0)
                           && g.confidence == f.confidence && g.resonance == f.resonance
                           && g.arousal == (if f.arousal <= 0.95 then f.arousal + 0.03 else 0.98))
  {
  }
}
