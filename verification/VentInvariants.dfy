/** The properties the episode keeps for every sequence of answers, windows and tick lengths. */
module VentInvariants {
  import opened Options
  import opened VentRules
  import opened VentEpisode
  import opened VentRuns

  // ----- Evidence, notes and quotas -----

  /** An airing is claimed only after an opening was seen; a left-over reason is noted only
      during the quiet time; quotas that are sane at all are never overdrawn. */
  ghost predicate Orderly(s: EpisodeState, cfg: EpisodeConfig) {
    && (s.phase == Ventilating ==> s.openedSeen)
    && (s.pending != NoReason ==> s.phase == Cooldown)
    && (QuotasAreSane(cfg) ==> s.prompts <= PromptCap(s, cfg))
    && (s.phase == PhaseIdle || s.phase == Cooldown ==> s.prompts == 0)
  }

  /** Quotas are counts, and protection is granted no less than comfort. */
  predicate QuotasAreSane(cfg: EpisodeConfig) {
    0 <= cfg.maxPromptsPhase <= cfg.maxPromptsPhaseProtection
  }

  /** What one tick owes the user. */
  ghost predicate TickIsFaithful(s: EpisodeState, t: Tick, r: EpisodeResult, cfg: EpisodeConfig) {
    && (t.action == Discourage ==> r.action != Idle)
    && (ProtectionAbort(t) ==> r.action != Open)
    && (s.phase == StopRequested && Openish(r.seen) ==> r.action == Close || r.action == Open)
    && (s.phase == StopRequested && t.action == Close && !Closedish(r.seen) ==> r.action == Close)
    && (r.pending != NoReason ==> t.action == Open && r.pending == t.reason && r.state.phase == Cooldown)
    && (r.state.phase == Ventilating && s.phase != Ventilating ==> Openish(r.seen))
    && (r.prompt ==> r.action == Open || r.action == Close)
  }

  lemma IdleIsOrderly(s: EpisodeState, t: Tick, cfg: EpisodeConfig)
    requires Orderly(s, cfg) && s.phase == PhaseIdle
    ensures Orderly(StepIdle(s, t, cfg).state, cfg) && TickIsFaithful(s, t, StepIdle(s, t, cfg), cfg)
  {
  }

  lemma CooldownIsOrderly(s: EpisodeState, t: Tick, cfg: EpisodeConfig)
    requires Orderly(s, cfg) && s.phase == Cooldown
    ensures Orderly(StepCooldown(s, t, cfg).state, cfg) && TickIsFaithful(s, t, StepCooldown(s, t, cfg), cfg)
  {
    var st := s.(pending := if t.action == Open then t.reason else NoReason);
    if CooldownOver(st, t) {
      IdleIsOrderly(Rested(st), t, cfg);
    }
  }

  lemma AskToStopIsOrderly(s: EpisodeState, why: Reason, emergency: bool, level: Level, t: Tick, cfg: EpisodeConfig)
    requires Orderly(s, cfg) && AgedSound(s, t) && (s.phase == Requested || s.phase == Ventilating)
    ensures Orderly(AskToStop(s, why, emergency, level, t, cfg).state, cfg)
  {
  }

  lemma RequestedIsOrderly(s: EpisodeState, t: Tick, cfg: EpisodeConfig)
    requires Orderly(s, cfg) && AgedSound(s, t) && s.phase == Requested
    requires Openish(Seen(t, cfg)) ==> s.openedSeen
    ensures Orderly(StepRequested(s, t, cfg).state, cfg)
  {
    if t.action == Close && Openish(Seen(t, cfg)) {
      AskToStopIsOrderly(s, t.reason, ProtectionAbort(t), t.level, t, cfg);
    } else if t.action != Open && !Closedish(Seen(t, cfg)) {
      AskToStopIsOrderly(s, AiringDone, false, LevelOk, t, cfg);
    }
  }

  lemma VentilatingIsOrderly(s: EpisodeState, t: Tick, cfg: EpisodeConfig)
    requires Orderly(s, cfg) && AgedSound(s, t) && s.phase == Ventilating
    ensures Orderly(StepVentilating(s, t, cfg).state, cfg)
  {
    if !Closedish(Seen(t, cfg)) && t.action == Close {
      AskToStopIsOrderly(s, t.reason, ProtectionAbort(t), t.level, t, cfg);
    } else if !Closedish(Seen(t, cfg)) && t.action != Open {
      AskToStopIsOrderly(s, AiringDone, false, LevelOk, t, cfg);
    }
  }

  lemma StandingIsOrderly(s: EpisodeState, t: Tick, cfg: EpisodeConfig)
    requires Orderly(s, cfg) && AgedSound(s, t) && s.phase == StopRequested
    ensures Orderly(StepStanding(s, t, cfg).state, cfg)
  {
  }

  lemma ResumeIsOrderly(s: EpisodeState, t: Tick, cfg: EpisodeConfig)
    requires Orderly(s, cfg) && AgedSound(s, t) && s.phase == StopRequested && !s.emergency
    requires Openish(Seen(t, cfg)) ==> s.openedSeen
    ensures Orderly(StepResume(s, t, cfg).state, cfg)
  {
  }

  lemma SettlingIsOrderly(s: EpisodeState, length: real, scope: Reason, t: Tick, cfg: EpisodeConfig)
    ensures Orderly(Quiet(Settle(s, length, scope, t), t, cfg).state, cfg)
  {
  }

  lemma UnconfirmedIsOrderly(s: EpisodeState, t: Tick, cfg: EpisodeConfig)
    requires Orderly(s, cfg) && AgedSound(s, t) && s.phase == StopRequested
    ensures Orderly(StepUnconfirmed(s, t, cfg).state, cfg)
  {
    var st := s.(unknownDwell := s.unknownDwell + TickMinutes(t, cfg));
    if st.unknownDwell < cfg.unknownStopRelease {
      assert StepUnconfirmed(s, t, cfg) == StepStanding(st, t, cfg);
      StandingIsOrderly(st, t, cfg);
    } else {
      SettlingIsOrderly(st, if s.emergency then cfg.cooldownEmergency else cfg.cooldownExpired, NoReason, t, cfg);
    }
  }

  lemma StopIsOrderly(s: EpisodeState, t: Tick, cfg: EpisodeConfig)
    requires Orderly(s, cfg) && AgedSound(s, t) && s.phase == StopRequested
    requires Openish(Seen(t, cfg)) ==> s.openedSeen
    ensures Orderly(StepStop(s, t, cfg).state, cfg)
  {
    if Closedish(Seen(t, cfg)) {
      assert Orderly(StepClosed(s, t, cfg).state, cfg);
    } else if t.action == Open && !s.emergency {
      ResumeIsOrderly(s, t, cfg);
    } else if Seen(t, cfg) == Unknown && ResolverQuiet(t) {
      UnconfirmedIsOrderly(s, t, cfg);
    } else {
      StandingIsOrderly(s.(unknownDwell := 0.0), t, cfg);
    }
  }

  lemma StepIsOrderly(s: EpisodeState, t: Tick, cfg: EpisodeConfig)
    requires Orderly(s, cfg) && Sound(s)
    ensures Orderly(EpisodeStep(s, t, cfg).state, cfg)
  {
    var st := Aged(s, t, cfg);
    assert Orderly(st, cfg);
    match st.phase {
      case PhaseIdle => IdleIsOrderly(st, t, cfg);
      case Cooldown => CooldownIsOrderly(st, t, cfg);
      case Requested => RequestedIsOrderly(st, t, cfg);
      case Ventilating => VentilatingIsOrderly(st, t, cfg);
      case StopRequested => StopIsOrderly(st, t, cfg);
    }
  }

  lemma UnconfirmedIsFaithful(s: EpisodeState, t: Tick, cfg: EpisodeConfig)
    requires s.phase == StopRequested && s.pending == NoReason && Seen(t, cfg) == Unknown && ResolverQuiet(t)
    requires t.action == Open ==> s.emergency
    ensures TickIsFaithful(s, t, StepUnconfirmed(s, t, cfg), cfg)
  {
    var st := s.(unknownDwell := s.unknownDwell + TickMinutes(t, cfg));
    if st.unknownDwell < cfg.unknownStopRelease {
      StandingIsFaithful(st, t, cfg);
    }
  }

  lemma StandingIsFaithful(s: EpisodeState, t: Tick, cfg: EpisodeConfig)
    requires s.phase == StopRequested && s.pending == NoReason
    ensures TickIsFaithful(s, t, StepStanding(s, t, cfg), cfg)
  {
  }

  lemma ClosedIsFaithful(s: EpisodeState, t: Tick, cfg: EpisodeConfig)
    requires s.phase == StopRequested && s.pending == NoReason && Closedish(Seen(t, cfg))
    ensures TickIsFaithful(s, t, StepClosed(s, t, cfg), cfg)
  {
  }

  lemma StopIsFaithful(s: EpisodeState, t: Tick, cfg: EpisodeConfig)
    requires s.phase == StopRequested && s.pending == NoReason
    ensures TickIsFaithful(s, t, StepStop(s, t, cfg), cfg)
  {
    if Closedish(Seen(t, cfg)) {
      ClosedIsFaithful(s, t, cfg);
    } else if t.action == Open && !s.emergency {
      assert StepStop(s, t, cfg) == StepResume(s, t, cfg);
    } else if Seen(t, cfg) == Unknown && ResolverQuiet(t) {
      UnconfirmedIsFaithful(s, t, cfg);
    } else {
      StandingIsFaithful(s.(unknownDwell := 0.0), t, cfg);
    }
  }

  lemma StepIsFaithful(s: EpisodeState, t: Tick, cfg: EpisodeConfig)
    requires Orderly(s, cfg)
    ensures TickIsFaithful(s, t, EpisodeStep(s, t, cfg), cfg)
  {
    var st := Aged(s, t, cfg);
    assert Orderly(st, cfg);
    match st.phase {
      case PhaseIdle => IdleIsOrderly(st, t, cfg);
      case Cooldown => CooldownIsOrderly(st, t, cfg);
      case Requested => assert TickIsFaithful(st, t, StepRequested(st, t, cfg), cfg);
      case Ventilating => assert TickIsFaithful(st, t, StepVentilating(st, t, cfg), cfg);
      case StopRequested => StopIsFaithful(st, t, cfg);
    }
  }

  lemma {:induction false} OrderlyBefore(s: EpisodeState, ticks: seq<Tick>, cfg: EpisodeConfig, i: nat)
    requires Sound(s) && Orderly(s, cfg) && i <= |ticks|
    ensures Orderly(Before(s, ticks, cfg, i), cfg)
    decreases i
  {
    if i > 0 {
      OrderlyBefore(s, ticks, cfg, i - 1);
      SoundBefore(s, ticks, cfg, i - 1);
      RunSteps(s, ticks, cfg, i - 1);
      StepIsOrderly(Before(s, ticks, cfg, i - 1), ticks[i - 1], cfg);
    }
  }

  /** Ticks whose protection closes say more than "ok". */
  predicate TickWarns(t: Tick) {
    ProtectionAbort(t) ==> t.level != LevelOk
  }

  predicate AllWarn(ticks: seq<Tick>) {
    forall i :: 0 <= i < |ticks| ==> TickWarns(ticks[i])
  }

  /** A standing stop for protection is on record as more than "ok". */
  predicate Warned(s: EpisodeState) {
    s.phase == StopRequested && ProtectionClose(s.reason) ==> s.level != LevelOk
  }

  /** A protection close is never published as harmless. */
  predicate NeverHarmless(r: EpisodeResult) {
    r.action == Close && ProtectionClose(r.reason) ==> r.level != LevelOk
  }

  lemma StandingWarns(s: EpisodeState, t: Tick, cfg: EpisodeConfig)
    requires s.phase == StopRequested && Warned(s) && TickWarns(t)
    ensures var r := StepStanding(s, t, cfg); Warned(r.state) && NeverHarmless(r)
  {
  }

  lemma UnconfirmedWarns(s: EpisodeState, t: Tick, cfg: EpisodeConfig)
    requires s.phase == StopRequested && Warned(s) && TickWarns(t)
    ensures var r := StepUnconfirmed(s, t, cfg); Warned(r.state) && NeverHarmless(r)
  {
    var st := s.(unknownDwell := s.unknownDwell + TickMinutes(t, cfg));
    StandingWarns(st, t, cfg);
  }

  lemma StopWarns(s: EpisodeState, t: Tick, cfg: EpisodeConfig)
    requires s.phase == StopRequested && Warned(s) && TickWarns(t)
    ensures var r := StepStop(s, t, cfg); Warned(r.state) && NeverHarmless(r)
  {
    if Closedish(Seen(t, cfg)) {
      assert StepStop(s, t, cfg) == StepClosed(s, t, cfg);
    } else if t.action == Open && !s.emergency {
      assert StepStop(s, t, cfg) == StepResume(s, t, cfg);
    } else if Seen(t, cfg) == Unknown && ResolverQuiet(t) {
      UnconfirmedWarns(s, t, cfg);
    } else {
      StandingWarns(s.(unknownDwell := 0.0), t, cfg);
    }
  }

  lemma IdleWarns(s: EpisodeState, t: Tick, cfg: EpisodeConfig)
    requires s.phase == PhaseIdle && TickWarns(t)
    ensures var r := StepIdle(s, t, cfg); Warned(r.state) && NeverHarmless(r)
  {
  }

  lemma CooldownWarns(s: EpisodeState, t: Tick, cfg: EpisodeConfig)
    requires s.phase == Cooldown && TickWarns(t)
    ensures var r := StepCooldown(s, t, cfg); Warned(r.state) && NeverHarmless(r)
  {
    var st := s.(pending := if t.action == Open then t.reason else NoReason);
    if CooldownOver(st, t) {
      IdleWarns(Rested(st), t, cfg);
    }
  }

  lemma RequestedWarns(s: EpisodeState, t: Tick, cfg: EpisodeConfig)
    requires s.phase == Requested && TickWarns(t)
    ensures var r := StepRequested(s, t, cfg); Warned(r.state) && NeverHarmless(r)
  {
  }

  lemma VentilatingWarns(s: EpisodeState, t: Tick, cfg: EpisodeConfig)
    requires s.phase == Ventilating && TickWarns(t)
    ensures var r := StepVentilating(s, t, cfg); Warned(r.state) && NeverHarmless(r)
  {
  }

  lemma StepWarns(s: EpisodeState, t: Tick, cfg: EpisodeConfig)
    requires Warned(s) && TickWarns(t)
    ensures var r := EpisodeStep(s, t, cfg); Warned(r.state) && NeverHarmless(r)
  {
    var st := Aged(s, t, cfg);
    match st.phase {
      case PhaseIdle => IdleWarns(st, t, cfg);
      case Cooldown => CooldownWarns(st, t, cfg);
      case Requested => RequestedWarns(st, t, cfg);
      case Ventilating => VentilatingWarns(st, t, cfg);
      case StopRequested => StopWarns(st, t, cfg);
    }
  }

  lemma {:induction false} WarnedBefore(s: EpisodeState, ticks: seq<Tick>, cfg: EpisodeConfig, i: nat)
    requires Warned(s) && AllWarn(ticks) && i <= |ticks|
    ensures Warned(Before(s, ticks, cfg, i))
    decreases i
  {
    if i > 0 {
      WarnedBefore(s, ticks, cfg, i - 1);
      RunSteps(s, ticks, cfg, i - 1);
      StepWarns(Before(s, ticks, cfg, i - 1), ticks[i - 1], cfg);
    }
  }

  lemma WarnsAt(s: EpisodeState, ticks: seq<Tick>, cfg: EpisodeConfig, i: nat)
    requires Warned(s) && AllWarn(ticks) && i < |ticks|
    ensures NeverHarmless(Run(s, ticks, cfg)[i])
  {
    WarnedBefore(s, ticks, cfg, i);
    RunSteps(s, ticks, cfg, i);
    StepWarns(Before(s, ticks, cfg, i), ticks[i], cfg);
  }

  /** Over every run: a discouragement is never swallowed, a protection close never reads
      "open", a window known to be open never lets a standing close expire, no airing is claimed
      without an opening seen, and the left-over note is exactly this tick's unmet demand. On ticks
      that warn of protection a protection close is never published as harmless. */
  lemma RunsAreFaithful(s: EpisodeState, ticks: seq<Tick>, cfg: EpisodeConfig, i: nat)
    requires Sound(s) && Orderly(s, cfg) && i < |ticks|
    ensures var r := Run(s, ticks, cfg)[i];
            Orderly(r.state, cfg) && TickIsFaithful(Before(s, ticks, cfg, i), ticks[i], r, cfg)
    ensures Warned(s) && AllWarn(ticks) ==> NeverHarmless(Run(s, ticks, cfg)[i])
  {
    OrderlyBefore(s, ticks, cfg, i);
    OrderlyBefore(s, ticks, cfg, i + 1);
    RunSteps(s, ticks, cfg, i);
    StepIsFaithful(Before(s, ticks, cfg, i), ticks[i], cfg);
    if Warned(s) && AllWarn(ticks) {
      WarnsAt(s, ticks, cfg, i);
    }
  }

  // ----- A window known to be open is told to close -----

  /** The raw reading is open, whoever measured it, and no older than the stale limit. */
  predicate ReadsOpen(t: Tick, cfg: EpisodeConfig) {
    (t.window == WindowOpen || t.window == LikelyOpen) && (t.age.Some? ==> t.age.value <= cfg.windowStaleAfter)
  }

  /** A contact reads closed, no longer ago than the stale limit. */
  predicate ReadsClosed(t: Tick, cfg: EpisodeConfig) {
    && (t.window == WindowClosed || t.window == LikelyClosed) && t.source == Contact
    && (t.age.Some? ==> t.age.value <= cfg.windowStaleAfter)
  }

  /** What a reading is taken for. */
  lemma ReadingsAreTakenFor(t: Tick, cfg: EpisodeConfig)
    ensures Openish(Seen(t, cfg)) <==> ReadsOpen(t, cfg)
    ensures Closedish(Seen(t, cfg)) <==> ReadsClosed(t, cfg)
    ensures Seen(t, cfg) == if ReadsOpen(t, cfg) || ReadsClosed(t, cfg) then t.window else Unknown
  {
  }

  /** The tick's close is published: with its own reason and level, unless a latched protection stop
      keeps those it has against a lesser close; a protection close leaves the machine latched. */
  predicate Closes(s: EpisodeState, t: Tick, r: EpisodeResult) {
    && r.action == Close
    && (if s.emergency && t.reason != MoldGuard && t.reason != ThermalFloor then
          r.reason == s.reason && r.level == s.level
        else r.reason == t.reason && r.level == t.level)
    && (t.reason == MoldGuard || t.reason == ThermalFloor ==> r.state.phase == StopRequested && r.state.emergency)
  }

  lemma IdleCloses(s: EpisodeState, t: Tick, cfg: EpisodeConfig)
    requires s.phase == PhaseIdle && !s.emergency && t.action == Close && Openish(Seen(t, cfg))
    ensures Closes(s, t, StepIdle(s, t, cfg))
  {
  }

  lemma CooldownCloses(s: EpisodeState, t: Tick, cfg: EpisodeConfig)
    requires s.phase == Cooldown && !s.emergency && t.action == Close && Openish(Seen(t, cfg))
    ensures Closes(s, t, StepCooldown(s, t, cfg))
  {
    var st := s.(pending := NoReason);
    if CooldownOver(st, t) {
      IdleCloses(Rested(st), t, cfg);
    }
  }

  lemma AiringCloses(s: EpisodeState, t: Tick, cfg: EpisodeConfig)
    requires !s.emergency && t.action == Close && Openish(Seen(t, cfg))
    ensures s.phase == Requested ==> Closes(s, t, StepRequested(s, t, cfg))
    ensures s.phase == Ventilating ==> Closes(s, t, StepVentilating(s, t, cfg))
  {
  }

  lemma StandingCloses(s: EpisodeState, t: Tick, cfg: EpisodeConfig)
    requires s.phase == StopRequested && t.action == Close
    ensures Closes(s, t, StepStanding(s, t, cfg))
  {
  }

  lemma StepCloses(s: EpisodeState, t: Tick, cfg: EpisodeConfig)
    requires Sound(s) && t.action == Close && ReadsOpen(t, cfg)
    ensures Closes(s, t, EpisodeStep(s, t, cfg))
  {
    var st := Aged(s, t, cfg);
    ReadingsAreTakenFor(t, cfg);
    match st.phase {
      case PhaseIdle => IdleCloses(st, t, cfg);
      case Cooldown => CooldownCloses(st, t, cfg);
      case Requested => AiringCloses(st, t, cfg);
      case Ventilating => AiringCloses(st, t, cfg);
      case StopRequested => StandingCloses(st.(unknownDwell := 0.0), t, cfg);
    }
  }

  /** Over every run and in every phase: a close of the table on a window that reads open is
      published, and a protection close is latched. */
  lemma OpenWindowIsToldToClose(s: EpisodeState, ticks: seq<Tick>, cfg: EpisodeConfig, i: nat)
    requires Sound(s) && i < |ticks| && ticks[i].action == Close && ReadsOpen(ticks[i], cfg)
    ensures Closes(Before(s, ticks, cfg, i), ticks[i], Run(s, ticks, cfg)[i])
  {
    SoundBefore(s, ticks, cfg, i);
    RunSteps(s, ticks, cfg, i);
    StepCloses(Before(s, ticks, cfg, i), ticks[i], cfg);
  }

  /** An airing ends in a rest on exactly the ticks on which a contact reads closed, in time. */
  lemma AiringEndsOnAContact(s: EpisodeState, ticks: seq<Tick>, cfg: EpisodeConfig, i: nat)
    requires i < |ticks| && Before(s, ticks, cfg, i).phase == Ventilating
    ensures Run(s, ticks, cfg)[i].state.phase == Cooldown <==> ReadsClosed(ticks[i], cfg)
  {
    RunSteps(s, ticks, cfg, i);
    ReadingsAreTakenFor(ticks[i], cfg);
    AiringEndsExactly(Before(s, ticks, cfg, i), ticks[i], cfg);
  }

  // ----- An open answer is published -----

  /** The tick's open is published for its own reason, in an airing carried by it. */
  predicate Opens(t: Tick, r: EpisodeResult) {
    && r.action == Open && r.reason == t.reason && r.level == t.level
    && (r.state.phase == Requested || r.state.phase == Ventilating)
    && r.state.owner == r.state.reason == t.reason && r.state.level == t.level
  }

  lemma IdleOpens(s: EpisodeState, t: Tick, cfg: EpisodeConfig)
    requires s.phase == PhaseIdle && t.action == Open
    ensures var r := StepIdle(s, t, cfg);
            Opens(t, r) && (r.state.phase == Ventilating <==> Openish(Seen(t, cfg)))
  {
  }

  lemma RequestedOpens(s: EpisodeState, t: Tick, cfg: EpisodeConfig)
    requires s.phase == Requested && t.action == Open && !Closedish(Seen(t, cfg))
    ensures var r := StepRequested(s, t, cfg);
            Opens(t, r) && (r.state.phase == Ventilating <==> Openish(Seen(t, cfg)))
  {
  }

  lemma VentilatingOpens(s: EpisodeState, t: Tick, cfg: EpisodeConfig)
    requires s.phase == Ventilating && t.action == Open && !Closedish(Seen(t, cfg))
    ensures Opens(t, StepVentilating(s, t, cfg))
  {
  }

  lemma StopOpens(s: EpisodeState, t: Tick, cfg: EpisodeConfig)
    requires s.phase == StopRequested && !s.emergency && t.action == Open && !Closedish(Seen(t, cfg))
    ensures var r := StepStop(s, t, cfg);
            Opens(t, r) && (r.state.phase == Ventilating <==> Openish(Seen(t, cfg)))
  {
  }

  /** Over every run: outside a rest and unlatched, an open of the table on a window that no contact
      reads closed is published; the airing counts as begun exactly when the window reads open or
      it had begun before. From rest the same holds whatever the window. */
  lemma OpenAnswerIsPublished(s: EpisodeState, ticks: seq<Tick>, cfg: EpisodeConfig, i: nat)
    requires i < |ticks| && ticks[i].action == Open
    requires var p := Before(s, ticks, cfg, i);
             p.phase == PhaseIdle || (p.phase != Cooldown && !p.emergency && !ReadsClosed(ticks[i], cfg))
    ensures Opens(ticks[i], Run(s, ticks, cfg)[i])
    ensures var p, r := Before(s, ticks, cfg, i), Run(s, ticks, cfg)[i].state;
            r.phase == Ventilating <==> p.phase == Ventilating || ReadsOpen(ticks[i], cfg)
  {
    var p, t := Before(s, ticks, cfg, i), ticks[i];
    var st := Aged(p, t, cfg);
    RunSteps(s, ticks, cfg, i);
    ReadingsAreTakenFor(t, cfg);
    match st.phase {
      case PhaseIdle => IdleOpens(st, t, cfg);
      case Requested => RequestedOpens(st, t, cfg);
      case Ventilating => VentilatingOpens(st, t, cfg);
      case StopRequested => StopOpens(st, t, cfg);
    }
  }

  // ----- The end of the demand -----

  /** The airing is to end because its cause is gone: close, and no alarm. */
  predicate AsksForTheEnd(s: EpisodeState, r: EpisodeResult) {
    && r.action == Close && r.reason == AiringDone && r.level == LevelOk
    && r.state.phase == StopRequested && !r.state.emergency && r.state.owner == s.owner
  }

  /** A stop that stands as it was. */
  predicate StandsAsBefore(s: EpisodeState, r: EpisodeResult) {
    && r.action == Close && r.reason == s.reason && r.level == s.level
    && r.state.phase == StopRequested && r.state.emergency == s.emergency && r.state.owner == s.owner
  }

  lemma EndedDemandAsks(s: EpisodeState, t: Tick, cfg: EpisodeConfig)
    requires AgedSound(s, t) && (s.phase == Requested || s.phase == Ventilating)
    requires (t.action == Idle || t.action == Discourage) && !Closedish(Seen(t, cfg))
    ensures s.phase == Requested ==> AsksForTheEnd(s, StepRequested(s, t, cfg))
    ensures s.phase == Ventilating ==> AsksForTheEnd(s, StepVentilating(s, t, cfg))
  {
  }

  lemma EndedDemandStands(s: EpisodeState, t: Tick, cfg: EpisodeConfig)
    requires s.phase == StopRequested && (t.action == Idle || t.action == Discourage) && Openish(Seen(t, cfg))
    ensures StandsAsBefore(s, StepStop(s, t, cfg))
  {
    assert StepStop(s, t, cfg) == StepStanding(s.(unknownDwell := 0.0), t, cfg);
  }

  /** Over every run: once the table asks for nothing, an airing is asked to end unless a contact
      reads closed, and a stop stands with its reason while the window reads open. */
  lemma EndedDemandIsToldToClose(s: EpisodeState, ticks: seq<Tick>, cfg: EpisodeConfig, i: nat)
    requires Sound(s) && i < |ticks| && (ticks[i].action == Idle || ticks[i].action == Discourage)
    ensures var p, r := Before(s, ticks, cfg, i), Run(s, ticks, cfg)[i];
            && ((p.phase == Requested || p.phase == Ventilating) && !ReadsClosed(ticks[i], cfg) ==> AsksForTheEnd(p, r))
            && (p.phase == StopRequested && ReadsOpen(ticks[i], cfg) ==> StandsAsBefore(p, r))
  {
    var p, t := Before(s, ticks, cfg, i), ticks[i];
    var st := Aged(p, t, cfg);
    SoundBefore(s, ticks, cfg, i);
    RunSteps(s, ticks, cfg, i);
    ReadingsAreTakenFor(t, cfg);
    if (p.phase == Requested || p.phase == Ventilating) && !ReadsClosed(t, cfg) {
      EndedDemandAsks(st, t, cfg);
    } else if p.phase == StopRequested && ReadsOpen(t, cfg) {
      EndedDemandStands(st, t, cfg);
    }
  }

  /** The machine says nothing and asks for nothing. */
  predicate FallsSilent(r: EpisodeResult) {
    (r.action == Idle || r.action == Discourage) && r.state.phase == PhaseIdle
  }

  lemma RequestIsWithdrawn(s: EpisodeState, t: Tick, cfg: EpisodeConfig)
    requires s.phase == Requested && t.action != Open && Closedish(Seen(t, cfg))
    ensures FallsSilent(StepRequested(s, t, cfg))
  {
  }

  /** Over every run a request whose cause is gone while a contact reads closed is dropped in silence. */
  lemma UnmetRequestIsDropped(s: EpisodeState, ticks: seq<Tick>, cfg: EpisodeConfig, i: nat)
    requires i < |ticks| && Before(s, ticks, cfg, i).phase == Requested
    requires ticks[i].action != Open && ReadsClosed(ticks[i], cfg)
    ensures FallsSilent(Run(s, ticks, cfg)[i])
  {
    RunSteps(s, ticks, cfg, i);
    ReadingsAreTakenFor(ticks[i], cfg);
    RequestIsWithdrawn(Aged(Before(s, ticks, cfg, i), ticks[i], cfg), ticks[i], cfg);
  }

  lemma UnknownIdleIsSilent(s: EpisodeState, t: Tick, cfg: EpisodeConfig)
    requires s.phase == PhaseIdle && t.action == Close && !Openish(Seen(t, cfg))
    ensures FallsSilent(StepIdle(s, t, cfg))
  {
  }

  lemma UnknownRequestEnds(s: EpisodeState, t: Tick, cfg: EpisodeConfig)
    requires s.phase == Requested && !s.emergency && t.action == Close && Seen(t, cfg) == Unknown
    ensures AsksForTheEnd(s, StepRequested(s, t, cfg))
  {
  }

  lemma UnknownAiringCloses(s: EpisodeState, t: Tick, cfg: EpisodeConfig)
    requires s.phase == Ventilating && !s.emergency && t.action == Close && Seen(t, cfg) == Unknown
    ensures Closes(s, t, StepVentilating(s, t, cfg))
  {
  }

  lemma UnknownStopCloses(s: EpisodeState, t: Tick, cfg: EpisodeConfig)
    requires s.phase == StopRequested && t.action == Close && Seen(t, cfg) == Unknown
    ensures Closes(s, t, StepStop(s, t, cfg))
  {
    assert StepStop(s, t, cfg) == StepStanding(s.(unknownDwell := 0.0), t, cfg);
  }

  /** Over every run, a close of the table on a window nobody knows: an airing and a stop publish it,
      an open request is asked to end, and a machine at rest stays silent. */
  lemma UnknownWindowIsToldToClose(s: EpisodeState, ticks: seq<Tick>, cfg: EpisodeConfig, i: nat)
    requires Sound(s) && i < |ticks| && ticks[i].action == Close
    requires !ReadsOpen(ticks[i], cfg) && !ReadsClosed(ticks[i], cfg)
    ensures var p, r := Before(s, ticks, cfg, i), Run(s, ticks, cfg)[i];
            && (p.phase == Ventilating || p.phase == StopRequested ==> Closes(p, ticks[i], r))
            && (p.phase == Requested ==> AsksForTheEnd(p, r))
            && (p.phase == PhaseIdle ==> FallsSilent(r))
  {
    var p, t := Before(s, ticks, cfg, i), ticks[i];
    var st := Aged(p, t, cfg);
    SoundBefore(s, ticks, cfg, i);
    RunSteps(s, ticks, cfg, i);
    ReadingsAreTakenFor(t, cfg);
    match st.phase {
      case PhaseIdle => UnknownIdleIsSilent(st, t, cfg);
      case Requested => UnknownRequestEnds(st, t, cfg);
      case Ventilating => UnknownAiringCloses(st, t, cfg);
      case StopRequested => UnknownStopCloses(st, t, cfg);
      case Cooldown =>
    }
  }

  // ----- A quiet world -----

  /** Nothing is advised and the window is not seen open. */
  predicate QuietTick(t: Tick, cfg: EpisodeConfig, least: real) {
    (t.action == Idle || t.action == Discourage) && !Openish(Seen(t, cfg)) && TickMinutes(t, cfg) >= least
  }

  function Pos(x: real): real {
    if x < 0.0 then 0.0 else x
  }

  /** No cooldown the configuration can impose is longer. */
  function LongestRest(cfg: EpisodeConfig): real {
    var a := if cfg.cooldown < cfg.cooldownManual then cfg.cooldownManual else cfg.cooldown;
    var b := if cfg.cooldownExpired < cfg.cooldownEmergency then cfg.cooldownEmergency else cfg.cooldownExpired;
    Pos(if a < b then b else a)
  }

  /** Minutes of quiet, in ticks of at least `least`, that lead back to idle. */
  function ToIdle(s: EpisodeState, cfg: EpisodeConfig, least: real): real {
    match s.phase
    case PhaseIdle => 0.0
    case Cooldown => least + Pos(s.cooldownFor - s.phaseMin)
    case StopRequested => 2.0 * least + LongestRest(cfg) + Pos(cfg.unknownStopRelease - s.unknownDwell)
    case _ => 3.0 * least + LongestRest(cfg) + Pos(cfg.unknownStopRelease)
  }

  lemma QuietStop(s: EpisodeState, t: Tick, cfg: EpisodeConfig, least: real)
    requires least > 0.0 && QuietTick(t, cfg, least) && s.phase == StopRequested
    ensures var r := EpisodeStep(s, t, cfg);
            ToIdle(r.state, cfg, least) <= ToIdle(s, cfg, least) - least
  {
    var st := Aged(s, t, cfg);
    if Closedish(Seen(t, cfg)) {
      assert ToIdle(StepClosed(st, t, cfg).state, cfg, least) <= ToIdle(s, cfg, least) - least;
    } else {
      assert ToIdle(StepUnconfirmed(st, t, cfg).state, cfg, least) <= ToIdle(s, cfg, least) - least;
    }
  }

  lemma QuietStep(s: EpisodeState, t: Tick, cfg: EpisodeConfig, least: real)
    requires least > 0.0 && QuietTick(t, cfg, least)
    ensures var r := EpisodeStep(s, t, cfg);
            r.state.phase == PhaseIdle || ToIdle(r.state, cfg, least) <= ToIdle(s, cfg, least) - least
    ensures s.phase == PhaseIdle ==> EpisodeStep(s, t, cfg).state.phase == PhaseIdle
  {
    if s.phase == StopRequested {
      QuietStop(s, t, cfg, least);
    }
  }

  /** `least` added up `k` times. */
  function Repeated(least: real, k: nat): (r: real)
    ensures least > 0.0 ==> r >= 0.0
  {
    if k == 0 then 0.0 else least + Repeated(least, k - 1)
  }

  /** No phase lacks a finite exit: when the world goes quiet, every state, reachable or not,
      is back to idle once the quiet ticks add up to its measure, and stays there. */
  lemma {:induction false} QuietWorldReturnsToIdle(s: EpisodeState, ticks: seq<Tick>, cfg: EpisodeConfig, least: real)
    requires least > 0.0
    requires forall j :: 0 <= j < |ticks| ==> QuietTick(ticks[j], cfg, least)
    requires ToIdle(s, cfg, least) <= Repeated(least, |ticks|)
    ensures Before(s, ticks, cfg, |ticks|).phase == PhaseIdle
    decreases |ticks|
  {
    if ticks != [] {
      var r := EpisodeStep(s, ticks[0], cfg);
      QuietStep(s, ticks[0], cfg, least);
      QuietWorldReturnsToIdle(r.state, ticks[1..], cfg, least);
      if |ticks| > 1 {
        RunShifts(s, ticks, cfg, |ticks| - 1);
      }
    }
  }

  // ----- How episodes end, and the quiet time after them -----

  /** The quiet time an ending earns: its length and the one reason it rests, NoReason for all. */
  datatype Rest = Rest(length: real, scope: Reason)

  /** Does this tick end the episode, and with what rest? A window known to be shut ends an
      airing and a stop request; a comfort request only once it is stale; a stop nobody can
      confirm once it has waited long enough with no close reported. */
  function EndingOf(s: EpisodeState, t: Tick, cfg: EpisodeConfig): Option<Rest> {
    var shut := Closedish(Seen(t, cfg));
    match s.phase
    case Ventilating => if shut then Some(Rest(cfg.cooldownManual, NoReason)) else None
    case Requested =>
      if shut && t.action == Open && !IsProtection(t.reason) && s.phaseMin + TickMinutes(t, cfg) >= cfg.requestTtl
      then Some(Rest(cfg.cooldownExpired, NoReason)) else None
    case StopRequested =>
      if shut then Some(if s.emergency then Rest(cfg.cooldownEmergency, NoReason) else Rest(cfg.cooldown, s.owner))
      else if Seen(t, cfg) == Unknown && t.action != Close &&
              (t.action == Open ==> s.emergency && t.reason != MoldRisk) &&
              s.unknownDwell + TickMinutes(t, cfg) >= cfg.unknownStopRelease
      then Some(Rest(if s.emergency then cfg.cooldownEmergency else cfg.cooldownExpired, NoReason))
      else None
    case _ => None
  }

  /** The state after the tick is the one that serves the rest, or none if the tick ends nothing. */
  predicate EndsWith(r: EpisodeState, end: Option<Rest>) {
    && (r.phase == Cooldown <==> end.Some?)
    && (end.Some? ==> r.cooldownFor == end.value.length && r.cooldownScope == end.value.scope && r.phaseMin == 0.0)
  }

  lemma StopEndsExactly(s: EpisodeState, t: Tick, cfg: EpisodeConfig)
    requires s.phase == StopRequested
    ensures EndsWith(EpisodeStep(s, t, cfg).state, EndingOf(s, t, cfg))
  {
    var st := Aged(s, t, cfg);
    if Closedish(Seen(t, cfg)) {
      assert EpisodeStep(s, t, cfg) == StepClosed(st, t, cfg);
    } else if t.action == Open && !s.emergency {
      assert EpisodeStep(s, t, cfg) == StepResume(st, t, cfg);
    } else if Seen(t, cfg) == Unknown && ResolverQuiet(t) {
      assert EpisodeStep(s, t, cfg) == StepUnconfirmed(st, t, cfg);
    } else {
      assert EpisodeStep(s, t, cfg) == StepStanding(st.(unknownDwell := 0.0), t, cfg);
    }
  }

  lemma RequestEndsExactly(s: EpisodeState, t: Tick, cfg: EpisodeConfig)
    requires s.phase == Requested
    ensures EndsWith(EpisodeStep(s, t, cfg).state, EndingOf(s, t, cfg))
  {
    assert EpisodeStep(s, t, cfg) == StepRequested(Aged(s, t, cfg), t, cfg);
  }

  lemma AiringEndsExactly(s: EpisodeState, t: Tick, cfg: EpisodeConfig)
    requires s.phase == Ventilating
    ensures EndsWith(EpisodeStep(s, t, cfg).state, EndingOf(s, t, cfg))
  {
    assert EpisodeStep(s, t, cfg) == StepVentilating(Aged(s, t, cfg), t, cfg);
  }

  /** Outside a rest exactly those ticks start one, with exactly that length and scope. */
  lemma EpisodeEndsExactly(s: EpisodeState, t: Tick, cfg: EpisodeConfig)
    requires s.phase != Cooldown
    ensures EndsWith(EpisodeStep(s, t, cfg).state, EndingOf(s, t, cfg))
  {
    match s.phase {
      case PhaseIdle => assert EpisodeStep(s, t, cfg) == StepIdle(Aged(s, t, cfg), t, cfg);
      case Requested => RequestEndsExactly(s, t, cfg);
      case Ventilating => AiringEndsExactly(s, t, cfg);
      case StopRequested => StopEndsExactly(s, t, cfg);
    }
  }

  /** Nothing on the tick may break the quiet time: protection is silent, and an opening reason,
      if any, is one the rest covers. */
  predicate Restful(t: Tick, scope: Reason) {
    && (t.action == Close ==> t.reason != MoldGuard && t.reason != ThermalFloor)
    && (t.action == Open ==>
          t.reason != MoldRisk && t.reason != MoistureProtect && (scope == NoReason || t.reason == scope))
  }

  function Minutes(ticks: seq<Tick>, cfg: EpisodeConfig, k: nat): real
    requires k <= |ticks|
  {
    if k == 0 then 0.0 else Minutes(ticks, cfg, k - 1) + TickMinutes(ticks[k - 1], cfg)
  }

  lemma RestStep(s: EpisodeState, t: Tick, cfg: EpisodeConfig)
    requires s.phase == Cooldown && Restful(t, s.cooldownScope)
    ensures var r := EpisodeStep(s, t, cfg);
            var rested := s.phaseMin + TickMinutes(t, cfg);
            && (rested >= s.cooldownFor ==> r.state.phase != Cooldown)
            && (rested < s.cooldownFor ==>
                  && r.state.phase == Cooldown && r.action != Open && !r.prompt
                  && r.state.phaseMin == rested && r.state.cooldownFor == s.cooldownFor
                  && r.state.cooldownScope == s.cooldownScope)
  {
  }

  /** The first `k` ticks neither break nor complete the quiet time that `s` is in. */
  ghost predicate WithinRest(s: EpisodeState, ticks: seq<Tick>, cfg: EpisodeConfig, k: nat)
    requires k <= |ticks|
  {
    && s.phase == Cooldown
    && (forall j :: 0 <= j < k ==> Restful(ticks[j], s.cooldownScope))
    && (forall j :: 0 < j <= k ==> s.phaseMin + Minutes(ticks, cfg, j) < s.cooldownFor)
  }

  lemma {:induction false} RestGoesOn(s: EpisodeState, ticks: seq<Tick>, cfg: EpisodeConfig, k: nat)
    requires k <= |ticks| && WithinRest(s, ticks, cfg, k)
    ensures var r := Before(s, ticks, cfg, k);
            r.phase == Cooldown && r.phaseMin == s.phaseMin + Minutes(ticks, cfg, k) &&
            r.cooldownFor == s.cooldownFor && r.cooldownScope == s.cooldownScope
    decreases k
  {
    if k > 0 {
      RestGoesOn(s, ticks, cfg, k - 1);
      RunSteps(s, ticks, cfg, k - 1);
      assert s.phaseMin + Minutes(ticks, cfg, k) < s.cooldownFor;
      RestStep(Before(s, ticks, cfg, k - 1), ticks[k - 1], cfg);
    }
  }

  /** Over every run the quiet time lasts its full length, by the machine's own clock: until
      then no opening is advised and nothing rings; on the tick that completes it, it is over. */
  lemma QuietTimeIsKept(s: EpisodeState, ticks: seq<Tick>, cfg: EpisodeConfig, k: nat)
    requires k < |ticks| && WithinRest(s, ticks, cfg, k) && Restful(ticks[k], s.cooldownScope)
    ensures var r := Run(s, ticks, cfg)[k];
            var rested := s.phaseMin + Minutes(ticks, cfg, k + 1);
            && (rested < s.cooldownFor ==> r.state.phase == Cooldown && r.action != Open && !r.prompt)
            && (rested >= s.cooldownFor ==> r.state.phase != Cooldown)
  {
    RestGoesOn(s, ticks, cfg, k);
    RunSteps(s, ticks, cfg, k);
    RestStep(Before(s, ticks, cfg, k), ticks[k], cfg);
  }

  /** A tick that leaves a rest standing is restful, ages it and does not complete it. */
  lemma StandingRest(s: EpisodeState, t: Tick, cfg: EpisodeConfig)
    requires s.phase == Cooldown && EpisodeStep(s, t, cfg).state.phase == Cooldown
    ensures var r := EpisodeStep(s, t, cfg).state;
            && Restful(t, s.cooldownScope) && r.phaseMin == s.phaseMin + TickMinutes(t, cfg) < s.cooldownFor
            && r.cooldownFor == s.cooldownFor && r.cooldownScope == s.cooldownScope
  {
    assert EpisodeStep(s, t, cfg) == StepCooldown(Aged(s, t, cfg), t, cfg);
  }

  /** The rest that stands after tick `k` is the one tick `i` earned: its length, its scope and
      the minutes since, no tick in between having broken it. */
  ghost predicate EarnedAt(s: EpisodeState, ticks: seq<Tick>, cfg: EpisodeConfig, i: nat, k: nat)
    requires i <= k < |ticks|
  {
    var end, r := EndingOf(Before(s, ticks, cfg, i), ticks[i], cfg), Before(s, ticks, cfg, k + 1);
    && end.Some? && r.cooldownFor == end.value.length && r.cooldownScope == end.value.scope
    && r.phaseMin == Minutes(ticks, cfg, k + 1) - Minutes(ticks, cfg, i + 1)
    && (i < k ==> r.phaseMin < r.cooldownFor)
    && forall j :: i < j <= k ==> Restful(ticks[j], r.cooldownScope)
  }

  lemma RestStarts(s: EpisodeState, ticks: seq<Tick>, cfg: EpisodeConfig, k: nat)
    requires k < |ticks| && Before(s, ticks, cfg, k).phase != Cooldown && Before(s, ticks, cfg, k + 1).phase == Cooldown
    ensures EarnedAt(s, ticks, cfg, k, k)
  {
    RunSteps(s, ticks, cfg, k);
    EpisodeEndsExactly(Before(s, ticks, cfg, k), ticks[k], cfg);
  }

  lemma RestStands(s: EpisodeState, ticks: seq<Tick>, cfg: EpisodeConfig, i: nat, k: nat)
    requires i < k < |ticks| && EarnedAt(s, ticks, cfg, i, k - 1)
    requires Before(s, ticks, cfg, k).phase == Cooldown && Before(s, ticks, cfg, k + 1).phase == Cooldown
    ensures EarnedAt(s, ticks, cfg, i, k)
  {
    var last, r := Before(s, ticks, cfg, k), Before(s, ticks, cfg, k + 1);
    assert r == EpisodeStep(last, ticks[k], cfg).state by {
      RunSteps(s, ticks, cfg, k);
    }
    StandingRest(last, ticks[k], cfg);
    assert Minutes(ticks, cfg, k + 1) == Minutes(ticks, cfg, k) + TickMinutes(ticks[k], cfg);
  }

  /** Over every run that starts outside a rest: wherever the machine rests, a tick at which an
      airing, a request or a stop request ended earned that very rest, and it still holds. */
  lemma {:induction false} RestIsEarned(s: EpisodeState, ticks: seq<Tick>, cfg: EpisodeConfig, k: nat) returns (i: nat)
    requires s.phase != Cooldown && k < |ticks| && Before(s, ticks, cfg, k + 1).phase == Cooldown
    ensures i <= k && EarnedAt(s, ticks, cfg, i, k)
    decreases k
  {
    if Before(s, ticks, cfg, k).phase != Cooldown {
      i := k;
      RestStarts(s, ticks, cfg, k);
    } else {
      i := RestIsEarned(s, ticks, cfg, k - 1);
      RestStands(s, ticks, cfg, i, k);
    }
  }

  // ----- The doorbell -----

  /** Both quotas have room and the reminder clock is due. */
  predicate ReminderDue(s: EpisodeState, isProtected: bool, minutes: real, cfg: EpisodeConfig) {
    && s.episodePrompts < (if isProtected then cfg.maxPromptsEpisodeProtection else cfg.maxPromptsEpisode)
    && s.prompts < (if isProtected then cfg.maxPromptsPhaseProtection else cfg.maxPromptsPhase)
    && minutes >= s.prompts as real * cfg.reminderEvery
  }

  lemma StandingRings(s: EpisodeState, t: Tick, cfg: EpisodeConfig)
    requires AgedSound(s, t) && s.phase == StopRequested
    ensures var r := StepStanding(s, t, cfg);
            r.prompt <==> (ProtectionAbort(t) && !s.emergency) || ReminderDue(s, r.state.isProtected, s.phaseMin, cfg)
  {
    var st := Latched(s, t);
    assert st.prompts == s.prompts && st.episodePrompts == s.episodePrompts && st.phaseMin == s.phaseMin;
    assert EpisodeProtected(st) <==> st.isProtected;
  }

  lemma RequestRings(s: EpisodeState, t: Tick, cfg: EpisodeConfig)
    requires AgedSound(s, t) && s.phase == Requested && StepRequested(s, t, cfg).state.phase == Requested
    ensures var r := StepRequested(s, t, cfg); r.prompt <==> ReminderDue(s, r.state.isProtected, s.phaseMin, cfg)
  {
    var st := s.(reason := t.reason, owner := t.reason, level := t.level);
    assert EpisodeProtected(st) <==> st.isProtected;
  }

  lemma UnconfirmedRings(s: EpisodeState, t: Tick, cfg: EpisodeConfig)
    requires AgedSound(s, t) && s.phase == StopRequested
    ensures var r := StepUnconfirmed(s, t, cfg);
            r.state.phase == StopRequested ==>
              (r.prompt <==>
                 (ProtectionAbort(t) && !s.emergency) || ReminderDue(s, r.state.isProtected, s.phaseMin, cfg))
  {
    var st := s.(unknownDwell := s.unknownDwell + TickMinutes(t, cfg));
    if st.unknownDwell < cfg.unknownStopRelease {
      assert StepUnconfirmed(s, t, cfg) == StepStanding(st, t, cfg);
      StandingRings(st, t, cfg);
    }
  }

  lemma StopRings(s: EpisodeState, t: Tick, cfg: EpisodeConfig)
    requires AgedSound(s, t) && s.phase == StopRequested
    ensures var r := StepStop(s, t, cfg);
            r.state.phase == StopRequested ==>
              (r.prompt <==>
                 (ProtectionAbort(t) && !s.emergency) || ReminderDue(s, r.state.isProtected, s.phaseMin, cfg))
  {
    if Closedish(Seen(t, cfg)) {
      assert StepStop(s, t, cfg) == StepClosed(s, t, cfg);
    } else if t.action == Open && !s.emergency {
      assert StepStop(s, t, cfg) == StepResume(s, t, cfg);
    } else if Seen(t, cfg) == Unknown && ResolverQuiet(t) {
      assert StepStop(s, t, cfg) == StepUnconfirmed(s, t, cfg);
      UnconfirmedRings(s, t, cfg);
    } else {
      var cleared := s.(unknownDwell := 0.0);
      assert StepStop(s, t, cfg) == StepStanding(cleared, t, cfg);
      StandingRings(cleared, t, cfg);
    }
  }

  /** The bell of one tick against the state it found: a first step up to protection rings
      regardless, anything else only when a reminder is due. */
  predicate RingsRight(s: EpisodeState, t: Tick, r: EpisodeResult, cfg: EpisodeConfig) {
    r.prompt <==>
      (s.phase == StopRequested && ProtectionAbort(t) && !s.emergency) ||
      ReminderDue(s, r.state.isProtected, s.phaseMin + TickMinutes(t, cfg), cfg)
  }

  lemma AgedRings(s: EpisodeState, st: EpisodeState, t: Tick, r: EpisodeResult, cfg: EpisodeConfig)
    requires st == Aged(s, t, cfg)
    requires r.prompt <==>
               (s.phase == StopRequested && ProtectionAbort(t) && !st.emergency) ||
               ReminderDue(st, r.state.isProtected, st.phaseMin, cfg)
    ensures RingsRight(s, t, r, cfg)
  {
  }

  lemma RequestRingsRight(s: EpisodeState, t: Tick, cfg: EpisodeConfig)
    requires Sound(s) && s.phase == Requested && EpisodeStep(s, t, cfg).state.phase == Requested
    ensures RingsRight(s, t, EpisodeStep(s, t, cfg), cfg)
  {
    var st := Aged(s, t, cfg);
    var r := StepRequested(st, t, cfg);
    assert EpisodeStep(s, t, cfg) == r;
    RequestRings(st, t, cfg);
    AgedRings(s, st, t, r, cfg);
  }

  lemma StopRingsRight(s: EpisodeState, t: Tick, cfg: EpisodeConfig)
    requires Sound(s) && s.phase == StopRequested && EpisodeStep(s, t, cfg).state.phase == StopRequested
    ensures RingsRight(s, t, EpisodeStep(s, t, cfg), cfg)
  {
    var st := Aged(s, t, cfg);
    var r := StepStop(st, t, cfg);
    assert EpisodeStep(s, t, cfg) == r;
    StopRings(st, t, cfg);
    AgedRings(s, st, t, r, cfg);
  }

  /** A phase just entered rings exactly when its episode and its phase may ring at all; the count of
      a new episode starts at none. */
  predicate AsksRight(s: EpisodeState, r: EpisodeResult, cfg: EpisodeConfig) {
    var rung := if r.state.episodeId == s.episodeId then s.episodePrompts else 0;
    r.prompt <==>
      && rung < (if r.state.isProtected then cfg.maxPromptsEpisodeProtection else cfg.maxPromptsEpisode)
      && 1 <= (if r.state.isProtected then cfg.maxPromptsPhaseProtection else cfg.maxPromptsPhase)
  }

  /** Is this tick the entry into a phase that asks for something? */
  predicate EntersAsking(s: EpisodeState, r: EpisodeResult) {
    (r.state.phase == Requested || r.state.phase == StopRequested) && s.phase != r.state.phase
  }

  lemma CooldownAsksRight(s: EpisodeState, t: Tick, cfg: EpisodeConfig)
    requires s.phase == Cooldown && !s.emergency
    ensures var r := StepCooldown(s, t, cfg); EntersAsking(s, r) ==> AsksRight(s, r, cfg)
  {
    var st := s.(pending := if t.action == Open then t.reason else NoReason);
    if CooldownOver(st, t) {
      IdleAsksRight(Rested(st), t, cfg);
    }
  }

  /** Out of a rest an asking phase is that of a new episode. */
  lemma IdleAsksRight(s: EpisodeState, t: Tick, cfg: EpisodeConfig)
    requires s.phase == PhaseIdle && !s.emergency
    ensures var r := StepIdle(s, t, cfg);
            EntersAsking(s, r) ==> AsksRight(s, r, cfg) && r.state.episodeId == s.episodeId + 1
  {
  }

  lemma AskToStopAsksRight(s: EpisodeState, why: Reason, emergency: bool, level: Level, t: Tick, cfg: EpisodeConfig)
    requires AgedSound(s, t) && (s.phase == Requested || s.phase == Ventilating)
    requires IsProtection(why) || emergency ==> s.isProtected
    ensures AsksRight(s, AskToStop(s, why, emergency, level, t, cfg), cfg)
  {
    var st := Stop(s, why, emergency, level, Seen(t, cfg) == LikelyOpen);
    assert EpisodeProtected(st) <==> st.isProtected;
  }

  lemma RequestedAsksRight(s: EpisodeState, t: Tick, cfg: EpisodeConfig)
    requires AgedSound(s, t) && s.phase == Requested
    ensures var r := StepRequested(s, t, cfg); EntersAsking(s, r) ==> AsksRight(s, r, cfg)
  {
    if Openish(Seen(t, cfg)) && t.action == Close {
      AskToStopAsksRight(s, t.reason, ProtectionAbort(t), t.level, t, cfg);
    } else if t.action != Open && !Closedish(Seen(t, cfg)) {
      AskToStopAsksRight(s, AiringDone, false, LevelOk, t, cfg);
    } else {
      assert !EntersAsking(s, StepRequested(s, t, cfg));
    }
  }

  lemma VentilatingAsksRight(s: EpisodeState, t: Tick, cfg: EpisodeConfig)
    requires AgedSound(s, t) && s.phase == Ventilating
    ensures var r := StepVentilating(s, t, cfg); EntersAsking(s, r) ==> AsksRight(s, r, cfg)
  {
    if !Closedish(Seen(t, cfg)) && t.action == Close {
      AskToStopAsksRight(s, t.reason, ProtectionAbort(t), t.level, t, cfg);
    } else if !Closedish(Seen(t, cfg)) && t.action != Open {
      AskToStopAsksRight(s, AiringDone, false, LevelOk, t, cfg);
    }
  }

  lemma ResumeAsksRight(s: EpisodeState, t: Tick, cfg: EpisodeConfig)
    requires AgedSound(s, t) && s.phase == StopRequested && !s.emergency && t.action == Open
    ensures var r := StepResume(s, t, cfg); EntersAsking(s, r) ==> AsksRight(s, r, cfg)
  {
    var st := EnterOpening(s, Requested, t, false);
    assert EpisodeProtected(st) <==> st.isProtected;
  }

  lemma StandingNeverEnters(s: EpisodeState, t: Tick, cfg: EpisodeConfig)
    requires s.phase == StopRequested
    ensures !EntersAsking(s, StepStanding(s, t, cfg)) && !EntersAsking(s, StepUnconfirmed(s, t, cfg))
  {
  }

  lemma StopAsksRight(s: EpisodeState, t: Tick, cfg: EpisodeConfig)
    requires AgedSound(s, t) && s.phase == StopRequested
    ensures var r := StepStop(s, t, cfg); EntersAsking(s, r) ==> AsksRight(s, r, cfg)
  {
    if Closedish(Seen(t, cfg)) {
      assert StepStop(s, t, cfg) == StepClosed(s, t, cfg);
    } else if t.action == Open && !s.emergency {
      ResumeAsksRight(s, t, cfg);
    } else {
      StandingNeverEnters(s, t, cfg);
      StandingNeverEnters(s.(unknownDwell := 0.0), t, cfg);
    }
  }

  /** Over every run: entering a request or a stop rings exactly when the episode has room. */
  lemma EntryRingsExactly(s: EpisodeState, ticks: seq<Tick>, cfg: EpisodeConfig, i: nat)
    requires Sound(s) && i < |ticks| && EntersAsking(Before(s, ticks, cfg, i), Run(s, ticks, cfg)[i])
    ensures AsksRight(Before(s, ticks, cfg, i), Run(s, ticks, cfg)[i], cfg)
  {
    var p, t := Before(s, ticks, cfg, i), ticks[i];
    var st := Aged(p, t, cfg);
    SoundBefore(s, ticks, cfg, i);
    RunSteps(s, ticks, cfg, i);
    match st.phase {
      case PhaseIdle => IdleAsksRight(st, t, cfg);
      case Cooldown => CooldownAsksRight(st, t, cfg);
      case Requested => RequestedAsksRight(st, t, cfg);
      case Ventilating => VentilatingAsksRight(st, t, cfg);
      case StopRequested => StopAsksRight(st, t, cfg);
    }
  }

  /** A standing request or stop rings again exactly when both quotas have room and the reminder
      clock is due; a first step up to protection rings regardless. */
  lemma ReminderRingsExactly(s: EpisodeState, t: Tick, cfg: EpisodeConfig)
    requires Sound(s) && (s.phase == Requested || s.phase == StopRequested)
    requires EpisodeStep(s, t, cfg).state.phase == s.phase
    ensures RingsRight(s, t, EpisodeStep(s, t, cfg), cfg)
  {
    if s.phase == Requested {
      RequestRingsRight(s, t, cfg);
    } else {
      StopRingsRight(s, t, cfg);
    }
  }
}
