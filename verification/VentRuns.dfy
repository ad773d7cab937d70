/** What the ventilation episode keeps over every run of ticks. */
module VentRuns {
  import opened Options
  import opened VentRules
  import opened VentEpisode

  // ----- The emergency latch -----

  /** The latch stands only in a stop request that carries a protection close, and while an
      episode runs the sticky flag alone decides which prompt budget it draws on. */
  ghost predicate Sound(s: EpisodeState) {
    && (s.emergency ==> s.phase == StopRequested && ProtectionClose(s.reason))
    && (s.phase != PhaseIdle && EpisodeProtected(s) ==> s.isProtected)
  }

  /** A state that has been aged by tick `t`: protection named on the tick is remembered. */
  ghost predicate AgedSound(s: EpisodeState, t: Tick) {
    Sound(s) && (s.phase != PhaseIdle && (IsProtection(t.reason) || s.emergency) ==> s.isProtected)
  }

  lemma IdleKeepsSound(s: EpisodeState, t: Tick, cfg: EpisodeConfig)
    requires AgedSound(s, t) && s.phase == PhaseIdle
    ensures Sound(StepIdle(s, t, cfg).state)
  {
  }

  lemma CooldownKeepsSound(s: EpisodeState, t: Tick, cfg: EpisodeConfig)
    requires AgedSound(s, t) && s.phase == Cooldown
    ensures Sound(StepCooldown(s, t, cfg).state)
  {
    IdleKeepsSound(Rested(s.(pending := if t.action == Open then t.reason else NoReason)), t, cfg);
  }

  lemma StandingKeepsSound(s: EpisodeState, t: Tick, cfg: EpisodeConfig)
    requires AgedSound(s, t) && s.phase == StopRequested
    ensures Sound(StepStanding(s, t, cfg).state)
  {
  }

  lemma UnconfirmedKeepsSound(s: EpisodeState, t: Tick, cfg: EpisodeConfig)
    requires AgedSound(s, t) && s.phase == StopRequested
    ensures Sound(StepUnconfirmed(s, t, cfg).state)
  {
    StandingKeepsSound(s.(unknownDwell := s.unknownDwell + TickMinutes(t, cfg)), t, cfg);
  }

  lemma ResumeKeepsSound(s: EpisodeState, t: Tick, cfg: EpisodeConfig)
    requires AgedSound(s, t) && s.phase == StopRequested && !s.emergency
    ensures Sound(StepResume(s, t, cfg).state)
  {
  }

  lemma StopKeepsSound(s: EpisodeState, t: Tick, cfg: EpisodeConfig)
    requires AgedSound(s, t) && s.phase == StopRequested
    ensures Sound(StepStop(s, t, cfg).state)
  {
    if Closedish(Seen(t, cfg)) {
      assert Sound(StepClosed(s, t, cfg).state);
    } else if t.action == Open && !s.emergency {
      ResumeKeepsSound(s, t, cfg);
    } else {
      UnconfirmedKeepsSound(s, t, cfg);
      StandingKeepsSound(s.(unknownDwell := 0.0), t, cfg);
    }
  }

  lemma AskToStopKeepsSound(s: EpisodeState, why: Reason, emergency: bool, level: Level, t: Tick, cfg: EpisodeConfig)
    requires AgedSound(s, t) && s.phase != PhaseIdle
    requires emergency ==> ProtectionClose(why)
    requires IsProtection(why) ==> s.isProtected
    ensures Sound(AskToStop(s, why, emergency, level, t, cfg).state)
  {
  }

  lemma RequestedKeepsSound(s: EpisodeState, t: Tick, cfg: EpisodeConfig)
    requires AgedSound(s, t) && s.phase == Requested
    ensures Sound(StepRequested(s, t, cfg).state)
  {
    if t.action == Close && Openish(Seen(t, cfg)) {
      AskToStopKeepsSound(s, t.reason, ProtectionAbort(t), t.level, t, cfg);
    } else if t.action != Open && !Closedish(Seen(t, cfg)) {
      AskToStopKeepsSound(s, AiringDone, false, LevelOk, t, cfg);
    }
  }

  lemma VentilatingKeepsSound(s: EpisodeState, t: Tick, cfg: EpisodeConfig)
    requires AgedSound(s, t) && s.phase == Ventilating
    ensures Sound(StepVentilating(s, t, cfg).state)
  {
    if !Closedish(Seen(t, cfg)) && t.action == Close {
      AskToStopKeepsSound(s, t.reason, ProtectionAbort(t), t.level, t, cfg);
    } else if !Closedish(Seen(t, cfg)) && t.action != Open {
      AskToStopKeepsSound(s, AiringDone, false, LevelOk, t, cfg);
    }
  }

  lemma StepKeepsSound(s: EpisodeState, t: Tick, cfg: EpisodeConfig)
    requires Sound(s)
    ensures Sound(EpisodeStep(s, t, cfg).state)
  {
    var st := Aged(s, t, cfg);
    match st.phase {
      case PhaseIdle => IdleKeepsSound(st, t, cfg);
      case Cooldown => CooldownKeepsSound(st, t, cfg);
      case Requested => RequestedKeepsSound(st, t, cfg);
      case Ventilating => VentilatingKeepsSound(st, t, cfg);
      case StopRequested => StopKeepsSound(st, t, cfg);
    }
  }

  /** What one tick may publish, given whether the latch stood before it. */
  ghost predicate TickIsHonest(s: EpisodeState, t: Tick, r: EpisodeResult) {
    && (s.emergency ==> (r.state.phase == Cooldown && (r.action == Idle || r.action == Discourage))
                        || (r.state.emergency && r.action == Close && ProtectionClose(r.reason)))
    && (r.action == Open ==> t.action == Open && r.reason == t.reason && !r.state.emergency)
    && (t.action == Open && r.action == Close ==> s.emergency)
    && (r.state.emergency ==> r.action == Close && r.reason == r.state.reason)
  }

  lemma StandingIsHonest(s: EpisodeState, t: Tick, cfg: EpisodeConfig)
    requires AgedSound(s, t) && s.phase == StopRequested && (t.action == Open ==> s.emergency)
    ensures TickIsHonest(s, t, StepStanding(s, t, cfg))
  {
  }

  lemma UnconfirmedIsHonest(s: EpisodeState, t: Tick, cfg: EpisodeConfig)
    requires AgedSound(s, t) && s.phase == StopRequested && (t.action == Open ==> s.emergency)
    ensures TickIsHonest(s, t, StepUnconfirmed(s, t, cfg))
  {
    var st := s.(unknownDwell := s.unknownDwell + TickMinutes(t, cfg));
    if st.unknownDwell < cfg.unknownStopRelease {
      StandingIsHonest(st, t, cfg);
    }
  }

  lemma StopIsHonest(s: EpisodeState, t: Tick, cfg: EpisodeConfig)
    requires AgedSound(s, t) && s.phase == StopRequested
    ensures TickIsHonest(s, t, StepStop(s, t, cfg))
  {
    if Closedish(Seen(t, cfg)) {
      assert TickIsHonest(s, t, StepClosed(s, t, cfg));
    } else if t.action == Open && !s.emergency {
      assert TickIsHonest(s, t, StepResume(s, t, cfg));
    } else {
      UnconfirmedIsHonest(s, t, cfg);
      StandingIsHonest(s.(unknownDwell := 0.0), t, cfg);
    }
  }

  lemma RequestedIsHonest(s: EpisodeState, t: Tick, cfg: EpisodeConfig)
    requires AgedSound(s, t) && s.phase == Requested
    ensures TickIsHonest(s, t, StepRequested(s, t, cfg))
  {
  }

  lemma StepIsHonest(s: EpisodeState, t: Tick, cfg: EpisodeConfig)
    requires Sound(s)
    ensures TickIsHonest(s, t, EpisodeStep(s, t, cfg))
  {
    var st := Aged(s, t, cfg);
    match st.phase {
      case PhaseIdle => assert TickIsHonest(st, t, StepIdle(st, t, cfg));
      case Cooldown => assert TickIsHonest(st, t, StepCooldown(st, t, cfg));
      case Requested => RequestedIsHonest(st, t, cfg);
      case Ventilating => assert TickIsHonest(st, t, StepVentilating(st, t, cfg));
      case StopRequested => StopIsHonest(st, t, cfg);
    }
  }

  /** The state a run is in before tick i. */
  function Before(s: EpisodeState, ticks: seq<Tick>, cfg: EpisodeConfig, i: nat): EpisodeState
    requires i <= |ticks|
  {
    if i == 0 then s else Run(s, ticks, cfg)[i - 1].state
  }

  lemma RunShifts(s: EpisodeState, ticks: seq<Tick>, cfg: EpisodeConfig, i: nat)
    requires 0 < i < |ticks|
    ensures var r := EpisodeStep(s, ticks[0], cfg);
            Run(s, ticks, cfg)[i] == Run(r.state, ticks[1..], cfg)[i - 1] &&
            Before(s, ticks, cfg, i) == Before(r.state, ticks[1..], cfg, i - 1)
  {
  }

  /** Each result of a run is one step from the state before it. */
  lemma {:induction false} RunSteps(s: EpisodeState, ticks: seq<Tick>, cfg: EpisodeConfig, i: nat)
    requires i < |ticks|
    ensures Run(s, ticks, cfg)[i] == EpisodeStep(Before(s, ticks, cfg, i), ticks[i], cfg)
    decreases i
  {
    if i > 0 {
      RunShifts(s, ticks, cfg, i);
      RunSteps(EpisodeStep(s, ticks[0], cfg).state, ticks[1..], cfg, i - 1);
    }
  }

  lemma {:induction false} SoundBefore(s: EpisodeState, ticks: seq<Tick>, cfg: EpisodeConfig, i: nat)
    requires Sound(s) && i <= |ticks|
    ensures Sound(Before(s, ticks, cfg, i))
    decreases i
  {
    if i > 0 {
      SoundBefore(s, ticks, cfg, i - 1);
      RunSteps(s, ticks, cfg, i - 1);
      StepKeepsSound(Before(s, ticks, cfg, i - 1), ticks[i - 1], cfg);
    }
  }

  /** Over every run: the latch stands only on a protection close; while it stands every tick
      publishes that close or ends in the cooldown, never "open"; "open" is published only when
      the table says open with that reason; "close" contradicts an "open" only when latched. */
  lemma LatchOverRuns(s: EpisodeState, ticks: seq<Tick>, cfg: EpisodeConfig, i: nat)
    requires Sound(s) && i < |ticks|
    ensures var r := Run(s, ticks, cfg)[i];
            Sound(r.state) && TickIsHonest(Before(s, ticks, cfg, i), ticks[i], r)
  {
    SoundBefore(s, ticks, cfg, i);
    RunSteps(s, ticks, cfg, i);
    StepKeepsSound(Before(s, ticks, cfg, i), ticks[i], cfg);
    StepIsHonest(Before(s, ticks, cfg, i), ticks[i], cfg);
  }

  /** Once latched, the protection close stands on every tick until the quiet time begins. */
  lemma {:induction false} LatchHoldsUntilCooldown(s: EpisodeState, ticks: seq<Tick>, cfg: EpisodeConfig, i: nat)
    requires Sound(s) && s.emergency && i < |ticks|
    requires forall j :: 0 <= j <= i ==> Run(s, ticks, cfg)[j].state.phase != Cooldown
    ensures var r := Run(s, ticks, cfg)[i]; r.state.emergency && r.action == Close && ProtectionClose(r.reason)
    decreases i
  {
    if i > 0 {
      LatchHoldsUntilCooldown(s, ticks, cfg, i - 1);
    }
    LatchOverRuns(s, ticks, cfg, i);
  }

  // ----- A standing protection request -----

  predicate AsksProtection(t: Tick) {
    t.action == Open && (t.reason == MoldRisk || t.reason == MoistureProtect)
  }

  /** An unlatched machine answers a protection request, or is spending one tick on ending an
      episode; from there it answers. */
  lemma ProtectionStep(s: EpisodeState, t: Tick, cfg: EpisodeConfig)
    requires Sound(s) && !s.emergency && AsksProtection(t)
    ensures var r := EpisodeStep(s, t, cfg);
            !r.state.emergency && (r.action == Open || (s.phase != Cooldown && r.state.phase == Cooldown))
  {
  }

  /** A standing building-protection request is never lost for two ticks in a row, whatever the
      window readings, the request expiry or the cooldowns do. */
  lemma {:induction false} ProtectionIsNeverLost(s: EpisodeState, ticks: seq<Tick>, cfg: EpisodeConfig, i: nat)
    requires Sound(s) && !s.emergency && i + 1 < |ticks|
    requires forall j :: 0 <= j < |ticks| ==> AsksProtection(ticks[j])
    ensures var rs := Run(s, ticks, cfg); rs[i].action == Open || rs[i + 1].action == Open
    decreases i
  {
    var r := EpisodeStep(s, ticks[0], cfg);
    StepKeepsSound(s, ticks[0], cfg);
    ProtectionStep(s, ticks[0], cfg);
    RunShifts(s, ticks, cfg, i + 1);
    if i == 0 {
      ProtectionStep(r.state, ticks[1], cfg);
    } else {
      RunShifts(s, ticks, cfg, i);
      ProtectionIsNeverLost(r.state, ticks[1..], cfg, i - 1);
    }
  }

  // ----- Prompt budgets -----

  function PromptCount(rs: seq<EpisodeResult>, id: int): nat {
    if rs == [] then 0
    else (if rs[0].prompt && rs[0].state.episodeId == id then 1 else 0) + PromptCount(rs[1..], id)
  }

  /** Did building protection speak on a tick of episode `id`? */
  predicate Spoke(rs: seq<EpisodeResult>, ticks: seq<Tick>, id: int)
    requires |rs| == |ticks|
  {
    rs != [] && ((rs[0].state.episodeId == id && IsProtection(ticks[0].reason)) || Spoke(rs[1..], ticks[1..], id))
  }

  function Max0(a: int): nat {
    if a < 0 then 0 else a
  }

  function ComfortCap(cfg: EpisodeConfig): nat {
    Max0(cfg.maxPromptsEpisode)
  }

  function AnyCap(cfg: EpisodeConfig): nat {
    if cfg.maxPromptsEpisode < cfg.maxPromptsEpisodeProtection then Max0(cfg.maxPromptsEpisodeProtection)
    else ComfortCap(cfg)
  }

  function Limit(isProtected: bool, cfg: EpisodeConfig): nat {
    if isProtected then AnyCap(cfg) + 1 else ComfortCap(cfg)
  }

  /** The prompts of the running episode, counted in its state. */
  function Spent(s: EpisodeState): int {
    s.episodePrompts + s.escalations
  }

  ghost predicate WithinBudget(s: EpisodeState, cfg: EpisodeConfig) {
    && Sound(s)
    && (s.phase != PhaseIdle ==>
          && 0 <= s.escalations <= (if s.isProtected then 1 else 0)
          && 0 <= s.episodePrompts <= (if s.isProtected then AnyCap(cfg) else ComfortCap(cfg))
          && (s.escalations == 1 ==> s.emergency || s.phase == Cooldown))
  }

  /** How one tick's result accounts for its prompt: it is counted in the state of the episode
      it carries, protection is never forgotten inside an episode, and only a new identity
      clears the count. */
  ghost predicate Accounted(s: EpisodeState, t: Tick, r: EpisodeResult, cfg: EpisodeConfig) {
    && WithinBudget(r.state, cfg)
    && (r.state.episodeId == s.episodeId || r.state.episodeId == s.episodeId + 1)
    && (r.state.phase == PhaseIdle ==> !r.prompt && r.state.episodeId == s.episodeId)
    && (r.state.phase != PhaseIdle && r.state.episodeId == s.episodeId ==>
          && s.phase != PhaseIdle
          && Spent(r.state) == Spent(s) + (if r.prompt then 1 else 0)
          && (s.isProtected ==> r.state.isProtected)
          && (r.state.isProtected && !s.isProtected ==> IsProtection(t.reason)))
    && (r.state.episodeId != s.episodeId ==>
          && Spent(r.state) == (if r.prompt then 1 else 0)
          && (r.state.isProtected ==> IsProtection(t.reason)))
  }

  lemma IdleIsAccounted(s: EpisodeState, t: Tick, cfg: EpisodeConfig)
    requires WithinBudget(s, cfg) && AgedSound(s, t) && s.phase == PhaseIdle
    ensures Accounted(s, t, StepIdle(s, t, cfg), cfg)
  {
    IdleKeepsSound(s, t, cfg);
  }

  lemma CooldownIsAccounted(s: EpisodeState, t: Tick, cfg: EpisodeConfig)
    requires WithinBudget(s, cfg) && AgedSound(s, t) && s.phase == Cooldown
    ensures Accounted(s, t, StepCooldown(s, t, cfg), cfg)
  {
    IdleIsAccounted(Rested(s.(pending := if t.action == Open then t.reason else NoReason)), t, cfg);
  }

  /** Asking for the end of an airing, from a phase that cannot have escalated yet. */
  lemma StopIsAccounted(s: EpisodeState, why: Reason, emergency: bool, level: Level, t: Tick, cfg: EpisodeConfig)
    requires WithinBudget(s, cfg) && AgedSound(s, t) && (s.phase == Requested || s.phase == Ventilating)
    requires emergency ==> ProtectionClose(why) && s.isProtected
    requires IsProtection(why) ==> s.isProtected
    ensures Accounted(s, t, AskToStop(s, why, emergency, level, t, cfg), cfg)
  {
  }

  lemma RequestedIsAccounted(s: EpisodeState, t: Tick, cfg: EpisodeConfig)
    requires WithinBudget(s, cfg) && AgedSound(s, t) && s.phase == Requested
    ensures Accounted(s, t, StepRequested(s, t, cfg), cfg)
  {
    if t.action == Close && Openish(Seen(t, cfg)) {
      StopIsAccounted(s, t.reason, ProtectionAbort(t), t.level, t, cfg);
    } else if t.action != Open && !Closedish(Seen(t, cfg)) {
      StopIsAccounted(s, AiringDone, false, LevelOk, t, cfg);
    }
  }

  lemma VentilatingIsAccounted(s: EpisodeState, t: Tick, cfg: EpisodeConfig)
    requires WithinBudget(s, cfg) && AgedSound(s, t) && s.phase == Ventilating
    ensures Accounted(s, t, StepVentilating(s, t, cfg), cfg)
  {
    if !Closedish(Seen(t, cfg)) && t.action == Close {
      StopIsAccounted(s, t.reason, ProtectionAbort(t), t.level, t, cfg);
    } else if !Closedish(Seen(t, cfg)) && t.action != Open {
      StopIsAccounted(s, AiringDone, false, LevelOk, t, cfg);
    }
  }

  lemma StandingIsAccounted(s: EpisodeState, t: Tick, cfg: EpisodeConfig)
    requires WithinBudget(s, cfg) && AgedSound(s, t) && s.phase == StopRequested
    ensures Accounted(s, t, StepStanding(s, t, cfg), cfg)
  {
  }

  /** Changing the unknown-window timer leaves every accounted field alone. */
  lemma TimerIsNotAccounted(s: EpisodeState, u: EpisodeState, t: Tick, r: EpisodeResult, cfg: EpisodeConfig)
    requires u == s.(unknownDwell := u.unknownDwell)
    ensures WithinBudget(s, cfg) && AgedSound(s, t) ==> WithinBudget(u, cfg) && AgedSound(u, t)
    ensures Accounted(u, t, r, cfg) ==> Accounted(s, t, r, cfg)
  {
  }

  lemma SettlingIsAccounted(s: EpisodeState, length: real, scope: Reason, t: Tick, cfg: EpisodeConfig)
    requires WithinBudget(s, cfg) && AgedSound(s, t) && s.phase == StopRequested
    ensures Accounted(s, t, Quiet(Settle(s, length, scope, t), t, cfg), cfg)
  {
  }

  lemma UnconfirmedIsAccounted(s: EpisodeState, t: Tick, cfg: EpisodeConfig)
    requires WithinBudget(s, cfg) && AgedSound(s, t) && s.phase == StopRequested
    ensures Accounted(s, t, StepUnconfirmed(s, t, cfg), cfg)
  {
    var st, r := s.(unknownDwell := s.unknownDwell + TickMinutes(t, cfg)), StepUnconfirmed(s, t, cfg);
    TimerIsNotAccounted(s, st, t, r, cfg);
    if st.unknownDwell < cfg.unknownStopRelease {
      assert r == StepStanding(st, t, cfg);
      StandingIsAccounted(st, t, cfg);
    } else {
      var length := if st.emergency then cfg.cooldownEmergency else cfg.cooldownExpired;
      assert r == Quiet(Settle(st, length, NoReason, t), t, cfg);
      SettlingIsAccounted(st, length, NoReason, t, cfg);
    }
  }

  lemma ResumeIsAccounted(s: EpisodeState, t: Tick, cfg: EpisodeConfig)
    requires WithinBudget(s, cfg) && AgedSound(s, t) && s.phase == StopRequested && !s.emergency
    ensures Accounted(s, t, StepResume(s, t, cfg), cfg)
  {
  }

  lemma StopRequestedIsAccounted(s: EpisodeState, t: Tick, cfg: EpisodeConfig)
    requires WithinBudget(s, cfg) && AgedSound(s, t) && s.phase == StopRequested
    ensures Accounted(s, t, StepStop(s, t, cfg), cfg)
  {
    if Closedish(Seen(t, cfg)) {
      SettlingIsAccounted(s, if s.emergency then cfg.cooldownEmergency else cfg.cooldown,
                          if s.emergency then NoReason else s.owner, t, cfg);
    } else if t.action == Open && !s.emergency {
      ResumeIsAccounted(s, t, cfg);
    } else if Seen(t, cfg) == Unknown && ResolverQuiet(t) {
      UnconfirmedIsAccounted(s, t, cfg);
    } else {
      var cleared := s.(unknownDwell := 0.0);
      TimerIsNotAccounted(s, cleared, t, StepStop(s, t, cfg), cfg);
      StandingIsAccounted(cleared, t, cfg);
    }
  }

  lemma BudgetStep(s: EpisodeState, t: Tick, cfg: EpisodeConfig)
    requires WithinBudget(s, cfg)
    ensures Accounted(s, t, EpisodeStep(s, t, cfg), cfg)
  {
    var st := Aged(s, t, cfg);
    match st.phase {
      case PhaseIdle => IdleIsAccounted(st, t, cfg);
      case Cooldown => CooldownIsAccounted(st, t, cfg);
      case Requested => RequestedIsAccounted(st, t, cfg);
      case Ventilating => VentilatingIsAccounted(st, t, cfg);
      case StopRequested => StopRequestedIsAccounted(st, t, cfg);
    }
  }

  /** What the rest of a run can still add to episode `id`. */
  lemma {:induction false} BudgetOfRest(s: EpisodeState, ticks: seq<Tick>, cfg: EpisodeConfig, id: int)
    requires WithinBudget(s, cfg)
    ensures var rs := Run(s, ticks, cfg);
            && (id < s.episodeId || (id == s.episodeId && s.phase == PhaseIdle) ==> PromptCount(rs, id) == 0)
            && (id == s.episodeId && s.phase != PhaseIdle ==>
                  PromptCount(rs, id) + Spent(s) <= Limit(s.isProtected || Spoke(rs, ticks, id), cfg))
            && (id > s.episodeId ==> PromptCount(rs, id) <= Limit(Spoke(rs, ticks, id), cfg))
    decreases |ticks|
  {
    if ticks != [] {
      var r := EpisodeStep(s, ticks[0], cfg);
      BudgetStep(s, ticks[0], cfg);
      BudgetOfRest(r.state, ticks[1..], cfg, id);
      var rs := Run(s, ticks, cfg);
      assert rs[0] == r && rs[1..] == Run(r.state, ticks[1..], cfg);
    }
  }

  /** Over every run from a fresh zone, the prompts carrying one episode identity stay within
      the comfort ceiling unless protection spoke in it, and then within the larger ceiling
      plus the one escalation: no re-entry refills the budget. */
  lemma PromptBudget(ticks: seq<Tick>, cfg: EpisodeConfig, id: int)
    ensures var rs := Run(FRESH_STATE, ticks, cfg);
            PromptCount(rs, id) <= Limit(Spoke(rs, ticks, id), cfg)
  {
    BudgetOfRest(FRESH_STATE, ticks, cfg, id);
  }

  // ----- The doorbell never changes the truth -----

  /** Equal but for the two prompt counters. */
  predicate Alike(s: EpisodeState, u: EpisodeState) {
    && s.phase == u.phase && s.reason == u.reason && s.level == u.level && s.episodeId == u.episodeId
    && s.isProtected == u.isProtected && s.openedSeen == u.openedSeen && s.escalations == u.escalations
    && s.owner == u.owner && s.phaseMin == u.phaseMin && s.unknownDwell == u.unknownDwell
    && s.entryInferred == u.entryInferred && s.emergency == u.emergency
    && s.cooldownFor == u.cooldownFor && s.cooldownScope == u.cooldownScope && s.pending == u.pending
  }

  /** Equal but for the doorbell and the counters behind it. */
  predicate SameTruth(x: EpisodeResult, y: EpisodeResult) {
    && Alike(x.state, y.state) && x.action == y.action && x.reason == y.reason && x.level == y.level
    && x.idleCause == y.idleCause && x.seen == y.seen && x.pending == y.pending
  }

  /** Two configurations that differ at most in prompt quotas and reminder rhythm. */
  predicate SameButQuotas(a: EpisodeConfig, b: EpisodeConfig) {
    && a.requestTtl == b.requestTtl && a.windowStaleAfter == b.windowStaleAfter && a.cooldown == b.cooldown
    && a.cooldownManual == b.cooldownManual && a.cooldownExpired == b.cooldownExpired
    && a.cooldownEmergency == b.cooldownEmergency && a.unknownStopRelease == b.unknownStopRelease
    && a.maxTick == b.maxTick
  }

  lemma AskIgnoresQuotas(s: EpisodeState, u: EpisodeState, a: EpisodeConfig, b: EpisodeConfig)
    requires Alike(s, u)
    ensures Alike(Ask(s, a), Ask(u, b))
  {
  }

  lemma RemindIgnoresQuotas(s: EpisodeState, u: EpisodeState, a: EpisodeConfig, b: EpisodeConfig)
    requires Alike(s, u)
    ensures Alike(Remind(s, a), Remind(u, b))
  {
    assert Alike(s, Remind(s, a));
    assert Alike(u, Remind(u, b));
  }

  lemma PublishIgnoresQuotas(s: EpisodeState, u: EpisodeState, act: Action, r: Reason, level: Level, p: bool, q: bool,
                             t: Tick, a: EpisodeConfig, b: EpisodeConfig)
    requires Alike(s, u) && SameButQuotas(a, b)
    ensures SameTruth(Publish(s, act, r, level, p, t, a), Publish(u, act, r, level, q, t, b))
    ensures SameTruth(Quiet(s, t, a), Quiet(u, t, b))
  {
  }

  /** An opening phase entered from alike states, with or without a prompt. */
  lemma OpeningIgnoresQuotas(s: EpisodeState, u: EpisodeState, phase: Phase, t: Tick, inferred: bool,
                             a: EpisodeConfig, b: EpisodeConfig)
    requires Alike(s, u) && SameButQuotas(a, b)
    ensures var x, y := EnterOpening(s, phase, t, inferred), EnterOpening(u, phase, t, inferred);
            && Alike(x, y)
            && SameTruth(Publish(x.(prompts := 0), Open, t.reason, t.level, false, t, a),
                         Publish(y.(prompts := 0), Open, t.reason, t.level, false, t, b))
            && SameTruth(Publish(Ask(x, a), Open, t.reason, t.level, AskDue(x, a), t, a),
                         Publish(Ask(y, b), Open, t.reason, t.level, AskDue(y, b), t, b))
  {
    var x, y := EnterOpening(s, phase, t, inferred), EnterOpening(u, phase, t, inferred);
    AskIgnoresQuotas(x, y, a, b);
    PublishIgnoresQuotas(x.(prompts := 0), y.(prompts := 0), Open, t.reason, t.level, false, false, t, a, b);
    PublishIgnoresQuotas(Ask(x, a), Ask(y, b), Open, t.reason, t.level, AskDue(x, a), AskDue(y, b), t, a, b);
  }

  lemma AskToStopIgnoresQuotas(s: EpisodeState, u: EpisodeState, why: Reason, emergency: bool, level: Level, t: Tick,
                               a: EpisodeConfig, b: EpisodeConfig)
    requires Alike(s, u) && SameButQuotas(a, b)
    ensures SameTruth(AskToStop(s, why, emergency, level, t, a), AskToStop(u, why, emergency, level, t, b))
  {
  }

  lemma IdleIgnoresQuotas(s: EpisodeState, u: EpisodeState, t: Tick, a: EpisodeConfig, b: EpisodeConfig)
    requires Alike(s, u) && SameButQuotas(a, b)
    ensures SameTruth(StepIdle(s, t, a), StepIdle(u, t, b))
  {
    var seen := Seen(t, a);
    if t.action == Open {
      var phase := if Openish(seen) then Ventilating else Requested;
      OpeningIgnoresQuotas(Begin(s, t, Openish(seen)), Begin(u, t, Openish(seen)), phase, t, seen == LikelyOpen, a, b);
    } else if t.action == Close && Openish(seen) {
      var x := Stop(Begin(s, t, true), t.reason, ProtectionAbort(t), t.level, seen == LikelyOpen).(owner := NoReason);
      var y := Stop(Begin(u, t, true), t.reason, ProtectionAbort(t), t.level, seen == LikelyOpen).(owner := NoReason);
      AskIgnoresQuotas(x, y, a, b);
      PublishIgnoresQuotas(Ask(x, a), Ask(y, b), Close, t.reason, t.level, AskDue(x, a), AskDue(y, b), t, a, b);
    } else {
      PublishIgnoresQuotas(s, u, Idle, NoReason, LevelOk, false, false, t, a, b);
    }
  }

  lemma CooldownIgnoresQuotas(s: EpisodeState, u: EpisodeState, t: Tick, a: EpisodeConfig, b: EpisodeConfig)
    requires Alike(s, u) && SameButQuotas(a, b)
    ensures SameTruth(StepCooldown(s, t, a), StepCooldown(u, t, b))
  {
    var p := if t.action == Open then t.reason else NoReason;
    var x, y := s.(pending := p), u.(pending := p);
    if CooldownOver(x, t) {
      IdleIgnoresQuotas(Rested(x), Rested(y), t, a, b);
    } else {
      PublishIgnoresQuotas(x, y, Close, t.reason, t.level, false, false, t, a, b);
    }
  }

  /** Still asking, the window has not moved: expire or remind. */
  lemma WaitingIgnoresQuotas(s: EpisodeState, u: EpisodeState, t: Tick, a: EpisodeConfig, b: EpisodeConfig)
    requires Alike(s, u) && SameButQuotas(a, b)
    requires t.action == Open && !Openish(Seen(t, a))
    ensures SameTruth(StepRequested(s, t, a), StepRequested(u, t, b))
  {
    var x := s.(reason := t.reason, owner := t.reason, level := t.level);
    var y := u.(reason := t.reason, owner := t.reason, level := t.level);
    assert Alike(x, y);
    if Closedish(Seen(t, a)) && x.phaseMin >= a.requestTtl && !IsProtection(x.owner) {
      PublishIgnoresQuotas(Settle(x, a.cooldownExpired, NoReason, t), Settle(y, a.cooldownExpired, NoReason, t),
                           Open, t.reason, t.level, false, false, t, a, b);
    } else {
      RemindIgnoresQuotas(x, y, a, b);
      PublishIgnoresQuotas(Remind(x, a), Remind(y, b), Open, t.reason, t.level, PromptDue(x, a), PromptDue(y, b),
                           t, a, b);
    }
  }

  lemma RequestedIgnoresQuotas(s: EpisodeState, u: EpisodeState, t: Tick, a: EpisodeConfig, b: EpisodeConfig)
    requires Alike(s, u) && SameButQuotas(a, b)
    ensures SameTruth(StepRequested(s, t, a), StepRequested(u, t, b))
  {
    var seen := Seen(t, a);
    if t.action == Open {
      if Openish(seen) {
        OpeningIgnoresQuotas(s, u, Ventilating, t, seen == LikelyOpen, a, b);
      } else {
        WaitingIgnoresQuotas(s, u, t, a, b);
      }
    } else if t.action == Close && Openish(seen) {
      AskToStopIgnoresQuotas(s, u, t.reason, ProtectionAbort(t), t.level, t, a, b);
    } else if Closedish(seen) {
      var x := Enter(s, PhaseIdle, false).(reason := NoReason, owner := NoReason, level := LevelOk, prompts := 0);
      var y := Enter(u, PhaseIdle, false).(reason := NoReason, owner := NoReason, level := LevelOk, prompts := 0);
      PublishIgnoresQuotas(x, y, Idle, NoReason, LevelOk, false, false, t, a, b);
    } else {
      AskToStopIgnoresQuotas(s, u, AiringDone, false, LevelOk, t, a, b);
    }
  }

  lemma VentilatingIgnoresQuotas(s: EpisodeState, u: EpisodeState, t: Tick, a: EpisodeConfig, b: EpisodeConfig)
    requires Alike(s, u) && SameButQuotas(a, b)
    ensures SameTruth(StepVentilating(s, t, a), StepVentilating(u, t, b))
  {
    if Closedish(Seen(t, a)) {
      PublishIgnoresQuotas(Settle(s, a.cooldownManual, NoReason, t), Settle(u, a.cooldownManual, NoReason, t),
                           Idle, NoReason, LevelOk, false, false, t, a, b);
    } else if t.action == Close {
      AskToStopIgnoresQuotas(s, u, t.reason, ProtectionAbort(t), t.level, t, a, b);
    } else if t.action != Open {
      AskToStopIgnoresQuotas(s, u, AiringDone, false, LevelOk, t, a, b);
    }
  }

  lemma StandingIgnoresQuotas(s: EpisodeState, u: EpisodeState, t: Tick, a: EpisodeConfig, b: EpisodeConfig)
    requires Alike(s, u) && SameButQuotas(a, b)
    ensures SameTruth(StepStanding(s, t, a), StepStanding(u, t, b))
  {
    var x, y := Latched(s, t), Latched(u, t);
    assert Alike(x, y);
    if ProtectionAbort(t) && !s.emergency {
      PublishIgnoresQuotas(x.(escalations := x.escalations + 1), y.(escalations := y.escalations + 1), Close, x.reason,
                           x.level, true, true, t, a, b);
    } else {
      RemindIgnoresQuotas(x, y, a, b);
      PublishIgnoresQuotas(Remind(x, a), Remind(y, b), Close, x.reason, x.level, PromptDue(x, a), PromptDue(y, b),
                           t, a, b);
    }
  }

  lemma SettlingIgnoresQuotas(s: EpisodeState, u: EpisodeState, length: real, scope: Reason, t: Tick,
                              a: EpisodeConfig, b: EpisodeConfig)
    requires Alike(s, u) && SameButQuotas(a, b)
    ensures SameTruth(Quiet(Settle(s, length, scope, t), t, a), Quiet(Settle(u, length, scope, t), t, b))
  {
  }

  lemma UnconfirmedIgnoresQuotas(s: EpisodeState, u: EpisodeState, t: Tick, a: EpisodeConfig, b: EpisodeConfig)
    requires Alike(s, u) && SameButQuotas(a, b)
    ensures SameTruth(StepUnconfirmed(s, t, a), StepUnconfirmed(u, t, b))
  {
    var x := s.(unknownDwell := s.unknownDwell + TickMinutes(t, a));
    var y := u.(unknownDwell := u.unknownDwell + TickMinutes(t, b));
    if x.unknownDwell < a.unknownStopRelease {
      assert StepUnconfirmed(s, t, a) == StepStanding(x, t, a) && StepUnconfirmed(u, t, b) == StepStanding(y, t, b);
      StandingIgnoresQuotas(x, y, t, a, b);
    } else {
      var length := if s.emergency then a.cooldownEmergency else a.cooldownExpired;
      assert StepUnconfirmed(s, t, a) == Quiet(Settle(x, length, NoReason, t), t, a);
      assert StepUnconfirmed(u, t, b) == Quiet(Settle(y, length, NoReason, t), t, b);
      SettlingIgnoresQuotas(x, y, length, NoReason, t, a, b);
    }
  }

  lemma StopIgnoresQuotas(s: EpisodeState, u: EpisodeState, t: Tick, a: EpisodeConfig, b: EpisodeConfig)
    requires Alike(s, u) && SameButQuotas(a, b)
    ensures SameTruth(StepStop(s, t, a), StepStop(u, t, b))
  {
    var seen := Seen(t, a);
    if Closedish(seen) {
      SettlingIgnoresQuotas(s, u, if s.emergency then a.cooldownEmergency else a.cooldown,
                            if s.emergency then NoReason else s.owner, t, a, b);
    } else if t.action == Open && !s.emergency {
      OpeningIgnoresQuotas(s, u, if Openish(seen) then Ventilating else Requested, t, seen == LikelyOpen, a, b);
    } else if seen == Unknown && ResolverQuiet(t) {
      UnconfirmedIgnoresQuotas(s, u, t, a, b);
    } else {
      StandingIgnoresQuotas(s.(unknownDwell := 0.0), u.(unknownDwell := 0.0), t, a, b);
    }
  }

  lemma StepIgnoresQuotas(s: EpisodeState, u: EpisodeState, t: Tick, a: EpisodeConfig, b: EpisodeConfig)
    requires Alike(s, u) && SameButQuotas(a, b)
    ensures SameTruth(EpisodeStep(s, t, a), EpisodeStep(u, t, b))
  {
    var x, y := Aged(s, t, a), Aged(u, t, b);
    match x.phase {
      case PhaseIdle => IdleIgnoresQuotas(x, y, t, a, b);
      case Cooldown => CooldownIgnoresQuotas(x, y, t, a, b);
      case Requested => RequestedIgnoresQuotas(x, y, t, a, b);
      case Ventilating => VentilatingIgnoresQuotas(x, y, t, a, b);
      case StopRequested => StopIgnoresQuotas(x, y, t, a, b);
    }
  }

  /** Over every run, prompt quotas and reminder rhythm change only the doorbell: actions,
      reasons, severities and phases are those of any other quota setting. */
  lemma {:induction false} QuotasNeverChangeTheTruth(s: EpisodeState, u: EpisodeState, ticks: seq<Tick>,
                                                     a: EpisodeConfig, b: EpisodeConfig, i: nat)
    requires Alike(s, u) && SameButQuotas(a, b) && i < |ticks|
    ensures SameTruth(Run(s, ticks, a)[i], Run(u, ticks, b)[i])
    decreases i
  {
    StepIgnoresQuotas(s, u, ticks[0], a, b);
    if i > 0 {
      RunShifts(s, ticks, a, i);
      RunShifts(u, ticks, b, i);
      QuotasNeverChangeTheTruth(EpisodeStep(s, ticks[0], a).state, EpisodeStep(u, ticks[0], b).state,
                                ticks[1..], a, b, i - 1);
    }
  }
}
