/** What an episode keeps count of, and what a tick says beside its advice. */
module VentBookkeeping {
  import opened Options
  import opened VentRules
  import opened VentEpisode
  import opened VentRuns
  import opened VentInvariants

  // ----- The clock -----

  /** A tick counts its own length, but never less than nothing nor more than the cap. */
  lemma TickLength(t: Tick, cfg: EpisodeConfig)
    ensures 0.0 <= t.dt <= cfg.maxTick ==> TickMinutes(t, cfg) == t.dt
    ensures t.dt < 0.0 <= cfg.maxTick ==> TickMinutes(t, cfg) == 0.0
    ensures cfg.maxTick < t.dt || cfg.maxTick < 0.0 ==> TickMinutes(t, cfg) == cfg.maxTick
  {
  }

  // ----- What is said of a silent tick -----

  /** An idle tick repeats the table's reason without alarm and names why nothing is to be done; a
      discouragement is the table's own; neither rings, and no other tick names such a cause. */
  predicate SpeaksFor(t: Tick, r: EpisodeResult) {
    && (r.action == Discourage ==> t.action == Discourage && r.reason == t.reason && r.level == t.level && !r.prompt)
    && (r.action == Idle ==> r.reason == t.reason && r.level == LevelOk && !r.prompt)
    && (r.action != Idle ==> r.idleCause == NoCause)
    && (r.action == Idle ==>
          r.idleCause ==
          if r.state.phase == Cooldown then CauseCooldown
          else if t.reason == NoData then CauseNoData
          else if t.roomOverSafe && t.coolEdgeProtected then FabricHeated
          else if t.roomOverSafe && !t.outsideDrier then OutsideNotDrier
          else AllGood)
    && r.pending == r.state.pending
  }

  lemma IdleSpeaks(s: EpisodeState, t: Tick, cfg: EpisodeConfig)
    requires s.phase == PhaseIdle
    ensures SpeaksFor(t, StepIdle(s, t, cfg))
  {
  }

  lemma CooldownSpeaks(s: EpisodeState, t: Tick, cfg: EpisodeConfig)
    requires s.phase == Cooldown
    ensures SpeaksFor(t, StepCooldown(s, t, cfg))
  {
    var st := s.(pending := if t.action == Open then t.reason else NoReason);
    if CooldownOver(st, t) {
      IdleSpeaks(Rested(st), t, cfg);
    }
  }

  lemma RequestedSpeaks(s: EpisodeState, t: Tick, cfg: EpisodeConfig)
    ensures SpeaksFor(t, StepRequested(s, t, cfg))
  {
  }

  lemma VentilatingSpeaks(s: EpisodeState, t: Tick, cfg: EpisodeConfig)
    ensures SpeaksFor(t, StepVentilating(s, t, cfg))
  {
  }

  lemma StandingSpeaks(s: EpisodeState, t: Tick, cfg: EpisodeConfig)
    ensures SpeaksFor(t, StepStanding(s, t, cfg))
  {
  }

  lemma UnconfirmedSpeaks(s: EpisodeState, t: Tick, cfg: EpisodeConfig)
    ensures SpeaksFor(t, StepUnconfirmed(s, t, cfg))
  {
    StandingSpeaks(s.(unknownDwell := s.unknownDwell + TickMinutes(t, cfg)), t, cfg);
  }

  lemma ClosedSpeaks(s: EpisodeState, t: Tick, cfg: EpisodeConfig)
    ensures SpeaksFor(t, StepClosed(s, t, cfg))
  {
  }

  lemma ResumeSpeaks(s: EpisodeState, t: Tick, cfg: EpisodeConfig)
    requires t.action == Open && !s.emergency
    ensures SpeaksFor(t, StepResume(s, t, cfg))
  {
  }

  lemma StopSpeaks(s: EpisodeState, t: Tick, cfg: EpisodeConfig)
    ensures SpeaksFor(t, StepStop(s, t, cfg))
  {
    if Closedish(Seen(t, cfg)) {
      ClosedSpeaks(s, t, cfg);
    } else if t.action == Open && !s.emergency {
      ResumeSpeaks(s, t, cfg);
    } else if Seen(t, cfg) == Unknown && ResolverQuiet(t) {
      UnconfirmedSpeaks(s, t, cfg);
    } else {
      StandingSpeaks(s.(unknownDwell := 0.0), t, cfg);
    }
  }

  /** Over every run each tick speaks for the table's silence or not at all. */
  lemma SilenceIsExplained(s: EpisodeState, ticks: seq<Tick>, cfg: EpisodeConfig, i: nat)
    requires i < |ticks|
    ensures SpeaksFor(ticks[i], Run(s, ticks, cfg)[i])
  {
    var t := ticks[i];
    var st := Aged(Before(s, ticks, cfg, i), t, cfg);
    RunSteps(s, ticks, cfg, i);
    match st.phase {
      case PhaseIdle => IdleSpeaks(st, t, cfg);
      case Cooldown => CooldownSpeaks(st, t, cfg);
      case Requested => RequestedSpeaks(st, t, cfg);
      case Ventilating => VentilatingSpeaks(st, t, cfg);
      case StopRequested => StopSpeaks(st, t, cfg);
    }
  }

  // ----- A machine at rest -----

  /** At rest nothing is carried, counted or latched; only a quiet time has a length and a scope. */
  ghost predicate Tidy(s: EpisodeState) {
    && (s.phase == PhaseIdle ==>
          s.reason == NoReason && s.owner == NoReason && s.level == LevelOk && s.prompts == 0 && s.pending == NoReason)
    && (s.phase != StopRequested ==> !s.emergency)
    && (s.phase != Cooldown ==> s.cooldownFor == 0.0 && s.cooldownScope == NoReason)
  }

  /** A fresh zone is tidy, has had no episode and rung no bell, and its clocks stand at nothing. */
  lemma FreshZoneIsTidy()
    ensures var s := FRESH_STATE;
            && Tidy(s) && s.phase == PhaseIdle && s.episodeId == 0 && s.episodePrompts == 0 && s.escalations == 0
            && !s.isProtected && !s.openedSeen && !s.entryInferred && s.phaseMin == 0.0 && s.unknownDwell == 0.0
  {
  }

  lemma IdleStaysTidy(s: EpisodeState, t: Tick, cfg: EpisodeConfig)
    requires Tidy(s) && s.phase == PhaseIdle
    ensures Tidy(StepIdle(s, t, cfg).state)
  {
  }

  lemma CooldownStaysTidy(s: EpisodeState, t: Tick, cfg: EpisodeConfig)
    requires Tidy(s) && s.phase == Cooldown
    ensures Tidy(StepCooldown(s, t, cfg).state)
  {
    var st := s.(pending := if t.action == Open then t.reason else NoReason);
    if CooldownOver(st, t) {
      IdleStaysTidy(Rested(st), t, cfg);
    }
  }

  lemma AskToStopStaysTidy(s: EpisodeState, why: Reason, emergency: bool, level: Level, t: Tick, cfg: EpisodeConfig)
    requires Tidy(s) && (s.phase == Requested || s.phase == Ventilating)
    ensures Tidy(AskToStop(s, why, emergency, level, t, cfg).state)
  {
  }

  lemma RequestedStaysTidy(s: EpisodeState, t: Tick, cfg: EpisodeConfig)
    requires Tidy(s) && s.phase == Requested && s.pending == NoReason
    ensures Tidy(StepRequested(s, t, cfg).state)
  {
    if Openish(Seen(t, cfg)) && t.action == Close {
      AskToStopStaysTidy(s, t.reason, ProtectionAbort(t), t.level, t, cfg);
    } else if t.action != Open && !Closedish(Seen(t, cfg)) {
      AskToStopStaysTidy(s, AiringDone, false, LevelOk, t, cfg);
    }
  }

  lemma VentilatingStaysTidy(s: EpisodeState, t: Tick, cfg: EpisodeConfig)
    requires Tidy(s) && s.phase == Ventilating
    ensures Tidy(StepVentilating(s, t, cfg).state)
  {
  }

  lemma StandingStaysTidy(s: EpisodeState, t: Tick, cfg: EpisodeConfig)
    requires Tidy(s) && s.phase == StopRequested
    ensures Tidy(StepStanding(s, t, cfg).state)
  {
  }

  lemma UnconfirmedStaysTidy(s: EpisodeState, t: Tick, cfg: EpisodeConfig)
    requires Tidy(s) && s.phase == StopRequested
    ensures Tidy(StepUnconfirmed(s, t, cfg).state)
  {
    StandingStaysTidy(s.(unknownDwell := s.unknownDwell + TickMinutes(t, cfg)), t, cfg);
  }

  lemma ClosedStaysTidy(s: EpisodeState, t: Tick, cfg: EpisodeConfig)
    requires Tidy(s) && s.phase == StopRequested
    ensures Tidy(StepClosed(s, t, cfg).state)
  {
  }

  lemma ResumeStaysTidy(s: EpisodeState, t: Tick, cfg: EpisodeConfig)
    requires Tidy(s) && s.phase == StopRequested
    requires t.action == Open && !s.emergency
    ensures Tidy(StepResume(s, t, cfg).state)
  {
  }

  lemma StopStaysTidy(s: EpisodeState, t: Tick, cfg: EpisodeConfig)
    requires Tidy(s) && s.phase == StopRequested
    ensures Tidy(StepStop(s, t, cfg).state)
  {
    if Closedish(Seen(t, cfg)) {
      ClosedStaysTidy(s, t, cfg);
    } else if t.action == Open && !s.emergency {
      ResumeStaysTidy(s, t, cfg);
    } else if Seen(t, cfg) == Unknown && ResolverQuiet(t) {
      UnconfirmedStaysTidy(s, t, cfg);
    } else {
      StandingStaysTidy(s.(unknownDwell := 0.0), t, cfg);
    }
  }

  /** Over every run from a fresh zone the machine leaves nothing behind. */
  lemma {:induction false} RunsStayTidy(ticks: seq<Tick>, cfg: EpisodeConfig, i: nat)
    requires i <= |ticks|
    ensures Tidy(Before(FRESH_STATE, ticks, cfg, i))
    decreases i
  {
    if i > 0 {
      var p, t := Before(FRESH_STATE, ticks, cfg, i - 1), ticks[i - 1];
      RunsStayTidy(ticks, cfg, i - 1);
      RunSteps(FRESH_STATE, ticks, cfg, i - 1);
      FreshNotes(ticks, cfg, i - 1);
      TidyStep(p, t, cfg);
    }
  }

  /** Only a rest keeps a note of what is still wanted. */
  lemma FreshNotes(ticks: seq<Tick>, cfg: EpisodeConfig, i: nat)
    requires i <= |ticks|
    ensures var p := Before(FRESH_STATE, ticks, cfg, i); p.pending != NoReason ==> p.phase == Cooldown
  {
    OrderlyBefore(FRESH_STATE, ticks, cfg, i);
  }

  lemma TidyStep(p: EpisodeState, t: Tick, cfg: EpisodeConfig)
    requires Tidy(p) && (p.pending != NoReason ==> p.phase == Cooldown)
    ensures Tidy(EpisodeStep(p, t, cfg).state)
  {
    var st := Aged(p, t, cfg);
    match st.phase {
      case PhaseIdle => IdleStaysTidy(st, t, cfg);
      case Cooldown => CooldownStaysTidy(st, t, cfg);
      case Requested => RequestedStaysTidy(st, t, cfg);
      case Ventilating => VentilatingStaysTidy(st, t, cfg);
      case StopRequested => StopStaysTidy(st, t, cfg);
    }
  }

  lemma CooldownLeavesNothing(s: EpisodeState, t: Tick, cfg: EpisodeConfig)
    requires s.phase == Cooldown && StepCooldown(s, t, cfg).state.phase == PhaseIdle
    ensures var r := StepCooldown(s, t, cfg).state;
            !r.isProtected && !r.entryInferred && r.episodePrompts == 0 && r.phaseMin == 0.0 && r.unknownDwell == 0.0
  {
  }

  /** Over every run a quiet time that ends in silence takes the counts of its episode along. */
  lemma RestLeavesNothing(s: EpisodeState, ticks: seq<Tick>, cfg: EpisodeConfig, i: nat)
    requires i < |ticks| && Before(s, ticks, cfg, i).phase == Cooldown && Run(s, ticks, cfg)[i].state.phase == PhaseIdle
    ensures var r := Run(s, ticks, cfg)[i].state;
            !r.isProtected && !r.entryInferred && r.episodePrompts == 0 && r.phaseMin == 0.0 && r.unknownDwell == 0.0
  {
    RunSteps(s, ticks, cfg, i);
    CooldownLeavesNothing(Aged(Before(s, ticks, cfg, i), ticks[i], cfg), ticks[i], cfg);
  }

  // ----- The bells counted -----

  /** Inside a phase every reminder counts in its quota and in the ceiling, and nothing else does;
      entering a phase with a bell starts its quota at one. */
  predicate CountsBells(s: EpisodeState, t: Tick, r: EpisodeResult) {
    var rung := if r.state.episodeId == s.episodeId then s.episodePrompts else 0;
    && (EntersAsking(s, r) && r.prompt ==> r.state.prompts == 1 && r.state.episodePrompts == rung + 1)
    && (EntersAsking(s, r) && !r.prompt ==> r.state.episodePrompts == rung)
    && (r.state.phase == s.phase == Requested ==>
          && r.state.prompts == s.prompts + (if r.prompt then 1 else 0)
          && r.state.episodePrompts == s.episodePrompts + if r.prompt then 1 else 0)
    && (r.state.phase == s.phase == StopRequested ==>
          var steps := r.prompt && !(ProtectionAbort(t) && !s.emergency);
          && r.state.prompts == s.prompts + (if steps then 1 else 0)
          && r.state.episodePrompts == s.episodePrompts + (if steps then 1 else 0)
          && r.state.escalations == s.escalations + if r.prompt && !steps then 1 else 0)
  }

  lemma IdleCountsBells(s: EpisodeState, t: Tick, cfg: EpisodeConfig)
    requires s.phase == PhaseIdle
    ensures var r := StepIdle(s, t, cfg);
            CountsBells(s, t, r) && (EntersAsking(s, r) ==> r.state.episodeId == s.episodeId + 1)
  {
  }

  lemma CooldownCountsBells(s: EpisodeState, t: Tick, cfg: EpisodeConfig)
    requires s.phase == Cooldown
    ensures CountsBells(s, t, StepCooldown(s, t, cfg))
  {
    var st := s.(pending := if t.action == Open then t.reason else NoReason);
    if CooldownOver(st, t) {
      IdleCountsBells(Rested(st), t, cfg);
    }
  }

  lemma AskToStopCountsBells(s: EpisodeState, why: Reason, emergency: bool, level: Level, t: Tick, cfg: EpisodeConfig)
    requires s.phase == Requested || s.phase == Ventilating
    ensures CountsBells(s, t, AskToStop(s, why, emergency, level, t, cfg))
  {
  }

  lemma RequestedCountsBells(s: EpisodeState, t: Tick, cfg: EpisodeConfig)
    requires s.phase == Requested
    ensures CountsBells(s, t, StepRequested(s, t, cfg))
  {
    if Openish(Seen(t, cfg)) && t.action == Close {
      AskToStopCountsBells(s, t.reason, ProtectionAbort(t), t.level, t, cfg);
    } else if t.action != Open && !Closedish(Seen(t, cfg)) {
      AskToStopCountsBells(s, AiringDone, false, LevelOk, t, cfg);
    }
  }

  lemma VentilatingCountsBells(s: EpisodeState, t: Tick, cfg: EpisodeConfig)
    requires s.phase == Ventilating
    ensures CountsBells(s, t, StepVentilating(s, t, cfg))
  {
    if !Closedish(Seen(t, cfg)) && t.action == Close {
      AskToStopCountsBells(s, t.reason, ProtectionAbort(t), t.level, t, cfg);
    } else if !Closedish(Seen(t, cfg)) && t.action != Open {
      AskToStopCountsBells(s, AiringDone, false, LevelOk, t, cfg);
    }
  }

  lemma StandingCountsBells(s: EpisodeState, t: Tick, cfg: EpisodeConfig)
    requires s.phase == StopRequested
    ensures CountsBells(s, t, StepStanding(s, t, cfg))
  {
  }

  lemma UnconfirmedCountsBells(s: EpisodeState, t: Tick, cfg: EpisodeConfig)
    requires s.phase == StopRequested
    ensures CountsBells(s, t, StepUnconfirmed(s, t, cfg))
  {
    var st := s.(unknownDwell := s.unknownDwell + TickMinutes(t, cfg));
    if st.unknownDwell < cfg.unknownStopRelease {
      StandingCountsBells(st, t, cfg);
    } else {
      assert StepUnconfirmed(s, t, cfg).state.phase == Cooldown;
    }
  }

  lemma ClosedCountsBells(s: EpisodeState, t: Tick, cfg: EpisodeConfig)
    requires s.phase == StopRequested
    ensures CountsBells(s, t, StepClosed(s, t, cfg))
  {
  }

  lemma ResumeCountsBells(s: EpisodeState, t: Tick, cfg: EpisodeConfig)
    requires s.phase == StopRequested
    requires t.action == Open && !s.emergency
    ensures CountsBells(s, t, StepResume(s, t, cfg))
  {
  }

  lemma StopCountsBells(s: EpisodeState, t: Tick, cfg: EpisodeConfig)
    requires s.phase == StopRequested
    ensures CountsBells(s, t, StepStop(s, t, cfg))
  {
    if Closedish(Seen(t, cfg)) {
      ClosedCountsBells(s, t, cfg);
    } else if t.action == Open && !s.emergency {
      ResumeCountsBells(s, t, cfg);
    } else if Seen(t, cfg) == Unknown && ResolverQuiet(t) {
      UnconfirmedCountsBells(s, t, cfg);
    } else {
      StandingCountsBells(s.(unknownDwell := 0.0), t, cfg);
    }
  }

  /** Over every run the quota of a phase and the ceiling of an episode count exactly the bells. */
  lemma BellsAreCounted(s: EpisodeState, ticks: seq<Tick>, cfg: EpisodeConfig, i: nat)
    requires i < |ticks|
    ensures CountsBells(Before(s, ticks, cfg, i), ticks[i], Run(s, ticks, cfg)[i])
  {
    var p, t := Before(s, ticks, cfg, i), ticks[i];
    var st := Aged(p, t, cfg);
    RunSteps(s, ticks, cfg, i);
    match st.phase {
      case PhaseIdle => IdleCountsBells(st, t, cfg);
      case Cooldown => CooldownCountsBells(st, t, cfg);
      case Requested => RequestedCountsBells(st, t, cfg);
      case Ventilating => VentilatingCountsBells(st, t, cfg);
      case StopRequested => StopCountsBells(st, t, cfg);
    }
  }

  // ----- How long a stop has gone unconfirmed -----

  /** A tick on which a stop can be let go: nobody knows the window, and the table asks for no close
      nor for an opening against mould. */
  predicate Unconfirmed(t: Tick, cfg: EpisodeConfig) {
    && !ReadsOpen(t, cfg) && !ReadsClosed(t, cfg) && t.action != Close
    && (t.action == Open ==> t.reason != MoldRisk)
  }

  /** A stop that stands counts the minutes of the unbroken unconfirmed ticks, its first tick excepted. */
  predicate CountsUnconfirmed(s: EpisodeState, t: Tick, r: EpisodeState, cfg: EpisodeConfig) {
    r.phase == StopRequested ==>
      r.unknownDwell ==
      if s.phase == StopRequested && Unconfirmed(t, cfg) then s.unknownDwell + TickMinutes(t, cfg) else 0.0
  }

  lemma StopCountsUnconfirmed(s: EpisodeState, t: Tick, cfg: EpisodeConfig)
    requires s.phase == StopRequested
    ensures CountsUnconfirmed(s, t, StepStop(s, t, cfg).state, cfg)
  {
    ReadingsAreTakenFor(t, cfg);
  }

  /** Over every run. */
  lemma UnconfirmedIsCounted(s: EpisodeState, ticks: seq<Tick>, cfg: EpisodeConfig, i: nat)
    requires i < |ticks|
    ensures CountsUnconfirmed(Before(s, ticks, cfg, i), ticks[i], Run(s, ticks, cfg)[i].state, cfg)
  {
    var p, t := Before(s, ticks, cfg, i), ticks[i];
    var st := Aged(p, t, cfg);
    RunSteps(s, ticks, cfg, i);
    match st.phase {
      case StopRequested => StopCountsUnconfirmed(st, t, cfg);
      case PhaseIdle => EntryCountsNothing(st, t, cfg);
      case Cooldown => CooldownCountsNothing(st, t, cfg);
      case Requested => RequestedCountsNothing(st, t, cfg);
      case Ventilating => VentilatingCountsNothing(st, t, cfg);
    }
  }

  lemma EntryCountsNothing(s: EpisodeState, t: Tick, cfg: EpisodeConfig)
    requires s.phase == PhaseIdle
    ensures var r := StepIdle(s, t, cfg).state; r.phase == StopRequested ==> r.unknownDwell == 0.0
  {
  }

  lemma CooldownCountsNothing(s: EpisodeState, t: Tick, cfg: EpisodeConfig)
    requires s.phase == Cooldown
    ensures var r := StepCooldown(s, t, cfg).state; r.phase == StopRequested ==> r.unknownDwell == 0.0
  {
    var st := s.(pending := if t.action == Open then t.reason else NoReason);
    if CooldownOver(st, t) {
      EntryCountsNothing(Rested(st), t, cfg);
    }
  }

  lemma RequestedCountsNothing(s: EpisodeState, t: Tick, cfg: EpisodeConfig)
    ensures var r := StepRequested(s, t, cfg).state;
            s.phase == Requested && r.phase == StopRequested ==> r.unknownDwell == 0.0
  {
  }

  lemma VentilatingCountsNothing(s: EpisodeState, t: Tick, cfg: EpisodeConfig)
    ensures var r := StepVentilating(s, t, cfg).state;
            s.phase == Ventilating && r.phase == StopRequested ==> r.unknownDwell == 0.0
  {
  }

  // ----- Marks of an entry -----

  /** An airing or a stop just entered is marked as inferred exactly when its opening was. */
  predicate MarksInference(s: EpisodeState, t: Tick, r: EpisodeState, cfg: EpisodeConfig) {
    (r.phase == Ventilating || r.phase == StopRequested) && s.phase != r.phase ==>
      (r.entryInferred <==> t.window == LikelyOpen && ReadsOpen(t, cfg))
  }

  lemma IdleMarks(s: EpisodeState, t: Tick, cfg: EpisodeConfig)
    requires s.phase == PhaseIdle
    ensures MarksInference(s, t, StepIdle(s, t, cfg).state, cfg)
  {
    ReadingsAreTakenFor(t, cfg);
  }

  lemma CooldownMarks(s: EpisodeState, t: Tick, cfg: EpisodeConfig)
    requires s.phase == Cooldown
    ensures MarksInference(s, t, StepCooldown(s, t, cfg).state, cfg)
  {
    var st := s.(pending := if t.action == Open then t.reason else NoReason);
    if CooldownOver(st, t) {
      IdleMarks(Rested(st), t, cfg);
    }
  }

  lemma RequestedMarks(s: EpisodeState, t: Tick, cfg: EpisodeConfig)
    requires s.phase == Requested
    ensures MarksInference(s, t, StepRequested(s, t, cfg).state, cfg)
  {
    ReadingsAreTakenFor(t, cfg);
  }

  lemma VentilatingMarks(s: EpisodeState, t: Tick, cfg: EpisodeConfig)
    requires s.phase == Ventilating
    ensures MarksInference(s, t, StepVentilating(s, t, cfg).state, cfg)
  {
    ReadingsAreTakenFor(t, cfg);
  }

  lemma StopMarks(s: EpisodeState, t: Tick, cfg: EpisodeConfig)
    requires s.phase == StopRequested
    ensures MarksInference(s, t, StepStop(s, t, cfg).state, cfg)
  {
    ReadingsAreTakenFor(t, cfg);
    if !Closedish(Seen(t, cfg)) && t.action == Open && !s.emergency {
      assert MarksInference(s, t, StepResume(s, t, cfg).state, cfg);
    }
  }

  /** Over every run. */
  lemma InferenceIsMarked(s: EpisodeState, ticks: seq<Tick>, cfg: EpisodeConfig, i: nat)
    requires i < |ticks|
    ensures MarksInference(Before(s, ticks, cfg, i), ticks[i], Run(s, ticks, cfg)[i].state, cfg)
  {
    var p, t := Before(s, ticks, cfg, i), ticks[i];
    var st := Aged(p, t, cfg);
    RunSteps(s, ticks, cfg, i);
    match st.phase {
      case PhaseIdle => IdleMarks(st, t, cfg);
      case Cooldown => CooldownMarks(st, t, cfg);
      case Requested => RequestedMarks(st, t, cfg);
      case Ventilating => VentilatingMarks(st, t, cfg);
      case StopRequested => StopMarks(st, t, cfg);
    }
  }
}
