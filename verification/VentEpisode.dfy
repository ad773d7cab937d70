/** The ventilation episode: what the user is asked to do, and when. */
module VentEpisode {
  import opened Options
  import opened VentRules

  datatype WindowState = WindowOpen | WindowClosed | LikelyOpen | LikelyClosed | Unknown

  datatype WindowSource = Contact | Slope | Bypass | NoSource

  datatype Phase = PhaseIdle | Requested | Ventilating | StopRequested | Cooldown

  datatype IdleCause = NoCause | AllGood | OutsideNotDrier | FabricHeated | CauseNoData | CauseCooldown

  datatype EpisodeConfig = EpisodeConfig(
    requestTtl: real, reminderEvery: real,
    maxPromptsPhase: int, maxPromptsPhaseProtection: int,
    maxPromptsEpisode: int, maxPromptsEpisodeProtection: int,
    windowStaleAfter: real, cooldown: real, cooldownManual: real, cooldownExpired: real,
    cooldownEmergency: real, unknownStopRelease: real, maxTick: real)

  datatype EpisodeState = EpisodeState(
    phase: Phase, reason: Reason, level: Level, episodeId: int, episodePrompts: int,
    isProtected: bool, openedSeen: bool, escalations: int, owner: Reason, phaseMin: real,
    prompts: int, unknownDwell: real, entryInferred: bool, emergency: bool,
    cooldownFor: real, cooldownScope: Reason, pending: Reason)

  /** One tick's inputs: the rule table's verbatim answer and what is known of the window. */
  datatype Tick = Tick(
    action: Action, reason: Reason, level: Level, window: WindowState, source: WindowSource,
    age: Option<real>, dt: real, coolEdgeProtected: bool, roomOverSafe: bool, outsideDrier: bool)

  datatype EpisodeResult = EpisodeResult(
    state: EpisodeState, action: Action, reason: Reason, level: Level, prompt: bool,
    idleCause: IdleCause, seen: WindowState, pending: Reason)

  const FRESH_STATE := EpisodeState(PhaseIdle, NoReason, LevelOk, 0, 0, false, false, 0, NoReason, 0.0,
                                   0, 0.0, false, false, 0.0, NoReason, NoReason)

  predicate ProtectionOpen(r: Reason) {
    r == MoldRisk || r == MoistureProtect
  }

  predicate ProtectionClose(r: Reason) {
    r == MoldGuard || r == ThermalFloor
  }

  predicate IsProtection(r: Reason) {
    ProtectionOpen(r) || ProtectionClose(r)
  }

  predicate Openish(w: WindowState) {
    w == WindowOpen || w == LikelyOpen
  }

  predicate Closedish(w: WindowState) {
    w == WindowClosed || w == LikelyClosed
  }

  /** What a reading is worth: stale or unmeasured "closed" is merely unknown. */
  function EffectiveWindow(w: WindowState, source: WindowSource, age: Option<real>, cfg: EpisodeConfig): WindowState {
    if w == Unknown then Unknown
    else if (age.Some? && age.value > cfg.windowStaleAfter) || (Closedish(w) && source != Contact) then Unknown
    else w
  }

  function Seen(t: Tick, cfg: EpisodeConfig): WindowState {
    EffectiveWindow(t.window, t.source, t.age, cfg)
  }

  /** The hysteresis anchors of the rule table, one read of the stored phase. */
  function OracleFlags(s: EpisodeState): Anchors {
    var running := s.phase == Requested || s.phase == Ventilating;
    Anchors(running, running && (s.owner == MoistureOut || s.owner == MoldRisk),
            running && s.owner == MoistureProtect, running && s.owner == HeatOut)
  }

  function CauseOf(r: Reason, t: Tick): IdleCause {
    if r == NoData then CauseNoData
    else if t.roomOverSafe && t.coolEdgeProtected then FabricHeated
    else if t.roomOverSafe && !t.outsideDrier then OutsideNotDrier
    else AllGood
  }

  /** Does this episode draw on the protection budget? */
  predicate EpisodeProtected(s: EpisodeState) {
    s.isProtected || s.emergency || IsProtection(s.reason) || IsProtection(s.owner)
  }

  function PromptCap(s: EpisodeState, cfg: EpisodeConfig): int {
    if EpisodeProtected(s) then cfg.maxPromptsPhaseProtection else cfg.maxPromptsPhase
  }

  function EpisodeCap(s: EpisodeState, cfg: EpisodeConfig): int {
    if EpisodeProtected(s) then cfg.maxPromptsEpisodeProtection else cfg.maxPromptsEpisode
  }

  predicate PromptDue(s: EpisodeState, cfg: EpisodeConfig) {
    s.episodePrompts < EpisodeCap(s, cfg) && s.prompts < PromptCap(s, cfg) &&
    s.phaseMin >= s.prompts as real * cfg.reminderEvery
  }

  function Enter(s: EpisodeState, phase: Phase, inferred: bool): EpisodeState {
    s.(phase := phase, phaseMin := 0.0, unknownDwell := 0.0, entryInferred := inferred)
  }

  /** Enter an opening phase carried by the answer of this tick. */
  function EnterOpening(s: EpisodeState, phase: Phase, t: Tick, inferred: bool): EpisodeState {
    Enter(s, phase, inferred).(reason := t.reason, owner := t.reason, level := t.level)
  }

  /** A new episode: fresh identity, fresh ceiling, no evidence. */
  function Begin(s: EpisodeState, t: Tick, openish: bool): EpisodeState {
    s.(episodeId := s.episodeId + 1, episodePrompts := 0, escalations := 0,
       isProtected := IsProtection(t.reason), openedSeen := openish, pending := NoReason)
  }

  predicate AskDue(s: EpisodeState, cfg: EpisodeConfig) {
    s.episodePrompts < EpisodeCap(s, cfg) && PromptCap(s, cfg) >= 1
  }

  /** The opening prompt of a phase counts in both budgets. */
  function Ask(s: EpisodeState, cfg: EpisodeConfig): EpisodeState {
    if AskDue(s, cfg) then s.(prompts := 1, episodePrompts := s.episodePrompts + 1) else s
  }

  /** A reminder, if one is due, leaves the phase quota and the episode ceiling. */
  function Remind(s: EpisodeState, cfg: EpisodeConfig): EpisodeState {
    if PromptDue(s, cfg) then s.(prompts := s.prompts + 1, episodePrompts := s.episodePrompts + 1) else s
  }

  function Stop(s: EpisodeState, why: Reason, emergency: bool, level: Level, inferred: bool): EpisodeState {
    Enter(s, StopRequested, inferred).(reason := why, level := level, emergency := emergency)
  }

  function Settle(s: EpisodeState, length: real, scope: Reason, t: Tick): EpisodeState {
    Enter(s, Cooldown, false).(prompts := 0, emergency := false, cooldownFor := length, cooldownScope := scope,
      pending := if t.action == Open then t.reason else NoReason)
  }

  function Publish(s: EpisodeState, a: Action, r: Reason, level: Level, prompt: bool, t: Tick,
                   cfg: EpisodeConfig): EpisodeResult
  {
    EpisodeResult(s, a, r, level, prompt,
                  if a != Idle then NoCause else if s.phase == Cooldown then CauseCooldown else CauseOf(r, t),
                  Seen(t, cfg), s.pending)
  }

  /** The table's own non-episode verdict. */
  function Quiet(s: EpisodeState, t: Tick, cfg: EpisodeConfig): EpisodeResult {
    if t.action == Discourage then Publish(s, Discourage, t.reason, t.level, false, t, cfg)
    else Publish(s, Idle, t.reason, LevelOk, false, t, cfg)
  }

  predicate ProtectionAbort(t: Tick) {
    t.action == Close && ProtectionClose(t.reason)
  }

  predicate ResolverQuiet(t: Tick) {
    t.action == Idle || t.action == Discourage || (t.action == Open && t.reason != MoldRisk)
  }

  function TickMinutes(t: Tick, cfg: EpisodeConfig): real {
    var nonNegative := if t.dt < 0.0 then 0.0 else t.dt;
    if cfg.maxTick < nonNegative then cfg.maxTick else nonNegative
  }

  /** What every tick does first: age the phase, record evidence, remember protection. */
  function Aged(s: EpisodeState, t: Tick, cfg: EpisodeConfig): EpisodeState {
    s.(phaseMin := s.phaseMin + TickMinutes(t, cfg),
       openedSeen := s.openedSeen || Openish(Seen(t, cfg)),
       isProtected := s.isProtected || (s.phase != PhaseIdle && (IsProtection(t.reason) || s.emergency)))
  }

  /** Does the quiet time after an episode end on this tick? */
  predicate CooldownOver(s: EpisodeState, t: Tick) {
    || (t.action == Open && ProtectionOpen(t.reason))
    || ProtectionAbort(t)
    || (t.action == Open && s.cooldownScope != NoReason && t.reason != s.cooldownScope)
    || s.phaseMin >= s.cooldownFor
  }

  function Rested(s: EpisodeState): EpisodeState {
    Enter(s, PhaseIdle, false).(reason := NoReason, owner := NoReason, level := LevelOk, prompts := 0,
      episodePrompts := 0, isProtected := false, emergency := false, cooldownScope := NoReason,
      cooldownFor := 0.0, pending := NoReason)
  }

  function StepIdle(s: EpisodeState, t: Tick, cfg: EpisodeConfig): EpisodeResult {
    var seen := Seen(t, cfg);
    if t.action == Open && Openish(seen) then
      Publish(EnterOpening(Begin(s, t, true), Ventilating, t, seen == LikelyOpen).(prompts := 0),
              Open, t.reason, t.level, false, t, cfg)
    else if t.action == Open then
      var st := EnterOpening(Begin(s, t, false), Requested, t, false);
      Publish(Ask(st, cfg), Open, t.reason, t.level, AskDue(st, cfg), t, cfg)
    else if t.action == Close && Openish(seen) then
      var st := Stop(Begin(s, t, true), t.reason, ProtectionAbort(t), t.level, seen == LikelyOpen).(owner := NoReason);
      Publish(Ask(st, cfg), Close, t.reason, t.level, AskDue(st, cfg), t, cfg)
    else Quiet(s, t, cfg)
  }

  function StepCooldown(s: EpisodeState, t: Tick, cfg: EpisodeConfig): EpisodeResult {
    var st := s.(pending := if t.action == Open then t.reason else NoReason);
    if CooldownOver(st, t) then StepIdle(Rested(st), t, cfg)
    else if t.action == Close then Publish(st, Close, t.reason, t.level, false, t, cfg)
    else Quiet(st, t, cfg)
  }

  /** Ask for the airing to end, inside the same episode. */
  function AskToStop(s: EpisodeState, why: Reason, emergency: bool, level: Level, t: Tick,
                     cfg: EpisodeConfig): EpisodeResult
  {
    var st := Stop(s, why, emergency, level, Seen(t, cfg) == LikelyOpen);
    Publish(Ask(st, cfg), Close, why, level, AskDue(st, cfg), t, cfg)
  }

  function StepRequested(s: EpisodeState, t: Tick, cfg: EpisodeConfig): EpisodeResult {
    var seen := Seen(t, cfg);
    if Openish(seen) then
      if t.action == Open then
        Publish(EnterOpening(s, Ventilating, t, seen == LikelyOpen).(prompts := 0),
                Open, t.reason, t.level, false, t, cfg)
      else if t.action == Close then AskToStop(s, t.reason, ProtectionAbort(t), t.level, t, cfg)
      else AskToStop(s, AiringDone, false, LevelOk, t, cfg)
    else if t.action != Open then
      if Closedish(seen) then
        Quiet(Enter(s, PhaseIdle, false).(reason := NoReason, owner := NoReason, level := LevelOk, prompts := 0),
              t, cfg)
      else AskToStop(s, AiringDone, false, LevelOk, t, cfg)
    else
      var st := s.(reason := t.reason, owner := t.reason, level := t.level);
      if Closedish(seen) && st.phaseMin >= cfg.requestTtl && !IsProtection(st.owner) then
        Quiet(Settle(st, cfg.cooldownExpired, NoReason, t), t, cfg)
      else Publish(Remind(st, cfg), Open, st.reason, t.level, PromptDue(st, cfg), t, cfg)
  }

  function StepVentilating(s: EpisodeState, t: Tick, cfg: EpisodeConfig): EpisodeResult {
    if Closedish(Seen(t, cfg)) then Quiet(Settle(s, cfg.cooldownManual, NoReason, t), t, cfg)
    else if t.action == Open then
      Publish(s.(reason := t.reason, owner := t.reason, level := t.level), Open, t.reason, t.level, false, t, cfg)
    else if t.action == Close then AskToStop(s, t.reason, ProtectionAbort(t), t.level, t, cfg)
    else AskToStop(s, AiringDone, false, LevelOk, t, cfg)
  }

  /** A standing stop request after this tick's answer: a latched one keeps its own reason and
      severity against anything but another protection close. */
  function Latched(s: EpisodeState, t: Tick): EpisodeState {
    if t.action != Close then s
    else if ProtectionAbort(t) then s.(reason := t.reason, level := t.level, emergency := true)
    else if s.emergency then s
    else s.(reason := t.reason, level := t.level)
  }

  /** The standing "please close": a step up to protection always announces once, anything
      else rings on the reminder clock. */
  function StepStanding(s: EpisodeState, t: Tick, cfg: EpisodeConfig): EpisodeResult {
    var st := Latched(s, t);
    if ProtectionAbort(t) && !s.emergency then
      Publish(st.(escalations := st.escalations + 1), Close, st.reason, st.level, true, t, cfg)
    else Publish(Remind(st, cfg), Close, st.reason, st.level, PromptDue(st, cfg), t, cfg)
  }

  /** A closed window ends the episode; an aborted one earns the blanket quiet time. */
  function StepClosed(s: EpisodeState, t: Tick, cfg: EpisodeConfig): EpisodeResult {
    if s.emergency then Quiet(Settle(s, cfg.cooldownEmergency, NoReason, t), t, cfg)
    else Quiet(Settle(s, cfg.cooldown, s.owner, t), t, cfg)
  }

  /** A new opening reason cancels an ordinary stop request: it resumes a window seen open,
      and asks again otherwise. */
  function StepResume(s: EpisodeState, t: Tick, cfg: EpisodeConfig): EpisodeResult {
    var seen := Seen(t, cfg);
    if Openish(seen) then
      Publish(EnterOpening(s, Ventilating, t, seen == LikelyOpen).(prompts := 0),
              Open, t.reason, t.level, false, t, cfg)
    else
      var st := EnterOpening(s, Requested, t, false);
      Publish(Ask(st, cfg), Open, t.reason, t.level, AskDue(st, cfg), t, cfg)
  }

  /** A stop request on a window nobody can observe, with no close reason reported. */
  function StepUnconfirmed(s: EpisodeState, t: Tick, cfg: EpisodeConfig): EpisodeResult {
    var st := s.(unknownDwell := s.unknownDwell + TickMinutes(t, cfg));
    if st.unknownDwell < cfg.unknownStopRelease then StepStanding(st, t, cfg)
    else if st.emergency then Quiet(Settle(st, cfg.cooldownEmergency, NoReason, t), t, cfg)
    else Quiet(Settle(st, cfg.cooldownExpired, NoReason, t), t, cfg)
  }

  function StepStop(s: EpisodeState, t: Tick, cfg: EpisodeConfig): EpisodeResult {
    if Closedish(Seen(t, cfg)) then StepClosed(s, t, cfg)
    else if t.action == Open && !s.emergency then StepResume(s, t, cfg)
    else if Seen(t, cfg) == Unknown && ResolverQuiet(t) then StepUnconfirmed(s, t, cfg)
    else StepStanding(s.(unknownDwell := 0.0), t, cfg)
  }

  /** Advance the machine by one tick. */
  function EpisodeStep(s: EpisodeState, t: Tick, cfg: EpisodeConfig): EpisodeResult {
    var st := Aged(s, t, cfg);
    match st.phase
    case Cooldown => StepCooldown(st, t, cfg)
    case PhaseIdle => StepIdle(st, t, cfg)
    case Requested => StepRequested(st, t, cfg)
    case Ventilating => StepVentilating(st, t, cfg)
    case StopRequested => StepStop(st, t, cfg)
  }

  /** A run: the results of feeding a sequence of ticks. */
  function Run(s: EpisodeState, ticks: seq<Tick>, cfg: EpisodeConfig): (rs: seq<EpisodeResult>)
    ensures |rs| == |ticks|
    decreases |ticks|
  {
    if ticks == [] then []
    else var r := EpisodeStep(s, ticks[0], cfg); [r] + Run(r.state, ticks[1..], cfg)
  }
}
