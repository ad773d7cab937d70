/** The rule table and the episode machine fed back into each other: can reading the window
    turn the machine's own advice around? */
module VentComposition {
  import opened Options
  import opened VentRules
  import opened VentEpisode
  import opened VentRuns
  import opened VentInvariants

  /** What a tick observes of the window. */
  datatype Observation = Observation(window: WindowState, source: WindowSource, age: Option<real>, dt: real)

  /** Both layers read the one normalised window. */
  function ReadWindow(o: Observation, ecfg: EpisodeConfig): WindowState {
    EffectiveWindow(o.window, o.source, o.age, ecfg)
  }

  function Answer(s: EpisodeState, x: Physics, o: Observation, cfg: VentConfig, ecfg: EpisodeConfig): Advice {
    Advise(x, Openish(ReadWindow(o, ecfg)), OracleFlags(s), cfg)
  }

  function SeamTick(s: EpisodeState, x: Physics, o: Observation, cfg: VentConfig, ecfg: EpisodeConfig): Tick {
    var v := Answer(s, x, o, cfg, ecfg);
    Tick(v.action, v.reason, v.level, o.window, o.source, o.age, o.dt, x.coolEdgeProtected, OverSafe(x),
         OutsideDrier(x))
  }

  function SeamStep(s: EpisodeState, x: Physics, o: Observation, cfg: VentConfig, ecfg: EpisodeConfig): EpisodeResult {
    EpisodeStep(s, SeamTick(s, x, o, cfg, ecfg), ecfg)
  }

  predicate Airing(s: EpisodeState) {
    s.phase == Requested || s.phase == Ventilating
  }

  /** The anchors of an airing carried by `r`. */
  function AnchorsFor(r: Reason): Anchors {
    Anchors(true, r == MoistureOut || r == MoldRisk, r == MoistureProtect, r == HeatOut)
  }

  /** A state that follows `s`: no identity is reused, and an airing answers the table's own
      "open" by being carried by its reason. */
  predicate Follows(s: EpisodeState, t: Tick, r: EpisodeState) {
    s.episodeId <= r.episodeId && (t.action == Open && Airing(r) ==> r.owner == t.reason)
  }

  lemma IdleFollows(s: EpisodeState, t: Tick, ecfg: EpisodeConfig)
    requires s.phase == PhaseIdle
    ensures Follows(s, t, StepIdle(s, t, ecfg).state)
  {
  }

  lemma CooldownFollows(s: EpisodeState, t: Tick, ecfg: EpisodeConfig)
    requires s.phase == Cooldown
    ensures Follows(s, t, StepCooldown(s, t, ecfg).state)
  {
    IdleFollows(Rested(s.(pending := if t.action == Open then t.reason else NoReason)), t, ecfg);
  }

  lemma StopFollows(s: EpisodeState, t: Tick, ecfg: EpisodeConfig)
    requires s.phase == StopRequested
    ensures Follows(s, t, StepStop(s, t, ecfg).state)
  {
    if Closedish(Seen(t, ecfg)) {
      assert Follows(s, t, StepClosed(s, t, ecfg).state);
    } else if t.action == Open && !s.emergency {
      assert Follows(s, t, StepResume(s, t, ecfg).state);
    } else if Seen(t, ecfg) == Unknown && ResolverQuiet(t) {
      assert Follows(s, t, StepUnconfirmed(s, t, ecfg).state);
    }
  }

  lemma StepFollows(s: EpisodeState, t: Tick, ecfg: EpisodeConfig)
    ensures Follows(s, t, EpisodeStep(s, t, ecfg).state)
  {
    var st := Aged(s, t, ecfg);
    match st.phase {
      case PhaseIdle => IdleFollows(st, t, ecfg);
      case Cooldown => CooldownFollows(st, t, ecfg);
      case Requested => assert Follows(st, t, StepRequested(st, t, ecfg).state);
      case Ventilating => assert Follows(st, t, StepVentilating(st, t, ecfg).state);
      case StopRequested => StopFollows(st, t, ecfg);
    }
  }

  /** The conditions under which an open window contradicts an airing carried by `r`. */
  predicate Inverts(x: Physics, r: Reason) {
    (r != MoldRisk && x.atThermalFloor) || ((r == HeatOut || r == Co2) && GuardLine(x))
  }

  /** A table answer "open" under any anchors, asked again under the anchors of its own reason:
      only a stand-down condition of `Inverts` makes the window reading matter. */
  lemma AskedAgain(x: Physics, window: bool, a: Anchors, cfg: VentConfig)
    requires ExitsBelowEntries(cfg) && Advise(x, window, a, cfg).action == Open
    ensures var r := Advise(x, window, a, cfg).reason;
            Advise(x, true, AnchorsFor(r), cfg).action == Close <==> Inverts(x, r)
  {
  }

  /** A moisture answer is unmoved by the window unless the room stands on its thermal floor. */
  lemma MoistureStands(x: Physics, window: bool, a: Anchors, cfg: VentConfig)
    requires ExitsBelowEntries(cfg) && Advise(x, window, a, cfg).action == Open
    requires var r := Advise(x, window, a, cfg).reason; MoistureReason(r) && !Inverts(x, r)
    ensures Holds(x, Advise(x, window, a, cfg), cfg)
  {
  }

  /** The answer `v` stands for either window value under its own anchors, and for an open
      window without any. */
  ghost predicate Holds(x: Physics, v: Advice, cfg: VentConfig) {
    && v.action == Open && MoistureReason(v.reason)
    && Advise(x, true, AnchorsFor(v.reason), cfg) == v
    && Advise(x, false, AnchorsFor(v.reason), cfg) == v
    && OnlyTheGuardCloses(Advise(x, true, FORGETFUL, cfg))
  }

  predicate OnlyTheGuardCloses(v: Advice) {
    v.action == Close ==> v.reason == MoldGuard
  }

  /** The table and the machine composed: after an "open" that leaves the machine airing, the
      same physics makes the next answer "close" exactly when the window reads open and the
      carrying reason has no stand-down against the floor or the guard. */
  lemma WindowInvertsExactlyWhen(s: EpisodeState, x: Physics, o: Observation, next: Observation,
                                 cfg: VentConfig, ecfg: EpisodeConfig)
    requires ExitsBelowEntries(cfg)
    requires Answer(s, x, o, cfg, ecfg).action == Open && Airing(SeamStep(s, x, o, cfg, ecfg).state)
    ensures var v := Answer(s, x, o, cfg, ecfg);
            var st := SeamStep(s, x, o, cfg, ecfg).state;
            && (Answer(st, x, next, cfg, ecfg).action == Close <==>
                Openish(ReadWindow(next, ecfg)) && Inverts(x, v.reason))
            && (MoistureReason(v.reason) && !Inverts(x, v.reason) ==> Answer(st, x, next, cfg, ecfg) == v)
  {
    var v := Answer(s, x, o, cfg, ecfg);
    StepFollows(s, SeamTick(s, x, o, cfg, ecfg), ecfg);
    AskedAgain(x, Openish(ReadWindow(o, ecfg)), OracleFlags(s), cfg);
    ShutWindowIsNeverClosed(x, AnchorsFor(v.reason), cfg);
    if MoistureReason(v.reason) && !Inverts(x, v.reason) {
      MoistureStands(x, Openish(ReadWindow(o, ecfg)), OracleFlags(s), cfg);
    }
  }

  // ----- Whole runs under unchanged physics -----

  function SeamRun(s: EpisodeState, x: Physics, os: seq<Observation>, cfg: VentConfig, ecfg: EpisodeConfig)
    : (rs: seq<EpisodeResult>)
    ensures |rs| == |os|
    decreases |os|
  {
    if os == [] then []
    else var r := SeamStep(s, x, os[0], cfg, ecfg); [r] + SeamRun(r.state, x, os[1..], cfg, ecfg)
  }

  /** Episode `id` is airing under `v`, resting or over. */
  ghost predicate Carried(s: EpisodeState, v: Advice, id: int) {
    || s.episodeId > id
    || (s.episodeId == id && (Airing(s) ==> s.owner == v.reason) && s.phase != StopRequested)
  }

  /** Publishing while episode `id` is airing: open for its own reason, or the episode ends. */
  ghost predicate Undisturbed(s: EpisodeState, r: EpisodeResult, v: Advice, id: int) {
    && (r.action == Close ==> r.state.episodeId > id)
    && (s.episodeId == id && Airing(s) ==>
          || (r.action == Open && r.reason == v.reason && Airing(r.state) && r.state.episodeId == id)
          || r.state.phase == Cooldown)
  }

  lemma SeamStepIsUndisturbed(s: EpisodeState, x: Physics, o: Observation, v: Advice, id: int, cfg: VentConfig,
                              ecfg: EpisodeConfig)
    requires Holds(x, v, cfg) && Carried(s, v, id)
    ensures var r := SeamStep(s, x, o, cfg, ecfg); Carried(r.state, v, id) && Undisturbed(s, r, v, id)
  {
    var t := SeamTick(s, x, o, cfg, ecfg);
    StepFollows(s, t, ecfg);
    if s.episodeId == id {
      if Airing(s) {
        AiringGoesOn(s, t, v, ecfg);
      } else {
        ShutWindowIsNeverClosed(x, OracleFlags(s), cfg);
        RestGoesOn(s, t, ecfg);
      }
    }
  }

  /** What an airing answered "open" for `why` may become. */
  predicate GoesOn(s: EpisodeState, r: EpisodeResult, why: Reason) {
    && r.state.episodeId == s.episodeId
    && ((r.state.phase == Cooldown && (r.action == Idle || r.action == Discourage))
        || (r.action == Open && r.reason == why && Airing(r.state) && r.state.owner == why))
  }

  lemma RequestedGoesOn(s: EpisodeState, t: Tick, ecfg: EpisodeConfig)
    requires s.phase == Requested && t.action == Open
    ensures GoesOn(s, StepRequested(s, t, ecfg), t.reason)
  {
  }

  lemma VentilatingGoesOn(s: EpisodeState, t: Tick, ecfg: EpisodeConfig)
    requires s.phase == Ventilating && t.action == Open
    ensures GoesOn(s, StepVentilating(s, t, ecfg), t.reason)
  {
  }

  /** An airing whose answer stays "open" for its own reason goes on or ends in a rest. */
  lemma AiringGoesOn(s: EpisodeState, t: Tick, v: Advice, ecfg: EpisodeConfig)
    requires Airing(s) && v.action == Open && t.action == Open && t.reason == v.reason
    ensures GoesOn(s, EpisodeStep(s, t, ecfg), v.reason)
  {
    var st := Aged(s, t, ecfg);
    if s.phase == Requested {
      RequestedGoesOn(st, t, ecfg);
    } else {
      VentilatingGoesOn(st, t, ecfg);
    }
  }

  /** Out of a rest only a new episode can publish "close". */
  lemma RestGoesOn(s: EpisodeState, t: Tick, ecfg: EpisodeConfig)
    requires s.phase == Cooldown || s.phase == PhaseIdle
    requires t.action == Close ==> t.reason == MoldGuard && Openish(Seen(t, ecfg))
    ensures var r := EpisodeStep(s, t, ecfg);
            && (r.action == Close ==> r.state.episodeId > s.episodeId)
            && (r.state.episodeId == s.episodeId ==> r.state.phase == Cooldown || r.state.phase == PhaseIdle)
  {
  }

  /** Under unchanged physics, once a moisture reason has opened an episode and the room is not
      on its thermal floor, no run of window readings, ages and tick lengths makes that episode
      publish "close": it says "open" for the same reason until it ends in a rest, and any later
      "close" belongs to a later episode. */
  lemma {:induction false} RunIsUndisturbed(s: EpisodeState, x: Physics, os: seq<Observation>, v: Advice, id: int,
                                            cfg: VentConfig, ecfg: EpisodeConfig, i: nat)
    requires Holds(x, v, cfg) && Carried(s, v, id) && i < |os|
    ensures var rs := SeamRun(s, x, os, cfg, ecfg);
            Undisturbed(if i == 0 then s else rs[i - 1].state, rs[i], v, id)
    decreases i
  {
    SeamStepIsUndisturbed(s, x, os[0], v, id, cfg, ecfg);
    if i > 0 {
      var r := SeamStep(s, x, os[0], cfg, ecfg);
      RunIsUndisturbed(r.state, x, os[1..], v, id, cfg, ecfg, i - 1);
      assert SeamRun(s, x, os, cfg, ecfg)[1..] == SeamRun(r.state, x, os[1..], cfg, ecfg);
    }
  }

  /** The same, from the opening tick on. */
  lemma MoistureAiringIsNeverInverted(s: EpisodeState, x: Physics, o: Observation, os: seq<Observation>,
                                      cfg: VentConfig, ecfg: EpisodeConfig, i: nat)
    requires ExitsBelowEntries(cfg) && i < |os|
    requires var v := Answer(s, x, o, cfg, ecfg); v.action == Open && MoistureReason(v.reason) && !Inverts(x, v.reason)
    requires Airing(SeamStep(s, x, o, cfg, ecfg).state)
    ensures var start := SeamStep(s, x, o, cfg, ecfg).state;
            var r := SeamRun(start, x, os, cfg, ecfg)[i];
            r.action == Close ==> r.state.episodeId > start.episodeId
  {
    var v := Answer(s, x, o, cfg, ecfg);
    var start := SeamStep(s, x, o, cfg, ecfg).state;
    StepFollows(s, SeamTick(s, x, o, cfg, ecfg), ecfg);
    MoistureStands(x, Openish(ReadWindow(o, ecfg)), OracleFlags(s), cfg);
    RunIsUndisturbed(start, x, os, v, start.episodeId, cfg, ecfg, i);
  }

  // ----- Any reason under unchanged physics -----

  /** The answer to an airing carried by `r`, whatever the window: open, for `next`. */
  ghost predicate LeadsTo(x: Physics, r: Reason, next: Reason, cfg: VentConfig) {
    forall w :: var v := Advise(x, w, AnchorsFor(r), cfg); v.action == Open && v.reason == next
  }

  /** An open answer the window cannot invert is repeated, or hands over once to another reason
      that is: CO2 may yield to moisture, whose exit line is lower. */
  lemma AnswersSettle(x: Physics, window: bool, a: Anchors, cfg: VentConfig) returns (next: Reason)
    requires ExitsBelowEntries(cfg) && Advise(x, window, a, cfg).action == Open
    requires !Inverts(x, Advise(x, window, a, cfg).reason)
    ensures LeadsTo(x, Advise(x, window, a, cfg).reason, next, cfg) && LeadsTo(x, next, next, cfg)
  {
    next := Advise(x, false, AnchorsFor(Advise(x, window, a, cfg).reason), cfg).reason;
  }

  /** Episode `id` is airing for one of two reasons, resting or over. */
  ghost predicate AiringFor(s: EpisodeState, first: Reason, next: Reason, id: int) {
    || s.episodeId > id
    || (s.episodeId == id && (Airing(s) ==> s.owner == first || s.owner == next) && s.phase != StopRequested)
  }

  /** The tick finds episode `id` airing and tells it to close. */
  predicate StopsAiring(s: EpisodeState, r: EpisodeResult, id: int) {
    s.episodeId == id && Airing(s) && r.action == Close
  }

  lemma IdleOnlyBeginsAnew(s: EpisodeState, t: Tick, ecfg: EpisodeConfig)
    requires s.phase == PhaseIdle
    ensures var r := StepIdle(s, t, ecfg).state; r.episodeId > s.episodeId || r == s
  {
  }

  /** Out of a rest no episode goes on. */
  lemma RestOnlyBeginsAnew(s: EpisodeState, t: Tick, ecfg: EpisodeConfig)
    requires s.phase == Cooldown || s.phase == PhaseIdle
    ensures var r := EpisodeStep(s, t, ecfg).state;
            r.episodeId > s.episodeId || (r.episodeId == s.episodeId && (r.phase == Cooldown || r.phase == PhaseIdle))
  {
    var st := Aged(s, t, ecfg);
    if s.phase == PhaseIdle {
      IdleOnlyBeginsAnew(st, t, ecfg);
    } else {
      IdleOnlyBeginsAnew(Rested(st.(pending := if t.action == Open then t.reason else NoReason)), t, ecfg);
    }
  }

  /** An airing goes on for the table's answer or ends in a rest. */
  lemma AiringStepGoesOn(s: EpisodeState, t: Tick, first: Reason, next: Reason, ecfg: EpisodeConfig)
    requires Airing(s) && t.action == Open && t.reason == next
    ensures var r := EpisodeStep(s, t, ecfg);
            AiringFor(r.state, first, next, s.episodeId) && !StopsAiring(s, r, s.episodeId)
  {
    AiringGoesOn(s, t, Advice(Open, next, LevelOk, None), ecfg);
  }

  /** The table's answer to an airing carried by either reason. */
  lemma AiringIsAnswered(s: EpisodeState, x: Physics, o: Observation, first: Reason, next: Reason,
                         cfg: VentConfig, ecfg: EpisodeConfig)
    requires LeadsTo(x, first, next, cfg) && LeadsTo(x, next, next, cfg)
    requires Airing(s) && (s.owner == first || s.owner == next)
    ensures var t := SeamTick(s, x, o, cfg, ecfg); t.action == Open && t.reason == next
  {
    assert OracleFlags(s) == AnchorsFor(s.owner);
  }

  lemma AiringStepStays(s: EpisodeState, x: Physics, o: Observation, first: Reason, next: Reason, id: int,
                        cfg: VentConfig, ecfg: EpisodeConfig)
    requires LeadsTo(x, first, next, cfg) && LeadsTo(x, next, next, cfg) && AiringFor(s, first, next, id)
    ensures var r := SeamStep(s, x, o, cfg, ecfg); AiringFor(r.state, first, next, id) && !StopsAiring(s, r, id)
  {
    var t := SeamTick(s, x, o, cfg, ecfg);
    assert SeamStep(s, x, o, cfg, ecfg) == EpisodeStep(s, t, ecfg);
    if s.episodeId > id {
      StepFollows(s, t, ecfg);
    } else if Airing(s) {
      AiringIsAnswered(s, x, o, first, next, cfg, ecfg);
      AiringStepGoesOn(s, t, first, next, ecfg);
    } else {
      RestOnlyBeginsAnew(s, t, ecfg);
    }
  }

  /** Tick `i` of the run finds the episode of `s` airing and tells it to close. */
  predicate StopsAt(s: EpisodeState, x: Physics, os: seq<Observation>, cfg: VentConfig, ecfg: EpisodeConfig, i: int)
    requires 0 <= i < |os|
  {
    var rs := SeamRun(s, x, os, cfg, ecfg);
    StopsAiring(if i == 0 then s else rs[i - 1].state, rs[i], s.episodeId)
  }

  lemma {:induction false} AiringRunStays(s: EpisodeState, x: Physics, os: seq<Observation>, first: Reason,
                                          next: Reason, id: int, cfg: VentConfig, ecfg: EpisodeConfig, i: nat)
    requires LeadsTo(x, first, next, cfg) && LeadsTo(x, next, next, cfg) && AiringFor(s, first, next, id) && i < |os|
    ensures var rs := SeamRun(s, x, os, cfg, ecfg);
            !StopsAiring(if i == 0 then s else rs[i - 1].state, rs[i], id)
    decreases i
  {
    AiringStepStays(s, x, os[0], first, next, id, cfg, ecfg);
    if i > 0 {
      var r := SeamStep(s, x, os[0], cfg, ecfg);
      AiringRunStays(r.state, x, os[1..], first, next, id, cfg, ecfg, i - 1);
      assert SeamRun(s, x, os, cfg, ecfg)[1..] == SeamRun(r.state, x, os[1..], cfg, ecfg);
    }
  }

  const SHUT := Observation(WindowClosed, Contact, None, 1.0)

  const WIDE := Observation(WindowOpen, Contact, None, 1.0)

  /** An airing that the table closes is told so at once when the window reads open. */
  lemma CloseIsPublished(s: EpisodeState, x: Physics, cfg: VentConfig, ecfg: EpisodeConfig)
    requires Airing(s) && Answer(s, x, WIDE, cfg, ecfg).action == Close
    ensures StopsAt(s, x, [WIDE], cfg, ecfg, 0)
  {
    assert SeamRun(s, x, [WIDE], cfg, ecfg)[0] == SeamStep(s, x, WIDE, cfg, ecfg);
  }

  /** For every reason: after an "open" that leaves the machine airing, some run of window
      readings under unchanged physics stops that airing with a "close" exactly when the reason has
      no stand-down against the floor or the guard that speaks. */
  lemma AiringIsStoppedExactlyWhen(s: EpisodeState, x: Physics, o: Observation, cfg: VentConfig, ecfg: EpisodeConfig)
    requires ExitsBelowEntries(cfg)
    requires Answer(s, x, o, cfg, ecfg).action == Open && Airing(SeamStep(s, x, o, cfg, ecfg).state)
    ensures var start := SeamStep(s, x, o, cfg, ecfg).state;
            (exists os, i :: 0 <= i < |os| && StopsAt(start, x, os, cfg, ecfg, i)) <==>
            Inverts(x, Answer(s, x, o, cfg, ecfg).reason)
  {
    var v := Answer(s, x, o, cfg, ecfg);
    var start := SeamStep(s, x, o, cfg, ecfg).state;
    if Inverts(x, v.reason) {
      WindowInvertsExactlyWhen(s, x, o, WIDE, cfg, ecfg);
      CloseIsPublished(start, x, cfg, ecfg);
    } else {
      StepFollows(s, SeamTick(s, x, o, cfg, ecfg), ecfg);
      var next := AnswersSettle(x, Openish(ReadWindow(o, ecfg)), OracleFlags(s), cfg);
      forall os, i | 0 <= i < |os| ensures !StopsAt(start, x, os, cfg, ecfg, i) {
        AiringRunStays(start, x, os, v.reason, next, start.episodeId, cfg, ecfg, i);
      }
    }
  }

  // ----- Runs in a changing world -----

  /** One tick of the world: its physics and what is observed of the window. */
  datatype Moment = Moment(physics: Physics, seen: Observation)

  /** The ticks the table feeds the machine along the way. */
  function FedTicks(s: EpisodeState, ms: seq<Moment>, cfg: VentConfig, ecfg: EpisodeConfig): (ts: seq<Tick>)
    ensures |ts| == |ms|
    decreases |ms|
  {
    if ms == [] then []
    else
      var t := SeamTick(s, ms[0].physics, ms[0].seen, cfg, ecfg);
      [t] + FedTicks(EpisodeStep(s, t, ecfg).state, ms[1..], cfg, ecfg)
  }

  lemma {:induction false} FedTicksWarn(s: EpisodeState, ms: seq<Moment>, cfg: VentConfig, ecfg: EpisodeConfig)
    ensures AllWarn(FedTicks(s, ms, cfg, ecfg))
    decreases |ms|
  {
    if ms != [] {
      var x, o := ms[0].physics, ms[0].seen;
      ProtectionCloseWarns(x, Openish(ReadWindow(o, ecfg)), OracleFlags(s), cfg);
      FedTicksWarn(EpisodeStep(s, SeamTick(s, x, o, cfg, ecfg), ecfg).state, ms[1..], cfg, ecfg);
    }
  }

  /** With the table in front of the machine no run, whatever the world does, publishes a
      protection close as harmless. */
  lemma ProtectionCloseIsNeverHarmless(s: EpisodeState, ms: seq<Moment>, cfg: VentConfig, ecfg: EpisodeConfig, i: nat)
    requires Warned(s) && i < |ms|
    ensures NeverHarmless(Run(s, FedTicks(s, ms, cfg, ecfg), ecfg)[i])
  {
    FedTicksWarn(s, ms, cfg, ecfg);
    WarnsAt(s, FedTicks(s, ms, cfg, ecfg), ecfg, i);
  }

  // ----- Where the guarantee ends -----

  const DEFAULT_RULES := VentConfig(3.0, 1.5, 7.0, 8.7, 50.0, 35.0, 80.0, 5.0, 1000.0, 2.0, 1.0, 1.0, 2.0)

  const DEFAULT_EPISODE := EpisodeConfig(15.0, 7.0, 2, 6, 4, 10, 30.0, 10.0, 10.0, 20.0, 45.0, 5.0, 10.0)

  /** How the readings of one tick hang together where they are taken: both humidity limits come
      from one surface temperature, the surface mean from the room's humidity, and the fabric can
      ask for no more than the 24 degree ceiling of its floor. */
  predicate Receivable(x: Physics) {
    && (x.wIn.Some? <==> x.rh.Some?)
    && (x.rhMaxSafe.Some? <==> x.criticalRh.Some?)
    && (x.tOut.Some? ==> x.criticalRh.Some?)
    && (x.rh.Some? && x.tOut.Some? ==> x.surfaceMean.Some?)
    && (x.surfaceNeedsWarmer || x.coolEdgeProtected ==>
          x.rh.Some? && x.criticalRh.Some? && x.coolEdge.Some? && x.coolEdge.value <= 24.05)
    && (x.criticalRh.Some? ==> x.criticalRh.value >= 80.0)
  }

  /** A muggy night: 24.5 degrees and 75 % in an empty room, 18 degrees and 97 % outside. The
      surface stands at 22.55 degrees, so its limit of 80 % is a room ceiling of 71.1 %, and its
      slow mean has not caught up with the reading yet. */
  const WARM_NIGHT := Physics(
    Some(16.75), Some(14.87), Some(74.0), false, false, false, None, false, Some(75.0), Some(24.5), Some(24.5),
    Some(23.8), Some(18.0), false, false, Some(71.1), Some(80.0), false, true)

  lemma WarmNightAsks()
    ensures Receivable(WARM_NIGHT) && ExitsBelowEntries(DEFAULT_RULES)
    ensures var asked := SeamStep(FRESH_STATE, WARM_NIGHT, SHUT, DEFAULT_RULES, DEFAULT_EPISODE);
            && asked.action == Open && asked.reason == HeatOut
            && asked.state.phase == Requested && asked.state.owner == HeatOut
  {
    assert Answer(FRESH_STATE, WARM_NIGHT, SHUT, DEFAULT_RULES, DEFAULT_EPISODE).reason == HeatOut;
  }

  lemma WarmNightCloses(s: EpisodeState)
    requires s.phase == Requested && s.owner == HeatOut
    ensures var followed := SeamStep(s, WARM_NIGHT, WIDE, DEFAULT_RULES, DEFAULT_EPISODE);
            followed.action == Close && followed.reason == MoldGuard && followed.state.episodeId == s.episodeId
  {
    assert Answer(s, WARM_NIGHT, WIDE, DEFAULT_RULES, DEFAULT_EPISODE).reason == MoldGuard;
  }

  /** Free cooling has no stand-down: the machine asks to open, the user does, and the mould
      guard that was already true answers "close" inside the same episode. */
  lemma HeatOutIsInverted()
    ensures Receivable(WARM_NIGHT) && ExitsBelowEntries(DEFAULT_RULES)
    ensures var asked := SeamStep(FRESH_STATE, WARM_NIGHT, SHUT, DEFAULT_RULES, DEFAULT_EPISODE);
            var followed := SeamStep(asked.state, WARM_NIGHT, WIDE, DEFAULT_RULES, DEFAULT_EPISODE);
            && asked.action == Open && asked.reason == HeatOut
            && followed.action == Close && followed.reason == MoldGuard
            && followed.state.episodeId == asked.state.episodeId
  {
    WarmNightAsks();
    WarmNightCloses(SeamStep(FRESH_STATE, WARM_NIGHT, SHUT, DEFAULT_RULES, DEFAULT_EPISODE).state);
  }
}
