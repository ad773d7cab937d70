/** The ventilation rule table: which reason carries right now. */
module VentRules {
  import opened Options

  datatype Action = Idle | Open | Close | Discourage

  datatype Level = LevelOk | LevelWarn | LevelAlert

  datatype Reason =
    | NoReason | MoldRisk | MoldGuard | TooDry | MoistureOut | MoistureProtect | Co2 | HeatOut
    | CooledOff | TargetReached | ThermalFloor | NoGain | NoData | AiringDone

  datatype VentConfig = VentConfig(
    deltaOn: real, deltaOff: real, dryWarn: real, moist: real, moistRh: real, dryWarnRh: real,
    surfaceLimit: real, surfaceMargin: real, co2: real, heatOutOn: real, heatOutOff: real,
    heatOutHumidGuard: real, moldGuardMargin: real)

  /** Everything a tick knows except the window and what the last ticks advised. */
  datatype Physics = Physics(
    wIn: Option<real>, wOut: Option<real>, surfaceMean: Option<real>,
    floorBinding: bool, floorCapped: bool, atThermalFloor: bool, co2: Option<real>, occupied: bool,
    rh: Option<real>, room: Option<real>, roomDecide: Option<real>, coolEdge: Option<real>,
    tOut: Option<real>, coolCapable: bool, fanCapable: bool, rhMaxSafe: Option<real>,
    criticalRh: Option<real>, coolEdgeProtected: bool, surfaceNeedsWarmer: bool)

  /** The hysteresis anchors fed back from the episode: the `prev_*` inputs. */
  datatype Anchors = Anchors(adviceActive: bool, moistureAiring: bool, moistureProtect: bool, heatOut: bool)

  datatype Advice = Advice(action: Action, reason: Reason, level: Level, delta: Option<real>)

  function Delta(x: Physics): Option<real> {
    if x.wIn.Some? && x.wOut.Some? then Some(x.wIn.value - x.wOut.value) else None
  }

  predicate OutsideDrier(x: Physics) {
    Delta(x).Some? && Delta(x).value > 0.0
  }

  predicate DeltaAtLeast(x: Physics, threshold: real) {
    Delta(x).Some? && Delta(x).value >= threshold
  }

  predicate SurfaceWet(x: Physics, cfg: VentConfig) {
    x.surfaceMean.Some? && x.surfaceMean.value >= cfg.surfaceLimit - cfg.surfaceMargin && OutsideDrier(x)
  }

  predicate MoistureValid(x: Physics, active: bool, cfg: VentConfig) {
    && x.occupied
    && DeltaAtLeast(x, if active then cfg.deltaOff else cfg.deltaOn)
    && x.wIn.Some? && x.wIn.value > cfg.moist
    && x.rh.Some? && x.rh.value >= cfg.moistRh
    && !x.coolEdgeProtected
  }

  /** The room carries more vapour than its fabric tolerates. */
  predicate OverSafe(x: Physics) {
    x.rh.Some? && x.rhMaxSafe.Some? && x.rh.value > x.rhMaxSafe.value
  }

  predicate ProtectValid(x: Physics, running: bool, cfg: VentConfig) {
    OverSafe(x) && DeltaAtLeast(x, if running then cfg.deltaOff else cfg.deltaOn) && !x.coolEdgeProtected
  }

  predicate OwnAiringRunning(x: Physics, a: Anchors, cfg: VentConfig) {
    (a.moistureAiring && MoistureValid(x, a.adviceActive, cfg)) ||
    (a.moistureProtect && ProtectValid(x, a.moistureProtect, cfg))
  }

  /** The two window-independent conditions of the mould guard. */
  predicate GuardLine(x: Physics) {
    x.surfaceNeedsWarmer && OverSafe(x)
  }

  predicate Dry(x: Physics, cfg: VentConfig) {
    (x.wIn.Some? && x.wIn.value <= cfg.dryWarn) || (x.rh.Some? && x.rh.value <= cfg.dryWarnRh)
  }

  predicate SurfaceNearLimit(x: Physics, cfg: VentConfig) {
    x.surfaceMean.Some? && x.criticalRh.Some? && x.surfaceMean.value >= x.criticalRh.value - cfg.moldGuardMargin
  }

  predicate HeatOutValid(x: Physics, running: bool, cfg: VentConfig) {
    var edgeTemp := if x.roomDecide.Some? then x.roomDecide else x.room;
    && Delta(x).Some?
    && !x.coolCapable && !x.fanCapable && !x.coolEdgeProtected && !SurfaceNearLimit(x, cfg)
    && x.room.Some? && edgeTemp.Some? && x.coolEdge.Some? && x.tOut.Some?
    && edgeTemp.value > x.coolEdge.value
    && x.tOut.value <= x.room.value - (if running then cfg.heatOutOff else cfg.heatOutOn)
    && Delta(x).value >= -cfg.heatOutHumidGuard
  }

  /** The decision table, precedence top-down. */
  function Advise(x: Physics, windowOpen: bool, a: Anchors, cfg: VentConfig): Advice {
    var d := Delta(x);
    if SurfaceWet(x, cfg) then
      Advice(Open, MoldRisk, if x.floorBinding || x.floorCapped then LevelAlert else LevelWarn, d)
    else if windowOpen && !OwnAiringRunning(x, a, cfg) && GuardLine(x) then
      Advice(Close, MoldGuard, LevelWarn, d)
    else if Dry(x, cfg) && OutsideDrier(x) then
      Advice(if windowOpen then Close else Discourage, TooDry, LevelWarn, d)
    else if windowOpen && x.atThermalFloor then
      Advice(Close, ThermalFloor, LevelWarn, d)
    else if ProtectValid(x, a.moistureProtect, cfg) then
      Advice(Open, MoistureProtect, LevelWarn, d)
    else if windowOpen && a.moistureProtect && !MoistureValid(x, a.adviceActive, cfg) then
      Advice(Close, TargetReached, LevelOk, d)
    else if HeatOutValid(x, a.heatOut, cfg) then
      Advice(Open, HeatOut, LevelOk, d)
    else if MoistureValid(x, a.adviceActive, cfg) then
      Advice(Open, MoistureOut, LevelOk, d)
    else if x.occupied && x.co2.Some? && x.co2.value >= cfg.co2 then
      Advice(Open, Co2, LevelOk, d)
    else if windowOpen && a.heatOut then
      Advice(Close, CooledOff, LevelOk, d)
    else if windowOpen && d.Some? && d.value < cfg.deltaOff then
      Advice(Close, TargetReached, LevelOk, d)
    else
      Advice(Idle, if d.Some? then NoGain else NoData, LevelOk, d)
  }

  predicate MoistureReason(r: Reason) {
    r == MoldRisk || r == MoistureOut || r == MoistureProtect
  }

  /** Asymmetric hysteresis: leaving never asks for more than entering did. */
  predicate ExitsBelowEntries(cfg: VentConfig) {
    cfg.deltaOff <= cfg.deltaOn && cfg.heatOutOff <= cfg.heatOutOn
  }

  /** A shut or unobservable window is never told to close. */
  lemma ShutWindowIsNeverClosed(x: Physics, a: Anchors, cfg: VentConfig)
    ensures Advise(x, false, a, cfg).action != Close
  {
  }

  /** Opening for moisture always has something to gain: the outside air is drier. */
  lemma MoistureOpeningDries(x: Physics, window: bool, a: Anchors, cfg: VentConfig)
    requires 0.0 < cfg.deltaOff && 0.0 < cfg.deltaOn
    ensures var v := Advise(x, window, a, cfg);
            v.action == Open && MoistureReason(v.reason) ==> x.wIn.Some? && x.wOut.Some? && x.wIn.value > x.wOut.value
  {
  }

  /** Opening a window for any reason leaves the table open to it unless the mould guard or
      the thermal floor speaks: what the two window readings can disagree about. */
  lemma WindowOnlyTurnsOnCloses(x: Physics, a: Anchors, cfg: VentConfig)
    ensures var shut, open := Advise(x, false, a, cfg), Advise(x, true, a, cfg);
            open == shut || (open.action == Close && shut.action != Close)
  {
  }

  // ----- When protection answers whatever the window and the memory -----

  /** Airing gains at least `gain` grams and no floor is already being heated for. */
  predicate AiringHelps(x: Physics, gain: real) {
    DeltaAtLeast(x, gain) && !x.coolEdgeProtected
  }

  /** The memory of a running protection airing, and no memory at all. */
  const PROTECTING := Anchors(true, false, true, false)

  const FORGETFUL := Anchors(false, false, false, false)

  /** An open window meets the mould guard whatever is remembered exactly when the walls are not
      acutely wet, the fabric needs it warmer, the room is past its ceiling, and airing would not
      even hold its exit line. With nothing remembered the first three are enough. */
  lemma GuardAnswersExactly(x: Physics, cfg: VentConfig)
    requires ExitsBelowEntries(cfg)
    ensures (forall a :: Advise(x, true, a, cfg).reason == MoldGuard) <==>
              !SurfaceWet(x, cfg) && GuardLine(x) && !AiringHelps(x, cfg.deltaOff)
    ensures Advise(x, true, FORGETFUL, cfg).reason == MoldGuard <==> !SurfaceWet(x, cfg) && GuardLine(x)
  {
    if forall a :: Advise(x, true, a, cfg).reason == MoldGuard {
      assert Advise(x, true, PROTECTING, cfg).reason == MoldGuard;
    }
  }

  /** Moisture protection is asked for whatever the window and the memory exactly when the room is
      past its ceiling, airing reaches the entry line, and nothing speaks against an open window:
      neither a fabric that needs it warmer, nor a parched room, nor the thermal floor. */
  lemma ProtectionAnswersExactly(x: Physics, cfg: VentConfig)
    requires ExitsBelowEntries(cfg)
    ensures (forall w, a :: Advise(x, w, a, cfg).reason == MoistureProtect) <==>
              && !SurfaceWet(x, cfg) && OverSafe(x) && AiringHelps(x, cfg.deltaOn)
              && !x.surfaceNeedsWarmer && !(Dry(x, cfg) && OutsideDrier(x)) && !x.atThermalFloor
  {
    if forall w, a :: Advise(x, w, a, cfg).reason == MoistureProtect {
      assert Advise(x, true, FORGETFUL, cfg).reason == MoistureProtect;
    }
  }

  /** Both protection closes are warnings, whatever else holds. */
  lemma ProtectionCloseWarns(x: Physics, windowOpen: bool, a: Anchors, cfg: VentConfig)
    ensures var v := Advise(x, windowOpen, a, cfg);
            v.action == Close && v.reason in {MoldGuard, ThermalFloor} ==> v.level == LevelWarn
  {
  }

  // ----- Each answer in raw readings -----

  /** The mould cause speaks under every window and memory exactly when the surface mean is within
      the margin of its limit and the air outside is drier; it alerts when a floor holds or fails. */
  lemma MouldCauseAnswersExactly(x: Physics, windowOpen: bool, a: Anchors, cfg: VentConfig)
    ensures var v := Advise(x, windowOpen, a, cfg);
            && (v.reason == MoldRisk <==>
                  && x.wIn.Some? && x.wOut.Some? && x.wOut.value < x.wIn.value
                  && x.surfaceMean.Some? && cfg.surfaceLimit <= x.surfaceMean.value + cfg.surfaceMargin)
            && (v.reason == MoldRisk ==>
                  v.action == Open && v.level == if x.floorBinding || x.floorCapped then LevelAlert else LevelWarn)
  {
  }

  /** Where the mould cause is silent, a shut window is advised against for dryness exactly when the
      room is at or under either dryness line and the air outside is drier. */
  lemma DrynessAnswersExactly(x: Physics, a: Anchors, cfg: VentConfig)
    requires Advise(x, false, a, cfg).reason != MoldRisk
    ensures var v := Advise(x, false, a, cfg);
            && (v.reason == TooDry <==>
                  && x.wIn.Some? && x.wOut.Some? && x.wOut.value < x.wIn.value
                  && (x.wIn.value <= cfg.dryWarn || (x.rh.Some? && x.rh.value <= cfg.dryWarnRh)))
            && (v.reason == TooDry ==> v.action == Discourage && v.level == LevelWarn)
  {
  }

  /** Where neither of them would speak without the room's ceiling, a shut window is to be opened for
      protection exactly when the room is past that ceiling, airing gains its entry line, or its
      exit line while such an airing runs, and no floor is heated for. */
  lemma CeilingAnswersExactly(x: Physics, a: Anchors, cfg: VentConfig)
    requires Advise(x.(rhMaxSafe := None), false, a, cfg).reason !in {MoldRisk, TooDry}
    ensures var v := Advise(x, false, a, cfg);
            && (v.reason == MoistureProtect <==>
                  && x.rh.Some? && x.rhMaxSafe.Some? && x.rhMaxSafe.value < x.rh.value && !x.coolEdgeProtected
                  && x.wIn.Some? && x.wOut.Some?
                  && x.wIn.value - x.wOut.value >= if a.moistureProtect then cfg.deltaOff else cfg.deltaOn)
            && (v.reason == MoistureProtect ==> v.action == Open && v.level == LevelWarn)
  {
  }

  /** Where no protection and no dryness speaks, a shut window is to be opened for free cooling
      exactly when nothing else cools, the room is over its edge, the air outside is cooler by the
      entry or exit step and not too humid, and the surfaces are a margin short of their limit. */
  lemma FreeCoolingAnswersExactly(x: Physics, a: Anchors, cfg: VentConfig)
    requires Advise(x.(coolEdge := None), false, a, cfg).reason in {MoistureOut, Co2, NoGain, NoData}
    ensures var v := Advise(x, false, a, cfg);
            && (v.reason == HeatOut <==>
                  && !x.coolCapable && !x.fanCapable && !x.coolEdgeProtected
                  && x.room.Some? && x.coolEdge.Some? && x.tOut.Some? && x.wIn.Some? && x.wOut.Some?
                  && x.coolEdge.value < (if x.roomDecide.Some? then x.roomDecide.value else x.room.value)
                  && x.room.value - x.tOut.value >= (if a.heatOut then cfg.heatOutOff else cfg.heatOutOn)
                  && x.wOut.value - x.wIn.value <= cfg.heatOutHumidGuard
                  && (x.surfaceMean.Some? && x.criticalRh.Some? ==>
                        x.surfaceMean.value + cfg.moldGuardMargin < x.criticalRh.value))
            && (v.reason == HeatOut ==> v.action == Open && v.level == LevelOk)
  {
  }

  /** Where the table would say nothing of an empty room, a shut window is to be opened for moisture
      exactly for an occupant, over the gram line, from the humidity line on, with the entry gain, or
      the exit gain while an airing runs, and no floor heated for; and else for CO2 exactly for an
      occupant from the CO2 line on. */
  lemma ComfortAnswersExactly(x: Physics, a: Anchors, cfg: VentConfig)
    requires Advise(x.(occupied := false), false, a, cfg).action == Idle
    ensures var v := Advise(x, false, a, cfg);
            && (v.reason == MoistureOut <==>
                  && x.occupied && !x.coolEdgeProtected && x.wIn.Some? && x.wOut.Some? && x.rh.Some?
                  && cfg.moist < x.wIn.value && cfg.moistRh <= x.rh.value
                  && x.wIn.value - x.wOut.value >= if a.adviceActive then cfg.deltaOff else cfg.deltaOn)
            && (v.reason == Co2 <==>
                  v.reason != MoistureOut && x.occupied && x.co2.Some? && cfg.co2 <= x.co2.value)
            && (v.reason == MoistureOut || v.reason == Co2 ==> v.action == Open && v.level == LevelOk)
  {
  }

  /** Under every window and memory comfort never asks for an empty room, nor for moisture in a room
      at or under the gram line, under the humidity line, without the exit gain or over a heated
      floor. */
  lemma ComfortNeedsItsReadings(x: Physics, windowOpen: bool, a: Anchors, cfg: VentConfig)
    requires ExitsBelowEntries(cfg)
    ensures var r := Advise(x, windowOpen, a, cfg).reason;
            && (r == Co2 ==> x.occupied && x.co2.Some? && cfg.co2 <= x.co2.value)
            && (r == MoistureOut ==>
                  && x.occupied && !x.coolEdgeProtected && x.wIn.Some? && x.wOut.Some? && x.rh.Some?
                  && cfg.moist < x.wIn.value && cfg.moistRh <= x.rh.value
                  && x.wIn.value - x.wOut.value >= cfg.deltaOff)
  {
  }

  /** Where the mould cause is silent and nothing is remembered, an open window meets the mould guard
      exactly when the fabric needs it warmer and the room is past its ceiling. */
  lemma GuardReadsTheCeiling(x: Physics, cfg: VentConfig)
    requires Advise(x, true, FORGETFUL, cfg).reason != MoldRisk
    ensures Advise(x, true, FORGETFUL, cfg).reason == MoldGuard <==>
              x.surfaceNeedsWarmer && x.rh.Some? && x.rhMaxSafe.Some? && x.rhMaxSafe.value < x.rh.value
  {
  }

  /** An open window is told to close for the thermal floor exactly when the room stands on it and
      neither cause, guard nor dryness would speak of it elsewhere. */
  lemma FloorAnswersExactly(x: Physics, a: Anchors, cfg: VentConfig)
    ensures Advise(x, true, a, cfg).reason == ThermalFloor <==>
              x.atThermalFloor &&
              Advise(x.(atThermalFloor := false), true, a, cfg).reason !in {MoldRisk, MoldGuard, TooDry}
  {
  }

  /** Where nothing speaks for opening a shut window and no protection for closing it, an open one is
      closed exactly when an airing that had a cause has lost it, or the gain is spent. */
  lemma AiringEndsExactly(x: Physics, a: Anchors, cfg: VentConfig)
    requires Advise(x, false, a, cfg).action == Idle && !x.atThermalFloor && !x.surfaceNeedsWarmer
    ensures var v := Advise(x, true, a, cfg);
            && (v.action == Close <==>
                  a.moistureProtect || a.heatOut ||
                  (x.wIn.Some? && x.wOut.Some? && x.wIn.value - x.wOut.value < cfg.deltaOff))
            && (v.action == Close ==>
                  && v.level == LevelOk
                  && v.reason == if a.heatOut && !a.moistureProtect then CooledOff else TargetReached)
            && (v.action != Close ==> v == Advise(x, false, a, cfg))
  {
  }

  /** Off the floor and with a fabric that needs no more warmth an open window hears what a shut one
      does for a moisture demand, whatever airing it hands over from. */
  lemma MoistureTakesOver(x: Physics, a: Anchors, cfg: VentConfig)
    requires Advise(x, false, a, cfg).reason == MoistureOut && !x.atThermalFloor && !x.surfaceNeedsWarmer
    ensures Advise(x, true, a, cfg) == Advise(x, false, a, cfg)
  {
  }

  /** With nothing to say the table names its want of data or of a gain. */
  lemma SilenceNamesItsCause(x: Physics, windowOpen: bool, a: Anchors, cfg: VentConfig)
    requires Advise(x, windowOpen, a, cfg).action == Idle
    ensures var v := Advise(x, windowOpen, a, cfg);
            v.level == LevelOk && v.reason == if x.wIn.Some? && x.wOut.Some? then NoGain else NoData
  {
  }

  /** Hysteresis only holds: where a fresh table would open a shut window, so does one that
      remembers any airing. */
  lemma AnchorsOnlyHold(x: Physics, a: Anchors, cfg: VentConfig)
    requires ExitsBelowEntries(cfg)
    requires Advise(x, false, FORGETFUL, cfg).action == Open
    ensures Advise(x, false, a, cfg).action == Open
  {
  }

  /** Without the outdoor humidity no rule judges a gain: what remains is the mould guard, the
      thermal floor, CO2 and the ends of running airings. */
  lemma MissingHumidityGuessesNothing(x: Physics, windowOpen: bool, a: Anchors, cfg: VentConfig)
    requires x.wOut.None?
    ensures Advise(x, windowOpen, a, cfg).reason in {MoldGuard, ThermalFloor, Co2, CooledOff, TargetReached, NoData}
    ensures Advise(x, windowOpen, a, cfg).reason == TargetReached ==> windowOpen && a.moistureProtect
  {
  }
}
