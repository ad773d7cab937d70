/** The shared boiler's on/off state machine: activation delay, minimum dwell, keep-alive. */
module Boiler {
  import opened Options

  datatype BoilerState = BoilerState(on: bool, lastSwitch: real, demandSince: Option<real>, lastKeepalive: real)

  datatype Timing = Timing(activationDelay: real, minOn: real, minOff: real, keepalive: real)

  datatype Call = NoCall | CallOn | CallOff

  datatype Step = Step(state: BoilerState, call: Call)

  /** Far in the past, so that the first switch is never held back. */
  const LONG_AGO := -1000000000.0

  const FRESH_BOILER := BoilerState(false, LONG_AGO, None, 0.0)

  /** The dwell a boiler in state `on` still owes before it may leave that state. */
  function Dwell(on: bool, cfg: Timing): real {
    if on then cfg.minOn else cfg.minOff
  }

  /** Hold the current state until its minimum dwell has passed. */
  function GateMinCycle(desired: bool, s: BoilerState, now: real, cfg: Timing): bool {
    if desired == s.on then s.on
    else if s.on then now - s.lastSwitch < cfg.minOn
    else now - s.lastSwitch >= cfg.minOff
  }

  /** Since when has there been demand, as remembered. */
  function LatchDemand(since: Option<real>, demand: bool, now: real): Option<real> {
    if !demand then None else if since.None? then Some(now) else since
  }

  function TargetState(s: BoilerState, demand: bool, now: real, cfg: Timing): bool {
    var desired := if s.on then demand
                   else demand && s.demandSince.Some? && now - s.demandSince.value >= cfg.activationDelay;
    GateMinCycle(desired, s, now, cfg)
  }

  function CallFor(on: bool): Call {
    if on then CallOn else CallOff
  }

  function StepBoiler(s: BoilerState, demand: bool, now: real, cfg: Timing, allowKeepalive: bool): Step {
    var latched := s.(demandSince := LatchDemand(s.demandSince, demand, now));
    var target := TargetState(latched, demand, now, cfg);
    if target != s.on then
      Step(latched.(on := target, lastSwitch := now, lastKeepalive := now), CallFor(target))
    else if allowKeepalive && cfg.keepalive > 0.0 && now - s.lastKeepalive >= cfg.keepalive then
      Step(latched.(lastKeepalive := now), CallFor(s.on))
    else
      Step(latched, NoCall)
  }

  /** One tick of the machine, every call it asks for being carried out. */
  datatype Demand = Demand(active: bool, now: real)

  function StateAfter(s: BoilerState, ticks: seq<Demand>, cfg: Timing): BoilerState {
    if ticks == [] then s
    else
      var last := ticks[|ticks| - 1];
      StepBoiler(StateAfter(s, ticks[..|ticks| - 1], cfg), last.active, last.now, cfg, true).state
  }

  function CallAt(s: BoilerState, ticks: seq<Demand>, cfg: Timing, i: nat): Call
    requires i < |ticks|
  {
    StepBoiler(StateAfter(s, ticks[..i], cfg), ticks[i].active, ticks[i].now, cfg, true).call
  }

  // ----- The activation delay -----

  /** Where the unbroken demand that reaches to the end of the run began; the length of the run
      when there is none. */
  function HeldFrom(ticks: seq<Demand>): (j: nat)
    ensures j <= |ticks|
    ensures forall k :: j <= k < |ticks| ==> ticks[k].active
    ensures j > 0 ==> !ticks[j - 1].active
  {
    if ticks == [] then 0
    else if !ticks[|ticks| - 1].active then |ticks|
    else HeldFrom(ticks[..|ticks| - 1])
  }

  /** Over committed runs the latch is exactly the start of the demand that still lasts. */
  lemma {:induction false} LatchIsStartOfDemand(s: BoilerState, ticks: seq<Demand>, cfg: Timing)
    requires s.demandSince == None
    ensures StateAfter(s, ticks, cfg).demandSince ==
            (if HeldFrom(ticks) == |ticks| then None else Some(ticks[HeldFrom(ticks)].now))
    decreases |ticks|
  {
    if ticks != [] {
      LatchIsStartOfDemand(s, ticks[..|ticks| - 1], cfg);
    }
  }

  /** When a run last switched the boiler over, or what it started from. */
  function LastSwitch(s: BoilerState, ticks: seq<Demand>, cfg: Timing): real {
    if ticks == [] then s.lastSwitch
    else
      var n := |ticks| - 1;
      if StateAfter(s, ticks, cfg).on != StateAfter(s, ticks[..n], cfg).on then ticks[n].now
      else LastSwitch(s, ticks[..n], cfg)
  }

  lemma {:induction false} StampIsLastSwitch(s: BoilerState, ticks: seq<Demand>, cfg: Timing)
    ensures StateAfter(s, ticks, cfg).lastSwitch == LastSwitch(s, ticks, cfg)
    decreases |ticks|
  {
    if ticks != [] {
      StampIsLastSwitch(s, ticks[..|ticks| - 1], cfg);
    }
  }

  /** One tick of a boiler that is off, in terms of the latch that tick leaves behind. */
  lemma OnStep(s: BoilerState, demand: bool, now: real, cfg: Timing, allow: bool)
    requires !s.on
    ensures var r := StepBoiler(s, demand, now, cfg, allow).state;
            r.on <==>
              r.demandSince.Some? && now - r.demandSince.value >= cfg.activationDelay &&
              now - s.lastSwitch >= cfg.minOff
  {
  }

  /** A boiler that is off turns on exactly when demand has lasted without a break for the
      activation delay and the minimum off time has passed. */
  lemma OnNeedsUnbrokenDemand(s: BoilerState, ticks: seq<Demand>, cfg: Timing)
    requires s.demandSince == None && ticks != []
    requires !StateAfter(s, ticks[..|ticks| - 1], cfg).on
    ensures var n := |ticks| - 1;
            var j := HeldFrom(ticks);
            StateAfter(s, ticks, cfg).on <==>
              (j <= n && ticks[n].now - ticks[j].now >= cfg.activationDelay &&
               ticks[n].now - LastSwitch(s, ticks[..n], cfg) >= cfg.minOff)
  {
    var n := |ticks| - 1;
    StampIsLastSwitch(s, ticks[..n], cfg);
    LatchIsStartOfDemand(s, ticks, cfg);
    OnStep(StateAfter(s, ticks[..n], cfg), ticks[n].active, ticks[n].now, cfg, true);
  }

  /** One tick of a boiler that is on. */
  lemma OffStep(s: BoilerState, demand: bool, now: real, cfg: Timing, allow: bool)
    requires s.on
    ensures !StepBoiler(s, demand, now, cfg, allow).state.on <==> !demand && now - s.lastSwitch >= cfg.minOn
  {
  }

  /** A boiler that is on turns off exactly on a tick without demand that comes no earlier than the
      minimum on time after it was last switched. */
  lemma OffExactlyWithoutDemand(s: BoilerState, ticks: seq<Demand>, cfg: Timing)
    requires ticks != [] && StateAfter(s, ticks[..|ticks| - 1], cfg).on
    ensures var n := |ticks| - 1;
            !StateAfter(s, ticks, cfg).on <==>
              !ticks[n].active && ticks[n].now - LastSwitch(s, ticks[..n], cfg) >= cfg.minOn
  {
    var n := |ticks| - 1;
    StampIsLastSwitch(s, ticks[..n], cfg);
    OffStep(StateAfter(s, ticks[..n], cfg), ticks[n].active, ticks[n].now, cfg, true);
  }

  // ----- The keep-alive -----

  /** A run without a call ends less than a keep-alive interval after the last call. */
  lemma {:induction false} SilenceIsShort(s: BoilerState, ticks: seq<Demand>, cfg: Timing)
    requires cfg.keepalive > 0.0 && ticks != []
    requires forall i :: 0 <= i < |ticks| ==> CallAt(s, ticks, cfg, i) == NoCall
    ensures ticks[|ticks| - 1].now - s.lastKeepalive < cfg.keepalive
    ensures StateAfter(s, ticks, cfg).lastKeepalive == s.lastKeepalive
    ensures StateAfter(s, ticks, cfg).on == s.on
    decreases |ticks|
  {
    var n := |ticks| - 1;
    assert CallAt(s, ticks, cfg, n) == NoCall;
    if n > 0 {
      forall i | 0 <= i < n ensures CallAt(s, ticks[..n], cfg, i) == NoCall {
        assert ticks[..n][..i] == ticks[..i];
        assert CallAt(s, ticks, cfg, i) == NoCall;
      }
      SilenceIsShort(s, ticks[..n], cfg);
    }
  }

  lemma {:induction false} RunsCompose(s: BoilerState, a: seq<Demand>, b: seq<Demand>, cfg: Timing)
    ensures StateAfter(s, a + b, cfg) == StateAfter(StateAfter(s, a, cfg), b, cfg)
    decreases |b|
  {
    if b == [] {
      assert a + b == a;
    } else {
      assert (a + b)[..|a + b| - 1] == a + b[..|b| - 1];
      RunsCompose(s, a, b[..|b| - 1], cfg);
    }
  }

  /** After a call the next one comes at the latest on the first tick that is a keep-alive
      interval later: calls are at most one interval plus one tick gap apart. */
  lemma CallsAreDense(s: BoilerState, ticks: seq<Demand>, cfg: Timing, i: nat, j: nat)
    requires cfg.keepalive > 0.0 && i < j < |ticks|
    requires CallAt(s, ticks, cfg, i) != NoCall && ticks[j].now - ticks[i].now >= cfg.keepalive
    ensures exists k :: i < k <= j && CallAt(s, ticks, cfg, k) != NoCall
  {
    if forall k :: i < k <= j ==> CallAt(s, ticks, cfg, k) == NoCall {
      var st := StateAfter(s, ticks[..i + 1], cfg);
      assert ticks[..i + 1][..i] == ticks[..i];
      assert st.lastKeepalive == ticks[i].now;
      var rest := ticks[i + 1..j + 1];
      forall m | 0 <= m < |rest| ensures CallAt(st, rest, cfg, m) == NoCall {
        assert ticks[..i + 1 + m] == ticks[..i + 1] + rest[..m];
        RunsCompose(s, ticks[..i + 1], rest[..m], cfg);
        assert CallAt(s, ticks, cfg, i + 1 + m) == NoCall;
      }
      SilenceIsShort(st, rest, cfg);
    }
  }

  // ----- Restart -----

  /** What survives a restart: monotonic time is re-anchored to the wall clock. */
  datatype Payload = Payload(on: bool, lastSwitchWall: Option<real>, hasActuated: bool)

  function Max(a: real, b: real): real {
    if a < b then b else a
  }

  function ToPayload(s: BoilerState, now: real, wall: real, hasActuated: bool): Payload {
    Payload(s.on, Some(wall - Max(0.0, now - s.lastSwitch)), hasActuated)
  }

  function RestoreBoiler(p: Option<Payload>, now: real, wall: real): (BoilerState, bool) {
    if p.None? then (FRESH_BOILER, false)
    else if p.value.lastSwitchWall.None? then (FRESH_BOILER.(on := p.value.on), p.value.hasActuated)
    else (FRESH_BOILER.(on := p.value.on, lastSwitch := now - Max(0.0, wall - p.value.lastSwitchWall.value)),
          p.value.hasActuated)
  }

  /** Saving and restoring keeps the belief and carries the elapsed dwell over by the advance of
      the wall clock; a clock that jumps back never lets it read longer than it was saved. */
  lemma DwellSurvivesRestart(s: BoilerState, savedNow: real, savedWall: real, now: real, wall: real, flag: bool)
    ensures var (r, a) := RestoreBoiler(Some(ToPayload(s, savedNow, savedWall, flag)), now, wall);
            var saved := Max(0.0, savedNow - s.lastSwitch);
            && r.on == s.on && a == flag && r.demandSince == None
            && now - r.lastSwitch == Max(0.0, saved + (wall - savedWall))
            && (wall <= savedWall ==> now - r.lastSwitch <= saved)
            && r.lastSwitch <= now
  {
  }
}
