/** The hub around the boiler: service calls may fail, the process may restart, and the belief is
    reconciled once with the real device. */
module BoilerHub {
  import opened Options
  import opened Boiler

  /** Minimum dwell is physical: no configured value may undercut it. */
  const DWELL_FLOOR := 120.0

  datatype HubState = HubState(boiler: BoilerState, reconciled: bool, restored: bool, hasActuated: bool,
                               stored: Option<Payload>)

  /** One hub tick: its inputs and everything the outside world decides during it. */
  datatype HubTick = HubTick(
    demand: bool, now: real, loadOk: bool, wallAtLoad: real, device: Option<bool>,
    callOk: bool, saveOk: bool, wallAtSave: real)

  datatype Outcome = Outcome(hub: HubState, call: Call, accepted: bool)

  /** One-time restore of the persisted state; a failed load leaves the fresh one. */
  function Restored(h: HubState, t: HubTick): HubState {
    if h.restored then h
    else if !t.loadOk then h.(restored := true)
    else
      var (boiler, hasActuated) := RestoreBoiler(h.stored, t.now, t.wallAtLoad);
      h.(restored := true, boiler := boiler, hasActuated := hasActuated)
  }

  /** The switch stamp of a boiler found in state `found`. */
  function ReconciledStamp(s: BoilerState, found: bool, now: real, cfg: Timing): real {
    if found == s.on then s.lastSwitch
    else if found then now
    else now - Max(cfg.minOff, cfg.minOn)
  }

  /** One-time reconciliation of the belief with the first readable device state. */
  function Reconciled(h: HubState, t: HubTick, cfg: Timing): HubState {
    if h.reconciled || t.device.None? then h
    else h.(reconciled := true,
            boiler := BoilerState(t.device.value, ReconciledStamp(h.boiler, t.device.value, t.now, cfg),
                                  h.boiler.demandSince, t.now))
  }

  /** A flip, or the very first call, is persisted if the store lets it. */
  function Persisted(h: HubState, t: HubTick): HubState {
    if t.saveOk then h.(stored := Some(ToPayload(h.boiler, t.now, t.wallAtSave, h.hasActuated))) else h
  }

  /** Step, call, and commit only what the device accepted. */
  function Committed(h: HubState, t: HubTick, cfg: Timing): Outcome {
    var step := StepBoiler(h.boiler, t.demand, t.now, cfg, h.reconciled);
    if step.call == NoCall then Outcome(h.(boiler := step.state), NoCall, true)
    else if !t.callOk then Outcome(h, step.call, false)
    else
      var done := h.(boiler := step.state, hasActuated := true);
      Outcome(if !h.hasActuated || step.state.on != h.boiler.on then Persisted(done, t) else done, step.call, true)
  }

  function Actuated(h: HubState, t: HubTick, cfg: Timing): Outcome {
    Committed(Reconciled(Restored(h, t), t, cfg), t, cfg)
  }

  /** What a new process starts from: nothing but the store of the last one. */
  function NewProcess(stored: Option<Payload>): HubState {
    HubState(FRESH_BOILER, false, false, false, stored)
  }

  // ----- The hub object -----

  /** The persistent store, which outlives the process. */
  class Store {
    var content: Option<Payload>

    constructor ()
      ensures content == None
    {
      content := None;
    }
  }

  class Hub {
    const timing: Timing
    const store: Store
    var boiler: BoilerState
    var reconciled: bool
    var restored: bool
    var hasActuated: bool

    /** Configured dwells are raised to the floor; delay and keep-alive are taken as they are. */
    constructor (configured: Timing, store: Store)
      ensures timing.minOn == (if configured.minOn < 120.0 then 120.0 else configured.minOn)
      ensures timing.minOff == (if configured.minOff < 120.0 then 120.0 else configured.minOff)
      ensures timing.activationDelay == configured.activationDelay && timing.keepalive == configured.keepalive
      ensures this.store == store
      ensures View() == NewProcess(store.content)
    {
      this.timing := configured.(minOn := Max(DWELL_FLOOR, configured.minOn),
                                 minOff := Max(DWELL_FLOOR, configured.minOff));
      this.store := store;
      boiler, reconciled, restored, hasActuated := FRESH_BOILER, false, false, false;
    }

    ghost function View(): HubState
      reads this, store
    {
      HubState(boiler, reconciled, restored, hasActuated, store.content)
    }

    method RestoreState(now: real, loadOk: bool, wall: real)
      modifies this
      ensures forall t: HubTick :: t.now == now && t.loadOk == loadOk && t.wallAtLoad == wall ==>
                View() == Restored(old(View()), t)
    {
      if restored {
        return;
      }
      restored := true;
      if !loadOk {
        return;
      }
      var (b, a) := RestoreBoiler(store.content, now, wall);
      boiler, hasActuated := b, a;
    }

    method Persist(now: real, saveOk: bool, wall: real)
      modifies store
      ensures forall t: HubTick :: t.now == now && t.saveOk == saveOk && t.wallAtSave == wall ==>
                View() == Persisted(old(View()), t)
    {
      if saveOk {
        store.content := Some(ToPayload(boiler, now, wall, hasActuated));
      }
    }

    method Actuate(t: HubTick) returns (call: Call, accepted: bool)
      modifies this, store
      ensures Outcome(View(), call, accepted) == Actuated(old(View()), t, timing)
    {
      RestoreState(t.now, t.loadOk, t.wallAtLoad);
      if !reconciled && t.device.Some? {
        var lastSwitch := t.now - Max(timing.minOff, timing.minOn);
        if t.device.value == boiler.on {
          lastSwitch := boiler.lastSwitch;
        } else if t.device.value {
          lastSwitch := t.now;
        }
        boiler := BoilerState(t.device.value, lastSwitch, boiler.demandSince, t.now);
        reconciled := true;
      }
      assert View() == Reconciled(Restored(old(View()), t), t, timing);
      var step := StepBoiler(boiler, t.demand, t.now, timing, reconciled);
      var wasOn := boiler.on;
      call := step.call;
      if call != NoCall && !t.callOk {
        return call, false;
      }
      boiler := step.state;
      if call != NoCall {
        var newlyActuated := !hasActuated;
        hasActuated := true;
        if newlyActuated || boiler.on != wasOn {
          Persist(t.now, t.saveOk, t.wallAtSave);
        }
      }
      accepted := true;
    }
  }

  // ----- Runs of the hub -----

  function HubAfter(h: HubState, ticks: seq<HubTick>, cfg: Timing): HubState {
    if ticks == [] then h
    else Actuated(HubAfter(h, ticks[..|ticks| - 1], cfg), ticks[|ticks| - 1], cfg).hub
  }

  function OutcomeAt(h: HubState, ticks: seq<HubTick>, cfg: Timing, i: nat): Outcome
    requires i < |ticks|
  {
    Actuated(HubAfter(h, ticks[..i], cfg), ticks[i], cfg)
  }

  /** Did tick `i` make the device change over? */
  predicate Flip(h: HubState, ticks: seq<HubTick>, cfg: Timing, i: nat)
    requires i < |ticks|
  {
    var o := OutcomeAt(h, ticks, cfg, i);
    o.accepted && o.call != NoCall && o.call == CallFor(!HubAfter(h, ticks[..i], cfg).boiler.on)
  }

  /** A hub that has restored its state and will not be surprised by the device. */
  predicate Settled(h: HubState, t: HubTick) {
    h.restored && (h.reconciled || t.device == None || t.device == Some(h.boiler.on))
  }

  /** One settled tick: the belief moves only with an accepted call that contradicts it, the
      switch stamp only with the belief, and both only after the dwell. */
  lemma SettledStep(h: HubState, t: HubTick, cfg: Timing)
    requires Settled(h, t)
    ensures var o := Actuated(h, t, cfg);
            var flipped := o.hub.boiler.on != h.boiler.on;
            && o.hub.restored
            && (h.reconciled ==> o.hub.reconciled)
            && (flipped <==> o.accepted && o.call == CallFor(!h.boiler.on))
            && (!flipped ==> o.hub.boiler.lastSwitch == h.boiler.lastSwitch)
            && (flipped ==> o.hub.boiler.lastSwitch == t.now && t.now - h.boiler.lastSwitch >= Dwell(h.boiler.on, cfg))
            && (o.accepted && o.call != NoCall ==> o.call == CallFor(o.hub.boiler.on))
            && (!flipped && h.hasActuated ==> o.hub.hasActuated && o.hub.stored == h.stored)
            && (flipped && t.saveOk ==>
                  o.hub.hasActuated && o.hub.stored == Some(Payload(o.hub.boiler.on, Some(t.wallAtSave), true)))
  {
  }

  /** Every tick of the run finds the hub settled. */
  ghost predicate AllSettled(h: HubState, ticks: seq<HubTick>, cfg: Timing) {
    forall k :: 0 <= k < |ticks| ==> Settled(HubAfter(h, ticks[..k], cfg), ticks[k])
  }

  ghost predicate NoFlips(h: HubState, ticks: seq<HubTick>, cfg: Timing) {
    forall k :: 0 <= k < |ticks| ==> !Flip(h, ticks, cfg, k)
  }

  lemma PrefixOfRun(h: HubState, ticks: seq<HubTick>, cfg: Timing, n: nat)
    requires n <= |ticks|
    ensures AllSettled(h, ticks, cfg) ==> AllSettled(h, ticks[..n], cfg)
    ensures NoFlips(h, ticks, cfg) ==> NoFlips(h, ticks[..n], cfg)
  {
    forall k | 0 <= k < n ensures ticks[..n][..k] == ticks[..k] {
    }
    if NoFlips(h, ticks, cfg) {
      forall k | 0 <= k < n ensures !Flip(h, ticks[..n], cfg, k) {
        assert !Flip(h, ticks, cfg, k);
      }
    }
  }

  /** Without a flip the belief, its switch stamp and what is stored of it all stay. */
  lemma {:induction false} NoFlipKeepsTheDwell(h: HubState, ticks: seq<HubTick>, cfg: Timing)
    requires h.restored && AllSettled(h, ticks, cfg) && NoFlips(h, ticks, cfg)
    ensures var r := HubAfter(h, ticks, cfg);
            && r.restored && (h.reconciled ==> r.reconciled)
            && r.boiler.on == h.boiler.on && r.boiler.lastSwitch == h.boiler.lastSwitch
            && (h.hasActuated ==> r.hasActuated && r.stored == h.stored)
    decreases |ticks|
  {
    if ticks != [] {
      var n := |ticks| - 1;
      PrefixOfRun(h, ticks, cfg, n);
      NoFlipKeepsTheDwell(h, ticks[..n], cfg);
      assert !Flip(h, ticks, cfg, n);
      SettledStep(HubAfter(h, ticks[..n], cfg), ticks[n], cfg);
    }
  }

  /** The first flip of a run waits for the dwell the hub starts with. */
  lemma FirstFlipWaits(h: HubState, ticks: seq<HubTick>, cfg: Timing)
    requires h.restored && ticks != [] && AllSettled(h, ticks, cfg)
    requires NoFlips(h, ticks[..|ticks| - 1], cfg) && Flip(h, ticks, cfg, |ticks| - 1)
    ensures ticks[|ticks| - 1].now - h.boiler.lastSwitch >= Dwell(h.boiler.on, cfg)
  {
    var n := |ticks| - 1;
    PrefixOfRun(h, ticks, cfg, n);
    NoFlipKeepsTheDwell(h, ticks[..n], cfg);
    SettledStep(HubAfter(h, ticks[..n], cfg), ticks[n], cfg);
  }

  /** A reconciled hub stays reconciled, whatever happens. */
  lemma {:induction false} ReconciledForGood(h: HubState, ticks: seq<HubTick>, cfg: Timing)
    requires h.restored && h.reconciled
    ensures var r := HubAfter(h, ticks, cfg); r.restored && r.reconciled
    ensures AllSettled(h, ticks, cfg)
    decreases |ticks|
  {
    if ticks != [] {
      var n := |ticks| - 1;
      ReconciledForGood(h, ticks[..n], cfg);
      SettledStep(HubAfter(h, ticks[..n], cfg), ticks[n], cfg);
      forall k | 0 <= k < |ticks| ensures Settled(HubAfter(h, ticks[..k], cfg), ticks[k]) {
        if k < n {
          assert ticks[..n][..k] == ticks[..k];
          assert Settled(HubAfter(h, ticks[..n][..k], cfg), ticks[..n][k]);
        }
      }
    }
  }

  lemma OneMoreTick(h: HubState, ticks: seq<HubTick>, cfg: Timing, k: nat)
    requires h.restored && h.reconciled && k < |ticks|
    ensures HubAfter(h, ticks[..k + 1], cfg) == Actuated(HubAfter(h, ticks[..k], cfg), ticks[k], cfg).hub
    ensures Settled(HubAfter(h, ticks[..k], cfg), ticks[k]) && HubAfter(h, ticks[..k], cfg).reconciled
  {
    assert ticks[..k + 1][..k] == ticks[..k];
    ReconciledForGood(h, ticks[..k], cfg);
  }

  /** From a flip to the next the belief stays and carries the stamp of the flip. */
  lemma {:induction false} StampSinceFlip(h: HubState, ticks: seq<HubTick>, cfg: Timing, i: nat, k: nat)
    requires h.restored && h.reconciled && i < k <= |ticks| && Flip(h, ticks, cfg, i)
    requires forall m :: i < m < k ==> !Flip(h, ticks, cfg, m)
    ensures var r := HubAfter(h, ticks[..k], cfg).boiler;
            r.lastSwitch == ticks[i].now && r.on == HubAfter(h, ticks[..i + 1], cfg).boiler.on
    decreases k
  {
    OneMoreTick(h, ticks, cfg, k - 1);
    SettledStep(HubAfter(h, ticks[..k - 1], cfg), ticks[k - 1], cfg);
    if k - 1 > i {
      assert !Flip(h, ticks, cfg, k - 1);
      StampSinceFlip(h, ticks, cfg, i, k - 1);
    }
  }

  /** For every pattern of demand, clock and failing calls: once reconciled, consecutive accepted
      flips are at least the dwell of the state between them apart. */
  lemma FlipsAreApart(h: HubState, ticks: seq<HubTick>, cfg: Timing, i: nat, j: nat)
    requires h.restored && h.reconciled && i < j < |ticks|
    requires Flip(h, ticks, cfg, i) && Flip(h, ticks, cfg, j)
    requires forall m :: i < m < j ==> !Flip(h, ticks, cfg, m)
    ensures ticks[j].now - ticks[i].now >= Dwell(HubAfter(h, ticks[..i + 1], cfg).boiler.on, cfg)
  {
    StampSinceFlip(h, ticks, cfg, i, j);
    OneMoreTick(h, ticks, cfg, j);
    SettledStep(HubAfter(h, ticks[..j], cfg), ticks[j], cfg);
  }

  // ----- The belief is the last accepted command -----

  function LastAccepted(h: HubState, ticks: seq<HubTick>, cfg: Timing): bool {
    if ticks == [] then h.boiler.on
    else
      var o := OutcomeAt(h, ticks, cfg, |ticks| - 1);
      if o.accepted && o.call != NoCall then o.call == CallOn else LastAccepted(h, ticks[..|ticks| - 1], cfg)
  }

  lemma {:induction false} BeliefIsLastAccepted(h: HubState, ticks: seq<HubTick>, cfg: Timing)
    requires h.restored && h.reconciled
    ensures HubAfter(h, ticks, cfg).boiler.on == LastAccepted(h, ticks, cfg)
    decreases |ticks|
  {
    if ticks != [] {
      var n := |ticks| - 1;
      BeliefIsLastAccepted(h, ticks[..n], cfg);
      ReconciledForGood(h, ticks[..n], cfg);
      SettledStep(HubAfter(h, ticks[..n], cfg), ticks[n], cfg);
    }
  }

  // ----- Failed calls are retried -----

  /** A due flip whose calls keep failing is asked for again on every tick of unchanged demand,
      and nothing is committed until the device accepts it. */
  lemma {:induction false} DueFlipIsRetried(h: HubState, ticks: seq<HubTick>, cfg: Timing)
    requires h.restored && h.reconciled && ticks != []
    requires Actuated(h, ticks[0], cfg).call == CallFor(!h.boiler.on)
    requires forall k :: 0 <= k < |ticks| ==> ticks[k].demand == ticks[0].demand && ticks[0].now <= ticks[k].now
    requires forall k :: 0 <= k < |ticks| - 1 ==> !ticks[k].callOk
    ensures HubAfter(h, ticks[..|ticks| - 1], cfg) == h
    ensures var o := OutcomeAt(h, ticks, cfg, |ticks| - 1);
            o.call == CallFor(!h.boiler.on) && (o.hub.boiler.on != h.boiler.on <==> ticks[|ticks| - 1].callOk)
    decreases |ticks|
  {
    var n := |ticks| - 1;
    if n > 0 {
      DueFlipIsRetried(h, ticks[..n], cfg);
      assert ticks[..n][..n - 1] == ticks[..n - 1];
    }
    DueStaysDue(h, ticks[0], ticks[n], cfg);
    SettledStep(h, ticks[n], cfg);
  }

  lemma DueStaysDue(h: HubState, t: HubTick, u: HubTick, cfg: Timing)
    requires h.restored && h.reconciled && t.demand == u.demand && t.now <= u.now
    requires Actuated(h, t, cfg).call == CallFor(!h.boiler.on)
    ensures Actuated(h, u, cfg).call == CallFor(!h.boiler.on)
  {
  }

  // ----- The activation latch under failing calls -----

  /** A tick without demand forgets the activation latch exactly unless a call is due on it and
      fails: then the whole step is discarded, the cleared latch with it. */
  lemma LatchForgetsExactlyUnless(h: HubState, t: HubTick, cfg: Timing)
    requires h.restored && h.reconciled && !t.demand
    ensures var due := (h.boiler.on && t.now - h.boiler.lastSwitch >= cfg.minOn) ||
                       (cfg.keepalive > 0.0 && t.now - h.boiler.lastKeepalive >= cfg.keepalive);
            Actuated(h, t, cfg).hub.boiler.demandSince == None <==>
              h.boiler.demandSince == None || !due || t.callOk
  {
  }

  function Demands(ticks: seq<HubTick>): (ds: seq<Demand>)
    ensures |ds| == |ticks|
    ensures forall k :: 0 <= k < |ticks| ==> ds[k] == Demand(ticks[k].demand, ticks[k].now)
  {
    if ticks == [] then []
    else Demands(ticks[..|ticks| - 1]) + [Demand(ticks[|ticks| - 1].demand, ticks[|ticks| - 1].now)]
  }

  /** The ticks whose step was committed: no call was due, or the device accepted it. */
  function KeptTicks(h: HubState, ticks: seq<HubTick>, cfg: Timing): seq<int> {
    if ticks == [] then []
    else
      var n := |ticks| - 1;
      if OutcomeAt(h, ticks, cfg, n).accepted then KeptTicks(h, ticks[..n], cfg) + [n]
      else KeptTicks(h, ticks[..n], cfg)
  }

  /** The demand the committed steps have seen. */
  function KeptDemands(h: HubState, ticks: seq<HubTick>, cfg: Timing): seq<Demand> {
    if ticks == [] then []
    else
      var n := |ticks| - 1;
      if OutcomeAt(h, ticks, cfg, n).accepted then
        KeptDemands(h, ticks[..n], cfg) + [Demand(ticks[n].demand, ticks[n].now)]
      else KeptDemands(h, ticks[..n], cfg)
  }

  /** A step is committed whole or not at all. */
  lemma CommittedWhole(h: HubState, t: HubTick, cfg: Timing)
    requires h.restored && h.reconciled
    ensures var o := Actuated(h, t, cfg);
            if o.accepted then o.hub.boiler == StepBoiler(h.boiler, t.demand, t.now, cfg, true).state else o.hub == h
  {
  }

  /** With failing calls the hub runs exactly like the bare machine on the ticks it keeps. */
  lemma {:induction false} HubRunsOnKeptTicks(h: HubState, ticks: seq<HubTick>, cfg: Timing)
    requires h.restored && h.reconciled
    ensures HubAfter(h, ticks, cfg).boiler == StateAfter(h.boiler, KeptDemands(h, ticks, cfg), cfg)
    decreases |ticks|
  {
    if ticks != [] {
      var n := |ticks| - 1;
      HubRunsOnKeptTicks(h, ticks[..n], cfg);
      ReconciledForGood(h, ticks[..n], cfg);
      CommittedWhole(HubAfter(h, ticks[..n], cfg), ticks[n], cfg);
      var kept := KeptDemands(h, ticks[..n], cfg);
      assert (kept + [Demand(ticks[n].demand, ticks[n].now)])[..|kept|] == kept;
    }
  }

  /** The kept ticks ascend and carry the kept demands. */
  lemma {:induction false} KeptTicksMatch(h: HubState, ticks: seq<HubTick>, cfg: Timing)
    ensures var idx, ds := KeptTicks(h, ticks, cfg), KeptDemands(h, ticks, cfg);
            && |idx| == |ds|
            && (forall j :: 0 <= j < |idx| ==>
                  0 <= idx[j] < |ticks| && ds[j] == Demand(ticks[idx[j]].demand, ticks[idx[j]].now))
            && (forall i, j :: 0 <= i < j < |idx| ==> idx[i] < idx[j])
    decreases |ticks|
  {
    if ticks != [] {
      KeptTicksMatch(h, ticks[..|ticks| - 1], cfg);
    }
  }

  /** Every committed tick is among them. */
  lemma {:induction false} KeptTickOf(h: HubState, ticks: seq<HubTick>, cfg: Timing, k: nat) returns (j: nat)
    requires k < |ticks| && OutcomeAt(h, ticks, cfg, k).accepted
    ensures j < |KeptTicks(h, ticks, cfg)| && KeptTicks(h, ticks, cfg)[j] == k
    decreases |ticks|
  {
    var n := |ticks| - 1;
    if k < n {
      assert ticks[..n][..k] == ticks[..k];
      j := KeptTickOf(h, ticks[..n], cfg, k);
    } else {
      j := |KeptTicks(h, ticks[..n], cfg)|;
    }
  }

  /** When the device last accepted a change-over, or the stamp the hub started with. */
  function LastFlip(h: HubState, ticks: seq<HubTick>, cfg: Timing): real {
    if ticks == [] then h.boiler.lastSwitch
    else
      var n := |ticks| - 1;
      if Flip(h, ticks, cfg, n) then ticks[n].now else LastFlip(h, ticks[..n], cfg)
  }

  lemma {:induction false} StampIsLastFlip(h: HubState, ticks: seq<HubTick>, cfg: Timing)
    requires h.restored && h.reconciled
    ensures HubAfter(h, ticks, cfg).boiler.lastSwitch == LastFlip(h, ticks, cfg)
    decreases |ticks|
  {
    if ticks != [] {
      var n := |ticks| - 1;
      StampIsLastFlip(h, ticks[..n], cfg);
      ReconciledForGood(h, ticks[..n], cfg);
      SettledStep(HubAfter(h, ticks[..n], cfg), ticks[n], cfg);
    }
  }

  /** On a committed tick a hub that is off turns on exactly when demand is unbroken over the
      ticks it kept for the activation delay and the minimum off time has passed since the last
      accepted change-over. */
  lemma HubTurnsOnExactly(h: HubState, ticks: seq<HubTick>, cfg: Timing)
    requires h.restored && h.reconciled && h.boiler.demandSince == None && ticks != []
    requires OutcomeAt(h, ticks, cfg, |ticks| - 1).accepted && !HubAfter(h, ticks[..|ticks| - 1], cfg).boiler.on
    ensures var n := |ticks| - 1;
            var kept := KeptDemands(h, ticks, cfg);
            var j := HeldFrom(kept);
            HubAfter(h, ticks, cfg).boiler.on <==>
              (j < |kept| && ticks[n].now - kept[j].now >= cfg.activationDelay &&
               ticks[n].now - LastFlip(h, ticks[..n], cfg) >= cfg.minOff)
  {
    var n := |ticks| - 1;
    var kept := KeptDemands(h, ticks, cfg);
    HubRunsOnKeptTicks(h, ticks, cfg);
    LatchIsStartOfDemand(h.boiler, kept, cfg);
    ReconciledForGood(h, ticks[..n], cfg);
    CommittedWhole(HubAfter(h, ticks[..n], cfg), ticks[n], cfg);
    OnStep(HubAfter(h, ticks[..n], cfg).boiler, ticks[n].demand, ticks[n].now, cfg, true);
    StampIsLastFlip(h, ticks[..n], cfg);
  }

  /** On a committed tick a hub that is on turns off exactly when that tick has no demand and the
      minimum on time has passed since the last accepted change-over. */
  lemma HubTurnsOffExactly(h: HubState, ticks: seq<HubTick>, cfg: Timing)
    requires h.restored && h.reconciled && ticks != []
    requires OutcomeAt(h, ticks, cfg, |ticks| - 1).accepted && HubAfter(h, ticks[..|ticks| - 1], cfg).boiler.on
    ensures var n := |ticks| - 1;
            !HubAfter(h, ticks, cfg).boiler.on <==>
              !ticks[n].demand && ticks[n].now - LastFlip(h, ticks[..n], cfg) >= cfg.minOn
  {
    var n := |ticks| - 1;
    ReconciledForGood(h, ticks[..n], cfg);
    CommittedWhole(HubAfter(h, ticks[..n], cfg), ticks[n], cfg);
    OffStep(HubAfter(h, ticks[..n], cfg).boiler, ticks[n].demand, ticks[n].now, cfg, true);
    StampIsLastFlip(h, ticks[..n], cfg);
  }

  /** A pause the hub forgot: no demand on tick `k`, and the step was lost with its call. */
  predicate LostRest(h: HubState, ticks: seq<HubTick>, cfg: Timing, k: nat)
    requires k < |ticks|
  {
    !ticks[k].demand && !OutcomeAt(h, ticks, cfg, k).accepted
  }

  /** Demand that is unbroken over the kept ticks is unbroken over all ticks since the tick it
      began on exactly when no pause was lost since then. */
  lemma UnbrokenExactlyUnlessLost(h: HubState, ticks: seq<HubTick>, cfg: Timing)
    requires h.restored && h.reconciled && HeldFrom(KeptDemands(h, ticks, cfg)) < |KeptDemands(h, ticks, cfg)|
    ensures |KeptTicks(h, ticks, cfg)| == |KeptDemands(h, ticks, cfg)|
    ensures var start := KeptTicks(h, ticks, cfg)[HeldFrom(KeptDemands(h, ticks, cfg))];
            && 0 <= start < |ticks|
            && ticks[start].now == KeptDemands(h, ticks, cfg)[HeldFrom(KeptDemands(h, ticks, cfg))].now
            && (HeldFrom(Demands(ticks)) <= start <==> forall k :: start <= k < |ticks| ==> !LostRest(h, ticks, cfg, k))
  {
    var idx, kept, all := KeptTicks(h, ticks, cfg), KeptDemands(h, ticks, cfg), Demands(ticks);
    KeptTicksMatch(h, ticks, cfg);
    var start := idx[HeldFrom(kept)];
    forall k | start <= k < |ticks| && OutcomeAt(h, ticks, cfg, k).accepted ensures ticks[k].demand {
      var j := KeptTickOf(h, ticks, cfg, k);
      assert j >= HeldFrom(kept);
      assert kept[j].active;
    }
    var from := HeldFrom(all);
    if from <= start {
      forall k | start <= k < |ticks| ensures !LostRest(h, ticks, cfg, k) {
        assert all[k].active;
      }
    } else {
      assert !all[from - 1].active;
      assert LostRest(h, ticks, cfg, from - 1);
    }
  }

  // ----- Calls under failing calls -----

  /** Without a call in between, the hub remembers its last accepted one. */
  lemma {:induction false} LastCallIsRemembered(h: HubState, ticks: seq<HubTick>, cfg: Timing, i: nat, k: nat)
    requires h.restored && h.reconciled && i < k <= |ticks|
    requires OutcomeAt(h, ticks, cfg, i).accepted && OutcomeAt(h, ticks, cfg, i).call != NoCall
    requires forall m :: i < m < k ==> OutcomeAt(h, ticks, cfg, m).call == NoCall
    ensures HubAfter(h, ticks[..k], cfg).boiler.lastKeepalive == ticks[i].now
    decreases k
  {
    OneMoreTick(h, ticks, cfg, k - 1);
    CommittedWhole(HubAfter(h, ticks[..k - 1], cfg), ticks[k - 1], cfg);
    if k - 1 > i {
      LastCallIsRemembered(h, ticks, cfg, i, k - 1);
      assert OutcomeAt(h, ticks, cfg, k - 1).call == NoCall;
    }
  }

  /** After an accepted call the next one is issued at the latest on the first tick that is a
      keep-alive interval later, whatever fails in between. */
  lemma HubCallsAreDense(h: HubState, ticks: seq<HubTick>, cfg: Timing, i: nat, j: nat)
    requires h.restored && h.reconciled && cfg.keepalive > 0.0 && i < j < |ticks|
    requires OutcomeAt(h, ticks, cfg, i).accepted && OutcomeAt(h, ticks, cfg, i).call != NoCall
    requires ticks[j].now - ticks[i].now >= cfg.keepalive
    ensures exists k :: i < k <= j && OutcomeAt(h, ticks, cfg, k).call != NoCall
  {
    if forall m :: i < m < j ==> OutcomeAt(h, ticks, cfg, m).call == NoCall {
      LastCallIsRemembered(h, ticks, cfg, i, j);
      OneMoreTick(h, ticks, cfg, j);
      assert OutcomeAt(h, ticks, cfg, j).call != NoCall;
    }
  }

  // ----- A pause lost -----

  /** Three minutes of valve-open time, the other timings by default. */
  const VALVE_TIME := Timing(180.0, 300.0, 300.0, 300.0)

  /** A reconciled hub whose boiler is off and whose last keep-alive went out four minutes ago. */
  const AT_REST := HubState(BoilerState(false, LONG_AGO, None, -240.0), true, true, true, None)

  /** A tick on which demand holds and every call succeeds. */
  const ASK := HubTick(true, 0.0, true, 0.0, None, true, true, 0.0)

  /** Where that fails, on ticks a minute apart: demand, a pause whose keep-alive call is lost,
      and demand again for two ticks. The boiler, off until then, fires a minute after demand came
      back. */
  lemma LostRestBreaksTheDelay()
    ensures var ticks := [ASK] + [ASK.(demand := false, now := 60.0, callOk := false)] +
                         [ASK.(now := 120.0)] + [ASK.(now := 180.0)];
            && !HubAfter(AT_REST, ticks[..3], VALVE_TIME).boiler.on
            && HubAfter(AT_REST, ticks, VALVE_TIME).boiler.on && HeldFrom(Demands(ticks)) == 2
  {
    var a := [ASK];
    var b := a + [ASK.(demand := false, now := 60.0, callOk := false)];
    var c := b + [ASK.(now := 120.0)];
    var ticks := c + [ASK.(now := 180.0)];
    assert a[..0] == [] && b[..1] == a && c[..2] == b && ticks[..3] == c;
    assert HubAfter(AT_REST, [], VALVE_TIME) == AT_REST;
    var latched := AT_REST.(boiler := AT_REST.boiler.(demandSince := Some(0.0)));
    assert HubAfter(AT_REST, a, VALVE_TIME) == latched;
    assert HubAfter(AT_REST, b, VALVE_TIME) == latched;
    assert HubAfter(AT_REST, c, VALVE_TIME) == latched.(boiler := latched.boiler.(lastKeepalive := 120.0));
    var ds := Demands(ticks);
    assert ds[3].active && ds[2].active && !ds[1].active;
  }

  // ----- Restart -----

  /** A device that contradicts the restored belief: one found off may start at any later time,
      one found on is held on for its minimum time. */
  lemma DivergenceIsSafe(h: HubState, t: HubTick, cfg: Timing, now: real)
    requires !h.reconciled && t.device == Some(!h.boiler.on) && t.now <= now
    ensures var b := Reconciled(h, t, cfg).boiler;
            && b.on == t.device.value
            && (!b.on ==> GateMinCycle(true, b, now, cfg))
            && (b.on ==> (GateMinCycle(false, b, now, cfg) <==> now - t.now < cfg.minOn))
  {
  }

  /** A run of a new process behaves like one that starts from the restored state. */
  lemma {:induction false} FirstTickRestores(h: HubState, ticks: seq<HubTick>, cfg: Timing)
    requires ticks != []
    ensures HubAfter(h, ticks, cfg) == HubAfter(Restored(h, ticks[0]), ticks, cfg)
    decreases |ticks|
  {
    if |ticks| > 1 {
      FirstTickRestores(h, ticks[..|ticks| - 1], cfg);
    } else {
      assert ticks[..0] == [];
      assert HubAfter(h, ticks[..0], cfg) == h;
    }
  }

  /** A first start: with nothing to read, or nothing readable, the hub believes the device off and
      untouched, remembers no demand, and owes it no rest at any time after its clock began. */
  lemma FirstStartOwesNothing(stored: Option<Payload>, t: HubTick, now: real, cfg: Timing)
    requires (!t.loadOk || stored.None?) && now >= 0.0 && cfg.minOff <= 1000000000.0
    ensures var h := Restored(NewProcess(stored), t);
            && h.restored && !h.reconciled && !h.hasActuated && h.stored == stored
            && !h.boiler.on && h.boiler.demandSince == None && h.boiler.lastKeepalive == 0.0
            && now - h.boiler.lastSwitch >= cfg.minOff
  {
  }

  /** The store after one process after another, each starting from what the last one left. */
  function AfterProcesses(h: HubState, runs: seq<seq<HubTick>>, cfg: Timing): HubState {
    if runs == [] then h
    else HubAfter(NewProcess(AfterProcesses(h, runs[..|runs| - 1], cfg).stored), runs[|runs| - 1], cfg)
  }

  /** A process that never ticks, or that reads the store left by `h`, finds every readable device
      as believed and flips nothing. */
  ghost predicate QuietProcess(h: HubState, run: seq<HubTick>, cfg: Timing) {
    run != [] ==>
      && run[0].loadOk
      && AllSettled(Restored(NewProcess(h.stored), run[0]), run, cfg)
      && NoFlips(Restored(NewProcess(h.stored), run[0]), run, cfg)
  }

  ghost predicate AllQuiet(h: HubState, runs: seq<seq<HubTick>>, cfg: Timing) {
    forall n :: 0 <= n < |runs| ==> QuietProcess(AfterProcesses(h, runs[..n], cfg), runs[n], cfg)
  }

  lemma QuietProcessKeepsTheStore(h: HubState, run: seq<HubTick>, cfg: Timing, saved: Payload)
    requires QuietProcess(h, run, cfg) && h.stored == Some(saved) && saved.hasActuated
    ensures HubAfter(NewProcess(h.stored), run, cfg).stored == Some(saved)
  {
    if run != [] {
      FirstTickRestores(NewProcess(h.stored), run, cfg);
      NoFlipKeepsTheDwell(Restored(NewProcess(h.stored), run[0]), run, cfg);
    }
  }

  lemma FirstProcessesAreQuiet(h: HubState, runs: seq<seq<HubTick>>, cfg: Timing)
    requires AllQuiet(h, runs, cfg) && runs != []
    ensures AllQuiet(h, runs[..|runs| - 1], cfg)
    ensures QuietProcess(AfterProcesses(h, runs[..|runs| - 1], cfg), runs[|runs| - 1], cfg)
  {
    var n := |runs| - 1;
    forall k | 0 <= k < n ensures QuietProcess(AfterProcesses(h, runs[..n][..k], cfg), runs[..n][k], cfg) {
      assert runs[..n][..k] == runs[..k];
    }
  }

  lemma {:induction false} QuietProcessesKeepTheStore(h: HubState, runs: seq<seq<HubTick>>, cfg: Timing, saved: Payload)
    requires AllQuiet(h, runs, cfg) && h.stored == Some(saved) && saved.hasActuated
    ensures AfterProcesses(h, runs, cfg).stored == Some(saved)
    decreases |runs|
  {
    if runs != [] {
      var before, last := runs[..|runs| - 1], runs[|runs| - 1];
      FirstProcessesAreQuiet(h, runs, cfg);
      QuietProcessesKeepTheStore(h, before, cfg, saved);
      QuietProcessKeepsTheStore(AfterProcesses(h, before, cfg), last, cfg, saved);
    }
  }

  /** What the saving tick and the flip-free rest of its process leave in the store. */
  lemma FlipIsStored(h: HubState, t: HubTick, first: seq<HubTick>, cfg: Timing)
    requires h.restored && h.reconciled
    requires Actuated(h, t, cfg).hub.boiler.on != h.boiler.on && t.saveOk
    requires NoFlips(Actuated(h, t, cfg).hub, first, cfg)
    ensures HubAfter(Actuated(h, t, cfg).hub, first, cfg).stored ==
            Some(Payload(!h.boiler.on, Some(t.wallAtSave), true))
  {
    var h1 := Actuated(h, t, cfg).hub;
    SettledStep(h, t, cfg);
    ReconciledForGood(h1, first, cfg);
    NoFlipKeepsTheDwell(h1, first, cfg);
  }

  /** The dwell in wall time across restarts: a saved flip, any flip-free rest of its process, any
      number of processes that flip nothing, and the first flip of a last one whose readable device
      states confirm the stored belief. The wall time up to the start of that process counts when
      it is positive, and a clock that jumped back never shortens what the process itself must
      wait. */
  lemma DwellHoldsAcrossRestart(h: HubState, t: HubTick, first: seq<HubTick>, between: seq<seq<HubTick>>,
                                last: seq<HubTick>, cfg: Timing)
    requires h.restored && h.reconciled
    requires Actuated(h, t, cfg).hub.boiler.on != h.boiler.on && t.saveOk
    requires NoFlips(Actuated(h, t, cfg).hub, first, cfg)
    requires AllQuiet(HubAfter(Actuated(h, t, cfg).hub, first, cfg), between, cfg)
    requires last != [] && last[0].loadOk
    requires var left := AfterProcesses(HubAfter(Actuated(h, t, cfg).hub, first, cfg), between, cfg);
             var start := Restored(NewProcess(left.stored), last[0]);
             AllSettled(start, last, cfg) && NoFlips(start, last[..|last| - 1], cfg) &&
             Flip(start, last, cfg, |last| - 1)
    ensures var waited := last[|last| - 1].now - last[0].now;
            waited + Max(0.0, last[0].wallAtLoad - t.wallAtSave) >= Dwell(!h.boiler.on, cfg)
  {
    var h1 := HubAfter(Actuated(h, t, cfg).hub, first, cfg);
    FlipIsStored(h, t, first, cfg);
    QuietProcessesKeepTheStore(h1, between, cfg, Payload(!h.boiler.on, Some(t.wallAtSave), true));
    FirstFlipWaits(Restored(NewProcess(AfterProcesses(h1, between, cfg).stored), last[0]), last, cfg);
  }
}
