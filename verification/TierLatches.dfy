/** The activation latches of the two tier-2 comfort features and their tick-by-tick fold. */
module TierLatches {
  import opened Options

  datatype TierState = Shadow | Eligible | Live | Suspended

  /** What a baseline was measured against: the model configuration and whether the predecessor
      was active. */
  datatype Signature = Signature(model: string, afterFan: bool)

  datatype Latch = Latch(state: TierState, dwell: real, baseline: Option<real>, signature: Option<Signature>,
                         generation: int)

  datatype Container = Container(fan: Latch, pmv: Latch, generation: int)

  datatype Feature = FanCe | PmvOffset

  function Cleared(state: TierState, generation: int): Latch {
    Latch(state, 0.0, None, None, generation)
  }

  const FRESH_CONTAINER := Container(Cleared(Shadow, 0), Cleared(Shadow, 0), 0)

  /** Qualified minutes before a latch may flip. */
  const DWELL_TARGET := 1440.0

  const EXIT_TOLERANCE := 2.0

  /** What one latch sees on a tick. */
  datatype Gate = Gate(ready: bool, entryOk: bool, ppd: real, signature: Signature, dt: real,
                       allowed: bool, nextGeneration: int, impossible: bool)

  /** May a live latch stay live? */
  predicate Holds(a: Latch, g: Gate) {
    && g.ready && a.signature == Some(g.signature)
    && !(a.baseline.Some? && g.ppd > a.baseline.value + EXIT_TOLERANCE)
  }

  predicate Qualifies(g: Gate) {
    g.ready && g.entryOk && g.allowed
  }

  function StepTier(a: Latch, g: Gate): Latch {
    if g.impossible then
      if a.state == Shadow then a else Cleared(Shadow, a.generation)
    else match a.state
      case Live => if Holds(a, g) then a else Cleared(Suspended, a.generation)
      case Eligible =>
        if !Qualifies(g) then a
        else if a.dwell + g.dt >= DWELL_TARGET then
          Latch(Live, a.dwell + g.dt, Some(g.ppd), Some(g.signature), g.nextGeneration)
        else a.(dwell := a.dwell + g.dt)
      case _ => if g.ready && g.allowed then Cleared(Eligible, a.generation) else a
  }

  /** One feature dwells at a time, the later one only on a live or impossible predecessor. */
  predicate MayDwell(c: Container, f: Feature, predecessorImpossible: bool) {
    match f
    case FanCe => c.pmv.state != Eligible
    case PmvOffset => c.fan.state != Eligible && (predecessorImpossible || c.fan.state == Live)
  }

  /** A dependent activated after the invalidated feature starts over. */
  function Drop(a: Latch, invalidated: int): Latch {
    if a.generation > invalidated && (a.state == Live || a.state == Eligible) then Cleared(Suspended, a.generation)
    else a
  }

  function Cascade(c: Container, invalidated: int): Container {
    c.(fan := Drop(c.fan, invalidated), pmv := Drop(c.pmv, invalidated))
  }

  /** One tick of a zone. */
  datatype Tick = Tick(active: bool, pmvReady: bool, entryOk: bool, ppd: real, dt: real, model: string,
                       fanImpossible: bool)

  function FanGate(c: Container, t: Tick): Gate {
    Gate(t.active, t.entryOk, t.ppd, Signature(t.model, false), t.dt, MayDwell(c, FanCe, t.fanImpossible),
         c.generation + 1, t.fanImpossible)
  }

  /** The container after the fan latch has stepped, dependents dropped if it fell. */
  function FanStepped(c: Container, t: Tick): Container {
    var next := StepTier(c.fan, FanGate(c, t));
    var flipped := next.state == Live && c.fan.state != Live;
    var c1 := Container(next, c.pmv, if flipped then c.generation + 1 else c.generation);
    if c.fan.state == Live && next.state != Live then Cascade(c1, c.fan.generation) else c1
  }

  function PmvGate(c: Container, t: Tick): Gate {
    Gate(t.active && t.pmvReady, t.entryOk, t.ppd, Signature(t.model, c.fan.state == Live), t.dt,
         MayDwell(c, PmvOffset, t.fanImpossible), c.generation + 1, false)
  }

  function PmvStepped(c: Container, t: Tick): Container {
    var next := StepTier(c.pmv, PmvGate(c, t));
    Container(c.fan, next, if next.state == Live && c.pmv.state != Live then c.generation + 1 else c.generation)
  }

  function FoldTick(c: Container, t: Tick): Container {
    PmvStepped(FanStepped(c, t), t)
  }

  function After(c: Container, ticks: seq<Tick>): Container {
    if ticks == [] then c else FoldTick(After(c, ticks[..|ticks| - 1]), ticks[|ticks| - 1])
  }

  // ----- What every run keeps -----

  /** A baseline belongs to a live latch and to no other. */
  predicate LatchSound(a: Latch) {
    (a.state == Live <==> a.baseline.Some?) && (a.state == Live <==> a.signature.Some?)
  }

  /** Never two eligible latches; a live second feature is measured against the very predecessor
      state that holds now, and the first against none. */
  predicate Sound(c: Container) {
    && LatchSound(c.fan) && LatchSound(c.pmv)
    && !(c.fan.state == Eligible && c.pmv.state == Eligible)
    && (c.pmv.state == Live ==> c.pmv.signature.value.afterFan == (c.fan.state == Live))
    && (c.fan.state == Live ==> !c.fan.signature.value.afterFan)
  }

  lemma FanStepIsSound(c: Container, t: Tick)
    requires Sound(c)
    ensures var r := FanStepped(c, t);
            && LatchSound(r.fan) && LatchSound(r.pmv)
            && !(r.fan.state == Eligible && r.pmv.state == Eligible)
            && (r.fan.state == Live ==> !r.fan.signature.value.afterFan)
  {
  }

  lemma FoldIsSound(c: Container, t: Tick)
    requires Sound(c)
    ensures Sound(FoldTick(c, t))
  {
    FanStepIsSound(c, t);
  }

  /** Over every run at most one latch is eligible, baselines live and die with "live", and when
      the fan latch falls a live PMV latch falls on the same tick. */
  lemma {:induction false} RunsAreSound(c: Container, ticks: seq<Tick>)
    requires Sound(c)
    ensures Sound(After(c, ticks))
    decreases |ticks|
  {
    if ticks != [] {
      RunsAreSound(c, ticks[..|ticks| - 1]);
      FoldIsSound(After(c, ticks[..|ticks| - 1]), ticks[|ticks| - 1]);
    }
  }

  lemma FallTakesTheDependentAlong(c: Container, t: Tick)
    requires Sound(c) && c.fan.state == Live && c.pmv.state == Live && FoldTick(c, t).fan.state != Live
    ensures FoldTick(c, t).pmv.state != Live
  {
  }

  /** How latches are marked: a live one that falls is suspended and forgets its baseline, an
      impossible fan retires to shadow, and the fall takes with it exactly a PMV latch that went live,
      or began its last dwell, after the fan latch had. */
  lemma FallsAreMarked(c: Container, t: Tick)
    requires Sound(c)
    ensures var r := FanStepped(c, t);
            && (t.fanImpossible ==> r.fan.state == Shadow)
            && (c.fan.state == Live && !t.fanImpossible && r.fan.state != Live ==>
                  r.fan == Latch(Suspended, 0.0, None, None, c.fan.generation))
            && (if c.fan.state == Live && r.fan.state != Live && c.pmv.generation > c.fan.generation &&
                   (c.pmv.state == Live || c.pmv.state == Eligible) then
                  r.pmv == Latch(Suspended, 0.0, None, None, c.pmv.generation)
                else r.pmv == c.pmv)
    ensures var before, after := FanStepped(c, t).pmv, FoldTick(c, t).pmv;
            before.state == Live && after.state != Live ==>
              after == Latch(Suspended, 0.0, None, None, before.generation)
  {
  }

  /** Does a latch go live between two states of it? */
  predicate GoesLive(a: Latch, b: Latch) {
    a.state != Live && b.state == Live
  }

  /** How often latches have gone live over a run. */
  function Activations(c: Container, ticks: seq<Tick>): nat {
    if ticks == [] then 0
    else
      var prev, last := After(c, ticks[..|ticks| - 1]), After(c, ticks);
      Activations(c, ticks[..|ticks| - 1]) +
      (if GoesLive(prev.fan, last.fan) then 1 else 0) + if GoesLive(prev.pmv, last.pmv) then 1 else 0
  }

  /** One tick numbers what goes live on it, one after the other, and nothing else. */
  lemma TickNumbers(c: Container, t: Tick)
    requires Sound(c)
    ensures var r := FoldTick(c, t);
            var fan, pmv := GoesLive(c.fan, r.fan), GoesLive(c.pmv, r.pmv);
            && r.generation == c.generation + (if fan then 1 else 0) + (if pmv then 1 else 0)
            && r.fan.generation == (if fan then c.generation + 1 else c.fan.generation)
            && r.pmv.generation == (if pmv then r.generation else c.pmv.generation)
  {
    FanStepIsSound(c, t);
  }

  /** Over every run the container counts the activations, and no latch bears a later number. */
  lemma {:induction false} GenerationsCountActivations(c: Container, ticks: seq<Tick>)
    requires Sound(c) && c.fan.generation <= c.generation && c.pmv.generation <= c.generation
    ensures var r := After(c, ticks);
            && r.generation == c.generation + Activations(c, ticks)
            && r.fan.generation <= r.generation && r.pmv.generation <= r.generation
    decreases |ticks|
  {
    if ticks != [] {
      GenerationsCountActivations(c, ticks[..|ticks| - 1]);
      RunsAreSound(c, ticks[..|ticks| - 1]);
      TickNumbers(After(c, ticks[..|ticks| - 1]), ticks[|ticks| - 1]);
    }
  }

  // ----- Qualified dwell -----

  predicate AtRest(a: Latch) {
    a.state == Shadow || a.state == Suspended
  }

  /** Where a run starts: fresh latches, or any that rest. */
  predicate BothAtRest(c: Container) {
    AtRest(c.fan) && AtRest(c.pmv)
  }

  function LatchOf(c: Container, f: Feature): Latch {
    if f == FanCe then c.fan else c.pmv
  }

  /** The gate feature `f` meets on a tick that starts from `c`. */
  function GateOf(c: Container, t: Tick, f: Feature): Gate {
    if f == FanCe then FanGate(c, t) else PmvGate(FanStepped(c, t), t)
  }

  /** The latch that step of `f` starts from: the PMV latch may just have been dropped. */
  function LatchBefore(c: Container, t: Tick, f: Feature): Latch {
    if f == FanCe then c.fan else FanStepped(c, t).pmv
  }

  /** Minutes on which everything held, counted from the tick that last made the latch eligible. */
  function QualifiedMinutes(c: Container, ticks: seq<Tick>, f: Feature): real {
    if ticks == [] then 0.0
    else
      var rest, t := ticks[..|ticks| - 1], ticks[|ticks| - 1];
      var prev := After(c, rest);
      if LatchBefore(prev, t, f).state != Eligible then 0.0
      else if Qualifies(GateOf(prev, t, f)) then QualifiedMinutes(c, rest, f) + t.dt
      else QualifiedMinutes(c, rest, f)
  }

  lemma FoldStepsEach(c: Container, t: Tick, f: Feature)
    ensures LatchOf(FoldTick(c, t), f) == StepTier(LatchBefore(c, t, f), GateOf(c, t, f))
  {
  }

  /** An eligible latch has dwelt exactly the qualified minutes, neither wall-clock time nor time
      from before it became eligible. */
  lemma {:induction false} DwellIsQualifiedTime(c: Container, ticks: seq<Tick>, f: Feature)
    requires BothAtRest(c)
    ensures var a := LatchOf(After(c, ticks), f);
            a.state == Eligible ==> a.dwell == QualifiedMinutes(c, ticks, f)
    decreases |ticks|
  {
    if ticks != [] {
      var rest, t := ticks[..|ticks| - 1], ticks[|ticks| - 1];
      DwellIsQualifiedTime(c, rest, f);
      FoldStepsEach(After(c, rest), t, f);
    }
  }

  /** Which ticks count for the fan latch, in what a tick brings: while it is eligible, those on
      which active comfort is on and the entry gate holds. */
  lemma FanMinutesExactly(c: Container, ticks: seq<Tick>)
    requires Sound(c) && ticks != [] && After(c, ticks[..|ticks| - 1]).fan.state == Eligible
    ensures var t := ticks[|ticks| - 1];
            QualifiedMinutes(c, ticks, FanCe) ==
            QualifiedMinutes(c, ticks[..|ticks| - 1], FanCe) + if t.active && t.entryOk then t.dt else 0.0
  {
    RunsAreSound(c, ticks[..|ticks| - 1]);
  }

  /** And for the PMV latch: while it is eligible and its predecessor does not fall, those on which
      active comfort is on, its figures are ready, the entry gate holds, and the fan latch is live
      after its own step or the fan is impossible. */
  lemma PmvMinutesExactly(c: Container, ticks: seq<Tick>)
    requires Sound(c) && ticks != [] && After(c, ticks[..|ticks| - 1]).pmv.state == Eligible
    requires LatchBefore(After(c, ticks[..|ticks| - 1]), ticks[|ticks| - 1], PmvOffset).state == Eligible
    ensures var t := ticks[|ticks| - 1];
            QualifiedMinutes(c, ticks, PmvOffset) ==
            QualifiedMinutes(c, ticks[..|ticks| - 1], PmvOffset) +
            if t.active && t.pmvReady && t.entryOk && (t.fanImpossible || After(c, ticks).fan.state == Live) then t.dt
            else 0.0
  {
    var prev := After(c, ticks[..|ticks| - 1]);
    RunsAreSound(c, ticks[..|ticks| - 1]);
    FanStepIsSound(prev, ticks[|ticks| - 1]);
  }

  /** When a resting latch begins to dwell: the fan latch whenever active comfort is on, the fan is
      possible and no PMV dwell runs; the PMV latch whenever it is ready besides and the fan latch
      is live after its step, or impossible. */
  lemma RestEndsExactly(c: Container, t: Tick)
    requires Sound(c)
    ensures AtRest(c.fan) ==>
              (FoldTick(c, t).fan.state == Eligible <==> t.active && !t.fanImpossible && c.pmv.state != Eligible)
    ensures AtRest(c.pmv) ==>
              (FoldTick(c, t).pmv.state == Eligible <==>
                 t.active && t.pmvReady && (t.fanImpossible || FoldTick(c, t).fan.state == Live))
  {
    FanStepIsSound(c, t);
  }

  /** A latch flips to live exactly on the qualified tick that completes the target, and takes
      that tick's comfort figure and signature as its baseline. */
  lemma LiveExactlyAfterDwell(c: Container, ticks: seq<Tick>, f: Feature)
    requires BothAtRest(c)
    requires ticks != [] && LatchOf(After(c, ticks[..|ticks| - 1]), f).state != Live
    ensures var t := ticks[|ticks| - 1];
            var prev := After(c, ticks[..|ticks| - 1]);
            var g, a := GateOf(prev, t, f), LatchOf(After(c, ticks), f);
            && (a.state == Live <==>
                  LatchBefore(prev, t, f).state == Eligible && !g.impossible && Qualifies(g) &&
                  QualifiedMinutes(c, ticks, f) >= 1440.0)
            && (a.state == Live ==>
                  && a.baseline == Some(t.ppd) && a.signature == Some(g.signature)
                  && a.dwell == QualifiedMinutes(c, ticks, f))
  {
    var rest, t := ticks[..|ticks| - 1], ticks[|ticks| - 1];
    DwellIsQualifiedTime(c, rest, f);
    FoldStepsEach(After(c, rest), t, f);
  }

  /** The comfort figure of the tick on which the latch last went live. */
  function FlipFigure(c: Container, ticks: seq<Tick>, f: Feature): real {
    if ticks == [] then 0.0
    else
      var rest, t := ticks[..|ticks| - 1], ticks[|ticks| - 1];
      if LatchOf(After(c, rest), f).state == Live then FlipFigure(c, rest, f) else t.ppd
  }

  /** A live latch remembers the figure it went live on. */
  lemma {:induction false} BaselineIsFlipFigure(c: Container, ticks: seq<Tick>, f: Feature)
    requires BothAtRest(c)
    ensures var a := LatchOf(After(c, ticks), f);
            a.state == Live ==> a.baseline == Some(FlipFigure(c, ticks, f)) && a.signature.Some?
    decreases |ticks|
  {
    if ticks != [] {
      var rest, t := ticks[..|ticks| - 1], ticks[|ticks| - 1];
      BaselineIsFlipFigure(c, rest, f);
      FoldStepsEach(After(c, rest), t, f);
    }
  }

  /** The Schmitt exit: a live latch that the cascade leaves alone stays live exactly while it is
      possible and ready, its signature is the current one, and comfort has not worsened by more
      than the tolerance since the flip. */
  lemma LiveHoldsExactly(c: Container, ticks: seq<Tick>, f: Feature)
    requires BothAtRest(c)
    requires ticks != []
    requires var rest, t := ticks[..|ticks| - 1], ticks[|ticks| - 1];
             var prev := After(c, rest);
             LatchOf(prev, f).state == Live && LatchBefore(prev, t, f) == LatchOf(prev, f)
    ensures var rest, t := ticks[..|ticks| - 1], ticks[|ticks| - 1];
            var prev := After(c, rest);
            var g := GateOf(prev, t, f);
            LatchOf(After(c, ticks), f).state == Live <==>
              !g.impossible && g.ready && LatchOf(prev, f).signature == Some(g.signature) &&
              t.ppd <= FlipFigure(c, rest, f) + 2.0
  {
    var rest, t := ticks[..|ticks| - 1], ticks[|ticks| - 1];
    BaselineIsFlipFigure(c, rest, f);
    FoldStepsEach(After(c, rest), t, f);
  }

  /** All the minutes of a run after its first `i` ticks. */
  function MinutesAfter(ticks: seq<Tick>, i: nat): real {
    if |ticks| <= i then 0.0 else MinutesAfter(ticks[..|ticks| - 1], i) + ticks[|ticks| - 1].dt
  }

  predicate TimeAdvances(ticks: seq<Tick>) {
    forall i :: 0 <= i < |ticks| ==> ticks[i].dt >= 0.0
  }

  lemma {:induction false} MinutesGrow(ticks: seq<Tick>, i: nat)
    requires TimeAdvances(ticks)
    ensures MinutesAfter(ticks, i) >= 0.0
    decreases |ticks|
  {
    if |ticks| > i {
      MinutesGrow(ticks[..|ticks| - 1], i);
    }
  }

  /** One more tick counts at most its own length, and nothing for a latch that was not eligible. */
  lemma CountOfOneMore(c: Container, ticks: seq<Tick>, f: Feature)
    requires ticks != [] && ticks[|ticks| - 1].dt >= 0.0
    ensures LatchOf(After(c, ticks[..|ticks| - 1]), f).state != Eligible ==> QualifiedMinutes(c, ticks, f) == 0.0
    ensures QualifiedMinutes(c, ticks, f) <= 0.0 ||
            QualifiedMinutes(c, ticks, f) <= QualifiedMinutes(c, ticks[..|ticks| - 1], f) + ticks[|ticks| - 1].dt
  {
    var rest, t := ticks[..|ticks| - 1], ticks[|ticks| - 1];
    assert LatchBefore(After(c, rest), t, f).state == Eligible ==> LatchOf(After(c, rest), f).state == Eligible;
  }

  /** Counting starts anew after a tick that left the latch at rest. */
  lemma {:induction false} CountsFromRest(c: Container, ticks: seq<Tick>, f: Feature, i: nat)
    requires i < |ticks| && TimeAdvances(ticks) && AtRest(LatchOf(After(c, ticks[..i]), f))
    ensures QualifiedMinutes(c, ticks, f) <= MinutesAfter(ticks, i)
    decreases |ticks|
  {
    var rest := ticks[..|ticks| - 1];
    CountOfOneMore(c, ticks, f);
    MinutesGrow(rest, i);
    if i < |rest| {
      assert rest[..i] == ticks[..i];
      CountsFromRest(c, rest, f, i);
    } else {
      assert rest == ticks[..i];
    }
  }

  /** After any drop-out a full new dwell is needed: from a latch at rest to a live one at least
      the target passes, whatever the ticks. */
  lemma {:induction false} NoShortWayToLive(c: Container, ticks: seq<Tick>, f: Feature, i: nat)
    requires BothAtRest(c)
    requires i < |ticks| && TimeAdvances(ticks) && AtRest(LatchOf(After(c, ticks[..i]), f))
    requires LatchOf(After(c, ticks), f).state == Live
    ensures MinutesAfter(ticks, i) >= 1440.0
    decreases |ticks|
  {
    var rest := ticks[..|ticks| - 1];
    if LatchOf(After(c, rest), f).state == Live {
      assert i < |rest|;
      assert rest[..i] == ticks[..i];
      NoShortWayToLive(c, rest, f, i);
    } else {
      CountsFromRest(c, ticks, f, i);
      LiveExactlyAfterDwell(c, ticks, f);
    }
  }

  // ----- Where serialization strands the zone -----

  /** The fan latch rests while the PMV latch is eligible. */
  predicate Stranded(c: Container) {
    AtRest(c.fan) && c.pmv.state == Eligible
  }

  predicate Possible(ticks: seq<Tick>) {
    forall i :: 0 <= i < |ticks| ==> !ticks[i].fanImpossible
  }

  predicate EachLasts(ticks: seq<Tick>, dt: real) {
    forall i :: 0 <= i < |ticks| ==> ticks[i].dt == dt
  }

  /** A stranded zone never moves again while its fan is possible: each latch waits for the other. */
  lemma {:induction false} StrandedForGood(c: Container, ticks: seq<Tick>)
    requires Stranded(c) && Possible(ticks)
    ensures After(c, ticks) == c
    decreases |ticks|
  {
    if ticks != [] {
      StrandedForGood(c, ticks[..|ticks| - 1]);
    }
  }

  // ----- Every other zone can still mature -----

  lemma AfterBack(c: Container, ticks: seq<Tick>, t: Tick)
    ensures After(c, ticks + [t]) == FoldTick(After(c, ticks), t)
  {
    assert (ticks + [t])[..|ticks|] == ticks;
  }

  lemma {:induction false} AfterFront(c: Container, t: Tick, ticks: seq<Tick>)
    ensures After(c, [t] + ticks) == After(FoldTick(c, t), ticks)
    decreases |ticks|
  {
    if ticks == [] {
      AfterBack(c, [], t);
      assert [t] + ticks == [] + [t];
    } else {
      var front, last := ticks[..|ticks| - 1], ticks[|ticks| - 1];
      AfterFront(c, t, front);
      AfterBack(c, [t] + front, last);
      assert [t] + ticks == [t] + front + [last];
    }
  }

  /** A run of possible ticks of `dt` minutes after which the PMV latch is live. */
  predicate Matures(c: Container, ticks: seq<Tick>, dt: real) {
    Possible(ticks) && EachLasts(ticks, dt) && After(c, ticks).pmv.state == Live
  }

  lemma MaturesFront(c: Container, t: Tick, ticks: seq<Tick>, dt: real)
    requires Matures(FoldTick(c, t), ticks, dt) && !t.fanImpossible && t.dt == dt
    ensures Matures(c, [t] + ticks, dt)
  {
    AfterFront(c, t, ticks);
  }

  /** A tick on which everything holds, a live fan latch included. */
  function HelpfulTick(c: Container, dt: real): Tick
    requires Sound(c)
  {
    if c.fan.state == Live then
      Tick(true, true, true, c.fan.baseline.value, dt, c.fan.signature.value.model, false)
    else Tick(true, true, true, 0.0, dt, "", false)
  }

  /** `k` ticks of `dt` minutes. */
  function Elapsed(dt: real, k: nat): real {
    if k == 0 then 0.0 else Elapsed(dt, k - 1) + dt
  }

  lemma {:induction false} ElapsedIsProduct(dt: real, k: nat)
    ensures Elapsed(dt, k) == k as real * dt
  {
    if k > 0 {
      ElapsedIsProduct(dt, k - 1);
    }
  }

  lemma PositiveFactor(q: real, dt: real)
    requires dt > 0.0 && q * dt > 0.0
    ensures q > 0.0
  {
  }

  lemma NonnegativeProduct(d: real, dt: real)
    requires d >= 0.0 && dt > 0.0
    ensures d * dt >= 0.0
  {
  }

  lemma LargerFactor(k: real, q: real, dt: real)
    requires k >= q && dt > 0.0
    ensures k * dt >= q * dt
  {
    var d := k - q;
    NonnegativeProduct(d, dt);
    assert d * dt == k * dt - q * dt;
  }

  /** Ticks of any length add up to any span. */
  lemma EnoughTicks(dt: real, span: real) returns (k: nat)
    requires dt > 0.0
    ensures Elapsed(dt, k) >= span
  {
    if span <= 0.0 {
      k := 0;
    } else {
      var q := span / dt;
      assert q * dt == span;
      PositiveFactor(q, dt);
      k := q.Floor + 1;
      ElapsedIsProduct(dt, k);
      LargerFactor(k as real, q, dt);
    }
  }

  /** Behind a live fan latch the PMV dwell goes on and completes. */
  lemma PmvDwells(c: Container, dt: real)
    requires Sound(c) && c.fan.state == Live && c.pmv.state == Eligible
    ensures var r := FoldTick(c, HelpfulTick(c, dt));
            if c.pmv.dwell + dt >= DWELL_TARGET then r.pmv.state == Live
            else r == c.(pmv := c.pmv.(dwell := c.pmv.dwell + dt))
  {
  }

  /** While the PMV latch rests the fan dwell goes on; on its completion the PMV dwell begins. */
  lemma FanDwells(c: Container, dt: real)
    requires Sound(c) && c.fan.state == Eligible && AtRest(c.pmv)
    ensures var r := FoldTick(c, HelpfulTick(c, dt));
            if c.fan.dwell + dt >= DWELL_TARGET then r.fan.state == Live && r.pmv.state == Eligible
            else r == c.(fan := c.fan.(dwell := c.fan.dwell + dt))
  {
  }

  /** Two resting latches let the fan dwell begin; a live fan latch lets the PMV dwell begin. */
  lemma RestEnds(c: Container, dt: real)
    requires Sound(c) && AtRest(c.pmv) && (AtRest(c.fan) || c.fan.state == Live)
    ensures var r := FoldTick(c, HelpfulTick(c, dt));
            if c.fan.state == Live then r.fan.state == Live && r.pmv.state == Eligible
            else r.fan.state == Eligible && AtRest(r.pmv)
  {
  }

  lemma {:induction false} PmvMatures(c: Container, dt: real, k: nat) returns (ticks: seq<Tick>)
    requires Sound(c) && c.fan.state == Live && c.pmv.state == Eligible
    requires dt > 0.0 && Elapsed(dt, k) >= DWELL_TARGET - c.pmv.dwell
    ensures Matures(c, ticks, dt)
    decreases k
  {
    var t := HelpfulTick(c, dt);
    PmvDwells(c, dt);
    var rest := [];
    if c.pmv.dwell + dt < DWELL_TARGET {
      rest := PmvMatures(FoldTick(c, t), dt, k - 1);
    }
    MaturesFront(c, t, rest, dt);
    ticks := [t] + rest;
  }

  lemma {:induction false} FanMatures(c: Container, dt: real, k: nat) returns (ticks: seq<Tick>)
    requires Sound(c) && c.fan.state == Eligible && AtRest(c.pmv)
    requires dt > 0.0 && Elapsed(dt, k) >= DWELL_TARGET - c.fan.dwell
    ensures Matures(c, ticks, dt)
    decreases k
  {
    var t := HelpfulTick(c, dt);
    var next := FoldTick(c, t);
    FanDwells(c, dt);
    FoldIsSound(c, t);
    var rest;
    if c.fan.dwell + dt < DWELL_TARGET {
      rest := FanMatures(next, dt, k - 1);
    } else {
      var m := EnoughTicks(dt, DWELL_TARGET - next.pmv.dwell);
      rest := PmvMatures(next, dt, m);
    }
    MaturesFront(c, t, rest, dt);
    ticks := [t] + rest;
  }

  /** Where some latch dwells that is not waiting for the other, ticks enough bring the PMV latch
      to live. */
  lemma DwellingMatures(c: Container, dt: real) returns (ticks: seq<Tick>)
    requires Sound(c) && dt > 0.0
    requires (c.fan.state == Eligible && AtRest(c.pmv)) || (c.fan.state == Live && c.pmv.state == Eligible)
    ensures Matures(c, ticks, dt)
  {
    if c.fan.state == Eligible {
      var k := EnoughTicks(dt, DWELL_TARGET - c.fan.dwell);
      ticks := FanMatures(c, dt, k);
    } else {
      var k := EnoughTicks(dt, DWELL_TARGET - c.pmv.dwell);
      ticks := PmvMatures(c, dt, k);
    }
  }

  lemma ZoneMatures(c: Container, dt: real) returns (ticks: seq<Tick>)
    requires Sound(c) && !Stranded(c) && dt > 0.0
    ensures Matures(c, ticks, dt)
  {
    if c.pmv.state == Live {
      ticks := [];
    } else if c.pmv.state == Eligible || c.fan.state == Eligible {
      ticks := DwellingMatures(c, dt);
    } else {
      var t := HelpfulTick(c, dt);
      RestEnds(c, dt);
      FoldIsSound(c, t);
      var rest := DwellingMatures(FoldTick(c, t), dt);
      MaturesFront(c, t, rest, dt);
      ticks := [t] + rest;
    }
  }

  /** When serialization deadlocks the successor: from a container that any run leads to, ticks of
      any length with the fan possible can still bring the PMV latch to live exactly when the zone
      is not stranded, and a stranded one stays as it is whatever those ticks are. */
  lemma MaturesExactlyUnlessStranded(start: Container, ticks: seq<Tick>, dt: real)
    requires Sound(start) && dt > 0.0
    ensures var c := After(start, ticks);
            && ((exists more :: Matures(c, more, dt)) <==> !Stranded(c))
            && (Stranded(c) ==> forall more :: Possible(more) ==> After(c, more) == c)
  {
    var c := After(start, ticks);
    RunsAreSound(start, ticks);
    if Stranded(c) {
      forall more | Possible(more) ensures After(c, more) == c {
        StrandedForGood(c, more);
      }
    } else {
      var more := ZoneMatures(c, dt);
    }
  }

  // ----- How a zone comes to be stranded -----

  /** Does a live fan latch fall on this tick? */
  predicate FanFalls(c: Container, t: Tick) {
    c.fan.state == Live && (t.fanImpossible || !Holds(c.fan, FanGate(c, t)))
  }

  /** Would this tick complete the dwell of PMV latch `a`, if it may dwell? */
  predicate Completes(a: Latch, t: Tick) {
    t.active && t.pmvReady && t.entryOk && a.dwell + t.dt >= DWELL_TARGET
  }

  /** With the fan possible a tick strands exactly by a fall of the fan latch during the dwell of a
      PMV latch of no later generation. With the fan impossible it strands exactly if the PMV
      latch, after the cascade, begins its dwell on it or does not complete it. */
  lemma TickStrandsExactly(c: Container, t: Tick)
    requires Sound(c)
    ensures !t.fanImpossible ==>
              (Stranded(FoldTick(c, t)) <==>
                 Stranded(c) || (FanFalls(c, t) && c.pmv.state == Eligible && c.pmv.generation <= c.fan.generation))
    ensures t.fanImpossible ==>
              var a := LatchBefore(c, t, PmvOffset);
              (Stranded(FoldTick(c, t)) <==>
                 (AtRest(a) && t.active && t.pmvReady) || (a.state == Eligible && !Completes(a, t)))
  {
  }

  /** The one tick that strands two resting latches: one on which the fan is impossible and the
      PMV latch ready. */
  lemma RestStrandsExactly(c: Container, t: Tick)
    requires Sound(c) && BothAtRest(c)
    ensures Stranded(FoldTick(c, t)) <==> t.fanImpossible && t.active && t.pmvReady
  {
    TickStrandsExactly(c, t);
  }

  /** A tick without fan capability, such as one before the climate entity is there, and otherwise
      nothing amiss. */
  function BlindTick(dt: real): Tick {
    Tick(true, true, true, 10.0, dt, "m", true)
  }

  /** One such tick strands fresh latches, whatever comes once the fan is possible. */
  lemma OneTickStrands(dt: real, ticks: seq<Tick>)
    requires Possible(ticks)
    ensures Stranded(After(FRESH_CONTAINER, [BlindTick(dt)] + ticks))
  {
    AfterFront(FRESH_CONTAINER, BlindTick(dt), ticks);
    RestStrandsExactly(FRESH_CONTAINER, BlindTick(dt));
    StrandedForGood(FoldTick(FRESH_CONTAINER, BlindTick(dt)), ticks);
  }

  // ----- Every fall in a first dwell strands -----

  predicate NeverLive(ticks: seq<Tick>, f: Feature) {
    LatchOf(After(FRESH_CONTAINER, ticks), f).state != Live && (ticks == [] || NeverLive(ticks[..|ticks| - 1], f))
  }

  /** Generations count the flips: a live latch carries one, a PMV latch that never flipped none. */
  predicate Counted(c: Container) {
    c.generation >= 0 && (c.fan.state == Live ==> c.fan.generation >= 1)
  }

  lemma FoldIsCounted(c: Container, t: Tick)
    requires Counted(c)
    ensures Counted(FoldTick(c, t))
    ensures FoldTick(c, t).pmv.state != Live ==> FoldTick(c, t).pmv.generation == c.pmv.generation
  {
  }

  lemma {:induction false} FirstDwellHasNoGeneration(ticks: seq<Tick>)
    ensures Counted(After(FRESH_CONTAINER, ticks))
    ensures NeverLive(ticks, PmvOffset) ==> After(FRESH_CONTAINER, ticks).pmv.generation == 0
    decreases |ticks|
  {
    if ticks != [] {
      FirstDwellHasNoGeneration(ticks[..|ticks| - 1]);
      FoldIsCounted(After(FRESH_CONTAINER, ticks[..|ticks| - 1]), ticks[|ticks| - 1]);
    }
  }

  /** Over every run from fresh latches: as long as the PMV latch has never been live, a fall of
      the fan latch during its dwell strands the zone, unless the fan falls for being impossible on
      the very tick that completes that dwell. */
  lemma FirstDwellAlwaysStrands(ticks: seq<Tick>, t: Tick)
    requires NeverLive(ticks, PmvOffset)
    requires var c := After(FRESH_CONTAINER, ticks); c.pmv.state == Eligible && FanFalls(c, t)
    ensures Stranded(After(FRESH_CONTAINER, ticks + [t])) <==>
              !(t.fanImpossible && Completes(After(FRESH_CONTAINER, ticks).pmv, t))
  {
    var c := After(FRESH_CONTAINER, ticks);
    assert (ticks + [t])[..|ticks|] == ticks;
    FirstDwellHasNoGeneration(ticks);
    RunsAreSound(FRESH_CONTAINER, ticks);
    TickStrandsExactly(c, t);
  }

  /** A tick of `dt` minutes on which everything holds. */
  function GoodTick(dt: real): Tick {
    Tick(true, true, true, 10.0, dt, "m", false)
  }

  /** The fan latch has dwelt `dwell` minutes, nothing else has happened. */
  function Ripening(dwell: real): Container {
    Container(Latch(Eligible, dwell, None, None, 0), Cleared(Shadow, 0), 0)
  }

  /** The fan latch is live, the PMV latch begins its first dwell. */
  predicate FirstDwell(c: Container) {
    c.fan.state == Live && c.fan.generation == 1 && c.pmv == Cleared(Eligible, 0)
  }

  lemma RipeningStep(dwell: real, dt: real)
    ensures dwell + dt < DWELL_TARGET ==> FoldTick(Ripening(dwell), GoodTick(dt)) == Ripening(dwell + dt)
    ensures dwell + dt >= DWELL_TARGET ==> FirstDwell(FoldTick(Ripening(dwell), GoodTick(dt)))
  {
  }

  function GoodTicks(dt: real, k: nat): (r: seq<Tick>)
    ensures |r| == k && forall i :: 0 <= i < k ==> r[i] == GoodTick(dt)
  {
    if k == 0 then [] else GoodTicks(dt, k - 1) + [GoodTick(dt)]
  }

  /** While the target is not reached the fan latch ripens tick by tick. */
  lemma {:induction false} FanRipens(dt: real, k: nat)
    requires dt > 0.0 && Elapsed(dt, k) < DWELL_TARGET
    ensures After(FRESH_CONTAINER, GoodTicks(dt, k + 1)) == Ripening(Elapsed(dt, k))
  {
    var run := GoodTicks(dt, k + 1);
    assert run[..k] == GoodTicks(dt, k) && run[k] == GoodTick(dt);
    if k == 0 {
      assert After(FRESH_CONTAINER, run[..0]) == FRESH_CONTAINER;
    } else {
      FanRipens(dt, k - 1);
      RipeningStep(Elapsed(dt, k - 1), dt);
    }
  }

  /** The tick that completes the target. */
  lemma {:induction false} TargetIsReached(dt: real, k: nat) returns (m: nat)
    requires dt > 0.0 && Elapsed(dt, k) >= DWELL_TARGET
    ensures 0 < m <= k && Elapsed(dt, m - 1) < DWELL_TARGET <= Elapsed(dt, m)
  {
    if Elapsed(dt, k - 1) < DWELL_TARGET {
      m := k;
    } else {
      m := TargetIsReached(dt, k - 1);
    }
  }

  /** Whatever the length of a tick, fresh latches can strand: good ticks until the fan latch is
      live, and one tick on which active comfort is switched off. */
  lemma FreshZoneCanStrand(dt: real) returns (ticks: seq<Tick>)
    requires dt > 0.0
    ensures ticks != [] && forall i :: 0 <= i < |ticks| ==> ticks[i].dt == dt && !ticks[i].fanImpossible
    ensures Stranded(After(FRESH_CONTAINER, ticks))
  {
    var k := EnoughTicks(dt, DWELL_TARGET);
    var m := TargetIsReached(dt, k);
    var run, pause := GoodTicks(dt, m + 1), GoodTick(dt).(active := false);
    FanRipens(dt, m - 1);
    RipeningStep(Elapsed(dt, m - 1), dt);
    assert run[..m] == GoodTicks(dt, m) && run[m] == GoodTick(dt);
    ticks := run + [pause];
    assert ticks[..m + 1] == run;
  }
}
