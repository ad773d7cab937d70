/** Local offset calibration of a radiator valve: grid snapping and the evidence gate. */
module Calibration {
  import opened Options

  /** The offset register of the device: rungs `lo + n * step` inside [lo, hi]. */
  datatype Grid = Grid(lo: real, hi: real, step: real)

  /** A step and an ordered range; the metadata reader lets nothing else through. */
  predicate Readable(g: Grid) {
    g.step > 0.0 && g.lo <= g.hi
  }

  function Abs(x: real): real {
    if x < 0.0 then -x else x
  }

  function Clamp(x: real, lo: real, hi: real): real {
    if x < lo then lo else if x > hi then hi else x
  }

  // ----- Snapping -----

  /** How many whole steps fit. */
  function Steps(distance: real, step: real): int
    requires step > 0.0
  {
    (distance / step).Floor
  }

  function Rung(g: Grid, n: int): real {
    g.lo + n as real * g.step
  }

  function TopRung(g: Grid): int
    requires Readable(g)
  {
    Steps(g.hi - g.lo, g.step)
  }

  /** The selection chain: nearer, then larger in magnitude, then smaller. */
  predicate Preferred(a: real, b: real, value: real) {
    || Abs(a - value) < Abs(b - value)
    || (Abs(a - value) == Abs(b - value) && Abs(a) > Abs(b))
    || (Abs(a - value) == Abs(b - value) && Abs(a) == Abs(b) && a <= b)
  }

  /** The rung just below the clamped value. */
  function LowerRung(value: real, g: Grid): int
    requires Readable(g)
  {
    Steps(Clamp(value, g.lo, Rung(g, TopRung(g))) - g.lo, g.step)
  }

  function SnapIndex(value: real, g: Grid): int
    requires Readable(g)
  {
    var n := LowerRung(value, g);
    var next := if n + 1 < TopRung(g) then n + 1 else TopRung(g);
    if Preferred(Rung(g, n), Rung(g, next), value) then n else next
  }

  function SnapOffset(value: real, g: Grid): real
    requires Readable(g)
  {
    Rung(g, SnapIndex(value, g))
  }

  lemma QuotientBracket(q: real, n: real, step: real, distance: real)
    requires step > 0.0 && q * step == distance && n <= q < n + 1.0
    ensures n * step <= distance
    ensures distance < n * step + step
    ensures distance >= 0.0 ==> q >= 0.0
  {
    var over, under := q - n - 1.0, q - n;
    assert over * step < 0.0 <= under * step;
    calc {
      over * step;
      q * step - n * step - step;
      distance - n * step - step;
    }
  }

  lemma StepsBracket(distance: real, step: real)
    requires step > 0.0
    ensures Steps(distance, step) as real * step <= distance
    ensures distance < Steps(distance, step) as real * step + step
    ensures distance >= 0.0 ==> Steps(distance, step) >= 0
  {
    QuotientBracket(distance / step, Steps(distance, step) as real, step, distance);
  }

  /** Rungs ascend by whole steps. */
  lemma RungsAscend(g: Grid, m: int, n: int)
    requires Readable(g) && m < n
    ensures Rung(g, m + 1) == Rung(g, m) + g.step
    ensures Rung(g, m + 1) <= Rung(g, n)
  {
    assert (m + 1) as real * g.step == m as real * g.step + g.step;
    assert (n - m - 1) as real * g.step >= 0.0;
    assert n as real * g.step == (m + 1) as real * g.step + (n - m - 1) as real * g.step;
  }

  lemma TopRungIsInside(g: Grid)
    requires Readable(g)
    ensures 0 <= TopRung(g) && g.lo <= Rung(g, TopRung(g)) <= g.hi
  {
    StepsBracket(g.hi - g.lo, g.step);
    assert TopRung(g) as real * g.step >= 0.0;
  }

  lemma LowerRungIsBelow(value: real, g: Grid)
    requires Readable(g)
    ensures var n, top := LowerRung(value, g), TopRung(g);
            var v := Clamp(value, g.lo, Rung(g, top));
            && 0 <= n <= top && Rung(g, top) <= g.hi
            && Rung(g, n) <= v && (n < top ==> v < Rung(g, n + 1))
            && (n == top ==> v == Rung(g, top))
  {
    var n, top := LowerRung(value, g), TopRung(g);
    TopRungIsInside(g);
    StepsBracket(Clamp(value, g.lo, Rung(g, top)) - g.lo, g.step);
    if n > top {
      RungsAscend(g, top, n);
    }
  }

  /** Snapping lands on a rung inside the range, and no rung of the range is preferred to it. */
  lemma SnapIsTheNearestRung(value: real, g: Grid, m: int)
    requires Readable(g) && 0 <= m <= TopRung(g)
    ensures 0 <= SnapIndex(value, g) <= TopRung(g) && g.lo <= SnapOffset(value, g) <= g.hi
    ensures Preferred(SnapOffset(value, g), Rung(g, m), value)
  {
    var n, top := LowerRung(value, g), TopRung(g);
    LowerRungIsBelow(value, g);
    RungOrder(g, 0, n);
    RungOrder(g, n, top);
    RungOrder(g, SnapIndex(value, g), top);
    RungOrder(g, 0, SnapIndex(value, g));
    RungOrder(g, n, n + 1);
    if m < n {
      RungOrder(g, m, n);
    } else if m > n + 1 {
      RungOrder(g, n + 1, m);
    }
  }

  lemma RungOrder(g: Grid, m: int, n: int)
    requires Readable(g)
    ensures m < n ==> Rung(g, m) < Rung(g, n)
    ensures m == n ==> Rung(g, m) == Rung(g, n)
    ensures Rung(g, 0) == g.lo
  {
    if m < n {
      RungsAscend(g, m, n);
    }
  }

  lemma RungSnapsToItself(g: Grid, k: int)
    requires Readable(g) && 0 <= k <= TopRung(g)
    ensures SnapOffset(Rung(g, k), g) == Rung(g, k) && g.lo <= Rung(g, k) <= g.hi
  {
    SnapIsTheNearestRung(Rung(g, k), g, k);
  }

  /** Snapping twice changes nothing. */
  lemma SnapIsIdempotent(value: real, g: Grid)
    requires Readable(g)
    ensures SnapOffset(SnapOffset(value, g), g) == SnapOffset(value, g)
  {
    LowerRungIsBelow(value, g);
    SnapIsTheNearestRung(value, g, 0);
    RungSnapsToItself(g, SnapIndex(value, g));
  }

  /** No rung of the range is nearer. */
  lemma SnapIsNearest(value: real, g: Grid, m: int)
    requires Readable(g) && 0 <= m <= TopRung(g)
    ensures var r, other := SnapOffset(value, g), Rung(g, m);
            (if r < value then value - r else r - value) <= if other < value then value - other else other - value
  {
    SnapIsTheNearestRung(value, g, m);
  }

  /** A value midway between two rungs snaps to the one of larger magnitude, and to the lower one
      when the two agree. */
  lemma TiesGoOutward(g: Grid, k: int)
    requires Readable(g) && 0 <= k < TopRung(g)
    ensures var low, high := Rung(g, k), Rung(g, k + 1);
            && SnapOffset((low + high) / 2.0, g) == if low + high > 0.0 then high else low
  {
    var value := (Rung(g, k) + Rung(g, k + 1)) / 2.0;
    RungsAscend(g, k, k + 1);
    SnapIsTheNearestRung(value, g, k);
    SnapIsTheNearestRung(value, g, k + 1);
    var n := SnapIndex(value, g);
    RungOrder(g, n, k);
    RungOrder(g, k + 1, n);
  }

  /** Inside the range of the rungs snapping moves by at most half a step. */
  lemma SnapMovesHalfAStep(value: real, g: Grid)
    requires Readable(g) && g.lo <= value <= Rung(g, TopRung(g))
    ensures Abs(SnapOffset(value, g) - value) <= g.step / 2.0
  {
    var n := LowerRung(value, g);
    LowerRungIsBelow(value, g);
    RungsAscend(g, n, n + 1);
  }

  // ----- The accumulating loop against a device -----

  const DEADBAND := 0.3

  const MIN_INTERVAL := 300.0

  /** The offset that makes the valve read the room sensor, given what it shows now. */
  function LocalCalibration(external: real, shown: real, offset: real, g: Grid): real {
    Clamp(external - shown + offset, g.lo, g.hi)
  }

  predicate WriteDue(new_: real, reported: real, lastWrite: Option<real>, now: real) {
    (lastWrite.None? || now - lastWrite.value >= MIN_INTERVAL) && Abs(new_ - reported) >= DEADBAND
  }

  predicate Converged(reported: real, lastValue: Option<real>, g: Grid) {
    lastValue.None? || Abs(reported - lastValue.value) <= g.step / 2.0
  }

  /** The evidence gate: accumulate only on a report newer than a command that took hold. */
  predicate AccumulationAllowed(reported: real, lastValue: Option<real>, g: Grid, reportedSince: bool) {
    lastValue.None? || (Converged(reported, lastValue, g) && reportedSince)
  }

  /** The device and the controller's memory. The device adds its `register` to what it measures;
      the number entity says `reported`; the climate entity shows `shown`, which is the raw
      reading `measured` plus the register it was measured `under`. The controller remembers its
      last accepted command and whether the climate entity was updated since. */
  datatype Loop = Loop(register: real, reported: real, shown: real, measured: real, under: real,
                       lastValue: Option<real>, lastWrite: Option<real>, reportedSince: bool)

  /** What can happen, in any order: the register takes a value, the number entity shows one, the
      climate entity brings a temperature or is updated without one, and the controller decides
      on the room sensor, its write going through or failing. */
  datatype Event =
    | Hold(value: real)
    | Show(value: real)
    | Report(raw: real)
    | Touch
    | Decide(now: real, external: real, sent: bool)

  function Target(l: Loop, external: real, g: Grid): real
    requires Readable(g)
  {
    SnapOffset(LocalCalibration(external, l.shown, l.reported, g), g)
  }

  predicate GateOpen(l: Loop, g: Grid) {
    AccumulationAllowed(l.reported, l.lastValue, g, l.reportedSince)
  }

  /** The event is a write that goes through, with or without the evidence gate. */
  predicate Writes(l: Loop, e: Event, g: Grid, gated: bool)
    requires Readable(g)
  {
    && e.Decide? && e.sent
    && (gated ==> GateOpen(l, g))
    && WriteDue(Target(l, e.external, g), l.reported, l.lastWrite, e.now)
  }

  function Dispatched(l: Loop, value: real, now: real): Loop {
    l.(lastValue := Some(value), lastWrite := Some(now), reportedSince := false)
  }

  function StepLoop(l: Loop, e: Event, g: Grid, gated: bool): Loop
    requires Readable(g)
  {
    match e
    case Hold(value) => l.(register := value)
    case Show(value) => l.(reported := value)
    case Report(raw) => l.(shown := raw + l.register, measured := raw, under := l.register, reportedSince := true)
    case Touch => l.(reportedSince := true)
    case Decide(now, external, _) =>
      if Writes(l, e, g, gated) then Dispatched(l, Target(l, external, g), now) else l
  }

  function After(l: Loop, events: seq<Event>, g: Grid, gated: bool): Loop
    requires Readable(g)
  {
    if events == [] then l
    else StepLoop(After(l, events[..|events| - 1], g, gated), events[|events| - 1], g, gated)
  }

  lemma AfterOne(l: Loop, events: seq<Event>, e: Event, g: Grid, gated: bool)
    requires Readable(g)
    ensures After(l, events + [e], g, gated) == StepLoop(After(l, events, g, gated), e, g, gated)
  {
    assert (events + [e])[..|events|] == events;
  }

  // ----- When a correction owes nothing to history -----

  /** What the valve shows is the last reading under the register of that moment. */
  predicate Adds(l: Loop) {
    l.shown == l.measured + l.under
  }

  /** The correction that owes nothing to history: the difference of the two sensors, on the grid. */
  function TrueTarget(external: real, measured: real, g: Grid): real
    requires Readable(g)
  {
    SnapOffset(Clamp(external - measured, g.lo, g.hi), g)
  }

  /** Whatever the room sensor says, the correction is the history-free one. */
  ghost predicate HistoryFree(l: Loop, g: Grid)
    requires Readable(g)
  {
    forall external :: Target(l, external, g) == TrueTarget(external, l.measured, g)
  }

  lemma {:induction false} RunsAdd(l: Loop, events: seq<Event>, g: Grid, gated: bool)
    requires Readable(g) && Adds(l)
    ensures Adds(After(l, events, g, gated))
    decreases |events|
  {
    if events != [] {
      RunsAdd(l, events[..|events| - 1], g, gated);
    }
  }

  /** Values on the two sides of the middle of the lowest two rungs snap apart. */
  lemma MiddleSplits(below: real, above: real, g: Grid)
    requires Readable(g) && TopRung(g) >= 1
    requires below < g.lo + g.step / 2.0 < above
    ensures SnapOffset(Clamp(below, g.lo, g.hi), g) != SnapOffset(Clamp(above, g.lo, g.hi), g)
  {
    RungOrder(g, 0, 1);
    RungsAscend(g, 0, 1);
    SnapsLow(Clamp(below, g.lo, g.hi), g);
    TopRungIsInside(g);
    RungOrder(g, 1, TopRung(g));
    SnapsHigh(Clamp(above, g.lo, g.hi), g);
  }

  lemma SnapsLow(value: real, g: Grid)
    requires Readable(g) && TopRung(g) >= 1 && g.lo <= value < g.lo + g.step / 2.0
    ensures SnapOffset(value, g) == g.lo
  {
    RungOrder(g, 0, 1);
    RungsAscend(g, 0, 1);
    SnapIsTheNearestRung(value, g, 0);
    var k := SnapIndex(value, g);
    RungOrder(g, 1, k);
    RungOrder(g, 0, k);
  }

  lemma SnapsHigh(value: real, g: Grid)
    requires Readable(g) && TopRung(g) >= 1 && g.lo + g.step / 2.0 < value
    ensures SnapOffset(value, g) > g.lo
  {
    RungOrder(g, 0, 1);
    RungsAscend(g, 0, 1);
    SnapIsTheNearestRung(value, g, 1);
    RungOrder(g, 0, SnapIndex(value, g));
  }

  /** On a grid of one rung there is only one correction. */
  lemma OneRung(value: real, g: Grid)
    requires Readable(g) && TopRung(g) == 0
    ensures SnapOffset(value, g) == Rung(g, 0)
  {
    SnapIsTheNearestRung(value, g, 0);
  }

  /** A register reported other than the one the valve measured under shows in some room. */
  lemma SkewShows(l: Loop, g: Grid)
    requires Readable(g) && Adds(l) && TopRung(g) >= 1 && l.reported != l.under
    ensures !HistoryFree(l, g)
  {
    var skew := l.reported - l.under;
    var external := l.measured + g.lo + g.step / 2.0 - skew / 2.0;
    var plain := external - l.measured;
    assert external - l.shown + l.reported == plain + skew;
    if skew > 0.0 {
      MiddleSplits(plain, plain + skew, g);
    } else {
      MiddleSplits(plain + skew, plain, g);
    }
    assert Target(l, external, g) != TrueTarget(external, l.measured, g);
  }

  /** Over every run, whatever the register and the two entities do and whether or not the gate is
      in place, the correction is the history-free one in every room exactly when the temperature
      on show was measured under the register now reported (or there is but one rung). */
  lemma HistoryFreeExactly(l: Loop, events: seq<Event>, g: Grid, gated: bool)
    requires Readable(g) && Adds(l)
    ensures var r := After(l, events, g, gated);
            HistoryFree(r, g) <==> (r.reported == r.under || TopRung(g) == 0)
  {
    RunsAdd(l, events, g, gated);
    HistoryFreeNow(After(l, events, g, gated), g);
  }

  lemma HistoryFreeNow(l: Loop, g: Grid)
    requires Readable(g) && Adds(l)
    ensures HistoryFree(l, g) <==> (l.reported == l.under || TopRung(g) == 0)
  {
    TopRungIsInside(g);
    if TopRung(g) == 0 {
      forall external
        ensures Target(l, external, g) == TrueTarget(external, l.measured, g)
      {
        OneRung(LocalCalibration(external, l.shown, l.reported, g), g);
        OneRung(Clamp(external - l.measured, g.lo, g.hi), g);
      }
    } else if l.reported != l.under {
      SkewShows(l, g);
    }
  }

  // ----- The gate on a prompt device -----

  predicate OnGrid(value: real, g: Grid)
    requires Readable(g)
  {
    exists k :: 0 <= k <= TopRung(g) && value == Rung(g, k)
  }

  /** What a prompt device keeps to: the register takes only what was commanded, the number entity
      shows rungs, and from a command on the climate entity is first updated with a reading taken
      under it. Nothing is said of how soon the number entity follows. */
  predicate PromptEvent(l: Loop, e: Event, g: Grid)
    requires Readable(g)
  {
    match e
    case Hold(value) => value == if l.lastValue.None? then l.register else l.lastValue.value
    case Show(value) => OnGrid(value, g) && (l.lastValue.None? ==> value == l.register)
    case Report(_) => l.lastValue.Some? ==> l.register == l.lastValue.value
    case Touch => l.lastValue.Some? ==> l.under == l.lastValue.value
    case Decide(_, _, _) => true
  }

  predicate Prompt(l: Loop, events: seq<Event>, g: Grid, gated: bool)
    requires Readable(g)
  {
    forall i :: 0 <= i < |events| ==> PromptEvent(After(l, events[..i], g, gated), events[i], g)
  }

  lemma PromptPrefix(l: Loop, events: seq<Event>, g: Grid, gated: bool)
    requires Readable(g) && Prompt(l, events, g, gated) && events != []
    ensures Prompt(l, events[..|events| - 1], g, gated)
    ensures PromptEvent(After(l, events[..|events| - 1], g, gated), events[|events| - 1], g)
  {
    var rest := events[..|events| - 1];
    forall i | 0 <= i < |rest|
      ensures PromptEvent(After(l, rest[..i], g, gated), rest[i], g)
    {
      assert rest[..i] == events[..i];
    }
  }

  /** What the memory stands for: without a command the device is at rest; an update since a
      command was measured under it; commands and reported values are rungs. */
  predicate Sound(l: Loop, g: Grid)
    requires Readable(g)
  {
    && Adds(l) && OnGrid(l.reported, g)
    && (l.lastValue.None? ==> l.register == l.reported == l.under)
    && (l.lastValue.Some? ==> OnGrid(l.lastValue.value, g) && (l.reportedSince ==> l.under == l.lastValue.value))
  }

  lemma TargetIsOnGrid(l: Loop, external: real, g: Grid)
    requires Readable(g)
    ensures OnGrid(Target(l, external, g), g)
  {
    var value := LocalCalibration(external, l.shown, l.reported, g);
    LowerRungIsBelow(value, g);
    SnapIsTheNearestRung(value, g, 0);
    assert Target(l, external, g) == Rung(g, SnapIndex(value, g));
  }

  lemma SoundStep(l: Loop, e: Event, g: Grid, gated: bool)
    requires Readable(g) && Sound(l, g) && PromptEvent(l, e, g)
    ensures Sound(StepLoop(l, e, g, gated), g)
  {
    if e.Decide? {
      TargetIsOnGrid(l, e.external, g);
    }
  }

  lemma {:induction false} RunsStaySound(l: Loop, events: seq<Event>, g: Grid, gated: bool)
    requires Readable(g) && Sound(l, g) && Prompt(l, events, g, gated)
    ensures Sound(After(l, events, g, gated), g)
    decreases |events|
  {
    if events != [] {
      var rest := events[..|events| - 1];
      PromptPrefix(l, events, g, gated);
      RunsStaySound(l, rest, g, gated);
      SoundStep(After(l, rest, g, gated), events[|events| - 1], g, gated);
    }
  }

  /** Rungs at most half a step apart are one rung. */
  lemma CloseRungsAreOne(a: real, b: real, g: Grid)
    requires Readable(g) && OnGrid(a, g) && OnGrid(b, g)
    ensures Abs(a - b) <= g.step / 2.0 <==> a == b
  {
    var m :| 0 <= m <= TopRung(g) && a == Rung(g, m);
    var n :| 0 <= n <= TopRung(g) && b == Rung(g, n);
    if m < n {
      RungsAscend(g, m, n);
    } else if n < m {
      RungsAscend(g, n, m);
    }
  }

  /** Over every run of a prompt device: on fresh evidence the gate is open exactly when the
      correction is the history-free one in every room; so every correction it lets through is. */
  lemma GatedCorrectionIsHistoryFree(l: Loop, events: seq<Event>, g: Grid)
    requires Readable(g) && Sound(l, g) && Prompt(l, events, g, true)
    ensures var r := After(l, events, g, true);
            && (GateOpen(r, g) ==> HistoryFree(r, g))
            && (r.reportedSince && TopRung(g) >= 1 ==> (GateOpen(r, g) <==> HistoryFree(r, g)))
  {
    RunsStaySound(l, events, g, true);
    var r := After(l, events, g, true);
    HistoryFreeNow(r, g);
    if r.lastValue.Some? {
      CloseRungsAreOne(r.reported, r.lastValue.value, g);
    }
  }

  /** The gate in figures: a command is taken for adopted within half a step of it, on the grid or
      off, and only an update since lets it through; without a command there is nothing to await. */
  lemma GateIsHalfAStepWide(l: Loop, g: Grid)
    ensures GateOpen(l, g) <==>
              l.lastValue == None ||
              (l.reportedSince && -g.step <= 2.0 * (l.reported - l.lastValue.value) <= g.step)
  {
  }

  // ----- A device that takes hold late -----

  /** A device at rest on a rung, with a room that reads `gap` rungs more. */
  predicate Resting(l: Loop, g: Grid, external: real, at: int, gap: int)
    requires Readable(g)
  {
    && Adds(l) && l.lastValue.None? && l.lastWrite.None? && l.register == l.reported == l.under == Rung(g, at)
    && 0 <= at && 0 < gap && at + gap + gap <= TopRung(g)
    && gap as real * g.step >= DEADBAND && external - l.shown == gap as real * g.step
  }

  /** The write, a report still measured under the old register, then the register and the number
      entity follow. */
  function LateRegister(l: Loop, g: Grid, now: real, external: real, at: int, gap: int): seq<Event> {
    [Decide(now, external, true), Report(l.measured), Hold(Rung(g, at + gap)), Show(Rung(g, at + gap))]
  }

  /** A target right on a rung. */
  lemma TargetOnRung(l: Loop, external: real, g: Grid, at: int, gap: int)
    requires Readable(g) && 0 <= at && 0 < gap && at + gap <= TopRung(g)
    requires l.reported == Rung(g, at) && external - l.shown == gap as real * g.step
    ensures Target(l, external, g) == Rung(g, at + gap) == l.reported + gap as real * g.step
  {
    assert Rung(g, at + gap) == Rung(g, at) + gap as real * g.step;
    RungSnapsToItself(g, at + gap);
  }

  /** From every device at rest, on every grid with room for it, the late register fools the gate:
      both halves pass and the correction, due already, counts the difference twice. */
  lemma LateRegisterFoolsTheGate(l: Loop, g: Grid, now: real, external: real, at: int, gap: int)
    requires Readable(g) && Resting(l, g, external, at, gap)
    ensures var r := After(l, LateRegister(l, g, now, external, at, gap), g, true);
            && GateOpen(r, g) && r.reportedSince && r.lastValue == Some(Rung(g, at + gap)) && r.measured == l.measured
            && Target(r, external, g) == Rung(g, at + gap + gap) && !HistoryFree(r, g)
            && Writes(r, Decide(now + MIN_INTERVAL, external, true), g, true)
  {
    TargetOnRung(l, external, g, at, gap);
    var events := LateRegister(l, g, now, external, at, gap);
    assert events[..3] == events[..2] + [events[2]] && events[..2] == events[..1] + [events[1]];
    assert events == events[..3] + [events[3]] && events[..1] == [] + [events[0]];
    AfterOne(l, [], events[0], g, true);
    AfterOne(l, events[..1], events[1], g, true);
    AfterOne(l, events[..2], events[2], g, true);
    AfterOne(l, events[..3], events[3], g, true);
    var r := After(l, events, g, true);
    TargetOnRung(r, external, g, at + gap, gap);
    RungOrder(g, at, at + gap);
    HistoryFreeNow(r, g);
  }

  /** The write, the register and the number entity following at once, then an update of the
      climate entity that brings no new temperature. */
  function LateReading(g: Grid, now: real, external: real, at: int, gap: int): seq<Event> {
    [Decide(now, external, true), Hold(Rung(g, at + gap)), Show(Rung(g, at + gap)), Touch]
  }

  /** A device whose register takes hold at once fools the gate too, if the climate entity is
      updated for anything but a new temperature: the reading on show is still the old one. */
  lemma LateReadingFoolsTheGate(l: Loop, g: Grid, now: real, external: real, at: int, gap: int)
    requires Readable(g) && Resting(l, g, external, at, gap)
    ensures var r := After(l, LateReading(g, now, external, at, gap), g, true);
            && GateOpen(r, g) && r.reportedSince && r.lastValue == Some(r.register) && r.register == Rung(g, at + gap)
            && Target(r, external, g) == Rung(g, at + gap + gap) && !HistoryFree(r, g)
            && Writes(r, Decide(now + MIN_INTERVAL, external, true), g, true)
  {
    TargetOnRung(l, external, g, at, gap);
    var events := LateReading(g, now, external, at, gap);
    assert events[..3] == events[..2] + [events[2]] && events[..2] == events[..1] + [events[1]];
    assert events == events[..3] + [events[3]] && events[..1] == [] + [events[0]];
    AfterOne(l, [], events[0], g, true);
    AfterOne(l, events[..1], events[1], g, true);
    AfterOne(l, events[..2], events[2], g, true);
    AfterOne(l, events[..3], events[3], g, true);
    var r := After(l, events, g, true);
    TargetOnRung(r, external, g, at + gap, gap);
    RungOrder(g, at, at + gap);
    HistoryFreeNow(r, g);
  }

  const HALF_STEPS := Grid(-5.0, 5.0, 0.5)

  const UNCORRECTED := Loop(0.0, 0.0, 20.0, 20.0, 0.0, None, None, false)

  /** A valve at 20 in a room at 22, on half steps: 2 is written, the late report lets the gate
      pass, and 4 is written next, although the sensors still differ by 2. */
  lemma LateRegisterWritesTwice()
    ensures var events := LateRegister(UNCORRECTED, HALF_STEPS, 0.0, 22.0, 10, 4);
            var r := After(UNCORRECTED, events, HALF_STEPS, true);
            && events == [Decide(0.0, 22.0, true), Report(20.0), Hold(2.0), Show(2.0)]
            && GateOpen(r, HALF_STEPS) && r.lastValue == Some(2.0) && TrueTarget(22.0, 20.0, HALF_STEPS) == 2.0
            && StepLoop(r, Decide(300.0, 22.0, true), HALF_STEPS, true).lastValue == Some(4.0)
  {
    LateRegisterFoolsTheGate(UNCORRECTED, HALF_STEPS, 0.0, 22.0, 10, 4);
    RungSnapsToItself(HALF_STEPS, 14);
  }

  // ----- What the loop writes -----

  /** The value of a write is a rung off the reported one by the deadband. */
  lemma WriteIsOffTheReported(l: Loop, e: Event, g: Grid, gated: bool)
    requires Readable(g) && Writes(l, e, g, gated)
    ensures var value := Target(l, e.external, g);
            g.lo <= value <= g.hi && Abs(value - l.reported) >= 0.3
  {
    var value := LocalCalibration(e.external, l.shown, l.reported, g);
    LowerRungIsBelow(value, g);
    SnapIsTheNearestRung(value, g, 0);
  }

  /** Only a write changes the controller's memory of commands; it is off the reported value by at
      least the deadband, inside the range, and waits for the interval since the last one. */
  lemma WritesAreDue(l: Loop, e: Event, g: Grid, gated: bool)
    requires Readable(g)
    ensures var r := StepLoop(l, e, g, gated);
            (r.lastWrite != l.lastWrite || r.lastValue != l.lastValue) ==>
              && e.Decide? && e.sent && r.lastWrite == Some(e.now) && r.lastValue.Some? && !r.reportedSince
              && Abs(r.lastValue.value - l.reported) >= 0.3 && g.lo <= r.lastValue.value <= g.hi
              && (l.lastWrite.Some? ==> e.now - l.lastWrite.value >= 300.0)
  {
    if Writes(l, e, g, gated) {
      WriteIsOffTheReported(l, e, g, gated);
    }
  }

  /** Both sensors steady: every decision sees the same room, every report brings the same reading. */
  predicate Steady(events: seq<Event>, external: real, raw: real) {
    forall i :: 0 <= i < |events| ==>
                  && (events[i].Decide? ==> events[i].external == external)
                  && (events[i].Report? ==> events[i].raw == raw)
  }

  /** How often a run writes. */
  function WriteCount(l: Loop, events: seq<Event>, g: Grid, gated: bool): nat
    requires Readable(g)
  {
    if events == [] then 0
    else
      var rest := events[..|events| - 1];
      WriteCount(l, rest, g, gated) + if Writes(After(l, rest, g, gated), events[|events| - 1], g, gated) then 1 else 0
  }

  /** Of a state that has written `count` times: all of it was the one true target. */
  predicate WroteOnly(start: Loop, l: Loop, goal: real, count: nat) {
    && (count == 0 ==> l.lastValue == start.lastValue)
    && (count > 0 ==> l.lastValue == Some(goal))
    && (start.lastValue == Some(goal) ==> count == 0)
    && count <= 1
  }

  /** A command that took hold and is the true target leaves nothing due. */
  lemma GoalIsNotDue(l: Loop, e: Event, g: Grid, goal: real)
    requires Readable(g) && Sound(l, g) && l.lastValue == Some(goal) && e.Decide?
    requires goal == TrueTarget(e.external, l.measured, g)
    ensures !Writes(l, e, g, true)
  {
    CloseRungsAreOne(l.reported, goal, g);
    HistoryFreeNow(l, g);
    if GateOpen(l, g) {
      assert Target(l, e.external, g) == goal;
    }
  }

  /** A gated write under sound memory is the true target. */
  lemma GatedWriteIsTrue(l: Loop, e: Event, g: Grid)
    requires Readable(g) && Sound(l, g) && Writes(l, e, g, true)
    ensures Target(l, e.external, g) == TrueTarget(e.external, l.measured, g)
  {
    HistoryFreeNow(l, g);
    if l.lastValue.Some? {
      CloseRungsAreOne(l.reported, l.lastValue.value, g);
    }
  }

  lemma WroteOnlyStep(start: Loop, l: Loop, e: Event, g: Grid, goal: real, count: nat)
    requires Readable(g) && Sound(l, g) && WroteOnly(start, l, goal, count)
    requires e.Decide? ==> goal == TrueTarget(e.external, l.measured, g)
    ensures WroteOnly(start, StepLoop(l, e, g, true), goal, if Writes(l, e, g, true) then count + 1 else count)
  {
    if Writes(l, e, g, true) {
      GatedWriteIsTrue(l, e, g);
      if l.lastValue == Some(goal) {
        GoalIsNotDue(l, e, g, goal);
      }
    }
  }

  /** Under steady sensors the gated loop on a prompt device writes at most once over any run, and
      then the one true target; a command that is the true target already is never followed by
      another. */
  lemma {:induction false} GatedLoopWritesOnce(l: Loop, events: seq<Event>, g: Grid, external: real, raw: real)
    requires Readable(g) && Sound(l, g) && Prompt(l, events, g, true)
    requires l.measured == raw && Steady(events, external, raw)
    ensures After(l, events, g, true).measured == raw
    ensures WroteOnly(l, After(l, events, g, true), TrueTarget(external, raw, g), WriteCount(l, events, g, true))
    decreases |events|
  {
    if events != [] {
      var n := |events| - 1;
      PromptPrefix(l, events, g, true);
      GatedLoopWritesOnce(l, events[..n], g, external, raw);
      RunsStaySound(l, events[..n], g, true);
      var goal := TrueTarget(external, raw, g);
      WroteOnlyStep(l, After(l, events[..n], g, true), events[n], g, goal, WriteCount(l, events[..n], g, true));
    }
  }

  /** A target within reach leaves the valve at most half a step off the room sensor. */
  lemma TrueTargetIsAccurate(external: real, measured: real, g: Grid)
    requires Readable(g) && g.lo <= external - measured <= Rung(g, TopRung(g))
    ensures Abs(measured + TrueTarget(external, measured, g) - external) <= g.step / 2.0
  {
    LowerRungIsBelow(external - measured, g);
    SnapMovesHalfAStep(external - measured, g);
  }

  lemma OffsetsClose(value: real, goal: real, reported: real, off: real, half: real)
    requires Abs(goal - reported) < 0.3 && Abs(value + goal - off) <= half
    ensures Abs(value + reported - off) < 0.3 + half
  {
  }

  lemma OpenGateIsEvident(l: Loop, g: Grid)
    requires Readable(g) && Sound(l, g) && GateOpen(l, g)
    ensures l.reported == l.under && l.shown == l.measured + l.reported
  {
    if l.lastValue.Some? {
      CloseRungsAreOne(l.reported, l.lastValue.value, g);
    }
  }

  /** Under evidence the correction is the difference of the two sensors. */
  lemma EvidentTarget(l: Loop, external: real, g: Grid)
    requires Readable(g) && l.shown == l.measured + l.reported
    ensures Target(l, external, g) == TrueTarget(external, l.measured, g)
  {
    assert external - l.shown + l.reported == external - l.measured;
  }

  /** Nothing due although the interval has passed: the target is within the deadband. */
  lemma SuppressedWrite(l: Loop, now: real, external: real, g: Grid)
    requires Readable(g) && GateOpen(l, g) && !Writes(l, Decide(now, external, true), g, true)
    requires l.lastWrite.Some? ==> now - l.lastWrite.value >= MIN_INTERVAL
    ensures Abs(Target(l, external, g) - l.reported) < 0.3
  {
    assert !WriteDue(Target(l, external, g), l.reported, l.lastWrite, now);
  }

  /** The gate is open, the interval has passed, the target is within reach, and still nothing is
      due. */
  predicate Quiet(l: Loop, g: Grid, now: real, external: real)
    requires Readable(g)
  {
    && GateOpen(l, g) && (l.lastWrite.Some? ==> now - l.lastWrite.value >= MIN_INTERVAL)
    && g.lo <= external - l.measured <= Rung(g, TopRung(g)) && !Writes(l, Decide(now, external, true), g, true)
  }

  predicate WithinBand(l: Loop, g: Grid, external: real) {
    Abs(l.shown - external) < 0.3 + g.step / 2.0
  }

  lemma QuietStateIsAccurate(l: Loop, g: Grid, now: real, external: real)
    requires Readable(g) && Sound(l, g) && Quiet(l, g, now, external)
    ensures WithinBand(l, g, external)
  {
    SuppressedWrite(l, now, external, g);
    OpenGateIsEvident(l, g);
    EvidentTarget(l, external, g);
    TrueTargetIsAccurate(external, l.measured, g);
    OffsetsClose(l.measured, TrueTarget(external, l.measured, g), l.reported, external, g.step / 2.0);
  }

  /** Over every run of a prompt device: where the loop is quiet, the valve on show is off the room
      sensor by less than the deadband and half a step. */
  lemma QuietLoopIsAccurate(l: Loop, events: seq<Event>, g: Grid, now: real, external: real)
    requires Readable(g) && Sound(l, g) && Prompt(l, events, g, true)
    requires Quiet(After(l, events, g, true), g, now, external)
    ensures WithinBand(After(l, events, g, true), g, external)
  {
    RunsStaySound(l, events, g, true);
    QuietStateIsAccurate(After(l, events, g, true), g, now, external);
  }

  // ----- Without the gate -----

  /** `gap` rungs up, `n` times over. */
  function Climbed(at: int, gap: int, n: nat): int {
    if n == 0 then at else Climbed(at, gap, n - 1) + gap
  }

  lemma {:induction false} ClimbAscends(at: int, gap: int, n: nat)
    requires 0 <= at && 0 < gap
    ensures at <= Climbed(at, gap, n)
  {
    if n > 0 {
      ClimbAscends(at, gap, n - 1);
    }
  }

  /** Decisions at the given times, each followed by the register and the number entity taking the
      command, while the climate entity stays silent. */
  function SilentRun(g: Grid, external: real, nows: seq<real>, at: int, gap: int): seq<Event> {
    if nows == [] then []
    else
      var n := |nows| - 1;
      var value := Rung(g, Climbed(at, gap, n + 1));
      SilentRun(g, external, nows[..n], at, gap) + [Decide(nows[n], external, true)] + [Hold(value)] + [Show(value)]
  }

  /** Decision times that the write interval lets through. */
  predicate Spaced(nows: seq<real>, lastWrite: Option<real>) {
    && (nows != [] && lastWrite.Some? ==> nows[0] - lastWrite.value >= MIN_INTERVAL)
    && forall i :: 0 < i < |nows| ==> nows[i] - nows[i - 1] >= MIN_INTERVAL
  }

  lemma UngatedStep(l: Loop, now: real, external: real, g: Grid, at: int, gap: int)
    requires Readable(g) && 0 <= at && 0 < gap && at + gap <= TopRung(g)
    requires gap as real * g.step >= DEADBAND && l.reported == Rung(g, at)
    requires external - l.shown == gap as real * g.step
    requires l.lastWrite.None? || now - l.lastWrite.value >= MIN_INTERVAL
    ensures StepLoop(l, Decide(now, external, true), g, false) == Dispatched(l, Rung(g, at + gap), now)
  {
    TargetOnRung(l, external, g, at, gap);
  }

  /** Without the gate every decision on an unchanged report adds the same correction again, until
      the register runs into its rail. */
  lemma {:induction false} UngatedLoopRunsAway(l: Loop, nows: seq<real>, g: Grid, external: real, at: int, gap: int)
    requires Readable(g) && 0 <= at && 0 < gap && Climbed(at, gap, |nows|) <= TopRung(g)
    requires gap as real * g.step >= DEADBAND && l.reported == Rung(g, at)
    requires external - l.shown == gap as real * g.step && Spaced(nows, l.lastWrite)
    ensures var r := After(l, SilentRun(g, external, nows, at, gap), g, false);
            && r.reported == Rung(g, Climbed(at, gap, |nows|)) && r.shown == l.shown
            && r.lastWrite == if nows == [] then l.lastWrite else Some(nows[|nows| - 1])
    decreases |nows|
  {
    if nows != [] {
      var n := |nows| - 1;
      UngatedLoopRunsAway(l, nows[..n], g, external, at, gap);
      ClimbAscends(at, gap, n);
      var before := SilentRun(g, external, nows[..n], at, gap);
      var value := Rung(g, Climbed(at, gap, n + 1));
      UngatedStep(After(l, before, g, false), nows[n], external, g, Climbed(at, gap, n), gap);
      AfterOne(l, before, Decide(nows[n], external, true), g, false);
      AfterOne(l, before + [Decide(nows[n], external, true)], Hold(value), g, false);
      AfterOne(l, before + [Decide(nows[n], external, true)] + [Hold(value)], Show(value), g, false);
    }
  }
}
