/** The fan-first cooling stage: an echo-gated sequence before the compressor may run. */
module FanFirst {
  import opened Options

  // ----- Stages and the velocity clamp -----

  const CLAMP_LOW_MS := 0.2

  /** The air speed allowed at an operative temperature, rising from 23.0 to 25.5 degrees. */
  function MaxStageVelocity(operative: real): real {
    if operative < 23.0 then CLAMP_LOW_MS
    else if operative >= 25.5 then 0.8
    else CLAMP_LOW_MS + (operative - 23.0) * 0.24
  }

  lemma ClampIsBoundedAndMonotone(a: real, b: real)
    requires a <= b
    ensures CLAMP_LOW_MS <= MaxStageVelocity(a) <= MaxStageVelocity(b) <= 0.8
  {
  }

  /** From 0.2 m/s below 23 degrees to 0.8 from 25.5 on, in a straight line between. */
  lemma ClampIsALine(operative: real)
    ensures operative <= 23.0 ==> MaxStageVelocity(operative) == 0.2
    ensures operative >= 25.5 ==> MaxStageVelocity(operative) == 0.8
    ensures 23.0 <= operative <= 25.5 ==> (MaxStageVelocity(operative) - 0.2) * 2.5 == (operative - 23.0) * 0.6
  {
  }

  function LowerChar(c: char): char {
    if 'A' <= c <= 'Z' then c + ('a' - 'A') else c
  }

  function Lower(s: string): string {
    if s == "" then "" else Lower(s[..|s| - 1]) + [LowerChar(s[|s| - 1])]
  }

  const STAGES: seq<(string, real)> := [
    ("silent", 0.25), ("quiet", 0.25), ("low", 0.25), ("min", 0.25), ("medium", 0.40), ("mid", 0.40),
    ("high", 0.65), ("strong", 0.65), ("focus", 0.65), ("turbo", 0.85), ("powerful", 0.85), ("max", 0.85),
    ("auto", 0.35)]

  function Lookup(table: seq<(string, real)>, name: string): Option<real> {
    if table == [] then None
    else if table[0].0 == name then Some(table[0].1)
    else Lookup(table[1..], name)
  }

  /** The estimate for a known label; an unknown one is never guessed. */
  function KnownVelocity(stage: string): Option<real> {
    Lookup(STAGES, Lower(stage))
  }

  predicate IsAuto(stage: string) {
    Lower(stage) == "auto"
  }

  predicate Qualifies(stage: string, clamp: real) {
    !IsAuto(stage) && KnownVelocity(stage).Some? && CLAMP_LOW_MS < KnownVelocity(stage).value <= clamp
  }

  lemma {:induction false} LookupAt(table: seq<(string, real)>, name: string, k: nat)
    requires k < |table| && table[k].0 == name && forall j :: 0 <= j < k ==> table[j].0 != name
    ensures Lookup(table, name) == Some(table[k].1)
    decreases |table|
  {
    if k > 0 {
      LookupAt(table[1..], name, k - 1);
    }
  }

  /** The place of a label in the table, told by its length and first letters. */
  lemma LabelPlace(stage: string, k: nat)
    requires k < |STAGES| && stage == STAGES[k].0
    ensures forall j :: 0 <= j < k ==> STAGES[j].0 != stage
  {
    forall j | 0 <= j < k ensures STAGES[j].0 != stage {
      var other := STAGES[j].0;
      assert |other| != |stage| || other[0] != stage[0] || other[1] != stage[1] || other[2] != stage[2];
    }
  }

  lemma LabelMoves(stage: string, k: nat)
    requires k < |STAGES| && stage == STAGES[k].0
    ensures KnownVelocity(stage) == Some(STAGES[k].1)
  {
    LabelPlace(stage, k);
    LabelsAreLowercase(k);
    LowercaseStays(stage);
    LookupAt(STAGES, stage, k);
  }

  lemma LabelsAreLowercase(k: nat)
    requires k < |STAGES|
    ensures forall i :: 0 <= i < |STAGES[k].0| ==> !('A' <= STAGES[k].0[i] <= 'Z')
  {
  }

  /** From which temperature on a stage qualifies: the low ones early, the middle ones a degree in,
      the high ones just short of the top; the strongest and the firmware's own never do. */
  lemma LowStagesQualify(stage: string, operative: real)
    requires stage in {"silent", "quiet", "low", "min"}
    ensures Qualifies(stage, MaxStageVelocity(operative)) <==> (operative - 23.0) * 0.24 >= 0.05
  {
    LabelMoves(stage, if stage == "silent" then 0 else if stage == "quiet" then 1 else if stage == "low" then 2 else 3);
    NotAuto(stage);
  }

  lemma MiddleStagesQualify(stage: string, operative: real)
    requires stage in {"medium", "mid"}
    ensures Qualifies(stage, MaxStageVelocity(operative)) <==> (operative - 23.0) * 0.24 >= 0.2
  {
    LabelMoves(stage, if stage == "medium" then 4 else 5);
    NotAuto(stage);
  }

  lemma HighStagesQualify(stage: string, operative: real)
    requires stage in {"high", "strong", "focus"}
    ensures Qualifies(stage, MaxStageVelocity(operative)) <==> (operative - 23.0) * 0.24 >= 0.45
  {
    LabelMoves(stage, if stage == "high" then 6 else if stage == "strong" then 7 else 8);
    NotAuto(stage);
  }

  lemma StrongestStagesNever(stage: string, operative: real)
    requires stage in {"turbo", "powerful", "max"}
    ensures !Qualifies(stage, MaxStageVelocity(operative))
  {
    LabelMoves(stage, if stage == "turbo" then 9 else if stage == "powerful" then 10 else 11);
  }

  /** No other stage is taken for the firmware's own. */
  lemma NotAuto(stage: string)
    requires stage in {"silent", "quiet", "low", "min", "medium", "mid", "high", "strong", "focus"}
    ensures !IsAuto(stage)
  {
    LowercaseStays(stage);
    assert |stage| != 4 || stage[0] == 'h';
  }

  lemma {:induction false} LowercaseStays(s: string)
    requires forall i :: 0 <= i < |s| ==> !('A' <= s[i] <= 'Z')
    ensures Lower(s) == s
    decreases |s|
  {
    if s != "" {
      LowercaseStays(s[..|s| - 1]);
    }
  }

  /** Two labels that differ in the case of their letters only. */
  predicate SameButForCase(a: string, b: string) {
    |a| == |b| && forall i :: 0 <= i < |a| ==>
                                || a[i] == b[i]
                                || ('A' <= a[i] <= 'Z' && b[i] as int == a[i] as int + 32)
                                || ('A' <= b[i] <= 'Z' && a[i] as int == b[i] as int + 32)
  }

  lemma {:induction false} LowerIgnoresCase(a: string, b: string)
    requires SameButForCase(a, b)
    ensures Lower(a) == Lower(b)
    decreases |a|
  {
    if a != "" {
      LowerIgnoresCase(a[..|a| - 1], b[..|b| - 1]);
    }
  }

  /** How a label is spelled does not matter. */
  lemma CaseDoesNotMatter(a: string, b: string, clamp: real)
    requires SameButForCase(a, b)
    ensures Qualifies(a, clamp) == Qualifies(b, clamp) && KnownVelocity(a) == KnownVelocity(b) && IsAuto(a) == IsAuto(b)
  {
    LowerIgnoresCase(a, b);
  }

  /** Only the firmware's own label is it, in any spelling. */
  lemma AutoIsAuto(s: string)
    ensures IsAuto(s) <==> SameButForCase(s, "auto")
  {
    if SameButForCase(s, "auto") {
      LowerIgnoresCase(s, "auto");
      LowercaseStays("auto");
    } else if IsAuto(s) {
      LowerKeepsPlaces(s);
    }
  }

  lemma {:induction false} LowerKeepsPlaces(s: string)
    ensures |Lower(s)| == |s| && forall i :: 0 <= i < |s| ==> Lower(s)[i] == LowerChar(s[i])
    decreases |s|
  {
    if s != "" {
      LowerKeepsPlaces(s[..|s| - 1]);
    }
  }

  /** The first of the fastest qualifying stages. */
  function FastestStage(modes: seq<string>, clamp: real): (r: Option<string>)
    ensures r.Some? ==> Qualifies(r.value, clamp)
  {
    if modes == [] then None
    else
      var best, last := FastestStage(modes[..|modes| - 1], clamp), modes[|modes| - 1];
      if !Qualifies(last, clamp) then best
      else if best.None? || KnownVelocity(last).value > KnownVelocity(best.value).value then Some(last)
      else best
  }

  method SelectFanStage(modes: seq<string>, clamp: real) returns (r: Option<string>)
    ensures r == FastestStage(modes, clamp)
  {
    r := None;
    var fastest := 0.0;
    for i := 0 to |modes|
      invariant r == FastestStage(modes[..i], clamp)
      invariant r.Some? ==> fastest == KnownVelocity(r.value).value
    {
      assert modes[..i + 1][..i] == modes[..i];
      var velocity := KnownVelocity(modes[i]);
      if IsAuto(modes[i]) || velocity.None? || !(CLAMP_LOW_MS < velocity.value <= clamp) {
        continue;
      }
      if r.None? || velocity.value > fastest {
        r, fastest := Some(modes[i]), velocity.value;
      }
    }
    assert modes[..|modes|] == modes;
  }

  /** Position `k` holds the first of the fastest qualifying stages. */
  ghost predicate FastestAt(modes: seq<string>, clamp: real, k: int) {
    && 0 <= k < |modes| && Qualifies(modes[k], clamp)
    && forall j :: 0 <= j < |modes| && Qualifies(modes[j], clamp) ==>
         KnownVelocity(modes[j]).value < KnownVelocity(modes[k]).value ||
         (KnownVelocity(modes[j]).value == KnownVelocity(modes[k]).value && k <= j)
  }

  /** A later stage displaces the fastest so far exactly when it is faster. */
  lemma FastestOfOneMore(modes: seq<string>, clamp: real, k: int)
    requires modes != [] && FastestAt(modes[..|modes| - 1], clamp, k)
    ensures var n := |modes| - 1;
            FastestAt(modes, clamp,
              if Qualifies(modes[n], clamp) && KnownVelocity(modes[n]).value > KnownVelocity(modes[k]).value then n
              else k)
  {
    var n := |modes| - 1;
    assert forall j :: 0 <= j < n ==> modes[j] == modes[..n][j];
  }

  /** A stage is chosen exactly when one qualifies; it is advertised, known, not the firmware's
      own "auto", within the clamp, and the first of the fastest such. */
  lemma {:induction false} FastestStageIsFastest(modes: seq<string>, clamp: real) returns (k: int)
    ensures match FastestStage(modes, clamp)
            case None => forall j :: 0 <= j < |modes| ==> !Qualifies(modes[j], clamp)
            case Some(stage) => FastestAt(modes, clamp, k) && stage == modes[k]
    decreases |modes|
  {
    k := 0;
    if modes != [] {
      var n := |modes| - 1;
      var m := FastestStageIsFastest(modes[..n], clamp);
      if FastestStage(modes[..n], clamp).Some? {
        FastestOfOneMore(modes, clamp, m);
        k := if FastestStage(modes, clamp) == FastestStage(modes[..n], clamp) then m else n;
        assert Qualifies(modes[n], clamp) && KnownVelocity(modes[n]).value > KnownVelocity(modes[m]).value ==>
                 FastestStage(modes, clamp) == Some(modes[n]) && modes[n] != modes[m];
      } else {
        assert forall j :: 0 <= j < n ==> modes[j] == modes[..n][j];
        k := n;
      }
    }
  }

  /** Below 23 degrees no stage qualifies: the room gets no active fan-first at all. */
  lemma NoStageInACoolRoom(modes: seq<string>, operative: real)
    requires operative < 23.0
    ensures FastestStage(modes, MaxStageVelocity(operative)) == None
  {
  }

  // ----- The state machine -----

  datatype Phase = Idle | AwaitFanOnly | AwaitStage | Dwell | Yielded

  datatype State = State(
    phase: Phase, engagedAt: Option<real>, phaseAt: Option<real>, stage: Option<string>,
    roomAtEntry: Option<real>, entryFanMode: Option<string>, blockedUntil: Option<real>)

  datatype Command = NoCommand | FanOnly | SetStage | Cool | Release

  datatype Decision = Decision(state: State, command: Command, restore: Option<string>)

  /** What a tick observes and is allowed. */
  datatype Tick = Tick(
    now: real, coolRequested: bool, allowed: bool, fanOnlyCapable: bool,
    hvacMode: Option<string>, hvacAction: Option<string>, fanMode: Option<string>, modes: seq<string>,
    operative: real, room: real, presenceOk: bool, windowOpen: bool, inComfortWindow: bool, foreignChange: bool)

  const FRESH_STATE := State(Idle, None, None, None, None, None, None)

  predicate Engaged(s: State) {
    s.phase == AwaitFanOnly || s.phase == AwaitStage || s.phase == Dwell
  }

  predicate SeesFanOnly(t: Tick) {
    t.hvacMode == Some("fan_only")
  }

  function StageFor(t: Tick): Option<string> {
    FastestStage(t.modes, MaxStageVelocity(t.operative))
  }

  /** What to write back on exit: only where our own stage is still shown, the stage seen at
      engage, or "auto" when that is unknown and advertised. */
  function RestoreTarget(s: State, t: Tick): Option<string> {
    if s.stage.None? || t.fanMode != s.stage then None
    else
      var target := if s.entryFanMode.Some? then s.entryFanMode
                    else if exists i :: 0 <= i < |t.modes| && IsAuto(t.modes[i]) then Some("auto") else None;
      if target == t.fanMode then None else target
  }

  function Released(t: Tick, restore: Option<string>): Decision {
    Decision(FRESH_STATE.(blockedUntil := Some(t.now + 900.0)), Release, restore)
  }

  function Yield(s: State, t: Tick, restore: Option<string>): Decision {
    Decision(s.(phase := Yielded, phaseAt := Some(t.now)), Cool, restore)
  }

  predicate EntryOk(s: State, t: Tick) {
    && t.coolRequested && t.allowed && t.fanOnlyCapable && t.presenceOk && !t.windowOpen && t.inComfortWindow
    && t.room < 35.0
    && t.hvacAction.Some? && t.hvacAction.value != "cooling"
    && StageFor(t).Some?
    && (s.blockedUntil.None? || t.now >= s.blockedUntil.value)
  }

  function DecideIdle(s: State, t: Tick): Decision {
    if EntryOk(s, t) then
      Decision(State(AwaitFanOnly, Some(t.now), Some(t.now), None, Some(t.room), t.fanMode, None), FanOnly, None)
    else Decision(s, NoCommand, None)
  }

  /** Is the sequence called off before its phase gets to decide? */
  function CalledOff(s: State, t: Tick): Option<Decision>
    requires s.engagedAt.Some? && s.roomAtEntry.Some?
  {
    var restore := RestoreTarget(s, t);
    if t.foreignChange then Some(Released(t, None))
    else if !t.coolRequested || t.windowOpen then Some(Released(t, restore))
    else if !t.allowed || !t.presenceOk || !t.inComfortWindow || t.room >= 35.0 then Some(Yield(s, t, restore))
    else if t.now - s.engagedAt.value > 1800.0 || t.room - s.roomAtEntry.value > 0.5 then Some(Yield(s, t, restore))
    else None
  }

  function DecideAwaitFanOnly(s: State, t: Tick): Decision
    requires s.phaseAt.Some?
  {
    var restore := RestoreTarget(s, t);
    if SeesFanOnly(t) then
      var stage := StageFor(t);
      if stage.None? then Yield(s, t, restore)
      else if t.fanMode == stage then
        Decision(s.(phase := Dwell, stage := stage, phaseAt := Some(t.now)), NoCommand, None)
      else Decision(s.(phase := AwaitStage, stage := stage, phaseAt := Some(t.now)), SetStage, None)
    else if t.now - s.phaseAt.value > 180.0 then Yield(s, t, restore)
    else Decision(s, NoCommand, None)
  }

  function DecideAwaitStage(s: State, t: Tick): Decision
    requires s.phaseAt.Some?
  {
    if t.fanMode == s.stage then Decision(s.(phase := Dwell, phaseAt := Some(t.now)), NoCommand, None)
    else if t.now - s.phaseAt.value > 180.0 then Yield(s, t, RestoreTarget(s, t))
    else Decision(s, NoCommand, None)
  }

  function DecideDwell(s: State, t: Tick): Decision
    requires s.phaseAt.Some? && s.roomAtEntry.Some?
  {
    if t.now - s.phaseAt.value >= 600.0 && t.room >= s.roomAtEntry.value then Yield(s, t, RestoreTarget(s, t))
    else Decision(s, NoCommand, None)
  }

  function DecideYielded(s: State, t: Tick): Decision {
    if t.coolRequested then Decision(s, NoCommand, None)
    else Decision(FRESH_STATE.(blockedUntil := Some(t.now + 900.0)), NoCommand, None)
  }

  /** One tick; None stands for a failed assertion. */
  function Decide(s: State, t: Tick): Option<Decision> {
    if Engaged(s) then
      if s.engagedAt.None? || s.phaseAt.None? || s.roomAtEntry.None? then None
      else if CalledOff(s, t).Some? then CalledOff(s, t)
      else if s.phase == AwaitFanOnly then Some(DecideAwaitFanOnly(s, t))
      else if s.phase == AwaitStage then Some(DecideAwaitStage(s, t))
      else Some(DecideDwell(s, t))
    else if s.phase == Idle then Some(DecideIdle(s, t))
    else Some(DecideYielded(s, t))
  }

  // ----- Single ticks -----

  /** A state the machine can be in: an engaged sequence knows when and where it began. */
  predicate Sound(s: State) {
    && (Engaged(s) ==> s.engagedAt.Some? && s.phaseAt.Some? && s.roomAtEntry.Some?)
    && (s.phase == AwaitStage || s.phase == Dwell ==> s.stage.Some?)
  }

  /** The user or the demand ends an engaged sequence. */
  predicate Ended(t: Tick) {
    t.foreignChange || !t.coolRequested || t.windowOpen
  }

  /** An engaged sequence has lost its ground, its time or its room. */
  predicate Lost(s: State, t: Tick)
    requires s.engagedAt.Some? && s.roomAtEntry.Some?
  {
    || !t.allowed || !t.presenceOk || !t.inComfortWindow || t.room >= 35.0
    || t.now - s.engagedAt.value > 1800.0 || t.room - s.roomAtEntry.value > 0.5
  }

  /** What an engaged sequence waits for, and how long. */
  ghost predicate Waits(s: State, t: Tick, d: Decision)
    requires Sound(s)
  {
    && (d.command == Release <==> Engaged(s) && Ended(t))
    && (Engaged(s) && !Ended(t) && Lost(s, t) ==> d.command == Cool)
    && (d.state.phase == AwaitFanOnly || d.state.phase == AwaitStage ==>
          d.state.phaseAt.Some? && t.now - d.state.phaseAt.value <= 180.0)
    && (d.state.phase == Dwell && s.phase == Dwell && t.now - s.phaseAt.value >= 600.0 ==> t.room < s.roomAtEntry.value)
    && (s.phase == Dwell && d.command == Cool && !Lost(s, t) ==>
          t.now - s.phaseAt.value >= 600.0 && t.room >= s.roomAtEntry.value)
  }

  lemma StepWaits(s: State, t: Tick)
    requires Sound(s)
    ensures Decide(s, t).Some? && Waits(s, t, Decide(s, t).value)
  {
  }

  /** What the commands of one tick promise. */
  ghost predicate Keeps(s: State, t: Tick, d: Decision) {
    && (d.command == FanOnly ==>
          s.phase == Idle && t.hvacAction.Some? && t.hvacAction != Some("cooling") && t.room < 35.0)
    && (d.command == FanOnly <==> s.phase == Idle && Engaged(d.state))
    && (d.command == SetStage ==> SeesFanOnly(t) && d.state.stage == StageFor(t) && d.state.stage.Some?)
    && (d.command == Cool <==> s.phase != Yielded && d.state.phase == Yielded)
    && (Engaged(d.state) ==> d.state.engagedAt.Some? && t.now - d.state.engagedAt.value <= 1800.0)
    && (d.restore.Some? ==>
          && (d.command == Cool || d.command == Release) && !t.foreignChange
          && s.stage.Some? && t.fanMode == s.stage && d.restore != s.stage
          && d.restore == (if s.entryFanMode.Some? then s.entryFanMode else Some("auto")))
  }

  lemma StepIsSound(s: State, t: Tick)
    requires Sound(s)
    ensures Decide(s, t).Some? && Sound(Decide(s, t).value.state) && Keeps(s, t, Decide(s, t).value)
  {
  }

  /** What an engaged sequence that neither ended nor lost its ground does, by its phase. */
  ghost predicate GoesOnAs(s: State, t: Tick, d: Decision)
    requires s.phaseAt.Some? && s.roomAtEntry.Some?
  {
    var waited, shown := t.now - s.phaseAt.value, t.hvacMode == Some("fan_only");
    match s.phase
    case AwaitFanOnly =>
      && (d.command == Cool <==> if shown then StageFor(t) == None else waited > 180.0)
      && (d.command == SetStage <==> shown && StageFor(t) != None && t.fanMode != StageFor(t))
      && (d.state.phase == Dwell <==> shown && StageFor(t) != None && t.fanMode == StageFor(t))
    case AwaitStage =>
      && (d.command == Cool <==> t.fanMode != s.stage && waited > 180.0)
      && (d.state.phase == Dwell <==> t.fanMode == s.stage)
      && d.command != SetStage
    case Dwell =>
      && (d.command == Cool <==> waited >= 600.0 && t.room >= s.roomAtEntry.value)
      && d.command != SetStage
    case _ => true
  }

  lemma StepGoesOn(s: State, t: Tick)
    requires Sound(s) && Engaged(s) && !Ended(t) && !Lost(s, t)
    ensures Decide(s, t).Some? && GoesOnAs(s, t, Decide(s, t).value)
  {
  }

  /** A yield lasts as long as the demand, and then blocks the next start. */
  lemma YieldLasts(s: State, t: Tick)
    requires s.phase == Yielded
    ensures Decide(s, t).Some? && Decide(s, t).value.command == NoCommand && Decide(s, t).value.restore == None
    ensures if t.coolRequested then Decide(s, t).value.state == s else Decide(s, t).value.state.phase == Idle
  {
  }

  /** The fan mode an exit has to give back: the one seen at engage, or else the firmware's own where
      it is advertised, and only in place of our own stage still on show. */
  ghost predicate GivesBack(s: State, t: Tick, restore: Option<string>) {
    var own := s.stage.Some? && t.fanMode == s.stage;
    && (restore.Some? <==>
          && own
          && if s.entryFanMode.Some? then s.entryFanMode != t.fanMode
             else t.fanMode != Some("auto") && exists k :: 0 <= k < |t.modes| && SameButForCase(t.modes[k], "auto"))
    && (restore.Some? ==> restore == if s.entryFanMode.Some? then s.entryFanMode else Some("auto"))
  }

  lemma StepGivesBack(s: State, t: Tick)
    requires Sound(s) && Decide(s, t).Some?
    ensures var d := Decide(s, t).value;
            if (d.command == Cool || d.command == Release) && !t.foreignChange then GivesBack(s, t, d.restore)
            else d.restore == None
  {
    forall k | 0 <= k < |t.modes| ensures IsAuto(t.modes[k]) <==> SameButForCase(t.modes[k], "auto") {
      AutoIsAuto(t.modes[k]);
    }
  }

  // ----- Whole runs -----

  function After(s: State, ticks: seq<Tick>): State {
    if ticks == [] then s
    else
      var prev := After(s, ticks[..|ticks| - 1]);
      var d := Decide(prev, ticks[|ticks| - 1]);
      if d.Some? then d.value.state else prev
  }

  function DecisionAt(s: State, ticks: seq<Tick>, i: nat): Option<Decision>
    requires i < |ticks|
  {
    Decide(After(s, ticks[..i]), ticks[i])
  }

  predicate EngagesAt(s: State, ticks: seq<Tick>, i: nat)
    requires i < |ticks|
  {
    DecisionAt(s, ticks, i).Some? && DecisionAt(s, ticks, i).value.command == FanOnly
  }

  /** In every run from rest no assertion fails, stages are commanded only under an observed
      "fan_only", nothing stays engaged beyond half an hour, and no sequence starts while the
      device cools or hides what it does. */
  lemma {:induction false} RunsKeepTheirPromises(ticks: seq<Tick>, i: nat)
    requires i < |ticks|
    ensures var d := DecisionAt(FRESH_STATE, ticks, i);
            var s := After(FRESH_STATE, ticks[..i]);
            Sound(s) && d.Some? && Keeps(s, ticks[i], d.value) && Waits(s, ticks[i], d.value)
    decreases i
  {
    if i > 0 {
      RunsKeepTheirPromises(ticks, i - 1);
      assert ticks[..i][..i - 1] == ticks[..i - 1];
      StepIsSound(After(FRESH_STATE, ticks[..i - 1]), ticks[i - 1]);
    }
    StepIsSound(After(FRESH_STATE, ticks[..i]), ticks[i]);
    StepWaits(After(FRESH_STATE, ticks[..i]), ticks[i]);
  }

  /** Over every run: what an engaged machine does by its phase once nothing calls it off, how long a
      yield lasts, and what every exit gives back. */
  lemma PhasesDecideExactly(ticks: seq<Tick>, i: nat)
    requires i < |ticks|
    ensures var s, d := After(FRESH_STATE, ticks[..i]), DecisionAt(FRESH_STATE, ticks, i);
            && Sound(s) && d.Some?
            && (Engaged(s) && !Ended(ticks[i]) && !Lost(s, ticks[i]) ==> GoesOnAs(s, ticks[i], d.value))
            && (s.phase == Yielded ==>
                  d.value.command == NoCommand && (d.value.state.phase == Yielded <==> ticks[i].coolRequested))
            && (if (d.value.command == Cool || d.value.command == Release) && !ticks[i].foreignChange then
                  GivesBack(s, ticks[i], d.value.restore)
                else d.value.restore == None)
  {
    var s := After(FRESH_STATE, ticks[..i]);
    RunsKeepTheirPromises(ticks, i);
    StepGivesBack(s, ticks[i]);
    if Engaged(s) && !Ended(ticks[i]) && !Lost(s, ticks[i]) {
      StepGoesOn(s, ticks[i]);
    } else if s.phase == Yielded {
      YieldLasts(s, ticks[i]);
    }
  }

  // ----- When a sequence starts -----

  /** The last tick that ended a sequence: released it, or found the demand over behind a yield. */
  function LastEnd(ticks: seq<Tick>): Option<real> {
    if ticks == [] then None
    else
      var n := |ticks| - 1;
      var s := After(FRESH_STATE, ticks[..n]);
      if s.phase != Idle && After(FRESH_STATE, ticks).phase == Idle then Some(ticks[n].now) else LastEnd(ticks[..n])
  }

  /** The block of an idle machine dates from the end of its last sequence. */
  lemma {:induction false} BlockDatesFromTheEnd(ticks: seq<Tick>)
    ensures var s := After(FRESH_STATE, ticks);
            s.phase == Idle ==>
              s.blockedUntil == if LastEnd(ticks).None? then None else Some(LastEnd(ticks).value + 900.0)
    decreases |ticks|
  {
    if ticks != [] {
      var n := |ticks| - 1;
      BlockDatesFromTheEnd(ticks[..n]);
      RunsKeepTheirPromises(ticks, n);
      EndBlocks(After(FRESH_STATE, ticks[..n]), ticks[n]);
    }
  }

  lemma EndBlocks(s: State, t: Tick)
    requires Sound(s)
    ensures var r := Decide(s, t).value.state;
            r.phase == Idle ==> r.blockedUntil == if s.phase == Idle then s.blockedUntil else Some(t.now + 900.0)
  {
  }

  /** A tick on which the machine may start: a cool request that may be met by the fan alone, somebody
      there, the window shut, inside the comfort window and under 35 degrees, a device known not to
      cool, and an advertised stage that qualifies. */
  ghost predicate Inviting(t: Tick) {
    && t.coolRequested && t.allowed && t.fanOnlyCapable && t.presenceOk && t.inComfortWindow && !t.windowOpen
    && t.room < 35.0 && t.hvacAction != None && t.hvacAction != Some("cooling")
    && exists k :: 0 <= k < |t.modes| && Qualifies(t.modes[k], MaxStageVelocity(t.operative))
  }

  lemma StageForExists(t: Tick)
    ensures StageFor(t).Some? <==>
            exists k :: 0 <= k < |t.modes| && Qualifies(t.modes[k], MaxStageVelocity(t.operative))
  {
    var k := FastestStageIsFastest(t.modes, MaxStageVelocity(t.operative));
  }

  /** Over every run: the machine engages exactly on a tick that finds it idle, invites it, and
      comes a quarter of an hour or more after its last sequence ended. */
  lemma EngagesExactly(ticks: seq<Tick>, i: nat)
    requires i < |ticks|
    ensures EngagesAt(FRESH_STATE, ticks, i) <==>
              && After(FRESH_STATE, ticks[..i]).phase == Idle && Inviting(ticks[i])
              && (LastEnd(ticks[..i]).Some? ==> ticks[i].now - LastEnd(ticks[..i]).value >= 900.0)
  {
    BlockDatesFromTheEnd(ticks[..i]);
    StageForExists(ticks[i]);
    RunsKeepTheirPromises(ticks, i);
    EngageStep(After(FRESH_STATE, ticks[..i]), ticks[i]);
  }

  lemma EngageStep(s: State, t: Tick)
    requires Sound(s)
    ensures Decide(s, t).Some?
    ensures Decide(s, t).value.command == FanOnly <==>
              && s.phase == Idle && t.coolRequested && t.allowed && t.fanOnlyCapable && t.presenceOk && !t.windowOpen
              && t.inComfortWindow && t.room < 35.0 && t.hvacAction != None && t.hvacAction != Some("cooling")
              && StageFor(t).Some? && (s.blockedUntil.Some? ==> t.now >= s.blockedUntil.value)
  {
  }

  /** Over every run: no tick starts a sequence that it would call off. Met again by the engaged
      machine, it neither yields nor releases, unless a foreign change of the fan ends it. */
  lemma EngageWouldStand(ticks: seq<Tick>, i: nat)
    requires i < |ticks| && EngagesAt(FRESH_STATE, ticks, i)
    ensures var again := Decide(DecisionAt(FRESH_STATE, ticks, i).value.state, ticks[i]);
            && again.Some? && again.value.command != Cool
            && (again.value.command == Release <==> ticks[i].foreignChange)
  {
    RunsKeepTheirPromises(ticks, i);
    EngagedOnce(After(FRESH_STATE, ticks[..i]), ticks[i]);
  }

  lemma EngagedOnce(s: State, t: Tick)
    requires Sound(s) && Decide(s, t).Some? && Decide(s, t).value.command == FanOnly
    ensures var again := Decide(Decide(s, t).value.state, t);
            again.Some? && again.value.command != Cool && (again.value.command == Release <==> t.foreignChange)
  {
  }

  predicate Ordered(ticks: seq<Tick>) {
    forall i, j :: 0 <= i < j < |ticks| ==> ticks[i].now <= ticks[j].now
  }

  /** A machine that rests only behind a block until `since` + 900 stays so. */
  predicate RestsBehind(s: State, since: real) {
    s.phase == Idle ==> s.blockedUntil.Some? && s.blockedUntil.value >= since + 900.0
  }

  lemma BlockStep(s: State, t: Tick, since: real)
    requires Sound(s) && RestsBehind(s, since) && since <= t.now
    ensures Decide(s, t).Some? && RestsBehind(Decide(s, t).value.state, since)
  {
  }

  /** The state after a tick is that of its decision. */
  lemma DecidedAfter(ticks: seq<Tick>, i: nat)
    requires i < |ticks|
    ensures var s, d := After(FRESH_STATE, ticks[..i]), DecisionAt(FRESH_STATE, ticks, i);
            Sound(s) && d.Some? && After(FRESH_STATE, ticks[..i + 1]) == d.value.state && Keeps(s, ticks[i], d.value)
  {
    assert ticks[..i + 1][..i] == ticks[..i];
    RunsKeepTheirPromises(ticks, i);
  }

  lemma RestsOneMore(ticks: seq<Tick>, i: nat, since: real)
    requires i < |ticks| && RestsBehind(After(FRESH_STATE, ticks[..i]), since) && since <= ticks[i].now
    ensures RestsBehind(After(FRESH_STATE, ticks[..i + 1]), since)
  {
    DecidedAfter(ticks, i);
    BlockStep(After(FRESH_STATE, ticks[..i]), ticks[i], since);
  }

  lemma EngagedAfter(ticks: seq<Tick>, i: nat)
    requires i < |ticks| && EngagesAt(FRESH_STATE, ticks, i)
    ensures Engaged(After(FRESH_STATE, ticks[..i + 1]))
  {
    DecidedAfter(ticks, i);
  }

  /** Behind a block the machine stays, from one tick to any later one. */
  lemma {:induction false} BlockedSince(ticks: seq<Tick>, i: nat, k: nat, since: real)
    requires i <= k <= |ticks| && RestsBehind(After(FRESH_STATE, ticks[..i]), since)
    requires forall j :: i <= j < k ==> since <= ticks[j].now
    ensures RestsBehind(After(FRESH_STATE, ticks[..k]), since)
    decreases k
  {
    if k > i {
      BlockedSince(ticks, i, k - 1, since);
      RestsOneMore(ticks, k - 1, since);
    }
  }

  /** Two engages of a run with a nondecreasing clock are at least a quarter of an hour apart. */
  lemma EngagesAreApart(ticks: seq<Tick>, i: nat, j: nat)
    requires i < j < |ticks| && Ordered(ticks)
    requires EngagesAt(FRESH_STATE, ticks, i) && EngagesAt(FRESH_STATE, ticks, j)
    ensures ticks[j].now - ticks[i].now >= 900.0
  {
    EngagedAfter(ticks, i);
    BlockedSince(ticks, i + 1, j, ticks[i].now);
    EngageStep(After(FRESH_STATE, ticks[..j]), ticks[j]);
  }

  /** Was "fan_only" observed after the last engage? */
  predicate FanOnlySeen(ticks: seq<Tick>) {
    ticks != [] && !EngagesAt(FRESH_STATE, ticks, |ticks| - 1) &&
    (SeesFanOnly(ticks[|ticks| - 1]) || FanOnlySeen(ticks[..|ticks| - 1]))
  }

  /** Was `stage` shown by the device after the last engage, "fan_only" having been seen? */
  predicate StageSeen(ticks: seq<Tick>, stage: string) {
    ticks != [] && !EngagesAt(FRESH_STATE, ticks, |ticks| - 1) &&
    ((ticks[|ticks| - 1].fanMode == Some(stage) && FanOnlySeen(ticks)) || StageSeen(ticks[..|ticks| - 1], stage))
  }

  /** The fan mode observed on the last engage. */
  function EntryMode(ticks: seq<Tick>): Option<string> {
    if ticks == [] then None
    else if EngagesAt(FRESH_STATE, ticks, |ticks| - 1) then ticks[|ticks| - 1].fanMode
    else EntryMode(ticks[..|ticks| - 1])
  }

  /** The echoes a phase stands on, all of them since the engage. */
  ghost predicate Echoed(ticks: seq<Tick>, s: State) {
    && (s.phase == AwaitStage || s.phase == Dwell ==> s.stage.Some? && FanOnlySeen(ticks))
    && (s.phase == Dwell ==> StageSeen(ticks, s.stage.value))
    && (Engaged(s) ==> s.entryFanMode == EntryMode(ticks))
  }

  /** In every run the dwell is entered only after both echoes since the engage, the mode first. */
  lemma {:induction false} DwellNeedsBothEchoes(ticks: seq<Tick>)
    ensures Echoed(ticks, After(FRESH_STATE, ticks))
    decreases |ticks|
  {
    if ticks != [] {
      var n := |ticks| - 1;
      DwellNeedsBothEchoes(ticks[..n]);
      RunsKeepTheirPromises(ticks, n);
    }
  }

  /** An exit writes back what the device showed on engage, or "auto" if it showed nothing. */
  lemma RestoreIsTheEntryMode(ticks: seq<Tick>, i: nat)
    requires i < |ticks| && DecisionAt(FRESH_STATE, ticks, i).Some?
    requires DecisionAt(FRESH_STATE, ticks, i).value.restore.Some?
    ensures var restore := DecisionAt(FRESH_STATE, ticks, i).value.restore;
            restore == if EntryMode(ticks[..i]).Some? then EntryMode(ticks[..i]) else Some("auto")
  {
    RunsKeepTheirPromises(ticks, i);
    DwellNeedsBothEchoes(ticks[..i]);
  }
}
