/** The cyclic week of comfort windows: normalising, expanding onto minutes of the
    week, and querying the expanded intervals, against a minute-by-minute scan. */
module WeekSchedule {
  import opened Options
  import StableSort

  const DAY := 1440
  const WEEK := 10080
  const DAY_BITS: nat := 7

  /** A daily half-open interval; bit d of `days` activates weekday d (0 = Monday). */
  datatype Window = Window(start: int, end: int, days: int)

  /** Half-open interval of week minutes; only a closing wrap interval ends past WEEK. */
  datatype Interval = Interval(start: int, end: int)

  datatype ScheduleState = ScheduleState(isComfort: bool, toComfort: Option<int>,
                                         setbackOffset: real, toSetback: Option<int>)

  datatype ComfortSchedule = ComfortSchedule(windows: seq<Window>, setbackDelta: real,
                                             intervals: seq<Interval>)

  function DayIndex(m: int): int {
    m / 1440
  }

  function DayMinute(m: int): (r: int)
    ensures 0 <= r < DAY
  {
    m % 1440
  }

  function WeekMinute(m: int): (r: int)
    ensures 0 <= r < WEEK
  {
    m % 10080
  }

  // ----- What a list of windows means, minute by minute -----

  function Clamp(x: int): int {
    if x < 0 then 0 else if DAY < x then DAY else x
  }

  /** Is two's-complement bit d of `days` set? */
  predicate HasDay(days: int, d: nat)
    decreases d
  {
    if d == 0 then days % 2 == 1 else HasDay(days / 2, d - 1)
  }

  /** The low k bits of `days`, so `days & ALL_DAYS` is LowBits(days, DAY_BITS). */
  function LowBits(days: int, k: nat): int
    decreases k
  {
    if k == 0 then 0 else days % 2 + 2 * LowBits(days / 2, k - 1)
  }

  /** Does `w` put week minute `m` (any integer, read modulo the week) into comfort?
      An overnight window belongs to the day it starts on. */
  predicate WindowCovers(w: Window, m: int) {
    var day, t := DayIndex(m) % 7, DayMinute(m);
    var s, e := Clamp(w.start), Clamp(w.end);
    if s < e then HasDay(w.days, day) && s <= t < e
    else e < s && ((HasDay(w.days, day) && s <= t) || (HasDay(w.days, (day + 6) % 7) && t < e))
  }

  predicate Covered(ws: seq<Window>, m: int) {
    ws != [] && (Covered(ws[..|ws| - 1], m) || WindowCovers(ws[|ws| - 1], m))
  }

  lemma {:induction false} CoveredBySome(ws: seq<Window>, m: int)
    ensures Covered(ws, m) <==> exists w :: w in ws && WindowCovers(w, m)
  {
    if ws != [] {
      CoveredBySome(ws[..|ws| - 1], m);
      assert forall v :: v in ws <==> v in ws[..|ws| - 1] || v == ws[|ws| - 1];
    }
  }

  /** Every window is empty once clamped to one day. */
  ghost predicate NothingConfigured(ws: seq<Window>) {
    forall i :: 0 <= i < |ws| ==> Clamp(ws[i].start) == Clamp(ws[i].end)
  }

  predicate CoveredIn(ws: seq<Window>, now: int, k: int) {
    Covered(ws, now + k)
  }

  /** The naive scan: minutes from `now` to the first minute whose cover is `target`,
      or WEEK when a whole week holds none. */
  function Scan(ws: seq<Window>, now: int, target: bool, k: int): (r: int)
    requires 0 <= k <= WEEK
    ensures k <= r <= WEEK
    decreases WEEK - k
  {
    if k == WEEK || CoveredIn(ws, now, k) == target then k else Scan(ws, now, target, k + 1)
  }

  /** The verdict of the naive scan for week minute `now`. */
  ghost function NaiveState(ws: seq<Window>, delta: real, now: int): ScheduleState {
    Verdict(NothingConfigured(ws), Covered(ws, now), Scan(ws, now, true, 0), Scan(ws, now, false, 0), delta)
  }

  /** A week that is all comfort or all setback has no next edge. */
  function Verdict(nothing: bool, comfort: bool, toOn: int, toOff: int, delta: real): ScheduleState {
    if nothing || toOff == WEEK then ScheduleState(true, None, 0.0, None)
    else if toOn == WEEK then ScheduleState(false, None, -delta, None)
    else ScheduleState(comfort, Some(toOn), if comfort then 0.0 else -delta, Some(toOff))
  }

  /** The scan returns the least distance, if any minute of the next week qualifies. */
  lemma {:induction false} ScanIsLeast(ws: seq<Window>, now: int, target: bool, k: int, r: int)
    requires 0 <= k <= r <= WEEK
    requires forall j :: k <= j < r ==> CoveredIn(ws, now, j) != target
    requires r < WEEK ==> CoveredIn(ws, now, r) == target
    ensures Scan(ws, now, target, k) == r
    decreases r - k
  {
    if k < r {
      ScanIsLeast(ws, now, target, k + 1, r);
    }
  }

  lemma DayOfWeekMinute(m: int)
    ensures 0 <= WeekMinute(m) < WEEK
    ensures DayIndex(WeekMinute(m)) % 7 == DayIndex(m) % 7 && DayMinute(WeekMinute(m)) == DayMinute(m)
  {
    var q := m / 10080;
    assert m == q * WEEK + WeekMinute(m);
    assert DayIndex(m) == q * 7 + DayIndex(WeekMinute(m));
  }

  lemma {:induction false} CoveredIsCyclic(ws: seq<Window>, m: int)
    ensures Covered(ws, m) == Covered(ws, WeekMinute(m))
  {
    if ws != [] {
      CoveredIsCyclic(ws[..|ws| - 1], m);
      DayOfWeekMinute(m);
    }
  }

  lemma {:induction false} CoveredConcat(a: seq<Window>, b: seq<Window>, m: int)
    ensures Covered(a + b, m) == (Covered(a, m) || Covered(b, m))
  {
    if b == [] {
      assert a + b == a;
    } else {
      CoveredConcat(a, b[..|b| - 1], m);
      assert (a + b)[..|a + b| - 1] == a + b[..|b| - 1];
    }
  }

  lemma CoveredSnoc(ws: seq<Window>, w: Window, m: int)
    ensures Covered(ws + [w], m) == (Covered(ws, m) || WindowCovers(w, m))
  {
    assert (ws + [w])[..|ws|] == ws;
  }

  // ----- Normalising -----

  predicate Clean(w: Window) {
    0 <= w.start <= DAY && 0 <= w.end <= DAY && w.start != w.end
  }

  ghost predicate AllClean(ws: seq<Window>) {
    forall i :: 0 <= i < |ws| ==> Clean(ws[i])
  }

  function Cleaned(ws: seq<Window>): seq<Window> {
    if ws == [] then [] else
      var w := ws[|ws| - 1];
      var s, e := Clamp(w.start), Clamp(w.end);
      if e == s then Cleaned(ws[..|ws| - 1]) else Cleaned(ws[..|ws| - 1]) + [Window(s, e, LowBits(w.days, DAY_BITS))]
  }

  function DayWindows(ws: seq<Window>): seq<Window> {
    if ws == [] then [] else
      var w := ws[|ws| - 1];
      if w.end > w.start then DayWindows(ws[..|ws| - 1]) + [w] else DayWindows(ws[..|ws| - 1])
  }

  function NightWindows(ws: seq<Window>): seq<Window> {
    if ws == [] then [] else
      var w := ws[|ws| - 1];
      if w.end < w.start then NightWindows(ws[..|ws| - 1]) + [w] else NightWindows(ws[..|ws| - 1])
  }

  predicate StartsNoLater(a: Window, b: Window) {
    a.start <= b.start
  }

  function SortByStart(ws: seq<Window>): seq<Window> {
    StableSort.Sort(ws, StartsNoLater)
  }

  predicate Mergeable(prev: Window, w: Window) {
    w.days == prev.days && w.start <= prev.end
  }

  function MergeNext(merged: seq<Window>, w: Window): seq<Window> {
    if merged != [] && Mergeable(merged[|merged| - 1], w) then
      var prev := merged[|merged| - 1];
      merged[..|merged| - 1] + [Window(prev.start, if prev.end < w.end then w.end else prev.end, prev.days)]
    else merged + [w]
  }

  function MergeRuns(ws: seq<Window>): seq<Window> {
    if ws == [] then [] else MergeNext(MergeRuns(ws[..|ws| - 1]), ws[|ws| - 1])
  }

  function Normalized(ws: seq<Window>): seq<Window> {
    var clean := Cleaned(ws);
    MergeRuns(SortByStart(DayWindows(clean))) + NightWindows(clean)
  }

  method CleanWindows(windows: seq<Window>) returns (clean: seq<Window>)
    ensures clean == Cleaned(windows)
  {
    clean := [];
    for i := 0 to |windows|
      invariant clean == Cleaned(windows[..i])
    {
      assert windows[..i + 1][..i] == windows[..i];
      var start, end := Clamp(windows[i].start), Clamp(windows[i].end);
      if end != start {
        clean := clean + [Window(start, end, LowBits(windows[i].days, DAY_BITS))];
      }
    }
    assert windows[..|windows|] == windows;
  }

  method MergeAdjacent(nonwrap: seq<Window>) returns (merged: seq<Window>)
    ensures merged == MergeRuns(nonwrap)
  {
    merged := [];
    for i := 0 to |nonwrap|
      invariant merged == MergeRuns(nonwrap[..i])
    {
      assert nonwrap[..i + 1][..i] == nonwrap[..i];
      var w := nonwrap[i];
      if merged != [] && w.days == merged[|merged| - 1].days && w.start <= merged[|merged| - 1].end {
        var prev := merged[|merged| - 1];
        merged := merged[|merged| - 1 := Window(prev.start, if prev.end < w.end then w.end else prev.end, prev.days)];
      } else {
        merged := merged + [w];
      }
    }
    assert nonwrap[..|nonwrap|] == nonwrap;
  }

  method Normalize(windows: seq<Window>) returns (r: seq<Window>)
    ensures r == Normalized(windows)
  {
    var clean := CleanWindows(windows);
    var nonwrap, wrap := SortByStart(DayWindows(clean)), NightWindows(clean);
    var merged := MergeAdjacent(nonwrap);
    r := merged + wrap;
  }

  lemma {:induction false} LowBitsKeepDays(days: int, k: nat, d: nat)
    requires d < k
    ensures HasDay(LowBits(days, k), d) == HasDay(days, d)
    decreases k
  {
    if d > 0 {
      LowBitsKeepDays(days / 2, k - 1, d - 1);
    }
  }

  lemma {:induction false} LowBitsIdempotent(days: int, k: nat)
    ensures LowBits(LowBits(days, k), k) == LowBits(days, k)
    decreases k
  {
    if k > 0 {
      LowBitsIdempotent(days / 2, k - 1);
    }
  }

  lemma CleaningKeepsCover(w: Window, c: Window, m: int)
    requires c == Window(Clamp(w.start), Clamp(w.end), LowBits(w.days, DAY_BITS))
    ensures WindowCovers(c, m) == WindowCovers(w, m)
  {
    var day := DayIndex(m) % 7;
    LowBitsKeepDays(w.days, DAY_BITS, day);
    LowBitsKeepDays(w.days, DAY_BITS, (day + 6) % 7);
  }

  lemma {:induction false} CleanedIsClean(ws: seq<Window>)
    ensures AllClean(Cleaned(ws))
    ensures Cleaned(ws) == [] <==> NothingConfigured(ws)
  {
    if ws != [] {
      var last, front := ws[|ws| - 1], ws[..|ws| - 1];
      CleanedIsClean(front);
      if Clamp(last.start) == Clamp(last.end) {
        assert NothingConfigured(front) ==> NothingConfigured(ws);
        if NothingConfigured(ws) {
          forall i | 0 <= i < |front| ensures Clamp(front[i].start) == Clamp(front[i].end) {
            assert front[i] == ws[i];
          }
        }
      } else {
        assert !NothingConfigured(ws);
      }
    }
  }

  lemma {:induction false} CleanedKeepsCover(ws: seq<Window>, m: int)
    ensures Covered(Cleaned(ws), m) == Covered(ws, m)
  {
    if ws != [] {
      var w, front := ws[|ws| - 1], ws[..|ws| - 1];
      var c := Window(Clamp(w.start), Clamp(w.end), LowBits(w.days, DAY_BITS));
      CleanedKeepsCover(front, m);
      CleaningKeepsCover(w, c, m);
      CoveredSnoc(Cleaned(front), c, m);
    }
  }

  ghost predicate StartsAscend(ws: seq<Window>) {
    forall i, j :: 0 <= i < j < |ws| ==> ws[i].start <= ws[j].start
  }

  /** Same-day windows only. */
  ghost predicate AllDay(ws: seq<Window>) {
    forall i :: 0 <= i < |ws| ==> Clean(ws[i]) && ws[i].start < ws[i].end
  }

  /** Overnight windows only. */
  ghost predicate AllNight(ws: seq<Window>) {
    forall i :: 0 <= i < |ws| ==> Clean(ws[i]) && ws[i].end < ws[i].start
  }

  lemma {:induction false} SplitSeparates(ws: seq<Window>)
    requires AllClean(ws)
    ensures AllDay(DayWindows(ws)) && AllNight(NightWindows(ws))
    ensures ws != [] ==> DayWindows(ws) != [] || NightWindows(ws) != []
  {
    if ws != [] {
      assert Clean(ws[|ws| - 1]);
      SplitSeparates(ws[..|ws| - 1]);
    }
  }

  lemma {:induction false} SplitKeepsCover(ws: seq<Window>, m: int)
    requires AllClean(ws)
    ensures Covered(ws, m) == (Covered(DayWindows(ws), m) || Covered(NightWindows(ws), m))
  {
    if ws != [] {
      var w, front := ws[|ws| - 1], ws[..|ws| - 1];
      assert Clean(w);
      SplitKeepsCover(front, m);
      CoveredSnoc(DayWindows(front), w, m);
      CoveredSnoc(NightWindows(front), w, m);
    }
  }

  lemma CoveredBySame(ws: seq<Window>, vs: seq<Window>, m: int)
    requires forall w :: w in ws <==> w in vs
    ensures Covered(ws, m) == Covered(vs, m)
  {
    CoveredBySome(ws, m);
    CoveredBySome(vs, m);
  }

  lemma SortedWindows(ws: seq<Window>)
    ensures StartsAscend(SortByStart(ws)) && (forall w :: w in SortByStart(ws) <==> w in ws)
  {
    var sorted := SortByStart(ws);
    StableSort.SortOrders(ws, StartsNoLater);
    forall i, j | 0 <= i < j < |sorted| ensures sorted[i].start <= sorted[j].start {
      assert StartsNoLater(sorted[i], sorted[j]);
    }
    forall w ensures w in sorted <==> w in ws {
      StableSort.SortKeepsElements(ws, StartsNoLater, w);
    }
  }

  lemma SortSorts(ws: seq<Window>, m: int)
    requires AllDay(ws)
    ensures StartsAscend(SortByStart(ws)) && AllDay(SortByStart(ws))
    ensures Covered(SortByStart(ws), m) == Covered(ws, m)
    ensures ws != [] ==> SortByStart(ws) != []
  {
    var sorted := SortByStart(ws);
    SortedWindows(ws);
    forall i | 0 <= i < |sorted| ensures Clean(sorted[i]) && sorted[i].start < sorted[i].end {
      assert sorted[i] in ws;
    }
    CoveredBySame(sorted, ws, m);
  }

  lemma SortKeepsSorted(ws: seq<Window>)
    requires StartsAscend(ws)
    ensures SortByStart(ws) == ws
  {
    StableSort.SortKeepsOrdered(ws, StartsNoLater);
  }

  /** No two neighbours of a merged run could be merged any further. */
  ghost predicate FullyMerged(ws: seq<Window>) {
    forall i :: 0 < i < |ws| ==> !Mergeable(ws[i - 1], ws[i])
  }

  lemma WiderCovers(prev: Window, w: Window, m: int)
    requires Clean(prev) && Clean(w) && prev.start < prev.end && w.start < w.end
    requires prev.start <= w.start && Mergeable(prev, w)
    ensures var wider := Window(prev.start, if prev.end < w.end then w.end else prev.end, prev.days);
            Clean(wider) && WindowCovers(wider, m) == (WindowCovers(prev, m) || WindowCovers(w, m))
  {
  }

  lemma MergeNextKeepsShape(before: seq<Window>, w: Window)
    requires StartsAscend(before) && AllDay(before) && FullyMerged(before)
    requires Clean(w) && w.start < w.end
    requires before != [] ==> before[|before| - 1].start <= w.start
    ensures var r := MergeNext(before, w);
            && r != [] && r[|r| - 1].start <= w.start
            && AllDay(r) && StartsAscend(r) && FullyMerged(r)
  {
    if before != [] && Mergeable(before[|before| - 1], w) {
      WiderCovers(before[|before| - 1], w, 0);
      assert forall i :: 0 <= i < |before| - 1 ==> MergeNext(before, w)[i] == before[i];
    }
  }

  lemma MergeNextKeepsCover(before: seq<Window>, w: Window, m: int)
    requires AllDay(before) && Clean(w) && w.start < w.end
    requires before != [] ==> before[|before| - 1].start <= w.start
    ensures Covered(MergeNext(before, w), m) == (Covered(before, m) || WindowCovers(w, m))
  {
    if before != [] && Mergeable(before[|before| - 1], w) {
      var rest, prev := before[..|before| - 1], before[|before| - 1];
      CoveredSnoc(rest, MergeNext(before, w)[|rest|], m);
      WiderCovers(prev, w, m);
    } else {
      CoveredSnoc(before, w, m);
    }
  }

  lemma {:induction false} MergeRunsKeepsCover(ws: seq<Window>, m: int)
    requires StartsAscend(ws) && AllDay(ws)
    ensures var r := MergeRuns(ws);
            AllDay(r) && StartsAscend(r) && FullyMerged(r) && Covered(r, m) == Covered(ws, m)
    ensures ws != [] ==> MergeRuns(ws) != [] && MergeRuns(ws)[|MergeRuns(ws)| - 1].start <= ws[|ws| - 1].start
  {
    if ws != [] {
      var w, front := ws[|ws| - 1], ws[..|ws| - 1];
      MergeRunsKeepsCover(front, m);
      MergeNextKeepsShape(MergeRuns(front), w);
      MergeNextKeepsCover(MergeRuns(front), w, m);
    }
  }

  /** Sorting and merging the day windows and keeping the night ones apart. */
  lemma MergedParts(clean: seq<Window>, m: int)
    requires AllClean(clean)
    ensures var day, night := MergeRuns(SortByStart(DayWindows(clean))), NightWindows(clean);
            && AllDay(day) && AllNight(night) && (clean == [] <==> day + night == [])
            && (Covered(day, m) || Covered(night, m)) == Covered(clean, m)
  {
    SplitSeparates(clean);
    SplitKeepsCover(clean, m);
    SortSorts(DayWindows(clean), m);
    MergeRunsKeepsCover(SortByStart(DayWindows(clean)), m);
  }

  /** Normalising changes no minute of the week, and empties only what was empty. */
  lemma NormalizedKeepsCover(ws: seq<Window>, m: int)
    ensures AllClean(Normalized(ws))
    ensures Covered(Normalized(ws), m) == Covered(ws, m)
    ensures Normalized(ws) == [] <==> NothingConfigured(ws)
  {
    var clean := Cleaned(ws);
    CleanedIsClean(ws);
    CleanedKeepsCover(ws, m);
    MergedParts(clean, m);
    CoveredConcat(MergeRuns(SortByStart(DayWindows(clean))), NightWindows(clean), m);
  }

  predicate IsMask(days: int) {
    LowBits(days, DAY_BITS) == days
  }

  ghost predicate Masked(ws: seq<Window>) {
    forall i :: 0 <= i < |ws| ==> IsMask(ws[i].days)
  }

  lemma {:induction false} CleanedIsMasked(ws: seq<Window>)
    ensures Masked(Cleaned(ws))
  {
    if ws != [] {
      CleanedIsMasked(ws[..|ws| - 1]);
      LowBitsIdempotent(ws[|ws| - 1].days, DAY_BITS);
    }
  }

  lemma {:induction false} SplitKeepsMask(ws: seq<Window>)
    requires Masked(ws)
    ensures Masked(DayWindows(ws)) && Masked(NightWindows(ws))
  {
    if ws != [] {
      SplitKeepsMask(ws[..|ws| - 1]);
    }
  }

  lemma SortKeepsMask(ws: seq<Window>)
    requires Masked(ws)
    ensures Masked(SortByStart(ws))
  {
    var sorted := SortByStart(ws);
    SortedWindows(ws);
    forall i | 0 <= i < |sorted| ensures IsMask(sorted[i].days) {
      assert sorted[i] in ws;
    }
  }

  lemma MergeNextKeepsMask(merged: seq<Window>, w: Window)
    requires Masked(merged) && IsMask(w.days)
    ensures Masked(MergeNext(merged, w))
  {
    var r := MergeNext(merged, w);
    assert r[|r| - 1].days == w.days;
    assert forall i :: 0 <= i < |r| - 1 ==> r[i] == merged[i];
  }

  lemma {:induction false} MergeKeepsMask(ws: seq<Window>)
    requires Masked(ws)
    ensures Masked(MergeRuns(ws))
  {
    if ws != [] {
      MergeKeepsMask(ws[..|ws| - 1]);
      MergeNextKeepsMask(MergeRuns(ws[..|ws| - 1]), ws[|ws| - 1]);
    }
  }

  lemma {:induction false} LowBitsAreFew(days: int, k: nat)
    ensures 0 <= LowBits(days, k) && (k == 7 ==> LowBits(days, k) < 128)
    ensures LowBits(days, k) < Shifted(1, k)
    decreases k
  {
    if k > 0 {
      LowBitsAreFew(days / 2, k - 1);
    }
    ShiftedByTheWeek(1);
  }

  /** A normalised mask is one of the 128 sets of weekdays. */
  lemma NormalizedMasksAreWeeks(ws: seq<Window>, i: nat)
    requires i < |Normalized(ws)|
    ensures 0 <= Normalized(ws)[i].days < 128
  {
    NormalizedIsMasked(ws);
    assert IsMask(Normalized(ws)[i].days);
    LowBitsAreFew(Normalized(ws)[i].days, DAY_BITS);
  }

  lemma NormalizedIsMasked(ws: seq<Window>)
    ensures Masked(Normalized(ws))
  {
    var clean := Cleaned(ws);
    CleanedIsMasked(ws);
    SplitKeepsMask(clean);
    SortKeepsMask(DayWindows(clean));
    MergeKeepsMask(SortByStart(DayWindows(clean)));
  }

  lemma {:induction false} CleanedKeepsClean(ws: seq<Window>)
    requires AllClean(ws) && Masked(ws)
    ensures Cleaned(ws) == ws
  {
    if ws != [] {
      var w := ws[|ws| - 1];
      CleanedKeepsClean(ws[..|ws| - 1]);
      assert Clean(w) && IsMask(w.days);
      assert Window(Clamp(w.start), Clamp(w.end), LowBits(w.days, DAY_BITS)) == w;
      assert ws == ws[..|ws| - 1] + [w];
    }
  }

  lemma {:induction false} SplitOfConcat(a: seq<Window>, b: seq<Window>)
    ensures DayWindows(a + b) == DayWindows(a) + DayWindows(b)
    ensures NightWindows(a + b) == NightWindows(a) + NightWindows(b)
  {
    if b == [] {
      assert a + b == a;
    } else {
      var front := b[..|b| - 1];
      SplitOfConcat(a, front);
      assert (a + b)[..|a + b| - 1] == a + front;
    }
  }

  lemma {:induction false} SplitOfDay(ws: seq<Window>)
    requires AllDay(ws)
    ensures DayWindows(ws) == ws && NightWindows(ws) == []
  {
    if ws != [] {
      var w, front := ws[|ws| - 1], ws[..|ws| - 1];
      assert w.start < w.end;
      SplitOfDay(front);
      assert DayWindows(ws) == front + [w] == ws;
    }
  }

  lemma {:induction false} SplitOfNight(ws: seq<Window>)
    requires AllNight(ws)
    ensures DayWindows(ws) == [] && NightWindows(ws) == ws
  {
    if ws != [] {
      var w, front := ws[|ws| - 1], ws[..|ws| - 1];
      assert w.end < w.start;
      SplitOfNight(front);
      assert NightWindows(ws) == front + [w] == ws;
    }
  }

  lemma {:induction false} MergeRunsKeepsMerged(ws: seq<Window>)
    requires FullyMerged(ws)
    ensures MergeRuns(ws) == ws
  {
    if ws != [] {
      MergeRunsKeepsMerged(ws[..|ws| - 1]);
    }
  }

  /** The three parts of a normalised list, as the second pass sees them. */
  lemma NormalizedParts(ws: seq<Window>)
    ensures var day := MergeRuns(SortByStart(DayWindows(Cleaned(ws))));
            && AllDay(day) && StartsAscend(day) && FullyMerged(day)
            && DayWindows(Normalized(ws)) == day
            && NightWindows(Normalized(ws)) == NightWindows(Cleaned(ws))
  {
    var clean := Cleaned(ws);
    CleanedIsClean(ws);
    SplitSeparates(clean);
    SortSorts(DayWindows(clean), 0);
    var day, night := MergeRuns(SortByStart(DayWindows(clean))), NightWindows(clean);
    MergeRunsKeepsCover(SortByStart(DayWindows(clean)), 0);
    SplitOfConcat(day, night);
    SplitOfDay(day);
    SplitOfNight(night);
  }

  lemma NormalizedIsIdempotent(ws: seq<Window>)
    ensures Normalized(Normalized(ws)) == Normalized(ws)
  {
    NormalizedParts(ws);
    NormalizedKeepsCover(ws, 0);
    NormalizedIsMasked(ws);
    CleanedKeepsClean(Normalized(ws));
    var day := MergeRuns(SortByStart(DayWindows(Cleaned(ws))));
    SortKeepsSorted(day);
    MergeRunsKeepsMerged(day);
  }

  // ----- Expanding onto the week axis -----

  /** The raw intervals of one window started on day `d`. */
  function Pieces(w: Window, d: int): seq<Interval> {
    var s := d * 1440 + w.start;
    var e := (d + (if w.end < w.start then 1 else 0)) * 1440 + w.end;
    if e > WEEK then [Interval(s, WEEK), Interval(0, e - WEEK)] else [Interval(s, e)]
  }

  function PiecesUpTo(w: Window, k: int): seq<Interval>
    requires 0 <= k <= 7
  {
    if k == 0 then [] else if !HasDay(w.days, k - 1) then PiecesUpTo(w, k - 1)
    else PiecesUpTo(w, k - 1) + Pieces(w, k - 1)
  }

  function RawIntervals(ws: seq<Window>): seq<Interval> {
    if ws == [] then [] else RawIntervals(ws[..|ws| - 1]) + PiecesUpTo(ws[|ws| - 1], 7)
  }

  function DropEmpty(xs: seq<Interval>): seq<Interval> {
    if xs == [] then [] else
      var x := xs[|xs| - 1];
      if x.end > x.start then DropEmpty(xs[..|xs| - 1]) + [x] else DropEmpty(xs[..|xs| - 1])
  }

  predicate Before(a: Interval, b: Interval) {
    a.start < b.start || (a.start == b.start && a.end <= b.end)
  }

  function SortIntervals(xs: seq<Interval>): seq<Interval> {
    StableSort.Sort(xs, Before)
  }

  function JoinNext(merged: seq<Interval>, x: Interval): seq<Interval> {
    if merged != [] && x.start <= merged[|merged| - 1].end then
      var last := merged[|merged| - 1];
      merged[..|merged| - 1] + [Interval(last.start, if last.end < x.end then x.end else last.end)]
    else merged + [x]
  }

  function JoinAll(xs: seq<Interval>): seq<Interval> {
    if xs == [] then [] else JoinNext(JoinAll(xs[..|xs| - 1]), xs[|xs| - 1])
  }

  /** Close the Sunday/Monday seam: a block ending the week and one starting it are one. */
  function CloseSeam(xs: seq<Interval>): seq<Interval> {
    if |xs| >= 2 && xs[0].start == 0 && xs[|xs| - 1].end == WEEK then
      xs[1..|xs| - 1] + [Interval(xs[|xs| - 1].start, WEEK + xs[0].end)]
    else xs
  }

  function Expanded(ws: seq<Window>): seq<Interval> {
    CloseSeam(JoinAll(SortIntervals(DropEmpty(RawIntervals(ws)))))
  }

  method ExpandDays(w: Window) returns (raw: seq<Interval>)
    ensures raw == PiecesUpTo(w, 7)
  {
    raw := [];
    for d := 0 to 7
      invariant raw == PiecesUpTo(w, d)
    {
      if HasDay(w.days, d) {
        var s := d * 1440 + w.start;
        var e := (d + if w.end < w.start then 1 else 0) * 1440 + w.end;
        if e > WEEK {
          raw := raw + [Interval(s, WEEK), Interval(0, e - WEEK)];
        } else {
          raw := raw + [Interval(s, e)];
        }
      }
    }
  }

  method ExpandRaw(windows: seq<Window>) returns (raw: seq<Interval>)
    ensures raw == RawIntervals(windows)
  {
    raw := [];
    for i := 0 to |windows|
      invariant raw == RawIntervals(windows[..i])
    {
      assert windows[..i + 1][..i] == windows[..i];
      var pieces := ExpandDays(windows[i]);
      raw := raw + pieces;
    }
    assert windows[..|windows|] == windows;
  }

  lemma JoinOneMore(raw: seq<Interval>, i: nat)
    requires i < |raw|
    ensures JoinAll(raw[..i + 1]) == JoinNext(JoinAll(raw[..i]), raw[i])
  {
    assert raw[..i + 1][..i] == raw[..i];
  }

  /** Joining overwrites the last interval in place. */
  lemma JoinOverwrites(merged: seq<Interval>, x: Interval, wider: Interval)
    requires merged != [] && x.start <= merged[|merged| - 1].end
    requires var last := merged[|merged| - 1];
             wider == Interval(last.start, if last.end < x.end then x.end else last.end)
    ensures merged[|merged| - 1 := wider] == JoinNext(merged, x)
  {
  }

  method JoinTouching(raw: seq<Interval>) returns (merged: seq<Interval>)
    ensures merged == JoinAll(raw)
  {
    merged := [];
    for i := 0 to |raw|
      invariant merged == JoinAll(raw[..i])
    {
      JoinOneMore(raw, i);
      if merged != [] && raw[i].start <= merged[|merged| - 1].end {
        var last := merged[|merged| - 1];
        var wider := Interval(last.start, if last.end < raw[i].end then raw[i].end else last.end);
        JoinOverwrites(merged, raw[i], wider);
        merged := merged[|merged| - 1 := wider];
      } else {
        merged := merged + [raw[i]];
      }
    }
    assert raw[..|raw|] == raw;
  }

  method Expand(windows: seq<Window>) returns (r: seq<Interval>)
    ensures r == Expanded(windows)
  {
    var raw := ExpandRaw(windows);
    var sorted := SortIntervals(DropEmpty(raw));
    r := JoinTouching(sorted);
    if |r| >= 2 && r[0].start == 0 && r[|r| - 1].end == WEEK {
      var wrap := Interval(r[|r| - 1].start, WEEK + r[0].end);
      r := r[1..|r| - 1] + [wrap];
    }
  }

  predicate Holds(x: Interval, m: int) {
    x.start <= m < x.end
  }

  predicate Hit(xs: seq<Interval>, m: int) {
    xs != [] && (Hit(xs[..|xs| - 1], m) || Holds(xs[|xs| - 1], m))
  }

  /** Membership on the cyclic axis: a closing wrap interval is probed a week later too. */
  predicate CyclicHit(xs: seq<Interval>, m: int) {
    Hit(xs, m) || Hit(xs, m + WEEK)
  }

  lemma {:induction false} HitBySome(xs: seq<Interval>, m: int)
    ensures Hit(xs, m) <==> exists i :: 0 <= i < |xs| && Holds(xs[i], m)
  {
    if xs != [] {
      HitBySome(xs[..|xs| - 1], m);
    }
  }

  lemma {:induction false} HitConcat(a: seq<Interval>, b: seq<Interval>, m: int)
    ensures Hit(a + b, m) == (Hit(a, m) || Hit(b, m))
  {
    if b == [] {
      assert a + b == a;
    } else {
      HitConcat(a, b[..|b| - 1], m);
      assert (a + b)[..|a + b| - 1] == a + b[..|b| - 1];
    }
  }

  lemma HitSnoc(xs: seq<Interval>, x: Interval, m: int)
    ensures Hit(xs + [x], m) == (Hit(xs, m) || Holds(x, m))
  {
    assert (xs + [x])[..|xs|] == xs;
  }

  /** Ascending, non-empty, separated by a gap even across the Sunday/Monday seam, only
      the last interval past the week; or the one interval that is the whole week. */
  ghost predicate Canonical(xs: seq<Interval>) {
    && (forall i :: 0 <= i < |xs| ==> 0 <= xs[i].start < WEEK && xs[i].start < xs[i].end)
    && (forall i, j :: 0 <= i < j < |xs| ==> xs[i].end < xs[j].start)
    && (xs == [] || xs == [Interval(0, WEEK)] || xs[|xs| - 1].end < xs[0].start + WEEK)
  }

  /** Would window `w`, started on day `d`, hold week minute `m`? */
  predicate StartHolds(w: Window, d: int, m: int) {
    if w.start < w.end then d * 1440 + w.start <= m < d * 1440 + w.end
    else d * 1440 + w.start <= m < (d + 1) * 1440 + w.end || m < (d + 1) * 1440 + w.end - WEEK
  }

  predicate DayCovers(w: Window, d: nat, m: int) {
    HasDay(w.days, d) && StartHolds(w, d, m)
  }

  ghost predicate InWeek(xs: seq<Interval>) {
    forall i :: 0 <= i < |xs| ==> 0 <= xs[i].start && xs[i].end <= WEEK
  }

  lemma PiecesCover(w: Window, d: int, m: int)
    requires Clean(w) && 0 <= d < 7 && 0 <= m < WEEK
    ensures Hit(Pieces(w, d), m) == StartHolds(w, d, m) && InWeek(Pieces(w, d))
  {
    var s := d * 1440 + w.start;
    var e := (d + (if w.end < w.start then 1 else 0)) * 1440 + w.end;
    HitSnoc([], Interval(s, e), m);
    HitSnoc([], Interval(s, WEEK), m);
    HitSnoc([Interval(s, WEEK)], Interval(0, e - WEEK), m);
    assert [] + [Interval(s, e)] == [Interval(s, e)];
    assert [] + [Interval(s, WEEK)] == [Interval(s, WEEK)];
    assert [Interval(s, WEEK)] + [Interval(0, e - WEEK)] == [Interval(s, WEEK), Interval(0, e - WEEK)];
  }

  predicate AnyDayCovers(w: Window, k: int, m: int)
    requires 0 <= k <= 7
  {
    k > 0 && (AnyDayCovers(w, k - 1, m) || DayCovers(w, k - 1, m))
  }

  lemma {:induction false} PiecesUpToCover(w: Window, k: int, m: int)
    requires Clean(w) && 0 <= k <= 7 && 0 <= m < WEEK
    ensures Hit(PiecesUpTo(w, k), m) == AnyDayCovers(w, k, m) && InWeek(PiecesUpTo(w, k))
  {
    if k > 0 {
      PiecesUpToCover(w, k - 1, m);
      PiecesCover(w, k - 1, m);
      HitConcat(PiecesUpTo(w, k - 1), Pieces(w, k - 1), m);
    }
  }

  /** A minute can only belong to a window started today or yesterday. */
  lemma {:induction false} OnlyTwoDaysMatter(w: Window, k: int, m: int)
    requires Clean(w) && 0 <= k <= 7 && 0 <= m < WEEK
    ensures var day := DayIndex(m);
            AnyDayCovers(w, k, m) == ((day < k && DayCovers(w, day, m)) ||
                                      ((day + 6) % 7 < k && DayCovers(w, (day + 6) % 7, m)))
  {
    if k > 0 {
      OnlyTwoDaysMatter(w, k - 1, m);
      var day, t := DayIndex(m), DayMinute(m);
      assert m == day * 1440 + t && 0 <= day < 7;
      if k - 1 != day && k - 1 != (day + 6) % 7 {
        assert !DayCovers(w, k - 1, m);
      }
    }
  }

  /** The seven start days together are the weekday-and-yesterday reading of a minute. */
  lemma AnyDayIsWindowCover(w: Window, m: int)
    requires Clean(w) && 0 <= m < WEEK
    ensures AnyDayCovers(w, 7, m) == WindowCovers(w, m)
  {
    OnlyTwoDaysMatter(w, 7, m);
    var day, t := DayIndex(m), DayMinute(m);
    assert m == day * 1440 + t && 0 <= day < 7 && day % 7 == day;
  }

  lemma {:induction false} RawCover(ws: seq<Window>, m: int)
    requires AllClean(ws) && 0 <= m < WEEK
    ensures Hit(RawIntervals(ws), m) == Covered(ws, m) && InWeek(RawIntervals(ws))
  {
    if ws != [] {
      var w, front := ws[|ws| - 1], ws[..|ws| - 1];
      assert Clean(w);
      RawCover(front, m);
      PiecesUpToCover(w, 7, m);
      AnyDayIsWindowCover(w, m);
      HitConcat(RawIntervals(front), PiecesUpTo(w, 7), m);
    }
  }

  /** Non-empty intervals inside the week. */
  ghost predicate Proper(xs: seq<Interval>) {
    forall i :: 0 <= i < |xs| ==> 0 <= xs[i].start < xs[i].end <= WEEK
  }

  lemma {:induction false} DropEmptyIsProper(xs: seq<Interval>)
    requires InWeek(xs)
    ensures Proper(DropEmpty(xs))
  {
    if xs != [] {
      DropEmptyIsProper(xs[..|xs| - 1]);
    }
  }

  lemma {:induction false} DropEmptyKeepsHits(xs: seq<Interval>, m: int)
    ensures Hit(DropEmpty(xs), m) == Hit(xs, m)
  {
    if xs != [] {
      DropEmptyKeepsHits(xs[..|xs| - 1], m);
      HitSnoc(DropEmpty(xs[..|xs| - 1]), xs[|xs| - 1], m);
    }
  }

  ghost predicate Ascending(xs: seq<Interval>) {
    forall i, j :: 0 <= i < j < |xs| ==> xs[i].start <= xs[j].start
  }

  lemma HitBySame(xs: seq<Interval>, ys: seq<Interval>, m: int)
    requires forall x :: x in xs <==> x in ys
    ensures Hit(xs, m) == Hit(ys, m)
  {
    HitOfSubset(xs, ys, m);
    HitOfSubset(ys, xs, m);
  }

  lemma HitOfSubset(xs: seq<Interval>, ys: seq<Interval>, m: int)
    requires forall x :: x in xs ==> x in ys
    ensures Hit(xs, m) ==> Hit(ys, m)
  {
    HitBySome(xs, m);
    HitBySome(ys, m);
    if Hit(xs, m) {
      var i :| 0 <= i < |xs| && Holds(xs[i], m);
      assert xs[i] in ys;
    }
  }

  lemma SortIntervalsSorts(xs: seq<Interval>, m: int)
    requires Proper(xs)
    ensures Ascending(SortIntervals(xs)) && Proper(SortIntervals(xs))
    ensures Hit(SortIntervals(xs), m) == Hit(xs, m)
  {
    var sorted := SortIntervals(xs);
    StableSort.SortOrders(xs, Before);
    forall i, j | 0 <= i < j < |sorted| ensures sorted[i].start <= sorted[j].start {
      assert Before(sorted[i], sorted[j]);
    }
    forall x ensures x in sorted <==> x in xs {
      StableSort.SortKeepsElements(xs, Before, x);
    }
    forall i | 0 <= i < |sorted| ensures 0 <= sorted[i].start < sorted[i].end <= WEEK {
      assert sorted[i] in xs;
    }
    HitBySame(sorted, xs, m);
  }

  /** Ascending, non-empty, inside the week, with a gap between any two. */
  ghost predicate Gapped(xs: seq<Interval>) {
    && Proper(xs)
    && (forall i, j :: 0 <= i < j < |xs| ==> xs[i].end < xs[j].start)
  }

  lemma JoinNextKeepsShape(before: seq<Interval>, x: Interval)
    requires Gapped(before) && 0 <= x.start < x.end <= WEEK
    requires before != [] ==> before[|before| - 1].start <= x.start
    ensures var r := JoinNext(before, x); Gapped(r) && r != [] && r[|r| - 1].start <= x.start
  {
    if before != [] && x.start <= before[|before| - 1].end {
      assert forall i :: 0 <= i < |before| - 1 ==> JoinNext(before, x)[i] == before[i];
    }
  }

  lemma JoinNextKeepsHits(before: seq<Interval>, x: Interval, m: int)
    requires Gapped(before) && 0 <= x.start < x.end <= WEEK
    requires before != [] ==> before[|before| - 1].start <= x.start
    ensures Hit(JoinNext(before, x), m) == (Hit(before, m) || Holds(x, m))
  {
    if before != [] && x.start <= before[|before| - 1].end {
      HitSnoc(before[..|before| - 1], JoinNext(before, x)[|before| - 1], m);
    } else {
      HitSnoc(before, x, m);
    }
  }

  lemma {:induction false} JoinAllKeeps(xs: seq<Interval>, m: int)
    requires Ascending(xs) && Proper(xs)
    ensures Gapped(JoinAll(xs)) && Hit(JoinAll(xs), m) == Hit(xs, m)
    ensures xs != [] ==> JoinAll(xs) != [] && JoinAll(xs)[|JoinAll(xs)| - 1].start <= xs[|xs| - 1].start
  {
    if xs != [] {
      var front, x := xs[..|xs| - 1], xs[|xs| - 1];
      var merged := JoinAll(front);
      JoinAllKeeps(front, m);
      JoinNextKeepsShape(merged, x);
      JoinNextKeepsHits(merged, x, m);
    }
  }

  lemma CloseSeamIsCanonical(xs: seq<Interval>)
    requires Gapped(xs)
    ensures Canonical(CloseSeam(xs))
  {
    var r := CloseSeam(xs);
    if |xs| >= 2 && xs[0].start == 0 && xs[|xs| - 1].end == WEEK {
      assert forall i :: 0 <= i < |r| - 1 ==> r[i] == xs[i + 1];
    } else if |xs| == 1 && xs[0].end == xs[0].start + WEEK {
      assert xs == [Interval(0, WEEK)];
    }
  }

  lemma NoHitPastTheWeek(xs: seq<Interval>, m: int)
    requires Proper(xs) && WEEK <= m
    ensures !Hit(xs, m)
  {
    HitBySome(xs, m);
  }

  lemma HitEnds(first: Interval, mid: seq<Interval>, last: Interval, m: int)
    ensures Hit([first] + mid + [last], m) == (Holds(first, m) || Hit(mid, m) || Holds(last, m))
  {
    HitSnoc([first] + mid, last, m);
    HitConcat([first], mid, m);
    HitSnoc([], first, m);
    assert [] + [first] == [first];
  }

  lemma SeamKeepsHits(xs: seq<Interval>, first: Interval, mid: seq<Interval>, last: Interval, m: int)
    requires xs == [first] + mid + [last]
    requires Proper(mid) && first.start == 0 < first.end && last.start < last.end == WEEK && 0 <= m < WEEK
    ensures CyclicHit(mid + [Interval(last.start, WEEK + first.end)], m) == Hit(xs, m)
  {
    var wrap := Interval(last.start, WEEK + first.end);
    HitEnds(first, mid, last, m);
    HitSnoc(mid, wrap, m);
    HitSnoc(mid, wrap, m + WEEK);
    NoHitPastTheWeek(mid, m + WEEK);
  }

  lemma SplitEnds(xs: seq<Interval>)
    requires |xs| >= 2
    ensures xs == [xs[0]] + xs[1..|xs| - 1] + [xs[|xs| - 1]]
  {
  }

  lemma CloseSeamKeepsHits(xs: seq<Interval>, m: int)
    requires Gapped(xs) && 0 <= m < WEEK
    ensures CyclicHit(CloseSeam(xs), m) == Hit(xs, m)
  {
    if |xs| >= 2 && xs[0].start == 0 && xs[|xs| - 1].end == WEEK {
      var first, mid, last := xs[0], xs[1..|xs| - 1], xs[|xs| - 1];
      SplitEnds(xs);
      assert CloseSeam(xs) == mid + [Interval(last.start, WEEK + first.end)];
      SeamKeepsHits(xs, first, mid, last, m);
    } else {
      assert CloseSeam(xs) == xs;
      NoHitPastTheWeek(xs, m + WEEK);
    }
  }

  /** Expanding normalised windows gives the canonical intervals of exactly the minutes
      that some window covers. */
  lemma ExpandedIsCanonicalCover(ws: seq<Window>, m: int)
    requires AllClean(ws) && 0 <= m < WEEK
    ensures Canonical(Expanded(ws))
    ensures CyclicHit(Expanded(ws), m) == Covered(ws, m)
  {
    var raw := RawIntervals(ws);
    RawCover(ws, m);
    DropEmptyIsProper(raw);
    DropEmptyKeepsHits(raw, m);
    SortIntervalsSorts(DropEmpty(raw), m);
    var merged := JoinAll(SortIntervals(DropEmpty(raw)));
    JoinAllKeeps(SortIntervals(DropEmpty(raw)), m);
    CloseSeamIsCanonical(merged);
    CloseSeamKeepsHits(merged, m);
  }

  // ----- Building and querying a schedule -----

  /** What the constructor makes of `ws`: the normalised windows and their expansion. */
  predicate BuiltFrom(s: ComfortSchedule, ws: seq<Window>) {
    s.windows == Normalized(ws) && s.intervals == Expanded(s.windows)
  }

  method FromWindows(windows: seq<Window>, setbackDelta: real) returns (r: ComfortSchedule)
    ensures BuiltFrom(r, windows) && r.setbackDelta == setbackDelta
  {
    var normalized := Normalize(windows);
    var intervals := Expand(normalized);
    r := ComfortSchedule(normalized, setbackDelta, intervals);
  }

  /** Distance to the end of the first interval holding `wm`, now or one week on. */
  function FindHit(xs: seq<Interval>, wm: int): Option<int> {
    if xs == [] then None
    else if Holds(xs[0], wm) then Some(xs[0].end - wm)
    else if Holds(xs[0], wm + WEEK) then Some(xs[0].end - (wm + WEEK))
    else FindHit(xs[1..], wm)
  }

  /** The least cyclic distance from `wm` to an interval's start. */
  function ToNextStart(xs: seq<Interval>, wm: int): int
    requires xs != []
  {
    var here := Gap(xs[0], wm);
    if |xs| == 1 then here
    else var rest := ToNextStart(xs[1..], wm); if here <= rest then here else rest
  }

  function StateAt(s: ComfortSchedule, minute: int, weekday: int): Result<ScheduleState> {
    if !(0 <= weekday <= 6) then Err("weekday must be 0..6")
    else if s.windows == [] then Ok(ScheduleState(true, None, 0.0, None))
    else if s.intervals == [] then Ok(ScheduleState(false, None, -s.setbackDelta, None))
    else if s.intervals == [Interval(0, WEEK)] then Ok(ScheduleState(true, None, 0.0, None))
    else
      var wm := weekday * 1440 + DayMinute(minute);
      match FindHit(s.intervals, wm)
      case Some(left) => Ok(ScheduleState(true, Some(0), 0.0, Some(left)))
      case None => Ok(ScheduleState(false, Some(ToNextStart(s.intervals, wm)), -s.setbackDelta, Some(0)))
  }

  predicate LeftIn(x: Interval, wm: int, left: int) {
    (Holds(x, wm) && left == x.end - wm) || (Holds(x, wm + WEEK) && left == x.end - (wm + WEEK))
  }

  lemma HitFront(xs: seq<Interval>, m: int)
    requires xs != []
    ensures Hit(xs, m) == (Holds(xs[0], m) || Hit(xs[1..], m))
  {
    assert xs == ([] + [xs[0]]) + xs[1..];
    HitConcat([] + [xs[0]], xs[1..], m);
    HitSnoc([], xs[0], m);
  }

  lemma {:induction false} FindHitFinds(xs: seq<Interval>, wm: int)
    ensures FindHit(xs, wm).Some? == CyclicHit(xs, wm)
    ensures FindHit(xs, wm).Some? ==> exists i :: 0 <= i < |xs| && LeftIn(xs[i], wm, FindHit(xs, wm).value)
  {
    if xs != [] {
      FindHitFinds(xs[1..], wm);
      HitFront(xs, wm);
      HitFront(xs, wm + WEEK);
      if Holds(xs[0], wm) || Holds(xs[0], wm + WEEK) {
        assert LeftIn(xs[0], wm, FindHit(xs, wm).value);
      } else if FindHit(xs, wm).Some? {
        var i :| 0 <= i < |xs| - 1 && LeftIn(xs[1..][i], wm, FindHit(xs, wm).value);
        assert xs[1..][i] == xs[i + 1];
      }
    }
  }

  /** The cyclic distance from week minute `wm` to an interval's start. */
  function Gap(x: Interval, wm: int): int {
    WeekMinute(x.start - wm)
  }

  lemma GapValue(x: Interval, wm: int)
    requires 0 <= wm < WEEK && 0 <= x.start < WEEK
    ensures Gap(x, wm) == if wm <= x.start then x.start - wm else x.start - wm + WEEK
  {
  }

  lemma {:induction false} ToNextStartIsLeast(xs: seq<Interval>, wm: int)
    requires xs != []
    ensures exists i :: 0 <= i < |xs| && ToNextStart(xs, wm) == Gap(xs[i], wm)
    ensures forall i :: 0 <= i < |xs| ==> ToNextStart(xs, wm) <= Gap(xs[i], wm)
  {
    if |xs| == 1 {
      assert ToNextStart(xs, wm) == Gap(xs[0], wm);
    } else {
      var rest := xs[1..];
      ToNextStartIsLeast(rest, wm);
      var i :| 0 <= i < |rest| && ToNextStart(rest, wm) == Gap(rest[i], wm);
      assert rest[i] == xs[i + 1];
      assert ToNextStart(xs, wm) == Gap(xs[0], wm) || ToNextStart(xs, wm) == Gap(xs[i + 1], wm);
      forall j | 0 <= j < |xs| ensures ToNextStart(xs, wm) <= Gap(xs[j], wm) {
        assert j > 0 ==> xs[j] == rest[j - 1];
      }
    }
  }

  lemma EndBound(xs: seq<Interval>, i: int)
    requires Canonical(xs) && 0 <= i < |xs|
    ensures 0 <= xs[i].start < WEEK && xs[i].start < xs[i].end <= xs[i].start + WEEK
    ensures xs != [Interval(0, WEEK)] ==> xs[i].end < xs[i].start + WEEK
    ensures xs[0].start <= xs[i].start && xs[i].end <= xs[|xs| - 1].end
  {
  }

  /** A gapped cyclic list: the minute an interval ends on is outside every interval. */
  lemma EndIsOutside(xs: seq<Interval>, i: int, r: int)
    requires Canonical(xs) && 0 <= i < |xs| && xs != [Interval(0, WEEK)]
    requires r == if xs[i].end < WEEK then xs[i].end else xs[i].end - WEEK
    ensures !CyclicHit(xs, r)
  {
    HitBySome(xs, r);
    HitBySome(xs, r + WEEK);
    EndBound(xs, i);
    forall j | 0 <= j < |xs|
      ensures !Holds(xs[j], r) && !Holds(xs[j], r + WEEK)
    {
      EndBound(xs, j);
      if i < j {
        assert xs[i].end < xs[j].start;
      } else if j < i {
        assert xs[j].end < xs[i].start;
      }
    }
  }

  lemma WrapOnce(wm: int, j: int)
    requires 0 <= wm < WEEK && 0 <= j <= WEEK
    ensures WeekMinute(wm + j) == if wm + j < WEEK then wm + j else wm + j - WEEK
  {
  }

  lemma HitDistance(xs: seq<Interval>, i: int, wm: int, probe: int, j: int)
    requires Canonical(xs) && xs != [Interval(0, WEEK)] && 0 <= i < |xs|
    requires 0 <= wm < WEEK && (probe == wm || probe == wm + WEEK) && Holds(xs[i], probe)
    requires 0 <= j <= xs[i].end - probe
    ensures xs[i].end - probe < WEEK
    ensures HitIn(xs, wm, j) == (j < xs[i].end - probe)
  {
    EndBound(xs, i);
    WrapOnce(wm, j);
    var r := WeekMinute(wm + j);
    if j < xs[i].end - probe {
      assert Holds(xs[i], r) || Holds(xs[i], r + WEEK);
      HitBySome(xs, r);
      HitBySome(xs, r + WEEK);
    } else {
      EndIsOutside(xs, i, r);
    }
  }

  /** Outside every interval, a minute short of the next start is still outside. */
  lemma ShortOfNextStart(xs: seq<Interval>, wm: int, j: int, i: int)
    requires Canonical(xs) && 0 <= i < |xs| && 0 <= wm < WEEK && !CyclicHit(xs, wm)
    requires 0 <= j < ToNextStart(xs, wm)
    ensures ToNextStart(xs, wm) <= Gap(xs[i], wm) < WEEK
    ensures !Holds(xs[i], wm + j) && !Holds(xs[i], wm + j + WEEK) && !Holds(xs[i], wm + j - WEEK)
  {
    ToNextStartIsLeast(xs, wm);
    EndBound(xs, i);
    GapValue(xs[i], wm);
    HitBySome(xs, wm);
    HitBySome(xs, wm + WEEK);
    assert !Holds(xs[i], wm) && !Holds(xs[i], wm + WEEK);
  }

  lemma MissBeforeNextStart(xs: seq<Interval>, wm: int, j: int)
    requires Canonical(xs) && xs != [] && 0 <= wm < WEEK && !CyclicHit(xs, wm)
    requires 0 <= j < ToNextStart(xs, wm)
    ensures !HitIn(xs, wm, j)
  {
    ShortOfNextStart(xs, wm, j, 0);
    WrapOnce(wm, j);
    var r := WeekMinute(wm + j);
    HitBySome(xs, r);
    HitBySome(xs, r + WEEK);
    forall k | 0 <= k < |xs| ensures !Holds(xs[k], r) && !Holds(xs[k], r + WEEK) {
      ShortOfNextStart(xs, wm, j, k);
    }
  }

  lemma HitAtNextStart(xs: seq<Interval>, wm: int, j: int)
    requires Canonical(xs) && xs != [] && 0 <= wm < WEEK && j == ToNextStart(xs, wm)
    ensures j < WEEK && HitIn(xs, wm, j)
  {
    ToNextStartIsLeast(xs, wm);
    var i :| 0 <= i < |xs| && ToNextStart(xs, wm) == Gap(xs[i], wm);
    EndBound(xs, i);
    GapValue(xs[i], wm);
    WrapOnce(wm, j);
    var r := WeekMinute(wm + j);
    assert r == xs[i].start;
    assert Holds(xs[i], r);
    HitBySome(xs, r);
  }

  predicate HitIn(xs: seq<Interval>, now: int, k: int) {
    CyclicHit(xs, WeekMinute(now + k))
  }

  /** `xs` answers, for the week starting at `wm`, exactly the minutes `ws` covers. */
  ghost predicate Represents(xs: seq<Interval>, ws: seq<Window>, wm: int) {
    Canonical(xs) && forall k :: 0 <= k <= WEEK ==> CoveredIn(ws, wm, k) == HitIn(xs, wm, k)
  }

  lemma CoverIsHit(ws: seq<Window>, n: seq<Window>, xs: seq<Interval>, m: int)
    requires n == Normalized(ws) && xs == Expanded(n) && 0 <= m < WEEK
    ensures Canonical(xs) && Covered(ws, m) == CyclicHit(xs, m)
  {
    NormalizedKeepsCover(ws, m);
    ExpandedIsCanonicalCover(n, m);
  }

  lemma MinuteRepresented(ws: seq<Window>, xs: seq<Interval>, wm: int, k: int)
    requires Covered(ws, WeekMinute(wm + k)) == CyclicHit(xs, WeekMinute(wm + k))
    ensures CoveredIn(ws, wm, k) == HitIn(xs, wm, k)
  {
    CoveredIsCyclic(ws, wm + k);
  }

  lemma BuiltRepresents(ws: seq<Window>, wm: int, n: seq<Window>, xs: seq<Interval>)
    requires n == Normalized(ws) && xs == Expanded(n)
    ensures Represents(xs, ws, wm)
  {
    CoverIsHit(ws, n, xs, WeekMinute(wm));
    forall k | 0 <= k <= WEEK ensures CoveredIn(ws, wm, k) == HitIn(xs, wm, k) {
      CoverIsHit(ws, n, xs, WeekMinute(wm + k));
      MinuteRepresented(ws, xs, wm, k);
    }
  }

  lemma ScanInsideInterval(xs: seq<Interval>, ws: seq<Window>, wm: int)
    requires 0 <= wm < WEEK && Represents(xs, ws, wm)
    requires xs != [Interval(0, WEEK)] && FindHit(xs, wm).Some?
    ensures Scan(ws, wm, true, 0) == 0 && CoveredIn(ws, wm, 0)
    ensures Scan(ws, wm, false, 0) == FindHit(xs, wm).value < WEEK
  {
    FindHitFinds(xs, wm);
    var left := FindHit(xs, wm).value;
    var i :| 0 <= i < |xs| && LeftIn(xs[i], wm, left);
    forall j | 0 <= j <= left ensures left < WEEK && CoveredIn(ws, wm, j) == (j < left) {
      HitDistance(xs, i, wm, xs[i].end - left, j);
    }
    assert CoveredIn(ws, wm, 0) && !CoveredIn(ws, wm, left);
    ScanIsLeast(ws, wm, true, 0, 0);
    ScanIsLeast(ws, wm, false, 0, left);
  }

  lemma ScanOutsideIntervals(xs: seq<Interval>, ws: seq<Window>, wm: int)
    requires 0 <= wm < WEEK && Represents(xs, ws, wm)
    requires xs != [] && FindHit(xs, wm).None?
    ensures Scan(ws, wm, false, 0) == 0 && !CoveredIn(ws, wm, 0)
    ensures Scan(ws, wm, true, 0) == ToNextStart(xs, wm) < WEEK
  {
    FindHitFinds(xs, wm);
    ToNextStartIsLeast(xs, wm);
    var next := ToNextStart(xs, wm);
    HitAtNextStart(xs, wm, next);
    forall j | 0 <= j < next ensures !CoveredIn(ws, wm, j) {
      MissBeforeNextStart(xs, wm, j);
    }
    assert CoveredIn(ws, wm, 0) == HitIn(xs, wm, 0);
    assert CoveredIn(ws, wm, next);
    ScanIsLeast(ws, wm, false, 0, 0);
    ScanIsLeast(ws, wm, true, 0, next);
  }

  lemma ScanOfConstantWeek(xs: seq<Interval>, ws: seq<Window>, wm: int)
    requires 0 <= wm < WEEK && Represents(xs, ws, wm)
    requires xs == [] || xs == [Interval(0, WEEK)]
    ensures Scan(ws, wm, xs == [], 0) == WEEK && Scan(ws, wm, xs != [], 0) == 0
  {
    forall k | 0 <= k <= WEEK ensures CoveredIn(ws, wm, k) == (xs != []) {
      if xs != [] {
        HitBySome(xs, WeekMinute(wm + k));
        assert Holds(xs[0], WeekMinute(wm + k));
      }
    }
    assert CoveredIn(ws, wm, 0) == (xs != []);
    ScanIsLeast(ws, wm, xs == [], 0, WEEK);
    ScanIsLeast(ws, wm, xs != [], 0, 0);
  }

  lemma CoveredNow(ws: seq<Window>, wm: int)
    ensures CoveredIn(ws, wm, 0) == Covered(ws, wm)
  {
  }

  lemma StateAtConstantWeek(s: ComfortSchedule, ws: seq<Window>, minute: int, weekday: int, wm: int)
    requires 0 <= weekday <= 6 && wm == weekday * 1440 + DayMinute(minute)
    requires Represents(s.intervals, ws, wm) && s.windows != [] && !NothingConfigured(ws)
    requires s.intervals == [] || s.intervals == [Interval(0, WEEK)]
    ensures StateAt(s, minute, weekday) == Ok(NaiveState(ws, s.setbackDelta, wm))
  {
    ScanOfConstantWeek(s.intervals, ws, wm);
  }

  lemma StateAtInside(s: ComfortSchedule, ws: seq<Window>, minute: int, weekday: int, wm: int)
    requires 0 <= weekday <= 6 && wm == weekday * 1440 + DayMinute(minute)
    requires Represents(s.intervals, ws, wm) && s.windows != [] && !NothingConfigured(ws)
    requires s.intervals != [] && s.intervals != [Interval(0, WEEK)] && FindHit(s.intervals, wm).Some?
    ensures StateAt(s, minute, weekday) == Ok(NaiveState(ws, s.setbackDelta, wm))
  {
    ScanInsideInterval(s.intervals, ws, wm);
    CoveredNow(ws, wm);
  }

  lemma StateAtOutside(s: ComfortSchedule, ws: seq<Window>, minute: int, weekday: int, wm: int)
    requires 0 <= weekday <= 6 && wm == weekday * 1440 + DayMinute(minute)
    requires Represents(s.intervals, ws, wm) && s.windows != [] && !NothingConfigured(ws)
    requires s.intervals != [] && s.intervals != [Interval(0, WEEK)] && FindHit(s.intervals, wm).None?
    ensures StateAt(s, minute, weekday) == Ok(NaiveState(ws, s.setbackDelta, wm))
  {
    ScanOutsideIntervals(s.intervals, ws, wm);
    CoveredNow(ws, wm);
  }

  /** Any schedule whose intervals represent its windows answers like the naive scan. */
  lemma StateAtOfRepresentation(s: ComfortSchedule, ws: seq<Window>, minute: int, weekday: int, wm: int)
    requires 0 <= weekday <= 6 && wm == weekday * 1440 + DayMinute(minute)
    requires Represents(s.intervals, ws, wm)
    requires s.windows == [] <==> NothingConfigured(ws)
    ensures StateAt(s, minute, weekday) == Ok(NaiveState(ws, s.setbackDelta, wm))
  {
    if s.windows != [] {
      if s.intervals == [] || s.intervals == [Interval(0, WEEK)] {
        StateAtConstantWeek(s, ws, minute, weekday, wm);
      } else if FindHit(s.intervals, wm).Some? {
        StateAtInside(s, ws, minute, weekday, wm);
      } else {
        StateAtOutside(s, ws, minute, weekday, wm);
      }
    }
  }

  /** Main result: for every list of windows, minute and weekday, the schedule's verdict is
      that of the minute-by-minute scan; an unknown weekday is refused. */
  lemma StateAtIsNaiveScan(s: ComfortSchedule, ws: seq<Window>, minute: int, weekday: int, wm: int)
    requires BuiltFrom(s, ws) && wm == weekday * 1440 + DayMinute(minute)
    ensures 0 <= weekday <= 6 ==> StateAt(s, minute, weekday) == Ok(NaiveState(ws, s.setbackDelta, wm))
    ensures !(0 <= weekday <= 6) ==> StateAt(s, minute, weekday).Err?
  {
    if 0 <= weekday <= 6 {
      NormalizedKeepsCover(ws, 0);
      BuiltRepresents(ws, wm, s.windows, s.intervals);
      StateAtOfRepresentation(s, ws, minute, weekday, wm);
    }
  }

  lemma {:induction false} ScanOfSameWindows(ws: seq<Window>, vs: seq<Window>, now: int, target: bool, k: int)
    requires forall w :: w in ws <==> w in vs
    requires 0 <= k <= WEEK
    ensures Scan(ws, now, target, k) == Scan(vs, now, target, k)
    decreases WEEK - k
  {
    CoveredBySame(ws, vs, now + k);
    if k < WEEK {
      ScanOfSameWindows(ws, vs, now, target, k + 1);
    }
  }

  lemma SameConfigured(ws: seq<Window>, vs: seq<Window>)
    requires forall w :: w in ws ==> w in vs
    ensures NothingConfigured(vs) ==> NothingConfigured(ws)
  {
    forall i | NothingConfigured(vs) && 0 <= i < |ws| ensures Clamp(ws[i].start) == Clamp(ws[i].end) {
      assert ws[i] in vs;
    }
  }

  lemma NaiveStateOfSameWindows(ws: seq<Window>, vs: seq<Window>, delta: real, now: int)
    requires forall w :: w in ws <==> w in vs
    ensures NaiveState(ws, delta, now) == NaiveState(vs, delta, now)
  {
    SameConfigured(ws, vs);
    SameConfigured(vs, ws);
    ScanOfSameWindows(ws, vs, now, true, 0);
    ScanOfSameWindows(ws, vs, now, false, 0);
    CoveredBySame(ws, vs, now);
  }

  /** Neither the order nor the repetition of the configured windows can change a verdict. */
  lemma ReorderingKeepsVerdicts(s: ComfortSchedule, ws: seq<Window>, t: ComfortSchedule, vs: seq<Window>,
                                minute: int, weekday: int)
    requires BuiltFrom(s, ws) && BuiltFrom(t, vs) && s.setbackDelta == t.setbackDelta
    requires forall w :: w in ws <==> w in vs
    ensures StateAt(s, minute, weekday) == StateAt(t, minute, weekday)
  {
    if 0 <= weekday <= 6 {
      var wm := weekday * 1440 + DayMinute(minute);
      StateAtIsNaiveScan(s, ws, minute, weekday, wm);
      StateAtIsNaiveScan(t, vs, minute, weekday, wm);
      NaiveStateOfSameWindows(ws, vs, s.setbackDelta, wm);
    }
  }

  // ----- Read off the configured days and times -----

  /** Flag `d` of a mask stands for two to the power `d`. */
  function MaskOf(days: seq<bool>): int {
    if days == [] then 0 else (if days[0] then 1 else 0) + 2 * MaskOf(days[1..])
  }

  /** `high` shifted left by `n` bits. */
  function Shifted(high: int, n: nat): int {
    if n == 0 then high else 2 * Shifted(high, n - 1)
  }

  lemma {:induction false} MaskHasItsDays(days: seq<bool>, high: int, d: nat)
    requires d < |days|
    ensures HasDay(MaskOf(days) + Shifted(high, |days|), d) == days[d]
    decreases d
  {
    var rest := MaskOf(days[1..]) + Shifted(high, |days| - 1);
    assert MaskOf(days) + Shifted(high, |days|) == (if days[0] then 1 else 0) + 2 * rest;
    if d > 0 {
      MaskHasItsDays(days[1..], high, d - 1);
    }
  }

  /** A window as somebody plans it: times of a day, one flag a weekday from Monday on, and bits of
      the mask past the seventh, which mean nothing. */
  datatype Plan = Plan(start: int, end: int, days: seq<bool>, high: int)

  predicate Planned(p: Plan) {
    0 <= p.start <= 1440 && 0 <= p.end <= 1440 && |p.days| == 7
  }

  function WindowOf(p: Plan): Window {
    Window(p.start, p.end, MaskOf(p.days) + 128 * p.high)
  }

  function WindowsOf(plans: seq<Plan>): (ws: seq<Window>)
    ensures |ws| == |plans| && forall i :: 0 <= i < |plans| ==> ws[i] == WindowOf(plans[i])
  {
    seq(|plans|, i requires 0 <= i < |plans| => WindowOf(plans[i]))
  }

  /** Within one day a plan holds on its days from start to end; overnight it holds on its days from
      the start on, and on the mornings after them until the end. */
  predicate Holding(p: Plan, weekday: int, time: int) {
    && |p.days| == 7 && 0 <= weekday <= 6
    && if p.start < p.end then p.days[weekday] && p.start <= time < p.end
       else if p.start == p.end then false
       else (p.days[weekday] && p.start <= time) || (p.days[if weekday == 0 then 6 else weekday - 1] && time < p.end)
  }

  lemma ShiftedByTheWeek(high: int)
    ensures Shifted(high, 7) == 128 * high
  {
    assert Shifted(high, 1) == 2 * Shifted(high, 0) && Shifted(high, 2) == 2 * Shifted(high, 1);
    assert Shifted(high, 3) == 2 * Shifted(high, 2) && Shifted(high, 4) == 2 * Shifted(high, 3);
    assert Shifted(high, 5) == 2 * Shifted(high, 4) && Shifted(high, 6) == 2 * Shifted(high, 5);
  }

  lemma PlanIsCovered(p: Plan, weekday: int, time: int)
    requires Planned(p) && 0 <= weekday <= 6 && 0 <= time < 1440
    ensures WindowCovers(WindowOf(p), weekday * 1440 + time) == Holding(p, weekday, time)
  {
    var eve := if weekday == 0 then 6 else weekday - 1;
    ShiftedByTheWeek(p.high);
    MaskHasItsDays(p.days, p.high, weekday);
    MaskHasItsDays(p.days, p.high, eve);
    assert DayIndex(weekday * 1440 + time) == weekday && DayMinute(weekday * 1440 + time) == time;
    assert (weekday + 6) % 7 == eve;
  }

  /** What the scan finds now is what the verdict says. */
  lemma VerdictIsCover(ws: seq<Window>, delta: real, now: int)
    ensures NaiveState(ws, delta, now).isComfort <==> NothingConfigured(ws) || Covered(ws, now)
  {
    CoveredNow(ws, now);
  }

  /** The built schedule says comfort on exactly the weekdays and times that somebody planned, or
      always when every plan is empty. */
  lemma ComfortIsAsPlanned(s: ComfortSchedule, plans: seq<Plan>, minute: int, weekday: int)
    requires forall i :: 0 <= i < |plans| ==> Planned(plans[i])
    requires BuiltFrom(s, WindowsOf(plans)) && 0 <= weekday <= 6
    ensures var r := StateAt(s, minute, weekday);
            r.Ok? && (r.value.isComfort <==>
                        || (forall i :: 0 <= i < |plans| ==> plans[i].start == plans[i].end)
                        || (exists i :: 0 <= i < |plans| && Holding(plans[i], weekday, minute % 1440)))
  {
    var ws, now := WindowsOf(plans), weekday * 1440 + DayMinute(minute);
    StateAtIsNaiveScan(s, ws, minute, weekday, now);
    VerdictIsCover(ws, s.setbackDelta, now);
    PlansAreConfigured(plans);
    PlansAreCovered(plans, weekday, minute % 1440);
  }

  lemma PlansAreConfigured(plans: seq<Plan>)
    requires forall i :: 0 <= i < |plans| ==> Planned(plans[i])
    ensures NothingConfigured(WindowsOf(plans)) <==> forall i :: 0 <= i < |plans| ==> plans[i].start == plans[i].end
  {
    var ws := WindowsOf(plans);
    forall i | 0 <= i < |plans| ensures Clamp(ws[i].start) == plans[i].start && Clamp(ws[i].end) == plans[i].end {
      assert Planned(plans[i]);
    }
  }

  lemma HoldingCovers(plans: seq<Plan>, weekday: int, time: int, i: nat)
    requires i < |plans| && Planned(plans[i]) && 0 <= time < 1440 && Holding(plans[i], weekday, time)
    ensures Covered(WindowsOf(plans), weekday * 1440 + time)
  {
    var ws, now := WindowsOf(plans), weekday * 1440 + time;
    PlanIsCovered(plans[i], weekday, time);
    CoveredBySome(ws, now);
    assert ws[i] in ws;
  }

  lemma CoveredHolds(plans: seq<Plan>, weekday: int, time: int) returns (i: nat)
    requires forall i :: 0 <= i < |plans| ==> Planned(plans[i])
    requires 0 <= weekday <= 6 && 0 <= time < 1440 && Covered(WindowsOf(plans), weekday * 1440 + time)
    ensures i < |plans| && Holding(plans[i], weekday, time)
  {
    var ws, now := WindowsOf(plans), weekday * 1440 + time;
    CoveredBySome(ws, now);
    var w :| w in ws && WindowCovers(w, now);
    i :| 0 <= i < |ws| && ws[i] == w;
    PlanIsCovered(plans[i], weekday, time);
  }

  lemma PlansAreCovered(plans: seq<Plan>, weekday: int, time: int)
    requires forall i :: 0 <= i < |plans| ==> Planned(plans[i])
    requires 0 <= weekday <= 6 && 0 <= time < 1440
    ensures Covered(WindowsOf(plans), weekday * 1440 + time) <==>
            exists i :: 0 <= i < |plans| && Holding(plans[i], weekday, time)
  {
    if Covered(WindowsOf(plans), weekday * 1440 + time) {
      var i := CoveredHolds(plans, weekday, time);
    }
    if i :| 0 <= i < |plans| && Holding(plans[i], weekday, time) {
      HoldingCovers(plans, weekday, time, i);
    }
  }

  /** The mask of all seven days, which a window has by default. */
  lemma EveryDayIsMask127()
    ensures MaskOf([true, true, true, true, true, true, true]) == 127
  {
    assert MaskOf([true]) == 1 && MaskOf([true, true]) == 3 && MaskOf([true, true, true]) == 7;
    assert MaskOf([true, true, true, true]) == 15 && MaskOf([true, true, true, true, true]) == 31;
    assert MaskOf([true, true, true, true, true, true]) == 63;
  }

  /** A time outside the day counts as the nearest one of it. */
  lemma ClampIsNearest(x: int, y: int)
    requires 0 <= y <= 1440
    ensures 0 <= Clamp(x) <= 1440
    ensures (if x < Clamp(x) then Clamp(x) - x else x - Clamp(x)) <= if x < y then y - x else x - y
  {
  }
}
