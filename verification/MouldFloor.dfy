/** The lowest air temperature that keeps a surface out of the mould region, by bisection. */
module MouldFloor {

  const FLOOR_CEILING := 24.0

  const BISECTION_STEPS: nat := 60

  function Start(tOut: real): real {
    if tOut < FLOOR_CEILING then tOut else FLOOR_CEILING
  }

  function Halved(width: real, n: nat): real {
    if n == 0 then width else Halved(width, n - 1) / 2.0
  }

  /** How far the published floor may lie above the edge of the safe region. */
  function Resolution(tOut: real): real {
    Halved(FLOOR_CEILING - Start(tOut), BISECTION_STEPS)
  }

  ghost predicate Falling(excess: real -> real) {
    forall a, b :: a <= b ==> excess(b) <= excess(a)
  }

  /** Warming can only help: a safe temperature lies above every unsafe one. */
  lemma SafeIsAboveUnsafe(excess: real -> real, safe: real, unsafe: real)
    requires Falling(excess) && excess(safe) <= 0.0 < excess(unsafe)
    ensures unsafe < safe
  {
  }

  /** `excess` is the surface humidity minus its critical line at a candidate air temperature:
      positive is the growth region. `capped` says that even the ceiling is in it; otherwise the
      floor is safe, and a temperature no more than the resolution below it is not, unless the
      outdoor temperature is safe already. A falling excess makes the floor the least safe
      temperature up to the resolution. */
  method RequiredAirTemperature(tOut: real, excess: real -> real) returns (floor: real, capped: bool)
    ensures capped <==> excess(FLOOR_CEILING) > 0.0
    ensures Start(tOut) <= floor <= FLOOR_CEILING
    ensures if capped then floor == FLOOR_CEILING else excess(floor) <= 0.0
    ensures !capped && excess(Start(tOut)) <= 0.0 ==> floor == Start(tOut)
    ensures !capped && excess(Start(tOut)) > 0.0 ==> excess(floor - Resolution(tOut)) > 0.0
    ensures !capped && Falling(excess) ==>
              forall t :: Start(tOut) <= t && excess(t) <= 0.0 ==> floor <= t + Resolution(tOut)
  {
    var lo, hi := Start(tOut), FLOOR_CEILING;
    HalvedIsPositive(hi - lo, BISECTION_STEPS);
    if excess(hi) > 0.0 {
      return FLOOR_CEILING, true;
    }
    if excess(lo) <= 0.0 {
      return lo, false;
    }
    for i := 0 to BISECTION_STEPS
      invariant Start(tOut) <= lo <= hi <= FLOOR_CEILING
      invariant excess(hi) <= 0.0 < excess(lo)
      invariant hi - lo == Halved(FLOOR_CEILING - Start(tOut), i)
    {
      var mid := 0.5 * (lo + hi);
      if excess(mid) > 0.0 {
        lo := mid;
      } else {
        hi := mid;
      }
    }
    floor, capped := hi, false;
    if Falling(excess) {
      forall t | Start(tOut) <= t && excess(t) <= 0.0 ensures floor <= t + Resolution(tOut) {
        SafeIsAboveUnsafe(excess, t, lo);
      }
    }
  }

  lemma {:induction false} HalvedIsPositive(width: real, n: nat)
    ensures width >= 0.0 ==> Halved(width, n) >= 0.0
  {
    if n > 0 {
      HalvedIsPositive(width, n - 1);
    }
  }

  function Doubled(width: real, n: nat): real {
    if n == 0 then width else 2.0 * Doubled(width, n - 1)
  }

  /** The resolution is the initial bracket divided by 2 to the number of steps. */
  lemma {:induction false} HalvedUndoesDoubled(width: real, n: nat)
    ensures Doubled(Halved(width, n), n) == width
  {
    if n > 0 {
      HalvedUndoesDoubled(width, n - 1);
      DoubledHalf(Halved(width, n - 1), n);
    }
  }

  lemma {:induction false} DoubledHalf(width: real, n: nat)
    requires n > 0
    ensures Doubled(width / 2.0, n) == Doubled(width, n - 1)
  {
    if n > 1 {
      DoubledHalf(width, n - 1);
    }
  }

  // ----- The resolution in figures -----

  function PowerOfTwo(n: nat): real {
    if n == 0 then 1.0 else 2.0 * PowerOfTwo(n - 1)
  }

  lemma {:induction false} HalvedIsAQuotient(width: real, n: nat)
    ensures Halved(width, n) * PowerOfTwo(n) == width
  {
    if n > 0 {
      HalvedIsAQuotient(width, n - 1);
      var half, power := Halved(width, n), PowerOfTwo(n - 1);
      assert half * (2.0 * power) == (2.0 * half) * power;
    }
  }

  lemma {:induction false} PowersAdd(m: nat, n: nat)
    ensures PowerOfTwo(m + n) == PowerOfTwo(m) * PowerOfTwo(n)
  {
    if n > 0 {
      PowersAdd(m, n - 1);
      assert PowerOfTwo(m + n) == 2.0 * PowerOfTwo(m + n - 1);
      var a, b := PowerOfTwo(m), PowerOfTwo(n - 1);
      assert 2.0 * (a * b) == a * (2.0 * b);
    }
  }

  lemma TenBits()
    ensures PowerOfTwo(10) == 1024.0
  {
    assert PowerOfTwo(5) == 32.0;
    PowersAdd(5, 5);
  }

  lemma SixtyBits()
    ensures PowerOfTwo(60) == 1152921504606846976.0
  {
    TenBits();
    PowersAdd(10, 10);
    PowersAdd(20, 20);
    PowersAdd(40, 20);
  }

  /** The bracket runs from the outdoor temperature to 24 degrees, and is empty from there on; the
      resolution is that bracket over two to the sixtieth. */
  lemma ResolutionInFigures(tOut: real)
    ensures FLOOR_CEILING == 24.0
    ensures Start(tOut) == if tOut < 24.0 then tOut else 24.0
    ensures Resolution(tOut) * 1152921504606846976.0 == if tOut < 24.0 then 24.0 - tOut else 0.0
  {
    SixtyBits();
    HalvedIsAQuotient(FLOOR_CEILING - Start(tOut), BISECTION_STEPS);
  }
}
