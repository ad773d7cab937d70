/** Smallest-gap load shedding: which heating zones give way to a power overload. */
module LoadShedding {
  import opened Options
  import StableSort

  datatype Zone = Zone(id: string, heating: bool, power: Option<real>, frost: bool, health: bool, gap: real)

  /** A heating zone with a declared power that no protection holds. */
  predicate Sheddable(z: Zone) {
    z.heating && z.power.Some? && z.power.value != 0.0 && !z.frost && !z.health
  }

  function SheddableOf(zones: seq<Zone>): seq<Zone> {
    if zones == [] then []
    else if Sheddable(zones[|zones| - 1]) then SheddableOf(zones[..|zones| - 1]) + [zones[|zones| - 1]]
    else SheddableOf(zones[..|zones| - 1])
  }

  /** Filtering keeps every sheddable zone, as often as it occurs, and nothing else. */
  lemma {:induction false} SheddableOfKeeps(zones: seq<Zone>, z: Zone)
    ensures multiset(SheddableOf(zones))[z] == if Sheddable(z) then multiset(zones)[z] else 0
    decreases |zones|
  {
    if zones != [] {
      assert zones == zones[..|zones| - 1] + [zones[|zones| - 1]];
      SheddableOfKeeps(zones[..|zones| - 1], z);
    }
  }

  // ----- The stable order by comfort gap -----

  predicate Ascending(s: seq<Zone>) {
    forall i, j :: 0 <= i < j < |s| ==> s[i].gap <= s[j].gap
  }

  predicate NoLargerGap(a: Zone, b: Zone) {
    a.gap <= b.gap
  }

  function ByGap(s: seq<Zone>): (r: seq<Zone>)
    ensures |r| == |s|
  {
    StableSort.Sort(s, NoLargerGap)
  }

  /** The zones of one gap, in order. */
  function OfGap(s: seq<Zone>, g: real): seq<Zone> {
    StableSort.Picked(s, (z: Zone) => z.gap == g)
  }

  /** Sorting is a permutation in ascending gap order that keeps the order of equal gaps. */
  lemma ByGapIsStableSort(s: seq<Zone>, g: real)
    ensures multiset(ByGap(s)) == multiset(s) && Ascending(ByGap(s)) && OfGap(ByGap(s), g) == OfGap(s, g)
  {
    StableSort.SortOrders(s, NoLargerGap);
    forall i, j | 0 <= i < j < |s| ensures ByGap(s)[i].gap <= ByGap(s)[j].gap {
      assert NoLargerGap(ByGap(s)[i], ByGap(s)[j]);
    }
    StableSort.SortIsStable(s, NoLargerGap, (z: Zone) => z.gap == g);
  }

  /** The zones that may be shed, nearest to their setpoint first. */
  function Candidates(zones: seq<Zone>): seq<Zone> {
    ByGap(SheddableOf(zones))
  }

  /** The candidates are exactly the sheddable zones, as often as they occur, by gap. */
  lemma CandidatesAreSpare(zones: seq<Zone>)
    ensures Ascending(Candidates(zones))
    ensures forall z :: multiset(Candidates(zones))[z] == if Sheddable(z) then multiset(zones)[z] else 0
  {
    ByGapIsStableSort(SheddableOf(zones), 0.0);
    forall z ensures multiset(Candidates(zones))[z] == if Sheddable(z) then multiset(zones)[z] else 0 {
      SheddableOfKeeps(zones, z);
    }
  }

  /** Every heating zone with a power and no protection is a candidate. */
  lemma SpareZonesAreCandidates(zones: seq<Zone>, z: Zone)
    requires z in zones && z.heating && z.power.Some? && z.power.value != 0.0 && !z.frost && !z.health
    ensures z in Candidates(zones)
  {
    CandidatesAreSpare(zones);
    assert z in multiset(zones);
    assert z in multiset(Candidates(zones));
  }

  // ----- The shed prefix -----

  function Power(z: Zone): real {
    if z.power.Some? then z.power.value else 0.0
  }

  function Freed(c: seq<Zone>): real {
    if c == [] then 0.0 else Freed(c[..|c| - 1]) + Power(c[|c| - 1])
  }

  function Ids(c: seq<Zone>): (r: seq<string>)
    ensures |r| == |c| && forall i :: 0 <= i < |c| ==> r[i] == c[i].id
  {
    seq(|c|, i requires 0 <= i < |c| => c[i].id)
  }

  /** `k` is the length of the shortest prefix that covers the deficit, or of everything. */
  ghost predicate ShedsExactly(c: seq<Zone>, deficit: real, k: nat)
  {
    && k <= |c|
    && (Freed(c[..k]) >= deficit || k == |c|)
    && forall j :: 0 <= j < k ==> Freed(c[..j]) < deficit
  }

  datatype Shedding = Shedding(shed: seq<string>, freed: real, deficit: real)

  method ShedPrefix(c: seq<Zone>, deficit: real) returns (shed: seq<string>, freed: real)
    ensures ShedsExactly(c, deficit, |shed|)
    ensures shed == Ids(c[..|shed|]) && freed == Freed(c[..|shed|])
  {
    shed, freed := [], 0.0;
    for i := 0 to |c|
      invariant |shed| == i && shed == Ids(c[..i]) && freed == Freed(c[..i])
      invariant forall j :: 0 <= j < i ==> Freed(c[..j]) < deficit
    {
      if freed >= deficit {
        return;
      }
      assert c[..i + 1][..i] == c[..i];
      shed := shed + [c[i].id];
      freed := freed + Power(c[i]);
    }
  }

  /** Shed nothing without an overload or without a reading; otherwise the shortest covering
      prefix of the candidates. */
  method ResolveLoadShedding(zones: seq<Zone>, available: Option<real>) returns (r: Shedding)
    ensures available.None? || available.value >= 0.0 ==> r == Shedding([], 0.0, 0.0)
    ensures available.Some? && available.value < 0.0 ==>
              var c, k := Candidates(zones), |r.shed|;
              ShedsExactly(c, -available.value, k) && r == Shedding(Ids(c[..k]), Freed(c[..k]), -available.value)
  {
    if available.None? || available.value >= 0.0 {
      return Shedding([], 0.0, 0.0);
    }
    var shed, freed := ShedPrefix(Candidates(zones), -available.value);
    r := Shedding(shed, freed, -available.value);
  }

  /** Only heating zones with a power and no protection are shed, none in place of one nearer to its
      setpoint, and keeping the last shed zone would leave the overload standing. */
  lemma ShedIsLeastAndSpare(zones: seq<Zone>, deficit: real, k: nat)
    requires ShedsExactly(Candidates(zones), deficit, k)
    ensures var c := Candidates(zones);
            && (forall i :: 0 <= i < k ==>
                  && c[i] in zones && c[i].heating && c[i].power.Some? && c[i].power.value != 0.0
                  && !c[i].frost && !c[i].health)
            && (forall i, j :: 0 <= i < k <= j < |c| ==> c[i].gap <= c[j].gap)
            && (k > 0 ==> Freed(c[..k - 1]) < deficit)
  {
    var c := Candidates(zones);
    CandidatesAreSpare(zones);
    forall i | 0 <= i < k ensures c[i] in zones && Sheddable(c[i]) {
      assert c[i] in multiset(c);
      assert multiset(zones)[c[i]] > 0;
    }
  }

  /** The power of a choice of zones, one flag a zone. */
  function Chosen(c: seq<Zone>, choice: seq<bool>): real
    requires |choice| == |c|
  {
    if c == [] then 0.0
    else
      var n := |c| - 1;
      Chosen(c[..n], choice[..n]) + if choice[n] then Power(c[n]) else 0.0
  }

  predicate AllPositive(c: seq<Zone>) {
    forall i :: 0 <= i < |c| ==> Power(c[i]) > 0.0
  }

  /** With positive powers a choice from the first `m` zones frees no more than all of them. */
  lemma {:induction false} ChoiceOfPrefix(c: seq<Zone>, choice: seq<bool>, m: nat)
    requires |choice| == |c| && AllPositive(c)
    requires m <= |c| && forall i :: m <= i < |c| ==> !choice[i]
    ensures Chosen(c, choice) <= Freed(c[..m])
    decreases |c|
  {
    if c != [] {
      var n := |c| - 1;
      if m == |c| {
        assert c[..m] == c;
        assert c[..n][..n] == c[..n];
        ChoiceOfPrefix(c[..n], choice[..n], n);
      } else {
        assert c[..n][..m] == c[..m];
        ChoiceOfPrefix(c[..n], choice[..n], m);
      }
    }
  }

  lemma CoveringReachesTheLast(c: seq<Zone>, deficit: real, k: nat, choice: seq<bool>)
    requires Ascending(c) && AllPositive(c) && ShedsExactly(c, deficit, k) && k > 0
    requires |choice| == |c| && Chosen(c, choice) >= deficit
    ensures exists i :: k - 1 <= i < |c| && choice[i] && c[i].gap >= c[k - 1].gap
  {
    if i :| k - 1 <= i < |c| && choice[i] {
      assert c[i].gap >= c[k - 1].gap;
    } else {
      ChoiceOfPrefix(c, choice, k - 1);
    }
  }

  /** With positive powers the method is bottleneck-optimal: every choice of candidates that
      covers the deficit takes heat from a room at least as far from its setpoint as the last
      room shed. */
  lemma NoGentlerChoice(zones: seq<Zone>, c: seq<Zone>, deficit: real, k: nat, choice: seq<bool>)
    requires c == Candidates(zones) && AllPositive(c) && ShedsExactly(c, deficit, k) && k > 0
    requires |choice| == |c| && Chosen(c, choice) >= deficit
    ensures exists i :: 0 <= i < |c| && choice[i] && c[i].gap >= c[k - 1].gap
  {
    CandidatesAreSpare(zones);
    CoveringReachesTheLast(c, deficit, k, choice);
  }
}
