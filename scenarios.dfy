// Small concrete runs of the host model and the two strategies, with the
// outcome each one must have.

module Scenarios {
  import opened Hosts
  import opened Placement

  /** The host carries the parameters of a host built without arguments. */
  predicate HasDefaults(h: Host)
  {
    h.capacity == DefaultCapacity && h.idle == DefaultIdlePower && h.max == DefaultMaxPower
  }

  /** A default host takes 0.3: utilization 0.3 and power 100 + 150 * 0.3 = 145. */
  method OneHostTakesDemand() returns (placed: bool, u: real, p: real)
    ensures placed && u == 0.3 && p == 145.0
  {
    var h := new Host("H0", DefaultCapacity, DefaultIdlePower, DefaultMaxPower);
    placed := FirstFit([h], 0.3);
    assert h.vms == [0.3];
    assert Sum(h.vms) == 0.3 by { SumAppend([], 0.3); }
    u := h.Utilization();
    p := h.Power();
  }

  /** A demand above the only host's capacity is refused and the host stays empty and unpowered. */
  method OversizedDemandRefused() returns (placedFirstFit: bool, placedEnergyAware: bool, p: real)
    ensures !placedFirstFit && !placedEnergyAware && p == 0.0
  {
    var h := new Host("H0", 0.5, DefaultIdlePower, DefaultMaxPower);
    placedFirstFit := FirstFit([h], 0.6);
    placedEnergyAware := EnergyAware([h], 0.6);
    p := h.Power();
  }

  /**
   * Two empty default hosts have the same increase for 0.2 (100 + 150 * 0.2
   * = 130); the strict comparison of the scan keeps the first of them.
   */
  lemma TieKeepsFirst(a: Host, b: Host)
    requires HasDefaults(a) && HasDefaults(b)
    requires a.vms == [] && b.vms == []
    ensures a.Increase(0.2) == b.Increase(0.2) == 130.0
    ensures PositiveCapacities([a, b]) && LeastIncreaseAmong([a, b], 0.2, 2) == Some(0)
  {
    a.IncreaseFormula(0.2);
    b.IncreaseFormula(0.2);
  }

  /** Two identical empty hosts tie on the increase; the energy-aware choice is the first. */
  method TieGoesToFirstHost() returns (first: seq<real>, second: seq<real>)
    ensures first == [0.2] && second == []
  {
    var a := new Host("H0", DefaultCapacity, DefaultIdlePower, DefaultMaxPower);
    var b := new Host("H1", DefaultCapacity, DefaultIdlePower, DefaultMaxPower);
    TieKeepsFirst(a, b);
    var placed := EnergyAware([a, b], 0.2);
    first, second := a.vms, b.vms;
  }

  /**
   * An empty default host next to a default host carrying 0.2: first-fit
   * picks the empty first host for 0.3, energy-aware the loaded second one
   * (increase 45 against 145).
   */
  lemma StrategiesChooseDifferently(a: Host, b: Host)
    requires HasDefaults(a) && HasDefaults(b)
    requires a.vms == [] && b.vms == [0.2]
    ensures FirstEligible([a, b], 0.3) == Some(0)
    ensures PositiveCapacities([a, b]) && LeastIncreaseAmong([a, b], 0.3, 2) == Some(1)
  {
    assert Sum(b.vms) == 0.2 by { SumAppend([], 0.2); }
    Consolidation([a, b], 0.3, DefaultCapacity, DefaultIdlePower, DefaultMaxPower, 1);
  }

  /** Two fresh default hosts, the second already carrying 0.2 placed by first-fit. */
  method LoadedPair() returns (a: Host, b: Host)
    ensures fresh(a) && fresh(b) && a != b
    ensures HasDefaults(a) && HasDefaults(b)
    ensures a.vms == [] && b.vms == [0.2]
  {
    a := new Host("H0", DefaultCapacity, DefaultIdlePower, DefaultMaxPower);
    b := new Host("H1", DefaultCapacity, DefaultIdlePower, DefaultMaxPower);
    var placed := FirstFit([b], 0.2);
  }

  /** On that pool first-fit still powers up the empty first host for 0.3. */
  method FirstFitWakesEmptyHost() returns (first: seq<real>, second: seq<real>)
    ensures first == [0.3] && second == [0.2]
  {
    var a, b := LoadedPair();
    StrategiesChooseDifferently(a, b);
    var placed := FirstFit([a, b], 0.3);
    first, second := a.vms, b.vms;
  }

  /** On the same pool energy-aware places 0.3 on the loaded second host. */
  method EnergyAwareJoinsLoadedHost() returns (first: seq<real>, second: seq<real>)
    ensures first == [] && second == [0.2, 0.3]
  {
    var a, b := LoadedPair();
    StrategiesChooseDifferently(a, b);
    var placed := EnergyAware([a, b], 0.3);
    first, second := a.vms, b.vms;
  }
}
