// The two placement strategies. Both take the host pool in its order and one
// demand, place the demand on at most one host by appending it to that host's
// list, and report whether they placed it.

module Placement {
  import opened Hosts

  /** "No host chosen yet" or the index of the chosen host in the pool. */
  datatype Option<T> = None | Some(value: T)

  /** Every host of the pool can compute its utilization and power. */
  ghost predicate PositiveCapacities(hosts: seq<Host>)
  {
    forall j :: 0 <= j < |hosts| ==> hosts[j].capacity > 0.0
  }

  /** Every host of the pool satisfies the capacity invariant. */
  ghost predicate AllWithinCapacity(hosts: seq<Host>)
    reads hosts
  {
    forall j :: 0 <= j < |hosts| ==> hosts[j].WithinCapacity()
  }

  /**
   * The host first-fit chooses: the lowest index whose host can take `vm`,
   * or None when no host can.
   */
  function FirstEligible(hosts: seq<Host>, vm: real): (k: Option<nat>)
    reads hosts
    ensures k.None? <==> forall j :: 0 <= j < |hosts| ==> !hosts[j].CanHost(vm)
    ensures k.Some? ==> k.value < |hosts| && hosts[k.value].CanHost(vm)
    ensures k.Some? ==> forall j :: 0 <= j < k.value ==> !hosts[j].CanHost(vm)
  {
    if hosts == [] then None
    else if hosts[0].CanHost(vm) then Some(0)
    else
      match FirstEligible(hosts[1..], vm)
      case None => None
      case Some(i) => Some(i + 1)
  }

  /**
   * Selection rule of the energy-aware strategy among the first `n` hosts:
   * `k` can take `vm`, no host among the first `n` that can take it has a
   * smaller marginal increase, and every earlier such host has a strictly
   * larger one (the first minimum wins a tie).
   */
  ghost predicate IsLeastIncrease(hosts: seq<Host>, vm: real, n: nat, k: nat)
    reads hosts
    requires n <= |hosts| && PositiveCapacities(hosts)
  {
    k < n && hosts[k].CanHost(vm) &&
    (forall j :: 0 <= j < n && hosts[j].CanHost(vm) ==>
       hosts[k].Increase(vm) <= hosts[j].Increase(vm)) &&
    (forall j :: 0 <= j < k && hosts[j].CanHost(vm) ==>
       hosts[k].Increase(vm) < hosts[j].Increase(vm))
  }

  /**
   * The host the energy-aware scan holds after looking at the first `n`
   * hosts: a host replaces the current best only when it can take `vm` and
   * its increase is strictly below the best increase so far.
   */
  function LeastIncreaseAmong(hosts: seq<Host>, vm: real, n: nat): (b: Option<nat>)
    reads hosts
    requires n <= |hosts| && PositiveCapacities(hosts)
    ensures b.None? <==> forall j :: 0 <= j < n ==> !hosts[j].CanHost(vm)
    ensures b.Some? ==> IsLeastIncrease(hosts, vm, n, b.value)
  {
    if n == 0 then None
    else
      var best := LeastIncreaseAmong(hosts, vm, n - 1);
      var h := hosts[n - 1];
      if h.CanHost(vm) && (best.None? || h.Increase(vm) < hosts[best.value].Increase(vm))
      then Some(n - 1)
      else best
  }

  /** The host at index k (wherever it occurs in the pool) got `vm` appended; every other host kept its demands. */
  twostate predicate AppendedAt(hosts: seq<Host>, vm: real, k: nat)
    reads hosts
    requires k < |hosts|
  {
    forall j :: 0 <= j < |hosts| ==>
      hosts[j].vms == if hosts[j] == hosts[k] then old(hosts[j].vms) + [vm] else old(hosts[j].vms)
  }

  /** No host of the pool changed its demands. */
  twostate predicate Unchanged(hosts: seq<Host>)
    reads hosts
  {
    forall j :: 0 <= j < |hosts| ==> hosts[j].vms == old(hosts[j].vms)
  }

  /** First-fit: append `vm` to the first host in pool order that can take it. */
  method FirstFit(hosts: seq<Host>, vm: real) returns (placed: bool)
    modifies hosts
    ensures placed <==> old(FirstEligible(hosts, vm)).Some?
    ensures placed ==> AppendedAt(hosts, vm, old(FirstEligible(hosts, vm)).value)
    ensures !placed ==> Unchanged(hosts)
    ensures old(AllWithinCapacity(hosts)) ==> AllWithinCapacity(hosts)
  {
    var i := 0;
    while i < |hosts|
      invariant 0 <= i <= |hosts|
      invariant forall j :: 0 <= j < i ==> !hosts[j].CanHost(vm)
    {
      var h := hosts[i];
      if h.CanHost(vm) {
        h.vms := h.vms + [vm];
        h.AppendKeepsWithinCapacity(vm);
        return true;
      }
      i := i + 1;
    }
    return false;
  }

  /**
   * The scan of the energy-aware strategy: look at every host in pool order
   * and keep the one with the least marginal power increase, replacing the
   * current best only on a strictly smaller increase.
   */
  method LeastIncreaseScan(hosts: seq<Host>, vm: real) returns (best: Option<nat>)
    requires PositiveCapacities(hosts)
    ensures best == LeastIncreaseAmong(hosts, vm, |hosts|)
    ensures best.None? <==> forall j :: 0 <= j < |hosts| ==> !hosts[j].CanHost(vm)
    ensures best.Some? ==> IsLeastIncrease(hosts, vm, |hosts|, best.value)
  {
    best := None;
    var bestIncrease: real := 0.0;
    var i := 0;
    while i < |hosts|
      invariant 0 <= i <= |hosts|
      invariant best == LeastIncreaseAmong(hosts, vm, i)
      invariant best.Some? ==> bestIncrease == hosts[best.value].Increase(vm)
    {
      var h := hosts[i];
      if h.CanHost(vm) {
        var before := h.Power();
        var after := h.PowerWith(vm);
        var inc := after - before;
        if best.None? || inc < bestIncrease {
          bestIncrease := inc;
          best := Some(i);
        }
      }
      i := i + 1;
    }
  }

  /**
   * Energy-aware: append `vm` to the host the scan chose, and to it alone.
   */
  method EnergyAware(hosts: seq<Host>, vm: real) returns (placed: bool)
    requires PositiveCapacities(hosts)
    modifies hosts
    ensures placed <==> old(LeastIncreaseAmong(hosts, vm, |hosts|)).Some?
    ensures placed ==> AppendedAt(hosts, vm, old(LeastIncreaseAmong(hosts, vm, |hosts|)).value)
    ensures !placed ==> Unchanged(hosts)
    ensures old(AllWithinCapacity(hosts)) ==> AllWithinCapacity(hosts)
  {
    var best := LeastIncreaseScan(hosts, vm);
    if best.Some? {
      var h := hosts[best.value];
      h.vms := h.vms + [vm];
      h.AppendKeepsWithinCapacity(vm);
      return true;
    }
    return false;
  }

  /** All hosts of the pool share one capacity, idle power and maximum power. */
  ghost predicate Identical(hosts: seq<Host>, capacity: real, idle: real, max: real)
    reads hosts
  {
    forall j :: 0 <= j < |hosts| ==>
      hosts[j].capacity == capacity && hosts[j].idle == idle && hosts[j].max == max
  }

  /**
   * Consolidation: among identical hosts with a positive idle draw, the
   * energy-aware choice is a loaded host whenever some loaded host can take
   * the demand, because waking an empty host also costs its idle power.
   */
  lemma Consolidation(hosts: seq<Host>, vm: real, capacity: real, idle: real, max: real, j: nat)
    requires capacity > 0.0 && idle > 0.0
    requires Identical(hosts, capacity, idle, max)
    requires j < |hosts| && hosts[j].vms != [] && hosts[j].CanHost(vm)
    ensures PositiveCapacities(hosts)
    ensures LeastIncreaseAmong(hosts, vm, |hosts|).Some?
    ensures hosts[LeastIncreaseAmong(hosts, vm, |hosts|).value].vms != []
  {
    var k := LeastIncreaseAmong(hosts, vm, |hosts|).value;
    var hj, hk := hosts[j], hosts[k];
    assert hk.Increase(vm) <= hj.Increase(vm);
    assert hj.capacity == capacity && hj.idle == idle && hj.max == max;
    assert hk.capacity == capacity && hk.idle == idle && hk.max == max;
    hj.IncreaseFormula(vm);
    hk.IncreaseFormula(vm);
  }
}
