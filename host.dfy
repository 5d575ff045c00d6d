// The host power/capacity model of the placement simulator: one physical
// machine with a capacity, an idle and a maximum power draw, and the list of
// demands placed on it so far.

module Hosts {

  /** Parameters of a host built without explicit arguments. */
  const DefaultCapacity: real := 1.0
  const DefaultIdlePower: real := 100.0
  const DefaultMaxPower: real := 250.0

  /** Sum of the demands, folded left to right as Python's `sum` does. */
  function Sum(s: seq<real>): real
  {
    if s == [] then 0.0 else Sum(s[..|s| - 1]) + s[|s| - 1]
  }

  /** Appending one demand adds exactly that demand to the sum. */
  lemma SumAppend(s: seq<real>, x: real)
    ensures Sum(s + [x]) == Sum(s) + x
  {
    assert (s + [x])[..|s|] == s;
  }

  /** A sum of non-negative demands is non-negative. */
  lemma {:induction false} SumNonNegative(s: seq<real>)
    requires forall i :: 0 <= i < |s| ==> s[i] >= 0.0
    ensures Sum(s) >= 0.0
  {
    if s != [] {
      SumNonNegative(s[..|s| - 1]);
    }
  }

  /** Power that `vm` adds to a host that is already drawing power. */
  function LoadCost(capacity: real, idle: real, max: real, vm: real): real
    requires capacity > 0.0
  {
    (max - idle) * vm / capacity
  }

  class Host {
    const name: string
    const capacity: real
    const idle: real
    const max: real
    /** The demands placed on this host, in placement order. */
    var vms: seq<real>

    /** A new host carries no demand. */
    constructor (name: string, capacity: real, idle: real, max: real)
      ensures this.name == name && this.capacity == capacity
      ensures this.idle == idle && this.max == max
      ensures vms == []
    {
      this.name := name;
      this.capacity := capacity;
      this.idle := idle;
      this.max := max;
      vms := [];
    }

    /** The parameters under which the power figure is meaningful. */
    ghost predicate WellFormed()
      reads this
    {
      capacity > 0.0 && 0.0 <= idle <= max &&
      forall i :: 0 <= i < |vms| ==> vms[i] >= 0.0
    }

    /** The capacity invariant: the placed demands fit into the host. */
    ghost predicate WithinCapacity()
      reads this
    {
      Sum(vms) <= capacity
    }

    /** Fraction of the capacity taken by the placed demands. */
    function Utilization(): real
      reads this
      requires capacity > 0.0
    {
      Sum(vms) / capacity
    }

    /** An empty host is unused, and a sound host's utilization is a fraction in [0, 1]. */
    lemma UtilizationInRange()
      requires capacity > 0.0
      ensures vms == [] ==> Utilization() == 0.0
      ensures WellFormed() && WithinCapacity() ==> 0.0 <= Utilization() <= 1.0
    {
      if WellFormed() {
        SumNonNegative(vms);
      }
    }

    /** Whether `vm` fits next to the demands already placed. */
    predicate CanHost(vm: real)
      reads this
    {
      Sum(vms) + vm <= capacity
    }

    /** `vm` fits exactly when the host stays within capacity once it is appended. */
    lemma CanHostIffFits(vm: real)
      ensures CanHost(vm) <==> Sum(vms + [vm]) <= capacity
    {
      SumAppend(vms, vm);
    }

    /** Appending a demand the host can take keeps it within capacity. */
    twostate lemma AppendKeepsWithinCapacity(vm: real)
      requires old(CanHost(vm)) && vms == old(vms) + [vm]
      ensures WithinCapacity()
    {
      SumAppend(old(vms), vm);
    }

    /** Power draw: nothing while empty, otherwise linear in utilization. */
    function Power(): real
      reads this
      requires capacity > 0.0
    {
      if vms == [] then 0.0 else idle + (max - idle) * Utilization()
    }

    /**
     * An empty host draws nothing whatever its parameters; a loaded host
     * within capacity draws between its idle and its maximum power.
     */
    lemma PowerInRange()
      requires capacity > 0.0
      ensures vms == [] ==> Power() == 0.0
      ensures vms != [] && WellFormed() && WithinCapacity() ==> idle <= Power() <= max
    {
      if vms != [] && WellFormed() && WithinCapacity() {
        UtilizationInRange();
        var u, d := Utilization(), max - idle;
        assert Power() == idle + d * u;
        assert d * u >= 0.0;
        assert d * u + d * (1.0 - u) == d;
        assert d * (1.0 - u) >= 0.0;
      }
    }

    /** Power the host would draw once `vm` is added to it. */
    function PowerWith(vm: real): (p: real)
      reads this
      requires capacity > 0.0
    {
      idle + (max - idle) * ((Sum(vms) + vm) / capacity)
    }

    /** Keeping its demands or appending a non-negative one keeps a host well formed. */
    twostate lemma GrowKeepsWellFormed(vm: real)
      requires old(WellFormed()) && vm >= 0.0
      requires vms == old(vms) || vms == old(vms) + [vm]
      ensures WellFormed()
    {
    }

    /** Marginal power increase of placing `vm` here. */
    function Increase(vm: real): real
      reads this
      requires capacity > 0.0
    {
      PowerWith(vm) - Power()
    }

    /** After `vm` is appended the host draws exactly its increase more. */
    twostate lemma AppendRaisesPower(vm: real)
      requires capacity > 0.0
      requires vms == old(vms) + [vm]
      ensures Power() == old(Power()) + old(Increase(vm))
    {
      SumAppend(old(vms), vm);
      assert Utilization() == (old(Sum(vms)) + vm) / capacity;
    }

    /** Appending a non-negative demand to a loaded, well-formed host never lowers its power. */
    twostate lemma AppendDoesNotLowerPower(vm: real)
      requires old(WellFormed()) && vm >= 0.0 && old(vms) != []
      requires vms == old(vms) + [vm]
      ensures old(Power()) <= Power()
    {
      SumAppend(old(vms), vm);
      var s, d := old(Sum(vms)), max - idle;
      assert old(Power()) == idle + d * (s / capacity);
      assert Power() == idle + d * ((s + vm) / capacity);
      assert (s + vm) / capacity == s / capacity + vm / capacity;
      assert d * ((s + vm) / capacity) == d * (s / capacity) + d * (vm / capacity);
      assert d * (vm / capacity) >= 0.0;
    }

    /**
     * The increase in closed form: a loaded host only pays for the added
     * utilization, an empty one also pays its idle draw.
     */
    lemma IncreaseFormula(vm: real)
      requires capacity > 0.0
      ensures vms != [] ==> Increase(vm) == LoadCost(capacity, idle, max, vm)
      ensures vms == [] ==> Increase(vm) == idle + LoadCost(capacity, idle, max, vm)
    {
      assert (Sum(vms) + vm) / capacity == Sum(vms) / capacity + vm / capacity;
      assert (max - idle) * ((Sum(vms) + vm) / capacity)
          == (max - idle) * (Sum(vms) / capacity) + (max - idle) * (vm / capacity);
    }
  }
}
