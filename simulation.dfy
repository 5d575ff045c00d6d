// The fold a simulation run reports over its final host pool (total power and
// number of active hosts), and the run itself with the demand sequence given
// as input instead of drawn at random.

module Simulation {
  import opened Hosts
  import opened Placement

  /** Size of the pool a run builds, number of demands and the range they are drawn from. */
  const HostCount: nat := 5
  const DemandCount: nat := 20
  const DemandLow: real := 0.1
  const DemandHigh: real := 0.5

  /** The two interchangeable placement strategies. */
  datatype Strategy = FirstFitStrategy | EnergyAwareStrategy

  /** What a run reports: its label, the pool's total power and active host count. */
  datatype Report = Report(runLabel: string, totalPower: real, activeHosts: nat)

  /** Sum of the hosts' power draws, folded in pool order. */
  function TotalPower(hosts: seq<Host>): real
    reads hosts
    requires PositiveCapacities(hosts)
  {
    if hosts == [] then 0.0
    else TotalPower(hosts[..|hosts| - 1]) + hosts[|hosts| - 1].Power()
  }

  /** Number of pool entries whose host carries at least one demand. */
  function ActiveHosts(hosts: seq<Host>): (n: nat)
    reads hosts
    ensures n <= |hosts|
  {
    if hosts == [] then 0
    else ActiveHosts(hosts[..|hosts| - 1]) + (if hosts[|hosts| - 1].vms != [] then 1 else 0)
  }

  /** No host is active exactly when every host of the pool is empty. */
  lemma {:induction false} NoActiveHostIffAllEmpty(hosts: seq<Host>)
    ensures ActiveHosts(hosts) == 0 <==> forall j :: 0 <= j < |hosts| ==> hosts[j].vms == []
  {
    if hosts != [] {
      var init := hosts[..|hosts| - 1];
      NoActiveHostIffAllEmpty(init);
      assert forall j :: 0 <= j < |init| ==> init[j] == hosts[j];
    }
  }

  /** Every host of the pool has meaningful parameters and respects its capacity. */
  ghost predicate Sound(hosts: seq<Host>)
    reads hosts
  {
    forall j :: 0 <= j < |hosts| ==> hosts[j].WellFormed() && hosts[j].WithinCapacity()
  }

  /** Sum of the idle draws of the active hosts, the least they can draw together. */
  function ActiveIdlePower(hosts: seq<Host>): real
    reads hosts
  {
    if hosts == [] then 0.0
    else
      var last := hosts[|hosts| - 1];
      ActiveIdlePower(hosts[..|hosts| - 1]) + (if last.vms != [] then last.idle else 0.0)
  }

  /** Sum of the maximum draws of the active hosts, the most they can draw together. */
  function ActiveMaxPower(hosts: seq<Host>): real
    reads hosts
  {
    if hosts == [] then 0.0
    else
      var last := hosts[|hosts| - 1];
      ActiveMaxPower(hosts[..|hosts| - 1]) + (if last.vms != [] then last.max else 0.0)
  }

  /** The pool's total power lies between the idle and the maximum draws of its active hosts. */
  lemma {:induction false} TotalPowerBounds(hosts: seq<Host>)
    requires Sound(hosts)
    ensures PositiveCapacities(hosts)
    ensures ActiveIdlePower(hosts) <= TotalPower(hosts) <= ActiveMaxPower(hosts)
  {
    if hosts != [] {
      TotalPowerBounds(hosts[..|hosts| - 1]);
      hosts[|hosts| - 1].PowerInRange();
    }
  }

  /** `n` copies of `x` added up. */
  function Copies(n: nat, x: real): real
  {
    if n == 0 then 0.0 else Copies(n - 1, x) + x
  }

  /** Adding up `n` copies of `x` multiplies `x` by `n`. */
  lemma {:induction false} CopiesIsProduct(n: nat, x: real)
    ensures Copies(n, x) == x * n as real
  {
    if n > 0 {
      CopiesIsProduct(n - 1, x);
      assert x * (n - 1) as real + x == x * n as real;
    }
  }

  /** On a pool of hosts sharing one idle and one maximum draw, each active host adds one of each. */
  lemma {:induction false} UniformCopies(hosts: seq<Host>, idle: real, max: real)
    requires forall j :: 0 <= j < |hosts| ==> hosts[j].idle == idle && hosts[j].max == max
    ensures ActiveIdlePower(hosts) == Copies(ActiveHosts(hosts), idle)
    ensures ActiveMaxPower(hosts) == Copies(ActiveHosts(hosts), max)
  {
    if hosts != [] {
      UniformCopies(hosts[..|hosts| - 1], idle, max);
    }
  }

  /** On a pool of hosts sharing one idle and one maximum draw, the bounds are per active host. */
  lemma {:induction false} UniformBounds(hosts: seq<Host>, idle: real, max: real)
    requires forall j :: 0 <= j < |hosts| ==> hosts[j].idle == idle && hosts[j].max == max
    ensures ActiveIdlePower(hosts) == idle * ActiveHosts(hosts) as real
    ensures ActiveMaxPower(hosts) == max * ActiveHosts(hosts) as real
  {
    UniformCopies(hosts, idle, max);
    CopiesIsProduct(ActiveHosts(hosts), idle);
    CopiesIsProduct(ActiveHosts(hosts), max);
  }

  /** With positive idle draws, the pool draws no power exactly when no host is active. */
  lemma {:induction false} NoPowerIffNoActiveHost(hosts: seq<Host>)
    requires Sound(hosts)
    requires forall j :: 0 <= j < |hosts| ==> hosts[j].idle > 0.0
    ensures PositiveCapacities(hosts)
    ensures TotalPower(hosts) >= 0.0
    ensures TotalPower(hosts) == 0.0 <==> ActiveHosts(hosts) == 0
  {
    if hosts != [] {
      var init := hosts[..|hosts| - 1];
      NoPowerIffNoActiveHost(init);
      hosts[|hosts| - 1].PowerInRange();
    }
  }

  /** The demand list of every pool entry, in pool order. */
  ghost function Demands(hosts: seq<Host>): (d: seq<seq<real>>)
    reads hosts
    ensures |d| == |hosts| && forall j :: 0 <= j < |hosts| ==> d[j] == hosts[j].vms
  {
    if hosts == [] then [] else Demands(hosts[..|hosts| - 1]) + [hosts[|hosts| - 1].vms]
  }

  /** Whether `vm` fits on entry `j` were the pool's demand lists `pool`. */
  predicate FitsAt(hosts: seq<Host>, pool: seq<seq<real>>, j: nat, vm: real)
    requires j < |hosts| && j < |pool|
  {
    Sum(pool[j]) + vm <= hosts[j].capacity
  }

  /**
   * Marginal power of `vm` on entry `j` were the pool's demand lists `pool`,
   * in closed form: the added utilization, plus the idle draw when the
   * entry's list is empty.
   */
  function IncreaseAt(hosts: seq<Host>, pool: seq<seq<real>>, j: nat, vm: real): real
    requires j < |hosts| && j < |pool| && hosts[j].capacity > 0.0
  {
    var h := hosts[j];
    (if pool[j] == [] then h.idle else 0.0) + LoadCost(h.capacity, h.idle, h.max, vm)
  }

  /**
   * Entry `k` is the host `strategy` picks for `vm` on a pool whose demand
   * lists are `pool`: it can take `vm` and, under first-fit, no earlier
   * entry can; under energy-aware, no entry that can take `vm` costs less
   * and every earlier one that can costs strictly more.
   */
  ghost predicate IsChoice(strategy: Strategy, hosts: seq<Host>, pool: seq<seq<real>>, vm: real, k: nat)
    requires |pool| == |hosts| && PositiveCapacities(hosts)
  {
    k < |hosts| && FitsAt(hosts, pool, k, vm) &&
    match strategy
    case FirstFitStrategy =>
      forall j :: 0 <= j < k ==> !FitsAt(hosts, pool, j, vm)
    case EnergyAwareStrategy =>
      (forall j :: 0 <= j < |hosts| && FitsAt(hosts, pool, j, vm) ==>
         IncreaseAt(hosts, pool, k, vm) <= IncreaseAt(hosts, pool, j, vm)) &&
      (forall j :: 0 <= j < k && FitsAt(hosts, pool, j, vm) ==>
         IncreaseAt(hosts, pool, k, vm) < IncreaseAt(hosts, pool, j, vm))
  }

  /** The choice rule picks at most one entry. */
  lemma ChoiceIsUnique(strategy: Strategy, hosts: seq<Host>, pool: seq<seq<real>>, vm: real, k: nat, k': nat)
    requires |pool| == |hosts| && PositiveCapacities(hosts)
    requires IsChoice(strategy, hosts, pool, vm, k) && IsChoice(strategy, hosts, pool, vm, k')
    ensures k == k'
  {
  }

  /** The host `strategy` picks for `vm` on the pool as it stands, if any. */
  function Choice(strategy: Strategy, hosts: seq<Host>, vm: real): Option<nat>
    reads hosts
    requires PositiveCapacities(hosts)
  {
    match strategy
    case FirstFitStrategy => FirstEligible(hosts, vm)
    case EnergyAwareStrategy => LeastIncreaseAmong(hosts, vm, |hosts|)
  }

  /** On a pool's own demand lists, the value-level fit test is the host's `CanHost`. */
  lemma FitsAtIsCanHost(hosts: seq<Host>, vm: real)
    ensures forall j :: 0 <= j < |hosts| ==> (FitsAt(hosts, Demands(hosts), j, vm) <==> hosts[j].CanHost(vm))
  {
  }

  /** First-fit's selection function follows the first-fit rule, and picks nothing exactly when no entry can take `vm`. */
  lemma FirstFitFollowsRule(hosts: seq<Host>, vm: real)
    requires PositiveCapacities(hosts)
    ensures FirstEligible(hosts, vm).None? ==>
      forall j :: 0 <= j < |hosts| ==> !FitsAt(hosts, Demands(hosts), j, vm)
    ensures (forall j :: 0 <= j < |hosts| ==> !FitsAt(hosts, Demands(hosts), j, vm)) ==>
      FirstEligible(hosts, vm).None?
    ensures FirstEligible(hosts, vm).Some? ==>
      IsChoice(FirstFitStrategy, hosts, Demands(hosts), vm, FirstEligible(hosts, vm).value)
  {
    var pool, f := Demands(hosts), FirstEligible(hosts, vm);
    FitsAtIsCanHost(hosts, vm);
    if f.Some? {
      var k := f.value;
      assert FitsAt(hosts, pool, k, vm);
      assert forall j :: 0 <= j < k ==> !FitsAt(hosts, pool, j, vm);
    }
  }

  /** The energy-aware scan's choice follows the energy-aware rule, and is none exactly when no entry can take `vm`. */
  lemma EnergyAwareFollowsRule(hosts: seq<Host>, vm: real)
    requires PositiveCapacities(hosts)
    ensures LeastIncreaseAmong(hosts, vm, |hosts|).None? ==>
      forall j :: 0 <= j < |hosts| ==> !FitsAt(hosts, Demands(hosts), j, vm)
    ensures (forall j :: 0 <= j < |hosts| ==> !FitsAt(hosts, Demands(hosts), j, vm)) ==>
      LeastIncreaseAmong(hosts, vm, |hosts|).None?
    ensures LeastIncreaseAmong(hosts, vm, |hosts|).Some? ==>
      IsChoice(EnergyAwareStrategy, hosts, Demands(hosts), vm, LeastIncreaseAmong(hosts, vm, |hosts|).value)
  {
    var pool, b := Demands(hosts), LeastIncreaseAmong(hosts, vm, |hosts|);
    FitsAtIsCanHost(hosts, vm);
    forall j | 0 <= j < |hosts|
      ensures hosts[j].Increase(vm) == IncreaseAt(hosts, pool, j, vm)
    {
      hosts[j].IncreaseFormula(vm);
    }
    if b.Some? {
      var k := b.value;
      assert IsLeastIncrease(hosts, vm, |hosts|, k);
      assert forall j :: 0 <= j < |hosts| && FitsAt(hosts, pool, j, vm) ==>
        IncreaseAt(hosts, pool, k, vm) <= IncreaseAt(hosts, pool, j, vm);
      assert forall j :: 0 <= j < k && FitsAt(hosts, pool, j, vm) ==>
        IncreaseAt(hosts, pool, k, vm) < IncreaseAt(hosts, pool, j, vm);
    }
  }

  /**
   * Each strategy's selection function follows the choice rule on the
   * pool's demand lists, and picks nothing exactly when no entry can take `vm`.
   */
  lemma ChoiceFollowsRule(strategy: Strategy, hosts: seq<Host>, vm: real)
    requires PositiveCapacities(hosts)
    ensures Choice(strategy, hosts, vm).None? ==>
      forall j :: 0 <= j < |hosts| ==> !FitsAt(hosts, Demands(hosts), j, vm)
    ensures (forall j :: 0 <= j < |hosts| ==> !FitsAt(hosts, Demands(hosts), j, vm)) ==>
      Choice(strategy, hosts, vm).None?
    ensures Choice(strategy, hosts, vm).Some? ==>
      IsChoice(strategy, hosts, Demands(hosts), vm, Choice(strategy, hosts, vm).value)
  {
    match strategy {
      case FirstFitStrategy => FirstFitFollowsRule(hosts, vm);
      case EnergyAwareStrategy => EnergyAwareFollowsRule(hosts, vm);
    }
  }

  /** Entry `k` (wherever its host occurs in the pool) got `vm` appended; every other entry kept its list. */
  ghost predicate AppendedOn(hosts: seq<Host>, before: seq<seq<real>>, after: seq<seq<real>>, vm: real, k: nat)
    requires k < |hosts| && |before| == |hosts| && |after| == |hosts|
  {
    forall j :: 0 <= j < |hosts| ==>
      after[j] == if hosts[j] == hosts[k] then before[j] + [vm] else before[j]
  }

  /**
   * One placement step on the pool's demand lists: when `ok`, `vm` is
   * appended to the entry the strategy's rule picks and to no other;
   * otherwise no entry can take `vm` and no list changed.
   */
  ghost predicate Step(strategy: Strategy, hosts: seq<Host>, before: seq<seq<real>>, after: seq<seq<real>>,
                       vm: real, ok: bool)
  {
    |before| == |hosts| && |after| == |hosts| && PositiveCapacities(hosts) &&
    if ok then
      exists k: nat :: k < |hosts| && IsChoice(strategy, hosts, before, vm, k) && AppendedOn(hosts, before, after, vm, k)
    else
      after == before && forall j :: 0 <= j < |hosts| ==> !FitsAt(hosts, before, j, vm)
  }

  /** Appending at the same entry gives the same lists. */
  lemma AppendedOnIsUnique(hosts: seq<Host>, before: seq<seq<real>>, after: seq<seq<real>>,
                           after': seq<seq<real>>, vm: real, k: nat)
    requires k < |hosts| && |before| == |hosts| && |after| == |hosts| && |after'| == |hosts|
    requires AppendedOn(hosts, before, after, vm, k) && AppendedOn(hosts, before, after', vm, k)
    ensures after == after'
  {
    assert forall j :: 0 <= j < |hosts| ==> after[j] == after'[j];
  }

  /** A step is determined by the strategy, the pool and the demand. */
  lemma StepIsDeterministic(strategy: Strategy, hosts: seq<Host>, before: seq<seq<real>>,
                            after: seq<seq<real>>, after': seq<seq<real>>, vm: real, ok: bool, ok': bool)
    requires Step(strategy, hosts, before, after, vm, ok) && Step(strategy, hosts, before, after', vm, ok')
    ensures ok == ok' && after == after'
  {
    if ok && ok' {
      var k: nat :| k < |hosts| && IsChoice(strategy, hosts, before, vm, k) && AppendedOn(hosts, before, after, vm, k);
      var k': nat :| k' < |hosts| && IsChoice(strategy, hosts, before, vm, k') && AppendedOn(hosts, before, after', vm, k');
      ChoiceIsUnique(strategy, hosts, before, vm, k, k');
      AppendedOnIsUnique(hosts, before, after, after', vm, k);
    } else if ok || ok' {
      // one step placed the demand on an entry that can take it, the other found none
      assert false;
    }
  }

  /**
   * The shape of a step, without the choice rule: each entry keeps its list
   * or gets `vm` appended; a placed demand went to an entry that could take
   * it; a refused one changed nothing and fitted on no entry.
   */
  ghost predicate Extends(hosts: seq<Host>, before: seq<seq<real>>, after: seq<seq<real>>, vm: real, ok: bool)
  {
    |before| == |hosts| && |after| == |hosts| &&
    (ok ==> exists k: nat :: k < |hosts| && FitsAt(hosts, before, k, vm) && AppendedOn(hosts, before, after, vm, k)) &&
    (!ok ==> after == before && forall j :: 0 <= j < |hosts| ==> !FitsAt(hosts, before, j, vm))
  }

  /** Every step has that shape. */
  lemma StepShape(strategy: Strategy, hosts: seq<Host>, before: seq<seq<real>>, after: seq<seq<real>>,
                  vm: real, ok: bool)
    requires Step(strategy, hosts, before, after, vm, ok)
    ensures Extends(hosts, before, after, vm, ok)
  {
    if ok {
      var k: nat :| k < |hosts| && IsChoice(strategy, hosts, before, vm, k) && AppendedOn(hosts, before, after, vm, k);
      assert FitsAt(hosts, before, k, vm);
    }
  }

  /**
   * Every list of `pool` extends the entry's list in `initial`, and every
   * demand beyond that is one of the demands offered so far that was placed.
   */
  ghost predicate Grown(initial: seq<seq<real>>, pool: seq<seq<real>>, offered: seq<real>, placed: seq<bool>)
  {
    |initial| == |pool| && |placed| <= |offered| &&
    forall j :: 0 <= j < |pool| ==>
      initial[j] <= pool[j] &&
      forall m :: |initial[j]| <= m < |pool[j]| ==>
        exists k :: 0 <= k < |placed| && placed[k] && pool[j][m] == offered[k]
  }

  /**
   * What the run knows about the first |placed| demands offered: each placed
   * one sits on some entry, and each refused one fits on no entry.
   */
  ghost predicate Outcomes(hosts: seq<Host>, pool: seq<seq<real>>, offered: seq<real>, placed: seq<bool>)
    requires |pool| == |hosts|
  {
    |placed| <= |offered| &&
    (forall k :: 0 <= k < |placed| && placed[k] ==> exists j :: 0 <= j < |pool| && offered[k] in pool[j]) &&
    (forall k :: 0 <= k < |placed| && !placed[k] ==>
       forall j :: 0 <= j < |pool| ==> !FitsAt(hosts, pool, j, offered[k]))
  }

  /** A step only extends the lists, each by `vm` at most, and never lowers a sum of non-negative growth. */
  lemma StepGrowsLists(hosts: seq<Host>, before: seq<seq<real>>, after: seq<seq<real>>, vm: real, ok: bool)
    requires vm >= 0.0 && Extends(hosts, before, after, vm, ok)
    ensures forall j :: 0 <= j < |before| ==> after[j] == before[j] || (ok && after[j] == before[j] + [vm])
    ensures forall j :: 0 <= j < |before| ==> before[j] <= after[j] && Sum(before[j]) <= Sum(after[j])
  {
    forall j | 0 <= j < |before|
      ensures after[j] == before[j] || (ok && after[j] == before[j] + [vm])
      ensures before[j] <= after[j] && Sum(before[j]) <= Sum(after[j])
    {
      SumAppend(before[j], vm);
    }
  }

  /** A step keeps every list an extension of the initial one by placed demands only, this one included. */
  lemma StepKeepsGrown(hosts: seq<Host>, initial: seq<seq<real>>, before: seq<seq<real>>, after: seq<seq<real>>,
                       offered: seq<real>, placed: seq<bool>, vm: real, ok: bool)
    requires vm >= 0.0 && Extends(hosts, before, after, vm, ok)
    requires Grown(initial, before, offered, placed)
    requires |placed| < |offered| && offered[|placed|] == vm
    ensures Grown(initial, after, offered, placed + [ok])
  {
    var placed' := placed + [ok];
    StepGrowsLists(hosts, before, after, vm, ok);
    forall j, m | 0 <= j < |after| && |initial[j]| <= m < |after[j]|
      ensures exists k :: 0 <= k < |placed'| && placed'[k] && after[j][m] == offered[k]
    {
      if m < |before[j]| {
        var k :| 0 <= k < |placed| && placed[k] && before[j][m] == offered[k];
        assert placed'[k] && after[j][m] == offered[k];
      } else {
        assert placed'[|placed|] && after[j][m] == offered[|placed|];
      }
    }
  }

  /** A step keeps every placed demand on some entry, this one included when placed. */
  lemma StepKeepsPlaced(hosts: seq<Host>, before: seq<seq<real>>, after: seq<seq<real>>,
                        offered: seq<real>, placed: seq<bool>, vm: real, ok: bool)
    requires Extends(hosts, before, after, vm, ok)
    requires |placed| < |offered| && offered[|placed|] == vm
    requires forall k :: 0 <= k < |placed| && placed[k] ==> exists j :: 0 <= j < |before| && offered[k] in before[j]
    ensures forall k :: 0 <= k < |placed| + 1 && (placed + [ok])[k] ==>
      exists j :: 0 <= j < |after| && offered[k] in after[j]
  {
    forall k | 0 <= k < |placed| && placed[k]
      ensures exists j :: 0 <= j < |after| && offered[k] in after[j]
    {
      var j :| 0 <= j < |before| && offered[k] in before[j];
      assert after[j] == before[j] || after[j] == before[j] + [vm] by {
        if ok {
          var c: nat :| c < |hosts| && FitsAt(hosts, before, c, vm) && AppendedOn(hosts, before, after, vm, c);
        }
      }
    }
    if ok {
      var c: nat :| c < |hosts| && FitsAt(hosts, before, c, vm) && AppendedOn(hosts, before, after, vm, c);
      assert vm in after[c];
    }
  }

  /** A step keeps every refused demand unable to fit, this one included when refused. */
  lemma StepKeepsRefused(hosts: seq<Host>, before: seq<seq<real>>, after: seq<seq<real>>,
                         offered: seq<real>, placed: seq<bool>, vm: real, ok: bool)
    requires vm >= 0.0 && Extends(hosts, before, after, vm, ok)
    requires |placed| < |offered| && offered[|placed|] == vm
    requires forall k :: 0 <= k < |placed| && !placed[k] ==>
      forall j :: 0 <= j < |before| ==> !FitsAt(hosts, before, j, offered[k])
    ensures forall k :: 0 <= k < |placed| + 1 && !(placed + [ok])[k] ==>
      forall j :: 0 <= j < |after| ==> !FitsAt(hosts, after, j, offered[k])
  {
    var placed' := placed + [ok];
    StepGrowsLists(hosts, before, after, vm, ok);
    forall k, j | 0 <= k < |placed'| && !placed'[k] && 0 <= j < |after|
      ensures !FitsAt(hosts, after, j, offered[k])
    {
      assert !FitsAt(hosts, before, j, offered[k]);
    }
  }

  /** A step keeps what is known about earlier demands and adds this one's outcome. */
  lemma StepKeepsOutcomes(hosts: seq<Host>, before: seq<seq<real>>, after: seq<seq<real>>,
                          offered: seq<real>, placed: seq<bool>, vm: real, ok: bool)
    requires vm >= 0.0 && Extends(hosts, before, after, vm, ok)
    requires Outcomes(hosts, before, offered, placed)
    requires |placed| < |offered| && offered[|placed|] == vm
    ensures Outcomes(hosts, after, offered, placed + [ok])
  {
    StepKeepsPlaced(hosts, before, after, offered, placed, vm, ok);
    StepKeepsRefused(hosts, before, after, offered, placed, vm, ok);
  }

  /**
   * `pools` traces the run over the first |placed| demands offered: each
   * consecutive pair of demand lists is the strategy's step for that demand,
   * with its outcome.
   */
  ghost predicate IsTrace(strategy: Strategy, hosts: seq<Host>, pools: seq<seq<seq<real>>>,
                          offered: seq<real>, placed: seq<bool>)
  {
    |pools| == |placed| + 1 && |placed| <= |offered| &&
    forall i :: 0 <= i < |placed| ==> Step(strategy, hosts, pools[i], pools[i + 1], offered[i], placed[i])
  }

  /** A trace grows by the step for the next demand offered. */
  lemma TraceExtends(strategy: Strategy, hosts: seq<Host>, pools: seq<seq<seq<real>>>,
                     offered: seq<real>, placed: seq<bool>, next: seq<seq<real>>, ok: bool)
    requires IsTrace(strategy, hosts, pools, offered, placed) && |placed| < |offered|
    requires Step(strategy, hosts, pools[|placed|], next, offered[|placed|], ok)
    ensures IsTrace(strategy, hosts, pools + [next], offered, placed + [ok])
  {
    var pools', placed' := pools + [next], placed + [ok];
    forall i | 0 <= i < |placed'|
      ensures Step(strategy, hosts, pools'[i], pools'[i + 1], offered[i], placed'[i])
    {
      assert pools'[i] == pools[i] && placed'[i] == if i < |placed| then placed[i] else ok;
      assert pools'[i + 1] == if i < |placed| then pools[i + 1] else next;
    }
  }

  /** Some entry of the pool carries a demand. */
  ghost predicate SomeActive(pool: seq<seq<real>>)
  {
    exists j :: 0 <= j < |pool| && pool[j] != []
  }

  /**
   * A step leaves some entry loaded when one was loaded before, or when the
   * first entry has room for the demand on its own.
   */
  lemma StepKeepsActive(hosts: seq<Host>, before: seq<seq<real>>, after: seq<seq<real>>, vm: real, ok: bool)
    requires Extends(hosts, before, after, vm, ok)
    ensures SomeActive(before) || (hosts != [] && vm <= hosts[0].capacity) ==> SomeActive(after)
  {
    if SomeActive(before) {
      var j :| 0 <= j < |before| && before[j] != [];
      assert after[j] != [];
    } else if hosts != [] && vm <= hosts[0].capacity {
      assert before[0] == [];
      assert FitsAt(hosts, before, 0, vm);
      var c: nat :| c < |hosts| && FitsAt(hosts, before, c, vm) && AppendedOn(hosts, before, after, vm, c);
      assert after[c] != [];
    }
  }

  /** Apply one strategy to one demand, as the run does for each demand in turn. */
  method Place(strategy: Strategy, hosts: seq<Host>, vm: real) returns (placed: bool)
    requires PositiveCapacities(hosts)
    modifies hosts
    ensures placed <==> exists j :: 0 <= j < |hosts| && old(hosts[j].CanHost(vm))
    ensures placed ==> exists k :: 0 <= k < |hosts| && AppendedAt(hosts, vm, k)
    ensures placed && strategy.FirstFitStrategy? ==>
      AppendedAt(hosts, vm, old(FirstEligible(hosts, vm)).value)
    ensures placed && strategy.EnergyAwareStrategy? ==>
      AppendedAt(hosts, vm, old(LeastIncreaseAmong(hosts, vm, |hosts|)).value)
    ensures !placed ==> Unchanged(hosts)
    ensures old(AllWithinCapacity(hosts)) ==> AllWithinCapacity(hosts)
    ensures old(Sound(hosts)) && vm >= 0.0 ==> Sound(hosts)
  {
    match strategy {
      case FirstFitStrategy =>
        placed := FirstFit(hosts, vm);
      case EnergyAwareStrategy =>
        placed := EnergyAware(hosts, vm);
    }
    if old(Sound(hosts)) && vm >= 0.0 {
      forall j | 0 <= j < |hosts| ensures hosts[j].WellFormed() {
        hosts[j].GrowKeepsWellFormed(vm);
      }
    }
  }

  /** Decimal representation of a natural number. */
  function Decimal(n: nat): string
  {
    if n < 10 then ["0123456789"[n]] else Decimal(n / 10) + ["0123456789"[n % 10]]
  }

  /** Name of the pool's i-th host. */
  function HostName(i: nat): string
  {
    "H" + Decimal(i)
  }

  /** A fresh pool of `count` empty hosts with the default parameters. */
  method NewPool(count: nat) returns (hosts: seq<Host>)
    ensures |hosts| == count
    ensures forall j :: 0 <= j < count ==> fresh(hosts[j])
    ensures forall j :: 0 <= j < count ==>
      hosts[j].name == HostName(j) && hosts[j].vms == [] &&
      hosts[j].capacity == DefaultCapacity &&
      hosts[j].idle == DefaultIdlePower && hosts[j].max == DefaultMaxPower
  {
    hosts := [];
    for i := 0 to count
      invariant |hosts| == i
      invariant forall j :: 0 <= j < i ==> fresh(hosts[j])
      invariant forall j :: 0 <= j < i ==>
        hosts[j].name == HostName(j) && hosts[j].vms == [] &&
        hosts[j].capacity == DefaultCapacity &&
        hosts[j].idle == DefaultIdlePower && hosts[j].max == DefaultMaxPower
    {
      var h := new Host(HostName(i), DefaultCapacity, DefaultIdlePower, DefaultMaxPower);
      hosts := hosts + [h];
    }
  }

  /**
   * What the run knows after the first |placed| demands, on its trace: the
   * trace starts at `initial`, every list of its last pool grew from the
   * initial one by placed demands only, each placed demand sits on some
   * entry and each refused one fits on none, and once a demand the first
   * host could hold on its own was offered, some entry is loaded.
   */
  ghost predicate RunSoFar(strategy: Strategy, hosts: seq<Host>, initial: seq<seq<real>>,
                           pools: seq<seq<seq<real>>>, offered: seq<real>, placed: seq<bool>)
  {
    IsTrace(strategy, hosts, pools, offered, placed) && pools[0] == initial && |initial| == |hosts| &&
    Grown(initial, pools[|placed|], offered, placed) &&
    |pools[|placed|]| == |hosts| && Outcomes(hosts, pools[|placed|], offered, placed) &&
    (hosts != [] && (exists k :: 0 <= k < |placed| && offered[k] <= hosts[0].capacity) ==>
       SomeActive(pools[|placed|]))
  }

  /** The run's record carries over a step with the next, non-negative, demand. */
  lemma RunStep(strategy: Strategy, hosts: seq<Host>, initial: seq<seq<real>>, pools: seq<seq<seq<real>>>,
                offered: seq<real>, placed: seq<bool>, next: seq<seq<real>>, ok: bool)
    requires RunSoFar(strategy, hosts, initial, pools, offered, placed)
    requires |placed| < |offered| && offered[|placed|] >= 0.0
    requires Step(strategy, hosts, pools[|placed|], next, offered[|placed|], ok)
    ensures RunSoFar(strategy, hosts, initial, pools + [next], offered, placed + [ok])
  {
    var before, vm := pools[|placed|], offered[|placed|];
    StepShape(strategy, hosts, before, next, vm, ok);
    StepKeepsGrown(hosts, initial, before, next, offered, placed, vm, ok);
    StepKeepsOutcomes(hosts, before, next, offered, placed, vm, ok);
    StepKeepsActive(hosts, before, next, vm, ok);
    TraceExtends(strategy, hosts, pools, offered, placed, next, ok);
    assert (pools + [next])[|placed| + 1] == next;
  }

  /**
   * One step of the run, stated on the pool's demand lists: the strategy's
   * rule decides where the demand goes, and the pool stays sound.
   */
  method PlaceNext(strategy: Strategy, hosts: seq<Host>, vm: real) returns (ok: bool)
    requires Sound(hosts) && vm >= 0.0
    modifies hosts
    ensures Sound(hosts)
    ensures Step(strategy, hosts, old(Demands(hosts)), Demands(hosts), vm, ok)
  {
    ghost var before := Demands(hosts);
    ghost var choice := Choice(strategy, hosts, vm);
    ChoiceFollowsRule(strategy, hosts, vm);
    ok := Place(strategy, hosts, vm);
    ghost var after := Demands(hosts);
    if ok {
      ghost var k := choice.value;
      assert AppendedAt(hosts, vm, k);
      forall j | 0 <= j < |hosts|
        ensures after[j] == if hosts[j] == hosts[k] then before[j] + [vm] else before[j]
      {
        assert after[j] == hosts[j].vms && before[j] == old(hosts[j].vms);
      }
      assert AppendedOn(hosts, before, after, vm, k);
    } else {
      assert after == before;
    }
  }

  /**
   * Place every demand in order with one strategy and report, per demand,
   * whether it was placed. The ghost trace `pools` holds the pool's demand
   * lists before each demand and at the end; each consecutive pair is the
   * strategy's step for that demand. Every list only grows by placed
   * demands; each placed demand sits on some entry and each refused one
   * fits on no entry of the final pool. Sound hosts stay sound, and once a
   * demand the first host could hold on its own was offered, some host is
   * active.
   */
  method PlaceAll(strategy: Strategy, hosts: seq<Host>, demands: seq<real>)
    returns (placed: seq<bool>, ghost pools: seq<seq<seq<real>>>)
    requires Sound(hosts)
    requires forall i :: 0 <= i < |demands| ==> 0.0 <= demands[i]
    modifies hosts
    ensures |placed| == |demands| && IsTrace(strategy, hosts, pools, demands, placed)
    ensures pools[0] == old(Demands(hosts)) && pools[|demands|] == Demands(hosts)
    ensures Grown(old(Demands(hosts)), Demands(hosts), demands, placed)
    ensures Outcomes(hosts, Demands(hosts), demands, placed)
    ensures Sound(hosts)
    ensures hosts != [] && (exists i :: 0 <= i < |demands| && demands[i] <= hosts[0].capacity) ==>
      SomeActive(Demands(hosts))
  {
    ghost var initial := Demands(hosts);
    placed, pools := [], [initial];
    for i := 0 to |demands|
      invariant Sound(hosts)
      invariant |placed| == i && RunSoFar(strategy, hosts, initial, pools, demands, placed)
      invariant pools[i] == Demands(hosts)
    {
      var ok := PlaceNext(strategy, hosts, demands[i]);
      RunStep(strategy, hosts, initial, pools, demands, placed, Demands(hosts), ok);
      placed, pools := placed + [ok], pools + [Demands(hosts)];
    }
  }

  /**
   * One run: place every demand in order on a fresh default pool, then report
   * the pool's total power and active host count.
   */
  method Simulate(strategy: Strategy, runLabel: string, demands: seq<real>) returns (r: Report)
    requires |demands| == DemandCount
    requires forall i :: 0 <= i < |demands| ==> DemandLow <= demands[i] <= DemandHigh
    ensures r.runLabel == runLabel
    ensures 1 <= r.activeHosts <= HostCount
    // 100 and 250 are the default idle and maximum draws of every host in the pool
    ensures 100.0 * r.activeHosts as real <= r.totalPower <= 250.0 * r.activeHosts as real
  {
    var hosts := NewPool(HostCount);
    assert demands[0] <= hosts[0].capacity;
    var placed, pools := PlaceAll(strategy, hosts, demands);
    TotalPowerBounds(hosts);
    UniformBounds(hosts, DefaultIdlePower, DefaultMaxPower);
    NoActiveHostIffAllEmpty(hosts);
    r := Report(runLabel, TotalPower(hosts), ActiveHosts(hosts));
  }
}
