# Energy-aware VM placement, modelled in Dafny

This project models the placement engine of a small energy-aware virtual
machine placement simulator (`energy_aware_vm.py`) and proves its contracts:

- **Host** (`host.dfy`, module `Hosts`): a physical machine with a capacity,
  an idle and a maximum power draw, and the list of demands placed on it.
  It is a `class` whose `vms` field the strategies update in place. Its pure
  reads are functions:
  - utilization: sum of demands divided by capacity;
  - the fit test;
  - power: zero when empty, otherwise linear between idle and maximum;
  - the marginal increase that placing one more demand would cost.
- **Strategies** (`placement.dfy`, module `Placement`): first-fit and
  energy-aware placement. Both are methods with loops over the pool that
  append the demand to at most one host. Each is proved against a
  specification function:
  - `FirstEligible`: the first host that can take the demand;
  - `LeastIncreaseAmong`: the host the energy-aware scan holds after each
    prefix of the pool, which is the earliest host with the least marginal
    increase.

  The frame is stated per pool entry by object identity, so a pool that
  lists the same host twice is modelled too.
- **Run** (`simulation.dfy`, module `Simulation`): a fresh pool of five
  default hosts. Each demand of a given sequence is placed with one
  strategy. Then the pool is folded into its total power and its number of
  active hosts. The bounds on that report are proved.
  - Each strategy's choice is also stated as a rule on the pool's demand
    lists (`IsChoice`), and both selection functions are proved to follow it.
  - The run returns a ghost trace of the demand lists. Each consecutive pair
    is one `Step`: the demand goes to the host the rule picks, or nowhere.
- **Scenarios** (`scenarios.dfy`, module `Scenarios`): small concrete pools
  with the outcome each strategy must produce, including a pool on which
  the two strategies choose different hosts.

The simulator's `float('inf')` / `None` "no host chosen yet" is an
`Option<nat>` index into the pool. Quantities are exact `real`s.

## Model

| member | source | states |
|---|---|---|
| Hosts.Sum | energy_aware_vm.py:17 | defines the total of a host's demands, in list order; its properties are stated by `SumAppend` and `SumNonNegative` |
| Hosts.SumAppend | energy_aware_vm.py:17 | appending a demand adds exactly that demand to the sum of a host's demands |
| Hosts.SumNonNegative | energy_aware_vm.py:17 | the sum of non-negative demands is non-negative |
| Hosts.Host.constructor | energy_aware_vm.py:9-14 | a new host has the given name, capacity, idle and maximum power, and no demands |
| Hosts.Host.Utilization | energy_aware_vm.py:16-18 | defines utilization as the sum of the host's demands over its capacity; its range is proved by `UtilizationInRange` |
| Hosts.Host.UtilizationInRange | energy_aware_vm.py:16-18 | an empty host has utilization 0; a well-formed host within capacity has utilization in [0, 1] |
| Hosts.Host.CanHost | energy_aware_vm.py:20-21 | defines the fit test: the current sum plus the demand is at most the capacity; its meaning is proved by `CanHostIffFits` |
| Hosts.Host.CanHostIffFits | energy_aware_vm.py:20-21 | a demand fits exactly when the host stays within capacity once the demand is appended |
| Hosts.Host.AppendKeepsWithinCapacity | energy_aware_vm.py:31-32 | appending a demand the host can take keeps the host within capacity |
| Hosts.Host.Power | energy_aware_vm.py:23-27 | defines power: 0 for an empty host, else idle plus (max - idle) times utilization; its range is proved by `PowerInRange` |
| Hosts.Host.PowerInRange | energy_aware_vm.py:23-27 | an empty host draws 0; a loaded, well-formed host within capacity draws between its idle and its maximum power |
| Hosts.Host.PowerWith | energy_aware_vm.py:41-43 | defines the power the scan computes as if the demand were appended, which always includes the idle draw; `AppendRaisesPower` relates it to `Power` after the append |
| Hosts.Host.Increase | energy_aware_vm.py:41-44 | defines the marginal increase as that power minus the current power; its closed form is proved by `IncreaseFormula` |
| Hosts.Host.GrowKeepsWellFormed | energy_aware_vm.py:32 | keeping its demands, or appending a non-negative demand, keeps a host well formed |
| Hosts.Host.AppendRaisesPower | energy_aware_vm.py:41-49 | after the demand is appended, the host draws exactly its previous power plus the marginal increase the scan computed |
| Hosts.Host.AppendDoesNotLowerPower | energy_aware_vm.py:23-27 | appending a non-negative demand to a loaded, well-formed host never lowers its power draw |
| Hosts.Host.IncreaseFormula | energy_aware_vm.py:41-44 | the marginal increase is (max - idle) * vm / capacity on a loaded host, and the idle draw plus that amount on an empty one |
| Placement.FirstEligible | energy_aware_vm.py:29-34 | no index exactly when no host can take the demand; otherwise an in-range index of a host that can take it, with every earlier host unable to |
| Placement.FirstFit | energy_aware_vm.py:29-34 | placed exactly when some host can take the demand; then the demand is appended to the first such host and every other entry keeps its demands; otherwise nothing changes; every host stays within capacity |
| Placement.LeastIncreaseAmong | energy_aware_vm.py:37-47 | over the first n hosts: no choice exactly when none can take the demand; otherwise an eligible host whose increase is at most every eligible host's and strictly below every earlier eligible host's |
| Placement.LeastIncreaseScan | energy_aware_vm.py:37-47 | the scan loop ends holding the earliest eligible host with the least marginal increase, or none when no host can take the demand |
| Placement.EnergyAware | energy_aware_vm.py:36-51 | placed exactly when some host can take the demand; then the demand is appended to the scan's choice alone; otherwise nothing changes; every host stays within capacity |
| Placement.Consolidation | energy_aware_vm.py:41-45 | on identical hosts with a positive idle draw, if a loaded host can take the demand then the energy-aware choice is a loaded host |
| Simulation.TotalPower | energy_aware_vm.py:60 | defines the total power as the sum of every host's power over the pool; bounded by `TotalPowerBounds` and `NoPowerIffNoActiveHost` |
| Simulation.ActiveHosts | energy_aware_vm.py:61 | the number of active hosts is at most the pool size |
| Simulation.NoActiveHostIffAllEmpty | energy_aware_vm.py:61 | no host is active exactly when every host is empty |
| Simulation.TotalPowerBounds | energy_aware_vm.py:60 | on a sound pool the total power lies between the summed idle draws and the summed maximum draws of the active hosts |
| Simulation.UniformBounds | energy_aware_vm.py:60-61 | on hosts sharing one idle and one maximum draw, those sums are that idle (maximum) draw times the active host count |
| Simulation.NoPowerIffNoActiveHost | energy_aware_vm.py:60-61 | with positive idle draws, total power is non-negative and is zero exactly when no host is active |
| Simulation.Place | energy_aware_vm.py:57-58 | one step of the run with either strategy: placed exactly when some host can take the demand; then the demand is appended to the first eligible host under first-fit and to the scan's choice under energy-aware, and to no other host; otherwise nothing changes; capacity and soundness of hosts are preserved |
| Simulation.ChoiceIsUnique | energy_aware_vm.py:29-51 | the choice rule on a pool's demand lists (first-fit: the first host that can take the demand; energy-aware: a host that can take it with the least marginal increase, the earliest on a tie) picks at most one host |
| Simulation.FirstFitFollowsRule | energy_aware_vm.py:29-34 | first-fit's selection picks no host exactly when no host can take the demand, and otherwise the host the first-fit rule picks |
| Simulation.EnergyAwareFollowsRule | energy_aware_vm.py:36-51 | the energy-aware scan picks no host exactly when no host can take the demand, and otherwise the host the energy-aware rule picks, with the increase in closed form |
| Simulation.ChoiceFollowsRule | energy_aware_vm.py:29-51 | for either strategy, its selection is none exactly when no host can take the demand, and otherwise the host its choice rule picks |
| Simulation.StepIsDeterministic | energy_aware_vm.py:57-58 | the outcome of a step and the demand lists it leaves are fixed by the strategy, the lists before it and the demand |
| Simulation.StepShape | energy_aware_vm.py:57-58 | a step either appends the demand to a host that could take it and to no other, or changes nothing when no host can take it |
| Simulation.StepKeepsGrown | energy_aware_vm.py:57-58 | after a step every demand list still extends the initial one, and each demand it gained was offered and placed, this one included |
| Simulation.StepKeepsPlaced | energy_aware_vm.py:57-58 | after a step every placed demand, this one included, still sits on some host |
| Simulation.StepKeepsRefused | energy_aware_vm.py:57-58 | after a step every refused demand, this one included, still fits on no host |
| Simulation.StepKeepsOutcomes | energy_aware_vm.py:57-58 | after a step the record of placed and refused demands holds for the new lists, with this demand's outcome added |
| Simulation.StepKeepsActive | energy_aware_vm.py:57-58 | after a step some host is loaded if one was before, or if the first host had room for the demand on its own |
| Simulation.TraceExtends | energy_aware_vm.py:57-58 | the trace of the run grows by the step for the next demand, in order |
| Simulation.RunStep | energy_aware_vm.py:57-58 | the whole record of the run (trace, growth by placed demands only, outcomes, an active host) carries over the step for the next non-negative demand |
| Simulation.PlaceNext | energy_aware_vm.py:57-58 | one step of the loop: the demand is appended to exactly the host the strategy's choice rule picks on the pool's demand lists, or nowhere when no host can take it; the pool stays sound |
| Simulation.NewPool | energy_aware_vm.py:54 | a pool of fresh, empty hosts named H0, H1, ... with the default capacity 1.0, idle draw 100 and maximum draw 250 |
| Simulation.PlaceAll | energy_aware_vm.py:57-58 | one outcome per demand and a trace of demand lists from the initial pool to the final one, each consecutive pair being the strategy's step for the next demand in order; each list only grows, by placed demands; each placed demand sits on some host and each refused one fits on none; the pool stays sound; some host is active once a demand the first host could hold on its own was offered |
| Simulation.Simulate | energy_aware_vm.py:53-64 | a run over 20 demands in [0.1, 0.5] reports its label, between 1 and 5 active hosts, and a total power between 100 and 250 watts per active host |
| Scenarios.OneHostTakesDemand | energy_aware_vm.py:23-27 | a default host given 0.3 has utilization 0.3 and draws 145 watts |
| Scenarios.OversizedDemandRefused | energy_aware_vm.py:29-51 | both strategies refuse a demand above the only host's capacity, and the host keeps drawing nothing |
| Scenarios.TieKeepsFirst | energy_aware_vm.py:45-47 | two empty default hosts both cost 130 watts for 0.2, and the scan keeps the first |
| Scenarios.TieGoesToFirstHost | energy_aware_vm.py:36-51 | energy-aware places 0.2 on the first of two empty default hosts and leaves the second empty |
| Scenarios.StrategiesChooseDifferently | energy_aware_vm.py:29-51 | next to a host carrying 0.2, first-fit picks the empty first host for 0.3 and energy-aware the loaded second one |
| Scenarios.LoadedPair | energy_aware_vm.py:29-34 | first-fit places 0.2 on the only host of a one-host pool |
| Scenarios.FirstFitWakesEmptyHost | energy_aware_vm.py:29-34 | on that pair first-fit wakes the empty first host: the pool ends as [0.3] and [0.2] |
| Scenarios.EnergyAwareJoinsLoadedHost | energy_aware_vm.py:36-51 | on the same pair energy-aware consolidates: the pool ends as [] and [0.2, 0.3] |

## Left out

- Random workload generation (energy_aware_vm.py:55). The demands are an input to `Simulate`: twenty values in [0.1, 0.5].
- Console output (energy_aware_vm.py:62, 80-84) and the matplotlib chart and file save (energy_aware_vm.py:6, 74-78). These are I/O and a foreign library.
- The module-level driver (energy_aware_vm.py:67-72) and its comparison of the two runs (line 81). The comparison depends on the random demands. It is not a property of the strategies, and the scenarios show a pool on which the two strategies differ.
- IEEE-754 floating point. Sums, divisions and the fit test use exact reals, so fits decided by rounding are not modelled. The larger consequence is in the energy-aware choice. In exact reals every loaded host with the same capacity and draws has the same increase, (max - idle) * vm / capacity (`Hosts.Host.IncreaseFormula`), so `Placement.LeastIncreaseAmong` and `Simulation.IsChoice` give that tie to the earliest eligible loaded host. The program computes `after - before` in binary64 (energy_aware_vm.py:41-44), where these increases differ by rounding, so among loaded hosts with equal parameters its pick at line 45 is decided by rounding, not by position. The choice between an empty and a loaded host (`Placement.Consolidation`) and the scenarios, whose increases differ by the idle draw, are not affected.
- The `float('inf')` sentinel and the truthiness test `if best_host:` are an `Option` value. A Python `Host` object is always truthy, so "a host was chosen" is exactly `Some`.
- Simulate: states bounds on the reported power rather than its exact value. The final pool is local to the run, so the exact figure is stated on the pool by `TotalPower` and `ActiveHosts`, and the bounds are proved through `TotalPowerBounds` and `UniformBounds`.
- Positive capacity. The source never checks a host's capacity. A host of capacity 0 fails the fit test `sum + vm <= capacity` (energy_aware_vm.py:21) for every positive demand, so both strategies skip it, its power is 0 without a division (line 25), and with positive demands the run completes and never chooses it. The division by zero happens only once such a host passes the fit test, that is for a demand <= 0 at the scan's estimate (line 42), or once it holds a demand, in utilization (line 18); the Python run then stops with an exception. With a negative capacity it computes on. The model nevertheless excludes every pool containing a host of capacity <= 0, for example a capacity-0 host next to a capacity-1 host offered 0.3, which the program handles without error. The model makes capacity > 0 a precondition of every member that divides by it, listed below, and every host the run builds has capacity 1.0.
- Hosts.Host.Utilization, Hosts.Host.Power, Hosts.Host.PowerWith, Hosts.Host.Increase: require capacity > 0, as above.
- Placement.LeastIncreaseAmong, Placement.LeastIncreaseScan, Placement.EnergyAware: require every host of the pool to have capacity > 0, as above.
- Simulation.Place, Simulation.TotalPower: require every host of the pool to have capacity > 0, as above; `Simulation.Sound` includes it.
- EnergyAware: the power drawn by the chosen host after the append is not part of its contract. It is stated per host by `Hosts.Host.AppendRaisesPower`.
