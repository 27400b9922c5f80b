# Two agent simulations on mesa, modelled in Dafny

This project models the simulation core of two small mesa programs:

- **game_of_life**: Conway's Game of Life on a torus. Every `Cell` counts its
  live Moore neighbours and stages its next state (`step`). It then commits
  that state (`advance`). `GoLGrid` builds one cell per coordinate, seeds each
  cell alive when its draw `random() < 0.1` succeeds, and advances all cells
  under simultaneous activation: `step` on every cell, then `advance` on
  every cell.
- **covid-sim**: an SIR epidemic on a contact graph. A `VirusAgent` is
  Susceptible, Infected or Resistant. An Infected agent tries to infect each
  Susceptible neighbour. Every agent may then check itself: an Infected agent
  that checks may recover to Susceptible and may then gain resistance.
  `Network` creates one agent per node and infects a sample of nodes. Each
  tick it steps the agents in random order and records how many agents are in
  each state.

Modules, one per source file, plus four that stand for no single source file:

| module | file | models |
|---|---|---|
| `Common` | common.dfy | `Option`, `Distinct`, `Bounded` (shared helpers) |
| `Oracle` | oracle.dfy | the model's random source (`Model.random`) |
| `Life` | life.dfy | the life rule, the toroidal neighbourhood and the next generation, as pure functions |
| `LifeCell` | life_cell.dfy | game_of_life/helper/cell.py |
| `LifeGrid` | life_grid.dfy | game_of_life/helper/model.py |
| `SirState` | sir_state.dfy | covid-sim/helper/state.py |
| `Sir` | sir.dfy | the agent and tick rules of covid-sim as pure functions over all agents' states |
| `VirusAgents` | virus_agent.dfy | covid-sim/helper/agent.py |
| `CovidModel` | covid_model.dfy | covid-sim/helper/model.py |

Randomness is an input. The random source is a stream `outcome: nat -> bool`
with a cursor `drawn`. Each comparison `random() < p` consumes the next
outcome. The shuffle of random activation becomes an `order` argument that
must be a permutation of the nodes. `random.sample` becomes a sequence of
distinct nodes. The Erdős–Rényi graph becomes neighbour lists on nodes
`0..n-1`, with no self-loops, no repeated neighbours, and every edge recorded
at both ends.

The classes mutate in place, as the Python does. `Cell` and `VirusAgent`
have the source's fields, with the `model` back-reference passed to their
methods instead. `GoLGrid` and `Network` hold the source's state in this form:

- **`GoLGrid`:** mesa's `grid` is the `cells` array, and its extents are
  `height` and `width`. The simultaneous `schedule` is `agents`, the cells in
  insertion order.
- **`Network`:** the inherited `random` is `rng`. The `NetworkGrid` and the
  `RandomActivation` schedule together are `agents`, with the agent on node k
  at position k. The `datacollector`'s table is `history`. `G` is `graph`.

Their methods are proved equal to the pure functions: `GoLGrid.Step` yields `NextGen` of the
old generation, and `Network.Step` yields `Tick` of the old states. The
properties are lemmas about those functions.

Two details of mesa shape the model:

- **Grid extents.** mesa's `Grid` takes `(width, height)`, and `GoLGrid`
  passes `height` first. So the first coordinate x ranges over `height`
  values and y over `width` (`cells.Length0 == height`). For the square
  default this makes no difference.
- **Neighbourhood.** The neighbourhood follows mesa's
  `get_neighborhood`: offsets with dy outer and dx inner, the centre skipped,
  each coordinate wrapped with `%`, and a coordinate already collected
  skipped. On a torus of at least 3 × 3 this gives exactly eight distinct
  neighbours (`Life.NeighbourhoodOnTorus`). On a narrower torus it gives
  fewer, and a torus one cell wide counts the centre itself. So "every cell
  has eight neighbours" holds only from 3 × 3 up.

## Model

| member | source | states |
|---|---|---|
| `Life.LifeRuleIsB3S23` | game_of_life/helper/cell.py:38-44 | on live/dead cells the staged state is Alive iff the cell has exactly 3 live neighbours, or is Alive with exactly 2; the result is always Alive or Dead |
| `Life.LifeRuleCases` | game_of_life/helper/cell.py:38-44 | Alive with fewer than 2 or more than 3 live neighbours stages Dead, with 2 or 3 stays Alive; a non-live cell with exactly 3 stages Alive and otherwise keeps its state |
| `Life.WrapIsMod` | game_of_life/helper/cell.py:28-30 | the wrap-around of a neighbour coordinate is Python's `%` on the grid extent |
| `Life.Neighbours` | game_of_life/helper/cell.py:28-30 | the neighbour coordinates lie on the grid, are pairwise distinct and number at most 8 |
| `Life.CountAlive` | game_of_life/helper/cell.py:36 | the number of live cells among some coordinates is at most their number, and 0 when none of them is alive |
| `Life.AliveBit` | game_of_life/helper/cell.py:36 | a cell contributes 1 to the live-neighbour sum iff it is alive, otherwise 0 |
| `Life.LifeRule` | game_of_life/helper/cell.py:38-44 | the staged state is the old state, Alive or Dead; it is Alive only with exactly 3 live neighbours, or with 2 when already Alive; an Alive cell becomes Dead only with fewer than 2 or more than 3 |
| `Life.LiveCount` | game_of_life/helper/cell.py:36 | the live-neighbour count lies in 0..8 |
| `Life.AroundDistinct` | game_of_life/helper/cell.py:28-30 | on a torus of at least 3 × 3 the eight wrapped offsets are pairwise distinct |
| `Life.NeighbourhoodOnTorus` | game_of_life/helper/cell.py:28-36 | on a torus of at least 3 × 3 the neighbourhood has exactly 8 cells; a cell is in it iff it is not the centre and is at most one step away in each coordinate, wrapping at the edges |
| `Life.LiveCountAround` | game_of_life/helper/cell.py:36 | on a torus of at least 3 × 3 the live-neighbour count is the sum over the eight wrapped offsets |
| `Life.NextGen` | game_of_life/helper/model.py:30-34 | the next generation has the same extents as the current one |
| `Life.IsolatedCellDies` | game_of_life/helper/cell.py:39-41 | a live cell with no live neighbour is Dead in the next generation |
| `Life.BlockLiveCounts` | game_of_life/helper/cell.py:36 | on an otherwise dead torus of at least 3 × 3 holding a 2 × 2 block, each block cell has exactly 3 live neighbours and no other cell has exactly 3 |
| `Life.BlockCellKeeps` | game_of_life/helper/cell.py:38-44 | on an otherwise dead torus of at least 3 × 3 holding a 2 × 2 block, every cell keeps its state in the next generation |
| `Life.BlockIsStill` | game_of_life/helper/model.py:30-34 | a 2 × 2 block on an otherwise dead torus of at least 3 × 3 is unchanged by a step |
| `LifeCell.Cell.constructor` | game_of_life/helper/cell.py:12-19 | a new cell has the given coordinates and state (Dead by default) and nothing staged |
| `LifeCell.Cell.Step` | game_of_life/helper/cell.py:32-44 | stages the life rule applied to the cell's state and its live-neighbour count on the torus; writes only the cell's staged state, never any `state` |
| `LifeCell.Cell.Advance` | game_of_life/helper/cell.py:46-50 | sets `state` to the staged value and writes nothing else |
| `LifeCell.IsAliveAgrees` | game_of_life/helper/cell.py:21-26 | a cell's `is_alive` (`Cell.IsAlive`) holds iff the generation read off the cells has Alive at its coordinate, so the live count sums exactly the neighbours' `is_alive` |
| `LifeCell.Snapshot` | game_of_life/helper/cell.py:36 | the generation read off the cells has the grid's extents and each cell's state at its coordinate |
| `LifeGrid.GoLGrid.constructor` | game_of_life/helper/model.py:11-28 | one cell per coordinate with matching (x, y); a cell is Alive iff its draw (taken in coordinate order) succeeds, otherwise Dead; one draw per cell; nothing staged; running is set |
| `LifeGrid.GoLGrid.StageAll` | game_of_life/helper/model.py:30-34 | after phase one every cell has staged its next-generation state and no cell's state has changed |
| `LifeGrid.GoLGrid.CommitAll` | game_of_life/helper/model.py:30-34 | after phase two every cell holds the state it staged |
| `LifeGrid.GoLGrid.SimultaneousStep` | game_of_life/helper/model.py:30-34 | whatever order the cells are visited in, the new generation is `NextGen` of the old one, and the grid invariant holds |
| `LifeGrid.GoLGrid.Step` | game_of_life/helper/model.py:30-34 | a step turns the generation into its next generation and keeps one cell per coordinate |
| `SirState.Code` | covid-sim/helper/state.py:5-7 | each state's enum value is at most 2 |
| `SirState.FromCode` | covid-sim/helper/state.py:5-7 | `State(c)` names a member exactly for c in 0..2 |
| `SirState.CodeRoundTrip` | covid-sim/helper/state.py:3-7 | mapping a state to its code and back gives the state; codes are at most 2 |
| `SirState.CodeInjective` | covid-sim/helper/state.py:5-7 | two states have the same code iff they are the same state |
| `SirState.FromCodeDefined` | covid-sim/helper/state.py:5-7 | exactly the codes 0, 1, 2 name a state, and each names the state whose code it is |
| `SirState.ThreeStates` | covid-sim/helper/state.py:3-7 | there are exactly three states |
| `Sir.CountState` | covid-sim/helper/model.py:14-15 | a state's count is at most the number of agents |
| `Sir.CountsPartition` | covid-sim/helper/model.py:14-24 | the Susceptible, Infected and Resistant counts add up to the number of agents |
| `Sir.CountUpdate` | covid-sim/helper/model.py:14-15 | overwriting one agent's state moves exactly that agent between counts |
| `Sir.CountMonotone` | covid-sim/helper/model.py:14-15 | if every agent in a state stays in it, that state's count does not decrease |
| `Sir.TallyOf` | covid-sim/helper/model.py:52-58 | a count record adds up to the number of agents |
| `Sir.ClampOutbreak` | covid-sim/helper/model.py:46 | the outbreak size is the smaller of the requested size and the number of nodes |
| `Sir.Outbreak` | covid-sim/helper/model.py:74-77 | one state per node: no node Resistant, and a node Infected iff it was sampled |
| `Sir.OutbreakCounts` | covid-sim/helper/model.py:74-77 | infecting a sample of k distinct nodes leaves exactly k Infected, n - k Susceptible and none Resistant |
| `Sir.SusceptibleAmong` | covid-sim/helper/agent.py:26-31 | the infection targets are exactly the neighbours that are Susceptible, without repeats |
| `Sir.InfectEach` | covid-sim/helper/agent.py:32-34 | the infection loop keeps every agent's state or makes it Infected, and changes no agent to anything else |
| `Sir.GainResistance` | covid-sim/helper/agent.py:36-38 | one draw; the state becomes Resistant iff the draw succeeds (or it already was), otherwise it is unchanged |
| `Sir.RemoveInfection` | covid-sim/helper/agent.py:40-48 | one or two draws; Infected iff the recovery draw fails; Resistant iff both the recovery and the resistance draw succeed |
| `Sir.CheckSituation` | covid-sim/helper/agent.py:50-54 | one to three draws; the state changes only for an Infected agent whose check draw succeeds; any other agent keeps its state and uses exactly one draw |
| `Sir.AgentStep` | covid-sim/helper/agent.py:56-59 | an agent's step keeps the number of agents and always takes at least the check draw |
| `Sir.Tick` | covid-sim/helper/model.py:89-91 | a tick keeps the number of agents and takes at least one draw per activated agent |
| `Sir.Run` | covid-sim/helper/model.py:94-96 | n ticks keep the number of agents and take at least n × num_nodes draws |
| `Sir.Records` | covid-sim/helper/model.py:92-96 | `run_model` collects one record per tick, and the i-th is the tally of the states after the first i + 1 ticks |
| `Sir.InfectEachEffect` | covid-sim/helper/agent.py:32-34 | the k-th target becomes Infected iff outcome d + k succeeds; no other agent changes |
| `Sir.InfectNeighbours` | covid-sim/helper/agent.py:25-34 | trying to infect neighbours changes only Susceptible neighbours, each to Infected iff its own draw succeeds |
| `Sir.CheckSituationCases` | covid-sim/helper/agent.py:36-54 | no check or a non-Infected agent: state unchanged; a failed recovery draw: Infected; a successful one: Resistant if the resistance draw succeeds, else Susceptible |
| `Sir.AgentStepTransitions` | covid-sim/helper/agent.py:56-59 | an agent's step only moves agents Susceptible to Infected or Infected to Susceptible or Resistant (so Resistant is absorbing and no agent jumps from Susceptible to Resistant); a non-Infected agent changes no one else |
| `Sir.TickKeepsResistant` | covid-sim/helper/model.py:89-92 | a tick keeps every Resistant agent Resistant |
| `Sir.TickCounts` | covid-sim/helper/model.py:89-92 | after a tick the counts still add up to the number of agents, and the Resistant count has not decreased |
| `Sir.SusceptibleToResistantInOneTick` | covid-sim/helper/agent.py:50-59 | under random activation a Susceptible agent can end one tick Resistant (infected by an earlier neighbour, then recovered with resistance in its own step) |
| `Oracle.Random.Below` | covid-sim/helper/agent.py:33 | a comparison `random() < p` yields the next outcome of the stream and consumes it |
| `VirusAgents.VirusAgent.constructor` | covid-sim/helper/agent.py:6-23 | the agent has the given id, initial state and parameters (the parameters are constants) |
| `VirusAgents.VirusAgent.TryToInfectNeighbors` | covid-sim/helper/agent.py:25-34 | the new states are `InfectEach` over the Susceptible neighbours; one draw is used per such neighbour |
| `VirusAgents.VirusAgent.TryGainResistance` | covid-sim/helper/agent.py:36-38 | one draw; the state becomes Resistant if it succeeds, otherwise it is unchanged |
| `VirusAgents.VirusAgent.TryRemoveInfection` | covid-sim/helper/agent.py:40-48 | the state becomes Infected on a failed draw; otherwise Susceptible, then Resistant if the next draw succeeds |
| `VirusAgents.VirusAgent.TryCheckSituation` | covid-sim/helper/agent.py:50-54 | the state changes only when the check draw succeeds and the agent is Infected |
| `VirusAgents.VirusAgent.Step` | covid-sim/helper/agent.py:56-59 | all agents' new states and the draws used are `AgentStep` of the old states |
| `VirusAgents.States` | covid-sim/helper/model.py:15 | the state of the agent on node k is at position k |
| `CovidModel.Network.constructor` | covid-sim/helper/model.py:31-81 | needs at least one node; one agent per node; exactly the sampled nodes are Infected and all others Susceptible; outbreak size clamped; the history is one record (n - k, k, 0) |
| `CovidModel.Network.Step` | covid-sim/helper/model.py:89-92 | every agent steps once in the given order (the new states are `Tick` of the old ones), then exactly one record of the new counts is appended |
| `CovidModel.Network.RunModel` | covid-sim/helper/model.py:94-96 | the history becomes the old records followed by `Records`: one record per tick, the i-th the tally after the first i + 1 ticks; the states are `Run` of the old states |
| `CovidModel.Network.ResistantSusceptibleRatio` | covid-sim/helper/model.py:83-87 | the infinity sentinel iff no agent is Susceptible; otherwise a non-negative value that times the Susceptible count gives the Resistant count |
| `CovidModel.Activate` | covid-sim/helper/model.py:91 | the scheduler's pass steps the agents in the given order, giving `Tick` of the old states |
| `CovidModel.CreateAgents` | covid-sim/helper/model.py:59-72 | one new Susceptible agent per node, agent k with id k and the model's parameters |
| `CovidModel.SeedOutbreak` | covid-sim/helper/model.py:74-77 | the sampled nodes' agents become Infected, the rest keep their state |
| `CovidModel.NumState` | covid-sim/helper/model.py:14-15 | a state's count is at most the number of agents |
| `CovidModel.NumSusceptible` | covid-sim/helper/model.py:17-18 | the Susceptible count is at most the number of agents (with the other two it adds up to `num_nodes`, see `NumStatesSum`) |
| `CovidModel.NumResistant` | covid-sim/helper/model.py:20-21 | the Resistant count is at most the number of agents |
| `CovidModel.NumInfected` | covid-sim/helper/model.py:23-24 | the Infected count is at most the number of agents |
| `CovidModel.Collect` | covid-sim/helper/model.py:52-58 | the data collector's record is the three counts of the current states |
| `CovidModel.NumStatesSum` | covid-sim/helper/model.py:14-24 | `num_susceptible + num_infected + num_resistant == num_nodes` |

`Network.Valid` is the invariant kept by construction, `Step` and
`RunModel`. It says there is one agent per node and the per-agent parameters
equal the model's. It says the last record is the current count, every
record adds up to `num_nodes`, and the Resistant count never decreases along
the history.

## Left out

- The web front-ends and visualisation (covid-sim/helper/server.py, game_of_life/helper/server.py, game_of_life/helper/visualize.py) are not part of this model. This includes the ratio's text formatting.
- The pseudo-random generator and the float probabilities are left out: each `random() < p` is an outcome of the input stream. So the model says nothing about how likely an outcome is. The per-agent probabilities are kept only as constant fields.
- Erdős–Rényi generation (networkx) is left out. The graph is an input, and `avg_node_degree` is not modelled. The edge probability `avg_node_degree / num_nodes` divides by `num_nodes`, so the source fails with `ZeroDivisionError` when `num_nodes` is 0. `Network.constructor` requires `numNodes > 0` in its place.
- CovidModel.Network.ResistantSusceptibleRatio: the ratio is an exact `real`, while the source divides two integers into a Python float. So `value × S == R` holds exactly only in the model; the source's value is the float nearest to R / S.
- CovidModel.Network.constructor: `numNodes` and `initialOutbreakSize` are natural numbers. In the source a negative `initial_outbreak_size`, or a negative `num_nodes` through the clamp, gives `random.sample` a negative size, which raises `ValueError`. That configuration error is not modelled.
- mesa's `RandomActivation` shuffle is the `order` argument. `random.sample` is the `sample` argument, which must hold distinct nodes. Both are inputs, not algorithms.
- mesa's `DataCollector` storage is left out; it is the `history` sequence of records. mesa's grid placement bookkeeping is left out; agents are indexed by node and cells are stored by coordinate.
- mesa's grid is not part of this model. The neighbourhood follows mesa's `get_neighborhood` as described above. `GoLGrid.Step` visits cells in schedule order, that is the order they were added. `GoLGrid.SimultaneousStep` states the result for any order that covers the grid.
- LifeCell.Cell.Advance: requires a staged state. The source would set `state` to `None` if `advance` ran before any `step`, which simultaneous activation never does.
- `running` is set to true and never read. The Python `model` back-references of agents and cells are method parameters here: `cells` for a cell, `population` and the neighbour list for an agent.
