/** `Network` of covid-sim: agents on the nodes of a contact graph,
    activated in random order once per tick, with one count record kept per
    tick. */
module CovidModel {
  import opened Common
  import opened SirState
  import opened Sir
  import opened Oracle
  import opened VirusAgents

  /** A ratio that is infinite when its denominator is zero (`math.inf`). */
  datatype Ratio = Infinite | Finite(value: real)

  class Network {
    const numNodes: nat
    /** `G`: neighbour lists of nodes 0..numNodes-1, in the graph's order. */
    const graph: seq<seq<nat>>
    const initOutbreakSize: nat
    const virusSpreadProb: real
    const virusCheckFqy: real
    const recoveryProb: real
    const gainResistanceProb: real
    /** The model's random source. */
    const rng: Random
    /** The agent on node k is `agents[k]` (the grid), and the same agents
        make up the schedule. */
    var agents: seq<VirusAgent>
    /** The data collector's records, one per collection. */
    var history: seq<Tally>
    var running: bool

    ghost predicate Valid()
      reads this, agents
    {
      && numNodes > 0
      && IsGraph(graph, numNodes)
      && |agents| == numNodes && Indexed(agents)
      && (forall k :: 0 <= k < numNodes ==>
            && agents[k].virusSpreadProb == virusSpreadProb && agents[k].virusCheckFqy == virusCheckFqy
            && agents[k].recoveryProb == recoveryProb && agents[k].gainResistanceProb == gainResistanceProb)
      && |history| >= 1
      && history[|history| - 1] == TallyOf(States(agents))
      && (forall k :: 0 <= k < |history| ==>
            history[k].susceptible + history[k].infected + history[k].resistant == numNodes)
      && (forall k :: 0 < k < |history| ==> history[k - 1].resistant <= history[k].resistant)
    }

    /** Creates one Susceptible agent per node, infects the nodes of `sample`
        (the outcome of `random.sample`), and takes the first record.  The
        contact graph `graph` is the outcome of the random-graph generator. */
    constructor (rng: Random, graph: seq<seq<nat>>, sample: seq<nat>,
                 numNodes: nat := 10, initialOutbreakSize: nat := 2,
                 virusSpreadProb: real := 0.4, virusCheckFqy: real := 0.5,
                 recoveryProb: real := 0.3, gainResistanceProb: real := 0.3)
      requires numNodes > 0
      requires IsGraph(graph, numNodes)
      requires Distinct(sample) && Bounded(sample, numNodes)
      requires |sample| == ClampOutbreak(initialOutbreakSize, numNodes)
      ensures Valid() && running && this.rng == rng && this.graph == graph
      ensures this.numNodes == numNodes
      ensures initOutbreakSize == ClampOutbreak(initialOutbreakSize, numNodes)
      ensures forall k :: 0 <= k < numNodes ==> fresh(agents[k])
      ensures States(agents) == Outbreak(numNodes, sample)
      ensures history == [TallyOf(States(agents))]
      ensures history[0] == Tally(numNodes - initOutbreakSize, initOutbreakSize, 0)
    {
      this.numNodes := numNodes;
      this.graph := graph;
      this.rng := rng;
      initOutbreakSize := ClampOutbreak(initialOutbreakSize, numNodes);
      this.virusSpreadProb, this.virusCheckFqy := virusSpreadProb, virusCheckFqy;
      this.recoveryProb, this.gainResistanceProb := recoveryProb, gainResistanceProb;
      var population := CreateAgents(numNodes, virusSpreadProb, virusCheckFqy, recoveryProb, gainResistanceProb);
      SeedOutbreak(population, sample);
      agents := population;
      running := true;
      new;
      OutbreakCounts(numNodes, sample);
      history := [Collect(this)];
    }

    /** `step`: every agent steps once, in the order of the permutation
        `order` (the shuffle of random activation); then one record is
        appended. */
    method Step(order: seq<nat>)
      requires Valid() && IsPermutation(order, numNodes)
      modifies this`history, agents, rng`drawn
      ensures Valid() && agents == old(agents)
      ensures (States(agents), rng.drawn) == Tick(old(States(agents)), order, graph, rng.outcome, old(rng.drawn))
      ensures history == old(history) + [TallyOf(States(agents))]
    {
      ghost var s0, d0 := States(agents), rng.drawn;
      Activate(agents, graph, order, rng);
      TickCounts(s0, order, graph, rng.outcome, d0);
      history := history + [Collect(this)];
    }

    /** `run_model`: `nSteps` ticks, the i-th in the order `orders[i]`,
        each followed by its record. */
    method RunModel(nSteps: nat, orders: seq<seq<nat>>)
      requires Valid() && |orders| == nSteps
      requires forall i :: 0 <= i < nSteps ==> IsPermutation(orders[i], numNodes)
      modifies this`history, agents, rng`drawn
      ensures Valid() && agents == old(agents)
      ensures history == old(history) + Records(old(States(agents)), orders, graph, rng.outcome, old(rng.drawn))
      ensures (States(agents), rng.drawn) == Run(old(States(agents)), orders, graph, rng.outcome, old(rng.drawn))
    {
      ghost var s0, d0 := States(agents), rng.drawn;
      for i := 0 to nSteps
        invariant Valid() && agents == old(agents)
        invariant history == old(history) + Records(s0, orders[..i], graph, rng.outcome, d0)
        invariant (States(agents), rng.drawn) == Run(s0, orders[..i], graph, rng.outcome, d0)
      {
        Step(orders[i]);
        assert orders[..i + 1][..i] == orders[..i];
      }
      assert orders[..nSteps] == orders;
    }

    /** `resistant_susceptible_ratio`: R / S, or the infinity sentinel when
        no agent is Susceptible (also when none is Resistant). */
    function ResistantSusceptibleRatio(): (r: Ratio)
      reads this, agents
      ensures r.Infinite? <==> NumSusceptible(this) == 0
      ensures r.Finite? ==> r.value >= 0.0 && r.value * (NumSusceptible(this) as real) == NumResistant(this) as real
    {
      var resistant := NumState(this, Resistant);
      var susceptible := NumState(this, Susceptible);
      if susceptible == 0 then Infinite else Finite(resistant as real / susceptible as real)
    }
  }

  /** The scheduler's pass of one tick: `population[order[k]]` steps, for
      k = 0, 1, ... */
  method Activate(population: seq<VirusAgent>, graph: seq<seq<nat>>, order: seq<nat>, rng: Random)
    requires Indexed(population) && IsGraph(graph, |population|) && Bounded(order, |population|)
    modifies population, rng`drawn
    ensures (States(population), rng.drawn) == Tick(old(States(population)), order, graph, rng.outcome, old(rng.drawn))
  {
    ghost var s0, d0 := States(population), rng.drawn;
    for k := 0 to |order|
      invariant (States(population), rng.drawn) == Tick(s0, order[..k], graph, rng.outcome, d0)
    {
      var node := order[k];
      population[node].Step(population, graph[node], rng);
      assert order[..k + 1][..k] == order[..k];
    }
    assert order[..|order|] == order;
  }

  /** One Susceptible agent per node, agent k on node k. */
  method CreateAgents(numNodes: nat, virusSpreadProb: real, virusCheckFqy: real,
                      recoveryProb: real, gainResistanceProb: real) returns (population: seq<VirusAgent>)
    ensures |population| == numNodes && Indexed(population)
    ensures States(population) == Outbreak(numNodes, [])
    ensures forall k :: 0 <= k < numNodes ==>
      && fresh(population[k])
      && population[k].virusSpreadProb == virusSpreadProb && population[k].virusCheckFqy == virusCheckFqy
      && population[k].recoveryProb == recoveryProb && population[k].gainResistanceProb == gainResistanceProb
  {
    population := [];
    for i := 0 to numNodes
      invariant |population| == i && Indexed(population)
      invariant forall k :: 0 <= k < i ==>
        && fresh(population[k]) && population[k].state == Susceptible
        && population[k].virusSpreadProb == virusSpreadProb && population[k].virusCheckFqy == virusCheckFqy
        && population[k].recoveryProb == recoveryProb && population[k].gainResistanceProb == gainResistanceProb
    {
      var agent := new VirusAgent(i, Susceptible, virusSpreadProb, virusCheckFqy, recoveryProb, gainResistanceProb);
      population := population + [agent];
    }
  }

  /** Sets the agents on the sampled nodes Infected. */
  method SeedOutbreak(population: seq<VirusAgent>, sample: seq<nat>)
    requires Indexed(population) && Bounded(sample, |population|)
    requires States(population) == Outbreak(|population|, [])
    modifies population
    ensures States(population) == Outbreak(|population|, sample)
  {
    assert sample[..0] == [];
    for k := 0 to |sample|
      invariant States(population) == Outbreak(|population|, sample[..k])
    {
      population[sample[k]].state := Infected;
      assert Outbreak(|population|, sample[..k + 1]) == Outbreak(|population|, sample[..k])[sample[k] := Infected];
    }
    assert sample[..|sample|] == sample;
  }

  /** `num_state`: how many of the model's agents are in state `s`. */
  function NumState(model: Network, s: State): (n: nat)
    reads model, model.agents
    ensures n <= |model.agents|
  {
    CountState(States(model.agents), s)
  }

  function NumSusceptible(model: Network): (n: nat)
    reads model, model.agents
    ensures n <= |model.agents|
  {
    NumState(model, Susceptible)
  }

  function NumInfected(model: Network): (n: nat)
    reads model, model.agents
    ensures n <= |model.agents|
  {
    NumState(model, Infected)
  }

  function NumResistant(model: Network): (n: nat)
    reads model, model.agents
    ensures n <= |model.agents|
  {
    NumState(model, Resistant)
  }

  /** The record the data collector takes. */
  function Collect(model: Network): (t: Tally)
    reads model, model.agents
    ensures t == TallyOf(States(model.agents))
  {
    Tally(NumSusceptible(model), NumInfected(model), NumResistant(model))
  }

  /** The three counts always add up to the number of nodes. */
  lemma NumStatesSum(model: Network)
    requires model.Valid()
    ensures NumSusceptible(model) + NumInfected(model) + NumResistant(model) == model.numNodes
  {
    CountsPartition(States(model.agents));
  }
}
