/** `VirusAgent` of covid-sim: an agent on one node of the contact graph.
    The model's agents are passed in as `population` (`population[k]` is the
    agent on node k) and the model's random source as `rng`. */
module VirusAgents {
  import opened Common
  import opened SirState
  import opened Sir
  import opened Oracle

  class VirusAgent {
    const uniqueId: nat
    var state: State
    /** The per-agent parameters, fixed at construction.  They are only ever
        compared with draws of `rng`, whose outcomes the model takes as
        given, so their values play no part in the proofs. */
    const virusSpreadProb: real
    const virusCheckFqy: real
    const recoveryProb: real
    const gainResistanceProb: real

    constructor (uniqueId: nat, initialState: State, virusSpreadProb: real, virusCheckFqy: real,
                 recoveryProb: real, gainResistanceProb: real)
      ensures this.uniqueId == uniqueId && state == initialState
      ensures this.virusSpreadProb == virusSpreadProb && this.virusCheckFqy == virusCheckFqy
      ensures this.recoveryProb == recoveryProb && this.gainResistanceProb == gainResistanceProb
    {
      this.uniqueId := uniqueId;
      state := initialState;
      this.virusSpreadProb := virusSpreadProb;
      this.virusCheckFqy := virusCheckFqy;
      this.recoveryProb := recoveryProb;
      this.gainResistanceProb := gainResistanceProb;
    }

    /** `try_to_infect_neighbors`: collect the Susceptible neighbours first,
        then infect each one whose draw succeeds. */
    method TryToInfectNeighbors(population: seq<VirusAgent>, nbrs: seq<nat>, rng: Random)
      requires Indexed(population) && Distinct(nbrs) && Bounded(nbrs, |population|)
      modifies population, rng`drawn
      ensures var t := SusceptibleAmong(old(States(population)), nbrs);
        && States(population) == InfectEach(old(States(population)), t, rng.outcome, old(rng.drawn))
        && rng.drawn == old(rng.drawn) + |t|
    {
      ghost var s0 := States(population);
      ghost var d0 := rng.drawn;
      var susceptible := SusceptibleAmong(States(population), nbrs);
      for k := 0 to |susceptible|
        invariant States(population) == InfectEach(s0, susceptible[..k], rng.outcome, d0)
        invariant rng.drawn == d0 + k
      {
        var draw := rng.Below();
        if draw {
          population[susceptible[k]].state := Infected;
        }
        assert susceptible[..k + 1][..k] == susceptible[..k];
      }
      assert susceptible[..|susceptible|] == susceptible;
    }

    /** `try_gain_resistance`. */
    method TryGainResistance(rng: Random)
      modifies this`state, rng`drawn
      ensures (state, rng.drawn) == GainResistance(old(state), rng.outcome, old(rng.drawn))
    {
      var draw := rng.Below();
      if draw {
        state := Resistant;
      }
    }

    /** `try_remove_infection`. */
    method TryRemoveInfection(rng: Random)
      modifies this`state, rng`drawn
      ensures (state, rng.drawn) == RemoveInfection(rng.outcome, old(rng.drawn))
    {
      var draw := rng.Below();
      if draw {
        state := Susceptible;
        TryGainResistance(rng);
      } else {
        state := Infected;
      }
    }

    /** `try_check_situation`. */
    method TryCheckSituation(rng: Random)
      modifies this`state, rng`drawn
      ensures (state, rng.drawn) == CheckSituation(old(state), rng.outcome, old(rng.drawn))
    {
      var draw := rng.Below();
      if draw {
        if state == Infected {
          TryRemoveInfection(rng);
        }
      }
    }

    /** `step`: an Infected agent first tries to infect its neighbours; then
        every agent may check itself. */
    method Step(population: seq<VirusAgent>, nbrs: seq<nat>, rng: Random)
      requires Indexed(population) && uniqueId < |population| && population[uniqueId] == this
      requires Distinct(nbrs) && Bounded(nbrs, |population|)
      modifies population, rng`drawn
      ensures (States(population), rng.drawn) ==
        AgentStep(old(States(population)), uniqueId, nbrs, rng.outcome, old(rng.drawn))
    {
      if state == Infected {
        TryToInfectNeighbors(population, nbrs, rng);
      }
      ghost var spread := States(population);
      TryCheckSituation(rng);
      assert States(population) == spread[uniqueId := state];
    }
  }

  /** `population[k]` is the agent with id k (so no agent occurs twice). */
  predicate Indexed(population: seq<VirusAgent>) {
    forall k :: 0 <= k < |population| ==> population[k].uniqueId == k
  }

  /** The state of every agent, by node. */
  function States(population: seq<VirusAgent>): (s: seq<State>)
    reads population
    ensures |s| == |population|
    ensures forall k :: 0 <= k < |population| ==> s[k] == population[k].state
  {
    seq(|population|, k requires 0 <= k < |population| reads population => population[k].state)
  }
}
