/** The per-tick rules of covid-sim as pure functions over the states of
    all agents, `states[i]` being the state of the agent on node i.  Every
    comparison `random() < p` is the next outcome of the stream `o`, whose
    cursor `d` each function advances past the outcomes it uses. */
module Sir {
  import opened Common
  import opened SirState

  // ---------------------------------------------------------------------
  // Counting

  /** `num_state`: how many agents are in state `s`. */
  function CountState(states: seq<State>, s: State): (n: nat)
    ensures n <= |states|
  {
    if states == [] then 0
    else CountState(states[..|states| - 1], s) + (if states[|states| - 1] == s then 1 else 0)
  }

  /** Every agent is in exactly one state, so the three counts add up to the
      number of agents. */
  lemma {:induction false} CountsPartition(states: seq<State>)
    ensures CountState(states, Susceptible) + CountState(states, Infected) + CountState(states, Resistant) == |states|
  {
    if states != [] {
      CountsPartition(states[..|states| - 1]);
    }
  }

  /** Overwriting one agent's state moves it from one count to another. */
  lemma {:induction false} CountUpdate(states: seq<State>, j: nat, x: State, s: State)
    requires j < |states|
    ensures CountState(states[j := x], s) ==
      CountState(states, s) - (if states[j] == s then 1 else 0) + (if x == s then 1 else 0)
  {
    var last := |states| - 1;
    if j < last {
      CountUpdate(states[..last], j, x, s);
      assert states[j := x][..last] == states[..last][j := x];
    } else {
      assert states[j := x][..last] == states[..last];
    }
  }

  /** If every agent in state `s` is still in `s` afterwards, the count of `s`
      has not decreased. */
  lemma {:induction false} CountMonotone(before: seq<State>, after: seq<State>, s: State)
    requires |before| == |after|
    requires forall j :: 0 <= j < |before| && before[j] == s ==> after[j] == s
    ensures CountState(after, s) >= CountState(before, s)
  {
    if before != [] {
      var last := |before| - 1;
      CountMonotone(before[..last], after[..last], s);
    }
  }

  /** A population of n agents all in state `s`. */
  lemma {:induction false} CountUniform(n: nat, s: State, t: State)
    ensures CountState(seq(n, _ => s), t) == if s == t then n else 0
  {
    if n > 0 {
      CountUniform(n - 1, s, t);
      assert seq(n, _ => s)[..n - 1] == seq(n - 1, _ => s);
    }
  }

  /** One record of the data collector. */
  datatype Tally = Tally(susceptible: nat, infected: nat, resistant: nat)

  /** The record the data collector takes of `states`. */
  function TallyOf(states: seq<State>): (t: Tally)
    ensures t.susceptible + t.infected + t.resistant == |states|
  {
    CountsPartition(states);
    Tally(CountState(states, Susceptible), CountState(states, Infected), CountState(states, Resistant))
  }

  // ---------------------------------------------------------------------
  // Topology and seeding

  /** The contact graph on nodes 0..n-1 as neighbour lists: no repeated
      neighbour, no self-loop, and every edge recorded at both ends. */
  predicate IsGraph(graph: seq<seq<nat>>, n: nat) {
    && |graph| == n
    && forall i :: 0 <= i < n ==>
      && Distinct(graph[i])
      && Bounded(graph[i], n)
      && forall k :: 0 <= k < |graph[i]| ==> graph[i][k] != i && i in graph[graph[i][k]]
  }

  /** `min(initial_outbreak_size, num_nodes)`. */
  function ClampOutbreak(initial: nat, numNodes: nat): (k: nat)
    ensures k <= numNodes && k <= initial
    ensures k == initial || k == numNodes
  {
    if initial <= numNodes then initial else numNodes
  }

  /** The states right after construction: the sampled nodes Infected, all
      other nodes Susceptible. */
  function Outbreak(n: nat, sample: seq<nat>): (states: seq<State>)
    ensures |states| == n
    ensures forall i :: 0 <= i < n ==> states[i] != Resistant && (states[i] == Infected <==> i in sample)
  {
    seq(n, i => if i in sample then Infected else Susceptible)
  }

  /** A sample of k distinct nodes infects exactly k agents and leaves the
      rest Susceptible. */
  lemma {:induction false} OutbreakCounts(n: nat, sample: seq<nat>)
    requires Distinct(sample) && Bounded(sample, n)
    ensures CountState(Outbreak(n, sample), Infected) == |sample|
    ensures CountState(Outbreak(n, sample), Susceptible) == n - |sample|
    ensures CountState(Outbreak(n, sample), Resistant) == 0
  {
    if sample == [] {
      assert Outbreak(n, sample) == seq(n, _ => Susceptible);
      CountUniform(n, Susceptible, Infected);
      CountUniform(n, Susceptible, Susceptible);
      CountUniform(n, Susceptible, Resistant);
    } else {
      var m := |sample| - 1;
      var prev := Outbreak(n, sample[..m]);
      OutbreakCounts(n, sample[..m]);
      assert sample[m] !in sample[..m];
      assert Outbreak(n, sample) == prev[sample[m] := Infected];
      CountUpdate(prev, sample[m], Infected, Infected);
      CountUpdate(prev, sample[m], Infected, Susceptible);
      CountUpdate(prev, sample[m], Infected, Resistant);
    }
  }

  // ---------------------------------------------------------------------
  // One agent's transition

  /** The Susceptible neighbours, in neighbour order (the list built before
      any infection attempt). */
  function SusceptibleAmong(states: seq<State>, nbrs: seq<nat>): (t: seq<nat>)
    requires Bounded(nbrs, |states|)
    ensures forall j :: j in t <==> j in nbrs && states[j] == Susceptible
    ensures Bounded(t, |states|)
    ensures Distinct(nbrs) ==> Distinct(t)
  {
    if nbrs == [] then []
    else
      var rest := SusceptibleAmong(states, nbrs[1..]);
      assert forall j :: j in nbrs[1..] ==> j in nbrs;
      if states[nbrs[0]] == Susceptible then [nbrs[0]] + rest else rest
  }

  /** The loop of `try_to_infect_neighbors`: the k-th target is set Infected
      when outcome d + k succeeds. */
  function InfectEach(states: seq<State>, targets: seq<nat>, o: nat -> bool, d: nat): (r: seq<State>)
    requires Bounded(targets, |states|)
    ensures |r| == |states|
    ensures forall j :: 0 <= j < |states| ==> r[j] == states[j] || r[j] == Infected
  {
    if targets == [] then states
    else
      var m := |targets| - 1;
      var prev := InfectEach(states, targets[..m], o, d);
      if o(d + m) then prev[targets[m] := Infected] else prev
  }

  /** `try_gain_resistance`. */
  function GainResistance(s: State, o: nat -> bool, d: nat): (r: (State, nat))
    ensures r.1 == d + 1
    ensures r.0 == Resistant <==> o(d) || s == Resistant
    ensures r.0 != Resistant ==> r.0 == s
  {
    (if o(d) then Resistant else s, d + 1)
  }

  /** `try_remove_infection`: on recovery the agent becomes Susceptible and
      then tries to gain resistance; otherwise it stays Infected. */
  function RemoveInfection(o: nat -> bool, d: nat): (r: (State, nat))
    ensures d < r.1 <= d + 2
    ensures r.0 == Infected <==> !o(d)
    ensures r.0 == Resistant <==> o(d) && o(d + 1)
  {
    if o(d) then GainResistance(Susceptible, o, d + 1) else (Infected, d + 1)
  }

  /** `try_check_situation`: only an Infected agent that checks can recover. */
  function CheckSituation(s: State, o: nat -> bool, d: nat): (r: (State, nat))
    ensures d < r.1 <= d + 3
    ensures r.0 != s ==> s == Infected && o(d)
    ensures s != Infected || !o(d) ==> r == (s, d + 1)
  {
    if o(d) && s == Infected then RemoveInfection(o, d + 1) else (s, d + 1)
  }

  /** `VirusAgent.step` of the agent on node i, whose neighbours are `nbrs`. */
  function AgentStep(states: seq<State>, i: nat, nbrs: seq<nat>, o: nat -> bool, d: nat): (r: (seq<State>, nat))
    requires i < |states| && Bounded(nbrs, |states|)
    ensures |r.0| == |states| && r.1 > d
  {
    var (spread, d1) :=
      if states[i] == Infected then
        var t := SusceptibleAmong(states, nbrs);
        (InfectEach(states, t, o, d), d + |t|)
      else (states, d);
    var (s, d2) := CheckSituation(spread[i], o, d1);
    (spread[i := s], d2)
  }

  /** The order of one tick visits every node exactly once. */
  predicate IsPermutation(order: seq<nat>, n: nat) {
    |order| == n && Distinct(order) && Bounded(order, n)
  }

  /** One tick of random activation: every agent steps, in `order`. */
  function Tick(states: seq<State>, order: seq<nat>, graph: seq<seq<nat>>, o: nat -> bool, d: nat): (r: (seq<State>, nat))
    requires IsGraph(graph, |states|) && Bounded(order, |states|)
    ensures |r.0| == |states| && r.1 >= d + |order|
  {
    if order == [] then (states, d)
    else
      var m := |order| - 1;
      var (prev, d1) := Tick(states, order[..m], graph, o, d);
      AgentStep(prev, order[m], graph[order[m]], o, d1)
  }

  /** `run_model`: one tick per order. */
  function Run(states: seq<State>, orders: seq<seq<nat>>, graph: seq<seq<nat>>, o: nat -> bool, d: nat): (r: (seq<State>, nat))
    requires IsGraph(graph, |states|)
    requires forall k :: 0 <= k < |orders| ==> IsPermutation(orders[k], |states|)
    ensures |r.0| == |states| && r.1 >= d + |orders| * |states|
  {
    if orders == [] then (states, d)
    else
      var m := |orders| - 1;
      var (prev, d1) := Run(states, orders[..m], graph, o, d);
      assert IsPermutation(orders[m], |states|);
      assert |orders| * |states| == m * |states| + |states|;
      Tick(prev, orders[m], graph, o, d1)
  }

  /** The records `run_model` adds, one after each tick: the i-th is the
      tally after the first i + 1 ticks. */
  function Records(states: seq<State>, orders: seq<seq<nat>>, graph: seq<seq<nat>>, o: nat -> bool, d: nat): (t: seq<Tally>)
    requires IsGraph(graph, |states|)
    requires forall k :: 0 <= k < |orders| ==> IsPermutation(orders[k], |states|)
    ensures |t| == |orders|
    ensures forall i :: 0 <= i < |orders| ==> t[i] == TallyOf(Run(states, orders[..i + 1], graph, o, d).0)
  {
    if orders == [] then []
    else
      var m := |orders| - 1;
      var prev := Records(states, orders[..m], graph, o, d);
      assert orders[..m + 1] == orders;
      forall i | 0 <= i < m
        ensures prev[i] == TallyOf(Run(states, orders[..i + 1], graph, o, d).0)
      {
        assert orders[..m][..i + 1] == orders[..i + 1];
      }
      prev + [TallyOf(Run(states, orders, graph, o, d).0)]
  }

  // ---------------------------------------------------------------------
  // Properties of the transitions

  /** The targets are changed one by one as their outcomes say, and nothing
      else changes. */
  lemma {:induction false} InfectEachEffect(states: seq<State>, targets: seq<nat>, o: nat -> bool, d: nat)
    requires Distinct(targets) && Bounded(targets, |states|)
    ensures var r := InfectEach(states, targets, o, d);
      && (forall k :: 0 <= k < |targets| ==> r[targets[k]] == if o(d + k) then Infected else states[targets[k]])
      && (forall j :: 0 <= j < |states| && j !in targets ==> r[j] == states[j])
  {
    if targets != [] {
      var m := |targets| - 1;
      var prev := InfectEach(states, targets[..m], o, d);
      var r := InfectEach(states, targets, o, d);
      InfectEachEffect(states, targets[..m], o, d);
      assert targets[m] !in targets[..m];
      forall k | 0 <= k < |targets|
        ensures r[targets[k]] == if o(d + k) then Infected else states[targets[k]]
      {
        if k < m {
          assert targets[k] != targets[m];
          assert targets[..m][k] == targets[k];
        }
      }
      forall j | 0 <= j < |states| && j !in targets
        ensures r[j] == states[j]
      {
        assert j !in targets[..m];
      }
    }
  }

  /** `try_to_infect_neighbors` changes only neighbours that were
      Susceptible: the k-th of them becomes Infected iff outcome d + k
      succeeds, and every other agent keeps its state. */
  lemma InfectNeighbours(states: seq<State>, nbrs: seq<nat>, o: nat -> bool, d: nat)
    requires Distinct(nbrs) && Bounded(nbrs, |states|)
    ensures var t := SusceptibleAmong(states, nbrs);
      var r := InfectEach(states, t, o, d);
      && (forall j :: j in t <==> j in nbrs && states[j] == Susceptible)
      && (forall k :: 0 <= k < |t| ==> r[t[k]] == if o(d + k) then Infected else Susceptible)
      && (forall j :: 0 <= j < |states| && r[j] != states[j] ==> j in nbrs && states[j] == Susceptible && r[j] == Infected)
  {
    var t := SusceptibleAmong(states, nbrs);
    InfectEachEffect(states, t, o, d);
    assert forall k :: 0 <= k < |t| ==> t[k] in t;
  }

  /** The outcomes of `try_remove_infection` and `try_check_situation`. */
  lemma CheckSituationCases(s: State, o: nat -> bool, d: nat)
    ensures !o(d) || s != Infected ==> CheckSituation(s, o, d) == (s, d + 1)
    ensures o(d) && s == Infected && !o(d + 1) ==> CheckSituation(s, o, d) == (Infected, d + 2)
    ensures o(d) && s == Infected && o(d + 1) ==>
      CheckSituation(s, o, d) == (if o(d + 2) then Resistant else Susceptible, d + 3)
  {
  }

  /** The transitions an agent step can make to any agent: Susceptible to
      Infected, Infected to Susceptible or Resistant, or none.  So Resistant
      is absorbing, and no Susceptible agent becomes Resistant in one step. */
  predicate Allowed(before: State, after: State) {
    || before == after
    || (before == Susceptible && after == Infected)
    || (before == Infected && after != Infected)
  }

  /** Every change one agent step makes is an allowed transition; an agent
      that is not Infected changes no one but itself. */
  lemma AgentStepTransitions(states: seq<State>, i: nat, nbrs: seq<nat>, o: nat -> bool, d: nat)
    requires i < |states| && Distinct(nbrs) && i !in nbrs && Bounded(nbrs, |states|)
    ensures var r := AgentStep(states, i, nbrs, o, d).0;
      && (forall j :: 0 <= j < |states| ==> Allowed(states[j], r[j]))
      && (states[i] != Infected ==> forall j :: 0 <= j < |states| && j != i ==> r[j] == states[j])
  {
    InfectNeighbours(states, nbrs, o, d);
  }

  /** A tick keeps every Resistant agent Resistant. */
  lemma {:induction false} TickKeepsResistant(states: seq<State>, order: seq<nat>, graph: seq<seq<nat>>, o: nat -> bool, d: nat)
    requires IsGraph(graph, |states|) && Bounded(order, |states|)
    ensures var r := Tick(states, order, graph, o, d).0;
      forall j :: 0 <= j < |states| && states[j] == Resistant ==> r[j] == Resistant
  {
    if order != [] {
      var m := |order| - 1;
      TickKeepsResistant(states, order[..m], graph, o, d);
      var (prev, d1) := Tick(states, order[..m], graph, o, d);
      AgentStepTransitions(prev, order[m], graph[order[m]], o, d1);
    }
  }

  /** A tick keeps the number of agents and never lowers the Resistant
      count. */
  lemma TickCounts(states: seq<State>, order: seq<nat>, graph: seq<seq<nat>>, o: nat -> bool, d: nat)
    requires IsGraph(graph, |states|) && Bounded(order, |states|)
    ensures var t := TallyOf(Tick(states, order, graph, o, d).0);
      && t.susceptible + t.infected + t.resistant == |states|
      && t.resistant >= TallyOf(states).resistant
  {
    TickKeepsResistant(states, order, graph, o, d);
    CountMonotone(states, Tick(states, order, graph, o, d).0, Resistant);
  }

  /** Random activation lets a Susceptible agent end a tick Resistant: it is
      infected by a neighbour that steps before it, then recovers and gains
      resistance in its own step. */
  lemma SusceptibleToResistantInOneTick()
    ensures var o := (k: nat) => k != 1;
      Tick([Infected, Susceptible], [0, 1], [[1], [0]], o, 0).0 == [Infected, Resistant]
  {
    var o := (k: nat) => k != 1;
    var graph := [[1], [0]];
    assert IsGraph(graph, 2);
    assert [0, 1][..1] == [0] && [0][..0] == [];
    assert SusceptibleAmong([Infected, Susceptible], [1]) == [1];
    assert InfectEach([Infected, Susceptible], [1], o, 0) == [Infected, Infected];
    assert CheckSituation(Infected, o, 1) == (Infected, 2);
    assert [Infected, Infected][0 := Infected] == [Infected, Infected];
    assert AgentStep([Infected, Susceptible], 0, [1], o, 0) == ([Infected, Infected], 2);
    assert Tick([Infected, Susceptible], [0], graph, o, 0) == ([Infected, Infected], 2);
    assert SusceptibleAmong([Infected, Infected], [0]) == [];
    assert InfectEach([Infected, Infected], [], o, 2) == [Infected, Infected];
    assert CheckSituation(Infected, o, 2) == (Resistant, 5);
    assert [Infected, Infected][1 := Resistant] == [Infected, Resistant];
    assert AgentStep([Infected, Infected], 1, [0], o, 2) == ([Infected, Resistant], 5);
  }
}
