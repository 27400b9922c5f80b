/** `State` of covid-sim: the three compartments of the SIR model and
    their integer codes. */
module SirState {
  import opened Common

  datatype State = Susceptible | Infected | Resistant

  /** The enum value of each member. */
  function Code(s: State): (c: nat)
    ensures c <= 2
  {
    match s
    case Susceptible => 0
    case Infected => 1
    case Resistant => 2
  }

  /** The member with value `c` (Python's `State(c)`), if any. */
  function FromCode(c: int): (r: Option<State>)
    ensures r.Some? <==> 0 <= c <= 2
  {
    if c == 0 then Some(Susceptible)
    else if c == 1 then Some(Infected)
    else if c == 2 then Some(Resistant)
    else None
  }

  /** Mapping a state to its code and back yields the state; distinct states
      have distinct codes. */
  lemma CodeRoundTrip(s: State)
    ensures FromCode(Code(s)) == Some(s)
    ensures Code(s) <= 2
  {
  }

  lemma CodeInjective(s: State, t: State)
    ensures Code(s) == Code(t) <==> s == t
  {
  }

  /** The codes are exactly 0, 1 and 2, each naming one state. */
  lemma FromCodeDefined(c: int)
    ensures FromCode(c).Some? <==> 0 <= c <= 2
    ensures FromCode(c).Some? ==> Code(FromCode(c).value) == c
  {
  }

  /** There are no other states. */
  lemma ThreeStates(s: State)
    ensures s == Susceptible || s == Infected || s == Resistant
    ensures |{Susceptible, Infected, Resistant}| == 3
  {
  }
}
