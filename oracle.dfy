/** The pseudo-random source that both simulations draw from (mesa's
    `Model.random`).  Only the outcome of each comparison `random() < p`
    matters to the models, so the source is an infinite stream of boolean
    outcomes and a cursor saying how many have been used. */
module Oracle {

  class Random {
    /** `outcome(k)` is the result of the k-th comparison `random() < p`. */
    const outcome: nat -> bool
    /** How many outcomes have been consumed so far. */
    var drawn: nat

    constructor (outcome: nat -> bool)
      ensures this.outcome == outcome && drawn == 0
    {
      this.outcome := outcome;
      drawn := 0;
    }

    /** One comparison `random() < p`: the next outcome of the stream. */
    method Below() returns (b: bool)
      modifies this`drawn
      ensures b == outcome(old(drawn))
      ensures drawn == old(drawn) + 1
    {
      b := outcome(drawn);
      drawn := drawn + 1;
    }
  }
}
