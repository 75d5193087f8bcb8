/** The three objective weights of multi-objective search and their
    sum-to-one check. */
module Weighting {
  import opened Results
  import opened Numerics

  /** The weights of CBO, NAC and ATMR; any of them may be NaN. */
  datatype Weights = Weights(cbo: Double, nac: Double, atmr: Double) {

    predicate HasNaN() { cbo.IsNaN() || nac.IsNaN() || atmr.IsNaN() }

    /** No weight is NaN or negative. */
    predicate NonNegative() { !HasNaN() && cbo.v >= 0.0 && nac.v >= 0.0 && atmr.v >= 0.0 }

    predicate AllZero() { cbo.Equals(0.0) && nac.Equals(0.0) && atmr.Equals(0.0) }

    /** The three weights as reals, for weights without NaN. */
    function Sum(): real
      requires !HasNaN()
    {
      cbo.v + nac.v + atmr.v
    }
  }

  /** The tolerance of the sum-to-one check. */
  const RANGE: real := 0.000001

  /** The default constructor: all three weights 0.0. */
  function Default(): Weights
  {
    Weights(Finite(0.0), Finite(0.0), Finite(0.0))
  }

  /** Weights given as three reals, none of them NaN. */
  function OfReals(wCBO: real, wNAC: real, wATMR: real): Weights
  {
    Weights(Finite(wCBO), Finite(wNAC), Finite(wATMR))
  }

  datatype WeightsError = WeightOutOfRange | WeightsDoNotSumToOne

  /** The three-argument constructor: each weight must lie in [0,1]; the
      values are stored as given. */
  function Make(wCBO: Double, wNAC: Double, wATMR: Double): (r: Result<Weights, WeightsError>)
    ensures r.Ok? <==> wCBO.Within(0.0, 1.0) && wNAC.Within(0.0, 1.0) && wATMR.Within(0.0, 1.0)
    ensures r.Ok? ==> !r.value.HasNaN() &&
                      r.value.cbo == wCBO && r.value.nac == wNAC && r.value.atmr == wATMR
  {
    if !(wCBO.Within(0.0, 1.0) && wNAC.Within(0.0, 1.0) && wATMR.Within(0.0, 1.0))
    then Err(WeightOutOfRange)
    else Ok(Weights(wCBO, wNAC, wATMR))
  }

  /** What checkSum does with a set of weights. */
  datatype SumCheck =
    | SkippedNaN            // some weight is NaN: nothing is checked
    | SkippedUninitialised  // all three are exactly 0.0: nothing is checked
    | SumsToOne             // the sum lies strictly within 1 +- RANGE
    | SumIsOff              // the assertion fails

  /** checkSum: the weights are checked only when none is NaN and not all
      are zero. */
  function CheckSum(w: Weights): (r: SumCheck)
    ensures r == SkippedNaN <==> w.HasNaN()
    ensures r == SkippedUninitialised <==> !w.HasNaN() && w.AllZero()
    ensures r == SumsToOne <==>
              !w.HasNaN() && !w.AllZero() && 1.0 - RANGE < w.Sum() < 1.0 + RANGE
    ensures r == SumIsOff <==>
              !w.HasNaN() && !w.AllZero() && !(1.0 - RANGE < w.Sum() < 1.0 + RANGE)
  {
    if w.HasNaN() then SkippedNaN
    else if w.AllZero() then SkippedUninitialised
    else if 1.0 - RANGE < w.Sum() < 1.0 + RANGE then SumsToOne
    else SumIsOff
  }

  /** checkSum as its callers see it: only a failed assertion is an error. */
  function CheckSumAsserts(w: Weights): (r: Result<Weights, WeightsError>)
    ensures r.Err? <==> CheckSum(w) == SumIsOff
    ensures r.Ok? ==> r.value == w
  {
    if CheckSum(w) == SumIsOff then Err(WeightsDoNotSumToOne) else Ok(w)
  }

  /** The default weights are not the "100% CBO" weights their comment
      promises: they sum to zero, so checkSum never checks them. */
  lemma DefaultIsUninitialised()
    ensures !Default().HasNaN() && Default().Sum() == 0.0
    ensures CheckSum(Default()) == SkippedUninitialised
    ensures Default() != OfReals(1.0, 0.0, 0.0)
  {
  }

  /** A weight triple without NaN that sums to exactly one passes
      checkSum. */
  lemma ExactSumPasses(w: Weights)
    requires !w.HasNaN() && w.Sum() == 1.0
    ensures CheckSum(w) == SumsToOne
  {
    assert !w.AllZero();
  }

  /** A sum outside the tolerance is caught, unless the weights are all 0.0
      or one of them is NaN. */
  lemma CheckSumCatches(wCBO: real, wNAC: real, wATMR: real)
    requires !(1.0 - RANGE < wCBO + wNAC + wATMR < 1.0 + RANGE)
    ensures CheckSum(OfReals(wCBO, wNAC, wATMR)) == SumIsOff <==>
              !(wCBO == 0.0 && wNAC == 0.0 && wATMR == 0.0)
  {
  }

  /** Weights of the constructor that pass checkSum are all zero or sum to
      within RANGE of one. */
  lemma ConstructedWeightsSum(wCBO: Double, wNAC: Double, wATMR: Double)
    requires Make(wCBO, wNAC, wATMR).Ok?
    requires CheckSum(Make(wCBO, wNAC, wATMR).value) != SumIsOff
    ensures var w := Make(wCBO, wNAC, wATMR).value;
            w.AllZero() || 1.0 - RANGE < w.Sum() < 1.0 + RANGE
  {
  }
}
