/** PheromoneOperators.update and the delta it deposits: objective
    normalisation, the weighted raw factor, the choice of the depositing
    path under MAX-MIN Ant System, and the Simple-ACO deposit by every
    whole-design path of the colony. */
module PheromoneUpdate {
  import opened Results
  import opened Numerics
  import opened Graph
  import opened Config
  import opened Weighting
  import opened Pheromone

  // ---------------------------------------------------------------------
  // Normalising the objectives

  /** The NAC and ATMR values at which a design counts as fully inelegant. */
  datatype Scales = Scales(nac: real, atmr: real)

  /** The scales of the known design problems. */
  function ScalesFor(problemNumber: int): (r: Result<Scales, PheromoneError>)
    ensures r.Ok? <==> problemNumber == TEST || problemNumber == CBS ||
                       problemNumber == GDP || problemNumber == SC
    ensures r.Ok? ==> 0.0 < r.value.atmr < r.value.nac
    ensures r.Err? ==> r.error == UnknownProblem
  {
    if problemNumber == CBS then Ok(Scales(6.0, 4.0))
    else if problemNumber == TEST || problemNumber == GDP then Ok(Scales(10.0, 5.5))
    else if problemNumber == SC then Ok(Scales(11.0, 7.0))
    else Err(UnknownProblem)
  }

  /** CBO turned into a value to maximise; the coupling must lie in [0,1]. */
  function MaximisedCBO(cbo: real): (r: Result<real, PheromoneError>)
    ensures r.Ok? <==> 0.0 <= cbo <= 1.0
    ensures r.Ok? ==> 0.0 <= r.value <= 1.0
  {
    var m := 1.0 - cbo;
    if 0.0 <= m <= 1.0 then Ok(m) else Err(CouplingOutOfRange)
  }

  /** Lower coupling gives a higher maximised value, 1 for no coupling at all
      and 0 for total coupling. */
  lemma MaximisedCBOReverses(c1: real, c2: real)
    requires 0.0 <= c1 <= c2 <= 1.0
    ensures MaximisedCBO(c1).value >= MaximisedCBO(c2).value
    ensures MaximisedCBO(0.0) == Ok(1.0) && MaximisedCBO(1.0) == Ok(0.0)
    ensures MaximisedCBO(c1).value + c1 == 1.0
  {
  }

  /** An elegance value (NAC or ATMR) normalised against its scale and then
      "maximised"; the value must not be negative. */
  function MaximisedElegance(x: real, scale: real): (r: Result<real, PheromoneError>)
    requires scale > 0.0
    ensures r.Ok? <==> x >= 0.0
  {
    if x < 0.0 then Err(NegativeElegance)
    else
      var temp := Min(x, scale);
      var normalised := (scale - temp) / scale;
      Ok(1.0 - normalised)
  }

  /** The maximised elegance is min(x, scale)/scale: it lies in [0,1], is 0
      for a perfectly balanced design, saturates at 1 from the scale on,
      and GROWS with the metric, although NAC and ATMR are minimised. */
  lemma MaximisedEleganceIsFraction(x: real, scale: real)
    requires scale > 0.0 && x >= 0.0
    ensures MaximisedElegance(x, scale).value == Min(x, scale) / scale
    ensures 0.0 <= MaximisedElegance(x, scale).value <= 1.0
    ensures MaximisedElegance(x, scale).value == 0.0 <==> x == 0.0
    ensures MaximisedElegance(x, scale).value == 1.0 <==> x >= scale
  {
    var m := Min(x, scale);
    DivideDifference(scale, m, scale);
    assert scale / scale == 1.0;
    FractionOfWhole(m, scale);
  }

  /** A larger metric never gives a smaller maximised elegance. */
  lemma MaximisedEleganceGrows(x: real, y: real, scale: real)
    requires scale > 0.0 && 0.0 <= x <= y
    ensures MaximisedElegance(x, scale).value <= MaximisedElegance(y, scale).value
  {
    MaximisedEleganceIsFraction(x, scale);
    MaximisedEleganceIsFraction(y, scale);
    var mx := Min(x, scale);
    var my := Min(y, scale);
    assert mx <= my;
    DivideDifference(my, mx, scale);
    FractionOfWhole(my - mx, scale);
  }

  /** The maximised objectives a path deposits for: each selected objective
      normalised, each unselected one 0.0; at least one must be selected. */
  function Maximise(s: Settings, o: Objectives, scales: Scales): (r: Result<Objectives, PheromoneError>)
    requires scales.nac > 0.0 && scales.atmr > 0.0
    ensures r.Ok? ==> 0.0 <= r.value.cbo <= 1.0 && 0.0 <= r.value.nac <= 1.0 && 0.0 <= r.value.atmr <= 1.0
    ensures r.Ok? ==> (!s.objectiveCBO ==> r.value.cbo == 0.0) &&
                      (!s.objectiveNAC ==> r.value.nac == 0.0) &&
                      (!s.objectiveATMR ==> r.value.atmr == 0.0)
  {
    var c :- if s.objectiveCBO then MaximisedCBO(o.cbo) else Ok(0.0);
    var n :- if s.objectiveNAC then MaximisedElegance(o.nac, scales.nac) else Ok(0.0);
    var a :- if s.objectiveATMR then MaximisedElegance(o.atmr, scales.atmr) else Ok(0.0);
    if !(s.objectiveCBO || s.objectiveNAC || s.objectiveATMR) then Err(NoObjectiveSelected)
    else
      assert s.objectiveNAC ==> n == MaximisedElegance(o.nac, scales.nac).value;
      assert s.objectiveATMR ==> a == MaximisedElegance(o.atmr, scales.atmr).value;
      assert 0.0 <= n <= 1.0 by {
        if s.objectiveNAC { MaximisedEleganceIsFraction(o.nac, scales.nac); }
      }
      assert 0.0 <= a <= 1.0 by {
        if s.objectiveATMR { MaximisedEleganceIsFraction(o.atmr, scales.atmr); }
      }
      Ok(Objectives(c, n, a))
  }

  /** Normalisation fails exactly when no objective is selected or a
      selected one is out of its range. */
  lemma MaximiseFailsIff(s: Settings, o: Objectives, scales: Scales)
    requires scales.nac > 0.0 && scales.atmr > 0.0
    ensures Maximise(s, o, scales).Err? <==>
              !(s.objectiveCBO || s.objectiveNAC || s.objectiveATMR) ||
              (s.objectiveCBO && !(0.0 <= o.cbo <= 1.0)) ||
              (s.objectiveNAC && o.nac < 0.0) ||
              (s.objectiveATMR && o.atmr < 0.0)
  {
  }

  // ---------------------------------------------------------------------
  // The raw factor and delta

  /** calculateRawFactorWithWeights: the weighted sum of the maximised
      objectives, which must lie in [0,1], after checkSum. */
  function RawFactor(m: Objectives, w: Weights): (r: Result<real, PheromoneError>)
    requires !w.HasNaN()
    ensures r.Ok? <==> 0.0 <= m.cbo <= 1.0 && 0.0 <= m.nac <= 1.0 && 0.0 <= m.atmr <= 1.0 &&
                       CheckSum(w) != SumIsOff
  {
    if !(0.0 <= m.cbo <= 1.0 && 0.0 <= m.nac <= 1.0 && 0.0 <= m.atmr <= 1.0) then Err(ObjectiveOutOfRange)
    else if CheckSum(w) == SumIsOff then Err(PheromoneError.WeightsDoNotSumToOne)
    else Ok(w.cbo.v * m.cbo + w.nac.v * m.nac + w.atmr.v * m.atmr)
  }

  /** With non-negative weights the raw factor lies between 0 and the sum of
      the weights: below 1 + RANGE, at most 1 when the weights sum to at most
      one, and exactly 0 for the all-zero weights checkSum lets through. */
  lemma RawFactorBounds(m: Objectives, w: Weights)
    requires w.NonNegative() && RawFactor(m, w).Ok?
    ensures 0.0 <= RawFactor(m, w).value <= w.Sum()
    ensures RawFactor(m, w).value < 1.0 + RANGE
    ensures w.Sum() <= 1.0 ==> RawFactor(m, w).value <= 1.0
    ensures w.AllZero() ==> RawFactor(m, w).value == 0.0
  {
    var raw := RawFactor(m, w).value;
    assert raw == w.cbo.v * m.cbo + w.nac.v * m.nac + w.atmr.v * m.atmr;
    WeightedSumBounds(w.cbo.v, w.nac.v, w.atmr.v, m.cbo, m.nac, m.atmr);
    assert w.AllZero() || CheckSum(w) == SumsToOne;
  }

  /** A single-objective weight triple picks out that objective. */
  lemma RawFactorSingleObjective(m: Objectives)
    requires 0.0 <= m.cbo <= 1.0 && 0.0 <= m.nac <= 1.0 && 0.0 <= m.atmr <= 1.0
    ensures RawFactor(m, OfReals(1.0, 0.0, 0.0)) == Ok(m.cbo)
    ensures RawFactor(m, OfReals(0.0, 1.0, 0.0)) == Ok(m.nac)
  {
    ExactSumPasses(OfReals(1.0, 0.0, 0.0));
    ExactSumPasses(OfReals(0.0, 1.0, 0.0));
  }

  /** calculateDelta: the raw factor raised to the power mu. */
  function CalculateDelta(s: Settings, o: Objectives, mu: nat, w: Weights): (r: Result<real, PheromoneError>)
    requires !w.HasNaN()
    ensures r.Ok? && w.NonNegative() ==> r.value >= 0.0
  {
    var scales :- ScalesFor(s.problemNumber);
    var m :- Maximise(s, o, scales);
    var raw :- RawFactor(m, w);
    assert w.NonNegative() ==> raw >= 0.0 by {
      if w.NonNegative() { RawFactorBounds(m, w); }
    }
    assert raw >= 0.0 ==> Pow(raw, mu) >= 0.0 by {
      if raw >= 0.0 { PowNonNegative(raw, mu); }
    }
    Ok(Pow(raw, mu))
  }

  /** delta lies in [0,1] when the weights are non-negative and sum to at
      most one; mu = 0 deposits exactly 1 whatever the design, and a larger
      mu never deposits more. */
  lemma DeltaBounds(s: Settings, o: Objectives, mu: nat, w: Weights)
    requires w.NonNegative() && w.Sum() <= 1.0
    requires CalculateDelta(s, o, mu, w).Ok?
    ensures 0.0 <= CalculateDelta(s, o, mu, w).value <= 1.0
    ensures mu == 0 ==> CalculateDelta(s, o, mu, w).value == 1.0
    ensures CalculateDelta(s, o, mu + 1, w).Ok? &&
            CalculateDelta(s, o, mu + 1, w).value <= CalculateDelta(s, o, mu, w).value
  {
    var scales := ScalesFor(s.problemNumber).value;
    var m := Maximise(s, o, scales).value;
    var raw := RawFactor(m, w).value;
    RawFactorBounds(m, w);
    PowInUnitInterval(raw, mu);
    assert CalculateDelta(s, o, mu, w).value == Pow(raw, mu);
    assert CalculateDelta(s, o, mu + 1, w).value == raw * Pow(raw, mu);
    ProductBounds(raw, Pow(raw, mu));
  }

  /** The delta fails exactly when the problem is unknown, normalisation
      fails, or the weights fail checkSum. */
  lemma CalculateDeltaFailsIff(s: Settings, o: Objectives, mu: nat, w: Weights)
    requires !w.HasNaN()
    ensures CalculateDelta(s, o, mu, w).Err? <==>
              ScalesFor(s.problemNumber).Err? ||
              Maximise(s, o, ScalesFor(s.problemNumber).value).Err? ||
              CheckSum(w) == SumIsOff
  {
    if ScalesFor(s.problemNumber).Ok? {
      var m := Maximise(s, o, ScalesFor(s.problemNumber).value);
      if m.Ok? {
        assert RawFactor(m.value, w).Ok? <==> CheckSum(w) != SumIsOff;
      }
    }
  }

  // ---------------------------------------------------------------------
  // Choosing the depositing path

  /** getPathsWithDomCount: the paths with domination count d, in colony
      order. */
  function WithDominationCount(colony: seq<Path>, d: nat): (r: seq<Path>)
    ensures forall p :: p in r <==> p in colony && p.dominationCount == d
    ensures |r| <= |colony|
  {
    if |colony| == 0 then []
    else (if colony[0].dominationCount == d then [colony[0]] else []) + WithDominationCount(colony[1..], d)
  }

  /** The domination count of the first non-empty Pareto front. */
  function LowestDominationCount(colony: seq<Path>): (r: nat)
    requires |colony| > 0
    ensures forall k :: 0 <= k < |colony| ==> r <= colony[k].dominationCount
    ensures exists k :: 0 <= k < |colony| && colony[k].dominationCount == r
  {
    if |colony| == 1 then colony[0].dominationCount
    else
      var rest := LowestDominationCount(colony[1..]);
      assert forall k :: 1 <= k < |colony| ==> colony[k] == colony[1..][k - 1];
      if colony[0].dominationCount <= rest then colony[0].dominationCount else rest
  }

  /** The path of the first non-empty front that the random draw selects:
      draw % n stands for the uniform choice among its n members. */
  function ParetoChoice(colony: seq<Path>, draw: nat): Path
    requires |colony| > 0
  {
    var front := WithDominationCount(colony, LowestDominationCount(colony));
    FrontNonEmpty(colony);
    front[draw % |front|]
  }

  /** The first non-empty front is not empty. */
  lemma FrontNonEmpty(colony: seq<Path>)
    requires |colony| > 0
    ensures |WithDominationCount(colony, LowestDominationCount(colony))| > 0
  {
    var k :| 0 <= k < |colony| && colony[k].dominationCount == LowestDominationCount(colony);
    assert colony[k] in WithDominationCount(colony, LowestDominationCount(colony));
  }

  /** The chosen path is a path of the colony that no other path of the
      colony beats on domination count. */
  lemma ParetoChoiceIsNonDominated(colony: seq<Path>, draw: nat)
    requires |colony| > 0
    ensures ParetoChoice(colony, draw) in colony
    ensures ParetoChoice(colony, draw).dominationCount == LowestDominationCount(colony)
    ensures forall k :: 0 <= k < |colony| ==>
              ParetoChoice(colony, draw).dominationCount <= colony[k].dominationCount
  {
    var front := WithDominationCount(colony, LowestDominationCount(colony));
    FrontNonEmpty(colony);
    assert ParetoChoice(colony, draw) == front[draw % |front|];
    assert front[draw % |front|] in front;
  }

  /** A draw below the size of the front picks that member of the front. */
  lemma ChoiceAt(colony: seq<Path>, i: nat)
    requires |colony| > 0
    requires i < |WithDominationCount(colony, LowestDominationCount(colony))|
    ensures ParetoChoice(colony, i) == WithDominationCount(colony, LowestDominationCount(colony))[i]
  {
    var front := WithDominationCount(colony, LowestDominationCount(colony));
    ModSmall(i, |front|);
    assert ParetoChoice(colony, i) == front[i % |front|];
  }

  /** Every member of the first non-empty front is the choice of some draw. */
  lemma ParetoChoiceReachesFront(colony: seq<Path>, q: Path)
    requires |colony| > 0
    requires q in colony && q.dominationCount == LowestDominationCount(colony)
    ensures exists d: nat :: ParetoChoice(colony, d) == q
  {
    var front := WithDominationCount(colony, LowestDominationCount(colony));
    assert q in front;
    var i :| 0 <= i < |front| && front[i] == q;
    ChoiceAt(colony, i);
  }

  /** The front walk of performParetoDominationBasedUpdate (and of
      performInteraction): count up from domination count 0 until a
      non-empty front turns up, then take the drawn member. */
  method ParetoWalk(colony: seq<Path>, draw: nat) returns (chosen: Path)
    requires |colony| > 0
    ensures chosen == ParetoChoice(colony, draw)
  {
    var lowest := LowestDominationCount(colony);
    var domCount := 0;
    var list := WithDominationCount(colony, domCount);
    FrontNonEmpty(colony);
    while |list| == 0
      invariant domCount <= lowest
      invariant list == WithDominationCount(colony, domCount)
      decreases lowest - domCount
    {
      domCount := domCount + 1;
      list := WithDominationCount(colony, domCount);
    }
    assert domCount == lowest by {
      var p := list[0];
      assert p in colony && p.dominationCount == domCount;
    }
    chosen := list[draw % |list|];
  }

  /** The path MMAS deposits for, and the weights it deposits with: the
      drawn member of the first front with the run's weights, or the
      colony's best path on the single objective with weights (1,0,0) for
      CBO and (0,1,0) for NAC. */
  function MMASChoice(s: Settings, colony: seq<Path>, bestCBO: Path, bestNAC: Path,
                      weights: Weights, draw: nat): (r: (Path, Weights))
    requires |colony| > 0
    ensures s.updateRule.ParetoBased? ==>
              r.0 in colony && r.1 == weights &&
              forall k :: 0 <= k < |colony| ==> r.0.dominationCount <= colony[k].dominationCount
    ensures s.updateRule == SingleObjectiveUpdate(SoCBO) ==> r.0 == bestCBO && CheckSum(r.1) == SumsToOne
    ensures s.updateRule == SingleObjectiveUpdate(SoNAC) ==> r.0 == bestNAC && CheckSum(r.1) == SumsToOne
  {
    match s.updateRule
    case ParetoBased =>
      ParetoChoiceIsNonDominated(colony, draw);
      (ParetoChoice(colony, draw), weights)
    case SingleObjectiveUpdate(SoCBO) => (bestCBO, OfReals(1.0, 0.0, 0.0))
    case SingleObjectiveUpdate(SoNAC) => (bestNAC, OfReals(0.0, 1.0, 0.0))
  }

  // ---------------------------------------------------------------------
  // update

  /** layPheromoneForWholePathSolution: one path deposits its delta. */
  function Deposit(s: Settings, t: Table, p: Path, mu: nat, w: Weights): (r: Result<Table, PheromoneError>)
    requires Square(t) && !w.HasNaN()
    ensures r.Ok? ==> Square(r.value) && |r.value| == |t|
  {
    var delta :- CalculateDelta(s, p.objectives, mu, w);
    LayPheromone(t, p.nodes, delta, s.algorithm == MMAS)
  }

  /** The Simple-ACO deposit: every whole-design path of the colony, in
      colony order; partial paths deposit nothing here. */
  function DepositColony(s: Settings, t: Table, colony: seq<Path>, mu: nat, w: Weights): (r: Result<Table, PheromoneError>)
    requires Square(t) && !w.HasNaN()
    ensures r.Ok? ==> Square(r.value) && |r.value| == |t|
    decreases |colony|
  {
    if |colony| == 0 then Ok(t)
    else if colony[0].role == WholeDesign then
      var t1 :- Deposit(s, t, colony[0], mu, w);
      DepositColony(s, t1, colony[1..], mu, w)
    else DepositColony(s, t, colony[1..], mu, w)
  }

  /** update: the colony must not be empty and mu must lie in [0,10]; MMAS
      deposits for exactly one path, Simple-ACO for every whole-design path. */
  function Update(s: Settings, t: Table, colony: seq<Path>, mu: nat, weights: Weights,
                  bestCBO: Path, bestNAC: Path, draw: nat): (r: Result<Table, PheromoneError>)
    requires Square(t) && !weights.HasNaN()
    ensures r.Ok? ==> Square(r.value) && |r.value| == |t|
    ensures |colony| == 0 ==> r == Err(EmptyColony)
    ensures |colony| > 0 && mu > 10 ==> r == Err(MuOutOfRange)
  {
    if |colony| == 0 then Err(EmptyColony)
    else if mu > 10 then Err(MuOutOfRange)
    else if s.algorithm == MMAS then
      var choice := MMASChoice(s, colony, bestCBO, bestNAC, weights, draw);
      assert !choice.1.HasNaN();
      Deposit(s, t, choice.0, mu, choice.1)
    else DepositColony(s, t, colony, mu, weights)
  }

  /** Under MMAS the update changes only the entries on the steps of the one
      chosen path, and leaves each of those within [0.5, 3.5]. */
  lemma MMASUpdateTouchesOnePath(s: Settings, t: Table, colony: seq<Path>, mu: nat, weights: Weights,
                                 bestCBO: Path, bestNAC: Path, draw: nat, x: int, y: int)
    requires Square(t) && !weights.HasNaN() && 0 <= x < |t| && 0 <= y < |t|
    requires s.algorithm == MMAS && |colony| > 0
    requires Update(s, t, colony, mu, weights, bestCBO, bestNAC, draw).Ok?
    ensures var chosen := MMASChoice(s, colony, bestCBO, bestNAC, weights, draw).0;
            var r := Update(s, t, colony, mu, weights, bestCBO, bestNAC, draw).value;
            ((forall k :: 0 <= k < |Edges(chosen.nodes)| ==> !Touches(Edges(chosen.nodes)[k], x, y)) ==>
               r[x][y] == t[x][y]) &&
            ((exists k :: 0 <= k < |Edges(chosen.nodes)| && Touches(Edges(chosen.nodes)[k], x, y)) ==>
               MMAS_PHEROMONE_MINIMUM <= r[x][y] <= MMAS_PHEROMONE_MAXIMUM)
  {
    var choice := MMASChoice(s, colony, bestCBO, bestNAC, weights, draw);
    var delta := CalculateDelta(s, choice.0.objectives, mu, choice.1).value;
    assert Update(s, t, colony, mu, weights, bestCBO, bestNAC, draw) == LayPheromone(t, choice.0.nodes, delta, true);
    LayPheromoneEntries(t, choice.0.nodes, delta, true, x, y);
  }

  /** In this model, which leaves out the cohesion deposit, a Simple-ACO
      colony of partial paths leaves the table as it is. */
  lemma {:induction false} PartialPathsDepositNothing(s: Settings, t: Table, colony: seq<Path>, mu: nat, w: Weights)
    requires Square(t) && !w.HasNaN()
    requires forall k :: 0 <= k < |colony| ==> colony[k].role == PartialClass
    decreases |colony|
    ensures DepositColony(s, t, colony, mu, w) == Ok(t)
  {
    if |colony| > 0 {
      assert forall k :: 0 <= k < |colony[1..]| ==> colony[1..][k] == colony[k + 1];
      PartialPathsDepositNothing(s, t, colony[1..], mu, w);
    }
  }

  /** Under Simple-ACO with non-negative weights, a symmetric table stays
      symmetric and no entry decreases. */
  lemma {:induction false} SimpleACONeverLowers(s: Settings, t: Table, colony: seq<Path>, mu: nat, w: Weights)
    requires Square(t) && Symmetric(t) && w.NonNegative() && s.algorithm == SimpleACO
    requires DepositColony(s, t, colony, mu, w).Ok?
    decreases |colony|
    ensures Symmetric(DepositColony(s, t, colony, mu, w).value)
    ensures forall x, y :: 0 <= x < |t| && 0 <= y < |t| ==>
              DepositColony(s, t, colony, mu, w).value[x][y] >= t[x][y]
  {
    if |colony| > 0 {
      var r := DepositColony(s, t, colony, mu, w).value;
      if colony[0].role == WholeDesign {
        var p := colony[0];
        var delta := CalculateDelta(s, p.objectives, mu, w).value;
        var t1 := Deposit(s, t, p, mu, w).value;
        var edges := Edges(p.nodes);
        assert t1 == DepositAll(t, edges, delta, false);
        DepositKeepsSymmetry(t, edges, delta, false);
        DepositNeverLowers(t, edges, delta);
        SimpleACONeverLowers(s, t1, colony[1..], mu, w);
      } else {
        SimpleACONeverLowers(s, t, colony[1..], mu, w);
      }
    }
  }

  /** The Simple-ACO loop of update over the colony. */
  method DepositColonyLoop(s: Settings, t: Table, colony: seq<Path>, mu: nat, w: Weights)
    returns (r: Result<Table, PheromoneError>)
    requires Square(t) && !w.HasNaN()
    ensures r == DepositColony(s, t, colony, mu, w)
  {
    var table := t;
    var i := 0;
    while i < |colony|
      invariant 0 <= i <= |colony|
      invariant Square(table) && |table| == |t|
      invariant DepositColony(s, t, colony, mu, w) == DepositColony(s, table, colony[i..], mu, w)
    {
      var p := colony[i];
      assert colony[i..][1..] == colony[i + 1..];
      if p.role == WholeDesign {
        var d := Deposit(s, table, p, mu, w);
        if d.Err? {
          return Err(d.error);
        }
        table := d.value;
      }
      i := i + 1;
    }
    return Ok(table);
  }
}
