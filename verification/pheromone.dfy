/** PheromoneOperators on the pheromone table: evaporation, deposit along a
    path, and the class-freeze overwrite. The table is an N x N matrix of
    reals indexed by vertex number. */
module Pheromone {
  import opened Results
  import opened Numerics
  import opened Graph
  import opened Design
  import Config

  type Table = seq<seq<real>>

  /** The table is N x N. */
  predicate Square(t: Table)
  {
    forall i :: 0 <= i < |t| ==> |t[i]| == |t|
  }

  predicate NonNegative(t: Table)
  {
    forall i, j :: 0 <= i < |t| && 0 <= j < |t[i]| ==> t[i][j] >= 0.0
  }

  predicate Symmetric(t: Table)
    requires Square(t)
  {
    forall i, j :: 0 <= i < |t| && 0 <= j < |t| ==> t[i][j] == t[j][i]
  }

  predicate InRange(t: Table, i: int)
  {
    0 <= i < |t|
  }

  /** The ways an operator on the table fails (failed assertions and reads
      outside the table), all fatal. */
  datatype PheromoneError =
    | RhoOutOfRange
    | FlatTable
    | VertexOutOfRange
    | FinalNodeNotEndOfClass
    | UnknownProblem
    | CouplingOutOfRange
    | NegativeElegance
    | NoObjectiveSelected
    | WeightsDoNotSumToOne
    | EmptyColony
    | MuOutOfRange
    | ObjectiveOutOfRange

  /** The entry (i, j) set to v, everything else as it was. */
  function Set(t: Table, i: int, j: int, v: real): (r: Table)
    requires Square(t) && InRange(t, i) && InRange(t, j)
    ensures Square(r) && |r| == |t|
  {
    t[i := t[i][j := v]]
  }

  /** Set writes entry (i, j) and no other. */
  lemma SetEntries(t: Table, i: int, j: int, v: real)
    requires Square(t) && InRange(t, i) && InRange(t, j)
    ensures Set(t, i, j, v)[i][j] == v
    ensures forall x, y :: 0 <= x < |t| && 0 <= y < |t| && (x != i || y != j) ==>
              Set(t, i, j, v)[x][y] == t[x][y]
  {
  }

  // ---------------------------------------------------------------------
  // Evaporation

  /** The spread of elitist evaporation around the median. */
  const ELITIST_FACTOR: real := 0.02

  /** The start values of the scan for the lowest and the highest entry. */
  const LOWEST_START: real := 1000000.0
  const HIGHEST_START: real := 0.0

  /** The scan of one row for a smaller value than `start`. */
  function RowLowest(row: seq<real>, start: real): (r: real)
    ensures r <= start
    ensures forall j :: 0 <= j < |row| ==> r <= row[j]
    ensures r == start || exists j :: 0 <= j < |row| && r == row[j]
  {
    if |row| == 0 then start
    else
      var m := RowLowest(row[..|row| - 1], start);
      if row[|row| - 1] < m then row[|row| - 1] else m
  }

  function RowHighest(row: seq<real>, start: real): (r: real)
    ensures r >= start
    ensures forall j :: 0 <= j < |row| ==> r >= row[j]
    ensures r == start || exists j :: 0 <= j < |row| && r == row[j]
  {
    if |row| == 0 then start
    else
      var m := RowHighest(row[..|row| - 1], start);
      if row[|row| - 1] > m then row[|row| - 1] else m
  }

  /** The lowest value met scanning the table row by row from `start`: the
      minimum of `start` and every entry. */
  function TableLowest(t: Table, start: real): (r: real)
    ensures r <= start
    ensures forall i, j :: 0 <= i < |t| && 0 <= j < |t[i]| ==> r <= t[i][j]
    ensures r == start || exists i, j :: 0 <= i < |t| && 0 <= j < |t[i]| && r == t[i][j]
  {
    if |t| == 0 then start
    else
      var init := t[..|t| - 1];
      var m := TableLowest(init, start);
      assert forall i :: 0 <= i < |init| ==> init[i] == t[i];
      RowLowest(t[|t| - 1], m)
  }

  /** The highest value met scanning the table from `start`. */
  function TableHighest(t: Table, start: real): (r: real)
    ensures r >= start
    ensures forall i, j :: 0 <= i < |t| && 0 <= j < |t[i]| ==> r >= t[i][j]
    ensures r == start || exists i, j :: 0 <= i < |t| && 0 <= j < |t[i]| && r == t[i][j]
  {
    if |t| == 0 then start
    else
      var init := t[..|t| - 1];
      var m := TableHighest(init, start);
      assert forall i :: 0 <= i < |init| ==> init[i] == t[i];
      RowHighest(t[|t| - 1], m)
  }

  /** The midpoint of the lowest and the highest entry. */
  function Median(lowest: real, highest: real): real
  {
    lowest + (highest - lowest) / 2.0
  }

  /** The multiplier elitist evaporation applies to an entry p, given the
      evaporation factor 1 - rho. */
  function ElitistMultiplier(p: real, factor: real, lowest: real, highest: real): real
    requires 0.0 <= lowest < highest
  {
    var median := Median(lowest, highest);
    if p > median then factor * (1.0 - ((highest - p) / median) * ELITIST_FACTOR)
    else if p < median then factor * (1.0 + ((median - p) / median) * ELITIST_FACTOR)
    else 1.0
  }

  /** Every entry scaled by the same factor. */
  function UniformTable(t: Table, factor: real): (r: Table)
    ensures |r| == |t|
    ensures forall i :: 0 <= i < |t| ==> |r[i]| == |t[i]|
    ensures forall i, j :: 0 <= i < |t| && 0 <= j < |t[i]| ==> r[i][j] == t[i][j] * factor
  {
    seq(|t|, i requires 0 <= i < |t| =>
      seq(|t[i]|, j requires 0 <= j < |t[i]| => t[i][j] * factor))
  }

  /** Every entry p scaled by its elitist multiplier. */
  function ElitistTable(t: Table, factor: real, lowest: real, highest: real): (r: Table)
    requires 0.0 <= lowest < highest
    ensures |r| == |t|
    ensures forall i :: 0 <= i < |t| ==> |r[i]| == |t[i]|
    ensures forall i, j :: 0 <= i < |t| && 0 <= j < |t[i]| ==>
              r[i][j] == t[i][j] * ElitistMultiplier(t[i][j], factor, lowest, highest)
  {
    seq(|t|, i requires 0 <= i < |t| =>
      seq(|t[i]|, j requires 0 <= j < |t[i]| =>
        t[i][j] * ElitistMultiplier(t[i][j], factor, lowest, highest)))
  }

  /** evaporate: rho must lie in [0,1]; in elitist mode the table must not be
      flat. An elitist table is assumed non-negative (see README). */
  function Evaporate(t: Table, rho: real, elitism: bool): Result<Table, PheromoneError>
    requires Square(t)
    requires elitism ==> NonNegative(t)
  {
    if !(0.0 <= rho <= 1.0) then Err(RhoOutOfRange)
    else if !elitism then Ok(UniformTable(t, 1.0 - rho))
    else
      var lowest := TableLowest(t, LOWEST_START);
      var highest := TableHighest(t, HIGHEST_START);
      if highest <= lowest then Err(FlatTable)
      else
        Ok(ElitistTable(t, 1.0 - rho, lowest, highest))
  }

  /** Evaporation fails exactly when rho is outside [0,1] or, in elitist
      mode, every entry equals the scan's common bound. */
  lemma EvaporateFailsIff(t: Table, rho: real, elitism: bool)
    requires Square(t)
    requires elitism ==> NonNegative(t)
    ensures Evaporate(t, rho, elitism).Err? <==>
              !(0.0 <= rho <= 1.0) ||
              (elitism && TableHighest(t, HIGHEST_START) <= TableLowest(t, LOWEST_START))
    ensures !(0.0 <= rho <= 1.0) ==> Evaporate(t, rho, elitism) == Err(RhoOutOfRange)
  {
  }

  /** Uniform evaporation scales every entry by 1 - rho: non-negative entries
      stay non-negative and never grow, and symmetry is kept. */
  lemma UniformEvaporation(t: Table, rho: real)
    requires Square(t) && 0.0 <= rho <= 1.0
    ensures Evaporate(t, rho, false).Ok?
    ensures var r := Evaporate(t, rho, false).value;
            Square(r) && |r| == |t| &&
            (forall i, j :: 0 <= i < |t| && 0 <= j < |t| ==>
               r[i][j] == t[i][j] * (1.0 - rho) &&
               (t[i][j] >= 0.0 ==> 0.0 <= r[i][j] <= t[i][j])) &&
            (Symmetric(t) ==> Symmetric(r))
  {
    var r := Evaporate(t, rho, false).value;
    forall i, j | 0 <= i < |t| && 0 <= j < |t| && t[i][j] >= 0.0
      ensures 0.0 <= r[i][j] <= t[i][j]
    {
      assert r[i][j] == t[i][j] * (1.0 - rho);
      NonNegativeScaledDown(t[i][j], 1.0 - rho);
    }
  }

  lemma NonNegativeScaledDown(p: real, f: real)
    requires p >= 0.0 && 0.0 <= f <= 1.0
    ensures 0.0 <= p * f <= p
  {
    assert p * (1.0 - f) >= 0.0;
  }

  /** Uniform evaporation n times over. */
  function EvaporateUniformly(t: Table, rho: real, n: nat): (r: Table)
    decreases n
    ensures |r| == |t|
    ensures forall i :: 0 <= i < |t| ==> |r[i]| == |t[i]|
  {
    if n == 0 then t else EvaporateUniformly(UniformTable(t, 1.0 - rho), rho, n - 1)
  }

  /** Uniform evaporation n times over scales every entry by (1 - rho)^n. */
  lemma {:induction false} RepeatedUniformEvaporation(t: Table, rho: real, n: nat)
    decreases n
    ensures forall i, j :: 0 <= i < |t| && 0 <= j < |t[i]| ==>
              EvaporateUniformly(t, rho, n)[i][j] == t[i][j] * Pow(1.0 - rho, n)
  {
    if n > 0 {
      var f := 1.0 - rho;
      var once := UniformTable(t, f);
      RepeatedUniformEvaporation(once, rho, n - 1);
      forall i, j | 0 <= i < |t| && 0 <= j < |t[i]|
        ensures EvaporateUniformly(t, rho, n)[i][j] == t[i][j] * Pow(f, n)
      {
        var p := t[i][j];
        var q := Pow(f, n - 1);
        assert once[i][j] == p * f;
        assert EvaporateUniformly(t, rho, n)[i][j] == (p * f) * q;
        assert (p * f) * q == p * (f * q);
      }
    }
  }

  /** evaporate called n times in a row in uniform mode, stopping at the
      first failure. */
  function EvaporateTimes(t: Table, rho: real, n: nat): (r: Result<Table, PheromoneError>)
    requires Square(t)
    decreases n
  {
    if n == 0 then Ok(t)
    else
      var once :- Evaporate(t, rho, false);
      EvaporateTimes(once, rho, n - 1)
  }

  /** For rho in [0,1], n uniform evaporate calls all succeed and leave the
      table that n rounds of uniform evaporation describe. */
  lemma {:induction false} EvaporateUniformlyIsRepeatedEvaporate(t: Table, rho: real, n: nat)
    requires Square(t) && 0.0 <= rho <= 1.0
    decreases n
    ensures EvaporateTimes(t, rho, n) == Ok(EvaporateUniformly(t, rho, n))
  {
    if n > 0 {
      var once := UniformTable(t, 1.0 - rho);
      assert Evaporate(t, rho, false) == Ok(once);
      EvaporateUniformlyIsRepeatedEvaporate(once, rho, n - 1);
    }
  }

  /** How elitist evaporation takes entry p to q, with lowest =
      min(10^6, entries), highest = max(0, entries) and the median their
      midpoint: an entry above the median is scaled by
      (1 - rho)(1 - 0.02 (highest - p)/median), one below by
      (1 - rho)(1 + 0.02 (median - p)/median), and one at the median is left
      as it is. Contrary to the comments beside the code, an entry above the
      median therefore loses at least the uniform share and one below loses
      at most that share. */
  predicate ElitistEvaporated(p: real, q: real, rho: real, lowest: real, highest: real)
    requires 0.0 <= lowest < highest
  {
    var median := Median(lowest, highest);
    q >= 0.0 &&
    (p > median ==>
       q == p * ((1.0 - rho) * (1.0 - ((highest - p) / median) * ELITIST_FACTOR)) &&
       q <= p * (1.0 - rho)) &&
    (p < median ==>
       q == p * ((1.0 - rho) * (1.0 + ((median - p) / median) * ELITIST_FACTOR)) &&
       q >= p * (1.0 - rho)) &&
    (p == median ==> q == p)
  }

  /** Elitist evaporation takes every entry as ElitistEvaporated describes;
      the table stays square and non-negative. */
  lemma ElitistEvaporation(t: Table, rho: real)
    requires Square(t) && NonNegative(t) && 0.0 <= rho <= 1.0
    requires TableLowest(t, LOWEST_START) < TableHighest(t, HIGHEST_START)
    ensures Evaporate(t, rho, true).Ok?
    ensures var r := Evaporate(t, rho, true).value;
            Square(r) && |r| == |t| && NonNegative(r) &&
            forall i, j :: 0 <= i < |t| && 0 <= j < |t| ==>
              ElitistEvaporated(t[i][j], r[i][j], rho,
                                TableLowest(t, LOWEST_START), TableHighest(t, HIGHEST_START))
  {
    var lowest := TableLowest(t, LOWEST_START);
    var highest := TableHighest(t, HIGHEST_START);
    assert lowest >= 0.0;
    var r := ElitistTable(t, 1.0 - rho, lowest, highest);
    assert Evaporate(t, rho, true) == Ok(r);
    ElitistTableEntries(t, r, rho, lowest, highest);
  }

  lemma ElitistTableEntries(t: Table, r: Table, rho: real, lowest: real, highest: real)
    requires Square(t) && 0.0 <= rho <= 1.0 && 0.0 <= lowest < highest
    requires forall i, j :: 0 <= i < |t| && 0 <= j < |t| ==> lowest <= t[i][j] <= highest
    requires r == ElitistTable(t, 1.0 - rho, lowest, highest)
    ensures Square(r) && |r| == |t| && NonNegative(r)
    ensures forall i, j :: 0 <= i < |t| && 0 <= j < |t| ==>
              ElitistEvaporated(t[i][j], r[i][j], rho, lowest, highest)
  {
    forall i, j | 0 <= i < |t| && 0 <= j < |t|
      ensures ElitistEvaporated(t[i][j], r[i][j], rho, lowest, highest)
    {
      ElitistEntry(t[i][j], r[i][j], rho, lowest, highest);
    }
  }

  /** An entry p >= 0 scaled by factor * s, against the uniform factor. */
  lemma ScaledEntry(p: real, factor: real, s: real)
    requires p >= 0.0 && 0.0 <= factor <= 1.0 && s >= 0.0
    ensures p * (factor * s) >= 0.0
    ensures s <= 1.0 ==> p * (factor * s) <= p * factor
    ensures s >= 1.0 ==> p * (factor * s) >= p * factor
  {
    ScaledDown(p, factor);
    var a := p * factor;
    assert p * (factor * s) == a * s;
    if s <= 1.0 {
      ScaledDown(a, s);
    } else {
      ScaledUp(a, s);
    }
  }

  /** An entry above the median, scaled by (1 - rho)(1 - 0.02 d), d in [0,1]. */
  lemma ElitistAbove(p: real, rho: real, lowest: real, highest: real)
    requires 0.0 <= lowest < highest && Median(lowest, highest) < p <= highest && 0.0 <= rho <= 1.0
    ensures var q := p * ElitistMultiplier(p, 1.0 - rho, lowest, highest);
            0.0 <= q <= p * (1.0 - rho)
  {
    var factor := 1.0 - rho;
    var median := Median(lowest, highest);
    var d := (highest - p) / median;
    FractionOfWhole(highest - p, median);
    assert ElitistMultiplier(p, factor, lowest, highest) == factor * (1.0 - d * ELITIST_FACTOR);
    ScaledEntry(p, factor, 1.0 - d * ELITIST_FACTOR);
  }

  /** An entry below the median, scaled by (1 - rho)(1 + 0.02 d), d in [0,1]. */
  lemma ElitistBelow(p: real, rho: real, lowest: real, highest: real)
    requires 0.0 <= lowest < highest && 0.0 <= p < Median(lowest, highest) && 0.0 <= rho <= 1.0
    ensures var q := p * ElitistMultiplier(p, 1.0 - rho, lowest, highest);
            q >= 0.0 && q >= p * (1.0 - rho)
  {
    var factor := 1.0 - rho;
    var median := Median(lowest, highest);
    var d := (median - p) / median;
    FractionOfWhole(median - p, median);
    assert ElitistMultiplier(p, factor, lowest, highest) == factor * (1.0 + d * ELITIST_FACTOR);
    ScaledEntry(p, factor, 1.0 + d * ELITIST_FACTOR);
  }

  /** One entry under elitist evaporation, for 0 <= lowest <= p <= highest. */
  lemma ElitistEntry(p: real, q: real, rho: real, lowest: real, highest: real)
    requires 0.0 <= lowest < highest && lowest <= p <= highest && 0.0 <= rho <= 1.0
    requires q == p * ElitistMultiplier(p, 1.0 - rho, lowest, highest)
    ensures ElitistEvaporated(p, q, rho, lowest, highest)
  {
    var median := Median(lowest, highest);
    if p > median {
      ElitistAbove(p, rho, lowest, highest);
    } else if p < median {
      ElitistBelow(p, rho, lowest, highest);
    }
  }

  // ---------------------------------------------------------------------
  // Deposit along a path

  /** A step of an ant between two vertices. */
  datatype Edge = Edge(from: int, to: int)

  /** The steps that receive pheromone: consecutive vertices of the path,
      leaving out the step into the final EndOfClass marker. */
  function Edges(nodes: seq<Node>): (r: seq<Edge>)
    ensures |nodes| < 3 ==> |r| == 0
    ensures |nodes| >= 3 ==> |r| == |nodes| - 2
    ensures forall k :: 0 <= k < |r| ==> r[k] == Edge(nodes[k].number, nodes[k + 1].number)
  {
    if |nodes| < 3 then []
    else seq(|nodes| - 2, k requires 0 <= k < |nodes| - 2 => Edge(nodes[k].number, nodes[k + 1].number))
  }

  predicate EdgesInRange(t: Table, edges: seq<Edge>)
  {
    forall k :: 0 <= k < |edges| ==> InRange(t, edges[k].from) && InRange(t, edges[k].to)
  }

  /** Whether an edge writes entry (i, j): it writes both orientations. */
  predicate Touches(e: Edge, i: int, j: int)
  {
    (e.from == i && e.to == j) || (e.from == j && e.to == i)
  }

  /** The MAX-MIN clamp, applied under MMAS only. */
  function Clamp(v: real, mmas: bool): (r: real)
    ensures mmas ==> Config.MMAS_PHEROMONE_MINIMUM <= r <= Config.MMAS_PHEROMONE_MAXIMUM
    ensures mmas && Config.MMAS_PHEROMONE_MINIMUM <= v <= Config.MMAS_PHEROMONE_MAXIMUM ==> r == v
    ensures !mmas ==> r == v
  {
    if !mmas then v
    else
      var low := if v < Config.MMAS_PHEROMONE_MINIMUM then Config.MMAS_PHEROMONE_MINIMUM else v;
      if low > Config.MMAS_PHEROMONE_MAXIMUM then Config.MMAS_PHEROMONE_MAXIMUM else low
  }

  /** One step: entry(from, to) + delta, clamped under MMAS, written to both
      orientations. */
  function DepositEdge(t: Table, e: Edge, delta: real, mmas: bool): (r: Table)
    requires Square(t) && InRange(t, e.from) && InRange(t, e.to)
    ensures Square(r) && |r| == |t|
  {
    var v := Clamp(t[e.from][e.to] + delta, mmas);
    Set(Set(t, e.from, e.to, v), e.to, e.from, v)
  }

  /** The steps taken in order; each reads the table the previous left. */
  function DepositAll(t: Table, edges: seq<Edge>, delta: real, mmas: bool): (r: Table)
    requires Square(t) && EdgesInRange(t, edges)
    ensures Square(r) && |r| == |t|
    decreases |edges|
  {
    if |edges| == 0 then t
    else DepositAll(DepositEdge(t, edges[0], delta, mmas), edges[1..], delta, mmas)
  }

  /** layPheromoneForWholePathSolution with its delta already computed. */
  function LayPheromone(t: Table, nodes: seq<Node>, delta: real, mmas: bool): (r: Result<Table, PheromoneError>)
    requires Square(t)
    ensures r.Ok? ==> Square(r.value) && |r.value| == |t|
  {
    if !EdgesInRange(t, Edges(nodes)) then Err(VertexOutOfRange)
    else if |nodes| >= 2 && nodes[|nodes| - 1].kind != EndOfClass then Err(FinalNodeNotEndOfClass)
    else Ok(DepositAll(t, Edges(nodes), delta, mmas))
  }

  /** Depositing along one more edge. */
  lemma {:induction false} DepositAllSnoc(t: Table, edges: seq<Edge>, e: Edge, delta: real, mmas: bool)
    requires Square(t) && EdgesInRange(t, edges) && InRange(t, e.from) && InRange(t, e.to)
    decreases |edges|
    ensures DepositAll(t, edges + [e], delta, mmas)
         == DepositEdge(DepositAll(t, edges, delta, mmas), e, delta, mmas)
  {
    assert EdgesInRange(t, edges + [e]);
    if |edges| > 0 {
      var t1 := DepositEdge(t, edges[0], delta, mmas);
      var tail := edges[1..];
      assert (edges + [e])[1..] == tail + [e];
      assert EdgesInRange(t1, tail);
      DepositAllSnoc(t1, tail, e, delta, mmas);
    } else {
      assert edges + [e] == [e];
    }
  }

  /** The deposit loop over the vertices of the path, as the source writes
      it: the first vertex starts the first step, each middle vertex ends one
      step and starts the next, and the final vertex must be an EndOfClass
      marker and receives nothing. */
  method LayPheromoneLoop(t: Table, nodes: seq<Node>, delta: real, mmas: bool)
    returns (r: Result<Table, PheromoneError>)
    requires Square(t)
    ensures r == LayPheromone(t, nodes, delta, mmas)
  {
    if |nodes| < 2 {
      return Ok(t);
    }
    ghost var edges := Edges(nodes);
    var table := t;
    var finalNode := |nodes| - 1;
    var from := nodes[0].number;
    var i := 1;
    while i < finalNode
      invariant 1 <= i <= finalNode
      invariant from == nodes[i - 1].number
      invariant EdgesInRange(t, edges[..i - 1])
      invariant Square(table) && |table| == |t|
      invariant table == DepositAll(t, edges[..i - 1], delta, mmas)
    {
      var to := nodes[i].number;
      assert edges[i - 1] == Edge(from, to);
      if !(InRange(table, from) && InRange(table, to)) {
        return Err(VertexOutOfRange);
      }
      var e := Edge(from, to);
      ghost var prev := edges[..i - 1];
      assert EdgesInRange(t, prev + [e]);
      assert edges[..i] == prev + [e];
      DepositAllSnoc(t, prev, e, delta, mmas);
      table := DepositEdge(table, e, delta, mmas);
      assert table == DepositAll(t, prev + [e], delta, mmas);
      from := to;
      i := i + 1;
    }
    assert edges[..i - 1] == edges;
    if nodes[finalNode].kind != EndOfClass {
      return Err(FinalNodeNotEndOfClass);
    }
    return Ok(table);
  }

  /** One step writes Clamp(entry(from, to) + delta) to the two entries it
      touches and leaves every other entry as it was. */
  lemma DepositEdgeEntries(t: Table, e: Edge, delta: real, mmas: bool)
    requires Square(t) && InRange(t, e.from) && InRange(t, e.to)
    ensures forall x, y :: 0 <= x < |t| && 0 <= y < |t| ==>
              DepositEdge(t, e, delta, mmas)[x][y]
              == (if Touches(e, x, y) then Clamp(t[e.from][e.to] + delta, mmas) else t[x][y])
  {
    var v := Clamp(t[e.from][e.to] + delta, mmas);
    SetEntries(t, e.from, e.to, v);
    SetEntries(Set(t, e.from, e.to, v), e.to, e.from, v);
  }

  /** An entry no step touches keeps its value. */
  lemma {:induction false} DepositUntouched(t: Table, edges: seq<Edge>, delta: real, mmas: bool, x: int, y: int)
    requires Square(t) && EdgesInRange(t, edges) && 0 <= x < |t| && 0 <= y < |t|
    requires forall k :: 0 <= k < |edges| ==> !Touches(edges[k], x, y)
    decreases |edges|
    ensures DepositAll(t, edges, delta, mmas)[x][y] == t[x][y]
  {
    if |edges| > 0 {
      var t1 := DepositEdge(t, edges[0], delta, mmas);
      DepositEdgeEntries(t, edges[0], delta, mmas);
      assert forall k :: 0 <= k < |edges[1..]| ==> edges[1..][k] == edges[k + 1];
      DepositUntouched(t1, edges[1..], delta, mmas, x, y);
    }
  }

  /** Under MMAS an entry is either left alone or ends within the bounds. */
  lemma {:induction false} DepositUnchangedOrBounded(t: Table, edges: seq<Edge>, delta: real, x: int, y: int)
    requires Square(t) && EdgesInRange(t, edges) && 0 <= x < |t| && 0 <= y < |t|
    decreases |edges|
    ensures var r := DepositAll(t, edges, delta, true);
            r[x][y] == t[x][y] ||
            Config.MMAS_PHEROMONE_MINIMUM <= r[x][y] <= Config.MMAS_PHEROMONE_MAXIMUM
  {
    if |edges| > 0 {
      var t1 := DepositEdge(t, edges[0], delta, true);
      DepositEdgeEntries(t, edges[0], delta, true);
      assert forall k :: 0 <= k < |edges[1..]| ==> edges[1..][k] == edges[k + 1];
      DepositUnchangedOrBounded(t1, edges[1..], delta, x, y);
    }
  }

  /** Under MMAS every entry some step touches ends within [0.5, 3.5]. */
  lemma {:induction false} DepositTouchedBounded(t: Table, edges: seq<Edge>, delta: real, x: int, y: int, k: nat)
    requires Square(t) && EdgesInRange(t, edges) && 0 <= x < |t| && 0 <= y < |t|
    requires k < |edges| && Touches(edges[k], x, y)
    decreases |edges|
    ensures Config.MMAS_PHEROMONE_MINIMUM <= DepositAll(t, edges, delta, true)[x][y] <= Config.MMAS_PHEROMONE_MAXIMUM
  {
    var t1 := DepositEdge(t, edges[0], delta, true);
    DepositEdgeEntries(t, edges[0], delta, true);
    assert forall i :: 0 <= i < |edges[1..]| ==> edges[1..][i] == edges[i + 1];
    if k == 0 {
      DepositUnchangedOrBounded(t1, edges[1..], delta, x, y);
    } else {
      DepositTouchedBounded(t1, edges[1..], delta, x, y, k - 1);
    }
  }

  /** An entry touched by exactly one step k ends as Clamp(entry + delta),
      the entry read from the table as it was before the deposit. */
  lemma {:induction false} DepositTouchedOnce(t: Table, edges: seq<Edge>, delta: real, mmas: bool, x: int, y: int, k: nat)
    requires Square(t) && EdgesInRange(t, edges) && 0 <= x < |t| && 0 <= y < |t|
    requires k < |edges| && Touches(edges[k], x, y)
    requires forall i :: 0 <= i < |edges| && i != k ==> !Touches(edges[i], x, y)
    decreases |edges|
    ensures DepositAll(t, edges, delta, mmas)[x][y] == Clamp(t[edges[k].from][edges[k].to] + delta, mmas)
  {
    var t1 := DepositEdge(t, edges[0], delta, mmas);
    DepositEdgeEntries(t, edges[0], delta, mmas);
    var tail := edges[1..];
    assert forall i :: 0 <= i < |tail| ==> tail[i] == edges[i + 1];
    if k == 0 {
      DepositUntouched(t1, tail, delta, mmas, x, y);
    } else {
      var e := edges[k];
      assert !Touches(edges[0], e.from, e.to);
      assert t1[e.from][e.to] == t[e.from][e.to];
      DepositTouchedOnce(t1, tail, delta, mmas, x, y, k - 1);
    }
  }

  /** Every step writes both orientations, so a symmetric table stays
      symmetric. */
  lemma {:induction false} DepositKeepsSymmetry(t: Table, edges: seq<Edge>, delta: real, mmas: bool)
    requires Square(t) && EdgesInRange(t, edges) && Symmetric(t)
    decreases |edges|
    ensures Symmetric(DepositAll(t, edges, delta, mmas))
  {
    if |edges| > 0 {
      var t1 := DepositEdge(t, edges[0], delta, mmas);
      DepositEdgeEntries(t, edges[0], delta, mmas);
      assert Symmetric(t1) by {
        forall x, y | 0 <= x < |t| && 0 <= y < |t| ensures t1[x][y] == t1[y][x] {
          assert Touches(edges[0], x, y) <==> Touches(edges[0], y, x);
        }
      }
      DepositKeepsSymmetry(t1, edges[1..], delta, mmas);
    }
  }

  /** Without the clamp, a non-negative delta on a symmetric table never
      lowers an entry. */
  lemma {:induction false} DepositNeverLowers(t: Table, edges: seq<Edge>, delta: real)
    requires Square(t) && EdgesInRange(t, edges) && Symmetric(t) && delta >= 0.0
    decreases |edges|
    ensures forall x, y :: 0 <= x < |t| && 0 <= y < |t| ==>
              DepositAll(t, edges, delta, false)[x][y] >= t[x][y]
  {
    if |edges| > 0 {
      var t1 := DepositEdge(t, edges[0], delta, false);
      DepositEdgeEntries(t, edges[0], delta, false);
      DepositKeepsSymmetry(t, [edges[0]], delta, false);
      assert DepositAll(t, [edges[0]], delta, false) == t1;
      DepositNeverLowers(t1, edges[1..], delta);
    }
  }

  /** layPheromoneForWholePathSolution: on success the entries the path's
      steps do not touch are unchanged, and under MMAS the touched ones lie
      within [0.5, 3.5]. */
  lemma LayPheromoneEntries(t: Table, nodes: seq<Node>, delta: real, mmas: bool, x: int, y: int)
    requires Square(t) && 0 <= x < |t| && 0 <= y < |t|
    requires LayPheromone(t, nodes, delta, mmas).Ok?
    ensures var r := LayPheromone(t, nodes, delta, mmas).value;
            ((forall k :: 0 <= k < |Edges(nodes)| ==> !Touches(Edges(nodes)[k], x, y)) ==> r[x][y] == t[x][y]) &&
            (mmas && (exists k :: 0 <= k < |Edges(nodes)| && Touches(Edges(nodes)[k], x, y)) ==>
               Config.MMAS_PHEROMONE_MINIMUM <= r[x][y] <= Config.MMAS_PHEROMONE_MAXIMUM)
  {
    var edges := Edges(nodes);
    if forall k :: 0 <= k < |edges| ==> !Touches(edges[k], x, y) {
      DepositUntouched(t, edges, delta, mmas, x, y);
    } else if mmas {
      var k :| 0 <= k < |edges| && Touches(edges[k], x, y);
      DepositTouchedBounded(t, edges, delta, x, y, k);
    }
  }

  /** The step from vertex k to vertex k + 1 leaves the table. */
  predicate StepOutside(t: Table, nodes: seq<Node>, k: nat)
    requires k + 1 < |nodes|
  {
    !(InRange(t, nodes[k].number) && InRange(t, nodes[k + 1].number))
  }

  /** layPheromoneForWholePathSolution fails exactly when a step before the
      final vertex leaves the table, or a path of two or more vertices does
      not end with a marker. */
  lemma LayPheromoneFailsIff(t: Table, nodes: seq<Node>, delta: real, mmas: bool)
    requires Square(t)
    ensures LayPheromone(t, nodes, delta, mmas).Err? <==>
              (exists k: nat :: k < |nodes| - 2 && StepOutside(t, nodes, k)) ||
              (|nodes| >= 2 && nodes[|nodes| - 1].kind != EndOfClass)
  {
    var edges := Edges(nodes);
    if !EdgesInRange(t, edges) {
      var k :| 0 <= k < |edges| && !(InRange(t, edges[k].from) && InRange(t, edges[k].to));
      assert k < |nodes| - 2 && StepOutside(t, nodes, k);
    }
    if exists k: nat :: k < |nodes| - 2 && StepOutside(t, nodes, k) {
      var k: nat :| k < |nodes| - 2 && StepOutside(t, nodes, k);
      assert edges[k] == Edge(nodes[k].number, nodes[k + 1].number);
    }
  }

  // ---------------------------------------------------------------------
  // Freezing classes

  /** The value freezeUpdate writes: high enough to fix the class. */
  const FREEZE_DELTA: real := 1000000.0

  /** The (method, attribute) pairs of one method against a class's
      attributes, in attribute order. */
  function MethodPairs(m: Node, attributes: seq<Node>): (r: seq<Edge>)
    ensures |r| == |attributes|
    ensures forall j :: 0 <= j < |r| ==> r[j] == Edge(m.number, attributes[j].number)
  {
    seq(|attributes|, j requires 0 <= j < |attributes| => Edge(m.number, attributes[j].number))
  }

  /** All (method, attribute) pairs of a class, methods outermost. */
  function ClassPairs(methods: seq<Node>, attributes: seq<Node>): seq<Edge>
  {
    if |methods| == 0 then [] else MethodPairs(methods[0], attributes) + ClassPairs(methods[1..], attributes)
  }

  /** The pairs of every class of the freeze list, in list order. */
  function FreezePairs(freezeList: seq<DesignClass>): seq<Edge>
  {
    if |freezeList| == 0 then []
    else ClassPairs(freezeList[0].methods, freezeList[0].attributes) + FreezePairs(freezeList[1..])
  }

  /** Each pair written to FREEZE_DELTA in both orientations. */
  function Overwrite(t: Table, pairs: seq<Edge>): (r: Table)
    requires Square(t) && EdgesInRange(t, pairs)
    ensures Square(r) && |r| == |t|
    decreases |pairs|
  {
    if |pairs| == 0 then t
    else
      var e := pairs[0];
      Overwrite(Set(Set(t, e.from, e.to, FREEZE_DELTA), e.to, e.from, FREEZE_DELTA), pairs[1..])
  }

  /** freezeUpdate: a vertex number outside the table is an error. */
  function FreezeUpdate(t: Table, freezeList: seq<DesignClass>): Result<Table, PheromoneError>
    requires Square(t)
  {
    var pairs := FreezePairs(freezeList);
    if !EdgesInRange(t, pairs) then Err(VertexOutOfRange) else Ok(Overwrite(t, pairs))
  }

  /** A pair belongs to a class exactly when it joins one of its methods to
      one of its attributes. */
  lemma {:induction false} ClassPairsMembers(methods: seq<Node>, attributes: seq<Node>, e: Edge)
    ensures e in ClassPairs(methods, attributes) <==>
              exists i, j :: 0 <= i < |methods| && 0 <= j < |attributes| &&
                e == Edge(methods[i].number, attributes[j].number)
  {
    if |methods| > 0 {
      ClassPairsMembers(methods[1..], attributes, e);
      if e in ClassPairs(methods, attributes) {
        if e in MethodPairs(methods[0], attributes) {
          var j :| 0 <= j < |attributes| && MethodPairs(methods[0], attributes)[j] == e;
          assert e == Edge(methods[0].number, attributes[j].number);
        } else {
          var i, j :| 0 <= i < |methods[1..]| && 0 <= j < |attributes| &&
                      e == Edge(methods[1..][i].number, attributes[j].number);
          assert e == Edge(methods[i + 1].number, attributes[j].number);
        }
      }
      if exists i, j :: 0 <= i < |methods| && 0 <= j < |attributes| &&
           e == Edge(methods[i].number, attributes[j].number) {
        var i, j :| 0 <= i < |methods| && 0 <= j < |attributes| &&
                    e == Edge(methods[i].number, attributes[j].number);
        if i == 0 {
          assert MethodPairs(methods[0], attributes)[j] == e;
        } else {
          assert methods[1..][i - 1] == methods[i];
        }
      }
    }
  }

  /** The frozen pairs are exactly the (method, attribute) pairs of the
      classes of the freeze list. */
  lemma {:induction false} FreezePairsMembers(freezeList: seq<DesignClass>, e: Edge)
    ensures e in FreezePairs(freezeList) <==>
              exists c :: c in freezeList && e in ClassPairs(c.methods, c.attributes)
  {
    if |freezeList| > 0 {
      FreezePairsMembers(freezeList[1..], e);
      if exists c :: c in freezeList && e in ClassPairs(c.methods, c.attributes) {
        var c :| c in freezeList && e in ClassPairs(c.methods, c.attributes);
        if c != freezeList[0] {
          assert c in freezeList[1..];
        }
      }
    }
  }

  /** After the overwrite an entry is FREEZE_DELTA exactly when some pair
      touches it in either orientation; every other entry is unchanged. */
  lemma {:induction false} OverwriteEntries(t: Table, pairs: seq<Edge>, x: int, y: int)
    requires Square(t) && EdgesInRange(t, pairs) && 0 <= x < |t| && 0 <= y < |t|
    decreases |pairs|
    ensures Overwrite(t, pairs)[x][y]
            == (if exists k :: 0 <= k < |pairs| && Touches(pairs[k], x, y) then FREEZE_DELTA else t[x][y])
  {
    if |pairs| > 0 {
      var e := pairs[0];
      var t1 := Set(Set(t, e.from, e.to, FREEZE_DELTA), e.to, e.from, FREEZE_DELTA);
      SetEntries(t, e.from, e.to, FREEZE_DELTA);
      SetEntries(Set(t, e.from, e.to, FREEZE_DELTA), e.to, e.from, FREEZE_DELTA);
      var tail := pairs[1..];
      assert forall i :: 0 <= i < |tail| ==> tail[i] == pairs[i + 1];
      OverwriteEntries(t1, tail, x, y);
      if exists k :: 0 <= k < |tail| && Touches(tail[k], x, y) {
        var k :| 0 <= k < |tail| && Touches(tail[k], x, y);
        assert Touches(pairs[k + 1], x, y);
      }
      if exists k :: 0 <= k < |pairs| && Touches(pairs[k], x, y) {
        var k :| 0 <= k < |pairs| && Touches(pairs[k], x, y);
        if k > 0 {
          assert Touches(tail[k - 1], x, y);
        }
      }
    }
  }

  /** freezeUpdate sets every (method, attribute) entry of a frozen class,
      and its mirror, to FREEZE_DELTA and changes nothing else; it fails
      exactly when such a pair leaves the table. */
  lemma FreezeUpdateEntries(t: Table, freezeList: seq<DesignClass>, x: int, y: int)
    requires Square(t) && 0 <= x < |t| && 0 <= y < |t|
    ensures FreezeUpdate(t, freezeList).Err? <==> !EdgesInRange(t, FreezePairs(freezeList))
    ensures FreezeUpdate(t, freezeList).Ok? ==>
              FreezeUpdate(t, freezeList).value[x][y]
              == (if Edge(x, y) in FreezePairs(freezeList) || Edge(y, x) in FreezePairs(freezeList)
                  then FREEZE_DELTA else t[x][y])
  {
    var pairs := FreezePairs(freezeList);
    if EdgesInRange(t, pairs) {
      OverwriteEntries(t, pairs, x, y);
      if exists k :: 0 <= k < |pairs| && Touches(pairs[k], x, y) {
        var k :| 0 <= k < |pairs| && Touches(pairs[k], x, y);
        assert pairs[k] == Edge(x, y) || pairs[k] == Edge(y, x);
      }
      if Edge(x, y) in pairs {
        var k :| 0 <= k < |pairs| && pairs[k] == Edge(x, y);
        assert Touches(pairs[k], x, y);
      }
      if Edge(y, x) in pairs {
        var k :| 0 <= k < |pairs| && pairs[k] == Edge(y, x);
        assert Touches(pairs[k], x, y);
      }
    }
  }
}
