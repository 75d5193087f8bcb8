/** The bookkeeping of the search Controller: element numbering, the
    bounded retry loop of solution construction and its statistics, best
    tracking in the daemon actions, the interaction interval, the elite
    archive, and the weight update of an interaction. */
module Controller {
  import opened Results
  import opened Numerics
  import opened Graph
  import opened Config
  import opened Weighting
  import PheromoneUpdate

  /** The ways the bookkeeping fails: a failed assertion or an index out of
      bounds, all fatal. */
  datatype ControllerError =
    | AttributeCountMismatch
    | MethodCountMismatch
    | ColonySizeMismatch
    | NegativeCoupling
    | BestIndexOutOfRange
    | DominationCountNotReset
    | NoBestPath
    | EmptyColony
    | IterationOutOfRange
    | WeightsDoNotSumToOne

  // ---------------------------------------------------------------------
  // Numbering the elements

  /** The attribute list, the method list and the combined element list. */
  datatype Lists = Lists(attributes: seq<Node>, methods: seq<Node>, elements: seq<Node>)

  /** Vertices of one kind for the given names, numbered upwards from start. */
  function Numbered(names: seq<string>, kind: Kind, start: int): (r: seq<Node>)
    ensures |r| == |names|
    decreases |names|
  {
    if |names| == 0 then [] else [Node(kind, names[0], start)] + Numbered(names[1..], kind, start + 1)
  }

  /** The k-th vertex carries the k-th name and the number start + k. */
  lemma {:induction false} NumberedEntries(names: seq<string>, kind: Kind, start: int)
    decreases |names|
    ensures forall k :: 0 <= k < |names| ==> Numbered(names, kind, start)[k] == Node(kind, names[k], start + k)
  {
    if |names| > 0 {
      NumberedEntries(names[1..], kind, start + 1);
      forall k | 0 < k < |names|
        ensures Numbered(names, kind, start)[k] == Node(kind, names[k], start + k)
      {
        assert Numbered(names, kind, start)[k] == Numbered(names[1..], kind, start + 1)[k - 1];
        assert names[1..][k - 1] == names[k];
      }
    }
  }

  /** initialiseLists: the attributes (data) numbered from 0, then the
      methods (actions) numbered on from there; the list sizes must equal
      the problem's counts of unique data and actions. */
  function InitialiseLists(data: seq<string>, actions: seq<string>, uniqueData: int, uniqueActions: int)
    : (r: Result<Lists, ControllerError>)
    ensures r.Ok? <==> |data| == uniqueData && |actions| == uniqueActions
    ensures r.Err? ==> (r.error == AttributeCountMismatch <==> |data| != uniqueData)
  {
    var attributes := Numbered(data, Attribute, 0);
    if |attributes| != uniqueData then Err(AttributeCountMismatch)
    else
      var methods := Numbered(actions, Method, |data|);
      if |methods| != uniqueActions then Err(MethodCountMismatch)
      else Ok(Lists(attributes, methods, attributes + methods))
  }

  /** The element list numbers its A + M vertices 0 .. A + M - 1 without a
      gap: attributes first, in input order, then methods. */
  lemma ContiguousNumbering(data: seq<string>, actions: seq<string>, uniqueData: int, uniqueActions: int)
    requires InitialiseLists(data, actions, uniqueData, uniqueActions).Ok?
    ensures var l := InitialiseLists(data, actions, uniqueData, uniqueActions).value;
            |l.elements| == uniqueData + uniqueActions &&
            l.attributes == l.elements[..|data|] && l.methods == l.elements[|data|..] &&
            (forall k :: 0 <= k < |l.elements| ==> l.elements[k].number == k) &&
            (forall k :: 0 <= k < |data| ==> l.elements[k] == Node(Attribute, data[k], k)) &&
            (forall k :: 0 <= k < |actions| ==>
               l.elements[|data| + k] == Node(Method, actions[k], |data| + k))
  {
    NumberedEntries(data, Attribute, 0);
    NumberedEntries(actions, Method, |data|);
  }

  /** The two loops of initialiseLists, one shared counter numbering both. */
  method InitialiseListsLoop(data: seq<string>, actions: seq<string>, uniqueData: int, uniqueActions: int)
    returns (r: Result<Lists, ControllerError>)
    ensures r == InitialiseLists(data, actions, uniqueData, uniqueActions)
  {
    var counter := 0;
    var attributeList: seq<Node> := [];
    var methodList: seq<Node> := [];
    var amList: seq<Node> := [];
    var i := 0;
    while i < |data|
      invariant 0 <= i <= |data| && counter == i
      invariant |attributeList| == i && amList == attributeList
      invariant forall k :: 0 <= k < i ==> attributeList[k] == Node(Attribute, data[k], k)
    {
      attributeList := attributeList + [Node(Attribute, data[i], counter)];
      amList := amList + [Node(Attribute, data[i], counter)];
      counter := counter + 1;
      i := i + 1;
    }
    NumberedEntries(data, Attribute, 0);
    assert attributeList == Numbered(data, Attribute, 0);
    if |attributeList| != uniqueData {
      return Err(AttributeCountMismatch);
    }
    var j := 0;
    while j < |actions|
      invariant 0 <= j <= |actions| && counter == |data| + j
      invariant |methodList| == j && amList == attributeList + methodList
      invariant forall k :: 0 <= k < j ==> methodList[k] == Node(Method, actions[k], |data| + k)
    {
      methodList := methodList + [Node(Method, actions[j], counter)];
      amList := amList + [Node(Method, actions[j], counter)];
      counter := counter + 1;
      j := j + 1;
    }
    NumberedEntries(actions, Method, |data|);
    assert methodList == Numbered(actions, Method, |data|);
    if |methodList| != uniqueActions {
      return Err(MethodCountMismatch);
    }
    return Ok(Lists(attributeList, methodList, amList));
  }

  // ---------------------------------------------------------------------
  // Constructing the colony

  /** How many times an invalid solution is regenerated at most. */
  const MAXIMUM_ATTEMPTS: nat := 50

  /** An ant as the Controller sees it: the solutions its successive
      generateSolution calls would produce and whether isValidPath accepts
      each. Ant construction itself is not part of this model. */
  datatype Ant = Ant(solutions: seq<Path>, valid: seq<bool>)

  predicate WellFormedAnt(a: Ant)
  {
    |a.solutions| == MAXIMUM_ATTEMPTS + 1 && |a.valid| == MAXIMUM_ATTEMPTS + 1
  }

  /** The first valid solution from k on, or the last one allowed. */
  function FirstValid(valid: seq<bool>, k: nat): (r: nat)
    requires k <= MAXIMUM_ATTEMPTS < |valid|
    ensures k <= r <= MAXIMUM_ATTEMPTS
    decreases MAXIMUM_ATTEMPTS - k
  {
    if k == MAXIMUM_ATTEMPTS || valid[k] then k else FirstValid(valid, k + 1)
  }

  /** The path an ant contributes and the number of regenerations. */
  datatype Outcome = Outcome(path: Path, attempts: nat)

  /** One ant of generateSolutions: without constraint handling its first
      solution; with it, solutions are regenerated while invalid, at most
      MAXIMUM_ATTEMPTS times, and the last one is kept even if invalid. */
  function RunAnt(a: Ant, constraintHandling: bool): (r: Outcome)
    requires WellFormedAnt(a)
    ensures r.attempts <= MAXIMUM_ATTEMPTS
    ensures r.path == a.solutions[r.attempts]
  {
    if !constraintHandling then Outcome(a.solutions[0], 0)
    else
      var k := FirstValid(a.valid, 0);
      Outcome(a.solutions[k], k)
  }

  lemma {:induction false} FirstValidCharacterised(valid: seq<bool>, k: nat)
    requires k <= MAXIMUM_ATTEMPTS < |valid|
    decreases MAXIMUM_ATTEMPTS - k
    ensures forall j :: k <= j < FirstValid(valid, k) ==> !valid[j]
    ensures FirstValid(valid, k) < MAXIMUM_ATTEMPTS ==> valid[FirstValid(valid, k)]
  {
    if k < MAXIMUM_ATTEMPTS && !valid[k] {
      FirstValidCharacterised(valid, k + 1);
    }
  }

  /** With constraint handling an ant calls generateSolution attempts + 1 <=
      51 times, every solution before the kept one was invalid, and the kept
      one is valid unless the cap was reached. */
  lemma RunAntRetries(a: Ant, constraintHandling: bool)
    requires WellFormedAnt(a)
    ensures RunAnt(a, constraintHandling).attempts + 1 <= MAXIMUM_ATTEMPTS + 1
    ensures !constraintHandling ==> RunAnt(a, constraintHandling) == Outcome(a.solutions[0], 0)
    ensures constraintHandling ==>
              (forall j :: 0 <= j < RunAnt(a, constraintHandling).attempts ==> !a.valid[j]) &&
              (RunAnt(a, constraintHandling).attempts < MAXIMUM_ATTEMPTS ==>
                 a.valid[RunAnt(a, constraintHandling).attempts])
  {
    FirstValidCharacterised(a.valid, 0);
  }

  /** The retry loop as the source writes it. */
  method RunAntLoop(a: Ant, constraintHandling: bool) returns (path: Path, attempts: nat)
    requires WellFormedAnt(a)
    ensures Outcome(path, attempts) == RunAnt(a, constraintHandling)
  {
    attempts := 0;
    path := a.solutions[0];
    if !constraintHandling {
      return;
    }
    while !a.valid[attempts] && attempts < MAXIMUM_ATTEMPTS
      invariant 0 <= attempts <= MAXIMUM_ATTEMPTS
      invariant path == a.solutions[attempts]
      invariant FirstValid(a.valid, attempts) == FirstValid(a.valid, 0)
      decreases MAXIMUM_ATTEMPTS - attempts
    {
      attempts := attempts + 1;
      path := a.solutions[attempts];
    }
  }

  /** The colony one iteration builds, with its retry statistics. */
  datatype Generation = Generation(colony: seq<Path>, retries: nat, attemptTotal: nat)

  predicate WellFormedAnts(ants: seq<Ant>)
  {
    forall k :: 0 <= k < |ants| ==> WellFormedAnt(ants[k])
  }

  /** generateSolutions over the ants in order: each adds exactly one path;
      retries counts the ants that regenerated at all. */
  function Generate(ants: seq<Ant>, constraintHandling: bool): (r: Generation)
    requires WellFormedAnts(ants)
    ensures |r.colony| == |ants|
    decreases |ants|
  {
    if |ants| == 0 then Generation([], 0, 0)
    else
      var g := Generate(ants[..|ants| - 1], constraintHandling);
      var o := RunAnt(ants[|ants| - 1], constraintHandling);
      Generation(g.colony + [o.path], g.retries + (if o.attempts > 0 then 1 else 0), g.attemptTotal + o.attempts)
  }

  /** The colony holds each ant's kept path in ant order; the retry count is
      at most the number of ants and the attempt total lies between the
      retry count and 50 times it; without constraint handling both are 0. */
  lemma {:induction false} GenerateCharacterised(ants: seq<Ant>, constraintHandling: bool)
    requires WellFormedAnts(ants)
    decreases |ants|
    ensures var g := Generate(ants, constraintHandling);
            (forall k :: 0 <= k < |ants| ==> g.colony[k] == RunAnt(ants[k], constraintHandling).path) &&
            g.retries <= |ants| &&
            g.retries <= g.attemptTotal <= MAXIMUM_ATTEMPTS * g.retries &&
            (g.retries == 0 <==> forall k :: 0 <= k < |ants| ==> RunAnt(ants[k], constraintHandling).attempts == 0) &&
            (!constraintHandling ==> g.retries == 0 && g.attemptTotal == 0)
  {
    if |ants| > 0 {
      var init := ants[..|ants| - 1];
      assert WellFormedAnts(init);
      GenerateCharacterised(init, constraintHandling);
      assert forall k :: 0 <= k < |init| ==> init[k] == ants[k];
      if !constraintHandling {
        RunAntRetries(ants[|ants| - 1], constraintHandling);
      }
    }
  }

  /** The ant loop of generateSolutions. */
  method GenerateLoop(ants: seq<Ant>, constraintHandling: bool) returns (g: Generation)
    requires WellFormedAnts(ants)
    ensures g == Generate(ants, constraintHandling)
  {
    var colony: seq<Path> := [];
    var retries := 0;
    var attemptTotal := 0;
    var i := 0;
    while i < |ants|
      invariant 0 <= i <= |ants|
      invariant Generation(colony, retries, attemptTotal) == Generate(ants[..i], constraintHandling)
    {
      var path, attempts := RunAntLoop(ants[i], constraintHandling);
      if attempts > 0 {
        retries := retries + 1;
      }
      colony := colony + [path];
      attemptTotal := attemptTotal + attempts;
      assert ants[..i + 1][..i] == ants[..i];
      i := i + 1;
    }
    assert ants[..i] == ants;
    return Generation(colony, retries, attemptTotal);
  }

  /** The per-iteration statistics arrays. */
  datatype Statistics = Statistics(numberOfRetries: seq<int>, averageAttempts: seq<real>)

  /** The end of generateSolutions: the retry count is stored for the
      iteration, and the average attempts only when some ant retried. */
  function RecordStatistics(st: Statistics, iteration: int, g: Generation): (r: Result<Statistics, ControllerError>)
    ensures r.Ok? <==> 0 <= iteration < |st.numberOfRetries| &&
                       (g.retries > 0 ==> iteration < |st.averageAttempts|)
  {
    if !(0 <= iteration < |st.numberOfRetries|) then Err(IterationOutOfRange)
    else
      var retries := st.numberOfRetries[iteration := g.retries];
      if g.retries > 0 then
        if iteration >= |st.averageAttempts| then Err(IterationOutOfRange)
        else Ok(Statistics(retries, st.averageAttempts[iteration := g.attemptTotal as real / g.retries as real]))
      else Ok(Statistics(retries, st.averageAttempts))
  }

  /** Only the iteration's entries change; the average is recorded exactly
      when some ant retried and then lies in [1, 50]. */
  lemma RecordedStatistics(st: Statistics, iteration: int, ants: seq<Ant>, constraintHandling: bool)
    requires WellFormedAnts(ants)
    requires RecordStatistics(st, iteration, Generate(ants, constraintHandling)).Ok?
    ensures var g := Generate(ants, constraintHandling);
            var r := RecordStatistics(st, iteration, g).value;
            |r.numberOfRetries| == |st.numberOfRetries| && |r.averageAttempts| == |st.averageAttempts| &&
            r.numberOfRetries[iteration] == g.retries &&
            (forall k :: 0 <= k < |st.numberOfRetries| && k != iteration ==>
               r.numberOfRetries[k] == st.numberOfRetries[k]) &&
            (g.retries == 0 ==> r.averageAttempts == st.averageAttempts) &&
            (g.retries > 0 ==>
               1.0 <= r.averageAttempts[iteration] <= MAXIMUM_ATTEMPTS as real &&
               forall k :: 0 <= k < |st.averageAttempts| && k != iteration ==>
                 r.averageAttempts[k] == st.averageAttempts[k])
  {
    var g := Generate(ants, constraintHandling);
    GenerateCharacterised(ants, constraintHandling);
    if g.retries > 0 {
      AverageWithin(g.attemptTotal, g.retries);
    }
  }

  /** A total between n and 50 n averages to a value in [1, 50]. */
  lemma AverageWithin(total: nat, n: nat)
    requires n > 0 && n <= total <= MAXIMUM_ATTEMPTS * n
    ensures 1.0 <= total as real / n as real <= MAXIMUM_ATTEMPTS as real
  {
    var q := total as real / n as real;
    assert q * n as real == total as real;
    if q < 1.0 {
      ProductPositive(1.0 - q, n as real, (1.0 - q) * n as real);
    }
    if q > MAXIMUM_ATTEMPTS as real {
      ProductPositive(q - MAXIMUM_ATTEMPTS as real, n as real, (q - MAXIMUM_ATTEMPTS as real) * n as real);
    }
  }

  // ---------------------------------------------------------------------
  // Daemon actions: best tracking

  /** The best value seen so far and the index where it was seen. */
  datatype Best = Best(value: real, index: int)

  /** The strict-improvement scan of daemonActions over the values in colony
      order: starting from `start`, a value replaces the best only when it
      is strictly smaller; without any improvement the index stays as it
      was. */
  function TrackBest(values: seq<real>, start: real, previous: int): (r: Best)
    ensures r.value <= start
    ensures forall k :: 0 <= k < |values| ==> r.value <= values[k]
    ensures r.index == previous || 0 <= r.index < |values|
    decreases |values|
  {
    if |values| == 0 then Best(start, previous)
    else
      var init := values[..|values| - 1];
      var b := TrackBest(init, start, previous);
      assert forall k :: 0 <= k < |init| ==> init[k] == values[k];
      var k := |values| - 1;
      if values[k] < b.value then Best(values[k], k) else b
  }

  /** When some value beats the start, the best is the minimum, found at the
      FIRST index holding it; otherwise the start value and the previous
      index are kept. */
  lemma {:induction false} TrackBestCharacterised(values: seq<real>, start: real, previous: int)
    decreases |values|
    ensures var r := TrackBest(values, start, previous);
            (exists k :: 0 <= k < |values| && values[k] < start) ==>
              0 <= r.index < |values| && r.value == values[r.index] &&
              forall j :: 0 <= j < r.index ==> values[j] > r.value
    ensures (forall k :: 0 <= k < |values| ==> values[k] >= start) ==>
              TrackBest(values, start, previous) == Best(start, previous)
  {
    if |values| > 0 {
      var init := values[..|values| - 1];
      assert forall k :: 0 <= k < |init| ==> init[k] == values[k];
      TrackBestCharacterised(init, start, previous);
    }
  }

  /** The CBO, NAC and ATMR values of the colony, in colony order. */
  function CBOs(colony: seq<Path>): (r: seq<real>)
    ensures |r| == |colony| && forall k :: 0 <= k < |colony| ==> r[k] == colony[k].objectives.cbo
  {
    seq(|colony|, k requires 0 <= k < |colony| => colony[k].objectives.cbo)
  }

  function NACs(colony: seq<Path>): (r: seq<real>)
    ensures |r| == |colony| && forall k :: 0 <= k < |colony| ==> r[k] == colony[k].objectives.nac
  {
    seq(|colony|, k requires 0 <= k < |colony| => colony[k].objectives.nac)
  }

  function ATMRs(colony: seq<Path>): (r: seq<real>)
    ensures |r| == |colony| && forall k :: 0 <= k < |colony| ==> r[k] == colony[k].objectives.atmr
  {
    seq(|colony|, k requires 0 <= k < |colony| => colony[k].objectives.atmr)
  }

  /** The running total of the values, added in order. */
  function Total(values: seq<real>): real
    decreases |values|
  {
    if |values| == 0 then 0.0 else Total(values[..|values| - 1]) + values[|values| - 1]
  }

  /** The start values of the best trackers: CBO cannot exceed 1, the
      elegance values are given an arbitrary high start. */
  const CBO_START: real := 1.0
  const ELEGANCE_START: real := 100.0

  /** The indices of the best paths, as left by the previous iteration. */
  datatype Indices = Indices(cbo: int, nac: int, atmr: int)

  /** What daemonActions leaves behind. */
  datatype Scores = Scores(cbo: Best, nac: Best, atmr: Best, averageCBO: real)

  /** A tracker that finds no value below its start keeps the previous
      index, which may lie outside the colony. */
  predicate KeepsStrayIndex(values: seq<real>, start: real, previous: int)
  {
    !(0 <= previous < |values|) && forall k :: 0 <= k < |values| ==> values[k] >= start
  }

  /** daemonActions with the fitness of every path already computed: the
      colony must hold NUMBER_OF_ANTS paths, the three trackers run over it,
      the best paths are read at the tracked indices, and every domination
      count must still be 0. It fails exactly when the colony has the wrong
      size, the CBO total is negative, a tracker is left with a previous
      index outside the colony, or a domination count is not 0. */
  function DaemonActions(colony: seq<Path>, numberOfAnts: int, previous: Indices): (r: Result<Scores, ControllerError>)
    ensures r.Ok? ==> |colony| == numberOfAnts &&
                      0 <= r.value.cbo.index < |colony| && 0 <= r.value.nac.index < |colony| &&
                      0 <= r.value.atmr.index < |colony| &&
                      forall k :: 0 <= k < |colony| ==> colony[k].dominationCount == 0
    ensures r.Err? <==>
              |colony| != numberOfAnts || Total(CBOs(colony)) < 0.0 ||
              KeepsStrayIndex(CBOs(colony), CBO_START, previous.cbo) ||
              KeepsStrayIndex(NACs(colony), ELEGANCE_START, previous.nac) ||
              KeepsStrayIndex(ATMRs(colony), ELEGANCE_START, previous.atmr) ||
              exists k :: 0 <= k < |colony| && colony[k].dominationCount != 0
  {
    if |colony| != numberOfAnts then Err(ColonySizeMismatch)
    else
      TrackBestCharacterised(CBOs(colony), CBO_START, previous.cbo);
      TrackBestCharacterised(NACs(colony), ELEGANCE_START, previous.nac);
      TrackBestCharacterised(ATMRs(colony), ELEGANCE_START, previous.atmr);
      var cbo := TrackBest(CBOs(colony), CBO_START, previous.cbo);
      var nac := TrackBest(NACs(colony), ELEGANCE_START, previous.nac);
      var atmr := TrackBest(ATMRs(colony), ELEGANCE_START, previous.atmr);
      var total := Total(CBOs(colony));
      if total < 0.0 then Err(NegativeCoupling)
      else if !(0 <= cbo.index < |colony| && 0 <= nac.index < |colony| && 0 <= atmr.index < |colony|)
      then Err(BestIndexOutOfRange)
      else if exists k :: 0 <= k < |colony| && colony[k].dominationCount != 0 then Err(DominationCountNotReset)
      else
        var average := if total == 0.0 then 0.0 else total / |colony| as real;
        Ok(Scores(cbo, nac, atmr, average))
  }

  /** A colony of NUMBER_OF_ANTS paths with CBOs in [0,1] and domination
      counts reset is accepted whenever the previous best indices lie in the
      colony. */
  lemma DaemonActionsAccepts(colony: seq<Path>, numberOfAnts: int, previous: Indices)
    requires |colony| == numberOfAnts
    requires forall k :: 0 <= k < |colony| ==> 0.0 <= colony[k].objectives.cbo <= 1.0
    requires forall k :: 0 <= k < |colony| ==> colony[k].dominationCount == 0
    requires 0 <= previous.cbo < |colony| && 0 <= previous.nac < |colony| && 0 <= previous.atmr < |colony|
    ensures DaemonActions(colony, numberOfAnts, previous).Ok?
  {
    TotalWithin(CBOs(colony));
  }

  /** The total of values in [0,1] lies between 0 and their number. */
  lemma {:induction false} TotalWithin(values: seq<real>)
    requires forall k :: 0 <= k < |values| ==> 0.0 <= values[k] <= 1.0
    decreases |values|
    ensures 0.0 <= Total(values) <= |values| as real
  {
    if |values| > 0 {
      var init := values[..|values| - 1];
      assert forall k :: 0 <= k < |init| ==> init[k] == values[k];
      TotalWithin(init);
    }
  }

  /** With every CBO in [0,1]: the best CBO is min(1, min CBO) at the first
      index achieving it (or the previous index if nothing beats 1), and the
      iteration's average CBO lies in [0,1]. */
  lemma DaemonActionsBestCBO(colony: seq<Path>, numberOfAnts: int, previous: Indices)
    requires forall k :: 0 <= k < |colony| ==> 0.0 <= colony[k].objectives.cbo <= 1.0
    requires DaemonActions(colony, numberOfAnts, previous).Ok?
    ensures var s := DaemonActions(colony, numberOfAnts, previous).value;
            0.0 <= s.averageCBO <= 1.0 &&
            s.cbo.value <= CBO_START &&
            (forall k :: 0 <= k < |colony| ==> s.cbo.value <= colony[k].objectives.cbo) &&
            ((exists k :: 0 <= k < |colony| && colony[k].objectives.cbo < CBO_START) ==>
               s.cbo.value == colony[s.cbo.index].objectives.cbo &&
               forall j :: 0 <= j < s.cbo.index ==> colony[j].objectives.cbo > s.cbo.value) &&
            ((forall k :: 0 <= k < |colony| ==> colony[k].objectives.cbo >= CBO_START) ==>
               s.cbo == Best(CBO_START, previous.cbo))
  {
    var values := CBOs(colony);
    TrackBestCharacterised(values, CBO_START, previous.cbo);
    TotalWithin(values);
    var total := Total(values);
    if total != 0.0 {
      FractionOfWhole(total, |colony| as real);
    }
    if exists k :: 0 <= k < |colony| && colony[k].objectives.cbo < CBO_START {
      var k :| 0 <= k < |colony| && colony[k].objectives.cbo < CBO_START;
      assert values[k] < CBO_START;
    }
  }

  /** The NAC tracker works the same way from the start value 100. */
  lemma DaemonActionsBestNAC(colony: seq<Path>, numberOfAnts: int, previous: Indices)
    requires DaemonActions(colony, numberOfAnts, previous).Ok?
    ensures var s := DaemonActions(colony, numberOfAnts, previous).value;
            s.nac.value <= ELEGANCE_START &&
            (forall k :: 0 <= k < |colony| ==> s.nac.value <= colony[k].objectives.nac) &&
            ((exists k :: 0 <= k < |colony| && colony[k].objectives.nac < ELEGANCE_START) ==>
               s.nac.value == colony[s.nac.index].objectives.nac &&
               forall j :: 0 <= j < s.nac.index ==> colony[j].objectives.nac > s.nac.value) &&
            ((forall k :: 0 <= k < |colony| ==> colony[k].objectives.nac >= ELEGANCE_START) ==>
               s.nac == Best(ELEGANCE_START, previous.nac))
  {
    var values := NACs(colony);
    TrackBestCharacterised(values, ELEGANCE_START, previous.nac);
    if exists k :: 0 <= k < |colony| && colony[k].objectives.nac < ELEGANCE_START {
      var k :| 0 <= k < |colony| && colony[k].objectives.nac < ELEGANCE_START;
      assert values[k] < ELEGANCE_START;
    }
  }

  /** One more value for a tracker. */
  lemma TrackBestStep(values: seq<real>, start: real, previous: int, i: nat)
    requires i < |values|
    ensures var b := TrackBest(values[..i], start, previous);
            TrackBest(values[..i + 1], start, previous) == (if values[i] < b.value then Best(values[i], i) else b)
  {
    assert values[..i + 1][..i] == values[..i];
  }

  /** One more value for the running total. */
  lemma TotalStep(values: seq<real>, i: nat)
    requires i < |values|
    ensures Total(values[..i + 1]) == Total(values[..i]) + values[i]
  {
    assert values[..i + 1][..i] == values[..i];
  }

  /** The loop of daemonActions over the colony: the three trackers and the
      running CBO total advance together. */
  method TrackColony(colony: seq<Path>, previous: Indices) returns (cbo: Best, nac: Best, atmr: Best, total: real)
    ensures cbo == TrackBest(CBOs(colony), CBO_START, previous.cbo)
    ensures nac == TrackBest(NACs(colony), ELEGANCE_START, previous.nac)
    ensures atmr == TrackBest(ATMRs(colony), ELEGANCE_START, previous.atmr)
    ensures total == Total(CBOs(colony))
  {
    var cbos, nacs, atmrs := CBOs(colony), NACs(colony), ATMRs(colony);
    cbo := Best(CBO_START, previous.cbo);
    nac := Best(ELEGANCE_START, previous.nac);
    atmr := Best(ELEGANCE_START, previous.atmr);
    total := 0.0;
    var counter := 0;
    while counter < |colony|
      invariant 0 <= counter <= |colony|
      invariant cbo == TrackBest(cbos[..counter], CBO_START, previous.cbo)
      invariant nac == TrackBest(nacs[..counter], ELEGANCE_START, previous.nac)
      invariant atmr == TrackBest(atmrs[..counter], ELEGANCE_START, previous.atmr)
      invariant total == Total(cbos[..counter])
    {
      TrackBestStep(cbos, CBO_START, previous.cbo, counter);
      TrackBestStep(nacs, ELEGANCE_START, previous.nac, counter);
      TrackBestStep(atmrs, ELEGANCE_START, previous.atmr, counter);
      TotalStep(cbos, counter);
      var path := colony[counter];
      var externalCoupling := path.objectives.cbo;
      total := total + externalCoupling;
      if externalCoupling < cbo.value {
        cbo := Best(externalCoupling, counter);
      }
      var eleganceNAC := path.objectives.nac;
      if eleganceNAC < nac.value {
        nac := Best(eleganceNAC, counter);
      }
      var eleganceATMR := path.objectives.atmr;
      if eleganceATMR < atmr.value {
        atmr := Best(eleganceATMR, counter);
      }
      counter := counter + 1;
    }
    assert cbos[..counter] == cbos && nacs[..counter] == nacs && atmrs[..counter] == atmrs;
  }

  // ---------------------------------------------------------------------
  // The interaction interval

  /** The number of iterations between interactions: the squared best CBO
      times 200, rounded, and at least 1. */
  function InteractionThreshold(bestCBO: real): (t: int)
    ensures t >= 1
  {
    var rounded := Round(bestCBO * bestCBO * INTERACTIVE_INTERVAL_CONSTANT);
    if rounded < 1 then 1 else rounded
  }

  /** A CBO in [0,1] gives a threshold between 1 and 200; CBO 1 gives 200. */
  lemma ThresholdWithin(bestCBO: real)
    requires 0.0 <= bestCBO <= 1.0
    ensures 1 <= InteractionThreshold(bestCBO) <= 200
    ensures InteractionThreshold(1.0) == 200
    ensures InteractionThreshold(0.0) == 1
  {
    ProductBounds(bestCBO, bestCBO);
    var v := bestCBO * bestCBO * INTERACTIVE_INTERVAL_CONSTANT;
    assert v <= 200.0;
    RoundIsNearest(v);
  }

  /** The interval counter after a check, and whether to interact. */
  datatype Check = Check(interval: int, interact: bool)

  /** checkForInteraction: below the threshold the interval counts up and
      there is no interaction; at or above it the interval resets to 0 and
      the designer is asked. */
  function CheckForInteraction(interval: int, bestCBO: real): (r: Check)
    ensures interval >= 0 ==> 0 <= r.interval <= InteractionThreshold(bestCBO)
    ensures r.interact <==> interval >= InteractionThreshold(bestCBO)
    ensures interval >= 0 ==> (r.interact <==> r.interval == 0)
  {
    var t := InteractionThreshold(bestCBO);
    if interval < t then Check(interval + 1, false) else Check(0, true)
  }

  /** n successive checks with the same best CBO: the interval left behind
      and, in order, whether each check asked for interaction. */
  function RepeatChecks(interval: int, bestCBO: real, n: nat): (r: (int, seq<bool>))
    ensures |r.1| == n
    decreases n
  {
    if n == 0 then (interval, [])
    else
      var c := CheckForInteraction(interval, bestCBO);
      var rest := RepeatChecks(c.interval, bestCBO, n - 1);
      (rest.0, [c.interact] + rest.1)
  }

  /** From a reset interval, the first k <= t checks only count up. */
  lemma {:induction false} ChecksCountUp(start: int, bestCBO: real, k: nat)
    requires 0 <= start && start + k <= InteractionThreshold(bestCBO)
    decreases k
    ensures RepeatChecks(start, bestCBO, k).0 == start + k
    ensures forall i :: 0 <= i < k ==> !RepeatChecks(start, bestCBO, k).1[i]
  {
    if k > 0 {
      ChecksCountUp(start + 1, bestCBO, k - 1);
    }
  }

  /** With the best CBO held fixed, interaction comes every t + 1 checks:
      t checks without, then one with, and the interval is back at 0. */
  lemma InteractionPeriod(bestCBO: real)
    ensures var t := InteractionThreshold(bestCBO);
            var r := RepeatChecks(0, bestCBO, t + 1);
            r.0 == 0 && r.1[t] && forall i :: 0 <= i < t ==> !r.1[i]
  {
    var t := InteractionThreshold(bestCBO);
    ChecksCountUp(0, bestCBO, t);
    RepeatSplit(0, bestCBO, t);
  }

  /** One more check after n checks. */
  lemma {:induction false} RepeatSplit(interval: int, bestCBO: real, n: nat)
    decreases n
    ensures var before := RepeatChecks(interval, bestCBO, n);
            var last := CheckForInteraction(before.0, bestCBO);
            RepeatChecks(interval, bestCBO, n + 1) == (last.interval, before.1 + [last.interact])
  {
    if n > 0 {
      var c := CheckForInteraction(interval, bestCBO);
      RepeatSplit(c.interval, bestCBO, n - 1);
      var rest := RepeatChecks(c.interval, bestCBO, n - 1);
      var last := CheckForInteraction(rest.0, bestCBO);
      assert [c.interact] + (rest.1 + [last.interact]) == ([c.interact] + rest.1) + [last.interact];
      assert RepeatChecks(interval, bestCBO, n + 1) ==
             (RepeatChecks(c.interval, bestCBO, n).0, [c.interact] + RepeatChecks(c.interval, bestCBO, n).1);
    } else {
      var c := CheckForInteraction(interval, bestCBO);
      assert RepeatChecks(c.interval, bestCBO, 0) == (c.interval, []);
      assert [c.interact] + [] == [] + [c.interact];
    }
  }

  // ---------------------------------------------------------------------
  // The elite archive

  /** elitistInsert: the archive is a stack, top at the end; each popped
      path overwrites the colony entry at a drawn index. */
  function ElitistInsert(colony: seq<Path>, archive: seq<Path>, draws: seq<nat>): (r: Result<seq<Path>, ControllerError>)
    requires |draws| == |archive|
    ensures r.Err? <==> |colony| == 0 && |archive| > 0
    ensures r.Ok? ==> |r.value| == |colony|
    ensures r.Ok? ==> forall k :: 0 <= k < |colony| ==> r.value[k] == colony[k] || r.value[k] in archive
    decreases |archive|
  {
    if |archive| == 0 then Ok(colony)
    else if |colony| == 0 then Err(EmptyColony)
    else
      var top := archive[|archive| - 1];
      var i := draws[0] % |colony|;
      var rest := archive[..|archive| - 1];
      var r := ElitistInsert(colony[i := top], rest, draws[1..]);
      assert forall p :: p in rest ==> p in archive;
      r
  }

  /** The bottom of the stack is popped last, so it always survives, at the
      index the last draw picks; an index no draw picks keeps its path. */
  lemma {:induction false} ElitistInsertPlacement(colony: seq<Path>, archive: seq<Path>, draws: seq<nat>)
    requires |draws| == |archive| && |colony| > 0
    decreases |archive|
    ensures |archive| > 0 ==>
              ElitistInsert(colony, archive, draws).value[draws[|archive| - 1] % |colony|] == archive[0]
    ensures forall k :: 0 <= k < |colony| && (forall d :: 0 <= d < |draws| ==> draws[d] % |colony| != k) ==>
              ElitistInsert(colony, archive, draws).value[k] == colony[k]
  {
    if |archive| > 0 {
      var i := draws[0] % |colony|;
      var next := colony[i := archive[|archive| - 1]];
      var rest := archive[..|archive| - 1];
      var tail := draws[1..];
      ElitistInsertPlacement(next, rest, tail);
      assert forall d :: 0 <= d < |tail| ==> tail[d] == draws[d + 1];
      if |archive| == 1 {
        assert ElitistInsert(next, rest, tail) == Ok(next);
      }
    }
  }

  /** The pop loop of elitistInsert: it runs until the archive is empty. */
  method ElitistInsertLoop(colony: seq<Path>, archive: seq<Path>, draws: seq<nat>)
    returns (r: Result<seq<Path>, ControllerError>, remaining: seq<Path>)
    requires |draws| == |archive|
    ensures r == ElitistInsert(colony, archive, draws)
    ensures r.Ok? ==> remaining == []
  {
    var size := |colony|;
    var current := colony;
    remaining := archive;
    var used := 0;
    while |remaining| > 0
      invariant 0 <= used <= |draws| && |remaining| == |archive| - used
      invariant |current| == size
      invariant ElitistInsert(colony, archive, draws) == ElitistInsert(current, remaining, draws[used..])
      decreases |remaining|
    {
      if size == 0 {
        return Err(EmptyColony), remaining;
      }
      var randomIndex := draws[used] % size;
      var elitePath := remaining[|remaining| - 1];
      remaining := remaining[..|remaining| - 1];
      current := current[randomIndex := elitePath];
      assert draws[used..][1..] == draws[used + 1..];
      used := used + 1;
    }
    return Ok(current), remaining;
  }

  /** The path as the archive keeps it: its domination count reset. */
  function ResetDominationCount(p: Path): Path
  {
    Path(p.nodes, p.objectives, 0, p.role)
  }

  /** updateEliteArchive: the best CBO and the best NAC path of the colony
      (first strict minimum below 100), each pushed only when its objective
      is enabled, with their domination counts reset; a best ATMR path must
      exist but is not pushed. */
  function UpdateEliteArchive(colony: seq<Path>, s: Settings): (r: Result<seq<Path>, ControllerError>)
    ensures r.Ok? ==> |r.value| <= 2 && forall k :: 0 <= k < |r.value| ==> r.value[k].dominationCount == 0
    ensures r.Ok? ==> |r.value| == (if s.objectiveCBO then 1 else 0) + (if s.objectiveNAC then 1 else 0)
  {
    var cbo := TrackBest(CBOs(colony), ELEGANCE_START, -1);
    var nac := TrackBest(NACs(colony), ELEGANCE_START, -1);
    var atmr := TrackBest(ATMRs(colony), ELEGANCE_START, -1);
    if cbo.index == -1 || nac.index == -1 || atmr.index == -1 then Err(NoBestPath)
    else
      Ok((if s.objectiveCBO then [ResetDominationCount(colony[cbo.index])] else []) +
         (if s.objectiveNAC then [ResetDominationCount(colony[nac.index])] else []))
  }

  /** The archive fails exactly when some objective has no value below 100;
      otherwise its CBO entry is the first colony path of least CBO and its
      NAC entry (last, the top of the stack) the first of least NAC. */
  lemma EliteArchiveHoldsBest(colony: seq<Path>, s: Settings)
    ensures UpdateEliteArchive(colony, s).Err? <==>
              (forall k :: 0 <= k < |colony| ==> colony[k].objectives.cbo >= ELEGANCE_START) ||
              (forall k :: 0 <= k < |colony| ==> colony[k].objectives.nac >= ELEGANCE_START) ||
              (forall k :: 0 <= k < |colony| ==> colony[k].objectives.atmr >= ELEGANCE_START)
    ensures UpdateEliteArchive(colony, s).Ok? && s.objectiveCBO ==>
              var p := UpdateEliteArchive(colony, s).value[0];
              exists i :: 0 <= i < |colony| && p == ResetDominationCount(colony[i]) &&
                (forall k :: 0 <= k < |colony| ==> p.objectives.cbo <= colony[k].objectives.cbo) &&
                (forall j :: 0 <= j < i ==> colony[j].objectives.cbo > p.objectives.cbo)
    ensures UpdateEliteArchive(colony, s).Ok? && s.objectiveNAC ==>
              var a := UpdateEliteArchive(colony, s).value;
              var p := a[|a| - 1];
              exists i :: 0 <= i < |colony| && p == ResetDominationCount(colony[i]) &&
                (forall k :: 0 <= k < |colony| ==> p.objectives.nac <= colony[k].objectives.nac) &&
                (forall j :: 0 <= j < i ==> colony[j].objectives.nac > p.objectives.nac)
  {
    var cbo := TrackBest(CBOs(colony), ELEGANCE_START, -1);
    var nac := TrackBest(NACs(colony), ELEGANCE_START, -1);
    var atmr := TrackBest(ATMRs(colony), ELEGANCE_START, -1);
    TrackBestCharacterised(CBOs(colony), ELEGANCE_START, -1);
    TrackBestCharacterised(NACs(colony), ELEGANCE_START, -1);
    TrackBestCharacterised(ATMRs(colony), ELEGANCE_START, -1);
    BestFound(CBOs(colony), ELEGANCE_START);
    BestFound(NACs(colony), ELEGANCE_START);
    BestFound(ATMRs(colony), ELEGANCE_START);
    if UpdateEliteArchive(colony, s).Ok? {
      if s.objectiveCBO {
        assert UpdateEliteArchive(colony, s).value[0] == ResetDominationCount(colony[cbo.index]);
      }
      if s.objectiveNAC {
        var a := UpdateEliteArchive(colony, s).value;
        assert a[|a| - 1] == ResetDominationCount(colony[nac.index]);
      }
    }
  }

  /** Starting from index -1, the tracker finds an index exactly when some
      value beats the start. */
  lemma BestFound(values: seq<real>, start: real)
    ensures TrackBest(values, start, -1).index != -1 <==> exists k :: 0 <= k < |values| && values[k] < start
  {
    TrackBestCharacterised(values, start, -1);
  }

  // ---------------------------------------------------------------------
  // Weights from an interaction

  /** The regression coefficients of CBO, NAC and ATMR; any may be NaN. */
  datatype Coefficients = Coefficients(cbo: Double, nac: Double, atmr: Double)

  /** The weights an interactive run starts from. */
  function InitialWeights(): Weights
  {
    OfReals(INITIAL_wCBO, INITIAL_wNAC, INITIAL_wATMR)
  }

  /** calculateWeights: a zero coefficient resets the weights to the
      initial ones; otherwise a NaN coefficient leaves them as they are;
      otherwise each weight is |c| over the sum of the |c|, followed by
      checkSum. */
  function CalculateWeights(c: Coefficients, w: Weights): (r: Result<Weights, ControllerError>)
    ensures (c.cbo.Equals(0.0) || c.nac.Equals(0.0) || c.atmr.Equals(0.0)) ==> r == Ok(InitialWeights())
    ensures (!(c.cbo.Equals(0.0) || c.nac.Equals(0.0) || c.atmr.Equals(0.0)) &&
             (c.cbo.IsNaN() || c.nac.IsNaN() || c.atmr.IsNaN())) ==> r == Ok(w)
  {
    if c.cbo.Equals(0.0) || c.nac.Equals(0.0) || c.atmr.Equals(0.0) then Ok(InitialWeights())
    else if c.cbo.IsNaN() || c.nac.IsNaN() || c.atmr.IsNaN() then Ok(w)
    else
      var total := Abs(c.cbo.v) + Abs(c.nac.v) + Abs(c.atmr.v);
      var nw := OfReals(Abs(c.cbo.v) / total, Abs(c.nac.v) / total, Abs(c.atmr.v) / total);
      if CheckSum(nw) == SumIsOff then Err(ControllerError.WeightsDoNotSumToOne) else Ok(nw)
  }

  /** For finite non-zero coefficients the new weights are the shares
      |c|/sum|c|: non-negative, summing to exactly one, so checkSum passes
      and calculateWeights never fails. */
  lemma CalculateWeightsNormalises(c: Coefficients, w: Weights)
    requires c.cbo.Finite? && c.nac.Finite? && c.atmr.Finite?
    requires c.cbo.v != 0.0 && c.nac.v != 0.0 && c.atmr.v != 0.0
    ensures CalculateWeights(c, w).Ok?
    ensures var r := CalculateWeights(c, w).value;
            var total := Abs(c.cbo.v) + Abs(c.nac.v) + Abs(c.atmr.v);
            r.NonNegative() && r.Sum() == 1.0 && CheckSum(r) == SumsToOne &&
            r.cbo.v * total == Abs(c.cbo.v) && r.nac.v * total == Abs(c.nac.v) &&
            r.atmr.v * total == Abs(c.atmr.v)
  {
    var x := Abs(c.cbo.v);
    var y := Abs(c.nac.v);
    var z := Abs(c.atmr.v);
    NormalisedShares(x, y, z);
    assert CalculateWeights(c, w) == Ok(OfReals(x / (x + y + z), y / (x + y + z), z / (x + y + z)));
  }

  /** The weights made of three positive shares pass checkSum. */
  lemma NormalisedShares(x: real, y: real, z: real)
    requires x > 0.0 && y > 0.0 && z > 0.0
    ensures var t := x + y + z;
            var nw := OfReals(x / t, y / t, z / t);
            nw.NonNegative() && nw.Sum() == 1.0 && CheckSum(nw) == SumsToOne &&
            nw.cbo.v * t == x && nw.nac.v * t == y && nw.atmr.v * t == z
  {
    var t := x + y + z;
    SharesSumToOne(x, y, z);
    var nw := OfReals(x / t, y / t, z / t);
    assert nw.Sum() == 1.0;
    ExactSumPasses(nw);
  }

  /** Three non-negative shares of a positive total sum to one. */
  lemma SharesSumToOne(x: real, y: real, z: real)
    requires x >= 0.0 && y >= 0.0 && z >= 0.0 && x + y + z > 0.0
    ensures var t := x + y + z;
            x / t >= 0.0 && y / t >= 0.0 && z / t >= 0.0 &&
            x / t + y / t + z / t == 1.0 &&
            (x / t) * t == x && (y / t) * t == y && (z / t) * t == z
  {
    var t := x + y + z;
    FractionOfWhole(x, t);
    FractionOfWhole(y, t);
    FractionOfWhole(z, t);
    DivideDifference(t, z, t);
    DivideDifference(x + y, y, t);
    assert t / t == 1.0;
  }

  /** Weights usable by the pheromone update (no NaN, non-negative, summing
      to at most one) stay usable through calculateWeights. */
  lemma CalculateWeightsKeepsUsable(c: Coefficients, w: Weights)
    requires w.NonNegative() && w.Sum() <= 1.0
    ensures CalculateWeights(c, w).Ok?
    ensures CalculateWeights(c, w).value.NonNegative() && CalculateWeights(c, w).value.Sum() <= 1.0
  {
    if !(c.cbo.Equals(0.0) || c.nac.Equals(0.0) || c.atmr.Equals(0.0)) &&
       !(c.cbo.IsNaN() || c.nac.IsNaN() || c.atmr.IsNaN()) {
      CalculateWeightsNormalises(c, w);
    }
  }

  /** javax.swing.JOptionPane.OK_OPTION, against which the hard-coded user
      action is compared. */
  const OK_OPTION: int := 0

  /** The user action performInteraction returns; the dialog that would
      have supplied it is commented out. */
  const USER_ACTION: int := 1

  /** What an interaction leaves: the action, the weights, and the path
      that was shown. */
  datatype Interaction = Interaction(action: int, weights: Weights, shown: Path)

  /** performInteraction: walk the Pareto fronts to the first non-empty one
      and show a drawn member; recompute the weights only for OK_OPTION;
      then reset the weights to (1, 0, 0) and return the action. */
  function PerformInteraction(colony: seq<Path>, w: Weights, c: Coefficients, draw: nat): (r: Result<Interaction, ControllerError>)
    requires |colony| > 0
  {
    var shown := PheromoneUpdate.ParetoChoice(colony, draw);
    var after :- if USER_ACTION == OK_OPTION then CalculateWeights(c, w) else Ok(w);
    Ok(Interaction(USER_ACTION, OfReals(1.0, 0.0, 0.0), shown))
  }

  /** Whatever the coefficients, an interaction returns action 1, leaves
      the weights at (1, 0, 0), and shows a path of the first non-empty
      Pareto front. */
  lemma InteractionResetsWeights(colony: seq<Path>, w: Weights, c: Coefficients, draw: nat)
    requires |colony| > 0
    ensures PerformInteraction(colony, w, c, draw).Ok?
    ensures var r := PerformInteraction(colony, w, c, draw).value;
            r.action == 1 && r.weights == InitialWeights() && CheckSum(r.weights) == SumsToOne &&
            r.shown in colony &&
            forall k :: 0 <= k < |colony| ==> r.shown.dominationCount <= colony[k].dominationCount
  {
    PheromoneUpdate.ParetoChoiceIsNonDominated(colony, draw);
    ExactSumPasses(OfReals(1.0, 0.0, 0.0));
  }
}
