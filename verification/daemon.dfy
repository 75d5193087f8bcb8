/** DaemonOperators.calculateDesignSolutionPathFitness: the fitness daemon
    that scores a whole-design path by coupling (CBO) and by the spread of
    class sizes (NAC) and of attribute/method ratios (ATMR). */
module Daemon {
  import opened Results
  import opened Numerics
  import opened Graph
  import opened Design

  /** The problem instance as the daemon reads it: class count, numbers of
      unique attributes and methods, total number of uses, and the use matrix
      (row = method, column = attribute, 1 = the method uses the attribute). */
  datatype Problem = Problem(
    numberOfClasses: int,
    numberOfAttributes: int,
    numberOfMethods: int,
    numberOfUses: int,
    useMatrix: seq<seq<int>>)

  /** The entry assertions on the problem sizes. */
  predicate WellFormed(p: Problem)
  {
    p.numberOfAttributes > 0 && p.numberOfMethods > 0 &&
    p.numberOfUses > 0 && p.numberOfClasses > 0
  }

  /** The ways the daemon fails: a failed assertion or an array index out of
      bounds, all fatal. */
  datatype DaemonError =
    | InvalidProblem
    | MethodNumberOutOfRange
    | UseMatrixIndexOutOfBounds
    | TooManyClasses
    | ClassCountMismatch
    | InternalUsesExceedTotal

  /** The scores of a path. The NAC and ATMR standard deviations are kept
      squared, as population variances. */
  datatype Fitness = Fitness(
    cbo: real,
    nacVariance: real,
    atmrVariance: real,
    internalUses: nat,
    elementCounts: seq<int>,
    ratios: seq<real>)

  /** The daemon assumes that vertex numbers count the Nest as vertex 0 and
      subtracts this offset before indexing the use matrix. */
  const NEST_OFFSET := 1

  /** The use-matrix row of a method vertex. */
  function MethodIndex(m: Node, p: Problem): int
  {
    m.number - p.numberOfAttributes - NEST_OFFSET
  }

  /** The use-matrix column of an attribute vertex. */
  function AttributeIndex(a: Node): int
  {
    a.number - NEST_OFFSET
  }

  /** The assertion made on every method vertex of a closed class. */
  predicate MethodNumberInRange(m: Node, p: Problem)
  {
    0 <= m.number - p.numberOfAttributes <= p.numberOfMethods
  }

  predicate MethodNumbersInRange(c: DesignClass, p: Problem)
  {
    forall i :: 0 <= i < |c.methods| ==> MethodNumberInRange(c.methods[i], p)
  }

  /** The use-matrix entry of a (method, attribute) pair can be read. */
  predicate PairInBounds(m: Node, a: Node, p: Problem)
  {
    0 <= MethodIndex(m, p) < |p.useMatrix| &&
    0 <= AttributeIndex(a) < |p.useMatrix[MethodIndex(m, p)]|
  }

  /** Every (method, attribute) pair of the two lists can be looked up. */
  predicate PairsInBounds(methods: seq<Node>, attributes: seq<Node>, p: Problem)
  {
    forall i, j :: 0 <= i < |methods| && 0 <= j < |attributes| ==>
      PairInBounds(methods[i], attributes[j], p)
  }

  predicate UsesInBounds(c: DesignClass, p: Problem)
  {
    PairsInBounds(c.methods, c.attributes, p)
  }

  /** Only a class with both attributes and methods is looked up in the use
      matrix and given a non-zero ratio. */
  predicate HasBothKinds(c: DesignClass)
  {
    |c.attributes| > 0 && |c.methods| > 0
  }

  /** Whether method m uses attribute a. */
  predicate Uses(m: Node, a: Node, p: Problem)
    requires PairInBounds(m, a, p)
  {
    p.useMatrix[MethodIndex(m, p)][AttributeIndex(a)] == 1
  }

  /** The attributes of `attributes` that m uses. */
  function RowUses(m: Node, attributes: seq<Node>, p: Problem): nat
    requires forall j :: 0 <= j < |attributes| ==> PairInBounds(m, attributes[j], p)
  {
    if |attributes| == 0 then 0
    else
      var last := attributes[|attributes| - 1];
      RowUses(m, attributes[..|attributes| - 1], p) + (if Uses(m, last, p) then 1 else 0)
  }

  /** The (method, attribute) pairs of the two lists with a use. */
  function PairUses(methods: seq<Node>, attributes: seq<Node>, p: Problem): nat
    requires PairsInBounds(methods, attributes, p)
  {
    if |methods| == 0 then 0
    else
      var last := methods[|methods| - 1];
      PairUses(methods[..|methods| - 1], attributes, p) + RowUses(last, attributes, p)
  }

  /** The uses internal to a class: zero unless it has both kinds. */
  function InternalUses(c: DesignClass, p: Problem): nat
  {
    if HasBothKinds(c) && UsesInBounds(c, p) then PairUses(c.methods, c.attributes, p) else 0
  }

  /** The attribute/method ratio of a class, 0.0 when a kind is missing. */
  function Ratio(c: DesignClass): real
  {
    if HasBothKinds(c) then |c.attributes| as real / |c.methods| as real else 0.0
  }

  /** The daemon's running totals over the classes closed so far. */
  datatype Tally = Tally(internalUses: nat, elementCounts: seq<int>, ratios: seq<real>)

  const EmptyTally := Tally(0, [], [])

  /** The class passes the checks made when its EndOfClass marker is met. */
  predicate ClassAccepted(c: DesignClass, p: Problem)
  {
    MethodNumbersInRange(c, p) && (HasBothKinds(c) ==> UsesInBounds(c, p))
  }

  /** The work done at one EndOfClass marker: method-number assertions, use
      counting, then the writes at index classCounter of the two arrays of
      length numberOfClasses. */
  function CloseClass(t: Tally, c: DesignClass, p: Problem): Result<Tally, DaemonError>
  {
    if !MethodNumbersInRange(c, p) then Err(MethodNumberOutOfRange)
    else if HasBothKinds(c) && !UsesInBounds(c, p) then Err(UseMatrixIndexOutOfBounds)
    else if |t.elementCounts| >= p.numberOfClasses then Err(TooManyClasses)
    else Ok(Tally(t.internalUses + InternalUses(c, p),
                  t.elementCounts + [c.Size()],
                  t.ratios + [Ratio(c)]))
  }

  /** The totals after closing every class of `design` in order. */
  function TallyOf(design: seq<DesignClass>, p: Problem): (r: Result<Tally, DaemonError>)
    ensures r.Ok? ==> |r.value.elementCounts| == |r.value.ratios| == |design|
    decreases |design|
  {
    if |design| == 0 then Ok(EmptyTally)
    else
      match TallyOf(design[..|design| - 1], p)
      case Err(e) => Err(e)
      case Ok(t) => CloseClass(t, design[|design| - 1], p)
  }

  /** The final assertions and the three scores. */
  function Finish(t: Tally, p: Problem): Result<Fitness, DaemonError>
    requires WellFormed(p) && |t.ratios| == |t.elementCounts|
  {
    if |t.elementCounts| != p.numberOfClasses then Err(ClassCountMismatch)
    else if t.internalUses > p.numberOfUses then Err(InternalUsesExceedTotal)
    else
      Ok(Fitness(1.0 - t.internalUses as real / p.numberOfUses as real,
                 Variance(AsReals(t.elementCounts)),
                 Variance(t.ratios),
                 t.internalUses, t.elementCounts, t.ratios))
  }

  /** calculateDesignSolutionPathFitness as a function of path and problem. */
  function Evaluate(path: seq<Node>, p: Problem): Result<Fitness, DaemonError>
  {
    if !WellFormed(p) then Err(InvalidProblem)
    else
      match TallyOf(ConstructDesign(path), p)
      case Err(e) => Err(e)
      case Ok(t) => Finish(t, p)
  }

  /** The sum of the uses internal to each class of a design. */
  function DesignInternalUses(design: seq<DesignClass>, p: Problem): nat
  {
    if |design| == 0 then 0
    else DesignInternalUses(design[..|design| - 1], p) + InternalUses(design[|design| - 1], p)
  }

  function SumInts(s: seq<int>): int
  {
    if |s| == 0 then 0 else s[0] + SumInts(s[1..])
  }

  // ---------------------------------------------------------------------
  // The daemon loop

  /** The nested loops counting the uses internal to a class with both kinds:
      the index is checked before every read, and every entry equal to 1 adds
      one. */
  method CountInternalUses(c: DesignClass, p: Problem) returns (r: Result<nat, DaemonError>)
    ensures UsesInBounds(c, p) ==> r == Ok(PairUses(c.methods, c.attributes, p))
    ensures !UsesInBounds(c, p) ==> r == Err(UseMatrixIndexOutOfBounds)
  {
    var count: nat := 0;
    var i := 0;
    while i < |c.methods|
      invariant 0 <= i <= |c.methods|
      invariant forall x, y :: 0 <= x < i && 0 <= y < |c.attributes| ==>
                  PairInBounds(c.methods[x], c.attributes[y], p)
      invariant count == PairUses(c.methods[..i], c.attributes, p)
    {
      var m := c.methods[i];
      var before := count;
      var j := 0;
      while j < |c.attributes|
        invariant 0 <= j <= |c.attributes|
        invariant forall y :: 0 <= y < j ==> PairInBounds(m, c.attributes[y], p)
        invariant count == before + RowUses(m, c.attributes[..j], p)
      {
        var a := c.attributes[j];
        var row := MethodIndex(m, p);
        var column := AttributeIndex(a);
        if !(0 <= row < |p.useMatrix| && 0 <= column < |p.useMatrix[row]|) {
          return Err(UseMatrixIndexOutOfBounds);
        }
        if p.useMatrix[row][column] == 1 {
          count := count + 1;
        }
        assert c.attributes[..j + 1][..j] == c.attributes[..j];
        j := j + 1;
      }
      assert c.attributes[..j] == c.attributes;
      assert c.methods[..i + 1][..i] == c.methods[..i];
      i := i + 1;
    }
    assert c.methods[..i] == c.methods;
    return Ok(count);
  }

  /** The work at one EndOfClass marker, as the source orders it. */
  method CloseClassStep(t: Tally, c: DesignClass, p: Problem) returns (r: Result<Tally, DaemonError>)
    ensures r == CloseClass(t, c, p)
  {
    var i := 0;
    while i < |c.methods|
      invariant 0 <= i <= |c.methods|
      invariant forall k :: 0 <= k < i ==> MethodNumberInRange(c.methods[k], p)
    {
      var number := c.methods[i].number - p.numberOfAttributes;
      if !(0 <= number <= p.numberOfMethods) {
        return Err(MethodNumberOutOfRange);
      }
      i := i + 1;
    }
    var internal: nat := 0;
    var ratio := 0.0;
    if |c.methods| > 0 && |c.attributes| > 0 {
      var uses := CountInternalUses(c, p);
      if uses.Err? {
        return Err(uses.error);
      }
      internal := uses.value;
      ratio := |c.attributes| as real / |c.methods| as real;
    }
    if |t.elementCounts| >= p.numberOfClasses {
      return Err(TooManyClasses);
    }
    return Ok(Tally(t.internalUses + internal, t.elementCounts + [c.Size()], t.ratios + [ratio]));
  }

  /** calculateDesignSolutionPathFitness: one pass over the path, collecting
      the attributes and methods of the open class and closing it at each
      EndOfClass marker. */
  method EvaluatePath(path: seq<Node>, p: Problem) returns (r: Result<Fitness, DaemonError>)
    ensures r == Evaluate(path, p)
  {
    if !WellFormed(p) {
      return Err(InvalidProblem);
    }
    var tally := EmptyTally;
    var attributes: seq<Node> := [];
    var methods: seq<Node> := [];
    ghost var closed: seq<DesignClass> := [];
    var i := 0;
    while i < |path|
      invariant 0 <= i <= |path|
      invariant ConstructDesign(path) == closed + Scan(path[i..], DesignClass(attributes, methods))
      invariant TallyOf(closed, p) == Ok(tally)
    {
      var n := path[i];
      assert path[i..][0] == n && path[i..][1..] == path[i + 1..];
      match n.kind {
        case Nest =>
        case Method =>
          methods := methods + [n];
        case Attribute =>
          attributes := attributes + [n];
        case EndOfClass =>
          var c := DesignClass(attributes, methods);
          ghost var rest := Scan(path[i + 1..], EmptyClass);
          assert ConstructDesign(path) == (closed + [c]) + rest;
          TallyOfSnoc(closed, c, p);
          var next := CloseClassStep(tally, c, p);
          if next.Err? {
            TallyOfKeepsError(closed + [c], rest, p);
            return Err(next.error);
          }
          tally := next.value;
          closed := closed + [c];
          attributes := [];
          methods := [];
      }
      i := i + 1;
    }
    assert ConstructDesign(path) == closed;
    if |tally.elementCounts| != p.numberOfClasses {
      return Err(ClassCountMismatch);
    }
    if tally.internalUses > p.numberOfUses {
      return Err(InternalUsesExceedTotal);
    }
    var cbo := 1.0 - tally.internalUses as real / p.numberOfUses as real;
    var nac := Variance(AsReals(tally.elementCounts));
    var atmr := Variance(tally.ratios);
    return Ok(Fitness(cbo, nac, atmr, tally.internalUses, tally.elementCounts, tally.ratios));
  }

  // ---------------------------------------------------------------------
  // Properties of the totals

  /** The totals succeed exactly when the design has at most numberOfClasses
      classes, each passing its checks. */
  lemma {:induction false} TallyOfSucceedsIff(design: seq<DesignClass>, p: Problem)
    requires p.numberOfClasses >= 0
    ensures TallyOf(design, p).Ok? <==>
              |design| <= p.numberOfClasses &&
              forall k :: 0 <= k < |design| ==> ClassAccepted(design[k], p)
  {
    if |design| > 0 {
      var init := design[..|design| - 1];
      var c := design[|design| - 1];
      TallyOfSucceedsIff(init, p);
      assert forall k :: 0 <= k < |init| ==> init[k] == design[k];
      if TallyOf(init, p).Ok? {
        assert TallyOf(design, p) == CloseClass(TallyOf(init, p).value, c, p);
        if TallyOf(design, p).Ok? {
          assert ClassAccepted(c, p);
          assert |init| < p.numberOfClasses;
        } else {
          assert !ClassAccepted(c, p) || |init| >= p.numberOfClasses;
        }
      } else {
        assert TallyOf(design, p).Err?;
        if |init| <= p.numberOfClasses {
          var k :| 0 <= k < |init| && !ClassAccepted(init[k], p);
          assert !ClassAccepted(design[k], p);
        }
      }
    }
  }

  /** When the totals succeed, class k has element count Size and ratio
      Ratio, and the internal uses add up over the classes. */
  lemma {:induction false} TallyOfValues(design: seq<DesignClass>, p: Problem)
    requires TallyOf(design, p).Ok?
    ensures TallyOf(design, p).value.internalUses == DesignInternalUses(design, p)
    ensures forall k :: 0 <= k < |design| ==>
              TallyOf(design, p).value.elementCounts[k] == design[k].Size() &&
              TallyOf(design, p).value.ratios[k] == Ratio(design[k])
  {
    if |design| > 0 {
      var init := design[..|design| - 1];
      var c := design[|design| - 1];
      assert design == init + [c];
      assert TallyOf(init, p).Ok?;
      TallyOfValues(init, p);
      assert forall k :: 0 <= k < |init| ==> init[k] == design[k];
      var t := TallyOf(init, p).value;
      assert TallyOf(design, p) == CloseClass(t, c, p);
      var t' := TallyOf(design, p).value;
      assert t'.elementCounts == t.elementCounts + [c.Size()];
      assert t'.ratios == t.ratios + [Ratio(c)];
      assert t'.internalUses == t.internalUses + InternalUses(c, p);
      assert DesignInternalUses(design, p) == DesignInternalUses(init, p) + InternalUses(c, p);
    }
  }

  /** Once a class fails, later classes change nothing: the first error is
      the one reported. */
  lemma {:induction false} TallyOfKeepsError(design: seq<DesignClass>, more: seq<DesignClass>, p: Problem)
    requires TallyOf(design, p).Err?
    ensures TallyOf(design + more, p) == TallyOf(design, p)
  {
    if |more| == 0 {
      assert design + more == design;
    } else {
      var init := more[..|more| - 1];
      TallyOfKeepsError(design, init, p);
      assert (design + more)[..|design + more| - 1] == design + init;
    }
  }

  /** The totals of a design extended by one class. */
  lemma TallyOfSnoc(design: seq<DesignClass>, c: DesignClass, p: Problem)
    ensures TallyOf(design, p).Err? ==> TallyOf(design + [c], p) == TallyOf(design, p)
    ensures TallyOf(design, p).Ok? ==>
              TallyOf(design + [c], p) == CloseClass(TallyOf(design, p).value, c, p)
  {
    assert (design + [c])[..|design|] == design;
  }

  /** A method's count is at most the number of attributes; it is zero
      exactly when it uses none of them and full exactly when it uses all. */
  lemma {:induction false} RowUsesCharacterised(m: Node, attributes: seq<Node>, p: Problem)
    requires forall j :: 0 <= j < |attributes| ==> PairInBounds(m, attributes[j], p)
    ensures RowUses(m, attributes, p) <= |attributes|
    ensures RowUses(m, attributes, p) == 0 <==>
              forall j :: 0 <= j < |attributes| ==> !Uses(m, attributes[j], p)
    ensures RowUses(m, attributes, p) == |attributes| <==>
              forall j :: 0 <= j < |attributes| ==> Uses(m, attributes[j], p)
  {
    if |attributes| > 0 {
      var init := attributes[..|attributes| - 1];
      RowUsesCharacterised(m, init, p);
      assert forall j :: 0 <= j < |init| ==> init[j] == attributes[j];
    }
  }

  /** The pair count is at most #methods x #attributes. */
  lemma {:induction false} PairUsesAtMost(methods: seq<Node>, attributes: seq<Node>, p: Problem)
    requires PairsInBounds(methods, attributes, p)
    ensures PairUses(methods, attributes, p) <= |methods| * |attributes|
  {
    if |methods| > 0 {
      var init := methods[..|methods| - 1];
      assert PairsInBounds(init, attributes, p);
      PairUsesAtMost(init, attributes, p);
      RowUsesCharacterised(methods[|methods| - 1], attributes, p);
      assert |methods| * |attributes| == |init| * |attributes| + |attributes|;
    }
  }

  /** The pair count is zero exactly when no pair has a use. */
  lemma {:induction false} PairUsesNoneIff(methods: seq<Node>, attributes: seq<Node>, p: Problem)
    requires PairsInBounds(methods, attributes, p)
    ensures PairUses(methods, attributes, p) == 0 <==>
              forall i, j :: 0 <= i < |methods| && 0 <= j < |attributes| ==>
                !Uses(methods[i], attributes[j], p)
  {
    if |methods| > 0 {
      var init := methods[..|methods| - 1];
      var last := methods[|methods| - 1];
      assert PairsInBounds(init, attributes, p);
      PairUsesNoneIff(init, attributes, p);
      RowUsesCharacterised(last, attributes, p);
      assert forall i :: 0 <= i < |init| ==> init[i] == methods[i];
    }
  }

  /** The pair count is #methods x #attributes exactly when every pair has a
      use. */
  lemma {:induction false} PairUsesAllIff(methods: seq<Node>, attributes: seq<Node>, p: Problem)
    requires PairsInBounds(methods, attributes, p)
    ensures PairUses(methods, attributes, p) == |methods| * |attributes| <==>
              forall i, j :: 0 <= i < |methods| && 0 <= j < |attributes| ==>
                Uses(methods[i], attributes[j], p)
  {
    if |methods| > 0 {
      var init := methods[..|methods| - 1];
      var last := methods[|methods| - 1];
      assert PairsInBounds(init, attributes, p);
      PairUsesAllIff(init, attributes, p);
      PairUsesAtMost(init, attributes, p);
      RowUsesCharacterised(last, attributes, p);
      assert forall i :: 0 <= i < |init| ==> init[i] == methods[i];
      assert |methods| * |attributes| == |init| * |attributes| + |attributes|;
    }
  }

  // ---------------------------------------------------------------------
  // Properties of the scores

  /** Evaluate succeeds exactly when the problem is well formed, the path has
      one EndOfClass per class, every class passes its checks and the internal
      uses do not exceed the total. */
  lemma EvaluateSucceedsIff(path: seq<Node>, p: Problem)
    ensures Evaluate(path, p).Ok? <==>
              var design := ConstructDesign(path);
              WellFormed(p) &&
              MarkerCount(path) == p.numberOfClasses &&
              (forall k :: 0 <= k < |design| ==> ClassAccepted(design[k], p)) &&
              DesignInternalUses(design, p) <= p.numberOfUses
  {
    if WellFormed(p) {
      ConstructDesignCount(path);
      TallyOfSucceedsIff(ConstructDesign(path), p);
      if TallyOf(ConstructDesign(path), p).Ok? {
        TallyOfValues(ConstructDesign(path), p);
      }
    }
  }

  /** Class k of the design has elementCounts[k] attributes plus methods,
      whether or not it lacks a kind, and ratios[k] = #attributes/#methods
      when it has both kinds and 0.0 otherwise; both arrays have one entry
      per class. */
  lemma EvaluateArrays(path: seq<Node>, p: Problem)
    requires Evaluate(path, p).Ok?
    ensures var f := Evaluate(path, p).value;
            var design := ConstructDesign(path);
            |f.elementCounts| == |f.ratios| == |design| == p.numberOfClasses &&
            (forall k :: 0 <= k < |design| ==>
               f.elementCounts[k] == |design[k].attributes| + |design[k].methods|) &&
            (forall k :: 0 <= k < |design| ==>
               f.ratios[k] == (if HasBothKinds(design[k])
                               then |design[k].attributes| as real / |design[k].methods| as real
                               else 0.0)) &&
            f.internalUses == DesignInternalUses(design, p)
  {
    TallyOfValues(ConstructDesign(path), p);
  }

  lemma {:induction false} SumOfSizes(s: seq<int>, design: seq<DesignClass>)
    requires |s| == |design|
    requires forall k :: 0 <= k < |s| ==> s[k] == design[k].Size()
    ensures SumInts(s) == TotalSize(design)
  {
    if |s| > 0 {
      SumOfSizes(s[1..], design[1..]);
    }
  }

  /** On a path that ends with a marker, the element counts add up to the
      number of attribute and method vertices of the path. */
  lemma EvaluateElementTotal(path: seq<Node>, p: Problem)
    requires Evaluate(path, p).Ok?
    requires |path| > 0 && path[|path| - 1].kind == EndOfClass
    ensures SumInts(Evaluate(path, p).value.elementCounts) == ElementCount(path)
  {
    EvaluateArrays(path, p);
    SumOfSizes(Evaluate(path, p).value.elementCounts, ConstructDesign(path));
    ConstructDesignElements(path);
  }

  /** CBO lies in [0,1]; it is 0 exactly when every use is internal and 1
      exactly when none is; NAC and ATMR are the spreads of the whole element
      count and ratio arrays, zero ratios included, and never negative. */
  lemma EvaluateScores(path: seq<Node>, p: Problem)
    requires Evaluate(path, p).Ok?
    ensures var f := Evaluate(path, p).value;
            0.0 <= f.cbo <= 1.0 &&
            f.internalUses <= p.numberOfUses &&
            (f.cbo == 0.0 <==> f.internalUses == p.numberOfUses) &&
            (f.cbo == 1.0 <==> f.internalUses == 0) &&
            f.nacVariance == Variance(AsReals(f.elementCounts)) && f.atmrVariance == Variance(f.ratios) &&
            f.nacVariance >= 0.0 && f.atmrVariance >= 0.0
  {
    var f := Evaluate(path, p).value;
    var t := TallyOf(ConstructDesign(path), p).value;
    assert Finish(t, p) == Ok(f);
    var u := p.numberOfUses as real;
    var x := f.internalUses as real;
    assert f.cbo == 1.0 - x / u;
    FractionOfWhole(x, u);
    VarianceNonNegative(AsReals(f.elementCounts));
    VarianceNonNegative(f.ratios);
  }

  /** NAC is zero exactly when all classes have the same number of elements. */
  lemma EvaluateNacZeroIffBalanced(path: seq<Node>, p: Problem)
    requires Evaluate(path, p).Ok?
    ensures var f := Evaluate(path, p).value;
            var design := ConstructDesign(path);
            f.nacVariance == 0.0 <==>
              forall i, j :: 0 <= i < |design| && 0 <= j < |design| ==>
                design[i].Size() == design[j].Size()
  {
    var f := Evaluate(path, p).value;
    EvaluateArrays(path, p);
    VarianceZeroIffConstant(AsReals(f.elementCounts));
  }

  // ---------------------------------------------------------------------
  // Vertex numbering

  /** Vertices numbered as the daemon expects: the Nest is 0, attributes are
      1..A and methods A+1..A+M. */
  predicate NumberedFromNest(path: seq<Node>, p: Problem)
  {
    forall i :: 0 <= i < |path| ==>
      (path[i].kind == Attribute ==> 1 <= path[i].number <= p.numberOfAttributes) &&
      (path[i].kind == Method ==>
         p.numberOfAttributes + 1 <= path[i].number <= p.numberOfAttributes + p.numberOfMethods)
  }

  /** A use matrix of M rows of A columns. */
  predicate MatrixShaped(p: Problem)
  {
    |p.useMatrix| == p.numberOfMethods &&
    forall i :: 0 <= i < |p.useMatrix| ==> |p.useMatrix[i]| == p.numberOfAttributes
  }

  /** With numbering from the Nest, an M x A matrix and one marker per class,
      the only failure left is internal uses exceeding the total. */
  lemma NestNumberingAccepted(path: seq<Node>, p: Problem)
    requires WellFormed(p) && MatrixShaped(p) && NumberedFromNest(path, p)
    requires MarkerCount(path) == p.numberOfClasses
    ensures Evaluate(path, p).Ok? || Evaluate(path, p) == Err(InternalUsesExceedTotal)
  {
    var design := ConstructDesign(path);
    ConstructDesignKinds(path);
    ConstructDesignCount(path);
    forall k | 0 <= k < |design|
      ensures ClassAccepted(design[k], p)
    {
      var c := design[k];
      assert c in design;
      forall i | 0 <= i < |c.methods| ensures MethodNumberInRange(c.methods[i], p) {
        assert c.methods[i] in path;
      }
      forall i, j | 0 <= i < |c.methods| && 0 <= j < |c.attributes|
        ensures PairInBounds(c.methods[i], c.attributes[j], p)
      {
        assert c.methods[i] in path && c.attributes[j] in path;
      }
    }
    TallyOfSucceedsIff(design, p);
  }

  /** A four-vertex path Nest, attribute, method, marker is one class. */
  lemma ConcreteDesign(path: seq<Node>, a: Node, m: Node, e: Node)
    requires |path| == 4 && path[0].kind == Nest && path[1..] == [a, m, e]
    requires a.kind == Attribute && m.kind == Method && e.kind == EndOfClass
    ensures ConstructDesign(path) == [DesignClass([a], [m])]
  {
    var c := DesignClass([a], [m]);
    assert [e][1..] == [];
    assert Scan([e], c) == [c] + Scan([], EmptyClass);
    assert [m, e][1..] == [e];
    assert [] + [m] == [m] && [] + [a] == [a];
    assert Scan([m, e], DesignClass([a], [])) == Scan([e], c);
    assert [a, m, e][1..] == [m, e];
    assert Scan([a, m, e], EmptyClass) == Scan([m, e], DesignClass([a], []));
  }

  /** Vertices numbered as the controller's initialiseLists numbers them
      (see Controller.ContiguousNumbering): attributes 0..A-1, methods
      A..A+M-1. */
  predicate NumberedFromZero(path: seq<Node>, p: Problem)
  {
    forall i :: 0 <= i < |path| ==>
      (path[i].kind == Attribute ==> 0 <= path[i].number < p.numberOfAttributes) &&
      (path[i].kind == Method ==>
         p.numberOfAttributes <= path[i].number < p.numberOfAttributes + p.numberOfMethods)
  }

  /** Under numbering from zero, the class reads a use-matrix entry at index
      -1: it has both kinds and holds the attribute numbered 0 or the method
      numbered A. */
  predicate Misread(c: DesignClass, p: Problem)
  {
    HasBothKinds(c) &&
    ((exists j :: 0 <= j < |c.attributes| && c.attributes[j].number == 0) ||
     (exists i :: 0 <= i < |c.methods| && c.methods[i].number == p.numberOfAttributes))
  }

  /** A class numbered from zero passes the method-number assertions, and it
      is accepted exactly when it does not read index -1. Every other pair
      is looked up one row and one column before its own entry. */
  lemma ZeroNumberedClass(c: DesignClass, p: Problem)
    requires MatrixShaped(p)
    requires forall j :: 0 <= j < |c.attributes| ==> 0 <= c.attributes[j].number < p.numberOfAttributes
    requires forall i :: 0 <= i < |c.methods| ==>
               p.numberOfAttributes <= c.methods[i].number < p.numberOfAttributes + p.numberOfMethods
    ensures MethodNumbersInRange(c, p)
    ensures ClassAccepted(c, p) <==> !Misread(c, p)
    ensures forall i, j ::
              (0 <= i < |c.methods| && 0 <= j < |c.attributes| &&
               PairInBounds(c.methods[i], c.attributes[j], p)) ==>
              (Uses(c.methods[i], c.attributes[j], p) <==>
               p.useMatrix[c.methods[i].number - p.numberOfAttributes - 1][c.attributes[j].number - 1] == 1)
  {
    if Misread(c, p) {
      if j :| 0 <= j < |c.attributes| && c.attributes[j].number == 0 {
        assert !PairInBounds(c.methods[0], c.attributes[j], p);
      } else {
        var i :| 0 <= i < |c.methods| && c.methods[i].number == p.numberOfAttributes;
        assert !PairInBounds(c.methods[i], c.attributes[0], p);
      }
    }
  }

  /** With every class passing the method-number assertions and no more
      classes than numberOfClasses, the only error the totals can report is
      an index outside the use matrix. */
  lemma {:induction false} TallyOfOnlyIndexError(design: seq<DesignClass>, p: Problem)
    requires |design| <= p.numberOfClasses
    requires forall k :: 0 <= k < |design| ==> MethodNumbersInRange(design[k], p)
    ensures TallyOf(design, p).Err? ==> TallyOf(design, p) == Err(UseMatrixIndexOutOfBounds)
  {
    if |design| > 0 {
      var init := design[..|design| - 1];
      assert forall k :: 0 <= k < |init| ==> init[k] == design[k];
      TallyOfOnlyIndexError(init, p);
      if TallyOf(init, p).Ok? {
        assert |TallyOf(init, p).value.elementCounts| == |init| < p.numberOfClasses;
      }
    }
  }

  /** The numbering the controller assigns (attributes from 0, methods from
      A) meets the daemon's Nest offset: with one marker per class, scoring
      fails on the use matrix exactly when some class has both kinds and
      holds the attribute numbered 0 or the method numbered A; otherwise the
      only possible failure is internal uses exceeding the total. */
  lemma ZeroBasedNumberingRejected(path: seq<Node>, p: Problem)
    requires WellFormed(p) && MatrixShaped(p) && NumberedFromZero(path, p)
    requires MarkerCount(path) == p.numberOfClasses
    ensures Evaluate(path, p) == Err(UseMatrixIndexOutOfBounds) <==>
              exists k :: 0 <= k < |ConstructDesign(path)| && Misread(ConstructDesign(path)[k], p)
    ensures Evaluate(path, p).Ok? || Evaluate(path, p) == Err(UseMatrixIndexOutOfBounds) ||
            Evaluate(path, p) == Err(InternalUsesExceedTotal)
  {
    var design := ConstructDesign(path);
    ConstructDesignKinds(path);
    ConstructDesignCount(path);
    forall k | 0 <= k < |design|
      ensures MethodNumbersInRange(design[k], p) && (ClassAccepted(design[k], p) <==> !Misread(design[k], p))
    {
      var c := design[k];
      assert c in design;
      forall j | 0 <= j < |c.attributes|
        ensures 0 <= c.attributes[j].number < p.numberOfAttributes
      {
        assert c.attributes[j] in path;
      }
      forall i | 0 <= i < |c.methods|
        ensures p.numberOfAttributes <= c.methods[i].number < p.numberOfAttributes + p.numberOfMethods
      {
        assert c.methods[i] in path;
      }
      ZeroNumberedClass(c, p);
    }
    TallyOfSucceedsIff(design, p);
    TallyOfOnlyIndexError(design, p);
  }

  /** The same design numbered from the Nest scores CBO 0. */
  lemma NestNumberingExample()
    ensures var p := Problem(1, 1, 1, 1, [[1]]);
            var path := [Node(Nest, "nest", 0), Node(Attribute, "a", 1),
                         Node(Method, "m", 2), Node(EndOfClass, "end", -1)];
            Evaluate(path, p).Ok? && Evaluate(path, p).value.cbo == 0.0
  {
    var p := Problem(1, 1, 1, 1, [[1]]);
    var a := Node(Attribute, "a", 1);
    var m := Node(Method, "m", 2);
    var e := Node(EndOfClass, "end", -1);
    var path := [Node(Nest, "nest", 0), a, m, e];
    var c := DesignClass([a], [m]);
    ConcreteDesign(path, a, m, e);
    assert PairInBounds(m, a, p) && Uses(m, a, p);
    assert [a][..0] == [];
    assert RowUses(m, [a], p) == 1;
    assert [m][..0] == [];
    assert PairUses([m], [a], p) == 1;
    assert TallyOf([c], p) == CloseClass(EmptyTally, c, p);
  }
}
