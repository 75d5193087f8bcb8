/** The construction graph an ant walks, and the path it leaves behind. */
module Graph {

  /** The four vertex variants. */
  datatype Kind = Nest | Attribute | Method | EndOfClass

  /** A vertex: its variant, a name, and the integer identity (`number`) that
      indexes the pheromone table. The Nest is the single start marker; an
      EndOfClass marker closes the class built since the previous marker. */
  datatype Node = Node(kind: Kind, name: string, number: int) {
    /** Attributes and methods are the elements a design distributes. */
    predicate IsElement() { kind == Attribute || kind == Method }
  }

  /** The number of attribute and method vertices on a path. */
  function ElementCount(path: seq<Node>): nat
  {
    if |path| == 0 then 0
    else (if path[0].IsElement() then 1 else 0) + ElementCount(path[1..])
  }

  /** The number of EndOfClass markers on a path. */
  function MarkerCount(path: seq<Node>): nat
  {
    if |path| == 0 then 0
    else (if path[0].kind == EndOfClass then 1 else 0) + MarkerCount(path[1..])
  }

  /** The three minimisation objectives the daemon records with a path. */
  datatype Objectives = Objectives(cbo: real, nac: real, atmr: real)

  /** Whether a path is a whole design or the legacy partial (one-class) path. */
  datatype Role = WholeDesign | PartialClass

  /** A scored ant path as it sits in the colony: its vertices, the objective
      values the daemon computed, the domination count the Pareto operators
      assigned, and its role. */
  datatype Path = Path(nodes: seq<Node>, objectives: Objectives, dominationCount: nat, role: Role)
}
