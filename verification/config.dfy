/** The run configuration, fixed for the length of a run. */
module Config {

  datatype Algorithm = SimpleACO | MMAS

  /** Which single objective the single-objective MMAS update follows. */
  datatype SingleObjective = SoCBO | SoNAC

  /** How MMAS picks the one path that deposits. */
  datatype UpdateRule = SingleObjectiveUpdate(objective: SingleObjective) | ParetoBased

  /** The numbers of the benchmark design problems; each fixes the NAC and
      ATMR scales. Any other number is an unknown problem. */
  const TEST: int := 0
  const CBS: int := 1
  const GDP: int := 2
  const SC: int := 3

  datatype Settings = Settings(
    algorithm: Algorithm,
    updateRule: UpdateRule,
    objectiveCBO: bool,
    objectiveNAC: bool,
    objectiveATMR: bool,
    evaporationElitism: bool,
    constraintHandling: bool,
    problemNumber: int)

  /** The MAX-MIN Ant System pheromone bounds. */
  const MMAS_PHEROMONE_MINIMUM: real := 0.5
  const MMAS_PHEROMONE_MAXIMUM: real := 3.5

  /** The multiplier of the squared best CBO in the interaction interval. */
  const INTERACTIVE_INTERVAL_CONSTANT: real := 200.0

  /** The weights an interactive run starts from: all weight on CBO. */
  const INITIAL_wCBO: real := 1.0
  const INITIAL_wNAC: real := 0.0
  const INITIAL_wATMR: real := 0.0
}
