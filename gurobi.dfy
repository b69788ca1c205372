/**
 * The Gurobi back end: its configuration record, `read_solution`, and the decision part of
 * `SolverTrait::run`. Writing the model file, spawning `gurobi_cl`, opening the solution file
 * and drawing a UUID are not modelled as actions; their outcomes are parameters.
 */
module Gurobi {
  import opened Wrappers
  import opened Text
  import opened Solvers
  import SolutionReader

  /** The solver's configuration: display name, executable, and temporary solution file. */
  datatype GurobiSolver = GurobiSolver(name: string, commandName: string, tempSolutionFile: string)

  const DefaultName: string := "Gurobi"
  const DefaultCommand: string := "gurobi_cl"
  const SolutionSuffix: string := ".sol"

  /** `GurobiSolver::new`; `uuid` is the text of the random UUID drawn for the temporary file. */
  function New(uuid: string): (s: GurobiSolver)
    ensures s.name == DefaultName && s.commandName == DefaultCommand
    ensures |s.tempSolutionFile| == |uuid| + |SolutionSuffix|
    ensures s.tempSolutionFile[..|uuid|] == uuid && s.tempSolutionFile[|uuid|..] == SolutionSuffix
  {
    GurobiSolver(DefaultName, DefaultCommand, uuid + SolutionSuffix)
  }

  /** Two solvers built from different UUIDs never share a temporary solution file. */
  lemma NewDistinctFiles(u1: string, u2: string)
    requires u1 != u2
    ensures New(u1).tempSolutionFile != New(u2).tempSolutionFile
  {
  }

  /** `command_name`: a new solver that runs `commandName`; the other fields are copied. */
  function CommandName(s: GurobiSolver, commandName: string): (r: GurobiSolver)
    ensures r.commandName == commandName
    ensures r.name == s.name && r.tempSolutionFile == s.tempSolutionFile
  {
    s.(commandName := commandName)
  }

  /** Setting the command twice keeps the second; setting it to the current one changes nothing. */
  lemma CommandNameLaws(s: GurobiSolver, a: string, b: string)
    ensures CommandName(CommandName(s, a), b) == CommandName(s, b)
    ensures CommandName(s, s.commandName) == s
  {
  }

  const OptimalMarker: string := "Optimal solution found"
  const InfeasibleMarker: string := "infeasible"

  /**
   * `status` is what the console text calls for: `Optimal` when it reports an optimal solution
   * (whatever else it says), otherwise `Infeasible` when it mentions "infeasible" (case
   * matters), otherwise `SubOptimal`.
   */
  ghost predicate ConsoleSays(stdout: string, status: Status) {
    && (status == Optimal <==> Contains(stdout, OptimalMarker))
    && (status == Infeasible <==> !Contains(stdout, OptimalMarker) && Contains(stdout, InfeasibleMarker))
    && (status == SubOptimal <==> !Contains(stdout, OptimalMarker) && !Contains(stdout, InfeasibleMarker))
  }

  /** The console text determines one status, and it is never `Unbounded` or `NotSolved`. */
  lemma ConsoleSaysUnique(stdout: string, s1: Status, s2: Status)
    requires ConsoleSays(stdout, s1) && ConsoleSays(stdout, s2)
    ensures s1 == s2
    ensures s1 != Unbounded && s1 != NotSolved
  {
  }

  /** The status classification in `run`: a status variable set from the solver's console text. */
  method ClassifyStatus(stdout: string) returns (status: Status)
    ensures ConsoleSays(stdout, status)
  {
    status := SubOptimal;
    if Contains(stdout, OptimalMarker) {
      status := Optimal;
    } else if Contains(stdout, InfeasibleMarker) {
      status := Infeasible;
    }
  }

  const CannotOpenFile: string := "Cannot open file"

  /** `read_solution`: `solutionFile` is the lines of the temporary file, or `None` when it cannot be opened. */
  method ReadSolution<V>(solutionFile: Option<seq<string>>, parse: string -> Result<V, string>)
    returns (r: Result<(Status, map<string, V>), string>)
    ensures solutionFile.None? ==> r == Err(CannotOpenFile)
    ensures solutionFile.Some? ==> r == SolutionReader.Solution(solutionFile.value, parse)
  {
    match solutionFile {
      case Some(lines) =>
        var res := SolutionReader.ReadSpecificSolution(lines, parse);
        if res.Err? {
          return Err(res.error);
        }
        r := Ok(res.value);
      case None =>
        r := Err(CannotOpenFile);
    }
  }

  /** What the finished solver process left: whether it exited successfully, its exit status as text, and its console output. */
  datatype ProcessOutput = ProcessOutput(success: bool, exitStatus: string, stdout: string)

  /** The error text when the solver process cannot be started; it names the solver. */
  function SpawnError(name: string): (message: string)
    ensures Contains(message, name)
  {
    var prefix := "Error running the ";
    var message := prefix + name + " solver";
    assert message[|prefix|..|prefix| + |name|] == name;
    assert OccursAt(message, name, |prefix|);
    message
  }

  /**
   * `run`: `writeLp` is the outcome of writing the model file, `process` the finished process
   * (`None` when it could not be started) and `solutionFile` the solution file it wrote.
   * Each failure ends the run with its own error; the solution file is read only after a
   * successful exit, and on success the status comes from the console text, not from the reader.
   */
  method Run<V>(solver: GurobiSolver, writeLp: Result<(), string>, process: Option<ProcessOutput>,
                solutionFile: Option<seq<string>>, parse: string -> Result<V, string>)
    returns (r: Result<(Status, map<string, V>), string>)
    ensures writeLp.Err? ==> r == Err(writeLp.error)
    ensures writeLp.Ok? && process.None? ==> r == Err(SpawnError(solver.name))
    ensures writeLp.Ok? && process.Some? && !process.value.success ==> r == Err(process.value.exitStatus)
    ensures writeLp.Ok? && process.Some? && process.value.success && solutionFile.None? ==>
      r == Err(CannotOpenFile)
    ensures writeLp.Ok? && process.Some? && process.value.success && solutionFile.Some? ==>
      var read := SolutionReader.Solution(solutionFile.value, parse);
      && (read.Err? ==> r == Err(read.error))
      && (read.Ok? ==> r.Ok? && r.value.1 == read.value.1 && ConsoleSays(process.value.stdout, r.value.0))
  {
    match writeLp {
      case Err(e) =>
        r := Err(e);
      case Ok(_) =>
        match process {
          case None =>
            r := Err(SpawnError(solver.name));
          case Some(output) =>
            var status := ClassifyStatus(output.stdout);
            if output.success {
              var read := ReadSolution(solutionFile, parse);
              if read.Err? {
                return Err(read.error);
              }
              r := Ok((status, read.value.1));
            } else {
              r := Err(output.exitStatus);
            }
        }
    }
  }
}
