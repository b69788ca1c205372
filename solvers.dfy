/**
 * The outcome of a solve attempt. The enum itself lives in the solvers module of the
 * repository (src/solvers/mod.rs), which is not part of this model; its variants are the
 * five a solve attempt can end in.
 */
module Solvers {

  datatype Status = Optimal | SubOptimal | Infeasible | Unbounded | NotSolved
}
