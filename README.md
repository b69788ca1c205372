# Gurobi solution reader and run classification, modelled in Dafny

This project models the Gurobi back end of the `lp_modeler` crate (`src/solvers/gurobi.rs`).
It covers three parts:

- **The solution-file reader** (`read_specific_solution`). It skips the header line. After that,
  a line starting with `#` is a comment. Every other line must split on whitespace into exactly
  two tokens, `name value`, and the value must parse as a number. The parsed values go into a map
  from names to values. The first bad line ends the read with an error and no map.
- **The decision part of `run`.** A status is derived from the solver's console text. It is then
  combined with the exit status and with the result of reading the solution file.
- **The configuration record** `GurobiSolver`, with `new` and the functional update `command_name`.

Modules, one per file:

- `Wrappers` (`wrappers.dfy`): `Option` and `Result`.
- `Solvers` (`solvers.dfy`): the `Status` enum. It is defined in `src/solvers/mod.rs`, which is
  not part of this model; the model lists its five variants.
- `Text` (`text.dfy`): `split_whitespace` (`Tokens`), `split` on one character (`Split`) and
  `contains` (`Contains`), each with the lemmas that pin it down.
- `SolutionReader` (`solution_reader.dfy`): the reader. It is a method with a loop over the lines
  and a map it updates. The method is proved equal to `Solution`, a fold of one-line steps, and
  the reader's properties are lemmas about that fold.
- `SolutionExamples` (`solution_examples.dfy`): concrete files and what they read as.
- `Gurobi` (`gurobi.dfy`): the record, `ClassifyStatus`, `ReadSolution` and `Run`.

Modelling choices:

- A solution file is the sequence of its lines without terminators. The header is the first line,
  or the empty string for an empty file, which is what `read_line` leaves in its buffer.
- Number parsing (`str::parse::<f32>`) is the parameter `parse: string -> Result<V, string>` over
  an abstract value type `V`. A parse error is returned with the parser's own message, as the
  source does.
- I/O outcomes are parameters of `Run`. These are: the result of writing the model file, the
  finished process (or `None` if it could not be started), and the solution file's lines (or
  `None` if it could not be opened).
- The header check `split(" ").next()` always yields a piece, so its error branch is dead. The
  model keeps the branch and proves it unreachable (`HeaderNeverRejected`). An empty file
  therefore reads as `Ok` with an empty map; it is not rejected.
- No token of the file is attached to an error. A line with a token count other than two gives
  `"Incorrect solution format"`. A bad number gives the parser's message unchanged.
- The reader always reports `Optimal`. `run` throws that status away and uses the one from the
  console text.

## Model

| member | source | states |
|---|---|---|
| `SolutionReader.ReadSpecificSolution` | src/solvers/gurobi.rs:36-67 | the loop over the lines after the header returns exactly `Solution(lines)`, the left-to-right fold of one-line steps; on success the status is `Optimal` |
| `SolutionReader.Step` | src/solvers/gurobi.rs:46-61 | one pass of the loop body: a line lets the read go on exactly when it is a comment or a two-token line whose value parses; a comment leaves the map unchanged; a data line inserts name to parsed value; any other line gives its own error (format error, or the parser's error) |
| `SolutionReader.Fold` | src/solvers/gurobi.rs:43-62 | the loop over the lines after the header, stopping at the first error; a successful read never loses a name it started with |
| `SolutionReader.Solution` | src/solvers/gurobi.rs:36-67 | the reader as a whole: header check, then the fold from the empty map; a successful result always carries status `Optimal` |
| `SolutionReader.FoldAppend` | src/solvers/gurobi.rs:43-62 | reading `a + b` is reading `a` and then continuing from its map with `b`; an error in `a` is the result |
| `SolutionReader.FoldOkIff` | src/solvers/gurobi.rs:43-62 | all or nothing: the read succeeds if and only if every line after the header is accepted |
| `SolutionReader.FoldFirstRejected` | src/solvers/gurobi.rs:51-61 | when line k is the first line that is not accepted, the result is that line's error, whatever the later lines hold |
| `SolutionReader.CommentIgnored` | src/solvers/gurobi.rs:46-49 | inserting a `#` line anywhere after the header leaves the result unchanged |
| `SolutionReader.FoldSuccess` | src/solvers/gurobi.rs:43-55 | on success the map's keys are the starting keys plus the names of the data lines, and nothing else; each name maps to the value parsed from the last data line that assigns it; other names keep their starting value |
| `SolutionReader.HeaderNeverRejected` | src/solvers/gurobi.rs:40-42 | the header check `split(" ").next()` always passes, so the error return at lines 63-65 is unreachable |
| `SolutionReader.HeaderOnly` | src/solvers/gurobi.rs:40-66 | an empty file, or a file holding only a header, reads as `Ok((Optimal, {}))` |
| `SolutionReader.HeaderContentIgnored` | src/solvers/gurobi.rs:40-42 | replacing the header line by any other line does not change the result |
| `SolutionReader.SolutionCharacterised` | src/solvers/gurobi.rs:36-67 | the whole reader, stated per line: `Ok` if and only if every line after the header is accepted; otherwise the first rejected line's error; on `Ok` the status is `Optimal`, the keys are exactly the data lines' names and each value comes from the last assignment |
| `SolutionReader.DataLineFormat` | src/solvers/gurobi.rs:51-55 | a line made of any leading whitespace, a name, a non-empty run of whitespace, a value and any trailing whitespace is a data line with that name and value text, unless the name begins with `#` at column 0 |
| `Text.Tokens` | src/solvers/gurobi.rs:51 | every token `split_whitespace` yields is non-empty and contains no whitespace |
| `Text.TokensEmptyIffBlank` | src/solvers/gurobi.rs:51-52 | a line has zero tokens if and only if it is all whitespace, so a blank line fails the two-token test |
| `Text.TokensSkipLeading` | src/solvers/gurobi.rs:51 | whitespace in front of a line does not change its tokens |
| `Text.TokensWordThenSpace` | src/solvers/gurobi.rs:51 | a word followed by a non-empty run of whitespace is the first token, and the tokens of the rest follow; with `TokensSkipLeading` and `TokensEmptyIffBlank` this fixes the tokens of every string |
| `Text.TokensWordThenBlank` | src/solvers/gurobi.rs:51 | a word followed only by whitespace is exactly one token: trailing whitespace is dropped |
| `Text.TokensJoin` | src/solvers/gurobi.rs:51-52 | round trip: words joined with single spaces split back into the same words |
| `Text.Split` | src/solvers/gurobi.rs:42 | `split` on a character yields at least one piece, and no piece contains the separator |
| `Text.JoinSplit` | src/solvers/gurobi.rs:42 | round trip: joining the pieces of `split` with the separator gives back the original string |
| `Text.Contains` | src/solvers/gurobi.rs:95-98 | `contains` is true if and only if the pattern occurs at some index of the text |
| `SolutionExamples.TwoValues` | src/solvers/gurobi.rs:40-66 | a header and the lines ` a 1.0`, ` b 2.5` read as the map `{a, b}` with status `Optimal` |
| `SolutionExamples.CommentSkipped` | src/solvers/gurobi.rs:46-49 | a `# comment` line between the header and a data line is skipped |
| `SolutionExamples.IndentedHashIsData` | src/solvers/gurobi.rs:47-55 | ` #x 3` is not a comment; it assigns the name `#x` |
| `SolutionExamples.TabsAndTrailingSpace` | src/solvers/gurobi.rs:51-55 | `x`, two tabs, `3`, two spaces is a data line assigning `x` |
| `SolutionExamples.LastValueWins` | src/solvers/gurobi.rs:55 | two lines for `x` leave the second value in the map |
| `SolutionExamples.ThreeTokensRejected` | src/solvers/gurobi.rs:59-61 | a line of three tokens fails the read with the format error, whatever follows |
| `SolutionExamples.BlankLineRejected` | src/solvers/gurobi.rs:51-61 | an empty line after the header fails the read with the format error |
| `SolutionExamples.BadNumberRejected` | src/solvers/gurobi.rs:53-57 | a value that does not parse fails the read with the parser's error text |
| `Gurobi.New` | src/solvers/gurobi.rs:21-27 | a new solver is named `Gurobi`, runs `gurobi_cl`, and its temporary file is the UUID followed by `.sol` |
| `Gurobi.NewDistinctFiles` | src/solvers/gurobi.rs:25 | solvers built from different UUIDs have different temporary solution files |
| `Gurobi.CommandName` | src/solvers/gurobi.rs:28-34 | the new solver runs the given command; its name and temporary file are those of the original |
| `Gurobi.CommandNameLaws` | src/solvers/gurobi.rs:28-34 | setting the command twice keeps the second; setting it to the current command changes nothing |
| `Gurobi.ClassifyStatus` | src/solvers/gurobi.rs:93-100 | `Optimal` if and only if the console text contains "Optimal solution found"; otherwise `Infeasible` if and only if it contains "infeasible"; otherwise `SubOptimal` |
| `Gurobi.ConsoleSaysUnique` | src/solvers/gurobi.rs:93-100 | the console text determines exactly one status, never `Unbounded` or `NotSolved` |
| `Gurobi.ReadSolution` | src/solvers/gurobi.rs:69-76 | a file that cannot be opened gives "Cannot open file"; otherwise the result is the reader's, error or success |
| `Gurobi.SpawnError` | src/solvers/gurobi.rs:108 | the error when the process cannot be started names the solver |
| `Gurobi.Run` | src/solvers/gurobi.rs:82-116 | a failed model write, a process that cannot start, or a failed exit each end the run with their own error, and the solution file does not affect that result; after a successful exit, a read error is returned unchanged; on success the result pairs the console-derived status with the parsed map, not the reader's `Optimal` |

## Left out

- Deleting the temporary solution file and the model file (`fs::remove_file`): filesystem side effects. They do not change the returned value.
- Writing the LP model file (`write_lp`) and the problem's `unique_name`: defined in modules that are not part of this model. Only the outcome of the write is a parameter of `Run`.
- Spawning the process and passing its arguments (`ResultFile=…` and the model file name): an external process call. Only its outcome is a parameter.
- Drawing the UUID in `new`: random, from a foreign crate. The UUID text is a parameter of `New`.
- Cutting the raw file into lines (`BufRead::lines`, including the removal of `\r`), and the I/O or UTF-8 errors that `read_line` ignores and `line.unwrap()` panics on. The reader's input is the file's lines.
- The panic of `String::from_utf8(..).expect("")` on console output that is not UTF-8: the console text is a string here.
- The semantics of `f32` parsing and rounding: floating point. It is the abstract parameter `parse`.
- Non-ASCII whitespace in `split_whitespace`: `Text.IsWhitespace` covers the ASCII whitespace characters only.
- `src/main.rs`: a demo driver that builds a problem, calls a solver and prints the results.
