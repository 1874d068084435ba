# ATSP approximation driver: sweep schedule and result records

This project models the driver of the ATSP approximation tool, `src/main.py`.
The driver reads an asymmetric cost matrix. It runs the generalised tree
doubling or Christofides algorithm once per asymmetry threshold `beta`, and
writes one comma-separated result record per run, after a header line.

The modelled parts are:

- **The sweep schedule of `multibeta`.** The factors are sorted in descending
  order. The ratio starts at 1 and halves each step. At each step the index is
  `round(ratio * n)`, with Python's round-half-to-even. Beta is the literal 1
  when the index is past the end of the list, and the factor at the index
  otherwise. The sweep stops after the first run whose index is 0.
  - The ratio is always `1/2^k`, so the index is modelled exactly on integers,
    as `RoundHalfEven(n, 2^k)` (module `Rounding`).
  - The index does not fall strictly: five factors give the indices
    5, 2, 1, 1, 0. Termination therefore rests on the ratio: the loop measure
    is `2n - 2^k`.
- **The reference record.** Before the sweep, `multibeta` writes one record for
  the exact oracle on the whole graph. It has beta 0 and kernel size |g|.
- **`run`.** It chooses the exact oracle (the external solver, or the dummy
  oracle that returns cost 0 and the graph's own node list). It dispatches on
  the algorithm name: an unknown name is the error `invalid algo`, and no
  record is written.
- **`format_output`.** It builds beta, graph size and kernel size, then the
  cost when tours are computed, then the space-separated tour when it is asked
  for. These are joined by ", ".
- **The header of `main`.** Its column list comes from the same two flags.
- **The loop of `main` over an explicit beta list.**

Rendering a number (Python's `str`) is a parameter `render: Num -> string`.
`Num` keeps Python ints (the literal betas 0 and 1, sizes, node ids) apart
from floats. The extenders `g_treedoubling` and `g_christofides` and the exact
solver `concorde_asym` are opaque function fields of an `Externals` record. No
property of them is assumed. Printed records are returned as a list of lines.

Modules: `Text` (join and split), `Rounding`, `Sorting`, `Records` (record and
header lines), `Schedule` (the sweep), and `Driver` (`run`, `multibeta` and the
beta-list loop).

## Model

| member | source | states |
|---|---|---|
| Rounding.RoundHalfEven | src/main.py:42 | Python 3 `round` on the exact value num/den, from quotient and remainder. Its meaning is stated in RoundHalfEvenSpec and RoundHalfEvenUnique. |
| Rounding.RoundHalfEvenSpec | src/main.py:42 | round(num/den) is within one half of num/den. A tie goes to the even neighbour. The result is 0 exactly when num/den <= 1/2. |
| Rounding.RoundHalfEvenUnique | src/main.py:42 | Any value meeting that specification equals the computed rounding, so the specification pins Python's round down exactly. |
| Rounding.RoundZeroIff | src/main.py:50-53 | The sweep's stop test `round(ratio*n) > 0` fails exactly when 2n <= 2^k. |
| Rounding.RoundHalving | src/main.py:50-51 | Halving the ratio never raises the rounded index. |
| Rounding.RoundHalfBelow | src/main.py:42-46 | For n >= 1, round(n/2) < n, so the second index is already inside the factor list. |
| Sorting.Insert | src/main.py:39 | Inserting into a descending list keeps it descending. The result is a permutation of the list plus the new element, and its head is the larger of the two heads. |
| Sorting.SortDescending | src/main.py:39 | `sorted(..., reverse=True)`: the result is descending and a permutation of the input. |
| Schedule.IndexAt | src/main.py:42 | The index after k halvings, round(n/2^k). See IndicesFrom, IndicesNonIncreasing and SweepStep. |
| Schedule.IndicesFrom | src/main.py:41-53 | The i-th index from step k on is round(n/2^(k+i)). Every index before the last is positive, and the last is 0. The loop stops after its first zero index. |
| Schedule.Indices | src/main.py:40-42 | The first index, at ratio 1, is n itself. |
| Schedule.IndicesNonIncreasing | src/main.py:42-51 | The indices never grow as the ratio halves. |
| Schedule.IndicesInRange | src/main.py:43-46 | Every index after the first lies inside the factor list. |
| Schedule.IndicesLength | src/main.py:41-53 | The sweep makes exactly the runs with 2^k < 2n, plus one more. An empty factor list gives a single run. |
| Schedule.IndicesOfThree | src/main.py:41-53 | Three factors give the indices 3, 2, 1, 0. |
| Schedule.IndicesOfFive | src/main.py:41-53 | Five factors give the indices 5, 2, 1, 1, 0: the index can repeat, so two runs share a beta. |
| Schedule.BetaAt | src/main.py:43-46 | The beta for one index: the int 1 past the list, else the factor there. Its contract states that every beta is the literal 1 or one of the factors. See SweepBetasSource and SweepBetasMembers for the sweep. |
| Schedule.SweepBetas | src/main.py:41-53 | The betas the loop passes to `run`, in order: one per sweep index, as many as the sweep has indices. See SweepStep, SweepBetasSource, SweepBetasMembers, SweepBetasNonDecreasing and SweepBetasEnd. |
| Schedule.SweepStep | src/main.py:41-53 | Run k uses the beta for round(n/2^k). Another run follows exactly when that index is positive. |
| Schedule.SweepBetasSource | src/main.py:43-46 | The first run uses beta 1. Every later run uses the factor at an index inside the list. |
| Schedule.SweepBetasMembers | src/main.py:43-46 | Every beta is the literal 1 or one of the factors. |
| Schedule.SweepBetasNonDecreasing | src/main.py:39-51 | With the factors descending, the betas after the first never decrease. |
| Schedule.SweepBetasEnd | src/main.py:39-53 | The sweep ends on the largest factor, facs[0]. With no factors it is the single run with beta 1. |
| Records.TourField | src/main.py:90 | The tour field, node ids joined by single spaces. See TourFieldCommaFree and TourFieldRoundTrip. |
| Records.RenderedTour | src/main.py:90 | The node ids of the tour, each rendered, in tour order (the generator of line 90). See TourFieldRoundTrip. |
| Records.RecordFields | src/main.py:86-90 | The fields of one record, in order. See HeaderMatchesRecord and ParseFormatOutput. |
| Records.FormatOutput | src/main.py:85-91 | `format_output`: the fields joined by ", ". See ParseFormatOutput and HeaderMatchesRecord. |
| Records.HeaderFields | src/main.py:147-151 | The column names for the two flags. See HeaderMatchesRecord. |
| Records.HeaderLine | src/main.py:147-152 | The header line, the column names joined by ", ". See ParseHeaderLine. |
| Records.HeaderMatchesRecord | src/main.py:147-152 | The header has 3 + [compute_tour] + [output_tour] columns. Every record has as many fields, and field k holds what column k names. |
| Records.ParseHeaderLine | src/main.py:147-152 | The header line splits back into its column names. |
| Records.ParseFormatOutput | src/main.py:85-91 | A record read back at its ", " separators gives exactly its fields, in order. It holds 2 + [compute_tour] + [output_tour] commas. This requires only that rendered numbers hold no comma. |
| Records.TourFieldCommaFree | src/main.py:90 | The tour field holds no comma, so it never splits a record. |
| Records.TourFieldRoundTrip | src/main.py:90 | A non-empty tour field splits at spaces back into the rendered node ids, in tour order. |
| Driver.DummyOracle | src/main.py:61-63 | The dummy oracle: cost int 0 and the graph's node list as the tour. See DummyOracleIsTour and ReferenceRecordFields. |
| Driver.DummyOracleIsTour | src/main.py:31-33 | On a graph without repeated nodes, the dummy tour visits every node exactly once. |
| Driver.ExactAlgo | src/main.py:57-63 | The exact oracle for the flag: the external solver, or DummyOracle. The same choice is made in `multibeta` at lines 27-33. See DummyOracle and ReferenceRecordFields. |
| Driver.Solve | src/main.py:65-72 | Dispatch fails exactly for a name other than treedoubling and christofides, with the error naming that algorithm. |
| Driver.Run | src/main.py:56-73 | Given that the externals return, `run` yields a record exactly when the algorithm name is known. Otherwise it yields the invalid-algo error and no record. |
| Driver.RunRecordFields | src/main.py:73 | A successful run's record reads back as beta, graph size and the extender's kernel size, with 3 + [compute_tour] + [output_tour] fields. |
| Driver.ReferenceRecord | src/main.py:37 | The record written before the sweep: the exact oracle's result on the whole graph, with beta 0 and the graph size as kernel size. See ReferenceRecordFields. |
| Driver.ReferenceRecordFields | src/main.py:37 | The reference record reads back as beta 0, then the graph size as both graph and kernel size, then the solver's cost and tour as the flags ask. With the dummy oracle the tour is the graph's nodes. |
| Driver.Multibeta | src/main.py:23-53 | Given that the externals return: the first line is the reference record. For a known algorithm, the betas run are exactly SweepBetas of the descending factors, each with its record. For an unknown one, the first run (beta 1) fails and only the reference record is written. |
| Driver.RunBetaList | src/main.py:159-160 | One record per listed beta, in list order. An unknown algorithm stops the loop before any record, unless the list is empty. |

## Left out

- Argument parsing, the help text and the exit on an empty command line
  (lines 94-132) are not modelled. The flags arrive as booleans, and the algorithm as a name.
- Matrix parsing, `remove_dead_nodes`, `metricize_cost_matrix` and `to_graph`
  are not part of this model. A graph is its node list in iteration order.
- `asymmetry_factors` is not part of this model. The factor list is an input
  to `Multibeta`.
- The extenders `g_treedoubling` and `g_christofides`, the vertex-cover oracle
  and `concorde_asym` are opaque parameters. Costs, kernels and tours they
  compute are not modelled.
- Externals: the extenders and `concorde_asym` are modelled as total
  functions. An exception raised inside them (for instance a failed solver)
  aborts `run` and `multibeta` after the records already written. That is not
  modelled, so the only error the model knows is the unknown algorithm name.
- Python's `str` on numbers is the parameter `render`. The record round trip
  assumes only that it never produces a comma, and the tour round trip that it
  never produces a space.
- Floats are modelled as exact reals. The sweep index is exact because the
  ratio is a power of two. That holds while n is below 2^53.
- The diagnostic lines that `run` and `multibeta` print to standard output
  ("Using dummy tour", "About to run treedoubling", ...) are not modelled; they
  interleave with the records on the real output. Only the header line and the
  records are modelled.
- The raised `ValueError` is a `Failure` result. The partial output written
  before it is returned beside the error.
- `random_tour` and `compare_algos` are benchmarking helpers that `main` does
  not call, so they are not modelled.
