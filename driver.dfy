/** The driver of main.py: choosing the exact oracle, dispatching on the
    algorithm name (run), the multi-threshold sweep (multibeta) and the loop
    over an explicit beta list. The extenders and the external exact solver are
    opaque functions carried in an Externals record; every printed record is
    returned in a trace instead of printed. */
module Driver {
  import opened Sorting
  import opened Records
  import opened Schedule

  datatype Option<T> = None | Some(value: T)
  datatype Result<T, E> = Success(value: T) | Failure(error: E)

  datatype Error = InvalidAlgo(name: string)

  /** The graph as main.py uses it: its nodes in iteration order. */
  datatype Graph = Graph(nodes: seq<NodeId>)

  /** What an exact oracle returns: a cost and a tour. */
  datatype ExactResult = ExactResult(cost: Num, tour: seq<NodeId>)

  /** The code main.py calls but does not show. `christofides` has the
      vertex-cover oracle already bound in. No property of them is assumed. */
  datatype Externals = Externals(
    treedoubling: (Graph, Graph -> ExactResult, Num) -> Solution,
    christofides: (Graph, Graph -> ExactResult, Num) -> Solution,
    concorde: Graph -> ExactResult)

  predicate Distinct(s: seq<NodeId>)
  {
    forall i, j :: 0 <= i < j < |s| ==> s[i] != s[j]
  }

  /** The dummy exact oracle: cost 0 and the graph's own node list as the tour. */
  function DummyOracle(g: Graph): ExactResult
  {
    ExactResult(Int(0), g.nodes)
  }

  /** A tour of g visits every node of g exactly once and nothing else. */
  ghost predicate IsTour(t: seq<NodeId>, g: Graph)
  {
    |t| == |g.nodes| &&
    (forall v :: v in g.nodes ==> multiset(t)[v] == 1) &&
    (forall v :: v in t ==> v in g.nodes)
  }

  /** On a graph whose node list has no repeats, the dummy tour is a tour. */
  lemma DummyOracleIsTour(g: Graph)
    requires Distinct(g.nodes)
    ensures IsTour(DummyOracle(g).tour, g)
  {
    DistinctOnce(g.nodes);
  }

  lemma {:induction false} DistinctOnce(s: seq<NodeId>)
    requires Distinct(s)
    ensures forall v :: v in s ==> multiset(s)[v] == 1
  {
    if |s| > 0 {
      DistinctOnce(s[1..]);
      assert s == [s[0]] + s[1..];
      assert s[0] !in s[1..];
    }
  }

  /** The exact oracle chosen by the flag: the external solver, or the dummy. */
  function ExactAlgo(computeTour: bool, ext: Externals): Graph -> ExactResult
  {
    if computeTour then ext.concorde else DummyOracle
  }

  predicate KnownAlgo(algo: string)
  {
    algo == "treedoubling" || algo == "christofides"
  }

  /** The solution of the named algorithm, or the error for an unknown name. */
  function Solve(g: Graph, algo: string, beta: Num, computeTour: bool, ext: Externals)
    : (r: Result<Solution, Error>)
    ensures r.Failure? <==> !KnownAlgo(algo)
    ensures r.Failure? ==> r.error == InvalidAlgo(algo)
  {
    if algo == "treedoubling" then
      Success(ext.treedoubling(g, ExactAlgo(computeTour, ext), beta))
    else if algo == "christofides" then
      Success(ext.christofides(g, ExactAlgo(computeTour, ext), beta))
    else
      Failure(InvalidAlgo(algo))
  }

  /** run: the record of one run, or the error for an unknown algorithm name
      (in which case no record is produced). */
  function Run(g: Graph, algo: string, beta: Num, computeTour: bool, outputTour: bool,
               ext: Externals, render: Num -> string): (r: Result<string, Error>)
    ensures r.Failure? <==> !KnownAlgo(algo)
    ensures r.Failure? ==> r.error == InvalidAlgo(algo)
  {
    match Solve(g, algo, beta, computeTour, ext)
    case Success(sol) => Success(FormatOutput(sol, |g.nodes|, beta, computeTour, outputTour, render))
    case Failure(e) => Failure(e)
  }

  /** A successful run's record reads back as beta, graph size and kernel size
      first; with dummy tours (no compute_tour) it holds no cost field. */
  lemma RunRecordFields(g: Graph, algo: string, beta: Num, computeTour: bool, outputTour: bool,
                        ext: Externals, render: Num -> string)
    requires CommaFree(render)
    requires KnownAlgo(algo)
    ensures Run(g, algo, beta, computeTour, outputTour, ext, render).Success?
    ensures var fs := ParseRecord(Run(g, algo, beta, computeTour, outputTour, ext, render).value);
            |fs| == 3 + Flag(computeTour) + Flag(outputTour) &&
            fs[0] == render(beta) && fs[1] == render(Int(|g.nodes|)) &&
            fs[2] == render(Int(Solve(g, algo, beta, computeTour, ext).value.kernelSize))
  {
    var sol := Solve(g, algo, beta, computeTour, ext).value;
    ParseFormatOutput(sol, |g.nodes|, beta, computeTour, outputTour, render);
  }

  /** The reference record multibeta writes before the sweep: the exact
      oracle's solution on the whole graph, with beta 0 and kernel size |g|. */
  function ReferenceRecord(g: Graph, computeTour: bool, outputTour: bool, ext: Externals,
                           render: Num -> string): string
  {
    var e := ExactAlgo(computeTour, ext)(g);
    FormatOutput(Solution(e.cost, e.tour, |g.nodes|), |g.nodes|, Int(0), computeTour, outputTour, render)
  }

  /** The reference record reads back as beta 0, the graph size twice (graph and
      kernel), then the cost and the tour as the flags ask; with the dummy
      oracle the tour field is the graph's nodes in iteration order. */
  lemma ReferenceRecordFields(g: Graph, computeTour: bool, outputTour: bool, ext: Externals,
                              render: Num -> string)
    requires CommaFree(render)
    ensures var fs := ParseRecord(ReferenceRecord(g, computeTour, outputTour, ext, render));
            |fs| == 3 + Flag(computeTour) + Flag(outputTour) &&
            fs[0] == render(Int(0)) &&
            fs[1] == render(Int(|g.nodes|)) && fs[2] == render(Int(|g.nodes|)) &&
            (computeTour ==> fs[3] == render(ext.concorde(g).cost)) &&
            (!computeTour && outputTour ==> fs[3] == TourField(g.nodes, render)) &&
            (computeTour && outputTour ==> fs[4] == TourField(ext.concorde(g).tour, render))
  {
    var e := ExactAlgo(computeTour, ext)(g);
    ParseFormatOutput(Solution(e.cost, e.tour, |g.nodes|), |g.nodes|, Int(0), computeTour, outputTour, render);
  }

  /** lines[offset + i] is the record run writes for betas[i], for every i. */
  ghost predicate Recorded(lines: seq<string>, offset: nat, betas: seq<Num>, g: Graph, algo: string,
                           computeTour: bool, outputTour: bool, ext: Externals, render: Num -> string)
  {
    |lines| == offset + |betas| &&
    forall i :: 0 <= i < |betas| ==>
      Run(g, algo, betas[i], computeTour, outputTour, ext, render) == Success(lines[offset + i])
  }

  lemma RecordedExtend(lines: seq<string>, offset: nat, betas: seq<Num>, beta: Num, line: string,
                       g: Graph, algo: string, computeTour: bool, outputTour: bool,
                       ext: Externals, render: Num -> string)
    requires Recorded(lines, offset, betas, g, algo, computeTour, outputTour, ext, render)
    requires Run(g, algo, beta, computeTour, outputTour, ext, render) == Success(line)
    ensures Recorded(lines + [line], offset, betas + [beta], g, algo, computeTour, outputTour, ext, render)
  {
  }

  lemma PrefixStep<T>(s: seq<T>, k: nat, x: T)
    requires k < |s| && s[k] == x
    ensures s[..k + 1] == s[..k] + [x]
  {
  }

  /** multibeta: the reference record, then one run per sweep step over the
      factors sorted in descending order. `betas` lists the beta handed to
      each run call; `lines` the records written. An unknown algorithm name
      stops the sweep at its first run, after the reference record. */
  method Multibeta(g: Graph, factors: seq<real>, algo: string, computeTour: bool,
                   outputTour: bool, ext: Externals, render: Num -> string)
    returns (betas: seq<Num>, lines: seq<string>, err: Option<Error>)
    ensures |lines| >= 1 && lines[0] == ReferenceRecord(g, computeTour, outputTour, ext, render)
    ensures err == None <==> KnownAlgo(algo)
    ensures err == None ==> betas == SweepBetas(SortDescending(factors)) && |lines| == 1 + |betas|
    ensures err != None ==> err == Some(InvalidAlgo(algo)) && betas == [Int(1)] && |lines| == 1
    ensures forall i :: 0 <= i < |lines| - 1 ==>
              Run(g, algo, betas[i], computeTour, outputTour, ext, render) == Success(lines[i + 1])
  {
    lines := [ReferenceRecord(g, computeTour, outputTour, ext, render)];
    var facs := SortDescending(factors);
    var n := |facs|;
    var den := 1;        // asym_ratio == 1 / den
    ghost var k := 0;    // den == 2^k
    ghost var sweep := SweepBetas(facs);
    betas := [];
    err := None;
    while true
      invariant den == Rounding.Pow2(k)
      invariant k < |sweep| && betas == sweep[..k]
      invariant !KnownAlgo(algo) ==> k == 0
      invariant Recorded(lines, 1, betas, g, algo, computeTour, outputTour, ext, render)
      invariant lines[0] == ReferenceRecord(g, computeTour, outputTour, ext, render)
      decreases 2 * n - den
    {
      SweepStep(facs, k);
      Rounding.RoundZeroIff(n, den);
      var index := Rounding.RoundHalfEven(n, den);
      var beta;
      if index >= n {
        beta := Int(1);
      } else {
        beta := Float(facs[index]);
      }
      var r := Run(g, algo, beta, computeTour, outputTour, ext, render);
      if r.Failure? {
        betas := betas + [beta];
        err := Some(r.error);
        assert Indices(n)[0] == n;
        return;
      }
      RecordedExtend(lines, 1, betas, beta, r.value, g, algo, computeTour, outputTour, ext, render);
      PrefixStep(sweep, k, beta);
      betas := betas + [beta];
      lines := lines + [r.value];
      if Rounding.RoundHalfEven(n, den) > 0 {
        den := den * 2;
        k := k + 1;
      } else {
        break;
      }
    }
    assert betas == sweep;
  }

  /** The loop of main over an explicit beta list: one record per beta, in
      list order; an unknown algorithm name stops it before any record. */
  method RunBetaList(g: Graph, algo: string, betaList: seq<Num>, computeTour: bool,
                     outputTour: bool, ext: Externals, render: Num -> string)
    returns (lines: seq<string>, err: Option<Error>)
    ensures err == None <==> KnownAlgo(algo) || |betaList| == 0
    ensures err != None ==> err == Some(InvalidAlgo(algo)) && lines == []
    ensures err == None ==> |lines| == |betaList|
    ensures forall i :: 0 <= i < |lines| ==>
              Run(g, algo, betaList[i], computeTour, outputTour, ext, render) == Success(lines[i])
  {
    lines := [];
    err := None;
    for i := 0 to |betaList|
      invariant |lines| == i
      invariant i > 0 ==> KnownAlgo(algo)
      invariant forall j :: 0 <= j < i ==>
                  Run(g, algo, betaList[j], computeTour, outputTour, ext, render) == Success(lines[j])
    {
      var r := Run(g, algo, betaList[i], computeTour, outputTour, ext, render);
      if r.Failure? {
        err := Some(r.error);
        return;
      }
      lines := lines + [r.value];
    }
  }
}
