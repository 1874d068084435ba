/** The comma-separated result line written once per run (format_output) and
    the header line naming its columns. Rendering a number with Python's `str`
    is left to a caller-supplied `render` function. */
module Records {
  import opened Text

  /** The numbers that reach a record: Python ints (the literal betas 0 and 1,
      sizes, node ids) and floats (factors, costs) render differently. */
  datatype Num = Int(i: int) | Float(x: real)

  type NodeId = int

  /** A solution as the extenders return it: cost, tour and kernel size. */
  datatype Solution = Solution(cost: Num, tour: seq<NodeId>, kernelSize: nat)

  /** The tour field: node ids in tour order, separated by single spaces. */
  function TourField(tour: seq<NodeId>, render: Num -> string): string
  {
    Join(RenderedTour(tour, render), " ")
  }

  /** The node ids of the tour, each rendered, in tour order. */
  function RenderedTour(tour: seq<NodeId>, render: Num -> string): seq<string>
  {
    seq(|tour|, k requires 0 <= k < |tour| => render(Int(tour[k])))
  }

  /** The fields of one record, in order: beta, graph_size, kernel_size, then
      the cost when a tour was computed, then the tour when it is asked for. */
  function RecordFields(sol: Solution, graphSize: nat, beta: Num, computeTour: bool,
                        outputTour: bool, render: Num -> string): seq<string>
  {
    [render(beta), render(Int(graphSize)), render(Int(sol.kernelSize))]
    + (if computeTour then [render(sol.cost)] else [])
    + (if outputTour then [TourField(sol.tour, render)] else [])
  }

  /** format_output: the fields joined by ", ". */
  function FormatOutput(sol: Solution, graphSize: nat, beta: Num, computeTour: bool,
                        outputTour: bool, render: Num -> string): string
  {
    Join(RecordFields(sol, graphSize, beta, computeTour, outputTour, render), ", ")
  }

  /** The column names printed before any record, built from the same two flags. */
  function HeaderFields(computeTour: bool, outputTour: bool): seq<string>
  {
    ["beta", "graph_size", "kernel_size"]
    + (if computeTour then ["tour_cost"] else [])
    + (if outputTour then ["tour"] else [])
  }

  function HeaderLine(computeTour: bool, outputTour: bool): string
  {
    Join(HeaderFields(computeTour, outputTour), ", ")
  }

  /** What the column called `name` holds for a solution. */
  function FieldValue(name: string, sol: Solution, graphSize: nat, beta: Num,
                      render: Num -> string): string
  {
    if name == "beta" then render(beta)
    else if name == "graph_size" then render(Int(graphSize))
    else if name == "kernel_size" then render(Int(sol.kernelSize))
    else if name == "tour_cost" then render(sol.cost)
    else if name == "tour" then TourField(sol.tour, render)
    else ""
  }

  function Flag(b: bool): nat { if b then 1 else 0 }

  /** Every record has as many fields as the header has columns, and field k
      holds exactly what the header's column k names. */
  lemma HeaderMatchesRecord(sol: Solution, graphSize: nat, beta: Num, computeTour: bool,
                            outputTour: bool, render: Num -> string)
    ensures |HeaderFields(computeTour, outputTour)| == 3 + Flag(computeTour) + Flag(outputTour)
    ensures |RecordFields(sol, graphSize, beta, computeTour, outputTour, render)|
            == |HeaderFields(computeTour, outputTour)|
    ensures forall k :: 0 <= k < |HeaderFields(computeTour, outputTour)| ==>
              RecordFields(sol, graphSize, beta, computeTour, outputTour, render)[k]
              == FieldValue(HeaderFields(computeTour, outputTour)[k], sol, graphSize, beta, render)
  {
  }

  /** The header line reads back as its column names. */
  lemma ParseHeaderLine(computeTour: bool, outputTour: bool)
    ensures ParseRecord(HeaderLine(computeTour, outputTour)) == HeaderFields(computeTour, outputTour)
  {
    var hs := HeaderFields(computeTour, outputTour);
    forall k | 0 <= k < |hs| ensures ',' !in hs[k] {
      assert hs[k] in {"beta", "graph_size", "kernel_size", "tour_cost", "tour"};
    }
    ParseJoin(hs);
  }

  /** Python's str never puts a comma into a number. */
  ghost predicate CommaFree(render: Num -> string)
  {
    forall v :: ',' !in render(v)
  }

  /** Reads a record line back: split at commas, drop the one space after each. */
  function ParseRecord(line: string): (fields: seq<string>)
    ensures |fields| == Count(line, ',') + 1
  {
    Unspaced(Split(line, ','))
  }

  /** The first piece as it is, every later piece without its leading space. */
  function Unspaced(pieces: seq<string>): (r: seq<string>)
    requires |pieces| >= 1
    ensures |r| == |pieces|
  {
    [pieces[0]] + seq(|pieces| - 1, k requires 0 <= k < |pieces| - 1 => DropSpace(pieces[k + 1]))
  }

  function DropSpace(p: string): string
  {
    if |p| > 0 && p[0] == ' ' then p[1..] else p
  }

  /** The first part as it is, every later part behind one space. */
  function Spaced(parts: seq<string>): (r: seq<string>)
    requires |parts| >= 1
    ensures |r| == |parts| && r[0] == parts[0]
    ensures forall k :: 1 <= k < |r| ==> r[k] == " " + parts[k]
  {
    [parts[0]] + seq(|parts| - 1, k requires 0 <= k < |parts| - 1 => " " + parts[k + 1])
  }

  /** Joining with ", " is joining the spaced parts with ",". */
  lemma {:induction false} JoinSpaced(parts: seq<string>)
    requires |parts| >= 1
    ensures Join(parts, ", ") == Join(Spaced(parts), ",")
  {
    if |parts| >= 2 {
      JoinSpaced(parts[1..]);
      var tail := Spaced(parts[1..]);
      JoinPrefix(" ", tail);
      assert [" " + tail[0]] + tail[1..] == Spaced(parts)[1..];
      assert " " + parts[1] == " " + tail[0];
    }
  }

  /** Reading back a line joined by ", " gives the parts, when no part holds a comma. */
  lemma ParseJoin(parts: seq<string>)
    requires |parts| >= 1
    requires forall k :: 0 <= k < |parts| ==> ',' !in parts[k]
    ensures ParseRecord(Join(parts, ", ")) == parts
  {
    var sp := Spaced(parts);
    JoinSpaced(parts);
    SpacedCommaFree(parts);
    SplitJoin(sp, ',');
    UnspacedSpaced(parts);
  }

  lemma SpacedCommaFree(parts: seq<string>)
    requires |parts| >= 1
    requires forall k :: 0 <= k < |parts| ==> ',' !in parts[k]
    ensures forall k :: 0 <= k < |Spaced(parts)| ==> ',' !in Spaced(parts)[k]
  {
    var sp := Spaced(parts);
    forall k | 0 <= k < |sp| ensures ',' !in sp[k] {
      if k >= 1 {
        assert sp[k] == " " + parts[k];
      }
    }
  }

  lemma UnspacedSpaced(parts: seq<string>)
    requires |parts| >= 1
    ensures Unspaced(Spaced(parts)) == parts
  {
    var r := Unspaced(Spaced(parts));
    forall k | 1 <= k < |parts| ensures r[k] == parts[k] {
      assert DropSpace(" " + parts[k]) == parts[k];
    }
  }

  /** A record reads back field by field; so it has 3 + [computeTour] +
      [outputTour] fields, in the header's order. */
  lemma ParseFormatOutput(sol: Solution, graphSize: nat, beta: Num, computeTour: bool,
                          outputTour: bool, render: Num -> string)
    requires CommaFree(render)
    ensures ParseRecord(FormatOutput(sol, graphSize, beta, computeTour, outputTour, render))
            == RecordFields(sol, graphSize, beta, computeTour, outputTour, render)
    ensures Count(FormatOutput(sol, graphSize, beta, computeTour, outputTour, render), ',')
            == 2 + Flag(computeTour) + Flag(outputTour)
  {
    var fs := RecordFields(sol, graphSize, beta, computeTour, outputTour, render);
    if outputTour {
      TourFieldCommaFree(sol.tour, render);
    }
    ParseJoin(fs);
  }

  /** The tour field holds a comma only where some rendered node id does. */
  lemma TourFieldCommaFree(tour: seq<NodeId>, render: Num -> string)
    requires CommaFree(render)
    ensures ',' !in TourField(tour, render)
  {
    var parts := RenderedTour(tour, render);
    JoinFree(parts, " ", ',');
  }

  lemma {:induction false} JoinFree(parts: seq<string>, sep: string, c: char)
    requires c !in sep
    requires forall k :: 0 <= k < |parts| ==> c !in parts[k]
    ensures c !in Join(parts, sep)
  {
    if |parts| >= 2 {
      JoinFree(parts[1..], sep, c);
    }
  }

  /** The tour field splits at spaces back into the rendered node ids, in tour
      order, when the tour is non-empty and no rendered id holds a space. */
  lemma TourFieldRoundTrip(tour: seq<NodeId>, render: Num -> string)
    requires |tour| >= 1
    requires forall v :: ' ' !in render(v)
    ensures Split(TourField(tour, render), ' ') == RenderedTour(tour, render)
  {
    SplitJoin(RenderedTour(tour, render), ' ');
  }
}
