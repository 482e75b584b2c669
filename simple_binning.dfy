/** The realtime binning estimator of the library revision: a `Source` whose
    histogram is pre-filled with every cell of `{0..Q-1}^Dimension` and then
    incremented one replicate at a time, and an `Estimator` that reads
    entropies off it. Marginals and distributions are those of `FromSimpleBin`
    applied to the source's current state; conditional entropy, mutual
    information and multiple mutual information are those of `EntropyMeasures`. */
module SimpleBinning {
  import opened Wrappers
  import opened Dicts
  import opened Histogram
  import opened FromSimpleBin
  import opened EntropyMeasures

  /** How many levels of `_recursive_Init_Statistics` run below depth `d`. */
  function Levels(dimension: int, d: int): (r: nat)
    ensures r >= 1
    ensures d < dimension ==> r == dimension - d + 1
  {
    if d < dimension then dimension - d + 1 else 1
  }

  /** The cells the initialisation creates: every tuple of `{0..Q-1}^max(Dimension, 1)`. */
  function InitialCells(q: int, dimension: int): seq<Tuple> {
    Grid(Repeat(q, Levels(dimension, 1)))
  }

  /** The names of a pairwise source: both nodes, then both nodes primed. */
  function PairwiseNames(x: string, y: string): seq<string> {
    [x, y, x + "'", y + "'"]
  }

  /** One coordinate of the current cell: a primed name is read from the update
      buffer under the name without its prime, any other name from the state. */
  function Coordinate(name: string, state: Dict<string, int>, buffer: Dict<string, int>): (r: Result<int>)
    ensures r.Err? <==>
      || |name| == 0
      || (name[|name| - 1] == '\'' && name[..|name| - 1] !in Keys(buffer))
      || (name[|name| - 1] != '\'' && name !in Keys(state))
    ensures r.Err? ==> r.error == if |name| == 0 then IndexOutOfRange else MissingKey
    ensures r.Ok? ==> Some(r.value) == if name[|name| - 1] == '\'' then Get(buffer, name[..|name| - 1]) else Get(state, name)
  {
    if |name| == 0 then Err(IndexOutOfRange)
    else if name[|name| - 1] == '\'' then
      match Get(buffer, name[..|name| - 1])
      case Some(v) => Ok(v)
      case None => Err(MissingKey)
    else
      match Get(state, name)
      case Some(v) => Ok(v)
      case None => Err(MissingKey)
  }

  /** The cell of the current replicate, one coordinate per name. */
  function CellOf(names: seq<string>, state: Dict<string, int>, buffer: Dict<string, int>): (r: Result<Tuple>)
    ensures r.Ok? <==> forall j :: 0 <= j < |names| ==> Coordinate(names[j], state, buffer).Ok?
    ensures r.Ok? ==>
      |r.value| == |names| && forall j :: 0 <= j < |names| ==> r.value[j] == Coordinate(names[j], state, buffer).value
  {
    if |names| == 0 then Ok([])
    else
      var front := names[..|names| - 1];
      assert forall j :: 0 <= j < |front| ==> front[j] == names[j];
      var cell :- CellOf(front, state, buffer);
      var v :- Coordinate(names[|names| - 1], state, buffer);
      Ok(cell + [v])
  }

  /** The histogram after one realtime update, or the exception it raises. */
  function Updated(stats: Table, names: Option<seq<string>>, state: Dict<string, int>, buffer: Dict<string, int>): Result<Table> {
    if names.None? then Err(MissingAttribute)
    else
      var cell :- CellOf(names.value, state, buffer);
      Increment(stats, cell)
  }

  lemma BlocksStep(q: int, levels: nat, index: Tuple, i: nat)
    requires levels >= 1
    ensures PrefixAll(index, Blocks(Repeat(q, levels), i + 1)) ==
      PrefixAll(index, Blocks(Repeat(q, levels), i)) + PrefixAll(index + [i], Grid(Repeat(q, levels - 1)))
  {
    var sizes := Repeat(q, levels);
    assert sizes[1..] == Repeat(q, levels - 1);
    PrefixAllAppend(index, Blocks(sizes, i), PrefixAll([i], Grid(sizes[1..])));
    PrefixAllTwice(index, [i], Grid(sizes[1..]));
  }

  /** At the last level the grid below `index + [i]` is the single cell `index + [i]`. */
  lemma LeafCell(d: Table, index: Tuple, i: int, q: int, levels: nat)
    requires levels == 1
    ensures Put(d, index + [i], 0) == PutAll(d, PrefixAll(index + [i], Grid(Repeat(q, levels - 1))), 0)
  {
    assert Repeat(q, 0) == [];
    assert Grid([]) == [[]];
    assert (index + [i]) + [] == index + [i];
    assert PrefixAll(index + [i], [[]]) == [index + [i]];
    assert [index + [i]][1..] == [];
  }

  /** One more iteration of the initialisation loop: the cells below `index + [i]`
      follow those of the first `i` blocks. */
  lemma InitStep(start: Table, index: Tuple, q: int, levels: nat, i: nat, before: Table, after: Table)
    requires levels >= 1
    requires before == PutAll(start, PrefixAll(index, Blocks(Repeat(q, levels), i)), 0)
    requires after == PutAll(before, PrefixAll(index + [i], Grid(Repeat(q, levels - 1))), 0)
    ensures after == PutAll(start, PrefixAll(index, Blocks(Repeat(q, levels), i + 1)), 0)
  {
    BlocksStep(q, levels, index, i);
    PutAllAppend(start, PrefixAll(index, Blocks(Repeat(q, levels), i)), PrefixAll(index + [i], Grid(Repeat(q, levels - 1))), 0);
  }

  lemma {:induction false} PutAllZeroTotal(d: Table, ks: seq<Tuple>)
    requires Total(d) == 0
    ensures Total(PutAll(d, ks, 0)) == 0
    decreases |ks|
  {
    if |ks| > 0 {
      PutTotal(d, ks[0], 0);
      PutAllZeroTotal(Put(d, ks[0], 0), ks[1..]);
    }
  }

  /** The histogram a first initialisation builds from the empty one. */
  function InitialTable(q: int, dimension: int): Table {
    PutAll([], InitialCells(q, dimension), 0)
  }

  /** The histogram the first initialisation leaves: exactly the tuples of
      `{0..Q-1}^max(Dimension, 1)`, each once, each with count zero. */
  lemma InitialTableCells(q: int, dimension: int, t: Tuple)
    ensures t in Keys(InitialTable(q, dimension)) <==> InGrid(t, Repeat(q, Levels(dimension, 1)))
    ensures t in Keys(InitialTable(q, dimension)) ==> Get(InitialTable(q, dimension), t) == Some(0)
    ensures Distinct(Keys(InitialTable(q, dimension)))
    ensures Total(InitialTable(q, dimension)) == 0
  {
    var cells := InitialCells(q, dimension);
    var empty: Table := [];
    assert Keys(empty) == [];
    PutAllSpec(empty, cells, 0);
    GridMembers(Repeat(q, Levels(dimension, 1)), t);
    PutAllZeroTotal(empty, cells);
  }

  /** `Source` of the binning estimator. */
  class Source {
    var analysis: string
    var kind: string
    const q: int
    const dimension: int
    var statistics: Table
    var variableNames: Option<seq<string>>

    /** `Source(Q, Dimension)`: realtime, pairwise, an empty histogram and no names yet. */
    constructor(q: int, dimension: int)
      ensures analysis == "Realtime" && kind == "Pairwise"
      ensures this.q == q && this.dimension == dimension
      ensures statistics == [] && variableNames == None
      ensures Valid()
    {
      analysis := "Realtime";
      kind := "Pairwise";
      this.q := q;
      this.dimension := dimension;
      statistics := [];
      variableNames := None;
    }

    /** The histogram is a dictionary. */
    predicate Valid()
      reads this
    {
      Distinct(Keys(statistics))
    }

    /** The state the marginal and distribution functions read. */
    function Snapshot(): BinSource
      reads this
    {
      BinSource(statistics, variableNames)
    }

    /** `Init_Source_Realtime(Simulation_Nodes)`: outside realtime mode nothing happens.
        A pairwise source names its variables `[X, Y, X', Y']`; then a name list whose
        length is not `Dimension` is the ValueError, and otherwise every cell of the
        grid is set to zero. */
    method InitSourceRealtime(nodes: seq<string>) returns (r: Outcome)
      modifies this
      ensures analysis == old(analysis) && kind == old(kind)
      ensures old(analysis) != "Realtime" ==>
        r == Pass && statistics == old(statistics) && variableNames == old(variableNames)
      ensures old(analysis) == "Realtime" && kind == "Pairwise" && |nodes| < 2 ==>
        r == Fail(IndexOutOfRange) && statistics == old(statistics) && variableNames == old(variableNames)
      ensures old(analysis) == "Realtime" && kind == "Pairwise" && |nodes| >= 2 ==>
        variableNames == Some(PairwiseNames(nodes[0], nodes[1]))
      ensures old(analysis) == "Realtime" && kind != "Pairwise" ==> variableNames == old(variableNames)
      ensures old(analysis) == "Realtime" && (kind != "Pairwise" || |nodes| >= 2) && variableNames.None? ==> r == Fail(MissingAttribute) && statistics == old(statistics)
      ensures old(analysis) == "Realtime" && r == Pass ==>
        variableNames.Some? && |variableNames.value| == dimension &&
        statistics == PutAll(old(statistics), InitialCells(q, dimension), 0)
      ensures old(analysis) == "Realtime" && (kind != "Pairwise" || |nodes| >= 2)
        && variableNames.Some? && |variableNames.value| != dimension
        ==> r == Fail(DimensionMismatch) && statistics == old(statistics)
      ensures r.Fail? ==> statistics == old(statistics)
      ensures old(Valid()) ==> Valid()
    {
      if analysis != "Realtime" {
        return Pass;
      }
      if kind == "Pairwise" {
        if |nodes| < 2 {
          return Fail(IndexOutOfRange);
        }
        variableNames := Some(PairwiseNames(nodes[0], nodes[1]));
      }
      if variableNames.None? {
        return Fail(MissingAttribute);
      }
      if |variableNames.value| != dimension {
        return Fail(DimensionMismatch);
      }
      RecursiveInitStatistics(1, []);
      PutAllSpec(old(statistics), InitialCells(q, dimension), 0);
      PrefixAllNil(InitialCells(q, dimension));
      return Pass;
    }

    /** `_recursive_Init_Statistics(D, Index_List)`: for every `i < Q`, descend one
        level while `D < Dimension`, else set the cell `Index_List + [i]` to zero.
        The cells set are those of the grid below `Index_List`, in order. */
    method RecursiveInitStatistics(d: int, index: Tuple)
      modifies this
      ensures statistics == PutAll(old(statistics), PrefixAll(index, Grid(Repeat(q, Levels(dimension, d)))), 0)
      ensures analysis == old(analysis) && kind == old(kind) && variableNames == old(variableNames)
      decreases if d < dimension then dimension - d else 0, 1
    {
      var levels := Levels(dimension, d);
      var sizes := Repeat(q, levels);
      ghost var start := statistics;
      var count := if q > 0 then q else 0;
      var i := 0;
      while i < count
        invariant 0 <= i <= count
        invariant statistics == PutAll(start, PrefixAll(index, Blocks(sizes, i)), 0)
        invariant analysis == old(analysis) && kind == old(kind) && variableNames == old(variableNames)
      {
        ghost var before := statistics;
        InitCellsBelow(d, index, i);
        InitStep(start, index, q, levels, i, before, statistics);
        i := i + 1;
      }
      assert sizes[0] == q;
    }

    /** The body of the loop of `_recursive_Init_Statistics` for one `i`: the cells
        below `Index_List + [i]`. */
    method InitCellsBelow(d: int, index: Tuple, i: int)
      modifies this
      ensures statistics == PutAll(old(statistics), PrefixAll(index + [i], Grid(Repeat(q, Levels(dimension, d) - 1))), 0)
      ensures analysis == old(analysis) && kind == old(kind) && variableNames == old(variableNames)
      decreases if d < dimension then dimension - d else 0, 0
    {
      if d < dimension {
        assert Levels(dimension, d + 1) == Levels(dimension, d) - 1;
        RecursiveInitStatistics(d + 1, index + [i]);
      } else {
        LeafCell(statistics, index, i, q, Levels(dimension, d));
        statistics := Put(statistics, index + [i], 0);
      }
    }

    /** `Update_Source_Realtime(State_Space, Update_Buffer)`: outside realtime mode nothing
        happens; otherwise the cell of the current replicate gains one, and a missing
        name, state or cell is the exception with the histogram as it was. */
    method UpdateSourceRealtime(state: Dict<string, int>, buffer: Dict<string, int>) returns (r: Outcome)
      modifies this
      ensures analysis == old(analysis) && kind == old(kind) && variableNames == old(variableNames)
      ensures old(analysis) != "Realtime" ==> r == Pass && statistics == old(statistics)
      ensures old(analysis) == "Realtime" ==>
        match Updated(old(statistics), variableNames, state, buffer)
        case Ok(t) => r == Pass && statistics == t
        case Err(e) => r == Fail(e) && statistics == old(statistics)
      ensures r.Fail? ==> statistics == old(statistics)
      ensures old(Valid()) ==> Valid()
    {
      if analysis != "Realtime" {
        return Pass;
      }
      if variableNames.None? {
        return Fail(MissingAttribute);
      }
      var cell := ReadCell(variableNames.value, state, buffer);
      if cell.Err? {
        return Fail(cell.error);
      }
      var next := Increment(statistics, cell.value);
      if next.Err? {
        return Fail(next.error);
      }
      statistics := next.value;
      return Pass;
    }

    /** `Meshed_for_` on the current histogram. */
    method MeshedFor(vars: seq<string>) returns (r: Result<Table>)
      ensures r == Meshed(Snapshot(), vars)
    {
      r := FromSimpleBin.MeshedFor(Snapshot(), vars);
    }

    /** `Generate_Desired_PDF` on the current histogram. */
    method GenerateDesiredPdf(vars: seq<string>) returns (r: Result<Distribution>)
      requires Valid()
      ensures r == DesiredPdf(Snapshot(), vars)
    {
      r := FromSimpleBin.GenerateDesiredPdf(Snapshot(), vars);
    }
  }

  /** The loop of `Update_Source_Realtime` that reads one coordinate per name, stopping
      at the first name that is empty or missing from the state or the buffer. */
  method ReadCell(names: seq<string>, state: Dict<string, int>, buffer: Dict<string, int>) returns (r: Result<Tuple>)
    ensures r == CellOf(names, state, buffer)
  {
    var cell: Tuple := [];
    var j := 0;
    while j < |names|
      invariant 0 <= j <= |names|
      invariant CellOf(names[..j], state, buffer) == Ok(cell)
    {
      var v := ReadCoordinate(names[j], state, buffer);
      if v.Err? {
        CellOfFirstError(names, state, buffer, j);
        return Err(v.error);
      }
      CellOfStep(names, state, buffer, j, cell);
      cell := cell + [v.value];
      j := j + 1;
    }
    assert names[..j] == names;
    return Ok(cell);
  }

  /** `Update_Buffer[name[:-1]]` for a primed name, `State_Space[name]` otherwise. */
  method ReadCoordinate(name: string, state: Dict<string, int>, buffer: Dict<string, int>) returns (r: Result<int>)
    ensures r == Coordinate(name, state, buffer)
  {
    if |name| == 0 {
      return Err(IndexOutOfRange);
    }
    var entry: Option<int>;
    if name[|name| - 1] == '\'' {
      entry := Get(buffer, name[..|name| - 1]);
    } else {
      entry := Get(state, name);
    }
    if entry.None? {
      return Err(MissingKey);
    }
    return Ok(entry.value);
  }

  /** One more readable name extends the cell read so far. */
  lemma CellOfStep(names: seq<string>, state: Dict<string, int>, buffer: Dict<string, int>, j: nat, cell: Tuple)
    requires j < |names| && CellOf(names[..j], state, buffer) == Ok(cell)
    requires Coordinate(names[j], state, buffer).Ok?
    ensures CellOf(names[..j + 1], state, buffer) == Ok(cell + [Coordinate(names[j], state, buffer).value])
  {
    assert names[..j + 1][..j] == names[..j];
  }

  /** The update fails on the first name that cannot be read. */
  lemma {:induction false} CellOfFirstError(names: seq<string>, state: Dict<string, int>, buffer: Dict<string, int>, j: nat)
    requires j < |names| && Coordinate(names[j], state, buffer).Err?
    requires CellOf(names[..j], state, buffer).Ok?
    ensures CellOf(names, state, buffer) == Err(Coordinate(names[j], state, buffer).error)
    decreases |names|
  {
    var front := names[..|names| - 1];
    if j == |names| - 1 {
      assert names[..j] == front;
    } else {
      assert front[..j] == names[..j] && front[j] == names[j];
      CellOfFirstError(front, state, buffer, j);
    }
  }

  /** When the replicate falls in a cell of the histogram, one update adds one to
      exactly that cell; otherwise it fails. */
  lemma UpdateOneCell(stats: Table, names: seq<string>, state: Dict<string, int>, buffer: Dict<string, int>, cell: Tuple, other: Tuple)
    requires CellOf(names, state, buffer) == Ok(cell)
    ensures Updated(stats, Some(names), state, buffer).Ok? <==> cell in Keys(stats)
    ensures cell in Keys(stats) ==>
      var t := Updated(stats, Some(names), state, buffer).value;
      && Keys(t) == Keys(stats)
      && Get(t, cell) == Some(Get(stats, cell).value + 1)
      && (other != cell ==> Get(t, other) == Get(stats, other))
      && Total(t) == Total(stats) + 1
  {
    assert Updated(stats, Some(names), state, buffer) == Increment(stats, cell);
  }

  /** `Estimator(Q, Dimension)` of the binning method. */
  class Estimator {
    var name: string
    const source: Source

    constructor(q: int, dimension: int)
      ensures name == "Simple_Binning_Method" && fresh(source)
      ensures source.analysis == "Realtime" && source.kind == "Pairwise"
      ensures source.q == q && source.dimension == dimension
      ensures source.statistics == [] && source.variableNames == None
    {
      name := "Simple_Binning_Method";
      source := new Source(q, dimension);
    }

    /** `Entropy(For)`: the distribution of `For`, then `-Σ p ln p` over its nonzero cells. */
    method Entropy(vars: seq<string>, ln: real -> real) returns (r: Result<real>)
      requires source.Valid()
      ensures r == H(source.Snapshot(), vars, ln)
    {
      var pdf := source.GenerateDesiredPdf(vars);
      if pdf.Err? {
        return Err(pdf.error);
      }
      var value := SumEntropy(pdf.value, ln);
      return Ok(value);
    }
  }
}
