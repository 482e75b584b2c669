/** The ensemble bookkeeping of the k-nearest-neighbour estimator: a `Source` that
    keeps one row of node values per replicate, either collected while the model
    runs or read back from a snapshot file, and the parts of the `Estimator` that
    are not floating-point work (the rank check `_as_2D`, the conditional-entropy
    composition and the clamp of the neighbour counts). The digamma and
    nearest-neighbour arithmetic is not modelled; where a measure needs it, the
    measure is a parameter. */
module Ksg {
  import opened Wrappers
  import opened Dicts
  import opened Text
  import opened Records
  import opened SimpleBinning
  import opened Driver
  import Histogram

  // ---------------------------------------------------------------- the names

  /** `[X, X', Y, Y', …]`: every node followed by its primed copy, in order. */
  function Interleaved(nodes: seq<string>): (r: seq<string>)
    ensures |r| == 2 * |nodes|
    decreases |nodes|
  {
    if |nodes| == 0 then []
    else Interleaved(nodes[..|nodes| - 1]) + [nodes[|nodes| - 1], nodes[|nodes| - 1] + "'"]
  }

  /** Position `2i` names node `i` and position `2i + 1` its primed copy. */
  lemma {:induction false} InterleavedAt(nodes: seq<string>, i: nat)
    requires i < |nodes|
    ensures Interleaved(nodes)[2 * i] == nodes[i] && Interleaved(nodes)[2 * i + 1] == nodes[i] + "'"
    decreases |nodes|
  {
    if i < |nodes| - 1 {
      InterleavedAt(nodes[..|nodes| - 1], i);
    }
  }

  /** The loop that builds the names, one node at a time. */
  method InterleaveNames(nodes: seq<string>) returns (names: seq<string>)
    ensures names == Interleaved(nodes)
  {
    names := [];
    var i := 0;
    while i < |nodes|
      invariant i <= |nodes| && names == Interleaved(nodes[..i])
    {
      assert nodes[..i + 1][..i] == nodes[..i];
      names := names + [nodes[i], nodes[i] + "'"];
      i := i + 1;
    }
    assert nodes[..i] == nodes;
  }

  // ---------------------------------------------------------------- one realtime row

  /** `f` applied to every element in turn, stopping at the first exception. */
  function Each<A, B>(xs: seq<A>, f: A -> Result<B>): (r: Result<seq<B>>)
    ensures r.Ok? ==> |r.value| == |xs|
    decreases |xs|
  {
    if |xs| == 0 then Ok([])
    else
      var front :- Each(xs[..|xs| - 1], f);
      var v :- f(xs[|xs| - 1]);
      Ok(front + [v])
  }

  /** A result for every element means a value for every element, at its position;
      and an exception is the exception of some element. */
  lemma {:induction false} EachValues<A, B>(xs: seq<A>, f: A -> Result<B>)
    ensures Each(xs, f).Ok? ==> forall j :: 0 <= j < |xs| ==> f(xs[j]) == Ok(Each(xs, f).value[j])
    ensures Each(xs, f).Err? ==> exists j :: 0 <= j < |xs| && f(xs[j]) == Err(Each(xs, f).error)
    decreases |xs|
  {
    if |xs| > 0 {
      var front := xs[..|xs| - 1];
      EachValues(front, f);
      if Each(xs, f).Ok? {
        forall j | 0 <= j < |xs| ensures f(xs[j]) == Ok(Each(xs, f).value[j]) {
          if j < |front| {
            assert xs[j] == front[j];
          }
        }
      } else if Each(front, f).Err? {
        var j :| 0 <= j < |front| && f(front[j]) == Err(Each(front, f).error);
        assert xs[j] == front[j];
      }
    }
  }

  /** An exception in a prefix is the exception of the whole sequence. */
  lemma {:induction false} EachPrefixFails<A, B>(xs: seq<A>, f: A -> Result<B>, n: nat)
    requires n <= |xs| && Each(xs[..n], f).Err?
    ensures Each(xs, f) == Each(xs[..n], f)
    decreases |xs| - n
  {
    if n < |xs| {
      assert xs[..n + 1][..n] == xs[..n];
      EachPrefixFails(xs, f, n + 1);
    } else {
      assert xs[..n] == xs;
    }
  }

  /** The loop over a sequence that stops at the first exception. */
  lemma EachStops<A, B>(xs: seq<A>, f: A -> Result<B>, i: nat)
    requires i < |xs| && f(xs[i]).Err? && Each(xs[..i], f).Ok?
    ensures Each(xs, f) == Err(f(xs[i]).error)
  {
    assert xs[..i + 1][..i] == xs[..i];
    EachPrefixFails(xs, f, i + 1);
  }

  /** The row of the current replicate: the value of every name in turn, a primed
      name read from the update buffer; the first name that cannot be read raises. */
  function Row(names: seq<string>, state: States, buffer: States): (r: Result<seq<int>>)
    ensures r.Ok? ==> |r.value| == |names|
  {
    Each(names, name => Coordinate(name, state, buffer))
  }

  /** The integers of a row as numbers. */
  function Reals(row: seq<int>): (r: seq<real>)
    ensures |r| == |row| && forall j :: 0 <= j < |row| ==> r[j] == row[j] as real
  {
    seq(|row|, j requires 0 <= j < |row| => row[j] as real)
  }

  // ---------------------------------------------------------------- reading a snapshot file

  /** `readline()`: the text up to and including the next line break, or all of it
      when there is none; at the end of the file the empty string. */
  function NextLine(s: string): (r: (string, string))
    ensures r.0 + r.1 == s
    decreases |s|
  {
    if |s| == 0 then ("", "")
    else if s[0] == '\n' then ("\n", s[1..])
    else
      var rest := NextLine(s[1..]);
      ([s[0]] + rest.0, rest.1)
  }

  /** A line that ends in its only line break is what `readline()` returns. */
  lemma {:induction false} NextLineOf(line: string, rest: string)
    requires '\n' !in line
    ensures NextLine(line + "\n" + rest) == (line + "\n", rest)
    decreases |line|
  {
    var s := line + "\n" + rest;
    if |line| > 0 {
      assert s[0] == line[0] != '\n';
      assert s[1..] == line[1..] + "\n" + rest;
      NextLineOf(line[1..], rest);
      assert [line[0]] + (line[1..] + "\n") == line + "\n";
    } else {
      assert s[0] == '\n' && s[1..] == rest;
    }
  }

  /** `float(d)` for every piece in turn; the first piece that is not a number raises. */
  function Parsed(pieces: seq<string>, toFloat: string -> Result<real>): (r: Result<seq<real>>)
    ensures r.Ok? ==> |r.value| == |pieces|
  {
    Each(pieces, toFloat)
  }

  /** One line of the file as a row: split on `|`, each piece read as a number. */
  function ParsedRow(line: string, toFloat: string -> Result<real>): Result<seq<real>> {
    Parsed(Split(line, '|'), toFloat)
  }

  /** The loop over the pieces of one line. */
  method ParseRow(line: string, toFloat: string -> Result<real>) returns (r: Result<seq<real>>)
    ensures r == ParsedRow(line, toFloat)
  {
    var pieces := Split(line, '|');
    var row := [];
    var i := 0;
    while i < |pieces|
      invariant i <= |pieces| && Parsed(pieces[..i], toFloat) == Ok(row)
    {
      assert pieces[..i + 1][..i] == pieces[..i];
      var v := toFloat(pieces[i]);
      if v.Err? {
        EachStops(pieces, toFloat, i);
        return Err(v.error);
      }
      row := row + [v.value];
      i := i + 1;
    }
    assert pieces[..i] == pieces;
    return Ok(row);
  }

  /** What reading `n` lines leaves: the rows read, and the exception that ended the
      reading, if any. */
  datatype Load = Load(rows: seq<seq<real>>, outcome: Outcome)

  /** `n` calls of `readline()` from the start of `text`, each line parsed into a row;
      the first line that does not parse ends the reading. */
  function Loading(text: string, n: nat, toFloat: string -> Result<real>): (r: Load)
    ensures |r.rows| <= n
    decreases n
  {
    if n == 0 then Load([], Pass)
    else
      var (line, rest) := NextLine(text);
      match ParsedRow(line, toFloat)
      case Err(e) => Load([], Fail(e))
      case Ok(row) =>
        var more := Loading(rest, n - 1, toFloat);
        Load([row] + more.rows, more.outcome)
  }

  /** One more call of `readline()`, the line parsed. */
  lemma LoadingUnfold(text: string, n: nat, toFloat: string -> Result<real>)
    requires n > 0
    ensures Loading(text, n, toFloat) == match ParsedRow(NextLine(text).0, toFloat)
      case Err(e) => Load([], Fail(e))
      case Ok(row) => After([row], Loading(NextLine(text).1, n - 1, toFloat))
  {
  }

  /** Rows already read in front of a reading. */
  function After(rows: seq<seq<real>>, l: Load): Load {
    Load(rows + l.rows, l.outcome)
  }

  /** `numpy.asarray(Ensemble)` and the test of `shape[1]`: rows of different
      lengths do not form an array, no rows form one of shape `(0,)` whose second
      dimension does not exist, and otherwise the row length must be `width`. */
  function ShapeCheck(rows: seq<seq<real>>, width: nat): Outcome {
    if exists j :: 0 <= j < |rows| && |rows[j]| != |rows[0]| then Fail(InhomogeneousShape)
    else if |rows| == 0 then Fail(IndexOutOfRange)
    else if |rows[0]| != width then Fail(ShapeMismatch)
    else Pass
  }

  lemma AfterAfter(rows: seq<seq<real>>, more: seq<seq<real>>, l: Load)
    ensures After(rows, After(more, l)) == After(rows + more, l)
  {
    assert rows + (more + l.rows) == rows + more + l.rows;
  }

  /** The reading loop: `n` lines, each parsed and appended, until one does not parse. */
  method ReadLines(text: string, n: nat, toFloat: string -> Result<real>) returns (l: Load)
    ensures l == Loading(text, n, toFloat)
  {
    var rows := [];
    var rest := text;
    var f := 0;
    while f < n
      invariant f <= n
      invariant Loading(text, n, toFloat) == After(rows, Loading(rest, n - f, toFloat))
    {
      var next := NextLine(rest);
      LoadingUnfold(rest, n - f, toFloat);
      var row := ParseRow(next.0, toFloat);
      if row.Err? {
        return Load(rows, Fail(row.error));
      }
      AfterAfter(rows, [row.value], Loading(next.1, n - (f + 1), toFloat));
      rows := rows + [row.value];
      rest := next.1;
      f := f + 1;
    }
    return Load(rows, Pass);
  }

  // ---------------------------------------------------------------- the source

  /** `Source(Ensemble_Size)` of the k-nearest-neighbour estimator. */
  class Source {
    var analysis: string
    const ensembleSize: int
    var variableNames: seq<string>
    /** One row per replicate, one column per name. */
    var ensemble: seq<seq<real>>

    /** Post-analysis by default, with no names and no rows. */
    constructor(ensembleSize: int)
      ensures analysis == "Post_Analysis" && this.ensembleSize == ensembleSize
      ensures variableNames == [] && ensemble == []
    {
      analysis := "Post_Analysis";
      this.ensembleSize := ensembleSize;
      variableNames := [];
      ensemble := [];
    }

    /** `Init_Source_Realtime(Simulation_Nodes)`: outside realtime mode nothing happens;
        otherwise every node and its primed copy become the names, and the rows are
        emptied. */
    method InitSourceRealtime(nodes: seq<string>)
      modifies this
      ensures analysis == old(analysis)
      ensures old(analysis) != "Realtime" ==> variableNames == old(variableNames) && ensemble == old(ensemble)
      ensures old(analysis) == "Realtime" ==> variableNames == Interleaved(nodes) && ensemble == []
    {
      if analysis != "Realtime" {
        return;
      }
      variableNames := InterleaveNames(nodes);
      ensemble := [];
    }

    /** `Update_Source_Realtime(State_Space, Update_Buffer)`: outside realtime mode
        nothing happens; otherwise exactly one row is appended, holding the value of
        every name in order, a primed name read from the buffer. A name that cannot
        be read raises before anything is appended. */
    method UpdateSourceRealtime(state: States, buffer: States) returns (r: Outcome)
      modifies this
      ensures analysis == old(analysis) && variableNames == old(variableNames)
      ensures old(analysis) != "Realtime" ==> r == Pass && ensemble == old(ensemble)
      ensures old(analysis) == "Realtime" ==>
        match Row(variableNames, state, buffer)
        case Ok(row) => r == Pass && ensemble == old(ensemble) + [Reals(row)]
        case Err(e) => r == Fail(e) && ensemble == old(ensemble)
    {
      if analysis != "Realtime" {
        return Pass;
      }
      var row := [];
      var i := 0;
      while i < |variableNames|
        invariant i <= |variableNames| && Row(variableNames[..i], state, buffer) == Ok(row)
      {
        assert variableNames[..i + 1][..i] == variableNames[..i];
        var v := Coordinate(variableNames[i], state, buffer);
        if v.Err? {
          EachStops(variableNames, name => Coordinate(name, state, buffer), i);
          return Fail(v.error);
        }
        row := row + [v.value];
        i := i + 1;
      }
      assert variableNames[..i] == variableNames;
      ensemble := ensemble + [Reals(row)];
      return Pass;
    }

    /** `Init_Source_Post_Analysis(Nodes, Ensemble_Data_File)`: the interleaved names of
        the nodes, then `Ensemble_Size` lines of the file read as rows, then the shape
        check against the number of names. A missing file raises before any row is
        read, and a line that does not parse ends the reading with the rows before it. */
    method InitSourcePostAnalysis(nodes: seq<string>, path: string, files: Files, toFloat: string -> Result<real>)
        returns (r: Outcome)
      modifies this
      ensures analysis == old(analysis) && variableNames == Interleaved(nodes)
      ensures path !in files ==> r == Fail(FileNotFound) && ensemble == []
      ensures path in files ==>
        var l := Loading(files[path], if ensembleSize > 0 then ensembleSize else 0, toFloat);
        && ensemble == l.rows
        && r == if l.outcome.Fail? then l.outcome else ShapeCheck(l.rows, |variableNames|)
    {
      variableNames := InterleaveNames(nodes);
      ensemble := [];
      if path !in files {
        return Fail(FileNotFound);
      }
      var l := ReadLines(files[path], if ensembleSize > 0 then ensembleSize else 0, toFloat);
      ensemble := l.rows;
      if l.outcome.Fail? {
        return l.outcome;
      }
      r := ShapeCheck(ensemble, |variableNames|);
    }
  }

  // ---------------------------------------------------------------- snapshots read back

  /** The previous and the current value of every node, in the order the snapshot
      line writes them. */
  function PairColumns(prev: seq<int>, cur: seq<int>): (r: seq<int>)
    requires |prev| == |cur|
    ensures |r| == 2 * |prev|
  {
    if |prev| == 0 then [] else [prev[0], cur[0]] + PairColumns(prev[1..], cur[1..])
  }

  /** The fields of a snapshot line, in the same order. */
  function PairFields(prev: seq<int>, cur: seq<int>): (r: seq<string>)
    requires |prev| == |cur|
    ensures |r| == 2 * |prev|
  {
    if |prev| == 0 then [] else [StateField(prev[0]), StateField(cur[0])] + PairFields(prev[1..], cur[1..])
  }

  lemma {:induction false} PairFieldsAt(prev: seq<int>, cur: seq<int>, j: nat)
    requires |prev| == |cur| && j < 2 * |prev|
    ensures PairFields(prev, cur)[j] == StateField(PairColumns(prev, cur)[j])
    decreases |prev|
  {
    var fs, cs := PairFields(prev, cur), PairColumns(prev, cur);
    if j == 0 {
      assert fs[0] == StateField(prev[0]) && cs[0] == prev[0];
    } else if j == 1 {
      assert fs[1] == StateField(cur[0]) && cs[1] == cur[0];
    } else {
      assert fs[j] == PairFields(prev[1..], cur[1..])[j - 2];
      assert cs[j] == PairColumns(prev[1..], cur[1..])[j - 2];
      PairFieldsAt(prev[1..], cur[1..], j - 2);
    }
  }

  /** The snapshot pairs are the fields, each followed by `|`. */
  lemma {:induction false} StatePairsTerminated(prev: seq<int>, cur: seq<int>)
    requires |prev| == |cur|
    ensures StatePairs(prev, cur) == Terminated(PairFields(prev, cur), '|')
    decreases |prev|
  {
    if |prev| > 0 {
      var fs := PairFields(prev, cur);
      StatePairsTerminated(prev[1..], cur[1..]);
      assert fs[1..][1..] == PairFields(prev[1..], cur[1..]);
    }
  }

  /** A state field holds neither a `|` nor a line break. */
  lemma StateFieldShape(n: int)
    ensures '|' !in StateField(n) && '\n' !in StateField(n)
  {
    RenderShape(Exact4(n), 4);
  }

  /** A snapshot line splits into its fields, the last one carrying the line break. */
  lemma SnapshotLineSplits(prev: seq<int>, cur: seq<int>)
    requires |prev| == |cur| && |prev| > 0
    ensures var fs := PairFields(prev, cur);
      Split(StatesLine(prev, cur), '|') == fs[..|fs| - 1] + [fs[|fs| - 1] + "\n"]
  {
    var fs := PairFields(prev, cur);
    var m := |fs|;
    StatePairsTerminated(prev, cur);
    assert fs == fs[..m - 1] + [fs[m - 1]];
    TerminatedSnoc(fs[..m - 1], fs[m - 1], '|');
    var data := StatePairs(prev, cur);
    var head := Terminated(fs[..m - 1], '|');
    assert data == head + fs[m - 1] + "|";
    assert data[..|data| - 1] == head + fs[m - 1];
    forall j | 0 <= j < m ensures '|' !in fs[j] {
      PairFieldsAt(prev, cur, j);
      StateFieldShape(PairColumns(prev, cur)[j]);
    }
    assert StatesLine(prev, cur) == head + (fs[m - 1] + "\n");
    SplitTerminated(fs[..m - 1], fs[m - 1] + "\n", '|');
    assert '|' !in fs[m - 1] + "\n";
    SplitNoSeparator(fs[m - 1] + "\n", '|');
  }

  /** `float` reads a state field back as the state, with or without the line break
      after it. */
  ghost predicate ReadsStates(toFloat: string -> Result<real>) {
    forall n: int {:trigger StateField(n)} ::
      toFloat(StateField(n)) == Ok(n as real) && toFloat(StateField(n) + "\n") == Ok(n as real)
  }

  /** Pieces that each read back as a column value give the row of those values. */
  lemma {:induction false} ParsedColumns(pieces: seq<string>, cols: seq<int>, toFloat: string -> Result<real>)
    requires |pieces| == |cols| && forall j :: 0 <= j < |cols| ==> toFloat(pieces[j]) == Ok(cols[j] as real)
    ensures Parsed(pieces, toFloat) == Ok(Reals(cols))
    decreases |pieces|
  {
    if |pieces| > 0 {
      var n := |pieces| - 1;
      ParsedColumns(pieces[..n], cols[..n], toFloat);
      assert Reals(cols[..n]) + [cols[n] as real] == Reals(cols);
      assert Parsed(pieces, toFloat) == Each(pieces, toFloat);
    }
  }

  /** Each piece of a snapshot line, the last with its line break, reads back as
      its column value. */
  lemma SnapshotPiecesRead(prev: seq<int>, cur: seq<int>, toFloat: string -> Result<real>)
    requires |prev| == |cur| && |prev| > 0 && ReadsStates(toFloat)
    ensures var fs := PairFields(prev, cur);
      var pieces := fs[..|fs| - 1] + [fs[|fs| - 1] + "\n"];
      |pieces| == |PairColumns(prev, cur)| &&
      forall j :: 0 <= j < |pieces| ==> toFloat(pieces[j]) == Ok(PairColumns(prev, cur)[j] as real)
  {
    var fs := PairFields(prev, cur);
    var cols := PairColumns(prev, cur);
    var m := |fs|;
    var pieces := fs[..m - 1] + [fs[m - 1] + "\n"];
    forall j | 0 <= j < m ensures toFloat(pieces[j]) == Ok(cols[j] as real) {
      PairFieldsAt(prev, cur, j);
      assert fs[j] == StateField(cols[j]);
    }
  }

  /** A snapshot line written by `Save_States` reads back as the previous and the
      current state of every node, interleaved. */
  lemma SnapshotLineReads(prev: seq<int>, cur: seq<int>, toFloat: string -> Result<real>)
    requires |prev| == |cur| && |prev| > 0 && ReadsStates(toFloat)
    ensures ParsedRow(StatesLine(prev, cur), toFloat) == Ok(Reals(PairColumns(prev, cur)))
  {
    var fs := PairFields(prev, cur);
    SnapshotLineSplits(prev, cur);
    SnapshotPiecesRead(prev, cur, toFloat);
    ParsedColumns(fs[..|fs| - 1] + [fs[|fs| - 1] + "\n"], PairColumns(prev, cur), toFloat);
  }

  /** The lines of a snapshot file, one per replicate. */
  function SnapshotText(lines: seq<(seq<int>, seq<int>)>): string
    requires forall i :: 0 <= i < |lines| ==> |lines[i].0| == |lines[i].1|
    decreases |lines|
  {
    if |lines| == 0 then "" else StatesLine(lines[0].0, lines[0].1) + SnapshotText(lines[1..])
  }

  /** The rows a snapshot file holds. */
  function SnapshotRows(lines: seq<(seq<int>, seq<int>)>): (r: seq<seq<real>>)
    requires forall i :: 0 <= i < |lines| ==> |lines[i].0| == |lines[i].1|
    ensures |r| == |lines| && forall i :: 0 <= i < |lines| ==> r[i] == Reals(PairColumns(lines[i].0, lines[i].1))
  {
    if |lines| == 0 then [] else [Reals(PairColumns(lines[0].0, lines[0].1))] + SnapshotRows(lines[1..])
  }

  /** A snapshot line is one line: its only line break ends it. */
  lemma SnapshotLineBreak(prev: seq<int>, cur: seq<int>, rest: string)
    requires |prev| == |cur| && |prev| > 0
    ensures var line := StatesLine(prev, cur);
      NextLine(line + rest) == (line, rest)
  {
    var fs := PairFields(prev, cur);
    var m := |fs|;
    SnapshotLineSplits(prev, cur);
    var data := StatePairs(prev, cur);
    var body := data[..|data| - 1];
    StatePairsTerminated(prev, cur);
    forall j | 0 <= j < m ensures '\n' !in fs[j] {
      PairFieldsAt(prev, cur, j);
      StateFieldShape(PairColumns(prev, cur)[j]);
    }
    TerminatedNoBreak(fs, '|');
    assert '\n' !in body;
    NextLineOf(body, rest);
  }

  /** Pieces without line breaks, each followed by a separator that is not one, hold
      none either. */
  lemma {:induction false} TerminatedNoBreak(parts: seq<string>, sep: char)
    requires sep != '\n' && forall j :: 0 <= j < |parts| ==> '\n' !in parts[j]
    ensures '\n' !in Terminated(parts, sep)
    decreases |parts|
  {
    if |parts| > 0 {
      TerminatedNoBreak(parts[1..], sep);
    }
  }

  /** Reading as many lines as a snapshot file holds gives back every replicate's
      row, in order, without exception. */
  lemma {:induction false} SnapshotTextLoads(lines: seq<(seq<int>, seq<int>)>, toFloat: string -> Result<real>)
    requires forall i :: 0 <= i < |lines| ==> |lines[i].0| == |lines[i].1| && |lines[i].0| > 0
    requires ReadsStates(toFloat)
    ensures Loading(SnapshotText(lines), |lines|, toFloat) == Load(SnapshotRows(lines), Pass)
    decreases |lines|
  {
    if |lines| > 0 {
      var (prev, cur) := lines[0];
      SnapshotLineBreak(prev, cur, SnapshotText(lines[1..]));
      SnapshotLineReads(prev, cur, toFloat);
      SnapshotTextLoads(lines[1..], toFloat);
    }
  }

  /** Post-analysis reads back what the simulation saved: when the file holds one
      snapshot line per replicate of the same nodes, `Init_Source_Post_Analysis` on
      those nodes loads every row and its shape check passes. */
  lemma SnapshotsLoad(nodes: seq<string>, lines: seq<(seq<int>, seq<int>)>, toFloat: string -> Result<real>)
    requires |nodes| > 0 && |lines| > 0
    requires forall i :: 0 <= i < |lines| ==> |lines[i].0| == |nodes| && |lines[i].1| == |nodes|
    requires ReadsStates(toFloat)
    ensures var l := Loading(SnapshotText(lines), |lines|, toFloat);
      l == Load(SnapshotRows(lines), Pass) && ShapeCheck(l.rows, |Interleaved(nodes)|) == Pass
  {
    SnapshotTextLoads(lines, toFloat);
    var rows := SnapshotRows(lines);
    assert forall j :: 0 <= j < |rows| ==> |rows[j]| == 2 * |nodes|;
  }

  // ---------------------------------------------------------------- the estimator

  /** A numpy array: its shape and its values in row-major order. */
  datatype NdArray = NdArray(shape: seq<nat>, data: seq<real>)

  /** `_as_2D`: a one-dimensional array becomes a column, a two-dimensional one is
      returned as it is, and any other rank is the ValueError. */
  function As2D(a: NdArray): (r: Result<NdArray>)
    ensures r.Ok? <==> |a.shape| == 1 || |a.shape| == 2
    ensures r.Ok? ==> |r.value.shape| == 2 && r.value.data == a.data
    ensures r.Ok? && |a.shape| == 1 ==> r.value.shape == [a.shape[0], 1]
    ensures r.Ok? && |a.shape| == 2 ==> r.value == a
  {
    if |a.shape| == 1 then Ok(NdArray([a.shape[0], 1], a.data))
    else if |a.shape| != 2 then Err(BadRank)
    else Ok(a)
  }

  /** `_as_2D` changes nothing the second time. */
  lemma As2DIdempotent(a: NdArray)
    requires As2D(a).Ok?
    ensures As2D(As2D(a).value) == As2D(a)
  {
  }

  /** `Conditional_Entropy(For, Known)`: the entropy of `For` without known variables,
      and otherwise the entropy of `For` less the mutual information of `For + Known`,
      which is that of its first two names and no known ones. */
  function ConditionalEntropy(h: seq<string> -> Result<real>, mi: (seq<string>, seq<string>) -> Result<real>,
                              vars: seq<string>, known: seq<string>): Result<real>
  {
    if |known| == 0 then h(vars) else Minus(h(vars), mi(vars + known, []))
  }

  /** The columns of `vs` in the ensemble, looked up by `Variable_Names.index` from
      left to right: success exactly when every name is there, and otherwise the
      ValueError of the first one that is not. */
  function Columns(names: seq<string>, vs: seq<string>): (r: Result<seq<nat>>)
    ensures r.Ok? <==> forall j :: 0 <= j < |vs| ==> vs[j] in names
    ensures r.Ok? ==> |r.value| == |vs| && forall j :: 0 <= j < |vs| ==> r.value[j] < |names| && names[r.value[j]] == vs[j]
    ensures r.Err? ==> exists j :: 0 <= j < |vs| && vs[j] !in names && r.error == UnknownVariable(vs[j]) &&
                                   (forall m :: 0 <= m < j ==> vs[m] in names)
    decreases |vs|
  {
    if |vs| == 0 then Ok([])
    else
      var c := Histogram.IndexOf(names, vs[0]);
      if c.Err? then Err(c.error)
      else
        var rest := Columns(names, vs[1..]);
        if rest.Err? then
          assert forall j :: 1 <= j < |vs| ==> vs[j] == vs[1..][j - 1];
          Err(rest.error)
        else
          assert forall j :: 1 <= j < |vs| ==> vs[j] == vs[1..][j - 1];
          Ok([c.value] + rest.value)
  }

  /** `Mutual_Information(For, Known)` looks up the column of `For[0]`, then that of
      `For[1]`, then those of `Known` one by one, and only then estimates, from the
      first two names and the known ones: a missing `For[0]` is the IndexError, an
      unknown name the ValueError of the first lookup that fails, and `For[1]` is
      read only once `For[0]` was found. */
  function MutualInformation(names: seq<string>, i: (string, string, seq<string>) -> Result<real>,
                             vars: seq<string>, known: seq<string>): (r: Result<real>)
    ensures |vars| == 0 ==> r == Err(IndexOutOfRange)
    ensures |vars| >= 1 && vars[0] !in names ==> r == Err(UnknownVariable(vars[0]))
    ensures |vars| == 1 && vars[0] in names ==> r == Err(IndexOutOfRange)
    ensures |vars| >= 2 && vars[0] in names && vars[1] !in names ==> r == Err(UnknownVariable(vars[1]))
    ensures |vars| >= 2 && vars[0] in names && vars[1] in names ==>
      r == if Columns(names, known).Err? then Err(Columns(names, known).error) else i(vars[0], vars[1], known)
  {
    if |vars| == 0 then Err(IndexOutOfRange)
    else if vars[0] !in names then Err(UnknownVariable(vars[0]))
    else if |vars| == 1 then Err(IndexOutOfRange)
    else if vars[1] !in names then Err(UnknownVariable(vars[1]))
    else
      var z := Columns(names, known);
      if z.Err? then Err(z.error) else i(vars[0], vars[1], known)
  }

  /** The mutual information is estimated exactly when there are two variables, both
      of them and every known name are columns of the ensemble, and the estimate
      itself succeeds; then it is that estimate. */
  lemma MutualInformationDefined(names: seq<string>, i: (string, string, seq<string>) -> Result<real>,
                                 vars: seq<string>, known: seq<string>)
    ensures MutualInformation(names, i, vars, known).Ok? <==>
      |vars| >= 2 && vars[0] in names && vars[1] in names &&
      (forall j :: 0 <= j < |known| ==> known[j] in names) && i(vars[0], vars[1], known).Ok?
    ensures MutualInformation(names, i, vars, known).Ok? ==>
      MutualInformation(names, i, vars, known) == i(vars[0], vars[1], known)
  {
  }

  /** An unknown known name is the ValueError of the first one, whatever the estimate
      would give, once both variables were found. */
  lemma MutualInformationUnknownKnown(names: seq<string>, i: (string, string, seq<string>) -> Result<real>,
                                      vars: seq<string>, known: seq<string>, j: nat)
    requires |vars| >= 2 && vars[0] in names && vars[1] in names
    requires j < |known| && known[j] !in names && forall m :: 0 <= m < j ==> known[m] in names
    ensures MutualInformation(names, i, vars, known) == Err(UnknownVariable(known[j]))
  {
    var z := Columns(names, known);
    var w :| 0 <= w < |known| && known[w] !in names && z.error == UnknownVariable(known[w]) &&
             (forall m :: 0 <= m < w ==> known[m] in names);
    assert w == j;
  }

  /** With an estimate symmetric in the two variables, I(X;Y|Known) = I(Y;X|Known)
      whenever both are columns: exchanging them changes neither the outcome nor
      the value. */
  lemma MutualInformationSymmetric(names: seq<string>, i: (string, string, seq<string>) -> Result<real>,
                                   x: string, y: string, rest: seq<string>, known: seq<string>)
    requires forall a, b, k :: i(a, b, k) == i(b, a, k)
    requires x in names && y in names
    ensures MutualInformation(names, i, [x, y] + rest, known) == MutualInformation(names, i, [y, x] + rest, known)
  {
    assert ([x, y] + rest)[0] == x && ([x, y] + rest)[1] == y;
    assert ([y, x] + rest)[0] == y && ([y, x] + rest)[1] == x;
  }

  /** With the mutual information of the first two names, the conditional entropy of
      one variable uses only the first known one, and that of two or more variables
      does not depend on which variables are known, only on whether any are. */
  lemma ConditionalEntropyReads(h: seq<string> -> Result<real>, names: seq<string>,
                                i: (string, string, seq<string>) -> Result<real>,
                                vars: seq<string>, known: seq<string>, other: seq<string>)
    requires |known| > 0 && |other| > 0
    ensures var mi := (f: seq<string>, k: seq<string>) => MutualInformation(names, i, f, k);
      && (|vars| == 1 ==> ConditionalEntropy(h, mi, vars, known) == ConditionalEntropy(h, mi, vars, known[..1]))
      && (|vars| >= 2 ==> ConditionalEntropy(h, mi, vars, known) == ConditionalEntropy(h, mi, vars, other))
  {
    var mi := (f: seq<string>, k: seq<string>) => MutualInformation(names, i, f, k);
    if |vars| == 1 {
      assert (vars + known)[0] == vars[0] == (vars + known[..1])[0];
      assert (vars + known)[1] == known[0] == (vars + known[..1])[1];
    }
    if |vars| >= 2 {
      assert (vars + known)[..2] == vars[..2] == (vars + other)[..2];
    }
  }

  /** `counts[i] = max(len(neighbors) - 1, 0)` for every point: the neighbours within
      the radius, the point itself not counted. */
  method ClampCounts(matches: seq<int>) returns (counts: array<int>)
    ensures fresh(counts) && counts.Length == |matches|
    ensures forall j :: 0 <= j < counts.Length ==> counts[j] == if matches[j] - 1 > 0 then matches[j] - 1 else 0
  {
    counts := new int[|matches|];
    var j := 0;
    while j < |matches|
      invariant j <= |matches| && counts.Length == |matches|
      invariant forall m :: 0 <= m < j ==> counts[m] == if matches[m] - 1 > 0 then matches[m] - 1 else 0
    {
      counts[j] := if matches[j] - 1 > 0 then matches[j] - 1 else 0;
      j := j + 1;
    }
  }

  /** The clamped count of a point is never negative, and is one less than the
      points within its radius whenever there is at least one, itself. */
  lemma ClampBounds(m: int)
    ensures var c := if m - 1 > 0 then m - 1 else 0;
      c >= 0 && (m >= 1 ==> c == m - 1)
  {
  }

  /** `Estimator(Ensemble_Size)`: `k = 10` neighbours, a jitter of `1e-10`, and a fresh
      source in post-analysis mode. */
  class Estimator {
    const name: string
    const k: nat
    const jitter: real
    const source: Source

    constructor(ensembleSize: int)
      ensures name == "KSG_estimator" && k == 10 && jitter == 0.0000000001
      ensures fresh(source) && source.ensembleSize == ensembleSize && source.analysis == "Post_Analysis"
      ensures source.variableNames == [] && source.ensemble == []
    {
      name := "KSG_estimator";
      k := 10;
      jitter := 0.0000000001;
      source := new Source(ensembleSize);
    }

    /** `Multiple_Mutual_Information` has no body beyond `pass`: it returns nothing. */
    method MultipleMutualInformation(vars: seq<string>, known: seq<string>) returns (r: Option<real>)
      ensures r == None
    {
      r := None;
    }
  }
}
