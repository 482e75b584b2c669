/** The additional information variables of the gene-regulatory-network model:
    joint entropies of three or four nodes and the order-2 multiple transfer
    entropies of a pair with an external node. Each keeps a histogram of its own,
    pre-filled over the full grid and fed one replicate at a time. The class
    hierarchy of the original is one class whose `kind` says which subclass an
    object is; the base class does nothing. */
module AbnSeveralVariables {
  import opened Wrappers
  import opened Dicts
  import opened Histogram
  import opened FromSimpleBin
  import opened EntropyMeasures
  import opened InformationNetwork
  import opened Records

  /** The class an information variable belongs to, with its `Index_Tuple`. */
  datatype Kind =
    | Base                                                     // An_Information_Variable
    | JointOfThree(a: string, b: string, c: string)            // H_XYZ
    | JointOfFour(a: string, b: string, c: string, d: string)  // H_XYZW
    | MultipleTransfer(x: string, y: string, ext: string)      // T2: (X, Y, Ext)

  /** `Value`: a number, or for `T2` a dictionary of three numbers. */
  datatype Value = Scalar(v: real) | Named(entries: Dict<string, real>)

  /** `Dimension`: the number of coordinates of a cell of the histogram. */
  function DimensionOf(k: Kind): (r: nat)
    ensures k.Base? <==> r == 0
  {
    match k
    case Base => 0
    case JointOfThree(_, _, _) => 3
    case JointOfFour(_, _, _, _) => 4
    case MultipleTransfer(_, _, _) => 5
  }

  /** `Name`: `H_abc`, `H_abcd`, or the fixed name of the transfer entropies. */
  function NameOf(k: Kind): string {
    match k
    case Base => ""
    case JointOfThree(a, b, c) => "H_" + a + b + c
    case JointOfFour(a, b, c, d) => "H_" + a + b + c + d
    case MultipleTransfer(_, _, _) => "Multiple_Transfer_Entropy_order_2"
  }

  /** The keys of a `T2` value, in insertion order: `T^2_{Ext X -> Y}`,
      `T^2_{Ext -> X Y}` and `T^2_{Ext Y -> X}`. */
  function TransferKeys(x: string, y: string, ext: string): (r: seq<string>)
    ensures |r| == 3
  {
    [ "T^2_{" + ext + " " + x + " -> " + y + "}",
      "T^2_{" + ext + " -> " + x + " " + y + "}",
      "T^2_{" + ext + " " + y + " -> " + x + "}" ]
  }

  /** The value a new object starts with: 0, or for `T2` the dictionary display
      mapping its three keys to 0 (two equal keys make one entry). */
  function InitialValue(k: Kind): Value {
    match k
    case MultipleTransfer(x, y, ext) => Named(PutAll([], TransferKeys(x, y, ext), 0.0))
    case _ => Scalar(0.0)
  }

  /** The names the estimate gives the coordinates of the histogram. */
  function CoordinateNames(k: Kind): (r: seq<string>)
    ensures |r| == DimensionOf(k)
  {
    match k
    case Base => []
    case JointOfThree(_, _, _) => ["X", "Y", "Z"]
    case JointOfFour(_, _, _, _) => ["X", "Y", "Z", "W"]
    case MultipleTransfer(_, _, _) => ["X", "Y", "Ext", "X'", "Y'"]
  }

  /** `d[k]`, or the KeyError. */
  function Lookup(d: Dict<string, int>, k: string): (r: Result<int>)
    ensures r.Ok? <==> k in Keys(d)
    ensures r.Err? ==> r.error == MissingKey
    ensures r.Ok? ==> Get(d, k) == Some(r.value)
  {
    match Get(d, k)
    case Some(v) => Ok(v)
    case None => Err(MissingKey)
  }

  /** The lookups `Update_Statistics` makes, left to right: the current states of
      the nodes, and for `T2` then the buffered next states of `X` and `Y`. */
  function Readings(k: Kind, state: Dict<string, int>, buffer: Dict<string, int>): (r: seq<Result<int>>)
    ensures |r| == DimensionOf(k)
  {
    match k
    case Base => []
    case JointOfThree(a, b, c) => [Lookup(state, a), Lookup(state, b), Lookup(state, c)]
    case JointOfFour(a, b, c, d) => [Lookup(state, a), Lookup(state, b), Lookup(state, c), Lookup(state, d)]
    case MultipleTransfer(x, y, ext) =>
      [Lookup(state, x), Lookup(state, y), Lookup(state, ext), Lookup(buffer, x), Lookup(buffer, y)]
  }

  /** The key `Update_Statistics` increments: the values of the lookups, or the
      KeyError of the first that fails (every lookup fails the same way). */
  function CellOfKind(k: Kind, state: Dict<string, int>, buffer: Dict<string, int>): (r: Result<Tuple>)
    ensures var rs := Readings(k, state, buffer);
      && (r.Ok? <==> forall i :: 0 <= i < |rs| ==> rs[i].Ok?)
      && (r.Err? ==> r.error == MissingKey)
      && (r.Ok? ==> |r.value| == |rs| && forall i :: 0 <= i < |rs| ==> r.value[i] == rs[i].value)
  {
    var rs := Readings(k, state, buffer);
    if forall i :: 0 <= i < |rs| ==> rs[i].Ok? then
      Ok(seq(|rs|, i requires 0 <= i < |rs| && rs[i].Ok? => rs[i].value))
    else Err(MissingKey)
  }

  /** The histogram after `Update_Statistics`: the base class leaves it alone; the
      others add one to the cell of the replicate, failing on a missing node or cell. */
  function UpdatedHistogram(k: Kind, stats: Table, state: Dict<string, int>, buffer: Dict<string, int>): Result<Table> {
    if k.Base? then Ok(stats)
    else
      var cell := CellOfKind(k, state, buffer);
      if cell.Err? then Err(cell.error) else Increment(stats, cell.value)
  }

  /** The measures `Estimate_the_Variable` evaluates, in evaluation order, from the
      conditional entropy and mutual information of `m` and the multiple mutual
      information `mmi`. For `H_XYZ` the first is the joint entropy it keeps; the
      others enter an inclusion-exclusion sum that is thrown away, but an
      exception in any of them still ends the estimate. */
  function EstimateResults(k: Kind, m: Measures, mmi: (seq<string>, seq<string>) -> Result<real>): (r: seq<Result<real>>)
    ensures |r| == match k
      case Base => 0
      case JointOfThree(_, _, _) => 9
      case JointOfFour(_, _, _, _) => 1
      case MultipleTransfer(_, _, _) => 3
  {
    match k
    case Base => []
    case JointOfThree(_, _, _) =>
      [ m.ce(["X", "Y", "Z"], []),
        m.ce(["X"], []),
        m.ce(["Y"], []),
        m.ce(["Z"], []),
        m.mi(["X", "Y"], []),
        m.mi(["Y", "Z"], []),
        m.mi(["Z", "X"], []),
        m.mi(["X", "Y"], []),
        m.mi(["X", "Y"], ["Z"]) ]
    case JointOfFour(_, _, _, _) =>
      [m.ce(["X", "Y", "Z", "W"], [])]
    case MultipleTransfer(_, _, _) =>
      [ mmi(["Ext", "X", "Y'"], ["Y"]),
        mmi(["Ext", "X'", "Y'"], ["X", "Y"]),
        mmi(["Ext", "Y", "X'"], ["X"]) ]
  }

  /** The measures of the estimate over the binned histogram `src`. */
  function BinnedResults(k: Kind, src: BinSource, ln: real -> real): seq<Result<real>> {
    EstimateResults(k, Binned(src, ln), (f, kn) => MultipleMutualInformation(src, f, kn, ln))
  }

  /** A fresh histogram initialised over `{0..Size-1}^Dimension`. */
  function FreshHistogram(size: int, dimension: nat): Table {
    PutAll([], Grid(Repeat(size, dimension)), 0)
  }

  /** A `T2` value holds the three transfer keys, whatever has been assigned. */
  predicate ValueFits(k: Kind, v: Value) {
    match k
    case MultipleTransfer(x, y, ext) =>
      v.Named? && forall i :: 0 <= i < 3 ==> TransferKeys(x, y, ext)[i] in Keys(v.entries)
    case _ => v.Scalar?
  }

  /** The cells `Recurr_Initialize_Statistics` creates one level below the first
      `i` values of the current position follow those of the shorter range. */
  lemma BlockStep(p: Tuple, sizes: seq<int>, i: nat)
    requires |sizes| >= 1
    ensures PrefixAll(p, Blocks(sizes, i + 1)) == PrefixAll(p, Blocks(sizes, i)) + PrefixAll(p + [i], Grid(sizes[1..]))
  {
    PrefixAllAppend(p, Blocks(sizes, i), PrefixAll([i], Grid(sizes[1..])));
    PrefixAllTwice(p, [i], Grid(sizes[1..]));
  }

  /** A full index is one cell: the grid of no sizes is the empty tuple. */
  lemma LeafGrid(d: Table, p: Tuple)
    ensures PutAll(d, PrefixAll(p, Grid([])), 0) == Put(d, p, 0)
  {
    assert Grid([]) == [[]];
    assert p + [] == p;
    assert PrefixAll(p, [[]]) == [p];
    assert [p][1..] == [];
  }

  /** An object of the hierarchy: `An_Information_Variable` or one of its subclasses. */
  class InformationVariable {
    const kind: Kind
    var name: string
    var statistics: Table
    var value: Value
    var dimension: nat

    /** `H_XYZ(Index_Tuple)`, `H_XYZW(Index_Tuple)`, `T2(Index_Tuple)`, or the base
        class: an empty histogram, the initial value, and the name and dimension of
        the class. */
    constructor(kind: Kind)
      ensures this.kind == kind && name == NameOf(kind) && dimension == DimensionOf(kind)
      ensures statistics == [] && value == InitialValue(kind)
      ensures Valid()
    {
      this.kind := kind;
      name := NameOf(kind);
      statistics := [];
      value := InitialValue(kind);
      dimension := DimensionOf(kind);
      if kind.MultipleTransfer? {
        PutAllSpec([], TransferKeys(kind.x, kind.y, kind.ext), 0.0);
      }
    }

    /** The value has the shape of the class, and the histogram is a dictionary. */
    predicate Valid()
      reads this
    {
      ValueFits(kind, value) && Distinct(Keys(statistics))
    }

    /** `Initialize_Statistics(Size)`: `Dimension` sizes and a zero index, then the
        recursive walk; every cell of the grid `{0..Size-1}^Dimension` is set to 0,
        in lexicographic order. */
    method InitializeStatistics(size: int)
      requires Valid()
      modifies this
      ensures Valid()
      ensures statistics == PutAll(old(statistics), Grid(Repeat(size, dimension)), 0)
      ensures name == old(name) && value == old(value) && dimension == old(dimension)
    {
      var sizeList: seq<int> := [];
      var zeros: seq<int> := [];
      var i := 0;
      while i < dimension
        invariant 0 <= i <= dimension
        invariant sizeList == Repeat(size, i) && zeros == Repeat(0, i)
      {
        sizeList := sizeList + [size];
        zeros := zeros + [0];
        i := i + 1;
      }
      var index := new int[|zeros|](j requires 0 <= j < |zeros| => zeros[j]);
      assert index[..0] == [];
      RecurrInitializeStatistics(sizeList, index);
      PrefixAllNil(Grid(sizeList));
      PutAllSpec(old(statistics), Grid(sizeList), 0);
    }

    /** `Recurr_Initialize_Statistics(Size_List, Index)`: with `l` sizes left, the
        position `len(Index) - l` of the shared index runs through the first size and
        the walk descends; with none left, the index itself becomes a cell with
        count 0. The cells set are those of the grid of `Size_List` behind the
        positions already fixed, which the walk leaves as they were. */
    method RecurrInitializeStatistics(sizeList: seq<int>, index: array<int>)
      requires |sizeList| <= index.Length
      modifies this, index
      ensures statistics ==
        PutAll(old(statistics), PrefixAll(old(index[..index.Length - |sizeList|]), Grid(sizeList)), 0)
      ensures index[..index.Length - |sizeList|] == old(index[..index.Length - |sizeList|])
      ensures name == old(name) && value == old(value) && dimension == old(dimension)
      decreases |sizeList|, 1
    {
      var dl := index.Length;
      var l := |sizeList|;
      if l == 0 {
        assert index[..dl - l] == index[..];
        LeafGrid(statistics, index[..]);
        statistics := Put(statistics, index[..], 0);
        return;
      }
      ghost var start := statistics;
      ghost var p := index[..dl - l];
      var count := if sizeList[0] > 0 then sizeList[0] else 0;
      var i := 0;
      while i < count
        invariant 0 <= i <= count
        invariant index[..dl - l] == p
        invariant statistics == PutAll(start, PrefixAll(p, Blocks(sizeList, i)), 0)
        invariant name == old(name) && value == old(value) && dimension == old(dimension)
      {
        InitializeBelow(sizeList, index, i);
        PutAllAppend(start, PrefixAll(p, Blocks(sizeList, i)), PrefixAll(p + [i], Grid(sizeList[1..])), 0);
        BlockStep(p, sizeList, i);
        i := i + 1;
      }
    }

    /** One turn of the loop of `Recurr_Initialize_Statistics`: `Index[dl - l] = i`,
        then the walk over the remaining sizes. */
    method InitializeBelow(sizeList: seq<int>, index: array<int>, i: int)
      requires 1 <= |sizeList| <= index.Length
      modifies this, index
      ensures statistics ==
        PutAll(old(statistics), PrefixAll(old(index[..index.Length - |sizeList|]) + [i], Grid(sizeList[1..])), 0)
      ensures index[..index.Length - |sizeList|] == old(index[..index.Length - |sizeList|])
      ensures name == old(name) && value == old(value) && dimension == old(dimension)
      decreases |sizeList|, 0
    {
      ghost var p := index[..index.Length - |sizeList|];
      index[index.Length - |sizeList|] := i;
      assert index[..index.Length - |sizeList| + 1] == p + [i];
      RecurrInitializeStatistics(sizeList[1..], index);
      assert index[..index.Length - |sizeList|] == index[..index.Length - |sizeList| + 1][..index.Length - |sizeList|];
    }

    /** `Update_Statistics(State_Space, Update_Buffer)`: nothing for the base class;
        otherwise one more count in the cell of the replicate. A missing node or cell
        is the KeyError, with the histogram as it was. */
    method UpdateStatistics(state: Dict<string, int>, buffer: Dict<string, int>) returns (r: Outcome)
      requires Valid()
      modifies this
      ensures Valid() && name == old(name) && value == old(value) && dimension == old(dimension)
      ensures match UpdatedHistogram(kind, old(statistics), state, buffer)
        case Ok(t) => r == Pass && statistics == t
        case Err(e) => r == Fail(e) && statistics == old(statistics)
    {
      if kind.Base? {
        return Pass;
      }
      var cell := CellOfKind(kind, state, buffer);
      if cell.Err? {
        return Fail(cell.error);
      }
      var next := Increment(statistics, cell.value);
      if next.Err? {
        return Fail(next.error);
      }
      statistics := next.value;
      return Pass;
    }

    /** The source the estimate reads: the histogram under the coordinate names. */
    function BinStat(): BinSource
      reads this
    {
      BinSource(statistics, Some(CoordinateNames(kind)))
    }

    /** `Estimate_the_Variable()`: nothing for the base class; the joint entropy for
        `H_XYZ` and `H_XYZW`; the three order-2 multiple mutual informations for `T2`,
        stored in turn under their keys. An exception ends it with what was stored. */
    method EstimateTheVariable(ln: real -> real) returns (r: Outcome)
      requires Valid()
      modifies this
      ensures Valid() && name == old(name) && statistics == old(statistics) && dimension == old(dimension)
      ensures r == FirstFailure(BinnedResults(kind, old(BinStat()), ln))
      ensures kind.MultipleTransfer? ==>
        value == Named(Assigned(old(value).entries, TransferKeys(kind.x, kind.y, kind.ext),
                                BinnedResults(kind, old(BinStat()), ln)))
      ensures !kind.MultipleTransfer? && !kind.Base? && r == Pass ==>
        value == Scalar(BinnedResults(kind, old(BinStat()), ln)[0].value)
      ensures !kind.MultipleTransfer? && (kind.Base? || r != Pass) ==> value == old(value)
    {
      var rs := BinnedResults(kind, BinStat(), ln);
      match kind
      case Base =>
        return Pass;
      case MultipleTransfer(x, y, ext) =>
        var entries, outcome := AssignEntries(value.entries, TransferKeys(x, y, ext), rs);
        AssignedKeys(value.entries, TransferKeys(x, y, ext), rs);
        value := Named(entries);
        return outcome;
      case _ =>
        r := FirstFailure(rs);
        if r == Pass {
          value := Scalar(rs[0].value);
        }
    }

    /** `Save_the_Variable(Save_Directory, Simulation_Time)`, as the line it appends
        to the file `Name.txt`: nothing for the base class, otherwise `"%03d: "`
        followed by each value as `"%0.3f|"`, in the order of the value's keys. */
    function SavedLines(t: int, fmt: Render): (r: seq<(string, string)>)
      reads this
      ensures kind.Base? <==> r == []
      ensures !kind.Base? ==> |r| == 1 && r[0].0 == name + ".txt"
    {
      if kind.Base? then []
      else
        var fields := match value
          case Scalar(v) => PlainField(v, fmt)
          case Named(entries) => PlainFields(Values(entries), fmt);
        [(name + ".txt", Stamp(t) + ": " + fields)]
    }
  }

  // ---------------------------------------------------------------- properties

  /** Initialisation from an empty histogram creates one zero cell for each tuple
      of `{0..Size-1}^Dimension`, and no other, each once. */
  lemma InitialHistogram(size: int, dimension: nat, t: Tuple)
    ensures t in Keys(FreshHistogram(size, dimension)) <==> InGrid(t, Repeat(size, dimension))
    ensures t in Keys(FreshHistogram(size, dimension)) ==> Get(FreshHistogram(size, dimension), t) == Some(0)
    ensures Distinct(Keys(FreshHistogram(size, dimension)))
    ensures Keys(FreshHistogram(size, dimension)) == Grid(Repeat(size, dimension))
  {
    var cells := Grid(Repeat(size, dimension));
    var empty: Table := [];
    assert Keys(empty) == [];
    GridDistinct(Repeat(size, dimension));
    PutAllSpec(empty, cells, 0);
    PutAllFresh(empty, cells, 0);
    GridMembers(Repeat(size, dimension), t);
  }

  /** The base class has dimension 0, so its histogram is the single cell `()`. */
  lemma BaseHistogram()
    ensures FreshHistogram(0, DimensionOf(Base)) == [([], 0)]
  {
    assert Repeat(0, 0) == [];
    assert Grid([]) == [[]];
    var empty: Table := [];
    assert Put(empty, [], 0) == [([], 0)];
  }

  /** The cell of a replicate: for `H_XYZ` and `H_XYZW` the states of its nodes,
      for `T2` the states of `X`, `Y` and `Ext` followed by the buffered next
      states of `X` and `Y`. */
  lemma CellContents(k: Kind, state: Dict<string, int>, buffer: Dict<string, int>)
    requires !k.Base? && CellOfKind(k, state, buffer).Ok?
    ensures var cell := CellOfKind(k, state, buffer).value;
      && (k.JointOfThree? ==>
            Some(cell[0]) == Get(state, k.a) && Some(cell[1]) == Get(state, k.b) && Some(cell[2]) == Get(state, k.c))
      && (k.JointOfFour? ==>
            && Some(cell[0]) == Get(state, k.a) && Some(cell[1]) == Get(state, k.b)
            && Some(cell[2]) == Get(state, k.c) && Some(cell[3]) == Get(state, k.d))
      && (k.MultipleTransfer? ==>
            && Some(cell[0]) == Get(state, k.x) && Some(cell[1]) == Get(state, k.y) && Some(cell[2]) == Get(state, k.ext)
            && Some(cell[3]) == Get(buffer, k.x) && Some(cell[4]) == Get(buffer, k.y))
  {
    var rs := Readings(k, state, buffer);
    assert forall i :: 0 <= i < |rs| ==> rs[i].Ok?;
  }

  /** An update adds one to exactly the cell of the replicate, and fails exactly
      when a node is missing or the cell is not in the histogram. */
  lemma UpdateOneCell(k: Kind, stats: Table, state: Dict<string, int>, buffer: Dict<string, int>, other: Tuple)
    requires !k.Base?
    ensures UpdatedHistogram(k, stats, state, buffer).Ok? <==>
      CellOfKind(k, state, buffer).Ok? && CellOfKind(k, state, buffer).value in Keys(stats)
    ensures UpdatedHistogram(k, stats, state, buffer).Ok? ==>
      var cell := CellOfKind(k, state, buffer).value;
      var t := UpdatedHistogram(k, stats, state, buffer).value;
      && Keys(t) == Keys(stats)
      && Get(t, cell) == Some(Get(stats, cell).value + 1)
      && (other != cell ==> Get(t, other) == Get(stats, other))
      && Total(t) == Total(stats) + 1
  {
    var cell := CellOfKind(k, state, buffer);
    if cell.Ok? {
      assert UpdatedHistogram(k, stats, state, buffer) == Increment(stats, cell.value);
    }
  }

  /** A replicate whose lookups all succeed with values in `0..Size-1` falls in a
      cell of the initialised histogram. */
  lemma UpdateInGrid(k: Kind, size: int, state: Dict<string, int>, buffer: Dict<string, int>)
    requires !k.Base? && CellOfKind(k, state, buffer).Ok?
    requires forall i :: 0 <= i < DimensionOf(k) ==> 0 <= CellOfKind(k, state, buffer).value[i] < size
    ensures UpdatedHistogram(k, FreshHistogram(size, DimensionOf(k)), state, buffer).Ok?
  {
    var cell := CellOfKind(k, state, buffer).value;
    InitialHistogram(size, DimensionOf(k), cell);
  }

  /** `H_XYZ` keeps the joint entropy of its three coordinates. */
  lemma JointOfThreeKept(a: string, b: string, c: string, src: BinSource, ln: real -> real)
    ensures BinnedResults(JointOfThree(a, b, c), src, ln)[0] == H(src, ["X", "Y", "Z"], ln)
  {
  }

  /** `H_XYZW` computes only the joint entropy of its four coordinates. */
  lemma JointOfFourKept(a: string, b: string, c: string, d: string, src: BinSource, ln: real -> real)
    ensures BinnedResults(JointOfFour(a, b, c, d), src, ln) == [H(src, ["X", "Y", "Z", "W"], ln)]
  {
  }

  /** `T2` computes three multiple mutual informations of three variables each, so
      with any estimator whose recursion reaches its base case from three
      variables on (`MultipleMutualInformationTerminates` for binning) none of them
      is a RecursionError. */
  lemma TransferTerminates(x: string, y: string, ext: string, m: Measures, mmi: (seq<string>, seq<string>) -> Result<real>)
    requires forall f, kn :: |f| >= 3 ==> mmi(f, kn) != Err(RecursionLimit)
    ensures forall i :: 0 <= i < 3 ==> EstimateResults(MultipleTransfer(x, y, ext), m, mmi)[i] != Err(RecursionLimit)
  {
    var rs := EstimateResults(MultipleTransfer(x, y, ext), m, mmi);
    assert |["Ext", "X", "Y'"]| == 3 && |["Ext", "X'", "Y'"]| == 3 && |["Ext", "Y", "X'"]| == 3;
  }
}
