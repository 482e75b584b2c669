/** The additional information variables of the library revision: a binning
    estimator of its own with a name and a table of values. The base class does
    nothing. The three subclasses — the joint entropy of three or of four nodes and
    the order-2 multiple transfer entropies of a pair with an external node — name
    their variables and set their realtime flag on the estimator object instead of
    on its source. So the source stays outside realtime mode: it is never
    initialised or fed, and its histogram stays empty. The class hierarchy of the
    original is one class whose `kind` says which subclass an object is. */
module SeveralVariables {
  import opened Wrappers
  import opened Dicts
  import opened Histogram
  import opened FromSimpleBin
  import opened EntropyMeasures
  import opened InformationNetwork
  import opened Records
  import opened SimpleBinning
  import opened Driver

  /** The class an additional variable belongs to, with its `Index_Tuple`. */
  datatype Kind =
    | Base                                                     // An_Additional_Information_Variable_BIN
    | JointOfThree(a: string, b: string, c: string)            // H_XYZ
    | JointOfFour(a: string, b: string, c: string, d: string)  // H_XYZW
    | MultipleTransfer(x: string, y: string, ext: string)      // T2: (X, Y, Ext)

  /** The `Variable_Names` a subclass gives its source. */
  function CoordinateNames(k: Kind): (r: seq<string>)
    ensures k.JointOfThree? ==> |r| == 3
    ensures k.JointOfFour? ==> |r| == 4
    ensures k.MultipleTransfer? ==> |r| == 5 && r[3] == Primed(r[0]) && r[4] == Primed(r[1])
  {
    match k
    case Base => []
    case JointOfThree(a, b, c) => [a, b, c]
    case JointOfFour(a, b, c, d) => [a, b, c, d]
    case MultipleTransfer(x, y, ext) => [x, y, ext, Primed(x), Primed(y)]
  }

  /** `Name`: `H_abc`, `H_abcd`, `Multiple_Transfer_Entropy_X_Y_Ext`, and empty for the base class. */
  function NameOf(k: Kind): string {
    match k
    case Base => ""
    case JointOfThree(a, b, c) => "H_" + a + b + c
    case JointOfFour(a, b, c, d) => "H_" + a + b + c + d
    case MultipleTransfer(x, y, ext) => "Multiple_Transfer_Entropy_" + x + "_" + y + "_" + ext
  }

  /** The keys `Estimate_the_Variable` writes, in order. */
  function EstimateKeys(k: Kind): (r: seq<string>)
    ensures k.Base? <==> r == []
  {
    match k
    case Base => []
    case JointOfThree(_, _, _) => ["H"]
    case JointOfFour(_, _, _, _) => ["H"]
    case MultipleTransfer(_, _, _) => ["T^2_v1", "T^2_v2", "T^2_v3"]
  }

  /** The values `Estimate_the_Variable` computes, in order, from the estimator's
      histogram. The joint entropies use the conditional entropy of all the names
      with nothing known. With `X, Y, Ext` and `X', Y'`, the transfer entropies are
      `MMI([Ext, X, Y'] | [Y])`, `MMI([Ext, X', Y'] | [X, Y])` and `MMI([Ext, Y, X'] | [X])`. */
  function EstimateResults(k: Kind, src: BinSource, ln: real -> real): (r: seq<Result<real>>)
    ensures |r| == |EstimateKeys(k)|
  {
    var n := CoordinateNames(k);
    match k
    case Base => []
    case JointOfThree(_, _, _) => [ConditionalEntropy(src, n, [], ln)]
    case JointOfFour(_, _, _, _) => [ConditionalEntropy(src, n, [], ln)]
    case MultipleTransfer(_, _, _) =>
      [ MultipleMutualInformation(src, [n[2], n[0], n[4]], [n[1]], ln),
        MultipleMutualInformation(src, [n[2], n[3], n[4]], [n[0], n[1]], ln),
        MultipleMutualInformation(src, [n[2], n[1], n[3]], [n[0]], ln) ]
  }

  /** The line `Save_the_Variable` appends: `"%03d: "` of the time, then every value as
      `"%0.3f|"`, then the line end. */
  function VariableLine(t: int, value: Dict<string, real>, fmt: Render): string {
    Stamp(t) + ": " + PlainFields(Values(value), fmt) + "\n"
  }

  class AdditionalVariable {
    const kind: Kind
    const source: Source
    var name: string
    var value: Dict<string, real>
    /** The `Analysis` attribute the subclasses set on the estimator object itself;
        the base class never sets it. */
    var analysis: Option<string>

    /** `An_Additional_Information_Variable_BIN(Q, Dimension)`: a binning source of that
        size taken out of realtime mode, no name and no values. */
    constructor Plain(q: int, dimension: int)
      ensures kind == Base && fresh(source) && source.Valid()
      ensures source.analysis == "" && source.kind == "Pairwise"
      ensures source.q == q && source.dimension == dimension
      ensures source.statistics == [] && source.variableNames == None
      ensures name == "" && value == [] && analysis == None
    {
      kind := Base;
      source := new Source(q, dimension);
      name := "";
      value := [];
      analysis := None;
      new;
      source.analysis := "";
    }

    /** `H_XYZ(Q, (a, b, c))`, `H_XYZW(Q, (a, b, c, d))` and `T2(Q, (X, Y, Ext))`:
        `Dimension` from the names, the name, the flag on the estimator, and a
        non-pairwise source still outside realtime mode. */
    constructor OfKind(q: int, kind: Kind)
      requires !kind.Base?
      ensures this.kind == kind && fresh(source) && source.Valid()
      ensures source.analysis == "" && source.kind == "not_Pairwise"
      ensures source.q == q && source.dimension == |CoordinateNames(kind)|
      ensures source.statistics == [] && source.variableNames == Some(CoordinateNames(kind))
      ensures name == NameOf(kind) && value == [] && analysis == Some("Realtime")
    {
      this.kind := kind;
      source := new Source(q, |CoordinateNames(kind)|);
      name := NameOf(kind);
      value := [];
      analysis := Some("Realtime");
      new;
      source.analysis := "";
      source.kind := "not_Pairwise";
      source.variableNames := Some(CoordinateNames(kind));
    }

    /** `Estimate_the_Variable()`: the values of the kind in turn into `Value`; the
        base class does nothing, and an estimator exception ends it. */
    method EstimateTheVariable(ln: real -> real) returns (r: Outcome)
      modifies this
      ensures name == old(name) && analysis == old(analysis)
      ensures value == Assigned(old(value), EstimateKeys(kind), EstimateResults(kind, source.Snapshot(), ln))
      ensures r == FirstFailure(EstimateResults(kind, source.Snapshot(), ln))
    {
      value, r := AssignEntries(value, EstimateKeys(kind), EstimateResults(kind, source.Snapshot(), ln));
    }

    /** `Save_the_Variable(Save_Directory, Simulation_Time)`: nothing unless the source
        is in realtime mode; otherwise the line of the values, appended to `Name.txt`. */
    function SavedVariable(files: Files, dir: string, t: int, fmt: Render): (r: Files)
      reads this, source
      ensures source.analysis != "Realtime" ==> r == files
      ensures source.analysis == "Realtime" ==>
        Contents(r, dir + name + ".txt") == Contents(files, dir + name + ".txt") + VariableLine(t, value, fmt)
      ensures forall p :: p != dir + name + ".txt" ==> (p in r <==> p in files) && Contents(r, p) == Contents(files, p)
    {
      if source.analysis != "Realtime" then files
      else FileAppended(files, dir + name + ".txt", VariableLine(t, value, fmt))
    }
  }

  // ---------------------------------------------------------------- what the values are

  /** The joint entropies are the entropy of all their names together. */
  lemma JointIsEntropy(k: Kind, src: BinSource, ln: real -> real)
    requires k.JointOfThree? || k.JointOfFour?
    ensures EstimateResults(k, src, ln) == [H(src, CoordinateNames(k), ln)]
  {
    ConditionalEntropyUnconditioned(src, CoordinateNames(k), ln);
  }

  /** A multiple mutual information of three variables is the base case, which
      always terminates. */
  lemma ThreeWay(src: BinSource, a: string, b: string, c: string, known: seq<string>, ln: real -> real)
    ensures MultipleMutualInformation(src, [a, b, c], known, ln) ==
      Minus(MutualInformation(src, [a, b], known, ln), MutualInformation(src, [a, b], known + [c], ln))
    ensures MultipleMutualInformation(src, [a, b, c], known, ln) != Err(RecursionLimit)
  {
    MultipleMutualInformationBase(src, [a, b, c], known, ln);
    assert [a, b, c][..2] == [a, b];
    MultipleMutualInformationTerminates(src, [a, b, c], known, ln);
  }

  /** Each transfer entropy is an order-2 multiple mutual information of three
      variables (`ThreeWay`), so the recursion always reaches its base case. */
  lemma TransferTerminates(x: string, y: string, ext: string, src: BinSource, ln: real -> real)
    ensures forall i :: 0 <= i < 3 ==> EstimateResults(MultipleTransfer(x, y, ext), src, ln)[i] != Err(RecursionLimit)
  {
    var x2, y2 := Primed(x), Primed(y);
    ThreeWay(src, ext, x, y2, [y], ln);
    ThreeWay(src, ext, x2, y2, [x, y], ln);
    ThreeWay(src, ext, y, x2, [x], ln);
  }

  // ---------------------------------------------------------------- the unfed histogram

  /** An empty histogram has no distribution: every entropy over names the source
      knows is the ZERO STAT error. */
  lemma EmptyEntropy(names: seq<string>, vars: seq<string>, ln: real -> real)
    requires forall j :: 0 <= j < |vars| ==> vars[j] in names
    ensures H(BinSource([], Some(names)), vars, ln) == Err(ZeroStat)
  {
    var src := BinSource([], Some(names));
    if vars != [] {
      assert MeshIndices(src.variableNames, vars).Ok?;
    }
    assert Meshed(src, vars) == Ok([]);
  }

  lemma EmptyConditional(names: seq<string>, vars: seq<string>, known: seq<string>, ln: real -> real)
    requires forall j :: 0 <= j < |vars| ==> vars[j] in names
    requires forall j :: 0 <= j < |known| ==> known[j] in names
    ensures ConditionalEntropy(BinSource([], Some(names)), vars, known, ln) == Err(ZeroStat)
  {
    if |known| == 0 {
      EmptyEntropy(names, vars, ln);
    } else {
      EmptyEntropy(names, known, ln);
    }
  }

  lemma EmptyMutual(names: seq<string>, vars: seq<string>, known: seq<string>, ln: real -> real)
    requires |vars| >= 1
    requires forall j :: 0 <= j < |vars| ==> vars[j] in names
    requires forall j :: 0 <= j < |known| ==> known[j] in names
    ensures MutualInformation(BinSource([], Some(names)), vars, known, ln) == Err(ZeroStat)
  {
    EmptyConditional(names, [vars[0]], known, ln);
  }

  /** A multiple mutual information of three or more variables fails the same way,
      at the first entropy of its innermost left branch. */
  lemma {:induction false} EmptyMultiple(names: seq<string>, vars: seq<string>, known: seq<string>, ln: real -> real)
    requires |vars| >= 3
    requires forall j :: 0 <= j < |vars| ==> vars[j] in names
    requires forall j :: 0 <= j < |known| ==> known[j] in names
    ensures MultipleMutualInformation(BinSource([], Some(names)), vars, known, ln) == Err(ZeroStat)
    decreases |vars|
  {
    var src := BinSource([], Some(names));
    var front := vars[..|vars| - 1];
    if |vars| == 3 {
      MultipleMutualInformationBase(src, vars, known, ln);
      EmptyMutual(names, vars[..2], known, ln);
    } else {
      MultipleMutualInformationStep(src, vars, known, ln);
      EmptyMultiple(names, front, known, ln);
    }
  }

  /** The subclasses never feed their histogram, so estimating them raises the ZERO
      STAT error at the first value and leaves `Value` as it was. */
  lemma UnfedEstimate(k: Kind, value: Dict<string, real>, ln: real -> real)
    requires !k.Base?
    ensures var rs := EstimateResults(k, BinSource([], Some(CoordinateNames(k))), ln);
      FirstFailure(rs) == Fail(ZeroStat) && Assigned(value, EstimateKeys(k), rs) == value
  {
    var n := CoordinateNames(k);
    var rs := EstimateResults(k, BinSource([], Some(n)), ln);
    if k.MultipleTransfer? {
      EmptyMultiple(n, [n[2], n[0], n[4]], [n[1]], ln);
    } else {
      EmptyConditional(n, n, [], ln);
    }
    assert rs[0] == Err(ZeroStat);
  }

  // ---------------------------------------------------------------- the inert source

  /** The subclasses' sources are outside realtime mode: `Init_Source_Realtime` leaves
      them unnamed-as-before and empty, `Update_Source_Realtime` never counts, and
      `Save_the_Variable` writes nothing. */
  method InertVariable(q: int, k: Kind, nodes: seq<string>, state: States, buffer: States, files: Files,
                       dir: string, t: int, fmt: Render)
      returns (stats: Table, saved: Files)
    requires !k.Base?
    ensures stats == [] && saved == files
  {
    var v := new AdditionalVariable.OfKind(q, k);
    var r1 := v.source.InitSourceRealtime(nodes);
    var r2 := v.source.UpdateSourceRealtime(state, buffer);
    stats := v.source.statistics;
    saved := v.SavedVariable(files, dir, t, fmt);
  }
}
