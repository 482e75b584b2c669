/** A binned source: a count histogram together with the names of its tuple
    coordinates, from which marginal distributions over named variables are built.
    The loops of the original are methods; each is proved equal to the
    specification function beside it, whose properties are the lemmas of
    `Histogram`. */
module FromSimpleBin {
  import opened Wrappers
  import opened Dicts
  import opened Histogram

  /** The histogram and the coordinate names. The names are optional because the
      realtime binning source only acquires them when it is first initialised;
      reading them before that is an AttributeError. */
  datatype BinSource = BinSource(statistics: Table, variableNames: Option<seq<string>>) {
    /** The histogram is a dictionary: no cell appears twice. */
    predicate Valid() {
      Distinct(Keys(statistics))
    }
  }

  /** The coordinate of each requested variable, in the order requested. */
  function MeshIndices(names: Option<seq<string>>, vars: seq<string>): (r: Result<seq<nat>>)
    ensures r.Ok? ==> |r.value| == |vars|
    ensures r.Ok? && |vars| > 0 ==>
      names.Some? && forall j :: 0 <= j < |vars| ==> r.value[j] < |names.value| && names.value[r.value[j]] == vars[j]
    ensures r.Err? ==> r.error == MissingAttribute || r.error.UnknownVariable?
    ensures r.Ok? <==> |vars| == 0 || (names.Some? && forall j :: 0 <= j < |vars| ==> vars[j] in names.value)
  {
    if |vars| == 0 then Ok([])
    else
      var front := MeshIndices(names, vars[..|vars| - 1]);
      if front.Err? then front
      else if names.None? then Err(MissingAttribute)
      else
        var i := IndexOf(names.value, vars[|vars| - 1]);
        if i.Err? then Err(i.error) else Ok(front.value + [i.value])
  }

  /** The histogram marginalised onto `vars`; the empty list means the histogram itself. */
  function Meshed(src: BinSource, vars: seq<string>): Result<Table> {
    if vars == [] then Ok(src.statistics)
    else
      var idx :- MeshIndices(src.variableNames, vars);
      Marginal(src.statistics, idx)
  }

  /** The distribution of `vars`. */
  function DesiredPdf(src: BinSource, vars: seq<string>): Result<Distribution> {
    var m :- Meshed(src, vars);
    Pdf(m)
  }

  /** A failure in resolving a prefix of the names is the failure of the whole list. */
  lemma {:induction false} MeshIndicesPrefixError(names: Option<seq<string>>, vars: seq<string>, j: nat)
    requires j <= |vars| && MeshIndices(names, vars[..j]).Err?
    ensures MeshIndices(names, vars) == MeshIndices(names, vars[..j])
    decreases |vars| - j
  {
    if j < |vars| {
      assert vars[..j + 1][..j] == vars[..j];
      MeshIndicesPrefixError(names, vars, j + 1);
    } else {
      assert vars[..j] == vars;
    }
  }

  /** A failing projection in a prefix of the table is the failure of the whole marginal. */
  lemma {:induction false} MarginalPrefixError(t: Table, idx: seq<nat>, k: nat)
    requires k <= |t| && Marginal(t[..k], idx).Err?
    ensures Marginal(t, idx) == Marginal(t[..k], idx)
    decreases |t| - k
  {
    if k < |t| {
      assert t[..k + 1][..k] == t[..k];
      MarginalPrefixError(t, idx, k + 1);
    } else {
      assert t[..k] == t;
    }
  }

  /** `Mesh_Tuple`: the coordinates of `raw` at `idx`, collected one by one. */
  method MeshTuple(raw: Tuple, idx: seq<nat>) returns (r: Result<Tuple>)
    ensures r == Project(raw, idx)
  {
    var result: Tuple := [];
    var j := 0;
    while j < |idx|
      invariant 0 <= j <= |idx|
      invariant Project(raw, idx[..j]) == Ok(result)
    {
      assert idx[..j + 1][..j] == idx[..j];
      if idx[j] >= |raw| {
        assert Project(raw, idx[..j + 1]).Err?;
        assert forall n :: j < n <= |idx| ==> Project(raw, idx[..n]).Err? by {
          forall n | j < n <= |idx| ensures Project(raw, idx[..n]).Err? {
            assert idx[..n][j] == idx[j];
          }
        }
        assert idx[..|idx|] == idx;
        return Err(IndexOutOfRange);
      }
      result := result + [raw[idx[j]]];
      j := j + 1;
    }
    assert idx[..j] == idx;
    return Ok(result);
  }

  /** The first loop of `Meshed_for_`: the coordinate of each requested name. */
  method ResolveNames(names: Option<seq<string>>, vars: seq<string>) returns (r: Result<seq<nat>>)
    requires vars != []
    ensures r == MeshIndices(names, vars)
  {
    var meshIndex: seq<nat> := [];
    var j := 0;
    while j < |vars|
      invariant 0 <= j <= |vars|
      invariant MeshIndices(names, vars[..j]) == Ok(meshIndex)
    {
      assert vars[..j + 1][..j] == vars[..j];
      if names.None? {
        MeshIndicesPrefixError(names, vars, j + 1);
        return Err(MissingAttribute);
      }
      var i := IndexOf(names.value, vars[j]);
      if i.Err? {
        MeshIndicesPrefixError(names, vars, j + 1);
        return Err(i.error);
      }
      meshIndex := meshIndex + [i.value];
      j := j + 1;
    }
    assert vars[..j] == vars;
    return Ok(meshIndex);
  }

  /** The second loop of `Meshed_for_`: add each cell's count into the cell of its projection. */
  method CountProjections(stats: Table, meshIndex: seq<nat>) returns (r: Result<Table>)
    ensures r == Marginal(stats, meshIndex)
  {
    var meshed: Table := [];
    var k := 0;
    while k < |stats|
      invariant 0 <= k <= |stats|
      invariant Marginal(stats[..k], meshIndex) == Ok(meshed)
    {
      var meshCase := MeshTuple(stats[k].0, meshIndex);
      if meshCase.Err? {
        MarginalStep(stats, meshIndex, k);
        MarginalPrefixError(stats, meshIndex, k + 1);
        return Err(meshCase.error);
      }
      meshed := AddCount(meshed, meshCase.value, stats[k].1);
      MarginalStep(stats, meshIndex, k);
      k := k + 1;
    }
    assert stats[..k] == stats;
    r := Ok(meshed);
  }

  /** One more cell of the table: its projection is added into the marginal so far. */
  lemma MarginalStep(t: Table, idx: seq<nat>, k: nat)
    requires k < |t| && Marginal(t[..k], idx).Ok?
    ensures Project(t[k].0, idx).Err? ==> Marginal(t[..k + 1], idx) == Err(Project(t[k].0, idx).error)
    ensures Project(t[k].0, idx).Ok? ==>
      Marginal(t[..k + 1], idx) == Ok(Accumulate(Marginal(t[..k], idx).value, Project(t[k].0, idx).value, t[k].1))
  {
    assert t[..k + 1][..k] == t[..k];
  }

  /** `if case in M: M[case] += c` and `else: M[case] = c`: one accumulation. */
  method AddCount(m: Table, key: Tuple, c: nat) returns (r: Table)
    ensures r == Accumulate(m, key, c)
  {
    AccumulateIsPut(m, key, c);
    if key in Keys(m) {
      r := Put(m, key, Get(m, key).value + c);
    } else {
      r := Put(m, key, c);
    }
  }

  /** `Meshed_for_`: the histogram itself for no names, otherwise its marginal. */
  method MeshedFor(src: BinSource, vars: seq<string>) returns (r: Result<Table>)
    ensures r == Meshed(src, vars)
  {
    if vars == [] {
      return Ok(src.statistics);
    }
    var meshIndex := ResolveNames(src.variableNames, vars);
    if meshIndex.Err? {
      return Err(meshIndex.error);
    }
    r := CountProjections(src.statistics, meshIndex.value);
  }

  /** `Calculate_Total_Occurance`: the sum of the counts, or the ValueError for zero. */
  method CalculateTotalOccurance(t: Table) returns (r: Result<nat>)
    ensures r.Err? <==> Total(t) == 0
    ensures r.Err? ==> r.error == ZeroStat
    ensures r.Ok? ==> r.value == Total(t)
  {
    var total := 0;
    var k := 0;
    while k < |t|
      invariant 0 <= k <= |t|
      invariant total == Total(t[..k])
    {
      assert t[..k + 1][..k] == t[..k];
      total := total + t[k].1;
      k := k + 1;
    }
    assert t[..k] == t;
    if total == 0 {
      return Err(ZeroStat);
    }
    return Ok(total);
  }

  /** `Generate_Probability_Distribution_Function`: each count over the total, cell by cell. */
  method GeneratePdf(t: Table) returns (r: Result<Distribution>)
    requires Distinct(Keys(t))
    ensures r == Pdf(t)
  {
    var total := CalculateTotalOccurance(t);
    if total.Err? {
      return Err(total.error);
    }
    var pdf: Distribution := [];
    var k := 0;
    while k < |t|
      invariant 0 <= k <= |t|
      invariant pdf == Normalize(t[..k], total.value)
    {
      assert t[k].0 !in Keys(pdf) by {
        assert forall i :: 0 <= i < k ==> Keys(pdf)[i] == Keys(t)[i];
        assert Keys(t)[k] == t[k].0;
      }
      pdf := Put(pdf, t[k].0, t[k].1 as real / total.value as real);
      assert pdf == Normalize(t[..k + 1], total.value);
      k := k + 1;
    }
    assert t[..k] == t;
    return Ok(pdf);
  }

  /** `Generate_Desired_PDF`: the distribution of the marginal over `vars`. */
  method GenerateDesiredPdf(src: BinSource, vars: seq<string>) returns (r: Result<Distribution>)
    requires src.Valid()
    ensures r == DesiredPdf(src, vars)
  {
    var meshed := MeshedFor(src, vars);
    if meshed.Err? {
      return Err(meshed.error);
    }
    if vars != [] {
      MarginalTotal(src.statistics, MeshIndices(src.variableNames, vars).value);
    }
    r := GeneratePdf(meshed.value);
  }

  /** With no names the histogram is returned as it is; otherwise the marginal keeps
      the grand total, has no repeated cell, and counts in each cell exactly the
      cells that project onto it. */
  lemma MeshedProperties(src: BinSource, vars: seq<string>, key: Tuple)
    requires Meshed(src, vars).Ok? && vars != []
    ensures var idx := MeshIndices(src.variableNames, vars).value;
      var m := Meshed(src, vars).value;
      && Total(m) == Total(src.statistics)
      && Distinct(Keys(m))
      && |idx| == |vars|
      && Get(m, key) == if Projects(src.statistics, idx, key) then Some(ProjectedCount(src.statistics, idx, key)) else None
  {
    var idx := MeshIndices(src.variableNames, vars).value;
    MarginalTotal(src.statistics, idx);
    MarginalCounts(src.statistics, idx, key);
  }

  /** A name the source does not have is the ValueError raised by `index`. */
  lemma UnknownNameFails(src: BinSource, vars: seq<string>, j: nat)
    requires src.variableNames.Some? && j < |vars| && vars[j] !in src.variableNames.value
    ensures Meshed(src, vars).Err?
  {
  }

  /** A zero total is the ValueError instead of a distribution; otherwise the
      distribution has the marginal's cells and sums to one. */
  lemma DesiredPdfProperties(src: BinSource, vars: seq<string>)
    requires Meshed(src, vars).Ok?
    ensures Total(Meshed(src, vars).value) == 0 <==> DesiredPdf(src, vars) == Err(ZeroStat)
    ensures DesiredPdf(src, vars).Ok? ==>
      Keys(DesiredPdf(src, vars).value) == Keys(Meshed(src, vars).value) && Mass(DesiredPdf(src, vars).value) == 1.0
  {
    var m := Meshed(src, vars).value;
    if Total(m) > 0 {
      PdfProperties(m);
    }
  }
  /** Each coordinate is the first position of its name. */
  lemma {:induction false} MeshIndicesFirst(names: Option<seq<string>>, vars: seq<string>)
    requires MeshIndices(names, vars).Ok? && |vars| > 0
    ensures names.Some? && forall j :: 0 <= j < |vars| ==> IndexOf(names.value, vars[j]) == Ok(MeshIndices(names, vars).value[j])
    decreases |vars|
  {
    var front := vars[..|vars| - 1];
    if |front| > 0 {
      MeshIndicesFirst(names, front);
      assert forall j :: 0 <= j < |front| ==> vars[j] == front[j];
    }
  }

  /** Naming the first two variables the other way round exchanges their coordinates. */
  lemma MeshIndicesSwapped(names: Option<seq<string>>, vars: seq<string>)
    requires |vars| >= 2
    ensures MeshIndices(names, Swapped(vars)).Ok? <==> MeshIndices(names, vars).Ok?
    ensures MeshIndices(names, vars).Ok? ==>
      MeshIndices(names, Swapped(vars)).value == Swapped(MeshIndices(names, vars).value)
  {
    var sv := Swapped(vars);
    if MeshIndices(names, vars).Ok? {
      assert names.Some?;
      forall j | 0 <= j < |sv| ensures sv[j] in names.value {
        assert sv[j] == vars[if j == 0 then 1 else if j == 1 then 0 else j];
      }
      MeshIndicesFirst(names, vars);
      MeshIndicesFirst(names, sv);
      var a, b := MeshIndices(names, sv).value, MeshIndices(names, vars).value;
      forall j | 0 <= j < |a| ensures a[j] == Swapped(b)[j] {
        var i := if j == 0 then 1 else if j == 1 then 0 else j;
        assert sv[j] == vars[i] && Swapped(b)[j] == b[i];
      }
    } else if MeshIndices(names, sv).Ok? {
      assert names.Some?;
      forall j | 0 <= j < |vars| ensures vars[j] in names.value {
        assert vars[j] == sv[if j == 0 then 1 else if j == 1 then 0 else j];
      }
    }
  }

  /** The marginal over the first two variables named the other way round is the
      marginal with every cell's first two coordinates exchanged. */
  lemma MeshedSwapped(src: BinSource, vars: seq<string>)
    requires |vars| >= 2
    ensures Meshed(src, Swapped(vars)).Ok? <==> Meshed(src, vars).Ok?
    ensures Meshed(src, vars).Ok? ==> Meshed(src, Swapped(vars)).value == SwapKeys(Meshed(src, vars).value)
  {
    MeshIndicesSwapped(src.variableNames, vars);
    if MeshIndices(src.variableNames, vars).Ok? {
      MarginalSwapped(src.statistics, MeshIndices(src.variableNames, vars).value);
    }
  }
}
