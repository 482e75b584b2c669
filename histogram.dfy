/** Count histograms over tuples of discrete values, and the operations the binning
    estimators build on them: the full grid of cells, one-cell increments,
    projection onto a subset of coordinates, marginalisation and normalisation. */
module Histogram {
  import opened Wrappers
  import opened Dicts

  /** A cell of the histogram: one value per variable, in variable-name order. */
  type Tuple = seq<int>

  /** Counts per cell, in insertion order. */
  type Table = Dict<Tuple, nat>

  /** A probability per cell, in insertion order. */
  type Distribution = Dict<Tuple, real>

  // ---------------------------------------------------------------- totals

  /** The sum of all counts, accumulated front to back. */
  function Total(t: Table): nat {
    if |t| == 0 then 0 else Total(t[..|t| - 1]) + t[|t| - 1].1
  }

  lemma TotalAppend(t: Table, e: (Tuple, nat))
    ensures Total(t + [e]) == Total(t) + e.1
  {
    assert (t + [e])[..|t|] == t;
  }

  /** Replacing one count changes the total by the difference. */
  lemma {:induction false} TotalUpdate(t: Table, i: nat, e: (Tuple, nat))
    requires i < |t|
    ensures Total(t[i := e]) == Total(t) - t[i].1 + e.1
    decreases |t|
  {
    var u := t[i := e];
    if i == |t| - 1 {
      assert u[..|u| - 1] == t[..|t| - 1];
    } else {
      assert u[..|u| - 1] == t[..|t| - 1][i := e];
      TotalUpdate(t[..|t| - 1], i, e);
    }
  }

  /** No single count exceeds the total. */
  lemma {:induction false} CountAtMostTotal(t: Table, i: nat)
    requires i < |t|
    ensures t[i].1 <= Total(t)
    decreases |t|
  {
    if i < |t| - 1 {
      CountAtMostTotal(t[..|t| - 1], i);
    }
  }

  // ---------------------------------------------------------------- one-cell updates

  /** Assigning a cell changes the total by the difference with its old count. */
  lemma PutTotal(t: Table, k: Tuple, v: nat)
    ensures Total(Put(t, k, v)) == Total(t) - Get(t, k).GetOr(0) + v
  {
    var i := Find(t, k);
    if i.Some? {
      TotalUpdate(t, i.value, (k, v));
    } else {
      TotalAppend(t, (k, v));
    }
  }

  /** `t[k] = t[k] + c` when `k` is present, `t[k] = c` otherwise. */
  function Accumulate(t: Table, k: Tuple, c: nat): (r: Table)
    ensures Keys(r) == if k in Keys(t) then Keys(t) else Keys(t) + [k]
    ensures Get(r, k) == Some(Get(t, k).GetOr(0) + c)
    ensures forall j :: j != k ==> Get(r, j) == Get(t, j)
    ensures Total(r) == Total(t) + c
  {
    var v: nat := Get(t, k).GetOr(0) + c;
    PutOthers(t, k, v);
    PutTotal(t, k, v);
    Put(t, k, v)
  }

  lemma AccumulateIsPut(t: Table, k: Tuple, c: nat)
    ensures Accumulate(t, k, c) == Put(t, k, Get(t, k).GetOr(0) + c)
  {
  }

  /** `t[k] += 1`, which raises KeyError for a cell the table does not have. */
  function Increment(t: Table, k: Tuple): (r: Result<Table>)
    ensures r.Err? <==> k !in Keys(t)
    ensures r.Err? ==> r.error == MissingKey
    ensures r.Ok? ==> Keys(r.value) == Keys(t)
    ensures r.Ok? ==> Get(r.value, k) == Some(Get(t, k).value + 1)
    ensures r.Ok? ==> forall j :: j != k ==> Get(r.value, j) == Get(t, j)
    ensures r.Ok? ==> Total(r.value) == Total(t) + 1
  {
    if k in Keys(t) then Ok(Accumulate(t, k, 1)) else Err(MissingKey)
  }

  // ---------------------------------------------------------------- the grid of cells

  /** The tuples `(i0, ..., in-1)` with `0 <= ij < sizes[j]`, in lexicographic order:
      the order nested `for ij in range(sizes[j])` loops visit them. */
  function Grid(sizes: seq<int>): seq<Tuple>
    decreases |sizes|, 1
  {
    if |sizes| == 0 then [[]] else Blocks(sizes, if sizes[0] > 0 then sizes[0] else 0)
  }

  /** The first `n` blocks of `Grid(sizes)`: the cells whose first value is below `n`. */
  function Blocks(sizes: seq<int>, n: nat): seq<Tuple>
    requires |sizes| >= 1
    decreases |sizes|, 0, n
  {
    if n == 0 then [] else Blocks(sizes, n - 1) + PrefixAll([n - 1], Grid(sizes[1..]))
  }

  /** Every tuple of `s` with `p` in front. */
  function PrefixAll(p: Tuple, s: seq<Tuple>): (r: seq<Tuple>)
    ensures |r| == |s| && forall i :: 0 <= i < |s| ==> r[i] == p + s[i]
  {
    seq(|s|, i requires 0 <= i < |s| => p + s[i])
  }

  lemma PrefixAllAppend(p: Tuple, a: seq<Tuple>, b: seq<Tuple>)
    ensures PrefixAll(p, a + b) == PrefixAll(p, a) + PrefixAll(p, b)
  {
  }

  lemma PrefixAllNil(s: seq<Tuple>)
    ensures PrefixAll([], s) == s
  {
    forall i | 0 <= i < |s| ensures [] + s[i] == s[i] {
    }
  }

  lemma PrefixAllTwice(p: Tuple, q: Tuple, s: seq<Tuple>)
    ensures PrefixAll(p, PrefixAll(q, s)) == PrefixAll(p + q, s)
  {
    forall i | 0 <= i < |s| ensures p + (q + s[i]) == (p + q) + s[i] {
    }
  }

  /** `t` is a cell of the grid: one value per size, each in `range(size)`. */
  predicate InGrid(t: Tuple, sizes: seq<int>) {
    |t| == |sizes| && forall j :: 0 <= j < |t| ==> 0 <= t[j] < sizes[j]
  }

  /** `sizes` repeated: `n` coordinates of `q` values each. */
  function Repeat(q: int, n: nat): (r: seq<int>)
    ensures |r| == n && forall j :: 0 <= j < n ==> r[j] == q
  {
    seq(n, j => q)
  }

  lemma {:induction false} BlocksMembers(sizes: seq<int>, n: nat, t: Tuple)
    requires |sizes| >= 1
    ensures t in Blocks(sizes, n) <==> |t| >= 1 && 0 <= t[0] < n && t[1..] in Grid(sizes[1..])
    decreases n
  {
    if n > 0 {
      BlocksMembers(sizes, n - 1, t);
      var g := Grid(sizes[1..]);
      if t in PrefixAll([n - 1], g) {
        var i :| 0 <= i < |g| && PrefixAll([n - 1], g)[i] == t;
        assert t[1..] == g[i];
      }
      if |t| >= 1 && t[0] == n - 1 && t[1..] in g {
        var i :| 0 <= i < |g| && g[i] == t[1..];
        assert PrefixAll([n - 1], g)[i] == [n - 1] + t[1..] == t;
      }
    }
  }

  /** The grid holds exactly the tuples with one in-range value per size. */
  lemma {:induction false} GridMembers(sizes: seq<int>, t: Tuple)
    ensures t in Grid(sizes) <==> InGrid(t, sizes)
    decreases |sizes|
  {
    if |sizes| == 0 {
    } else {
      BlocksMembers(sizes, if sizes[0] > 0 then sizes[0] else 0, t);
      if |t| >= 1 {
        GridMembers(sizes[1..], t[1..]);
        assert InGrid(t, sizes) <==> 0 <= t[0] < sizes[0] && InGrid(t[1..], sizes[1..]) by {
          if InGrid(t[1..], sizes[1..]) && 0 <= t[0] < sizes[0] {
            forall j | 0 <= j < |t| ensures 0 <= t[j] < sizes[j] {
              if j > 0 {
                assert t[1..][j - 1] == t[j];
              }
            }
          }
          if InGrid(t, sizes) {
            forall j | 0 <= j < |t| - 1 ensures 0 <= t[1..][j] < sizes[1..][j] {
              assert t[1..][j] == t[j + 1];
            }
          }
        }
      }
    }
  }

  lemma {:induction false} BlocksDistinct(sizes: seq<int>, n: nat)
    requires |sizes| >= 1
    ensures Distinct(Blocks(sizes, n))
    ensures forall i :: 0 <= i < |Blocks(sizes, n)| ==> |Blocks(sizes, n)[i]| >= 1 && Blocks(sizes, n)[i][0] < n
    decreases |sizes|, 0, n
  {
    if n > 0 {
      BlocksDistinct(sizes, n - 1);
      GridDistinct(sizes[1..]);
      var a := Blocks(sizes, n - 1);
      var b := PrefixAll([n - 1], Grid(sizes[1..]));
      forall i, j | 0 <= i < j < |b| ensures b[i] != b[j] {
        assert b[i][1..] == Grid(sizes[1..])[i];
        assert b[j][1..] == Grid(sizes[1..])[j];
      }
    }
  }

  /** No cell of the grid appears twice. */
  lemma {:induction false} GridDistinct(sizes: seq<int>)
    ensures Distinct(Grid(sizes))
    decreases |sizes|, 1
  {
    if |sizes| > 0 {
      BlocksDistinct(sizes, if sizes[0] > 0 then sizes[0] else 0);
    }
  }

  // ---------------------------------------------------------------- projection and marginals

  /** `list.index`: the first position of `v`, or the ValueError naming it. */
  function IndexOf(names: seq<string>, v: string): (r: Result<nat>)
    ensures r.Ok? ==> r.value < |names| && names[r.value] == v
    ensures r.Ok? ==> forall j :: 0 <= j < r.value ==> names[j] != v
    ensures r.Err? <==> v !in names
    ensures r.Err? ==> r.error == UnknownVariable(v)
  {
    if |names| == 0 then Err(UnknownVariable(v))
    else if names[0] == v then Ok(0)
    else
      var rest := IndexOf(names[1..], v);
      assert forall j :: 1 <= j < |names| ==> names[1..][j - 1] == names[j];
      assert names == [names[0]] + names[1..];
      if rest.Ok? then Ok(rest.value + 1) else rest
  }

  /** The tuple of the coordinates at `idx`, in that order; an index past the tuple is an IndexError. */
  function Project(raw: Tuple, idx: seq<nat>): (r: Result<Tuple>)
    ensures r.Ok? <==> forall j :: 0 <= j < |idx| ==> idx[j] < |raw|
    ensures r.Err? ==> r.error == IndexOutOfRange
    ensures r.Ok? ==> |r.value| == |idx| && forall j :: 0 <= j < |idx| ==> r.value[j] == raw[idx[j]]
  {
    if |idx| == 0 then Ok([])
    else
      var front := Project(raw, idx[..|idx| - 1]);
      if front.Err? then front
      else if idx[|idx| - 1] < |raw| then Ok(front.value + [raw[idx[|idx| - 1]]])
      else Err(IndexOutOfRange)
  }

  /** The histogram of the projections onto `idx`: each projected cell collects the
      counts of the cells that project to it, in first-occurrence order. */
  function Marginal(t: Table, idx: seq<nat>): Result<Table>
  {
    if |t| == 0 then Ok([])
    else
      var m :- Marginal(t[..|t| - 1], idx);
      var key :- Project(t[|t| - 1].0, idx);
      Ok(Accumulate(m, key, t[|t| - 1].1))
  }

  /** Every cell of `t` projects onto `idx`. */
  predicate AllProject(t: Table, idx: seq<nat>) {
    forall i :: 0 <= i < |t| ==> Project(t[i].0, idx).Ok?
  }

  /** Marginalising only fails on a projection that fails. */
  lemma {:induction false} MarginalDefined(t: Table, idx: seq<nat>)
    ensures Marginal(t, idx).Ok? <==> AllProject(t, idx)
    decreases |t|
  {
    if |t| > 0 {
      var p := t[..|t| - 1];
      MarginalDefined(p, idx);
      MarginalLast(t, idx);
      AllProjectLast(t, idx);
    }
  }

  lemma MarginalLast(t: Table, idx: seq<nat>)
    requires |t| > 0
    ensures Marginal(t, idx).Ok? <==> Marginal(t[..|t| - 1], idx).Ok? && Project(t[|t| - 1].0, idx).Ok?
  {
  }

  lemma AllProjectLast(t: Table, idx: seq<nat>)
    requires |t| > 0
    ensures AllProject(t, idx) <==> AllProject(t[..|t| - 1], idx) && Project(t[|t| - 1].0, idx).Ok?
  {
    var p := t[..|t| - 1];
    assert forall i :: 0 <= i < |p| ==> p[i] == t[i];
  }

  /** The only way a marginal fails is a coordinate out of range. */
  lemma {:induction false} MarginalError(t: Table, idx: seq<nat>)
    ensures Marginal(t, idx).Err? ==> Marginal(t, idx).error == IndexOutOfRange
  {
    if |t| > 0 {
      MarginalError(t[..|t| - 1], idx);
    }
  }

  /** Marginalising keeps the grand total and produces no repeated cell. */
  lemma {:induction false} MarginalTotal(t: Table, idx: seq<nat>)
    requires Marginal(t, idx).Ok?
    ensures Total(Marginal(t, idx).value) == Total(t)
    ensures Distinct(Keys(Marginal(t, idx).value))
    decreases |t|
  {
    if |t| > 0 {
      MarginalLast(t, idx);
      var m := Marginal(t[..|t| - 1], idx).value;
      MarginalTotal(t[..|t| - 1], idx);
      var key := Project(t[|t| - 1].0, idx).value;
      var c := t[|t| - 1].1;
      assert Marginal(t, idx).value == Accumulate(m, key, c);
      AccumulateIsPut(m, key, c);
      PutDistinct(m, key, Get(m, key).GetOr(0) + c);
    }
  }

  /** The summed counts of the cells of `t` whose projection onto `idx` is `key`. */
  function ProjectedCount(t: Table, idx: seq<nat>, key: Tuple): nat {
    if |t| == 0 then 0
    else ProjectedCount(t[..|t| - 1], idx, key) + (if Project(t[|t| - 1].0, idx) == Ok(key) then t[|t| - 1].1 else 0)
  }

  /** Some cell of `t` projects onto `key`. */
  predicate Projects(t: Table, idx: seq<nat>, key: Tuple) {
    exists i :: 0 <= i < |t| && Project(t[i].0, idx) == Ok(key)
  }

  lemma ProjectsLast(t: Table, idx: seq<nat>, key: Tuple)
    requires |t| > 0
    ensures Projects(t, idx, key) <==> Projects(t[..|t| - 1], idx, key) || Project(t[|t| - 1].0, idx) == Ok(key)
  {
    var p := t[..|t| - 1];
    if Projects(t, idx, key) {
      var i :| 0 <= i < |t| && Project(t[i].0, idx) == Ok(key);
      if i < |p| {
        assert p[i] == t[i];
      }
    }
    if Projects(p, idx, key) {
      var i :| 0 <= i < |p| && Project(p[i].0, idx) == Ok(key);
      assert p[i] == t[i];
    }
  }

  lemma {:induction false} UnprojectedCount(t: Table, idx: seq<nat>, key: Tuple)
    requires !Projects(t, idx, key)
    ensures ProjectedCount(t, idx, key) == 0
    decreases |t|
  {
    if |t| > 0 {
      ProjectsLast(t, idx, key);
      UnprojectedCount(t[..|t| - 1], idx, key);
    }
  }

  /** Each marginal cell is a projection of some cell, every projection is a marginal cell,
      and its count is the sum of the counts projecting onto it. */
  lemma {:induction false} MarginalCounts(t: Table, idx: seq<nat>, key: Tuple)
    requires Marginal(t, idx).Ok?
    ensures key in Keys(Marginal(t, idx).value) <==> Projects(t, idx, key)
    ensures Get(Marginal(t, idx).value, key) == if Projects(t, idx, key) then Some(ProjectedCount(t, idx, key)) else None
    decreases |t|
  {
    if |t| > 0 {
      MarginalLast(t, idx);
      MarginalCounts(t[..|t| - 1], idx, key);
      ProjectsLast(t, idx, key);
      MarginalCountsStep(t, idx, key);
    }
  }

  /** The counts of one more cell: its projection gains its count. */
  lemma MarginalCountsStep(t: Table, idx: seq<nat>, key: Tuple)
    requires |t| > 0 && Marginal(t, idx).Ok?
    requires var p := t[..|t| - 1];
      && Marginal(p, idx).Ok?
      && (key in Keys(Marginal(p, idx).value) <==> Projects(p, idx, key))
      && Get(Marginal(p, idx).value, key) == (if Projects(p, idx, key) then Some(ProjectedCount(p, idx, key)) else None)
      && (Projects(t, idx, key) <==> Projects(p, idx, key) || Project(t[|t| - 1].0, idx) == Ok(key))
    ensures key in Keys(Marginal(t, idx).value) <==> Projects(t, idx, key)
    ensures Get(Marginal(t, idx).value, key) == if Projects(t, idx, key) then Some(ProjectedCount(t, idx, key)) else None
  {
    var p := t[..|t| - 1];
    var m := Marginal(p, idx).value;
    var last := Project(t[|t| - 1].0, idx).value;
    var c := t[|t| - 1].1;
    assert Marginal(t, idx).value == Accumulate(m, last, c);
    ProjectedCountLast(t, idx, key);
    if !Projects(p, idx, key) {
      UnprojectedCount(p, idx, key);
    }
    CountStep(m, last, c, key, Projects(p, idx, key), ProjectedCount(p, idx, key), Projects(t, idx, key), ProjectedCount(t, idx, key));
  }

  /** The bookkeeping of one accumulation, seen from one cell `key`: it is present
      afterwards when it was before or is the cell accumulated into, and its count
      grows by `c` exactly in the second case. */
  lemma CountStep(m: Table, last: Tuple, c: nat, key: Tuple, before: bool, n: nat, after: bool, n': nat)
    requires key in Keys(m) <==> before
    requires Get(m, key) == if before then Some(n) else None
    requires !before ==> n == 0
    requires after <==> before || last == key
    requires n' == n + if last == key then c else 0
    ensures key in Keys(Accumulate(m, last, c)) <==> after
    ensures Get(Accumulate(m, last, c), key) == if after then Some(n') else None
  {
    if key == last {
      AccumulateHit(m, key, c, n);
    } else {
      AccumulateMiss(m, last, c, key);
    }
  }

  lemma ProjectedCountLast(t: Table, idx: seq<nat>, key: Tuple)
    requires |t| > 0
    ensures ProjectedCount(t, idx, key) ==
      ProjectedCount(t[..|t| - 1], idx, key) + (if Project(t[|t| - 1].0, idx) == Ok(key) then t[|t| - 1].1 else 0)
  {
  }

  /** Accumulating into a cell adds to what it held. */
  lemma AccumulateHit(m: Table, key: Tuple, c: nat, before: nat)
    requires Get(m, key).GetOr(0) == before
    ensures key in Keys(Accumulate(m, key, c)) && Get(Accumulate(m, key, c), key) == Some(before + c)
  {
    GetIn(Accumulate(m, key, c), key);
  }

  /** Accumulating into another cell changes nothing here. */
  lemma AccumulateMiss(m: Table, k: Tuple, c: nat, key: Tuple)
    requires key != k
    ensures (key in Keys(Accumulate(m, k, c)) <==> key in Keys(m)) && Get(Accumulate(m, k, c), key) == Get(m, key)
  {
  }

  // ---------------------------------------------------------------- normalisation

  /** Every count divided by `total`, cell by cell. */
  function Normalize(t: Table, total: nat): (r: Distribution)
    requires total > 0
    ensures Keys(r) == Keys(t)
    ensures forall i :: 0 <= i < |t| ==> r[i].1 == t[i].1 as real / total as real
  {
    seq(|t|, i requires 0 <= i < |t| => (t[i].0, t[i].1 as real / total as real))
  }

  /** The probability distribution of a histogram: ValueError on a zero total. */
  function Pdf(t: Table): (r: Result<Distribution>)
    ensures r.Err? <==> Total(t) == 0
    ensures r.Err? ==> r.error == ZeroStat
  {
    if Total(t) == 0 then Err(ZeroStat) else Ok(Normalize(t, Total(t)))
  }

  /** The sum of the probabilities, accumulated front to back over the reals. */
  function Mass(p: Distribution): real {
    if |p| == 0 then 0.0 else Mass(p[..|p| - 1]) + p[|p| - 1].1
  }

  lemma {:induction false} MassNormalized(t: Table, total: nat)
    requires total > 0
    ensures Mass(Normalize(t, total)) == Total(t) as real / total as real
    decreases |t|
  {
    if |t| > 0 {
      var n := |t| - 1;
      var p := Normalize(t, total);
      assert p[..n] == Normalize(t[..n], total);
      MassNormalized(t[..n], total);
      assert Mass(p) == Mass(p[..n]) + p[n].1;
      assert Total(t) == Total(t[..n]) + t[n].1;
      DivideSum(Total(t[..n]) as real, t[n].1 as real, total as real);
    }
  }

  lemma DivideSum(a: real, b: real, d: real)
    requires d > 0.0
    ensures (a + b) / d == a / d + b / d
  {
  }

  lemma RatioInUnit(c: nat, total: nat)
    requires 0 < total && c <= total
    ensures 0.0 <= c as real / total as real <= 1.0
  {
  }

  /** A histogram with a non-zero total normalises to the same cells, each
      probability is its count over the total, lies in [0, 1], and they sum to 1. */
  lemma NormalizeInUnit(t: Table, total: nat)
    requires total == Total(t) > 0
    ensures forall i :: 0 <= i < |t| ==> 0.0 <= Normalize(t, total)[i].1 <= 1.0
  {
    forall i | 0 <= i < |t| ensures 0.0 <= Normalize(t, total)[i].1 <= 1.0 {
      CountAtMostTotal(t, i);
      RatioInUnit(t[i].1, total);
    }
  }

  lemma PdfProperties(t: Table)
    requires Total(t) > 0
    ensures Pdf(t).Ok? && Keys(Pdf(t).value) == Keys(t)
    ensures forall i :: 0 <= i < |t| ==> Pdf(t).value[i].1 == t[i].1 as real / Total(t) as real
    ensures forall i :: 0 <= i < |t| ==> 0.0 <= Pdf(t).value[i].1 <= 1.0
    ensures Mass(Pdf(t).value) == 1.0
  {
    var total := Total(t);
    assert Pdf(t) == Ok(Normalize(t, total));
    NormalizeInUnit(t, total);
    MassNormalized(t, total);
    SelfRatio(total);
  }

  lemma SelfRatio(n: nat)
    requires n > 0
    ensures n as real / n as real == 1.0
  {
  }

  // ---------------------------------------------------------------- a reset histogram

  /** A table whose counts are all zero has total zero. */
  lemma {:induction false} ZeroCounts(t: Table)
    requires forall i :: 0 <= i < |t| ==> t[i].1 == 0
    ensures Total(t) == 0
    decreases |t|
  {
    if |t| > 0 {
      ZeroCounts(t[..|t| - 1]);
    }
  }

  /** Zeroing a list of cells in a table whose cells all lie among them leaves a
      table with total zero: re-initialising a histogram over its own grid starts
      the ensemble from no counts at all. */
  lemma ZeroedTotal(t: Table, cells: seq<Tuple>)
    requires Distinct(Keys(t)) && forall i :: 0 <= i < |t| ==> t[i].0 in cells
    ensures Total(PutAll(t, cells, 0)) == 0
  {
    var z := PutAll(t, cells, 0);
    PutAllSpec(t, cells, 0);
    forall i | 0 <= i < |z| ensures z[i].1 == 0 {
      ZeroedCell(t, cells, z, i);
    }
    ZeroCounts(z);
  }

  /** One entry of such a zeroed table. */
  lemma ZeroedCell(t: Table, cells: seq<Tuple>, z: Table, i: nat)
    requires forall i :: 0 <= i < |t| ==> t[i].0 in cells
    requires Distinct(Keys(z)) && i < |z|
    requires forall k :: k in Keys(z) <==> k in Keys(t) || k in cells
    requires forall k :: k in cells ==> Get(z, k) == Some(0)
    ensures z[i].1 == 0
  {
    var k := z[i].0;
    assert Keys(z)[i] == k;
    FindDistinct(z, i);
  }
  // ---------------------------------------------------------------- exchanging two variables

  /** The first two elements exchanged. */
  function Swapped<T>(s: seq<T>): (r: seq<T>)
    ensures |r| == |s|
  {
    if |s| < 2 then s else [s[1], s[0]] + s[2..]
  }

  lemma SwappedTwice<T>(s: seq<T>)
    ensures Swapped(Swapped(s)) == s
  {
    if |s| >= 2 {
      assert Swapped(s)[2..] == s[2..];
    }
  }

  /** Every cell with its first two coordinates exchanged, in the same order. */
  function SwapKeys<V>(d: Dict<Tuple, V>): (r: Dict<Tuple, V>)
    ensures |r| == |d| && forall i :: 0 <= i < |d| ==> r[i] == (Swapped(d[i].0), d[i].1)
  {
    seq(|d|, i requires 0 <= i < |d| => (Swapped(d[i].0), d[i].1))
  }

  /** Exchanging coordinates keeps every cell where it was. */
  lemma FindSwapped<V>(d: Dict<Tuple, V>, k: Tuple)
    ensures Find(SwapKeys(d), Swapped(k)) == Find(d, k)
  {
    var e := SwapKeys(d);
    SwappedTwice(k);
    forall j | 0 <= j < |d| && Swapped(d[j].0) == Swapped(k) ensures d[j].0 == k {
      SwappedTwice(d[j].0);
    }
    match Find(d, k)
    case Some(p) =>
      FindAt(e, Swapped(k), p);
    case None =>
      forall j | 0 <= j < |e| ensures Keys(e)[j] != Swapped(k) {
        assert Keys(d)[j] == d[j].0;
      }
  }

  /** Assigning the exchanged cell of the exchanged table is exchanging the assigned table. */
  lemma PutSwapped<V>(d: Dict<Tuple, V>, k: Tuple, v: V)
    ensures Put(SwapKeys(d), Swapped(k), v) == SwapKeys(Put(d, k, v))
  {
    var e := SwapKeys(d);
    FindSwapped(d, k);
    match Find(d, k)
    case Some(p) =>
      assert Put(e, Swapped(k), v) == e[p := (Swapped(k), v)];
      assert Put(d, k, v) == d[p := (k, v)];
      assert e[p := (Swapped(k), v)] == SwapKeys(d[p := (k, v)]);
    case None =>
      assert Put(e, Swapped(k), v) == e + [(Swapped(k), v)];
      assert Put(d, k, v) == d + [(k, v)];
      assert e + [(Swapped(k), v)] == SwapKeys(d + [(k, v)]);
  }

  lemma AccumulateWith(t: Table, k: Tuple, c: nat, v: nat)
    requires v == Get(t, k).GetOr(0) + c
    ensures Accumulate(t, k, c) == Put(t, k, v)
  {
  }

  /** Accumulating into the exchanged cell of the exchanged table is exchanging the
      accumulated table. */
  lemma AccumulateSwapped(m: Table, key: Tuple, c: nat)
    ensures Accumulate(SwapKeys(m), Swapped(key), c) == SwapKeys(Accumulate(m, key, c))
  {
    var e, k := SwapKeys(m), Swapped(key);
    var v: nat := Get(m, key).GetOr(0) + c;
    FindSwapped(m, key);
    assert Get(e, k) == Get(m, key);
    calc {
      Accumulate(e, k, c);
      == { AccumulateWith(e, k, c, v); }
      Put(e, k, v);
      == { PutSwapped(m, key, v); }
      SwapKeys(Put(m, key, v));
      == { AccumulateWith(m, key, c, v); }
      SwapKeys(Accumulate(m, key, c));
    }
  }

  /** Projecting onto exchanged indices exchanges the projection. */
  lemma ProjectSwapped(raw: Tuple, idx: seq<nat>)
    ensures Project(raw, Swapped(idx)) == match Project(raw, idx)
      case Ok(k) => Ok(Swapped(k))
      case Err(e) => Err(e)
  {
    var si := Swapped(idx);
    if |idx| >= 2 {
      assert forall j :: 0 <= j < |idx| ==> idx[j] in si;
      assert forall j :: 0 <= j < |si| ==> si[j] in idx;
    }
    var a, b := Project(raw, si), Project(raw, idx);
    if a.Ok? && b.Ok? && |idx| >= 2 {
      assert a.value == Swapped(b.value);
    }
  }

  /** The marginal onto exchanged indices is the marginal with its cells exchanged,
      cell for cell and in the same order. */
  lemma {:induction false} MarginalSwapped(t: Table, idx: seq<nat>)
    ensures Marginal(t, Swapped(idx)) == match Marginal(t, idx)
      case Ok(m) => Ok(SwapKeys(m))
      case Err(e) => Err(e)
    decreases |t|
  {
    if |t| > 0 {
      var p := t[..|t| - 1];
      MarginalSwapped(p, idx);
      ProjectSwapped(t[|t| - 1].0, idx);
      if Marginal(p, idx).Ok? && Project(t[|t| - 1].0, idx).Ok? {
        AccumulateSwapped(Marginal(p, idx).value, Project(t[|t| - 1].0, idx).value, t[|t| - 1].1);
      }
    }
  }

  lemma {:induction false} TotalSwapped(t: Table)
    ensures Total(SwapKeys(t)) == Total(t)
    decreases |t|
  {
    if |t| > 0 {
      assert SwapKeys(t)[..|t| - 1] == SwapKeys(t[..|t| - 1]);
      TotalSwapped(t[..|t| - 1]);
    }
  }

  /** The distribution of the exchanged table is the exchanged distribution. */
  lemma PdfSwapped(t: Table)
    ensures Pdf(SwapKeys(t)) == match Pdf(t)
      case Ok(p) => Ok(SwapKeys(p))
      case Err(e) => Err(e)
  {
    TotalSwapped(t);
    if Total(t) > 0 {
      assert Normalize(SwapKeys(t), Total(t)) == SwapKeys(Normalize(t, Total(t)));
    }
  }

}
