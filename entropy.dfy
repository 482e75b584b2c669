/** The identity-based entropy engine of the binning estimator. Only the entropy
    of a marginal distribution needs the logarithm; conditional entropy, mutual
    information and multiple mutual information are fixed compositions of
    entropies. The logarithm is a parameter `ln`, so every identity below holds
    whatever `ln` is; the facts that need its sign say so in their requires. */
module EntropyMeasures {
  import opened Wrappers
  import opened Dicts
  import opened Histogram
  import opened FromSimpleBin

  /** The contribution of one cell: `-p ln p`, and nothing for `p == 0`. */
  function Term(p: real, ln: real -> real): real {
    if p != 0.0 then -(p * ln(p)) else 0.0
  }

  /** `-Σ p ln p` over the cells of `pdf`, in iteration order. */
  function EntropySum(pdf: Distribution, ln: real -> real): real {
    if |pdf| == 0 then 0.0 else EntropySum(pdf[..|pdf| - 1], ln) + Term(pdf[|pdf| - 1].1, ln)
  }

  /** `Entropy(For)`: the entropy of the distribution of `vars`. */
  function H(src: BinSource, vars: seq<string>, ln: real -> real): (r: Result<real>)
    ensures r.Err? <==> DesiredPdf(src, vars).Err?
  {
    var pdf :- DesiredPdf(src, vars);
    Ok(EntropySum(pdf, ln))
  }

  /** `Conditional_Entropy(For, Known)`: H(For) without a condition, otherwise
      H(For + Known) - H(Known), with H(Known) evaluated first. */
  function ConditionalEntropy(src: BinSource, vars: seq<string>, known: seq<string>, ln: real -> real): Result<real> {
    if |known| == 0 then H(src, vars, ln)
    else
      var hx :- H(src, known, ln);
      var hxy :- H(src, vars + known, ln);
      Ok(hxy - hx)
  }

  /** `Mutual_Information(For, Known)`: CE(For[0]|K) + CE(For[1]|K) - CE(For|K).
      `For[1]` is only read after the first conditional entropy is computed. */
  function MutualInformation(src: BinSource, vars: seq<string>, known: seq<string>, ln: real -> real): Result<real> {
    if |vars| == 0 then Err(IndexOutOfRange)
    else
      var hx :- ConditionalEntropy(src, [vars[0]], known, ln);
      if |vars| < 2 then Err(IndexOutOfRange)
      else
        var hy :- ConditionalEntropy(src, [vars[1]], known, ln);
        var hxy :- ConditionalEntropy(src, vars, known, ln);
        Ok(hx + hy - hxy)
  }

  /** `For[:-1]`. */
  function DropLast(s: seq<string>): (r: seq<string>)
    ensures |r| == if |s| == 0 then 0 else |s| - 1
    ensures |s| > 0 ==> r == s[..|s| - 1]
  {
    if |s| == 0 then [] else s[..|s| - 1]
  }

  /** `_Recursive_Calculation(Order, For, Known)`. At order 2 it is the difference of
      two mutual informations; above it, the difference of two calls one order
      lower on `For[:-1]`, unconditioned and conditioned on `For[-1]`; the left
      call is evaluated before `For[-1]` is read. Below order 2 the Python
      recursion never reaches its base case, which ends in a RecursionError. */
  function RecursiveCalculation(src: BinSource, order: int, vars: seq<string>, known: seq<string>, ln: real -> real): Result<real>
    decreases if order > 2 then order else 0
  {
    if order < 2 then Err(RecursionLimit)
    else if order == 2 then
      Minus(MutualInformation(src, DropLast(vars), known, ln),
            if |vars| == 0 then Err(IndexOutOfRange) else MutualInformation(src, DropLast(vars), known + [vars[|vars| - 1]], ln))
    else
      Minus(RecursiveCalculation(src, order - 1, DropLast(vars), known, ln),
            if |vars| == 0 then Err(IndexOutOfRange) else RecursiveCalculation(src, order - 1, DropLast(vars), known + [vars[|vars| - 1]], ln))
  }

  /** `Multiple_Mutual_Information(For, Known)`: the recursion at order `len(For) - 1`. */
  function MultipleMutualInformation(src: BinSource, vars: seq<string>, known: seq<string>, ln: real -> real): Result<real> {
    RecursiveCalculation(src, |vars| - 1, vars, known, ln)
  }

  /** The accumulation loop of `Entropy`: subtract `p ln p` for every nonzero cell. */
  method SumEntropy(pdf: Distribution, ln: real -> real) returns (value: real)
    ensures value == EntropySum(pdf, ln)
  {
    value := 0.0;
    var k := 0;
    while k < |pdf|
      invariant 0 <= k <= |pdf|
      invariant value == EntropySum(pdf[..k], ln)
    {
      assert pdf[..k + 1][..k] == pdf[..k];
      var p := pdf[k].1;
      if p != 0.0 {
        value := value - p * ln(p);
      }
      k := k + 1;
    }
    assert pdf[..k] == pdf;
  }

  /** The `Entropy` object: the distribution it was built on and the value that
      `Calculate_Entropy` leaves in it. */
  class Entropy {
    const pdf: Distribution
    var value: real

    /** `Entropy(Source_Statistics, For)` once the distribution has been built. */
    constructor FromPdf(pdf: Distribution, ln: real -> real)
      ensures this.pdf == pdf && value == EntropySum(pdf, ln)
    {
      this.pdf := pdf;
      value := 0.0;
      new;
      CalculateEntropy(ln);
    }

    /** `Calculate_Entropy`: recompute the value from the distribution. */
    method CalculateEntropy(ln: real -> real)
      modifies this
      ensures value == EntropySum(pdf, ln)
    {
      value := SumEntropy(pdf, ln);
    }
  }

  /** Building an `Entropy` object: the distribution of `vars` must exist, and the
      object then holds its entropy. */
  method NewEntropy(src: BinSource, vars: seq<string>, ln: real -> real) returns (r: Result<Entropy>)
    requires src.Valid()
    ensures r.Err? <==> H(src, vars, ln).Err?
    ensures r.Err? ==> r.error == H(src, vars, ln).error
    ensures r.Ok? ==> fresh(r.value) && r.value.value == H(src, vars, ln).value
  {
    var pdf := GenerateDesiredPdf(src, vars);
    if pdf.Err? {
      return Err(pdf.error);
    }
    var e := new Entropy.FromPdf(pdf.value, ln);
    return Ok(e);
  }

  // ----- Entropy of a distribution -----

  lemma {:induction false} EntropySumAppend(a: Distribution, b: Distribution, ln: real -> real)
    ensures EntropySum(a + b, ln) == EntropySum(a, ln) + EntropySum(b, ln)
    decreases |b|
  {
    if |b| == 0 {
      assert a + b == a;
    } else {
      var b' := b[..|b| - 1];
      assert (a + b)[..|a + b| - 1] == a + b';
      EntropySumAppend(a, b', ln);
    }
  }

  /** A cell of probability zero contributes nothing, wherever it sits. */
  lemma ZeroCellContributesNothing(a: Distribution, k: Tuple, b: Distribution, ln: real -> real)
    ensures EntropySum(a + [(k, 0.0)] + b, ln) == EntropySum(a + b, ln)
  {
    EntropySumAppend(a + [(k, 0.0)], b, ln);
    EntropySumAppend(a, [(k, 0.0)], ln);
    EntropySumAppend(a, b, ln);
    assert [(k, 0.0)][..0] == [];
  }

  lemma TermNonNegative(p: real, ln: real -> real)
    requires 0.0 <= p <= 1.0
    requires p > 0.0 ==> ln(p) <= 0.0
    ensures Term(p, ln) >= 0.0
  {
    if p > 0.0 {
      assert p * ln(p) <= 0.0;
    }
  }

  /** With probabilities in [0, 1] and a logarithm that is not positive on (0, 1],
      the entropy is not negative. */
  lemma {:induction false} EntropyNonNegative(pdf: Distribution, ln: real -> real)
    requires forall i :: 0 <= i < |pdf| ==> 0.0 <= pdf[i].1 <= 1.0
    requires forall x: real :: 0.0 < x <= 1.0 ==> ln(x) <= 0.0
    ensures EntropySum(pdf, ln) >= 0.0
    decreases |pdf|
  {
    if |pdf| > 0 {
      var front := pdf[..|pdf| - 1];
      assert forall i :: 0 <= i < |front| ==> front[i] == pdf[i];
      EntropyNonNegative(front, ln);
      TermNonNegative(pdf[|pdf| - 1].1, ln);
    }
  }

  /** A distribution whose every probability is 0 or 1 has zero entropy when ln 1 = 0. */
  lemma {:induction false} CertainOutcome(pdf: Distribution, ln: real -> real)
    requires forall i :: 0 <= i < |pdf| ==> pdf[i].1 == 0.0 || pdf[i].1 == 1.0
    requires ln(1.0) == 0.0
    ensures EntropySum(pdf, ln) == 0.0
    decreases |pdf|
  {
    if |pdf| > 0 {
      var front := pdf[..|pdf| - 1];
      assert forall i :: 0 <= i < |front| ==> front[i] == pdf[i];
      CertainOutcome(front, ln);
    }
  }

  /** The entropy of any marginal is not negative when ln is not positive on (0, 1]. */
  lemma HNonNegative(src: BinSource, vars: seq<string>, ln: real -> real)
    requires H(src, vars, ln).Ok?
    requires forall x: real :: 0.0 < x <= 1.0 ==> ln(x) <= 0.0
    ensures H(src, vars, ln).value >= 0.0
  {
    var m := Meshed(src, vars).value;
    PdfProperties(m);
    var pdf := Pdf(m).value;
    assert |pdf| == |Keys(pdf)| == |Keys(m)| == |m|;
    EntropyNonNegative(pdf, ln);
  }

  // ----- Compositions -----

  /** Without a condition, the conditional entropy is the entropy. */
  lemma ConditionalEntropyUnconditioned(src: BinSource, vars: seq<string>, ln: real -> real)
    ensures ConditionalEntropy(src, vars, [], ln) == H(src, vars, ln)
  {
  }

  /** With a condition, H(For | Known) + H(Known) = H(For + Known) whenever both
      entropies exist, and the conditional entropy fails exactly when one of them does.
      This holds by the definition of `ConditionalEntropy`, which is how the source
      computes it; it records the identity, not an independent theorem. */
  lemma ChainRule(src: BinSource, vars: seq<string>, known: seq<string>, ln: real -> real)
    requires |known| > 0
    ensures ConditionalEntropy(src, vars, known, ln).Ok? <==> H(src, known, ln).Ok? && H(src, vars + known, ln).Ok?
    ensures ConditionalEntropy(src, vars, known, ln).Ok? ==>
      ConditionalEntropy(src, vars, known, ln).value + H(src, known, ln).value == H(src, vars + known, ln).value
    ensures H(src, known, ln).Err? ==> ConditionalEntropy(src, vars, known, ln) == H(src, known, ln)
  {
  }

  /** The mutual information of two or more variables is the stated combination of
      conditional entropies, and fails exactly when one of them does; with fewer
      than two variables reading `For[1]` fails unless an earlier step failed first.
      This unfolds the definition of `MutualInformation`; its independent partner is
      `MutualInformationSymmetric`. */
  lemma MutualInformationCases(src: BinSource, vars: seq<string>, known: seq<string>, ln: real -> real)
    ensures |vars| == 0 ==> MutualInformation(src, vars, known, ln) == Err(IndexOutOfRange)
    ensures |vars| == 1 ==>
      MutualInformation(src, vars, known, ln) ==
        if ConditionalEntropy(src, [vars[0]], known, ln).Err? then ConditionalEntropy(src, [vars[0]], known, ln)
        else Err(IndexOutOfRange)
    ensures |vars| >= 2 ==> (MutualInformation(src, vars, known, ln).Ok? <==>
      ConditionalEntropy(src, [vars[0]], known, ln).Ok? && ConditionalEntropy(src, [vars[1]], known, ln).Ok? &&
      ConditionalEntropy(src, vars, known, ln).Ok?)
    ensures |vars| >= 2 && MutualInformation(src, vars, known, ln).Ok? ==>
      MutualInformation(src, vars, known, ln).value ==
      ConditionalEntropy(src, [vars[0]], known, ln).value + ConditionalEntropy(src, [vars[1]], known, ln).value
      - ConditionalEntropy(src, vars, known, ln).value
  {
  }

  /** Fewer than three variables never reach the base case. */
  lemma MultipleMutualInformationShort(src: BinSource, vars: seq<string>, known: seq<string>, ln: real -> real)
    requires |vars| < 3
    ensures MultipleMutualInformation(src, vars, known, ln) == Err(RecursionLimit)
  {
  }

  /** Three variables are the base case: the mutual information of the first two,
      minus the same conditioned also on the third. */
  lemma MultipleMutualInformationBase(src: BinSource, vars: seq<string>, known: seq<string>, ln: real -> real)
    requires |vars| == 3
    ensures MultipleMutualInformation(src, vars, known, ln) ==
      Minus(MutualInformation(src, vars[..2], known, ln), MutualInformation(src, vars[..2], known + [vars[2]], ln))
  {
    assert DropLast(vars) == vars[..2];
  }

  /** Above three variables each step drops the last variable and lowers the order by
      one, so `len(For) = Order + 1` is kept: the recursion is the multiple mutual
      information of `For[:-1]`, minus the same conditioned on `For[-1]`. */
  lemma MultipleMutualInformationStep(src: BinSource, vars: seq<string>, known: seq<string>, ln: real -> real)
    requires |vars| > 3
    ensures MultipleMutualInformation(src, vars, known, ln) ==
      Minus(MultipleMutualInformation(src, vars[..|vars| - 1], known, ln),
            MultipleMutualInformation(src, vars[..|vars| - 1], known + [vars[|vars| - 1]], ln))
  {
  }

  /** The errors an entropy can raise: none of them is a RecursionError. */
  lemma HNotRecursion(src: BinSource, vars: seq<string>, ln: real -> real)
    ensures H(src, vars, ln) != Err(RecursionLimit)
  {
    if vars != [] && MeshIndices(src.variableNames, vars).Ok? {
      MarginalError(src.statistics, MeshIndices(src.variableNames, vars).value);
    }
    if Meshed(src, vars).Ok? {
      assert Pdf(Meshed(src, vars).value).Err? ==> Pdf(Meshed(src, vars).value).error == ZeroStat;
    }
  }

  lemma ConditionalEntropyNotRecursion(src: BinSource, vars: seq<string>, known: seq<string>, ln: real -> real)
    ensures ConditionalEntropy(src, vars, known, ln) != Err(RecursionLimit)
  {
    HNotRecursion(src, vars, ln);
    HNotRecursion(src, known, ln);
    HNotRecursion(src, vars + known, ln);
  }

  lemma MutualInformationNotRecursion(src: BinSource, vars: seq<string>, known: seq<string>, ln: real -> real)
    ensures MutualInformation(src, vars, known, ln) != Err(RecursionLimit)
  {
    if |vars| > 0 {
      ConditionalEntropyNotRecursion(src, [vars[0]], known, ln);
    }
    if |vars| > 1 {
      ConditionalEntropyNotRecursion(src, [vars[1]], known, ln);
      ConditionalEntropyNotRecursion(src, vars, known, ln);
    }
  }

  /** From order two upwards the recursion always reaches its base case. */
  lemma {:induction false} RecursionTerminates(src: BinSource, order: int, vars: seq<string>, known: seq<string>, ln: real -> real)
    requires order >= 2
    ensures RecursiveCalculation(src, order, vars, known, ln) != Err(RecursionLimit)
    decreases order
  {
    if order == 2 {
      MutualInformationNotRecursion(src, DropLast(vars), known, ln);
      if |vars| > 0 {
        MutualInformationNotRecursion(src, DropLast(vars), known + [vars[|vars| - 1]], ln);
      }
    } else {
      RecursionTerminates(src, order - 1, DropLast(vars), known, ln);
      if |vars| > 0 {
        RecursionTerminates(src, order - 1, DropLast(vars), known + [vars[|vars| - 1]], ln);
      }
    }
  }

  /** Three or more variables: the multiple mutual information terminates. */
  lemma MultipleMutualInformationTerminates(src: BinSource, vars: seq<string>, known: seq<string>, ln: real -> real)
    requires |vars| >= 3
    ensures MultipleMutualInformation(src, vars, known, ln) != Err(RecursionLimit)
  {
    RecursionTerminates(src, |vars| - 1, vars, known, ln);
  }
  // ----- Symmetry -----

  /** Only the probabilities enter the entropy, not the cells they belong to. */
  lemma {:induction false} EntropySumSwapped(pdf: Distribution, ln: real -> real)
    ensures EntropySum(SwapKeys(pdf), ln) == EntropySum(pdf, ln)
    decreases |pdf|
  {
    if |pdf| > 0 {
      assert SwapKeys(pdf)[..|pdf| - 1] == SwapKeys(pdf[..|pdf| - 1]);
      EntropySumSwapped(pdf[..|pdf| - 1], ln);
    }
  }

  /** The joint entropy does not depend on the order of the first two variables. */
  lemma HSwapped(src: BinSource, vars: seq<string>, ln: real -> real)
    requires |vars| >= 2
    ensures H(src, Swapped(vars), ln).Ok? <==> H(src, vars, ln).Ok?
    ensures H(src, vars, ln).Ok? ==> H(src, Swapped(vars), ln).value == H(src, vars, ln).value
  {
    MeshedSwapped(src, vars);
    if Meshed(src, vars).Ok? {
      PdfSwapped(Meshed(src, vars).value);
      if Pdf(Meshed(src, vars).value).Ok? {
        EntropySumSwapped(Pdf(Meshed(src, vars).value).value, ln);
      }
    }
  }

  /** I(X;Y|Z) = I(Y;X|Z): exchanging the two variables of a mutual information
      changes neither whether it can be computed nor its value. */
  lemma MutualInformationSymmetric(src: BinSource, vars: seq<string>, known: seq<string>, ln: real -> real)
    requires |vars| >= 2
    ensures MutualInformation(src, Swapped(vars), known, ln).Ok? <==> MutualInformation(src, vars, known, ln).Ok?
    ensures MutualInformation(src, vars, known, ln).Ok? ==>
      MutualInformation(src, Swapped(vars), known, ln).value == MutualInformation(src, vars, known, ln).value
  {
    var sv := Swapped(vars);
    assert sv[0] == vars[1] && sv[1] == vars[0];
    if |known| == 0 {
      HSwapped(src, vars, ln);
    } else {
      assert sv + known == Swapped(vars + known);
      HSwapped(src, vars + known, ln);
    }
  }
}
