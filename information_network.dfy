/** The information network of the library revision: nodes and links that carry
    the information measures of the model. A node holds its entropy `H0` and its
    storage term `partial1`; a link holds five transfer quantities and eight
    interaction terms. `Calculate` fills them from an estimator, which is seen
    here only through its conditional entropy and mutual information. */
module InformationNetwork {
  import opened Wrappers
  import opened Dicts
  import opened FromSimpleBin
  import opened EntropyMeasures

  /** What an estimator offers the network: `Conditional_Entropy(For, Known)` and
      `Mutual_Information(For, Known)`. */
  datatype Measures = Measures(
    ce: (seq<string>, seq<string>) -> Result<real>,
    mi: (seq<string>, seq<string>) -> Result<real>)

  /** The binning estimator over `src`, seen as such an estimator. */
  function Binned(src: BinSource, ln: real -> real): Measures {
    Measures((f, k) => ConditionalEntropy(src, f, k, ln), (f, k) => MutualInformation(src, f, k, ln))
  }

  function NodeVarKeys(): seq<string> { ["H0"] }
  function NodeAlphaKeys(): seq<string> { ["1", "partial1"] }
  function LinkVarKeys(): seq<string> { ["MI", "TE1", "rTE1", "TE2", "rTE2"] }
  function LinkAlphaKeys(): seq<string> { ["2", "3_1_I", "3_2_I", "4_1_I", "4_2_I", "5_I", "6_1_I", "6_2_I"] }

  /** The dictionary with `keys` in order, each mapped to the matching value. */
  function Zip(keys: seq<string>, values: seq<real>): (r: Dict<string, real>)
    requires |keys| == |values|
    ensures Keys(r) == keys && Values(r) == values
  {
    seq(|keys|, i requires 0 <= i < |keys| => (keys[i], values[i]))
  }

  /** A measure table whose every entry is zero — the state of a new node or link. */
  function Zeros(keys: seq<string>): (r: Dict<string, real>)
    ensures Keys(r) == keys
  {
    seq(|keys|, i requires 0 <= i < |keys| => (keys[i], 0.0))
  }

  function Primed(v: string): string { v + "'" }

  /** The node measures of variable `v`, in assignment order: `H0 = H(v)` and
      `partial1 = H(v' | v)`. */
  function NodeResults(m: Measures, v: string): (r: seq<Result<real>>)
    ensures |r| == 2
  {
    [m.ce([v], []), m.ce([Primed(v)], [v])]
  }

  /** The link measures of the pair `(x, y)`, in assignment order: the five `Var_`
      entries, then the eight `Alpha_` entries. */
  function LinkResults(m: Measures, x: string, y: string): (r: seq<Result<real>>)
    ensures |r| == |LinkVarKeys()| + |LinkAlphaKeys()|
  {
    var x2 := Primed(x);
    var y2 := Primed(y);
    [ m.mi([x, y], []),
      m.mi([y, x2], [x]),
      m.mi([y2, x], [x2]),
      m.mi([x, y2], [y]),
      m.mi([x2, y], [y2]),
      Minus(m.mi([x2, y2], [x, y]), m.mi([x, y], [x2, y2])),
      m.ce([y], [x, x2]),
      m.ce([x], [y, y2]),
      Minus(m.ce([x2], []), m.ce([x], [])),
      Minus(m.ce([y2], []), m.ce([y], [])),
      Minus(m.mi([y2, x2], []), m.mi([y, x], [])),
      m.ce([y2], [x, x2]),
      m.ce([x2], [y, y2]) ]
  }

  predicate AllOk(rs: seq<Result<real>>) {
    forall i :: 0 <= i < |rs| ==> rs[i].Ok?
  }

  function OkValues(rs: seq<Result<real>>): (r: seq<real>)
    requires AllOk(rs)
    ensures |r| == |rs| && forall i :: 0 <= i < |rs| ==> r[i] == rs[i].value
  {
    seq(|rs|, i requires 0 <= i < |rs| && AllOk(rs) => rs[i].value)
  }

  /** The exception of a run of assignments: that of the first one that fails. */
  function FirstFailure(rs: seq<Result<real>>): (r: Outcome)
    ensures r == Pass <==> AllOk(rs)
    decreases |rs|
  {
    if |rs| == 0 then Pass
    else if rs[0].Err? then Fail(rs[0].error)
    else
      assert forall i :: 1 <= i < |rs| ==> rs[i] == rs[1..][i - 1];
      FirstFailure(rs[1..])
  }

  /** `d[keys[0]] = rs[0]`, `d[keys[1]] = rs[1]`, ...: the assignments in turn, up to
      the first one whose value is an exception. */
  function Assigned(d: Dict<string, real>, keys: seq<string>, rs: seq<Result<real>>): Dict<string, real>
    requires |keys| == |rs|
    decreases |rs|
  {
    if |rs| == 0 || rs[0].Err? then d
    else Assigned(Put(d, keys[0], rs[0].value), keys[1..], rs[1..])
  }

  /** The assignments of a `Calculate`, in order: the table after them and the exception. */
  method AssignEntries(d: Dict<string, real>, keys: seq<string>, rs: seq<Result<real>>)
      returns (e: Dict<string, real>, r: Outcome)
    requires |keys| == |rs|
    ensures e == Assigned(d, keys, rs) && r == FirstFailure(rs)
  {
    e := d;
    var k := 0;
    while k < |rs|
      invariant 0 <= k <= |rs|
      invariant Assigned(e, keys[k..], rs[k..]) == Assigned(d, keys, rs)
      invariant FirstFailure(rs[k..]) == FirstFailure(rs)
    {
      assert rs[k..][1..] == rs[k + 1..] && keys[k..][1..] == keys[k + 1..];
      if rs[k].Err? {
        return e, Fail(rs[k].error);
      }
      e := Put(e, keys[k], rs[k].value);
      k := k + 1;
    }
    r := Pass;
  }

  /** The body of every `Calculate`: the `Var_` assignments, then — unless one of
      them raised — the `Alpha_` assignments. Tables whose keys include those
      assigned keep their keys. */
  method AssignTables(vars: Dict<string, real>, alphas: Dict<string, real>, varKeys: seq<string>,
                      alphaKeys: seq<string>, rs: seq<Result<real>>)
      returns (newVars: Dict<string, real>, newAlphas: Dict<string, real>, r: Outcome)
    requires |rs| == |varKeys| + |alphaKeys|
    ensures r == FirstFailure(rs)
    ensures newVars == Assigned(vars, varKeys, rs[..|varKeys|])
    ensures newAlphas == (if !AllOk(rs[..|varKeys|]) then alphas else Assigned(alphas, alphaKeys, rs[|varKeys|..]))
    ensures (forall i :: 0 <= i < |varKeys| ==> varKeys[i] in Keys(vars)) ==> Keys(newVars) == Keys(vars)
    ensures (forall i :: 0 <= i < |alphaKeys| ==> alphaKeys[i] in Keys(alphas)) ==> Keys(newAlphas) == Keys(alphas)
  {
    var n := |varKeys|;
    var r1;
    newVars, r1 := AssignEntries(vars, varKeys, rs[..n]);
    if forall i :: 0 <= i < n ==> varKeys[i] in Keys(vars) {
      AssignedKeys(vars, varKeys, rs[..n]);
    }
    FirstFailureAppend(rs[..n], rs[n..]);
    assert rs[..n] + rs[n..] == rs;
    if r1.Fail? {
      return newVars, alphas, r1;
    }
    newAlphas, r := AssignEntries(alphas, alphaKeys, rs[n..]);
    if forall i :: 0 <= i < |alphaKeys| ==> alphaKeys[i] in Keys(alphas) {
      AssignedKeys(alphas, alphaKeys, rs[n..]);
    }
  }

  /** What a node's `Calculate` leaves: `Var_` after assigning `H0` from the first
      result, `Alpha_` after then assigning `partial1` from the second (untouched if
      the first raised), and the exception of the first result that raised. */
  function NodeAssignment(vars: Dict<string, real>, alphas: Dict<string, real>, rs: seq<Result<real>>)
    : (Dict<string, real>, Dict<string, real>, Outcome)
    requires |rs| == 2
  {
    (Assigned(vars, NodeVarKeys(), rs[..1]),
     if !AllOk(rs[..1]) then alphas else Assigned(alphas, ["partial1"], rs[1..]),
     FirstFailure(rs))
  }

  /** What a link's `Calculate` leaves: the five `Var_` assignments, then, unless
      one of them raised, the eight `Alpha_` assignments, and the first exception. */
  function LinkAssignment(vars: Dict<string, real>, alphas: Dict<string, real>, rs: seq<Result<real>>)
    : (Dict<string, real>, Dict<string, real>, Outcome)
    requires |rs| == 13
  {
    (Assigned(vars, LinkVarKeys(), rs[..5]),
     if !AllOk(rs[..5]) then alphas else Assigned(alphas, LinkAlphaKeys(), rs[5..]),
     FirstFailure(rs))
  }

  /** The assignments of a node's `Calculate`: `H0` from the first result, then
      `partial1` from the second. */
  method AssignNode(vars: Dict<string, real>, alphas: Dict<string, real>, rs: seq<Result<real>>)
      returns (newVars: Dict<string, real>, newAlphas: Dict<string, real>, r: Outcome)
    requires |rs| == 2
    ensures Keys(vars) == NodeVarKeys() && Keys(alphas) == NodeAlphaKeys() ==>
      Keys(newVars) == NodeVarKeys() && Keys(newAlphas) == NodeAlphaKeys()
    ensures (newVars, newAlphas, r) == NodeAssignment(vars, alphas, rs)
  {
    if Keys(vars) == NodeVarKeys() && Keys(alphas) == NodeAlphaKeys() {
      KeysPresent(vars, NodeVarKeys());
      assert Keys(alphas)[1] == "partial1";
    }
    newVars, newAlphas, r := AssignTables(vars, alphas, NodeVarKeys(), ["partial1"], rs);
  }

  /** The assignments of a link's `Calculate`: the five `Var_` entries, then the
      eight `Alpha_` entries. */
  method AssignLink(vars: Dict<string, real>, alphas: Dict<string, real>, rs: seq<Result<real>>)
      returns (newVars: Dict<string, real>, newAlphas: Dict<string, real>, r: Outcome)
    requires |rs| == 13
    ensures Keys(vars) == LinkVarKeys() && Keys(alphas) == LinkAlphaKeys() ==>
      Keys(newVars) == LinkVarKeys() && Keys(newAlphas) == LinkAlphaKeys()
    ensures (newVars, newAlphas, r) == LinkAssignment(vars, alphas, rs)
  {
    if Keys(vars) == LinkVarKeys() && Keys(alphas) == LinkAlphaKeys() {
      KeysPresent(vars, LinkVarKeys());
      KeysPresent(alphas, LinkAlphaKeys());
    }
    newVars, newAlphas, r := AssignTables(vars, alphas, LinkVarKeys(), LinkAlphaKeys(), rs);
  }

  lemma KeysPresent(d: Dict<string, real>, keys: seq<string>)
    requires Keys(d) == keys
    ensures forall i :: 0 <= i < |keys| ==> keys[i] in Keys(d)
  {
  }

  /** An exception in the first run of assignments is the exception of both runs;
      otherwise that of the second. */
  lemma {:induction false} FirstFailureAppend(a: seq<Result<real>>, b: seq<Result<real>>)
    ensures FirstFailure(a + b) == if FirstFailure(a).Fail? then FirstFailure(a) else FirstFailure(b)
    decreases |a|
  {
    if |a| == 0 {
      assert a + b == b;
    } else {
      assert (a + b)[0] == a[0] && (a + b)[1..] == a[1..] + b;
      FirstFailureAppend(a[1..], b);
    }
  }

  /** Assigning keys the table already has keeps its keys. */
  lemma {:induction false} AssignedKeys(d: Dict<string, real>, keys: seq<string>, rs: seq<Result<real>>)
    requires |keys| == |rs| && forall i :: 0 <= i < |keys| ==> keys[i] in Keys(d)
    ensures Keys(Assigned(d, keys, rs)) == Keys(d)
    decreases |rs|
  {
    if |rs| > 0 && rs[0].Ok? {
      var d' := Put(d, keys[0], rs[0].value);
      assert forall i :: 1 <= i < |keys| ==> keys[1..][i - 1] == keys[i];
      AssignedKeys(d', keys[1..], rs[1..]);
    }
  }

  /** A key that is not assigned keeps its lookup. */
  lemma {:induction false} AssignedOther(d: Dict<string, real>, keys: seq<string>, rs: seq<Result<real>>, k: string)
    requires |keys| == |rs| && k !in keys
    ensures Get(Assigned(d, keys, rs), k) == Get(d, k)
    decreases |rs|
  {
    if |rs| > 0 && rs[0].Ok? {
      PutGetOther(d, keys[0], rs[0].value, k);
      AssignedOther(Put(d, keys[0], rs[0].value), keys[1..], rs[1..], k);
    }
  }

  /** When every value is there and no key repeats, each key looks up its own value. */
  lemma {:induction false} AssignedGet(d: Dict<string, real>, keys: seq<string>, rs: seq<Result<real>>, i: nat)
    requires |keys| == |rs| && Distinct(keys) && AllOk(rs) && i < |keys|
    ensures Get(Assigned(d, keys, rs), keys[i]) == Some(rs[i].value)
    decreases |rs|
  {
    var d' := Put(d, keys[0], rs[0].value);
    assert Distinct(keys[1..]) && AllOk(rs[1..]) by {
      assert forall p :: 0 <= p < |keys| - 1 ==> keys[1..][p] == keys[p + 1] && rs[1..][p] == rs[p + 1];
    }
    if i == 0 {
      assert keys[0] !in keys[1..] by {
        assert forall p :: 0 <= p < |keys| - 1 ==> keys[1..][p] == keys[p + 1];
      }
      AssignedOther(d', keys[1..], rs[1..], keys[0]);
    } else {
      AssignedGet(d', keys[1..], rs[1..], i - 1);
      assert keys[1..][i - 1] == keys[i] && rs[1..][i - 1] == rs[i];
    }
  }

  /** A node's calculation that succeeds leaves `H0` and `partial1` holding its two
      results, whatever the node held before. */
  lemma NodeAssignmentStores(vars: Dict<string, real>, alphas: Dict<string, real>, rs: seq<Result<real>>)
    requires |rs| == 2 && NodeAssignment(vars, alphas, rs).2 == Pass
    ensures Get(NodeAssignment(vars, alphas, rs).0, "H0") == Some(rs[0].value)
    ensures Get(NodeAssignment(vars, alphas, rs).1, "partial1") == Some(rs[1].value)
  {
    assert rs[..1][0] == rs[0] && rs[1..][0] == rs[1];
    AssignedGet(vars, NodeVarKeys(), rs[..1], 0);
    AssignedGet(alphas, ["partial1"], rs[1..], 0);
  }

  /** When every value is there, assigning all of a table's keys in its own order
      gives the table of those keys and values. */
  lemma AssignedAll(d: Dict<string, real>, rs: seq<Result<real>>)
    requires Distinct(Keys(d)) && |rs| == |d| && AllOk(rs)
    ensures Assigned(d, Keys(d), rs) == Zip(Keys(d), OkValues(rs))
  {
    var e := Assigned(d, Keys(d), rs);
    AssignedKeys(d, Keys(d), rs);
    forall i | 0 <= i < |e| ensures e[i] == (Keys(d)[i], rs[i].value) {
      assert Keys(e)[i] == e[i].0;
      FindDistinct(e, i);
      AssignedGet(d, Keys(d), rs, i);
    }
  }

  /** In a dictionary without repeated keys, assigning to the key at `i` replaces
      the entry at `i`. */
  lemma PutExisting(d: Dict<string, real>, i: nat, v: real)
    requires Distinct(Keys(d)) && i < |d|
    ensures Put(d, d[i].0, v) == d[i := (d[i].0, v)]
  {
    FindDistinct(d, i);
  }

  /** `A_Node(Index)`. */
  class Node {
    const index: string
    var neighbors: seq<string>
    var var_: Dict<string, real>
    var alpha_: Dict<string, real>

    constructor(index: string)
      ensures IsNew(index)
    {
      this.index := index;
      neighbors := [];
      var_ := Zeros(NodeVarKeys());
      alpha_ := Zeros(NodeAlphaKeys());
    }

    /** The state `A_Node(k)` starts in. */
    predicate IsNew(k: string)
      reads this
    {
      index == k && neighbors == [] && var_ == Zeros(NodeVarKeys()) && alpha_ == Zeros(NodeAlphaKeys())
    }

    /** The measure tables keep their keys, in their order. */
    predicate Valid()
      reads this
    {
      Keys(var_) == NodeVarKeys() && Keys(alpha_) == NodeAlphaKeys()
    }

    /** `Calculate(Estimator)`: `H0 = H(i)`, then `partial1 = H(i' | i)`; `Alpha_["1"]`
        keeps its value. An estimator exception ends it, leaving what was assigned. */
    method Calculate(m: Measures) returns (r: Outcome)
      requires Valid()
      modifies this
      ensures Valid() && neighbors == old(neighbors)
      ensures (var_, alpha_, r) == NodeAssignment(old(var_), old(alpha_), NodeResults(m, index))
    {
      var_, alpha_, r := AssignNode(var_, alpha_, NodeResults(m, index));
    }
  }

  /** A node calculation without exception sets `H0` and `partial1` to the node's
      measures and keeps `Alpha_["1"]`. */
  lemma NodeVarsCalculated(m: Measures, v: string, vars: Dict<string, real>)
    requires Keys(vars) == NodeVarKeys() && AllOk(NodeResults(m, v))
    ensures Assigned(vars, NodeVarKeys(), NodeResults(m, v)[..1]) == [("H0", OkValues(NodeResults(m, v))[0])]
  {
  }

  lemma NodeAlphasCalculated(m: Measures, v: string, alphas: Dict<string, real>)
    requires Keys(alphas) == NodeAlphaKeys() && AllOk(NodeResults(m, v))
    ensures Assigned(alphas, ["partial1"], NodeResults(m, v)[1..]) == [("1", alphas[0].1), ("partial1", OkValues(NodeResults(m, v))[1])]
  {
    assert Distinct(Keys(alphas));
    PutExisting(alphas, 1, OkValues(NodeResults(m, v))[1]);
  }

  /** `A_Link(Index_Tuple)`. */
  class Link {
    const indexTuple: (string, string)
    var var_: Dict<string, real>
    var alpha_: Dict<string, real>

    constructor(indexTuple: (string, string))
      ensures IsNew(indexTuple)
    {
      this.indexTuple := indexTuple;
      var_ := Zeros(LinkVarKeys());
      alpha_ := Zeros(LinkAlphaKeys());
    }

    /** The state `A_Link(pair)` starts in. */
    predicate IsNew(pair: (string, string))
      reads this
    {
      indexTuple == pair && var_ == Zeros(LinkVarKeys()) && alpha_ == Zeros(LinkAlphaKeys())
    }

    /** The measure tables keep their keys, in their order. */
    predicate Valid()
      reads this
    {
      Keys(var_) == LinkVarKeys() && Keys(alpha_) == LinkAlphaKeys()
    }

    /** `Calculate(Estimator)`: the thirteen link measures of `(X, Y)`, assigned in
        order. An estimator exception ends it, leaving what was assigned. */
    method Calculate(m: Measures) returns (r: Outcome)
      requires Valid()
      modifies this
      ensures Valid()
      ensures (var_, alpha_, r) == LinkAssignment(old(var_), old(alpha_), LinkResults(m, indexTuple.0, indexTuple.1))
    {
      var_, alpha_, r := AssignLink(var_, alpha_, LinkResults(m, indexTuple.0, indexTuple.1));
    }
  }

  /** A link calculation without exception leaves exactly the link measures in the
      tables, keyed in their fixed order. */
  lemma LinkCalculated(m: Measures, x: string, y: string, vars: Dict<string, real>, alphas: Dict<string, real>)
    requires Keys(vars) == LinkVarKeys() && Keys(alphas) == LinkAlphaKeys() && AllOk(LinkResults(m, x, y))
    ensures Assigned(vars, LinkVarKeys(), LinkResults(m, x, y)[..5]) == Zip(LinkVarKeys(), OkValues(LinkResults(m, x, y))[..5])
    ensures Assigned(alphas, LinkAlphaKeys(), LinkResults(m, x, y)[5..]) == Zip(LinkAlphaKeys(), OkValues(LinkResults(m, x, y))[5..])
  {
    var rs := LinkResults(m, x, y);
    assert AllOk(rs[..5]) && AllOk(rs[5..]) by {
      assert forall i :: 0 <= i < 5 ==> rs[..5][i] == rs[i];
      assert forall i :: 0 <= i < 8 ==> rs[5..][i] == rs[i + 5];
    }
    LinkKeysDistinct();
    AssignedAll(vars, rs[..5]);
    AssignedAll(alphas, rs[5..]);
    assert OkValues(rs[..5]) == OkValues(rs)[..5];
    assert OkValues(rs[5..]) == OkValues(rs)[5..];
  }

  lemma LinkKeysDistinct()
    ensures Distinct(LinkVarKeys()) && Distinct(LinkAlphaKeys())
  {
  }

  /** In a zipped table without repeated keys, each key looks up its own value. */
  lemma ZipGet(keys: seq<string>, values: seq<real>, i: nat)
    requires |keys| == |values| && Distinct(keys) && i < |keys|
    ensures Get(Zip(keys, values), keys[i]) == Some(values[i])
  {
    FindDistinct(Zip(keys, values), i);
  }

  /** The `Var_` table of a link calculation without exception, entry by entry, with
      `x' = x + "'"`: `MI = I(x; y)`, `TE1 = I(y; x' | x)`, `rTE1 = I(y'; x | x')`,
      `TE2 = I(x; y' | y)` and `rTE2 = I(x'; y | y')`. */
  lemma LinkVarEntries(m: Measures, x: string, y: string)
    requires AllOk(LinkResults(m, x, y))
    ensures var t := Zip(LinkVarKeys(), OkValues(LinkResults(m, x, y))[..5]);
      var x2, y2 := Primed(x), Primed(y);
      && |t| == 5
      && t[0].0 == "MI" && m.mi([x, y], []) == Ok(t[0].1)
      && t[1].0 == "TE1" && m.mi([y, x2], [x]) == Ok(t[1].1)
      && t[2].0 == "rTE1" && m.mi([y2, x], [x2]) == Ok(t[2].1)
      && t[3].0 == "TE2" && m.mi([x, y2], [y]) == Ok(t[3].1)
      && t[4].0 == "rTE2" && m.mi([x2, y], [y2]) == Ok(t[4].1)
  {
    var rs := LinkResults(m, x, y);
    assert rs[0].Ok? && rs[1].Ok? && rs[2].Ok? && rs[3].Ok? && rs[4].Ok?;
  }

  /** The `Alpha_` table of a link calculation without exception, entry by entry, with
      `x' = x + "'"`: `2 = I(x'; y' | x, y) - I(x; y | x', y')`, `3_1_I = H(y | x, x')`,
      `3_2_I = H(x | y, y')`, `4_1_I = H(x') - H(x)`, `4_2_I = H(y') - H(y)`,
      `5_I = I(y'; x') - I(y; x)`, `6_1_I = H(y' | x, x')` and `6_2_I = H(x' | y, y')`. */
  lemma LinkAlphaEntries(m: Measures, x: string, y: string)
    requires AllOk(LinkResults(m, x, y))
    ensures var t := Zip(LinkAlphaKeys(), OkValues(LinkResults(m, x, y))[5..]);
      var x2, y2 := Primed(x), Primed(y);
      && |t| == 8
      && t[0].0 == "2" && Minus(m.mi([x2, y2], [x, y]), m.mi([x, y], [x2, y2])) == Ok(t[0].1)
      && t[1].0 == "3_1_I" && m.ce([y], [x, x2]) == Ok(t[1].1)
      && t[2].0 == "3_2_I" && m.ce([x], [y, y2]) == Ok(t[2].1)
      && t[3].0 == "4_1_I" && Minus(m.ce([x2], []), m.ce([x], [])) == Ok(t[3].1)
      && t[4].0 == "4_2_I" && Minus(m.ce([y2], []), m.ce([y], [])) == Ok(t[4].1)
      && t[5].0 == "5_I" && Minus(m.mi([y2, x2], []), m.mi([y, x], [])) == Ok(t[5].1)
      && t[6].0 == "6_1_I" && m.ce([y2], [x, x2]) == Ok(t[6].1)
      && t[7].0 == "6_2_I" && m.ce([x2], [y, y2]) == Ok(t[7].1)
  {
    var rs := LinkResults(m, x, y);
    assert rs[5].Ok? && rs[6].Ok? && rs[7].Ok? && rs[8].Ok? && rs[9].Ok? && rs[10].Ok? && rs[11].Ok? && rs[12].Ok?;
  }

  /** Listing a link's values in table order and assigning them back in the same
      order gives the same tables again. */
  lemma ListedValuesRestore(vars: Dict<string, real>, alphas: Dict<string, real>)
    requires Keys(vars) == LinkVarKeys() && Keys(alphas) == LinkAlphaKeys()
    ensures var data := Values(vars) + Values(alphas);
      |data| == |LinkVarKeys()| + |LinkAlphaKeys()|
      && Zip(LinkVarKeys(), data[..5]) == vars && Zip(LinkAlphaKeys(), data[5..]) == alphas
  {
    var data := Values(vars) + Values(alphas);
    assert data[..5] == Values(vars) && data[5..] == Values(alphas);
    assert forall i :: 0 <= i < |vars| ==> vars[i] == (Keys(vars)[i], Values(vars)[i]);
    assert forall i :: 0 <= i < |alphas| ==> alphas[i] == (Keys(alphas)[i], Values(alphas)[i]);
  }

  /** `A_Network()`: the nodes by name and the links by ordered pair. */
  class Network {
    var nodes: Dict<string, Node>
    var links: Dict<(string, string), Link>

    constructor()
      ensures nodes == [] && links == [] && Valid()
    {
      nodes := [];
      links := [];
    }

    function NodeObjects(): set<Node>
      reads this
    {
      set i | 0 <= i < |nodes| :: nodes[i].1
    }

    function LinkObjects(): set<Link>
      reads this
    {
      set i | 0 <= i < |links| :: links[i].1
    }

    /** Dictionaries without repeated keys; every name has its own node object, and
        every node and link keeps its measure keys. */
    predicate Valid()
      reads this, NodeObjects(), LinkObjects()
    {
      && Distinct(Keys(nodes)) && Distinct(Keys(links))
      && (forall i, j :: 0 <= i < j < |nodes| ==> nodes[i].1 != nodes[j].1)
      && (forall i :: 0 <= i < |nodes| ==> nodes[i].1.Valid())
      && (forall i :: 0 <= i < |links| ==> links[i].1.Valid())
    }

    /** `Set_Nodes(Index_List)`: a new node for every name, in order; a name already
        present gets a new node in the same place. */
    method SetNodes(names: seq<string>)
      requires Valid()
      modifies this
      ensures Valid() && links == old(links)
      ensures forall k :: k in Keys(nodes) <==> k in Keys(old(nodes)) || k in names
      ensures forall k :: k in names ==> Get(nodes, k).Some? && fresh(Get(nodes, k).value) && Get(nodes, k).value.IsNew(k)
      ensures forall k :: k !in names ==> Get(nodes, k) == Get(old(nodes), k)
    {
      var j := 0;
      while j < |names|
        invariant 0 <= j <= |names|
        invariant Valid() && links == old(links)
        invariant forall k :: k in Keys(nodes) <==> k in Keys(old(nodes)) || k in names[..j]
        invariant forall k :: k in names[..j] ==> Get(nodes, k).Some? && fresh(Get(nodes, k).value) && Get(nodes, k).value.IsNew(k)
        invariant forall k :: k !in names[..j] ==> Get(nodes, k) == Get(old(nodes), k)
      {
        var node := SetNode(names[j]);
        InPrefixStep(names, j);
        j := j + 1;
      }
      assert names[..j] == names;
    }

    /** `Nodes[k] = A_Node(k)`. */
    method SetNode(k: string) returns (node: Node)
      requires Valid()
      modifies this
      ensures Valid() && links == old(links)
      ensures fresh(node) && node.IsNew(k) && nodes == Put(old(nodes), k, node)
      ensures forall k' :: k' in Keys(nodes) <==> k' in Keys(old(nodes)) || k' == k
      ensures forall k' :: k' != k ==> Get(nodes, k') == Get(old(nodes), k')
    {
      ghost var before := nodes;
      node := new Node(k);
      assert node.Valid();
      PutNewNode(nodes, k, node);
      PutDistinct(nodes, k, node);
      nodes := Put(nodes, k, node);
      forall k' | k' != k ensures Get(nodes, k') == Get(before, k') {
        PutGetOther(before, k, node, k');
      }
    }

    /** `Add_a_Link((a, b))`: store a new link under the pair, then append `b` to the
        neighbours of `a` and `a` to those of `b`. The link is stored before either
        node is looked up, so a missing endpoint is a KeyError after it. */
    method AddALink(pair: (string, string)) returns (r: Outcome)
      requires Valid()
      modifies this, NodeObjects()
      ensures Valid() && nodes == old(nodes)
      ensures Keys(links) == if pair in Keys(old(links)) then Keys(old(links)) else Keys(old(links)) + [pair]
      ensures exists link: Link :: fresh(link) && link.IsNew(pair) && links == Put(old(links), pair, link)
      ensures r == if pair.0 in Keys(nodes) && pair.1 in Keys(nodes) then Pass else Fail(MissingKey)
      ensures Neighborhoods() == Joined(old(Neighborhoods()), Keys(nodes), pair)
      ensures Tables() == old(Tables())
    {
      ghost var n0 := Neighborhoods();
      ghost var t0 := Tables();
      var link := StoreLink(pair);
      assert Neighborhoods() == n0 && Tables() == t0;
      r := JoinEndpoints(pair);
    }

    /** The neighbour appends of `Add_a_Link`: `Nodes[a]` first, then `Nodes[b]`; a
        missing name is a KeyError at that point. */
    method JoinEndpoints(pair: (string, string)) returns (r: Outcome)
      requires Valid()
      modifies NodeObjects()
      ensures Valid()
      ensures r == if pair.0 in Keys(nodes) && pair.1 in Keys(nodes) then Pass else Fail(MissingKey)
      ensures Neighborhoods() == Joined(old(Neighborhoods()), Keys(nodes), pair)
      ensures Tables() == old(Tables())
    {
      ghost var n0 := Neighborhoods();
      var first := Find(nodes, pair.0);
      if first.None? {
        JoinedNone(n0, Keys(nodes), pair);
        return Fail(MissingKey);
      }
      assert Keys(nodes)[first.value] == pair.0;
      AppendNeighbor(first.value, pair.1);
      var second := Find(nodes, pair.1);
      if second.None? {
        JoinedFirst(n0, Keys(nodes), first.value, pair);
        return Fail(MissingKey);
      }
      assert Keys(nodes)[second.value] == pair.1;
      AppendNeighbor(second.value, pair.0);
      JoinedBoth(n0, Keys(nodes), first.value, second.value, pair);
      return Pass;
    }

    /** The neighbour list of every node, in the order of `nodes`. */
    function Neighborhoods(): (r: seq<seq<string>>)
      reads this, NodeObjects()
      ensures |r| == |nodes| && forall i :: 0 <= i < |nodes| ==> r[i] == nodes[i].1.neighbors
    {
      seq(|nodes|, i requires 0 <= i < |nodes| reads this, NodeObjects() => nodes[i].1.neighbors)
    }

    /** The measure tables of every node, in the order of `nodes`. */
    function Tables(): (r: seq<(Dict<string, real>, Dict<string, real>)>)
      reads this, NodeObjects()
      ensures |r| == |nodes| && forall i :: 0 <= i < |nodes| ==> r[i] == (nodes[i].1.var_, nodes[i].1.alpha_)
    {
      seq(|nodes|, i requires 0 <= i < |nodes| reads this, NodeObjects() => (nodes[i].1.var_, nodes[i].1.alpha_))
    }

    /** `Nodes[...].Neighbors.append(name)` on the node at position `p`. */
    method AppendNeighbor(p: nat, name: string)
      requires Valid() && p < |nodes|
      modifies nodes[p].1
      ensures Valid()
      ensures Neighborhoods() == old(Neighborhoods())[p := old(Neighborhoods())[p] + [name]]
      ensures Tables() == old(Tables())
    {
      var node := nodes[p].1;
      node.neighbors := node.neighbors + [name];
    }

    /** `Links[pair] = A_Link(pair)`. */
    method StoreLink(pair: (string, string)) returns (link: Link)
      requires Valid()
      modifies this
      ensures Valid() && nodes == old(nodes)
      ensures fresh(link) && link.IsNew(pair) && links == Put(old(links), pair, link)
    {
      link := new Link(pair);
      assert link.Valid();
      PutDistinct(links, pair, link);
      PutLinkValid(links, pair, link);
      links := Put(links, pair, link);
    }
  }

  /** What `Add_a_Link(pair)` appends to the neighbours of node `k`: `b` to `a`,
      then `a` to `b` when `a` is a node (otherwise the KeyError came first). */
  function Appended(k: string, pair: (string, string), names: seq<string>): seq<string> {
    (if k == pair.0 then [pair.1] else []) + (if k == pair.1 && pair.0 in names then [pair.0] else [])
  }

  /** The neighbour lists after `Add_a_Link(pair)` on nodes `names`. */
  function Joined(ns: seq<seq<string>>, names: seq<string>, pair: (string, string)): (r: seq<seq<string>>)
    requires |ns| == |names|
    ensures |r| == |ns|
  {
    seq(|ns|, i requires 0 <= i < |ns| => ns[i] + Appended(names[i], pair, names))
  }

  lemma JoinedNone(ns: seq<seq<string>>, names: seq<string>, pair: (string, string))
    requires |ns| == |names| && pair.0 !in names
    ensures Joined(ns, names, pair) == ns
  {
    forall i | 0 <= i < |ns| ensures Joined(ns, names, pair)[i] == ns[i] {
      assert names[i] in names;
      assert Appended(names[i], pair, names) == [];
    }
  }

  lemma JoinedFirst(ns: seq<seq<string>>, names: seq<string>, p: nat, pair: (string, string))
    requires |ns| == |names| && Distinct(names) && p < |names| && names[p] == pair.0 && pair.1 !in names
    ensures Joined(ns, names, pair) == ns[p := ns[p] + [pair.1]]
  {
    forall i | 0 <= i < |ns| ensures Joined(ns, names, pair)[i] == ns[p := ns[p] + [pair.1]][i] {
      assert names[i] in names;
      assert Appended(names[i], pair, names) == if i == p then [pair.1] else [];
    }
  }

  lemma JoinedBoth(ns: seq<seq<string>>, names: seq<string>, p: nat, q: nat, pair: (string, string))
    requires |ns| == |names| && Distinct(names) && p < |names| && q < |names| && names[p] == pair.0 && names[q] == pair.1
    ensures var n1 := ns[p := ns[p] + [pair.1]];
      Joined(ns, names, pair) == n1[q := n1[q] + [pair.0]]
  {
    var n1 := ns[p := ns[p] + [pair.1]];
    forall i | 0 <= i < |ns|
      ensures Joined(ns, names, pair)[i] == n1[q := n1[q] + [pair.0]][i]
    {
      assert Joined(ns, names, pair)[i] == ns[i] + (if i == p then [pair.1] else []) + (if i == q then [pair.0] else []);
    }
  }

  /** Storing a fresh node keeps the nodes distinct objects. */
  lemma PutNewNode<N>(nodes: Dict<string, N>, k: string, node: N)
    requires forall i :: 0 <= i < |nodes| ==> nodes[i].1 != node
    requires forall i, j :: 0 <= i < j < |nodes| ==> nodes[i].1 != nodes[j].1
    ensures forall i, j :: 0 <= i < j < |Put(nodes, k, node)| ==> Put(nodes, k, node)[i].1 != Put(nodes, k, node)[j].1
    ensures forall i :: 0 <= i < |Put(nodes, k, node)| ==> Put(nodes, k, node)[i].1 == node || (i < |nodes| && Put(nodes, k, node)[i].1 == nodes[i].1)
  {
  }

  lemma PutLinkValid<L>(links: Dict<(string, string), L>, k: (string, string), link: L)
    ensures forall i :: 0 <= i < |Put(links, k, link)| ==> Put(links, k, link)[i].1 == link || (i < |links| && Put(links, k, link)[i].1 == links[i].1)
  {
  }
}
