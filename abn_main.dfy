/** The autonomous Boolean network of a gene regulatory network with the figure-8
    topology: a gene `A` closes two shift-register chains `B1 .. Bn` and
    `C1 .. Cm`. At every step each chain gene takes the value its predecessor had
    (the first gene of a chain that of `A`), and `A` becomes 1 exactly when `Bn` is
    1 and `Cm` is 0. */
module AbnMain {
  import opened Wrappers
  import opened Dicts
  import opened Text
  import opened Driver
  import opened InformationNetwork
  import SimpleBinning

  // ---------------------------------------------------------------- the genes and their names

  /** The genes of the figure 8: the hub `A` and the numbered genes of the two chains. */
  datatype Gene = A | B(i: nat) | C(i: nat)

  /** The two chains. */
  datatype Arm = ArmB | ArmC

  /** Gene `i` of a chain. */
  function At(arm: Arm, i: nat): Gene {
    match arm
    case ArmB => B(i)
    case ArmC => C(i)
  }

  /** The node name of a gene: `"A"`, `"B%d" % i` or `"C%d" % i`. */
  function Name(g: Gene): string {
    match g
    case A => "A"
    case B(i) => "B" + NatToString(i)
    case C(i) => "C" + NatToString(i)
  }

  /** Different genes have different names. */
  lemma NameInjective(g: Gene, h: Gene)
    ensures Name(g) == Name(h) <==> g == h
  {
    if Name(g) == Name(h) && !g.A? && !h.A? {
      assert Name(g)[1..] == NatToString(g.i) && Name(h)[1..] == NatToString(h.i);
    }
  }

  function Names(gs: seq<Gene>): (r: seq<string>)
    ensures |r| == |gs| && forall i :: 0 <= i < |gs| ==> r[i] == Name(gs[i])
  {
    seq(|gs|, i requires 0 <= i < |gs| => Name(gs[i]))
  }

  function NamePairs(ps: seq<(Gene, Gene)>): (r: seq<(string, string)>)
    ensures |r| == |ps| && forall i :: 0 <= i < |ps| ==> r[i] == (Name(ps[i].0), Name(ps[i].1))
  {
    seq(|ps|, i requires 0 <= i < |ps| => (Name(ps[i].0), Name(ps[i].1)))
  }

  lemma NamesAppend(x: seq<Gene>, y: seq<Gene>)
    ensures Names(x + y) == Names(x) + Names(y)
  {
  }

  lemma NamesIn(gs: seq<Gene>, g: Gene)
    ensures Name(g) in Names(gs) <==> g in gs
  {
    if Name(g) in Names(gs) {
      var i :| 0 <= i < |gs| && Names(gs)[i] == Name(g);
      NameInjective(g, gs[i]);
    }
    if g in gs {
      var i :| 0 <= i < |gs| && gs[i] == g;
      assert Names(gs)[i] == Name(g);
    }
  }

  lemma NamesDistinct(gs: seq<Gene>)
    requires Distinct(gs)
    ensures Distinct(Names(gs))
  {
    forall i, j | 0 <= i < j < |gs| ensures Names(gs)[i] != Names(gs)[j] {
      NameInjective(gs[i], gs[j]);
    }
  }

  lemma NamePairsDistinct(ps: seq<(Gene, Gene)>)
    requires Distinct(ps)
    ensures Distinct(NamePairs(ps))
  {
    forall i, j | 0 <= i < j < |ps| ensures NamePairs(ps)[i] != NamePairs(ps)[j] {
      NameInjective(ps[i].0, ps[j].0);
      NameInjective(ps[i].1, ps[j].1);
    }
  }

  lemma AllInNames(ps: seq<(Gene, Gene)>, gs: seq<Gene>)
    ensures AllIn(NamePairs(ps), Names(gs)) <==> AllIn(ps, gs)
  {
    forall i | 0 <= i < |ps|
      ensures (NamePairs(ps)[i].0 in Names(gs) && NamePairs(ps)[i].1 in Names(gs)) <==> (ps[i].0 in gs && ps[i].1 in gs)
    {
      NamesIn(gs, ps[i].0);
      NamesIn(gs, ps[i].1);
    }
  }

  /** The neighbours a name gets are the names of the neighbours its gene gets. */
  lemma {:induction false} AdjacentNames(g: Gene, ps: seq<(Gene, Gene)>)
    ensures Adjacent(Name(g), NamePairs(ps)) == Names(Adjacent(g, ps))
    decreases |ps|
  {
    if |ps| > 0 {
      var front, p := ps[..|ps| - 1], ps[|ps| - 1];
      AdjacentNames(g, front);
      assert NamePairs(ps)[..|ps| - 1] == NamePairs(front);
      NameInjective(g, p.0);
      NameInjective(g, p.1);
      NamesAppend(Adjacent(g, front), Ends(g, p));
    }
  }

  // ---------------------------------------------------------------- the nodes

  /** The genes of one chain of length `len`. */
  function ArmGenes(arm: Arm, len: nat): (r: seq<Gene>)
    ensures |r| == len && forall i :: 0 <= i < len ==> r[i] == At(arm, i + 1)
  {
    seq(len, i requires 0 <= i < len => At(arm, i + 1))
  }

  /** The genes in the order `Set_Topology` names them: `A`, `B1 .. Bn`, `C1 .. Cm`. */
  function Genes(n: nat, m: nat): seq<Gene> {
    [A] + ArmGenes(ArmB, n) + ArmGenes(ArmC, m)
  }

  /** `index_list`. */
  function NodeNames(n: nat, m: nat): seq<string> {
    Names(Genes(n, m))
  }

  lemma GenesAt(n: nat, m: nat, p: nat)
    requires p < n + m + 1
    ensures |Genes(n, m)| == n + m + 1
    ensures Genes(n, m)[p] == if p == 0 then A else if p <= n then B(p) else C(p - n)
  {
  }

  /** The genes are `A` and the chain genes numbered from 1 to the chain's length. */
  lemma GenesMembers(n: nat, m: nat, g: Gene)
    ensures g in Genes(n, m) <==> g.A? || (g.B? && 1 <= g.i <= n) || (g.C? && 1 <= g.i <= m)
  {
    if g in Genes(n, m) {
      var p :| 0 <= p < |Genes(n, m)| && Genes(n, m)[p] == g;
      GenesAt(n, m, p);
    }
    match g
    case A => GenesAt(n, m, 0);
    case B(i) => if 1 <= i <= n { GenesAt(n, m, i); }
    case C(i) => if 1 <= i <= m { GenesAt(n, m, n + i); }
  }

  /** `Total_Nodes = n + m + 1` nodes with different names, which are exactly the
      names of `A` and of the chain genes numbered from 1. */
  lemma NodeNamesSpec(n: nat, m: nat)
    ensures |NodeNames(n, m)| == n + m + 1 && Distinct(NodeNames(n, m))
    ensures forall g :: Name(g) in NodeNames(n, m) <==> g.A? || (g.B? && 1 <= g.i <= n) || (g.C? && 1 <= g.i <= m)
    ensures forall k :: k in NodeNames(n, m) ==> exists g :: g in Genes(n, m) && k == Name(g)
  {
    var gs := Genes(n, m);
    forall i, j | 0 <= i < j < |gs| ensures gs[i] != gs[j] {
      GenesAt(n, m, i);
      GenesAt(n, m, j);
    }
    NamesDistinct(gs);
    forall g ensures Name(g) in NodeNames(n, m) <==> g.A? || (g.B? && 1 <= g.i <= n) || (g.C? && 1 <= g.i <= m) {
      NamesIn(gs, g);
      GenesMembers(n, m, g);
    }
    forall k | k in NodeNames(n, m) ensures exists g :: g in gs && k == Name(g) {
      var p :| 0 <= p < |gs| && NodeNames(n, m)[p] == k;
      assert gs[p] in gs && k == Name(gs[p]);
    }
  }

  /** The loops of `Set_Topology` that build `index_list`: `A`, then `B%d` for
      `1 .. n`, then `C%d` for `1 .. m`. */
  method IndexList(n: nat, m: nat) returns (names: seq<string>)
    ensures names == NodeNames(n, m)
  {
    names := ["A"];
    var i := 0;
    while i < n
      invariant i <= n && names == Names([A] + ArmGenes(ArmB, i))
    {
      assert [A] + ArmGenes(ArmB, i + 1) == [A] + ArmGenes(ArmB, i) + [B(i + 1)];
      names := names + [Name(B(i + 1))];
      i := i + 1;
    }
    i := 0;
    while i < m
      invariant i <= m && names == Names([A] + ArmGenes(ArmB, n) + ArmGenes(ArmC, i))
    {
      assert [A] + ArmGenes(ArmB, n) + ArmGenes(ArmC, i + 1) == [A] + ArmGenes(ArmB, n) + ArmGenes(ArmC, i) + [C(i + 1)];
      names := names + [Name(C(i + 1))];
      i := i + 1;
    }
  }

  // ---------------------------------------------------------------- the links

  /** `(c1, c2), .., (c(len-1), c len)`: the links of one chain. */
  function ArmLinks(arm: Arm, len: nat): (r: seq<(Gene, Gene)>)
    ensures |r| == (if len > 0 then len - 1 else 0)
    ensures forall i :: 0 <= i < |r| ==> r[i] == (At(arm, i + 1), At(arm, i + 2))
  {
    seq(if len > 0 then len - 1 else 0, i requires 0 <= i => (At(arm, i + 1), At(arm, i + 2)))
  }

  /** The four links that close the figure 8 at `A`: `(B1, A)`, `(Bn, A)`,
      `(C1, A)`, `(Cm, A)`. */
  function ClosingLinks(n: nat, m: nat): seq<(Gene, Gene)> {
    [(B(1), A), (B(n), A), (C(1), A), (C(m), A)]
  }

  /** The links in the order `Set_Topology` adds them: the B chain, the C chain,
      then the closing four. */
  function GeneLinks(n: nat, m: nat): seq<(Gene, Gene)> {
    ArmLinks(ArmB, n) + ArmLinks(ArmC, m) + ClosingLinks(n, m)
  }

  /** The links by node name. */
  function TopologyLinks(n: nat, m: nat): seq<(string, string)> {
    NamePairs(GeneLinks(n, m))
  }

  /** Both ends of every link are among the names. */
  predicate AllIn<K(==)>(pairs: seq<(K, K)>, names: seq<K>) {
    forall i :: 0 <= i < |pairs| ==> pairs[i].0 in names && pairs[i].1 in names
  }

  /** The keys of `Links` after each pair is stored in turn: a new pair is appended,
      one already there keeps its place. */
  function Registered<K(==)>(keys: seq<K>, pairs: seq<K>): seq<K>
    decreases |pairs|
  {
    if |pairs| == 0 then keys
    else
      var front := Registered(keys, pairs[..|pairs| - 1]);
      if pairs[|pairs| - 1] in front then front else front + [pairs[|pairs| - 1]]
  }

  /** What one link `(a, b)` gives the neighbour list of `k`: `b` when `k` is `a`,
      then `a` when `k` is `b`. */
  function Ends<K(==)>(k: K, p: (K, K)): seq<K> {
    (if k == p.0 then [p.1] else []) + (if k == p.1 then [p.0] else [])
  }

  /** The neighbours the links give `k`, in the order the links are added. */
  function Adjacent<K(==)>(k: K, pairs: seq<(K, K)>): seq<K>
    decreases |pairs|
  {
    if |pairs| == 0 then [] else Adjacent(k, pairs[..|pairs| - 1]) + Ends(k, pairs[|pairs| - 1])
  }

  /** The neighbour lists `ns` of the nodes `names` after the links. */
  function Neighbored<K(==)>(ns: seq<seq<K>>, names: seq<K>, pairs: seq<(K, K)>): (r: seq<seq<K>>)
    requires |ns| == |names|
    ensures |r| == |ns| && forall i :: 0 <= i < |ns| ==> r[i] == ns[i] + Adjacent(names[i], pairs)
  {
    seq(|ns|, i requires 0 <= i < |ns| => ns[i] + Adjacent(names[i], pairs))
  }

  lemma NeighboredNone<K>(ns: seq<seq<K>>, names: seq<K>)
    requires |ns| == |names|
    ensures Neighbored(ns, names, []) == ns
  {
    forall i | 0 <= i < |ns| ensures Neighbored(ns, names, [])[i] == ns[i] {
      assert Adjacent(names[i], []) == [];
      assert ns[i] + [] == ns[i];
    }
  }

  /** Links added in two runs give the neighbours of the links of both. */
  lemma {:induction false} AdjacentAppend<K>(k: K, a: seq<(K, K)>, b: seq<(K, K)>)
    ensures Adjacent(k, a + b) == Adjacent(k, a) + Adjacent(k, b)
    decreases |b|
  {
    if |b| == 0 {
      assert a + b == a;
    } else {
      assert (a + b)[..|a + b| - 1] == a + b[..|b| - 1];
      AdjacentAppend(k, a, b[..|b| - 1]);
    }
  }

  lemma AllInAppend<K>(a: seq<(K, K)>, b: seq<(K, K)>, names: seq<K>)
    ensures AllIn(a + b, names) <==> AllIn(a, names) && AllIn(b, names)
  {
    if AllIn(a, names) && AllIn(b, names) {
      forall i | 0 <= i < |a + b| ensures (a + b)[i].0 in names && (a + b)[i].1 in names {
        if i >= |a| {
          assert (a + b)[i] == b[i - |a|];
        }
      }
    }
    if AllIn(a + b, names) {
      forall i | 0 <= i < |a| ensures a[i].0 in names && a[i].1 in names {
        assert (a + b)[i] == a[i];
      }
      forall i | 0 <= i < |b| ensures b[i].0 in names && b[i].1 in names {
        assert (a + b)[|a| + i] == b[i];
      }
    }
  }

  /** What `Add_a_Link(pairs[i])` does to the state after `pairs[..i]`: with both
      ends present it extends the prefix by one, otherwise the whole list fails. */
  lemma LinkStep(ns: seq<seq<string>>, names: seq<string>, keys: seq<(string, string)>, pairs: seq<(string, string)>, i: nat)
    requires |ns| == |names| && i < |pairs| && AllIn(pairs[..i], names)
    ensures pairs[i].0 in names && pairs[i].1 in names ==>
      && AllIn(pairs[..i + 1], names)
      && Joined(Neighbored(ns, names, pairs[..i]), names, pairs[i]) == Neighbored(ns, names, pairs[..i + 1])
      && (if pairs[i] in Registered(keys, pairs[..i]) then Registered(keys, pairs[..i])
          else Registered(keys, pairs[..i]) + [pairs[i]]) == Registered(keys, pairs[..i + 1])
    ensures !(pairs[i].0 in names && pairs[i].1 in names) ==> !AllIn(pairs, names)
  {
    var front, p := pairs[..i], pairs[i];
    assert pairs[..i + 1][..i] == front && pairs[..i + 1] == front + [p];
    AllInAppend(front, [p], names);
    if p.0 in names && p.1 in names {
      forall j | 0 <= j < |ns|
        ensures Joined(Neighbored(ns, names, front), names, p)[j] == Neighbored(ns, names, front + [p])[j]
      {
        assert Appended(names[j], p, names) == Ends(names[j], p);
      }
    } else {
      AllInAppend(pairs[..i + 1], pairs[i + 1..], names);
      assert pairs[..i + 1] + pairs[i + 1..] == pairs;
    }
  }

  /** `Add_a_Link` for each pair in turn; the first missing end node is the KeyError,
      which ends the loop. */
  method AddLinks(net: Network, pairs: seq<(string, string)>) returns (r: Outcome)
    requires net.Valid()
    modifies net, net.NodeObjects()
    ensures net.Valid() && net.nodes == old(net.nodes)
    ensures r == Pass <==> AllIn(pairs, Keys(net.nodes))
    ensures r.Fail? ==> r == Fail(MissingKey)
    ensures r == Pass ==> Keys(net.links) == Registered(old(Keys(net.links)), pairs)
    ensures r == Pass ==> net.Neighborhoods() == Neighbored(old(net.Neighborhoods()), Keys(net.nodes), pairs)
  {
    ghost var ns, names, keys := net.Neighborhoods(), Keys(net.nodes), Keys(net.links);
    NeighboredNone(ns, names);
    var i := 0;
    while i < |pairs|
      invariant i <= |pairs| && net.Valid() && net.nodes == old(net.nodes)
      invariant AllIn(pairs[..i], names)
      invariant Keys(net.links) == Registered(keys, pairs[..i])
      invariant net.Neighborhoods() == Neighbored(ns, names, pairs[..i])
    {
      LinkStep(ns, names, keys, pairs, i);
      r := net.AddALink(pairs[i]);
      if r.Fail? {
        return;
      }
      i := i + 1;
    }
    assert pairs[..i] == pairs;
    r := Pass;
  }

  /** The second half of `Set_Topology()`: each link of `TopologyLinks` in turn, on
      nodes without neighbours. A link with a missing end is the KeyError, which
      ends it. */
  method LinkTopology(net: Network, n: nat, m: nat) returns (r: Outcome)
    requires net.Valid() && forall i :: 0 <= i < |net.nodes| ==> net.nodes[i].1.neighbors == []
    modifies net, net.NodeObjects()
    ensures net.Valid() && net.nodes == old(net.nodes)
    ensures r == Pass <==> AllIn(TopologyLinks(n, m), Keys(net.nodes))
    ensures r.Fail? ==> r == Fail(MissingKey)
    ensures r == Pass ==> Keys(net.links) == Registered(old(Keys(net.links)), TopologyLinks(n, m))
    ensures r == Pass ==> forall i :: 0 <= i < |net.nodes| ==> net.nodes[i].1.neighbors == Adjacent(net.nodes[i].0, TopologyLinks(n, m))
  {
    ghost var keys, ns := Keys(net.nodes), net.Neighborhoods();
    FromEmpty(ns, keys, TopologyLinks(n, m));
    r := AddLinks(net, TopologyLinks(n, m));
    if r == Pass {
      assert forall i :: 0 <= i < |net.nodes| ==> keys[i] == net.nodes[i].0;
    }
  }

  /** The first half of `Set_Topology()` on the empty network: `index_list`, then
      `Set_Nodes`, which gives every name a new node without neighbours. */
  method PlaceNodes(net: Network, n: nat, m: nat)
    requires net.Valid() && net.nodes == [] && net.links == []
    modifies net
    ensures net.Valid() && net.links == []
    ensures forall k :: k in Keys(net.nodes) <==> k in NodeNames(n, m)
    ensures forall o :: o in net.NodeObjects() ==> fresh(o)
    ensures forall i :: 0 <= i < |net.nodes| ==> net.nodes[i].1.neighbors == []
  {
    var names := IndexList(n, m);
    net.SetNodes(names);
    forall i | 0 <= i < |net.nodes| ensures fresh(net.nodes[i].1) && net.nodes[i].1.neighbors == [] {
      FindDistinct(net.nodes, i);
      assert Keys(net.nodes)[i] == net.nodes[i].0;
    }
  }

  /** `Set_Topology()` on the empty network: the nodes `A, B1 .. Bn, C1 .. Cm`, then
      the links. Every node ends with the neighbours the links give it. */
  method SetTopology(net: Network, n: nat, m: nat) returns (r: Outcome)
    requires net.Valid() && net.nodes == [] && net.links == []
    modifies net
    ensures net.Valid()
    ensures forall k :: k in Keys(net.nodes) <==> k in NodeNames(n, m)
    ensures r == Pass <==> AllIn(TopologyLinks(n, m), NodeNames(n, m))
    ensures r.Fail? ==> r == Fail(MissingKey)
    ensures r == Pass ==> Keys(net.links) == Registered([], TopologyLinks(n, m))
    ensures r == Pass ==> forall i :: 0 <= i < |net.nodes| ==> net.nodes[i].1.neighbors == Adjacent(net.nodes[i].0, TopologyLinks(n, m))
  {
    PlaceNodes(net, n, m);
    AllInSame(TopologyLinks(n, m), Keys(net.nodes), NodeNames(n, m));
    r := LinkTopology(net, n, m);
  }

  /** Lists that start empty hold just the neighbours the links give. */
  lemma FromEmpty<K>(ns: seq<seq<K>>, names: seq<K>, pairs: seq<(K, K)>)
    requires |ns| == |names| && forall i :: 0 <= i < |ns| ==> ns[i] == []
    ensures forall i :: 0 <= i < |ns| ==> Neighbored(ns, names, pairs)[i] == Adjacent(names[i], pairs)
  {
  }

  /** Names with the same members hold the same links. */
  lemma AllInSame<K>(pairs: seq<(K, K)>, a: seq<K>, b: seq<K>)
    requires forall k :: k in a <==> k in b
    ensures AllIn(pairs, a) <==> AllIn(pairs, b)
  {
  }


  // ---------------------------------------------------------------- properties of the topology

  lemma GeneLinksAt(n: nat, m: nat, p: nat)
    requires p < |GeneLinks(n, m)|
    ensures var nb, nc := if n > 0 then n - 1 else 0, if m > 0 then m - 1 else 0;
      |GeneLinks(n, m)| == nb + nc + 4 &&
      GeneLinks(n, m)[p] ==
        if p < nb then (B(p + 1), B(p + 2))
        else if p < nb + nc then (C(p - nb + 1), C(p - nb + 2))
        else ClosingLinks(n, m)[p - nb - nc]
  {
  }

  /** A chain of `len + 1` genes is the chain of `len` and one more link. */
  lemma ArmLinksStep(arm: Arm, len: nat)
    requires len >= 1
    ensures ArmLinks(arm, len + 1) == ArmLinks(arm, len) + [(At(arm, len), At(arm, len + 1))]
  {
  }

  /** No link of the list touches `k`: it gains no neighbours. */
  lemma {:induction false} AdjacentNone<K>(k: K, pairs: seq<(K, K)>)
    requires forall i :: 0 <= i < |pairs| ==> pairs[i].0 != k && pairs[i].1 != k
    ensures Adjacent(k, pairs) == []
    decreases |pairs|
  {
    if |pairs| > 0 {
      AdjacentNone(k, pairs[..|pairs| - 1]);
    }
  }

  lemma AdjacentFour<K>(k: K, a: (K, K), b: (K, K), c: (K, K), d: (K, K))
    ensures Adjacent(k, [a, b, c, d]) == Ends(k, a) + Ends(k, b) + Ends(k, c) + Ends(k, d)
  {
    assert Adjacent(k, [a]) == Ends(k, a) by {
      assert [a][..0] == [];
      assert [] + Ends(k, a) == Ends(k, a);
    }
    assert Adjacent(k, [a, b]) == Ends(k, a) + Ends(k, b) by {
      assert [a, b][..1] == [a];
    }
    assert Adjacent(k, [a, b, c]) == Ends(k, a) + Ends(k, b) + Ends(k, c) by {
      assert [a, b, c][..2] == [a, b];
    }
    assert [a, b, c, d][..3] == [a, b, c];
  }

  /** Gene `i` of a chain of length `len` has its predecessor, then its successor. */
  function ArmAdjacency(arm: Arm, len: nat, i: nat): seq<Gene> {
    (if 1 < i <= len then [At(arm, i - 1)] else []) + (if i < len then [At(arm, i + 1)] else [])
  }

  /** In a chain, gene `i` has its predecessor, then its successor. */
  lemma {:induction false} ArmAdjacent(arm: Arm, len: nat, i: nat)
    requires i >= 1
    ensures Adjacent(At(arm, i), ArmLinks(arm, len)) == ArmAdjacency(arm, len, i)
  {
    if len <= 1 {
      assert ArmLinks(arm, len) == [];
    } else {
      ArmAdjacent(arm, len - 1, i);
      ArmLinksStep(arm, len - 1);
      assert ArmLinks(arm, len)[..|ArmLinks(arm, len)| - 1] == ArmLinks(arm, len - 1);
    }
  }

  /** Gene by gene: `A` is linked to `B1`, `Bn`, `C1` and `Cm`, in that order. */
  lemma GeneNeighborsOfA(n: nat, m: nat)
    ensures Adjacent(A, GeneLinks(n, m)) == [B(1), B(n), C(1), C(m)]
  {
    var b, c := ArmLinks(ArmB, n), ArmLinks(ArmC, m);
    AdjacentNone(A, b);
    AdjacentNone(A, c);
    AdjacentAppend(A, b + c, ClosingLinks(n, m));
    AdjacentAppend(A, b, c);
    AdjacentFour(A, (B(1), A), (B(n), A), (C(1), A), (C(m), A));
  }

  /** The length of a chain. */
  function ArmLength(arm: Arm, n: nat, m: nat): nat {
    match arm
    case ArmB => n
    case ArmC => m
  }

  /** The closing links give chain gene `i` the hub once for being first and once
      for being last. */
  lemma ClosingAdjacent(n: nat, m: nat, arm: Arm, i: nat)
    requires 1 <= i
    ensures Adjacent(At(arm, i), ClosingLinks(n, m)) ==
      (if i == 1 then [A] else []) + (if i == ArmLength(arm, n, m) then [A] else [])
  {
    var g := At(arm, i);
    AdjacentFour(g, (B(1), A), (B(n), A), (C(1), A), (C(m), A));
    if arm == ArmB {
      assert Ends(g, (C(1), A)) == [] && Ends(g, (C(m), A)) == [];
    } else {
      assert Ends(g, (B(1), A)) == [] && Ends(g, (B(n), A)) == [];
    }
  }

  /** Gene by gene: chain gene `i` is linked to its predecessor, its successor, and
      `A` once for being the first gene and once for being the last. */
  lemma GeneNeighborsOfArm(n: nat, m: nat, arm: Arm, i: nat)
    requires 1 <= i
    ensures Adjacent(At(arm, i), GeneLinks(n, m)) ==
      ArmAdjacency(arm, ArmLength(arm, n, m), i) + (if i == 1 then [A] else []) + (if i == ArmLength(arm, n, m) then [A] else [])
  {
    var g := At(arm, i);
    var b, c := ArmLinks(ArmB, n), ArmLinks(ArmC, m);
    if arm == ArmB {
      ArmAdjacent(ArmB, n, i);
      AdjacentNone(g, c);
      assert Adjacent(g, b + c) == Adjacent(g, b) by {
        AdjacentAppend(g, b, c);
      }
    } else {
      ArmAdjacent(ArmC, m, i);
      AdjacentNone(g, b);
      assert Adjacent(g, b + c) == Adjacent(g, c) by {
        AdjacentAppend(g, b, c);
      }
    }
    var x := ArmAdjacency(arm, ArmLength(arm, n, m), i);
    var z, w := (if i == 1 then [A] else []), (if i == ArmLength(arm, n, m) then [A] else []);
    assert Adjacent(g, b + c) == x;
    AdjacentAppend(g, b + c, ClosingLinks(n, m));
    ClosingAdjacent(n, m, arm, i);
    assert Adjacent(g, GeneLinks(n, m)) == x + (z + w);
    SeqAssoc(x, z, w);
  }

  /** By name: node `A` is linked to `B1`, `Bn`, `C1` and `Cm`, in that order. */
  lemma NeighborsOfA(n: nat, m: nat)
    ensures Adjacent("A", TopologyLinks(n, m)) == [Name(B(1)), Name(B(n)), Name(C(1)), Name(C(m))]
  {
    GeneNeighborsOfA(n, m);
    AdjacentNames(A, GeneLinks(n, m));
  }

  /** By name: chain node `i` is linked to its predecessor, its successor, and `A`
      once for being the first node and once for being the last. With a chain of
      one node both closing links are the same pair, so that node lists `A` twice. */
  lemma NeighborsOfArm(n: nat, m: nat, arm: Arm, i: nat)
    requires 1 <= i
    ensures Adjacent(Name(At(arm, i)), TopologyLinks(n, m)) ==
      Names(ArmAdjacency(arm, ArmLength(arm, n, m), i)) + (if i == 1 then ["A"] else []) + (if i == ArmLength(arm, n, m) then ["A"] else [])
  {
    var len := ArmLength(arm, n, m);
    GeneNeighborsOfArm(n, m, arm, i);
    AdjacentNames(At(arm, i), GeneLinks(n, m));
    var x, z, w := ArmAdjacency(arm, len, i), (if i == 1 then [A] else []), (if i == len then [A] else []);
    NamesAppend(x, z);
    NamesAppend(x + z, w);
    assert Names(z) == (if i == 1 then ["A"] else []);
    assert Names(w) == (if i == len then ["A"] else []);
  }

  /** Every link ends at a node exactly when both chains have at least one gene;
      with an empty chain the closing link `(B0, A)` or `(C0, A)` is the KeyError. */
  lemma TopologyComplete(n: nat, m: nat)
    ensures AllIn(TopologyLinks(n, m), NodeNames(n, m)) <==> n >= 1 && m >= 1
  {
    var gs, ps := Genes(n, m), GeneLinks(n, m);
    AllInNames(ps, gs);
    if n >= 1 && m >= 1 {
      forall p | 0 <= p < |ps| ensures ps[p].0 in gs && ps[p].1 in gs {
        GeneLinksAt(n, m, p);
        GenesMembers(n, m, ps[p].0);
        GenesMembers(n, m, ps[p].1);
      }
    } else {
      var p := if n == 0 then |ps| - 3 else |ps| - 1;
      GeneLinksAt(n, m, p);
      GenesMembers(n, m, ps[p].0);
    }
  }

  /** Storing distinct pairs one by one keeps them all, in order. */
  lemma {:induction false} RegisteredDistinct<K>(pairs: seq<K>)
    requires Distinct(pairs)
    ensures Registered([], pairs) == pairs
    decreases |pairs|
  {
    if |pairs| > 0 {
      var front := pairs[..|pairs| - 1];
      assert Distinct(front);
      RegisteredDistinct(front);
      assert pairs[|pairs| - 1] !in front;
      assert front + [pairs[|pairs| - 1]] == pairs;
    }
  }

  /** With chains of at least two genes the `n + m + 2` links are all different, so
      `Links` keeps every one of them, in the order they were added. */
  lemma TopologyLinksDistinct(n: nat, m: nat)
    requires n >= 2 && m >= 2
    ensures |TopologyLinks(n, m)| == n + m + 2 && Distinct(TopologyLinks(n, m))
    ensures Registered([], TopologyLinks(n, m)) == TopologyLinks(n, m)
  {
    var ps := GeneLinks(n, m);
    forall i, j | 0 <= i < j < |ps| ensures ps[i] != ps[j] {
      GeneLinksAt(n, m, i);
      GeneLinksAt(n, m, j);
    }
    NamePairsDistinct(ps);
    RegisteredDistinct(TopologyLinks(n, m));
  }

  /** With a chain of one gene, `(B1, A)` and `(Bn, A)` are the same pair: `Links`
      stores it once. */
  lemma ShortChainLink(m: nat)
    ensures GeneLinks(1, m)[|GeneLinks(1, m)| - 4] == GeneLinks(1, m)[|GeneLinks(1, m)| - 3] == (B(1), A)
  {
  }

  // ---------------------------------------------------------------- the estimator

  /** `Set_Estimator()`: a binning estimator of `Q` states over the four coordinates
      of a link, its source in realtime mode. */
  method SetEstimator(q: int) returns (e: SimpleBinning.Estimator)
    ensures fresh(e) && fresh(e.source)
    ensures e.name == "Simple_Binning_Method" && e.source.analysis == "Realtime" && e.source.kind == "Pairwise"
    ensures e.source.q == q && e.source.dimension == 4
    ensures e.source.statistics == [] && e.source.variableNames == None
  {
    e := new SimpleBinning.Estimator(q, 4);
    e.source.analysis := "Realtime";
  }

  // ---------------------------------------------------------------- the dynamics

  /** `State_Space[k]`; a missing node is the KeyError. */
  function Read<K(==)>(s: Dict<K, int>, k: K): (r: Result<int>)
    ensures r.Ok? <==> k in Keys(s)
    ensures r.Ok? ==> Get(s, k) == Some(r.value)
    ensures r.Err? ==> r.error == MissingKey
  {
    match Get(s, k)
    case None => Err(MissingKey)
    case Some(v) =>
      GetIn(s, k);
      Ok(v)
  }

  /** `Update_Buffer[dst[j]] = State_Space[src[j]]` for each `j` in turn; a missing
      source node is the KeyError, which ends it. */
  function Shifted<K(==)>(s: Dict<K, int>, b: Dict<K, int>, dst: seq<K>, src: seq<K>): (r: Result<Dict<K, int>>)
    requires |dst| == |src|
    ensures r.Err? ==> r.error == MissingKey
    decreases |dst|
  {
    if |dst| == 0 then Ok(b)
    else
      var v :- Read(s, src[0]);
      Shifted(s, Put(b, dst[0], v), dst[1..], src[1..])
  }

  /** The copy succeeds exactly when every source is a node; then each target holds
      its source's value and every other entry of the buffer is as it was. */
  lemma ShiftedSpec<K>(s: Dict<K, int>, b: Dict<K, int>, dst: seq<K>, src: seq<K>)
    requires |dst| == |src|
    ensures Shifted(s, b, dst, src).Ok? <==> forall i :: 0 <= i < |src| ==> src[i] in Keys(s)
    ensures Shifted(s, b, dst, src).Ok? ==>
      forall k :: k !in dst ==> Get(Shifted(s, b, dst, src).value, k) == Get(b, k)
    ensures Shifted(s, b, dst, src).Ok? && Distinct(dst) ==>
      forall i :: 0 <= i < |dst| ==> Get(Shifted(s, b, dst, src).value, dst[i]) == Get(s, src[i])
  {
    ShiftedOk(s, b, dst, src);
    ShiftedKeeps(s, b, dst, src);
    ShiftedPlaces(s, b, dst, src);
  }

  lemma {:induction false} ShiftedOk<K>(s: Dict<K, int>, b: Dict<K, int>, dst: seq<K>, src: seq<K>)
    requires |dst| == |src|
    ensures Shifted(s, b, dst, src).Ok? <==> forall i :: 0 <= i < |src| ==> src[i] in Keys(s)
    decreases |dst|
  {
    if |dst| > 0 {
      var v := Read(s, src[0]);
      ShiftedOk(s, Put(b, dst[0], if v.Ok? then v.value else 0), dst[1..], src[1..]);
      assert forall i :: 1 <= i < |src| ==> src[1..][i - 1] == src[i];
    }
  }

  lemma {:induction false} ShiftedKeeps<K>(s: Dict<K, int>, b: Dict<K, int>, dst: seq<K>, src: seq<K>)
    requires |dst| == |src|
    ensures Shifted(s, b, dst, src).Ok? ==>
      forall k :: k !in dst ==> Get(Shifted(s, b, dst, src).value, k) == Get(b, k)
    decreases |dst|
  {
    if |dst| > 0 {
      var v := Read(s, src[0]);
      if v.Ok? {
        var b1 := Put(b, dst[0], v.value);
        ShiftedKeeps(s, b1, dst[1..], src[1..]);
        var r := Shifted(s, b, dst, src);
        assert r == Shifted(s, b1, dst[1..], src[1..]);
        if r.Ok? {
          forall k | k !in dst ensures Get(r.value, k) == Get(b, k) {
            PutGetOther(b, dst[0], v.value, k);
          }
        }
      }
    }
  }

  lemma {:induction false} ShiftedPlaces<K>(s: Dict<K, int>, b: Dict<K, int>, dst: seq<K>, src: seq<K>)
    requires |dst| == |src|
    ensures Shifted(s, b, dst, src).Ok? && Distinct(dst) ==>
      forall i :: 0 <= i < |dst| ==> Get(Shifted(s, b, dst, src).value, dst[i]) == Get(s, src[i])
    decreases |dst|
  {
    if |dst| > 0 {
      var v := Read(s, src[0]);
      if v.Ok? {
        var b1 := Put(b, dst[0], v.value);
        ShiftedKeeps(s, b1, dst[1..], src[1..]);
        ShiftedPlaces(s, b1, dst[1..], src[1..]);
        var r := Shifted(s, b, dst, src);
        assert r == Shifted(s, b1, dst[1..], src[1..]);
        if r.Ok? && Distinct(dst) {
          assert Distinct(dst[1..]) && dst[0] !in dst[1..];
          forall i | 0 <= i < |dst| ensures Get(r.value, dst[i]) == Get(s, src[i]) {
            if i > 0 {
              assert dst[1..][i - 1] == dst[i] && src[1..][i - 1] == src[i];
            }
          }
        }
      }
    }
  }

  /** One copy of the run from place `j` on. */
  lemma ShiftStep<K>(s: Dict<K, int>, b: Dict<K, int>, dst: seq<K>, src: seq<K>, j: nat)
    requires |dst| == |src| && j < |dst|
    ensures Shifted(s, b, dst[j..], src[j..]) ==
      if Read(s, src[j]).Err? then Err(MissingKey)
      else Shifted(s, Put(b, dst[j], Read(s, src[j]).value), dst[j + 1..], src[j + 1..])
  {
    assert dst[j..][1..] == dst[j + 1..] && src[j..][1..] == src[j + 1..];
  }

  /** The genes a chain copies to: `c1 .. c len` (just `c1` for an empty chain). */
  function Targets(arm: Arm, len: nat): seq<Gene> {
    ArmGenes(arm, if len > 0 then len else 1)
  }

  /** The genes they copy from: `A`, then `c1 .. c(len-1)`. */
  function Sources(arm: Arm, len: nat): (r: seq<Gene>)
    ensures |r| == |Targets(arm, len)|
  {
    [A] + ArmGenes(arm, if len > 0 then len - 1 else 0)
  }

  /** The buffer after `Dynamics_of_States()`: `B1 = A`, `B(i+2) = B(i+1)`, the same
      for the C chain, then `A = 1` if `Bn == 1 and Cm == 0`, else `A = 0`. The
      `and` reads `Cm` only when `Bn` is 1; every read of a missing node is the
      KeyError. */
  function AbnNext(n: nat, m: nat, s: States, b: States): (r: Result<States>)
    ensures r.Err? ==> r.error == MissingKey
  {
    var b1 :- Shifted(s, b, Names(Targets(ArmB, n)), Names(Sources(ArmB, n)));
    var b2 :- Shifted(s, b1, Names(Targets(ArmC, m)), Names(Sources(ArmC, m)));
    var bn :- Read(s, Name(B(n)));
    if bn == 1 then
      var cm :- Read(s, Name(C(m)));
      Ok(Put(b2, "A", if cm == 0 then 1 else 0))
    else
      Ok(Put(b2, "A", 0))
  }

  /** The loop over one chain: `Update_Buffer[c1] = State_Space["A"]`, then
      `Update_Buffer[c(i+2)] = State_Space[c(i+1)]` for `i` in `range(len - 1)`. */
  method ShiftChain(arm: Arm, len: nat, state: States, buffer: States) returns (r: Result<States>)
    ensures r == Shifted(state, buffer, Names(Targets(arm, len)), Names(Sources(arm, len)))
  {
    ghost var dst, src := Names(Targets(arm, len)), Names(Sources(arm, len));
    ShiftStep(state, buffer, dst, src, 0);
    var a := Read(state, "A");
    if a.Err? {
      return Err(MissingKey);
    }
    var b := Put(buffer, Name(At(arm, 1)), a.value);
    var i := 0;
    while i + 1 < len
      invariant i + 1 <= |dst|
      invariant Shifted(state, b, dst[i + 1..], src[i + 1..]) == Shifted(state, buffer, dst, src)
    {
      ShiftStep(state, b, dst, src, i + 1);
      var v := Read(state, Name(At(arm, i + 1)));
      if v.Err? {
        return Err(MissingKey);
      }
      b := Put(b, Name(At(arm, i + 2)), v.value);
      i := i + 1;
    }
    return Ok(b);
  }

  /** `Dynamics_of_States()`: the B chain, the C chain, then the rule for `A`. */
  method DynamicsOfStates(n: nat, m: nat, state: States, buffer: States) returns (r: Result<States>)
    ensures r == AbnNext(n, m, state, buffer)
  {
    var b1 := ShiftChain(ArmB, n, state, buffer);
    if b1.Err? {
      return Err(MissingKey);
    }
    var b2 := ShiftChain(ArmC, m, state, b1.value);
    if b2.Err? {
      return Err(MissingKey);
    }
    var bn := Read(state, Name(B(n)));
    if bn.Err? {
      return Err(MissingKey);
    }
    if bn.value == 1 {
      var cm := Read(state, Name(C(m)));
      if cm.Err? {
        return Err(MissingKey);
      }
      if cm.value == 0 {
        r := Ok(Put(b2.value, "A", 1));
      } else {
        r := Ok(Put(b2.value, "A", 0));
      }
    } else {
      r := Ok(Put(b2.value, "A", 0));
    }
  }

  // ---------------------------------------------------------------- properties of the dynamics

  /** What a chain reads: `A`, and every gene of the chain but the last. */
  predicate ChainReadable(arm: Arm, len: nat, s: States) {
    "A" in Keys(s) && forall i :: 1 <= i < len ==> Name(At(arm, i)) in Keys(s)
  }

  lemma SourcesAt(arm: Arm, len: nat, i: nat)
    requires i < |Sources(arm, len)|
    ensures Names(Sources(arm, len))[i] == if i == 0 then "A" else Name(At(arm, i))
    ensures i > 0 ==> i < len
  {
  }

  lemma TargetsAt(arm: Arm, len: nat, i: nat)
    requires i < |Targets(arm, len)|
    ensures Names(Targets(arm, len))[i] == Name(At(arm, i + 1))
  {
  }

  lemma TargetsDistinct(arm: Arm, len: nat)
    ensures Distinct(Names(Targets(arm, len)))
  {
    var ts := Targets(arm, len);
    assert forall i, j :: 0 <= i < j < |ts| ==> ts[i] != ts[j];
    NamesDistinct(ts);
  }

  /** The copy of one chain succeeds exactly when the chain can be read. */
  lemma ChainDefined(arm: Arm, len: nat, s: States, b: States)
    ensures Shifted(s, b, Names(Targets(arm, len)), Names(Sources(arm, len))).Ok? <==> ChainReadable(arm, len, s)
  {
    var dst, src := Names(Targets(arm, len)), Names(Sources(arm, len));
    ShiftedSpec(s, b, dst, src);
    if ChainReadable(arm, len, s) {
      forall i | 0 <= i < |src| ensures src[i] in Keys(s) {
        SourcesAt(arm, len, i);
      }
    }
    if forall i :: 0 <= i < |src| ==> src[i] in Keys(s) {
      SourcesAt(arm, len, 0);
      forall i | 1 <= i < len ensures Name(At(arm, i)) in Keys(s) {
        SourcesAt(arm, len, i);
      }
    }
  }

  /** After the copy of one chain, `c1` holds `A`. */
  lemma ChainFirst(arm: Arm, len: nat, s: States, b: States)
    requires Shifted(s, b, Names(Targets(arm, len)), Names(Sources(arm, len))).Ok?
    ensures Get(Shifted(s, b, Names(Targets(arm, len)), Names(Sources(arm, len))).value, Name(At(arm, 1))) == Get(s, "A")
  {
    TargetsDistinct(arm, len);
    ShiftedSpec(s, b, Names(Targets(arm, len)), Names(Sources(arm, len)));
    TargetsAt(arm, len, 0);
    SourcesAt(arm, len, 0);
  }

  /** After the copy of one chain, `c(i+1)` holds `ci`. */
  lemma ChainNext(arm: Arm, len: nat, s: States, b: States, i: nat)
    requires Shifted(s, b, Names(Targets(arm, len)), Names(Sources(arm, len))).Ok?
    requires 1 <= i < len
    ensures Get(Shifted(s, b, Names(Targets(arm, len)), Names(Sources(arm, len))).value, Name(At(arm, i + 1))) == Get(s, Name(At(arm, i)))
  {
    TargetsDistinct(arm, len);
    ShiftedSpec(s, b, Names(Targets(arm, len)), Names(Sources(arm, len)));
    TargetsAt(arm, len, i);
    SourcesAt(arm, len, i);
  }

  /** The copy of one chain leaves every entry but its targets as it was. */
  lemma ChainOthers(arm: Arm, len: nat, s: States, b: States, k: string)
    requires Shifted(s, b, Names(Targets(arm, len)), Names(Sources(arm, len))).Ok?
    requires k !in Names(Targets(arm, len))
    ensures Get(Shifted(s, b, Names(Targets(arm, len)), Names(Sources(arm, len))).value, k) == Get(b, k)
  {
    ShiftedSpec(s, b, Names(Targets(arm, len)), Names(Sources(arm, len)));
  }

  /** Chain genes are never the hub, and a gene of one chain is never a target of the
      other. */
  lemma ArmApart(arm: Arm, other: Arm, i: nat, len: nat)
    requires arm != other
    ensures Name(At(arm, i)) != "A"
    ensures Name(At(arm, i)) !in Names(Targets(other, len))
  {
    NameInjective(At(arm, i), A);
    NamesIn(Targets(other, len), At(arm, i));
  }

  /** `Dynamics_of_States()` raises nothing exactly when every node it reads is there:
      `A`, every chain gene but the last, `Bn`, and `Cm` when `Bn` is 1. */
  lemma AbnNextDefined(n: nat, m: nat, s: States, b: States)
    ensures AbnNext(n, m, s, b).Ok? <==>
      && ChainReadable(ArmB, n, s) && ChainReadable(ArmC, m, s)
      && Name(B(n)) in Keys(s)
      && (Get(s, Name(B(n))) == Some(1) ==> Name(C(m)) in Keys(s))
  {
    ChainDefined(ArmB, n, s, b);
    var b1 := Shifted(s, b, Names(Targets(ArmB, n)), Names(Sources(ArmB, n)));
    if b1.Ok? {
      ChainDefined(ArmC, m, s, b1.value);
    }
  }

  /** The buffer is the two copies and then the value of `A`. */
  lemma AbnNextHub(n: nat, m: nat, s: States, b: States)
    requires AbnNext(n, m, s, b).Ok?
    ensures var b1 := Shifted(s, b, Names(Targets(ArmB, n)), Names(Sources(ArmB, n)));
      && b1.Ok?
      && var b2 := Shifted(s, b1.value, Names(Targets(ArmC, m)), Names(Sources(ArmC, m)));
      && b2.Ok?
      && AbnNext(n, m, s, b).value == Put(b2.value, "A", if Get(s, Name(B(n))) == Some(1) && Get(s, Name(C(m))) == Some(0) then 1 else 0)
  {
    var bn := Read(s, Name(B(n)));
    if bn.Ok? && bn.value == 1 {
      var cm := Read(s, Name(C(m)));
    }
  }

  /** The update rules of the figure 8: `B1' = A`, `B(i+1)' = Bi`, `C1' = A`,
      `C(i+1)' = Ci`, and `A' = 1` exactly when `Bn = 1` and `Cm = 0`. */
  lemma AbnNextRules(n: nat, m: nat, s: States, b: States)
    requires AbnNext(n, m, s, b).Ok?
    ensures var r := AbnNext(n, m, s, b).value;
      && Get(r, Name(B(1))) == Get(s, "A")
      && (forall i :: 1 <= i < n ==> Get(r, Name(B(i + 1))) == Get(s, Name(B(i))))
      && Get(r, Name(C(1))) == Get(s, "A")
      && (forall i :: 1 <= i < m ==> Get(r, Name(C(i + 1))) == Get(s, Name(C(i))))
      && Get(r, "A") == Some(if Get(s, Name(B(n))) == Some(1) && Get(s, Name(C(m))) == Some(0) then 1 else 0)
  {
    var b1 := Shifted(s, b, Names(Targets(ArmB, n)), Names(Sources(ArmB, n)));
    var b2 := Shifted(s, b1.value, Names(Targets(ArmC, m)), Names(Sources(ArmC, m)));
    var v := if Get(s, Name(B(n))) == Some(1) && Get(s, Name(C(m))) == Some(0) then 1 else 0;
    var r := AbnNext(n, m, s, b).value;
    AbnNextHub(n, m, s, b);
    ArmApart(ArmB, ArmC, 1, m);
    ChainFirst(ArmB, n, s, b);
    ChainOthers(ArmC, m, s, b1.value, Name(B(1)));
    PutGetOther(b2.value, "A", v, Name(B(1)));
    forall i | 1 <= i < n ensures Get(r, Name(B(i + 1))) == Get(s, Name(B(i))) {
      ArmApart(ArmB, ArmC, i + 1, m);
      ChainNext(ArmB, n, s, b, i);
      ChainOthers(ArmC, m, s, b1.value, Name(B(i + 1)));
      PutGetOther(b2.value, "A", v, Name(B(i + 1)));
    }
    ArmApart(ArmC, ArmB, 1, n);
    ChainFirst(ArmC, m, s, b1.value);
    PutGetOther(b2.value, "A", v, Name(C(1)));
    forall i | 1 <= i < m ensures Get(r, Name(C(i + 1))) == Get(s, Name(C(i))) {
      ArmApart(ArmC, ArmB, i + 1, n);
      ChainNext(ArmC, m, s, b1.value, i);
      PutGetOther(b2.value, "A", v, Name(C(i + 1)));
    }
  }

  /** `Dynamics_of_States()` writes only the chain genes and `A`: the rest of the
      buffer is as it was. */
  lemma AbnNextOthers(n: nat, m: nat, s: States, b: States, k: string)
    requires AbnNext(n, m, s, b).Ok?
    requires k != "A" && k !in Names(Targets(ArmB, n)) && k !in Names(Targets(ArmC, m))
    ensures Get(AbnNext(n, m, s, b).value, k) == Get(b, k)
  {
    var b1 := Shifted(s, b, Names(Targets(ArmB, n)), Names(Sources(ArmB, n)));
    var b2 := Shifted(s, b1.value, Names(Targets(ArmC, m)), Names(Sources(ArmC, m)));
    AbnNextHub(n, m, s, b);
    ChainOthers(ArmB, n, s, b, k);
    ChainOthers(ArmC, m, s, b1.value, k);
    PutGetOther(b2.value, "A", if Get(s, Name(B(n))) == Some(1) && Get(s, Name(C(m))) == Some(0) then 1 else 0, k);
  }

  /** The gene a chain gene copies: the previous gene of its chain, or `A` for the
      first. */
  function Predecessor(g: Gene): Gene {
    match g
    case A => A
    case B(i) => if i <= 1 then A else B(i - 1)
    case C(i) => if i <= 1 then A else C(i - 1)
  }

  /** Every chain node of the network takes the value its predecessor had. */
  lemma AbnNextGene(n: nat, m: nat, s: States, b: States, g: Gene)
    requires AbnNext(n, m, s, b).Ok?
    requires g in Genes(n, m) && !g.A?
    ensures Get(AbnNext(n, m, s, b).value, Name(g)) == Get(s, Name(Predecessor(g)))
  {
    AbnNextRules(n, m, s, b);
    GenesMembers(n, m, g);
    var r := AbnNext(n, m, s, b).value;
    if g.i > 1 {
      var i := g.i - 1;
      if g.B? {
        assert Get(r, Name(B(i + 1))) == Get(s, Name(B(i)));
      } else {
        assert Get(r, Name(C(i + 1))) == Get(s, Name(C(i)));
      }
    }
  }

  /** The value a state holds for a gene of the network, when every node holds 0 or 1. */
  lemma StatesAt(n: nat, m: nat, s: States, g: Gene)
    requires InRange(s, NodeNames(n, m), 2) && g in Genes(n, m)
    ensures Name(g) in Keys(s) && Get(s, Name(g)).Some? && 0 <= Get(s, Name(g)).value < 2
  {
    var p :| 0 <= p < |Genes(n, m)| && Genes(n, m)[p] == g;
    assert NodeNames(n, m)[p] == Name(g);
    GetIn(s, Name(g));
  }

  /** A state in which every node holds 0 or 1 has every value the update reads. */
  lemma BooleanReadable(n: nat, m: nat, s: States)
    requires n >= 1 && m >= 1 && InRange(s, NodeNames(n, m), 2)
    ensures ChainReadable(ArmB, n, s) && ChainReadable(ArmC, m, s)
    ensures Name(B(n)) in Keys(s) && Name(C(m)) in Keys(s)
  {
    StatesAt(n, m, s, A);
    forall i | 1 <= i <= n ensures Name(B(i)) in Keys(s) {
      GenesMembers(n, m, B(i));
      StatesAt(n, m, s, B(i));
    }
    forall i | 1 <= i <= m ensures Name(C(i)) in Keys(s) {
      GenesMembers(n, m, C(i));
      StatesAt(n, m, s, C(i));
    }
  }

  /** One node of the updated state holds 0 or 1 when every node of the old one did. */
  lemma BooleanAt(n: nat, m: nat, s: States, b: States, g: Gene)
    requires AbnNext(n, m, s, b).Ok? && InRange(s, NodeNames(n, m), 2) && g in Genes(n, m)
    ensures Get(AbnNext(n, m, s, b).value, Name(g)).Some?
    ensures 0 <= Get(AbnNext(n, m, s, b).value, Name(g)).value < 2
  {
    if g.A? {
      AbnNextRules(n, m, s, b);
    } else {
      AbnNextGene(n, m, s, b, g);
      GenesMembers(n, m, g);
      GenesMembers(n, m, Predecessor(g));
      StatesAt(n, m, s, Predecessor(g));
    }
  }

  /** With both chains non-empty and every node holding 0 or 1, `Dynamics_of_States()`
      raises nothing, and every node again holds 0 or 1. */
  lemma AbnNextBoolean(n: nat, m: nat, s: States, b: States)
    requires n >= 1 && m >= 1 && InRange(s, NodeNames(n, m), 2)
    ensures AbnNext(n, m, s, b).Ok? && InRange(AbnNext(n, m, s, b).value, NodeNames(n, m), 2)
  {
    BooleanReadable(n, m, s);
    AbnNextDefined(n, m, s, b);
    var r := AbnNext(n, m, s, b).value;
    forall p | 0 <= p < |NodeNames(n, m)| ensures Get(r, NodeNames(n, m)[p]).Some? && 0 <= Get(r, NodeNames(n, m)[p]).value < 2 {
      var g := Genes(n, m)[p];
      assert NodeNames(n, m)[p] == Name(g);
      BooleanAt(n, m, s, b, g);
    }
  }

  /** The update is synchronous: the new value of every node depends on the states
      alone, not on what the buffer held before. */
  lemma AbnNextBufferFree(n: nat, m: nat, s: States, b: States, b': States)
    ensures AbnNext(n, m, s, b).Ok? == AbnNext(n, m, s, b').Ok?
    ensures AbnNext(n, m, s, b).Ok? ==> forall p :: 0 <= p < |NodeNames(n, m)| ==>
      Get(AbnNext(n, m, s, b).value, NodeNames(n, m)[p]) == Get(AbnNext(n, m, s, b').value, NodeNames(n, m)[p])
  {
    AbnNextDefined(n, m, s, b);
    AbnNextDefined(n, m, s, b');
    if AbnNext(n, m, s, b).Ok? {
      AbnNextRules(n, m, s, b);
      AbnNextRules(n, m, s, b');
      forall p | 0 <= p < |NodeNames(n, m)|
        ensures Get(AbnNext(n, m, s, b).value, NodeNames(n, m)[p]) == Get(AbnNext(n, m, s, b').value, NodeNames(n, m)[p])
      {
        var g := Genes(n, m)[p];
        assert NodeNames(n, m)[p] == Name(g);
        if !g.A? {
          AbnNextGene(n, m, s, b, g);
          AbnNextGene(n, m, s, b', g);
        }
      }
    }
  }
}
