/** The information network of the gene-regulatory-network model. Nodes carry no
    name; `Calculate` is handed the four-variable histogram of one link, binned over
    the names `(X, Y, X', Y')`, and a node is told whether it is the `X` or the `Y`
    end. Links can also be filled from a list of thirteen values. */
module AbnInformationNetwork {
  import opened Wrappers
  import opened Dicts
  import opened Histogram
  import opened FromSimpleBin
  import opened InformationNetwork

  /** `("X", "Y", "X'", "Y'")`, the coordinate names of a link histogram. */
  function PairNames(): seq<string> { ["X", "Y", "X'", "Y'"] }

  /** `From_Simple_Bin.Source(Statistics, ("X", "Y", "X'", "Y'"))` as an estimator. */
  function PairMeasures(stats: Table, ln: real -> real): Measures {
    Binned(BinSource(stats, Some(PairNames())), ln)
  }

  /** The variable of a link end: `"X"` for end 0 and `"Y"` for any other. */
  function EndVariable(nodeIndex: int): (v: string)
    ensures v == "X" <==> nodeIndex == 0
    ensures v == "X" || v == "Y"
  {
    if nodeIndex == 0 then "X" else "Y"
  }

  /** The node measures of end `nodeIndex` of a link histogram. */
  function PairNodeResults(stats: Table, nodeIndex: int, ln: real -> real): (r: seq<Result<real>>)
    ensures |r| == 2
  {
    NodeResults(PairMeasures(stats, ln), EndVariable(nodeIndex))
  }

  /** The link measures of a link histogram. */
  function PairLinkResults(stats: Table, ln: real -> real): (r: seq<Result<real>>)
    ensures |r| == 13
  {
    LinkResults(PairMeasures(stats, ln), "X", "Y")
  }

  /** `A_Node()`. */
  class Node {
    var neighbors: seq<string>
    var var_: Dict<string, real>
    var alpha_: Dict<string, real>

    constructor()
      ensures IsNew()
    {
      neighbors := [];
      var_ := Zeros(NodeVarKeys());
      alpha_ := Zeros(NodeAlphaKeys());
    }

    /** The state `A_Node()` starts in. */
    predicate IsNew()
      reads this
    {
      neighbors == [] && var_ == Zeros(NodeVarKeys()) && alpha_ == Zeros(NodeAlphaKeys())
    }

    /** The measure tables keep their keys, in their order. */
    predicate Valid()
      reads this
    {
      Keys(var_) == NodeVarKeys() && Keys(alpha_) == NodeAlphaKeys()
    }

    /** `Calculate(Statistics, Node_Index)`: with `v` the variable of the end,
        `H0 = H(v)`, then `partial1 = H(v' | v)`; `Alpha_["1"]` keeps its value. An
        estimator exception ends it, leaving what was assigned. */
    method Calculate(stats: Table, nodeIndex: int, ln: real -> real) returns (r: Outcome)
      modifies this
      ensures old(Valid()) ==> Valid()
      ensures neighbors == old(neighbors)
      ensures (var_, alpha_, r) == NodeAssignment(old(var_), old(alpha_), PairNodeResults(stats, nodeIndex, ln))
    {
      var_, alpha_, r := AssignNode(var_, alpha_, PairNodeResults(stats, nodeIndex, ln));
    }
  }

  /** `A_Link()`. */
  class Link {
    var var_: Dict<string, real>
    var alpha_: Dict<string, real>

    constructor()
      ensures IsNew()
    {
      var_ := Zeros(LinkVarKeys());
      alpha_ := Zeros(LinkAlphaKeys());
    }

    /** The state `A_Link()` starts in. */
    predicate IsNew()
      reads this
    {
      var_ == Zeros(LinkVarKeys()) && alpha_ == Zeros(LinkAlphaKeys())
    }

    /** The measure tables keep their keys, in their order. */
    predicate Valid()
      reads this
    {
      Keys(var_) == LinkVarKeys() && Keys(alpha_) == LinkAlphaKeys()
    }

    /** `Set_from_List(Data_List)`: a list whose length is not the number of entries
        is refused (the error message is printed) and nothing changes; otherwise the
        items go, in order, to the `Var_` entries and then to the `Alpha_` entries. */
    method SetFromList(data: seq<real>)
      requires Valid()
      modifies this
      ensures Valid()
      ensures |data| != |LinkVarKeys()| + |LinkAlphaKeys()| ==> var_ == old(var_) && alpha_ == old(alpha_)
      ensures |data| == |LinkVarKeys()| + |LinkAlphaKeys()| ==>
        var_ == Zip(LinkVarKeys(), data[..5]) && alpha_ == Zip(LinkAlphaKeys(), data[5..])
    {
      if |data| != |var_| + |alpha_| {
        return;
      }
      var listInd := 0;
      var_ := AssignInOrder(var_, data, listInd);
      listInd := listInd + |var_|;
      alpha_ := AssignInOrder(alpha_, data, listInd);
      assert data[5..][..8] == data[5..];
    }

    /** `Calculate(Statistics)`: the thirteen link measures of `(X, Y)`, assigned in
        order. An estimator exception ends it, leaving what was assigned. */
    method Calculate(stats: Table, ln: real -> real) returns (r: Outcome)
      modifies this
      ensures old(Valid()) ==> Valid()
      ensures (var_, alpha_, r) == LinkAssignment(old(var_), old(alpha_), PairLinkResults(stats, ln))
    {
      var_, alpha_, r := AssignLink(var_, alpha_, PairLinkResults(stats, ln));
    }
  }

  /** `for v in table: table[v] = Data_List[list_ind]; list_ind += 1`: each entry of
      the table, in order, takes the next item. */
  method AssignInOrder(table: Dict<string, real>, data: seq<real>, start: nat) returns (r: Dict<string, real>)
    requires Distinct(Keys(table)) && start + |table| <= |data|
    ensures r == Zip(Keys(table), data[start..start + |table|])
  {
    r := table;
    var listInd := start;
    var k := 0;
    while k < |table|
      invariant 0 <= k <= |table| && listInd == start + k
      invariant Keys(r) == Keys(table)
      invariant forall i :: 0 <= i < k ==> r[i].1 == data[start + i]
    {
      assert Keys(r)[k] == table[k].0;
      PutExisting(r, k, data[listInd]);
      r := Put(r, table[k].0, data[listInd]);
      assert Keys(r) == Keys(table) by {
        assert forall i :: 0 <= i < |r| ==> Keys(r)[i] == Keys(table)[i];
      }
      listInd := listInd + 1;
      k := k + 1;
    }
  }

  /** `A_Network()`: the nodes by name and the links by ordered pair. */
  class Network {
    var nodes: Dict<string, Node>
    var links: Dict<(string, string), Link>

    constructor()
      ensures nodes == [] && links == [] && Valid()
    {
      nodes := [];
      links := [];
    }

    function NodeObjects(): set<Node>
      reads this
    {
      set i | 0 <= i < |nodes| :: nodes[i].1
    }

    function LinkObjects(): set<Link>
      reads this
    {
      set i | 0 <= i < |links| :: links[i].1
    }

    /** Dictionaries without repeated keys; every name has its own node object, and
        every node and link keeps its measure keys. */
    predicate Valid()
      reads this, NodeObjects(), LinkObjects()
    {
      && Distinct(Keys(nodes)) && Distinct(Keys(links))
      && (forall i, j :: 0 <= i < j < |nodes| ==> nodes[i].1 != nodes[j].1)
      && (forall i :: 0 <= i < |nodes| ==> nodes[i].1.Valid())
      && (forall i :: 0 <= i < |links| ==> links[i].1.Valid())
    }

    /** `Set_Nodes(Index_List)`: a new node for every name, in order; a name already
        present gets a new node in the same place. */
    method SetNodes(names: seq<string>)
      requires Valid()
      modifies this
      ensures Valid() && links == old(links)
      ensures forall k :: k in Keys(nodes) <==> k in Keys(old(nodes)) || k in names
      ensures forall k :: k in names ==> Get(nodes, k).Some? && fresh(Get(nodes, k).value) && Get(nodes, k).value.IsNew()
      ensures forall k :: k !in names ==> Get(nodes, k) == Get(old(nodes), k)
    {
      var j := 0;
      while j < |names|
        invariant 0 <= j <= |names|
        invariant Valid() && links == old(links)
        invariant forall k :: k in Keys(nodes) <==> k in Keys(old(nodes)) || k in names[..j]
        invariant forall k :: k in names[..j] ==> Get(nodes, k).Some? && fresh(Get(nodes, k).value) && Get(nodes, k).value.IsNew()
        invariant forall k :: k !in names[..j] ==> Get(nodes, k) == Get(old(nodes), k)
      {
        var node := SetNode(names[j]);
        InPrefixStep(names, j);
        j := j + 1;
      }
      assert names[..j] == names;
    }

    /** `Nodes[k] = A_Node()`. */
    method SetNode(k: string) returns (node: Node)
      requires Valid()
      modifies this
      ensures Valid() && links == old(links)
      ensures fresh(node) && node.IsNew() && nodes == Put(old(nodes), k, node)
      ensures forall k' :: k' in Keys(nodes) <==> k' in Keys(old(nodes)) || k' == k
      ensures forall k' :: k' != k ==> Get(nodes, k') == Get(old(nodes), k')
    {
      ghost var before := nodes;
      node := new Node();
      assert node.Valid();
      PutNewNode(nodes, k, node);
      PutDistinct(nodes, k, node);
      nodes := Put(nodes, k, node);
      forall k' | k' != k ensures Get(nodes, k') == Get(before, k') {
        PutGetOther(before, k, node, k');
      }
    }

    /** `Add_a_Link((a, b))`: store a new link under the pair, then append `b` to the
        neighbours of `a` and `a` to those of `b`. The link is stored before either
        node is looked up, so a missing endpoint is a KeyError after it. */
    method AddALink(pair: (string, string)) returns (r: Outcome)
      requires Valid()
      modifies this, NodeObjects()
      ensures Valid() && nodes == old(nodes)
      ensures Keys(links) == if pair in Keys(old(links)) then Keys(old(links)) else Keys(old(links)) + [pair]
      ensures exists link: Link :: fresh(link) && link.IsNew() && links == Put(old(links), pair, link)
      ensures r == if pair.0 in Keys(nodes) && pair.1 in Keys(nodes) then Pass else Fail(MissingKey)
      ensures Neighborhoods() == Joined(old(Neighborhoods()), Keys(nodes), pair)
      ensures Tables() == old(Tables())
    {
      ghost var n0 := Neighborhoods();
      ghost var t0 := Tables();
      var link := StoreLink(pair);
      assert Neighborhoods() == n0 && Tables() == t0;
      r := JoinEndpoints(pair);
    }

    /** The neighbour appends of `Add_a_Link`: `Nodes[a]` first, then `Nodes[b]`; a
        missing name is a KeyError at that point. */
    method JoinEndpoints(pair: (string, string)) returns (r: Outcome)
      requires Valid()
      modifies NodeObjects()
      ensures Valid()
      ensures r == if pair.0 in Keys(nodes) && pair.1 in Keys(nodes) then Pass else Fail(MissingKey)
      ensures Neighborhoods() == Joined(old(Neighborhoods()), Keys(nodes), pair)
      ensures Tables() == old(Tables())
    {
      ghost var n0 := Neighborhoods();
      var first := Find(nodes, pair.0);
      if first.None? {
        JoinedNone(n0, Keys(nodes), pair);
        return Fail(MissingKey);
      }
      assert Keys(nodes)[first.value] == pair.0;
      AppendNeighbor(first.value, pair.1);
      var second := Find(nodes, pair.1);
      if second.None? {
        JoinedFirst(n0, Keys(nodes), first.value, pair);
        return Fail(MissingKey);
      }
      assert Keys(nodes)[second.value] == pair.1;
      AppendNeighbor(second.value, pair.0);
      JoinedBoth(n0, Keys(nodes), first.value, second.value, pair);
      return Pass;
    }

    /** The neighbour list of every node, in the order of `nodes`. */
    function Neighborhoods(): (r: seq<seq<string>>)
      reads this, NodeObjects()
      ensures |r| == |nodes| && forall i :: 0 <= i < |nodes| ==> r[i] == nodes[i].1.neighbors
    {
      seq(|nodes|, i requires 0 <= i < |nodes| reads this, NodeObjects() => nodes[i].1.neighbors)
    }

    /** The measure tables of every node, in the order of `nodes`. */
    function Tables(): (r: seq<(Dict<string, real>, Dict<string, real>)>)
      reads this, NodeObjects()
      ensures |r| == |nodes| && forall i :: 0 <= i < |nodes| ==> r[i] == (nodes[i].1.var_, nodes[i].1.alpha_)
    {
      seq(|nodes|, i requires 0 <= i < |nodes| reads this, NodeObjects() => (nodes[i].1.var_, nodes[i].1.alpha_))
    }

    /** `Nodes[...].Neighbors.append(name)` on the node at position `p`. */
    method AppendNeighbor(p: nat, name: string)
      requires Valid() && p < |nodes|
      modifies nodes[p].1
      ensures Valid()
      ensures Neighborhoods() == old(Neighborhoods())[p := old(Neighborhoods())[p] + [name]]
      ensures Tables() == old(Tables())
    {
      var node := nodes[p].1;
      node.neighbors := node.neighbors + [name];
    }

    /** `Links[pair] = A_Link()`. */
    method StoreLink(pair: (string, string)) returns (link: Link)
      requires Valid()
      modifies this
      ensures Valid() && nodes == old(nodes)
      ensures fresh(link) && link.IsNew() && links == Put(old(links), pair, link)
    {
      link := new Link();
      assert link.Valid();
      PutDistinct(links, pair, link);
      PutLinkValid(links, pair, link);
      links := Put(links, pair, link);
    }
  }
}
