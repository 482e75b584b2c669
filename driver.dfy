/** What the two ensemble drivers share: the states and the buffer of the nodes,
    the random values drawn for them, the files written (a map from file name to
    contents), the properties file, and the schedule of the ensembles over the
    selected targets and the time window. */
module Driver {
  import opened Wrappers
  import opened Dicts
  import opened Text
  import opened Records

  /** `State_Space` and `Update_Buffer`: a value per node name. */
  type States = Dict<string, int>

  /** `Dynamics_of_States`: the update buffer it leaves, from the states and the
      buffer before it, or the exception it raises. */
  type Dynamics = (States, States) -> Result<States>

  /** The values `random.randint(0, Q - 1)` yields, in the order they are drawn. */
  type Draws = nat -> int

  /** The contents of the files, by path. */
  type Files = map<string, string>

  /** What the file `path` holds: nothing when it does not exist. */
  function Contents(files: Files, path: string): string {
    if path in files then files[path] else ""
  }

  /** `open(path, 'a').write(text)`: the text at the end of the file, which is
      created when it does not exist. */
  function FileAppended(files: Files, path: string, text: string): (r: Files)
    ensures path in r && Contents(r, path) == Contents(files, path) + text
    ensures forall p :: p != path ==> (p in r <==> p in files) && Contents(r, p) == Contents(files, p)
  {
    files[path := Contents(files, path) + text]
  }

  /** Each write of a list, in order. */
  function AppendedAll(files: Files, writes: seq<(string, string)>): Files
    decreases |writes|
  {
    if |writes| == 0 then files
    else FileAppended(AppendedAll(files, writes[..|writes| - 1]), writes[|writes| - 1].0, writes[|writes| - 1].1)
  }

  // ---------------------------------------------------------------- the states

  /** Every name has a value in `0 .. q - 1`. */
  predicate InRange<K(==)>(s: Dict<K, int>, keys: seq<K>, q: int) {
    forall i :: 0 <= i < |keys| ==> Get(s, keys[i]).Some? && 0 <= Get(s, keys[i]).value < q
  }

  /** Each name in turn takes the next of the values. */
  function Filled<K(==)>(s: Dict<K, int>, keys: seq<K>, vals: seq<int>): Dict<K, int>
    requires |vals| == |keys|
    decreases |keys|
  {
    if |keys| == 0 then s else Filled(Put(s, keys[0], vals[0]), keys[1..], vals[1..])
  }

  /** The `n` values drawn from position `from` of the stream on. */
  function Stream(random: Draws, from: nat, n: nat): (r: seq<int>)
    ensures |r| == n && forall j :: 0 <= j < n ==> r[j] == random(from + j)
  {
    seq(n, j requires 0 <= j < n => random(from + j))
  }

  /** `Init_State_Space`: each name in turn takes the next value drawn, the first at
      position `from` of the stream. */
  function Drawn<K(==)>(s: Dict<K, int>, keys: seq<K>, random: Draws, from: nat): Dict<K, int> {
    Filled(s, keys, Stream(random, from, |keys|))
  }

  /** The loop of `Init_State_Space`: the names in turn take the values drawn from
      position `from` of the stream on. */
  method DrawStates<K(==)>(s: Dict<K, int>, keys: seq<K>, random: Draws, from: nat) returns (r: Dict<K, int>)
    ensures r == Drawn(s, keys, random, from)
  {
    ghost var vals := Stream(random, from, |keys|);
    r := s;
    var i := 0;
    while i < |keys|
      invariant i <= |keys|
      invariant Filled(r, keys[i..], vals[i..]) == Filled(s, keys, vals)
    {
      assert keys[i..][1..] == keys[i + 1..] && vals[i..][1..] == vals[i + 1..];
      r, i := Put(r, keys[i], random(from + i)), i + 1;
    }
    assert keys[i..] == [];
  }

  /** The values leave the names they are not given to as they were. */
  lemma {:induction false} FilledOthers<K>(s: Dict<K, int>, keys: seq<K>, vals: seq<int>, k: K)
    requires |vals| == |keys| && k !in keys
    ensures Get(Filled(s, keys, vals), k) == Get(s, k)
    decreases |keys|
  {
    if |keys| > 0 {
      assert k !in keys[1..];
      FilledOthers(Put(s, keys[0], vals[0]), keys[1..], vals[1..], k);
      PutGetOther(s, keys[0], vals[0], k);
    }
  }

  /** A name not given a value again later keeps value `i`. */
  lemma {:induction false} FilledValue<K>(s: Dict<K, int>, keys: seq<K>, vals: seq<int>, i: nat)
    requires |vals| == |keys| && i < |keys| && keys[i] !in keys[i + 1..]
    ensures Get(Filled(s, keys, vals), keys[i]) == Some(vals[i])
    decreases |keys|
  {
    var s1 := Put(s, keys[0], vals[0]);
    assert Filled(s, keys, vals) == Filled(s1, keys[1..], vals[1..]);
    if i == 0 {
      FilledOthers(s1, keys[1..], vals[1..], keys[0]);
    } else {
      assert keys[1..][i - 1] == keys[i] && keys[1..][i..] == keys[i + 1..];
      FilledValue(s1, keys[1..], vals[1..], i - 1);
    }
  }

  /** Values in `0 .. q - 1` put every name in range. */
  lemma {:induction false} FilledInRange<K>(s: Dict<K, int>, keys: seq<K>, vals: seq<int>, q: int)
    requires |vals| == |keys| && forall j :: 0 <= j < |vals| ==> 0 <= vals[j] < q
    ensures InRange(Filled(s, keys, vals), keys, q)
    decreases |keys|
  {
    if |keys| > 0 {
      var rest := keys[1..];
      var s1 := Put(s, keys[0], vals[0]);
      assert forall j :: 0 <= j < |rest| ==> vals[1..][j] == vals[j + 1];
      FilledInRange(s1, rest, vals[1..], q);
      var d := Filled(s1, rest, vals[1..]);
      assert Filled(s, keys, vals) == d;
      if keys[0] !in rest {
        FilledOthers(s1, rest, vals[1..], keys[0]);
      } else {
        var j :| 0 <= j < |rest| && rest[j] == keys[0];
      }
      forall i | 0 <= i < |keys| ensures Get(d, keys[i]).Some? && 0 <= Get(d, keys[i]).value < q {
        if i > 0 {
          assert keys[i] == rest[i - 1];
        }
      }
    }
  }

  /** A name not drawn for again later keeps the value drawn at position `from + i`;
      the draws leave the other names as they were. */
  lemma DrawnValue<K>(s: Dict<K, int>, keys: seq<K>, random: Draws, from: nat, i: nat, k: K)
    requires i < |keys| && keys[i] !in keys[i + 1..]
    ensures Get(Drawn(s, keys, random, from), keys[i]) == Some(random(from + i))
    ensures k !in keys ==> Get(Drawn(s, keys, random, from), k) == Get(s, k)
  {
    FilledValue(s, keys, Stream(random, from, |keys|), i);
    if k !in keys {
      FilledOthers(s, keys, Stream(random, from, |keys|), k);
    }
  }

  /** Draws in `0 .. q - 1` put every name in range. */
  lemma DrawnInRange<K>(s: Dict<K, int>, keys: seq<K>, random: Draws, from: nat, q: int)
    requires forall n :: 0 <= random(n) < q
    ensures InRange(Drawn(s, keys, random, from), keys, q)
  {
    FilledInRange(s, keys, Stream(random, from, |keys|), q);
  }

  /** `Update_States`: every name takes its value in the buffer, in turn; a name the
      buffer lacks is the KeyError, which ends the copy. */
  function Committed<K(==)>(s: Dict<K, int>, b: Dict<K, int>, keys: seq<K>): (r: Result<Dict<K, int>>)
    ensures r.Ok? <==> forall i :: 0 <= i < |keys| ==> keys[i] in Keys(b)
    ensures r.Err? ==> r.error == MissingKey
  {
    if forall i :: 0 <= i < |keys| ==> keys[i] in Keys(b) then Ok(Copied(s, b, keys)) else Err(MissingKey)
  }

  /** The names copied one by one from the buffer into the states. */
  function Copied<K(==)>(s: Dict<K, int>, b: Dict<K, int>, keys: seq<K>): Dict<K, int>
    decreases |keys|
  {
    if |keys| == 0 then s else Copied(Put(s, keys[0], Get(b, keys[0]).GetOr(0)), b, keys[1..])
  }

  /** The loop of `Update_States`: the names in turn take their buffered values; at
      a name the buffer lacks it stops with the KeyError, returning the states with
      the names before it copied. */
  method CommitStates<K(==)>(s: Dict<K, int>, b: Dict<K, int>, keys: seq<K>) returns (r: Outcome, t: Dict<K, int>)
    ensures match Committed(s, b, keys)
      case Ok(x) => r == Pass && t == x
      case Err(e) => r == Fail(e)
  {
    t := s;
    var i := 0;
    while i < |keys|
      invariant i <= |keys|
      invariant Copied(t, b, keys[i..]) == Copied(s, b, keys)
      invariant forall j :: 0 <= j < i ==> keys[j] in Keys(b)
    {
      var v := Get(b, keys[i]);
      if v.None? {
        return Fail(MissingKey), t;
      }
      assert keys[i..][1..] == keys[i + 1..];
      t := Put(t, keys[i], v.value);
      i := i + 1;
    }
    r := Pass;
  }

  /** After the copy every name holds its buffer value. */
  lemma CopiedValues<K>(s: Dict<K, int>, b: Dict<K, int>, keys: seq<K>)
    requires forall i :: 0 <= i < |keys| ==> keys[i] in Keys(b)
    ensures forall i :: 0 <= i < |keys| ==> Get(Copied(s, b, keys), keys[i]) == Get(b, keys[i])
  {
    forall i | 0 <= i < |keys| ensures Get(Copied(s, b, keys), keys[i]) == Get(b, keys[i]) {
      CopiedKey(s, b, keys, keys[i]);
    }
  }

  /** A name the buffer holds ends the copy with its buffer value, whether or not it
      comes again later. */
  lemma {:induction false} CopiedKey<K>(s: Dict<K, int>, b: Dict<K, int>, keys: seq<K>, k: K)
    requires k in keys && k in Keys(b)
    ensures Get(Copied(s, b, keys), k) == Get(b, k)
    decreases |keys|
  {
    var s1 := Put(s, keys[0], Get(b, keys[0]).GetOr(0));
    var rest := keys[1..];
    assert Copied(s, b, keys) == Copied(s1, b, rest);
    if k in rest {
      CopiedKey(s1, b, rest, k);
    } else {
      assert k == keys[0];
      CopiedOthers(s1, b, rest, k);
    }
  }

  /** The copy leaves the names it does not copy as they were. */
  lemma {:induction false} CopiedOthers<K>(s: Dict<K, int>, b: Dict<K, int>, keys: seq<K>, k: K)
    requires k !in keys
    ensures Get(Copied(s, b, keys), k) == Get(s, k)
    decreases |keys|
  {
    if |keys| > 0 {
      var s1 := Put(s, keys[0], Get(b, keys[0]).GetOr(0));
      assert k !in keys[1..];
      CopiedOthers(s1, b, keys[1..], k);
      PutGetOther(s, keys[0], Get(b, keys[0]).GetOr(0), k);
    }
  }

  /** A buffer in range commits a state in range. */
  lemma CommittedInRange(s: States, b: States, keys: seq<string>, q: int)
    requires InRange(b, keys, q)
    ensures Committed(s, b, keys).Ok? && InRange(Committed(s, b, keys).value, keys, q)
  {
    forall i | 0 <= i < |keys| ensures keys[i] in Keys(b) {
      GetIn(b, keys[i]);
    }
    CopiedValues(s, b, keys);
  }


  // ---------------------------------------------------------------- the files written

  /** `Save_Directory + "Node_%s.txt" % name`. */
  function NodeFile(dir: string, name: string): string {
    dir + "Node_" + name + ".txt"
  }

  /** `Save_Directory + "Link_%s_%s.txt" % link`. */
  function LinkFile(dir: string, link: (string, string)): string {
    dir + "Link_" + link.0 + "_" + link.1 + ".txt"
  }

  /** Two node names share a file only when they are the same name. */
  lemma NodeFileInjective(dir: string, a: string, b: string)
    requires NodeFile(dir, a) == NodeFile(dir, b)
    ensures a == b
  {
    var x, y := NodeFile(dir, a), NodeFile(dir, b);
    assert |a| == |b|;
    forall i | 0 <= i < |a|
      ensures a[i] == b[i]
    {
      assert x[|dir| + 5 + i] == a[i] && y[|dir| + 5 + i] == b[i];
    }
  }

  /** A node file is never a link file. */
  lemma NodeFileNotLinkFile(dir: string, a: string, link: (string, string))
    ensures NodeFile(dir, a) != LinkFile(dir, link)
  {
    assert NodeFile(dir, a)[|dir|] == 'N' && LinkFile(dir, link)[|dir|] == 'L';
  }

  /** The files `Create_File_Header` opens for writing: one per node, then one per
      link. */
  function HeaderPaths(dir: string, nodes: seq<string>, links: seq<(string, string)>): (r: seq<string>)
    ensures |r| == |nodes| + |links|
    ensures forall i :: 0 <= i < |nodes| ==> r[i] == NodeFile(dir, nodes[i])
    ensures forall i :: 0 <= i < |links| ==> r[|nodes| + i] == LinkFile(dir, links[i])
  {
    seq(|nodes|, i requires 0 <= i < |nodes| => NodeFile(dir, nodes[i]))
      + seq(|links|, i requires 0 <= i < |links| => LinkFile(dir, links[i]))
  }

  /** `open(path, 'w')` for each path in turn: each file is left empty. */
  function Truncated(files: Files, paths: seq<string>): Files
    decreases |paths|
  {
    if |paths| == 0 then files else Truncated(files, paths[..|paths| - 1])[paths[|paths| - 1] := ""]
  }

  /** After the truncations exactly the old files and the paths exist, every path is
      empty and every other file is as it was. */
  lemma {:induction false} TruncatedSpec(files: Files, paths: seq<string>)
    ensures forall p :: p in Truncated(files, paths) <==> p in files || p in paths
    ensures forall p :: p in paths ==> Truncated(files, paths)[p] == ""
    ensures forall p :: p !in paths && p in files ==> Truncated(files, paths)[p] == files[p]
    decreases |paths|
  {
    if |paths| > 0 {
      var front := paths[..|paths| - 1];
      TruncatedSpec(files, front);
      assert forall p :: p in paths <==> p in front || p == paths[|paths| - 1] by {
        assert paths == front + [paths[|paths| - 1]];
      }
    }
  }

  /** The loops of `Create_File_Header` over the paths of the files. */
  method Truncate(files: Files, paths: seq<string>) returns (r: Files)
    ensures r == Truncated(files, paths)
  {
    r := files;
    var i := 0;
    while i < |paths|
      invariant i <= |paths| && r == Truncated(files, paths[..i])
    {
      assert paths[..i + 1][..i] == paths[..i];
      r := r[paths[i] := ""];
      i := i + 1;
    }
    assert paths[..i] == paths;
  }


  /** One more append after a list of them. */
  lemma AppendedAllSnoc(files: Files, writes: seq<(string, string)>, w: (string, string))
    ensures AppendedAll(files, writes + [w]) == FileAppended(AppendedAll(files, writes), w.0, w.1)
  {
    assert (writes + [w])[..|writes|] == writes;
  }

  /** Two lists of appends in turn. */
  lemma {:induction false} AppendedAllConcat(files: Files, x: seq<(string, string)>, y: seq<(string, string)>)
    ensures AppendedAll(files, x + y) == AppendedAll(AppendedAll(files, x), y)
    decreases |y|
  {
    if |y| == 0 {
      assert x + y == x;
    } else {
      var y', w := y[..|y| - 1], y[|y| - 1];
      assert x + y == (x + y') + [w] && y == y' + [w];
      AppendedAllSnoc(files, x + y', w);
      AppendedAllSnoc(AppendedAll(files, x), y', w);
      AppendedAllConcat(files, x, y');
    }
  }

  // ---------------------------------------------------------------- the properties

  /** `Properties["Nodes"]`: every node name followed by `|`. */
  function NodesText(names: seq<string>): string {
    Terminated(names, '|')
  }

  /** `"%s,%s|" % link` for every link. */
  function LinkPieces(links: seq<(string, string)>): (r: seq<string>)
    ensures |r| == |links| && forall i :: 0 <= i < |links| ==> r[i] == links[i].0 + "," + links[i].1 + "|"
  {
    seq(|links|, i requires 0 <= i < |links| => links[i].0 + "," + links[i].1 + "|")
  }

  /** `Properties["Links"]`: `"%s,%s|" % link` followed by a space, for every link. */
  function LinksText(links: seq<(string, string)>): string {
    Terminated(LinkPieces(links), ' ')
  }

  /** The nodes entry splits on `|` back into the node names, followed by the empty
      piece after the last `|`. */
  lemma NodesTextSplits(names: seq<string>)
    requires forall i :: 0 <= i < |names| ==> '|' !in names[i]
    ensures Split(NodesText(names), '|') == names + [""]
  {
    assert NodesText(names) + "" == NodesText(names);
    SplitTerminated(names, "", '|');
  }

  /** `key + " : " + value` for every property, in order. */
  function PropertyLines(props: Dict<string, string>): (r: seq<string>)
    ensures |r| == |props| && forall i :: 0 <= i < |props| ==> r[i] == props[i].0 + " : " + props[i].1
  {
    seq(|props|, i requires 0 <= i < |props| => props[i].0 + " : " + props[i].1)
  }

  /** What `Save_Properties` writes: `key + " : " + value + "\n"` for every property,
      in order. */
  function PropertiesText(props: Dict<string, string>): string {
    Terminated(PropertyLines(props), '\n')
  }

  /** The properties file splits at its newlines back into one line per property,
      followed by the empty piece after the last newline. */
  lemma PropertiesTextSplits(props: Dict<string, string>)
    requires forall i :: 0 <= i < |props| ==> '\n' !in props[i].0 && '\n' !in props[i].1
    ensures Split(PropertiesText(props), '\n') == PropertyLines(props) + [""]
  {
    var lines := PropertyLines(props);
    forall i | 0 <= i < |lines| ensures '\n' !in lines[i] {
      assert lines[i] == props[i].0 + " : " + props[i].1;
    }
    assert PropertiesText(props) + "" == PropertiesText(props);
    SplitTerminated(lines, "", '\n');
  }

  /** `Save_Properties`: the file `Simulation_Properties.txt` is opened for writing,
      which empties it, and each line is appended in turn. */
  method WriteProperties(files: Files, path: string, props: Dict<string, string>) returns (r: Files)
    ensures r == files[path := PropertiesText(props)]
  {
    r := files[path := ""];
    var i := 0;
    while i < |props|
      invariant i <= |props| && r == files[path := PropertiesText(props[..i])]
    {
      var line := props[i].0 + " : " + props[i].1;
      assert PropertyLines(props[..i + 1]) == PropertyLines(props[..i]) + [line];
      TerminatedSnoc(PropertyLines(props[..i]), line, '\n');
      assert PropertiesText(props[..i + 1]) == PropertiesText(props[..i]) + (line + "\n");
      r := FileAppended(r, path, line + "\n");
      i := i + 1;
    }
    assert props[..i] == props;
  }

  /** `for x in pieces: props[key] = props[key] + x + sep`, from an empty entry. */
  method AppendPieces(props: Dict<string, string>, key: string, pieces: seq<string>, sep: char)
      returns (r: Dict<string, string>)
    requires Get(props, key) == Some("")
    ensures r == Put(props, key, Terminated(pieces, sep))
  {
    PutSame(props, key, "");
    r := props;
    var i := 0;
    while i < |pieces|
      invariant i <= |pieces| && r == Put(props, key, Terminated(pieces[..i], sep))
    {
      var sofar := Terminated(pieces[..i], sep);
      assert pieces[..i + 1] == pieces[..i] + [pieces[i]];
      TerminatedSnoc(pieces[..i], pieces[i], sep);
      PutPut(props, key, sofar, sofar + pieces[i] + [sep]);
      r := Put(r, key, Get(r, key).value + pieces[i] + [sep]);
      i := i + 1;
    }
    assert pieces[..i] == pieces;
  }

  /** `Register_Topology` on the properties: both entries are first set to `""`,
      then the node names and the links are appended to them one by one. */
  method RegisterTopologyOf(props: Dict<string, string>, nodes: seq<string>, links: seq<(string, string)>)
      returns (r: Dict<string, string>)
    ensures r == Put(Put(Put(Put(props, "Nodes", ""), "Links", ""), "Nodes", NodesText(nodes)), "Links", LinksText(links))
  {
    var base := Put(Put(props, "Nodes", ""), "Links", "");
    PutGetOther(Put(props, "Nodes", ""), "Links", "", "Nodes");
    r := AppendPieces(base, "Nodes", nodes, '|');
    PutGetOther(base, "Nodes", NodesText(nodes), "Links");
    r := AppendPieces(r, "Links", LinkPieces(links), ' ');
  }

  /** Emptying two distinct entries and then filling them: each holds its new value,
      every other entry is as it was, the keys are those after the emptying, and
      distinct keys stay distinct. */
  lemma RefilledPair<K, V>(props: Dict<K, V>, n: K, l: K, e: V, vn: V, vl: V)
    requires n != l
    ensures var r := Put(Put(Put(Put(props, n, e), l, e), n, vn), l, vl);
      && Get(r, n) == Some(vn)
      && Get(r, l) == Some(vl)
      && (forall k :: k != n && k != l ==> Get(r, k) == Get(props, k))
      && Keys(r) == Keys(Put(Put(props, n, e), l, e))
      && (Distinct(Keys(props)) ==> Distinct(Keys(r)))
  {
    var a := Put(props, n, e);
    var b := Put(a, l, e);
    var c := Put(b, n, vn);
    var r := Put(c, l, vl);
    PutGetOther(c, l, vl, n);
    PutOthers(props, n, e);
    PutOthers(a, l, e);
    PutOthers(b, n, vn);
    PutOthers(c, l, vl);
    if Distinct(Keys(props)) {
      PutDistinct(props, n, e);
      PutDistinct(a, l, e);
      PutDistinct(b, n, vn);
      PutDistinct(c, l, vl);
    }
  }

  /** After `Register_Topology` the entry `Nodes` holds the node names and `Links` the
      links, each entry present once, and every other property is as it was. */
  lemma TopologyRegistered(props: Dict<string, string>, nodes: seq<string>, links: seq<(string, string)>)
    ensures var r := Put(Put(Put(Put(props, "Nodes", ""), "Links", ""), "Nodes", NodesText(nodes)), "Links", LinksText(links));
      && Get(r, "Nodes") == Some(NodesText(nodes))
      && Get(r, "Links") == Some(LinksText(links))
      && (forall k :: k != "Nodes" && k != "Links" ==> Get(r, k) == Get(props, k))
      && Keys(r) == Keys(Put(Put(props, "Nodes", ""), "Links", ""))
      && (Distinct(Keys(props)) ==> Distinct(Keys(r)))
  {
    assert "Nodes"[0] != "Links"[0];
    RefilledPair(props, "Nodes", "Links", "", NodesText(nodes), LinksText(links));
  }

  // ---------------------------------------------------------------- the schedule

  /** The times `Generate_Data` gives `Make_Ensemble` for one link: `t + 1` for every
      `t` below `Simulation_Time_Limit` with `Cut_down <= t < Cut_up`, in order. */
  function Window(cutDown: int, cutUp: int, limit: nat): seq<nat>
    decreases limit
  {
    if limit == 0 then []
    else Window(cutDown, cutUp, limit - 1) + (if cutDown <= limit - 1 < cutUp then [limit] else [])
  }

  /** A time is in the window exactly when it is `t + 1` of a step `t` of the run that
      lies in the cut; the times increase. */
  lemma {:induction false} WindowMembers(cutDown: int, cutUp: int, limit: nat)
    ensures forall T :: T in Window(cutDown, cutUp, limit) <==> 1 <= T <= limit && cutDown <= T - 1 < cutUp
    ensures forall i, j :: 0 <= i < j < |Window(cutDown, cutUp, limit)| ==>
      Window(cutDown, cutUp, limit)[i] < Window(cutDown, cutUp, limit)[j]
    decreases limit
  {
    if limit > 0 {
      WindowMembers(cutDown, cutUp, limit - 1);
      var front := Window(cutDown, cutUp, limit - 1);
      var w := Window(cutDown, cutUp, limit);
      forall i, j | 0 <= i < j < |w| ensures w[i] < w[j] {
        if j >= |front| {
          assert w[i] == front[i];
          assert front[i] in front;
        }
      }
    }
  }

  /** The window up to a step is a prefix of the whole window. */
  lemma {:induction false} WindowPrefix(cutDown: int, cutUp: int, t: nat, limit: nat)
    requires t <= limit
    ensures Window(cutDown, cutUp, t) <= Window(cutDown, cutUp, limit)
    decreases limit - t
  {
    if t < limit {
      WindowPrefix(cutDown, cutUp, t, limit - 1);
    }
  }

  /** The `Make_Ensemble` calls for one link, in order. */
  function Calls<L>(link: L, times: seq<nat>): (r: seq<(L, nat)>)
    ensures |r| == |times| && forall i :: 0 <= i < |times| ==> r[i] == (link, times[i])
  {
    seq(|times|, i requires 0 <= i < |times| => (link, times[i]))
  }

  /** The calls for part of the window start the calls for all of it. */
  lemma CallsPrefix<L>(link: L, part: seq<nat>, times: seq<nat>)
    requires part <= times
    ensures Calls(link, part) <= Calls(link, times)
  {
  }

  /** Appending keeps the prefix order. */
  lemma AppendPrefix<T>(x: seq<T>, a: seq<T>, b: seq<T>)
    requires a <= b
    ensures x <= x + a <= x + b
  {
    assert (x + b)[..|x + a|] == x + a;
  }

  /** Prefixes of prefixes. */
  lemma PrefixChain<T>(a: seq<T>, b: seq<T>, c: seq<T>)
    requires a <= b <= c
    ensures a <= c
  {
    assert c[..|a|] == b[..|a|];
  }

  /** The calls of one link after step `t` of the window: the next call is appended
      when `t` lies in the cut. */
  lemma CallsStep<L>(start: seq<(L, nat)>, link: L, cutDown: int, cutUp: int, t: nat)
    ensures start + Calls(link, Window(cutDown, cutUp, t + 1))
         == start + Calls(link, Window(cutDown, cutUp, t))
            + (if cutDown <= t < cutUp then [(link, t + 1)] else [])
  {
    if cutDown <= t < cutUp {
      assert Calls(link, Window(cutDown, cutUp, t + 1)) == Calls(link, Window(cutDown, cutUp, t)) + [(link, t + 1)];
    } else {
      assert Window(cutDown, cutUp, t + 1) == Window(cutDown, cutUp, t);
    }
  }

  /** When step `t` of the window fails, its call has been made, and the calls so far
      begin the calls of the whole window. */
  lemma CallsFailed<L>(start: seq<(L, nat)>, calls: seq<(L, nat)>, link: L,
                    cutDown: int, cutUp: int, t: nat, limit: nat)
    requires t < limit && cutDown <= t < cutUp
    requires calls == start + Calls(link, Window(cutDown, cutUp, t + 1))
    ensures start < calls <= start + Calls(link, Window(cutDown, cutUp, limit))
  {
    ghost var part := Window(cutDown, cutUp, t + 1);
    assert |part| > 0;
    WindowPrefix(cutDown, cutUp, t + 1, limit);
    CallsPrefix(link, part, Window(cutDown, cutUp, limit));
    AppendPrefix(start, Calls(link, part), Calls(link, Window(cutDown, cutUp, limit)));
  }

  /** The schedule after one more selected link. */
  lemma ScheduleStep<L>(start: seq<(L, nat)>, links: seq<L>, times: seq<nat>, i: nat)
    requires i < |links|
    ensures start + Schedule(links[..i + 1], times) == start + Schedule(links[..i], times) + Calls(links[i], times)
  {
    assert links[..i + 1][..i] == links[..i];
  }

  /** When the link `links[i]` fails, some call has been made since the start, and the
      calls so far begin the whole schedule. */
  lemma ScheduleFailed<L>(start: seq<(L, nat)>, calls: seq<(L, nat)>,
                       links: seq<L>, times: seq<nat>, i: nat)
    requires i < |links|
    requires start + Schedule(links[..i], times) < calls <= start + Schedule(links[..i], times) + Calls(links[i], times)
    ensures start < calls <= start + Schedule(links, times)
  {
    var before := start + Schedule(links[..i], times);
    SchedulePrefix(links, times, i, times);
    AppendPrefix(start, Schedule(links[..i], times) + Calls(links[i], times), Schedule(links, times));
    assert before + Calls(links[i], times) == start + (Schedule(links[..i], times) + Calls(links[i], times));
    PrefixChain(calls, before + Calls(links[i], times), start + Schedule(links, times));
    AppendPrefix(start, [], Schedule(links[..i], times));
    assert start + [] == start;
    PrefixChain(start, before, calls);
  }

  /** `for x in xs: Selected.append(x)`. */
  method SelectAll<L>(sel: seq<L>, xs: seq<L>) returns (r: seq<L>)
    ensures r == sel + xs
  {
    r := sel;
    var i := 0;
    while i < |xs|
      invariant i <= |xs| && r == sel + xs[..i]
    {
      assert xs[..i + 1] == xs[..i] + [xs[i]];
      r := r + [xs[i]];
      i := i + 1;
    }
    assert xs[..i] == xs;
  }

  /** Every `Make_Ensemble` call of `Generate_Data`: link by link, the times of the
      window in order. */
  function Schedule<L>(links: seq<L>, times: seq<nat>): seq<(L, nat)>
    decreases |links|
  {
    if |links| == 0 then [] else Schedule(links[..|links| - 1], times) + Calls(links[|links| - 1], times)
  }

  /** A link and a time are called exactly when the link is selected and the time lies
      in the window; every link gets the whole window. */
  lemma {:induction false} ScheduleMembers<L>(links: seq<L>, times: seq<nat>)
    ensures forall l, T :: (l, T) in Schedule(links, times) <==> l in links && T in times
    ensures |Schedule(links, times)| == |links| * |times|
    decreases |links|
  {
    if |links| > 0 {
      var front := links[..|links| - 1];
      ScheduleMembers(front, times);
      assert links == front + [links[|links| - 1]];
      forall l, T ensures (l, T) in Calls(links[|links| - 1], times) <==> l == links[|links| - 1] && T in times {
        if (l, T) in Calls(links[|links| - 1], times) {
          var i :| 0 <= i < |times| && Calls(links[|links| - 1], times)[i] == (l, T);
        }
        if l == links[|links| - 1] && T in times {
          var i :| 0 <= i < |times| && times[i] == T;
          assert Calls(links[|links| - 1], times)[i] == (l, T);
        }
      }
    }
  }

  /** The calls made for the first links and then part of the window of the next are
      the start of the whole schedule. */
  lemma {:induction false} SchedulePrefix<L>(links: seq<L>, times: seq<nat>, i: nat, part: seq<nat>)
    requires i < |links| && part <= times
    ensures Schedule(links[..i], times) + Calls(links[i], part) <= Schedule(links, times)
    decreases |links|
  {
    if i + 1 < |links| {
      SchedulePrefix(links[..|links| - 1], times, i, part);
      assert links[..|links| - 1][..i] == links[..i];
    } else {
      assert links[..|links| - 1] == links[..i];
      assert Calls(links[i], part) == Calls(links[i], times)[..|part|];
    }
  }
}
