/** The ensemble driver of the library revision. The estimator's source is fed the
    last step of every replicate; after the ensemble its statistics give the
    measures of the link or node simulated, which are appended to the result
    files. In realtime analysis every selected link is simulated pairwise over the
    cut window, then every selected node together with its neighbours. In
    post-analysis the states are instead saved, one snapshot line per replicate
    and saved time, for a later pass over the files.

    The hooks of the subclass (`Dynamics_of_States`, `Init_State_Space`) are
    parameters, the file system is a map from file name to contents, and `ln`
    and the printing of values are parameters as well. */
module ModelBasics {
  import opened Wrappers
  import opened Dicts
  import opened Histogram
  import opened Text
  import opened Records
  import opened InformationNetwork
  import opened SimpleBinning
  import opened SeveralVariables
  import opened Driver

  // ---------------------------------------------------------------- what is simulated

  /** `Simulation_Nodes`: the empty tuple it starts as, a link, or a node followed
      by its neighbours. */
  datatype Target = Unset | Pair(link: (string, string)) | Group(members: seq<string>)

  /** The names `Init_Source_Realtime` indexes in `Simulation_Nodes`. */
  function Members(t: Target): seq<string> {
    match t
    case Unset => []
    case Pair(l) => [l.0, l.1]
    case Group(ns) => ns
  }

  /** `Info_Network.Links[Simulation_Nodes]`: only a link is a key of the links; the
      empty tuple is a KeyError, a list is not even hashable. */
  function LinkKey(t: Target): (r: Result<(string, string)>)
    ensures r.Ok? <==> t.Pair?
  {
    match t
    case Pair(l) => Ok(l)
    case Unset => Err(MissingKey)
    case Group(_) => Err(Unhashable)
  }

  /** `"Link_%s_%s.txt" % Simulation_Nodes`: only a pair fills both places. */
  function LinkName(t: Target): (r: Result<(string, string)>)
    ensures r.Ok? <==> t.Pair?
  {
    if t.Pair? then Ok(t.link) else Err(FormatArguments)
  }

  /** `Simulation_Nodes[0]`. */
  function FirstMember(t: Target): (r: Result<string>)
    ensures r.Ok? <==> |Members(t)| > 0
    ensures r.Ok? ==> r.value == Members(t)[0]
  {
    if |Members(t)| == 0 then Err(IndexOutOfRange) else Ok(Members(t)[0])
  }

  // ---------------------------------------------------------------- one step

  /** A binning source as the simulation sees it: its mode and its variable names. */
  datatype Feed = Feed(analysis: string, names: Option<seq<string>>)

  /** `Update_Source_Realtime(State_Space, Update_Buffer)` on the statistics of a
      source: nothing outside realtime mode, otherwise one more count in the cell
      of the current replicate. */
  function Fed(f: Feed, stats: Table, s: States, b: States): Result<Table> {
    if f.analysis != "Realtime" then Ok(stats) else Updated(stats, f.names, s, b)
  }

  /** What every step of a simulation uses: `Dynamics_of_States`, the node names in
      order, the estimator's source and that of the additional variable,
      `Save_Interval` and `Ensemble_Directory`. */
  datatype Setup = Setup(dyn: Dynamics, keys: seq<string>, main: Feed, extra: Feed, interval: int, ensembleDir: string)

  /** What a replicate acts on: the states, the buffer, `Previous_States`, the
      statistics of both sources, the files, and how many replicates were started. */
  datatype Replica = Replica(state: States, buffer: States, previous: States, stats: Table, extra: Table,
                             files: Files, replicates: nat)

  /** `Init_State_Space`, a hook: the new states from the old ones and the number of
      replicates started before. */
  type Initializer = (States, nat) -> States

  /** `Ensemble_Directory + "at_time%03d.txt" % t`. */
  function SnapshotPath(dir: string, t: int): string {
    dir + "at_time" + Stamp(t) + ".txt"
  }

  /** The values of the names, in order. */
  function Column<K(==)>(d: Dict<K, int>, keys: seq<K>): (r: seq<int>)
    ensures |r| == |keys|
  {
    seq(|keys|, i requires 0 <= i < |keys| => Get(d, keys[i]).GetOr(0))
  }

  /** `Save_States(t, Previous_States)`: the line of previous and current states of
      every node, appended to the snapshot file of time `t`; a node missing from
      either is the KeyError, before anything is written. */
  function SavedStates(files: Files, dir: string, t: int, prev: States, cur: States, keys: seq<string>): Result<Files> {
    if Present(prev, cur, keys)
    then Ok(FileAppended(files, SnapshotPath(dir, t), StatesLine(Column(prev, keys), Column(cur, keys))))
    else Err(MissingKey)
  }

  /** The post-analysis part of step `t`: at every multiple of `Save_Interval` the
      states are saved (except at time 0) and then remembered as the previous
      ones. An interval of zero is the ZeroDivisionError. */
  function Snapshotted(p: Setup, x: Replica, t: nat): Result<Replica> {
    if p.main.analysis != "Post_Analysis" then Ok(x)
    else if p.interval == 0 then Err(ZeroDivision)
    else if t % p.interval != 0 then Ok(x)
    else
      var files :- if t == 0 then Ok(x.files) else SavedStates(x.files, p.ensembleDir, t, x.previous, x.state, p.keys);
      var prev :- Committed(x.previous, x.state, p.keys);
      Ok(x.(files := files, previous := prev))
  }

  /** The updates of the estimator's source, then of the additional variable's. */
  function FedReplica(main: Feed, extra: Feed, x: Replica): Result<Replica> {
    var stats :- Fed(main, x.stats, x.state, x.buffer);
    var extra :- Fed(extra, x.extra, x.state, x.buffer);
    Ok(x.(stats := stats, extra := extra))
  }

  /** `Update_States()` on a replica. */
  function CommittedReplica(x: Replica, keys: seq<string>): Result<Replica> {
    var s :- Committed(x.state, x.buffer, keys);
    Ok(x.(state := s))
  }

  /** Step `t` of `Simulate_Model(T)`: the dynamics fill the buffer, on the last
      step the sources are fed, the snapshot is taken, and the buffer is committed;
      the first exception ends the step. */
  function StepOf(p: Setup, r: Replica, t: nat, T: nat): Result<Replica> {
    var b :- p.dyn(r.state, r.buffer);
    var x := r.(buffer := b);
    var fed :- if t + 1 == T then FedReplica(p.main, p.extra, x) else Ok(x);
    var snap :- Snapshotted(p, fed, t);
    CommittedReplica(snap, p.keys)
  }

  /** Steps `t` to `T - 1` of `Simulate_Model(T)`; an exception ends the run. */
  function Run(p: Setup, r: Replica, T: nat, t: nat): Result<Replica>
    decreases T - t
  {
    if t >= T then Ok(r)
    else
      var x := StepOf(p, r, t, T);
      if x.Err? then x else Run(p, x.value, T, t + 1)
  }

  /** The first of the remaining steps, then the others. */
  lemma RunUnfold(p: Setup, r: Replica, T: nat, t: nat)
    requires t < T
    ensures Run(p, r, T, t) == match StepOf(p, r, t, T)
      case Ok(x) => Run(p, x, T, t + 1)
      case Err(e) => Err(e)
  {
  }

  /** The replica once `Init_State_Space` has set the states and `Simulate_Model`
      has emptied `Previous_States`. */
  function Drawing(x: Replica, init: Initializer): (r: Replica)
    ensures r.stats == x.stats && r.extra == x.extra && r.files == x.files && r.replicates == x.replicates + 1
  {
    x.(state := init(x.state, x.replicates), previous := [], replicates := x.replicates + 1)
  }

  /** One replicate of `Construct_Ensemble(T)`: `Init_State_Space()`, then
      `Simulate_Model(T)`. */
  function Replicate(p: Setup, init: Initializer, T: nat, x: Replica): Result<Replica> {
    Run(p, Drawing(x, init), T, 0)
  }

  /** A replicate as a function of the replica it starts from. */
  function Replicator(p: Setup, init: Initializer, T: nat): Replica -> Result<Replica> {
    (x: Replica) => Replicate(p, init, T, x)
  }

  /** `c` runs of a replicate function, one after the other; the first exception
      ends them. */
  function EnsembleOf(rep: Replica -> Result<Replica>, r: Replica, c: nat): Result<Replica>
    decreases c
  {
    if c == 0 then Ok(r)
    else
      var x := rep(r);
      if x.Err? then x else EnsembleOf(rep, x.value, c - 1)
  }

  /** The `c` replicates of `Construct_Ensemble(T)`. */
  function Ensemble(p: Setup, init: Initializer, T: nat, r: Replica, c: nat): Result<Replica> {
    EnsembleOf(Replicator(p, init, T), r, c)
  }

  /** `rep` runs the replicates of `p`. */
  ghost predicate Replicates(rep: Replica -> Result<Replica>, p: Setup, init: Initializer, T: nat) {
    forall x {:trigger Replicate(p, init, T, x)} :: rep(x) == Replicate(p, init, T, x)
  }

  /** `Replicator` runs the replicates of its setup. */
  lemma ReplicatorReplicates(p: Setup, init: Initializer, T: nat)
    ensures Replicates(Replicator(p, init, T), p, init, T)
  {
    forall x {:trigger Replicate(p, init, T, x)} ensures Replicator(p, init, T)(x) == Replicate(p, init, T, x) {
    }
  }

  /** One run more after `c` of them. */
  lemma {:induction false} EnsembleSnoc(rep: Replica -> Result<Replica>, r: Replica, c: nat)
    ensures EnsembleOf(rep, r, c + 1) ==
      (var e := EnsembleOf(rep, r, c); if e.Err? then e else rep(e.value))
    decreases c
  {
    if c > 0 {
      var x := rep(r);
      if x.Ok? {
        EnsembleSnoc(rep, x.value, c - 1);
      }
    }
  }

  /** Once a run raises, the runs after it do not happen. */
  lemma {:induction false} EnsembleStops(rep: Replica -> Result<Replica>, r: Replica, c: nat, n: nat)
    requires c <= n && EnsembleOf(rep, r, c).Err?
    ensures EnsembleOf(rep, r, n) == EnsembleOf(rep, r, c)
    decreases n - c
  {
    if c < n {
      EnsembleSnoc(rep, r, c);
      EnsembleStops(rep, r, c + 1, n);
    }
  }

  // ---------------------------------------------------------------- one count per replicate

  /** What a step, a run or a replicate keeps: the cells of the estimator's
      histogram, and, outside post-analysis, the files. */
  ghost predicate Keeps(p: Setup, r: Replica, x: Replica) {
    && Keys(x.stats) == Keys(r.stats)
    && (p.main.analysis != "Realtime" ==> x.stats == r.stats)
    && (p.main.analysis != "Post_Analysis" ==> x.files == r.files)
  }

  /** Only the last step feeds the source, which in realtime mode adds one count to
      its histogram; outside post-analysis no file is written. */
  lemma StepTotal(p: Setup, r: Replica, t: nat, T: nat)
    requires StepOf(p, r, t, T).Ok?
    ensures var x := StepOf(p, r, t, T).value;
      && Total(x.stats) == Total(r.stats) + (if t + 1 == T && p.main.analysis == "Realtime" then 1 else 0)
      && Keeps(p, r, x) && x.replicates == r.replicates
  {
    var b := p.dyn(r.state, r.buffer).value;
    var x := r.(buffer := b);
    if t + 1 == T && p.main.analysis == "Realtime" {
      var names := p.main.names.value;
      var cell := CellOf(names, x.state, x.buffer).value;
      assert Fed(p.main, x.stats, x.state, x.buffer) == Increment(x.stats, cell);
    }
  }

  /** Steps `t` to `T - 1` count once in realtime mode when there is at least one of
      them, the last. */
  lemma {:induction false} RunCounts(p: Setup, r: Replica, T: nat, t: nat)
    requires Run(p, r, T, t).Ok?
    ensures var x := Run(p, r, T, t).value;
      && Total(x.stats) == Total(r.stats) + (if t < T && p.main.analysis == "Realtime" then 1 else 0)
      && Keeps(p, r, x) && x.replicates == r.replicates
    decreases T - t
  {
    if t < T {
      StepTotal(p, r, t, T);
      RunCounts(p, StepOf(p, r, t, T).value, T, t + 1);
    }
  }

  /** A replicate of `T >= 1` steps adds one count in realtime mode. */
  lemma ReplicateTotal(p: Setup, init: Initializer, T: nat, x: Replica)
    requires Replicate(p, init, T, x).Ok?
    ensures var y := Replicate(p, init, T, x).value;
      && Total(y.stats) == Total(x.stats) + (if T >= 1 && p.main.analysis == "Realtime" then 1 else 0)
      && Keeps(p, x, y) && y.replicates == x.replicates + 1
  {
    RunCounts(p, Drawing(x, init), T, 0);
  }

  /** Replicates that each add `width` counts leave `c * width` more after `c` of
      them. */
  lemma {:induction false} EnsembleCounts(rep: Replica -> Result<Replica>, p: Setup, r: Replica, c: nat, width: nat)
    requires forall x {:trigger rep(x)} :: rep(x).Ok? ==>
      Total(rep(x).value.stats) == Total(x.stats) + width && Keeps(p, x, rep(x).value)
      && rep(x).value.replicates == x.replicates + 1
    requires EnsembleOf(rep, r, c).Ok?
    ensures var y := EnsembleOf(rep, r, c).value;
      Total(y.stats) == Total(r.stats) + c * width && Keeps(p, r, y) && y.replicates == r.replicates + c
    decreases c
  {
    if c > 0 {
      EnsembleCounts(rep, p, rep(r).value, c - 1, width);
      assert (c - 1) * width + width == c * width;
    }
  }

  /** `Construct_Ensemble(T)` in realtime mode: after `c` replicates of `T >= 1` steps
      the histogram of the estimator's source holds `c` more counts, one per
      replicate, over the same cells; outside realtime mode it is untouched, and
      outside post-analysis no file is written. */
  lemma EnsembleTotal(p: Setup, init: Initializer, T: nat, r: Replica, c: nat)
    requires Ensemble(p, init, T, r, c).Ok?
    ensures var y := Ensemble(p, init, T, r, c).value;
      && Total(y.stats) == Total(r.stats) + (if T >= 1 && p.main.analysis == "Realtime" then c else 0)
      && Keeps(p, r, y) && y.replicates == r.replicates + c
  {
    var rep := Replicator(p, init, T);
    var width := if T >= 1 && p.main.analysis == "Realtime" then 1 else 0;
    forall x | rep(x).Ok?
      ensures Total(rep(x).value.stats) == Total(x.stats) + width && Keeps(p, x, rep(x).value)
      ensures rep(x).value.replicates == x.replicates + 1
    {
      ReplicateTotal(p, init, T, x);
    }
    EnsembleCounts(rep, p, r, c, width);
  }

  // ---------------------------------------------------------------- the snapshots

  /** In post-analysis, step `t` appends one snapshot line exactly when `t` is a
      nonzero multiple of `Save_Interval`. */
  lemma SnapshotFiles(p: Setup, x: Replica, t: nat)
    requires p.main.analysis == "Post_Analysis" && p.interval != 0
    requires forall i :: 0 <= i < |p.keys| ==> Get(x.state, p.keys[i]).Some?
    requires t == 0 || Present(x.previous, x.state, p.keys)
    ensures Snapshotted(p, x, t).Ok?
    ensures Snapshotted(p, x, t).value.files ==
      if t % p.interval == 0 && t != 0
      then FileAppended(x.files, SnapshotPath(p.ensembleDir, t), StatesLine(Column(x.previous, p.keys), Column(x.state, p.keys)))
      else x.files
  {
    if t % p.interval == 0 {
      var prev := Committed(x.previous, x.state, p.keys);
      assert prev.Ok?;
    }
  }

  /** At every multiple of `Save_Interval` the previous states of the nodes become
      their current ones; between them `Previous_States` is untouched. */
  lemma SnapshotPrevious(p: Setup, x: Replica, t: nat)
    requires p.main.analysis == "Post_Analysis" && Snapshotted(p, x, t).Ok?
    ensures var y := Snapshotted(p, x, t).value;
      && (t % p.interval == 0 ==> forall i :: 0 <= i < |p.keys| ==> Get(y.previous, p.keys[i]) == Get(x.state, p.keys[i]))
      && (t % p.interval != 0 ==> y.previous == x.previous)
  {
    if t % p.interval == 0 {
      CopiedValues(x.previous, x.state, p.keys);
    }
  }

  /** The column of the first `i + 1` names is that of the first `i` and one more. */
  lemma ColumnSnoc<K>(d: Dict<K, int>, keys: seq<K>, i: nat)
    requires i < |keys|
    ensures Column(d, keys[..i + 1]) == Column(d, keys[..i]) + [Get(d, keys[i]).GetOr(0)]
  {
    assert Column(d, keys[..i + 1]) == Column(d, keys[..i]) + [Get(d, keys[i]).GetOr(0)];
  }

  /** A histogram with the keys of one whose cells lie in `cells` has its cells there too. */
  lemma SameKeysWithin(t: Table, u: Table, cells: seq<Tuple>)
    requires Keys(u) == Keys(t) && forall i :: 0 <= i < |t| ==> t[i].0 in cells
    ensures forall i :: 0 <= i < |u| ==> u[i].0 in cells
  {
    forall i | 0 <= i < |u| ensures u[i].0 in cells {
      assert Keys(u)[i] == u[i].0 && Keys(t)[i] == t[i].0;
    }
  }

  /** Zeroing the cells keeps the histogram a dictionary over them, with nothing counted. */
  lemma ZeroedWithin(t: Table, cells: seq<Tuple>)
    requires Distinct(Keys(t)) && forall i :: 0 <= i < |t| ==> t[i].0 in cells
    ensures var z := PutAll(t, cells, 0);
      Distinct(Keys(z)) && Total(z) == 0 && forall i :: 0 <= i < |z| ==> z[i].0 in cells
  {
    var z := PutAll(t, cells, 0);
    PutAllSpec(t, cells, 0);
    ZeroedTotal(t, cells);
    KeysWithin(t, cells);
    forall i | 0 <= i < |z| ensures z[i].0 in cells {
      assert Keys(z)[i] == z[i].0;
    }
  }

  lemma KeysWithin(t: Table, cells: seq<Tuple>)
    requires forall i :: 0 <= i < |t| ==> t[i].0 in cells
    ensures forall k :: k in Keys(t) ==> k in cells
  {
    forall k | k in Keys(t) ensures k in cells {
      var j :| 0 <= j < |t| && Keys(t)[j] == k;
    }
  }

  /** Every name has a value in both dictionaries. */
  predicate Present<K(==)>(prev: Dict<K, int>, cur: Dict<K, int>, keys: seq<K>) {
    forall i :: 0 <= i < |keys| ==> Get(prev, keys[i]).Some? && Get(cur, keys[i]).Some?
  }

  lemma PresentStep<K>(prev: Dict<K, int>, cur: Dict<K, int>, keys: seq<K>, i: nat)
    requires i < |keys| && Present(prev, cur, keys[..i])
    requires Get(prev, keys[i]).Some? && Get(cur, keys[i]).Some?
    ensures Present(prev, cur, keys[..i + 1])
  {
    assert forall j :: 0 <= j < i ==> keys[..i + 1][j] == keys[..i][j];
  }

  lemma PresentPrefix<K>(prev: Dict<K, int>, cur: Dict<K, int>, keys: seq<K>, i: nat)
    requires i < |keys| && (Get(prev, keys[i]).None? || Get(cur, keys[i]).None?)
    ensures !Present(prev, cur, keys)
  {
  }

  /** The loop of `Save_States` that builds the line: the previous and the current
      state of every node in turn; a node missing from either is the KeyError. */
  method SnapshotData<K(==)>(prev: Dict<K, int>, cur: Dict<K, int>, keys: seq<K>) returns (r: Result<string>)
    ensures r == if Present(prev, cur, keys) then Ok(StatePairs(Column(prev, keys), Column(cur, keys))) else Err(MissingKey)
  {
    var data := "";
    var i := 0;
    while i < |keys|
      invariant i <= |keys| && Present(prev, cur, keys[..i])
      invariant data == StatePairs(Column(prev, keys[..i]), Column(cur, keys[..i]))
    {
      var p, c := Get(prev, keys[i]), Get(cur, keys[i]);
      if p.None? || c.None? {
        PresentPrefix(prev, cur, keys, i);
        return Err(MissingKey);
      }
      PresentStep(prev, cur, keys, i);
      ColumnSnoc(prev, keys, i);
      ColumnSnoc(cur, keys, i);
      StatePairsSnoc(Column(prev, keys[..i]), Column(cur, keys[..i]), p.value, c.value);
      data := data + StateField(p.value) + "|" + StateField(c.value) + "|";
      i := i + 1;
    }
    assert keys[..i] == keys;
    return Ok(data);
  }

  /** `Save_States` on the given files, directory and states. */
  method SaveStatesIn(files: Files, dir: string, t: int, prev: States, cur: States, keys: seq<string>)
      returns (r: Outcome, after: Files)
    ensures match SavedStates(files, dir, t, prev, cur, keys)
      case Ok(f) => r == Pass && after == f
      case Err(e) => r == Fail(e) && after == files
  {
    var data := SnapshotData(prev, cur, keys);
    if data.Err? {
      return Fail(data.error), files;
    }
    var line := data.value;
    after := FileAppended(files, dir + "at_time" + Stamp(t) + ".txt", (if |line| == 0 then "" else line[..|line| - 1]) + "\n");
    r := Pass;
  }

  /** Every key in turn set to 0. */
  method ZeroAll<K(==)>(s: Dict<K, int>, keys: seq<K>) returns (r: Dict<K, int>)
    ensures r == PutAll(s, keys, 0)
    ensures forall k :: k in keys ==> Get(r, k) == Some(0)
  {
    r := s;
    var i := 0;
    while i < |keys|
      invariant i <= |keys| && r == PutAll(s, keys[..i], 0)
    {
      PutAllStep(s, keys, i, 0);
      r := Put(r, keys[i], 0);
      i := i + 1;
    }
    assert keys[..i] == keys;
    PutAllSpec(s, keys, 0);
  }

  // ---------------------------------------------------------------- the estimates

  /** What `Calculate_Info_Vars` hands the estimator to: the link of a pairwise
      simulation, the first node of a point simulation, or nothing for any other
      `Type`. */
  datatype Subject = LinkSubject(link: (string, string)) | NodeSubject(name: string) | NoSubject

  /** The subject for the type of the source: a pairwise simulation looks
      `Simulation_Nodes` up among the links, a point simulation takes its first name. */
  function SubjectOf(kind: string, t: Target): Result<Subject> {
    if kind == "Pairwise" then var l :- LinkKey(t); Ok(LinkSubject(l))
    else if kind == "Point" then var n :- FirstMember(t); Ok(NodeSubject(n))
    else Ok(NoSubject)
  }

  /** `Var_` and `Alpha_` of a node or a link. */
  type Tables = (Dict<string, real>, Dict<string, real>)

  /** The tables of the subject, when the network has it. */
  function SubjectTables(net: Network, s: Subject): Option<Tables>
    reads net, net.NodeObjects(), net.LinkObjects()
  {
    match s
    case LinkSubject(l) =>
      var i := Find(net.links, l);
      if i.None? then None else Some((net.links[i.value].1.var_, net.links[i.value].1.alpha_))
    case NodeSubject(n) =>
      var i := Find(net.nodes, n);
      if i.None? then None else Some((net.nodes[i.value].1.var_, net.nodes[i.value].1.alpha_))
    case NoSubject => None
  }

  /** What `Calculate(Estimator)` of the subject leaves in its tables and how it ends,
      with the measures `m`; none when the network does not have the subject. */
  function Assignment(net: Network, s: Subject, m: Measures): Option<(Dict<string, real>, Dict<string, real>, Outcome)>
    reads net, net.NodeObjects(), net.LinkObjects()
  {
    match s
    case LinkSubject(l) =>
      var i := Find(net.links, l);
      if i.None? then None
      else
        var k := net.links[i.value].1;
        Some(LinkAssignment(k.var_, k.alpha_, LinkResults(m, k.indexTuple.0, k.indexTuple.1)))
    case NodeSubject(n) =>
      var i := Find(net.nodes, n);
      if i.None? then None
      else
        var k := net.nodes[i.value].1;
        Some(NodeAssignment(k.var_, k.alpha_, NodeResults(m, k.index)))
    case NoSubject => None
  }

  /** How the calculation of `Calculate_Info_Vars` ends: the exception of the lookup,
      the KeyError of a subject the network lacks, or how its `Calculate` ends;
      with no subject nothing is calculated. */
  function Calculation(net: Network, s: Result<Subject>, m: Measures): Outcome
    reads net, net.NodeObjects(), net.LinkObjects()
  {
    match s
    case Err(e) => Fail(e)
    case Ok(NoSubject) => Pass
    case Ok(x) =>
      match Assignment(net, x, m)
      case None => Fail(MissingKey)
      case Some(a) => a.2
  }

  /** `Calculate_Info_Vars()` once its subject is known: the subject's measures,
      then, unless they raised, the additional variable's. */
  method CalculateThenEstimate(net: Network, v: AdditionalVariable, s: Subject, m: Measures, ln: real -> real) returns (r: Outcome)
    requires net.Valid() && !s.NoSubject?
    modifies net.NodeObjects(), net.LinkObjects(), v
    ensures net.Valid() && net.Neighborhoods() == old(net.Neighborhoods())
    ensures v.name == old(v.name)
    ensures var c := old(Calculation(net, Ok(s), m));
      var es := EstimateResults(v.kind, v.source.Snapshot(), ln);
      && r == (if c.Fail? then c else FirstFailure(es))
      && v.value == (if c.Fail? then old(v.value) else Assigned(old(v.value), EstimateKeys(v.kind), es))
      && (old(Assignment(net, s, m)).Some? ==>
            var a := old(Assignment(net, s, m)).value;
            SubjectTables(net, s) == Some((a.0, a.1)))
  {
    r := CalculateSubject(net, s, m);
    if r.Fail? {
      return;
    }
    r := EstimateBeside(net, v, ln);
  }

  /** `Estimate_the_Variable()` beside the network, which it leaves alone. */
  method EstimateBeside(net: Network, v: AdditionalVariable, ln: real -> real) returns (r: Outcome)
    modifies v
    ensures unchanged(net) && unchanged(net.NodeObjects()) && unchanged(net.LinkObjects())
    ensures v.name == old(v.name)
    ensures v.value == Assigned(old(v.value), EstimateKeys(v.kind), EstimateResults(v.kind, v.source.Snapshot(), ln))
    ensures r == FirstFailure(EstimateResults(v.kind, v.source.Snapshot(), ln))
  {
    r := v.EstimateTheVariable(ln);
  }

  /** `Calculate(Estimator)` of the link or node of the subject: only that object
      changes, and it holds what its own measures assign; a subject the network
      lacks is the KeyError. No neighbour list changes. */
  method CalculateSubject(net: Network, s: Subject, m: Measures) returns (r: Outcome)
    requires net.Valid() && !s.NoSubject?
    modifies net.NodeObjects(), net.LinkObjects()
    ensures net.Valid() && net.Neighborhoods() == old(net.Neighborhoods())
    ensures match old(Assignment(net, s, m))
      case None => r == Fail(MissingKey) && SubjectTables(net, s) == None
      case Some(a) => r == a.2 && SubjectTables(net, s) == Some((a.0, a.1))
    ensures s.LinkSubject? ==> net.Tables() == old(net.Tables())
  {
    if s.LinkSubject? {
      r := CalculateLink(net, s.link, m);
    } else {
      r := CalculateNode(net, s.name, m);
    }
  }

  /** `Info_Network.Links[l].Calculate(Estimator)`. */
  method CalculateLink(net: Network, l: (string, string), m: Measures) returns (r: Outcome)
    requires net.Valid()
    modifies net.LinkObjects()
    ensures net.Valid() && net.Neighborhoods() == old(net.Neighborhoods()) && net.Tables() == old(net.Tables())
    ensures match old(Assignment(net, LinkSubject(l), m))
      case None => r == Fail(MissingKey) && SubjectTables(net, LinkSubject(l)) == None
      case Some(a) => r == a.2 && SubjectTables(net, LinkSubject(l)) == Some((a.0, a.1))
  {
    var i := Find(net.links, l);
    if i.None? {
      return Fail(MissingKey);
    }
    var k := net.links[i.value].1;
    r := k.Calculate(m);
  }

  /** `Info_Network.Nodes[n].Calculate(Estimator)`. */
  method CalculateNode(net: Network, n: string, m: Measures) returns (r: Outcome)
    requires net.Valid()
    modifies net.NodeObjects()
    ensures net.Valid() && net.Neighborhoods() == old(net.Neighborhoods())
    ensures match old(Assignment(net, NodeSubject(n), m))
      case None => r == Fail(MissingKey) && SubjectTables(net, NodeSubject(n)) == None
      case Some(a) => r == a.2 && SubjectTables(net, NodeSubject(n)) == Some((a.0, a.1))
  {
    var i := Find(net.nodes, n);
    if i.None? {
      return Fail(MissingKey);
    }
    var k := net.nodes[i.value].1;
    ghost var h := net.Neighborhoods();
    r := k.Calculate(m);
    assert net.Neighborhoods() == h;
  }

  /** The file `Save_Info_Vars` opens and the subject whose tables it writes:
      `Link_a_b.txt` of a pairwise simulation (only a pair fills the name), then the
      lookup among the links; `Node_a.txt` of the first name of a point simulation;
      with any other type no file name is ever bound. */
  function SaveTarget(kind: string, t: Target, dir: string): Result<(string, Subject)> {
    if kind == "Pairwise" then
      var l :- LinkName(t);
      Ok((LinkFile(dir, l), LinkSubject(l)))
    else if kind == "Point" then
      var n :- FirstMember(t);
      Ok((NodeFile(dir, n), NodeSubject(n)))
    else Err(UnboundName)
  }

  /** The record `Save_Info_Vars(T)` appends for tables `tb`: the stamp of `T - 1`,
      then `Var_[key][T - 2]` of the first entry, which indexes a float: the
      TypeError. Only two empty tables reach the end of the line. */
  function Saved(files: Files, path: string, T: int, tb: Tables): (Files, Outcome) {
    var stamped := FileAppended(files, path, Stamp(T - 1) + ":");
    if |tb.0| + |tb.1| > 0 then (stamped, Fail(NotSubscriptable))
    else (FileAppended(stamped, path, "\n"), Pass)
  }

  /** The whole of `Save_Info_Vars(T)` for tables `tb`: the record, then, when it got
      to the end of its line, the additional variable's own. */
  function Recorded(files: Files, path: string, T: int, tb: Tables, v: AdditionalVariable, dir: string, fmt: Render)
    : (Files, Outcome)
    reads v, v.source
  {
    var s := Saved(files, path, T, tb);
    if s.1.Fail? then s else (v.SavedVariable(s.0, dir, T, fmt), Pass)
  }

  /** Every table of a valid network has entries, so a record past its stamp fails:
      the network stores one value per measure, not a series over time. */
  lemma SubjectTablesFilled(net: Network, s: Subject)
    requires net.Valid() && SubjectTables(net, s).Some?
    ensures |SubjectTables(net, s).value.0| > 0
  {
    match s
    case LinkSubject(l) =>
      var i := Find(net.links, l).value;
      assert net.links[i].1.Valid();
      assert |Keys(net.links[i].1.var_)| == |LinkVarKeys()|;
    case NodeSubject(n) =>
      var i := Find(net.nodes, n).value;
      assert net.nodes[i].1.Valid();
      assert |Keys(net.nodes[i].1.var_)| == |NodeVarKeys()|;
  }

  /** `Simulation_Nodes` of a selected link. */
  function Pairs(links: seq<(string, string)>): (r: seq<Target>)
    ensures |r| == |links| && forall i :: 0 <= i < |links| ==> r[i] == Pair(links[i])
  {
    seq(|links|, i requires 0 <= i < |links| => Pair(links[i]))
  }

  /** `Simulation_Nodes` of a selected node: the node followed by its neighbours,
      out of the neighbour lists `hoods` of the nodes in order. */
  function NodeTarget(nodes: Dict<string, Node>, hoods: seq<seq<string>>, name: string): Target
    requires |hoods| == |nodes|
  {
    var i := Find(nodes, name);
    if i.None? then Unset else Group([name] + hoods[i.value])
  }

  function NodeTargets(nodes: Dict<string, Node>, hoods: seq<seq<string>>, names: seq<string>): (r: seq<Target>)
    requires |hoods| == |nodes|
    ensures |r| == |names| && forall i :: 0 <= i < |names| ==> r[i] == NodeTarget(nodes, hoods, names[i])
  {
    seq(|names|, i requires 0 <= i < |names| => NodeTarget(nodes, hoods, names[i]))
  }

  /** Every name of `names` is a key of `keys`. */
  predicate AllKnown(names: seq<string>, keys: seq<string>)
  {
    |names| == 0 || (AllKnown(names[..|names| - 1], keys) && names[|names| - 1] in keys)
  }

  lemma AllKnownEach(names: seq<string>, keys: seq<string>)
    requires AllKnown(names, keys)
    ensures forall i :: 0 <= i < |names| ==> names[i] in keys
    decreases |names|
  {
    if |names| > 0 {
      var n := names[..|names| - 1];
      AllKnownEach(n, keys);
      assert forall i :: 0 <= i < |n| ==> names[i] == n[i];
    }
  }

  /** The calls the simulations of `Generate_Data()` make, from `before` to `after`,
      ending in `r`: in realtime mode the links, then the node targets, over the
      window `w`, cut short by a failure, and through only when the window holds no
      time but 1 or nothing is selected; in post-analysis one ensemble over the whole
      time limit `T`; otherwise none. */
  ghost predicate Simulated(mode: string, before: seq<(Target, nat)>, after: seq<(Target, nat)>,
                            links: seq<(string, string)>, targets: seq<Target>, w: seq<nat>, whole: Target, T: nat,
                            r: Outcome)
  {
    && (mode == "Realtime" ==>
          var all := Schedule(Pairs(links), w) + Schedule(targets, w);
          && (r == Pass ==> after == before + all)
          && (r.Fail? ==> before <= after <= before + all)
          && (r == Pass && |links| + |targets| > 0 ==> forall t :: t in w ==> t == 1))
    && (mode == "Post_Analysis" ==> after == before + [(whole, T)])
    && (mode != "Realtime" && mode != "Post_Analysis" ==> after == before)
  }

  /** What the realtime loops make is what the realtime simulations make. */
  lemma SimulatedRealtime(before: seq<(Target, nat)>, after: seq<(Target, nat)>, links: seq<(string, string)>,
                          targets: seq<Target>, w: seq<nat>, whole: Target, T: nat, r: Outcome)
    requires var all := Schedule(Pairs(links), w) + Schedule(targets, w);
      && (r == Pass ==> after == before + all)
      && (r.Fail? ==> before <= after <= before + all)
      && (r == Pass && |links| + |targets| > 0 ==> forall t :: t in w ==> t == 1)
    ensures Simulated("Realtime", before, after, links, targets, w, whole, T, r)
  {
  }

  /** One ensemble over the whole time limit is what post-analysis simulates, and
      nothing is what the other modes simulate. */
  lemma SimulatedOther(mode: string, before: seq<(Target, nat)>, after: seq<(Target, nat)>,
                       links: seq<(string, string)>, targets: seq<Target>, w: seq<nat>, whole: Target, T: nat,
                       r: Outcome)
    requires mode != "Realtime"
    requires after == if mode == "Post_Analysis" then before + [(whole, T)] else before
    ensures Simulated(mode, before, after, links, targets, w, whole, T, r)
  {
  }

  /** A later failure, after simulations that got through, keeps what they made. */
  lemma SimulatedThen(mode: string, before: seq<(Target, nat)>, after: seq<(Target, nat)>,
                      links: seq<(string, string)>, targets: seq<Target>, w: seq<nat>, whole: Target, T: nat,
                      r: Outcome)
    requires Simulated(mode, before, after, links, targets, w, whole, T, Pass)
    ensures Simulated(mode, before, after, links, targets, w, whole, T, r)
  {
  }

  /** A loop that stops at target `i`, before or during its window, has made calls
      that begin the whole schedule. */
  lemma ScheduleCut<L>(start: seq<(L, nat)>, calls: seq<(L, nat)>, links: seq<L>, times: seq<nat>, i: nat)
    requires i < |links|
    requires start + Schedule(links[..i], times) <= calls <= start + Schedule(links[..i], times) + Calls(links[i], times)
    ensures start <= calls <= start + Schedule(links, times)
  {
    var before := start + Schedule(links[..i], times);
    SchedulePrefix(links, times, i, times);
    AppendPrefix(start, Schedule(links[..i], times) + Calls(links[i], times), Schedule(links, times));
    assert before + Calls(links[i], times) == start + (Schedule(links[..i], times) + Calls(links[i], times));
    PrefixChain(calls, before + Calls(links[i], times), start + Schedule(links, times));
    AppendPrefix(start, [], Schedule(links[..i], times));
    assert start + [] == start;
    PrefixChain(start, before, calls);
  }

  // ---------------------------------------------------------------- the headers

  /** The header of a result file: every key of `Var_`, then of `Alpha_`, each
      followed by `|`, and the newline. */
  function HeaderLine(tb: Tables): string {
    Terminated(Keys(tb.0) + Keys(tb.1), '|') + "\n"
  }

  /** A header splits at its `|` back into the keys, followed by the newline. */
  lemma HeaderSplits(tb: Tables)
    requires forall k :: k in Keys(tb.0) + Keys(tb.1) ==> '|' !in k
    ensures Split(HeaderLine(tb), '|') == Keys(tb.0) + Keys(tb.1) + ["\n"]
  {
    var keys := Keys(tb.0) + Keys(tb.1);
    forall i | 0 <= i < |keys| ensures '|' !in keys[i] {
      assert keys[i] in keys;
    }
    SplitTerminated(keys, "\n", '|');
    SplitNoSeparator("\n", '|');
  }

  /** The tables of every link, in the order of `links`. */
  function LinkTables(net: Network): (r: seq<Tables>)
    reads net, net.LinkObjects()
    ensures |r| == |net.links| && forall i :: 0 <= i < |net.links| ==> r[i] == (net.links[i].1.var_, net.links[i].1.alpha_)
  {
    seq(|net.links|, i requires 0 <= i < |net.links| reads net, net.LinkObjects() => (net.links[i].1.var_, net.links[i].1.alpha_))
  }

  /** What `Create_File_Header` writes: the header of every node into its file, then
      that of every link into its file. */
  function HeaderWrites(dir: string, nodes: seq<string>, nt: seq<Tables>, links: seq<(string, string)>, lt: seq<Tables>)
      : (r: seq<(string, string)>)
    requires |nt| == |nodes| && |lt| == |links|
    ensures |r| == |nodes| + |links|
    ensures forall i :: 0 <= i < |nodes| ==> r[i] == (NodeFile(dir, nodes[i]), HeaderLine(nt[i]))
    ensures forall i :: 0 <= i < |links| ==> r[|nodes| + i] == (LinkFile(dir, links[i]), HeaderLine(lt[i]))
  {
    seq(|nodes|, i requires 0 <= i < |nodes| => (NodeFile(dir, nodes[i]), HeaderLine(nt[i])))
      + seq(|links|, i requires 0 <= i < |links| => (LinkFile(dir, links[i]), HeaderLine(lt[i])))
  }

  /** `open(path, 'w').write(text)` for each write in turn. */
  function Overwritten(files: Files, writes: seq<(string, string)>): Files
    decreases |writes|
  {
    if |writes| == 0 then files
    else Overwritten(files, writes[..|writes| - 1])[writes[|writes| - 1].0 := writes[|writes| - 1].1]
  }

  /** A file is what the last write to it wrote. */
  lemma {:induction false} OverwrittenAt(files: Files, writes: seq<(string, string)>, i: nat)
    requires i < |writes| && forall j :: i < j < |writes| ==> writes[j].0 != writes[i].0
    ensures writes[i].0 in Overwritten(files, writes) && Overwritten(files, writes)[writes[i].0] == writes[i].1
    decreases |writes|
  {
    if i < |writes| - 1 {
      var front := writes[..|writes| - 1];
      assert forall j :: i < j < |front| ==> front[j] == writes[j];
      OverwrittenAt(files, front, i);
    }
  }

  /** A file no write names is as it was. */
  lemma {:induction false} OverwrittenElsewhere(files: Files, writes: seq<(string, string)>, p: string)
    requires forall j :: 0 <= j < |writes| ==> writes[j].0 != p
    ensures (p in Overwritten(files, writes) <==> p in files)
    ensures p in files ==> Overwritten(files, writes)[p] == files[p]
    decreases |writes|
  {
    if |writes| > 0 {
      var front := writes[..|writes| - 1];
      assert forall j :: 0 <= j < |front| ==> front[j] == writes[j];
      OverwrittenElsewhere(files, front, p);
    }
  }

  /** The writes one by one. */
  method Overwrite(files: Files, writes: seq<(string, string)>) returns (r: Files)
    ensures r == Overwritten(files, writes)
  {
    r := files;
    var i := 0;
    while i < |writes|
      invariant i <= |writes| && r == Overwritten(files, writes[..i])
    {
      assert writes[..i + 1][..i] == writes[..i];
      r := r[writes[i].0 := writes[i].1];
      i := i + 1;
    }
    assert writes[..i] == writes;
  }

  /** After `Create_File_Header` the file of every node of a dictionary without
      repeated names holds exactly the node's header. */
  lemma NodeHeaders(files: Files, dir: string, nodes: seq<string>, nt: seq<Tables>,
                    links: seq<(string, string)>, lt: seq<Tables>, i: nat)
    requires |nt| == |nodes| && |lt| == |links| && Distinct(nodes) && i < |nodes|
    ensures var f := Overwritten(files, HeaderWrites(dir, nodes, nt, links, lt));
      NodeFile(dir, nodes[i]) in f && f[NodeFile(dir, nodes[i])] == HeaderLine(nt[i])
  {
    var w := HeaderWrites(dir, nodes, nt, links, lt);
    forall j | i < j < |w| ensures w[j].0 != w[i].0 {
      if j < |nodes| {
        if w[j].0 == w[i].0 {
          NodeFileInjective(dir, nodes[j], nodes[i]);
        }
      } else {
        NodeFileNotLinkFile(dir, nodes[i], links[j - |nodes|]);
      }
    }
    OverwrittenAt(files, w, i);
  }

  // ---------------------------------------------------------------- the energy

  /** `Save_Directory + "Node_%s_E_values.txt" % node`. */
  function EFile(dir: string, name: string): string {
    dir + "Node_" + name + "_E_values.txt"
  }

  /** The first line of the file of every selected node, in order. */
  function EHeaders(dir: string, names: seq<string>): (r: seq<(string, string)>)
    ensures |r| == |names| && forall i :: 0 <= i < |names| ==> r[i] == (EFile(dir, names[i]), "E|\n")
  {
    seq(|names|, i requires 0 <= i < |names| => (EFile(dir, names[i]), "E|\n"))
  }

  /** `Estimate_E(t, node)`: the node is looked up, then `Var_["H0'"][t]`, a key no
      `Calculate` stores, of tables that hold one float per measure. It always
      raises; on a valid network it is the KeyError. */
  function EstimateE(net: Network, t: int, name: string): (r: Result<real>)
    reads net, net.NodeObjects(), net.LinkObjects()
    ensures r.Err?
    ensures net.Valid() ==> r == Err(MissingKey)
  {
    var i := Find(net.nodes, name);
    if i.None? then Err(MissingKey)
    else
      var node := net.nodes[i.value].1;
      assert node in net.NodeObjects();
      if Find(node.var_, "H0'").None? then Err(MissingKey)
      else
        assert net.Valid() ==> node.Valid();
        Err(NotSubscriptable)
  }

  // ---------------------------------------------------------------- the replays

  /** The times `Post_Analysis` reads back: `t * Save_Interval` for
      `t = 1 .. int(Time_Limit / Save_Interval) - 1`; none when the interval is not
      positive (the quotient is then at most zero). */
  function ReplayTimes(limit: nat, interval: int): (r: seq<nat>)
  {
    if interval <= 0 || limit / interval < 1 then []
    else Multiples(interval, limit / interval - 1)
  }

  /** `k` multiples of `n`, from `n` up. */
  function Multiples(n: nat, k: nat): (r: seq<nat>)
    ensures |r| == k && forall i :: 0 <= i < k ==> r[i] == (i + 1) * n
  {
    seq(k, i requires 0 <= i < k => (i + 1) * n)
  }

  /** Every time read back is the next multiple of the interval, and a whole interval
      still fits after it before the limit. */
  lemma ReplayTimesSound(limit: nat, interval: int, i: nat)
    requires i < |ReplayTimes(limit, interval)|
    ensures interval > 0
    ensures ReplayTimes(limit, interval)[i] == (i + 1) * interval
    ensures ReplayTimes(limit, interval)[i] + interval <= limit
  {
    var n := limit / interval;
    assert n * interval <= limit by { assert limit == n * interval + limit % interval; }
    MulNonNegative(n - i - 2, interval);
    assert (i + 1) * interval + interval + (n - i - 2) * interval == n * interval;
  }

  /** Every positive multiple of the interval with a whole interval after it before
      the limit is read back. */
  lemma ReplayTimesComplete(limit: nat, interval: int, t: nat)
    requires interval > 0 && t >= 1 && (t + 1) * interval <= limit
    ensures t * interval in ReplayTimes(limit, interval)
  {
    var n := limit / interval;
    assert limit < (n + 1) * interval by { assert limit == n * interval + limit % interval; }
    assert t + 1 <= n;
    assert ReplayTimes(limit, interval)[t - 1] == t * interval;
  }

  /** When the interval does not divide the limit the last snapshot is never read
      back: with a limit of 10 and an interval of 3 the snapshots are taken at 3, 6
      and 9, but only 3 and 6 are read. */
  lemma LastSnapshotUnread()
    ensures ReplayTimes(10, 3) == [3, 6]
    ensures 9 !in ReplayTimes(10, 3)
  {
    assert 10 / 3 == 3;
    assert Multiples(3, 2) == [3, 6];
  }

  lemma MulNonNegative(a: int, b: int)
    requires a >= 0 && b >= 0
    ensures a * b >= 0
  {
  }

  // ---------------------------------------------------------------- the driver

  /** `Model_Basic`, with the settings a subclass makes (`Simulation_Time_Limit`,
      `Size_of_Ensemble`, `Save_Interval`, the directories), the network its
      `Set_Topology` builds and the estimator its `Set_Estimator` chooses. */
  class Model {
    const timeLimit: nat
    const sizeOfEnsemble: nat
    const saveInterval: int
    const saveDirectory: string
    const ensembleDirectory: string
    const network: Network
    const estimator: Estimator
    /** `An_Additional_Information_Variable_BIN(0, 4)`, which does nothing. */
    const infoVar: AdditionalVariable
    var cutUp: int
    var cutDown: int
    var properties: Dict<string, string>
    var stateSpace: States
    var updateBuffer: States
    /** `Previous_States` of the running `Simulate_Model`. */
    var previousStates: States
    var simulationNodes: Target
    var selectedNodes: seq<string>
    var selectedLinks: seq<(string, string)>
    /** The contents of the files written so far. */
    var files: Files
    /** How many replicates `Init_State_Space` has started. */
    var replicates: nat
    /** The `Construct_Ensemble` calls made so far, with their target and time. */
    ghost var calls: seq<(Target, nat)>
    /** The times `Post_Analysis` has read back so far, with their target. */
    ghost var replays: seq<(Target, nat)>

    /** `Model_Basic()`: no properties, states, buffer or selection, the cut from `0`
        to `-1` (the time limit), and `Simulation_Nodes` the empty tuple. */
    constructor(timeLimit: nat, sizeOfEnsemble: nat, saveInterval: int, saveDirectory: string,
                ensembleDirectory: string, network: Network, estimator: Estimator, files: Files)
      requires estimator.source.Valid() && |estimator.source.statistics| == 0
      ensures Valid()
      ensures this.timeLimit == timeLimit && this.sizeOfEnsemble == sizeOfEnsemble && this.saveInterval == saveInterval
      ensures this.saveDirectory == saveDirectory && this.ensembleDirectory == ensembleDirectory
      ensures this.network == network && this.estimator == estimator && fresh(infoVar) && fresh(infoVar.source)
      ensures infoVar.kind == Base && infoVar.source.analysis == "" && infoVar.source.statistics == []
      ensures cutUp == -1 && cutDown == 0 && properties == [] && stateSpace == [] && updateBuffer == []
      ensures previousStates == [] && simulationNodes == Unset && selectedNodes == [] && selectedLinks == []
      ensures this.files == files && replicates == 0 && calls == [] && replays == []
    {
      this.timeLimit := timeLimit;
      this.sizeOfEnsemble := sizeOfEnsemble;
      this.saveInterval := saveInterval;
      this.saveDirectory := saveDirectory;
      this.ensembleDirectory := ensembleDirectory;
      this.network := network;
      this.estimator := estimator;
      infoVar := new AdditionalVariable.Plain(0, 4);
      cutUp := -1;
      cutDown := 0;
      properties := [];
      stateSpace := [];
      updateBuffer := [];
      previousStates := [];
      simulationNodes := Unset;
      selectedNodes := [];
      selectedLinks := [];
      this.files := files;
      replicates := 0;
      calls := [];
      replays := [];
    }

    /** The two sources are different objects and their histograms dictionaries;
        the estimator's holds only cells of its grid, and the additional variable,
        which does nothing, keeps its source out of realtime mode. */
    predicate Valid()
      reads estimator.source, infoVar.source
    {
      && estimator.source != infoVar.source
      && infoVar.source.analysis != "Realtime"
      && estimator.source.Valid() && infoVar.source.Valid()
      && forall i :: 0 <= i < |estimator.source.statistics| ==>
           estimator.source.statistics[i].0 in InitialCells(estimator.source.q, estimator.source.dimension)
    }

    /** What the simulation acts on. */
    function Current(): Replica
      reads this`stateSpace, this`updateBuffer, this`previousStates, this`files, this`replicates
      reads estimator.source, infoVar.source
    {
      Replica(stateSpace, updateBuffer, previousStates, estimator.source.statistics, infoVar.source.statistics,
              files, replicates)
    }

    /** The mode and names of the estimator's source. */
    function MainFeed(): Feed
      reads estimator.source
    {
      Feed(estimator.source.analysis, estimator.source.variableNames)
    }

    /** The mode and names of the additional variable's source. */
    function ExtraFeed(): Feed
      reads infoVar.source
    {
      Feed(infoVar.source.analysis, infoVar.source.variableNames)
    }

    function SetupWith(dyn: Dynamics): Setup
      reads network, estimator.source, infoVar.source
    {
      Setup(dyn, Keys(network.nodes), MainFeed(), ExtraFeed(), saveInterval, ensembleDirectory)
    }

    /** What the simulation leaves alone in both sources: mode, type and names. */
    function Modes(): (string, string, Option<seq<string>>, string, string, Option<seq<string>>)
      reads estimator.source, infoVar.source
    {
      (estimator.source.analysis, estimator.source.kind, estimator.source.variableNames,
       infoVar.source.analysis, infoVar.source.kind, infoVar.source.variableNames)
    }

    /** `Init_Space`: every node starts at 0, in the states and in the buffer; an empty
        selection of nodes takes every node and an empty selection of links every link. */
    method InitSpace()
      modifies this`stateSpace, this`updateBuffer, this`selectedNodes, this`selectedLinks
      ensures stateSpace == PutAll(old(stateSpace), Keys(network.nodes), 0)
      ensures updateBuffer == PutAll(old(updateBuffer), Keys(network.nodes), 0)
      ensures selectedNodes == if |old(selectedNodes)| == 0 then Keys(network.nodes) else old(selectedNodes)
      ensures selectedLinks == if |old(selectedLinks)| == 0 then Keys(network.links) else old(selectedLinks)
    {
      ZeroSpace();
      ResolveSelections();
    }

    /** The first half of `Init_Space`: every node at 0 in the states and the buffer. */
    method ZeroSpace()
      modifies this`stateSpace, this`updateBuffer
      ensures stateSpace == PutAll(old(stateSpace), Keys(network.nodes), 0)
      ensures updateBuffer == PutAll(old(updateBuffer), Keys(network.nodes), 0)
      ensures forall k :: k in Keys(network.nodes) ==> Get(stateSpace, k) == Some(0) && Get(updateBuffer, k) == Some(0)
    {
      var keys := Keys(network.nodes);
      stateSpace := ZeroAll(stateSpace, keys);
      updateBuffer := ZeroAll(updateBuffer, keys);
    }

    /** The second half of `Init_Space`: an empty selection takes everything. */
    method ResolveSelections()
      modifies this`selectedNodes, this`selectedLinks
      ensures selectedNodes == if |old(selectedNodes)| == 0 then Keys(network.nodes) else old(selectedNodes)
      ensures selectedLinks == if |old(selectedLinks)| == 0 then Keys(network.links) else old(selectedLinks)
    {
      if |selectedNodes| == 0 {
        selectedNodes := SelectAll(selectedNodes, Keys(network.nodes));
      }
      if |selectedLinks| == 0 {
        selectedLinks := SelectAll(selectedLinks, Keys(network.links));
      }
    }

    /** `Init_State_Space`, the hook of the subclass, as the function `init`. */
    method InitStateSpace(init: Initializer)
      modifies this`stateSpace, this`replicates
      ensures stateSpace == init(old(stateSpace), old(replicates)) && replicates == old(replicates) + 1
    {
      stateSpace := init(stateSpace, replicates);
      replicates := replicates + 1;
    }

    /** `Update_States`: every node takes its buffered value, in node order; a node
        the buffer lacks is the KeyError. */
    method UpdateStates() returns (r: Outcome)
      modifies this`stateSpace
      ensures match Committed(old(stateSpace), updateBuffer, Keys(network.nodes))
        case Ok(s) => r == Pass && stateSpace == s
        case Err(e) => r == Fail(e)
    {
      r, stateSpace := CommitStates(stateSpace, updateBuffer, Keys(network.nodes));
    }

    /** `Update_Source_Realtime(State_Space, Update_Buffer)` of the estimator's source,
        then of the additional variable's. */
    method FeedSources() returns (r: Outcome)
      requires Valid()
      modifies estimator.source, infoVar.source
      ensures Valid() && Modes() == old(Modes())
      ensures match old(FedReplica(MainFeed(), ExtraFeed(), Current()))
        case Ok(x) => r == Pass && Current() == x
        case Err(e) => r == Fail(e)
    {
      var ks := Keys(estimator.source.statistics);
      r := estimator.source.UpdateSourceRealtime(stateSpace, updateBuffer);
      if r.Fail? {
        return;
      }
      SameKeysInitial(old(estimator.source.statistics), estimator.source.statistics);
      r := infoVar.source.UpdateSourceRealtime(stateSpace, updateBuffer);
    }

    /** A histogram fed once keeps the cells of the one before. */
    lemma SameKeysInitial(t: Table, u: Table)
      requires Keys(u) == Keys(t)
      requires forall i :: 0 <= i < |t| ==> t[i].0 in InitialCells(estimator.source.q, estimator.source.dimension)
      ensures forall i :: 0 <= i < |u| ==> u[i].0 in InitialCells(estimator.source.q, estimator.source.dimension)
    {
      SameKeysWithin(t, u, InitialCells(estimator.source.q, estimator.source.dimension));
    }

    /** `Save_States(t, Previous_States)`: the previous and current state of every node,
        in node order, as one line appended to the snapshot file of time `t`; a node
        missing from either is the KeyError, before anything is written. */
    method SaveStates(t: int) returns (r: Outcome)
      modifies this`files
      ensures match SavedStates(old(files), ensembleDirectory, t, previousStates, stateSpace, Keys(network.nodes))
        case Ok(f) => r == Pass && files == f
        case Err(e) => r == Fail(e) && files == old(files)
    {
      r, files := SaveStatesIn(files, ensembleDirectory, t, previousStates, stateSpace, Keys(network.nodes));
    }

    /** The post-analysis part of step `t` of `Simulate_Model`. */
    method Snapshot(t: nat, ghost dyn: Dynamics) returns (r: Outcome)
      modifies this`files, this`previousStates
      ensures match old(Snapshotted(SetupWith(dyn), Current(), t))
        case Ok(x) => r == Pass && files == x.files && previousStates == x.previous
        case Err(e) => r == Fail(e)
    {
      if estimator.source.analysis != "Post_Analysis" {
        return Pass;
      }
      if saveInterval == 0 {
        return Fail(ZeroDivision);
      }
      if t % saveInterval != 0 {
        return Pass;
      }
      if t != 0 {
        r := SaveStates(t);
        if r.Fail? {
          return;
        }
      }
      r, previousStates := CommitStates(previousStates, stateSpace, Keys(network.nodes));
    }

    /** Step `t` of `Simulate_Model(T)`: `Dynamics_of_States()` fills the buffer, the
        last step feeds both sources, the snapshot is taken, and `Update_States()`
        commits the buffer; the first exception ends the step. */
    method SimulationStep(dyn: Dynamics, t: nat, T: nat) returns (r: Outcome)
      requires Valid()
      modifies this`updateBuffer, this`stateSpace, this`previousStates, this`files
      modifies estimator.source, infoVar.source
      ensures Valid() && Modes() == old(Modes())
      ensures match StepOf(old(SetupWith(dyn)), old(Current()), t, T)
        case Ok(x) => r == Pass && Current() == x
        case Err(e) => r == Fail(e)
    {
      ghost var p := SetupWith(dyn);
      var b := dyn(stateSpace, updateBuffer);
      if b.Err? {
        return Fail(b.error);
      }
      updateBuffer := b.value;
      ghost var x := Current();
      if t + 1 == T {
        r := FeedSources();
        if r.Fail? {
          return;
        }
      }
      ghost var fed := Current();
      assert (if t + 1 == T then FedReplica(p.main, p.extra, x) else Ok(x)) == Ok(fed);
      assert SetupWith(dyn) == p;
      r := Snapshot(t, dyn);
      if r.Fail? {
        return;
      }
      ghost var snap := Current();
      assert Snapshotted(p, fed, t) == Ok(snap);
      r := UpdateStates();
    }

    /** The steps of `Simulate_Model(T)`, in turn; the first exception ends them. */
    method RunSteps(T: nat, dyn: Dynamics) returns (r: Outcome)
      requires Valid()
      modifies this`updateBuffer, this`stateSpace, this`previousStates, this`files
      modifies estimator.source, infoVar.source
      ensures Valid() && Modes() == old(Modes())
      ensures match Run(old(SetupWith(dyn)), old(Current()), T, 0)
        case Ok(x) => r == Pass && Current() == x
        case Err(e) => r == Fail(e)
    {
      ghost var p := SetupWith(dyn);
      ghost var whole := Run(p, Current(), T, 0);
      var t := 0;
      r := Pass;
      while t < T && r == Pass
        invariant t <= T && Valid() && Modes() == old(Modes()) && SetupWith(dyn) == p
        invariant r == Pass ==> Run(p, Current(), T, t) == whole
        invariant r.Fail? ==> whole == Err(r.error)
      {
        ghost var before := Current();
        RunUnfold(p, before, T, t);
        r := SimulationStep(dyn, t, T);
        t := t + 1;
      }
    }

    /** `Simulate_Model(T)`: `Previous_States` starts empty, then `T` steps; the first
        exception ends the simulation. */
    method SimulateModel(T: nat, dyn: Dynamics) returns (r: Outcome)
      requires Valid()
      modifies this`updateBuffer, this`stateSpace, this`previousStates, this`files
      modifies estimator.source, infoVar.source
      ensures Valid() && Modes() == old(Modes())
      ensures match Run(old(SetupWith(dyn)), old(Current()).(previous := []), T, 0)
        case Ok(x) => r == Pass && Current() == x
        case Err(e) => r == Fail(e)
    {
      previousStates := [];
      r := RunSteps(T, dyn);
    }

    /** One replicate of `Construct_Ensemble(T)`: `Init_State_Space()`, then
        `Simulate_Model(T)`. */
    method RunReplicate(T: nat, dyn: Dynamics, init: Initializer) returns (r: Outcome)
      requires Valid()
      modifies this`updateBuffer, this`stateSpace, this`previousStates, this`files, this`replicates
      modifies estimator.source, infoVar.source
      ensures Valid() && Modes() == old(Modes())
      ensures match Replicate(old(SetupWith(dyn)), init, T, old(Current()))
        case Ok(x) => r == Pass && Current() == x
        case Err(e) => r == Fail(e)
    {
      InitStateSpace(init);
      assert Current().(previous := []) == Drawing(old(Current()), init);
      r := SimulateModel(T, dyn);
    }

    /** Replicate `c + 1` of the ensemble that starts at `start`. */
    method NextReplicate(T: nat, dyn: Dynamics, init: Initializer, ghost rep: Replica -> Result<Replica>,
                         ghost start: Replica, ghost c: nat) returns (r: Outcome)
      requires Valid() && Replicates(rep, SetupWith(dyn), init, T)
      requires EnsembleOf(rep, start, c) == Ok(Current())
      modifies this`updateBuffer, this`stateSpace, this`previousStates, this`files, this`replicates
      modifies estimator.source, infoVar.source
      ensures Valid() && Modes() == old(Modes())
      ensures r == Pass ==> EnsembleOf(rep, start, c + 1) == Ok(Current())
      ensures r.Fail? ==> EnsembleOf(rep, start, c + 1) == Err(r.error)
    {
      EnsembleSnoc(rep, start, c);
      r := RunReplicate(T, dyn, init);
    }

    /** The `Size_of_Ensemble` replicates of `Construct_Ensemble(T)`, in turn; the first
        exception ends them. */
    method RunReplicates(T: nat, dyn: Dynamics, init: Initializer, ghost rep: Replica -> Result<Replica>)
        returns (r: Outcome)
      requires Valid() && Replicates(rep, SetupWith(dyn), init, T)
      modifies this`updateBuffer, this`stateSpace, this`previousStates, this`files, this`replicates
      modifies estimator.source, infoVar.source
      ensures Valid() && Modes() == old(Modes())
      ensures match EnsembleOf(rep, old(Current()), sizeOfEnsemble)
        case Ok(x) => r == Pass && Current() == x
        case Err(e) => r == Fail(e)
    {
      ghost var start := Current();
      var c := 0;
      r := Pass;
      while c < sizeOfEnsemble && r == Pass
        invariant c <= sizeOfEnsemble && Valid() && Modes() == old(Modes())
        invariant Replicates(rep, SetupWith(dyn), init, T)
        invariant r == Pass ==> EnsembleOf(rep, start, c) == Ok(Current())
        invariant r.Fail? ==> EnsembleOf(rep, start, c) == Err(r.error)
      {
        r := NextReplicate(T, dyn, init, rep, start, c);
        c := c + 1;
      }
      if r.Fail? {
        EnsembleStops(rep, start, c, sizeOfEnsemble);
      }
    }

    /** `Calculate_Info_Vars()`: `Calculate(Estimator)` of the link of a pairwise
        simulation or of the first node of a point one, with the measures of the
        estimator's histogram, then `Estimate_the_Variable()`; the first exception
        ends it. */
    method CalculateInfoVars(ln: real -> real) returns (r: Outcome)
      requires network.Valid()
      modifies network.NodeObjects(), network.LinkObjects(), infoVar
      ensures network.Valid() && network.Neighborhoods() == old(network.Neighborhoods())
      ensures infoVar.name == old(infoVar.name)
      ensures var s := SubjectOf(estimator.source.kind, simulationNodes);
        var m := Binned(estimator.source.Snapshot(), ln);
        var c := old(Calculation(network, s, m));
        var es := EstimateResults(infoVar.kind, infoVar.source.Snapshot(), ln);
        && r == (if c.Fail? then c else FirstFailure(es))
        && infoVar.value == (if c.Fail? then old(infoVar.value) else Assigned(old(infoVar.value), EstimateKeys(infoVar.kind), es))
        && (s.Ok? && old(Assignment(network, s.value, m)).Some? ==>
              var a := old(Assignment(network, s.value, m)).value;
              SubjectTables(network, s.value) == Some((a.0, a.1)))
    {
      var s := SubjectOf(estimator.source.kind, simulationNodes);
      if s.Err? {
        return Fail(s.error);
      }
      if s.value.NoSubject? {
        r := infoVar.EstimateTheVariable(ln);
      } else {
        r := CalculateThenEstimate(network, infoVar, s.value, Binned(estimator.source.Snapshot(), ln), ln);
      }
    }


    /** `Save_Info_Vars(T)`: nothing at time 1. Otherwise the stamp of `T - 1` is
        appended to the file of the subject, and the record then indexes its first
        value by the time; only after a whole line does the additional variable save
        its own. */
    method SaveInfoVars(T: int, fmt: Render) returns (r: Outcome)
      modifies this`files
      ensures T == 1 ==> r == Pass && files == old(files)
      ensures T != 1 ==>
        match SaveTarget(estimator.source.kind, simulationNodes, saveDirectory)
        case Err(e) => r == Fail(e) && files == old(files)
        case Ok(target) =>
          (match SubjectTables(network, target.1)
           case None => r == Fail(MissingKey) && files == old(files)
           case Some(tb) => (files, r) == Recorded(old(files), target.0, T, tb, infoVar, saveDirectory, fmt))
      ensures old(network.Valid()) && T != 1 ==> r.Fail?
    {
      if T == 1 {
        return Pass;
      }
      var target := SaveTarget(estimator.source.kind, simulationNodes, saveDirectory);
      if target.Err? {
        return Fail(target.error);
      }
      r := SaveRecord(target.value.0, target.value.1, T, fmt);
    }

    /** The record of `Save_Info_Vars(T)` once the file and the subject are known: a
        subject the network lacks is the KeyError; a valid network's subjects have
        values, so the record raises after the stamp. */
    method SaveRecord(path: string, subject: Subject, T: int, fmt: Render) returns (r: Outcome)
      modifies this`files
      ensures match SubjectTables(network, subject)
        case None => r == Fail(MissingKey) && files == old(files)
        case Some(tb) => (files, r) == Recorded(old(files), path, T, tb, infoVar, saveDirectory, fmt)
      ensures old(network.Valid()) ==> r.Fail?
    {
      var tb := SubjectTables(network, subject);
      if tb.None? {
        return Fail(MissingKey);
      }
      if network.Valid() {
        SubjectTablesFilled(network, subject);
      }
      files, r := Recorded(files, path, T, tb.value, infoVar, saveDirectory, fmt).0,
                  Recorded(files, path, T, tb.value, infoVar, saveDirectory, fmt).1;
    }

    /** The two `Init_Source_Realtime(Simulation_Nodes)` calls of
        `Construct_Ensemble`: the estimator's source, then the additional variable's,
        which is never in realtime mode and so stays as it is. In realtime mode a
        success leaves the estimator's histogram with nothing counted; outside it
        nothing changes. */
    method InitSources() returns (r: Outcome)
      requires Valid()
      modifies estimator.source, infoVar.source
      ensures Valid()
      ensures estimator.source.analysis == old(estimator.source.analysis)
      ensures estimator.source.kind == old(estimator.source.kind)
      ensures ExtraFeed() == old(ExtraFeed()) && infoVar.source.statistics == old(infoVar.source.statistics)
      ensures old(estimator.source.analysis) != "Realtime" ==>
        r == Pass && estimator.source.statistics == old(estimator.source.statistics)
        && estimator.source.variableNames == old(estimator.source.variableNames)
      ensures old(estimator.source.analysis) == "Realtime" && r == Pass ==> Total(estimator.source.statistics) == 0
    {
      var cells := InitialCells(estimator.source.q, estimator.source.dimension);
      ZeroedWithin(estimator.source.statistics, cells);
      r := estimator.source.InitSourceRealtime(Members(simulationNodes));
      if r.Fail? {
        return;
      }
      r := infoVar.source.InitSourceRealtime(Members(simulationNodes));
    }

    /** What the simulations keep: the model and the network stay valid, no neighbour
        list changes, and the estimator's source keeps its mode. */
    ghost predicate Steady(hoods: seq<seq<string>>, analysis: string)
      reads estimator.source, infoVar.source, network, network.NodeObjects(), network.LinkObjects()
    {
      && Valid() && network.Valid() && network.Neighborhoods() == hoods
      && estimator.source.analysis == analysis
    }

    /** `Construct_Ensemble(T)`: both sources are set up for `Simulation_Nodes`, the
        `Size_of_Ensemble` replicates run, and in realtime mode the measures are
        calculated and saved; the first exception ends it. Outside realtime mode the
        result is that of the ensemble. In realtime mode it gets through only at
        `T == 1`, with one count per replicate, since the record of any later time
        indexes a float. */
    method ConstructEnsemble(T: nat, dyn: Dynamics, init: Initializer, ln: real -> real, fmt: Render)
        returns (r: Outcome)
      requires Valid() && network.Valid()
      modifies this`updateBuffer, this`stateSpace, this`previousStates, this`files, this`replicates
      modifies estimator.source, infoVar.source, infoVar, network.NodeObjects(), network.LinkObjects()
      ensures Steady(old(network.Neighborhoods()), old(estimator.source.analysis))
      ensures estimator.source.kind == old(estimator.source.kind)
      ensures old(estimator.source.analysis) != "Realtime" ==>
        match Ensemble(old(SetupWith(dyn)), init, T, old(Current()), sizeOfEnsemble)
        case Ok(x) => r == Pass && Current() == x
        case Err(e) => r == Fail(e)
      ensures old(estimator.source.analysis) == "Realtime" && r == Pass ==>
        T == 1 && Total(estimator.source.statistics) == sizeOfEnsemble
    {
      r := RunEnsemble(T, dyn, init);
      if r.Fail? || estimator.source.analysis != "Realtime" {
        return;
      }
      r := MeasureAndSave(T, ln, fmt);
    }

    /** The ensemble of `Construct_Ensemble(T)`: both sources set up, then the
        replicates. Outside realtime mode the setup leaves everything as it was, and
        the result is that of the ensemble; in realtime mode a success counts one
        observation per replicate. */
    method RunEnsemble(T: nat, dyn: Dynamics, init: Initializer) returns (r: Outcome)
      requires Valid()
      modifies this`updateBuffer, this`stateSpace, this`previousStates, this`files, this`replicates
      modifies estimator.source, infoVar.source
      ensures Valid()
      ensures estimator.source.analysis == old(estimator.source.analysis)
      ensures estimator.source.kind == old(estimator.source.kind)
      ensures old(estimator.source.analysis) != "Realtime" ==>
        match Ensemble(old(SetupWith(dyn)), init, T, old(Current()), sizeOfEnsemble)
        case Ok(x) => r == Pass && Current() == x
        case Err(e) => r == Fail(e)
      ensures old(estimator.source.analysis) == "Realtime" && r == Pass ==>
        Total(estimator.source.statistics) == if T >= 1 then sizeOfEnsemble else 0
    {
      r := InitSources();
      if r.Fail? {
        return;
      }
      ghost var p := SetupWith(dyn);
      ghost var start := Current();
      ReplicatorReplicates(p, init, T);
      r := RunReplicates(T, dyn, init, Replicator(p, init, T));
      if r == Pass && estimator.source.analysis == "Realtime" {
        EnsembleTotal(p, init, T, start, sizeOfEnsemble);
      }
    }

    /** The realtime end of `Construct_Ensemble(T)`: `Calculate_Info_Vars()`, then
        `Save_Info_Vars(T)`, which on a valid network gets through only at `T == 1`,
        and then writes nothing. */
    method MeasureAndSave(T: nat, ln: real -> real, fmt: Render) returns (r: Outcome)
      requires network.Valid()
      modifies this`files, infoVar, network.NodeObjects(), network.LinkObjects()
      ensures network.Valid() && network.Neighborhoods() == old(network.Neighborhoods())
      ensures r == Pass ==> T == 1 && files == old(files)
    {
      r := CalculateInfoVars(ln);
      if r.Fail? {
        return;
      }
      r := SaveInfoVars(T, fmt);
    }

    /** Step `t` of a loop of `Generate_Data()` over the time:
        `Construct_Ensemble(t + 1)` when `t` lies in the cut, nothing otherwise. */
    method WindowStep(t: nat, dyn: Dynamics, init: Initializer, ln: real -> real, fmt: Render) returns (r: Outcome)
      requires Valid() && network.Valid()
      modifies this`calls, this`updateBuffer, this`stateSpace, this`previousStates, this`files, this`replicates
      modifies estimator.source, infoVar.source, infoVar, network.NodeObjects(), network.LinkObjects()
      ensures Steady(old(network.Neighborhoods()), old(estimator.source.analysis))
      ensures estimator.source.kind == old(estimator.source.kind)
      ensures calls == old(calls) + if cutDown <= t < cutUp then [(simulationNodes, (t + 1) as nat)] else []
      ensures !(cutDown <= t < cutUp) ==> r == Pass
      ensures old(estimator.source.analysis) == "Realtime" && r == Pass && cutDown <= t < cutUp ==> t == 0
    {
      if cutDown <= t < cutUp {
        calls := calls + [(simulationNodes, (t + 1) as nat)];
        r := ConstructEnsemble(t + 1, dyn, init, ln, fmt);
      } else {
        r := Pass;
      }
    }

    /** One loop of `Generate_Data()`: `Simulation_Nodes` and the type of the source
        are set, and `Construct_Ensemble(t + 1)` runs for every `t` of the window, in
        order; the first exception ends it. */
    method SimulateTarget(target: Target, kind: string, dyn: Dynamics, init: Initializer, ln: real -> real, fmt: Render)
        returns (r: Outcome)
      requires Valid() && network.Valid()
      modifies this`simulationNodes, this`calls, this`updateBuffer, this`stateSpace, this`previousStates
      modifies this`files, this`replicates
      modifies estimator.source, infoVar.source, infoVar, network.NodeObjects(), network.LinkObjects()
      ensures Steady(old(network.Neighborhoods()), old(estimator.source.analysis))
      ensures simulationNodes == target && estimator.source.kind == kind
      ensures r == Pass ==> calls == old(calls) + Calls(target, Window(cutDown, cutUp, timeLimit))
      ensures r.Fail? ==> old(calls) < calls <= old(calls) + Calls(target, Window(cutDown, cutUp, timeLimit))
      ensures old(estimator.source.analysis) == "Realtime" && r == Pass ==>
        forall T :: T in Window(cutDown, cutUp, timeLimit) ==> T == 1
    {
      simulationNodes := target;
      estimator.source.kind := kind;
      r := RunWindow(dyn, init, ln, fmt);
    }

    /** The loop of `Generate_Data()` over the time, for the current target. */
    method RunWindow(dyn: Dynamics, init: Initializer, ln: real -> real, fmt: Render) returns (r: Outcome)
      requires Valid() && network.Valid()
      modifies this`calls, this`updateBuffer, this`stateSpace, this`previousStates, this`files, this`replicates
      modifies estimator.source, infoVar.source, infoVar, network.NodeObjects(), network.LinkObjects()
      ensures Steady(old(network.Neighborhoods()), old(estimator.source.analysis))
      ensures estimator.source.kind == old(estimator.source.kind)
      ensures r == Pass ==> calls == old(calls) + Calls(simulationNodes, Window(cutDown, cutUp, timeLimit))
      ensures r.Fail? ==> old(calls) < calls <= old(calls) + Calls(simulationNodes, Window(cutDown, cutUp, timeLimit))
      ensures old(estimator.source.analysis) == "Realtime" && r == Pass ==>
        forall T :: T in Window(cutDown, cutUp, timeLimit) ==> T == 1
    {
      ghost var hoods, mode, kind := network.Neighborhoods(), estimator.source.analysis, estimator.source.kind;
      var t := 0;
      r := Pass;
      while t < timeLimit
        invariant t <= timeLimit && r == Pass && Steady(hoods, mode) && estimator.source.kind == kind
        invariant calls == old(calls) + Calls(simulationNodes, Window(cutDown, cutUp, t))
        invariant mode == "Realtime" ==> forall T :: T in Window(cutDown, cutUp, t) ==> T == 1
      {
        r := WindowStep(t, dyn, init, ln, fmt);
        CallsStep(old(calls), simulationNodes, cutDown, cutUp, t);
        if r.Fail? {
          CallsFailed(old(calls), calls, simulationNodes, cutDown, cutUp, t, timeLimit);
          return;
        }
        t := t + 1;
      }
    }

    /** The first loop of `Generate_Data()` in realtime mode: every selected link in
        turn, simulated pairwise over the window. */
    method SimulateLinks(ghost hoods: seq<seq<string>>, ghost mode: string,
                         dyn: Dynamics, init: Initializer, ln: real -> real, fmt: Render) returns (r: Outcome)
      requires Steady(hoods, mode)
      modifies this`simulationNodes, this`calls, this`updateBuffer, this`stateSpace, this`previousStates
      modifies this`files, this`replicates
      modifies estimator.source, infoVar.source, infoVar, network.NodeObjects(), network.LinkObjects()
      ensures Steady(hoods, mode)
      ensures r == Pass ==> calls == old(calls) + Schedule(Pairs(selectedLinks), Window(cutDown, cutUp, timeLimit))
      ensures r.Fail? ==> old(calls) < calls <= old(calls) + Schedule(Pairs(selectedLinks), Window(cutDown, cutUp, timeLimit))
      ensures mode == "Realtime" && r == Pass && |selectedLinks| > 0 ==>
        forall T :: T in Window(cutDown, cutUp, timeLimit) ==> T == 1
    {
      ghost var times := Window(cutDown, cutUp, timeLimit);
      ghost var targets := Pairs(selectedLinks);
      var i := 0;
      r := Pass;
      while i < |selectedLinks|
        invariant i <= |selectedLinks| && r == Pass && Steady(hoods, mode)
        invariant calls == old(calls) + Schedule(targets[..i], times)
        invariant mode == "Realtime" && i > 0 ==> forall T :: T in times ==> T == 1
      {
        r := SimulateTarget(Pair(selectedLinks[i]), "Pairwise", dyn, init, ln, fmt);
        ScheduleStep(old(calls), targets, times, i);
        if r.Fail? {
          ScheduleFailed(old(calls), calls, targets, times, i);
          return;
        }
        i := i + 1;
      }
      assert targets[..i] == targets;
    }

    /** The second loop of `Generate_Data()` in realtime mode: every selected node in
        turn, with its neighbours, simulated as a point over the window; a node the
        network lacks is the KeyError. */
    method SimulateNodes(ghost targets: seq<Target>, ghost hoods: seq<seq<string>>, ghost mode: string,
                         dyn: Dynamics, init: Initializer, ln: real -> real, fmt: Render) returns (r: Outcome)
      requires Steady(hoods, mode) && targets == NodeTargets(network.nodes, hoods, selectedNodes)
      modifies this`simulationNodes, this`calls, this`updateBuffer, this`stateSpace, this`previousStates
      modifies this`files, this`replicates
      modifies estimator.source, infoVar.source, infoVar, network.NodeObjects(), network.LinkObjects()
      ensures Steady(hoods, mode)
      ensures var all := Schedule(targets, Window(cutDown, cutUp, timeLimit));
        && (r == Pass ==> calls == old(calls) + all)
        && (r.Fail? ==> old(calls) <= calls <= old(calls) + all)
      ensures r == Pass ==> forall i :: 0 <= i < |selectedNodes| ==> selectedNodes[i] in Keys(network.nodes)
      ensures mode == "Realtime" && r == Pass && |selectedNodes| > 0 ==>
        forall T :: T in Window(cutDown, cutUp, timeLimit) ==> T == 1
    {
      ghost var times, names := Window(cutDown, cutUp, timeLimit), Keys(network.nodes);
      assert targets[..0] == [] && selectedNodes[..0] == [];
      r := NodeSteps(old(calls), targets, times, names, hoods, mode, dyn, init, ln, fmt);
      if r == Pass {
        assert targets[..|targets|] == targets;
        assert selectedNodes[..|selectedNodes|] == selectedNodes;
        AllKnownEach(selectedNodes, names);
      }
    }

    /** The steps of the second loop of `Generate_Data()`, in order, until one fails. */
    method NodeSteps(ghost start: seq<(Target, nat)>, ghost targets: seq<Target>, ghost times: seq<nat>,
                     ghost names: seq<string>, ghost hoods: seq<seq<string>>, ghost mode: string,
                     dyn: Dynamics, init: Initializer, ln: real -> real, fmt: Render)
      returns (r: Outcome)
      requires NodesMade(0, start, targets, times, names, hoods, mode)
      requires targets == NodeTargets(network.nodes, hoods, selectedNodes)
      requires times == Window(cutDown, cutUp, timeLimit) && names == Keys(network.nodes)
      modifies this`simulationNodes, this`calls, this`updateBuffer, this`stateSpace, this`previousStates
      modifies this`files, this`replicates
      modifies estimator.source, infoVar.source, infoVar, network.NodeObjects(), network.LinkObjects()
      ensures Steady(hoods, mode)
      ensures r == Pass ==> NodesMade(|selectedNodes|, start, targets, times, names, hoods, mode)
      ensures r.Fail? ==> start <= calls <= start + Schedule(targets, times)
    {
      var i := 0;
      r := Pass;
      while i < |selectedNodes|
        invariant r == Pass && NodesMade(i, start, targets, times, names, hoods, mode)
      {
        r := NodeStep(i, start, targets, times, names, hoods, mode, dyn, init, ln, fmt);
        if r.Fail? {
          return;
        }
        i := i + 1;
      }
    }

    /** The first `i` steps of the second loop of `Generate_Data()` are done: their
        schedule is made and their names are known. */
    ghost predicate NodesMade(i: nat, start: seq<(Target, nat)>, targets: seq<Target>, times: seq<nat>,
                              names: seq<string>, hoods: seq<seq<string>>, mode: string)
      reads this, estimator.source, infoVar.source, network, network.NodeObjects(), network.LinkObjects()
    {
      && i <= |selectedNodes| && i <= |targets| && Steady(hoods, mode)
      && calls == start + Schedule(targets[..i], times) && AllKnown(selectedNodes[..i], names)
      && (mode == "Realtime" && i > 0 ==> forall T :: T in times ==> T == 1)
    }

    /** Step `i` of the second loop of `Generate_Data()`: on success one more step is
        done; on failure the calls still begin the whole schedule. */
    method NodeStep(i: nat, ghost start: seq<(Target, nat)>, ghost targets: seq<Target>, ghost times: seq<nat>,
                    ghost names: seq<string>, ghost hoods: seq<seq<string>>, ghost mode: string,
                    dyn: Dynamics, init: Initializer, ln: real -> real, fmt: Render)
      returns (r: Outcome)
      requires i < |selectedNodes| && NodesMade(i, start, targets, times, names, hoods, mode)
      requires targets == NodeTargets(network.nodes, hoods, selectedNodes)
      requires times == Window(cutDown, cutUp, timeLimit) && names == Keys(network.nodes)
      modifies this`simulationNodes, this`calls, this`updateBuffer, this`stateSpace, this`previousStates
      modifies this`files, this`replicates
      modifies estimator.source, infoVar.source, infoVar, network.NodeObjects(), network.LinkObjects()
      ensures Steady(hoods, mode)
      ensures r == Pass ==> NodesMade(i + 1, start, targets, times, names, hoods, mode)
      ensures r.Fail? ==> start <= calls <= start + Schedule(targets, times)
    {
      ghost var target := NodeTarget(network.nodes, hoods, selectedNodes[i]);
      assert target == targets[i];
      r := SimulateNode(selectedNodes[i], target, dyn, init, ln, fmt);
      ScheduleStep(start, targets, times, i);
      if r.Fail? {
        ScheduleCut(start, calls, targets, times, i);
        return;
      }
      assert !targets[i].Unset?;
      assert selectedNodes[..i + 1][..i] == selectedNodes[..i];
    }

    /** One node of the second loop of `Generate_Data()`: the node and its neighbours,
        simulated as a point over the window; a node the network lacks is the
        KeyError, before anything is simulated. */
    method SimulateNode(name: string, ghost target: Target, dyn: Dynamics, init: Initializer, ln: real -> real,
                        fmt: Render) returns (r: Outcome)
      requires Valid() && network.Valid() && target == NodeTarget(network.nodes, network.Neighborhoods(), name)
      modifies this`simulationNodes, this`calls, this`updateBuffer, this`stateSpace, this`previousStates
      modifies this`files, this`replicates
      modifies estimator.source, infoVar.source, infoVar, network.NodeObjects(), network.LinkObjects()
      ensures Steady(old(network.Neighborhoods()), old(estimator.source.analysis))
      ensures target.Unset? ==> r == Fail(MissingKey) && calls == old(calls)
      ensures !target.Unset? && r == Pass ==> calls == old(calls) + Calls(target, Window(cutDown, cutUp, timeLimit))
      ensures !target.Unset? && r.Fail? ==>
        old(calls) < calls <= old(calls) + Calls(target, Window(cutDown, cutUp, timeLimit))
      ensures old(estimator.source.analysis) == "Realtime" && r == Pass ==>
        forall T :: T in Window(cutDown, cutUp, timeLimit) ==> T == 1
    {
      var p := Find(network.nodes, name);
      if p.None? {
        return Fail(MissingKey);
      }
      var target := Group([name] + network.nodes[p.value].1.neighbors);
      r := SimulateTarget(target, "Point", dyn, init, ln, fmt);
    }

    /** `Post_Estimation_for_E()`: unless every link is selected, the ValueError. Then
        the file of every selected node is opened for writing with the line `E|`;
        with at least one time to write, the first `Estimate_E(0, node)` raises, after
        the first file is opened. */
    method PostEstimationForE() returns (r: Outcome)
      modifies this`files
      ensures |selectedLinks| != |network.links| ==> r == Fail(IncompleteEstimation) && files == old(files)
      ensures |selectedLinks| == |network.links| && (timeLimit <= 1 || |selectedNodes| == 0) ==>
        r == Pass && files == Overwritten(old(files), EHeaders(saveDirectory, selectedNodes))
      ensures |selectedLinks| == |network.links| && timeLimit >= 2 && |selectedNodes| > 0 ==>
        r == Fail(EstimateE(network, 0, selectedNodes[0]).error)
        && files == old(files)[EFile(saveDirectory, selectedNodes[0]) := "E|\n"]
    {
      if |selectedLinks| != |network.links| {
        return Fail(IncompleteEstimation);
      }
      r := Pass;
      var i := 0;
      while i < |selectedNodes|
        invariant i <= |selectedNodes| && files == Overwritten(old(files), EHeaders(saveDirectory, selectedNodes[..i]))
        invariant i > 0 ==> timeLimit <= 1
      {
        var name := selectedNodes[i];
        assert EHeaders(saveDirectory, selectedNodes[..i + 1])
            == EHeaders(saveDirectory, selectedNodes[..i]) + [(EFile(saveDirectory, name), "E|\n")];
        files := files[EFile(saveDirectory, name) := "E|\n"];
        if timeLimit >= 2 {
          var e := EstimateE(network, 0, name);
          return Fail(e.error);
        }
        i := i + 1;
      }
      assert selectedNodes[..i] == selectedNodes;
    }

    /** The start of `Generate_Data()`: `Cut_up = -1` becomes the time limit. */
    method ResolveCut()
      modifies this`cutUp
      ensures cutUp == if old(cutUp) == -1 then timeLimit else old(cutUp)
    {
      if cutUp == -1 {
        cutUp := timeLimit;
      }
    }

    /** The simulations of `Generate_Data()`: in realtime mode every selected link,
        then every selected node, over the window; in post-analysis one ensemble of
        the whole time limit. */
    method Simulations(ghost targets: seq<Target>, ghost hoods: seq<seq<string>>, ghost mode: string,
                       dyn: Dynamics, init: Initializer, ln: real -> real, fmt: Render) returns (r: Outcome)
      requires Steady(hoods, mode) && targets == NodeTargets(network.nodes, hoods, selectedNodes)
      modifies this`simulationNodes, this`calls, this`updateBuffer, this`stateSpace, this`previousStates
      modifies this`files, this`replicates
      modifies estimator.source, infoVar.source, infoVar, network.NodeObjects(), network.LinkObjects()
      ensures Steady(hoods, mode)
      ensures Simulated(mode, old(calls), calls, selectedLinks, targets, Window(cutDown, cutUp, timeLimit),
                        simulationNodes, timeLimit, r)
      ensures mode != "Realtime" && mode != "Post_Analysis" ==> r == Pass
    {
      if estimator.source.analysis == "Realtime" {
        r := RealtimeSimulations(targets, hoods, mode, dyn, init, ln, fmt);
        SimulatedRealtime(old(calls), calls, selectedLinks, targets, Window(cutDown, cutUp, timeLimit),
                          simulationNodes, timeLimit, r);
      } else if estimator.source.analysis == "Post_Analysis" {
        r := WholeEnsemble(hoods, mode, dyn, init, ln, fmt);
        SimulatedOther(mode, old(calls), calls, selectedLinks, targets, Window(cutDown, cutUp, timeLimit),
                       simulationNodes, timeLimit, r);
      } else {
        r := Pass;
        SimulatedOther(mode, old(calls), calls, selectedLinks, targets, Window(cutDown, cutUp, timeLimit),
                       simulationNodes, timeLimit, r);
      }
    }

    /** The post-analysis simulation of `Generate_Data()`: one ensemble of the whole
        time limit. */
    method WholeEnsemble(ghost hoods: seq<seq<string>>, ghost mode: string,
                         dyn: Dynamics, init: Initializer, ln: real -> real, fmt: Render) returns (r: Outcome)
      requires Steady(hoods, mode)
      modifies this`calls, this`updateBuffer, this`stateSpace, this`previousStates, this`files, this`replicates
      modifies estimator.source, infoVar.source, infoVar, network.NodeObjects(), network.LinkObjects()
      ensures Steady(hoods, mode)
      ensures calls == old(calls) + [(simulationNodes, timeLimit)]
    {
      calls := calls + [(simulationNodes, timeLimit)];
      ghost var made := calls;
      r := ConstructEnsemble(timeLimit, dyn, init, ln, fmt);
      assert calls == made;
    }

    /** The realtime simulations of `Generate_Data()`: every selected link, then every
        selected node, over the window; the first exception ends them. */
    method RealtimeSimulations(ghost targets: seq<Target>, ghost hoods: seq<seq<string>>, ghost mode: string,
                               dyn: Dynamics, init: Initializer, ln: real -> real, fmt: Render) returns (r: Outcome)
      requires Steady(hoods, mode) && targets == NodeTargets(network.nodes, hoods, selectedNodes)
      modifies this`simulationNodes, this`calls, this`updateBuffer, this`stateSpace, this`previousStates
      modifies this`files, this`replicates
      modifies estimator.source, infoVar.source, infoVar, network.NodeObjects(), network.LinkObjects()
      ensures Steady(hoods, mode)
      ensures var w := Window(cutDown, cutUp, timeLimit);
        var all := Schedule(Pairs(selectedLinks), w) + Schedule(targets, w);
        && (r == Pass ==> calls == old(calls) + all)
        && (r.Fail? ==> old(calls) <= calls <= old(calls) + all)
      ensures mode == "Realtime" && r == Pass && |selectedLinks| + |selectedNodes| > 0 ==>
        forall T :: T in Window(cutDown, cutUp, timeLimit) ==> T == 1
    {
      ghost var w := Window(cutDown, cutUp, timeLimit);
      ghost var links := Schedule(Pairs(selectedLinks), w);
      ghost var nodes := Schedule(targets, w);
      AppendPrefix(old(calls), links, links + nodes);
      r := SimulateLinks(hoods, mode, dyn, init, ln, fmt);
      if r.Fail? {
        PrefixChain(calls, old(calls) + links, old(calls) + (links + nodes));
        return;
      }
      r := SimulateNodes(targets, hoods, mode, dyn, init, ln, fmt);
      assert old(calls) + links + nodes == old(calls) + (links + nodes);
      if r.Fail? {
        PrefixChain(old(calls), old(calls) + links, calls);
      }
    }

    /** `Generate_Data()`: the cut is resolved, the simulations run, and the energy is
        estimated. It gets through only when every link is selected, in realtime mode
        only when the window holds no time but 1 (or nothing is selected), and only
        when there is no time to estimate the energy at, or no node to estimate it for. */
    method GenerateData(dyn: Dynamics, init: Initializer, ln: real -> real, fmt: Render) returns (r: Outcome)
      requires Valid() && network.Valid()
      modifies this`cutUp, this`simulationNodes, this`calls, this`updateBuffer, this`stateSpace
      modifies this`previousStates, this`files, this`replicates
      modifies estimator.source, infoVar.source, infoVar, network.NodeObjects(), network.LinkObjects()
      ensures Steady(old(network.Neighborhoods()), old(estimator.source.analysis))
      ensures cutUp == if old(cutUp) == -1 then timeLimit else old(cutUp)
      ensures Simulated(old(estimator.source.analysis), old(calls), calls, selectedLinks,
                        old(NodeTargets(network.nodes, network.Neighborhoods(), selectedNodes)),
                        Window(cutDown, cutUp, timeLimit), simulationNodes, timeLimit, r)
      ensures r == Pass ==> |selectedLinks| == |network.links| && (timeLimit <= 1 || |selectedNodes| == 0)
    {
      ghost var hoods, mode := network.Neighborhoods(), estimator.source.analysis;
      ghost var targets := NodeTargets(network.nodes, hoods, selectedNodes);
      ResolveCut();
      assert Steady(hoods, mode);
      r := SimulateThenEstimate(targets, hoods, mode, dyn, init, ln, fmt);
    }

    /** `Generate_Data()` once the cut is resolved. */
    method SimulateThenEstimate(ghost targets: seq<Target>, ghost hoods: seq<seq<string>>, ghost mode: string,
                                dyn: Dynamics, init: Initializer, ln: real -> real, fmt: Render) returns (r: Outcome)
      requires Steady(hoods, mode) && targets == NodeTargets(network.nodes, hoods, selectedNodes)
      modifies this`simulationNodes, this`calls, this`updateBuffer, this`stateSpace
      modifies this`previousStates, this`files, this`replicates
      modifies estimator.source, infoVar.source, infoVar, network.NodeObjects(), network.LinkObjects()
      ensures Steady(hoods, mode)
      ensures Simulated(mode, old(calls), calls, selectedLinks, targets, Window(cutDown, cutUp, timeLimit),
                        simulationNodes, timeLimit, r)
      ensures r == Pass ==> |selectedLinks| == |network.links| && (timeLimit <= 1 || |selectedNodes| == 0)
    {
      r := Simulations(targets, hoods, mode, dyn, init, ln, fmt);
      if r.Fail? {
        return;
      }
      ghost var made := calls;
      r := PostEstimationForE();
      assert calls == made && Steady(hoods, mode);
      SimulatedThen(mode, old(calls), calls, selectedLinks, targets, Window(cutDown, cutUp, timeLimit),
                    simulationNodes, timeLimit, r);
    }

    /** One time read back by `Post_Analysis()`: the snapshot file of time `T` would
        be loaded, which the binning source's `Init_Source_Post_Analysis`, inherited,
        ignores; then the measures are calculated and their record saved. Since the
        record of any time but 1 indexes a float, only time 1 gets through. */
    method ReplayStep(T: nat, ln: real -> real, fmt: Render) returns (r: Outcome)
      requires network.Valid()
      modifies this`replays, this`files, infoVar, network.NodeObjects(), network.LinkObjects()
      ensures network.Valid() && network.Neighborhoods() == old(network.Neighborhoods())
      ensures replays == old(replays) + [(simulationNodes, T)]
      ensures r == Pass ==> T == 1
    {
      replays := replays + [(simulationNodes, T)];
      r := CalculateInfoVars(ln);
      if r.Fail? {
        return;
      }
      r := SaveInfoVars(T, fmt);
    }

    /** One link of `Post_Analysis()`: it becomes `Simulation_Nodes`, and every replay
        time is read back in order; an interval of zero is the ZeroDivisionError of
        `int(Time_Limit / Save_Interval)`. */
    method ReplayLink(link: (string, string), ln: real -> real, fmt: Render) returns (r: Outcome)
      requires network.Valid()
      modifies this`simulationNodes, this`replays, this`files, infoVar, network.NodeObjects(), network.LinkObjects()
      ensures network.Valid() && network.Neighborhoods() == old(network.Neighborhoods())
      ensures simulationNodes == Pair(link)
      ensures saveInterval == 0 ==> r == Fail(ZeroDivision) && replays == old(replays)
      ensures saveInterval != 0 && r == Pass ==>
        replays == old(replays) + Calls(Pair(link), ReplayTimes(timeLimit, saveInterval))
      ensures saveInterval != 0 && r.Fail? ==>
        old(replays) < replays <= old(replays) + Calls(Pair(link), ReplayTimes(timeLimit, saveInterval))
      ensures r == Pass ==> forall T :: T in ReplayTimes(timeLimit, saveInterval) ==> T == 1
    {
      simulationNodes := Pair(link);
      if saveInterval == 0 {
        return Fail(ZeroDivision);
      }
      if saveInterval < 0 || timeLimit / saveInterval < 1 {
        return Pass;
      }
      var n := timeLimit / saveInterval;
      ghost var times := ReplayTimes(timeLimit, saveInterval);
      var t := 1;
      r := Pass;
      while t < n
        invariant 1 <= t <= n && network.Valid() && r == Pass
        invariant network.Neighborhoods() == old(network.Neighborhoods()) && simulationNodes == Pair(link)
        invariant replays == old(replays) + Calls(Pair(link), times[..t - 1])
        invariant forall j :: 0 <= j < t - 1 ==> times[j] == 1
      {
        assert times[t - 1] == t * saveInterval;
        assert times[..t] == times[..t - 1] + [t * saveInterval];
        r := ReplayStep(t * saveInterval, ln, fmt);
        if r.Fail? {
          assert Calls(Pair(link), times[..t]) == Calls(Pair(link), times[..t - 1]) + [(Pair(link), t * saveInterval)];
          CallsPrefix(Pair(link), times[..t], times);
          AppendPrefix(old(replays), Calls(Pair(link), times[..t]), Calls(Pair(link), times));
          return;
        }
        t := t + 1;
      }
      assert times[..t - 1] == times;
    }

    /** `Post_Analysis()`: every selected link in turn, over the replay times; the
        first exception ends it. */
    method PostAnalysis(ln: real -> real, fmt: Render) returns (r: Outcome)
      requires network.Valid()
      modifies this`simulationNodes, this`replays, this`files, infoVar, network.NodeObjects(), network.LinkObjects()
      ensures network.Valid() && network.Neighborhoods() == old(network.Neighborhoods())
      ensures saveInterval == 0 && |selectedLinks| > 0 ==> r == Fail(ZeroDivision) && replays == old(replays)
      ensures saveInterval != 0 ==>
        var all := Schedule(Pairs(selectedLinks), ReplayTimes(timeLimit, saveInterval));
        && (r == Pass ==> replays == old(replays) + all)
        && (r.Fail? ==> old(replays) < replays <= old(replays) + all)
      ensures r == Pass && |selectedLinks| > 0 ==> forall T :: T in ReplayTimes(timeLimit, saveInterval) ==> T == 1
    {
      ghost var times := ReplayTimes(timeLimit, saveInterval);
      ghost var targets := Pairs(selectedLinks);
      var i := 0;
      r := Pass;
      while i < |selectedLinks|
        invariant i <= |selectedLinks| && network.Valid() && r == Pass
        invariant network.Neighborhoods() == old(network.Neighborhoods())
        invariant saveInterval == 0 ==> i == 0
        invariant replays == old(replays) + Schedule(targets[..i], times)
        invariant i > 0 ==> forall T :: T in times ==> T == 1
      {
        r := ReplayLink(selectedLinks[i], ln, fmt);
        ScheduleStep(old(replays), targets, times, i);
        if r.Fail? {
          if saveInterval != 0 {
            ScheduleFailed(old(replays), replays, targets, times, i);
          }
          return;
        }
        i := i + 1;
      }
      assert targets[..i] == targets;
    }

    /** `Register_Topology()`. */
    method RegisterTopology()
      modifies this`properties
      ensures properties == Put(Put(Put(Put(old(properties), "Nodes", ""), "Links", ""),
                                    "Nodes", NodesText(Keys(network.nodes))), "Links", LinksText(Keys(network.links)))
    {
      properties := RegisterTopologyOf(properties, Keys(network.nodes), Keys(network.links));
    }

    /** `Save_Properties()`: the file `Simulation_Properties.txt` of the save directory
        holds one line per property. */
    method SaveProperties()
      modifies this`files
      ensures files == old(files)[saveDirectory + "Simulation_Properties.txt" := PropertiesText(properties)]
    {
      files := WriteProperties(files, saveDirectory + "Simulation_Properties.txt", properties);
    }

    /** `Create_File_Header()`: the file of every node, then of every link, is opened
        for writing and given the header of its tables. */
    method CreateFileHeader()
      modifies this`files
      ensures files == Overwritten(old(files), old(HeaderWrites(saveDirectory, Keys(network.nodes), network.Tables(),
                                                                Keys(network.links), LinkTables(network))))
    {
      files := Overwrite(files, HeaderWrites(saveDirectory, Keys(network.nodes), network.Tables(),
                                             Keys(network.links), LinkTables(network)));
    }

    /** `Initialize()`: the hooks `Set_Topology`, `Set_Estimator` and
        `Register_Properties` are what the constructor was given; the space is set
        up, the properties saved and the headers written. */
    method Initialize()
      modifies this`stateSpace, this`updateBuffer, this`selectedNodes, this`selectedLinks, this`files
      ensures stateSpace == PutAll(old(stateSpace), Keys(network.nodes), 0)
      ensures updateBuffer == PutAll(old(updateBuffer), Keys(network.nodes), 0)
      ensures selectedNodes == if |old(selectedNodes)| == 0 then Keys(network.nodes) else old(selectedNodes)
      ensures selectedLinks == if |old(selectedLinks)| == 0 then Keys(network.links) else old(selectedLinks)
      ensures files == Overwritten(old(files)[saveDirectory + "Simulation_Properties.txt" := PropertiesText(properties)],
                                   old(HeaderWrites(saveDirectory, Keys(network.nodes), network.Tables(),
                                                    Keys(network.links), LinkTables(network))))
    {
      InitSpace();
      SaveProperties();
      assert unchanged(network) && unchanged(network.NodeObjects()) && unchanged(network.LinkObjects());
      CreateFileHeader();
    }
  }
}
