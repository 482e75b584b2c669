/** The ensemble driver of the gene-regulatory-network model. For every selected
    link and every time `T` in the cut window, a histogram over `(X, Y, X', Y')` is
    reset and then fed one cell per replicate: each replicate starts from random
    states and runs the dynamics `T` steps, and only its last step is counted. The
    measures of the link are then estimated from the histogram and appended to the
    result files.

    The dynamics (`Dynamics_of_States`, a hook of the subclass) and the values the
    random generator yields are parameters; the file system is a map from file name
    to contents. */
module AbnModelBasics {
  import opened Wrappers
  import opened Dicts
  import opened Histogram
  import opened FromSimpleBin
  import opened Text
  import opened Records
  import opened InformationNetwork
  import AbnInformationNetwork
  import opened AbnSeveralVariables
  import opened Driver

  // ---------------------------------------------------------------- the histogram

  /** The cell `Update_Statistics` counts for the link `(a, b)`:
      `(State[a], State[b], Buffer[a], Buffer[b])`. Without a link, indexing the
      empty `Simulation_Link` is the IndexError; a missing node the KeyError. */
  function LinkCell(link: Option<(string, string)>, s: States, b: States): Result<Tuple> {
    if link.None? then Err(IndexOutOfRange)
    else
      var (x, y) := link.value;
      if x in Keys(s) && y in Keys(s) && x in Keys(b) && y in Keys(b) then
        Ok([Get(s, x).value, Get(s, y).value, Get(b, x).value, Get(b, y).value])
      else Err(MissingKey)
  }

  /** One replicate's count: one more in the cell of the link. */
  function Recorded(stats: Table, link: Option<(string, string)>, s: States, b: States): Result<Table> {
    var cell := LinkCell(link, s, b);
    if cell.Err? then Err(cell.error) else Increment(stats, cell.value)
  }

  /** The count fails only for a missing link, node or cell; otherwise it adds one to
      the cell of the current states and buffered values of the two ends, and to
      nothing else. */
  lemma RecordedOneCell(stats: Table, a: string, b: string, s: States, buf: States)
    ensures var r := Recorded(stats, Some((a, b)), s, buf);
      r.Ok? <==> (a in Keys(s) && b in Keys(s) && a in Keys(buf) && b in Keys(buf)
                  && [Get(s, a).value, Get(s, b).value, Get(buf, a).value, Get(buf, b).value] in Keys(stats))
    ensures var r := Recorded(stats, Some((a, b)), s, buf);
      r.Ok? ==>
        var cell := [Get(s, a).value, Get(s, b).value, Get(buf, a).value, Get(buf, b).value];
        && Keys(r.value) == Keys(stats)
        && Get(r.value, cell) == Some(Get(stats, cell).value + 1)
        && (forall other :: other != cell ==> Get(r.value, other) == Get(stats, other))
        && Total(r.value) == Total(stats) + 1
    ensures Recorded(stats, None, s, buf) == Err(IndexOutOfRange)
  {
  }

  /** With both ends in range and every cell of the grid in the table, the count
      succeeds. */
  lemma RecordedInGrid(stats: Table, a: string, b: string, s: States, buf: States, keys: seq<string>, q: int)
    requires a in keys && b in keys && InRange(s, keys, q) && InRange(buf, keys, q)
    requires forall t :: InGrid(t, Repeat(q, 4)) ==> t in Keys(stats)
    ensures Recorded(stats, Some((a, b)), s, buf).Ok?
  {
    var i :| 0 <= i < |keys| && keys[i] == a;
    var j :| 0 <= j < |keys| && keys[j] == b;
    GetIn(s, a);
    GetIn(s, b);
    GetIn(buf, a);
    GetIn(buf, b);
    var cell := [Get(s, a).value, Get(s, b).value, Get(buf, a).value, Get(buf, b).value];
    assert InGrid(cell, Repeat(q, 4));
  }

  // ---------------------------------------------------------------- the simulation

  /** What a replicate acts on: the states, the buffer, the histogram of the link,
      the histogram of the additional variable, and how many values were drawn. */
  datatype Replica = Replica(state: States, buffer: States, stats: Table, extra: Table, drawn: nat)

  /** What every step of a simulation uses: the class of the additional variable,
      `Simulation_Link`, `Dynamics_of_States` and the node names in order. */
  datatype Setup = Setup(kind: Kind, link: Option<(string, string)>, dyn: Dynamics, keys: seq<string>)

  /** `Update_Statistics()` on a replica: the count of the link, then that of the
      additional variable. */
  function Counted(kind: Kind, link: Option<(string, string)>, x: Replica): Result<Replica> {
    var stats := Recorded(x.stats, link, x.state, x.buffer);
    if stats.Err? then Err(stats.error)
    else
      var extra := UpdatedHistogram(kind, x.extra, x.state, x.buffer);
      if extra.Err? then Err(extra.error) else Ok(x.(stats := stats.value, extra := extra.value))
  }

  /** `Update_States()` on a replica. */
  function CommittedReplica(x: Replica, keys: seq<string>): Result<Replica> {
    var s := Committed(x.state, x.buffer, keys);
    if s.Err? then Err(s.error) else Ok(x.(state := s.value))
  }

  /** One step `t` of `Simulate_Model(T)`: the dynamics fill the buffer; on the last
      step the histogram of the link and that of the additional variable count the
      replicate; then the buffer is committed. */
  function StepOf(p: Setup, r: Replica, last: bool): Result<Replica> {
    var b := p.dyn(r.state, r.buffer);
    if b.Err? then Err(b.error)
    else
      var x := r.(buffer := b.value);
      var counted := if last then Counted(p.kind, p.link, x) else Ok(x);
      if counted.Err? then counted else CommittedReplica(counted.value, p.keys)
  }

  /** Steps `t` to `T - 1` of `Simulate_Model(T)`: step `t` is the last when
      `t + 1 == T`, and an exception ends the run. */
  function Run(p: Setup, r: Replica, T: nat, t: nat): Result<Replica>
    decreases T - t
  {
    if t >= T then Ok(r)
    else
      var x := StepOf(p, r, t + 1 == T);
      if x.Err? then x else Run(p, x.value, T, t + 1)
  }

  /** The replica once `Init_State_Space` has drawn the states. */
  function Drawing(x: Replica, keys: seq<string>, random: Draws): (r: Replica)
    ensures r.stats == x.stats && r.drawn == x.drawn + |keys|
  {
    x.(state := Drawn(x.state, keys, random, x.drawn), drawn := x.drawn + |keys|)
  }

  /** One replicate of `Make_Ensemble(T)`: fresh states are drawn, one value per
      node, and the model is simulated `T` steps. */
  function Replicate(p: Setup, random: Draws, T: nat, x: Replica): Result<Replica> {
    Run(p, Drawing(x, p.keys, random), T, 0)
  }

  /** A replicate as a function of the replica it starts from. */
  function Replicator(p: Setup, random: Draws, T: nat): Replica -> Result<Replica> {
    (x: Replica) => Replicate(p, random, T, x)
  }

  /** `c` runs of any replicate function, one after the other; the first exception
      ends them. */
  function EnsembleOf(rep: Replica -> Result<Replica>, r: Replica, c: nat): Result<Replica>
    decreases c
  {
    if c == 0 then Ok(r)
    else
      var x := rep(r);
      if x.Err? then x else EnsembleOf(rep, x.value, c - 1)
  }

  /** The `c` replicates still to run, one after the other; the first exception
      ends them. */
  function Ensemble(p: Setup, random: Draws, T: nat, r: Replica, c: nat): Result<Replica> {
    EnsembleOf(Replicator(p, random, T), r, c)
  }

  /** `rep` runs the replicates of `p`. */
  ghost predicate Replicates(rep: Replica -> Result<Replica>, p: Setup, random: Draws, T: nat) {
    forall x {:trigger Replicate(p, random, T, x)} :: rep(x) == Replicate(p, random, T, x)
  }

  /** `Replicator` runs the replicates of its setup. */
  lemma ReplicatorReplicates(p: Setup, random: Draws, T: nat)
    ensures Replicates(Replicator(p, random, T), p, random, T)
  {
    forall x {:trigger Replicate(p, random, T, x)} ensures Replicator(p, random, T)(x) == Replicate(p, random, T, x) {
    }
  }

  /** One run more after `c` of them. */
  lemma {:induction false} EnsembleSnoc(rep: Replica -> Result<Replica>, r: Replica, c: nat)
    ensures EnsembleOf(rep, r, c + 1) ==
      (var e := EnsembleOf(rep, r, c); if e.Err? then e else rep(e.value))
    decreases c
  {
    if c > 0 {
      var x := rep(r);
      if x.Ok? {
        EnsembleSnoc(rep, x.value, c - 1);
      }
    }
  }

  /** Once a run raises, the runs after it do not happen. */
  lemma {:induction false} EnsembleStops(rep: Replica -> Result<Replica>, r: Replica, c: nat, n: nat)
    requires c <= n && EnsembleOf(rep, r, c).Err?
    ensures EnsembleOf(rep, r, n) == EnsembleOf(rep, r, c)
    decreases n - c
  {
    if c < n {
      EnsembleSnoc(rep, r, c);
      EnsembleStops(rep, r, c + 1, n);
    }
  }

  // ---------------------------------------------------------------- one count per replicate

  /** Only the last step counts: it adds one to the histogram of the link; no step
      draws. */
  lemma StepTotal(p: Setup, r: Replica, last: bool)
    requires StepOf(p, r, last).Ok?
    ensures Total(StepOf(p, r, last).value.stats) == Total(r.stats) + (if last then 1 else 0)
    ensures StepOf(p, r, last).value.drawn == r.drawn
  {
  }

  /** Steps `t` to `T - 1` count once when there is at least one of them, the last;
      they draw nothing. */
  lemma {:induction false} RunCounts(p: Setup, r: Replica, T: nat, t: nat)
    requires Run(p, r, T, t).Ok?
    ensures Total(Run(p, r, T, t).value.stats) == Total(r.stats) + (if t < T then 1 else 0)
    ensures Run(p, r, T, t).value.drawn == r.drawn
    decreases T - t
  {
    if t < T {
      StepTotal(p, r, t + 1 == T);
      RunCounts(p, StepOf(p, r, t + 1 == T).value, T, t + 1);
    }
  }

  /** A replicate of `T >= 1` steps adds one count to the histogram of the link and
      draws one value per node. */
  lemma ReplicateTotal(p: Setup, random: Draws, T: nat, x: Replica)
    requires T >= 1 && Replicate(p, random, T, x).Ok?
    ensures Total(Replicate(p, random, T, x).value.stats) == Total(x.stats) + 1
    ensures Replicate(p, random, T, x).value.drawn == x.drawn + |p.keys|
  {
    RunCounts(p, Drawing(x, p.keys, random), T, 0);
  }

  /** Replicates that each add one count leave `c` more after `c` of them. */
  lemma {:induction false} EnsembleCounts(rep: Replica -> Result<Replica>, r: Replica, c: nat, width: nat)
    requires forall x {:trigger rep(x)} :: rep(x).Ok? ==>
      Total(rep(x).value.stats) == Total(x.stats) + 1 && rep(x).value.drawn == x.drawn + width
    requires EnsembleOf(rep, r, c).Ok?
    ensures Total(EnsembleOf(rep, r, c).value.stats) == Total(r.stats) + c
    ensures EnsembleOf(rep, r, c).value.drawn == r.drawn + c * width
    decreases c
  {
    if c > 0 {
      EnsembleCounts(rep, rep(r).value, c - 1, width);
      assert (c - 1) * width + width == c * width;
    }
  }

  /** `Make_Ensemble(T)`: after `c` replicates of a simulation of `T >= 1` steps the
      histogram of the link holds `c` more counts, one per replicate, and one value
      was drawn per node and replicate. */
  lemma EnsembleTotal(p: Setup, random: Draws, T: nat, r: Replica, c: nat)
    requires T >= 1 && Ensemble(p, random, T, r, c).Ok?
    ensures Total(Ensemble(p, random, T, r, c).value.stats) == Total(r.stats) + c
    ensures Ensemble(p, random, T, r, c).value.drawn == r.drawn + c * |p.keys|
  {
    var rep := Replicator(p, random, T);
    ReplicatorReplicates(p, random, T);
    forall x | rep(x).Ok?
      ensures Total(rep(x).value.stats) == Total(x.stats) + 1 && rep(x).value.drawn == x.drawn + |p.keys|
    {
      ReplicateTotal(p, random, T, x);
      assert rep(x) == Replicate(p, random, T, x);
    }
    EnsembleCounts(rep, r, c, |p.keys|);
  }

  // ---------------------------------------------------------------- replicates that succeed

  /** Dynamics that, from states in range, always succeed and leave every buffered
      value in range, as the Boolean network does. */
  ghost predicate Closed(dyn: Dynamics, keys: seq<string>, q: int) {
    forall s, b :: InRange(s, keys, q) ==> dyn(s, b).Ok? && InRange(dyn(s, b).value, keys, q)
  }

  /** The histogram has every cell of the grid. */
  ghost predicate Complete(stats: Table, q: int) {
    forall t :: InGrid(t, Repeat(q, 4)) ==> t in Keys(stats)
  }

  /** States in range and a complete histogram. */
  ghost predicate Sound(x: Replica, keys: seq<string>, q: int) {
    InRange(x.state, keys, q) && Complete(x.stats, q)
  }

  /** The simulation of the base variable over a link between two of the nodes, with
      closed dynamics. */
  ghost predicate Safe(p: Setup, q: int) {
    p.kind == Base && p.link.Some? && p.link.value.0 in p.keys && p.link.value.1 in p.keys && Closed(p.dyn, p.keys, q)
  }

  /** A step of a safe simulation from a sound replica succeeds and keeps it sound. */
  lemma StepSucceeds(p: Setup, q: int, r: Replica, last: bool)
    requires Safe(p, q) && Sound(r, p.keys, q)
    ensures StepOf(p, r, last).Ok? && Sound(StepOf(p, r, last).value, p.keys, q)
  {
    var (a, c) := p.link.value;
    var b := p.dyn(r.state, r.buffer);
    assert b.Ok? && InRange(b.value, p.keys, q);
    RecordedInGrid(r.stats, a, c, r.state, b.value, p.keys, q);
    CommittedInRange(r.state, b.value, p.keys, q);
    var t := Recorded(r.stats, p.link, r.state, b.value);
    if last {
      assert Keys(t.value) == Keys(r.stats);
    }
  }

  /** A safe simulation from a sound replica succeeds and keeps it sound. */
  lemma {:induction false} RunKeeps(p: Setup, q: int, r: Replica, T: nat, t: nat)
    requires Safe(p, q) && Sound(r, p.keys, q)
    ensures Run(p, r, T, t).Ok? && Sound(Run(p, r, T, t).value, p.keys, q)
    decreases T - t
  {
    if t < T {
      StepSucceeds(p, q, r, t + 1 == T);
      RunKeeps(p, q, StepOf(p, r, t + 1 == T).value, T, t + 1);
    }
  }

  /** With random values in `0 .. q - 1`, a replicate of a safe simulation over a
      complete histogram succeeds and leaves it complete. */
  lemma ReplicateSucceeds(p: Setup, q: int, random: Draws, T: nat, x: Replica)
    requires Safe(p, q) && (forall n :: 0 <= random(n) < q) && Complete(x.stats, q)
    ensures Replicate(p, random, T, x).Ok? && Complete(Replicate(p, random, T, x).value.stats, q)
  {
    DrawnInRange(x.state, p.keys, random, x.drawn, q);
    RunKeeps(p, q, Drawing(x, p.keys, random), T, 0);
  }

  /** Replicates that succeed on a complete histogram and keep it complete make the
      whole ensemble succeed. */
  lemma {:induction false} EnsembleKeeps(rep: Replica -> Result<Replica>, r: Replica, c: nat, q: int)
    requires forall x: Replica {:trigger rep(x)} :: Complete(x.stats, q) ==> rep(x).Ok? && Complete(rep(x).value.stats, q)
    requires Complete(r.stats, q)
    ensures EnsembleOf(rep, r, c).Ok? && Complete(EnsembleOf(rep, r, c).value.stats, q)
    decreases c
  {
    if c > 0 {
      EnsembleKeeps(rep, rep(r).value, c - 1, q);
    }
  }

  /** `Make_Ensemble` of the driver with the base variable: random values in
      `0 .. q - 1`, closed dynamics and a link between two nodes make every
      replicate succeed, over a histogram that stays complete. */
  lemma EnsembleSucceeds(p: Setup, q: int, random: Draws, T: nat, r: Replica, c: nat)
    requires Safe(p, q) && (forall n :: 0 <= random(n) < q) && Complete(r.stats, q)
    ensures Ensemble(p, random, T, r, c).Ok?
    ensures Complete(Ensemble(p, random, T, r, c).value.stats, q)
  {
    ReplicatorReplicates(p, random, T);
    ReplicatesSucceed(Replicator(p, random, T), p, q, random, T);
    EnsembleKeeps(Replicator(p, random, T), r, c, q);
  }

  /** Every replicate of a safe simulation over a complete histogram succeeds and
      leaves it complete. */
  lemma ReplicatesSucceed(rep: Replica -> Result<Replica>, p: Setup, q: int, random: Draws, T: nat)
    requires Replicates(rep, p, random, T)
    requires Safe(p, q) && forall n :: 0 <= random(n) < q
    ensures forall x: Replica {:trigger rep(x)} :: Complete(x.stats, q) ==> rep(x).Ok? && Complete(rep(x).value.stats, q)
  {
    forall x: Replica | Complete(x.stats, q)
      ensures rep(x).Ok? && Complete(rep(x).value.stats, q)
    {
      ReplicateSucceeds(p, q, random, T, x);
      assert rep(x) == Replicate(p, random, T, x);
    }
  }

  /** The line `Save_Info_Vars` appends to the file of a node: `"%03d:%0.3f|%0.3f|\n"`
      of the time, `Var_["H0"]` and `Alpha_["partial1"]`. */
  function NodeLine(t: int, vars: Dict<string, real>, alphas: Dict<string, real>, fmt: Render): string
    requires "H0" in Keys(vars) && "partial1" in Keys(alphas)
  {
    NodeRecord(t, [Get(vars, "H0").value, Get(alphas, "partial1").value], fmt) + "\n"
  }

  /** The line `Save_Info_Vars` appends to the file of the link: `"%03d:"`, each
      value of `Var_` and then of `Alpha_` with `+` before a value that is not
      negative and `|` after every value, and the newline. */
  function LinkLine(t: int, vars: Dict<string, real>, alphas: Dict<string, real>, fmt: Render): string {
    LinkRecord(t, Values(vars) + Values(alphas), fmt) + "\n"
  }

  /** The lines `Save_the_Variable` appends, each to `Save_Directory + Name + ".txt"`. */
  function VariableWrites(dir: string, lines: seq<(string, string)>): (r: seq<(string, string)>)
    ensures |r| == |lines| && forall i :: 0 <= i < |lines| ==> r[i] == (dir + lines[i].0, lines[i].1 + "\n")
  {
    seq(|lines|, i requires 0 <= i < |lines| => (dir + lines[i].0, lines[i].1 + "\n"))
  }


  // ---------------------------------------------------------------- the estimates

  /** How the network part of `Calculate_Info_Vars` ends, from whether the first end
      node, the second and the link are present: the KeyError of a missing end node,
      then the exception of the estimates of that end, for each end in turn, then
      that of a missing link or of its estimates. */
  function EndsCalculation(hasFirst: bool, hasSecond: bool, hasLink: bool, stats: Table, ln: real -> real): Outcome
  {
    if !hasFirst then Fail(MissingKey)
    else if FirstFailure(AbnInformationNetwork.PairNodeResults(stats, 0, ln)).Fail? then
      FirstFailure(AbnInformationNetwork.PairNodeResults(stats, 0, ln))
    else if !hasSecond then Fail(MissingKey)
    else if FirstFailure(AbnInformationNetwork.PairNodeResults(stats, 1, ln)).Fail? then
      FirstFailure(AbnInformationNetwork.PairNodeResults(stats, 1, ln))
    else if !hasLink then Fail(MissingKey)
    else FirstFailure(AbnInformationNetwork.PairLinkResults(stats, ln))
  }

  /** How `Calculate_Info_Vars` ends: without a link, indexing the empty
      `Simulation_Link` is the IndexError; then the network part, then the
      exception of the estimate of the additional variable. */
  function Calculation(link: Option<(string, string)>, nodes: seq<string>, links: seq<(string, string)>,
                       stats: Table, kind: Kind, src: BinSource, ln: real -> real): Outcome
  {
    if link.None? then Fail(IndexOutOfRange)
    else if EndsCalculation(link.value.0 in nodes, link.value.1 in nodes, link.value in links, stats, ln).Fail? then
      EndsCalculation(link.value.0 in nodes, link.value.1 in nodes, link.value in links, stats, ln)
    else FirstFailure(BinnedResults(kind, src, ln))
  }

  /** The tables `Var_` and `Alpha_` of a node or of a link. */
  type Tables = (Dict<string, real>, Dict<string, real>)

  /** The append of `Save_Info_Vars` to the file of an end node with tables `n`: the
      line of its `H0` and `partial1`, or, when one of them is missing, the file
      opened for appending with nothing written before the KeyError. */
  function NodeSave(path: string, t: int, n: Tables, fmt: Render): ((string, string), Outcome) {
    if "H0" in Keys(n.0) && "partial1" in Keys(n.1) then ((path, NodeLine(t, n.0, n.1, fmt)), Pass)
    else ((path, ""), Fail(MissingKey))
  }

  /** `Save_Info_Vars` from the end node with tables `n` (`None` for a KeyError) on:
      its append, then, unless it raised, what `rest` appends and how it ends. */
  function EndSaving(path: string, n: Option<Tables>, t: int, fmt: Render, rest: (seq<(string, string)>, Outcome))
    : (seq<(string, string)>, Outcome)
  {
    if n.None? then ([], Fail(MissingKey))
    else if NodeSave(path, t, n.value, fmt).1.Fail? then ([NodeSave(path, t, n.value, fmt).0], Fail(MissingKey))
    else ([NodeSave(path, t, n.value, fmt).0] + rest.0, rest.1)
  }

  /** `Save_Info_Vars` from the link file on: the time stamp, then the KeyError of a
      missing link (tables `lk`), or the rest of the link line and the lines of the
      additional variable. */
  function LinkSaving(dir: string, link: (string, string), lk: Option<Tables>, t: int, fmt: Render,
                      lines: seq<(string, string)>): (seq<(string, string)>, Outcome)
  {
    var stamp := (LinkFile(dir, link), Stamp(t) + ":");
    if lk.None? then ([stamp], Fail(MissingKey))
    else ([stamp, (LinkFile(dir, link), SignedFields(Values(lk.value.0) + Values(lk.value.1), fmt) + "\n")]
          + VariableWrites(dir, lines), Pass)
  }

  /** `Save_Info_Vars(t)` for the link `(a, b)`, from the tables of `Nodes[a]`,
      `Nodes[b]` and `Links[(a, b)]` (`None` for a KeyError) and the lines of the
      additional variable: the appends to the files, in order, and the exception that
      ends it. */
  function Saving(dir: string, link: (string, string), first: Option<Tables>, second: Option<Tables>,
                  lk: Option<Tables>, t: int, fmt: Render, lines: seq<(string, string)>)
    : (seq<(string, string)>, Outcome)
  {
    EndSaving(NodeFile(dir, link.0), first, t, fmt,
      EndSaving(NodeFile(dir, link.1), second, t, fmt, LinkSaving(dir, link, lk, t, fmt, lines)))
  }

  /** What a list of appends adds to the file `p`: their texts for `p`, in order. */
  function WrittenTo(writes: seq<(string, string)>, p: string): string
    decreases |writes|
  {
    if |writes| == 0 then ""
    else WrittenTo(writes[..|writes| - 1], p) + Piece(writes[|writes| - 1], p)
  }

  /** Appends leave every file holding what it held followed by what was written to
      it. */
  lemma {:induction false} AppendedAllAt(files: Files, writes: seq<(string, string)>, p: string)
    ensures Contents(AppendedAll(files, writes), p) == Contents(files, p) + WrittenTo(writes, p)
    decreases |writes|
  {
    if |writes| > 0 {
      var init := writes[..|writes| - 1];
      AppendedAllAt(files, init, p);
    }
  }

  /** A file no append names is left as it was, absent or not. */
  lemma {:induction false} AppendedAllElsewhere(files: Files, writes: seq<(string, string)>, p: string)
    requires forall i :: 0 <= i < |writes| ==> writes[i].0 != p
    ensures p in AppendedAll(files, writes) <==> p in files
    ensures Contents(AppendedAll(files, writes), p) == Contents(files, p)
    decreases |writes|
  {
    if |writes| > 0 {
      var init := writes[..|writes| - 1];
      assert forall i :: 0 <= i < |init| ==> init[i] == writes[i];
      AppendedAllElsewhere(files, init, p);
    }
  }

  /** Writing two lists of appends in turn writes each file the texts of both. */
  lemma {:induction false} WrittenToConcat(x: seq<(string, string)>, y: seq<(string, string)>, p: string)
    ensures WrittenTo(x + y, p) == WrittenTo(x, p) + WrittenTo(y, p)
    decreases |y|
  {
    if |y| == 0 {
      assert x + y == x;
    } else {
      var y', w := y[..|y| - 1], y[|y| - 1];
      assert x + y == (x + y') + [w];
      assert WrittenTo((x + y') + [w], p) == WrittenTo(x + y', p) + Piece(w, p) by {
        assert ((x + y') + [w])[..|x + y'|] == x + y';
      }
      WrittenToConcat(x, y', p);
      assert (WrittenTo(x, p) + WrittenTo(y', p)) + Piece(w, p) == WrittenTo(x, p) + (WrittenTo(y', p) + Piece(w, p));
    }
  }

  /** What one append writes to `p`. */
  function Piece(w: (string, string), p: string): string {
    if w.0 == p then w.1 else ""
  }

  /** The empty text on either side changes nothing. */
  lemma EmptyJoin(s: string)
    ensures "" + s == s && s + "" == s
  {
  }

  /** Four appends write to `p` what each of them writes to it, in turn. */
  lemma WrittenToFour(a: (string, string), b: (string, string), c: (string, string), d: (string, string), p: string)
    ensures WrittenTo([a, b, c, d], p) == Piece(a, p) + Piece(b, p) + Piece(c, p) + Piece(d, p)
  {
    assert [a][..0] == [];
    assert WrittenTo([a], p) == "" + Piece(a, p) == Piece(a, p);
    assert [a, b][..1] == [a];
    assert WrittenTo([a, b], p) == Piece(a, p) + Piece(b, p);
    assert [a, b, c][..2] == [a, b];
    assert WrittenTo([a, b, c], p) == Piece(a, p) + Piece(b, p) + Piece(c, p);
    assert [a, b, c, d][..3] == [a, b, c];
  }

  /** Appends that all name other files write nothing to `p`. */
  lemma {:induction false} WrittenToNone(w: seq<(string, string)>, p: string)
    requires forall i :: 0 <= i < |w| ==> w[i].0 != p
    ensures WrittenTo(w, p) == ""
    decreases |w|
  {
    if |w| > 0 {
      var init := w[..|w| - 1];
      assert forall i :: 0 <= i < |init| ==> init[i] == w[i];
      WrittenToNone(init, p);
    }
  }

  /** `Save_Info_Vars` gets through exactly when both end nodes and the link are
      there and each end node holds `H0` and `partial1`. */
  lemma SavingPasses(dir: string, link: (string, string), first: Option<Tables>, second: Option<Tables>,
                     lk: Option<Tables>, t: int, fmt: Render, lines: seq<(string, string)>)
    ensures Saving(dir, link, first, second, lk, t, fmt, lines).1 == Pass <==>
      && first.Some? && "H0" in Keys(first.value.0) && "partial1" in Keys(first.value.1)
      && second.Some? && "H0" in Keys(second.value.0) && "partial1" in Keys(second.value.1)
      && lk.Some?
  {
  }

  /** The appends of a `Save_Info_Vars` that gets through: the two node lines, the
      link line in two writes, and the lines of the additional variable. */
  lemma SavingWrites(dir: string, link: (string, string), first: Option<Tables>, second: Option<Tables>,
                     lk: Option<Tables>, t: int, fmt: Render, lines: seq<(string, string)>)
    requires Saving(dir, link, first, second, lk, t, fmt, lines).1 == Pass
    ensures first.Some? && second.Some? && lk.Some?
    ensures Saving(dir, link, first, second, lk, t, fmt, lines).0
      == [(NodeFile(dir, link.0), NodeLine(t, first.value.0, first.value.1, fmt)),
          (NodeFile(dir, link.1), NodeLine(t, second.value.0, second.value.1, fmt)),
          (LinkFile(dir, link), Stamp(t) + ":"),
          (LinkFile(dir, link), SignedFields(Values(lk.value.0) + Values(lk.value.1), fmt) + "\n")]
         + VariableWrites(dir, lines)
  {
    SavingPasses(dir, link, first, second, lk, t, fmt, lines);
    var w0 := (NodeFile(dir, link.0), NodeLine(t, first.value.0, first.value.1, fmt));
    var w1 := (NodeFile(dir, link.1), NodeLine(t, second.value.0, second.value.1, fmt));
    var stamp := (LinkFile(dir, link), Stamp(t) + ":");
    var fields := (LinkFile(dir, link), SignedFields(Values(lk.value.0) + Values(lk.value.1), fmt) + "\n");
    var vw := VariableWrites(dir, lines);
    var tail := LinkSaving(dir, link, lk, t, fmt, lines);
    assert tail.0 == [stamp, fields] + vw;
    var rest := EndSaving(NodeFile(dir, link.1), second, t, fmt, tail);
    assert rest.0 == [w1] + tail.0;
    assert Saving(dir, link, first, second, lk, t, fmt, lines).0 == [w0] + rest.0;
    assert [w0] + ([w1] + ([stamp, fields] + vw)) == [w0, w1, stamp, fields] + vw;
  }

  /** What the first four appends of a `Save_Info_Vars` that gets through leave as
      the whole text for a file the additional variable does not write to. */
  lemma WrittenBeforeVariable(head: seq<(string, string)>, dir: string, lines: seq<(string, string)>, p: string)
    requires forall i :: 0 <= i < |lines| ==> dir + lines[i].0 != p
    ensures WrittenTo(head + VariableWrites(dir, lines), p) == WrittenTo(head, p)
  {
    var vw := VariableWrites(dir, lines);
    WrittenToConcat(head, vw, p);
    WrittenToNone(vw, p);
    EmptyJoin(WrittenTo(head, p));
  }

  /** A `Save_Info_Vars` that gets through appends the whole link line to the link
      file, when the additional variable does not write to it. */
  lemma SavedLink(dir: string, link: (string, string), first: Option<Tables>, second: Option<Tables>,
                  lk: Option<Tables>, t: int, fmt: Render, lines: seq<(string, string)>)
    requires Saving(dir, link, first, second, lk, t, fmt, lines).1 == Pass
    requires forall i :: 0 <= i < |lines| ==> dir + lines[i].0 != LinkFile(dir, link)
    ensures lk.Some?
    ensures WrittenTo(Saving(dir, link, first, second, lk, t, fmt, lines).0, LinkFile(dir, link))
      == LinkLine(t, lk.value.0, lk.value.1, fmt)
  {
    SavingWrites(dir, link, first, second, lk, t, fmt, lines);
    var na, nb, lf := NodeFile(dir, link.0), NodeFile(dir, link.1), LinkFile(dir, link);
    var la := NodeLine(t, first.value.0, first.value.1, fmt);
    var lb := NodeLine(t, second.value.0, second.value.1, fmt);
    var stamp, fields := Stamp(t) + ":", SignedFields(Values(lk.value.0) + Values(lk.value.1), fmt) + "\n";
    var head := [(na, la), (nb, lb), (lf, stamp), (lf, fields)];
    assert WrittenTo(head + VariableWrites(dir, lines), lf) == WrittenTo(head, lf) by {
      WrittenBeforeVariable(head, dir, lines, lf);
    }
    assert WrittenTo(head, lf) == stamp + fields by {
      WrittenToFour((na, la), (nb, lb), (lf, stamp), (lf, fields), lf);
      NodeFileNotLinkFile(dir, link.0, link);
      NodeFileNotLinkFile(dir, link.1, link);
      assert Piece((na, la), lf) == "" && Piece((nb, lb), lf) == "";
      EmptyJoin(stamp);
    }
    assert stamp + fields == LinkLine(t, lk.value.0, lk.value.1, fmt);
  }

  /** A `Save_Info_Vars` that gets through appends to each end node's file its own
      node line, or both lines in order when the two ends are the same name, when
      the additional variable writes to neither file. */
  lemma SavedNodes(dir: string, link: (string, string), first: Option<Tables>, second: Option<Tables>,
                   lk: Option<Tables>, t: int, fmt: Render, lines: seq<(string, string)>)
    requires Saving(dir, link, first, second, lk, t, fmt, lines).1 == Pass
    requires forall i :: 0 <= i < |lines| ==>
      dir + lines[i].0 != NodeFile(dir, link.0) && dir + lines[i].0 != NodeFile(dir, link.1)
    ensures first.Some? && second.Some?
    ensures var w := Saving(dir, link, first, second, lk, t, fmt, lines).0;
      && (link.0 != link.1 ==>
          && WrittenTo(w, NodeFile(dir, link.0)) == NodeLine(t, first.value.0, first.value.1, fmt)
          && WrittenTo(w, NodeFile(dir, link.1)) == NodeLine(t, second.value.0, second.value.1, fmt))
      && (link.0 == link.1 ==>
          WrittenTo(w, NodeFile(dir, link.0))
          == NodeLine(t, first.value.0, first.value.1, fmt) + NodeLine(t, second.value.0, second.value.1, fmt))
  {
    SavingWrites(dir, link, first, second, lk, t, fmt, lines);
    var na, nb, lf := NodeFile(dir, link.0), NodeFile(dir, link.1), LinkFile(dir, link);
    var la := NodeLine(t, first.value.0, first.value.1, fmt);
    var lb := NodeLine(t, second.value.0, second.value.1, fmt);
    var stamp, fields := Stamp(t) + ":", SignedFields(Values(lk.value.0) + Values(lk.value.1), fmt) + "\n";
    var head := [(na, la), (nb, lb), (lf, stamp), (lf, fields)];
    WrittenBeforeVariable(head, dir, lines, na);
    WrittenBeforeVariable(head, dir, lines, nb);
    WrittenToFour((na, la), (nb, lb), (lf, stamp), (lf, fields), na);
    WrittenToFour((na, la), (nb, lb), (lf, stamp), (lf, fields), nb);
    NodeFileNotLinkFile(dir, link.0, link);
    NodeFileNotLinkFile(dir, link.1, link);
    assert Piece((lf, stamp), na) == "" && Piece((lf, fields), na) == "";
    assert Piece((lf, stamp), nb) == "" && Piece((lf, fields), nb) == "";
    if link.0 != link.1 {
      if na == nb {
        NodeFileInjective(dir, link.0, link.1);
      }
      assert Piece((nb, lb), na) == "" && Piece((na, la), nb) == "";
      EmptyJoin(la);
      EmptyJoin(lb);
    } else {
      EmptyJoin(la + lb);
    }
  }

  lemma ZeroedNodes(s: States, keys: seq<string>)
    ensures forall k :: k in keys ==> Get(PutAll(s, keys, 0), k) == Some(0)
  {
    PutAllSpec(s, keys, 0);
  }

  /** A table with the keys of one whose cells all lie in a grid has its cells in
      the grid too. */
  lemma SameKeysInGrid(t: Table, u: Table, sizes: seq<int>)
    requires Keys(u) == Keys(t) && forall i :: 0 <= i < |t| ==> InGrid(t[i].0, sizes)
    ensures forall i :: 0 <= i < |u| ==> InGrid(u[i].0, sizes)
  {
    forall i | 0 <= i < |u| ensures InGrid(u[i].0, sizes) {
      assert Keys(u)[i] == u[i].0 && Keys(t)[i] == t[i].0;
    }
  }

  /** A node the network has is one of its node objects. */
  lemma NodeOf(net: AbnInformationNetwork.Network, k: string)
    requires Get(net.nodes, k).Some?
    ensures Get(net.nodes, k).value in net.NodeObjects()
  {
    var i := Find(net.nodes, k).value;
    assert net.nodes[i].1 == Get(net.nodes, k).value;
  }

  /** A link the network has is one of its link objects. */
  lemma LinkOf(net: AbnInformationNetwork.Network, k: (string, string))
    requires Get(net.links, k).Some?
    ensures Get(net.links, k).value in net.LinkObjects()
  {
    var i := Find(net.links, k).value;
    assert net.links[i].1 == Get(net.links, k).value;
  }

  /** `Var_` and `Alpha_` of a node looked up, if there is one. */
  function NodeTables(n: Option<AbnInformationNetwork.Node>): Option<Tables>
    reads if n.Some? then {n.value} else {}
  {
    if n.None? then None else Some((n.value.var_, n.value.alpha_))
  }

  /** `Var_` and `Alpha_` of a link looked up, if there is one. */
  function LinkTables(l: Option<AbnInformationNetwork.Link>): Option<Tables>
    reads if l.Some? then {l.value} else {}
  {
    if l.None? then None else Some((l.value.var_, l.value.alpha_))
  }

  /** `Calculate_Info_Vars` on the objects `Nodes[a]`, `Nodes[b]` and `Links[(a, b)]`
      looked up (`None` for a KeyError) and the additional variable: `Calculate` of
      the first end node with index 0, of the second with index 1, of the link and
      the estimate of the variable, in that order; the first exception ends it. When
      they succeed, the link, and each end node when the two ends are different
      objects, holds the measures its own estimates assign. */
  method CalculateAll(a: Option<AbnInformationNetwork.Node>, b: Option<AbnInformationNetwork.Node>,
                      l: Option<AbnInformationNetwork.Link>, v: InformationVariable, stats: Table, ln: real -> real)
    returns (r: Outcome)
    requires v.Valid()
    modifies if a.Some? then {a.value} else {}, if b.Some? then {b.value} else {}, if l.Some? then {l.value} else {}, v
    ensures v.Valid() && v.statistics == old(v.statistics)
    ensures r == (if EndsCalculation(a.Some?, b.Some?, l.Some?, stats, ln).Fail?
                  then EndsCalculation(a.Some?, b.Some?, l.Some?, stats, ln)
                  else FirstFailure(BinnedResults(v.kind, old(v.BinStat()), ln)))
    ensures a.Some? && b.Some? && l.Some? && EndsCalculation(true, true, true, stats, ln) == Pass ==>
      (l.value.var_, l.value.alpha_, Pass)
      == LinkAssignment(old(l.value.var_), old(l.value.alpha_), AbnInformationNetwork.PairLinkResults(stats, ln))
    ensures a.Some? && b.Some? && l.Some? && EndsCalculation(true, true, true, stats, ln) == Pass && a.value != b.value ==>
      && (a.value.var_, a.value.alpha_, Pass)
         == NodeAssignment(old(a.value.var_), old(a.value.alpha_), AbnInformationNetwork.PairNodeResults(stats, 0, ln))
      && (b.value.var_, b.value.alpha_, Pass)
         == NodeAssignment(old(b.value.var_), old(b.value.alpha_), AbnInformationNetwork.PairNodeResults(stats, 1, ln))
  {
    if a.None? {
      return Fail(MissingKey);
    }
    r := a.value.Calculate(stats, 0, ln);
    if r.Fail? {
      return;
    }
    if b.None? {
      return Fail(MissingKey);
    }
    r := b.value.Calculate(stats, 1, ln);
    if r.Fail? {
      return;
    }
    if l.None? {
      return Fail(MissingKey);
    }
    r := l.value.Calculate(stats, ln);
    if r.Fail? {
      return;
    }
    r := v.EstimateTheVariable(ln);
  }

  /** The append of `Save_Info_Vars` to the file of an end node with tables `n`
      (`None` for a KeyError): the file is opened for appending before the `H0` and
      `partial1` of the node are read. */
  method SaveNode(files: Files, path: string, n: Option<Tables>, t: int, fmt: Render) returns (r: Outcome, out: Files)
    ensures n.None? ==> r == Fail(MissingKey) && out == files
    ensures n.Some? ==> r == NodeSave(path, t, n.value, fmt).1
    ensures n.Some? ==> out == FileAppended(files, path, NodeSave(path, t, n.value, fmt).0.1)
  {
    if n.None? {
      return Fail(MissingKey), files;
    }
    if "H0" !in Keys(n.value.0) || "partial1" !in Keys(n.value.1) {
      return Fail(MissingKey), FileAppended(files, path, "");
    }
    return Pass, FileAppended(files, path, NodeLine(t, n.value.0, n.value.1, fmt));
  }

  /** The appends of `Save_Info_Vars` from the link file on: the time stamp is
      written before the link (tables `lk`, `None` for a KeyError) is looked up. */
  method SaveLink(files: Files, dir: string, link: (string, string), lk: Option<Tables>, t: int, fmt: Render,
                  lines: seq<(string, string)>) returns (r: Outcome, out: Files)
    ensures r == LinkSaving(dir, link, lk, t, fmt, lines).1
    ensures out == AppendedAll(files, LinkSaving(dir, link, lk, t, fmt, lines).0)
  {
    var stamp := (LinkFile(dir, link), Stamp(t) + ":");
    AppendedAllSnoc(files, [], stamp);
    assert [] + [stamp] == [stamp];
    out := FileAppended(files, stamp.0, stamp.1);
    if lk.None? {
      return Fail(MissingKey), out;
    }
    var fields := (LinkFile(dir, link), SignedFields(Values(lk.value.0) + Values(lk.value.1), fmt) + "\n");
    AppendedAllSnoc(files, [stamp], fields);
    assert [stamp] + [fields] == [stamp, fields];
    out := FileAppended(out, fields.0, fields.1);
    var vw := VariableWrites(dir, lines);
    AppendedAllConcat(files, [stamp, fields], vw);
    out := AppendedAll(out, vw);
    r := Pass;
  }

  /** The appends of `Save_Info_Vars`, one by one, from the tables of `Nodes[a]`,
      `Nodes[b]` and `Links[(a, b)]` looked up (`None` for a KeyError) and the lines
      of the additional variable. */
  method SaveTables(files: Files, dir: string, link: (string, string), first: Option<Tables>,
                    second: Option<Tables>, lk: Option<Tables>, t: int, fmt: Render, lines: seq<(string, string)>)
    returns (r: Outcome, out: Files)
    ensures r == Saving(dir, link, first, second, lk, t, fmt, lines).1
    ensures out == AppendedAll(files, Saving(dir, link, first, second, lk, t, fmt, lines).0)
  {
    var tail := LinkSaving(dir, link, lk, t, fmt, lines);
    var rest := EndSaving(NodeFile(dir, link.1), second, t, fmt, tail);
    r, out := SaveNode(files, NodeFile(dir, link.0), first, t, fmt);
    if first.None? || r.Fail? {
      if first.Some? {
        SingleAppend(files, NodeSave(NodeFile(dir, link.0), t, first.value, fmt).0);
      }
      return;
    }
    ghost var f1 := out;
    ghost var w0 := NodeSave(NodeFile(dir, link.0), t, first.value, fmt).0;
    SingleAppend(files, w0);
    r, out := SaveNode(out, NodeFile(dir, link.1), second, t, fmt);
    if second.None? || r.Fail? {
      if second.Some? {
        SingleAppend(f1, NodeSave(NodeFile(dir, link.1), t, second.value, fmt).0);
        AppendedAllConcat(files, [w0], [NodeSave(NodeFile(dir, link.1), t, second.value, fmt).0]);
      }
      return;
    }
    ghost var f2 := out;
    ghost var w1 := NodeSave(NodeFile(dir, link.1), t, second.value, fmt).0;
    SingleAppend(f1, w1);
    r, out := SaveLink(out, dir, link, lk, t, fmt, lines);
    AppendedAllConcat(f1, [w1], tail.0);
    AppendedAllConcat(files, [w0], [w1] + tail.0);
  }

  /** A list of one append. */
  lemma SingleAppend(files: Files, w: (string, string))
    ensures AppendedAll(files, [w]) == FileAppended(files, w.0, w.1)
  {
    AppendedAllSnoc(files, [], w);
    assert [] + [w] == [w];
  }

  // ---------------------------------------------------------------- the driver

  /** `Model_Basic` of the gene-regulatory-network model, with the settings its
      subclass makes: `Q`, `Simulation_Time_Limit`, `Size_of_Ensemble`,
      `Save_Directory`, the network `Set_Topology` builds and the additional
      information variable. */
  class Model {
    const q: int
    const timeLimit: nat
    const sizeOfEnsemble: nat
    const saveDirectory: string
    const network: AbnInformationNetwork.Network
    const infoVar: InformationVariable
    var cutUp: int
    var cutDown: int
    var properties: Dict<string, string>
    var stateSpace: States
    var updateBuffer: States
    /** `Simulation_Link`; the empty tuple it starts as is `None`. */
    var simulationLink: Option<(string, string)>
    var statistics: Table
    var selected: seq<(string, string)>
    /** The contents of the files written so far. */
    var files: Files
    /** How many random values have been drawn. */
    var drawn: nat
    /** The `Make_Ensemble` calls made so far, with their link and time. */
    ghost var calls: seq<((string, string), nat)>

    /** `Model_Basic()`: no properties, states, buffer, link or statistics, the cut
        from `0` to `-1` (the time limit), nothing selected. */
    constructor(q: int, timeLimit: nat, sizeOfEnsemble: nat, saveDirectory: string,
                network: AbnInformationNetwork.Network, infoVar: InformationVariable, files: Files)
      requires infoVar.Valid()
      ensures Valid()
      ensures this.q == q && this.timeLimit == timeLimit && this.sizeOfEnsemble == sizeOfEnsemble
      ensures this.saveDirectory == saveDirectory && this.network == network && this.infoVar == infoVar
      ensures cutUp == -1 && cutDown == 0 && properties == [] && stateSpace == [] && updateBuffer == []
      ensures simulationLink == None && statistics == [] && selected == [] && this.files == files
      ensures drawn == 0 && calls == []
    {
      this.q := q;
      this.timeLimit := timeLimit;
      this.sizeOfEnsemble := sizeOfEnsemble;
      this.saveDirectory := saveDirectory;
      this.network := network;
      this.infoVar := infoVar;
      cutUp := -1;
      cutDown := 0;
      properties := [];
      stateSpace := [];
      updateBuffer := [];
      simulationLink := None;
      statistics := [];
      selected := [];
      this.files := files;
      drawn := 0;
      calls := [];
    }

    /** The two histograms are dictionaries, that of the link over cells of the grid
        `{0..Q-1}^4`. */
    predicate Valid()
      reads this`statistics, infoVar
    {
      && infoVar.Valid()
      && Distinct(Keys(statistics))
      && (forall i :: 0 <= i < |statistics| ==> InGrid(statistics[i].0, Repeat(q, 4)))
    }

    /** What the simulation leaves alone in the additional variable: its dimension,
        name and value. */
    function Shape(): (nat, string, Value)
      reads infoVar
    {
      (infoVar.dimension, infoVar.name, infoVar.value)
    }

    /** What the simulation acts on. */
    function Current(): Replica
      reads this`stateSpace, this`updateBuffer, this`statistics, this`drawn, infoVar
    {
      Replica(stateSpace, updateBuffer, statistics, infoVar.statistics, drawn)
    }

    /** The same once `Init_Statistics` has zeroed both histograms. */
    function Reset(): Replica
      reads this`stateSpace, this`updateBuffer, this`statistics, this`drawn, infoVar
    {
      Replica(stateSpace, updateBuffer, PutAll(statistics, Grid(Repeat(q, 4)), 0),
              PutAll(infoVar.statistics, Grid(Repeat(q, infoVar.dimension)), 0), drawn)
    }

    /** `Init_Space`: every node starts at 0, in the states and in the buffer. */
    method InitSpace()
      modifies this`stateSpace, this`updateBuffer
      ensures stateSpace == PutAll(old(stateSpace), Keys(network.nodes), 0)
      ensures updateBuffer == PutAll(old(updateBuffer), Keys(network.nodes), 0)
      ensures forall k :: k in Keys(network.nodes) ==> Get(stateSpace, k) == Some(0) && Get(updateBuffer, k) == Some(0)
    {
      var keys := Keys(network.nodes);
      var i := 0;
      while i < |keys|
        invariant i <= |keys|
        invariant stateSpace == PutAll(old(stateSpace), keys[..i], 0)
        invariant updateBuffer == PutAll(old(updateBuffer), keys[..i], 0)
      {
        PutAllStep(old(stateSpace), keys, i, 0);
        PutAllStep(old(updateBuffer), keys, i, 0);
        stateSpace := Put(stateSpace, keys[i], 0);
        updateBuffer := Put(updateBuffer, keys[i], 0);
        i := i + 1;
      }
      assert keys[..i] == keys;
      ZeroedNodes(old(stateSpace), keys);
      ZeroedNodes(old(updateBuffer), keys);
    }

    /** `Init_State_Space`: every node in turn takes the next value drawn. */
    method InitStateSpace(random: Draws)
      modifies this`stateSpace, this`drawn
      ensures stateSpace == Drawn(old(stateSpace), Keys(network.nodes), random, old(drawn))
      ensures drawn == old(drawn) + |network.nodes|
    {
      stateSpace := DrawStates(stateSpace, Keys(network.nodes), random, drawn);
      drawn := drawn + |network.nodes|;
    }

    /** `Init_Statistics`: every cell `(i, j, k, l)` of `{0..Q-1}^4` is set to 0, in
        lexicographic order, and then the histogram of the additional variable. */
    method InitStatistics()
      requires Valid()
      modifies this`statistics, infoVar
      ensures Valid()
      ensures statistics == PutAll(old(statistics), Grid(Repeat(q, 4)), 0)
      ensures infoVar.statistics == PutAll(old(infoVar.statistics), Grid(Repeat(q, infoVar.dimension)), 0)
      ensures Shape() == old(Shape())
    {
      var cells := Grid(Repeat(q, 4));
      var i := 0;
      while i < |cells|
        modifies this`statistics
        invariant i <= |cells|
        invariant statistics == PutAll(old(statistics), cells[..i], 0)
      {
        PutAllStep(old(statistics), cells, i, 0);
        statistics := Put(statistics, cells[i], 0);
        i := i + 1;
      }
      assert cells[..i] == cells;
      StatisticsInGrid(old(statistics));
      infoVar.InitializeStatistics(q);
    }

    /** Zeroing the grid keeps the histogram a dictionary over cells of the grid. */
    lemma StatisticsInGrid(t: Table)
      requires Distinct(Keys(t)) && forall i :: 0 <= i < |t| ==> InGrid(t[i].0, Repeat(q, 4))
      ensures var z := PutAll(t, Grid(Repeat(q, 4)), 0);
        Distinct(Keys(z)) && forall i :: 0 <= i < |z| ==> InGrid(z[i].0, Repeat(q, 4))
    {
      var cells := Grid(Repeat(q, 4));
      var z := PutAll(t, cells, 0);
      PutAllSpec(t, cells, 0);
      forall i | 0 <= i < |z| ensures InGrid(z[i].0, Repeat(q, 4)) {
        assert Keys(z)[i] == z[i].0;
        GridMembers(Repeat(q, 4), z[i].0);
      }
    }

    /** `Update_Statistics`: one more in the cell
        `(State[a], State[b], Buffer[a], Buffer[b])` of the link `(a, b)`, then the
        update of the additional variable. A missing node or cell is the KeyError,
        a missing link the IndexError. */
    method UpdateStatistics() returns (r: Outcome)
      requires Valid()
      modifies this`statistics, infoVar
      ensures Valid()
      ensures Shape() == old(Shape())
      ensures match Recorded(old(statistics), simulationLink, stateSpace, updateBuffer)
        case Err(e) => r == Fail(e)
        case Ok(t) => statistics == t && match UpdatedHistogram(infoVar.kind, old(infoVar.statistics), stateSpace, updateBuffer)
          case Err(e) => r == Fail(e)
          case Ok(u) => r == Pass && infoVar.statistics == u
      ensures match old(Counted(infoVar.kind, simulationLink, Current()))
        case Ok(x) => r == Pass && Current() == x
        case Err(e) => r == Fail(e)
    {
      var cell := LinkCell(simulationLink, stateSpace, updateBuffer);
      if cell.Err? {
        return Fail(cell.error);
      }
      var next := Increment(statistics, cell.value);
      if next.Err? {
        return Fail(next.error);
      }
      SameKeysInGrid(statistics, next.value, Repeat(q, 4));
      statistics := next.value;
      r := infoVar.UpdateStatistics(stateSpace, updateBuffer);
    }

    /** `Update_States`: every node takes its buffered value, in node order; a node
        the buffer lacks is the KeyError, which leaves the nodes before it copied. */
    method UpdateStates() returns (r: Outcome)
      modifies this`stateSpace
      ensures match Committed(old(stateSpace), updateBuffer, Keys(network.nodes))
        case Ok(s) => r == Pass && stateSpace == s
        case Err(e) => r == Fail(e)
    {
      r, stateSpace := CommitStates(stateSpace, updateBuffer, Keys(network.nodes));
    }

    /** Step `t` of `Simulate_Model(T)`: `Dynamics_of_States()` fills the buffer, on
        the last step `Update_Statistics()` counts the replicate, and
        `Update_States()` commits the buffer; the first exception ends the step. */
    method SimulationStep(dyn: Dynamics, last: bool) returns (r: Outcome)
      requires Valid()
      modifies this`updateBuffer, this`statistics, this`stateSpace, infoVar
      ensures Valid()
      ensures Shape() == old(Shape())
      ensures match StepOf(Setup(infoVar.kind, simulationLink, dyn, Keys(network.nodes)), old(Current()), last)
        case Ok(x) => r == Pass && Current() == x
        case Err(e) => r == Fail(e)
    {
      var b := dyn(stateSpace, updateBuffer);
      if b.Err? {
        return Fail(b.error);
      }
      updateBuffer := b.value;
      if last {
        r := UpdateStatistics();
        if r.Fail? {
          return;
        }
      }
      r := UpdateStates();
    }

    /** `Simulate_Model(T)`: `T` steps, the last of which is counted; the first
        exception ends the simulation. */
    method SimulateModel(T: nat, dyn: Dynamics) returns (r: Outcome)
      requires Valid()
      modifies this`updateBuffer, this`statistics, this`stateSpace, infoVar
      ensures Valid()
      ensures Shape() == old(Shape())
      ensures match Run(Setup(infoVar.kind, simulationLink, dyn, Keys(network.nodes)), old(Current()), T, 0)
        case Ok(x) => r == Pass && Current() == x
        case Err(e) => r == Fail(e)
    {
      ghost var p := Setup(infoVar.kind, simulationLink, dyn, Keys(network.nodes));
      ghost var whole := Run(p, Current(), T, 0);
      var t := 0;
      r := Pass;
      while t < T && r == Pass
        invariant t <= T && Valid() && Shape() == old(Shape())
        invariant r == Pass ==> Run(p, Current(), T, t) == whole
        invariant r.Fail? ==> whole == Err(r.error)
      {
        r := SimulationStep(dyn, t + 1 == T);
        t := t + 1;
      }
    }

    /** One replicate of `Make_Ensemble(T)`: `Init_State_Space()`, then
        `Simulate_Model(T)`. */
    method RunReplicate(T: nat, dyn: Dynamics, random: Draws) returns (r: Outcome)
      requires Valid()
      modifies this`updateBuffer, this`statistics, this`stateSpace, this`drawn, infoVar
      ensures Valid()
      ensures Shape() == old(Shape())
      ensures match Replicate(Setup(infoVar.kind, simulationLink, dyn, Keys(network.nodes)), random, T, old(Current()))
        case Ok(x) => r == Pass && Current() == x
        case Err(e) => r == Fail(e)
    {
      InitStateSpace(random);
      assert Current() == Drawing(old(Current()), Keys(network.nodes), random);
      r := SimulateModel(T, dyn);
    }

    /** Replicate `c + 1` of the ensemble that starts at `start`. */
    method NextReplicate(T: nat, dyn: Dynamics, random: Draws, ghost rep: Replica -> Result<Replica>,
                         ghost start: Replica, ghost c: nat) returns (r: Outcome)
      requires Valid() && Replicates(rep, Setup(infoVar.kind, simulationLink, dyn, Keys(network.nodes)), random, T)
      requires EnsembleOf(rep, start, c) == Ok(Current())
      modifies this`updateBuffer, this`statistics, this`stateSpace, this`drawn, infoVar
      ensures Valid()
      ensures Shape() == old(Shape())
      ensures r == Pass ==> EnsembleOf(rep, start, c + 1) == Ok(Current())
      ensures r.Fail? ==> EnsembleOf(rep, start, c + 1) == Err(r.error)
    {
      EnsembleSnoc(rep, start, c);
      r := RunReplicate(T, dyn, random);
    }

    /** The `Size_of_Ensemble` replicates of `Make_Ensemble(T)`, in turn; the first
        exception ends them. */
    method RunReplicates(T: nat, dyn: Dynamics, random: Draws, ghost rep: Replica -> Result<Replica>)
        returns (r: Outcome)
      requires Valid() && Replicates(rep, Setup(infoVar.kind, simulationLink, dyn, Keys(network.nodes)), random, T)
      modifies this`updateBuffer, this`statistics, this`stateSpace, this`drawn, infoVar
      ensures Valid()
      ensures Shape() == old(Shape())
      ensures match EnsembleOf(rep, old(Current()), sizeOfEnsemble)
        case Ok(x) => r == Pass && Current() == x
        case Err(e) => r == Fail(e)
    {
      ghost var start := Current();
      var c := 0;
      r := Pass;
      while c < sizeOfEnsemble && r == Pass
        invariant c <= sizeOfEnsemble && Valid() && Shape() == old(Shape())
        invariant r == Pass ==> EnsembleOf(rep, start, c) == Ok(Current())
        invariant r.Fail? ==> EnsembleOf(rep, start, c) == Err(r.error)
      {
        r := NextReplicate(T, dyn, random, rep, start, c);
        c := c + 1;
      }
      if r.Fail? {
        EnsembleStops(rep, start, c, sizeOfEnsemble);
      }
    }

    /** The replicates of `Make_Ensemble(T)`: `Init_Statistics()`, then the
        replicates. After `T >= 1` steps each, the histogram of the link holds exactly
        one count per replicate. */
    method RunEnsemble(T: nat, dyn: Dynamics, random: Draws) returns (r: Outcome)
      requires Valid()
      modifies this`updateBuffer, this`statistics, this`stateSpace, this`drawn, infoVar
      ensures Valid()
      ensures Shape() == old(Shape())
      ensures match Ensemble(Setup(infoVar.kind, simulationLink, dyn, Keys(network.nodes)), random, T,
                             old(Reset()), sizeOfEnsemble)
        case Ok(x) => r == Pass && Current() == x
        case Err(e) => r == Fail(e)
      ensures T >= 1 && r == Pass ==> Total(statistics) == sizeOfEnsemble
    {
      forall i | 0 <= i < |statistics| ensures statistics[i].0 in Grid(Repeat(q, 4)) {
        GridMembers(Repeat(q, 4), statistics[i].0);
      }
      ZeroedTotal(statistics, Grid(Repeat(q, 4)));
      InitStatistics();
      ghost var start := Current();
      assert start == old(Reset());
      ghost var p := Setup(infoVar.kind, simulationLink, dyn, Keys(network.nodes));
      ReplicatorReplicates(p, random, T);
      r := RunReplicates(T, dyn, random, Replicator(p, random, T));
      if T >= 1 && r == Pass {
        EnsembleTotal(p, random, T, start, sizeOfEnsemble);
      }
    }

    /** `Calculate_Info_Vars`: from the histogram of the link, the estimates of its
        first end node, of its second, of the link and of the additional variable, in
        that order; the first exception ends it. When the estimates succeed, each of
        them holds the measures its own estimate assigns. */
    method CalculateInfoVars(ln: real -> real) returns (r: Outcome)
      requires Valid()
      modifies network.NodeObjects(), network.LinkObjects(), infoVar
      ensures Valid() && infoVar.statistics == old(infoVar.statistics)
      ensures r == old(Calculation(simulationLink, Keys(network.nodes), Keys(network.links), statistics,
                                   infoVar.kind, infoVar.BinStat(), ln))
    {
      if simulationLink.None? {
        return Fail(IndexOutOfRange);
      }
      var link := simulationLink.value;
      var a, b, l := Get(network.nodes, link.0), Get(network.nodes, link.1), Get(network.links, link);
      if a.Some? { NodeOf(network, link.0); }
      if b.Some? { NodeOf(network, link.1); }
      if l.Some? { LinkOf(network, link); }
      r := CalculateAll(a, b, l, infoVar, statistics, ln);
    }

    /** `Save_Info_Vars(Simulation_Time)`: without a link, indexing the empty
        `Simulation_Link` is the IndexError; otherwise the appends `Saving` lists,
        from the tables of the end nodes and of the link. */
    method SaveInfoVars(t: int, fmt: Render) returns (r: Outcome)
      modifies this`files
      ensures simulationLink.None? ==> r == Fail(IndexOutOfRange) && files == old(files)
      ensures simulationLink.Some? ==>
        var link := simulationLink.value;
        var s := Saving(saveDirectory, link, NodeTables(Get(network.nodes, link.0)), NodeTables(Get(network.nodes, link.1)),
                        LinkTables(Get(network.links, link)), t, fmt, infoVar.SavedLines(t, fmt));
        r == s.1 && files == AppendedAll(old(files), s.0)
    {
      if simulationLink.None? {
        return Fail(IndexOutOfRange);
      }
      var link := simulationLink.value;
      var first, second := NodeTables(Get(network.nodes, link.0)), NodeTables(Get(network.nodes, link.1));
      var lk, lines := LinkTables(Get(network.links, link)), infoVar.SavedLines(t, fmt);
      r, files := SaveTables(files, saveDirectory, link, first, second, lk, t, fmt, lines);
      assert first == NodeTables(Get(network.nodes, link.0)) && second == NodeTables(Get(network.nodes, link.1));
      assert lk == LinkTables(Get(network.links, link)) && lines == infoVar.SavedLines(t, fmt);
    }

    /** The end of `Make_Ensemble(T)`: `Calculate_Info_Vars()`, then
        `Save_Info_Vars(T)` unless the estimates raise. */
    method EstimateAndSave(T: nat, ln: real -> real, fmt: Render) returns (r: Outcome)
      requires Valid()
      modifies this`files, infoVar, network.NodeObjects(), network.LinkObjects()
      ensures Valid() && infoVar.statistics == old(infoVar.statistics)
      ensures var c := old(Calculation(simulationLink, Keys(network.nodes), Keys(network.links), statistics,
                                       infoVar.kind, infoVar.BinStat(), ln));
        c.Fail? ==> r == c && files == old(files)
      ensures var c := old(Calculation(simulationLink, Keys(network.nodes), Keys(network.links), statistics,
                                       infoVar.kind, infoVar.BinStat(), ln));
        c == Pass ==> (simulationLink.Some? &&
          var link := simulationLink.value;
          var s := Saving(saveDirectory, link, NodeTables(Get(network.nodes, link.0)), NodeTables(Get(network.nodes, link.1)),
                          LinkTables(Get(network.links, link)), T, fmt, infoVar.SavedLines(T, fmt));
          r == s.1 && files == AppendedAll(old(files), s.0))
    {
      r := CalculateInfoVars(ln);
      if r.Fail? {
        return;
      }
      r := SaveInfoVars(T, fmt);
    }

    /** `Make_Ensemble(T)`: the replicates, then `Calculate_Info_Vars()` on the
        histograms they leave, then `Save_Info_Vars(T)`; the first exception ends
        it. After `T >= 1` steps per replicate the histogram of the link holds
        `Size_of_Ensemble` counts. */
    method MakeEnsemble(T: nat, dyn: Dynamics, random: Draws, ln: real -> real, fmt: Render) returns (r: Outcome)
      requires Valid()
      modifies this`updateBuffer, this`statistics, this`stateSpace, this`drawn, this`files, infoVar
      modifies network.NodeObjects(), network.LinkObjects()
      ensures Valid()
      ensures T >= 1 && r == Pass ==> Total(statistics) == sizeOfEnsemble
      ensures match Ensemble(Setup(infoVar.kind, simulationLink, dyn, Keys(network.nodes)), random, T,
                             old(Reset()), sizeOfEnsemble)
        case Err(e) => r == Fail(e) && files == old(files)
        case Ok(x) =>
          var c := Calculation(simulationLink, Keys(network.nodes), Keys(network.links), x.stats, infoVar.kind,
                               BinSource(x.extra, Some(CoordinateNames(infoVar.kind))), ln);
          && (c.Fail? ==> r == c && files == old(files))
          && (c == Pass ==> (simulationLink.Some? &&
                var link := simulationLink.value;
                var s := Saving(saveDirectory, link, NodeTables(Get(network.nodes, link.0)),
                                NodeTables(Get(network.nodes, link.1)), LinkTables(Get(network.links, link)),
                                T, fmt, infoVar.SavedLines(T, fmt));
                r == s.1 && files == AppendedAll(old(files), s.0)))
    {
      r := RunEnsemble(T, dyn, random);
      if r.Fail? {
        return;
      }
      ghost var x := Current();
      assert infoVar.BinStat() == BinSource(x.extra, Some(CoordinateNames(infoVar.kind)));
      r := EstimateAndSave(T, ln, fmt);
    }

    /** `Register_Topology()`. */
    method RegisterTopology()
      modifies this`properties
      ensures properties == Put(Put(Put(Put(old(properties), "Nodes", ""), "Links", ""),
                                    "Nodes", NodesText(Keys(network.nodes))), "Links", LinksText(Keys(network.links)))
    {
      properties := RegisterTopologyOf(properties, Keys(network.nodes), Keys(network.links));
    }

    /** `Save_Properties()`: the file `Simulation_Properties.txt` of the save directory
        holds one line per property. */
    method SaveProperties()
      modifies this`files
      ensures files == old(files)[saveDirectory + "Simulation_Properties.txt" := PropertiesText(properties)]
    {
      files := WriteProperties(files, saveDirectory + "Simulation_Properties.txt", properties);
    }

    /** `Create_File_Header()`: the file of every node, then that of every link, is
        opened for writing, which leaves it empty. */
    method CreateFileHeader()
      modifies this`files
      ensures files == Truncated(old(files), HeaderPaths(saveDirectory, Keys(network.nodes), Keys(network.links)))
    {
      files := Truncate(files, HeaderPaths(saveDirectory, Keys(network.nodes), Keys(network.links)));
    }

    /** `Initialize()`: the hooks `Set_Topology` and `Register_Properties` of this
        class do nothing; the space is zeroed and the properties saved. */
    method Initialize()
      modifies this`stateSpace, this`updateBuffer, this`files
      ensures stateSpace == PutAll(old(stateSpace), Keys(network.nodes), 0)
      ensures updateBuffer == PutAll(old(updateBuffer), Keys(network.nodes), 0)
      ensures files == old(files)[saveDirectory + "Simulation_Properties.txt" := PropertiesText(properties)]
    {
      InitSpace();
      SaveProperties();
    }

    /** Step `t` of the loop of `Generate_Data()` over the time: `Make_Ensemble(t + 1)`
        when `t` lies in the cut, nothing otherwise. */
    method WindowStep(t: nat, dyn: Dynamics, random: Draws, ln: real -> real, fmt: Render) returns (r: Outcome)
      requires Valid() && simulationLink.Some?
      modifies this`calls, this`updateBuffer, this`statistics, this`stateSpace, this`drawn
      modifies this`files, infoVar, network.NodeObjects(), network.LinkObjects()
      ensures Valid()
      ensures calls == old(calls) + if cutDown <= t < cutUp then [(simulationLink.value, t + 1)] else []
      ensures !(cutDown <= t < cutUp) ==> r == Pass
    {
      if cutDown <= t < cutUp {
        calls := calls + [(simulationLink.value, t + 1)];
        r := MakeEnsemble(t + 1, dyn, random, ln, fmt);
      } else {
        r := Pass;
      }
    }

    /** One link of `Generate_Data()`: it becomes `Simulation_Link`, and
        `Make_Ensemble(t + 1)` runs for every `t` of the window, in order; the first
        exception ends it. */
    method SimulateLink(link: (string, string), dyn: Dynamics, random: Draws, ln: real -> real, fmt: Render)
        returns (r: Outcome)
      requires Valid()
      modifies this`simulationLink, this`calls, this`updateBuffer, this`statistics, this`stateSpace, this`drawn
      modifies this`files, infoVar, network.NodeObjects(), network.LinkObjects()
      ensures Valid() && simulationLink == Some(link)
      ensures r == Pass ==> calls == old(calls) + Calls(link, Window(cutDown, cutUp, timeLimit))
      ensures r.Fail? ==> old(calls) < calls <= old(calls) + Calls(link, Window(cutDown, cutUp, timeLimit))
    {
      simulationLink := Some(link);
      var t := 0;
      r := Pass;
      while t < timeLimit
        invariant t <= timeLimit && Valid() && simulationLink == Some(link) && r == Pass
        invariant calls == old(calls) + Calls(link, Window(cutDown, cutUp, t))
      {
        r := WindowStep(t, dyn, random, ln, fmt);
        CallsStep(old(calls), link, cutDown, cutUp, t);
        if r.Fail? {
          CallsFailed(old(calls), calls, link, cutDown, cutUp, t, timeLimit);
          return;
        }
        t := t + 1;
      }
    }

    /** The start of `Generate_Data()`: `Cut_up = -1` becomes the time limit and an
        empty `Selected` takes every link. */
    method ResolveSelection()
      modifies this`cutUp, this`selected
      ensures cutUp == if old(cutUp) == -1 then timeLimit else old(cutUp)
      ensures selected == if |old(selected)| == 0 then Keys(network.links) else old(selected)
    {
      if cutUp == -1 {
        cutUp := timeLimit;
      }
      if |selected| == 0 {
        selected := SelectAll(selected, Keys(network.links));
      }
    }

    /** The loop of `Generate_Data()`: each selected link is simulated in turn over the
        whole window; the first exception ends it. */
    method SimulateSelected(dyn: Dynamics, random: Draws, ln: real -> real, fmt: Render) returns (r: Outcome)
      requires Valid()
      modifies this`simulationLink, this`calls, this`updateBuffer, this`statistics
      modifies this`stateSpace, this`drawn, this`files, infoVar, network.NodeObjects(), network.LinkObjects()
      ensures Valid()
      ensures r == Pass ==> calls == old(calls) + Schedule(selected, Window(cutDown, cutUp, timeLimit))
      ensures r.Fail? ==> old(calls) < calls <= old(calls) + Schedule(selected, Window(cutDown, cutUp, timeLimit))
    {
      ghost var times := Window(cutDown, cutUp, timeLimit);
      var i := 0;
      r := Pass;
      while i < |selected|
        invariant i <= |selected| && Valid() && r == Pass
        invariant calls == old(calls) + Schedule(selected[..i], times)
      {
        r := SimulateLink(selected[i], dyn, random, ln, fmt);
        ScheduleStep(old(calls), selected, times, i);
        if r.Fail? {
          ScheduleFailed(old(calls), calls, selected, times, i);
          return;
        }
        i := i + 1;
      }
      assert selected[..i] == selected;
    }

    /** `Generate_Data()` in the real-time analysis: the selection is resolved, the file
        headers are written, and the selected links are simulated. */
    method GenerateData(dyn: Dynamics, random: Draws, ln: real -> real, fmt: Render) returns (r: Outcome)
      requires Valid()
      modifies this`cutUp, this`selected, this`simulationLink, this`calls, this`updateBuffer, this`statistics
      modifies this`stateSpace, this`drawn, this`files, infoVar, network.NodeObjects(), network.LinkObjects()
      ensures Valid()
      ensures cutUp == if old(cutUp) == -1 then timeLimit else old(cutUp)
      ensures selected == if |old(selected)| == 0 then Keys(network.links) else old(selected)
      ensures r == Pass ==> calls == old(calls) + Schedule(selected, Window(cutDown, cutUp, timeLimit))
      ensures r.Fail? ==> old(calls) < calls <= old(calls) + Schedule(selected, Window(cutDown, cutUp, timeLimit))
    {
      ResolveSelection();
      ghost var links := selected;
      CreateFileHeader();
      r := SimulateSelected(dyn, random, ln, fmt);
      assert selected == links;
    }
  }
}
