/** The reader of the result files used for plotting: time-stamped, `|`-separated
    records (`TTT:+v|-v|...`), the `key : value` properties file, and the series of
    a link or a node, one column per measure. `float()` is a parameter `toFloat`;
    the round-trip lemmas assume only that it reads the fixed-point texts the
    writers print as the values they denote. */
module PlotResults {
  import opened Wrappers
  import opened Dicts
  import opened Text
  import opened Records
  import opened InformationNetwork

  /** `float(s)`. */
  type Reader = string -> Result<real>

  /** `float()` on a fixed-point text with three decimals gives the number it denotes. */
  ghost predicate ReadsFixed(toFloat: Reader) {
    forall s :: ParseFixed(s, 3).Ok? ==> toFloat(s) == Ok(ParseFixed(s, 3).value as real / 1000.0)
  }

  /** The length of the run of digits that starts `s`. */
  function DigitRun(s: string): (n: nat)
    ensures n <= |s| && AllDigits(s[..n]) && (n < |s| ==> !IsDigit(s[n]))
  {
    if |s| == 0 || !IsDigit(s[0]) then 0
    else
      var m := DigitRun(s[1..]);
      assert forall i :: 1 <= i < 1 + m ==> s[i] == s[1..][i - 1];
      1 + m
  }

  /** `_TIME_RE.match(line)` for `^\s*(\d+)\s*:\s*(.*)\s*$` on a line without line
      breaks: the time `int(group(1))` and the payload `group(2)`, or no match. The
      digit run cannot give back a digit, because white space or `:` must follow it. */
  function MatchTime(line: string): Option<(nat, string)> {
    MatchDigitsAt(LStrip(line))
  }

  /** The match once the leading white space is gone: a non-empty digit run. */
  function MatchDigitsAt(s: string): Option<(nat, string)> {
    var n := DigitRun(s);
    if n == 0 then None else MatchColon(s[..n], LStrip(s[n..]))
  }

  /** The match once the digits are known: a `:` must follow them. */
  function MatchColon(digits: string, after: string): Option<(nat, string)>
    requires AllDigits(digits)
  {
    if |after| == 0 || after[0] != ':' then None else Some((DigitsValue(digits), LStrip(after[1..])))
  }

  /** `_parse_pipe_values` on the pieces of a payload: every piece is stripped, empty
      ones are skipped and the others are read with `float()`, in order; the first
      piece `float()` refuses is the ValueError. */
  function PipeValues(parts: seq<string>, toFloat: Reader): Result<seq<real>> {
    if |parts| == 0 then Ok([])
    else PieceRead(PipeValues(parts[..|parts| - 1], toFloat), parts[|parts| - 1], toFloat)
  }

  /** One piece of `_parse_pipe_values` after the values so far. */
  function PieceRead(front: Result<seq<real>>, piece: string, toFloat: Reader): Result<seq<real>> {
    if front.Err? then front
    else
      var p := Strip(piece);
      if p == "" then front
      else
        var v :- toFloat(p);
        Ok(front.value + [v])
  }

  /** One more piece of the payload is one more step of the reading. */
  lemma PipeValuesNext(parts: seq<string>, k: nat, toFloat: Reader)
    requires k < |parts|
    ensures PipeValues(parts[..k + 1], toFloat) == PieceRead(PipeValues(parts[..k], toFloat), parts[k], toFloat)
  {
    assert parts[..k + 1][..k] == parts[..k];
  }

  lemma {:induction false} PipeValuesPrefixError(parts: seq<string>, k: nat, toFloat: Reader)
    requires k <= |parts| && PipeValues(parts[..k], toFloat).Err?
    ensures PipeValues(parts, toFloat) == PipeValues(parts[..k], toFloat)
    decreases |parts| - k
  {
    if k < |parts| {
      assert parts[..k + 1][..k] == parts[..k];
      PipeValuesPrefixError(parts, k + 1, toFloat);
    } else {
      assert parts[..k] == parts;
    }
  }

  /** `_parse_pipe_values(payload)`. */
  method ParsePipeValues(payload: string, toFloat: Reader) returns (r: Result<seq<real>>)
    ensures r == PipeValues(Split(payload, '|'), toFloat)
  {
    var parts := Split(payload, '|');
    var vals: seq<real> := [];
    var k := 0;
    while k < |parts|
      invariant 0 <= k <= |parts|
      invariant PipeValues(parts[..k], toFloat) == Ok(vals)
    {
      PipeValuesNext(parts, k, toFloat);
      var p := Strip(parts[k]);
      if p != "" {
        var v := toFloat(p);
        if v.Err? {
          PipeValuesPrefixError(parts, k + 1, toFloat);
          return Err(v.error);
        }
        vals := vals + [v.value];
      }
      k := k + 1;
    }
    assert parts[..k] == parts;
    return Ok(vals);
  }

  /** `read_timeseries_generic` on the lines of a file: blank lines and lines that do
      not match are skipped; every other line gives one time and one row. */
  function TimeSeries(lines: seq<string>, toFloat: Reader): Result<(seq<nat>, seq<seq<real>>)> {
    Gather(LineRecords(lines, toFloat))
  }

  /** What each line of the file holds. */
  function LineRecords(lines: seq<string>, toFloat: Reader): seq<Option<(nat, Result<seq<real>>)>> {
    seq(|lines|, i requires 0 <= i < |lines| => LineRecord(lines[i], toFloat))
  }

  /** The times and rows of the records in order, or the first row that cannot be read. */
  function Gather(recs: seq<Option<(nat, Result<seq<real>>)>>): (r: Result<(seq<nat>, seq<seq<real>>)>)
    ensures r.Ok? ==> |r.value.0| == |r.value.1|
  {
    if |recs| == 0 then Ok(([], []))
    else
      var front := Gather(recs[..|recs| - 1]);
      if front.Err? then front else LineRead(front.value, recs[|recs| - 1])
  }

  /** One line of `read_timeseries_generic`, given what it holds: a record appends
      its time and its row, a row that cannot be read is the ValueError. */
  function LineRead(front: (seq<nat>, seq<seq<real>>), rec: Option<(nat, Result<seq<real>>)>)
    : (r: Result<(seq<nat>, seq<seq<real>>)>)
    ensures |front.0| == |front.1| && r.Ok? ==> |r.value.0| == |r.value.1|
  {
    match rec
    case None => Ok(front)
    case Some((t, vals)) => if vals.Err? then Err(vals.error) else Ok((front.0 + [t], front.1 + [vals.value]))
  }

  /** What one line holds: nothing when the stripped line is blank or does not match,
      otherwise its time and what `_parse_pipe_values` makes of its payload. */
  function LineRecord(raw: string, toFloat: Reader): Option<(nat, Result<seq<real>>)> {
    var line := Strip(raw);
    if line == "" then None
    else
      match MatchTime(line)
      case None => None
      case Some((t, payload)) => Some((t, PipeValues(Split(payload, '|'), toFloat)))
  }

  lemma {:induction false} GatherPrefixError(recs: seq<Option<(nat, Result<seq<real>>)>>, k: nat)
    requires k <= |recs| && Gather(recs[..k]).Err?
    ensures Gather(recs) == Gather(recs[..k])
    decreases |recs| - k
  {
    if k < |recs| {
      assert recs[..k + 1][..k] == recs[..k];
      GatherPrefixError(recs, k + 1);
    } else {
      assert recs[..k] == recs;
    }
  }

  /** The lines `for line in f` yields, each without its line break. */
  function FileLines(content: string): seq<string> {
    Split(content, '\n')
  }

  /** `read_timeseries_generic(path)`: a missing file is the FileNotFoundError of `open`. */
  method ReadTimeseriesGeneric(files: Dict<string, string>, path: string, toFloat: Reader)
      returns (r: Result<(seq<nat>, seq<seq<real>>)>)
    ensures Get(files, path).None? ==> r == Err(FileNotFound)
    ensures Get(files, path).Some? ==> r == TimeSeries(FileLines(Get(files, path).value), toFloat)
    ensures r.Ok? ==> |r.value.0| == |r.value.1|
  {
    var content := Get(files, path);
    if content.None? {
      return Err(FileNotFound);
    }
    r := ReadLines(FileLines(content.value), toFloat);
  }

  /** The loop of `read_timeseries_generic` over the lines of the file. */
  method ReadLines(lines: seq<string>, toFloat: Reader) returns (r: Result<(seq<nat>, seq<seq<real>>)>)
    ensures r == TimeSeries(lines, toFloat)
  {
    ghost var recs := LineRecords(lines, toFloat);
    var times: seq<nat> := [];
    var rows: seq<seq<real>> := [];
    var k := 0;
    while k < |lines|
      invariant 0 <= k <= |lines|
      invariant Gather(recs[..k]) == Ok((times, rows))
    {
      var next := AddLine(times, rows, lines[k], toFloat, recs, k);
      if next.Err? {
        GatherPrefixError(recs, k + 1);
        return next;
      }
      times, rows := next.value.0, next.value.1;
      k := k + 1;
    }
    assert recs[..k] == recs;
    return Ok((times, rows));
  }

  /** The body of the loop of `read_timeseries_generic`: the line's time and row are
      appended, or its row is the ValueError. */
  method AddLine(times: seq<nat>, rows: seq<seq<real>>, line: string, toFloat: Reader,
                 ghost recs: seq<Option<(nat, Result<seq<real>>)>>, ghost k: nat)
      returns (r: Result<(seq<nat>, seq<seq<real>>)>)
    requires k < |recs| && recs[k] == LineRecord(line, toFloat) && Gather(recs[..k]) == Ok((times, rows))
    ensures r == Gather(recs[..k + 1])
  {
    assert recs[..k + 1][..k] == recs[..k];
    var rec := ReadLine(line, toFloat);
    if rec.None? {
      return Ok((times, rows));
    }
    if rec.value.1.Err? {
      return Err(rec.value.1.error);
    }
    return Ok((times + [rec.value.0], rows + [rec.value.1.value]));
  }

  /** The body of the loop of `read_timeseries_generic` up to the appends: the
      stripped line, skipped when blank or unmatched, else its time and its values. */
  method ReadLine(raw: string, toFloat: Reader) returns (rec: Option<(nat, Result<seq<real>>)>)
    ensures rec == LineRecord(raw, toFloat)
  {
    var line := Strip(raw);
    if line == "" {
      return None;
    }
    var m := MatchTime(line);
    if m.None? {
      return None;
    }
    var vals := ParsePipeValues(m.value.1, toFloat);
    return Some((m.value.0, vals));
  }

  /** The position of the first `c` in `s`. */
  function FirstIndex(s: string, c: char): (i: nat)
    requires c in s
    ensures i < |s| && s[i] == c && c !in s[..i]
  {
    if s[0] == c then 0
    else
      var j := FirstIndex(s[1..], c);
      assert s[1..][..j] == s[1..j + 1];
      1 + j
  }

  /** `read_properties` on the lines of a file: lines without `:` are skipped; the
      others are split at their first `:` and both sides stripped. */
  function Properties(lines: seq<string>): Dict<string, string> {
    if |lines| == 0 then [] else PropertyRead(Properties(lines[..|lines| - 1]), lines[|lines| - 1])
  }

  /** One line of `read_properties`. */
  function PropertyRead(props: Dict<string, string>, line: string): Dict<string, string> {
    if ':' !in line then props
    else
      var i := FirstIndex(line, ':');
      Put(props, Strip(line[..i]), Strip(line[i + 1..]))
  }

  /** `read_properties(path)`: a file that does not exist gives the empty map. */
  method ReadProperties(files: Dict<string, string>, path: string) returns (props: Dict<string, string>)
    ensures Get(files, path).None? ==> props == []
    ensures Get(files, path).Some? ==> props == Properties(FileLines(Get(files, path).value))
  {
    props := [];
    var content := Get(files, path);
    if content.None? {
      return;
    }
    var lines := FileLines(content.value);
    var k := 0;
    while k < |lines|
      invariant 0 <= k <= |lines|
      invariant props == Properties(lines[..k])
    {
      assert lines[..k + 1][..k] == lines[..k];
      props := ReadPropertyLine(props, lines[k]);
      k := k + 1;
    }
    assert lines[..k] == lines;
  }

  /** The body of the loop of `read_properties`. */
  method ReadPropertyLine(props: Dict<string, string>, line: string) returns (r: Dict<string, string>)
    ensures r == PropertyRead(props, line)
  {
    r := props;
    if ':' in line {
      var i := FirstIndex(line, ':');
      r := Put(props, Strip(line[..i]), Strip(line[i + 1..]));
    }
  }

  /** `default_link_keys()`: the `Var_` keys of a link, then its `Alpha_` keys, in the
      order the link tables are written. */
  function DefaultLinkKeys(): (r: seq<string>)
    ensures r == LinkVarKeys() + LinkAlphaKeys()
    ensures Distinct(r)
  {
    ["MI", "TE1", "rTE1", "TE2", "rTE2", "2", "3_1_I", "3_2_I", "4_1_I", "4_2_I", "5_I", "6_1_I", "6_2_I"]
  }

  /** `vals[i] if i < len(vals) else float("nan")`, with `None` for NaN. */
  function Entry(vals: seq<real>, i: nat): Option<real> {
    if i < |vals| then Some(vals[i]) else None
  }

  /** `for i, k in enumerate(keys): series[k].append(...)` for one row. */
  function RowAppended(series: Dict<string, seq<Option<real>>>, vals: seq<real>, keys: seq<string>): Result<Dict<string, seq<Option<real>>>> {
    if |keys| == 0 then Ok(series)
    else
      var front :- RowAppended(series, vals, keys[..|keys| - 1]);
      var k := keys[|keys| - 1];
      var column := Get(front, k);
      if column.None? then Err(MissingKey)
      else Ok(Put(front, k, column.value + [Entry(vals, |keys| - 1)]))
  }

  /** `{k: [] for k in keys}`. */
  function EmptySeries(keys: seq<string>): Dict<string, seq<Option<real>>> {
    PutAll([], keys, [])
  }

  /** The series after all the rows, starting from `{k: [] for k in keys}`. */
  function Loaded(rows: seq<seq<real>>, keys: seq<string>): Result<Dict<string, seq<Option<real>>>> {
    if |rows| == 0 then Ok(EmptySeries(keys))
    else
      var front :- Loaded(rows[..|rows| - 1], keys);
      RowAppended(front, rows[|rows| - 1], keys)
  }

  /** Column `i` of the rows: one entry per row, NaN where the row is too short. */
  function Column(rows: seq<seq<real>>, i: nat): (r: seq<Option<real>>)
    ensures |r| == |rows| && forall j :: 0 <= j < |rows| ==> r[j] == Entry(rows[j], i)
  {
    seq(|rows|, j requires 0 <= j < |rows| => Entry(rows[j], i))
  }

  /** One row appended to distinct keys that are all present: each key's column
      grows by its entry and nothing else changes. */
  lemma {:induction false} RowAppendedColumns(series: Dict<string, seq<Option<real>>>, vals: seq<real>, keys: seq<string>)
    requires Distinct(keys) && forall i :: 0 <= i < |keys| ==> keys[i] in Keys(series)
    ensures RowAppended(series, vals, keys).Ok?
    ensures Keys(RowAppended(series, vals, keys).value) == Keys(series)
    ensures forall i :: 0 <= i < |keys| ==>
      Get(RowAppended(series, vals, keys).value, keys[i]) == Some(Get(series, keys[i]).value + [Entry(vals, i)])
    decreases |keys|
  {
    if |keys| > 0 {
      var n := |keys| - 1;
      var ks := keys[..n];
      assert forall i :: 0 <= i < n ==> ks[i] == keys[i];
      RowAppendedColumns(series, vals, ks);
      var front := RowAppended(series, vals, ks).value;
      var k := keys[n];
      assert Get(front, k) == Get(series, k) by {
        assert k !in ks;
        RowAppendedOther(series, vals, ks, k);
      }
      assert k in Keys(front);
      var extended := Get(front, k).value + [Entry(vals, n)];
      var next := Put(front, k, extended);
      assert RowAppended(series, vals, keys) == Ok(next);
      assert Keys(next) == Keys(front);
      forall i | 0 <= i < |keys|
        ensures Get(next, keys[i]) == Some(Get(series, keys[i]).value + [Entry(vals, i)])
      {
        if i < n {
          assert keys[i] != k;
          PutGetOther(front, k, extended, keys[i]);
        }
      }
    }
  }

  /** A key that is not among those appended to keeps its column. */
  lemma {:induction false} RowAppendedOther(series: Dict<string, seq<Option<real>>>, vals: seq<real>, keys: seq<string>, k: string)
    requires k !in keys && RowAppended(series, vals, keys).Ok?
    ensures Get(RowAppended(series, vals, keys).value, k) == Get(series, k)
    decreases |keys|
  {
    if |keys| > 0 {
      var n := |keys| - 1;
      assert k !in keys[..n] && k != keys[n];
      RowAppendedOther(series, vals, keys[..n], k);
      var front := RowAppended(series, vals, keys[..n]).value;
      PutGetOther(front, keys[n], Get(front, keys[n]).value + [Entry(vals, n)], k);
    }
  }

  /** With distinct keys, every key's series is its column of the rows: one entry
      per row, NaN past the row's length. */
  lemma {:induction false} LoadedColumns(rows: seq<seq<real>>, keys: seq<string>)
    requires Distinct(keys)
    ensures Loaded(rows, keys).Ok?
    ensures Keys(Loaded(rows, keys).value) == keys
    ensures forall i :: 0 <= i < |keys| ==> Get(Loaded(rows, keys).value, keys[i]) == Some(Column(rows, i))
    decreases |rows|
  {
    if |rows| == 0 {
      var e: Dict<string, seq<Option<real>>> := [];
      PutAllSpec(e, keys, []);
      PutAllKeys(keys);
    } else {
      var n := |rows| - 1;
      LoadedColumns(rows[..n], keys);
      var front := Loaded(rows[..n], keys).value;
      RowAppendedColumns(front, rows[n], keys);
      forall i | 0 <= i < |keys| ensures Column(rows[..n], i) + [Entry(rows[n], i)] == Column(rows, i) {
        ColumnAppend(rows, n, i);
      }
    }
  }

  lemma ColumnAppend(rows: seq<seq<real>>, n: nat, i: nat)
    requires n == |rows| - 1
    ensures Column(rows[..n], i) + [Entry(rows[n], i)] == Column(rows, i)
  {
    var a := Column(rows[..n], i) + [Entry(rows[n], i)];
    var b := Column(rows, i);
    assert |a| == |b|;
    forall j | 0 <= j < |a| ensures a[j] == b[j] {
      if j < n {
        assert rows[..n][j] == rows[j];
      }
    }
  }

  /** `{k: [] for k in keys}` over distinct keys has exactly those keys, in order. */
  lemma {:induction false} PutAllKeys(keys: seq<string>)
    requires Distinct(keys)
    ensures Keys(EmptySeries(keys)) == keys
  {
    var e: Dict<string, seq<Option<real>>> := [];
    var none: seq<Option<real>> := [];
    PutAllFresh(e, keys, none);
  }

  /** One row: `for i, k in enumerate(keys)`. */
  method AppendRow(series: Dict<string, seq<Option<real>>>, vals: seq<real>, keys: seq<string>)
      returns (r: Result<Dict<string, seq<Option<real>>>>)
    ensures r == RowAppended(series, vals, keys)
  {
    var s := series;
    var i := 0;
    while i < |keys|
      invariant 0 <= i <= |keys|
      invariant RowAppended(series, vals, keys[..i]) == Ok(s)
    {
      assert keys[..i + 1][..i] == keys[..i];
      var column := Get(s, keys[i]);
      if column.None? {
        RowAppendedPrefixError(series, vals, keys, i + 1);
        return Err(MissingKey);
      }
      s := Put(s, keys[i], column.value + [Entry(vals, i)]);
      i := i + 1;
    }
    assert keys[..i] == keys;
    return Ok(s);
  }

  lemma {:induction false} RowAppendedPrefixError(series: Dict<string, seq<Option<real>>>, vals: seq<real>, keys: seq<string>, k: nat)
    requires k <= |keys| && RowAppended(series, vals, keys[..k]).Err?
    ensures RowAppended(series, vals, keys) == RowAppended(series, vals, keys[..k])
    decreases |keys| - k
  {
    if k < |keys| {
      assert keys[..k + 1][..k] == keys[..k];
      RowAppendedPrefixError(series, vals, keys, k + 1);
    } else {
      assert keys[..k] == keys;
    }
  }

  /** The series of `keys` over the rows: `series = {k: [] for k in keys}`, then one
      entry per key for every row. */
  method LoadSeries(rows: seq<seq<real>>, keys: seq<string>) returns (r: Result<Dict<string, seq<Option<real>>>>)
    ensures r == Loaded(rows, keys)
  {
    var series := EmptySeries(keys);
    var j := 0;
    while j < |rows|
      invariant 0 <= j <= |rows|
      invariant Loaded(rows[..j], keys) == Ok(series)
    {
      assert rows[..j + 1][..j] == rows[..j];
      var next := AppendRow(series, rows[j], keys);
      if next.Err? {
        LoadedPrefixError(rows, keys, j + 1);
        return next;
      }
      series := next.value;
      j := j + 1;
    }
    assert rows[..j] == rows;
    return Ok(series);
  }

  lemma {:induction false} LoadedPrefixError(rows: seq<seq<real>>, keys: seq<string>, k: nat)
    requires k <= |rows| && Loaded(rows[..k], keys).Err?
    ensures Loaded(rows, keys) == Loaded(rows[..k], keys)
    decreases |rows| - k
  {
    if k < |rows| {
      assert rows[..k + 1][..k] == rows[..k];
      LoadedPrefixError(rows, keys, k + 1);
    } else {
      assert rows[..k] == rows;
    }
  }

  /** `load_link_series(directory, u, v, keys)`: the file `Link_<u>_<v>.txt`, with the
      default link keys when none are given. */
  method LoadLinkSeries(files: Dict<string, string>, u: string, v: string, keys: Option<seq<string>>, toFloat: Reader)
      returns (r: Result<(seq<nat>, Dict<string, seq<Option<real>>>)>)
    ensures var ts := TimeSeriesOf(files, "Link_" + u + "_" + v + ".txt", toFloat);
      var ks := if keys.None? then DefaultLinkKeys() else keys.value;
      r == (if ts.Err? then Err(ts.error)
            else if Loaded(ts.value.1, ks).Err? then Err(Loaded(ts.value.1, ks).error)
            else Ok((ts.value.0, Loaded(ts.value.1, ks).value)))
  {
    var ts := ReadTimeseriesGeneric(files, "Link_" + u + "_" + v + ".txt", toFloat);
    if ts.Err? {
      return Err(ts.error);
    }
    var ks := if keys.None? then DefaultLinkKeys() else keys.value;
    var series := LoadSeries(ts.value.1, ks);
    if series.Err? {
      return Err(series.error);
    }
    return Ok((ts.value.0, series.value));
  }

  /** `load_node_series(directory, node)`: the file `Node_<node>.txt`, keys `H0` and `partial1`. */
  method LoadNodeSeries(files: Dict<string, string>, node: string, toFloat: Reader)
      returns (r: Result<(seq<nat>, Dict<string, seq<Option<real>>>)>)
    ensures var ts := TimeSeriesOf(files, "Node_" + node + ".txt", toFloat);
      r == (if ts.Err? then Err(ts.error)
            else if Loaded(ts.value.1, ["H0", "partial1"]).Err? then Err(Loaded(ts.value.1, ["H0", "partial1"]).error)
            else Ok((ts.value.0, Loaded(ts.value.1, ["H0", "partial1"]).value)))
  {
    var ts := ReadTimeseriesGeneric(files, "Node_" + node + ".txt", toFloat);
    if ts.Err? {
      return Err(ts.error);
    }
    var series := LoadSeries(ts.value.1, ["H0", "partial1"]);
    if series.Err? {
      return Err(series.error);
    }
    return Ok((ts.value.0, series.value));
  }

  /** What `read_timeseries_generic(path)` returns. */
  function TimeSeriesOf(files: Dict<string, string>, path: string, toFloat: Reader): Result<(seq<nat>, seq<seq<real>>)> {
    if Get(files, path).None? then Err(FileNotFound) else TimeSeries(FileLines(Get(files, path).value), toFloat)
  }

  /** Values in thousandths as the reals they denote. */
  function Thousandths(ns: seq<int>): (r: seq<real>)
    ensures |r| == |ns| && forall i :: 0 <= i < |ns| ==> r[i] == ns[i] as real / 1000.0
  {
    seq(|ns|, i requires 0 <= i < |ns| => ns[i] as real / 1000.0)
  }

  /** A digit run followed by something that is not a digit is exactly that long. */
  lemma {:induction false} DigitRunPrefix(a: string, b: string)
    requires AllDigits(a) && (|b| > 0 ==> !IsDigit(b[0]))
    ensures DigitRun(a + b) == |a|
    decreases |a|
  {
    if |a| == 0 {
      assert a + b == b;
    } else {
      assert (a + b)[1..] == a[1..] + b;
      DigitRunPrefix(a[1..], b);
    }
  }

  /** A stamp, a colon and an unspaced payload match with that time and that payload. */
  lemma MatchRecord(t: nat, payload: string)
    requires |payload| == 0 || !IsSpace(payload[0])
    ensures MatchTime(Stamp(t) + ":" + payload) == Some((t, payload))
  {
    MatchDigits(Stamp(t), payload);
  }

  lemma MatchDigits(digits: string, payload: string)
    requires |digits| > 0 && AllDigits(digits)
    requires |payload| == 0 || !IsSpace(payload[0])
    ensures MatchTime(digits + ":" + payload) == Some((DigitsValue(digits), payload))
  {
    var rest := ":" + payload;
    SeqAssoc(digits, ":", payload);
    LeadingDigit(digits, rest);
    DigitsThen(digits, rest);
    LStripUnspaced(rest);
    ColonThen(digits, payload);
  }

  /** Text that starts with a digit has no leading white space. */
  lemma LeadingDigit(digits: string, rest: string)
    requires |digits| > 0 && AllDigits(digits)
    ensures LStrip(digits + rest) == digits + rest
  {
    assert (digits + rest)[0] == digits[0];
    LStripUnspaced(digits + rest);
  }

  /** After a digit run, the match looks at what follows it. */
  lemma DigitsThen(digits: string, rest: string)
    requires |digits| > 0 && AllDigits(digits) && (|rest| > 0 ==> !IsDigit(rest[0]))
    ensures MatchDigitsAt(digits + rest) == MatchColon(digits, LStrip(rest))
  {
    var s := digits + rest;
    DigitRunPrefix(digits, rest);
    assert s[..|digits|] == digits;
    assert s[|digits|..] == rest;
  }

  /** A colon and an unspaced payload complete the match. */
  lemma ColonThen(digits: string, payload: string)
    requires AllDigits(digits) && (|payload| == 0 || !IsSpace(payload[0]))
    ensures MatchColon(digits, ":" + payload) == Some((DigitsValue(digits), payload))
  {
    assert (":" + payload)[1..] == payload;
    assert LStrip(payload) == payload;
  }

  /** Readable pieces that `float()` reads are all read, in order. */
  lemma PipeValuesRead(parts: seq<string>, vals: seq<real>, toFloat: Reader)
    requires |parts| == |vals|
    requires forall i :: 0 <= i < |parts| ==> Readable(parts[i]) && toFloat(parts[i]) == Ok(vals[i])
    ensures PipeValues(parts, toFloat) == Ok(vals)
  {
    PipeValuesReadPrefix(parts, vals, |parts|, toFloat);
    assert parts[..|parts|] == parts && vals[..|vals|] == vals;
  }

  lemma {:induction false} PipeValuesReadPrefix(parts: seq<string>, vals: seq<real>, n: nat, toFloat: Reader)
    requires n <= |parts| == |vals|
    requires forall i :: 0 <= i < |parts| ==> Readable(parts[i]) && toFloat(parts[i]) == Ok(vals[i])
    ensures PipeValues(parts[..n], toFloat) == Ok(vals[..n])
  {
    if n == 0 {
      assert parts[..0] == [];
    } else {
      PipeValuesReadPrefix(parts, vals, n - 1, toFloat);
      PipeValuesReadStep(parts, vals, n, toFloat);
    }
  }

  /** One more readable piece read as the next value extends the values read. */
  lemma PipeValuesReadStep(parts: seq<string>, vals: seq<real>, n: nat, toFloat: Reader)
    requires 0 < n <= |parts| == |vals| && PipeValues(parts[..n - 1], toFloat) == Ok(vals[..n - 1])
    requires Unspaced(parts[n - 1]) && toFloat(parts[n - 1]) == Ok(vals[n - 1])
    ensures PipeValues(parts[..n], toFloat) == Ok(vals[..n])
  {
    PipeValuesNext(parts, n - 1, toFloat);
    PieceReadOk(Ok(vals[..n - 1]), parts[n - 1], vals[n - 1], toFloat);
    TakeStep(vals, n);
  }

  /** An empty last piece is skipped. */
  lemma PipeValuesBlankLast(parts: seq<string>, toFloat: Reader)
    requires |parts| > 0 && parts[|parts| - 1] == ""
    ensures PipeValues(parts, toFloat) == PipeValues(parts[..|parts| - 1], toFloat)
  {
    StripUnspaced("");
  }

  /** A readable piece that `float()` reads as `v` appends `v`. */
  lemma PieceReadOk(front: Result<seq<real>>, piece: string, v: real, toFloat: Reader)
    requires front.Ok? && Unspaced(piece) && toFloat(piece) == Ok(v)
    ensures PieceRead(front, piece, toFloat) == Ok(front.value + [v])
  {
    StripUnspaced(piece);
  }

  /** A record, a stamp of digits followed by readable pieces each ending in `|`, is
      read back as the stamp's time and the values `float()` gives its pieces. */
  lemma RecordRead(t: nat, stamp: string, bodies: seq<string>, vals: seq<real>, toFloat: Reader)
    requires |stamp| > 0 && AllDigits(stamp) && DigitsValue(stamp) == t
    requires |bodies| == |vals|
    requires forall i :: 0 <= i < |bodies| ==> Readable(bodies[i]) && toFloat(bodies[i]) == Ok(vals[i])
    ensures LineRecord(stamp + ":" + Terminated(bodies, '|'), toFloat) == Some((t, Ok(vals)))
  {
    var payload := Terminated(bodies, '|');
    RecordUnspaced(stamp, bodies);
    MatchDigits(stamp, payload);
    PayloadRead(bodies, vals, toFloat);
    MatchedLine(stamp + ":" + payload, t, payload, vals, toFloat);
  }

  /** A line that is its own strip and matches holds its time and its payload's values. */
  lemma MatchedLine(line: string, t: nat, payload: string, vals: seq<real>, toFloat: Reader)
    requires Strip(line) == line && MatchTime(line) == Some((t, payload))
    requires PipeValues(Split(payload, '|'), toFloat) == Ok(vals)
    ensures LineRecord(line, toFloat) == Some((t, Ok(vals)))
  {
    MatchTimeEmpty();
    assert line != "";
  }

  lemma MatchTimeEmpty()
    ensures MatchTime("") == None
  {
    assert LStrip("") == "";
  }

  /** A record neither starts nor ends with white space, nor does its payload start with it. */
  lemma RecordUnspaced(stamp: string, bodies: seq<string>)
    requires |stamp| > 0 && AllDigits(stamp)
    requires forall i :: 0 <= i < |bodies| ==> Readable(bodies[i])
    ensures var payload := Terminated(bodies, '|');
      && Strip(stamp + ":" + payload) == stamp + ":" + payload
      && (|payload| == 0 || !IsSpace(payload[0]))
  {
    var payload := Terminated(bodies, '|');
    var line := stamp + ":" + payload;
    if |bodies| > 0 {
      TerminatedEnds(bodies, '|');
      assert Readable(bodies[0]);
    }
    assert line[0] == stamp[0];
    assert line[|line| - 1] == if |bodies| == 0 then ':' else '|';
    StripUnspaced(line);
  }

  /** The payload of a record splits into its pieces and a last empty one, which is skipped. */
  lemma PayloadRead(bodies: seq<string>, vals: seq<real>, toFloat: Reader)
    requires |bodies| == |vals|
    requires forall i :: 0 <= i < |bodies| ==> Readable(bodies[i]) && toFloat(bodies[i]) == Ok(vals[i])
    ensures PipeValues(Split(Terminated(bodies, '|'), '|'), toFloat) == Ok(vals)
  {
    var payload := Terminated(bodies, '|');
    assert payload + "" == payload;
    SplitTerminated(bodies, "", '|');
    var parts := bodies + [""];
    assert Split(payload, '|') == parts;
    PipeValuesRead(bodies, vals, toFloat);
    PipeValuesBlankLast(parts, toFloat);
    assert parts[..|parts| - 1] == bodies;
  }

  /** `float()` reads a fixed-point text as the thousandths it denotes. */
  lemma ReadsPrinted(toFloat: Reader, b: string, n: int)
    requires ReadsFixed(toFloat) && ParseFixed(b, 3) == Ok(n)
    ensures toFloat(b) == Ok(n as real / 1000.0)
  {
  }

  /** A link record reads back as its time and its printed values. */
  lemma LinkRecordRead(t: nat, vs: seq<real>, fmt: Render, toFloat: Reader)
    requires Faithful(fmt) && ReadsFixed(toFloat)
    ensures LineRecord(LinkRecord(t, vs, fmt), toFloat) == Some((t, Ok(Thousandths(Printed(vs, fmt)))))
  {
    SignedFieldsTerminated(vs, fmt);
    SignedBodiesRead(vs, fmt, toFloat);
    RecordRead(t, Stamp(t), SignedBodies(vs, fmt), Thousandths(Printed(vs, fmt)), toFloat);
  }

  lemma SignedBodiesRead(vs: seq<real>, fmt: Render, toFloat: Reader)
    requires Faithful(fmt) && ReadsFixed(toFloat)
    ensures var bodies, vals := SignedBodies(vs, fmt), Thousandths(Printed(vs, fmt));
      forall i :: 0 <= i < |vs| ==> Readable(bodies[i]) && toFloat(bodies[i]) == Ok(vals[i])
  {
    var bodies, vals := SignedBodies(vs, fmt), Thousandths(Printed(vs, fmt));
    forall i | 0 <= i < |vs| ensures Readable(bodies[i]) && toFloat(bodies[i]) == Ok(vals[i]) {
      SignedBodyReadable(vs[i], fmt);
      ReadsPrinted(toFloat, bodies[i], fmt(vs[i]).Signed());
    }
  }

  /** A node record reads back as its time and its printed values. */
  lemma NodeRecordRead(t: nat, vs: seq<real>, fmt: Render, toFloat: Reader)
    requires ReadsFixed(toFloat)
    ensures LineRecord(NodeRecord(t, vs, fmt), toFloat) == Some((t, Ok(Thousandths(Printed(vs, fmt)))))
  {
    PlainFieldsTerminated(vs, fmt);
    PlainBodiesRead(vs, fmt, toFloat);
    RecordRead(t, Stamp(t), PlainBodies(vs, fmt), Thousandths(Printed(vs, fmt)), toFloat);
  }

  lemma PlainBodiesRead(vs: seq<real>, fmt: Render, toFloat: Reader)
    requires ReadsFixed(toFloat)
    ensures var bodies, vals := PlainBodies(vs, fmt), Thousandths(Printed(vs, fmt));
      forall i :: 0 <= i < |vs| ==> Readable(bodies[i]) && toFloat(bodies[i]) == Ok(vals[i])
  {
    var bodies, vals := PlainBodies(vs, fmt), Thousandths(Printed(vs, fmt));
    forall i | 0 <= i < |vs| ensures Readable(bodies[i]) && toFloat(bodies[i]) == Ok(vals[i]) {
      PlainBodyReadable(vs[i], fmt);
      ReadsPrinted(toFloat, bodies[i], fmt(vs[i]).Signed());
    }
  }
}
