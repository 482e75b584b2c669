/** The line formats of the result files: time stamps `%03d`, values as `%0.3f`
    (with a `+` before those that are not negative, for link and E records), and
    the `%0.4f` state snapshots of the ensemble files. A value is printed through
    `fmt`, which gives the sign and the thousandths `%0.3f` shows; how the rounding
    is done is left to it. */
module Records {
  import opened Wrappers
  import opened Text

  /** `"%0.3f" % v` as the printed sign and thousandths. */
  type Render = real -> Decimal

  /** A rendering that prints a minus sign only for negative values. */
  ghost predicate Faithful(fmt: Render) {
    forall v :: fmt(v).negative ==> v < 0.0
  }

  /** `"%03d" % n`: three digits at least, and for a negative number a minus sign
      followed by two digits at least. */
  function Stamp(n: int): (s: string)
    ensures n >= 0 ==> ParseNat(s) == Some(n)
  {
    if n >= 0 then Pad3(n) else "-" + ZeroPad(NatToString(-n), 2)
  }

  function Fixed3(v: real, fmt: Render): string {
    RenderFixed(fmt(v), 3)
  }

  /** `"+%0.3f" % value` if `value >= 0`, else `"%0.3f" % value`. */
  function SignedBody(v: real, fmt: Render): string {
    (if v >= 0.0 then "+" else "") + Fixed3(v, fmt)
  }

  function SignedField(v: real, fmt: Render): string {
    SignedBody(v, fmt) + "|"
  }

  /** The signed fields of `vs`, in order. */
  function SignedFields(vs: seq<real>, fmt: Render): string {
    if |vs| == 0 then "" else SignedField(vs[0], fmt) + SignedFields(vs[1..], fmt)
  }

  /** `"%0.3f|" % value`. */
  function PlainField(v: real, fmt: Render): string {
    Fixed3(v, fmt) + "|"
  }

  function PlainFields(vs: seq<real>, fmt: Render): string {
    if |vs| == 0 then "" else PlainField(vs[0], fmt) + PlainFields(vs[1..], fmt)
  }

  /** A state value printed by `"%0.4f"`: states are integers, so the printing is exact. */
  function Exact4(n: int): Decimal {
    if n < 0 then Decimal(true, -n * 10000) else Decimal(false, n * 10000)
  }

  /** `"%0.4f" % n` for a state `n`. */
  function StateField(n: int): string {
    RenderFixed(Exact4(n), 4)
  }

  /** `"%0.4f|" % previous + "%0.4f|" % current` for every node, in node order. */
  function StatePairs(prev: seq<int>, cur: seq<int>): string
    requires |prev| == |cur|
  {
    if |prev| == 0 then ""
    else StateField(prev[0]) + "|" + StateField(cur[0]) + "|" + StatePairs(prev[1..], cur[1..])
  }

  /** One node more at the end of a snapshot line. */
  lemma {:induction false} StatePairsSnoc(prev: seq<int>, cur: seq<int>, a: int, b: int)
    requires |prev| == |cur|
    ensures StatePairs(prev + [a], cur + [b]) == StatePairs(prev, cur) + StateField(a) + "|" + StateField(b) + "|"
    decreases |prev|
  {
    if |prev| == 0 {
      assert (prev + [a])[1..] == [] && (cur + [b])[1..] == [];
    } else {
      assert (prev + [a])[1..] == prev[1..] + [a] && (cur + [b])[1..] == cur[1..] + [b];
      StatePairsSnoc(prev[1..], cur[1..], a, b);
      var head := StateField(prev[0]) + "|" + StateField(cur[0]) + "|";
      assert StatePairs(prev + [a], cur + [b]) == head + StatePairs(prev[1..] + [a], cur[1..] + [b]);
      assert StatePairs(prev, cur) == head + StatePairs(prev[1..], cur[1..]);
      Regroup(head, StatePairs(prev[1..], cur[1..]), StateField(a), StateField(b));
    }
  }

  lemma Regroup(head: string, middle: string, x: string, y: string)
    ensures head + (middle + x + "|" + y + "|") == head + middle + x + "|" + y + "|"
  {
  }

  /** `Data[:-1] + "\n"`: the pairs without their last `|`. */
  function StatesLine(prev: seq<int>, cur: seq<int>): string
    requires |prev| == |cur|
  {
    var data := StatePairs(prev, cur);
    (if |data| == 0 then "" else data[..|data| - 1]) + "\n"
  }

  /** The pieces between the `|` of a run of signed fields. */
  function SignedBodies(vs: seq<real>, fmt: Render): (r: seq<string>)
    ensures |r| == |vs| && forall i :: 0 <= i < |vs| ==> r[i] == SignedBody(vs[i], fmt)
  {
    seq(|vs|, i requires 0 <= i < |vs| => SignedBody(vs[i], fmt))
  }

  /** The printed values in thousandths, as `float()` reads them back. */
  function Printed(vs: seq<real>, fmt: Render): (r: seq<int>)
    ensures |r| == |vs| && forall i :: 0 <= i < |vs| ==> r[i] == fmt(vs[i]).Signed()
  {
    seq(|vs|, i requires 0 <= i < |vs| => fmt(vs[i]).Signed())
  }

  /** Writing one more signed field extends the run. */
  lemma {:induction false} SignedFieldsAppend(vs: seq<real>, v: real, fmt: Render)
    ensures SignedFields(vs + [v], fmt) == SignedFields(vs, fmt) + SignedField(v, fmt)
    decreases |vs|
  {
    if |vs| == 0 {
      assert vs + [v] == [v];
    } else {
      assert (vs + [v])[1..] == vs[1..] + [v];
      SignedFieldsAppend(vs[1..], v, fmt);
    }
  }

  lemma {:induction false} PlainFieldsAppend(vs: seq<real>, v: real, fmt: Render)
    ensures PlainFields(vs + [v], fmt) == PlainFields(vs, fmt) + PlainField(v, fmt)
    decreases |vs|
  {
    if |vs| == 0 {
      assert vs + [v] == [v];
    } else {
      assert (vs + [v])[1..] == vs[1..] + [v];
      PlainFieldsAppend(vs[1..], v, fmt);
    }
  }

  /** A printed fixed-point number has no `|`, starts with a minus sign or a digit and
      ends with a digit. */
  lemma RenderShape(d: Decimal, places: nat)
    requires places >= 1
    ensures var s := RenderFixed(d, places);
      && |s| >= 3 && '|' !in s && '\n' !in s
      && (s[0] == '-' || IsDigit(s[0])) && IsDigit(s[|s| - 1])
  {
    var w := NatToString(WholeUnits(d.units, places));
    var f := ZeroPad(NatToString(d.units % Pow10(places)), places);
    FractionDigits(d.units, places);
    var s := RenderFixed(d, places);
    assert s == (if d.negative then "-" else "") + w + "." + f;
    assert forall i :: 0 <= i < |w| ==> IsDigit(w[i]);
    assert forall i :: 0 <= i < |f| ==> IsDigit(f[i]);
    assert s[|s| - 1] == f[|f| - 1];
  }

  /** A signed field body is unspaced and free of `|` and of line breaks. */
  lemma SignedBodyShape(v: real, fmt: Render)
    requires Faithful(fmt)
    ensures var b := SignedBody(v, fmt);
      |b| > 0 && '|' !in b && '\n' !in b && !IsSpace(b[0]) && !IsSpace(b[|b| - 1])
  {
    RenderShape(fmt(v), 3);
    var s := RenderFixed(fmt(v), 3);
    var b := SignedBody(v, fmt);
    if v >= 0.0 {
      assert b == "+" + s;
      assert b[|b| - 1] == s[|s| - 1];
      assert forall i :: 1 <= i < |b| ==> b[i] == s[i - 1];
    } else {
      assert b == s;
    }
  }

  /** A signed field body reads back as the printed value. */
  lemma SignedBodyValue(v: real, fmt: Render)
    requires Faithful(fmt)
    ensures ParseFixed(SignedBody(v, fmt), 3) == Ok(fmt(v).Signed())
  {
    FixedRoundTrip(fmt(v), 3);
    if v >= 0.0 {
      assert !fmt(v).negative;
      assert SignedBody(v, fmt) == "+" + RenderFixed(fmt(v), 3);
    } else {
      assert SignedBody(v, fmt) == RenderFixed(fmt(v), 3);
    }
  }

  /** Pieces each followed by the separator: `p0|p1|...|`. */
  function Terminated(parts: seq<string>, sep: char): string {
    if |parts| == 0 then "" else parts[0] + [sep] + Terminated(parts[1..], sep)
  }

  /** Pieces free of the separator, each followed by it, split back into the pieces,
      followed by whatever the text after them splits into. */
  lemma {:induction false} SplitTerminated(parts: seq<string>, tail: string, sep: char)
    requires forall i :: 0 <= i < |parts| ==> sep !in parts[i]
    ensures Split(Terminated(parts, sep) + tail, sep) == parts + Split(tail, sep)
    decreases |parts|
  {
    if |parts| == 0 {
      assert Terminated(parts, sep) + tail == tail;
    } else {
      var a, more := parts[0], parts[1..];
      var rest := Terminated(more, sep) + tail;
      assert forall i :: 0 <= i < |more| ==> more[i] == parts[i + 1];
      calc {
        Split(Terminated(parts, sep) + tail, sep);
        == { TerminatedCons(parts, tail, sep); }
        Split(a + [sep] + rest, sep);
        == { SplitAt(a, rest, sep); }
        Split(a, sep) + Split(rest, sep);
        == { SplitNoSeparator(a, sep); SplitTerminated(more, tail, sep); }
        [a] + (more + Split(tail, sep));
        == { assert parts == [a] + more; }
        parts + Split(tail, sep);
      }
    }
  }

  /** One piece more at the end. */
  lemma {:induction false} TerminatedSnoc(parts: seq<string>, p: string, sep: char)
    ensures Terminated(parts + [p], sep) == Terminated(parts, sep) + p + [sep]
    decreases |parts|
  {
    if |parts| == 0 {
      assert parts + [p] == [p];
      assert Terminated([p][1..], sep) == "";
    } else {
      assert (parts + [p])[1..] == parts[1..] + [p];
      TerminatedSnoc(parts[1..], p, sep);
    }
  }

  lemma TerminatedCons(parts: seq<string>, tail: string, sep: char)
    requires |parts| > 0
    ensures Terminated(parts, sep) + tail == parts[0] + [sep] + (Terminated(parts[1..], sep) + tail)
  {
  }

  /** A run of signed fields is its bodies, each followed by `|`. */
  lemma {:induction false} SignedFieldsTerminated(vs: seq<real>, fmt: Render)
    ensures SignedFields(vs, fmt) == Terminated(SignedBodies(vs, fmt), '|')
    decreases |vs|
  {
    if |vs| > 0 {
      SignedFieldsTerminated(vs[1..], fmt);
      assert SignedBodies(vs, fmt)[1..] == SignedBodies(vs[1..], fmt);
    }
  }

  /** A run of signed fields splits on `|` into its bodies, followed by whatever
      the text after it splits into. */
  lemma SplitSignedFields(vs: seq<real>, tail: string, fmt: Render)
    requires Faithful(fmt)
    ensures Split(SignedFields(vs, fmt) + tail, '|') == SignedBodies(vs, fmt) + Split(tail, '|')
  {
    SignedFieldsTerminated(vs, fmt);
    forall i | 0 <= i < |vs| ensures '|' !in SignedBodies(vs, fmt)[i] {
      SignedBodyShape(vs[i], fmt);
    }
    SplitTerminated(SignedBodies(vs, fmt), tail, '|');
  }

  /** The pieces between the `|` of a run of plain fields. */
  function PlainBodies(vs: seq<real>, fmt: Render): (r: seq<string>)
    ensures |r| == |vs| && forall i :: 0 <= i < |vs| ==> r[i] == Fixed3(vs[i], fmt)
  {
    seq(|vs|, i requires 0 <= i < |vs| => Fixed3(vs[i], fmt))
  }

  /** A run of plain fields is its bodies, each followed by `|`. */
  lemma {:induction false} PlainFieldsTerminated(vs: seq<real>, fmt: Render)
    ensures PlainFields(vs, fmt) == Terminated(PlainBodies(vs, fmt), '|')
    decreases |vs|
  {
    if |vs| > 0 {
      PlainFieldsTerminated(vs[1..], fmt);
      assert PlainBodies(vs, fmt)[1..] == PlainBodies(vs[1..], fmt);
    }
  }

  /** `"%03d:" % t` followed by signed fields: a line of a link file (and of the
      E file), the values of `Var_` then those of `Alpha_`. */
  function LinkRecord(t: int, vs: seq<real>, fmt: Render): string {
    Stamp(t) + ":" + SignedFields(vs, fmt)
  }

  /** `"%03d:%0.3f|%0.3f|" % (t, ...)`: a line of a node file. */
  function NodeRecord(t: int, vs: seq<real>, fmt: Render): string {
    Stamp(t) + ":" + PlainFields(vs, fmt)
  }

  /** A piece the reader takes whole: not empty, not starting or ending with white
      space, and free of separators. */
  predicate Readable(b: string) {
    && |b| > 0 && '|' !in b && '\n' !in b
    && !IsSpace(b[0]) && !IsSpace(b[|b| - 1])
  }

  /** A signed body is readable, and parses as the printed value. */
  lemma SignedBodyReadable(v: real, fmt: Render)
    requires Faithful(fmt)
    ensures Readable(SignedBody(v, fmt)) && ParseFixed(SignedBody(v, fmt), 3) == Ok(fmt(v).Signed())
  {
    SignedBodyShape(v, fmt);
    SignedBodyValue(v, fmt);
  }

  /** A plain body is readable, and parses as the printed value, whatever the rendering. */
  lemma PlainBodyReadable(v: real, fmt: Render)
    ensures Readable(Fixed3(v, fmt)) && ParseFixed(Fixed3(v, fmt), 3) == Ok(fmt(v).Signed())
  {
    RenderShape(fmt(v), 3);
    FixedRoundTrip(fmt(v), 3);
  }

  /** Terminated pieces end in the separator and start with the first piece. */
  lemma {:induction false} TerminatedEnds(parts: seq<string>, sep: char)
    requires |parts| > 0
    ensures var s := Terminated(parts, sep);
      |s| > 0 && s[|s| - 1] == sep && (|parts[0]| > 0 ==> s[0] == parts[0][0])
  {
    if |parts| > 1 {
      TerminatedEnds(parts[1..], sep);
    }
  }
}
