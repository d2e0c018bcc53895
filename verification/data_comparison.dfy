/** The counting matchers of `DataComparison` (reference_match.py, lines
    6-140): for every instrument of the reference table, in the order the
    instruments first appear, count the rows whose sample value passes a
    test, and keep the first instrument with the largest count.

    Numbers are `real`s; a numeric column that `pd.to_numeric(errors='coerce')`
    could not convert holds `None`, and every comparison with it is false,
    as every comparison with NaN is. */
module DataComparison {
  import opened Options
  import ReferenceParsing
  import Text

  /** One row of `reference_df` after numeric coercion. */
  datatype Record = Record(
    instrument: string, sampleNumber: int, group: string,
    labs: Option<real>, mean: Option<real>, sd: Option<real>,
    low: Option<real>, high: Option<real>, uncertainty: Option<real>)

  /** Field `i` of a parsed row, coerced by `toNumber`; the columns a short
      row does not reach are missing. */
  function Field(fields: seq<string>, i: nat, toNumber: string -> Option<real>): Option<real>
  {
    if i < |fields| then toNumber(fields[i]) else None
  }

  /** A parsed row as a table row: the six fields become the columns
      # Labs, Mean, SD, Low Range, High Range and Uncertainty, in that order. */
  function ToRecord(row: ReferenceParsing.Row, toNumber: string -> Option<real>): Record
  {
    Record(row.instrument, row.sampleNumber, row.group,
           Field(row.fields, 0, toNumber), Field(row.fields, 1, toNumber),
           Field(row.fields, 2, toNumber), Field(row.fields, 3, toNumber),
           Field(row.fields, 4, toNumber), Field(row.fields, 5, toNumber))
  }

  /** The table row of a data line: the numeric columns are the last six
      tokens of the de-hyphenated line, in order, so the mean is the fifth
      token from the end and the range bounds the third and second from the
      end; the name is made of the tokens before them. A line of fewer than
      six tokens has an empty name, fills the first columns with its tokens
      and leaves the others missing. */
  lemma RecordOfLine(line: string, c: ReferenceParsing.Cursor, toNumber: string -> Option<real>)
    ensures var tokens := Text.Split(Text.RemoveHyphens(line));
            var rec := ToRecord(ReferenceParsing.MakeRow(line, c), toNumber);
            && rec.sampleNumber == c.sample && rec.group == c.group
            && (|tokens| >= 6 ==> Text.Split(rec.instrument) == tokens[..|tokens| - 6])
            && (|tokens| < 6 ==> rec.instrument == "")
            && ColumnsOf(rec, tokens, toNumber)
  {
    var tokens := Text.Split(Text.RemoveHyphens(line));
    var k := if |tokens| >= 6 then |tokens| - 6 else 0;
    var row := ReferenceParsing.MakeRow(line, c);
    ReferenceParsing.MakeRowTokens(line, c);
    assert row == ReferenceParsing.Row(Text.Join(tokens[..k]), c.sample, c.group, tokens[k..]);
    RecordOfFields(row, tokens, k, toNumber);
    if |tokens| >= 6 {
      assert tokens == tokens[..k] + tokens[k..];
    }
  }

  /** The six numeric columns of `rec` as the last six tokens of a line,
      in order; a line of fewer than six tokens fills the first columns
      and leaves the others missing. */
  predicate ColumnsOf(rec: Record, tokens: seq<string>, toNumber: string -> Option<real>)
  {
    var n := |tokens|;
    if n >= 6 then
      && rec.labs == toNumber(tokens[n - 6]) && rec.mean == toNumber(tokens[n - 5])
      && rec.sd == toNumber(tokens[n - 4]) && rec.low == toNumber(tokens[n - 3])
      && rec.high == toNumber(tokens[n - 2]) && rec.uncertainty == toNumber(tokens[n - 1])
    else
      && rec.labs == (if n > 0 then toNumber(tokens[0]) else None)
      && rec.mean == (if n > 1 then toNumber(tokens[1]) else None)
      && rec.sd == (if n > 2 then toNumber(tokens[2]) else None)
      && rec.low == (if n > 3 then toNumber(tokens[3]) else None)
      && rec.high == (if n > 4 then toNumber(tokens[4]) else None)
      && rec.uncertainty == None
  }

  /** A row whose fields are the tokens from the cut on. */
  lemma RecordOfFields(row: ReferenceParsing.Row, tokens: seq<string>, k: nat,
                       toNumber: string -> Option<real>)
    requires k == (if |tokens| >= 6 then |tokens| - 6 else 0)
    requires row.fields == tokens[k..]
    ensures ColumnsOf(ToRecord(row, toNumber), tokens, toNumber)
  {
  }

  /** The two tests a sample value can be put to. */
  datatype Criterion =
    | WithinRange                  // find_most_within_bounds
    | WithinPercent(percent: real) // find_most_within_percent

  function Abs(x: real): real
  {
    if x < 0.0 then -x else x
  }

  /** The comparison of a sample value `v` with a row: the inclusive range
      test, or a relative deviation from the row's mean of at most
      `percent`/100. A missing bound or mean fails; so does a zero mean,
      whose quotient is not a finite number. */
  predicate Within(crit: Criterion, r: Record, v: real)
  {
    match crit
    case WithinRange =>
      r.low.Some? && r.high.Some? && r.low.value <= v <= r.high.value
    case WithinPercent(p) =>
      r.mean.Some? && r.mean.value != 0.0 &&
      Abs((v - r.mean.value) / r.mean.value) <= p / 100.0
  }

  /** A row is counted when the sample dict has a value for its sample
      number and that value passes the test. */
  predicate Passes(crit: Criterion, r: Record, samples: map<int, real>)
  {
    r.sampleNumber in samples && Within(crit, r, samples[r.sampleNumber])
  }

  /** The number of rows of `instrument` in `table` that pass. */
  function Score(table: seq<Record>, instrument: string, samples: map<int, real>, crit: Criterion): nat
  {
    if table == [] then 0
    else
      var last := table[|table| - 1];
      Score(table[..|table| - 1], instrument, samples, crit) +
      (if last.instrument == instrument && Passes(crit, last, samples) then 1 else 0)
  }

  /** Some row of `table` belongs to `x`. */
  ghost predicate Mentions(table: seq<Record>, x: string)
  {
    exists i :: 0 <= i < |table| && table[i].instrument == x
  }

  /** `reference_df["Instrument"].unique()`: every instrument of the table
      once, in the order of first appearance. */
  function Instruments(table: seq<Record>): (r: seq<string>)
    ensures forall i, j :: 0 <= i < j < |r| ==> r[i] != r[j]
    ensures forall i :: 0 <= i < |table| ==> table[i].instrument in r
    ensures forall j :: 0 <= j < |r| ==> Mentions(table, r[j])
    ensures r == [] <==> table == []
  {
    if table == [] then []
    else
      var front := table[..|table| - 1];
      var prev := Instruments(front);
      var x := table[|table| - 1].instrument;
      assert forall i :: 0 <= i < |front| ==> table[i] == front[i];
      assert forall j :: 0 <= j < |prev| ==> Mentions(table, prev[j]) by {
        forall j | 0 <= j < |prev| ensures Mentions(table, prev[j]) {
          var i :| 0 <= i < |front| && front[i].instrument == prev[j];
          assert table[i].instrument == prev[j];
        }
      }
      if x in prev then prev else prev + [x]
  }

  /** One more row either repeats a known instrument or appends a new one. */
  lemma InstrumentsExtend(table: seq<Record>)
    requires table != []
    ensures var prev, x := Instruments(table[..|table| - 1]), table[|table| - 1].instrument;
            var r := Instruments(table);
            && |prev| <= |r|
            && (forall j :: 0 <= j < |prev| ==> r[j] == prev[j])
            && (x in prev ==> r == prev)
            && (x !in prev ==> |r| == |prev| + 1 && r[|prev|] == x)
  {
  }

  /** Instruments come in order of first appearance: every row of a later
      instrument is preceded by some row of each earlier one. */
  lemma {:induction false} InstrumentsFirstSeen(table: seq<Record>, a: int, b: int, i: int)
    requires 0 <= a < b < |Instruments(table)|
    requires 0 <= i < |table| && table[i].instrument == Instruments(table)[b]
    ensures exists i' :: 0 <= i' < i && table[i'].instrument == Instruments(table)[a]
    decreases |table|, 2
  {
    if i < |table| - 1 {
      FirstSeenBeforeLast(table, a, b, i);
    } else {
      FirstSeenAtLast(table, a, b);
    }
  }

  /** `InstrumentsFirstSeen` for a row other than the last one. */
  lemma {:induction false} FirstSeenBeforeLast(table: seq<Record>, a: int, b: int, i: int)
    requires 0 <= a < b < |Instruments(table)|
    requires 0 <= i < |table| - 1 && table[i].instrument == Instruments(table)[b]
    ensures exists i' :: 0 <= i' < i && table[i'].instrument == Instruments(table)[a]
    decreases |table|, 0
  {
    var front := table[..|table| - 1];
    var prev, r := Instruments(front), Instruments(table);
    InstrumentsExtend(table);
    assert front[i].instrument == r[b] && r[b] in prev;
    assert b < |prev| && r[a] == prev[a] && r[b] == prev[b];
    InstrumentsFirstSeen(front, a, b, i);
    var i' :| 0 <= i' < i && front[i'].instrument == prev[a];
    assert table[i'].instrument == r[a];
  }

  /** `InstrumentsFirstSeen` for the last row. */
  lemma {:induction false} FirstSeenAtLast(table: seq<Record>, a: int, b: int)
    requires 0 <= a < b < |Instruments(table)|
    requires table != [] && table[|table| - 1].instrument == Instruments(table)[b]
    ensures exists i' :: 0 <= i' < |table| - 1 && table[i'].instrument == Instruments(table)[a]
    decreases |table|, 1
  {
    var front := table[..|table| - 1];
    var prev, r := Instruments(front), Instruments(table);
    InstrumentsExtend(table);
    assert a < |prev| && r[a] == prev[a];
    var i': int;
    if b < |prev| {
      i' := FirstSeenInFront(front, a, b);
    } else {
      i' := MentionedAt(front, prev[a]);
    }
    assert table[i'] == front[i'];
  }

  /** An older instrument seen again in the last row: its first row in the
      front of the table is preceded by a row of every earlier instrument. */
  lemma {:induction false} FirstSeenInFront(front: seq<Record>, a: int, b: int) returns (i': int)
    requires 0 <= a < b < |Instruments(front)|
    ensures 0 <= i' < |front| && front[i'].instrument == Instruments(front)[a]
    decreases |front| + 1, 0
  {
    var prev := Instruments(front);
    var i0 := MentionedAt(front, prev[b]);
    InstrumentsFirstSeen(front, a, b, i0);
    i' :| 0 <= i' < i0 && front[i'].instrument == prev[a];
  }

  /** A row of an instrument the table mentions. */
  lemma MentionedAt(table: seq<Record>, x: string) returns (i: int)
    requires Mentions(table, x)
    ensures 0 <= i < |table| && table[i].instrument == x
  {
    i :| 0 <= i < |table| && table[i].instrument == x;
  }

  /** Instrument number `k` has the largest score, and every instrument
      before it has a smaller one. */
  ghost predicate FirstMaxAt(table: seq<Record>, samples: map<int, real>, crit: Criterion, k: int)
  {
    var insts := Instruments(table);
    0 <= k < |insts| &&
    (forall j :: 0 <= j < |insts| ==>
       Score(table, insts[j], samples, crit) <= Score(table, insts[k], samples, crit)) &&
    (forall j :: 0 <= j < k ==>
       Score(table, insts[j], samples, crit) < Score(table, insts[k], samples, crit))
  }

  /** What the matchers return: `(None, -1)` for a table with no
      instrument, otherwise the first instrument reaching the largest score,
      and that score. */
  ghost predicate IsBestMatch(table: seq<Record>, samples: map<int, real>, crit: Criterion,
                              best: Option<string>, most: int)
  {
    var insts := Instruments(table);
    if insts == [] then best == None && most == -1
    else exists k :: FirstMaxAt(table, samples, crit, k) &&
                     best == Some(insts[k]) && most == Score(table, insts[k], samples, crit)
  }

  /** The inner loop of both matchers: walk the rows of `instrument` and
      count those whose sample value exists and passes. */
  method CountPassing(table: seq<Record>, samples: map<int, real>, crit: Criterion, instrument: string)
    returns (count: nat)
    ensures count == Score(table, instrument, samples, crit)
  {
    count := 0;
    for j := 0 to |table|
      invariant count == Score(table[..j], instrument, samples, crit)
    {
      assert table[..j + 1][..j] == table[..j];
      var row := table[j];
      if row.instrument == instrument && row.sampleNumber in samples {
        var value := samples[row.sampleNumber];
        if Within(crit, row, value) {
          count := count + 1;
        }
      }
    }
    assert table[..|table|] == table;
  }

  /** The shared loop of `find_most_within_bounds` and
      `find_most_within_percent`: for each instrument, count its passing
      rows; keep it when its count beats the best so far (strictly, so the
      first maximum stays), starting from the sentinel -1. */
  method FindMost(table: seq<Record>, samples: map<int, real>, crit: Criterion)
    returns (best: Option<string>, most: int)
    ensures IsBestMatch(table, samples, crit, best, most)
    ensures best == None <==> table == []
    ensures most == -1 <==> table == []
  {
    var instruments := Instruments(table);
    best, most := None, -1;
    ghost var at := 0;
    for i := 0 to |instruments|
      invariant i == 0 ==> best == None && most == -1
      invariant i > 0 ==> 0 <= at < i && best == Some(instruments[at]) &&
                          most == Score(table, instruments[at], samples, crit)
      invariant forall j :: 0 <= j < i ==> Score(table, instruments[j], samples, crit) <= most
      invariant 0 <= at <= i
      invariant forall j :: 0 <= j < at ==> Score(table, instruments[j], samples, crit) < most
    {
      var instrument := instruments[i];
      var count := CountPassing(table, samples, crit, instrument);
      if count > most {
        most, best := count, Some(instrument);
        at := i;
      }
    }
    if instruments != [] {
      assert FirstMaxAt(table, samples, crit, at);
    }
  }

  /** `find_most_within_bounds`: the first instrument with the most rows
      whose range [Low Range, High Range] holds the sample value. */
  method FindMostWithinBounds(table: seq<Record>, samples: map<int, real>)
    returns (best: Option<string>, most: int)
    ensures IsBestMatch(table, samples, WithinRange, best, most)
    ensures best == None <==> table == []
  {
    best, most := FindMost(table, samples, WithinRange);
  }

  /** `find_most_within_percent`: the first instrument with the most rows
      whose mean the sample value deviates from by at most `percent` percent. */
  method FindMostWithinPercent(table: seq<Record>, samples: map<int, real>, percent: real)
    returns (best: Option<string>, most: int)
    ensures IsBestMatch(table, samples, WithinPercent(percent), best, most)
    ensures best == None <==> table == []
  {
    best, most := FindMost(table, samples, WithinPercent(percent));
  }

  /** The result the matchers promise is unique: any two answers that meet
      it agree, so the strict comparison decides every tie. */
  lemma BestMatchUnique(table: seq<Record>, samples: map<int, real>, crit: Criterion,
                        b1: Option<string>, n1: int, b2: Option<string>, n2: int)
    requires IsBestMatch(table, samples, crit, b1, n1)
    requires IsBestMatch(table, samples, crit, b2, n2)
    ensures b1 == b2 && n1 == n2
  {
    var insts := Instruments(table);
    if insts != [] {
      var k1 :| FirstMaxAt(table, samples, crit, k1) && b1 == Some(insts[k1]) &&
                n1 == Score(table, insts[k1], samples, crit);
      var k2 :| FirstMaxAt(table, samples, crit, k2) && b2 == Some(insts[k2]) &&
                n2 == Score(table, insts[k2], samples, crit);
      assert n1 <= n2 && n2 <= n1;
    }
  }

  /** Raising the percent never lowers an instrument's count. */
  lemma {:induction false} ScorePercentMonotone(table: seq<Record>, instrument: string,
                                                samples: map<int, real>, p1: real, p2: real)
    requires p1 <= p2
    ensures Score(table, instrument, samples, WithinPercent(p1)) <=
            Score(table, instrument, samples, WithinPercent(p2))
    decreases |table|
  {
    if table != [] {
      ScorePercentMonotone(table[..|table| - 1], instrument, samples, p1, p2);
      assert p1 / 100.0 <= p2 / 100.0;
    }
  }

  /** Raising the percent never lowers the best count either. */
  lemma BestPercentMonotone(table: seq<Record>, samples: map<int, real>, p1: real, p2: real,
                            b1: Option<string>, n1: int, b2: Option<string>, n2: int)
    requires p1 <= p2
    requires IsBestMatch(table, samples, WithinPercent(p1), b1, n1)
    requires IsBestMatch(table, samples, WithinPercent(p2), b2, n2)
    ensures n1 <= n2
  {
    var insts := Instruments(table);
    if insts != [] {
      var k1 :| FirstMaxAt(table, samples, WithinPercent(p1), k1) && b1 == Some(insts[k1]) &&
                n1 == Score(table, insts[k1], samples, WithinPercent(p1));
      var k2 :| FirstMaxAt(table, samples, WithinPercent(p2), k2) && b2 == Some(insts[k2]) &&
                n2 == Score(table, insts[k2], samples, WithinPercent(p2));
      ScorePercentMonotone(table, insts[k1], samples, p1, p2);
    }
  }

  /** The rows whose mean is not zero. */
  function NonZeroMeans(table: seq<Record>): (r: seq<Record>)
    ensures forall i :: 0 <= i < |r| ==> r[i].mean != Some(0.0)
  {
    if table == [] then []
    else
      var last := table[|table| - 1];
      NonZeroMeans(table[..|table| - 1]) + (if last.mean == Some(0.0) then [] else [last])
  }

  /** The filter drops the zero-mean rows and nothing else: every other row
      stays, as often as it occurs in the table. */
  lemma {:induction false} NonZeroMeansKeeps(table: seq<Record>)
    ensures forall x :: multiset(NonZeroMeans(table))[x] ==
                        (if x.mean == Some(0.0) then 0 else multiset(table)[x])
    decreases |table|
  {
    if table != [] {
      var front, last := table[..|table| - 1], table[|table| - 1];
      NonZeroMeansKeeps(front);
      assert table == front + [last];
    }
  }

  /** Appending one row adds its own contribution to a count. */
  lemma ScoreAppend(rows: seq<Record>, r: Record, instrument: string, samples: map<int, real>, crit: Criterion)
    ensures Score(rows + [r], instrument, samples, crit) ==
            Score(rows, instrument, samples, crit) +
            (if r.instrument == instrument && Passes(crit, r, samples) then 1 else 0)
  {
    assert (rows + [r])[..|rows|] == rows;
  }

  /** A row whose mean is zero never counts toward the percent score:
      removing all of them leaves every instrument's count unchanged. */
  lemma {:induction false} ZeroMeanRowsIgnored(table: seq<Record>, instrument: string,
                                               samples: map<int, real>, p: real)
    ensures Score(table, instrument, samples, WithinPercent(p)) ==
            Score(NonZeroMeans(table), instrument, samples, WithinPercent(p))
    decreases |table|
  {
    if table != [] {
      var front, last := table[..|table| - 1], table[|table| - 1];
      ZeroMeanRowsIgnored(front, instrument, samples, p);
      if last.mean != Some(0.0) {
        assert NonZeroMeans(table) == NonZeroMeans(front) + [last];
        ScoreAppend(NonZeroMeans(front), last, instrument, samples, WithinPercent(p));
      } else {
        assert NonZeroMeans(front) + [] == NonZeroMeans(front);
        assert NonZeroMeans(table) == NonZeroMeans(front);
        assert !Passes(WithinPercent(p), last, samples);
      }
    }
  }

  /** `count_within_bounds`: over the triples that `zip` forms (as many as
      the shortest list), how many have `low <= y <= high`. */
  function CountWithinBounds(ys: seq<real>, lows: seq<real>, highs: seq<real>): (n: nat)
    ensures n <= |ys| && n <= |lows| && n <= |highs|
  {
    if ys == [] || lows == [] || highs == [] then 0
    else
      (if lows[0] <= ys[0] <= highs[0] then 1 else 0) +
      CountWithinBounds(ys[1..], lows[1..], highs[1..])
  }

  /** The number of triples `zip` forms: the length of the shortest list. */
  function Shortest(ys: seq<real>, lows: seq<real>, highs: seq<real>): (m: nat)
    ensures m <= |ys| && m <= |lows| && m <= |highs|
    ensures m == |ys| || m == |lows| || m == |highs|
  {
    if |ys| <= |lows| && |ys| <= |highs| then |ys|
    else if |lows| <= |highs| then |lows|
    else |highs|
  }

  /** The count reaches the number of triples exactly when every triple is
      within its bounds, whatever the lengths of the three lists. */
  lemma {:induction false} CountWithinBoundsAll(ys: seq<real>, lows: seq<real>, highs: seq<real>)
    ensures var m := Shortest(ys, lows, highs);
            CountWithinBounds(ys, lows, highs) == m <==>
            forall i :: 0 <= i < m ==> lows[i] <= ys[i] <= highs[i]
    decreases |ys|
  {
    var m := Shortest(ys, lows, highs);
    if m > 0 {
      CountWithinBoundsAll(ys[1..], lows[1..], highs[1..]);
      assert Shortest(ys[1..], lows[1..], highs[1..]) == m - 1;
      assert forall i :: 1 <= i < m ==> ys[1..][i - 1] == ys[i] && lows[1..][i - 1] == lows[i] &&
                                        highs[1..][i - 1] == highs[i];
    }
  }

  /** What one row of the percent loop does as written. */
  datatype RowOutcome = Counted(hit: bool) | ZeroDivisionError

  /** One row of `find_most_within_percent` as written: `(value - Mean) / Mean`
      is a Python float division (the row comes out of `iterrows` on a
      frame with a text column, so its numbers are Python floats), which
      raises ZeroDivisionError on a zero mean and takes the whole call down;
      a missing (NaN) mean gives NaN and a failed comparison. */
  function PercentRowAsWritten(r: Record, samples: map<int, real>, percent: real): (o: RowOutcome)
    ensures o == ZeroDivisionError <==> r.sampleNumber in samples && r.mean == Some(0.0)
    ensures o != ZeroDivisionError ==> o == Counted(Passes(WithinPercent(percent), r, samples))
  {
    if r.sampleNumber !in samples then Counted(false)
    else if r.mean.None? then Counted(false)
    else if r.mean.value == 0.0 then ZeroDivisionError
    else
      var v, m := samples[r.sampleNumber], r.mean.value;
      Counted(Abs((v - m) / m) <= percent / 100.0)
  }

  /** A one-row table on which the code as written raises, while the
      intended behaviour skips the row and reports a count of 0. */
  lemma ZeroMeanRaisesAsWritten()
    ensures var r := Record("A", 1, "Peer Group", Some(3.0), Some(0.0), Some(0.0),
                            Some(0.0), Some(0.0), Some(0.0));
            var samples := map[1 := 5.0];
            && PercentRowAsWritten(r, samples, 30.0) == ZeroDivisionError
            && Score([r], "A", samples, WithinPercent(30.0)) == 0
  {
    var r := Record("A", 1, "Peer Group", Some(3.0), Some(0.0), Some(0.0),
                    Some(0.0), Some(0.0), Some(0.0));
    assert [r][..0] == [];
  }

  /** Instrument "A" with samples 1 and 2, means 10 and 20, ranges [8, 12]
      and [18, 22]. */
  function ExampleTable(): seq<Record>
  {
    [Record("A", 1, "Peer Group", Some(5.0), Some(10.0), Some(1.0), Some(8.0), Some(12.0), Some(0.5)),
     Record("A", 2, "Peer Group", Some(5.0), Some(20.0), Some(1.0), Some(18.0), Some(22.0), Some(0.5))]
  }

  /** The example table has the one instrument "A". */
  lemma ExampleInstruments()
    ensures Instruments(ExampleTable()) == ["A"]
  {
    var t := ExampleTable();
    assert t[..1][..0] == [] && t[..1] == [t[0]];
  }

  /** Samples {1: 9, 2: 25}: only sample 1 is in range, so the answer is
      ("A", 1). */
  lemma ExampleWithinRange()
    ensures IsBestMatch(ExampleTable(), map[1 := 9.0, 2 := 25.0], WithinRange, Some("A"), 1)
  {
    var t, samples := ExampleTable(), map[1 := 9.0, 2 := 25.0];
    ExampleInstruments();
    assert t[..1][..0] == [];
    assert Score(t[..1], "A", samples, WithinRange) == 1;
    assert Score(t, "A", samples, WithinRange) == 1;
    assert FirstMaxAt(t, samples, WithinRange, 0);
  }

  /** Samples {1: 8, 2: 22}, each on a bound of its range: both count. */
  lemma ExampleOnBounds()
    ensures Score(ExampleTable(), "A", map[1 := 8.0, 2 := 22.0], WithinRange) == 2
  {
    var t := ExampleTable();
    assert t[..1][..0] == [];
    assert Score(t[..1], "A", map[1 := 8.0, 2 := 22.0], WithinRange) == 1;
  }

  /** Samples {1: 12, 2: 20} at 30 percent: deviations of 20 and 0 percent,
      so both rows count. */
  lemma ExampleWithinPercent()
    ensures IsBestMatch(ExampleTable(), map[1 := 12.0, 2 := 20.0], WithinPercent(30.0), Some("A"), 2)
  {
    var t, samples := ExampleTable(), map[1 := 12.0, 2 := 20.0];
    ExampleInstruments();
    assert t[..1][..0] == [];
    assert Score(t[..1], "A", samples, WithinPercent(30.0)) == 1;
    assert Score(t, "A", samples, WithinPercent(30.0)) == 2;
    assert FirstMaxAt(t, samples, WithinPercent(30.0), 0);
  }
}
