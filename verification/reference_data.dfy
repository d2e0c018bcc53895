/** The section-tracking report parser of `ReferenceData`
    (reference_match.py, lines 142-307).

    The parser walks the report line by line. Two ordered flag dictionaries
    remember which sample section (1..10) and which group section is being
    read; header lines switch the flags, blank and "All Participants" lines
    are ignored, and every other line is a data line that becomes a row
    tagged with the active sample and group.

    The first half of the module is the specification: a pure classifier,
    one step of the scan on an abstract cursor, and lemmas about whole scans.
    The second half is the class, whose methods update the dictionaries in
    place and are proved to follow the specification. */
module ReferenceParsing {
  import opened Options
  import opened Text

  /** The keys `in_sample_dict` starts with, in insertion order. */
  const SampleNumbers: seq<int> := [1, 2, 3, 4, 5, 6, 7, 8, 9, 10]

  /** The keys `in_group_dict` starts with, in insertion order. */
  const GroupLabels: seq<string> := ["Peer Group", "Instrument Group", "Method Group", "Reagent Group"]

  /** What `get_in_group` returns when no group flag is set. */
  const NoGroup: string := "No Group Found"

  /** One emitted row before numeric conversion: the instrument name, the
      active sample and group, and the trailing (at most six) tokens of the
      line, in the order # Labs, Mean, SD, Low Range, High Range, Uncertainty. */
  datatype Row = Row(instrument: string, sampleNumber: int, group: string, fields: seq<string>)

  /** The four kinds of report line, in the priority order the parser tests them. */
  datatype LineKind = SampleHeader(sample: int) | GroupHeader(groupLabel: string) | Skip | Data

  /** The three labels a group header can select. */
  predicate IsHeaderLabel(g: string)
  {
    g == "Peer Group" || g == "Instrument Group" || g == "Method Group"
  }

  /** The parser state as `get_in_sample` and `get_in_group` see it. */
  datatype Cursor = Cursor(sample: int, group: string)

  /** A scan in progress: the cursor and the rows emitted so far. */
  datatype Parsed = Parsed(cursor: Cursor, rows: seq<Row>)

  /** The `if`/`elif` chain of `load_reference_data`: sample markers first,
      then group markers (where "Reagent Groups" selects the label
      "Method Group"), then blank and "All Participants" lines; anything else
      is data. */
  function Classify(line: string): LineKind
  {
    if Contains(line, "SAMPLE IA-01") then SampleHeader(1)
    else if Contains(line, "SAMPLE IA-02") then SampleHeader(2)
    else if Contains(line, "SAMPLE IA-03") then SampleHeader(3)
    else if Contains(line, "SAMPLE IA-04") then SampleHeader(4)
    else if Contains(line, "SAMPLE IA-05") then SampleHeader(5)
    else if Contains(line, "SAMPLE IA-06") then SampleHeader(6)
    else if Contains(line, "SAMPLE IA-07") then SampleHeader(7)
    else if Contains(line, "SAMPLE IA-08") then SampleHeader(8)
    else if Contains(line, "SAMPLE IA-09") then SampleHeader(9)
    else if Contains(line, "SAMPLE IA-10") then SampleHeader(10)
    else if Contains(line, "Peer Group") then GroupHeader("Peer Group")
    else if Contains(line, "Instrument Groups") then GroupHeader("Instrument Group")
    else if Contains(line, "Method Groups") then GroupHeader("Method Group")
    else if Contains(line, "Reagent Groups") then GroupHeader("Method Group")
    else if IsBlank(line) || Contains(line, "All Participants") then Skip
    else Data
  }

  /** The name cut and the field cut of a data line: hyphens removed, split
      on whitespace, all but the last six tokens joined by single spaces,
      the last six tokens kept as they are (Python's `[:-6]` and `[-6:]`, so
      a line of fewer than six tokens gives an empty name and fewer fields). */
  function MakeRow(line: string, c: Cursor): Row
  {
    var tokens := Split(RemoveHyphens(line));
    var k := if |tokens| >= 6 then |tokens| - 6 else 0;
    Row(Join(tokens[..k]), c.sample, c.group, tokens[k..])
  }

  /** One iteration of the line loop. */
  function Step(p: Parsed, line: string): Parsed
  {
    StepOn(p, Classify(line), line)
  }

  /** One iteration of the line loop on a line of the given kind. */
  function StepOn(p: Parsed, kind: LineKind, line: string): Parsed
  {
    match kind
    case SampleHeader(n) => p.(cursor := p.cursor.(sample := n))
    case GroupHeader(g) => p.(cursor := p.cursor.(group := g))
    case Skip => p
    case Data =>
      if p.cursor.sample == 0 then p
      else p.(rows := p.rows + [MakeRow(line, p.cursor)])
  }

  /** The line loop run from `p` over `lines`, in order. */
  function Run(p: Parsed, lines: seq<string>): Parsed
  {
    if lines == [] then p
    else Step(Run(p, lines[..|lines| - 1]), lines[|lines| - 1])
  }

  /** A whole scan from cursor `c` with no rows yet. */
  function Scan(c: Cursor, lines: seq<string>): Parsed
  {
    Run(Parsed(c, []), lines)
  }

  /** The number of data lines in `lines`. */
  function DataLines(lines: seq<string>): nat
  {
    if lines == [] then 0
    else DataLines(lines[..|lines| - 1]) + (if Classify(lines[|lines| - 1]).Data? then 1 else 0)
  }

  /** The sample of the last sample header in `lines`, or `s` if there is none. */
  function LastSample(s: int, lines: seq<string>): int
  {
    if lines == [] then s
    else match Classify(lines[|lines| - 1])
      case SampleHeader(n) => n
      case _ => LastSample(s, lines[..|lines| - 1])
  }

  /** The label of the last group header in `lines`, or `g` if there is none. */
  function LastGroup(g: string, lines: seq<string>): string
  {
    if lines == [] then g
    else match Classify(lines[|lines| - 1])
      case GroupHeader(l) => l
      case _ => LastGroup(g, lines[..|lines| - 1])
  }

  /** A sample header names one of the ten samples, and a group header one
      of three labels: "Reagent Groups" shares "Method Group". */
  lemma HeaderValues(line: string)
    ensures Classify(line).SampleHeader? ==> 1 <= Classify(line).sample <= 10
    ensures Classify(line).GroupHeader? ==>
              IsHeaderLabel(Classify(line).groupLabel)
    ensures Contains(line, "Reagent Groups") && !Contains(line, "Peer Group") &&
            !Contains(line, "Instrument Groups") && !Classify(line).SampleHeader? ==>
              Classify(line) == GroupHeader("Method Group")
  {
  }

  /** Running over two pieces one after the other is running over their
      concatenation. */
  lemma {:induction false} RunAppend(p: Parsed, a: seq<string>, b: seq<string>)
    ensures Run(p, a + b) == Run(Run(p, a), b)
    decreases |b|
  {
    if b == [] {
      assert a + b == a;
    } else {
      var ab := a + b;
      assert ab[..|ab| - 1] == a + b[..|b| - 1];
      assert ab[|ab| - 1] == b[|b| - 1];
      RunAppend(p, a, b[..|b| - 1]);
    }
  }

  /** One step treats two states with the same cursor alike: the rows of
      the one keep their extra prefix. */
  lemma StepKeepsRows(q: Parsed, q0: Parsed, pre: seq<Row>, kind: LineKind, line: string)
    requires q.cursor == q0.cursor && q.rows == pre + q0.rows
    ensures StepOn(q, kind, line).cursor == StepOn(q0, kind, line).cursor
    ensures StepOn(q, kind, line).rows == pre + StepOn(q0, kind, line).rows
  {
    if kind.Data? && q.cursor.sample != 0 {
      AppendAssoc(pre, q0.rows, MakeRow(line, q.cursor));
    }
  }

  /** Appending after a prefix. */
  lemma AppendAssoc<T>(a: seq<T>, b: seq<T>, x: T)
    ensures (a + b) + [x] == a + (b + [x])
  {
  }

  /** A scan only appends: the rows it starts with stay in front. */
  lemma {:induction false} RunKeepsRows(p: Parsed, lines: seq<string>)
    ensures Run(p, lines).rows == p.rows + Scan(p.cursor, lines).rows
    ensures Run(p, lines).cursor == Scan(p.cursor, lines).cursor
    decreases |lines|
  {
    if lines == [] {
      assert p.rows + [] == p.rows;
    } else {
      var front, line := lines[..|lines| - 1], lines[|lines| - 1];
      RunKeepsRows(p, front);
      StepKeepsRows(Run(p, front), Scan(p.cursor, front), p.rows, Classify(line), line);
    }
  }

  /** Blank and "All Participants" lines change neither the state nor the
      output: deleting one from anywhere in the report changes nothing. */
  lemma SkipLineInvisible(p: Parsed, a: seq<string>, line: string, b: seq<string>)
    requires Classify(line).Skip?
    ensures Run(p, a + [line] + b) == Run(p, a + b)
  {
    RunAppend(p, a + [line], b);
    RunAppend(p, a, [line]);
    RunAppend(p, a, b);
    assert [line][..0] == [];
  }

  /** The cursor after a scan holds the most recent sample header and the
      most recent group header, each falling back to its starting value. */
  lemma {:induction false} RunCursor(p: Parsed, lines: seq<string>)
    ensures Run(p, lines).cursor ==
              Cursor(LastSample(p.cursor.sample, lines), LastGroup(p.cursor.group, lines))
    decreases |lines|
  {
    if lines != [] {
      RunCursor(p, lines[..|lines| - 1]);
    }
  }

  /** The row a line contributes: a data line read while a sample is active
      adds exactly one row, tagged with the most recent sample and group
      headers; any other line, and a data line before any sample header,
      adds none. */
  lemma RowOfLine(c: Cursor, a: seq<string>, line: string)
    ensures Scan(c, a + [line]).rows ==
              Scan(c, a).rows +
              (if Classify(line).Data? && LastSample(c.sample, a) != 0
               then [MakeRow(line, Cursor(LastSample(c.sample, a), LastGroup(c.group, a)))]
               else [])
  {
    var p := Parsed(c, []);
    RunAppend(p, a, [line]);
    RunCursor(p, a);
    assert [line][..0] == [];
  }

  /** One row per data line once a sample is active, never more than one per
      data line, and none before the first sample header. */
  lemma {:induction false} RowCount(p: Parsed, lines: seq<string>)
    ensures |Run(p, lines).rows| <= |p.rows| + DataLines(lines)
    ensures p.cursor.sample != 0 ==> Run(p, lines).cursor.sample != 0
    ensures p.cursor.sample != 0 ==> |Run(p, lines).rows| == |p.rows| + DataLines(lines)
    decreases |lines|
  {
    if lines != [] {
      RowCount(p, lines[..|lines| - 1]);
      HeaderValues(lines[|lines| - 1]);
    }
  }

  /** A row as the parser can emit it from a start in group `g0`: a sample
      number 1..10 and a group that is `g0` or one of the three labels the
      headers set. */
  predicate WellTagged(r: Row, g0: string)
  {
    1 <= r.sampleNumber <= 10 &&
    (r.group == g0 || IsHeaderLabel(r.group))
  }

  /** What a header can set: a sample in 1..10 or one of the three labels. */
  predicate KindInRange(kind: LineKind)
  {
    (kind.SampleHeader? ==> 1 <= kind.sample <= 10) &&
    (kind.GroupHeader? ==> IsHeaderLabel(kind.groupLabel))
  }

  /** A scan state reachable from a start in group `g0`: the cursor and
      every row are well tagged. */
  predicate TaggedState(q: Parsed, g0: string)
  {
    0 <= q.cursor.sample <= 10 &&
    (q.cursor.group == g0 || IsHeaderLabel(q.cursor.group)) &&
    forall i :: 0 <= i < |q.rows| ==> WellTagged(q.rows[i], g0)
  }

  /** A row appended to well-tagged rows keeps them well tagged. */
  lemma AppendTagged(rows: seq<Row>, row: Row, g0: string)
    requires forall i :: 0 <= i < |rows| ==> WellTagged(rows[i], g0)
    requires WellTagged(row, g0)
    ensures forall i :: 0 <= i < |rows + [row]| ==> WellTagged((rows + [row])[i], g0)
  {
  }

  /** One step on a line of an in-range kind keeps the state well tagged. */
  lemma StepOnTagged(q: Parsed, kind: LineKind, line: string, g0: string)
    requires TaggedState(q, g0) && KindInRange(kind)
    ensures TaggedState(StepOn(q, kind, line), g0)
  {
    if kind.Data? && q.cursor.sample != 0 {
      var row := MakeRow(line, q.cursor);
      assert row.sampleNumber == q.cursor.sample && row.group == q.cursor.group;
      AppendTagged(q.rows, row, g0);
    }
  }

  /** Every emitted row is well tagged; in particular, starting outside the
      "Reagent Group" label, no row is ever labelled "Reagent Group". */
  lemma {:induction false} RowsWellTagged(p: Parsed, lines: seq<string>)
    requires 0 <= p.cursor.sample <= 10
    requires forall i :: 0 <= i < |p.rows| ==> WellTagged(p.rows[i], p.cursor.group)
    ensures TaggedState(Run(p, lines), p.cursor.group)
    ensures p.cursor.group != "Reagent Group" ==>
              forall i :: 0 <= i < |Run(p, lines).rows| ==> Run(p, lines).rows[i].group != "Reagent Group"
    decreases |lines|
  {
    if lines != [] {
      var line := lines[|lines| - 1];
      RowsWellTagged(p, lines[..|lines| - 1]);
      HeaderValues(line);
      StepOnTagged(Run(p, lines[..|lines| - 1]), Classify(line), line, p.cursor.group);
    }
  }

  /** Cutting a sequence in two and gluing the halves back gives it back. */
  lemma Reassemble<T>(s: seq<T>, k: nat)
    requires k <= |s|
    ensures s[..k] + s[k..] == s
  {
  }

  /** Joining the first `k` words and keeping the rest loses nothing, and
      the kept words are still hyphen-free words. */
  lemma CutTokens(tokens: seq<string>, k: nat)
    requires k <= |tokens|
    requires forall i :: 0 <= i < |tokens| ==> IsWord(tokens[i]) && '-' !in tokens[i]
    ensures Split(Join(tokens[..k])) + tokens[k..] == tokens
    ensures forall i :: 0 <= i < |tokens[k..]| ==> IsWord(tokens[k..][i]) && '-' !in tokens[k..][i]
  {
    SplitJoin(tokens[..k]);
    Reassemble(tokens, k);
  }

  /** The name and field cut loses no token: splitting the name again and
      appending the fields gives back the tokens of the de-hyphenated line;
      the name has its words joined by single spaces; there are six fields whenever the line has six tokens, and no field
      holds a hyphen or whitespace. */
  lemma MakeRowTokens(line: string, c: Cursor)
    ensures var r := MakeRow(line, c);
            var tokens := Split(RemoveHyphens(line));
            && Split(r.instrument) + r.fields == tokens
            && |r.fields| == (if |tokens| >= 6 then 6 else |tokens|)
            && (forall i :: 0 <= i < |r.fields| ==> IsWord(r.fields[i]) && '-' !in r.fields[i])
            && SingleSpaced(r.instrument)
            && r.sampleNumber == c.sample && r.group == c.group
  {
    var clean := RemoveHyphens(line);
    var tokens := Split(clean);
    var k := if |tokens| >= 6 then |tokens| - 6 else 0;
    SplitAvoids(clean, '-');
    SplitWords(clean);
    CutTokens(tokens, k);
    JoinSingleSpaced(tokens[..k]);
    assert MakeRow(line, c) == Row(Join(tokens[..k]), c.sample, c.group, tokens[k..]);
  }

  /** `FirstSet(keys, flags, none)`: the dictionary search of `get_in_sample`
      and `get_in_group` — the first key, in insertion order, whose flag is
      set, or `none`. */
  function FirstSet<K>(keys: seq<K>, flags: map<K, bool>, none: K): (r: K)
    requires forall k :: k in keys ==> k in flags
    ensures r == none || (r in flags && flags[r])
  {
    if keys == [] then none
    else if flags[keys[0]] then keys[0]
    else FirstSet(keys[1..], flags, none)
  }

  /** The search finds the first set flag: if key `i` is set and no key before
      it is, the search returns key `i`. */
  lemma {:induction false} FirstSetIs<K>(keys: seq<K>, flags: map<K, bool>, none: K, i: int)
    requires forall k :: k in keys ==> k in flags
    requires 0 <= i < |keys| && flags[keys[i]]
    requires forall j :: 0 <= j < i ==> !flags[keys[j]]
    ensures FirstSet(keys, flags, none) == keys[i]
    decreases i
  {
    if i > 0 {
      FirstSetIs(keys[1..], flags, none, i - 1);
    }
  }

  /** With no flag set the search returns `none`. */
  lemma {:induction false} FirstSetNone<K>(keys: seq<K>, flags: map<K, bool>, none: K)
    requires forall k :: k in keys ==> k in flags
    requires forall j :: 0 <= j < |keys| ==> !flags[keys[j]]
    ensures FirstSet(keys, flags, none) == none
    decreases |keys|
  {
    if keys != [] {
      FirstSetNone(keys[1..], flags, none);
    }
  }

  /** A Python dict of flags: its keys in insertion order, without repeats,
      and their values. */
  ghost predicate IsOrderedDict<K(!new)>(keys: seq<K>, flags: map<K, bool>)
  {
    (forall i, j :: 0 <= i < j < |keys| ==> keys[i] != keys[j]) &&
    (forall i :: 0 <= i < |keys| ==> keys[i] in flags) &&
    (forall k :: k in flags ==> k in keys)
  }

  /** The keys of a dict after `d[k] = v`: a new key goes to the end. */
  function KeysAfterSet<K>(keys: seq<K>, flags: map<K, bool>, k: K): seq<K>
  {
    if k in flags then keys else keys + [k]
  }

  /** `d[k] = v` keeps a dict well formed. */
  lemma SetKey<K(!new)>(keys: seq<K>, flags: map<K, bool>, k: K, v: bool)
    requires IsOrderedDict(keys, flags)
    ensures IsOrderedDict(KeysAfterSet(keys, flags, k), flags[k := v])
  {
  }

  /** A dict whose keys are exactly 1..10 has no other key. */
  lemma TenKeys(keys: seq<int>, flags: map<int, bool>)
    requires IsOrderedDict(keys, flags)
    requires |keys| == 10 && forall i :: 0 <= i < 10 ==> keys[i] == i + 1
    ensures forall k :: k in flags ==> 1 <= k <= 10
  {
    forall k | k in flags ensures 1 <= k <= 10 {
      var i :| 0 <= i < |keys| && keys[i] == k;
    }
  }

  /** The sample flags part-way through the clearing loop of `set_in_sample`:
      the flags of samples 1 .. i-1 other than `s` cleared. */
  function ClearedBelow(m: map<int, bool>, s: int, i: int): map<int, bool>
  {
    map k | k in m :: if 1 <= k < i && k != s then false else m[k]
  }

  lemma ClearedBelowStep(m: map<int, bool>, s: int, i: int)
    requires 1 <= i && i in m
    ensures i != s ==> ClearedBelow(m, s, i)[i := false] == ClearedBelow(m, s, i + 1)
    ensures i == s ==> ClearedBelow(m, s, i) == ClearedBelow(m, s, i + 1)
  {
    if i != s {
      var l, r := ClearedBelow(m, s, i)[i := false], ClearedBelow(m, s, i + 1);
      assert l.Keys == r.Keys;
      assert forall k :: k in l ==> l[k] == r[k];
    }
  }

  /** The dict `in_sample_dict` is well formed and begins with the keys
      1..10, each present. */
  ghost predicate SampleDict(keys: seq<int>, flags: map<int, bool>)
  {
    IsOrderedDict(keys, flags) &&
    |keys| >= 10 && (forall i :: 0 <= i < 10 ==> keys[i] == i + 1) &&
    (forall s :: 1 <= s <= 10 ==> s in flags)
  }

  /** The dict `in_group_dict` is well formed and begins with the four
      labels, in the constructor's order. */
  ghost predicate GroupDict(keys: seq<string>, flags: map<string, bool>)
  {
    IsOrderedDict(keys, flags) &&
    |keys| >= 4 && keys[0] == "Peer Group" && keys[1] == "Instrument Group" &&
    keys[2] == "Method Group" && keys[3] == "Reagent Group"
  }

  /** What `set_in_sample(sample)` leaves in the dict: `sample` set, every
      other sample 1..10 cleared, every other key untouched, and
      `get_in_sample` answering `sample` when it is one of 1..10. */
  lemma {:induction false} SetInSampleResult(keys: seq<int>, flags: map<int, bool>, sample: int)
    requires SampleDict(keys, flags)
    ensures var keys', flags' := KeysAfterSet(keys, flags, sample), ClearedBelow(flags[sample := true], sample, 11);
      && SampleDict(keys', flags')
      && flags'.Keys == flags.Keys + {sample}
      && flags'[sample]
      && (forall i :: 1 <= i <= 10 && i != sample ==> !flags'[i])
      && (forall k :: k in flags && k != sample && !(1 <= k <= 10) ==> flags'[k] == flags[k])
      && (1 <= sample <= 10 ==> FirstSet(keys', flags', 0) == sample)
      && (|keys| == 10 && 1 <= sample <= 10 ==> forall k :: k in flags' ==> (flags'[k] <==> k == sample))
  {
    var keys', flags' := KeysAfterSet(keys, flags, sample), ClearedBelow(flags[sample := true], sample, 11);
    SetKey(keys, flags, sample, true);
    assert IsOrderedDict(keys', flags');
    if 1 <= sample <= 10 {
      assert keys' == keys;
      FirstSetIs(keys', flags', 0, sample - 1);
      if |keys| == 10 {
        TenKeys(keys', flags');
      }
    }
  }

  /** The group flags part-way through the clearing loop of `set_in_group`:
      the flags of the first `i` keys other than `g` cleared. */
  function ClearedAlong(m: map<string, bool>, keys: seq<string>, g: string, i: int): map<string, bool>
    requires 0 <= i <= |keys|
  {
    map k | k in m :: if k in keys[..i] && k != g then false else m[k]
  }

  lemma ClearedAlongStep(m: map<string, bool>, keys: seq<string>, g: string, i: int)
    requires 0 <= i < |keys| && keys[i] in m
    ensures keys[i] != g ==> ClearedAlong(m, keys, g, i)[keys[i] := false] == ClearedAlong(m, keys, g, i + 1)
    ensures keys[i] == g ==> ClearedAlong(m, keys, g, i) == ClearedAlong(m, keys, g, i + 1)
  {
    assert keys[..i + 1] == keys[..i] + [keys[i]];
  }

  /** What `set_in_group(group)` leaves in the dict: `group` is the one set
      flag, and `get_in_group` answers `group`. */
  lemma {:induction false} SetInGroupResult(keys: seq<string>, flags: map<string, bool>, group: string)
    requires GroupDict(keys, flags)
    ensures var keys' := KeysAfterSet(keys, flags, group);
            var flags' := ClearedAlong(flags[group := true], keys', group, |keys'|);
      && GroupDict(keys', flags')
      && flags'.Keys == flags.Keys + {group}
      && (forall k :: k in flags' ==> (flags'[k] <==> k == group))
      && FirstSet(keys', flags', NoGroup) == group
  {
    var keys' := KeysAfterSet(keys, flags, group);
    var flags' := ClearedAlong(flags[group := true], keys', group, |keys'|);
    SetKey(keys, flags, group, true);
    assert keys'[..|keys'|] == keys';
    assert IsOrderedDict(keys', flags');
    assert group in keys';
    var g :| 0 <= g < |keys'| && keys'[g] == group;
    FirstSetIs(keys', flags', NoGroup, g);
  }

  /** The first loop of `__init__`: the samples 1..10 as keys, in order,
      every flag cleared. */
  method NewSampleDict() returns (keys: seq<int>, flags: map<int, bool>)
    ensures SampleDict(keys, flags) && |keys| == 10
    ensures forall k :: k in flags ==> !flags[k]
  {
    keys, flags := [], map[];
    for sample := 1 to 11
      invariant |keys| == sample - 1
      invariant forall i :: 0 <= i < |keys| ==> keys[i] == i + 1
      invariant forall k :: k in flags <==> 1 <= k < sample
      invariant forall k :: k in flags ==> !flags[k]
    {
      keys, flags := keys + [sample], flags[sample := false];
    }
    forall k | k in flags ensures k in keys {
      assert keys[k - 1] == k;
    }
  }

  /** The second loop of `__init__`: the four group labels as keys, in
      order, every flag cleared. */
  method NewGroupDict() returns (keys: seq<string>, flags: map<string, bool>)
    ensures GroupDict(keys, flags) && keys == GroupLabels
    ensures forall k :: k in flags ==> !flags[k]
  {
    keys, flags := [], map[];
    for i := 0 to |GroupLabels|
      invariant keys == GroupLabels[..i]
      invariant forall k :: k in flags <==> k in keys
      invariant forall k :: k in flags ==> !flags[k]
    {
      keys, flags := keys + [GroupLabels[i]], flags[GroupLabels[i] := false];
    }
  }

  /** The parser object: `in_sample_dict`, `in_group_dict` and the rows
      `load_reference_data` produced (the content of `reference_df`). */
  class ReferenceData {
    var sampleKeys: seq<int>
    var sampleFlags: map<int, bool>
    var groupKeys: seq<string>
    var groupFlags: map<string, bool>
    var referenceRows: seq<Row>

    /** Both dictionaries are well formed and still begin with the keys the
        constructor put in them, in that order. */
    ghost predicate Valid()
      reads this
    {
      SampleDict(sampleKeys, sampleFlags) && GroupDict(groupKeys, groupFlags)
    }

    /** The dictionaries hold exactly the constructor's keys. */
    ghost predicate StandardKeys()
      reads this
    {
      |sampleKeys| == 10 && |groupKeys| == 4
    }

    /** At most one sample flag is set. */
    ghost predicate SampleFlagsExclusive()
      reads this
    {
      forall a, b :: a in sampleFlags && b in sampleFlags && sampleFlags[a] && sampleFlags[b] ==> a == b
    }

    /** At most one group flag is set. */
    ghost predicate GroupFlagsExclusive()
      reads this
    {
      forall a, b :: a in groupFlags && b in groupFlags && groupFlags[a] && groupFlags[b] ==> a == b
    }

    /** What `get_in_sample` returns. */
    function ActiveSample(): int
      reads this
      requires Valid()
    {
      FirstSet(sampleKeys, sampleFlags, 0)
    }

    /** What `get_in_group` returns. */
    function ActiveGroup(): string
      reads this
      requires Valid()
    {
      FirstSet(groupKeys, groupFlags, NoGroup)
    }

    function CurrentCursor(): Cursor
      reads this
      requires Valid()
    {
      Cursor(ActiveSample(), ActiveGroup())
    }

    /** `ReferenceData.__init__` with the report's lines in place of its path:
        both dictionaries filled with cleared flags in the source's key order,
        then the report parsed from no sample and no group. */
    constructor (lines: seq<string>)
      ensures Valid() && StandardKeys()
      ensures SampleFlagsExclusive() && GroupFlagsExclusive()
      ensures referenceRows == Scan(Cursor(0, NoGroup), lines).rows
      ensures CurrentCursor() == Scan(Cursor(0, NoGroup), lines).cursor
    {
      var keys, flags := NewSampleDict();
      var labels, marks := NewGroupDict();
      sampleKeys, sampleFlags := keys, flags;
      groupKeys, groupFlags := labels, marks;
      referenceRows := [];
      new;
      FirstSetNone(sampleKeys, sampleFlags, 0);
      FirstSetNone(groupKeys, groupFlags, NoGroup);
      referenceRows := LoadReferenceData(lines);
    }

    /** `set_in_sample`: set the flag of `sample` (adding the key if it is
        new) and clear the flags of every other sample 1..10. */
    method SetInSample(sample: int)
      requires Valid()
      modifies this
      ensures Valid()
      ensures sampleKeys == KeysAfterSet(old(sampleKeys), old(sampleFlags), sample)
      ensures sampleFlags.Keys == old(sampleFlags).Keys + {sample}
      ensures sampleFlags[sample]
      ensures forall i :: 1 <= i <= 10 && i != sample ==> !sampleFlags[i]
      ensures forall k :: k in old(sampleFlags) && k != sample && !(1 <= k <= 10) ==>
                sampleFlags[k] == old(sampleFlags)[k]
      ensures 1 <= sample <= 10 ==> ActiveSample() == sample
      ensures old(|sampleKeys|) == 10 && 1 <= sample <= 10 ==>
                forall k :: k in sampleFlags ==> (sampleFlags[k] <==> k == sample)
      ensures groupKeys == old(groupKeys) && groupFlags == old(groupFlags)
      ensures referenceRows == old(referenceRows)
    {
      SetInSampleResult(sampleKeys, sampleFlags, sample);
      sampleKeys, sampleFlags := KeysAfterSet(sampleKeys, sampleFlags, sample), sampleFlags[sample := true];
      ghost var marked := sampleFlags;
      for i := 1 to 11
        invariant sampleKeys == KeysAfterSet(old(sampleKeys), old(sampleFlags), sample)
        invariant groupKeys == old(groupKeys) && groupFlags == old(groupFlags)
        invariant referenceRows == old(referenceRows)
        invariant sampleFlags == ClearedBelow(marked, sample, i)
      {
        ClearedBelowStep(marked, sample, i);
        if i != sample {
          sampleFlags := sampleFlags[i := false];
        }
      }
    }

    /** `get_in_sample`: the first sample, in key order, whose flag is set,
        or 0 when none is. */
    method GetInSample() returns (sample: int)
      requires Valid()
      ensures sample == ActiveSample()
      ensures sample == 0 || (sample in sampleFlags && sampleFlags[sample])
    {
      var i := 0;
      while i < |sampleKeys|
        invariant 0 <= i <= |sampleKeys|
        invariant FirstSet(sampleKeys, sampleFlags, 0) == FirstSet(sampleKeys[i..], sampleFlags, 0)
      {
        assert sampleKeys[i..][1..] == sampleKeys[i + 1..];
        if sampleFlags[sampleKeys[i]] {
          return sampleKeys[i];
        }
        i := i + 1;
      }
      return 0;
    }

    /** `set_in_group`: set the flag of `group` (adding the key if it is new)
        and clear the flag of every other key. */
    method SetInGroup(group: string)
      requires Valid()
      modifies this
      ensures Valid()
      ensures groupKeys == KeysAfterSet(old(groupKeys), old(groupFlags), group)
      ensures groupFlags.Keys == old(groupFlags).Keys + {group}
      ensures forall k :: k in groupFlags ==> (groupFlags[k] <==> k == group)
      ensures ActiveGroup() == group
      ensures sampleKeys == old(sampleKeys) && sampleFlags == old(sampleFlags)
      ensures referenceRows == old(referenceRows)
    {
      SetInGroupResult(groupKeys, groupFlags, group);
      SetKey(groupKeys, groupFlags, group, true);
      groupKeys, groupFlags := KeysAfterSet(groupKeys, groupFlags, group), groupFlags[group := true];
      ghost var marked := groupFlags;
      var i := 0;
      while i < |groupKeys|
        invariant 0 <= i <= |groupKeys|
        invariant groupKeys == KeysAfterSet(old(groupKeys), old(groupFlags), group)
        invariant sampleKeys == old(sampleKeys) && sampleFlags == old(sampleFlags)
        invariant referenceRows == old(referenceRows)
        invariant groupFlags == ClearedAlong(marked, groupKeys, group, i)
      {
        ClearedAlongStep(marked, groupKeys, group, i);
        if groupKeys[i] != group {
          groupFlags := groupFlags[groupKeys[i] := false];
        }
        i := i + 1;
      }
    }

    /** `get_in_group`: the first group, in key order, whose flag is set, or
        "No Group Found" when none is. */
    method GetInGroup() returns (group: string)
      requires Valid()
      ensures group == ActiveGroup()
      ensures group == NoGroup || (group in groupFlags && groupFlags[group])
    {
      var i := 0;
      while i < |groupKeys|
        invariant 0 <= i <= |groupKeys|
        invariant FirstSet(groupKeys, groupFlags, NoGroup) == FirstSet(groupKeys[i..], groupFlags, NoGroup)
      {
        assert groupKeys[i..][1..] == groupKeys[i + 1..];
        if groupFlags[groupKeys[i]] {
          return groupKeys[i];
        }
        i := i + 1;
      }
      return NoGroup;
    }

    /** The line loop of `load_reference_data`, over lines already read from
        the file: the rows are exactly those of the specification scan from
        the current flags, the flags end where that scan's cursor ends, and
        the exclusivity of the flags is kept. */
    method LoadReferenceData(lines: seq<string>) returns (rows: seq<Row>)
      requires Valid()
      modifies this
      ensures Valid()
      ensures rows == Scan(old(CurrentCursor()), lines).rows
      ensures CurrentCursor() == Scan(old(CurrentCursor()), lines).cursor
      ensures sampleKeys == old(sampleKeys) && groupKeys == old(groupKeys)
      ensures old(|sampleKeys|) == 10 && old(SampleFlagsExclusive()) ==> SampleFlagsExclusive()
      ensures old(GroupFlagsExclusive()) ==> GroupFlagsExclusive()
      ensures referenceRows == old(referenceRows)
    {
      ghost var start := Parsed(CurrentCursor(), []);
      rows := [];
      for i := 0 to |lines|
        invariant Valid()
        invariant Run(start, lines[..i]) == Parsed(CurrentCursor(), rows)
        invariant sampleKeys == old(sampleKeys) && groupKeys == old(groupKeys)
        invariant old(|sampleKeys|) == 10 && old(SampleFlagsExclusive()) ==> SampleFlagsExclusive()
        invariant old(GroupFlagsExclusive()) ==> GroupFlagsExclusive()
        invariant referenceRows == old(referenceRows)
      {
        var line := lines[i];
        assert lines[..i + 1][..i] == lines[..i];
        HeaderValues(line);
        match Classify(line) {
          case SampleHeader(n) =>
            assert sampleKeys[n - 1] == n;
            SetInSample(n);
          case GroupHeader(g) =>
            assert g == groupKeys[0] || g == groupKeys[1] || g == groupKeys[2];
            SetInGroup(g);
          case Skip =>
          case Data =>
            var sampleNum := GetInSample();
            if sampleNum != 0 {
              var group := GetInGroup();
              rows := rows + [MakeRow(line, Cursor(sampleNum, group))];
            }
        }
      }
      assert lines[..|lines|] == lines;
    }
  }
}
