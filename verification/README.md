# Reference match: a Dafny model

`reference_match.py` matches a laboratory's measured concentrations for ten
proficiency-test samples (IA-01 .. IA-10) against a published reference
report, and names the instrument whose reference values the measurements
agree with best.

The model covers three parts of it:

- **The report parser** (`ReferenceData`, module `ReferenceParsing` in
  `reference_data.dfy`). The parser walks the report line by line. Two
  ordered flag dictionaries, `in_sample_dict` and `in_group_dict`, record
  which sample section and which group section is being read.
  - Sample and group header lines switch the flags.
  - Blank and "All Participants" lines are skipped.
  - Every other line is a data line. It becomes a row tagged with the active
    sample and group.

  The model follows the code where a "Reagent Groups" header selects the
  label "Method Group". So the "Reagent Group" key is never set, although
  the loader's docstring lists "Reagent Group" among the group values.

  A data line read before any group header is tagged with "No Group
  Found", the fallback of `get_in_group`, as the code does; the loader's
  docstring lists only the four group labels as values of "Group".

  The class keeps the dictionaries as fields (the keys in insertion order
  plus a map of flags), and its methods update them in place. A pure
  specification of the scan (`Classify`, `Step`, `Run`, `Scan`) states
  what the loop computes, and lemmas about the scan state what the parser
  promises.
- **The counting matchers** (`DataComparison.find_most_within_bounds`,
  `find_most_within_percent` and `count_within_bounds`, module
  `DataComparison` in `data_comparison.dfy`). For each instrument, in order
  of first appearance, the matcher counts the rows whose sample value passes
  a test. It keeps the first instrument with the largest count, starting
  from the sentinel `(None, -1)`. `Score` and `IsBestMatch` specify this,
  and the nested loop in `FindMost` is proved to meet them.
- **The sample numbering** (`SampleData.load_sample_data`, module
  `SampleData` in `sample_data.dfy`). Values are numbered 1..N in file
  order.

`text.dfy` (module `Text`) defines the Python string operations the parser
relies on: substring `in`, `strip() == ""`, `replace("-", "")`, `split()`
and `" ".join`, with Python's set of whitespace characters. `option.dfy`
defines `Option`. In a numeric column, `None` stands for the NaN that
`pd.to_numeric(errors='coerce')` leaves behind.

## Model

| member | source | states |
|---|---|---|
| Text.ContainsAt | reference_match.py:245-273 | the substring test used for every marker holds exactly when the marker occurs at some index of the line |
| Text.RemoveHyphens | reference_match.py:281 | the result has no hyphen, keeps every other character with its multiplicity, and a line without hyphens is unchanged |
| Text.RemoveHyphensAppend | reference_match.py:281 | removing hyphens keeps the order of what it keeps: the result for a concatenation is the result for each piece in turn, and a single character is dropped exactly when it is a hyphen |
| Text.JoinSingleSpaced | reference_match.py:283 | joining words with `" ".join` gives a name with no whitespace at either end and only single spaces between non-whitespace characters; it is empty only for no words |
| Text.SplitWords | reference_match.py:282 | every token of `split()` is non-empty and free of whitespace |
| Text.SplitAvoids | reference_match.py:281-282 | a character absent from the line is absent from every token, so no token of a de-hyphenated line holds a hyphen |
| Text.SplitJoin | reference_match.py:282-283 | splitting the space-joined words gives the words back |
| ReferenceParsing.HeaderValues | reference_match.py:245-272 | a sample header selects a sample in 1..10; a group header selects "Peer Group", "Instrument Group" or "Method Group"; a "Reagent Groups" line that no earlier test matches selects "Method Group" |
| ReferenceParsing.RunAppend | reference_match.py:244-287 | the loop over two pieces of the report in turn gives the same result as the loop over their concatenation |
| ReferenceParsing.RunKeepsRows | reference_match.py:242-287 | the loop only appends rows; the rows already present stay in front, and the cursor does not depend on them |
| ReferenceParsing.SkipLineInvisible | reference_match.py:273-274 | deleting a blank or "All Participants" line from anywhere in the report changes neither the rows nor the final flags |
| ReferenceParsing.RunCursor | reference_match.py:245-272 | after the loop, the active sample and group are those of the most recent sample header and the most recent group header, or the starting ones when there is none |
| ReferenceParsing.RowOfLine | reference_match.py:275-287 | a data line read while a sample is active adds exactly one row, tagged with the most recent sample and group; any other line, and a data line before the first sample header, adds none |
| ReferenceParsing.RowCount | reference_match.py:275-287 | at most one row per data line; exactly one per data line once a sample is active, and a sample stays active from then on |
| ReferenceParsing.RowsWellTagged | reference_match.py:265-272 | every row has a sample number in 1..10 and a group that is one of the three header labels or the starting group; when the starting group is not "Reagent Group", no row is ever labelled "Reagent Group" |
| ReferenceParsing.MakeRowTokens | reference_match.py:280-286 | the name cut and the field cut lose no token; the name is single-spaced; there are six fields when the line has at least six tokens (fewer otherwise); fields are whitespace- and hyphen-free; the row carries the given sample and group |
| ReferenceParsing.FirstSet | reference_match.py:183-187 | the dictionary search returns a key whose flag is set, or the fallback |
| ReferenceParsing.FirstSetIs | reference_match.py:208-212 | the search returns the first key, in insertion order, whose flag is set |
| ReferenceParsing.FirstSetNone | reference_match.py:187 | with no flag set, the search returns the fallback (0, or "No Group Found") |
| ReferenceParsing.SetKey | reference_match.py:171 | assigning a key keeps the dictionary well formed; a new key goes to the end of the insertion order |
| ReferenceParsing.SetInSampleResult | reference_match.py:164-174 | after `set_in_sample(s)`: `s` is set, samples 1..10 other than `s` are cleared, other keys are untouched, `get_in_sample` answers `s` for `s` in 1..10, and `s` is the only set flag when the keys are exactly 1..10 |
| ReferenceParsing.SetInGroupResult | reference_match.py:189-199 | after `set_in_group(g)`: `g` is the only set flag and `get_in_group` answers `g` |
| ReferenceParsing.NewSampleDict | reference_match.py:152-154 | builds the sample dictionary: keys 1..10 in order, every flag cleared |
| ReferenceParsing.NewGroupDict | reference_match.py:157-159 | builds the group dictionary: "Peer Group", "Instrument Group", "Method Group" and "Reagent Group" in order, every flag cleared |
| ReferenceParsing.ReferenceData.constructor | reference_match.py:150-162 | the dictionaries hold the keys 1..10 and the four group labels in order, all cleared; the rows are those of the scan from no sample and "No Group Found" |
| ReferenceParsing.ReferenceData.SetInSample | reference_match.py:164-174 | updates in place to the state described by SetInSampleResult, leaving the group flags and the rows alone |
| ReferenceParsing.ReferenceData.GetInSample | reference_match.py:176-187 | returns the first set sample in key order, or 0 |
| ReferenceParsing.ReferenceData.SetInGroup | reference_match.py:189-199 | updates in place so that `g` is the only set group flag and the active group, leaving the sample flags and the rows alone |
| ReferenceParsing.ReferenceData.GetInGroup | reference_match.py:201-212 | returns the first set group in key order, or "No Group Found" |
| ReferenceParsing.ReferenceData.LoadReferenceData | reference_match.py:242-287 | the rows are exactly those of the specification scan from the current flags, the flags end where the scan's cursor ends, the key orders are unchanged, and at most one sample and one group flag stay set |
| DataComparison.RecordOfLine | reference_match.py:280-302 | the table row of a data line carries the line's sample and group; its six numeric columns are the coerced last six tokens in order, so Mean is the fifth token from the end and Low Range and High Range the third and second; the name re-splits into the tokens before them; a line of fewer than six tokens has an empty name, fills the first columns and leaves the rest missing |
| DataComparison.Instruments | reference_match.py:79 | each instrument appears once, every row's instrument appears, each listed instrument has a row, and the list is empty only for an empty table |
| DataComparison.InstrumentsFirstSeen | reference_match.py:79 | instruments are listed in order of first appearance |
| DataComparison.CountPassing | reference_match.py:87-94 | the inner loop's count equals the number of the instrument's rows whose sample value exists and passes |
| DataComparison.FindMost | reference_match.py:83-98 | the result is the first instrument with the largest count, together with that count; `(None, -1)` exactly for an empty table |
| DataComparison.FindMostWithinBounds | reference_match.py:79-100 | the same result for the inclusive range test `Low Range <= v <= High Range`, with missing bounds failing |
| DataComparison.FindMostWithinPercent | reference_match.py:118-140 | the same result for the test `abs((v - Mean) / Mean) <= percent / 100`, with a missing or zero mean failing |
| DataComparison.BestMatchUnique | reference_match.py:96-98 | the result is fully determined: the strict comparison settles every tie in favour of the earlier instrument |
| DataComparison.ScorePercentMonotone | reference_match.py:131-134 | raising the percent never lowers an instrument's count |
| DataComparison.BestPercentMonotone | reference_match.py:118-140 | raising the percent never lowers the best count |
| DataComparison.NonZeroMeans | reference_match.py:132 | the filtered table has no row with a zero mean |
| DataComparison.NonZeroMeansKeeps | reference_match.py:132 | the filter drops the zero-mean rows and nothing else: every other row stays, as often as it occurs |
| DataComparison.ZeroMeanRowsIgnored | reference_match.py:131-134 | dropping every row with a zero mean leaves each instrument's percent count unchanged |
| DataComparison.CountWithinBounds | reference_match.py:61-65 | the count is at most the length of each list |
| DataComparison.CountWithinBoundsAll | reference_match.py:61-65 | for lists of any lengths, the count equals the number of zipped triples (the length of the shortest list) exactly when every triple is within its bounds |
| DataComparison.PercentRowAsWritten | reference_match.py:129-134 | as written, a present sample value with a zero mean raises ZeroDivisionError; in every other case the row is counted exactly when it passes the percent test |
| DataComparison.ZeroMeanRaisesAsWritten | reference_match.py:131-134 | a one-row table with a zero mean raises as written, while its intended count is 0 |
| DataComparison.ExampleWithinRange | reference_match.py:79-100 | with ranges [8, 12] and [18, 22] and samples 9 and 25, the answer is ("A", 1) |
| DataComparison.ExampleOnBounds | reference_match.py:93 | sample values equal to the low bound and to the high bound both count |
| DataComparison.ExampleWithinPercent | reference_match.py:118-140 | with means 10 and 20 and samples 12 and 20, the answer at 30 percent is ("A", 2) |
| SampleData.Numbered | reference_match.py:330-335 | the keys are exactly 1..N, and key `i` holds the `i`-th value |
| SampleData.LoadSampleData | reference_match.py:322-335 | the counter loop builds exactly that numbered dictionary |
| SampleData.NumberingRoundTrip | reference_match.py:330-335 | reading the dictionary back in key order gives the values in file order |

## Left out

- `find_closest_euclidean_distance` (reference_match.py:26-59) is not modelled. It relies on pandas `pivot_table` (mean aggregation, an alphabetically sorted index, `dropna`) and on floating-point square roots.
- File I/O is not modelled: `open`/`readlines` in both loaders and the path handling and printing in `main`. The report and the sample file arrive as sequences of lines or values.
- The error message printed for a data line before the first sample header is not modelled. The model keeps the behaviour: the line adds no row.
- Number parsing is not modelled. `float(line.strip())` in the sample loader is replaced by values that are already numbers. `pd.to_numeric(errors='coerce')` becomes a function parameter of `DataComparison.ToRecord` that returns `None` for what it cannot convert.
- Building the DataFrame (reference_match.py:289-302) is modelled only as `DataComparison.ToRecord`, row by row (`DataComparison.RecordOfLine`): a short row gets missing values in the columns it does not reach. pandas itself rejects the column assignment when no row has nine entries, including the case of no rows at all. The model does not represent that failure.
- `get_reference_df`, `get_instrument_values` and `get_sample_values_dict` are not modelled. They only return copies or filtered views.
- Real numbers are exact in the model. Floating-point rounding in `(v - Mean) / Mean` and `percent / 100` is not modelled, so a value that lies on the percent boundary within rounding error may be counted differently.

## Findings

| source | as written | input that shows it | evidently intended | confidence | as-written member | corrected member |
|---|---|---|---|---|---|---|
| reference_match.py:132 | `(value - row["Mean"]) / row["Mean"]` divides by the mean. The row comes out of `iterrows` on a frame with text columns, so its numbers are Python floats, and a zero mean raises ZeroDivisionError. That aborts `find_most_within_percent` as a whole. | a reference row with Mean 0 whose sample number has a value, e.g. instrument "A", sample 1, Mean 0, sample value 5, percent 30 | a row with a zero mean is not counted, like a row with a missing mean, and the search goes on | medium, not executed (it depends on pandas yielding Python floats rather than NumPy scalars from `iterrows`) | DataComparison.PercentRowAsWritten | DataComparison.ZeroMeanRowsIgnored |
