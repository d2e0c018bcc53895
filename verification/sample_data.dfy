/** The sample loader of `SampleData` (reference_match.py, lines 309-338):
    the measured concentrations, one per line, numbered 1..N in file order.
    The values arrive already converted to numbers. */
module SampleData {

  /** The sample dict of a list of values: value `i` (counting from 1) under key `i`. */
  function Numbered(values: seq<real>): (m: map<int, real>)
    ensures forall i :: i in m <==> 1 <= i <= |values|
    ensures forall i :: 1 <= i <= |values| ==> m[i] == values[i - 1]
  {
    if values == [] then map[]
    else Numbered(values[..|values| - 1])[|values| := values[|values| - 1]]
  }

  /** `load_sample_data`: a counter starting at 1 numbers the values in
      file order. */
  method LoadSampleData(values: seq<real>) returns (samples: map<int, real>)
    ensures samples == Numbered(values)
  {
    samples := map[];
    var i := 1;
    for k := 0 to |values|
      invariant i == k + 1
      invariant samples == Numbered(values[..k])
    {
      assert values[..k + 1][..k] == values[..k];
      samples := samples[i := values[k]];
      i := i + 1;
    }
    assert values[..|values|] == values;
  }

  /** The sample values read back in ascending key order 1..n. */
  function InKeyOrder(m: map<int, real>, n: nat): (s: seq<real>)
    requires forall i :: 1 <= i <= n ==> i in m
    ensures |s| == n
  {
    if n == 0 then [] else InKeyOrder(m, n - 1) + [m[n]]
  }

  /** Numbering loses nothing: reading the dict back in key order gives the
      values in file order. */
  lemma {:induction false} NumberingRoundTrip(values: seq<real>)
    ensures InKeyOrder(Numbered(values), |values|) == values
    decreases |values|
  {
    if values != [] {
      var front := values[..|values| - 1];
      NumberingRoundTrip(front);
      PrefixAgrees(Numbered(values), Numbered(front), |front|);
      assert values == front + [values[|values| - 1]];
    }
  }

  /** Two dicts that agree on 1..n read back the same. */
  lemma {:induction false} PrefixAgrees(m: map<int, real>, m': map<int, real>, n: nat)
    requires forall i :: 1 <= i <= n ==> i in m && i in m' && m[i] == m'[i]
    ensures InKeyOrder(m, n) == InKeyOrder(m', n)
    decreases n
  {
    if n > 0 {
      PrefixAgrees(m, m', n - 1);
    }
  }
}
