/** The Python string operations the report parser relies on: substring
    membership (`p in s`), `s.strip() == ""`, `s.replace("-", "")`,
    `s.split()` with no separator, and `" ".join(tokens)`. */
module Text {

  /** The code points Python's `str.isspace` accepts, as inclusive ranges:
      the ASCII controls tab to carriage return, the separators 0x1C-0x1F,
      space, and the Unicode spaces and line and paragraph separators. */
  const SpaceRanges: seq<(int, int)> :=
    [(0x09, 0x0D), (0x1C, 0x20), (0x85, 0x85), (0xA0, 0xA0), (0x1680, 0x1680),
     (0x2000, 0x200A), (0x2028, 0x2029), (0x202F, 0x202F), (0x205F, 0x205F), (0x3000, 0x3000)]

  /** `x` lies in one of the ranges. */
  predicate InRanges(x: int, ranges: seq<(int, int)>)
  {
    ranges != [] && (ranges[0].0 <= x <= ranges[0].1 || InRanges(x, ranges[1..]))
  }

  /** Python's `str.isspace` for one character: the set `str.split()` and
      `str.strip()` treat as whitespace. */
  predicate IsSpace(c: char)
  {
    InRanges(c as int, SpaceRanges)
  }

  /** The space that `" ".join` puts between tokens is whitespace. */
  lemma SpaceIsSpace()
    ensures IsSpace(' ')
  {
    assert SpaceRanges[1..][0] == (0x1C, 0x20);
  }

  /** A token of `str.split()`: non-empty and free of whitespace. */
  predicate IsWord(w: string)
  {
    w != [] && forall i :: 0 <= i < |w| ==> !IsSpace(w[i])
  }

  /** `p in s` for strings: `p` occurs as a contiguous piece of `s`. */
  predicate Contains(s: string, p: string)
    decreases |s|
  {
    p <= s || (s != [] && Contains(s[1..], p))
  }

  /** `p` occurs in `s` starting at index `i`. */
  predicate OccursAt(s: string, p: string, i: int)
  {
    0 <= i <= |s| - |p| && s[i..i + |p|] == p
  }

  /** A copy of `p` in `s` makes `Contains` hold. */
  lemma {:induction false} OccursContains(s: string, p: string, i: int)
    requires OccursAt(s, p, i)
    ensures Contains(s, p)
    decreases i
  {
    if i > 0 {
      assert OccursAt(s[1..], p, i - 1) by {
        assert s[1..][i - 1..i - 1 + |p|] == s[i..i + |p|];
      }
      OccursContains(s[1..], p, i - 1);
    } else {
      assert s[..|p|] == p;
    }
  }

  /** `Contains` holds only where `s` has a copy of `p`. */
  lemma {:induction false} ContainsOccurs(s: string, p: string) returns (i: int)
    requires Contains(s, p)
    ensures OccursAt(s, p, i)
    decreases |s|
  {
    if p <= s {
      assert s[..|p|] == p;
      i := 0;
    } else {
      var j := ContainsOccurs(s[1..], p);
      assert s[1..][j..j + |p|] == s[j + 1..j + 1 + |p|];
      i := j + 1;
    }
  }

  /** `Contains` is substring membership: some index of `s` starts a copy of `p`. */
  lemma ContainsAt(s: string, p: string)
    ensures Contains(s, p) <==> exists i :: OccursAt(s, p, i)
  {
    if Contains(s, p) {
      var i := ContainsOccurs(s, p);
    }
    if exists i :: OccursAt(s, p, i) {
      var i :| OccursAt(s, p, i);
      OccursContains(s, p, i);
    }
  }

  /** `s.strip() == ""`: every character of `s` is whitespace. */
  predicate IsBlank(s: string)
  {
    forall i :: 0 <= i < |s| ==> IsSpace(s[i])
  }

  /** `s.replace("-", "")`. */
  function RemoveHyphens(s: string): (r: string)
    ensures '-' !in r
    ensures forall c {:trigger multiset(r)[c]} :: c != '-' ==> multiset(r)[c] == multiset(s)[c]
    ensures '-' !in s ==> r == s
  {
    if s == [] then []
    else
      var rest := RemoveHyphens(s[1..]);
      assert s == [s[0]] + s[1..];
      if s[0] == '-' then rest else [s[0]] + rest
  }

  /** `replace` keeps the order of what it keeps: the hyphen-free text of a
      concatenation is the hyphen-free text of each piece, in turn, and a
      single character is dropped exactly when it is a hyphen. */
  lemma {:induction false} RemoveHyphensAppend(a: string, b: string)
    ensures RemoveHyphens(a + b) == RemoveHyphens(a) + RemoveHyphens(b)
    ensures forall c :: RemoveHyphens([c]) == (if c == '-' then [] else [c])
    decreases |a|
  {
    if a != [] {
      assert (a + b)[1..] == a[1..] + b;
      RemoveHyphensAppend(a[1..], b);
    } else {
      assert a + b == b;
    }
    forall c ensures RemoveHyphens([c]) == (if c == '-' then [] else [c]) {
      assert [c][1..] == [];
    }
  }

  /** What is left of `s` after its leading whitespace. */
  function SkipSpace(s: string): (r: string)
    ensures |r| <= |s|
    ensures r == [] || !IsSpace(r[0])
  {
    if s == [] || !IsSpace(s[0]) then s else SkipSpace(s[1..])
  }

  /** What `SkipSpace` leaves is a suffix of its argument. */
  lemma {:induction false} SkipSpaceSuffix(s: string)
    ensures SkipSpace(s) == s[|s| - |SkipSpace(s)|..]
    decreases |s|
  {
    if s != [] && IsSpace(s[0]) {
      SkipSpaceSuffix(s[1..]);
    }
  }

  /** The length of the run of non-whitespace characters that starts `s`. */
  function WordLength(s: string): (n: nat)
    ensures n <= |s|
    ensures forall i :: 0 <= i < n ==> !IsSpace(s[i])
    ensures n == |s| || IsSpace(s[n])
    ensures s != [] && !IsSpace(s[0]) ==> n > 0
  {
    if s == [] || IsSpace(s[0]) then 0 else 1 + WordLength(s[1..])
  }

  /** `s.split()`: the maximal runs of non-whitespace characters, in order. */
  function Split(s: string): seq<string>
    decreases |s|
  {
    var t := SkipSpace(s);
    if t == [] then []
    else
      var n := WordLength(t);
      [t[..n]] + Split(t[n..])
  }

  /** Every token of `s.split()` is non-empty and free of whitespace. */
  lemma {:induction false} SplitWords(s: string)
    ensures forall i :: 0 <= i < |Split(s)| ==> IsWord(Split(s)[i])
    decreases |s|
  {
    var t := SkipSpace(s);
    if t != [] {
      var n := WordLength(t);
      SplitWords(t[n..]);
      assert IsWord(t[..n]);
    }
  }

  /** A character absent from `s` is absent from every token of `s.split()`;
      in particular no token of a de-hyphenated line holds a hyphen. */
  lemma {:induction false} SplitAvoids(s: string, c: char)
    requires c !in s
    ensures forall i :: 0 <= i < |Split(s)| ==> c !in Split(s)[i]
    decreases |s|
  {
    var t := SkipSpace(s);
    if t != [] {
      var n := WordLength(t);
      SkipSpaceSuffix(s);
      assert c !in t;
      assert t[..n] + t[n..] == t;
      SplitAvoids(t[n..], c);
    }
  }

  /** `" ".join(ws)`. */
  function Join(ws: seq<string>): (r: string)
    ensures |ws| == 1 ==> r == ws[0]
  {
    if ws == [] then ""
    else if |ws| == 1 then ws[0]
    else ws[0] + " " + Join(ws[1..])
  }

  /** A name joined by single spaces: no whitespace at either end, and every
      whitespace character inside is one space between two non-whitespace
      characters. */
  predicate SingleSpaced(s: string)
  {
    forall i :: 0 <= i < |s| && IsSpace(s[i]) ==>
      s[i] == ' ' && 0 < i < |s| - 1 && !IsSpace(s[i - 1]) && !IsSpace(s[i + 1])
  }

  /** `" ".join` of words is single-spaced, and empty only for no words. */
  lemma {:induction false} JoinSingleSpaced(ws: seq<string>)
    requires forall i :: 0 <= i < |ws| ==> IsWord(ws[i])
    ensures SingleSpaced(Join(ws))
    ensures Join(ws) == [] <==> ws == []
  {
    if |ws| >= 2 {
      var w, j := ws[0], Join(ws[1..]);
      JoinSingleSpaced(ws[1..]);
      JoinCons(ws);
      var r := w + (" " + j);
      forall i | 0 <= i < |r| && IsSpace(r[i])
        ensures r[i] == ' ' && 0 < i < |r| - 1 && !IsSpace(r[i - 1]) && !IsSpace(r[i + 1])
      {
        if i > |w| {
          assert r[i] == j[i - |w| - 1] && r[i - 1] == (" " + j)[i - 1 - |w|] && r[i + 1] == j[i - |w|];
        } else if i == |w| {
          assert r[i - 1] == w[|w| - 1] && r[i + 1] == j[0];
        }
      }
    }
  }

  /** A word followed by whitespace: `WordLength` stops exactly at the word's end. */
  lemma {:induction false} WordLengthOfWord(w: string, rest: string)
    requires IsWord(w)
    requires rest == [] || IsSpace(rest[0])
    ensures WordLength(w + rest) == |w|
    decreases |w|
  {
    if |w| > 1 {
      assert (w + rest)[1..] == w[1..] + rest;
      WordLengthOfWord(w[1..], rest);
    } else {
      assert (w + rest)[1..] == rest;
    }
  }

  /** The two halves of a concatenation, cut at the seam. */
  lemma CutAtSeam<T>(a: seq<T>, b: seq<T>)
    ensures (a + b)[..|a|] == a && (a + b)[|a|..] == b
  {
  }

  /** A word followed by nothing or by whitespace is the first token. */
  lemma SplitWordThen(w: string, rest: string)
    requires IsWord(w)
    requires rest == [] || IsSpace(rest[0])
    ensures Split(w + rest) == [w] + Split(rest)
  {
    var s := w + rest;
    WordLengthOfWord(w, rest);
    CutAtSeam(w, rest);
    assert !IsSpace(s[0]);
    assert SkipSpace(s) == s;
  }

  /** Leading whitespace does not change the tokens. */
  lemma SplitSkipsLeadingSpace(s: string)
    ensures Split(" " + s) == Split(s)
  {
    SpaceIsSpace();
    assert (" " + s)[1..] == s;
    assert SkipSpace(" " + s) == SkipSpace(s);
  }

  /** `Join` of two or more words puts one space after the first. */
  lemma JoinCons(ws: seq<string>)
    requires |ws| >= 2
    ensures Join(ws) == ws[0] + (" " + Join(ws[1..]))
  {
  }

  /** Splitting a space-joined list of words gives the words back: joining
      the instrument-name tokens with single spaces loses nothing. */
  lemma {:induction false} SplitJoin(ws: seq<string>)
    requires forall i :: 0 <= i < |ws| ==> IsWord(ws[i])
    ensures Split(Join(ws)) == ws
  {
    if ws == [] {
    } else if |ws| == 1 {
      SplitWordThen(ws[0], []);
      assert ws[0] + [] == ws[0];
    } else {
      var w, rest := ws[0], ws[1..];
      var j := Join(rest);
      JoinCons(ws);
      SplitJoin(rest);
      SpaceIsSpace();
      SplitWordThen(w, " " + j);
      SplitSkipsLeadingSpace(j);
      calc {
        Split(Join(ws));
        Split(w + (" " + j));
        [w] + Split(" " + j);
        [w] + Split(j);
        [w] + rest;
        ws;
      }
    }
  }
}
