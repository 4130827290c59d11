/**
 * The JavaScript string operations the generators rely on, over `seq<char>`:
 * `includes`, `startsWith`, `replace` and `join`. `OccursAt`, `EndsWith` and
 * the lemmas are helpers for stating and proving properties of the model;
 * the source never calls `endsWith`.
 */
module Strings {
  import opened Results

  /** `p` occurs in `s` starting at index `i`. */
  predicate OccursAt(s: string, p: string, i: nat)
  {
    i + |p| <= |s| && s[i..i + |p|] == p
  }

  /** `s.startsWith(p)` */
  predicate StartsWith(s: string, p: string)
  {
    |p| <= |s| && s[..|p|] == p
  }

  lemma PrefixOfAppend(a: string, b: string)
    ensures StartsWith(a + b, a)
  {
    assert (a + b)[..|a|] == a;
  }

  /** `p` is a suffix of `s` (a specification helper, not a call the source makes). */
  predicate EndsWith(s: string, p: string)
  {
    |p| <= |s| && s[|s| - |p|..] == p
  }

  /** First occurrence of `p` in `s` at or after `from`. */
  function IndexOfFrom(s: string, p: string, from: nat): (r: Option<nat>)
    requires from <= |s|
    ensures r.Some? ==> from <= r.value && OccursAt(s, p, r.value)
    ensures r.Some? ==> forall j: nat :: from <= j < r.value ==> !OccursAt(s, p, j)
    ensures r.None? ==> forall j: nat :: from <= j ==> !OccursAt(s, p, j)
    decreases |s| - from
  {
    if OccursAt(s, p, from) then Some(from)
    else if from == |s| then None
    else IndexOfFrom(s, p, from + 1)
  }

  lemma NotNullable(t: string)
    requires |t| > 0 && t[|t| - 1] != 'l'
    ensures !EndsWith(t, " | null")
  {
  }

  lemma SuffixOfAppend(a: string, b: string)
    ensures EndsWith(a + b, b)
  {
    assert (a + b)[|a|..] == b;
  }

  /** `s.indexOf(p)`, with -1 as `None`. */
  function IndexOf(s: string, p: string): Option<nat>
  {
    IndexOfFrom(s, p, 0)
  }

  lemma FirstOccurrence(s: string, p: string, i: nat)
    requires OccursAt(s, p, i)
    requires forall j: nat :: j < i ==> !OccursAt(s, p, j)
    ensures IndexOf(s, p) == Some(i)
  {
  }

  lemma NoOccurrence(s: string, p: string)
    requires forall j: nat :: !OccursAt(s, p, j)
    ensures IndexOf(s, p) == None
  {
  }

  /** `s.includes(p)` */
  predicate Contains(s: string, p: string)
  {
    IndexOf(s, p).Some?
  }

  lemma ContainsAt(s: string, p: string, i: nat)
    requires OccursAt(s, p, i)
    ensures Contains(s, p)
  {
  }

  lemma OccurrenceOf(s: string, p: string) returns (i: nat)
    requires Contains(s, p)
    ensures OccursAt(s, p, i)
  {
    i := IndexOf(s, p).value;
  }

  /** The middle of a concatenation occurs in it. */
  lemma ContainsInfix(x: string, y: string, z: string)
    ensures Contains(x + y + z, y)
  {
    var s := x + y + z;
    assert s[|x|..|x| + |y|] == y;
    ContainsAt(s, y, |x|);
  }

  lemma PrefixContained(x: string, y: string)
    ensures Contains(x + y, x)
  {
    assert (x + y)[0..|x|] == x;
    ContainsAt(x + y, x, 0);
  }

  lemma SuffixContained(x: string, y: string)
    ensures Contains(x + y, y)
  {
    assert (x + y)[|x|..|x| + |y|] == y;
    ContainsAt(x + y, y, |x|);
  }

  lemma ContainsTransitive(a: string, b: string, c: string)
    requires Contains(a, b) && Contains(b, c)
    ensures Contains(a, c)
  {
    var i := OccurrenceOf(a, b);
    var j := OccurrenceOf(b, c);
    assert a[i..i + |b|] == b;
    forall k | 0 <= k < |c|
      ensures a[i + j + k] == c[k]
    {
      assert a[i..i + |b|][j + k] == a[i + j + k];
      assert b[j..j + |c|][k] == b[j + k];
    }
    assert a[i + j..i + j + |c|] == c;
    ContainsAt(a, c, i + j);
  }

  /** `s.replace(p, rep)` with a string pattern: only the first occurrence is replaced. */
  function ReplaceFirst(s: string, p: string, rep: string): (r: string)
    ensures IndexOf(s, p).None? ==> r == s
    ensures IndexOf(s, p).Some? ==> var i := IndexOf(s, p).value;
      i + |p| <= |s| && r == s[..i] + rep + s[i + |p|..]
  {
    match IndexOf(s, p)
    case None => s
    case Some(i) => s[..i] + rep + s[i + |p|..]
  }

  /** `s.replace(/c/g, d)` for a single-character pattern. */
  function ReplaceChar(s: string, c: char, d: char): (r: string)
    ensures |r| == |s|
    ensures forall i :: 0 <= i < |s| ==> r[i] == if s[i] == c then d else s[i]
  {
    if s == [] then []
    else [if s[0] == c then d else s[0]] + ReplaceChar(s[1..], c, d)
  }

  /** `xs.join(sep)` */
  function Join(xs: seq<string>, sep: string): string
  {
    if |xs| == 0 then ""
    else if |xs| == 1 then xs[0]
    else xs[0] + sep + Join(xs[1..], sep)
  }

  /** Every joined element appears in the joined text. */
  lemma {:induction false} JoinContains(xs: seq<string>, sep: string, k: nat)
    requires k < |xs|
    ensures Contains(Join(xs, sep), xs[k])
  {
    JoinContainsAt(xs, sep, k);
  }

  lemma {:induction false} JoinContainsAt(xs: seq<string>, sep: string, k: nat)
    requires k < |xs|
    ensures exists i: nat :: OccursAt(Join(xs, sep), xs[k], i)
    ensures Contains(Join(xs, sep), xs[k])
  {
    var j := Join(xs, sep);
    if k == 0 {
      if |xs| == 1 {
        assert OccursAt(j, xs[0], 0);
      } else {
        assert j == xs[0] + (sep + Join(xs[1..], sep));
        assert j[0..|xs[0]|] == xs[0];
        assert OccursAt(j, xs[0], 0);
      }
      ContainsAt(j, xs[k], 0);
    } else {
      JoinContainsAt(xs[1..], sep, k - 1);
      var rest := Join(xs[1..], sep);
      var i: nat :| OccursAt(rest, xs[1..][k - 1], i);
      var off := |xs[0] + sep|;
      assert j == (xs[0] + sep) + rest;
      assert j[off + i..off + i + |xs[k]|] == rest[i..i + |xs[k]|];
      assert OccursAt(j, xs[k], off + i);
      ContainsAt(j, xs[k], off + i);
    }
  }

  /** Removing the first " | null" of `t + " | null"` gives back `t` when `t` has no bar. */
  lemma DropTrailingNull(t: string)
    requires '|' !in t
    ensures ReplaceFirst(t + " | null", " | null", "") == t
  {
    var s := t + " | null";
    assert OccursAt(s, " | null", |t|);
    forall j: nat | j < |t|
      ensures !OccursAt(s, " | null", j)
    {
      assert s[j..j + 7][1] == s[j + 1];
      if j + 1 < |t| {
        assert s[j + 1] == t[j + 1] != '|';
      } else {
        assert s[j + 1] == ' ';
      }
    }
  }
}
