/**
 * The parts of Go's `strings` package the agent relies on: `Split` with a
 * one-character separator, `Contains` of one character (written `c in s`)
 * and `TrimSpace`. Go strings are byte sequences; here a string is a
 * sequence of Unicode scalar values, which agrees with Go on valid UTF-8.
 */
module GoStrings {

  /** `unicode.IsSpace`: the Latin-1 spaces and the Unicode White_Space property. */
  predicate IsSpace(c: char)
  {
    || c == ' ' || c == '\t' || c == '\n' || c == '\r'
    || c == '\U{000B}' || c == '\U{000C}' || c == '\U{0085}' || c == '\U{00A0}'
    || c == '\U{1680}' || ('\U{2000}' <= c <= '\U{200A}')
    || c == '\U{2028}' || c == '\U{2029}' || c == '\U{202F}' || c == '\U{205F}'
    || c == '\U{3000}'
  }

  predicate AllSpace(s: string)
  {
    forall k :: 0 <= k < |s| ==> IsSpace(s[k])
  }

  /** Number of space characters at the front of `s`. */
  function LeadingSpace(s: string): (n: nat)
    ensures n <= |s|
    ensures AllSpace(s[..n])
    ensures n < |s| ==> !IsSpace(s[n])
  {
    if |s| > 0 && IsSpace(s[0]) then
      var m := LeadingSpace(s[1..]);
      assert s[1..][..m] == s[1..m + 1];
      1 + m
    else 0
  }

  /** Number of space characters at the back of `s`. */
  function TrailingSpace(s: string): (n: nat)
    ensures n <= |s|
    ensures AllSpace(s[|s| - n..])
    ensures n < |s| ==> !IsSpace(s[|s| - 1 - n])
  {
    if |s| > 0 && IsSpace(s[|s| - 1]) then
      var m := TrailingSpace(s[..|s| - 1]);
      assert s[..|s| - 1][|s| - 1 - m..] + [s[|s| - 1]] == s[|s| - 1 - m..];
      1 + m
    else 0
  }

  /** Both ends of `t` are non-space (or `t` is empty): nothing left to trim. */
  predicate Trimmed(t: string)
  {
    t == [] || (!IsSpace(t[0]) && !IsSpace(t[|t| - 1]))
  }

  /**
   * `strings.TrimSpace`: `s` without its leading and trailing white space;
   * `TrimSpaceSlice` says what was cut.
   */
  function TrimSpace(s: string): (t: string)
    ensures |t| <= |s|
    ensures Trimmed(t)
  {
    var lo := LeadingSpace(s);
    var rest := s[lo..];
    rest[..|rest| - TrailingSpace(rest)]
  }

  /** The result is a slice of `s`, and everything cut away on either side is space. */
  lemma TrimSpaceSlice(s: string)
    ensures LeadingSpace(s) + |TrimSpace(s)| <= |s|
    ensures TrimSpace(s) == s[LeadingSpace(s)..LeadingSpace(s) + |TrimSpace(s)|]
    ensures AllSpace(s[..LeadingSpace(s)])
    ensures AllSpace(s[LeadingSpace(s) + |TrimSpace(s)|..])
  {
    TrimSpaceKept(s);
    TrimSpaceCutRight(s);
  }

  lemma TrimSpaceKept(s: string)
    ensures LeadingSpace(s) + |TrimSpace(s)| <= |s|
    ensures TrimSpace(s) == s[LeadingSpace(s)..LeadingSpace(s) + |TrimSpace(s)|]
  {
    var lo := LeadingSpace(s);
    var rest := s[lo..];
    var m := |rest| - TrailingSpace(rest);
    assert TrimSpace(s) == rest[..m];
    SliceOfSlice(s, lo, m);
  }

  lemma SliceOfSlice<T>(s: seq<T>, lo: nat, m: nat)
    requires lo + m <= |s|
    ensures s[lo..][..m] == s[lo..lo + m]
  {
  }

  lemma TrimSpaceCutRight(s: string)
    ensures LeadingSpace(s) + |TrimSpace(s)| <= |s|
    ensures AllSpace(s[LeadingSpace(s) + |TrimSpace(s)|..])
  {
    var lo := LeadingSpace(s);
    var rest := s[lo..];
    var n := TrailingSpace(rest);
    assert |TrimSpace(s)| == |rest| - n;
    assert s[lo + |rest| - n..] == rest[|rest| - n..];
  }

  /** `TrimSpace` is determined by its contract: spaces around a trimmed core go, the core stays. */
  lemma TrimSpaceAround(a: string, t: string, b: string)
    requires AllSpace(a) && AllSpace(b) && Trimmed(t)
    ensures TrimSpace(a + t + b) == t
  {
    var s := a + t + b;
    if t == [] {
      assert s == a + b;
      AllSpaceConcat(a, b);
      LeadingSpaceAll(s);
      assert s[|s|..] == [];
    } else {
      assert s == a + (t + b);
      LeadingSpaceBefore(a, t + b);
      assert s[|a|..] == t + b;
      TrailingSpaceAfter(t, b);
      assert (t + b)[..|t|] == t;
    }
  }

  lemma AllSpaceConcat(a: string, b: string)
    requires AllSpace(a) && AllSpace(b)
    ensures AllSpace(a + b)
  {
    assert forall k :: 0 <= k < |a| ==> (a + b)[k] == a[k];
    assert forall k :: |a| <= k < |a| + |b| ==> (a + b)[k] == b[k - |a|];
  }

  /** An all-space string is cut away entirely. */
  lemma LeadingSpaceAll(s: string)
    requires AllSpace(s)
    ensures LeadingSpace(s) == |s|
  {
  }

  /** The leading run of spaces ends at the first non-space character. */
  lemma LeadingSpaceBefore(a: string, u: string)
    requires AllSpace(a) && u != [] && !IsSpace(u[0])
    ensures LeadingSpace(a + u) == |a|
  {
    var s := a + u;
    assert s[|a|] == u[0];
    assert forall k :: 0 <= k < |a| ==> s[k] == a[k];
  }

  /** The trailing run of spaces starts after the last non-space character. */
  lemma TrailingSpaceAfter(u: string, b: string)
    requires AllSpace(b) && u != [] && !IsSpace(u[|u| - 1])
    ensures TrailingSpace(u + b) == |b|
  {
    var s := u + b;
    assert s[|u| - 1] == u[|u| - 1];
    assert forall k :: |u| <= k < |s| ==> s[k] == b[k - |u|];
  }

  /** Trimming twice is trimming once. */
  lemma TrimSpaceIdempotent(s: string)
    ensures TrimSpace(TrimSpace(s)) == TrimSpace(s)
  {
    TrimSpaceAround([], TrimSpace(s), []);
    assert [] + TrimSpace(s) + [] == TrimSpace(s);
  }

  /** The inverse of `Split`: the parts with `sep` between consecutive ones. */
  function Join(parts: seq<string>, sep: char): string
  {
    if parts == [] then []
    else if |parts| == 1 then parts[0]
    else parts[0] + [sep] + Join(parts[1..], sep)
  }

  /** Number of occurrences of `c` in `s`. */
  function Count(s: string, c: char): nat
  {
    if s == [] then 0 else (if s[0] == c then 1 else 0) + Count(s[1..], c)
  }

  /**
   * `strings.Split(s, string(sep))`: the maximal `sep`-free pieces of `s`, in
   * order; one more piece than there are separators, so `""` gives `[""]`.
   * `JoinSplit` shows that the pieces put back together are `s`.
   */
  function Split(s: string, sep: char): (parts: seq<string>)
    ensures |parts| == Count(s, sep) + 1
    ensures forall i :: 0 <= i < |parts| ==> sep !in parts[i]
  {
    if s == [] then [[]]
    else
      var rest := Split(s[1..], sep);
      if s[0] == sep then [[]] + rest
      else [[s[0]] + rest[0]] + rest[1..]
  }

  /** Joining the pieces with the separator gives back the string. */
  lemma {:induction false} JoinSplit(s: string, sep: char)
    ensures Join(Split(s, sep), sep) == s
  {
    if s != [] {
      var rest := Split(s[1..], sep);
      JoinSplit(s[1..], sep);
      assert s == [s[0]] + s[1..];
      if s[0] != sep {
        var parts := Split(s, sep);
        assert parts[1..] == rest[1..];
      }
    }
  }

  /** Parts that contain no separator are recovered from their join. */
  lemma {:induction false} SplitJoin(parts: seq<string>, sep: char)
    requires |parts| >= 1
    requires forall i :: 0 <= i < |parts| ==> sep !in parts[i]
    ensures Split(Join(parts, sep), sep) == parts
  {
    if |parts| == 1 {
      SplitSepFree(parts[0], sep);
    } else {
      SplitJoin(parts[1..], sep);
      SplitPrepend(parts[0], Join(parts[1..], sep), sep);
      assert parts == [parts[0]] + parts[1..];
    }
  }

  /** A string without the separator splits into itself. */
  lemma {:induction false} SplitSepFree(s: string, sep: char)
    requires sep !in s
    ensures Split(s, sep) == [s]
  {
    if s != [] {
      SplitSepFree(s[1..], sep);
      assert [s[0]] + s[1..] == s;
    }
  }

  /** Splitting `p + sep + rest` for a separator-free `p`. */
  lemma {:induction false} SplitPrepend(p: string, rest: string, sep: char)
    requires sep !in p
    ensures Split(p + [sep] + rest, sep) == [p] + Split(rest, sep)
  {
    var s := p + [sep] + rest;
    if p == [] {
      assert s[1..] == rest;
    } else {
      assert s[1..] == p[1..] + [sep] + rest;
      SplitPrepend(p[1..], rest, sep);
      assert [p[0]] + p[1..] == p;
    }
  }

  lemma {:induction false} JoinAppend(xs: seq<string>, ys: seq<string>, sep: char)
    requires |xs| >= 1 && |ys| >= 1
    ensures Join(xs + ys, sep) == Join(xs, sep) + [sep] + Join(ys, sep)
  {
    if |xs| == 1 {
      assert (xs + ys)[1..] == ys;
    } else {
      JoinAppend(xs[1..], ys, sep);
      assert (xs + ys)[1..] == xs[1..] + ys;
    }
  }

  /** Splitting at one separator splits each side independently. */
  lemma SplitConcat(s1: string, s2: string, sep: char)
    ensures Split(s1 + [sep] + s2, sep) == Split(s1, sep) + Split(s2, sep)
  {
    var xs, ys := Split(s1, sep), Split(s2, sep);
    JoinSplit(s1, sep);
    JoinSplit(s2, sep);
    JoinAppend(xs, ys, sep);
    SplitJoin(xs + ys, sep);
  }
}
