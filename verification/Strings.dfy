/** Searching and trimming in strings, as the parsers do it. */
module Strings {

  const NPOS: int := -1

  predicate IsSpace(c: char) { c in {' ', '\t', '\n', '\r', '\U{000B}', '\U{000C}'} }

  predicate AllSpace(s: string) { forall c | c in s :: IsSpace(c) }

  /** find_first_of: position of the first character of cs at or after from, or npos. */
  function Find(s: string, cs: set<char>, from: nat): (p: int)
    ensures p == NPOS || (from <= p < |s| && s[p] in cs)
    ensures forall k | from <= k < |s| && (p == NPOS || k < p) :: s[k] !in cs
    decreases |s| - from
  {
    if from >= |s| then NPOS else if s[from] in cs then from else Find(s, cs, from + 1)
  }

  lemma FoundAt(s: string, cs: set<char>, from: nat, p: nat)
    requires from <= p < |s| && s[p] in cs && (forall k | from <= k < p :: s[k] !in cs)
    ensures Find(s, cs, from) == p
  {
  }

  lemma FoundNowhere(s: string, cs: set<char>, from: nat)
    requires forall k | from <= k < |s| :: s[k] !in cs
    ensures Find(s, cs, from) == NPOS
  {
  }

  /** A text that goes on with x and then with rest. */
  lemma GoesOn(s: string, p: nat, x: string, rest: string)
    requires p <= |s| && s[p..] == x + rest
    ensures p + |x| <= |s| && s[p..p + |x|] == x && s[p + |x|..] == rest
    ensures forall k | p <= k < p + |x| :: s[k] == x[k - p]
    ensures rest != "" ==> p + |x| < |s| && s[p + |x|] == rest[0]
  {
    var t := s[p..];
    assert t[..|x|] == s[p..p + |x|] && t[|x|..] == s[p + |x|..];
    assert rest != "" ==> t[|x|] == s[p + |x|];
    forall k | p <= k < p + |x| ensures s[k] == x[k - p] {
      assert t[k - p] == s[k];
    }
  }

  /** Searching in a text is searching in its slice. */
  lemma FindInSlice(s: string, cs: set<char>, from: nat, a: nat, b: nat)
    requires a <= from <= b <= |s| && Find(s[a..b], cs, from - a) != NPOS
    ensures Find(s, cs, from) == a + Find(s[a..b], cs, from - a)
  {
    var p := Find(s[a..b], cs, from - a);
    assert s[a + p] == s[a..b][p];
    forall k | from <= k < a + p ensures s[k] !in cs {
      assert s[k] == s[a..b][k - a];
    }
  }

  lemma FindInSuffix(s: string, cs: set<char>, p: nat, from: nat)
    requires p <= |s|
    ensures Find(s, cs, p + from) == if Find(s[p..], cs, from) == NPOS then NPOS else p + Find(s[p..], cs, from)
  {
    var t := s[p..];
    var x := Find(t, cs, from);
    assert forall k | p <= k < |s| :: s[k] == t[k - p];
    if x == NPOS {
      FoundNowhere(s, cs, p + from);
    } else {
      FoundAt(s, cs, p + from, p + x);
    }
  }

  lemma FindBefore(t: string, post: string, cs: set<char>, from: nat)
    requires from <= |t| && forall c | c in post :: c !in cs
    ensures Find(t + post, cs, from) == Find(t, cs, from)
  {
    var s := t + post;
    assert forall k | 0 <= k < |t| :: s[k] == t[k];
    assert forall k | |t| <= k < |s| :: s[k] in post;
    if Find(t, cs, from) == NPOS {
      FoundNowhere(s, cs, from);
    } else {
      FoundAt(s, cs, from, Find(t, cs, from));
    }
  }

  /** First position at or after l that is not white space, or the end. */
  function Front(s: string, l: nat): (p: nat)
    requires l <= |s|
    ensures l <= p <= |s| && (p < |s| ==> !IsSpace(s[p]))
    ensures forall k | l <= k < p :: IsSpace(s[k])
    decreases |s| - l
  {
    if l < |s| && IsSpace(s[l]) then Front(s, l + 1) else l
  }

  /** Last position before r that is not white space, or -1. */
  function Back(s: string, r: int): (p: int)
    requires -1 <= r < |s|
    ensures -1 <= p <= r && (0 <= p ==> !IsSpace(s[p]))
    ensures forall k | p < k <= r :: IsSpace(s[k])
    decreases r + 1
  {
    if r >= 0 && IsSpace(s[r]) then Back(s, r - 1) else r
  }

  /** The text without the white space at both ends. */
  function Trim(s: string): (t: string)
    ensures t != "" ==> !IsSpace(t[0]) && !IsSpace(t[|t| - 1])
  {
    var l, r := Front(s, 0), Back(s, |s| - 1);
    if l <= r then s[l..r + 1] else ""
  }

  /** What trimming takes away. */
  lemma TrimParts(s: string) returns (pre: string, post: string)
    ensures s == pre + Trim(s) + post && AllSpace(pre) && AllSpace(post)
  {
    var l, r := Front(s, 0), Back(s, |s| - 1);
    if l <= r {
      pre, post := s[..l], s[r + 1..];
    } else {
      pre, post := s, "";
      assert l == |s|;
    }
  }

  lemma TrimAt(s: string, a: nat, b: nat)
    requires a < b <= |s| && !IsSpace(s[a]) && !IsSpace(s[b - 1])
    requires (forall k | 0 <= k < a :: IsSpace(s[k])) && (forall k | b <= k < |s| :: IsSpace(s[k]))
    ensures Trim(s) == s[a..b]
  {
    assert Front(s, 0) == a && Back(s, |s| - 1) == b - 1;
  }

  lemma TrimPadded(pre: string, t: string, post: string)
    requires AllSpace(pre) && AllSpace(post)
    requires t != "" && !IsSpace(t[0]) && !IsSpace(t[|t| - 1])
    ensures Trim(pre + t + post) == t
  {
    hide Trim;
    var s, a, b := pre + t + post, |pre|, |pre| + |t|;
    assert s[a] == t[0] && s[b - 1] == t[|t| - 1];
    forall k | 0 <= k < a ensures IsSpace(s[k]) { assert s[k] == pre[k]; }
    forall k | b <= k < |s| ensures IsSpace(s[k]) { assert s[k] == post[k - b]; }
    TrimAt(s, a, b);
    assert s[a..b] == t;
  }

  lemma NotPadded(x: string)
    ensures "" + x + "" == x
  {
  }

  /** The trimming loops. */
  method TrimLoops(text: string) returns (s: string)
    ensures s == Trim(text)
  {
    var l, r := 0, |text| - 1;
    while l < |text| && IsSpace(text[l])
      invariant 0 <= l <= |text| && Front(text, 0) == Front(text, l)
    {
      l := l + 1;
    }
    while r >= 0 && IsSpace(text[r])
      invariant -1 <= r < |text| && Back(text, |text| - 1) == Back(text, r)
    {
      r := r - 1;
    }
    s := if l <= r then text[l..r + 1] else "";
  }
}
