/** The parallel in-place merge sort: positions of the list are array indices, elements carry a key
    that is compared and a tag that is not. */
module MergeSort {

  datatype Elem = Elem(key: int, tag: int)

  predicate Ordered(s: seq<Elem>)
  {
    forall i, j | 0 <= i < j < |s| :: s[i].key <= s[j].key
  }

  /** The elements of s with key k, in order. */
  function WithKey(s: seq<Elem>, k: int): seq<Elem>
  {
    if s == [] then []
    else if s[0].key == k then [s[0]] + WithKey(s[1..], k)
    else WithKey(s[1..], k)
  }

  /** t is s in another order in which equal keys keep their order. */
  ghost predicate Stable(s: seq<Elem>, t: seq<Elem>)
  {
    forall k :: WithKey(t, k) == WithKey(s, k)
  }

  /** The stable merge of two ordered runs. */
  function Merge(l: seq<Elem>, r: seq<Elem>): (m: seq<Elem>)
    ensures |m| == |l| + |r|
  {
    if l == [] then r
    else if r == [] then l
    else if r[0].key < l[0].key then [r[0]] + Merge(l, r[1..])
    else [l[0]] + Merge(l[1..], r)
  }

  /** What sort_it computes on a range. */
  function Sort(s: seq<Elem>): (t: seq<Elem>)
    ensures |t| == |s|
    decreases |s|
  {
    if |s| < 2 then s else Merge(Sort(s[..|s| / 2]), Sort(s[|s| / 2..]))
  }

  lemma {:induction false} WithKeyConcat(a: seq<Elem>, b: seq<Elem>, k: int)
    ensures WithKey(a + b, k) == WithKey(a, k) + WithKey(b, k)
  {
    if a == [] {
      assert a + b == b;
    } else {
      assert (a + b)[1..] == a[1..] + b;
      WithKeyConcat(a[1..], b, k);
    }
  }

  /** Below its smallest key a run has nothing. */
  lemma {:induction false} NoneBelow(s: seq<Elem>, k: int)
    requires forall i | 0 <= i < |s| :: k < s[i].key
    ensures WithKey(s, k) == []
  {
    if s != [] { NoneBelow(s[1..], k); }
  }

  lemma {:induction false} MergeElements(l: seq<Elem>, r: seq<Elem>, x: Elem)
    requires x in Merge(l, r)
    ensures x in l || x in r
  {
    if l != [] && r != [] {
      if r[0].key < l[0].key {
        if x != r[0] { MergeElements(l, r[1..], x); }
      } else {
        if x != l[0] { MergeElements(l[1..], r, x); }
      }
    }
  }

  lemma ConsOrdered(x: Elem, s: seq<Elem>)
    requires Ordered(s) && forall y | y in s :: x.key <= y.key
    ensures Ordered([x] + s)
  {
  }

  lemma {:induction false} MergeOrdered(l: seq<Elem>, r: seq<Elem>)
    requires Ordered(l) && Ordered(r)
    ensures Ordered(Merge(l, r))
  {
    if l != [] && r != [] {
      var fromRight := r[0].key < l[0].key;
      var x := if fromRight then r[0] else l[0];
      var rest := if fromRight then Merge(l, r[1..]) else Merge(l[1..], r);
      if fromRight { MergeOrdered(l, r[1..]); } else { MergeOrdered(l[1..], r); }
      forall y | y in rest ensures x.key <= y.key {
        if fromRight { MergeElements(l, r[1..], y); } else { MergeElements(l[1..], r, y); }
      }
      ConsOrdered(x, rest);
    }
  }

  lemma WithKeyCons(x: Elem, s: seq<Elem>, k: int)
    ensures WithKey([x] + s, k) == (if x.key == k then [x] else []) + WithKey(s, k)
  {
    assert ([x] + s)[1..] == s;
  }

  /** Merging ordered runs keeps, for every key, the left elements before the right ones. */
  lemma {:induction false} MergeStable(l: seq<Elem>, r: seq<Elem>, k: int)
    requires Ordered(l) && Ordered(r)
    ensures WithKey(Merge(l, r), k) == WithKey(l, k) + WithKey(r, k)
  {
    if l != [] && r != [] {
      hide WithKey;
      assert l == [l[0]] + l[1..] && r == [r[0]] + r[1..];
      WithKeyCons(l[0], l[1..], k);
      WithKeyCons(r[0], r[1..], k);
      if r[0].key < l[0].key {
        WithKeyCons(r[0], Merge(l, r[1..]), k);
        MergeStable(l, r[1..], k);
        if r[0].key == k {
          NoneBelow(l, k);
        } else {
          assert WithKey(r, k) == WithKey(r[1..], k);
        }
      } else {
        WithKeyCons(l[0], Merge(l[1..], r), k);
        MergeStable(l[1..], r, k);
        InFront(if l[0].key == k then [l[0]] else [], WithKey(l[1..], k), WithKey(r, k));
      }
    }
  }

  lemma InFront(x: seq<Elem>, y: seq<Elem>, z: seq<Elem>)
    ensures x + (y + z) == (x + y) + z
  {
  }

  /** sort_it leaves a sorted and stable permutation of its range. */
  lemma {:induction false} SortSound(s: seq<Elem>)
    ensures Ordered(Sort(s)) && Stable(s, Sort(s))
    decreases |s|
  {
    if |s| >= 2 {
      var l, r := s[..|s| / 2], s[|s| / 2..];
      SortSound(l);
      SortSound(r);
      MergeOrdered(Sort(l), Sort(r));
      forall k ensures WithKey(Sort(s), k) == WithKey(s, k) {
        MergeStable(Sort(l), Sort(r), k);
        WithKeyConcat(l, r, k);
        assert s == l + r;
      }
    }
  }

  /** Stability includes being a permutation. */
  lemma {:induction false} WithKeyCounts(s: seq<Elem>, x: Elem)
    ensures multiset(WithKey(s, x.key))[x] == multiset(s)[x]
  {
    if s != [] {
      WithKeyCounts(s[1..], x);
      assert s == [s[0]] + s[1..];
    }
  }

  lemma StableIsPermutation(s: seq<Elem>, t: seq<Elem>)
    requires Stable(s, t)
    ensures multiset(t) == multiset(s)
  {
    forall x ensures multiset(t)[x] == multiset(s)[x] {
      WithKeyCounts(s, x);
      WithKeyCounts(t, x);
      assert WithKey(t, x.key) == WithKey(s, x.key);
    }
  }

  /** A sorted stable rearrangement is unique: there is one right answer. */
  lemma {:induction false} SortUnique(s: seq<Elem>, t: seq<Elem>)
    requires Ordered(s) && Ordered(t) && Stable(s, t)
    ensures s == t
    decreases |s|
  {
    StableIsPermutation(s, t);
    assert |multiset(s)| == |s| && |multiset(t)| == |t|;
    if s != [] {
      SameHead(s, t);
      forall k ensures WithKey(t[1..], k) == WithKey(s[1..], k) {
        assert WithKey(t, k) == WithKey(s, k);
        assert k == s[0].key ==> WithKey(s, k)[1..] == WithKey(s[1..], k) && WithKey(t, k)[1..] == WithKey(t[1..], k);
      }
      SortUnique(s[1..], t[1..]);
    }
  }

  lemma SameHead(s: seq<Elem>, t: seq<Elem>)
    requires Ordered(s) && Ordered(t) && Stable(s, t) && s != [] && t != []
    ensures s[0] == t[0]
  {
    var j, k := s[0].key, t[0].key;
    assert WithKey(t, j) == WithKey(s, j) && WithKey(s, j)[0] == s[0];
    assert WithKey(t, k) == WithKey(s, k) && WithKey(t, k)[0] == t[0];
    if j < k { NoneBelow(t, j); }
    if k < j { NoneBelow(s, k); }
  }

  // ---------------------------------------------------------------- the code

  /** get_middle: one iterator walks twice as fast as the other. */
  method GetMiddle(begin: nat, end: nat) returns (mid: nat)
    requires begin <= end
    ensures mid == begin + (end - begin) / 2
  {
    var it := begin;
    mid := begin;
    while it != end
      invariant begin <= it <= end && it - begin == 2 * (mid - begin)
      decreases end - it
    {
      it := it + 1;
      if it == end {
        break;
      }
      mid := mid + 1;
      it := it + 1;
    }
  }

  /** Only the range [lo, hi) of the array may differ. */
  predicate SameOutside(s: seq<Elem>, t: seq<Elem>, lo: nat, hi: nat)
  {
    |s| == |t| && lo <= hi <= |s| && t[..lo] == s[..lo] && t[hi..] == s[hi..]
  }

  /** A range outside the changed one is as it was. */
  lemma Outside(s: seq<Elem>, t: seq<Elem>, lo: nat, hi: nat, x: nat, y: nat)
    requires SameOutside(s, t, lo, hi) && x <= y <= |s| && (y <= lo || hi <= x)
    ensures t[x..y] == s[x..y]
  {
    if y <= lo {
      assert t[..lo][x..y] == t[x..y] && s[..lo][x..y] == s[x..y];
    } else {
      assert t[hi..][x - hi..y - hi] == t[x..y] && s[hi..][x - hi..y - hi] == s[x..y];
    }
  }

  /** std::inplace_merge of the ordered ranges [lo, mid) and [mid, hi). */
  method InplaceMerge(a: array<Elem>, lo: nat, mid: nat, hi: nat)
    requires lo <= mid <= hi <= a.Length
    modifies a
    ensures SameOutside(old(a[..]), a[..], lo, hi)
    ensures a[lo..hi] == Merge(old(a[lo..mid]), old(a[mid..hi]))
  {
    var m := Merge(a[lo..mid], a[mid..hi]);
    forall i | 0 <= i < |m| {
      a[lo + i] := m[i];
    }
  }

  /** sort_it: the two threads sort the halves in either order. */
  method SortIt(a: array<Elem>, begin: nat, end: nat)
    requires begin <= end <= a.Length
    modifies a
    ensures SameOutside(old(a[..]), a[..], begin, end)
    ensures a[begin..end] == Sort(old(a[begin..end]))
    decreases end - begin
  {
    hide Merge;
    if begin == end || begin + 1 == end {
      return;
    }
    ghost var s0 := a[..];
    var mid := GetMiddle(begin, end);
    Halves(s0, begin, mid, end);
    if * {
      SortIt(a, begin, mid);
      ghost var s1 := a[..];
      Outside(s0, s1, begin, mid, mid, end);
      SortIt(a, mid, end);
      Outside(s1, a[..], mid, end, begin, mid);
      OutsideBoth(s0, s1, a[..], begin, mid, end);
    } else {
      SortIt(a, mid, end);
      ghost var s1 := a[..];
      Outside(s0, s1, mid, end, begin, mid);
      SortIt(a, begin, mid);
      Outside(s1, a[..], begin, mid, mid, end);
      OutsideBoth(s0, s1, a[..], begin, mid, end);
    }
    InplaceMerge(a, begin, mid, end);
  }

  lemma Halves(s: seq<Elem>, begin: nat, mid: nat, end: nat)
    requires begin < mid < end <= |s| && mid == begin + (end - begin) / 2
    ensures Sort(s[begin..end]) == Merge(Sort(s[begin..mid]), Sort(s[mid..end]))
  {
    var r := s[begin..end];
    assert r[..|r| / 2] == s[begin..mid] && r[|r| / 2..] == s[mid..end];
  }

  lemma OutsideBoth(s: seq<Elem>, t: seq<Elem>, u: seq<Elem>, begin: nat, mid: nat, end: nat)
    requires begin <= mid <= end <= |s|
    requires (SameOutside(s, t, begin, mid) && SameOutside(t, u, mid, end))
             || (SameOutside(s, t, mid, end) && SameOutside(t, u, begin, mid))
    ensures SameOutside(s, u, begin, end)
  {
    if SameOutside(s, t, begin, mid) && SameOutside(t, u, mid, end) {
      Outside(s, t, begin, mid, end, |s|);
      Outside(t, u, mid, end, 0, begin);
    } else {
      Outside(s, t, mid, end, 0, begin);
      Outside(t, u, begin, mid, end, |s|);
    }
  }
}
