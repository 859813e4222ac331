/** Cutting and joining the block chain: paths and live maps of concatenations. */
module Chains {
  import opened Collections
  import opened Words
  import opened HeapModel

  /** Where a path over bs from a continues. */
  function Exit(bs: seq<Block>, a: nat): nat { if bs == [] then a else Last(bs).next }

  lemma {:induction false} PathConcat(l: seq<Block>, r: seq<Block>, a: nat, z: nat)
    ensures Path(l + r, a, z) <==> Path(l, a, Exit(l, a)) && Path(r, Exit(l, a), z)
  {
    if l == [] {
      assert l + r == r;
    } else {
      assert (l + r)[1..] == l[1..] + r;
      PathConcat(l[1..], r, l[0].next, z);
      assert Exit(l, a) == Exit(l[1..], l[0].next);
      PathExit(l[1..], l[0].next, Exit(l, a));
    }
  }

  lemma {:induction false} PathExit(bs: seq<Block>, a: nat, z: nat)
    ensures Path(bs, a, z) ==> z == Exit(bs, a)
  {
    if bs != [] { PathExit(bs[1..], bs[0].next, z); }
  }

  /** Every block of a path lies between its ends, and later blocks lie above earlier ones. */
  lemma PathAt(bs: seq<Block>, a: nat, z: nat, i: nat)
    requires Path(bs, a, z) && i < |bs|
    ensures a <= bs[i].addr && bs[i].End() <= bs[i].next <= z
    ensures i + 1 < |bs| ==> bs[i].next == bs[i + 1].addr
    ensures bs[i].addr == Exit(bs[..i], a)
    ensures Path(bs[..i], a, bs[i].addr) && Path(bs[i..], bs[i].addr, z) && Path(bs[i + 1..], bs[i].next, z)
  {
    assert bs == bs[..i] + bs[i..];
    PathConcat(bs[..i], bs[i..], a, z);
    PathAscends(bs[..i], a, bs[i].addr);
    assert bs[i..][1..] == bs[i + 1..];
    PathAscends(bs[i + 1..], bs[i].next, z);
  }

  lemma PathApart(bs: seq<Block>, a: nat, z: nat, i: nat, k: nat)
    requires Path(bs, a, z) && i < k < |bs|
    ensures bs[i].End() <= bs[k].addr
  {
    PathAt(bs, a, z, i);
    assert bs[i + 1..][k - i - 1] == bs[k];
    PathAt(bs[i + 1..], bs[i].next, z, k - i - 1);
  }

  lemma PathDistinct(bs: seq<Block>, a: nat, z: nat, i: nat, k: nat)
    requires Path(bs, a, z) && i < |bs| && k < |bs| && i != k
    ensures bs[i].addr != bs[k].addr
  {
    if i < k { PathApart(bs, a, z, i, k); } else { PathApart(bs, a, z, k, i); }
  }

  lemma {:induction false} LivesConcat(l: seq<Block>, r: seq<Block>)
    ensures Lives(l + r) == Lives(r) + Lives(l)
  {
    if l == [] {
      assert l + r == r;
    } else {
      assert (l + r)[1..] == l[1..] + r;
      LivesConcat(l[1..], r);
    }
  }

  lemma {:induction false} LivesDead(bs: seq<Block>)
    requires forall i | 0 <= i < |bs| :: !bs[i].Live()
    ensures Lives(bs) == map[]
  {
    if bs != [] { LivesDead(bs[1..]); }
  }

  /** The live block addresses of a path lie on it. */
  lemma LivesInside(bs: seq<Block>, a: nat, z: nat, x: nat)
    requires Path(bs, a, z) && x in Lives(bs)
    ensures a <= x && x + INFO < z
  {
    FindLive(bs, a, z, x);
  }

  lemma LivesAt(bs: seq<Block>, a: nat, z: nat, i: nat)
    requires Path(bs, a, z) && i < |bs| && bs[i].Live()
    ensures bs[i].addr in Lives(bs)
    ensures Lives(bs)[bs[i].addr] == Payload(bs[i].ref, bs[i].bytes)
  {
    PathAt(bs, a, z, i);
    assert bs == bs[..i] + bs[i..];
    LivesConcat(bs[..i], bs[i..]);
    if bs[i].addr in Lives(bs[..i]) { LivesInside(bs[..i], a, bs[i].addr, bs[i].addr); }
  }

  lemma Cut<T>(s: seq<T>, i: nat, k: nat)
    requires i < k <= |s|
    ensures s == s[..i] + ([s[i]] + (s[i + 1..k] + s[k..]))
  {
  }

  lemma LivesOne(b: Block)
    ensures Lives([b]) == if b.Live() then map[b.addr := Payload(b.ref, b.bytes)] else map[]
  {
    assert [b][1..] == [];
  }

  /** Dead blocks in the middle of a chain do not show in its live map. */
  lemma LivesPieces(l: seq<Block>, b: Block, dead: seq<Block>, r: seq<Block>)
    requires forall j | 0 <= j < |dead| :: !dead[j].Live()
    ensures Lives(l + ([b] + (dead + r))) == Lives(r) + Lives([b]) + Lives(l)
  {
    LivesConcat(l, [b] + (dead + r));
    LivesConcat([b], dead + r);
    LivesConcat(dead, r);
    LivesDead(dead);
    assert Lives(r) + map[] == Lives(r);
  }
}
