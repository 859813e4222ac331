/** Raw memory: byte sequences, machine words in little-endian order, and the two facts every
    layer above needs: what a write stores, and what it leaves alone. */
module Words {

  type byte = b: nat | b < 256

  /** One past the largest size_t; a pointer or a size takes WORD_BYTES bytes. */
  const WORD: nat := 0x1_0000_0000_0000_0000
  const WORD_BYTES: nat := 8

  /** Little-endian encoding of v in w bytes, truncated as a C store of that width truncates. */
  function Enc(v: nat, w: nat): (s: seq<byte>)
    ensures |s| == w
  {
    if w == 0 then [] else [v % 256] + Enc(v / 256, w - 1)
  }

  function Dec(s: seq<byte>): nat
  {
    if s == [] then 0 else s[0] + 256 * Dec(s[1..])
  }

  function Capacity(w: nat): (c: nat)
    ensures c > 0
  {
    if w == 0 then 1 else 256 * Capacity(w - 1)
  }

  /** Loading what was stored gives the value back when it fits the width. */
  lemma {:induction false} DecEnc(v: nat, w: nat)
    requires v < Capacity(w)
    ensures Dec(Enc(v, w)) == v
  {
    if w > 0 {
      DecEnc(v / 256, w - 1);
      assert Enc(v, w)[1..] == Enc(v / 256, w - 1);
    }
  }

  function EncWord(v: nat): (s: seq<byte>)
    ensures |s| == WORD_BYTES
  {
    Enc(v, WORD_BYTES)
  }

  lemma WordRoundTrip(v: nat)
    requires v < WORD
    ensures Dec(EncWord(v)) == v
  {
    WordCapacity();
    DecEnc(v, WORD_BYTES);
  }

  lemma WordCapacity()
    ensures Capacity(WORD_BYTES) == WORD
  {
    assert Capacity(4) == 0x1_0000_0000;
    assert Capacity(8) == 256 * (256 * (256 * (256 * Capacity(4))));
  }

  /** The low byte of a stored word is the stored value modulo 256. */
  lemma LowByte(v: nat)
    ensures EncWord(v)[0] == v % 256
  {
  }

  /** size_t subtraction: wraps instead of going negative. */
  function Sub(a: nat, b: nat): (r: nat)
    ensures r < WORD
    ensures b <= a < WORD ==> r == a - b
    ensures a < b <= WORD ==> r == WORD + a - b
  {
    (a - b) % WORD
  }

  /** Subtracting in two steps or at once is the same in size_t. */
  lemma SubTwice(a: nat, b: nat, c: nat)
    requires a < WORD
    ensures Sub(Sub(a, b), c) == Sub(a, b + c)
  {
    var q := (a - b) / WORD;
    assert Sub(a, b) == a - b - q * WORD;
    ModShift(a - b - c, q);
  }

  lemma ModShift(x: int, q: int)
    ensures (x - q * WORD) % WORD == x % WORD
  {
    var k := x / WORD;
    assert x - q * WORD == (k - q) * WORD + x % WORD;
  }

  /** size_t addition. */
  function Add(a: nat, b: nat): (r: nat)
    ensures r < WORD
    ensures a + b < WORD ==> r == a + b
  {
    (a + b) % WORD
  }

  /** Memory m holds the bytes s at address a. */
  predicate At(m: seq<byte>, a: nat, s: seq<byte>)
  {
    a + |s| <= |m| && m[a..a + |s|] == s
  }

  /** Memory m after the bytes s were stored at address a. */
  function Put(m: seq<byte>, a: nat, s: seq<byte>): (r: seq<byte>)
    requires a + |s| <= |m|
    ensures |r| == |m|
  {
    m[..a] + s + m[a + |s|..]
  }

  /** The word stored at address a. */
  function Word(m: seq<byte>, a: nat): nat
    requires a + WORD_BYTES <= |m|
  {
    Dec(m[a..a + WORD_BYTES])
  }

  lemma PutAt(m: seq<byte>, a: nat, s: seq<byte>)
    requires a + |s| <= |m|
    ensures At(Put(m, a, s), a, s)
  {
  }

  /** A store leaves every disjoint range as it was. */
  lemma PutFrame(m: seq<byte>, a: nat, s: seq<byte>, b: nat, t: seq<byte>)
    requires a + |s| <= |m| && At(m, b, t)
    requires b + |t| <= a || a + |s| <= b
    ensures At(Put(m, a, s), b, t)
  {
    var r := Put(m, a, s);
    forall k | 0 <= k < |t| ensures r[b..b + |t|][k] == t[k] {
      assert m[b..b + |t|][k] == t[k];
    }
  }

  lemma AtSplit(m: seq<byte>, a: nat, s: seq<byte>, t: seq<byte>)
    ensures At(m, a, s + t) <==> At(m, a, s) && At(m, a + |s|, t)
  {
    if a + |s| + |t| <= |m| {
      assert m[a..a + |s| + |t|] == m[a..a + |s|] + m[a + |s|..a + |s| + |t|];
      if m[a..a + |s| + |t|] == s + t {
        assert m[a..a + |s|] == (s + t)[..|s|] == s;
        assert m[a + |s|..a + |s| + |t|] == (s + t)[|s|..] == t;
      }
    }
  }

  lemma AtWord(m: seq<byte>, a: nat, v: nat)
    requires At(m, a, EncWord(v)) && v < WORD
    ensures a + WORD_BYTES <= |m| && Word(m, a) == v
  {
    WordRoundTrip(v);
  }
}
