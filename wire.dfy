/** Raw bytes and the little-endian words the spline-network files are built from.
    A value of a fixed-width primitive is stored as its native little-endian bytes,
    with no alignment and no padding. */
module Wire {

  type Byte = x: int | 0 <= x < 256
  type U16 = x: nat | x < 0x1_0000
  type U32 = x: nat | x < 0x1_0000_0000
  type U64 = x: nat | x < 0x1_0000_0000_0000_0000

  /** The primitive widths the files use: uint16_t, uint32_t (and float), uint64_t. */
  datatype Width = W16 | W32 | W64 {
    function Size(): nat {
      match this
      case W16 => 2
      case W32 => 4
      case W64 => 8
    }

    /** One more than the largest value of this width. */
    function Bound(): nat {
      match this
      case W16 => 0x1_0000
      case W32 => 0x1_0000_0000
      case W64 => 0x1_0000_0000_0000_0000
    }
  }

  function Pow256(n: nat): (r: nat)
    ensures r >= 1
  {
    if n == 0 then 1 else 256 * Pow256(n - 1)
  }

  lemma BoundIsPow256(w: Width)
    ensures w.Bound() == Pow256(w.Size())
  {
    assert Pow256(2) == 0x1_0000;
    assert Pow256(4) == 0x1_0000_0000;
    assert Pow256(8) == 0x1_0000_0000_0000_0000;
  }

  /** The n little-endian bytes of v (higher bytes of v beyond n are dropped). */
  function ToLE(n: nat, v: nat): (s: seq<Byte>)
    ensures |s| == n
  {
    if n == 0 then [] else [v % 256] + ToLE(n - 1, v / 256)
  }

  /** The value whose little-endian bytes are s. */
  function FromLE(s: seq<Byte>): (v: nat)
    ensures v < Pow256(|s|)
  {
    if |s| == 0 then 0 else s[0] + 256 * FromLE(s[1..])
  }

  /** The bytes `write<T>(v)` appends for a value v of width w. */
  function Encode(w: Width, v: nat): (s: seq<Byte>)
    ensures |s| == w.Size()
  {
    ToLE(w.Size(), v)
  }

  /** The bytes of a run of words of one width, one after the other. */
  function EncodeAll(w: Width, vs: seq<nat>): (s: seq<Byte>)
    ensures |s| == w.Size() * |vs|
  {
    if vs == [] then [] else Encode(w, vs[0]) + EncodeAll(w, vs[1..])
  }

  /** Decoding the bytes of a value that fits recovers it. */
  lemma {:induction false} FromToLE(n: nat, v: nat)
    requires v < Pow256(n)
    ensures FromLE(ToLE(n, v)) == v
  {
    if n > 0 {
      var s := ToLE(n, v);
      assert s[1..] == ToLE(n - 1, v / 256);
      FromToLE(n - 1, v / 256);
    }
  }

  /** Every byte string is the encoding of the value it decodes to. */
  lemma {:induction false} ToFromLE(s: seq<Byte>)
    ensures ToLE(|s|, FromLE(s)) == s
  {
    if |s| > 0 {
      ToFromLE(s[1..]);
      assert FromLE(s) % 256 == s[0];
      assert FromLE(s) / 256 == FromLE(s[1..]);
      assert [s[0]] + s[1..] == s;
    }
  }

  /** A value that fits its width reads back from its encoding. */
  lemma DecodeEncode(w: Width, v: nat)
    requires v < w.Bound()
    ensures FromLE(Encode(w, v)) == v
  {
    BoundIsPow256(w);
    FromToLE(w.Size(), v);
  }

  /** Two values of one width have the same encoding only if they are equal. */
  lemma EncodeInjective(w: Width, u: nat, v: nat)
    requires u < w.Bound() && v < w.Bound()
    requires Encode(w, u) == Encode(w, v)
    ensures u == v
  {
    DecodeEncode(w, u);
    DecodeEncode(w, v);
  }

  /** The bytes of a run of words, split after the first k words. */
  lemma {:induction false} EncodeAllSplit(w: Width, vs: seq<nat>, k: nat)
    requires k <= |vs|
    ensures EncodeAll(w, vs) == EncodeAll(w, vs[..k]) + EncodeAll(w, vs[k..])
  {
    if k > 0 {
      EncodeAllSplit(w, vs[1..], k - 1);
      assert vs[..k][1..] == vs[1..][..k - 1];
      assert vs[k..] == vs[1..][k - 1..];
    }
  }

  /** Little-endian bytes of a value that fits in n bytes, widened by m bytes: the extra
      bytes are zero. */
  lemma {:induction false} ToLEWiden(n: nat, m: nat, v: nat)
    requires v < Pow256(n)
    ensures ToLE(n + m, v) == ToLE(n, v) + ToLE(m, 0)
  {
    if n > 0 {
      ToLEWiden(n - 1, m, v / 256);
    }
  }

  /** True when `bytes` occur in data starting at position p. */
  predicate At(data: seq<Byte>, p: nat, bytes: seq<Byte>) {
    p + |bytes| <= |data| && data[p..p + |bytes|] == bytes
  }

  /** Bytes occur at p exactly when their two halves occur one after the other. */
  lemma AtConcat(data: seq<Byte>, p: nat, a: seq<Byte>, b: seq<Byte>)
    ensures At(data, p, a + b) <==> At(data, p, a) && At(data, p + |a|, b)
  {
    if At(data, p, a) && At(data, p + |a|, b) {
      assert data[p..p + |a + b|] == data[p..p + |a|] + data[p + |a|..p + |a| + |b|];
    }
    if At(data, p, a + b) {
      assert data[p..p + |a|] == (a + b)[..|a|];
      assert data[p + |a|..p + |a| + |b|] == (a + b)[|a|..];
    }
  }
}
