/** The cursor-based reader of spline-network files (SplnetFileReader).
    The file is an in-memory byte sequence; the stream's read position is `pos`.
    Every operation is given twice: as a pure function of the bytes and a start
    position (the specification, returning the value and the position after it),
    and as a method of `Reader` that moves the cursor, proved equal to the function. */
module FileReader {
  import opened Wire

  /** Why a read failed. The stream throws when it runs out of bytes; `expect`
      throws, after its read, when the value is not the expected one. */
  datatype Error =
    | EndOfInput(at: nat, width: Width)
    | Mismatch(at: nat, width: Width, expected: nat, actual: nat)
  {
    /** Where the cursor stands once the failing operation has thrown: a read past
        the end never advances it, a mismatching value has already been consumed. */
    function After(): nat {
      if Mismatch? then at + width.Size() else at
    }
  }

  /** The outcome of reading something at a position: the value and the position after it. */
  datatype Parse<+T> = Done(value: T, next: nat) | Failed(error: Error) {
    predicate IsFailure() {
      Failed?
    }

    function PropagateFailure<U>(): Parse<U>
      requires Failed?
    {
      Failed(error)
    }

    function Extract(): (T, nat)
      requires Done?
    {
      (value, next)
    }

    /** The reader's position after the operation, whether it succeeded or threw. */
    function Cursor(): nat {
      if Done? then next else error.After()
    }
  }

  /** `read<T>()`: the value of the next sizeof(T) bytes; past the end of input it fails. */
  function ReadAt(data: seq<Byte>, p: nat, w: Width): (r: Parse<nat>)
    ensures r.Done? <==> p + w.Size() <= |data|
    ensures r.Done? ==> r.value < w.Bound() && r.next == p + w.Size()
    ensures r.Failed? ==> r.error == EndOfInput(p, w)
  {
    BoundIsPow256(w);
    if p + w.Size() <= |data| then Done(FromLE(data[p..p + w.Size()]), p + w.Size())
    else Failed(EndOfInput(p, w))
  }

  /** `expect<T>(v)`: read a value and fail, reporting where it started, unless it is v. */
  function ExpectAt(data: seq<Byte>, p: nat, w: Width, v: nat): (r: Parse<()>)
    ensures r.Done? ==> r.next == p + w.Size() <= |data|
  {
    var (got, q) :- ReadAt(data, p, w);
    if got == v then Done((), q) else Failed(Mismatch(p, w, v, got))
  }

  /** `peek<T>()`: the value `read<T>()` would return, without moving the cursor. */
  function PeekAt(data: seq<Byte>, p: nat, w: Width): (r: Parse<nat>)
    ensures r.Done? <==> ReadAt(data, p, w).Done?
    ensures r.Done? ==> r.next == p && r.value == ReadAt(data, p, w).value
    ensures r.Failed? ==> r.error.After() == p
  {
    var (got, _) :- ReadAt(data, p, w);
    Done(got, p)
  }

  /** A run of `expect` calls of one width, one after the other. */
  function ExpectAllAt(data: seq<Byte>, p: nat, w: Width, vs: seq<nat>): (r: Parse<()>)
    ensures r.Done? ==> r.next == p + w.Size() * |vs|
    ensures r.Done? && vs != [] ==> r.next <= |data|
    decreases |vs|
  {
    if vs == [] then Done((), p)
    else
      var (_, q) :- ExpectAt(data, p, w, vs[0]);
      ExpectAllAt(data, q, w, vs[1..])
  }

  /** `expectSectionHeader(id)`: the section id, then 0x01, 0x03, 0x03. */
  function SectionHeaderAt(data: seq<Byte>, p: nat, id: U16): (r: Parse<()>)
    ensures r.Done? ==> r.next == p + 8 <= |data|
  {
    ExpectAllAt(data, p, W16, [id, 0x01, 0x03, 0x03])
  }

  /** `expectElementHeader()`: 0x0b, 0x01. */
  function ElementHeaderAt(data: seq<Byte>, p: nat): (r: Parse<()>)
    ensures r.Done? ==> r.next == p + 4 <= |data|
  {
    ExpectAllAt(data, p, W16, [0x0b, 0x01])
  }

  /** `expectElementFooter(isFinal)`: 0x04, 0x04, then 0x04 for the last element of a list
      and 0x03 for any other. */
  function ElementFooterAt(data: seq<Byte>, p: nat, isFinal: bool): (r: Parse<()>)
    ensures r.Done? ==> r.next == p + 6 <= |data|
  {
    ExpectAllAt(data, p, W16, [0x04, 0x04, FooterSentinel(isFinal)])
  }

  /** The third footer word: 0x04 closes the last element of a list, 0x03 any other. */
  function FooterSentinel(isFinal: bool): U16 {
    if isFinal then 0x04 else 0x03
  }

  /** A read returns v and consumes exactly its width precisely when the next bytes encode v. */
  lemma ReadAtEncoded(data: seq<Byte>, p: nat, w: Width, v: nat)
    requires v < w.Bound()
    ensures ReadAt(data, p, w) == Done(v, p + w.Size()) <==> At(data, p, Encode(w, v))
  {
    if At(data, p, Encode(w, v)) {
      DecodeEncode(w, v);
    }
    if ReadAt(data, p, w) == Done(v, p + w.Size()) {
      ToFromLE(data[p..p + w.Size()]);
    }
  }

  /** An expect succeeds, consuming exactly its width, precisely when the next bytes encode
      the expected value; when it fails it reports the start of the value it read. */
  lemma ExpectAtEncoded(data: seq<Byte>, p: nat, w: Width, v: nat)
    requires v < w.Bound()
    ensures ExpectAt(data, p, w, v).Done? <==> At(data, p, Encode(w, v))
    ensures ExpectAt(data, p, w, v).Done? ==> ExpectAt(data, p, w, v).next == p + w.Size()
    ensures ExpectAt(data, p, w, v).Failed? ==> ExpectAt(data, p, w, v).error.at == p
  {
    ReadAtEncoded(data, p, w, v);
  }

  /** A peek followed by a read at the same position yields the same value twice, and the
      peek leaves the position where it was. */
  lemma PeekThenRead(data: seq<Byte>, p: nat, w: Width)
    requires PeekAt(data, p, w).Done?
    ensures ReadAt(data, p, w).Done?
    ensures ReadAt(data, p, w).value == PeekAt(data, p, w).value
    ensures PeekAt(data, p, w).next == p && ReadAt(data, p, w).next == p + w.Size()
  {
  }

  predicate AllFit(w: Width, vs: seq<nat>) {
    forall i :: 0 <= i < |vs| ==> vs[i] < w.Bound()
  }

  lemma U32sFit(vs: seq<U32>)
    ensures AllFit(W32, vs)
  {
    forall i | 0 <= i < |vs| ensures vs[i] < W32.Bound() {
      assert vs[i] < 0x1_0000_0000;
    }
  }

  lemma U64sFit(vs: seq<U64>)
    ensures AllFit(W64, vs)
  {
    forall i | 0 <= i < |vs| ensures vs[i] < W64.Bound() {
      assert vs[i] < 0x1_0000_0000_0000_0000;
    }
  }

  /** A run of expects accepts exactly the encoding of the expected words and then stands
      just after it. */
  lemma {:induction false} ExpectAllAccepts(data: seq<Byte>, p: nat, w: Width, vs: seq<nat>)
    requires p <= |data| && AllFit(w, vs)
    ensures ExpectAllAt(data, p, w, vs).Done? <==> At(data, p, EncodeAll(w, vs))
    ensures ExpectAllAt(data, p, w, vs).Done? ==>
              ExpectAllAt(data, p, w, vs).next == p + w.Size() * |vs|
    decreases |vs|
  {
    if vs != [] {
      var first := ExpectAt(data, p, w, vs[0]);
      ExpectAtEncoded(data, p, w, vs[0]);
      assert EncodeAll(w, vs) == Encode(w, vs[0]) + EncodeAll(w, vs[1..]);
      AtConcat(data, p, Encode(w, vs[0]), EncodeAll(w, vs[1..]));
      if first.Done? {
        assert ExpectAllAt(data, p, w, vs) == ExpectAllAt(data, p + w.Size(), w, vs[1..]);
      } else {
        assert ExpectAllAt(data, p, w, vs) == Failed(first.error);
      }
      assert AllFit(w, vs[1..]) by {
        forall i | 0 <= i < |vs[1..]| ensures vs[1..][i] < w.Bound() {
          assert vs[1..][i] == vs[i + 1];
        }
      }
      if first.Done? {
        ExpectAllAccepts(data, p + w.Size(), w, vs[1..]);
        assert w.Size() * |vs| == w.Size() + w.Size() * |vs[1..]|;
      }
    }
  }

  /** A failing run of expects fails at its first wrong (or missing) word k: every word
      before k was right, and the error names the offset of word k, its expected value and
      the value actually found there. */
  lemma {:induction false} ExpectAllFirstMismatch(data: seq<Byte>, p: nat, w: Width, vs: seq<nat>)
    returns (k: nat)
    requires AllFit(w, vs)
    requires ExpectAllAt(data, p, w, vs).Failed?
    ensures k < |vs|
    ensures k > 0 ==> At(data, p, EncodeAll(w, vs[..k]))
    ensures ExpectAt(data, p + w.Size() * k, w, vs[k]).Failed?
    ensures ExpectAllAt(data, p, w, vs).error == ExpectAt(data, p + w.Size() * k, w, vs[k]).error
    decreases |vs|
  {
    var first := ExpectAt(data, p, w, vs[0]);
    if first.Failed? {
      k := 0;
      assert ExpectAllAt(data, p, w, vs) == Failed(first.error);
    } else {
      ExpectAtEncoded(data, p, w, vs[0]);
      assert ExpectAllAt(data, p, w, vs) == ExpectAllAt(data, p + w.Size(), w, vs[1..]);
      assert AllFit(w, vs[1..]) by {
        forall i | 0 <= i < |vs[1..]| ensures vs[1..][i] < w.Bound() {
          assert vs[1..][i] == vs[i + 1];
        }
      }
      var j := ExpectAllFirstMismatch(data, p + w.Size(), w, vs[1..]);
      k := j + 1;
      assert p + w.Size() * k == (p + w.Size()) + w.Size() * j;
      assert vs[k] == vs[1..][j];
      EncodedPrefixStep(data, p, w, vs, j);
    }
  }

  /** A first value in place, followed by the next j values, is the first j + 1 values in place. */
  lemma EncodedPrefixStep(data: seq<Byte>, p: nat, w: Width, vs: seq<nat>, j: nat)
    requires j < |vs| - 1
    requires At(data, p, Encode(w, vs[0]))
    requires j > 0 ==> At(data, p + w.Size(), EncodeAll(w, vs[1..][..j]))
    ensures At(data, p, EncodeAll(w, vs[..j + 1]))
  {
    assert vs[..j + 1] == [vs[0]] + vs[1..][..j];
    assert EncodeAll(w, vs[..j + 1]) == Encode(w, vs[0]) + EncodeAll(w, vs[1..][..j]);
    AtConcat(data, p, Encode(w, vs[0]), EncodeAll(w, vs[1..][..j]));
    if j == 0 {
      assert EncodeAll(w, vs[1..][..j]) == [];
      assert Encode(w, vs[0]) + [] == Encode(w, vs[0]);
    }
  }

  /** The error of a failing expect: a mismatch names the offset, the expected value and the
      value found there; a missing value is one that runs past the end of the input. */
  lemma ExpectAtFailure(data: seq<Byte>, p: nat, w: Width, v: nat)
    requires ExpectAt(data, p, w, v).Failed?
    ensures ExpectAt(data, p, w, v).error.at == p && ExpectAt(data, p, w, v).error.width == w
    ensures ExpectAt(data, p, w, v).error.Mismatch? ==>
              && ExpectAt(data, p, w, v).error.expected == v
              && ExpectAt(data, p, w, v).error.actual != v
              && ReadAt(data, p, w) == Done(ExpectAt(data, p, w, v).error.actual, p + w.Size())
    ensures ExpectAt(data, p, w, v).error.EndOfInput? ==> |data| < p + w.Size()
  {
  }

  /** The reader over an in-memory file. `_readPos` is `pos`; the file contents never change. */
  class Reader {
    const data: seq<Byte>
    var pos: nat

    constructor (data: seq<Byte>)
      ensures this.data == data && pos == 0
    {
      this.data := data;
      pos := 0;
    }

    method Read(w: Width) returns (r: Parse<nat>)
      modifies this
      ensures r == ReadAt(data, old(pos), w)
      ensures pos == r.Cursor()
    {
      if pos + w.Size() <= |data| {
        BoundIsPow256(w);
        r := Done(FromLE(data[pos..pos + w.Size()]), pos + w.Size());
        pos := pos + w.Size();
      } else {
        r := Failed(EndOfInput(pos, w));
      }
    }

    method Expect(w: Width, v: nat) returns (r: Parse<()>)
      modifies this
      ensures r == ExpectAt(data, old(pos), w, v)
      ensures pos == r.Cursor()
    {
      var got := Read(w);
      if got.Failed? {
        return Failed(got.error);
      }
      if got.value != v {
        return Failed(Mismatch(pos - w.Size(), w, v, got.value));
      }
      r := Done((), pos);
    }

    method Peek(w: Width) returns (r: Parse<nat>)
      modifies this
      ensures r == PeekAt(data, old(pos), w)
      ensures pos == old(pos)
    {
      var start := pos;
      var got := Read(w);
      if got.Failed? {
        return Failed(got.error);
      }
      pos := pos - w.Size();
      assert pos == start;
      r := Done(got.value, start);
    }

    method ExpectSectionHeader(id: U16) returns (r: Parse<()>)
      modifies this
      ensures r == SectionHeaderAt(data, old(pos), id)
      ensures pos == r.Cursor()
    {
      r := Expect(W16, id);
      if r.Failed? { return; }
      assert SectionHeaderAt(data, old(pos), id) == ExpectAllAt(data, pos, W16, [0x01, 0x03, 0x03]);
      r := Expect(W16, 0x01);
      if r.Failed? { return; }
      assert SectionHeaderAt(data, old(pos), id) == ExpectAllAt(data, pos, W16, [0x03, 0x03]);
      r := Expect(W16, 0x03);
      if r.Failed? { return; }
      assert SectionHeaderAt(data, old(pos), id) == ExpectAllAt(data, pos, W16, [0x03]);
      r := Expect(W16, 0x03);
    }

    method ExpectElementHeader() returns (r: Parse<()>)
      modifies this
      ensures r == ElementHeaderAt(data, old(pos))
      ensures pos == r.Cursor()
    {
      r := Expect(W16, 0x0b);
      if r.Failed? { return; }
      assert ElementHeaderAt(data, old(pos)) == ExpectAllAt(data, pos, W16, [0x01]);
      r := Expect(W16, 0x01);
    }

    method ExpectElementFooter(isFinal: bool) returns (r: Parse<()>)
      modifies this
      ensures r == ElementFooterAt(data, old(pos), isFinal)
      ensures pos == r.Cursor()
    {
      var sentinel: nat := FooterSentinel(isFinal);
      assert ElementFooterAt(data, pos, isFinal) == ExpectAllAt(data, pos, W16, [0x04, 0x04, sentinel]);
      r := Expect(W16, 0x04);
      if r.Failed? { return; }
      assert ElementFooterAt(data, old(pos), isFinal) == ExpectAllAt(data, pos, W16, [0x04, sentinel]);
      r := Expect(W16, 0x04);
      if r.Failed? { return; }
      assert ElementFooterAt(data, old(pos), isFinal) == ExpectAllAt(data, pos, W16, [sentinel]);
      // The last element ends in the sentinel 0x04 instead of 0x03.
      assert [sentinel][1..] == [];
      if isFinal {
        r := Expect(W16, 0x04);
      } else {
        r := Expect(W16, 0x03);
      }
      assert r == ExpectAllAt(data, old(pos) + 4, W16, [sentinel]);
    }
  }
}
