/** The writer of spline-network files (SplnetFileWriter) and the fixed framing it emits.
    The output stream is the growing byte sequence `out`; `_writePos` is `pos`. */
module FileWriter {
  import opened Wire
  import opened FileReader

  /** What `writeSectionHeader(id)` appends: id, 0x01, 0x03, 0x03 as u16 words. */
  function SectionHeaderBytes(id: U16): (s: seq<Byte>)
    ensures |s| == 8
  {
    Encode(W16, id) + Encode(W16, 0x01) + Encode(W16, 0x03) + Encode(W16, 0x03)
  }

  /** What `writeElementHeader()` appends: 0x0b, 0x01 as u16 words. */
  function ElementHeaderBytes(): (s: seq<Byte>)
    ensures |s| == 4
  {
    Encode(W16, 0x0b) + Encode(W16, 0x01)
  }

  /** What `writeElementFooter(isFinal)` appends: 0x04, 0x04, then 0x04 for the last element
      of a list and 0x03 otherwise. */
  function ElementFooterBytes(isFinal: bool): (s: seq<Byte>)
    ensures |s| == 6
  {
    Encode(W16, 0x04) + Encode(W16, 0x04) + Encode(W16, FooterSentinel(isFinal))
  }

  class Writer {
    var out: seq<Byte>
    var pos: nat

    /** The write position always equals the number of bytes written. */
    ghost predicate Valid()
      reads this
    {
      pos == |out|
    }

    /** A writer on a freshly truncated file. */
    constructor ()
      ensures Valid() && out == []
    {
      out := [];
      pos := 0;
    }

    /** `write<T>(v)`: append the sizeof(T) bytes of v; earlier bytes stay as they are. */
    method Write(w: Width, v: nat)
      requires Valid() && v < w.Bound()
      modifies this
      ensures Valid()
      ensures out == old(out) + Encode(w, v)
      ensures pos == old(pos) + w.Size()
    {
      out := out + Encode(w, v);
      pos := pos + w.Size();
    }

    method WriteSectionHeader(id: U16)
      requires Valid()
      modifies this
      ensures Valid() && out == old(out) + SectionHeaderBytes(id)
    {
      Write(W16, id);
      Write(W16, 0x01);
      Write(W16, 0x03);
      Write(W16, 0x03);
    }

    method WriteElementHeader()
      requires Valid()
      modifies this
      ensures Valid() && out == old(out) + ElementHeaderBytes()
    {
      Write(W16, 0x0b);
      Write(W16, 0x01);
    }

    method WriteElementFooter(isFinal: bool)
      requires Valid()
      modifies this
      ensures Valid() && out == old(out) + ElementFooterBytes(isFinal)
    {
      Write(W16, 0x04);
      Write(W16, 0x04);
      // The last element ends in the sentinel 0x04 instead of 0x03.
      if isFinal {
        Write(W16, 0x04);
      } else {
        Write(W16, 0x03);
      }
    }
  }

  lemma SpellOut3(w: Width, a: nat, b: nat, c: nat)
    ensures EncodeAll(w, [a, b, c]) == Encode(w, a) + Encode(w, b) + Encode(w, c)
  {
    assert [c][1..] == [];
    assert EncodeAll(w, [c]) == Encode(w, c) + [] == Encode(w, c);
    assert [b, c][1..] == [c];
    assert EncodeAll(w, [b, c]) == Encode(w, b) + Encode(w, c);
    assert [a, b, c][1..] == [b, c];
  }

  lemma SpellOut4(w: Width, a: nat, b: nat, c: nat, d: nat)
    ensures EncodeAll(w, [a, b, c, d]) == Encode(w, a) + Encode(w, b) + Encode(w, c) + Encode(w, d)
  {
    var vs := [a, b, c, d];
    assert vs[1..] == [b, c, d];
    SpellOut3(w, b, c, d);
  }

  /** Reading at the offset where a value was written, whatever follows, returns that value. */
  lemma ReadAfterWrite(before: seq<Byte>, w: Width, v: nat, after: seq<Byte>)
    requires v < w.Bound()
    ensures ReadAt(before + Encode(w, v) + after, |before|, w) == Done(v, |before| + w.Size())
  {
    var data := before + Encode(w, v) + after;
    assert data[|before|..|before| + w.Size()] == Encode(w, v);
    ReadAtEncoded(data, |before|, w, v);
  }

  /** `expectSectionHeader(id)` accepts exactly what `writeSectionHeader(id)` writes, and
      consumes those 8 bytes. */
  lemma SectionHeaderAccepted(data: seq<Byte>, p: nat, id: U16)
    requires p <= |data|
    ensures SectionHeaderAt(data, p, id).Done? <==> At(data, p, SectionHeaderBytes(id))
    ensures SectionHeaderAt(data, p, id).Done? ==> SectionHeaderAt(data, p, id).next == p + 8
  {
    SpellOut4(W16, id, 0x01, 0x03, 0x03);
    ExpectAllAccepts(data, p, W16, [id, 0x01, 0x03, 0x03]);
  }

  /** `expectElementHeader()` accepts exactly what `writeElementHeader()` writes, 4 bytes. */
  lemma ElementHeaderAccepted(data: seq<Byte>, p: nat)
    requires p <= |data|
    ensures ElementHeaderAt(data, p).Done? <==> At(data, p, ElementHeaderBytes())
    ensures ElementHeaderAt(data, p).Done? ==> ElementHeaderAt(data, p).next == p + 4
  {
    assert EncodeAll(W16, [0x0b, 0x01]) == ElementHeaderBytes() by {
      assert [0x0b, 0x01][1..] == [0x01];
      assert [0x01][1..] == [];
    }
    ExpectAllAccepts(data, p, W16, [0x0b, 0x01]);
  }

  /** `expectElementFooter(isFinal)` accepts exactly what `writeElementFooter(isFinal)`
      writes, 6 bytes. */
  lemma ElementFooterAccepted(data: seq<Byte>, p: nat, isFinal: bool)
    requires p <= |data|
    ensures ElementFooterAt(data, p, isFinal).Done? <==> At(data, p, ElementFooterBytes(isFinal))
    ensures ElementFooterAt(data, p, isFinal).Done? ==> ElementFooterAt(data, p, isFinal).next == p + 6
  {
    SpellOut3(W16, 0x04, 0x04, FooterSentinel(isFinal));
    ExpectAllAccepts(data, p, W16, [0x04, 0x04, FooterSentinel(isFinal)]);
  }

  /** A footer written with the other finality is rejected at its third word, where only the
      sentinel differs. */
  lemma FooterFinalityChecked(data: seq<Byte>, p: nat, isFinal: bool)
    requires At(data, p, ElementFooterBytes(!isFinal))
    ensures ElementFooterAt(data, p, isFinal)
         == Failed(Mismatch(p + 4, W16, FooterSentinel(isFinal), FooterSentinel(!isFinal)))
  {
    var other := FooterSentinel(!isFinal);
    AtConcat(data, p, Encode(W16, 0x04) + Encode(W16, 0x04), Encode(W16, other));
    AtConcat(data, p, Encode(W16, 0x04), Encode(W16, 0x04));
    ReadAtEncoded(data, p, W16, 0x04);
    ReadAtEncoded(data, p + 2, W16, 0x04);
    ReadAtEncoded(data, p + 4, W16, other);
    var sentinel := FooterSentinel(isFinal);
    assert ElementFooterAt(data, p, isFinal) == ExpectAllAt(data, p, W16, [0x04, 0x04, sentinel]);
    assert ExpectAllAt(data, p, W16, [0x04, 0x04, sentinel]) == ExpectAllAt(data, p + 2, W16, [0x04, sentinel]);
    assert ExpectAllAt(data, p + 2, W16, [0x04, sentinel]) == ExpectAllAt(data, p + 4, W16, [sentinel]);
  }

  /** Wherever a footer is written, the word at its start is 0x04. */
  lemma FooterBeginsWithEnd(data: seq<Byte>, p: nat, isFinal: bool)
    requires At(data, p, ElementFooterBytes(isFinal))
    ensures At(data, p, Encode(W16, 0x04))
  {
    AtConcat(data, p, Encode(W16, 0x04) + Encode(W16, 0x04), Encode(W16, FooterSentinel(isFinal)));
    AtConcat(data, p, Encode(W16, 0x04), Encode(W16, 0x04));
  }
}
