/** Anchors: the nodes of the spline network, and their element codec (Anchor.cpp).
    Only two bits of an anchor id have a known meaning: bit 28 marks a sub-anchor
    (one that is not a hub) and bit 23 a water anchor; every other bit is carried
    through untouched. The two coordinates are 32-bit floats that are never computed
    with, so they are carried as their raw 32-bit words. */
module Anchors {
  import opened Wire
  import opened FileReader
  import opened FileWriter

  const SubAnchorBit: nat := 0x1000_0000  // 1 << 28
  const WaterBit: nat := 0x80_0000        // 1 << 23

  predicate IsSubAnchorId(id: nat) {
    (id / SubAnchorBit) % 2 == 1
  }

  predicate IsWaterId(id: nat) {
    (id / WaterBit) % 2 == 1
  }

  datatype Anchor = Anchor(id: U32, posX: U32, posY: U32) {
    /** Not a hub: hub anchors are fixed landmarks, sub-anchors may be renumbered. */
    predicate IsSubAnchor() {
      IsSubAnchorId(id)
    }

    predicate IsWaterAnchor() {
      IsWaterId(id)
    }

    /** The id with the sub-anchor and water bits cleared: the index a person assigned
        within its hub/sub and land/water class. */
    function NiceId(): (n: U32)
      ensures !IsSubAnchorId(n) && !IsWaterId(n)
      ensures n + (if IsSubAnchor() then SubAnchorBit else 0) + (if IsWaterAnchor() then WaterBit else 0) == id
    {
      var noSub := if IsSubAnchor() then id - SubAnchorBit else id;
      assert noSub / WaterBit == if IsSubAnchor() then id / WaterBit - 32 else id / WaterBit;
      assert noSub / SubAnchorBit == if IsSubAnchor() then id / SubAnchorBit - 1 else id / SubAnchorBit;
      if IsWaterAnchor() then noSub - WaterBit else noSub
    }

    /** The id setter used when an anchor is renumbered; the position is kept. */
    function WithId(newId: U32): Anchor {
      this.(id := newId)
    }
  }

  /** The element `Anchor(fileReader, isFinal)` decodes: element header, 0x14, the id,
      0x4c, 0x01, 0x03, 0x0d, posX, 0x0d, posY, element footer. */
  function AnchorAt(data: seq<Byte>, p: nat, isFinal: bool): (r: Parse<Anchor>)
    ensures r.Done? ==> r.next == p + 34
  {
    var (_, p1) :- ElementHeaderAt(data, p);
    var (_, p2) :- ExpectAt(data, p1, W16, 0x14);
    var (id, p3) :- ReadAt(data, p2, W32);
    var (_, p4) :- ExpectAt(data, p3, W16, 0x4c);
    var (_, p5) :- ExpectAt(data, p4, W16, 0x01);
    var (_, p6) :- ExpectAt(data, p5, W16, 0x03);
    var (_, p7) :- ExpectAt(data, p6, W16, 0x0d);
    var (x, p8) :- ReadAt(data, p7, W32);
    var (_, p9) :- ExpectAt(data, p8, W16, 0x0d);
    var (y, p10) :- ReadAt(data, p9, W32);
    var (_, p11) :- ElementFooterAt(data, p10, isFinal);
    Done(Anchor(id, x, y), p11)
  }

  /** The 34 bytes of an anchor element as `Anchor(fileReader, isFinal)` accepts them. */
  function AnchorBytes(a: Anchor, isFinal: bool): (s: seq<Byte>)
    ensures |s| == 34
  {
    ElementHeaderBytes() + Encode(W16, 0x14) + Encode(W32, a.id)
      + Encode(W16, 0x4c) + Encode(W16, 0x01) + Encode(W16, 0x03) + Encode(W16, 0x0d)
      + Encode(W32, a.posX) + Encode(W16, 0x0d) + Encode(W32, a.posY)
      + ElementFooterBytes(isFinal)
  }

  /** Decoding an anchor element succeeds with a, consuming 34 bytes, exactly when the bytes
      at p are the layout of a: any other tag word, or a footer of the other finality, fails. */
  lemma AnchorLayout(data: seq<Byte>, p: nat, a: Anchor, isFinal: bool)
    ensures AnchorAt(data, p, isFinal) == Done(a, p + 34) <==> At(data, p, AnchorBytes(a, isFinal))
  {
    if At(data, p, AnchorBytes(a, isFinal)) {
      AnchorBytesDecode(data, p, a, isFinal);
    }
    if AnchorAt(data, p, isFinal) == Done(a, p + 34) {
      AnchorDecodeBytes(data, p, isFinal);
    }
  }

  /** The pieces of an anchor element, each at its offset. */
  predicate AnchorPiecesAt(data: seq<Byte>, p: nat, a: Anchor, isFinal: bool) {
    && At(data, p, ElementHeaderBytes())
    && At(data, p + 4, Encode(W16, 0x14))
    && At(data, p + 6, Encode(W32, a.id))
    && At(data, p + 10, Encode(W16, 0x4c))
    && At(data, p + 12, Encode(W16, 0x01))
    && At(data, p + 14, Encode(W16, 0x03))
    && At(data, p + 16, Encode(W16, 0x0d))
    && At(data, p + 18, Encode(W32, a.posX))
    && At(data, p + 22, Encode(W16, 0x0d))
    && At(data, p + 24, Encode(W32, a.posY))
    && At(data, p + 28, ElementFooterBytes(isFinal))
  }

  lemma AnchorPieces(data: seq<Byte>, p: nat, a: Anchor, isFinal: bool)
    ensures At(data, p, AnchorBytes(a, isFinal)) <==> AnchorPiecesAt(data, p, a, isFinal)
  {
    var h := ElementHeaderBytes();
    var s1 := h + Encode(W16, 0x14);
    var s2 := s1 + Encode(W32, a.id);
    var s3 := s2 + Encode(W16, 0x4c);
    var s4 := s3 + Encode(W16, 0x01);
    var s5 := s4 + Encode(W16, 0x03);
    var s6 := s5 + Encode(W16, 0x0d);
    var s7 := s6 + Encode(W32, a.posX);
    var s8 := s7 + Encode(W16, 0x0d);
    var s9 := s8 + Encode(W32, a.posY);
    assert AnchorBytes(a, isFinal) == s9 + ElementFooterBytes(isFinal);
    AtConcat(data, p, s9, ElementFooterBytes(isFinal));
    AtConcat(data, p, s8, Encode(W32, a.posY));
    AtConcat(data, p, s7, Encode(W16, 0x0d));
    AtConcat(data, p, s6, Encode(W32, a.posX));
    AtConcat(data, p, s5, Encode(W16, 0x0d));
    AtConcat(data, p, s4, Encode(W16, 0x03));
    AtConcat(data, p, s3, Encode(W16, 0x01));
    AtConcat(data, p, s2, Encode(W16, 0x4c));
    AtConcat(data, p, s1, Encode(W32, a.id));
    AtConcat(data, p, h, Encode(W16, 0x14));
  }

  lemma AnchorBytesDecode(data: seq<Byte>, p: nat, a: Anchor, isFinal: bool)
    requires At(data, p, AnchorBytes(a, isFinal))
    ensures AnchorAt(data, p, isFinal) == Done(a, p + 34)
  {
    AnchorPieces(data, p, a, isFinal);
    ElementHeaderAccepted(data, p);
    ExpectAtEncoded(data, p + 4, W16, 0x14);
    ReadAtEncoded(data, p + 6, W32, a.id);
    ExpectAtEncoded(data, p + 10, W16, 0x4c);
    ExpectAtEncoded(data, p + 12, W16, 0x01);
    ExpectAtEncoded(data, p + 14, W16, 0x03);
    ExpectAtEncoded(data, p + 16, W16, 0x0d);
    ReadAtEncoded(data, p + 18, W32, a.posX);
    ExpectAtEncoded(data, p + 22, W16, 0x0d);
    ReadAtEncoded(data, p + 24, W32, a.posY);
    ElementFooterAccepted(data, p + 28, isFinal);
    assert ElementHeaderAt(data, p).Done? && ElementHeaderAt(data, p).next == p + 4;
    assert ExpectAt(data, p + 4, W16, 0x14) == Done((), p + 6);
    assert ReadAt(data, p + 6, W32) == Done(a.id, p + 10);
    assert ExpectAt(data, p + 10, W16, 0x4c) == Done((), p + 12);
    assert ExpectAt(data, p + 12, W16, 0x01) == Done((), p + 14);
    assert ExpectAt(data, p + 14, W16, 0x03) == Done((), p + 16);
    assert ExpectAt(data, p + 16, W16, 0x0d) == Done((), p + 18);
    assert ReadAt(data, p + 18, W32) == Done(a.posX, p + 22);
    assert ExpectAt(data, p + 22, W16, 0x0d) == Done((), p + 24);
    assert ReadAt(data, p + 24, W32) == Done(a.posY, p + 28);
    assert ElementFooterAt(data, p + 28, isFinal).Done?;
  }

  lemma AnchorDecodeBytes(data: seq<Byte>, p: nat, isFinal: bool)
    requires AnchorAt(data, p, isFinal).Done?
    ensures At(data, p, AnchorBytes(AnchorAt(data, p, isFinal).value, isFinal))
  {
    var a := AnchorAt(data, p, isFinal).value;
    ElementHeaderAccepted(data, p);
    ExpectAtEncoded(data, p + 4, W16, 0x14);
    ReadAtEncoded(data, p + 6, W32, a.id);
    ExpectAtEncoded(data, p + 10, W16, 0x4c);
    ExpectAtEncoded(data, p + 12, W16, 0x01);
    ExpectAtEncoded(data, p + 14, W16, 0x03);
    ExpectAtEncoded(data, p + 16, W16, 0x0d);
    ReadAtEncoded(data, p + 18, W32, a.posX);
    ExpectAtEncoded(data, p + 22, W16, 0x0d);
    ReadAtEncoded(data, p + 24, W32, a.posY);
    ElementFooterAccepted(data, p + 28, isFinal);
    AnchorPieces(data, p, a, isFinal);
  }

  /** A footer of the wrong finality is the only thing wrong: decoding gets through the
      first 32 bytes and fails on the footer's sentinel word. */
  lemma AnchorFinalityChecked(data: seq<Byte>, p: nat, a: Anchor, isFinal: bool)
    requires At(data, p, AnchorBytes(a, !isFinal))
    ensures AnchorAt(data, p, isFinal)
         == Failed(Mismatch(p + 32, W16, FooterSentinel(isFinal), FooterSentinel(!isFinal)))
  {
    AnchorPieces(data, p, a, !isFinal);
    ElementHeaderAccepted(data, p);
    ExpectAtEncoded(data, p + 4, W16, 0x14);
    ReadAtEncoded(data, p + 6, W32, a.id);
    ExpectAtEncoded(data, p + 10, W16, 0x4c);
    ExpectAtEncoded(data, p + 12, W16, 0x01);
    ExpectAtEncoded(data, p + 14, W16, 0x03);
    ExpectAtEncoded(data, p + 16, W16, 0x0d);
    ReadAtEncoded(data, p + 18, W32, a.posX);
    ExpectAtEncoded(data, p + 22, W16, 0x0d);
    ReadAtEncoded(data, p + 24, W32, a.posY);
    FooterFinalityChecked(data, p + 28, isFinal);
  }

  /** `Anchor(fileReader, isFinal)`: decode one anchor element at the cursor. On failure the
      cursor stays where the failing read left it. */
  method ReadAnchor(r: Reader, isFinal: bool) returns (res: Parse<Anchor>)
    modifies r
    ensures res == AnchorAt(r.data, old(r.pos), isFinal)
    ensures r.pos == res.Cursor()
  {
    var _ :- r.ExpectElementHeader();
    var _ :- r.Expect(W16, 0x14);
    var id :- r.Read(W32);
    var _ :- r.Expect(W16, 0x4c);
    var _ :- r.Expect(W16, 0x01);
    var _ :- r.Expect(W16, 0x03);
    var _ :- r.Expect(W16, 0x0d);
    var x :- r.Read(W32);
    var _ :- r.Expect(W16, 0x0d);
    var y :- r.Read(W32);
    var _ :- r.ExpectElementFooter(isFinal);
    res := Done(Anchor(id.0, x.0, y.0), r.pos);
  }
}
