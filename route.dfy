/** Routes: ordered chains of anchors (Route.cpp). A route element carries no length:
    its anchor references are read for as long as the next word is the tag 0x14, which
    is why the loop relies on the element footer beginning with a different word. */
module Routes {
  import opened Wire
  import opened FileReader
  import opened FileWriter
  import opened TaggedRuns

  const RouteTag: nat := 0x029c
  const AnchorRefTag: U16 := 0x14

  /** A route id is taken as 32 bits wide, the width the decoder reads and the width the
      change sets key routes by; its wire form is the id followed by a zero word. */
  datatype Route = Route(id: U32, anchors: seq<U32>) {
    /** The id setter used when a route is renumbered; the anchors are kept. */
    function WithId(newId: U32): Route {
      this.(id := newId)
    }
  }

  /** The fixed part of a route element up to its anchor loop: element header, 0x029c, the
      id (u32), a zero u32, 0x05f7, 0x0001, 0x0003. Returns the id. */
  function RouteHeadAt(data: seq<Byte>, p: nat): (r: Parse<U32>)
    ensures r.Done? ==> r.next == p + 20 <= |data|
  {
    var (_, p1) :- ElementHeaderAt(data, p);
    var (_, p2) :- ExpectAt(data, p1, W16, RouteTag);
    var (id, p3) :- ReadAt(data, p2, W32);
    var (_, p4) :- ExpectAt(data, p3, W32, 0x00);
    var (_, p5) :- ExpectAt(data, p4, W16, 0x05f7);
    var (_, p6) :- ExpectAt(data, p5, W16, 0x0001);
    var (_, p7) :- ExpectAt(data, p6, W16, 0x0003);
    Done(id, p7)
  }

  /** What `Route(fileReader, isFinal)` decodes: the fixed part, the anchor loop, and the
      element footer. */
  function RouteAt(data: seq<Byte>, p: nat, isFinal: bool): (r: Parse<Route>)
    ensures r.Done? ==> r.next == p + 26 + RunLength(W32, |r.value.anchors|) <= |data|
  {
    var (id, p1) :- RouteHeadAt(data, p);
    var (anchors, p2) :- RunAt(data, p1, AnchorRefTag, W32);
    var (_, p3) :- ElementFooterAt(data, p2, isFinal);
    Done(Route(id, anchors), p3)
  }

  /** The fixed 20 bytes before a route's anchor references: element header, 0x029c, the id,
      a zero u32, 0x05f7, 0x0001, 0x0003. */
  function RouteHeadBytes(id: U32): (s: seq<Byte>)
    ensures |s| == 20
  {
    ElementHeaderBytes() + Encode(W16, RouteTag) + Encode(W32, id) + Encode(W32, 0x00)
      + Encode(W16, 0x05f7) + Encode(W16, 0x0001) + Encode(W16, 0x0003)
  }

  /** A route element with a 32-bit id: the layout the decoder accepts, and what the encoder
      writes once its id is written as 32 bits (see RouteBytesAsWritten). */
  function RouteBytes(route: Route, isFinal: bool): (s: seq<Byte>)
    ensures |s| == 26 + RunLength(W32, |route.anchors|)
  {
    RouteHeadBytes(route.id) + RunBytes(AnchorRefTag, W32, route.anchors) + ElementFooterBytes(isFinal)
  }

  predicate RouteHeadPiecesAt(data: seq<Byte>, p: nat, id: U32) {
    && At(data, p, ElementHeaderBytes())
    && At(data, p + 4, Encode(W16, RouteTag))
    && At(data, p + 6, Encode(W32, id))
    && At(data, p + 10, Encode(W32, 0x00))
    && At(data, p + 14, Encode(W16, 0x05f7))
    && At(data, p + 16, Encode(W16, 0x0001))
    && At(data, p + 18, Encode(W16, 0x0003))
  }

  lemma RouteHeadPieces(data: seq<Byte>, p: nat, id: U32)
    ensures At(data, p, RouteHeadBytes(id)) <==> RouteHeadPiecesAt(data, p, id)
  {
    var s1 := ElementHeaderBytes() + Encode(W16, RouteTag);
    var s2 := s1 + Encode(W32, id);
    var s3 := s2 + Encode(W32, 0x00);
    var s4 := s3 + Encode(W16, 0x05f7);
    var s5 := s4 + Encode(W16, 0x0001);
    AtConcat(data, p, s5, Encode(W16, 0x0003));
    AtConcat(data, p, s4, Encode(W16, 0x0001));
    AtConcat(data, p, s3, Encode(W16, 0x05f7));
    AtConcat(data, p, s2, Encode(W32, 0x00));
    AtConcat(data, p, s1, Encode(W32, id));
    AtConcat(data, p, ElementHeaderBytes(), Encode(W16, RouteTag));
  }

  /** The three parts of a route element, each at its offset. */
  lemma RouteParts(data: seq<Byte>, p: nat, route: Route, isFinal: bool)
    ensures At(data, p, RouteBytes(route, isFinal)) <==>
      && At(data, p, RouteHeadBytes(route.id))
      && At(data, p + 20, RunBytes(AnchorRefTag, W32, route.anchors))
      && At(data, p + 20 + RunLength(W32, |route.anchors|), ElementFooterBytes(isFinal))
  {
    var head := RouteHeadBytes(route.id);
    var refs := RunBytes(AnchorRefTag, W32, route.anchors);
    AtConcat(data, p, head + refs, ElementFooterBytes(isFinal));
    AtConcat(data, p, head, refs);
  }

  /** The fixed part decodes id, consuming 20 bytes, exactly when it is laid out as written. */
  lemma RouteHeadLayout(data: seq<Byte>, p: nat, id: U32)
    ensures RouteHeadAt(data, p) == Done(id, p + 20) <==> At(data, p, RouteHeadBytes(id))
  {
    RouteHeadPieces(data, p, id);
    if p + 20 <= |data| {
      ElementHeaderAccepted(data, p);
      ExpectAtEncoded(data, p + 4, W16, RouteTag);
      ReadAtEncoded(data, p + 6, W32, id);
      ExpectAtEncoded(data, p + 10, W32, 0x00);
      ExpectAtEncoded(data, p + 14, W16, 0x05f7);
      ExpectAtEncoded(data, p + 16, W16, 0x0001);
      ExpectAtEncoded(data, p + 18, W16, 0x0003);
    }
  }

  /** The anchor loop reads back the written references and stops at a following 0x04 (the
      first word of every element footer), which is not the anchor tag. */
  lemma AnchorLoopStops(data: seq<Byte>, p: nat, anchors: seq<U32>)
    requires At(data, p, RunBytes(AnchorRefTag, W32, anchors))
    requires At(data, p + RunLength(W32, |anchors|), Encode(W16, 0x04))
    ensures RunAt(data, p, AnchorRefTag, W32) == Done(anchors, p + RunLength(W32, |anchors|))
  {
    U32sFit(anchors);
    RunStop(data, p, AnchorRefTag, W32, anchors, 0x04);
  }

  /** The decoder's three stages, put together. */
  lemma RouteStages(data: seq<Byte>, p: nat, isFinal: bool, id: U32, anchors: seq<U32>, q: nat)
    requires RouteHeadAt(data, p) == Done(id, p + 20)
    requires RunAt(data, p + 20, AnchorRefTag, W32) == Done(anchors, q)
    requires ElementFooterAt(data, q, isFinal).Done?
    ensures RouteAt(data, p, isFinal) == Done(Route(id, anchors), q + 6)
  {
  }

  /** The stages of a route that decodes: its head, its anchor loop, its footer. */
  lemma RouteHeadStageOf(data: seq<Byte>, p: nat, isFinal: bool)
    requires RouteAt(data, p, isFinal).Done?
    ensures RouteHeadAt(data, p) == Done(RouteAt(data, p, isFinal).value.id, p + 20)
  {
  }

  lemma RouteRunStageOf(data: seq<Byte>, p: nat, isFinal: bool)
    requires RouteAt(data, p, isFinal).Done?
    ensures var route := RouteAt(data, p, isFinal).value;
      RunAt(data, p + 20, AnchorRefTag, W32) == Done(route.anchors, p + 20 + RunLength(W32, |route.anchors|))
  {
    RouteHeadStageOf(data, p, isFinal);
  }

  lemma RouteFooterStageOf(data: seq<Byte>, p: nat, isFinal: bool)
    requires RouteAt(data, p, isFinal).Done?
    ensures var route := RouteAt(data, p, isFinal).value;
      ElementFooterAt(data, p + 20 + RunLength(W32, |route.anchors|), isFinal).Done?
  {
    RouteRunStageOf(data, p, isFinal);
  }

  /** The anchor loop and the footer laid out are taken by their stages of the decoder. */
  lemma RouteTailStages(data: seq<Byte>, p: nat, anchors: seq<U32>, isFinal: bool)
    requires At(data, p, RunBytes(AnchorRefTag, W32, anchors))
    requires At(data, p + RunLength(W32, |anchors|), ElementFooterBytes(isFinal))
    ensures RunAt(data, p, AnchorRefTag, W32) == Done(anchors, p + RunLength(W32, |anchors|))
    ensures ElementFooterAt(data, p + RunLength(W32, |anchors|), isFinal).Done?
  {
    var q := p + RunLength(W32, |anchors|);
    FooterBeginsWithEnd(data, q, isFinal);
    AnchorLoopStops(data, p, anchors);
    ElementFooterAccepted(data, q, isFinal);
  }

  lemma RoutePartsDecode(data: seq<Byte>, p: nat, route: Route, isFinal: bool)
    requires At(data, p, RouteHeadBytes(route.id))
    requires At(data, p + 20, RunBytes(AnchorRefTag, W32, route.anchors))
    requires At(data, p + 20 + RunLength(W32, |route.anchors|), ElementFooterBytes(isFinal))
    ensures RouteAt(data, p, isFinal) == Done(route, p + 26 + RunLength(W32, |route.anchors|))
  {
    RouteHeadLayout(data, p, route.id);
    RouteTailStages(data, p + 20, route.anchors, isFinal);
    RouteStages(data, p, isFinal, route.id, route.anchors, p + 20 + RunLength(W32, |route.anchors|));
  }

  lemma RouteDecodeParts(data: seq<Byte>, p: nat, isFinal: bool)
    requires RouteAt(data, p, isFinal).Done?
    ensures var route := RouteAt(data, p, isFinal).value;
      && At(data, p, RouteHeadBytes(route.id))
      && At(data, p + 20, RunBytes(AnchorRefTag, W32, route.anchors))
      && At(data, p + 20 + RunLength(W32, |route.anchors|), ElementFooterBytes(isFinal))
  {
    var route := RouteAt(data, p, isFinal).value;
    RouteHeadStageOf(data, p, isFinal);
    RouteRunStageOf(data, p, isFinal);
    RouteFooterStageOf(data, p, isFinal);
    RouteHeadLayout(data, p, route.id);
    RunDecoded(data, p + 20, AnchorRefTag, W32);
    ElementFooterAccepted(data, p + 20 + RunLength(W32, |route.anchors|), isFinal);
  }

  /** Decoding a route element succeeds with `route` exactly when the bytes at p are its
      layout; so a decoded route re-encodes to the bytes it came from, and an encoded route
      decodes to itself, with the anchor loop stopping exactly at the footer. */
  lemma RouteLayout(data: seq<Byte>, p: nat, route: Route, isFinal: bool)
    ensures RouteAt(data, p, isFinal) == Done(route, p + 26 + RunLength(W32, |route.anchors|))
        <==> At(data, p, RouteBytes(route, isFinal))
  {
    RouteParts(data, p, route, isFinal);
    if At(data, p, RouteBytes(route, isFinal)) {
      RoutePartsDecode(data, p, route, isFinal);
    }
    if RouteAt(data, p, isFinal) == Done(route, p + 26 + RunLength(W32, |route.anchors|)) {
      RouteDecodeParts(data, p, isFinal);
    }
  }

  /** The fixed part of the route decoder, at the cursor. */
  method ReadRouteHead(r: Reader) returns (res: Parse<U32>)
    modifies r
    ensures res == RouteHeadAt(r.data, old(r.pos))
    ensures r.pos == res.Cursor()
  {
    var _ :- r.ExpectElementHeader();
    var _ :- r.Expect(W16, RouteTag);
    var id :- r.Read(W32);
    var _ :- r.Expect(W32, 0x00);
    var _ :- r.Expect(W16, 0x05f7);
    var _ :- r.Expect(W16, 0x0001);
    var _ :- r.Expect(W16, 0x0003);
    res := Done(id.0, r.pos);
  }

  /** `Route(fileReader, isFinal)`: decode one route element at the cursor. */
  method ReadRoute(r: Reader, isFinal: bool) returns (res: Parse<Route>)
    modifies r
    ensures res == RouteAt(r.data, old(r.pos), isFinal)
    ensures r.pos == res.Cursor()
  {
    var id :- ReadRouteHead(r);
    var anchors :- ReadRun(r, AnchorRefTag, W32);
    var _ :- r.ExpectElementFooter(isFinal);
    res := Done(Route(id.0, anchors.0), r.pos);
  }

  /** The fixed part of `writeToFile`: element header, 0x029c, the id as 32 bits, a zero
      u32, 0x05f7, 0x0001, 0x0003. */
  method WriteRouteHead(w: Writer, id: U32)
    requires w.Valid()
    modifies w
    ensures w.Valid() && w.out == old(w.out) + RouteHeadBytes(id)
  {
    ghost var o := w.out;
    w.WriteElementHeader();
    ghost var s := ElementHeaderBytes();
    w.Write(W16, RouteTag);
    assert w.out == o + (s + Encode(W16, RouteTag));
    s := s + Encode(W16, RouteTag);
    w.Write(W32, id);
    assert w.out == o + (s + Encode(W32, id));
    s := s + Encode(W32, id);
    w.Write(W32, 0x00);
    assert w.out == o + (s + Encode(W32, 0x00));
    s := s + Encode(W32, 0x00);
    w.Write(W16, 0x05f7);
    assert w.out == o + (s + Encode(W16, 0x05f7));
    s := s + Encode(W16, 0x05f7);
    w.Write(W16, 0x0001);
    assert w.out == o + (s + Encode(W16, 0x0001));
    s := s + Encode(W16, 0x0001);
    w.Write(W16, 0x0003);
    assert w.out == o + (s + Encode(W16, 0x0003));
  }

  /** `writeToFile(fileWriter, isFinal)` with the id written as 32 bits: the fixed part, one
      (0x14, id) pair per anchor in order, and the footer. */
  method WriteRoute(w: Writer, route: Route, isFinal: bool)
    requires w.Valid()
    modifies w
    ensures w.Valid() && w.out == old(w.out) + RouteBytes(route, isFinal)
  {
    ghost var o := w.out;
    ghost var head := RouteHeadBytes(route.id);
    ghost var refs := RunBytes(AnchorRefTag, W32, route.anchors);
    ghost var foot := ElementFooterBytes(isFinal);
    WriteRouteHead(w, route.id);
    U32sFit(route.anchors);
    WriteRun(w, AnchorRefTag, W32, route.anchors);
    assert w.out == o + head + refs;
    w.WriteElementFooter(isFinal);
    assert w.out == o + (head + refs + foot);
  }

  /** What `writeToFile` emits as written: `_id` is declared 64 bits wide, so the id takes
      8 bytes, and the zero u32 follows it. */
  function RouteBytesAsWritten(route: Route, isFinal: bool): (s: seq<Byte>)
    ensures |s| == 30 + RunLength(W32, |route.anchors|)
  {
    ElementHeaderBytes() + Encode(W16, RouteTag) + Encode(W64, route.id) + Encode(W32, 0x00)
      + Encode(W16, 0x05f7) + Encode(W16, 0x0001) + Encode(W16, 0x0003)
      + RunBytes(AnchorRefTag, W32, route.anchors) + ElementFooterBytes(isFinal)
  }

  /** The id written as 64 bits is the id as 32 bits followed by two zero u16 words. */
  lemma WideId(id: U32)
    ensures Encode(W64, id) == Encode(W32, id) + Encode(W32, 0x00)
    ensures Encode(W32, 0x00) == Encode(W16, 0x00) + Encode(W16, 0x00)
  {
    BoundIsPow256(W32);
    ToLEWiden(4, 4, id);
    ToLEWiden(2, 2, 0);
  }

  /** Where the bytes written as written sit relative to what the decoder reads. */
  predicate AsWrittenPiecesAt(data: seq<Byte>, p: nat, id: U32) {
    && At(data, p, ElementHeaderBytes())
    && At(data, p + 4, Encode(W16, RouteTag))
    && At(data, p + 6, Encode(W32, id))
    && At(data, p + 10, Encode(W32, 0x00))
    && At(data, p + 14, Encode(W16, 0x00))
  }

  lemma AsWrittenPieces(data: seq<Byte>, p: nat, route: Route, isFinal: bool)
    requires At(data, p, RouteBytesAsWritten(route, isFinal))
    ensures AsWrittenPiecesAt(data, p, route.id)
  {
    var s1 := ElementHeaderBytes() + Encode(W16, RouteTag);
    var s2 := s1 + Encode(W64, route.id);
    var s3 := s2 + Encode(W32, 0x00);
    var s4 := s3 + Encode(W16, 0x05f7);
    var s5 := s4 + Encode(W16, 0x0001);
    var s6 := s5 + Encode(W16, 0x0003);
    var s7 := s6 + RunBytes(AnchorRefTag, W32, route.anchors);
    AtConcat(data, p, s7, ElementFooterBytes(isFinal));
    AtConcat(data, p, s6, RunBytes(AnchorRefTag, W32, route.anchors));
    AtConcat(data, p, s5, Encode(W16, 0x0003));
    AtConcat(data, p, s4, Encode(W16, 0x0001));
    AtConcat(data, p, s3, Encode(W16, 0x05f7));
    AtConcat(data, p, s2, Encode(W32, 0x00));
    AtConcat(data, p, s1, Encode(W64, route.id));
    AtConcat(data, p, ElementHeaderBytes(), Encode(W16, RouteTag));
    WideId(route.id);
    AtConcat(data, p + 6, Encode(W32, route.id), Encode(W32, 0x00));
    AtConcat(data, p + 14, Encode(W16, 0x00), Encode(W16, 0x00));
  }

  /** The decoder rejects every route the encoder writes as written: it takes the id's high
      half for the zero word and then finds the zero word where 0x05f7 should be. */
  lemma RouteAsWrittenRejected(data: seq<Byte>, p: nat, route: Route, isFinal: bool)
    requires At(data, p, RouteBytesAsWritten(route, isFinal))
    ensures RouteAt(data, p, isFinal) == Failed(Mismatch(p + 14, W16, 0x05f7, 0x00))
  {
    AsWrittenPieces(data, p, route, isFinal);
    assert RouteHeadAt(data, p) == Failed(Mismatch(p + 14, W16, 0x05f7, 0x00)) by {
      ElementHeaderAccepted(data, p);
      ExpectAtEncoded(data, p + 4, W16, RouteTag);
      ReadAtEncoded(data, p + 6, W32, route.id);
      ExpectAtEncoded(data, p + 10, W32, 0x00);
      ReadAtEncoded(data, p + 14, W16, 0x00);
    }
  }

  /** The anchor an id is replaced by under a remap table: the mapped id if it has one. */
  function MapThrough(m: map<U32, U32>, a: U32): U32 {
    if a in m then m[a] else a
  }

  /** `remapAnchors(map)`: each anchor id that is a key of the table is replaced by its
      image; the others, the order and the length are kept. */
  method RemapAnchors(route: Route, m: map<U32, U32>) returns (r: Route)
    ensures r.id == route.id && |r.anchors| == |route.anchors|
    ensures forall i | 0 <= i < |route.anchors| ::
      r.anchors[i] == if route.anchors[i] in m then m[route.anchors[i]] else route.anchors[i]
    ensures (forall k | k in m :: m[k] == k) ==> r == route
  {
    var anchors := route.anchors;
    for i := 0 to |anchors|
      invariant |anchors| == |route.anchors|
      invariant forall j | 0 <= j < i :: anchors[j] == MapThrough(m, route.anchors[j])
      invariant forall j | i <= j < |anchors| :: anchors[j] == route.anchors[j]
    {
      if anchors[i] in m {
        anchors := anchors[i := m[anchors[i]]];
      }
    }
    r := route.(anchors := anchors);
  }
}
