/** Strips: the connections between two anchors, each carried by one or more routes
    (Strip.hpp, Strip.cpp). The two endpoint ids are stored packed: the source id shifted
    left by 6 above a 6-bit type, the destination id shifted left by 3. All shifts are on
    32-bit words, so high bits of an id that do not fit are dropped. */
module Strips {
  import opened Wire
  import opened FileReader
  import opened FileWriter
  import opened TaggedRuns

  const StripTag: U16 := 0x029c
  const RouteRefTag: U16 := 0x029c

  const Word: nat := 0x1_0000_0000   // 2^32, the wrap-around of a uint32_t
  const TypeSpan: nat := 64          // 1 << 6
  const DestinationSpan: nat := 8    // 1 << 3

  datatype Strip = Strip(rawSource: U32, rawDestination: U32, routeIds: seq<U64>) {
    /** `type()`: the low 6 bits of the raw source id. Dirt road, railroad, sea and port
        connection are 0 to 3; the other values are carried as they are. */
    function Type(): (t: nat)
      ensures t < TypeSpan && rawSource == SourceId() * TypeSpan + t
    {
      rawSource % TypeSpan
    }

    /** `sourceID()`: the raw source id shifted right by 6. */
    function SourceId(): (id: nat)
      ensures id < Word / TypeSpan
    {
      rawSource / TypeSpan
    }

    /** `destinationID()`: the raw destination id shifted right by 3; the three low bits
        are dropped. */
    function DestinationId(): (id: nat)
      ensures id < Word / DestinationSpan
      ensures rawDestination - id * DestinationSpan < DestinationSpan
    {
      rawDestination / DestinationSpan
    }

    /** `sourceID(set)`: the type bits, or'ed with `set << 6` as a 32-bit word. The
        shifted word has its six low bits clear, so the `|` is an addition. */
    function WithSourceId(newId: U32): Strip {
      this.(rawSource := Type() + (newId * TypeSpan) % Word)
    }

    /** `destinationID(set)`: `set << 3` as a 32-bit word. */
    function WithDestinationId(newId: U32): Strip {
      this.(rawDestination := (newId * DestinationSpan) % Word)
    }

    /** `idPair()`: the map key of a strip, destination first so that the key order is the
        order the file uses. */
    function IdPair(): (U32, U32) {
      (rawDestination, rawSource)
    }
  }

  /** A default-constructed strip: both raw ids are -1 as a uint32_t, no routes. */
  function DefaultStrip(): (s: Strip)
    ensures s.rawSource == Word - 1 && s.rawDestination == Word - 1 && s.routeIds == []
    ensures s.Type() == TypeSpan - 1
  {
    Strip(0xFFFF_FFFF, 0xFFFF_FFFF, [])
  }

  /** A 32-bit left shift by k bits scaled as multiplication: what is lost is exactly the
      part of x above the bits that fit. */
  lemma ShiftedWord(x: nat, span: nat, room: nat)
    requires (span == TypeSpan && room == Word / TypeSpan) || (span == DestinationSpan && room == Word / DestinationSpan)
    ensures (x * span) % Word == (x % room) * span
  {
    var q := x / room;
    var r := x % room;
    assert x == q * room + r;
    assert x * span == q * Word + r * span;
    assert r * span < Word;
  }

  /** Setting the source id keeps the type and the rest of the strip, and reads back the
      id modulo 2^26, the bits that survive the shift; so an id below 2^26 reads back as
      itself. */
  lemma SetSourceId(s: Strip, newId: U32)
    ensures s.WithSourceId(newId).Type() == s.Type()
    ensures s.WithSourceId(newId).SourceId() == newId % (Word / TypeSpan)
    ensures newId < Word / TypeSpan ==> s.WithSourceId(newId).SourceId() == newId
    ensures s.WithSourceId(newId).rawDestination == s.rawDestination
    ensures s.WithSourceId(newId).routeIds == s.routeIds
  {
    ShiftedWord(newId, TypeSpan, Word / TypeSpan);
    var low := newId % (Word / TypeSpan);
    assert s.WithSourceId(newId).rawSource == low * TypeSpan + s.Type();
  }

  /** Setting the destination id clears the three low raw bits, keeps the rest of the
      strip, and reads back the id modulo 2^29; so an id below 2^29 reads back as itself. */
  lemma SetDestinationId(s: Strip, newId: U32)
    ensures s.WithDestinationId(newId).rawDestination % DestinationSpan == 0
    ensures s.WithDestinationId(newId).DestinationId() == newId % (Word / DestinationSpan)
    ensures newId < Word / DestinationSpan ==> s.WithDestinationId(newId).DestinationId() == newId
    ensures s.WithDestinationId(newId).rawSource == s.rawSource
    ensures s.WithDestinationId(newId).routeIds == s.routeIds
  {
    ShiftedWord(newId, DestinationSpan, Word / DestinationSpan);
  }

  /** Writing back the source id that was read changes nothing. */
  lemma SourceIdRestored(s: Strip)
    ensures s.WithSourceId(s.SourceId()) == s
  {
    SetSourceId(s, s.SourceId());
    assert s.WithSourceId(s.SourceId()).rawSource == s.SourceId() * TypeSpan + s.Type();
  }

  /** Writing back the destination id that was read changes nothing exactly when the
      three low bits, which the getter drops and the setter clears, were zero. */
  lemma DestinationIdRestored(s: Strip)
    ensures s.WithDestinationId(s.DestinationId()) == s <==> s.rawDestination % DestinationSpan == 0
  {
    SetDestinationId(s, s.DestinationId());
    assert s.WithDestinationId(s.DestinationId()).rawDestination == s.DestinationId() * DestinationSpan;
  }

  /** Two strips share a map key exactly when their raw endpoint words agree; the route
      lists do not take part. */
  lemma IdPairIdentifies(s: Strip, t: Strip)
    ensures s.IdPair() == t.IdPair() <==> s.rawSource == t.rawSource && s.rawDestination == t.rawDestination
    ensures s.IdPair().0 == s.rawDestination && s.IdPair().1 == s.rawSource
  {
  }

  /** The fixed part of a strip element up to its route loop: element header, 0x029c, the
      raw source (u32), the raw destination (u32), 0x05f5, 0x0001, 0x0003. */
  function StripHeadAt(data: seq<Byte>, p: nat): (r: Parse<(U32, U32)>)
    ensures r.Done? ==> r.next == p + 20 <= |data|
  {
    var (_, p1) :- ElementHeaderAt(data, p);
    var (_, p2) :- ExpectAt(data, p1, W16, StripTag);
    var (source, p3) :- ReadAt(data, p2, W32);
    var (destination, p4) :- ReadAt(data, p3, W32);
    var (_, p5) :- ExpectAt(data, p4, W16, 0x05f5);
    var (_, p6) :- ExpectAt(data, p5, W16, 0x0001);
    var (_, p7) :- ExpectAt(data, p6, W16, 0x0003);
    Done((source, destination), p7)
  }

  /** What `Strip(fileReader, isFinal)` decodes: the fixed part, the route loop, and the
      element footer. The raw words are kept as read, unshifted. */
  function StripAt(data: seq<Byte>, p: nat, isFinal: bool): (r: Parse<Strip>)
    ensures r.Done? ==> r.next == p + 26 + RunLength(W64, |r.value.routeIds|) <= |data|
  {
    var (ends, p1) :- StripHeadAt(data, p);
    var (routes, p2) :- RunAt(data, p1, RouteRefTag, W64);
    var (_, p3) :- ElementFooterAt(data, p2, isFinal);
    Done(Strip(ends.0, ends.1, routes), p3)
  }

  function StripHeadBytes(source: U32, destination: U32): (s: seq<Byte>)
    ensures |s| == 20
  {
    ElementHeaderBytes() + Encode(W16, StripTag) + Encode(W32, source) + Encode(W32, destination)
      + Encode(W16, 0x05f5) + Encode(W16, 0x0001) + Encode(W16, 0x0003)
  }

  /** The layout of a strip element: the fixed part, one (0x029c, u64 route id) pair per
      route in order, and the footer. */
  function StripBytes(s: Strip, isFinal: bool): (b: seq<Byte>)
    ensures |b| == 26 + RunLength(W64, |s.routeIds|)
  {
    StripHeadBytes(s.rawSource, s.rawDestination) + RunBytes(RouteRefTag, W64, s.routeIds)
      + ElementFooterBytes(isFinal)
  }

  predicate StripHeadPiecesAt(data: seq<Byte>, p: nat, source: U32, destination: U32) {
    && At(data, p, ElementHeaderBytes())
    && At(data, p + 4, Encode(W16, StripTag))
    && At(data, p + 6, Encode(W32, source))
    && At(data, p + 10, Encode(W32, destination))
    && At(data, p + 14, Encode(W16, 0x05f5))
    && At(data, p + 16, Encode(W16, 0x0001))
    && At(data, p + 18, Encode(W16, 0x0003))
  }

  lemma StripHeadPieces(data: seq<Byte>, p: nat, source: U32, destination: U32)
    ensures At(data, p, StripHeadBytes(source, destination)) <==> StripHeadPiecesAt(data, p, source, destination)
  {
    var s1 := ElementHeaderBytes() + Encode(W16, StripTag);
    var s2 := s1 + Encode(W32, source);
    var s3 := s2 + Encode(W32, destination);
    var s4 := s3 + Encode(W16, 0x05f5);
    var s5 := s4 + Encode(W16, 0x0001);
    AtConcat(data, p, s5, Encode(W16, 0x0003));
    AtConcat(data, p, s4, Encode(W16, 0x0001));
    AtConcat(data, p, s3, Encode(W16, 0x05f5));
    AtConcat(data, p, s2, Encode(W32, destination));
    AtConcat(data, p, s1, Encode(W32, source));
    AtConcat(data, p, ElementHeaderBytes(), Encode(W16, StripTag));
  }

  /** The fixed part decodes the two raw words, consuming 20 bytes, exactly when it is
      laid out with them. */
  lemma StripHeadLayout(data: seq<Byte>, p: nat, source: U32, destination: U32)
    ensures StripHeadAt(data, p) == Done((source, destination), p + 20)
        <==> At(data, p, StripHeadBytes(source, destination))
  {
    StripHeadPieces(data, p, source, destination);
    if p + 20 <= |data| {
      ElementHeaderAccepted(data, p);
      ExpectAtEncoded(data, p + 4, W16, StripTag);
      ReadAtEncoded(data, p + 6, W32, source);
      ReadAtEncoded(data, p + 10, W32, destination);
      ExpectAtEncoded(data, p + 14, W16, 0x05f5);
      ExpectAtEncoded(data, p + 16, W16, 0x0001);
      ExpectAtEncoded(data, p + 18, W16, 0x0003);
    }
  }

  /** The three parts of a strip element, each at its offset. */
  lemma StripParts(data: seq<Byte>, p: nat, s: Strip, isFinal: bool)
    ensures At(data, p, StripBytes(s, isFinal)) <==>
      && At(data, p, StripHeadBytes(s.rawSource, s.rawDestination))
      && At(data, p + 20, RunBytes(RouteRefTag, W64, s.routeIds))
      && At(data, p + 20 + RunLength(W64, |s.routeIds|), ElementFooterBytes(isFinal))
  {
    var head := StripHeadBytes(s.rawSource, s.rawDestination);
    var refs := RunBytes(RouteRefTag, W64, s.routeIds);
    AtConcat(data, p, head + refs, ElementFooterBytes(isFinal));
    AtConcat(data, p, head, refs);
  }

  /** The route loop reads back the written route ids and stops at a following 0x04 (the
      first word of every element footer), which is not the route tag 0x029c. */
  lemma RouteLoopStops(data: seq<Byte>, p: nat, routes: seq<U64>)
    requires At(data, p, RunBytes(RouteRefTag, W64, routes))
    requires At(data, p + RunLength(W64, |routes|), Encode(W16, 0x04))
    ensures RunAt(data, p, RouteRefTag, W64) == Done(routes, p + RunLength(W64, |routes|))
  {
    U64sFit(routes);
    RunStop(data, p, RouteRefTag, W64, routes, 0x04);
  }

  /** The loop stops at an element footer, which begins with 0x04. */
  lemma RouteLoopStopsAtFooter(data: seq<Byte>, p: nat, routes: seq<U64>, isFinal: bool)
    requires At(data, p, RunBytes(RouteRefTag, W64, routes))
    requires At(data, p + RunLength(W64, |routes|), ElementFooterBytes(isFinal))
    ensures RunAt(data, p, RouteRefTag, W64) == Done(routes, p + RunLength(W64, |routes|))
  {
    FooterBeginsWithEnd(data, p + RunLength(W64, |routes|), isFinal);
    RouteLoopStops(data, p, routes);
  }

  /** The decoder's three stages, put together. */
  lemma StripStages(data: seq<Byte>, p: nat, isFinal: bool, source: U32, destination: U32, routes: seq<U64>, q: nat)
    requires StripHeadAt(data, p) == Done((source, destination), p + 20)
    requires RunAt(data, p + 20, RouteRefTag, W64) == Done(routes, q)
    requires ElementFooterAt(data, q, isFinal).Done?
    ensures StripAt(data, p, isFinal) == Done(Strip(source, destination, routes), q + 6)
  {
  }

  /** A strip whose head and route loop decode fails with its footer's error. */
  lemma StripFooterStage(data: seq<Byte>, p: nat, isFinal: bool, source: U32, destination: U32, routes: seq<U64>, q: nat)
    requires StripHeadAt(data, p) == Done((source, destination), p + 20)
    requires RunAt(data, p + 20, RouteRefTag, W64) == Done(routes, q)
    requires ElementFooterAt(data, q, isFinal).Failed?
    ensures StripAt(data, p, isFinal) == Failed(ElementFooterAt(data, q, isFinal).error)
  {
  }

  /** The stages of a strip that decodes: its head, its route loop, its footer. */
  lemma StripHeadStageOf(data: seq<Byte>, p: nat, isFinal: bool)
    requires StripAt(data, p, isFinal).Done?
    ensures StripHeadAt(data, p)
         == Done((StripAt(data, p, isFinal).value.rawSource, StripAt(data, p, isFinal).value.rawDestination), p + 20)
  {
  }

  lemma StripRunStageOf(data: seq<Byte>, p: nat, isFinal: bool)
    requires StripAt(data, p, isFinal).Done?
    ensures var s := StripAt(data, p, isFinal).value;
      RunAt(data, p + 20, RouteRefTag, W64) == Done(s.routeIds, p + 20 + RunLength(W64, |s.routeIds|))
  {
    StripHeadStageOf(data, p, isFinal);
  }

  lemma StripFooterStageOf(data: seq<Byte>, p: nat, isFinal: bool)
    requires StripAt(data, p, isFinal).Done?
    ensures var s := StripAt(data, p, isFinal).value;
      ElementFooterAt(data, p + 20 + RunLength(W64, |s.routeIds|), isFinal).Done?
  {
    StripRunStageOf(data, p, isFinal);
  }

  lemma StripPartsDecode(data: seq<Byte>, p: nat, s: Strip, isFinal: bool)
    requires At(data, p, StripHeadBytes(s.rawSource, s.rawDestination))
    requires At(data, p + 20, RunBytes(RouteRefTag, W64, s.routeIds))
    requires At(data, p + 20 + RunLength(W64, |s.routeIds|), ElementFooterBytes(isFinal))
    ensures StripAt(data, p, isFinal) == Done(s, p + 26 + RunLength(W64, |s.routeIds|))
  {
    var q := p + 20 + RunLength(W64, |s.routeIds|);
    StripHeadLayout(data, p, s.rawSource, s.rawDestination);
    RouteLoopStopsAtFooter(data, p + 20, s.routeIds, isFinal);
    ElementFooterAccepted(data, q, isFinal);
    StripStages(data, p, isFinal, s.rawSource, s.rawDestination, s.routeIds, p + 20 + RunLength(W64, |s.routeIds|));
  }

  lemma StripDecodeParts(data: seq<Byte>, p: nat, isFinal: bool)
    requires StripAt(data, p, isFinal).Done?
    ensures var s := StripAt(data, p, isFinal).value;
      && At(data, p, StripHeadBytes(s.rawSource, s.rawDestination))
      && At(data, p + 20, RunBytes(RouteRefTag, W64, s.routeIds))
      && At(data, p + 20 + RunLength(W64, |s.routeIds|), ElementFooterBytes(isFinal))
  {
    var s := StripAt(data, p, isFinal).value;
    StripHeadStageOf(data, p, isFinal);
    StripRunStageOf(data, p, isFinal);
    StripFooterStageOf(data, p, isFinal);
    var q := p + 20 + RunLength(W64, |s.routeIds|);
    StripHeadLayout(data, p, s.rawSource, s.rawDestination);
    RunDecoded(data, p + 20, RouteRefTag, W64);
    ElementFooterAccepted(data, q, isFinal);
  }

  /** Decoding a strip element succeeds with `s` exactly when the bytes at p are its layout:
      the raw words as they stand, the route ids in order, and the footer chosen by
      `isFinal`; the route loop stops exactly at the footer. */
  lemma StripLayout(data: seq<Byte>, p: nat, s: Strip, isFinal: bool)
    ensures StripAt(data, p, isFinal) == Done(s, p + 26 + RunLength(W64, |s.routeIds|))
        <==> At(data, p, StripBytes(s, isFinal))
  {
    StripParts(data, p, s, isFinal);
    if At(data, p, StripBytes(s, isFinal)) {
      StripPartsDecode(data, p, s, isFinal);
    }
    if StripAt(data, p, isFinal) == Done(s, p + 26 + RunLength(W64, |s.routeIds|)) {
      StripDecodeParts(data, p, isFinal);
    }
  }

  /** A strip without routes is accepted: the loop runs zero times and the element is the
      26 bytes of the fixed part and the footer. */
  lemma RoutelessStripAccepted(data: seq<Byte>, p: nat, source: U32, destination: U32, isFinal: bool)
    requires At(data, p, StripHeadBytes(source, destination) + ElementFooterBytes(isFinal))
    ensures StripAt(data, p, isFinal) == Done(Strip(source, destination, []), p + 26)
  {
    var s := Strip(source, destination, []);
    assert StripBytes(s, isFinal) == StripHeadBytes(source, destination) + ElementFooterBytes(isFinal);
    StripLayout(data, p, s, isFinal);
  }

  /** A strip laid out with the other footer is rejected at the footer's third word. */
  lemma StripFinalityChecked(data: seq<Byte>, p: nat, s: Strip, isFinal: bool)
    requires At(data, p, StripBytes(s, !isFinal))
    ensures StripAt(data, p, isFinal) == Failed(Mismatch(p + 24 + RunLength(W64, |s.routeIds|), W16,
      FooterSentinel(isFinal), FooterSentinel(!isFinal)))
  {
    var q := p + 20 + RunLength(W64, |s.routeIds|);
    StripParts(data, p, s, !isFinal);
    RouteLoopStopsAtFooter(data, p + 20, s.routeIds, !isFinal);
    FooterFinalityChecked(data, q, isFinal);
    StripHeadLayout(data, p, s.rawSource, s.rawDestination);
    StripFooterStage(data, p, isFinal, s.rawSource, s.rawDestination, s.routeIds, q);
  }

  /** The fixed part of the strip decoder, at the cursor. */
  method ReadStripHead(r: Reader) returns (res: Parse<(U32, U32)>)
    modifies r
    ensures res == StripHeadAt(r.data, old(r.pos))
    ensures r.pos == res.Cursor()
  {
    var _ :- r.ExpectElementHeader();
    var _ :- r.Expect(W16, StripTag);
    var source :- r.Read(W32);
    var destination :- r.Read(W32);
    var _ :- r.Expect(W16, 0x05f5);
    var _ :- r.Expect(W16, 0x0001);
    var _ :- r.Expect(W16, 0x0003);
    res := Done((source.0, destination.0), r.pos);
  }

  /** `Strip(fileReader, isFinal)`: decode one strip element at the cursor. */
  method ReadStrip(r: Reader, isFinal: bool) returns (res: Parse<Strip>)
    modifies r
    ensures res == StripAt(r.data, old(r.pos), isFinal)
    ensures r.pos == res.Cursor()
  {
    var ends :- ReadStripHead(r);
    var routes :- ReadRun(r, RouteRefTag, W64);
    var _ :- r.ExpectElementFooter(isFinal);
    res := Done(Strip(ends.0.0, ends.0.1, routes.0), r.pos);
  }

  /** The route a route id stands for under a remap table keyed by 32-bit ids. */
  function RouteThrough(m: map<U32, U32>, id: U64): U64 {
    if id < Word && id as U32 in m then m[id as U32] else id
  }

  /** `remapRoutes(map)`, whose body is not part of this model, taken to do what
      `Route::remapAnchors` does for anchors: each route id with an image in the table is
      replaced by it; the others, the order and the length are kept. */
  function RemapRoutes(ids: seq<U64>, m: map<U32, U32>): (r: seq<U64>)
    ensures |r| == |ids|
    ensures forall i | 0 <= i < |ids| :: r[i] == RouteThrough(m, ids[i])
  {
    if ids == [] then [] else [RouteThrough(m, ids[0])] + RemapRoutes(ids[1..], m)
  }
}
