/** The spline-network file (SplineNetwork.cpp): a fixed 36-byte file header carrying three
    element counts, then the anchor, route and strip sections in that order. A section is a
    section header followed by exactly `count` elements, of which only the last is closed
    with the final footer. Elements are kept in file order. */
module NetworkFile {
  import opened Wire
  import opened FileReader
  import opened FileWriter
  import opened TaggedRuns
  import opened Anchors
  import opened Routes
  import opened Strips

  const AnchorSection: U16 := 0x05f4
  const RouteSection: U16 := 0x05f5
  const StripSection: U16 := 0x05f6

  datatype Counts = Counts(anchors: U32, routes: U32, strips: U32)

  /** A parsed network: the three element lists in the order of the file. */
  datatype Network = Network(anchors: seq<Anchor>, routes: seq<Route>, strips: seq<Strip>)

  /** `parseFileHeader` starts with nine expected u16 words. */
  function MagicAt(data: seq<Byte>, p: nat): (r: Parse<()>)
    ensures r.Done? ==> r.next == p + 18 <= |data|
  {
    var (_, p1) :- ExpectAt(data, p, W16, 0x00ee);
    var (_, p2) :- ExpectAt(data, p1, W16, 0x0001);
    var (_, p3) :- ExpectAt(data, p2, W16, 0x000c);
    var (_, p4) :- ExpectAt(data, p3, W16, 0x0004);
    var (_, p5) :- ExpectAt(data, p4, W16, 0x0000);
    var (_, p6) :- ExpectAt(data, p5, W16, 0x045a);
    var (_, p7) :- ExpectAt(data, p6, W16, 0x0001);
    var (_, p8) :- ExpectAt(data, p7, W16, 0x0003);
    ExpectAt(data, p8, W16, 0x000c)
  }

  function MagicBytes(): (s: seq<Byte>)
    ensures |s| == 18
  {
    Encode(W16, 0x00ee) + Encode(W16, 0x0001) + Encode(W16, 0x000c) + Encode(W16, 0x0004)
      + Encode(W16, 0x0000) + Encode(W16, 0x045a) + Encode(W16, 0x0001) + Encode(W16, 0x0003)
      + Encode(W16, 0x000c)
  }

  predicate MagicPiecesAt(data: seq<Byte>, p: nat) {
    && At(data, p, Encode(W16, 0x00ee))
    && At(data, p + 2, Encode(W16, 0x0001))
    && At(data, p + 4, Encode(W16, 0x000c))
    && At(data, p + 6, Encode(W16, 0x0004))
    && At(data, p + 8, Encode(W16, 0x0000))
    && At(data, p + 10, Encode(W16, 0x045a))
    && At(data, p + 12, Encode(W16, 0x0001))
    && At(data, p + 14, Encode(W16, 0x0003))
    && At(data, p + 16, Encode(W16, 0x000c))
  }

  lemma MagicPieces(data: seq<Byte>, p: nat)
    ensures At(data, p, MagicBytes()) <==> MagicPiecesAt(data, p)
  {
    var s1 := Encode(W16, 0x00ee) + Encode(W16, 0x0001);
    var s2 := s1 + Encode(W16, 0x000c);
    var s3 := s2 + Encode(W16, 0x0004);
    var s4 := s3 + Encode(W16, 0x0000);
    var s5 := s4 + Encode(W16, 0x045a);
    var s6 := s5 + Encode(W16, 0x0001);
    var s7 := s6 + Encode(W16, 0x0003);
    AtConcat(data, p, s7, Encode(W16, 0x000c));
    AtConcat(data, p, s6, Encode(W16, 0x0003));
    AtConcat(data, p, s5, Encode(W16, 0x0001));
    AtConcat(data, p, s4, Encode(W16, 0x045a));
    AtConcat(data, p, s3, Encode(W16, 0x0000));
    AtConcat(data, p, s2, Encode(W16, 0x0004));
    AtConcat(data, p, s1, Encode(W16, 0x000c));
    AtConcat(data, p, Encode(W16, 0x00ee), Encode(W16, 0x0001));
  }

  /** The magic words are accepted exactly when they are there. */
  lemma MagicLayout(data: seq<Byte>, p: nat)
    ensures MagicAt(data, p) == Done((), p + 18) <==> At(data, p, MagicBytes())
  {
    MagicPieces(data, p);
    ExpectAtEncoded(data, p, W16, 0x00ee);
    ExpectAtEncoded(data, p + 2, W16, 0x0001);
    ExpectAtEncoded(data, p + 4, W16, 0x000c);
    ExpectAtEncoded(data, p + 6, W16, 0x0004);
    ExpectAtEncoded(data, p + 8, W16, 0x0000);
    ExpectAtEncoded(data, p + 10, W16, 0x045a);
    ExpectAtEncoded(data, p + 12, W16, 0x0001);
    ExpectAtEncoded(data, p + 14, W16, 0x0003);
    ExpectAtEncoded(data, p + 16, W16, 0x000c);
  }

  /** A count field of the header: the u32 count, then the word that closes it. */
  function CountAt(data: seq<Byte>, p: nat, closing: U16): (r: Parse<U32>)
    ensures r.Done? ==> r.next == p + 6 <= |data|
  {
    var (n, q) :- ReadAt(data, p, W32);
    var (_, q') :- ExpectAt(data, q, W16, closing);
    Done(n, q')
  }

  function CountBytes(n: U32, closing: U16): (s: seq<Byte>)
    ensures |s| == 6
  {
    Encode(W32, n) + Encode(W16, closing)
  }

  /** A count field yields n, 6 bytes on, exactly when it is laid out with n. */
  lemma CountLayout(data: seq<Byte>, p: nat, n: U32, closing: U16)
    ensures CountAt(data, p, closing) == Done(n, p + 6) <==> At(data, p, CountBytes(n, closing))
  {
    AtConcat(data, p, Encode(W32, n), Encode(W16, closing));
    ReadAtEncoded(data, p, W32, n);
    ExpectAtEncoded(data, p + 4, W16, closing);
  }

  /** `parseFileHeader`: the magic words, then the three counts, the first two closed by
      0x000c and the last by 0x0004. */
  function FileHeaderAt(data: seq<Byte>, p: nat): (r: Parse<Counts>)
    ensures r.Done? ==> r.next == p + 36 <= |data|
  {
    var (_, p1) :- MagicAt(data, p);
    var (anchors, p2) :- CountAt(data, p1, 0x000c);
    var (routes, p3) :- CountAt(data, p2, 0x000c);
    var (strips, p4) :- CountAt(data, p3, 0x0004);
    Done(Counts(anchors, routes, strips), p4)
  }

  function FileHeaderBytes(c: Counts): (s: seq<Byte>)
    ensures |s| == 36
  {
    MagicBytes() + CountBytes(c.anchors, 0x000c) + CountBytes(c.routes, 0x000c) + CountBytes(c.strips, 0x0004)
  }

  predicate FileHeaderPiecesAt(data: seq<Byte>, p: nat, c: Counts) {
    && At(data, p, MagicBytes())
    && At(data, p + 18, CountBytes(c.anchors, 0x000c))
    && At(data, p + 24, CountBytes(c.routes, 0x000c))
    && At(data, p + 30, CountBytes(c.strips, 0x0004))
  }

  lemma FileHeaderPieces(data: seq<Byte>, p: nat, c: Counts)
    ensures At(data, p, FileHeaderBytes(c)) <==> FileHeaderPiecesAt(data, p, c)
  {
    var s1 := MagicBytes() + CountBytes(c.anchors, 0x000c);
    var s2 := s1 + CountBytes(c.routes, 0x000c);
    AtConcat(data, p, s2, CountBytes(c.strips, 0x0004));
    AtConcat(data, p, s1, CountBytes(c.routes, 0x000c));
    AtConcat(data, p, MagicBytes(), CountBytes(c.anchors, 0x000c));
  }

  /** The header decodes the counts c, consuming 36 bytes, exactly when it is laid out
      with them. */
  lemma FileHeaderLayout(data: seq<Byte>, p: nat, c: Counts)
    ensures FileHeaderAt(data, p) == Done(c, p + 36) <==> At(data, p, FileHeaderBytes(c))
  {
    FileHeaderPieces(data, p, c);
    MagicLayout(data, p);
    CountLayout(data, p + 18, c.anchors, 0x000c);
    CountLayout(data, p + 24, c.routes, 0x000c);
    CountLayout(data, p + 30, c.strips, 0x0004);
  }

  /** Elements i to count - 1 of a list of count elements, decoded one after the other
      from p; element i is closed with the final footer exactly when it is the last. */
  function ListAt<T>(decode: (seq<Byte>, nat, bool) -> Parse<T>, data: seq<Byte>, p: nat, i: nat, count: nat): (r: Parse<seq<T>>)
    requires i <= count
    ensures r.Done? ==> |r.value| == count - i
    decreases count - i
  {
    if i == count then Done([], p)
    else
      var (x, q) :- decode(data, p, i == count - 1);
      var (rest, q') :- ListAt(decode, data, q, i + 1, count);
      Done([x] + rest, q')
  }

  /** `parseAnchorList` and its two siblings: the section header with the section's id,
      then exactly `count` elements. */
  function SectionAt<T>(id: U16, decode: (seq<Byte>, nat, bool) -> Parse<T>, data: seq<Byte>, p: nat, count: nat): (r: Parse<seq<T>>)
    ensures r.Done? ==> |r.value| == count
  {
    var (_, q) :- SectionHeaderAt(data, p, id);
    ListAt(decode, data, q, 0, count)
  }

  /** The whole file, as the network constructor reads it: header, anchors, routes, strips.
      Bytes after the strip section are not looked at. */
  function NetworkAt(data: seq<Byte>): Parse<Network> {
    var (c, p1) :- FileHeaderAt(data, 0);
    var (anchors, p2) :- SectionAt(AnchorSection, AnchorAt, data, p1, c.anchors);
    var (routes, p3) :- SectionAt(RouteSection, RouteAt, data, p2, c.routes);
    var (strips, p4) :- SectionAt(StripSection, StripAt, data, p3, c.strips);
    Done(Network(anchors, routes, strips), p4)
  }

  /** Elements laid out one after the other, the last one with the final footer. */
  function ListBytes<T>(bytes: (T, bool) -> seq<Byte>, xs: seq<T>): seq<Byte>
  {
    if xs == [] then [] else bytes(xs[0], |xs| == 1) + ListBytes(bytes, xs[1..])
  }

  /** What an element decoder must satisfy for lists of its elements to decode: it takes
      exactly the laid-out bytes of an element, and nothing else. */
  ghost predicate Decodes<T(!new)>(decode: (seq<Byte>, nat, bool) -> Parse<T>, bytes: (T, bool) -> seq<Byte>, data: seq<Byte>) {
    && (forall q: nat, x: T, f: bool {:trigger At(data, q, bytes(x, f))} :: At(data, q, bytes(x, f)) ==> decode(data, q, f) == Done(x, q + |bytes(x, f)|))
    && (forall q: nat, f: bool {:trigger decode(data, q, f)} :: decode(data, q, f).Done? ==>
          At(data, q, bytes(decode(data, q, f).value, f)) && decode(data, q, f).next == q + |bytes(decode(data, q, f).value, f)|)
  }

  lemma AnchorsDecode(data: seq<Byte>)
    ensures Decodes(AnchorAt, AnchorBytes, data)
  {
    forall q: nat, x: Anchor, f: bool | At(data, q, AnchorBytes(x, f))
      ensures AnchorAt(data, q, f) == Done(x, q + |AnchorBytes(x, f)|)
    {
      AnchorLayout(data, q, x, f);
    }
    forall q: nat, f: bool | AnchorAt(data, q, f).Done?
      ensures At(data, q, AnchorBytes(AnchorAt(data, q, f).value, f))
    {
      AnchorLayout(data, q, AnchorAt(data, q, f).value, f);
    }
  }

  lemma RoutesDecode(data: seq<Byte>)
    ensures Decodes(RouteAt, RouteBytes, data)
  {
    forall q: nat, x: Route, f: bool | At(data, q, RouteBytes(x, f))
      ensures RouteAt(data, q, f) == Done(x, q + |RouteBytes(x, f)|)
    {
      RouteLayout(data, q, x, f);
    }
    forall q: nat, f: bool | RouteAt(data, q, f).Done?
      ensures At(data, q, RouteBytes(RouteAt(data, q, f).value, f))
    {
      RouteLayout(data, q, RouteAt(data, q, f).value, f);
    }
  }

  lemma StripsDecode(data: seq<Byte>)
    ensures Decodes(StripAt, StripBytes, data)
  {
    forall q: nat, x: Strip, f: bool | At(data, q, StripBytes(x, f))
      ensures StripAt(data, q, f) == Done(x, q + |StripBytes(x, f)|)
    {
      StripLayout(data, q, x, f);
    }
    forall q: nat, f: bool | StripAt(data, q, f).Done?
      ensures At(data, q, StripBytes(StripAt(data, q, f).value, f))
    {
      StripLayout(data, q, StripAt(data, q, f).value, f);
    }
  }

  /** A laid-out list decodes to its elements, in order, and ends where its bytes end. */
  lemma {:induction false} ListLayout<T(!new)>(decode: (seq<Byte>, nat, bool) -> Parse<T>, bytes: (T, bool) -> seq<Byte>,
                                               data: seq<Byte>, p: nat, i: nat, count: nat, xs: seq<T>)
    requires Decodes(decode, bytes, data)
    requires i <= count && |xs| == count - i
    requires At(data, p, ListBytes(bytes, xs))
    ensures ListAt(decode, data, p, i, count) == Done(xs, p + |ListBytes(bytes, xs)|)
    decreases count - i
  {
    if i < count {
      var first := bytes(xs[0], |xs| == 1);
      var tail := xs[1..];
      var rest := ListBytes(bytes, tail);
      assert ListBytes(bytes, xs) == first + rest;
      AtConcat(data, p, first, rest);
      ListLayout(decode, bytes, data, p + |first|, i + 1, count, tail);
      assert (i == count - 1) == (|xs| == 1);
      assert decode(data, p, i == count - 1) == Done(xs[0], p + |first|);
      ListStep(decode, data, p, i, count);
      assert [xs[0]] + tail == xs;
    }
  }

  /** Conversely, whatever the list decoder accepts is laid out as a list of its result. */
  lemma {:induction false} ListDecoded<T(!new)>(decode: (seq<Byte>, nat, bool) -> Parse<T>, bytes: (T, bool) -> seq<Byte>,
                                                data: seq<Byte>, p: nat, i: nat, count: nat)
    requires Decodes(decode, bytes, data)
    requires p <= |data|
    requires i <= count && ListAt(decode, data, p, i, count).Done?
    ensures var r := ListAt(decode, data, p, i, count);
      At(data, p, ListBytes(bytes, r.value)) && r.next == p + |ListBytes(bytes, r.value)|
    decreases count - i
  {
    if i < count {
      var d := decode(data, p, i == count - 1);
      var first := bytes(d.value, i == count - 1);
      assert At(data, p, first) && d.next == p + |first|;
      var rest := ListAt(decode, data, d.next, i + 1, count);
      ListDecoded(decode, bytes, data, d.next, i + 1, count);
      var xs := ListAt(decode, data, p, i, count).value;
      assert xs == [d.value] + rest.value;
      assert (i == count - 1) == (|xs| == 1);
      assert xs[1..] == rest.value;
      assert ListBytes(bytes, xs) == first + ListBytes(bytes, rest.value);
      AtConcat(data, p, first, ListBytes(bytes, rest.value));
    }
  }

  /** A section laid out: its header, then the list. */
  function SectionBytes<T>(id: U16, bytes: (T, bool) -> seq<Byte>, xs: seq<T>): seq<Byte> {
    SectionHeaderBytes(id) + ListBytes(bytes, xs)
  }

  /** The bytes of a network as the decoder reads it. */
  function NetworkBytes(net: Network): seq<Byte>
    requires |net.anchors| < 0x1_0000_0000 && |net.routes| < 0x1_0000_0000 && |net.strips| < 0x1_0000_0000
  {
    FileHeaderBytes(Counts(|net.anchors|, |net.routes|, |net.strips|))
      + SectionBytes(AnchorSection, AnchorBytes, net.anchors)
      + SectionBytes(RouteSection, RouteBytes, net.routes)
      + SectionBytes(StripSection, StripBytes, net.strips)
  }

  lemma SectionLayout<T(!new)>(id: U16, decode: (seq<Byte>, nat, bool) -> Parse<T>, bytes: (T, bool) -> seq<Byte>,
                               data: seq<Byte>, p: nat, xs: seq<T>)
    requires Decodes(decode, bytes, data)
    requires At(data, p, SectionBytes(id, bytes, xs))
    ensures SectionAt(id, decode, data, p, |xs|) == Done(xs, p + |SectionBytes(id, bytes, xs)|)
  {
    AtConcat(data, p, SectionHeaderBytes(id), ListBytes(bytes, xs));
    SectionHeaderAccepted(data, p, id);
    ListLayout(decode, bytes, data, p + 8, 0, |xs|, xs);
  }

  lemma SectionDecoded<T(!new)>(id: U16, decode: (seq<Byte>, nat, bool) -> Parse<T>, bytes: (T, bool) -> seq<Byte>,
                                data: seq<Byte>, p: nat, count: nat)
    requires Decodes(decode, bytes, data)
    requires SectionAt(id, decode, data, p, count).Done?
    ensures var r := SectionAt(id, decode, data, p, count);
      At(data, p, SectionBytes(id, bytes, r.value)) && r.next == p + |SectionBytes(id, bytes, r.value)|
  {
    SectionHeaderAccepted(data, p, id);
    ListDecoded(decode, bytes, data, p + 8, 0, count);
    AtConcat(data, p, SectionHeaderBytes(id), ListBytes(bytes, SectionAt(id, decode, data, p, count).value));
  }

  // The per-kind section lemmas name the end position q of the section, so that their
  // conclusions can be chained without arithmetic inside a constructor.

  lemma AnchorSectionLayout(data: seq<Byte>, p: nat, xs: seq<Anchor>, q: nat)
    requires q == p + |SectionBytes(AnchorSection, AnchorBytes, xs)|
    requires At(data, p, SectionBytes(AnchorSection, AnchorBytes, xs))
    ensures SectionAt(AnchorSection, AnchorAt, data, p, |xs|) == Done(xs, q)
  {
    AnchorsDecode(data);
    SectionLayout(AnchorSection, AnchorAt, AnchorBytes, data, p, xs);
  }

  lemma RouteSectionLayout(data: seq<Byte>, p: nat, xs: seq<Route>, q: nat)
    requires q == p + |SectionBytes(RouteSection, RouteBytes, xs)|
    requires At(data, p, SectionBytes(RouteSection, RouteBytes, xs))
    ensures SectionAt(RouteSection, RouteAt, data, p, |xs|) == Done(xs, q)
  {
    RoutesDecode(data);
    SectionLayout(RouteSection, RouteAt, RouteBytes, data, p, xs);
  }

  lemma StripSectionLayout(data: seq<Byte>, p: nat, xs: seq<Strip>, q: nat)
    requires q == p + |SectionBytes(StripSection, StripBytes, xs)|
    requires At(data, p, SectionBytes(StripSection, StripBytes, xs))
    ensures SectionAt(StripSection, StripAt, data, p, |xs|) == Done(xs, q)
  {
    StripsDecode(data);
    SectionLayout(StripSection, StripAt, StripBytes, data, p, xs);
  }

  lemma AnchorSectionDecoded(data: seq<Byte>, p: nat, xs: seq<Anchor>, q: nat)
    requires SectionAt(AnchorSection, AnchorAt, data, p, |xs|) == Done(xs, q)
    ensures At(data, p, SectionBytes(AnchorSection, AnchorBytes, xs)) && q == p + |SectionBytes(AnchorSection, AnchorBytes, xs)|
  {
    AnchorsDecode(data);
    SectionDecoded(AnchorSection, AnchorAt, AnchorBytes, data, p, |xs|);
  }

  lemma RouteSectionDecoded(data: seq<Byte>, p: nat, xs: seq<Route>, q: nat)
    requires SectionAt(RouteSection, RouteAt, data, p, |xs|) == Done(xs, q)
    ensures At(data, p, SectionBytes(RouteSection, RouteBytes, xs)) && q == p + |SectionBytes(RouteSection, RouteBytes, xs)|
  {
    RoutesDecode(data);
    SectionDecoded(RouteSection, RouteAt, RouteBytes, data, p, |xs|);
  }

  lemma StripSectionDecoded(data: seq<Byte>, p: nat, xs: seq<Strip>, q: nat)
    requires SectionAt(StripSection, StripAt, data, p, |xs|) == Done(xs, q)
    ensures At(data, p, SectionBytes(StripSection, StripBytes, xs)) && q == p + |SectionBytes(StripSection, StripBytes, xs)|
  {
    StripsDecode(data);
    SectionDecoded(StripSection, StripAt, StripBytes, data, p, |xs|);
  }

  /** A header laid out with counts c decodes to c. */
  lemma FileHeaderDecodes(data: seq<Byte>, c: Counts)
    requires At(data, 0, FileHeaderBytes(c))
    ensures FileHeaderAt(data, 0) == Done(c, 36)
  {
    FileHeaderLayout(data, 0, c);
  }

  /** Four pieces one after the other, from the start of the data. */
  lemma FourPieces(data: seq<Byte>, h: seq<Byte>, a: seq<Byte>, r: seq<Byte>, s: seq<Byte>)
    ensures At(data, 0, h + a + r + s)
        <==> At(data, 0, h) && At(data, |h|, a) && At(data, |h| + |a|, r) && At(data, |h| + |a| + |r|, s)
  {
    AtConcat(data, 0, h + a + r, s);
    AtConcat(data, 0, h + a, r);
    AtConcat(data, 0, h, a);
  }

  /** The bytes of a network are there exactly when each of its pieces is, each where the
      one before it ends. */
  lemma NetworkBytesPieces(data: seq<Byte>, net: Network)
    requires |net.anchors| < 0x1_0000_0000 && |net.routes| < 0x1_0000_0000 && |net.strips| < 0x1_0000_0000
    ensures var a := SectionBytes(AnchorSection, AnchorBytes, net.anchors);
            var r := SectionBytes(RouteSection, RouteBytes, net.routes);
            var s := SectionBytes(StripSection, StripBytes, net.strips);
            (At(data, 0, NetworkBytes(net))
             <==> && At(data, 0, FileHeaderBytes(Counts(|net.anchors|, |net.routes|, |net.strips|)))
                  && At(data, 36, a) && At(data, 36 + |a|, r) && At(data, 36 + |a| + |r|, s))
    ensures |NetworkBytes(net)| == 36 + |SectionBytes(AnchorSection, AnchorBytes, net.anchors)|
              + |SectionBytes(RouteSection, RouteBytes, net.routes)| + |SectionBytes(StripSection, StripBytes, net.strips)|
  {
    var h := FileHeaderBytes(Counts(|net.anchors|, |net.routes|, |net.strips|));
    var a := SectionBytes(AnchorSection, AnchorBytes, net.anchors);
    var r := SectionBytes(RouteSection, RouteBytes, net.routes);
    var s := SectionBytes(StripSection, StripBytes, net.strips);
    assert NetworkBytes(net) == h + a + r + s;
    FourPieces(data, h, a, r, s);
  }

  /** A file laid out piece by piece, the header and then each section where the previous
      one ends at p2, p3 and p4, decodes to its network and ends at p4. */
  lemma NetworkPiecesLayout(data: seq<Byte>, net: Network, p2: nat, p3: nat, p4: nat)
    requires |net.anchors| < 0x1_0000_0000 && |net.routes| < 0x1_0000_0000 && |net.strips| < 0x1_0000_0000
    requires p2 == 36 + |SectionBytes(AnchorSection, AnchorBytes, net.anchors)|
    requires p3 == p2 + |SectionBytes(RouteSection, RouteBytes, net.routes)|
    requires p4 == p3 + |SectionBytes(StripSection, StripBytes, net.strips)|
    requires At(data, 0, FileHeaderBytes(Counts(|net.anchors|, |net.routes|, |net.strips|)))
    requires At(data, 36, SectionBytes(AnchorSection, AnchorBytes, net.anchors))
    requires At(data, p2, SectionBytes(RouteSection, RouteBytes, net.routes))
    requires At(data, p3, SectionBytes(StripSection, StripBytes, net.strips))
    ensures NetworkAt(data) == Done(net, p4)
  {
    FileHeaderDecodes(data, Counts(|net.anchors|, |net.routes|, |net.strips|));
    AnchorSectionLayout(data, 36, net.anchors, p2);
    RouteSectionLayout(data, p2, net.routes, p3);
    StripSectionLayout(data, p3, net.strips, p4);
  }

  /** A file laid out from a network reads back as that network, with every list of the
      length its header announces and every element in its place, and the decoder stops
      exactly at the end of the layout. */
  lemma NetworkLayout(data: seq<Byte>, net: Network)
    requires |net.anchors| < 0x1_0000_0000 && |net.routes| < 0x1_0000_0000 && |net.strips| < 0x1_0000_0000
    requires At(data, 0, NetworkBytes(net))
    ensures NetworkAt(data) == Done(net, |NetworkBytes(net)|)
  {
    NetworkBytesPieces(data, net);
    var a := SectionBytes(AnchorSection, AnchorBytes, net.anchors);
    var r := SectionBytes(RouteSection, RouteBytes, net.routes);
    NetworkPiecesLayout(data, net, 36 + |a|, 36 + |a| + |r|, |NetworkBytes(net)|);
  }

  /** A header the decoder accepts is laid out with the counts it returns. */
  lemma FileHeaderDecoded(data: seq<Byte>)
    requires FileHeaderAt(data, 0).Done?
    ensures FileHeaderAt(data, 0) == Done(FileHeaderAt(data, 0).value, 36)
    ensures At(data, 0, FileHeaderBytes(FileHeaderAt(data, 0).value))
  {
    FileHeaderLayout(data, 0, FileHeaderAt(data, 0).value);
  }

  /** The stages of an accepted file: the converse of NetworkStages, naming where the
      anchor and route sections end. */
  lemma NetworkStagesOf(data: seq<Byte>) returns (p2: nat, p3: nat)
    requires NetworkAt(data).Done?
    ensures var net := NetworkAt(data).value;
      && |net.anchors| < 0x1_0000_0000 && |net.routes| < 0x1_0000_0000 && |net.strips| < 0x1_0000_0000
      && FileHeaderAt(data, 0) == Done(Counts(|net.anchors|, |net.routes|, |net.strips|), 36)
      && SectionAt(AnchorSection, AnchorAt, data, 36, |net.anchors|) == Done(net.anchors, p2)
      && SectionAt(RouteSection, RouteAt, data, p2, |net.routes|) == Done(net.routes, p3)
      && SectionAt(StripSection, StripAt, data, p3, |net.strips|) == Done(net.strips, NetworkAt(data).next)
  {
    FileHeaderDecoded(data);
    var c := FileHeaderAt(data, 0).value;
    p2 := SectionAt(AnchorSection, AnchorAt, data, 36, c.anchors).next;
    p3 := SectionAt(RouteSection, RouteAt, data, p2, c.routes).next;
  }

  /** Conversely, a file the decoder accepts is the layout of the network it returns, and
      the decoder stops exactly at the end of that layout. */
  lemma NetworkDecoded(data: seq<Byte>)
    requires NetworkAt(data).Done?
    ensures var net := NetworkAt(data).value;
      && |net.anchors| < 0x1_0000_0000 && |net.routes| < 0x1_0000_0000 && |net.strips| < 0x1_0000_0000
      && At(data, 0, NetworkBytes(net)) && NetworkAt(data).next == |NetworkBytes(net)|
  {
    var net := NetworkAt(data).value;
    var p2, p3 := NetworkStagesOf(data);
    FileHeaderDecoded(data);
    AnchorSectionDecoded(data, 36, net.anchors, p2);
    RouteSectionDecoded(data, p2, net.routes, p3);
    StripSectionDecoded(data, p3, net.strips, NetworkAt(data).next);
    NetworkBytesPieces(data, net);
  }

  /** The magic words of the header, expected one by one at the cursor. */
  method ExpectHeaderMagic(r: Reader) returns (res: Parse<()>)
    modifies r
    ensures res == MagicAt(r.data, old(r.pos))
    ensures r.pos == res.Cursor()
  {
    var _ :- r.Expect(W16, 0x00ee);
    var _ :- r.Expect(W16, 0x0001);
    var _ :- r.Expect(W16, 0x000c);
    var _ :- r.Expect(W16, 0x0004);
    var _ :- r.Expect(W16, 0x0000);
    var _ :- r.Expect(W16, 0x045a);
    var _ :- r.Expect(W16, 0x0001);
    var _ :- r.Expect(W16, 0x0003);
    res := r.Expect(W16, 0x000c);
  }

  /** `parseFileHeader`: the three counts, at the cursor. */
  method ParseFileHeader(r: Reader) returns (res: Parse<Counts>)
    modifies r
    ensures res == FileHeaderAt(r.data, old(r.pos))
    ensures r.pos == res.Cursor()
  {
    var _ :- ExpectHeaderMagic(r);
    var anchors :- ReadCount(r, 0x000c);
    var routes :- ReadCount(r, 0x000c);
    var strips :- ReadCount(r, 0x0004);
    res := Done(Counts(anchors.0, routes.0, strips.0), r.pos);
  }

  /** A count field, read at the cursor. */
  method ReadCount(r: Reader, closing: U16) returns (res: Parse<U32>)
    modifies r
    ensures res == CountAt(r.data, old(r.pos), closing)
    ensures r.pos == res.Cursor()
  {
    var n :- r.Read(W32);
    var _ :- r.Expect(W16, closing);
    res := Done(n.0, r.pos);
  }

  /** One turn of a list loop: an element, then the rest of the list. */
  lemma ListStep<T>(decode: (seq<Byte>, nat, bool) -> Parse<T>, data: seq<Byte>, p: nat, i: nat, count: nat)
    requires i < count && decode(data, p, i == count - 1).Done?
    ensures ListAt(decode, data, p, i, count)
         == Prepend([decode(data, p, i == count - 1).value], ListAt(decode, data, decode(data, p, i == count - 1).next, i + 1, count))
  {
  }

  /** `parseAnchorList`: the anchor section, element i closed as final when it is the
      last one. */
  method ParseAnchorList(r: Reader, count: U32) returns (res: Parse<seq<Anchor>>)
    modifies r
    ensures res == SectionAt(AnchorSection, AnchorAt, r.data, old(r.pos), count)
    ensures r.pos == res.Cursor()
  {
    var _ :- r.ExpectSectionHeader(AnchorSection);
    ghost var start := r.pos;
    var anchors: seq<Anchor> := [];
    PrependNothing(ListAt(AnchorAt, r.data, start, 0, count));
    for i := 0 to count
      invariant Prepend(anchors, ListAt(AnchorAt, r.data, r.pos, i, count)) == ListAt(AnchorAt, r.data, start, 0, count)
    {
      ghost var here := r.pos;
      var a :- ReadAnchor(r, i == count - 1);
      ListStep(AnchorAt, r.data, here, i, count);
      PrependTwice(anchors, [a.0], ListAt(AnchorAt, r.data, r.pos, i + 1, count));
      anchors := anchors + [a.0];
    }
    assert anchors + [] == anchors;
    res := Done(anchors, r.pos);
  }

  /** `parseRouteList`: the route section. */
  method ParseRouteList(r: Reader, count: U32) returns (res: Parse<seq<Route>>)
    modifies r
    ensures res == SectionAt(RouteSection, RouteAt, r.data, old(r.pos), count)
    ensures r.pos == res.Cursor()
  {
    var _ :- r.ExpectSectionHeader(RouteSection);
    ghost var start := r.pos;
    var routes: seq<Route> := [];
    PrependNothing(ListAt(RouteAt, r.data, start, 0, count));
    for i := 0 to count
      invariant Prepend(routes, ListAt(RouteAt, r.data, r.pos, i, count)) == ListAt(RouteAt, r.data, start, 0, count)
    {
      ghost var here := r.pos;
      var route :- ReadRoute(r, i == count - 1);
      ListStep(RouteAt, r.data, here, i, count);
      PrependTwice(routes, [route.0], ListAt(RouteAt, r.data, r.pos, i + 1, count));
      routes := routes + [route.0];
    }
    assert routes + [] == routes;
    res := Done(routes, r.pos);
  }

  /** `parseStripList`: the strip section. */
  method ParseStripList(r: Reader, count: U32) returns (res: Parse<seq<Strip>>)
    modifies r
    ensures res == SectionAt(StripSection, StripAt, r.data, old(r.pos), count)
    ensures r.pos == res.Cursor()
  {
    var _ :- r.ExpectSectionHeader(StripSection);
    ghost var start := r.pos;
    var strips: seq<Strip> := [];
    PrependNothing(ListAt(StripAt, r.data, start, 0, count));
    for i := 0 to count
      invariant Prepend(strips, ListAt(StripAt, r.data, r.pos, i, count)) == ListAt(StripAt, r.data, start, 0, count)
    {
      ghost var here := r.pos;
      var s :- ReadStrip(r, i == count - 1);
      ListStep(StripAt, r.data, here, i, count);
      PrependTwice(strips, [s.0], ListAt(StripAt, r.data, r.pos, i + 1, count));
      strips := strips + [s.0];
    }
    assert strips + [] == strips;
    res := Done(strips, r.pos);
  }

  /** `SplineNetwork(path)` with the file's bytes in place of the path: header, then the
      three sections in order. */
  method LoadNetwork(data: seq<Byte>) returns (res: Parse<Network>)
    ensures res == NetworkAt(data)
  {
    var r := new Reader(data);
    var c :- ParseFileHeader(r);
    var anchors :- ParseAnchorList(r, c.0.anchors);
    var routes :- ParseRouteList(r, c.0.routes);
    var strips :- ParseStripList(r, c.0.strips);
    res := Done(Network(anchors.0, routes.0, strips.0), r.pos);
  }
}
