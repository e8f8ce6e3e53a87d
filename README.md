# Vic3MapUtils spline networks, modelled in Dafny

This project models the core of Vic3MapUtils, a tool for Victoria 3 map modders. The
tool reads the game's binary spline network (anchors, routes and strips). It computes
what a mod changed against the vanilla network, merges several such diffs, and applies
a diff to a network. The model covers:

- The cursor-based binary **reader** and **writer** (`read`, `expect`, `peek`, `write`,
  and the section header, element header and element footer framing). The file is an
  in-memory byte sequence and the cursor is a field of a `Reader` object.
  - Every reader operation is a pure function of the bytes and a start position.
  - Every method is proved equal to its function, with the cursor ending where the
    function says.
- The **element codecs**: the fixed 34-byte anchor, the route with its `0x14`-tagged
  anchor loop, and the strip with its `0x029c`-tagged route loop. Both loops are driven
  by a `peek` and have no length field. They stop because the footer starts with `0x04`.
  - Each codec is proved to accept exactly the laid-out bytes of an element (an
    if-and-only-if).
  - A footer of the wrong finality is rejected at a stated offset.
- The strip's **packed ids**: the type, source and destination are bit fields of two
  32-bit words, with the setters' 32-bit wrap-around written out.
- The **network file**: the 36-byte header with three counts, then three sections in
  fixed order, each with exactly `count` elements, of which only the last is final. A
  whole file decodes to a network exactly when it is that network's laid-out bytes.
- **Change records** (`NetworkItemChanges`) and `diffMaps`. The record holds three
  disjoint buckets (edits, deletions, additions). Replaying the difference on `from`
  gives `to`, and undoing it on `to` gives `from`.
- **`applyChangeList`**: edits, then deletions, then additions, on a map updated in
  place. It raises warnings for missing or stale items and aborts on an addition whose
  key is taken. Applying a difference to the map it was computed from raises no warning
  and yields the other map.
- **`Diff::remapCollisions`** and **`Diff::mergeDiff`**:
  - renumbering incoming sub-anchors and routes whose ids are reserved, from per-class
    counters;
  - refusing hub collisions, after reporting all of them;
  - rewriting routes' anchor lists and strips' endpoints and route lists;
  - merging where the existing keys win.
  - The tables are proved injective and clear of the reserved ids, and the counters are
    proved to stay within range.

One observation from the proofs: a strip's `sourceID()` is below 2^26, and a renumbered
anchor id is a sub-anchor id of at least 2^28. So the source-endpoint lookup in
`remapCollisions` can only ever hit table entries that map an id to itself, provided
each incoming anchor addition is filed under its own id, as a diff of two networks files
them (`Diffs.StripSourceKept`, premise `KeyedById`). The destination field is wide enough
to hold sub-anchor ids.

A second observation: `remapCollisions` rewrites the strip additions in place, so each
keeps the key it had before its endpoints were renumbered, and the key is no longer the
strip's `idPair()` (`Diffs.RewriteStrips`). In the merge that follows, an incoming strip
whose old key equals a key of this diff's strip additions is dropped, this diff's entry
winning (`ItemChanges.Merge`), even when its renumbered endpoints make it a different
strip. Re-keying the strips by their new `idPair()` would keep both; the model follows
the code and keeps the old keys.

Design choices:
- Bytes are `int`s in 0..255, and words are composed little-endian.
- Exceptions become values: `Parse.Failed` for the reader, `Outcome` and `RemapError`
  for the stores.
- Warnings are values in a log, not text.

## Model

| member | source | states |
|---|---|---|
| Wire.FromToLE | src/SplineNetwork/FileHandler/SplnetFileReader.hpp:16-20 | decoding the n little-endian bytes of a value below 256^n gives that value back |
| Wire.ToFromLE | src/SplineNetwork/FileHandler/SplnetFileReader.hpp:16-20 | every byte string is the encoding of the value it decodes to |
| Wire.EncodeInjective | src/SplineNetwork/FileHandler/SplnetFileWriter.hpp:14-15 | two values of one width with the same bytes are equal |
| FileReader.ReadAt | src/SplineNetwork/FileHandler/SplnetFileReader.hpp:18-25 | a read succeeds exactly when sizeof(T) bytes remain; it then returns a value of that width and stands sizeof(T) further on; otherwise it fails at the start position |
| FileReader.ReadAtEncoded | src/SplineNetwork/FileHandler/SplnetFileReader.hpp:16-25 | a read returns v and consumes exactly its width if and only if the next bytes are v's encoding |
| FileReader.ExpectAtEncoded | src/SplineNetwork/FileHandler/SplnetFileReader.hpp:27-33 | expect(v) succeeds if and only if the next bytes encode v, then advances by the width; a failure reports the offset where the value started |
| FileReader.ExpectAtFailure | src/SplineNetwork/FileHandler/SplnetFileReader.hpp:29-31 | a mismatch names the offset, the width, the expected value and the value actually read (which differs from it); running out of input happens only when fewer than sizeof(T) bytes remain |
| FileReader.PeekAt | src/SplineNetwork/FileHandler/SplnetFileReader.hpp:35-41 | a peek succeeds exactly when the read would, returns the read's value and leaves the position unchanged, also on failure |
| FileReader.PeekThenRead | src/SplineNetwork/FileHandler/SplnetFileReader.hpp:34-41 | a peek followed by a read yields the same value twice; only the read advances |
| FileReader.ExpectAllAccepts | src/SplineNetwork/FileHandler/SplnetFileReader.cpp:11-30 | a run of expects accepts exactly the encodings of its words, one after the other, and ends just after them |
| FileReader.ExpectAllFirstMismatch | src/SplineNetwork/FileHandler/SplnetFileReader.cpp:11-30 | a failing run fails at its first wrong or missing word: every earlier word matched, and the error is that word's |
| FileReader.SectionHeaderAt | src/SplineNetwork/FileHandler/SplnetFileReader.cpp:11-16 | an accepted section header is 8 bytes long |
| FileReader.ElementHeaderAt | src/SplineNetwork/FileHandler/SplnetFileReader.cpp:17-20 | an accepted element header is 4 bytes long |
| FileReader.ElementFooterAt | src/SplineNetwork/FileHandler/SplnetFileReader.cpp:21-30 | an accepted element footer is 6 bytes long |
| FileReader.Reader.Read | src/SplineNetwork/FileHandler/SplnetFileReader.hpp:18-25 | the method returns ReadAt at the old cursor and moves the cursor by the width, or leaves it at the end of input |
| FileReader.Reader.Expect | src/SplineNetwork/FileHandler/SplnetFileReader.hpp:27-33 | the method returns ExpectAt at the old cursor; after a mismatch the cursor is past the bad value |
| FileReader.Reader.Peek | src/SplineNetwork/FileHandler/SplnetFileReader.hpp:35-41 | the method returns PeekAt at the cursor and restores the cursor |
| FileReader.Reader.ExpectSectionHeader | src/SplineNetwork/FileHandler/SplnetFileReader.cpp:11-16 | the four expects in order: the id, 0x01, 0x03, 0x03 |
| FileReader.Reader.ExpectElementHeader | src/SplineNetwork/FileHandler/SplnetFileReader.cpp:17-20 | the expects 0x0b, 0x01 |
| FileReader.Reader.ExpectElementFooter | src/SplineNetwork/FileHandler/SplnetFileReader.cpp:21-30 | the expects 0x04, 0x04, then 0x04 if final or 0x03 if not |
| FileWriter.SectionHeaderBytes | src/SplineNetwork/FileHandler/SplnetFileWriter.cpp:9-14 | the section header written is 8 bytes |
| FileWriter.ElementHeaderBytes | src/SplineNetwork/FileHandler/SplnetFileWriter.cpp:15-18 | the element header written is 4 bytes |
| FileWriter.ElementFooterBytes | src/SplineNetwork/FileHandler/SplnetFileWriter.cpp:19-28 | the element footer written is 6 bytes |
| FileWriter.Writer.Write | src/SplineNetwork/FileHandler/SplnetFileWriter.hpp:14-17 | write appends exactly the value's sizeof(T) bytes; earlier bytes are untouched and the position stays equal to the bytes written |
| FileWriter.Writer.WriteSectionHeader | src/SplineNetwork/FileHandler/SplnetFileWriter.cpp:9-14 | appends id, 0x01, 0x03, 0x03 |
| FileWriter.Writer.WriteElementHeader | src/SplineNetwork/FileHandler/SplnetFileWriter.cpp:15-18 | appends 0x0b, 0x01 |
| FileWriter.Writer.WriteElementFooter | src/SplineNetwork/FileHandler/SplnetFileWriter.cpp:19-28 | appends 0x04, 0x04, then 0x04 if final or 0x03 if not |
| FileWriter.ReadAfterWrite | src/SplineNetwork/FileHandler/SplnetFileWriter.hpp:14-15 | a read at the offset where a write placed v returns v |
| FileWriter.SectionHeaderAccepted | src/SplineNetwork/FileHandler/SplnetFileWriter.cpp:9-14 | expectSectionHeader(id) succeeds if and only if the bytes writeSectionHeader(id) writes are there, and then consumes all 8 |
| FileWriter.ElementHeaderAccepted | src/SplineNetwork/FileHandler/SplnetFileWriter.cpp:15-18 | expectElementHeader accepts exactly what writeElementHeader writes |
| FileWriter.ElementFooterAccepted | src/SplineNetwork/FileHandler/SplnetFileWriter.cpp:19-28 | expectElementFooter(f) accepts exactly what writeElementFooter(f) writes |
| FileWriter.FooterFinalityChecked | src/SplineNetwork/FileHandler/SplnetFileWriter.cpp:23-27 | expectElementFooter(f) rejects the footer written for !f, at its third word, with both sentinels named |
| FileWriter.FooterBeginsWithEnd | src/SplineNetwork/FileHandler/SplnetFileWriter.cpp:19-20 | every footer starts with the word 0x04 |
| TaggedRuns.RunAt | src/SplineNetwork/Route.cpp:12-15 | the peek-driven loop consumes 2 + sizeof(T) bytes per item it collects, and every item fits its width |
| TaggedRuns.RunStop | src/SplineNetwork/Route.cpp:12-15 | tagged items followed by a word other than the tag are collected exactly, in order |
| TaggedRuns.RunDecoded | src/SplineNetwork/Strip.cpp:16-19 | a loop that succeeded read the encodings of the items it returns and stopped at a word other than the tag |
| TaggedRuns.ReadRun | src/SplineNetwork/Route.cpp:12-15 | the loop as a method returns RunAt at the cursor and leaves the cursor after it |
| TaggedRuns.WriteRun | src/SplineNetwork/Route.cpp:28-31 | appends one (tag, item) pair per item, in order |
| Anchors.Anchor.NiceId | src/SplineNetwork/Anchor.hpp:6-8 | the id with bits 28 and 23 cleared; adding back the sub-anchor and water bits gives the id |
| Anchors.AnchorAt | src/SplineNetwork/Anchor.cpp:3-17 | a decoded anchor occupies exactly 34 bytes |
| Anchors.AnchorBytes | src/SplineNetwork/Anchor.cpp:4-16 | the anchor layout is 34 bytes |
| Anchors.AnchorLayout | src/SplineNetwork/Anchor.cpp:3-17 | the decoder returns anchor a, 34 bytes on, if and only if a's layout (header, 0x14, id, 0x4c 0x01 0x03 0x0d, posX, 0x0d, posY, footer) is there, fields raw |
| Anchors.AnchorBytesDecode | src/SplineNetwork/Anchor.cpp:3-17 | an anchor's layout decodes to that anchor |
| Anchors.AnchorDecodeBytes | src/SplineNetwork/Anchor.cpp:3-17 | a decoded anchor was read from exactly its layout |
| Anchors.AnchorFinalityChecked | src/SplineNetwork/Anchor.cpp:16 | an anchor laid out with the other finality fails at the footer sentinel, 32 bytes in |
| Anchors.ReadAnchor | src/SplineNetwork/Anchor.cpp:3-17 | the constructor as a method returns AnchorAt at the cursor |
| Routes.RouteHeadBytes | src/SplineNetwork/Route.cpp:3-10 | the route head (header, 0x029c, id, zero word, 0x05f7 0x0001 0x0003) is 20 bytes |
| Routes.RouteHeadLayout | src/SplineNetwork/Route.cpp:3-10 | the head decodes to id, 20 bytes on, if and only if its layout with a zero u32 after the id is there |
| Routes.RouteAt | src/SplineNetwork/Route.cpp:2-18 | a decoded route occupies 26 bytes plus 6 per anchor |
| Routes.RouteBytes | src/SplineNetwork/Route.cpp:19-34 | the laid-out route is 26 bytes plus 6 per anchor |
| Routes.AnchorLoopStops | src/SplineNetwork/Route.cpp:12-17 | the anchor loop collects exactly the encoded anchors and stops at the footer's 0x04 |
| Routes.RouteLayout | src/SplineNetwork/Route.cpp:2-34 | a route decodes to r if and only if r's laid-out bytes are there: decode after write gives back the id and the anchor list |
| Routes.RouteDecodeParts | src/SplineNetwork/Route.cpp:2-18 | a decoded route came from a head, one (0x14, anchor) pair per anchor in order, and a footer |
| Routes.ReadRouteHead | src/SplineNetwork/Route.cpp:3-10 | returns RouteHeadAt at the cursor |
| Routes.ReadRoute | src/SplineNetwork/Route.cpp:2-18 | returns RouteAt at the cursor |
| Routes.WriteRouteHead | src/SplineNetwork/Route.cpp:20-26 | appends the 20-byte head, the id as a u32 |
| Routes.WriteRoute | src/SplineNetwork/Route.cpp:19-34 | appends the route's layout: head, (0x14, anchor) pairs, footer |
| Routes.RouteBytesAsWritten | src/SplineNetwork/Route.cpp:19-34 | the route as the writer lays it out, with its id as 8 bytes, is 30 bytes plus 6 per anchor |
| Routes.RouteAsWrittenRejected | src/SplineNetwork/Route.cpp:22 | the reader rejects every route laid out as written, 14 bytes in, finding 0 where 0x05f7 must be |
| Routes.RemapAnchors | src/SplineNetwork/Route.cpp:36-41 | each anchor with an image in the table is replaced by it, the others are kept, the id, length and order are kept; an identity table changes nothing |
| Strips.Strip.Type | src/SplineNetwork/Strip.hpp:40 | the low 6 bits: the raw source is the source id times 64 plus the type |
| Strips.Strip.SourceId | src/SplineNetwork/Strip.hpp:42 | the raw source shifted right by 6, below 2^26 |
| Strips.Strip.DestinationId | src/SplineNetwork/Strip.hpp:44 | the raw destination shifted right by 3, below 2^29 |
| Strips.SetSourceId | src/SplineNetwork/Strip.hpp:43 | setting the source keeps the type, the destination and the routes; the source then reads back modulo 2^26, so ids below 2^26 read back exactly |
| Strips.SetDestinationId | src/SplineNetwork/Strip.hpp:45 | setting the destination zeroes the low 3 raw bits, keeps the rest; it reads back modulo 2^29 |
| Strips.SourceIdRestored | src/SplineNetwork/Strip.hpp:42-43 | setting the source id a strip already has changes nothing |
| Strips.DestinationIdRestored | src/SplineNetwork/Strip.hpp:44-45 | setting the destination id a strip already has changes nothing if and only if its low 3 raw bits are zero |
| Strips.IdPairIdentifies | src/SplineNetwork/Strip.hpp:47-51 | idPair is (raw destination, raw source), and two strips share it exactly when both raw words agree |
| Strips.DefaultStrip | src/SplineNetwork/Strip.hpp:26-35 | a default strip has both raw words 0xFFFFFFFF, no routes, and type 63 |
| Strips.StripHeadBytes | src/SplineNetwork/Strip.cpp:3-10 | the strip head is 20 bytes |
| Strips.StripHeadLayout | src/SplineNetwork/Strip.cpp:3-10 | the head decodes to the raw source and destination, unshifted, if and only if its layout is there |
| Strips.StripAt | src/SplineNetwork/Strip.cpp:2-22 | a decoded strip occupies 26 bytes plus 10 per route id |
| Strips.StripBytes | src/SplineNetwork/Strip.cpp:2-22 | the laid-out strip is 26 bytes plus 10 per route id |
| Strips.StripLayout | src/SplineNetwork/Strip.cpp:2-22 | a strip decodes to s if and only if s's layout (head, (0x029c, u64) pairs in order, footer) is there |
| Strips.StripDecodeParts | src/SplineNetwork/Strip.cpp:2-22 | a decoded strip came from a head, its route pairs and a footer |
| Strips.RouteLoopStopsAtFooter | src/SplineNetwork/Strip.cpp:16-21 | the route loop stops at the footer, since 0x04 is not 0x029c |
| Strips.RoutelessStripAccepted | src/SplineNetwork/Strip.cpp:16 | a head directly followed by a footer is a strip with no routes |
| Strips.StripFinalityChecked | src/SplineNetwork/Strip.cpp:21 | a strip laid out with the other finality fails at the footer sentinel |
| Strips.ReadStripHead | src/SplineNetwork/Strip.cpp:3-10 | returns StripHeadAt at the cursor |
| Strips.ReadStrip | src/SplineNetwork/Strip.cpp:2-22 | returns StripAt at the cursor |
| Strips.RemapRoutes | src/SplineNetwork/Strip.hpp:53 | each route id with an image in the table is replaced by it; length and order are kept |
| NetworkFile.MagicBytes | src/SplineNetwork/SplineNetwork.cpp:20-28 | the nine fixed header words take 18 bytes |
| NetworkFile.MagicLayout | src/SplineNetwork/SplineNetwork.cpp:20-28 | the nine fixed words 0x00ee … 0x000c are accepted exactly when they are there |
| NetworkFile.FileHeaderAt | src/SplineNetwork/SplineNetwork.cpp:19-35 | an accepted file header is 36 bytes |
| NetworkFile.FileHeaderBytes | src/SplineNetwork/SplineNetwork.cpp:19-35 | the header layout is 36 bytes |
| NetworkFile.CountLayout | src/SplineNetwork/SplineNetwork.cpp:29-34 | a count field of the header yields n, 6 bytes on, if and only if n as a u32 and the word that closes the field are there |
| NetworkFile.FileHeaderLayout | src/SplineNetwork/SplineNetwork.cpp:19-35 | the header yields the counts c, 36 bytes on, if and only if c's header layout is there |
| NetworkFile.ListAt | src/SplineNetwork/SplineNetwork.cpp:41-43 | the element loop from i to count yields exactly count - i elements |
| NetworkFile.SectionAt | src/SplineNetwork/SplineNetwork.cpp:36-44 | a section yields exactly count elements |
| NetworkFile.ListLayout | src/SplineNetwork/SplineNetwork.cpp:41-43 | elements laid out in order, only the last with the final footer, decode to that list |
| NetworkFile.ListDecoded | src/SplineNetwork/SplineNetwork.cpp:41-43 | a decoded list was read from exactly that layout |
| NetworkFile.AnchorsDecode | src/SplineNetwork/SplineNetwork.cpp:41-42 | the anchor decoder takes exactly the laid-out bytes of an anchor and nothing else |
| NetworkFile.RoutesDecode | src/SplineNetwork/SplineNetwork.cpp:50-51 | the same for routes |
| NetworkFile.StripsDecode | src/SplineNetwork/SplineNetwork.cpp:59-60 | the same for strips |
| NetworkFile.SectionLayout | src/SplineNetwork/SplineNetwork.cpp:36-44 | a section header with the section id followed by the list layout decodes to that list |
| NetworkFile.SectionDecoded | src/SplineNetwork/SplineNetwork.cpp:36-44 | a decoded section was read from exactly that layout |
| NetworkFile.NetworkLayout | src/SplineNetwork/SplineNetwork.cpp:9-18 | a network's laid-out file (header, then anchors 0x05f4, routes 0x05f5, strips 0x05f6) decodes to that network, in file order |
| NetworkFile.NetworkDecoded | src/SplineNetwork/SplineNetwork.cpp:9-18 | a decoded network was read from exactly its laid-out file |
| NetworkFile.ExpectHeaderMagic | src/SplineNetwork/SplineNetwork.cpp:20-28 | returns MagicAt at the cursor |
| NetworkFile.ParseFileHeader | src/SplineNetwork/SplineNetwork.cpp:19-35 | returns FileHeaderAt at the cursor |
| NetworkFile.ReadCount | src/SplineNetwork/SplineNetwork.cpp:29-34 | returns CountAt at the cursor: the u32 count, then the expected closing word |
| NetworkFile.ParseAnchorList | src/SplineNetwork/SplineNetwork.cpp:36-44 | returns SectionAt for the anchor section at the cursor |
| NetworkFile.ParseRouteList | src/SplineNetwork/SplineNetwork.cpp:45-53 | returns SectionAt for the route section at the cursor |
| NetworkFile.ParseStripList | src/SplineNetwork/SplineNetwork.cpp:54-62 | returns SectionAt for the strip section at the cursor |
| NetworkFile.LoadNetwork | src/SplineNetwork/SplineNetwork.cpp:9-18 | reads header, anchors, routes and strips in that order and returns NetworkAt |
| ItemChanges.NoChanges | src/SplineNetwork/NetworkItemChanges.hpp:10-13 | a new record has three empty buckets |
| ItemChanges.Difference | src/SplineNetwork/NetworkItemChanges.hpp:17-42 | edits hold exactly the keys in both maps whose values differ, with (from, to); deletions exactly the keys only in from, with from's value; additions exactly the keys only in to, with to's value |
| ItemChanges.DiffMapsFresh | src/SplineNetwork/NetworkItemChanges.hpp:17-42 | diffMaps on a new record records exactly the difference |
| ItemChanges.DifferencePartitions | src/SplineNetwork/NetworkItemChanges.hpp:26-41 | the buckets are pairwise disjoint, and a key is in one exactly when the two maps do not agree on it |
| ItemChanges.DifferenceOfSame | src/SplineNetwork/NetworkItemChanges.hpp:26-41 | comparing a map with itself records nothing |
| ItemChanges.DifferenceReplays | src/SplineNetwork/NetworkItemChanges.hpp:17-42 | replaying the difference on from gives to |
| ItemChanges.DifferenceUndoes | src/SplineNetwork/NetworkItemChanges.hpp:17-42 | undoing the difference on to gives from |
| ItemChanges.DifferenceSwapped | src/SplineNetwork/NetworkItemChanges.hpp:17-42 | the difference the other way round swaps deletions and additions and flips the edit pairs |
| ItemChanges.DiffMaps | src/SplineNetwork/NetworkItemChanges.hpp:17-42 | into a record that may already hold entries: deletions gain the keys only in from, additions the keys only in to, edits the keys in both whose values differ, each with its value or (from, to) pair; an entry already recorded under a key is kept |
| ItemChanges.Merge | src/SplineNetwork/Diff.cpp:21-23 | each bucket holds the keys of both records, this record's entries kept and the other's taken over where this one has none |
| ItemChanges.MergeInto | src/SplineNetwork/Diff.cpp:21-23 | std::map::merge: the keys of both maps, the existing keys keeping their values |
| ItemChanges.MergeNeutral | src/SplineNetwork/Diff.cpp:21-23 | merging a record into itself, or an empty record into one, changes nothing |
| ItemChanges.MergeIntoEmpty | src/SplineNetwork/Diff.cpp:21-23 | merging into an empty record takes the other over whole |
| ItemChanges.MergeDisjoint | src/SplineNetwork/Diff.cpp:21-23 | with disjoint keys the merge loses nothing of either map |
| NetworkStore.ApplyChangeList | src/SplineNetwork/SplineNetwork.hpp:40-96 | no abort exactly when no addition key survives edits and deletions, and then the map is the record replayed; on an abort the key is named, the edited map is kept and only additions were inserted; the warnings are exactly those of the record, edit warnings first; keys no bucket mentions are untouched |
| NetworkStore.ApplyEdits | src/SplineNetwork/SplineNetwork.hpp:42-61 | every edited key gets its new version, present before or not; a missing or stale item is warned about |
| NetworkStore.ApplyDeletions | src/SplineNetwork/SplineNetwork.hpp:63-82 | a deleted key present is erased even when stale, with a warning; an absent one is skipped with a warning |
| NetworkStore.ApplyAdditions | src/SplineNetwork/SplineNetwork.hpp:83-95 | an addition whose key is present aborts, keeping what is already there; otherwise all additions are inserted |
| NetworkStore.DifferenceApplies | src/SplineNetwork/SplineNetwork.hpp:40-96 | applying the difference of two maps to the first gives the second, with no warning and no abort |
| Remapping.NextFreeAnchor | src/SplineNetwork/Diff.cpp:54-56 | the counter stops at the first id not taken, at or after where it stood, and no further than the number of taken ids past its start |
| Remapping.NextFreeRoute | src/SplineNetwork/Diff.cpp:81-84 | the route counter stops at the first value whose candidate n << 8 \| type is not taken, within the number of taken ids |
| Remapping.AnchorRemapping | src/SplineNetwork/Diff.cpp:27-63 | a valid table: reserved ids not claimed map to themselves, incoming images are pairwise distinct and not reserved, a moved id is a sub-anchor's and lands in its class's counter range; a hub under a reserved id refuses and every such hub is reported; a hub reported is an incoming hub whose id is reserved or lies in the counters' range, that is, was taken when it was reached |
| Remapping.CounterIdsAreSubAnchorIds | src/SplineNetwork/Diff.cpp:34-35 | within 2^23 - 1 reserved and incoming anchors, every id the land or water counter can reach is a sub-anchor id |
| Remapping.RenumberedKeepsClass | src/SplineNetwork/Diff.cpp:34-56 | within the counters' range, a renumbered id is a sub-anchor id and keeps the water bit of the id it replaces |
| Remapping.RouteRemapping | src/SplineNetwork/Diff.cpp:66-88 | a valid table: reserved ids not claimed map to themselves, images are distinct and not reserved, a moved id keeps its type byte and gets a counter value from 1; a colliding id with a type of 4 or more refuses, and a route reported is one under a reserved id with such a type |
| Diffs.RewriteStrip | src/SplineNetwork/Diff.cpp:105-110 | a rewritten strip keeps its type; an endpoint the anchor table holds reads back as its image (modulo the field's width, the destination's low 3 bits cleared), any other endpoint keeps its raw word; every route id goes through the route table, order and length kept |
| Diffs.RekeyAnchors | src/SplineNetwork/Diff.cpp:90-95 | each incoming anchor is filed under its image and carries it as its id |
| Diffs.RekeyRoutes | src/SplineNetwork/Diff.cpp:97-103 | each incoming route is filed under its image, carries it as its id, and has its anchors sent through the anchor table |
| Diffs.RewriteStrips | src/SplineNetwork/Diff.cpp:105-111 | each strip addition keeps its key; its endpoints found in the anchor table are set to their images, and its route ids go through the route table |
| Diffs.RemapRecords | src/SplineNetwork/Diff.cpp:25-112 | a refusal reports what caused it, as RefusalExplained states for hubs and routes, and leaves the records as they were; otherwise the tables are valid, the anchor and route additions are rekeyed, the strip additions rewritten, and deletions and edits kept |
| Diffs.Diff.RemapCollisions | src/SplineNetwork/Diff.cpp:25-112 | the same on the diff's fields: unchanged on refusal |
| Diffs.Diff.MergeDiff | src/SplineNetwork/Diff.cpp:9-24 | the reserved ids are this diff's addition keys; a copy of other is renumbered against them and merged in, record by record; on refusal neither diff changes, and other never does |
| Diffs.RefusedExactly | src/SplineNetwork/Diff.cpp:38-88 | for additions filed under their own ids and within 2^23 - 1 anchors, a diff is refused exactly when an incoming hub sits under a reserved anchor id or an incoming route with a type byte of 4 or more sits under a reserved route id; every other diff is renumbered |
| Diffs.MergeRecords | src/SplineNetwork/Diff.cpp:21-23 | each of the nine buckets of the three records holds the keys of both sides, this diff's entries kept and the other's taken over where this diff has none |
| Diffs.RekeyedUnderOwnIds | src/SplineNetwork/Diff.cpp:90-103 | after renumbering, each anchor and route addition is filed under its own id |
| Diffs.MergedAnchorsKeepBoth | src/SplineNetwork/Diff.cpp:9-24 | the merge keeps this diff's anchor additions and every incoming one, under its image with its position |
| Diffs.MergedRoutesKeepBoth | src/SplineNetwork/Diff.cpp:9-24 | the merge keeps this diff's route additions and every incoming one, under an image of the same type |
| Diffs.StripSourceKept | src/SplineNetwork/Diff.cpp:106-107 | for additions filed under their own ids, the rewrite never changes a strip's raw source |
| Diffs.StripUnmovedRewrite | src/SplineNetwork/Diff.cpp:105-111 | tables that map every id a strip refers to onto itself leave the strip unchanged, if its low 3 destination bits are zero |

## Left out

- Stream opening, `ifstream`/`ofstream` mechanics and the file paths of the reader and
  writer constructors: files are byte sequences, and the writer's output is a sequence.
- The floating-point meaning of `posX`/`posY`: they are carried as raw 32-bit words; no
  arithmetic is done on them. `Anchors.Anchor` therefore compares positions bit by bit,
  where C++ `float` `==` takes +0 and -0 as equal and NaN as unequal to itself. For
  anchors holding such values, `ItemChanges.Difference` and the stale-item warnings of
  `NetworkStore.ApplyChangeList` can differ from the program's.
- All `fmt::print` text, the `fmt::formatter<Strip>` specialisation, and the JSON
  conversions (`to_json`, `from_json`, the `NLOHMANN_DEFINE_TYPE_*` macros): output
  and serialisation only. Warnings are kept as values.
- `SplineNetwork::writeToFile`, `calculateDiff` and `applyDiff`: their bodies are not
  part of this model.
  - The keying of the parsed lists into maps is therefore not modelled. The parsed
    network is three lists in file order, as `SplineNetwork.cpp` reads them.
  - The map-keyed store of `SplineNetwork.hpp` appears only through `applyChangeList`,
    which is generic over the key and item types.
- `Anchor`'s writer and `Strip::writeToFile` are not part of this model.
  `Anchors.AnchorBytes` and `Strips.StripBytes` are the layouts the decoders accept.
  They are not claims about those writers.
- `Anchor`'s id accessors are not part of this model: `id()`, `id(set)`, `isSubAnchor`,
  `isWaterAnchor` and `niceID`. They are taken to read and write the 32-bit id, bit 28
  and bit 23, as the id layout described in `Anchor.hpp` suggests.
- `Route::id(set)` and `NetworkItemChanges::merge` are not part of this model. They are
  taken to set the id, and to `std::map::merge` each bucket.
- Strips.RemapRoutes: `Strip::remapRoutes` is not part of this model. It is taken to
  send each 64-bit route id below 2^32 through the 32-bit table, as
  `Route::remapAnchors` does for anchors. Ids of 2^32 or more are kept.
- The order in which `std::map` visits its keys (ascending) is left open in every loop
  over a bucket. The proved contracts therefore hold for any order, ascending included.
  - NetworkStore.ApplyChangeList: after an abort, which additions were inserted before
    it is only bounded, not fixed.
  - The same goes for which counter value an incoming id receives.
- Remapping.AnchorRemapping: does not promise that an incoming anchor whose id is not
  reserved keeps that id. The source checks the reserved set after adding the ids it
  has just handed out, so such an anchor is renumbered too when an earlier colliding
  sub-anchor was given its id. The table stays injective and clear of the reserved ids
  either way. The same holds for Remapping.RouteRemapping.
- Remapping.AnchorRemapping, Remapping.RouteRemapping, Diffs.RemapRecords,
  Diffs.Diff.RemapCollisions and Diffs.Diff.MergeDiff: the uint32 wrap-around of the
  counters is not modelled.
  - These members require that the reserved plus incoming ids number at most
    2^32 - 0x1080_0001 for anchors and 0xFF_FFFF for routes.
  - Below those bounds no counter wraps, and `newId << 8` stays within 32 bits.
  - Renumbered ids keep their class only within 2^23 - 1 renumberings
    (Remapping.RenumberedKeepsClass).
- A colliding route whose type byte is 4 or more makes the source index its 4-entry
  counter array out of range, which is undefined behaviour. The model refuses the diff
  with `UnknownRouteType` instead.
- The list loops of `SplineNetwork.cpp` count with an `int`, so counts of 2^31 or more
  overflow it. The model reads any 32-bit count of elements.

## Findings

| source | as written | input that shows it | evidently intended | confidence | as-written member | corrected member |
|---|---|---|---|---|---|---|
| src/SplineNetwork/Route.cpp:22 | `write(_id)` writes the id as 8 bytes, then the zero u32, taking `_id` to be the `uint64_t` of `Route.hpp:8`; that header is from another revision than `Route.cpp` (it declares no `writeToFile`, `remapAnchors` or `id(uint32_t)`), so the 64-bit width is inferred from it | any route: the reader takes 4 id bytes and a zero u32, reaches the id's high half, a zero, 14 bytes in, and expects 0x05f7 there | write the id as a u32, the width the reader takes at Route.cpp:6-7 and the diff keys use | not executed | Routes.RouteAsWrittenRejected | Routes.RouteLayout |
