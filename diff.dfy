/** A diff between two spline networks: one change record per item kind, and the two
    operations that combine diffs — renumbering the colliding sub-anchors and routes of a
    diff against a set of reserved ids, and merging another diff into this one. */
module Diffs {
  import opened Wire
  import opened Anchors
  import opened Routes
  import opened Strips
  import opened ItemChanges
  import opened Remapping

  /** Strips are filed under their `idPair()`. */
  type StripKey = (U32, U32)

  datatype RemapError =
    | SharedHubs(hubs: seq<U32>)   // "Refusing to merge networks with shared Hub Anchors."
    | UnknownRouteType(id: U32)    // a colliding route whose type byte has no counter

  datatype Outcome = Remapped | Refused(error: RemapError)

  // What the rewrite of each bucket promises

  /** The anchor additions after renumbering: each incoming anchor is filed under its image
      and carries it as its id. */
  ghost predicate AnchorsRekeyed(after: map<U32, Anchor>, before: map<U32, Anchor>, table: map<U32, U32>)
    requires before.Keys <= table.Keys
  {
    after.Keys == (set k | k in before :: table[k])
    && forall k | k in before :: after[table[k]] == before[k].WithId(table[k])
  }

  /** A route renumbered to `id`, its anchors sent through the anchor table. */
  ghost predicate RouteRenumbered(after: Route, before: Route, id: U32, anchorTable: map<U32, U32>) {
    after.id == id && |after.anchors| == |before.anchors|
    && forall i | 0 <= i < |before.anchors| :: after.anchors[i] == MapThrough(anchorTable, before.anchors[i])
  }

  ghost predicate RoutesRekeyed(after: map<U32, Route>, before: map<U32, Route>, table: map<U32, U32>,
                                anchorTable: map<U32, U32>)
    requires before.Keys <= table.Keys
  {
    after.Keys == (set k | k in before :: table[k])
    && forall k | k in before :: RouteRenumbered(after[table[k]], before[k], table[k], anchorTable)
  }

  /** One strip addition rewritten: an endpoint whose id the anchor table holds is set to
      its image (the destination is read after the source is set), then the route ids go
      through the route table. */
  function RewriteStrip(s: Strip, anchorTable: map<U32, U32>, routeTable: map<U32, U32>): (r: Strip)
    ensures r.Type() == s.Type()
    ensures s.SourceId() in anchorTable ==> r.SourceId() == anchorTable[s.SourceId()] % (Word / TypeSpan)
    ensures s.SourceId() !in anchorTable ==> r.rawSource == s.rawSource
    ensures s.DestinationId() in anchorTable ==>
      r.DestinationId() == anchorTable[s.DestinationId()] % (Word / DestinationSpan)
      && r.rawDestination % DestinationSpan == 0
    ensures s.DestinationId() !in anchorTable ==> r.rawDestination == s.rawDestination
    ensures |r.routeIds| == |s.routeIds|
    ensures forall i | 0 <= i < |s.routeIds| :: r.routeIds[i] == RouteThrough(routeTable, s.routeIds[i])
  {
    var s1 := if s.SourceId() in anchorTable then (SetSourceId(s, anchorTable[s.SourceId()]);
                                                   s.WithSourceId(anchorTable[s.SourceId()])) else s;
    var s2 := if s1.DestinationId() in anchorTable then (SetDestinationId(s1, anchorTable[s1.DestinationId()]);
                                                         s1.WithDestinationId(anchorTable[s1.DestinationId()])) else s1;
    s2.(routeIds := RemapRoutes(s2.routeIds, routeTable))
  }

  /** Additions filed under their own ids, as a diff of two networks files them. */
  predicate KeyedById(additions: map<U32, Anchor>) {
    forall k | k in additions :: additions[k].id == k
  }

  // The three rebuild loops of `remapCollisions`

  /** The anchor rebuild: each addition takes its image as id and is emplaced under it. */
  method RekeyAnchors(before: map<U32, Anchor>, table: map<U32, U32>) returns (after: map<U32, Anchor>)
    requires before.Keys <= table.Keys
    requires forall j, k | j in before && k in before && j != k :: table[j] != table[k]
    ensures AnchorsRekeyed(after, before, table)
  {
    after := map[];
    var rest := before.Keys;
    while rest != {}
      invariant rest <= before.Keys
      invariant after.Keys == (set k | k in before && k !in rest :: table[k])
      invariant forall k | k in before && k !in rest :: after[table[k]] == before[k].WithId(table[k])
      decreases rest
    {
      var id :| id in rest;
      var anchor := before[id].WithId(table[id]);
      if anchor.id !in after {
        after := after[anchor.id := anchor];
      }
      rest := rest - {id};
    }
  }

  /** The route rebuild: each addition takes its image as id, has its anchors remapped and
      is emplaced under its new id. */
  method RekeyRoutes(before: map<U32, Route>, table: map<U32, U32>, anchorTable: map<U32, U32>)
    returns (after: map<U32, Route>)
    requires before.Keys <= table.Keys
    requires forall j, k | j in before && k in before && j != k :: table[j] != table[k]
    ensures RoutesRekeyed(after, before, table, anchorTable)
  {
    after := map[];
    var rest := before.Keys;
    while rest != {}
      invariant rest <= before.Keys
      invariant after.Keys == (set k | k in before && k !in rest :: table[k])
      invariant forall k | k in before && k !in rest ::
        RouteRenumbered(after[table[k]], before[k], table[k], anchorTable)
      decreases rest
    {
      var id :| id in rest;
      var route := RemapAnchors(before[id].WithId(table[id]), anchorTable);
      if route.id !in after {
        after := after[route.id := route];
      }
      rest := rest - {id};
    }
  }

  /** The strip pass: each strip addition is rewritten in place and keeps its key. */
  method RewriteStrips(before: map<StripKey, Strip>, anchorTable: map<U32, U32>, routeTable: map<U32, U32>)
    returns (after: map<StripKey, Strip>)
    ensures after.Keys == before.Keys
    ensures forall k | k in before :: after[k] == RewriteStrip(before[k], anchorTable, routeTable)
  {
    after := before;
    var rest := before.Keys;
    while rest != {}
      invariant rest <= before.Keys && after.Keys == before.Keys
      invariant forall k | k in before && k !in rest :: after[k] == RewriteStrip(before[k], anchorTable, routeTable)
      invariant forall k | k in rest :: after[k] == before[k]
      decreases rest
    {
      var id :| id in rest;
      var strip := after[id];
      if strip.SourceId() in anchorTable {
        strip := strip.WithSourceId(anchorTable[strip.SourceId()]);
      }
      if strip.DestinationId() in anchorTable {
        strip := strip.WithDestinationId(anchorTable[strip.DestinationId()]);
      }
      strip := strip.(routeIds := RemapRoutes(strip.routeIds, routeTable));
      after := after[id := strip];
      rest := rest - {id};
    }
  }

  /** The three change records of a diff, as a value. */
  datatype Records = Records(anchors: Changes<U32, Anchor>, strips: Changes<StripKey, Strip>, routes: Changes<U32, Route>)

  /** `merge`, record by record. */
  function MergeRecords(mine: Records, other: Records): (r: Records)
    ensures Absorbed(r.anchors.additions, mine.anchors.additions, other.anchors.additions)
    ensures Absorbed(r.anchors.deletions, mine.anchors.deletions, other.anchors.deletions)
    ensures Absorbed(r.anchors.edits, mine.anchors.edits, other.anchors.edits)
    ensures Absorbed(r.routes.additions, mine.routes.additions, other.routes.additions)
    ensures Absorbed(r.routes.deletions, mine.routes.deletions, other.routes.deletions)
    ensures Absorbed(r.routes.edits, mine.routes.edits, other.routes.edits)
    ensures Absorbed(r.strips.additions, mine.strips.additions, other.strips.additions)
    ensures Absorbed(r.strips.deletions, mine.strips.deletions, other.strips.deletions)
    ensures Absorbed(r.strips.edits, mine.strips.edits, other.strips.edits)
  {
    Records(Merge(mine.anchors, other.anchors), Merge(mine.strips, other.strips), Merge(mine.routes, other.routes))
  }

  /** What a refusal reports, and when there must be one. A hub reported is an incoming
      hub whose id was taken when it was reached: reserved, or handed out by a counter, and
      every incoming hub under a reserved id is reported. A route reported is an incoming
      route under a reserved id whose type byte has no counter, and such a route, when
      there is one, refuses the diff. */
  ghost predicate RefusalExplained(outcome: Outcome, before: Records, anchorIds: set<U32>, routeIds: set<U32>) {
    (outcome.Refused? && outcome.error.SharedHubs? ==>
       outcome.error.hubs != [] && forall i | 0 <= i < |outcome.error.hubs| ::
         outcome.error.hubs[i] in before.anchors.additions
         && !before.anchors.additions[outcome.error.hubs[i]].IsSubAnchor()
         && (outcome.error.hubs[i] in anchorIds
             || LandStart <= outcome.error.hubs[i] < WaterStart + |anchorIds| + |before.anchors.additions|))
    && (forall k | k in before.anchors.additions && k in anchorIds && !before.anchors.additions[k].IsSubAnchor() ::
          outcome.Refused? && outcome.error.SharedHubs? && k in outcome.error.hubs)
    && (outcome.Refused? && outcome.error.UnknownRouteType? ==>
          outcome.error.id in before.routes.additions && outcome.error.id in routeIds
          && outcome.error.id % RouteTypeSpan >= RouteCounters)
    && ((exists k | k in before.routes.additions && k in routeIds :: k % RouteTypeSpan >= RouteCounters) ==>
          outcome.Refused?)
  }

  /** Which diffs are refused: one holding an incoming hub under a reserved anchor id, or an
      incoming route under a reserved route id whose type byte has no counter. When the
      additions are filed under their own ids and there are fewer than 2^23 - 1 reserved
      and incoming anchors, the ids the counters hand out are sub-anchor ids, so no hub can
      collide with one, and every other diff is renumbered. */
  lemma RefusedExactly(outcome: Outcome, before: Records, anchorIds: set<U32>, routeIds: set<U32>)
    requires RefusalExplained(outcome, before, anchorIds, routeIds)
    requires KeyedById(before.anchors.additions)
    requires |anchorIds| + |before.anchors.additions| <= 0x7F_FFFF
    ensures outcome.Refused? <==>
      (exists k | k in before.anchors.additions && k in anchorIds :: !before.anchors.additions[k].IsSubAnchor())
      || (exists k | k in before.routes.additions && k in routeIds :: k % RouteTypeSpan >= RouteCounters)
  {
    if outcome.Refused? && outcome.error.SharedHubs? {
      var h := outcome.error.hubs[0];
      assert before.anchors.additions[h].id == h;
      CounterIdsAreSubAnchorIds(h, |anchorIds| + |before.anchors.additions|);
    }
  }

  /** A successful renumbering: the tables are valid for the reserved ids, the anchor and
      route additions are rekeyed through them, the strip additions rewritten under their
      old keys, and no deletion or edit is touched. */
  ghost predicate RemappedBy(before: Records, after: Records, anchorIds: set<U32>, routeIds: set<U32>,
                             anchorTable: map<U32, U32>, routeTable: map<U32, U32>) {
    AnchorTableValid(anchorTable, before.anchors.additions, anchorIds)
    && RouteTableValid(routeTable, before.routes.additions, routeIds)
    && after.anchors == before.anchors.(additions := after.anchors.additions)
    && AnchorsRekeyed(after.anchors.additions, before.anchors.additions, anchorTable)
    && after.routes == before.routes.(additions := after.routes.additions)
    && RoutesRekeyed(after.routes.additions, before.routes.additions, routeTable, anchorTable)
    && after.strips == before.strips.(additions := after.strips.additions)
    && after.strips.additions.Keys == before.strips.additions.Keys
    && forall k | k in before.strips.additions ::
         after.strips.additions[k] == RewriteStrip(before.strips.additions[k], anchorTable, routeTable)
  }

  /** The body of `remapCollisions` on the records as values: the two tables are built (a
      refusal leaves the records as they were), then the three rebuild passes run. */
  method RemapRecords(before: Records, anchorIds: set<U32>, routeIds: set<U32>)
    returns (outcome: Outcome, after: Records, ghost anchorTable: map<U32, U32>, ghost routeTable: map<U32, U32>)
    requires |anchorIds| + |before.anchors.additions| <= AnchorRoom
    requires |routeIds| + |before.routes.additions| <= RouteRoom
    ensures RefusalExplained(outcome, before, anchorIds, routeIds)
    ensures outcome.Refused? ==> after == before
    ensures outcome.Remapped? ==> RemappedBy(before, after, anchorIds, routeIds, anchorTable, routeTable)
  {
    anchorTable, routeTable := map[], map[];
    var anchors := AnchorRemapping(before.anchors.additions, anchorIds);
    if anchors.HubCollisions? {
      return Refused(SharedHubs(anchors.hubs)), before, anchorTable, routeTable;
    }
    var routes := RouteRemapping(before.routes.additions, routeIds);
    if routes.RouteTypeOutOfRange? {
      return Refused(UnknownRouteType(routes.id)), before, anchorTable, routeTable;
    }
    anchorTable, routeTable := anchors.table, routes.table;
    var newAnchors := RekeyAnchors(before.anchors.additions, anchors.table);
    var newRoutes := RekeyRoutes(before.routes.additions, routes.table, anchors.table);
    var newStrips := RewriteStrips(before.strips.additions, anchors.table, routes.table);
    after := Records(before.anchors.(additions := newAnchors), before.strips.(additions := newStrips),
                     before.routes.(additions := newRoutes));
    outcome := Remapped;
  }

  class Diff {
    var anchorChanges: Changes<U32, Anchor>
    var stripChanges: Changes<StripKey, Strip>
    var routeChanges: Changes<U32, Route>

    constructor(anchors: Changes<U32, Anchor>, strips: Changes<StripKey, Strip>, routes: Changes<U32, Route>)
      ensures anchorChanges == anchors && stripChanges == strips && routeChanges == routes
    {
      anchorChanges := anchors;
      stripChanges := strips;
      routeChanges := routes;
    }

    function Current(): Records
      reads this
    {
      Records(anchorChanges, stripChanges, routeChanges)
    }

    /** `remapCollisions(anchorIds, routeIds)`. The incoming anchor and route additions
        whose ids are reserved are renumbered, the routes' anchor lists and the strips'
        endpoints and route lists follow, deletions and edits are left alone. A hub under a
        reserved id (or a colliding route with an unknown type) refuses the whole diff,
        which then stays as it was. The tables built on the way are returned as ghosts. */
    method RemapCollisions(anchorIds: set<U32>, routeIds: set<U32>)
      returns (outcome: Outcome, ghost anchorTable: map<U32, U32>, ghost routeTable: map<U32, U32>)
      requires |anchorIds| + |anchorChanges.additions| <= AnchorRoom
      requires |routeIds| + |routeChanges.additions| <= RouteRoom
      modifies this
      ensures RefusalExplained(outcome, old(Current()), anchorIds, routeIds)
      ensures outcome.Refused? ==> unchanged(this)
      ensures outcome.Remapped? ==> RemappedBy(old(Current()), Current(), anchorIds, routeIds, anchorTable, routeTable)
    {
      var after;
      outcome, after, anchorTable, routeTable := RemapRecords(Current(), anchorIds, routeIds);
      if outcome.Remapped? {
        anchorChanges, stripChanges, routeChanges := after.anchors, after.strips, after.routes;
        assert Current() == after;
      }
    }

    /** `mergeDiff(other)`. `other` is taken by value: a copy of it is renumbered against
        the anchor and route additions of this diff, then merged in record by record, this
        diff's entries winning where both hold a key. The copy's records after renumbering
        are returned as a ghost. */
    method MergeDiff(other: Diff)
      returns (outcome: Outcome, ghost incoming: Records, ghost anchorTable: map<U32, U32>, ghost routeTable: map<U32, U32>)
      requires |anchorChanges.additions| + |other.anchorChanges.additions| <= AnchorRoom
      requires |routeChanges.additions| + |other.routeChanges.additions| <= RouteRoom
      modifies this
      ensures other != this ==> unchanged(other)
      ensures RefusalExplained(outcome, old(other.Current()), old(anchorChanges.additions).Keys,
                               old(routeChanges.additions).Keys)
      ensures outcome.Refused? ==> unchanged(this)
      ensures outcome.Remapped? ==>
        RemappedBy(old(other.Current()), incoming, old(anchorChanges.additions).Keys, old(routeChanges.additions).Keys,
                   anchorTable, routeTable)
        && Current() == MergeRecords(old(Current()), incoming)
    {
      var reservedAnchorIds := anchorChanges.additions.Keys;
      var reservedRouteIds := routeChanges.additions.Keys;
      var copy := new Diff(other.anchorChanges, other.stripChanges, other.routeChanges);
      outcome, anchorTable, routeTable := copy.RemapCollisions(reservedAnchorIds, reservedRouteIds);
      var theirs := copy.Current();
      incoming := theirs;
      if outcome.Remapped? {
        anchorChanges := Merge(anchorChanges, theirs.anchors);
        routeChanges := Merge(routeChanges, theirs.routes);
        stripChanges := Merge(stripChanges, theirs.strips);
      }
    }
  }

  // Properties of the renumbered diff

  /** After renumbering, each anchor and route addition is filed under its own id. */
  lemma RekeyedUnderOwnIds(anchorsAfter: map<U32, Anchor>, anchorsBefore: map<U32, Anchor>, anchorTable: map<U32, U32>,
                           routesAfter: map<U32, Route>, routesBefore: map<U32, Route>, routeTable: map<U32, U32>)
    requires anchorsBefore.Keys <= anchorTable.Keys && routesBefore.Keys <= routeTable.Keys
    requires AnchorsRekeyed(anchorsAfter, anchorsBefore, anchorTable)
    requires RoutesRekeyed(routesAfter, routesBefore, routeTable, anchorTable)
    ensures forall n | n in anchorsAfter :: anchorsAfter[n].id == n
    ensures forall n | n in routesAfter :: routesAfter[n].id == n
  {
    forall n | n in anchorsAfter
      ensures anchorsAfter[n].id == n
    {
      var k :| k in anchorsBefore && anchorTable[k] == n;
    }
    forall n | n in routesAfter
      ensures routesAfter[n].id == n
    {
      var k :| k in routesBefore && routeTable[k] == n;
    }
  }

  /** No incoming anchor is lost in the merge: the renumbered additions keep clear of the
      ids this diff adds, so the merged bucket holds this diff's additions unchanged and
      every incoming one under its image, with its position. */
  lemma MergedAnchorsKeepBoth(mine: map<U32, Anchor>, after: map<U32, Anchor>, before: map<U32, Anchor>,
                              table: map<U32, U32>)
    requires AnchorTableValid(table, before, mine.Keys)
    requires AnchorsRekeyed(after, before, table)
    ensures after.Keys !! mine.Keys
    ensures forall k | k in mine :: MergeInto(mine, after)[k] == mine[k]
    ensures forall k | k in before ::
              table[k] in MergeInto(mine, after)
              && MergeInto(mine, after)[table[k]] == Anchor(table[k], before[k].posX, before[k].posY)
  {
  }

  /** The same for routes: every incoming route survives the merge under its image, which
      keeps its type byte. */
  lemma MergedRoutesKeepBoth(mine: map<U32, Route>, after: map<U32, Route>, before: map<U32, Route>,
                             table: map<U32, U32>, anchorTable: map<U32, U32>)
    requires RouteTableValid(table, before, mine.Keys)
    requires RoutesRekeyed(after, before, table, anchorTable)
    ensures after.Keys !! mine.Keys
    ensures forall k | k in mine :: MergeInto(mine, after)[k] == mine[k]
    ensures forall k | k in before ::
              table[k] in MergeInto(mine, after)
              && table[k] % RouteTypeSpan == k % RouteTypeSpan
              && RouteRenumbered(MergeInto(mine, after)[table[k]], before[k], table[k], anchorTable)
  {
  }

  /** A strip's source endpoint is never renumbered: `sourceID()` is below 2^26, and the
      ids the table moves are sub-anchor ids, which are at least 2^28. */
  lemma StripSourceKept(s: Strip, table: map<U32, U32>, additions: map<U32, Anchor>, reserved: set<U32>,
                        routeTable: map<U32, U32>)
    requires AnchorTableValid(table, additions, reserved) && KeyedById(additions)
    ensures RewriteStrip(s, table, routeTable).rawSource == s.rawSource
  {
    if s.SourceId() in table {
      var id: U32 := s.SourceId();
      assert table[id] == id;
      SourceIdRestored(s);
    }
  }

  /** Tables that send every id a strip refers to onto itself leave the strip as it was,
      provided the three low bits of its destination word are zero (`setDestinationID`
      writes them as zero). */
  lemma StripUnmovedRewrite(s: Strip, anchorTable: map<U32, U32>, routeTable: map<U32, U32>)
    requires s.SourceId() in anchorTable ==> anchorTable[s.SourceId()] == s.SourceId()
    requires s.DestinationId() in anchorTable ==> anchorTable[s.DestinationId()] == s.DestinationId()
    requires forall i | 0 <= i < |s.routeIds| :: RouteThrough(routeTable, s.routeIds[i]) == s.routeIds[i]
    requires s.rawDestination % DestinationSpan == 0
    ensures RewriteStrip(s, anchorTable, routeTable) == s
  {
    SourceIdRestored(s);
    DestinationIdRestored(s);
    var r := RemapRoutes(s.routeIds, routeTable);
    assert r == s.routeIds;
  }
}
