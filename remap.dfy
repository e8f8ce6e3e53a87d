/** The id tables `remapCollisions` builds before it rewrites a diff: incoming anchors and
    routes whose ids are already reserved are given fresh ids from per-class counters. */
module Remapping {
  import opened Wire
  import opened Anchors
  import opened Routes

  const LandStart: U32 := 0x1000_0001   // 1 | 1 << 28: first land sub-anchor id tried
  const WaterStart: U32 := 0x1080_0001  // 1 | 1 << 28 | 1 << 23: first water sub-anchor id tried

  /** How many reserved and incoming anchor ids the counters can serve before a uint32
      would wrap. */
  const AnchorRoom: nat := 0x1_0000_0000 - WaterStart

  /** How many reserved and incoming route ids the counters can serve before the counter
      shifted by 8 would leave a uint32. */
  const RouteRoom: nat := 0xFF_FFFF

  const RouteTypeSpan: nat := 256  // the low byte of a route id is its type
  const RouteCounters: nat := 4    // one counter per known route type

  /** The counter a colliding sub-anchor draws from: water when bit 23 of its id is set. */
  function CounterStart(id: U32): U32 {
    if IsWaterId(id) then WaterStart else LandStart
  }

  /** The candidate route id for counter value n and type t: `n << 8 | t`. */
  function RouteCandidate(n: nat, t: nat): nat {
    n * RouteTypeSpan + t
  }

  // Counting: a run of distinct candidates that are all taken is no longer than the set.

  lemma MulLess(a: nat, b: nat, c: nat)
    requires a < b && 1 <= c
    ensures a * c < b * c
  {
  }

  /** If the candidates n * scale + offset for every n in [lo, hi) are all in `s`, there
      are at most |s| of them. */
  lemma {:induction false} RunBounded(lo: nat, hi: nat, scale: nat, offset: nat, s: set<nat>)
    requires 1 <= scale
    requires forall n | lo <= n < hi :: n * scale + offset in s
    ensures hi <= lo + |s|
    decreases hi
  {
    if lo < hi {
      var top := (hi - 1) * scale + offset;
      var rest := s - {top};
      forall n | lo <= n < hi - 1
        ensures n * scale + offset in rest
      {
        MulLess(n, hi - 1, scale);
      }
      RunBounded(lo, hi - 1, scale, offset, rest);
    }
  }

  /** The values an anchor counter has passed over are all taken. */
  ghost predicate CounterPassed(taken: set<U32>, start: nat, c: nat) {
    start <= c && forall v | start <= v < c :: v in taken
  }

  /** The counter values a route-type counter has passed over all have taken candidates. */
  ghost predicate RouteCounterPassed(taken: set<U32>, t: nat, c: nat) {
    1 <= c && forall n | 1 <= n < c :: RouteCandidate(n, t) in taken
  }

  lemma RouteRunBounded(taken: set<U32>, t: nat, c: nat)
    requires RouteCounterPassed(taken, t, c)
    ensures c <= 1 + |taken|
  {
    forall n | 1 <= n < c
      ensures n * RouteTypeSpan + t in taken
    {
      assert RouteCandidate(n, t) in taken;
    }
    RunBounded(1, c, RouteTypeSpan, t, taken);
  }

  /** The `while (anchorIds.contains(newId)) newId++` search: the first value from `from`
      on that is not taken. */
  method NextFreeAnchor(taken: set<U32>, start: U32, from: U32) returns (n: U32)
    requires CounterPassed(taken, start, from)
    requires start + |taken| < 0x1_0000_0000
    ensures n !in taken && from <= n
    ensures CounterPassed(taken, start, n) && n <= start + |taken|
  {
    n := from;
    while n in taken
      invariant from <= n && CounterPassed(taken, start, n)
      decreases 0x1_0000_0000 - n
    {
      RunBounded(start, n + 1, 1, 0, taken);
      n := n + 1;
    }
    RunBounded(start, n, 1, 0, taken);
  }

  /** The `while (routeIds.contains(newId << 8 | type)) newId++` search. */
  method NextFreeRoute(taken: set<U32>, t: nat, from: nat) returns (n: nat)
    requires t < RouteCounters && RouteCounterPassed(taken, t, from)
    requires |taken| < RouteRoom
    ensures RouteCandidate(n, t) !in taken && from <= n
    ensures RouteCounterPassed(taken, t, n) && n <= |taken| + 1
  {
    n := from;
    while RouteCandidate(n, t) in taken
      invariant from <= n && RouteCounterPassed(taken, t, n)
      decreases RouteRoom - n
    {
      RouteRunBounded(taken, t, n + 1);
      n := n + 1;
    }
    RouteRunBounded(taken, t, n);
  }

  // The bookkeeping both loops share: the incoming ids outside `rest` are handled, and
  // `taken`, the reserved set as it has grown, gained at most one id for each.

  ghost predicate Counted(keys: set<U32>, reserved: set<U32>, rest: set<U32>, processed: nat, taken: set<U32>) {
    rest <= keys && processed + |rest| == |keys|
    && reserved <= taken && |taken| <= |reserved| + processed
  }

  lemma CountedStep(keys: set<U32>, reserved: set<U32>, rest: set<U32>, processed: nat, taken: set<U32>,
                    id: U32, x: U32)
    requires Counted(keys, reserved, rest, processed, taken) && id in rest
    ensures Counted(keys, reserved, rest - {id}, processed + 1, taken + {x})
    ensures Counted(keys, reserved, rest - {id}, processed + 1, taken)
    ensures |taken| < |reserved| + |keys|
  {
  }

  lemma CountedStart(keys: set<U32>, reserved: set<U32>)
    ensures Counted(keys, reserved, keys, 0, reserved)
  {
  }

  // The anchor table

  datatype AnchorRemap =
    | AnchorsRemapped(table: map<U32, U32>)
    | HubCollisions(hubs: seq<U32>)  // the hub anchors found under ids already taken

  /** What the anchor table promises: every reserved id and every incoming id has an image;
      a reserved id that nothing claims keeps itself; the incoming ids get pairwise distinct
      images, none of them reserved; and an incoming id that moves is a sub-anchor's,
      moved to a value of its class's counter. */
  predicate AnchorTableValid(table: map<U32, U32>, additions: map<U32, Anchor>, reserved: set<U32>) {
    table.Keys == reserved + additions.Keys
    && (forall k | k in reserved && k !in additions :: table[k] == k)
    && (forall k | k in additions :: table[k] !in reserved)
    && (forall j, k | j in additions && k in additions && j != k :: table[j] != table[k])
    && (forall k | k in additions && table[k] != k ::
          additions[k].IsSubAnchor()
          && CounterStart(k) <= table[k] < CounterStart(k) + |reserved| + |additions|)
  }

  /** The anchor table while the ids in `rest` are still waiting. */
  ghost predicate AnchorTablePartial(table: map<U32, U32>, additions: map<U32, Anchor>, reserved: set<U32>,
                                     rest: set<U32>, taken: set<U32>, room: nat) {
    (forall k :: k in table <==> k in reserved || (k in additions && k !in rest))
    && (forall k | k in reserved && (k !in additions || k in rest) :: table[k] == k)
    && (forall k | k in additions && k !in rest :: table[k] in taken && table[k] !in reserved)
    && (forall j, k | j in additions && j !in rest && k in additions && k !in rest && j != k ::
          table[j] != table[k])
    && (forall k | k in additions && k !in rest && table[k] != k ::
          additions[k].IsSubAnchor() && CounterStart(k) <= table[k] < CounterStart(k) + room)
  }

  lemma AnchorTableStart(additions: map<U32, Anchor>, reserved: set<U32>, room: nat)
    ensures AnchorTablePartial(map k | k in reserved :: k, additions, reserved, additions.Keys, reserved, room)
  {
  }

  /** An incoming id not yet taken keeps itself. */
  lemma AnchorKept(table: map<U32, U32>, additions: map<U32, Anchor>, reserved: set<U32>,
                   rest: set<U32>, taken: set<U32>, room: nat, id: U32)
    requires AnchorTablePartial(table, additions, reserved, rest, taken, room) && reserved <= taken
    requires id in rest && id in additions && id !in taken
    ensures AnchorTablePartial(table[id := id], additions, reserved, rest - {id}, taken + {id}, room)
  {
  }

  /** A sub-anchor whose id is taken moves to a free value of its counter. */
  lemma AnchorMoved(table: map<U32, U32>, additions: map<U32, Anchor>, reserved: set<U32>,
                    rest: set<U32>, taken: set<U32>, room: nat, id: U32, newId: U32)
    requires AnchorTablePartial(table, additions, reserved, rest, taken, room) && reserved <= taken
    requires id in rest && id in additions && additions[id].IsSubAnchor()
    requires newId !in taken && CounterStart(id) <= newId < CounterStart(id) + room
    ensures AnchorTablePartial(table[id := newId], additions, reserved, rest - {id}, taken + {newId}, room)
  {
  }

  lemma AnchorTableDone(table: map<U32, U32>, additions: map<U32, Anchor>, reserved: set<U32>, taken: set<U32>)
    requires AnchorTablePartial(table, additions, reserved, {}, taken, |reserved| + |additions|)
    ensures AnchorTableValid(table, additions, reserved)
  {
  }

  /** The hubs reported so far: each is an incoming hub, and each incoming hub already
      handled whose id was reserved from the start is among them. */
  ghost predicate HubsReported(additions: map<U32, Anchor>, reserved: set<U32>, rest: set<U32>, hubs: seq<U32>) {
    (forall i | 0 <= i < |hubs| :: hubs[i] in additions && !additions[hubs[i]].IsSubAnchor())
    && (forall k | k in additions && k !in rest && k in reserved && !additions[k].IsSubAnchor() :: k in hubs)
  }

  lemma HubsStep(additions: map<U32, Anchor>, reserved: set<U32>, rest: set<U32>, hubs: seq<U32>, id: U32)
    requires HubsReported(additions, reserved, rest, hubs) && id in additions
    ensures !additions[id].IsSubAnchor() ==> HubsReported(additions, reserved, rest - {id}, hubs + [id])
    ensures id !in reserved || additions[id].IsSubAnchor() ==> HubsReported(additions, reserved, rest - {id}, hubs)
  {
    assert (hubs + [id])[|hubs|] == id;
  }

  lemma CountersStillPassed(taken: set<U32>, landId: nat, waterId: nat, x: U32)
    requires CounterPassed(taken, LandStart, landId) && CounterPassed(taken, WaterStart, waterId)
    ensures CounterPassed(taken + {x}, LandStart, landId) && CounterPassed(taken + {x}, WaterStart, waterId)
  {
  }

  /** The anchor loop of `remapCollisions`: an incoming id not yet reserved keeps itself
      and is reserved; a reserved one held by a hub is reported; a reserved one held by a
      sub-anchor takes the next free value of its counter, which is then reserved. */
  method AnchorRemapping(additions: map<U32, Anchor>, reserved: set<U32>) returns (r: AnchorRemap)
    requires |reserved| + |additions| <= AnchorRoom
    ensures r.AnchorsRemapped? ==> AnchorTableValid(r.table, additions, reserved)
    ensures r.HubCollisions? ==>
      r.hubs != [] && forall i | 0 <= i < |r.hubs| ::
        r.hubs[i] in additions && !additions[r.hubs[i]].IsSubAnchor()
    ensures forall k | k in additions && k in reserved && !additions[k].IsSubAnchor() ::
      r.HubCollisions? && k in r.hubs
    ensures r.HubCollisions? ==> forall i | 0 <= i < |r.hubs| ::
      r.hubs[i] in reserved || LandStart <= r.hubs[i] < WaterStart + |reserved| + |additions|
  {
    ghost var room := |reserved| + |additions|;
    var table: map<U32, U32> := map k | k in reserved :: k;
    var taken: set<U32> := reserved;
    var landId: U32 := LandStart;
    var waterId: U32 := WaterStart;
    var hubs: seq<U32> := [];
    var rest := additions.Keys;
    ghost var processed: nat := 0;
    CountedStart(additions.Keys, reserved);
    AnchorTableStart(additions, reserved, room);
    while rest != {}
      invariant Counted(additions.Keys, reserved, rest, processed, taken)
      invariant CounterPassed(taken, LandStart, landId) && CounterPassed(taken, WaterStart, waterId)
      invariant HubsReported(additions, reserved, rest, hubs)
      invariant hubs == [] ==> AnchorTablePartial(table, additions, reserved, rest, taken, room)
      invariant forall x | x in taken ::
        x in reserved || (x in additions && x !in rest) || LandStart <= x < WaterStart + room
      invariant forall i | 0 <= i < |hubs| :: hubs[i] in reserved || LandStart <= hubs[i] < WaterStart + room
      decreases rest
    {
      var id :| id in rest;
      HubsStep(additions, reserved, rest, hubs, id);
      if id !in taken {
        CountedStep(additions.Keys, reserved, rest, processed, taken, id, id);
        CountersStillPassed(taken, landId, waterId, id);
        if hubs == [] {
          AnchorKept(table, additions, reserved, rest, taken, room, id);
        }
        table := table[id := id];
        taken := taken + {id};
      } else if !additions[id].IsSubAnchor() {
        CountedStep(additions.Keys, reserved, rest, processed, taken, id, id);
        hubs := hubs + [id];
      } else {
        var newId: U32;
        CountedStep(additions.Keys, reserved, rest, processed, taken, id, id);
        if IsWaterId(id) {
          newId := NextFreeAnchor(taken, WaterStart, waterId);
        } else {
          newId := NextFreeAnchor(taken, LandStart, landId);
        }
        CountedStep(additions.Keys, reserved, rest, processed, taken, id, newId);
        CountersStillPassed(taken, landId, waterId, newId);
        if hubs == [] {
          AnchorMoved(table, additions, reserved, rest, taken, room, id, newId);
        }
        if IsWaterId(id) {
          waterId := newId;
        } else {
          landId := newId;
        }
        table := table[id := newId];
        taken := taken + {newId};
      }
      rest := rest - {id};
      processed := processed + 1;
    }
    if hubs != [] {
      return HubCollisions(hubs);
    }
    AnchorTableDone(table, additions, reserved, taken);
    return AnchorsRemapped(table);
  }

  /** Under 2^23 - 1 reserved and incoming anchors, a renumbered anchor stays in its class:
      still a sub-anchor, and water exactly when it was water. */
  lemma RenumberedKeepsClass(id: U32, newId: nat, room: nat)
    requires room <= 0x7F_FFFF
    requires CounterStart(id) <= newId < CounterStart(id) + room
    ensures IsSubAnchorId(newId) && (IsWaterId(newId) <==> IsWaterId(id))
  {
  }

  /** Under 2^23 - 1 reserved and incoming anchors, every id either counter can hand out is
      a sub-anchor id. */
  lemma CounterIdsAreSubAnchorIds(x: nat, room: nat)
    requires room <= 0x7F_FFFF
    ensures LandStart <= x < WaterStart + room ==> IsSubAnchorId(x)
  {
  }

  // The route table

  datatype RouteRemap =
    | RoutesRemapped(table: map<U32, U32>)
    | RouteTypeOutOfRange(id: U32)  // a colliding route whose type byte has no counter

  /** What the route table promises: as for anchors, and an incoming id that moves keeps its
      type byte and takes a value of that type's counter. */
  predicate RouteTableValid(table: map<U32, U32>, additions: map<U32, Route>, reserved: set<U32>) {
    table.Keys == reserved + additions.Keys
    && (forall k | k in reserved && k !in additions :: table[k] == k)
    && (forall k | k in additions :: table[k] !in reserved)
    && (forall j, k | j in additions && k in additions && j != k :: table[j] != table[k])
    && (forall k | k in additions && table[k] != k ::
          k % RouteTypeSpan < RouteCounters && table[k] % RouteTypeSpan == k % RouteTypeSpan
          && 1 <= table[k] / RouteTypeSpan <= |reserved| + |additions|)
  }

  /** The route table while the ids in `rest` are still waiting. */
  ghost predicate RouteTablePartial(table: map<U32, U32>, additions: map<U32, Route>, reserved: set<U32>,
                                    rest: set<U32>, taken: set<U32>, room: nat) {
    (forall k :: k in table <==> k in reserved || (k in additions && k !in rest))
    && (forall k | k in reserved && (k !in additions || k in rest) :: table[k] == k)
    && (forall k | k in additions && k !in rest :: table[k] in taken && table[k] !in reserved)
    && (forall j, k | j in additions && j !in rest && k in additions && k !in rest && j != k ::
          table[j] != table[k])
    && (forall k | k in additions && k !in rest && table[k] != k ::
          k % RouteTypeSpan < RouteCounters && table[k] % RouteTypeSpan == k % RouteTypeSpan
          && 1 <= table[k] / RouteTypeSpan <= room)
  }

  lemma RouteTableStart(additions: map<U32, Route>, reserved: set<U32>, room: nat)
    ensures RouteTablePartial(map k | k in reserved :: k, additions, reserved, additions.Keys, reserved, room)
  {
  }

  lemma RouteKept(table: map<U32, U32>, additions: map<U32, Route>, reserved: set<U32>,
                  rest: set<U32>, taken: set<U32>, room: nat, id: U32)
    requires RouteTablePartial(table, additions, reserved, rest, taken, room) && reserved <= taken
    requires id in rest && id in additions && id !in taken
    ensures RouteTablePartial(table[id := id], additions, reserved, rest - {id}, taken + {id}, room)
  {
  }

  lemma RouteMoved(table: map<U32, U32>, additions: map<U32, Route>, reserved: set<U32>,
                   rest: set<U32>, taken: set<U32>, room: nat, id: U32, n: nat, newId: U32)
    requires RouteTablePartial(table, additions, reserved, rest, taken, room) && reserved <= taken
    requires id in rest && id in additions && id % RouteTypeSpan < RouteCounters
    requires newId == RouteCandidate(n, id % RouteTypeSpan) && 1 <= n <= room
    requires newId !in taken
    ensures RouteTablePartial(table[id := newId], additions, reserved, rest - {id}, taken + {newId}, room)
  {
    assert newId / RouteTypeSpan == n && newId % RouteTypeSpan == id % RouteTypeSpan;
  }

  lemma RouteTableDone(table: map<U32, U32>, additions: map<U32, Route>, reserved: set<U32>, taken: set<U32>)
    requires RouteTablePartial(table, additions, reserved, {}, taken, |reserved| + |additions|)
    ensures RouteTableValid(table, additions, reserved)
  {
  }

  ghost predicate CountersPassed(taken: set<U32>, counters: seq<nat>) {
    |counters| == RouteCounters
    && forall t | 0 <= t < RouteCounters :: RouteCounterPassed(taken, t, counters[t])
  }

  lemma CountersStep(taken: set<U32>, counters: seq<nat>, x: U32)
    requires CountersPassed(taken, counters)
    ensures CountersPassed(taken + {x}, counters)
  {
  }

  lemma CountersAdvance(taken: set<U32>, counters: seq<nat>, t: nat, n: nat, newId: U32)
    requires CountersPassed(taken, counters) && t < RouteCounters
    requires RouteCounterPassed(taken, t, n) && newId == RouteCandidate(n, t)
    ensures CountersPassed(taken + {newId}, counters[t := n])
  {
    var c := counters[t := n];
    forall u | 0 <= u < RouteCounters
      ensures RouteCounterPassed(taken + {newId}, u, c[u])
    {
      if u != t {
        assert c[u] == counters[u];
      }
    }
  }

  /** Every incoming route already handled whose id was reserved from the start has a type
      byte with a counter. */
  ghost predicate TypesChecked(additions: map<U32, Route>, reserved: set<U32>, rest: set<U32>) {
    forall k | k in additions && k !in rest && k in reserved :: k % RouteTypeSpan < RouteCounters
  }

  lemma TypesStep(additions: map<U32, Route>, reserved: set<U32>, rest: set<U32>, id: U32)
    requires TypesChecked(additions, reserved, rest)
    requires id !in reserved || id % RouteTypeSpan < RouteCounters
    ensures TypesChecked(additions, reserved, rest - {id})
  {
  }

  /** The route loop of `remapCollisions`: as for anchors, but the counter is chosen by the
      type byte of the id and the candidate is `counter << 8 | type`. */
  method RouteRemapping(additions: map<U32, Route>, reserved: set<U32>) returns (r: RouteRemap)
    requires |reserved| + |additions| <= RouteRoom
    ensures r.RoutesRemapped? ==> RouteTableValid(r.table, additions, reserved)
    ensures r.RouteTypeOutOfRange? ==> r.id in additions && r.id % RouteTypeSpan >= RouteCounters
    ensures (exists k | k in additions && k in reserved :: k % RouteTypeSpan >= RouteCounters) ==>
      r.RouteTypeOutOfRange?
    ensures r.RouteTypeOutOfRange? ==> r.id in reserved
  {
    ghost var room := |reserved| + |additions|;
    var table: map<U32, U32> := map k | k in reserved :: k;
    var taken: set<U32> := reserved;
    var counters: seq<nat> := [1, 1, 1, 1];
    var rest := additions.Keys;
    ghost var processed: nat := 0;
    CountedStart(additions.Keys, reserved);
    RouteTableStart(additions, reserved, room);
    while rest != {}
      invariant Counted(additions.Keys, reserved, rest, processed, taken)
      invariant CountersPassed(taken, counters)
      invariant TypesChecked(additions, reserved, rest)
      invariant RouteTablePartial(table, additions, reserved, rest, taken, room)
      invariant forall x | x in taken ::
        x in reserved || (x in additions && x !in rest) || x % RouteTypeSpan < RouteCounters
      decreases rest
    {
      var id :| id in rest;
      if id !in taken {
        CountedStep(additions.Keys, reserved, rest, processed, taken, id, id);
        CountersStep(taken, counters, id);
        TypesStep(additions, reserved, rest, id);
        RouteKept(table, additions, reserved, rest, taken, room, id);
        table := table[id := id];
        taken := taken + {id};
      } else {
        var t := id % RouteTypeSpan;
        if t >= RouteCounters {
          return RouteTypeOutOfRange(id);
        }
        CountedStep(additions.Keys, reserved, rest, processed, taken, id, id);
        var n := NextFreeRoute(taken, t, counters[t]);
        var newId: U32 := RouteCandidate(n, t);
        CountedStep(additions.Keys, reserved, rest, processed, taken, id, newId);
        CountersAdvance(taken, counters, t, n, newId);
        TypesStep(additions, reserved, rest, id);
        RouteMoved(table, additions, reserved, rest, taken, room, id, n, newId);
        counters := counters[t := n];
        table := table[id := newId];
        taken := taken + {newId};
      }
      rest := rest - {id};
      processed := processed + 1;
    }
    RouteTableDone(table, additions, reserved, taken);
    return RoutesRemapped(table);
  }
}
