/** The change record a diff keeps for one kind of network item (anchors, strips or
    routes): the items deleted, the items added, and the items edited with their old and
    new version, each keyed by the item's map key. */
module ItemChanges {

  datatype Changes<K, T> = Changes(deletions: map<K, T>, additions: map<K, T>, edits: map<K, (T, T)>)

  /** A default-constructed record: all three buckets empty. */
  function NoChanges<K, T>(): (c: Changes<K, T>)
    ensures c.deletions == map[] && c.additions == map[] && c.edits == map[]
  {
    Changes(map[], map[], map[])
  }

  /** `r` is `into` with the entries of `from` inserted (`std::inserter`, `std::map::merge`):
      the keys already present keep their values, the others are taken over. */
  ghost predicate Absorbed<K, T>(r: map<K, T>, into: map<K, T>, from: map<K, T>) {
    r.Keys == into.Keys + from.Keys
    && (forall k | k in into :: r[k] == into[k])
    && (forall k | k in from && k !in into :: r[k] == from[k])
  }

  /** Inserting entries into a `std::map` that may already hold some of their keys. */
  function MergeInto<K, T>(into: map<K, T>, from: map<K, T>): (r: map<K, T>)
    ensures Absorbed(r, into, from)
  {
    from + into
  }

  /** `merge(other)`, bucket by bucket: where both records hold a key, this one's entry stays. */
  function Merge<K, T>(c: Changes<K, T>, other: Changes<K, T>): (r: Changes<K, T>)
    ensures Absorbed(r.deletions, c.deletions, other.deletions)
    ensures Absorbed(r.additions, c.additions, other.additions)
    ensures Absorbed(r.edits, c.edits, other.edits)
  {
    Changes(MergeInto(c.deletions, other.deletions),
            MergeInto(c.additions, other.additions),
            MergeInto(c.edits, other.edits))
  }

  /** The differences between `from` and `to`: the keys in both maps whose values differ,
      with the pair (old, new); the keys only in `from`, with their old value; the keys only
      in `to`, with their new value. */
  function Difference<K, T(==)>(from: map<K, T>, to: map<K, T>): (c: Changes<K, T>)
    ensures c.edits.Keys <= from.Keys * to.Keys
    ensures c.deletions.Keys <= from.Keys && c.additions.Keys <= to.Keys
    ensures forall k | k in from && k in to :: k in c.edits <==> from[k] != to[k]
    ensures forall k | k in from :: k in c.deletions <==> k !in to
    ensures forall k | k in to :: k in c.additions <==> k !in from
    ensures forall k | k in c.edits :: c.edits[k] == (from[k], to[k])
    ensures forall k | k in c.deletions :: c.deletions[k] == from[k]
    ensures forall k | k in c.additions :: c.additions[k] == to[k]
  {
    var preserved := from.Keys * to.Keys;
    Changes(map k | k in from.Keys - to.Keys :: from[k],
            map k | k in to.Keys - from.Keys :: to[k],
            map k | k in preserved && from[k] != to[k] :: (from[k], to[k]))
  }

  /** `diffMaps(from, to)`: the differences are inserted into the buckets this record
      already holds, so an entry already recorded under a key is not replaced. */
  function DiffMaps<K, T(==)>(c: Changes<K, T>, from: map<K, T>, to: map<K, T>): (r: Changes<K, T>)
    ensures r.deletions.Keys == c.deletions.Keys + (from.Keys - to.Keys)
    ensures forall k | k in c.deletions :: r.deletions[k] == c.deletions[k]
    ensures forall k | k in from && k !in to && k !in c.deletions :: r.deletions[k] == from[k]
    ensures r.additions.Keys == c.additions.Keys + (to.Keys - from.Keys)
    ensures forall k | k in c.additions :: r.additions[k] == c.additions[k]
    ensures forall k | k in to && k !in from && k !in c.additions :: r.additions[k] == to[k]
    ensures r.edits.Keys == c.edits.Keys + (set k | k in from && k in to && from[k] != to[k])
    ensures forall k | k in c.edits :: r.edits[k] == c.edits[k]
    ensures forall k | k in from && k in to && from[k] != to[k] && k !in c.edits :: r.edits[k] == (from[k], to[k])
  {
    var d := Difference(from, to);
    assert d.deletions.Keys == from.Keys - to.Keys && d.additions.Keys == to.Keys - from.Keys;
    assert d.edits.Keys == (set k | k in from && k in to && from[k] != to[k]);
    Changes(MergeInto(c.deletions, d.deletions),
            MergeInto(c.additions, d.additions),
            MergeInto(c.edits, d.edits))
  }

  /** The new versions an edit bucket installs. */
  function NewVersions<K, T>(edits: map<K, (T, T)>): (m: map<K, T>)
    ensures m.Keys == edits.Keys
    ensures forall k | k in edits :: m[k] == edits[k].1
  {
    map k | k in edits :: edits[k].1
  }

  /** The old versions an edit bucket replaces. */
  function OldVersions<K, T>(edits: map<K, (T, T)>): (m: map<K, T>)
    ensures m.Keys == edits.Keys
    ensures forall k | k in edits :: m[k] == edits[k].0
  {
    map k | k in edits :: edits[k].0
  }

  /** A map after a record's edits and deletions: the edits install their new versions,
      then the deleted keys go. */
  function Prepared<K, T>(items: map<K, T>, c: Changes<K, T>): map<K, T> {
    (items + NewVersions(c.edits)) - c.deletions.Keys
  }

  /** What a record stands for when it is replayed on a map: its edits and deletions,
      then its additions come in. */
  function Replayed<K, T>(items: map<K, T>, c: Changes<K, T>): map<K, T> {
    Prepared(items, c) + c.additions
  }

  /** What a record stands for when it is undone: the additions go, the edited keys get
      their old versions back, the deleted items come back. */
  function Undone<K, T>(items: map<K, T>, c: Changes<K, T>): map<K, T> {
    ((items - c.additions.Keys) + OldVersions(c.edits)) + c.deletions
  }

  /** Swapping the roles of old and new in a record. */
  function Reversed<K, T>(c: Changes<K, T>): Changes<K, T> {
    Changes(c.additions, c.deletions, map k | k in c.edits :: (c.edits[k].1, c.edits[k].0))
  }

  // Properties of the difference

  /** diffMaps on a default-constructed record records exactly the difference. */
  lemma DiffMapsFresh<K, T>(from: map<K, T>, to: map<K, T>)
    ensures DiffMaps(NoChanges(), from, to) == Difference(from, to)
  {
    var c := NoChanges<K, T>();
    var d := Difference(from, to);
    assert MergeInto(c.deletions, d.deletions) == d.deletions;
    assert MergeInto(c.additions, d.additions) == d.additions;
    assert MergeInto(c.edits, d.edits) == d.edits;
  }

  /** An item lands in at most one bucket, and it lands in one exactly when the two maps
      do not agree on it. */
  lemma DifferencePartitions<K, T>(from: map<K, T>, to: map<K, T>)
    ensures var c := Difference(from, to);
      c.edits.Keys !! c.deletions.Keys && c.edits.Keys !! c.additions.Keys
      && c.deletions.Keys !! c.additions.Keys
    ensures var c := Difference(from, to);
      forall k ::
        (k in c.edits || k in c.deletions || k in c.additions)
        <==> (k in from || k in to) && !(k in from && k in to && from[k] == to[k])
  {
  }

  /** Comparing a map with itself records nothing. */
  lemma DifferenceOfSame<K, T>(m: map<K, T>)
    ensures Difference(m, m) == NoChanges()
  {
    var c := Difference(m, m);
    assert c.edits == map[];
    assert c.deletions == map[];
    assert c.additions == map[];
  }

  /** Replaying the difference on `from` gives `to`. */
  lemma {:induction false} DifferenceReplays<K, T>(from: map<K, T>, to: map<K, T>)
    ensures Replayed(from, Difference(from, to)) == to
  {
    var c := Difference(from, to);
    var r := Replayed(from, c);
    forall k
      ensures k in r <==> k in to
      ensures k in r ==> r[k] == to[k]
    {
    }
    MapsAgree(r, to);
  }

  /** Undoing the difference on `to` gives `from` back. */
  lemma {:induction false} DifferenceUndoes<K, T>(from: map<K, T>, to: map<K, T>)
    ensures Undone(to, Difference(from, to)) == from
  {
    var c := Difference(from, to);
    var r := Undone(to, c);
    forall k
      ensures k in r <==> k in from
      ensures k in r ==> r[k] == from[k]
    {
    }
    MapsAgree(r, from);
  }

  /** The difference the other way round is the same record with old and new swapped. */
  lemma DifferenceSwapped<K, T>(from: map<K, T>, to: map<K, T>)
    ensures Difference(to, from) == Reversed(Difference(from, to))
  {
    var c := Difference(to, from);
    var d := Reversed(Difference(from, to));
    assert c.edits == d.edits;
  }

  /** Two maps with the same keys and the same values there are equal. */
  lemma MapsAgree<K, T>(a: map<K, T>, b: map<K, T>)
    requires forall k :: k in a <==> k in b
    requires forall k | k in a :: a[k] == b[k]
    ensures a == b
  {
  }

  // Properties of the merge

  /** Merging a record into itself, or an empty record into one, leaves it as it is. */
  lemma MergeNeutral<K, T>(c: Changes<K, T>)
    ensures Merge(c, c) == c
    ensures Merge(c, NoChanges()) == c
  {
    assert MergeInto(c.deletions, c.deletions) == c.deletions;
    assert MergeInto(c.additions, c.additions) == c.additions;
    assert MergeInto(c.edits, c.edits) == c.edits;
  }

  /** Merging into an empty record takes the other record over whole. */
  lemma MergeIntoEmpty<K, T>(c: Changes<K, T>)
    ensures Merge(NoChanges(), c) == c
  {
    assert MergeInto(map[], c.deletions) == c.deletions;
    assert MergeInto(map[], c.additions) == c.additions;
    assert MergeInto(map[], c.edits) == c.edits;
  }

  /** When the two records share no key in a bucket, nothing of either is lost there. */
  lemma MergeDisjoint<K, T>(a: map<K, T>, b: map<K, T>)
    requires a.Keys !! b.Keys
    ensures MergeInto(a, b) == MergeInto(b, a)
    ensures forall k | k in b :: MergeInto(a, b)[k] == b[k]
  {
  }
}
