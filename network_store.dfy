/** Applying a change record to one of a network's item maps (`applyChangeList`): edits,
    then deletions, then additions, with a warning for every item that is not the version
    the record expects and an abort on an addition whose key is taken. */
module NetworkStore {
  import opened ItemChanges

  /** The warnings printed to the error stream; the message text is not modelled. */
  datatype Warning<K> =
    | EditMissing(key: K)    // edited item absent: its new version is inserted anyway
    | EditStale(key: K)      // edited item present, but not the edit's old version
    | DeleteMissing(key: K)  // deleted item absent: the deletion is skipped
    | DeleteStale(key: K)    // deleted item present, but not the recorded version

  datatype Outcome<K> =
    | Applied
    | AdditionClash(key: K)  // the runtime_error thrown for an addition whose key is taken

  predicate IsEditWarning<K>(w: Warning<K>) {
    w.EditMissing? || w.EditStale?
  }

  /** The warnings the edits of `keys` raise against `items`. */
  function EditWarnings<K, T(==)>(items: map<K, T>, edits: map<K, (T, T)>, keys: set<K>): set<Warning<K>> {
    (set k | k in keys && k in edits && k !in items :: EditMissing(k))
    + (set k | k in keys && k in edits && k in items && items[k] != edits[k].0 :: EditStale(k))
  }

  /** The warnings the deletions of `keys` raise against `items`. */
  function DeleteWarnings<K, T(==)>(items: map<K, T>, deletions: map<K, T>, keys: set<K>): set<Warning<K>> {
    (set k | k in keys && k in deletions && k !in items :: DeleteMissing(k))
    + (set k | k in keys && k in deletions && k in items && items[k] != deletions[k] :: DeleteStale(k))
  }

  /** Every warning a record raises: its edits are checked against the map as given, its
      deletions against the map once the edits are in. */
  function Warnings<K, T(==)>(items: map<K, T>, c: Changes<K, T>): set<Warning<K>> {
    EditWarnings(items, c.edits, c.edits.Keys)
    + DeleteWarnings(items + NewVersions(c.edits), c.deletions, c.deletions.Keys)
  }

  function Elements<W>(s: seq<W>): set<W> {
    set w | w in s
  }

  /** `applyChangeList(items, changes)`. `items` is updated in place and is not restored
      when an addition aborts: `after` is its state when the call returns or throws. The
      keys of each bucket are visited in an order the model leaves open. */
  method ApplyChangeList<K, T(==)>(items: map<K, T>, changes: Changes<K, T>)
    returns (after: map<K, T>, log: seq<Warning<K>>, outcome: Outcome<K>)
    ensures outcome.Applied? <==> changes.additions.Keys !! Prepared(items, changes).Keys
    ensures outcome.Applied? ==> after == Replayed(items, changes)
    ensures outcome.AdditionClash? ==>
      var mid := Prepared(items, changes);
      outcome.key in changes.additions && outcome.key in mid
      && mid.Keys <= after.Keys
      && (forall k | k in mid :: after[k] == mid[k])
      && (forall k | k in after && k !in mid :: k in changes.additions && after[k] == changes.additions[k])
    ensures Elements(log) == Warnings(items, changes)
    ensures forall i, j | 0 <= i < j < |log| :: IsEditWarning(log[j]) ==> IsEditWarning(log[i])
    ensures forall k | k !in changes.edits && k !in changes.deletions && k !in changes.additions ::
      (k in after <==> k in items) && (k in items ==> after[k] == items[k])
  {
    var edited, editLog := ApplyEdits(items, changes.edits);
    var prepared, deleteLog := ApplyDeletions(edited, changes.deletions);
    after, outcome := ApplyAdditions(prepared, changes.additions);
    log := editLog + deleteLog;
    ElementsSplit(log, |editLog|);
    assert log[..|editLog|] == editLog && log[|editLog|..] == deleteLog;
  }

  /** The edit loop: every edited key gets its new version, present or not. */
  method ApplyEdits<K, T(==)>(items: map<K, T>, edits: map<K, (T, T)>)
    returns (after: map<K, T>, log: seq<Warning<K>>)
    ensures after == items + NewVersions(edits)
    ensures Elements(log) == EditWarnings(items, edits, edits.Keys)
    ensures forall i | 0 <= i < |log| :: IsEditWarning(log[i])
  {
    after := items;
    log := [];
    var rest := edits.Keys;
    while rest != {}
      invariant rest <= edits.Keys
      invariant forall k :: k in after <==> k in items || (k in edits && k !in rest)
      invariant forall k | k in after :: after[k] == if k in edits && k !in rest then edits[k].1 else items[k]
      invariant Elements(log) == EditWarnings(items, edits, edits.Keys - rest)
      invariant forall i | 0 <= i < |log| :: IsEditWarning(log[i])
      decreases rest
    {
      var id :| id in rest;
      var (oldVersion, newVersion) := edits[id];
      EditWarningsStep(items, edits, edits.Keys - rest, id);
      assert edits.Keys - (rest - {id}) == (edits.Keys - rest) + {id};
      if id !in after {
        ElementsAppend(log, EditMissing(id));
        log := log + [EditMissing(id)];
      } else if oldVersion != after[id] {
        ElementsAppend(log, EditStale(id));
        log := log + [EditStale(id)];
      }
      after := after[id := newVersion];
      rest := rest - {id};
    }
    MapsAgree(after, items + NewVersions(edits));
  }

  /** The deletion loop: a deleted key that is present goes, one that is absent is skipped. */
  method ApplyDeletions<K, T(==)>(items: map<K, T>, deletions: map<K, T>)
    returns (after: map<K, T>, log: seq<Warning<K>>)
    ensures after == items - deletions.Keys
    ensures Elements(log) == DeleteWarnings(items, deletions, deletions.Keys)
    ensures forall i | 0 <= i < |log| :: !IsEditWarning(log[i])
  {
    after := items;
    log := [];
    var rest := deletions.Keys;
    while rest != {}
      invariant rest <= deletions.Keys
      invariant after == items - (deletions.Keys - rest)
      invariant Elements(log) == DeleteWarnings(items, deletions, deletions.Keys - rest)
      invariant forall i | 0 <= i < |log| :: !IsEditWarning(log[i])
      decreases rest
    {
      var id :| id in rest;
      var deletedItem := deletions[id];
      DeleteWarningsStep(items, deletions, deletions.Keys - rest, id);
      assert deletions.Keys - (rest - {id}) == (deletions.Keys - rest) + {id};
      rest := rest - {id};
      if id !in after {
        ElementsAppend(log, DeleteMissing(id));
        log := log + [DeleteMissing(id)];
        continue;
      } else if deletedItem != after[id] {
        ElementsAppend(log, DeleteStale(id));
        log := log + [DeleteStale(id)];
      }
      after := after - {id};
    }
  }

  /** The addition loop: a key already present aborts, with the additions made so far
      left in place; otherwise every addition is inserted. */
  method ApplyAdditions<K, T>(items: map<K, T>, additions: map<K, T>)
    returns (after: map<K, T>, outcome: Outcome<K>)
    ensures outcome.Applied? <==> additions.Keys !! items.Keys
    ensures outcome.Applied? ==> after == items + additions
    ensures outcome.AdditionClash? ==>
      outcome.key in additions && outcome.key in items
      && items.Keys <= after.Keys
      && (forall k | k in items :: after[k] == items[k])
      && (forall k | k in after && k !in items :: k in additions && after[k] == additions[k])
  {
    after := items;
    var rest := additions.Keys;
    while rest != {}
      invariant rest <= additions.Keys
      invariant after == items + (map k | k in additions && k !in rest :: additions[k])
      invariant (additions.Keys - rest) !! items.Keys
      decreases rest
    {
      var id :| id in rest;
      if id in after {
        return after, AdditionClash(id);
      }
      after := after[id := additions[id]];
      rest := rest - {id};
    }
    assert after == items + additions;
    return after, Applied;
  }

  lemma ElementsAppend<W>(s: seq<W>, w: W)
    ensures Elements(s + [w]) == Elements(s) + {w}
  {
    assert forall x :: x in s + [w] <==> x in s || x == w;
  }

  lemma ElementsSplit<W>(s: seq<W>, n: nat)
    requires n <= |s|
    ensures Elements(s) == Elements(s[..n]) + Elements(s[n..])
  {
    assert s == s[..n] + s[n..];
  }

  /** Visiting one more edited key adds that key's warning, if it raises one. */
  lemma EditWarningsStep<K, T>(items: map<K, T>, edits: map<K, (T, T)>, done: set<K>, id: K)
    requires id in edits
    ensures EditWarnings(items, edits, done + {id})
      == EditWarnings(items, edits, done)
         + (if id !in items then {EditMissing(id)}
            else if items[id] != edits[id].0 then {EditStale(id)} else {})
  {
  }

  /** Visiting one more deleted key adds that key's warning, if it raises one. */
  lemma DeleteWarningsStep<K, T>(items: map<K, T>, deletions: map<K, T>, done: set<K>, id: K)
    requires id in deletions
    ensures DeleteWarnings(items, deletions, done + {id})
      == DeleteWarnings(items, deletions, done)
         + (if id !in items then {DeleteMissing(id)}
            else if items[id] != deletions[id] then {DeleteStale(id)} else {})
  {
  }

  /** Applying the difference between two maps to the first raises no warning, does not
      abort, and gives the second. */
  lemma {:induction false} DifferenceApplies<K, T>(from: map<K, T>, to: map<K, T>)
    ensures var c := Difference(from, to);
      c.additions.Keys !! Prepared(from, c).Keys && Replayed(from, c) == to
      && Warnings(from, c) == {}
  {
    var c := Difference(from, to);
    DifferenceReplays(from, to);
    assert c.additions.Keys !! Prepared(from, c).Keys;
    assert EditWarnings(from, c.edits, c.edits.Keys) == {};
    assert DeleteWarnings(from + NewVersions(c.edits), c.deletions, c.deletions.Keys) == {};
  }
}
