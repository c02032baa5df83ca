/**
 * Write diffing of the live collection: `_compareAttributes`, the
 * `.priority` split of `_setWithPriority`, the branch `_updateModel` takes,
 * and the unsetting of attributes that were deleted remotely.
 */
module Diffing {
  import opened Wrappers
  import opened Attributes
  import opened Remote

  const PriorityKey: string := ".priority"

  /**
   * The diff law on the keys in `keys`: a key absent locally maps to null, a
   * key whose local value loosely differs from the remote one maps to the
   * local value, and any other key is left out.
   */
  function DiffOn(remote: Attrs, local: Attrs, keys: set<string>): Attrs
  {
    map k | k in keys && (k !in local || LooselyDiffers(local[k], Lookup(remote, k))) ::
      if k !in local then Null else local[k]
  }

  /** The diff law over every key of either map. */
  function Diff(remote: Attrs, local: Attrs): Attrs
  {
    DiffOn(remote, local, remote.Keys + local.Keys)
  }

  /** `_compareAttributes`: fills the update object one key of the union at a time. */
  method CompareAttributes(remote: Attrs, local: Attrs) returns (u: Attrs)
    ensures u.Keys <= remote.Keys + local.Keys
    ensures forall k :: k in remote && k !in local ==> k in u && u[k] == Null
    ensures forall k :: k in local && LooselyDiffers(local[k], Lookup(remote, k)) ==> k in u && u[k] == local[k]
    ensures forall k :: k in local && !LooselyDiffers(local[k], Lookup(remote, k)) ==> k !in u
    ensures u == Diff(remote, local)
  {
    var union := remote.Keys + local.Keys;
    var pending := union;
    u := map[];
    while pending != {}
      invariant pending <= union
      invariant u == DiffOn(remote, local, union - pending)
      decreases pending
    {
      var k :| k in pending;
      if k !in local {
        u := u[k := Null];
      } else if LooselyDiffers(local[k], Lookup(remote, k)) {
        u := u[k := local[k]];
      }
      pending := pending - {k};
      assert u == DiffOn(remote, local, union - pending);
    }
  }

  /** A local null meets a remote-absent key: loosely equal, so no update is sent. */
  lemma LocalNullMatchesAbsentRemote(remote: Attrs, local: Attrs, k: string)
    requires k in local && local[k] == Null && k !in remote
    ensures k !in Diff(remote, local)
  {
  }

  /**
   * Merging the diff into the remote object makes it hold exactly the local
   * attributes that are not null: the diff is a complete update.
   */
  lemma DiffReconciles(remote: Attrs, local: Attrs)
    requires NoNulls(remote)
    ensures Merge(remote, Diff(remote, local)) == StripNulls(local)
  {
    var d := Diff(remote, local);
    var m := Merge(remote, d);
    forall k | k in m ensures k in StripNulls(local) && m[k] == StripNulls(local)[k] {
      if k in d {
        assert k in local;
      } else {
        assert k in local && !LooselyDiffers(local[k], Lookup(remote, k));
      }
    }
    forall k | k in StripNulls(local) ensures k in m {
      if k !in d {
        assert !LooselyDiffers(local[k], Lookup(remote, k));
      }
    }
  }

  /**
   * `update` with the full local attributes, which `_updateModel` sends,
   * reconciles the remote object exactly when no key exists only remotely.
   */
  lemma FullUpdateReconcilesIff(remote: Attrs, local: Attrs)
    requires NoNulls(remote)
    ensures Merge(remote, local) == StripNulls(local) <==> remote.Keys <= local.Keys
  {
    if !(remote.Keys <= local.Keys) {
      var k :| k in remote && k !in local;
      assert k in Merge(remote, local);
    }
    if remote.Keys <= local.Keys {
      assert Merge(remote, local).Keys == StripNulls(local).Keys;
    }
  }

  /**
   * The deleted-field case: remotely `{a:1, b:2}`, locally `{a:1}`. The diff
   * is `{b: null}`, but the full-object update leaves `b` stored.
   */
  lemma DeletedFieldScenario()
    ensures Diff(map["a" := Num(1), "b" := Num(2)], map["a" := Num(1)]) == map["b" := Null]
    ensures Merge(map["a" := Num(1), "b" := Num(2)], map["a" := Num(1)]) == map["a" := Num(1), "b" := Num(2)]
  {
    var remote := map["a" := Num(1), "b" := Num(2)];
    var local := map["a" := Num(1)];
    assert remote.Keys + local.Keys == {"a", "b"};
    assert Diff(remote, local).Keys == {"b"};
    assert Merge(remote, local).Keys == {"a", "b"};
  }

  /** `_setWithPriority`'s split: the item without `.priority`, and the priority it held. */
  function SplitPriority(item: Attrs): (r: (Attrs, Option<Val>))
    ensures PriorityKey !in r.0
    ensures r.1 == Lookup(item, PriorityKey)
    ensures (if r.1.Some? then r.0[PriorityKey := r.1.value] else r.0) == item
  {
    var rest := item - {PriorityKey};
    assert PriorityKey in item ==> rest[PriorityKey := item[PriorityKey]] == item;
    (rest, Lookup(item, PriorityKey))
  }

  /**
   * The write `_updateModel` issues once it has the diff: `setWithPriority`
   * when the diff holds a priority, otherwise `update` with every local attribute.
   */
  function WriteFor(diff: Attrs, local: Attrs, at: Ref): (op: Op)
    ensures op.at == at
    ensures op.SetWithPriority? || op.Update?
    ensures op.SetWithPriority? <==> PriorityKey in diff
    ensures op.SetWithPriority? ==> op.item == local - {PriorityKey} && op.priority == Lookup(local, PriorityKey)
    ensures op.Update? ==> op.patch == local
  {
    if PriorityKey in diff then
      var (item, priority) := SplitPriority(local);
      SetWithPriority(at, item, priority)
    else
      Update(at, local)
  }

  /** The branch the write takes, in terms of the two attribute maps. */
  lemma WriteForBranch(remote: Attrs, local: Attrs, at: Ref)
    ensures var op := WriteFor(Diff(remote, local), local, at);
      && (op.SetWithPriority? <==>
            (PriorityKey in local && LooselyDiffers(local[PriorityKey], Lookup(remote, PriorityKey)))
            || (PriorityKey in remote && PriorityKey !in local))
      && (op.SetWithPriority? ==> op.item == local - {PriorityKey} && op.priority == Lookup(local, PriorityKey))
      && (op.Update? ==> op.patch == local)
  {
  }

  /**
   * When the record's shadow is what the store holds, the write brings the
   * stored object to the local attributes (without the priority) on the
   * priority path when the local priority is one Firebase accepts, and
   * leaves the store as it was when it is not; on the update path it
   * reconciles exactly when no key exists only remotely.
   */
  lemma WriteForEffect(store: Store, at: Ref, local: Attrs)
    requires WellFormed(store)
    ensures var remote := if at in store then store[at] else map[];
      var after := Apply(store, WriteFor(Diff(remote, local), local, at));
      var node := if at in after then after[at] else map[];
      && (PriorityKey in Diff(remote, local) && ValidPriority(Lookup(local, PriorityKey)) ==>
            node == StripNulls(local - {PriorityKey}))
      && (PriorityKey in Diff(remote, local) && !ValidPriority(Lookup(local, PriorityKey)) ==> after == store)
      && (PriorityKey !in Diff(remote, local) ==> (node == StripNulls(local) <==> remote.Keys <= local.Keys))
  {
    var remote := if at in store then store[at] else map[];
    if PriorityKey in Diff(remote, local) {
      PriorityWriteEffect(store, at, local, Diff(remote, local));
    } else {
      assert NoNulls(remote);
      FullUpdateReconcilesIff(remote, local);
    }
  }

  /**
   * On the priority path the stored object is the local one without the
   * priority when Firebase accepts the priority; a priority that is absent or
   * a boolean makes `setWithPriority` throw, and nothing is stored.
   */
  lemma PriorityWriteEffect(store: Store, at: Ref, local: Attrs, diff: Attrs)
    requires PriorityKey in diff
    ensures var after := Apply(store, WriteFor(diff, local, at));
      && (ValidPriority(Lookup(local, PriorityKey)) ==>
            (if at in after then after[at] else map[]) == StripNulls(local - {PriorityKey}))
      && (!ValidPriority(Lookup(local, PriorityKey)) ==> after == store)
  {
  }

  /**
   * A local priority of `true` that the stored record lacks sends the write
   * down the priority path, where Firebase rejects it: the store is unchanged.
   */
  lemma BooleanPriorityStoresNothing(store: Store, at: Ref, local: Attrs)
    requires PriorityKey in local && local[PriorityKey] == Bool(true)
    requires at !in store || PriorityKey !in store[at]
    ensures var remote := if at in store then store[at] else map[];
      var op := WriteFor(Diff(remote, local), local, at);
      op.SetWithPriority? && Apply(store, op) == store
  {
    var remote := if at in store then store[at] else map[];
    WriteForBranch(remote, local, at);
  }

  /**
   * The unset loop of `_unsetAttributes` and `_childChanged`: every local key
   * that the remote record lacks is unset; every other attribute stays.
   */
  method UnsetMissing(attrs: Attrs, remoteKeys: set<string>) returns (r: Attrs)
    ensures r.Keys == attrs.Keys * remoteKeys
    ensures forall k :: k in r ==> r[k] == attrs[k]
  {
    var diff := attrs.Keys - remoteKeys;
    var pending := diff;
    r := attrs;
    while pending != {}
      invariant pending <= diff
      invariant r.Keys == attrs.Keys - (diff - pending)
      invariant forall k :: k in r ==> r[k] == attrs[k]
      decreases pending
    {
      var k :| k in pending;
      r := r - {k};
      pending := pending - {k};
    }
  }
}
