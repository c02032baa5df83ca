/**
 * The remote store as an abstract collaborator: references, the writes the
 * adapter issues (logged as operations), and what each write leaves stored.
 */
module Remote {
  import opened Wrappers
  import opened Attributes
  import opened Snapshot

  /**
   * A reference to a node: a handle the caller supplied, one resolved from an
   * absolute URL (`refFromURL`), one resolved as a path off the database root
   * (`ref`), or a named child of another reference (`child`).
   */
  datatype Ref =
    | Handle(h: nat)
    | FromUrl(url: string)
    | AtPath(path: string)
    | Child(parent: Ref, key: Val)

  /** A remote operation, appended to an operation log instead of being sent. */
  datatype Op =
    | OnceValue(at: Ref)                                    // once('value')
    | Set(at: Ref, value: Option<Attrs>)                    // set(json) / set(null)
    | Update(at: Ref, patch: Attrs)                         // update(json)
    | SetWithPriority(at: Ref, item: Attrs, priority: Option<Val>)

  /**
   * A priority `setWithPriority` accepts: a string, a number or null.
   * `undefined` (None) and booleans make the call throw.
   */
  predicate ValidPriority(p: Option<Val>)
  {
    p.Some? && !p.value.Bool?
  }

  /** The store: the object held at each reference; an absent one holds null. */
  type Store = map<Ref, Attrs>

  /** `update(patch)` on a node: null deletes a key, other values overwrite. */
  function Merge(node: Attrs, patch: Attrs): (r: Attrs)
    ensures forall k :: k in r <==> (k in patch && patch[k] != Null) || (k in node && k !in patch)
    ensures forall k :: k in r ==> r[k] == if k in patch then patch[k] else node[k]
  {
    map k | k in node.Keys + patch.Keys && (k in patch ==> patch[k] != Null) ::
      if k in patch then patch[k] else node[k]
  }

  /** Writing `node` at `at`; an empty object is the same as null. */
  function Put(store: Store, at: Ref, node: Attrs): Store
  {
    if node == map[] then store - {at} else store[at := node]
  }

  /** What the store holds after one operation. */
  function Apply(store: Store, op: Op): Store
  {
    match op
    case OnceValue(_) => store
    case Set(at, None) => store - {at}
    case Set(at, Some(json)) => Put(store, at, StripNulls(json))
    case Update(at, patch) => Put(store, at, Merge(if at in store then store[at] else map[], patch))
    case SetWithPriority(at, item, p) => if ValidPriority(p) then Put(store, at, StripNulls(item)) else store
  }

  /** A rejected priority stores nothing; an accepted one stores the item without nulls. */
  lemma PriorityWriteStores(store: Store, at: Ref, item: Attrs, p: Option<Val>)
    ensures !ValidPriority(p) ==> Apply(store, SetWithPriority(at, item, p)) == store
    ensures ValidPriority(p) ==> var after := Apply(store, SetWithPriority(at, item, p));
      (if at in after then after[at] else map[]) == StripNulls(item)
  {
  }

  /** The snapshot `once('value')` at `at` delivers. */
  function ReadAt(store: Store, at: Ref, key: string): Snap
  {
    Snap(if at in store then RawObject(store[at]) else RawValue(Null), key)
  }

  /** The store never holds null under a key and never holds an empty object. */
  ghost predicate WellFormed(store: Store)
  {
    forall at :: at in store ==> store[at] != map[] && NoNulls(store[at])
  }

  /** Every operation keeps the store well formed. */
  lemma ApplyKeepsWellFormed(store: Store, op: Op)
    requires WellFormed(store)
    ensures WellFormed(Apply(store, op))
  {
  }

  /**
   * Round trip: a record written with `set`, read back and normalised, is the
   * record without its null attributes and with the key as its identifier.
   */
  lemma SetThenReadRoundTrip(store: Store, at: Ref, json: Attrs, key: string, idAttr: string)
    ensures CheckId(ReadAt(Apply(store, Set(at, Some(json))), at, key), idAttr)
            == Success(StripNulls(json)[idAttr := Str(key)])
  {
    var after := Apply(store, Set(at, Some(json)));
    if StripNulls(json) == map[] {
      assert at !in after;
      assert map[][idAttr := Str(key)] == StripNulls(json)[idAttr := Str(key)];
    } else {
      assert after[at] == StripNulls(json);
    }
  }

  /** The identifier survives the round trip when the record already carried it. */
  lemma RoundTripKeepsIdentifiedRecord(store: Store, at: Ref, json: Attrs, key: string, idAttr: string)
    requires NoNulls(json) && idAttr in json && json[idAttr] == Str(key)
    ensures CheckId(ReadAt(Apply(store, Set(at, Some(json))), at, key), idAttr) == Success(json)
  {
    SetThenReadRoundTrip(store, at, json, key, idAttr);
    assert StripNulls(json) == json;
    assert json[idAttr := Str(key)] == json;
  }

  /** After `set(null)` the node reads as null and normalises to an identifier alone. */
  lemma DeleteThenRead(store: Store, at: Ref, key: string, idAttr: string)
    ensures CheckId(ReadAt(Apply(store, Set(at, None)), at, key), idAttr)
            == Success(map[idAttr := Str(key)])
  {
  }
}
