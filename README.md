# FirebaseDBackbone sync engine, modelled in Dafny

FirebaseDBackbone keeps Backbone models and collections synchronised with a
Firebase realtime database. This project models its sync engine, the
single file `firebaseDBackbone.js`:

- **Snapshot normaliser** (`_isPrimitive`, `_checkId`): it turns a remote
  snapshot into a record's attributes.
- **Sync dispatcher** (`FirebaseDBackbone.sync`, `_onCompleteCheck`): it
  turns Backbone's `read`/`create`/`update`/`delete` into one remote
  operation and relays completion to the caller's callbacks.
- **Per-record controller** (`FirebaseDBackbone.Model`): the `autoSync`
  switch, the cached reference, the local and remote listeners, applying
  remote values (`_setLocal`, `_unsetAttributes`, `_setId`), and the change
  set with nulls for deleted keys.
- **Reference resolver** (`_setRef`, `_buildRef`): of records and of
  collections, including the two URL tests, which differ in case handling.
- **One-shot collection** (`OnceCollection`): push-ids for new records,
  `create`, and `fetch`, which flattens the keyed listing.
- **Live collection** (`SyncCollection`): `add`, `remove` and `reset` write
  to the store. The child events (`_childAdded`, `_childChanged`,
  `_childRemoved`) apply the echoes, guarded by `_suppressEvent` (a one-shot
  "swallow the next echo" flag) and `_remoteChanging`. Local changes go
  back through `_updateModel`, `_compareAttributes` and `_setWithPriority`.

The remote store is abstract. Every remote operation is appended to an
operation log (`Remote.Op`), and `Remote.Apply` gives what an operation
leaves stored. That is enough to state round trips: a record written by
`add` or `create` comes back from the child snapshot as the same record
without its null attributes (a stored null is no value).
It also makes the consequences of each write provable.

Values are JSON scalars (`Attributes.Val`). A record is a map from
attribute names to values. JavaScript truthiness and the loose `!=` between
a value and `undefined` are written out in module `Attributes`.

Modules follow the structure of the source:

| module | part of the adapter |
|---|---|
| `Attributes` | values, attribute maps, truthiness, errors |
| `Snapshot` | the snapshot normaliser |
| `Remote` | references, the operation log and the store |
| `Dispatch` | `FirebaseDBackbone.sync` and `_onCompleteCheck` |
| `References` | `_setRef` and `_buildRef` |
| `Diffing` | the write path of `_updateModel` in the live collection |
| `RecordSync` | `FirebaseDBackbone.Model` |
| `Records` | the parts of Backbone's collection the adapter relies on |
| `CollectionRefs` | `FirebaseDBackbone.Collection`: identifiers, reference, push-ids |
| `OnceSync` | `OnceCollection` |
| `LiveSync` | `SyncCollection` |
| `AsWritten` | the code as written where it departs from evident intent (see Findings) |

Stateful parts of the adapter are classes, with their fields updated in
place: the record (`RecordSync.Model`), the collection reference
(`CollectionRefs.CollectionRef`) and the two collections. The loops of the
source (`_compareAttributes`, `_parseModels`, the write loops of `add` and
`remove`, the unset loops, `Model._updateModel`, the flattening in `fetch`)
are `while` loops proved against specification functions. `add`,
`remove` and `reset` of the live collection are specified by the pure
functions `LiveSync.BatchOutcome` and `LiveSync.ResetOutcome`; the lemmas
beside those functions state what the batches do.

Where the source names something that does not exist, the model follows
the evident intent, and "## Findings" records the code as written. These
places are lines 77-82, 215, 460, 493, 591, 604-605, 638, 721, 783 and 791.
Line 489 calls `this.idAttribute()`, consistent with the intent taken
elsewhere.

`_updateModel` (lines 675-679) sends every local attribute with `update`,
not the computed difference. The model follows the code. The lemmas
`Diffing.FullUpdateReconcilesIff` and `Diffing.DeletedFieldScenario` show
the consequence: a key deleted locally stays stored. `Diffing.DiffReconciles`
shows that merging the difference instead would have reconciled the store.

## Model

| member | source | states |
|---|---|---|
| Snapshot.IsPrimitive | firebaseDBackbone.js:192-195 | true exactly for a boolean, number or string; false for null and for objects |
| Snapshot.CheckId | firebaseDBackbone.js:169-187 | a primitive fails with InvalidIdException; null becomes a record holding only the key as identifier; an object keeps its other fields and gets the key as identifier |
| Snapshot.NormaliseIdempotent | firebaseDBackbone.js:169-187 | normalising an already normalised record gives it back unchanged |
| Remote.Merge | firebaseDBackbone.js:144 | `update` deletes the keys the patch sets to null, overwrites the other patched keys and keeps the rest |
| Remote.ApplyKeepsWellFormed | firebaseDBackbone.js:139-150 | every write keeps the store free of nulls and of empty objects |
| Remote.SetThenReadRoundTrip | firebaseDBackbone.js:140 | a record written with `set` and read back through `_checkId` is the record without its nulls, with the key as identifier |
| Remote.RoundTripKeepsIdentifiedRecord | firebaseDBackbone.js:184 | a null-free record that carries its key as identifier survives the round trip exactly |
| Remote.DeleteThenRead | firebaseDBackbone.js:148 | after `set(null)` the node normalises to a record holding only its identifier |
| Dispatch.DispatchOp | firebaseDBackbone.js:125-153 | `read` is a value read, `create` a `set` of the record, `update` an `update` with it, `delete` a `set(null)`, all at the given reference; any other method issues nothing |
| Dispatch.CreateThenReadRoundTrip | firebaseDBackbone.js:139-142 | what `sync('create')` stores reads back as the record without nulls, identified by its key |
| Dispatch.DeleteClears | firebaseDBackbone.js:147-150 | `sync('delete')` empties the reference and leaves every other reference as it was |
| Dispatch.UpdateMergesRecord | firebaseDBackbone.js:143-146 | after `sync('update')` a non-null attribute is stored as given and a null one is gone |
| Dispatch.OnCompleteCheck | firebaseDBackbone.js:106-116 | no options, nothing fires; `error` fires exactly for an error with an error callback; otherwise `success` fires when given, even for an error |
| Dispatch.ReadCompletion | firebaseDBackbone.js:128-138 | a read fires `error` exactly on failure with an error callback and `success` exactly on success with a success callback |
| Dispatch.FailureReachesSuccessOnlyForWrites | firebaseDBackbone.js:111-114 | with only a success callback, a failed write reports success while a failed read reports nothing |
| Diffing.CompareAttributes | firebaseDBackbone.js:685-699 | over the union of keys, a key missing locally maps to null, a loosely differing key maps to its local value, and an equal key is left out; the result equals the reference definition `Diff` |
| Diffing.LocalNullMatchesAbsentRemote | firebaseDBackbone.js:693 | a local null beside an absent remote key is loosely equal, so it is not sent |
| Diffing.DiffReconciles | firebaseDBackbone.js:684-699 | merging the difference into a null-free remote object yields exactly the non-null local attributes |
| Diffing.FullUpdateReconcilesIff | firebaseDBackbone.js:678 | updating with the full local attributes reconciles the remote object if and only if no key exists only remotely |
| Diffing.DeletedFieldScenario | firebaseDBackbone.js:675-679 | for remote `{a:1,b:2}` and local `{a:1}`, the difference is `{b:null}` but the full-object update leaves `b` stored |
| Diffing.SplitPriority | firebaseDBackbone.js:703-708 | the item loses `.priority`, the priority is what it held, and putting it back restores the item |
| Diffing.WriteFor | firebaseDBackbone.js:671-679 | the write goes to the record's child reference; it is `setWithPriority` exactly when the diff holds a priority, carrying the local record without its priority and the local priority, and otherwise `update` with every local attribute |
| Diffing.WriteForBranch | firebaseDBackbone.js:673-679 | `setWithPriority` exactly when the local priority loosely differs from the remote one or was deleted locally, carrying the record without its priority; otherwise `update` with every local attribute |
| Diffing.WriteForEffect | firebaseDBackbone.js:665-679 | from a record's true shadow, the priority path stores the local record without priority and nulls when the local priority is a string, number or null, and leaves the store unchanged when it is absent or a boolean; the update path reconciles exactly when no key exists only remotely |
| Diffing.PriorityWriteEffect | firebaseDBackbone.js:703-708 | `setWithPriority` stores the item without its priority and its nulls when the priority is one Firebase accepts; otherwise the call throws and the store is unchanged |
| Diffing.BooleanPriorityStoresNothing | firebaseDBackbone.js:673-676 | a local `.priority` of `true` the stored record lacks takes the priority path, and the rejected write stores nothing |
| Remote.PriorityWriteStores | firebaseDBackbone.js:706 | `setWithPriority` with an absent or boolean priority leaves the store as it was; with a string, number or null it stores the item without nulls |
| Diffing.UnsetMissing | firebaseDBackbone.js:621-626 | exactly the local keys the remote record lacks are removed; every other attribute is kept with its value |
| RecordSync.DetermineAutoSync | firebaseDBackbone.js:75-83 | the option when given, else the prototype's `_autoSync`, else true |
| RecordSync.ChangeSet | firebaseDBackbone.js:346-359 | false exactly when nothing changed; otherwise the changes with the identifier dropped and every deleted key sent as null, equal to `DeletionPatch` |
| RecordSync.DeletionPatchEffect | firebaseDBackbone.js:342-358 | merging the change set deletes every deleted key, writes every other changed key, and keeps the identifier and unchanged keys |
| RecordSync.Model.constructor | firebaseDBackbone.js:200-201 | the record starts with the resolved auto-sync flag, one change/destroy listener pair exactly when that flag is true (the intent; see Findings for line 215), no reference and no remote listener |
| RecordSync.Model.CloseRef | firebaseDBackbone.js:270-274 | no remote value listener is left |
| RecordSync.Model.ListenLocalChanges | firebaseDBackbone.js:292-295 | one more change/destroy listener pair |
| RecordSync.Model.AutoSync | firebaseDBackbone.js:213-227 | the flag takes a given value; local listeners are attached exactly while it is true; switching off detaches the remote listener; the same value or no value changes nothing |
| RecordSync.Model.SetRef | firebaseDBackbone.js:239-251 | the reference becomes `ModelSetRef` of the location; an invalid type throws and leaves it |
| RecordSync.Model.ConfigureRef | firebaseDBackbone.js:262-268 | a value listener is added on the reference exactly while auto-sync is on |
| RecordSync.Model.Ref | firebaseDBackbone.js:229-237 | the cached reference unless missing or refreshed; then the old listener is closed and the new reference resolved, with its one listener while auto-sync is on |
| RecordSync.Model.SetId | firebaseDBackbone.js:336-340 | a new record takes the snapshot key as identifier; one with an identifier is unchanged |
| RecordSync.Model.UnsetAttributes | firebaseDBackbone.js:317-331 | returns the normalised snapshot; afterwards exactly the local attributes whose keys the snapshot has remain, with their values, and a new record also takes the snapshot key as identifier; a record with an identifier keeps it; a failure changes nothing |
| RecordSync.Model.SetLocal | firebaseDBackbone.js:305-311 | the attributes become exactly the normalised snapshot; a primitive throws and leaves them |
| RecordSync.Model.Sync | firebaseDBackbone.js:297-299 | the four methods refresh the reference: on success it is the record's resolved `url` and the value listener sits on it alone while auto-sync is on; a failure keeps the old reference with no value listener left; they log the operation `DispatchOp` gives, built from the attributes before the call; other methods change nothing; the local listeners never change |
| References.HostReachableIff | firebaseDBackbone.js:254 | the recursive tail matcher holds exactly when `.firebaseio.com` follows with no line break before it |
| References.MatchesSound | firebaseDBackbone.js:255 | whatever the recursive matcher accepts contains the pattern |
| References.MatchesComplete | firebaseDBackbone.js:255 | every occurrence of the pattern is found by the recursive matcher |
| References.MatchesIff | firebaseDBackbone.js:253-260 | `url.match(re)` succeeds exactly when `https://` is followed on the same line by `.firebaseio.com` |
| References.UnanchoredMatch | firebaseDBackbone.js:254-255 | text before an absolute URL does not stop the match |
| References.CaseSensitiveImpliesInsensitive | firebaseDBackbone.js:795 | every URL the collection's case-sensitive test accepts, the record's test accepts |
| References.BuildRef | firebaseDBackbone.js:253-260 | a string containing the pattern becomes a `refFromURL` reference, any other a path reference |
| References.ModelSetRef | firebaseDBackbone.js:239-251 | an object is kept as a handle, a string goes through the case-insensitive `_buildRef`, anything else fails with InvalidUrlType |
| References.CollectionSetRef | firebaseDBackbone.js:766-790 | the `url` property, called when it is a function, resolved as an object handle or through the case-sensitive `_buildRef`; anything else fails |
| References.UpperCaseSchemeMatchesForRecord | firebaseDBackbone.js:254 | `HTTPS://app.firebaseio.com` is an absolute URL for a record |
| References.UpperCaseSchemeNoSensitiveMatch | firebaseDBackbone.js:795 | the case-sensitive pattern does not occur in that URL |
| References.UpperCaseSchemeIsPathForCollection | firebaseDBackbone.js:794-801 | for a collection the same string is a path reference |
| Records.Find | firebaseDBackbone.js:607-609 | the position of the first record carrying the identifier, or none when no record carries it |
| Records.AppendKeepsUnique | firebaseDBackbone.js:589 | appending a record with a new identifier keeps identifiers unique |
| Records.RemoveKeepsUnique | firebaseDBackbone.js:648 | removing a record keeps identifiers unique and its identifier is gone |
| Records.AddRecord | firebaseDBackbone.js:587-589 | Backbone's `add`: the list grows by the record exactly when its identifier is missing or new; otherwise it is unchanged and the position is the holder's |
| Records.AddRecordKeepsUnique | firebaseDBackbone.js:587-589 | adding keeps identifiers unique and the identifier is found at the returned position |
| Records.MergeRecord | firebaseDBackbone.js:419 | Backbone's `set` of one record: appended exactly when its identifier is missing or new; otherwise the holder takes the new attributes over its own and nothing else changes |
| Records.AddRecordKeepsDistinct | firebaseDBackbone.js:419 | adding one record keeps at most one record per identifier and every identifier found |
| Records.MergeRecordKeepsDistinct | firebaseDBackbone.js:419 | merging one record keeps at most one record per identifier and every identifier found |
| Records.AddAllKeepsOnePerId | firebaseDBackbone.js:419 | `add` of a list keeps the held records in front, adds only listed records, at most one per identifier, and finds every listed identifier |
| Records.SetAllKeepsOnePerId | firebaseDBackbone.js:419 | `set` of a list adds at most one record per listed one, keeps at most one per identifier, and finds every listed identifier |
| Records.RepeatedIdKeepsOne | firebaseDBackbone.js:419 | two listed records with one identifier: `add` keeps the first, `set` one record with the second's attributes over the first's |
| Records.ReplaceKeepsIds | firebaseDBackbone.js:618-619 | replacing a record by one with the same identifier keeps lookups and uniqueness |
| Records.AddThenShadow | firebaseDBackbone.js:587-591 | after adding and setting the shadow, identifiers are unique, the identifier is found at the position, and either the shadowed record was appended or the held one only gained the shadow |
| Records.RemoveRecord | firebaseDBackbone.js:642-648 | Backbone's `remove` by identifier: the holder goes and the rest keep their order; an unknown identifier changes nothing |
| Records.RemoveRecordKeepsUnique | firebaseDBackbone.js:642-648 | removing keeps identifiers unique and the identifier is no longer found |
| Records.AttrsOf | firebaseDBackbone.js:502 | the attributes of each held record, in order |
| Records.SameIdsFind | firebaseDBackbone.js:607-609 | lookup and uniqueness depend only on the identifiers |
| CollectionRefs.CollectionIdAttribute | firebaseDBackbone.js:754-756 | the prototype's identifier attribute when truthy, else `id`; never empty |
| CollectionRefs.PushKey | firebaseDBackbone.js:564 | the `n`-th push-id: a fresh key starting with `-` |
| CollectionRefs.PushKeysDistinct | firebaseDBackbone.js:564 | distinct pushes give distinct keys |
| CollectionRefs.AssignIds | firebaseDBackbone.js:561-577 | one record per input, each with a truthy identifier |
| CollectionRefs.AssignIdsAt | firebaseDBackbone.js:564 | a truthy identifier is kept; a falsy one becomes the push-id numbered by the falsy identifiers before it; other attributes are unchanged |
| CollectionRefs.MissingIdsGrow | firebaseDBackbone.js:564 | a record with a falsy identifier at `i` is counted among the push-ids taken before any later position |
| CollectionRefs.MissingIdsZero | firebaseDBackbone.js:564 | a prefix takes no push-id exactly when every record in it has a truthy identifier |
| CollectionRefs.AssignIdsOne | firebaseDBackbone.js:476 | a single record keeps a truthy identifier or takes the next push-id |
| CollectionRefs.AssignedIdsDistinct | firebaseDBackbone.js:564 | two records that both took push-ids get different identifiers |
| CollectionRefs.Wrap | firebaseDBackbone.js:556-558 | an array is used as is, a truthy single record is wrapped, a falsy one gives the empty array |
| CollectionRefs.Resolved | firebaseDBackbone.js:758-764 | the cached reference when present, else what the `url` property resolves to, if anything |
| CollectionRefs.ResolvedIdempotent | firebaseDBackbone.js:760-762 | resolving again changes nothing |
| CollectionRefs.CollectionRef.constructor | firebaseDBackbone.js:760 | no reference cached and no push-id taken |
| CollectionRefs.CollectionRef.Ref | firebaseDBackbone.js:758-764 | the cached reference unless missing or refreshed; then `_setRef` resolves `url`; a failure throws and leaves the cache |
| CollectionRefs.CollectionRef.Push | firebaseDBackbone.js:564 | resolves the reference and hands out the next push-id; fails and takes none when the reference cannot be resolved |
| CollectionRefs.CollectionRef.AssignId | firebaseDBackbone.js:389 | a truthy identifier is kept without touching the reference; otherwise the next push-id is taken, failing exactly when the reference cannot be resolved |
| OnceSync.OnceAutoSync | firebaseDBackbone.js:379 | a record built by `create` or `add` auto-syncs exactly when the caller asked for it |
| OnceSync.ListingValues | firebaseDBackbone.js:412-417 | the values of a keyed listing in key order; null and scalars have none |
| OnceSync.FreshRecords | firebaseDBackbone.js:418-419 | one fresh record per value, in order, with no remote shadow |
| OnceSync.Flatten | firebaseDBackbone.js:412-417 | the listing's values in key order; null and scalars give the empty array |
| OnceSync.OnceCollection.constructor | firebaseDBackbone.js:745-747 | an empty collection with no reference cached |
| OnceSync.OnceCollection.Add | firebaseDBackbone.js:387-392 | the record gets an identifier, then Backbone adds it unless held, announcing a new one unless `silent`; fails exactly when a push-id is needed and the reference cannot be resolved, with the resolver's error and nothing changed; the reference is resolved and one push-id taken exactly when the record lacks an identifier |
| OnceSync.OnceCollection.Create | firebaseDBackbone.js:376-381 | the record gets an identifier and is added (and announced unless `silent`) as by `add`, even when its own `url` then fails; it is saved with one `update` at the record's own reference exactly when both references resolve, and a failure logs nothing and is InvalidUrlType; reference and push-ids as for `add` |
| OnceSync.OnceCollection.Fetch | firebaseDBackbone.js:405-427 | the collection reference is refreshed and one value read logged; a failure logs nothing |
| OnceSync.OnceCollection.FetchArrived | firebaseDBackbone.js:412-426 | the listing's values are added to an empty collection: by `reset`, without merging, after one push-id, with the caller's `_autoSync` option or else auto-sync off; by `set`, merging repeats, with the caller's option, else the prototype's choice; at most one record per identifier and every listed identifier found; then a reset or set notification unless `silent`, and always a sync notification |
| LiveSync.Writes | firebaseDBackbone.js:451-462 | one write per record |
| LiveSync.WritesIndex | firebaseDBackbone.js:459-461 | the `i`-th write is the `set` of the `i`-th record at its child |
| LiveSync.WritesElsewhere | firebaseDBackbone.js:459-461 | a batch of writes leaves every reference outside its children as it was |
| LiveSync.WritesAt | firebaseDBackbone.js:459-461 | with distinct identifiers, each record's child holds what that record's own write leaves |
| LiveSync.AddedRecordsReadBack | firebaseDBackbone.js:452-461 | once an `add` batch is stored, each record's child snapshot normalises back to the record without its nulls |
| LiveSync.RemovedRecordsReadNull | firebaseDBackbone.js:485-494 | once a `remove` batch is stored, each removed record's child is empty |
| LiveSync.BatchFails | firebaseDBackbone.js:446-497 | a batch fails exactly when it is not empty and the reference cannot be resolved; it then fails with InvalidUrlType and logs and takes nothing |
| LiveSync.BatchIdentifies | firebaseDBackbone.js:452-461 | a successful batch gives each record a truthy identifier, keeps existing ones, and logs its write at the child the identifier names |
| LiveSync.ResetFails | firebaseDBackbone.js:499-510 | `reset` fails exactly when something is held or added and the reference cannot be resolved, logging and taking nothing |
| LiveSync.ResetWrites | firebaseDBackbone.js:499-510 | a successful `reset` logs the removal of every held record, then the writes of the new ones with push-ids continued, and leaves the flag raised when it wrote anything |
| LiveSync.LiveCollection.constructor | firebaseDBackbone.js:749-750 | an empty live collection, flag down, nothing logged |
| LiveSync.LiveCollection.ParseModels | firebaseDBackbone.js:553-580 | the argument as an array with push-ids for falsy identifiers, equal to `AssignIds`; fails exactly when a push-id is needed and the reference cannot be resolved, then taking none |
| LiveSync.LiveCollection.WriteAdded | firebaseDBackbone.js:452-462 | logs one `set` per record at its child; raises the flag when silent, before the reference is asked for |
| LiveSync.LiveCollection.WriteRemoved | firebaseDBackbone.js:485-494 | logs one `set(null)` per record at its child; raises the flag when silent, once the reference is obtained |
| LiveSync.LiveCollection.Add | firebaseDBackbone.js:446-465 | the records do not change; the outcome, reference, push-ids, log and flag are `BatchOutcome` of a write batch |
| LiveSync.LiveCollection.Create | firebaseDBackbone.js:467-477 | a falsy record is refused with no effect; otherwise the whole new state (reference, push-ids, log, flag) and the outcome are those of `add` of that one record: the record with its identifier is returned and its one `set` logged, failing exactly when the reference cannot be resolved |
| LiveSync.LiveCollection.Remove | firebaseDBackbone.js:479-497 | the records do not change; the outcome, reference, push-ids, log and flag are `BatchOutcome` of a removal batch |
| LiveSync.LiveCollection.Reset | firebaseDBackbone.js:499-510 | the state is `ResetOutcome` of the held records and the new ones, and a reset notification follows on success unless silent |
| LiveSync.LiveCollection.PreventSync | firebaseDBackbone.js:724-726 | only the record's guard changes; identifiers stay unique |
| LiveSync.LiveCollection.ChildAdded | firebaseDBackbone.js:582-592 | a primitive throws and changes nothing; otherwise a new record is appended with the snapshot as its shadow and announced unless the flag was up, a held one only gains the shadow, and the flag is lowered |
| LiveSync.LiveCollection.UpdateModel | firebaseDBackbone.js:654-681 | nothing while the guard is up; otherwise logs `WriteFor` of the difference between the shadow (or `{}`) and the local attributes, at the record's child |
| LiveSync.LiveCollection.ChildChanged | firebaseDBackbone.js:602-632 | an unknown record is added as by `_childAdded`; a known one becomes the snapshot, gets it as shadow, writes nothing back through the collection, and ends unguarded after one sync notification |
| LiveSync.LiveCollection.ApplyChange | firebaseDBackbone.js:618-631 | the record becomes exactly the snapshot with it as shadow and guard down; nothing is logged and one sync notification is emitted |
| LiveSync.LiveCollection.ChildRemoved | firebaseDBackbone.js:636-650 | the record with the key goes; unless the flag was up, a sync notification and (when one was held) a removal notification are emitted; the flag is lowered |
| LiveSync.LiveCollection.RemoveModel | firebaseDBackbone.js:715-722 | logs `set(null)` at the record's child, failing exactly when the reference cannot be resolved |
| AsWritten.InheritedAutoSyncAttachesNothing | firebaseDBackbone.js:213-227 | as written, a prototype whose own `_autoSync` is true leaves the record reporting auto-sync on with no local listener, where the intended start attaches one pair; with any other prototype the two agree |
| AsWritten.AutoSyncDefaultLost | firebaseDBackbone.js:77-82 | as written, no option gives `undefined` whatever the prototype holds, where the intended default is true |
| AsWritten.FirstCollectionRefThrows | firebaseDBackbone.js:791 | as written, a collection's first resolution throws after caching the reference, and the next call returns it |
| AsWritten.UrlFunctionReferenceLost | firebaseDBackbone.js:783 | as written, a `url` function returning a reference leaves the function cached instead |
| AsWritten.AddAsWrittenWritesNothing | firebaseDBackbone.js:460 | as written, a non-empty `add` writes nothing, throws, and leaves the flag raised when silent |
| AsWritten.RemoveAsWrittenWritesNothing | firebaseDBackbone.js:493 | as written, a non-empty `remove` writes nothing, throws, and leaves the flag raised when silent |
| AsWritten.ChildAddedAsWrittenLeavesNoShadow | firebaseDBackbone.js:591 | as written, a new record is added without its shadow and the handler throws |
| AsWritten.RemoteChangesAlwaysThrow | firebaseDBackbone.js:605 | as written, `_childChanged` and `_childRemoved` throw for every snapshot |
| AsWritten.DestroyNeverReachesStore | firebaseDBackbone.js:721 | as written, destroying a record logs no deletion |

## Findings

| source | as written | input that shows it | evidently intended | confidence | as-written member | corrected member |
|---|---|---|---|---|---|---|
| firebaseDBackbone.js:77-82 | the defaults are seeded under `autoSync` but `_autoSync` is read | no `_autoSync` option and a prototype without `_autoSync`: `undefined`, so every collection is a one-shot collection | the option, else the prototype's `_autoSync`, else true | high; not executed | AsWritten.AutoSyncDefaultLost | RecordSync.DetermineAutoSync |
| firebaseDBackbone.js:215 | `autoSync(v)` compares `v` with `this._autoSync`, which at `initialize` reads the prototype's inherited `_autoSync` | a prototype with `_autoSync: true` and no option: no change is seen, so `_listenLocalChanges` is skipped and local edits are never saved | compare with the record's own, still unset, `_autoSync`, so resolving to true attaches the listeners | high; not executed | AsWritten.InheritedAutoSyncAttachesNothing | RecordSync.Model.constructor |
| firebaseDBackbone.js:460 | `child(model[this.idAttribute])` passes the record's value under the method itself, `undefined` | `add` of one record to a collection whose `url` resolves: `child(undefined)` throws before any write | `child(model[this.idAttribute()])` | medium (rests on `child` rejecting `undefined`); not executed | AsWritten.AddAsWrittenWritesNothing | LiveSync.LiveCollection.Add |
| firebaseDBackbone.js:493 | `_setWithCheck` is not defined | `remove` of one record: a ReferenceError before any write, with the flag left raised when silent | `childRef.set(null, …)` | high; not executed | AsWritten.RemoveAsWrittenWritesNothing | LiveSync.LiveCollection.Remove |
| firebaseDBackbone.js:591 | `this.get(model[this.idAttribute])` looks up `undefined` | any `child_added` snapshot holding an object: the record is added, then setting `_remoteAttributes` on `undefined` throws | `this.get(model[this.idAttribute()])` | high; not executed | AsWritten.ChildAddedAsWrittenLeavesNoShadow | LiveSync.LiveCollection.ChildAdded |
| firebaseDBackbone.js:605 | `Backbonefire._checkId`; `Backbonefire` is not defined (and line 604 takes the uncalled method) | any `child_changed` snapshot: a ReferenceError | `_checkId(snap, this.idAttribute())` | high; not executed | AsWritten.RemoteChangesAlwaysThrow | LiveSync.LiveCollection.ChildChanged |
| firebaseDBackbone.js:638 | `Backbonefire._checkId(snap, this.idAttribute)` | any `child_removed` snapshot: a ReferenceError | `_checkId(snap, this.idAttribute())` | high; not executed | AsWritten.RemoteChangesAlwaysThrow | LiveSync.LiveCollection.ChildRemoved |
| firebaseDBackbone.js:721 | `_setWithCheck` is not defined | `destroy` of any record of a live collection: a ReferenceError and no remote deletion | `childRef.set(null, …)` | high; not executed | AsWritten.DestroyNeverReachesStore | LiveSync.LiveCollection.RemoveModel |
| firebaseDBackbone.js:783 | `this._ref = this.url` caches the property, not its value | a `url` function returning a reference: the function is cached | `this._ref = url` | high; not executed | AsWritten.UrlFunctionReferenceLost | References.CollectionSetRef |
| firebaseDBackbone.js:791 | `this._configureRef()`; collections have no such method | the first `ref()` of any collection whose `url` resolves: a TypeError after the reference is cached | no call; collections attach no value listener | medium (a subclass could define it); not executed | AsWritten.FirstCollectionRefThrows | CollectionRefs.CollectionRef.Ref |

## Left out

- The module wrapper (UMD loading, `noConflict`) and `firebaseApp`/`_determineDatabase` are left out. They only locate the database handle, which references carry implicitly.
- Asynchrony is left out. Remote operations are logged, not sent, and their completion callbacks are modelled only by `Dispatch.OnCompleteCheck` and `Dispatch.ReadCompletion`. Listener delivery order and timing are not modelled.
- The store is a map from references to flat JSON objects. Nested objects, hierarchical paths below a child, and the `.priority` metadata the store keeps are not modelled.
- Backbone internals are outside the model: change events, `_prepareModel`, `toJSON`, defaults, and the `once('sync')` defaults hook (lines 205-210).
- The bodies of `_autoSyncListeners` (lines 276-290) are left out. They call back into Backbone's `save`; only their attachment and detachment are modelled. `LiveSync.LiveCollection.ChildChanged` therefore leaves out the saves the records themselves issue: a live collection's records are `FirebaseDBackbone.Model`s (line 735), and those that auto-sync have a `change` listener that ignores `_remoteChanging` and calls `save()`, so the `unset` and `set` at lines 625 and 628 each send a `sync('update')` of the record. Only the collection's own `_updateModel` path is modelled, which writes nothing under the guard.
- `OnceSync.OnceCollection.Create`: Backbone's own `create` and its `add` of the prepared model instance are taken to keep the identifier the adapter assigned. The extra push-id a non-`id` identifier attribute would take there is not modelled.
- `SyncCollection.fetch` (lines 517-544) is left out. It calls `this.autoSync()`, which collections do not have, and otherwise only attaches the child listeners, whose handlers are modelled.
- `_childMoved` is empty in the source; `_log` and the `wait` warning only print.
- Of JavaScript's loose coercions, only `null == undefined` is modelled, in `_compareAttributes`. The identifier comparison at line 608 is modelled as exact equality (`Records.Find`): its right-hand side is always the snapshot key, a string set by `_checkId`, so `null == undefined` never decides it. `Records.IdIn` reads an absent identifier as null.
- A `url` property that is `null` (whose `typeof` is `object`) is not modelled.
- A record's `url()` is a parameter (`References.Location`) of the calls that resolve it.
- `OnceSync.OnceCollection.FetchArrived`: the `options.autoSync` and `options.url` assignments at lines 423-424 come after the records are built and have no effect, so they are left out. Both `reset` and `set` are modelled from an empty collection: for `set`, merging the listing into records held before the fetch (which keep their other attributes, shadow and auto-sync) and the removal of unlisted ones are not modelled.
- `CollectionRefs.CollectionRef.AssignId`, `OnceSync.OnceCollection.Add`, `OnceSync.OnceCollection.Create` and `LiveSync.LiveCollection.ParseModels`: the source writes the push-id into the caller's own object in place (lines 378, 389 and 564; the `slice` at line 558 copies only the array, not its objects). The model returns a new map instead, so the caller's object keeping the identifier after the call (aliasing) is not modelled.
- Numbers are integers (`Attributes.Val`): fractions, NaN and the infinities of JavaScript numbers, and the comparisons involving them, are not modelled.
- `Records.IdOf` counts a null identifier as an identifier, where Backbone indexes no record under null. Backbone's index also coerces identifiers to strings, so `1` and `"1"` collide there and not here.
- `OnceSync.OnceCollection.Add`, `OnceSync.OnceCollection.Create` and `OnceSync.OnceCollection.FetchArrived` model only `silent`, `_autoSync` and `reset` of the caller's options that reach Backbone. Others such as `at`, `merge` or `wait` are not modelled. The per-record `add` notifications of `set` and its `update` notification are folded into one `SetEvent`.
- `OnceSync.OnceCollection.FetchArrived`: requires the collection reference to be resolved, which `fetch` guarantees before any response arrives.
- `LiveSync.LiveCollection.UpdateModel`: when the priority path meets a priority Firebase rejects (absent or boolean; its accepted types are Firebase's, not this file's), the source throws at line 706. The model logs the call, which `Remote.Apply` then ignores, and does not report the exception.
- `LiveSync.LiveCollection.UpdateModel` is stated for a record's own position; Backbone's dispatch of the change event to the record is not modelled.
- `LiveSync.LiveCollection.ChildChanged`: Backbone's `unset` and `set` of the known record are modelled by their end result, not by the change events they fire, which `_updateModel` ignores under the guard.
