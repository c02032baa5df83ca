/**
 * The per-record sync controller (`FirebaseDBackbone.Model`): whether the
 * record syncs continuously, its cached reference, the local change/destroy
 * listeners and the remote `value` listener, applying a remote snapshot to
 * the record's attributes, and the change set with nulls for deleted keys.
 */
module RecordSync {
  import opened Wrappers
  import opened Attributes
  import opened Snapshot
  import opened Remote
  import opened References
  import opened Dispatch
  import opened Diffing

  /**
   * `_determineAutoSync`: a caller's `_autoSync` option, else the prototype's
   * own `_autoSync`, else `true`. Lines 78 and 82 of the source seed the key
   * `autoSync` but read `_autoSync`; the evident intent is modelled.
   */
  function DetermineAutoSync(option: Option<bool>, prototype: Option<bool>): (r: bool)
    ensures option.Some? ==> r == option.value
    ensures option.None? ==> r == (prototype != Some(false))
  {
    if option.Some? then option.value
    else if prototype.Some? then prototype.value
    else true
  }

  /** A changed value that Firebase must delete: `undefined` (None) or `null`. */
  predicate Deleted(v: Option<Val>)
  {
    v.None? || v == Some(Null)
  }

  /**
   * The change set `Model._updateModel` computes from `model.changed`: the
   * identifier is left out (unless it was deleted) and every deleted key is
   * sent as null so that the store removes it.
   */
  function DeletionPatch(changed: map<string, Option<Val>>, idAttr: string): Attrs
  {
    map k | k in changed && (k != idAttr || Deleted(changed[k])) ::
      if Deleted(changed[k]) then Null else changed[k].value
  }

  /**
   * `Model._updateModel`: `false` (None) when nothing changed, otherwise the
   * copy of the changes with the identifier deleted and nulls written in.
   */
  method ChangeSet(changed: map<string, Option<Val>>, idAttr: string) returns (r: Option<Attrs>)
    ensures r.None? <==> changed == map[]
    ensures r.Some? ==> r.value == DeletionPatch(changed, idAttr)
  {
    if changed == map[] {
      return None;
    }
    var modelObj := changed;
    var pending := changed.Keys;
    while pending != {}
      invariant pending <= changed.Keys
      invariant forall k :: k in modelObj ==> k in changed
      invariant forall k :: k in pending ==> k in modelObj && modelObj[k] == changed[k]
      invariant forall k :: k in changed && k !in pending ==>
        (k in modelObj <==> k != idAttr || Deleted(changed[k])) &&
        (k in modelObj ==> modelObj[k] == if Deleted(changed[k]) then Some(Null) else changed[k])
      decreases pending
    {
      var key :| key in pending;
      if key == idAttr {
        modelObj := modelObj - {key};
      }
      if Deleted(changed[key]) {
        modelObj := modelObj[key := Some(Null)];
      }
      pending := pending - {key};
    }
    var patch := map k | k in modelObj :: modelObj[k].value;
    assert patch == DeletionPatch(changed, idAttr);
    r := Some(patch);
  }

  /**
   * Merging the change set into the stored record deletes every deleted key,
   * writes every other changed key, and keeps the identifier and unchanged keys.
   */
  lemma DeletionPatchEffect(node: Attrs, changed: map<string, Option<Val>>, idAttr: string)
    ensures var after := Merge(node, DeletionPatch(changed, idAttr));
      && (forall k :: k in changed && Deleted(changed[k]) ==> k !in after)
      && (forall k :: k in changed && k != idAttr && !Deleted(changed[k]) ==>
            k in after && after[k] == changed[k].value)
      && (forall k :: k in node && (k !in changed || (k == idAttr && !Deleted(changed[k]))) ==>
            k in after && after[k] == node[k])
  {
    var patch := DeletionPatch(changed, idAttr);
    forall k | k in changed && k != idAttr && !Deleted(changed[k])
      ensures k in patch && patch[k] == changed[k].value && patch[k] != Null
    {
    }
  }

  class Model {
    const idAttribute: string
    var attributes: Attrs
    /** `_autoSync`; None while it is still `undefined`. */
    var autoSyncFlag: Option<bool>
    /** `_ref`; None while it is still `undefined`. */
    var ref: Option<Ref>
    /** How many change/destroy listener pairs `_listenLocalChanges` has attached. */
    var localListeners: nat
    /** The references on which `_setLocal` listens for `value`, with multiplicity. */
    var valueListeners: multiset<Ref>
    /** The remote operations issued, in order. */
    var ops: seq<Op>

    /**
     * Local listeners are attached exactly while auto-sync is on, only once,
     * and a remote listener exists only on the current reference, at most
     * once, and only while auto-sync is on.
     */
    ghost predicate Valid()
      reads this
    {
      && localListeners == (if autoSyncFlag == Some(true) then 1 else 0)
      && (forall r :: r in valueListeners ==> ref == Some(r))
      && (ref.Some? ==> valueListeners[ref.value] <= 1)
      && (valueListeners != multiset{} ==> autoSyncFlag == Some(true))
    }

    /**
     * `initialize`: resolves auto-sync and applies it, so the local listeners
     * are attached exactly when auto-sync resolves to true. `autoSync`
     * compares with the record's own `_autoSync`, still `undefined` here; the
     * code as written compares with the prototype's inherited one (see
     * `AsWritten.InitializeAsWritten`).
     */
    constructor (idAttribute: string, attributes: Attrs, autoSyncOption: Option<bool>, prototypeAutoSync: Option<bool>)
      ensures Valid()
      ensures localListeners == if DetermineAutoSync(autoSyncOption, prototypeAutoSync) then 1 else 0
      ensures this.idAttribute == idAttribute && this.attributes == attributes
      ensures autoSyncFlag == Some(DetermineAutoSync(autoSyncOption, prototypeAutoSync))
      ensures ref == None && valueListeners == multiset{} && ops == []
    {
      this.idAttribute := idAttribute;
      this.attributes := attributes;
      autoSyncFlag := None;
      ref := None;
      localListeners := 0;
      valueListeners := multiset{};
      ops := [];
      new;
      var _ := AutoSync(Some(DetermineAutoSync(autoSyncOption, prototypeAutoSync)));
    }

    /** `_closeRef`: detaches the value listener from the current reference. */
    method CloseRef()
      requires Valid()
      modifies this`valueListeners
      ensures valueListeners == multiset{}
      ensures Valid()
    {
      if ref.Some? {
        valueListeners := valueListeners[ref.value := 0];
        assert forall r :: valueListeners[r] == 0;
      }
    }

    /** `_listenLocalChanges`: attaches the change and destroy listeners. */
    method ListenLocalChanges()
      modifies this`localListeners
      ensures localListeners == old(localListeners) + 1
    {
      localListeners := localListeners + 1;
    }

    /**
     * `autoSync(value)`: switching to false closes the reference and detaches
     * the local listeners, switching to true attaches them, the same value
     * again changes nothing, and no argument only reads the flag.
     */
    method AutoSync(value: Option<bool>) returns (current: Option<bool>)
      requires Valid()
      modifies this
      ensures Valid()
      ensures autoSyncFlag == (if value.Some? then value else old(autoSyncFlag))
      ensures current == autoSyncFlag
      ensures localListeners > 0 <==> autoSyncFlag == Some(true)
      ensures value == Some(false) ==> valueListeners == multiset{}
      ensures value == Some(true) ==> valueListeners == old(valueListeners)
      ensures (value.None? || value == old(autoSyncFlag)) ==>
        autoSyncFlag == old(autoSyncFlag) && localListeners == old(localListeners) &&
        valueListeners == old(valueListeners)
      ensures ref == old(ref) && attributes == old(attributes) && ops == old(ops)
    {
      if value.Some? {
        if value != autoSyncFlag {
          if value == Some(false) {
            CloseRef();
            localListeners := 0;
          } else {
            assert value.value;
            assert value == Some(true) && localListeners == 0;
            ListenLocalChanges();
          }
        }
        autoSyncFlag := value;
      }
      current := autoSyncFlag;
    }

    /** `_setRef`: a handle is kept, a string is resolved, any other value throws. */
    method SetRef(loc: Location) returns (r: Result<Ref, Error>)
      modifies this`ref
      ensures r == ModelSetRef(loc)
      ensures ref == if r.Success? then Some(r.value) else old(ref)
    {
      r := ModelSetRef(loc);
      if r.Success? {
        ref := Some(r.value);
      }
    }

    /** `_configureRef`: listens for `value` on the reference while auto-sync is on. */
    method ConfigureRef()
      requires ref.Some?
      modifies this`valueListeners
      ensures valueListeners ==
        if autoSyncFlag == Some(true) then old(valueListeners) + multiset{ref.value} else old(valueListeners)
    {
      if autoSyncFlag == Some(true) {
        valueListeners := valueListeners + multiset{ref.value};
      }
    }

    /**
     * `ref(refresh)`: the cached reference unless there is none or a refresh is
     * asked for; then the old listener is closed and `loc` (the record's
     * `url()`) is resolved and configured.
     */
    method Ref(refresh: bool, loc: Location) returns (r: Result<Ref, Error>)
      requires Valid()
      modifies this
      ensures Valid()
      ensures !refresh && old(ref).Some? ==>
        r == Success(old(ref).value) && ref == old(ref) && valueListeners == old(valueListeners)
      ensures (refresh || old(ref).None?) ==>
        && r == ModelSetRef(loc)
        && ref == (if r.Success? then Some(r.value) else old(ref))
        && valueListeners == (if r.Success? && autoSyncFlag == Some(true) then multiset{r.value} else multiset{})
      ensures autoSyncFlag == old(autoSyncFlag) && localListeners == old(localListeners)
      ensures attributes == old(attributes) && ops == old(ops)
    {
      if ref.None? || refresh {
        CloseRef();
        r := SetRef(loc);
        if r.Failure? {
          return;
        }
        ConfigureRef();
        assert valueListeners == (if autoSyncFlag == Some(true) then multiset{r.value} else multiset{});
      } else {
        r := Success(ref.value);
      }
    }

    /** Backbone's `isNew`: the identifier attribute is absent or null. */
    predicate IsNew()
      reads this
    {
      !(idAttribute in attributes && attributes[idAttribute] != Null)
    }

    /** `_setId`: a new record takes the snapshot key as its identifier. */
    method SetId(snap: Snap)
      modifies this`attributes
      ensures attributes == if old(IsNew()) then old(attributes)[idAttribute := Str(snap.key)] else old(attributes)
    {
      if IsNew() {
        attributes := attributes[idAttribute := Str(snap.key)];
      }
    }

    /**
     * `_unsetAttributes`: normalises the snapshot (a primitive throws), unsets
     * every attribute the remote record lacks, and gives a new record its id.
     */
    method UnsetAttributes(snap: Snap) returns (r: Result<Attrs, Error>)
      modifies this`attributes
      ensures r == CheckId(snap, idAttribute)
      ensures r.Failure? ==> attributes == old(attributes)
      ensures r.Success? ==>
        var kept := map k | k in old(attributes) && k in r.value :: old(attributes)[k];
        attributes == if old(IsNew()) then kept[idAttribute := Str(snap.key)] else kept
      ensures r.Success? && !old(IsNew()) ==> attributes[idAttribute] == old(attributes)[idAttribute]
    {
      r := CheckId(snap, idAttribute);
      if r.Failure? {
        return;
      }
      attributes := UnsetMissing(attributes, r.value.Keys);
      SetId(snap);
    }

    /**
     * `_setLocal`, the remote `value` listener: afterwards the attributes are
     * exactly the normalised snapshot.
     */
    method SetLocal(snap: Snap) returns (r: Result<Attrs, Error>)
      modifies this`attributes
      ensures r == CheckId(snap, idAttribute)
      ensures r.Success? ==> attributes == r.value
      ensures r.Failure? ==> attributes == old(attributes)
    {
      r := UnsetAttributes(snap);
      if r.Success? {
        attributes := attributes + r.value;
      }
    }

    /**
     * `sync` through `FirebaseDBackbone.sync`: for the four known methods the
     * reference is refreshed from `loc` and one operation is logged; any
     * other method does nothing.
     */
    method Sync(m: SyncMethod, loc: Location) returns (r: Result<Option<Op>, Error>)
      requires Valid()
      modifies this
      ensures Valid()
      ensures m.OtherMethod? ==>
        r == Success(None) && ops == old(ops) && ref == old(ref) && valueListeners == old(valueListeners)
      ensures !m.OtherMethod? ==>
        && (ModelSetRef(loc).Failure? ==> r == Failure(ModelSetRef(loc).error) && ops == old(ops))
        && (ModelSetRef(loc).Success? ==>
              && r == Success(DispatchOp(m, ModelSetRef(loc).value, old(attributes)))
              && ops == old(ops) + [DispatchOp(m, ModelSetRef(loc).value, old(attributes)).value])
      ensures !m.OtherMethod? ==>
        && ref == (if ModelSetRef(loc).Success? then Some(ModelSetRef(loc).value) else old(ref))
        && valueListeners ==
             if ModelSetRef(loc).Success? && autoSyncFlag == Some(true) then multiset{ModelSetRef(loc).value} else multiset{}
      ensures attributes == old(attributes) && autoSyncFlag == old(autoSyncFlag)
      ensures localListeners == old(localListeners)
    {
      var json := attributes;
      if m.OtherMethod? {
        return Success(None);
      }
      var at := Ref(true, loc);
      if at.Failure? {
        return Failure(at.error);
      }
      var op := DispatchOp(m, at.value, json);
      ops := ops + [op.value];
      r := Success(op);
    }
  }
}
