/**
 * A collection that does not auto-sync (`OnceCollection`): records get
 * push-ids when they lack an identifier, `create` saves through the record's
 * own reference, and `fetch` reads the whole list once.
 */
module OnceSync {
  import opened Wrappers
  import opened Attributes
  import opened Remote
  import opened References
  import opened Dispatch
  import opened RecordSync
  import opened Records
  import opened CollectionRefs

  /** What `snap.val()` gives for a list: null, a scalar, or an object keyed by child key. */
  datatype Listing = NullListing | ScalarListing(v: Val) | Children(entries: seq<(string, Attrs)>)

  /** The option `_autoSync` of an `add` or `create` call; it defaults to false here. */
  function OnceAutoSync(option: Option<bool>): (r: bool)
    ensures r <==> option == Some(true)
  {
    DetermineAutoSync(Some(if option.Some? then option.value else false), None)
  }

  /** The values of a listing, in key order; null and scalars have none. */
  function ListingValues(resp: Listing): (r: seq<Attrs>)
    ensures !resp.Children? ==> r == []
    ensures resp.Children? ==> |r| == |resp.entries| && forall i :: 0 <= i < |r| ==> r[i] == resp.entries[i].1
  {
    if resp.Children? then seq(|resp.entries|, i requires 0 <= i < |resp.entries| => resp.entries[i].1) else []
  }

  /** The fresh records Backbone builds for `arr`, one per value and in order. */
  function FreshRecords(arr: seq<Attrs>, autoSync: bool): (r: seq<Record>)
    ensures |r| == |arr| && forall i :: 0 <= i < |r| ==> r[i] == NewRecord(arr[i], autoSync)
  {
    seq(|arr|, i requires 0 <= i < |arr| => NewRecord(arr[i], autoSync))
  }

  /**
   * The success handler of `fetch`: the values of the response, in key order.
   * Only an object has keys; null and scalars give an empty array.
   */
  method Flatten(resp: Listing) returns (arr: seq<Attrs>)
    ensures arr == ListingValues(resp)
    ensures !resp.Children? ==> arr == []
    ensures resp.Children? ==> |arr| == |resp.entries|
    ensures resp.Children? ==> forall i :: 0 <= i < |arr| ==> arr[i] == resp.entries[i].1
  {
    arr := [];
    if resp.Children? {
      var i := 0;
      while i < |resp.entries|
        invariant 0 <= i <= |resp.entries|
        invariant |arr| == i
        invariant forall k :: 0 <= k < i ==> arr[k] == resp.entries[k].1
      {
        arr := arr + [resp.entries[i].1];
        i := i + 1;
      }
    }
  }

  class OnceCollection {
    const idAttr: string
    /** `this.model.prototype._autoSync`, when the prototype has one. */
    const prototypeAutoSync: Option<bool>
    const reference: CollectionRef
    var models: seq<Record>
    var ops: seq<Op>
    var events: seq<Event>

    constructor (idAttr: string, prototypeAutoSync: Option<bool>, url: UrlProperty)
      ensures this.idAttr == idAttr && this.prototypeAutoSync == prototypeAutoSync
      ensures fresh(reference) && reference.url == url && reference.ref == None && reference.pushed == 0
      ensures models == [] && ops == [] && events == []
    {
      this.idAttr := idAttr;
      this.prototypeAutoSync := prototypeAutoSync;
      reference := new CollectionRef(url);
      models := [];
      ops := [];
      events := [];
    }

    /**
     * `add`: the record gets an identifier, then Backbone adds it unless a
     * record with that identifier is already held; a new record is announced
     * unless the caller's `silent` option is set. The model instance's
     * `_autoSync` is the caller's option, false by default.
     */
    method Add(model: Attrs, autoSyncOption: Option<bool>, silent: bool) returns (r: Result<nat, Error>)
      modifies this, reference
      ensures ops == old(ops)
      ensures r.Failure? ==> models == old(models) && events == old(events)
      ensures r.Success? ==> var m := WithId(model, idAttr, PushKey(old(reference.pushed)));
        && (models, r.value) == AddRecord(old(models), NewRecord(m, OnceAutoSync(autoSyncOption)), idAttr)
        && events == old(events) + (if |models| == |old(models)| + 1 && !silent then [Added(m[idAttr])] else [])
      ensures r.Success? ==> r.value < |models| && models[r.value].attrs[idAttr] == WithId(model, idAttr, PushKey(old(reference.pushed)))[idAttr]
      ensures r.Failure? <==> !TruthyAt(model, idAttr) && Resolved(old(reference.ref), reference.url).None?
      ensures r.Failure? ==> r.error == CollectionSetRef(reference.url).error
      ensures reference.ref == if TruthyAt(model, idAttr) then old(reference.ref) else Resolved(old(reference.ref), reference.url)
      ensures reference.pushed == old(reference.pushed) + if TruthyAt(model, idAttr) || r.Failure? then 0 else 1
    {
      var m := reference.AssignId(model, idAttr);
      if m.Failure? {
        return Failure(m.error);
      }
      var old_count := |models|;
      var (after, j) := AddRecord(models, NewRecord(m.value, OnceAutoSync(autoSyncOption)), idAttr);
      if |after| == old_count + 1 && !silent {
        events := events + [Added(m.value[idAttr])];
      }
      models := after;
      r := Success(j);
    }

    /**
     * `create`: the record gets an identifier, Backbone's `create` passes it to
     * `add` (where the identifier is already truthy), then saves it. Its identifier is
     * already set, so the save is an `update` at the record's own reference,
     * resolved from `recordLoc`, the value of the record's `url`.
     */
    method Create(model: Attrs, autoSyncOption: Option<bool>, silent: bool, recordLoc: Location) returns (r: Result<nat, Error>)
      modifies this, reference
      ensures !TruthyAt(model, idAttr) && Resolved(old(reference.ref), reference.url).None? ==>
        r.Failure? && models == old(models) && ops == old(ops) && events == old(events)
      ensures r.Success? <==>
        (TruthyAt(model, idAttr) || Resolved(old(reference.ref), reference.url).Some?) && ModelSetRef(recordLoc).Success?
      ensures TruthyAt(model, idAttr) || Resolved(old(reference.ref), reference.url).Some? ==>
        var m := WithId(model, idAttr, PushKey(old(reference.pushed)));
        && models == AddRecord(old(models), NewRecord(m, OnceAutoSync(autoSyncOption)), idAttr).0
        && events == old(events) + (if |models| == |old(models)| + 1 && !silent then [Added(m[idAttr])] else [])
      ensures r.Success? ==> var m := WithId(model, idAttr, PushKey(old(reference.pushed)));
        && r.value == AddRecord(old(models), NewRecord(m, OnceAutoSync(autoSyncOption)), idAttr).1
        && ops == old(ops) + [Update(ModelSetRef(recordLoc).value, m)]
      ensures r.Failure? ==> ops == old(ops)
      ensures r.Failure? ==> r.error == InvalidUrlType
      ensures reference.ref == if TruthyAt(model, idAttr) then old(reference.ref) else Resolved(old(reference.ref), reference.url)
      ensures reference.pushed == old(reference.pushed) +
        if TruthyAt(model, idAttr) || Resolved(old(reference.ref), reference.url).None? then 0 else 1
    {
      var m := reference.AssignId(model, idAttr);
      if m.Failure? {
        return Failure(m.error);
      }
      r := Add(m.value, autoSyncOption, silent);
      var json := m.value;
      var at := ModelSetRef(recordLoc);
      if at.Failure? {
        return Failure(at.error);
      }
      ops := ops + [DispatchOp(UpdateMethod, at.value, json).value];
    }

    /** `fetch`: `sync('read')` refreshes the collection reference and reads the list once. */
    method Fetch() returns (r: Result<Ref, Error>)
      modifies this, reference
      ensures r == CollectionSetRef(reference.url)
      ensures r.Success? ==> ops == old(ops) + [OnceValue(r.value)] && reference.ref == Some(r.value)
      ensures r.Failure? ==> ops == old(ops) && reference.ref == old(reference.ref)
      ensures models == old(models) && events == old(events) && reference.pushed == old(reference.pushed)
    {
      r := reference.Ref(true);
      if r.Success? {
        ops := ops + [DispatchOp(Read, r.value, map[]).value];
      }
    }

    /**
     * The response to `fetch`: the listing becomes an array, the collection
     * is reset or set to it, and a sync notification follows. Backbone's
     * `reset` empties the collection and goes through this collection's own
     * `add`, which treats the whole array as one record: the array takes a
     * push-id of its own, and the records are built with the caller's
     * `_autoSync` option, false by default, and added without merging, so of several listed records with one
     * identifier the first is kept. `set` builds them with the caller's option,
     * else the prototype's choice, and merges each into the record already holding its
     * identifier. The caller's `silent` option suppresses the reset or set
     * notifications, not the sync notification, which the handler triggers
     * itself. The response only arrives once `fetch` has resolved the
     * reference.
     */
    method FetchArrived(resp: Listing, reset: bool, silent: bool, autoSyncOption: Option<bool>)
      requires reference.ref.Some?
      modifies this, reference
      ensures var recs := FreshRecords(ListingValues(resp),
                                       if reset then OnceAutoSync(autoSyncOption) else DetermineAutoSync(autoSyncOption, prototypeAutoSync));
        models == if reset then AddAll([], recs, idAttr) else SetAll([], recs, idAttr)
      ensures |models| <= |ListingValues(resp)| && DistinctIds(models, idAttr)
      ensures forall i :: 0 <= i < |ListingValues(resp)| && idAttr in ListingValues(resp)[i] ==>
        Find(models, ListingValues(resp)[i][idAttr], idAttr).Some?
      ensures !resp.Children? ==> models == []
      ensures reference.ref == old(reference.ref) && reference.pushed == old(reference.pushed) + if reset then 1 else 0
      ensures events == old(events) + (if silent then [] else [if reset then ResetEvent else SetEvent]) + [SyncEvent]
      ensures ops == old(ops)
    {
      var arr := Flatten(resp);
      var autoSync := DetermineAutoSync(autoSyncOption, prototypeAutoSync);
      if reset {
        var _ := reference.Push();
        autoSync := OnceAutoSync(autoSyncOption);
      }
      var recs := FreshRecords(arr, autoSync);
      assert forall i :: 0 <= i < |arr| && idAttr in arr[i] ==> IdOf(recs[i], idAttr) == Some(arr[i][idAttr]);
      if reset {
        AddAllKeepsOnePerId([], recs, idAttr);
        models := AddAll([], recs, idAttr);
      } else {
        SetAllKeepsOnePerId([], recs, idAttr);
        models := SetAll([], recs, idAttr);
      }
      events := events + (if silent then [] else [if reset then ResetEvent else SetEvent]) + [SyncEvent];
    }
  }
}
