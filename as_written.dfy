/**
 * The places where the adapter as written cannot do what it evidently
 * means: each member here models one such place as the code reads, with the
 * rest of the adapter as the other modules have it, and a lemma sets it
 * beside the evidently intended behaviour those modules model.
 */
module AsWritten {
  import opened Wrappers
  import opened Attributes
  import opened Snapshot
  import opened Remote
  import opened References
  import opened RecordSync
  import opened Records
  import opened CollectionRefs
  import opened LiveSync

  /**
   * `_determineAutoSync` as written: the defaults are seeded under `autoSync`
   * but `_autoSync` is read, so only a caller's option counts (`this` is the
   * global object, which has no `_autoSync`); None is `undefined`.
   */
  function DetermineAutoSyncAsWritten(option: Option<bool>, prototype: Option<bool>): Option<bool>
  {
    option
  }

  /**
   * Without an option the result is `undefined`, falsy, whatever the
   * prototype holds, where a prototype without `_autoSync`, or with `true`,
   * means auto-sync.
   */
  lemma AutoSyncDefaultLost(prototype: Option<bool>)
    ensures DetermineAutoSyncAsWritten(None, prototype) == None
    ensures DetermineAutoSync(None, prototype) <==> prototype != Some(false)
    ensures forall option :: DetermineAutoSyncAsWritten(option, prototype) == DetermineAutoSyncAsWritten(option, None)
  {
  }

  /**
   * `initialize` as written: `autoSync(v)` compares `v` with
   * `this._autoSync`, which before any assignment reads the prototype's own
   * `_autoSync`. When the two agree nothing is attached. Gives the flag
   * `this.autoSync()` then reports and the number of local listener pairs,
   * with `v` resolved as intended.
   */
  function InitializeAsWritten(option: Option<bool>, prototype: Option<bool>): (Option<bool>, nat)
  {
    var v := DetermineAutoSync(option, prototype);
    if Some(v) == prototype then (prototype, 0)
    else (Some(v), if v then 1 else 0)
  }

  /**
   * A prototype whose own `_autoSync` is true leaves a record that reports
   * auto-sync on with no change or destroy listener, so its local edits are
   * never saved, where the intended `initialize` attaches one pair. With any
   * other prototype the two agree.
   */
  lemma InheritedAutoSyncAttachesNothing(option: Option<bool>, prototype: Option<bool>)
    ensures option != Some(false) ==> InitializeAsWritten(option, Some(true)) == (Some(true), 0)
    ensures option != Some(false) ==> DetermineAutoSync(option, Some(true))
    ensures prototype != Some(true) ==>
      var v := DetermineAutoSync(option, prototype);
      InitializeAsWritten(option, prototype) == (Some(v), if v then 1 else 0)
  {
  }

  /**
   * `Collection.ref` as written: `_setRef` caches the reference and then
   * calls `this._configureRef()`, which collections do not have, so the call
   * throws once the reference is cached. Gives the new cache and the outcome.
   */
  function CollectionRefAsWritten(cached: Option<Ref>, url: UrlProperty, refresh: bool): (Option<Ref>, Result<Ref, Error>)
  {
    if cached.None? || refresh then
      var r := CollectionSetRef(url);
      if r.Success? then (Some(r.value), Failure(ScriptError("_configureRef is not a function")))
      else (cached, r)
    else (cached, Success(cached.value))
  }

  /** The first resolution throws; the next call returns the reference the first one cached. */
  lemma FirstCollectionRefThrows(url: UrlProperty)
    requires CollectionSetRef(url).Success?
    ensures var (cache, r) := CollectionRefAsWritten(None, url, false);
      && r.Failure? && cache == Resolved(None, url)
      && CollectionRefAsWritten(cache, url, false) == (cache, Success(CollectionSetRef(url).value))
  {
  }

  /**
   * `Collection._setRef` as written: for an object, line 783 caches
   * `this.url`, the property itself, so a `url` function that returns a
   * reference leaves the function in the cache, not a reference (None).
   */
  function CollectionSetRefAsWritten(url: UrlProperty): Result<Option<Ref>, Error>
  {
    var loc := match url case UrlFunction(l) => l case UrlValue(l) => l;
    match loc
    case LocObject(h) => Success(if url.UrlValue? then Some(Handle(h)) else None)
    case LocString(s) => Success(Some(BuildRef(s, false)))
    case LocOther => Failure(InvalidUrlType)
  }

  /** A `url` function returning a reference: the intended resolution keeps it, the written one loses it. */
  lemma UrlFunctionReferenceLost(h: nat)
    ensures CollectionSetRefAsWritten(UrlFunction(LocObject(h))) == Success(None)
    ensures CollectionSetRef(UrlFunction(LocObject(h))) == Success(Handle(h))
    ensures CollectionSetRefAsWritten(UrlValue(LocObject(h))) == Success(Some(Handle(h)))
  {
  }

  /**
   * A batch `add` (`write`) or `remove` as written: parsing, resolving the
   * reference and raising the flag happen as intended, then the first
   * record's write throws. `add` passes `model[this.idAttribute]`, the value
   * under the method itself, `undefined`, to `child`, which rejects it;
   * `remove` calls `_setWithCheck`, which is not defined.
   */
  function BatchAsWritten(ref0: Option<Ref>, pushed0: nat, url: UrlProperty, ops0: seq<Op>, flag0: bool,
                          ms: seq<Attrs>, idAttr: string, silent: bool, write: bool): Batch
  {
    var b := BatchOutcome(ref0, pushed0, url, ops0, flag0, ms, idAttr, silent, write);
    if b.result.Failure? || |ms| == 0 then b
    else b.(result := Failure(ScriptError(if write then "child(undefined)" else "_setWithCheck is not defined")), ops := ops0)
  }

  /**
   * `add` as written writes nothing and throws, leaving the flag raised when
   * `silent`, where the intended `add` writes every record.
   */
  lemma AddAsWrittenWritesNothing(ref0: Option<Ref>, pushed0: nat, url: UrlProperty, ops0: seq<Op>, flag0: bool,
                                  ms: seq<Attrs>, idAttr: string, silent: bool)
    requires |ms| > 0 && Resolved(ref0, url).Some?
    ensures var b := BatchOutcome(ref0, pushed0, url, ops0, flag0, ms, idAttr, silent, true);
      b.result.Success? && |b.ops| == |ops0| + |ms|
    ensures var w := BatchAsWritten(ref0, pushed0, url, ops0, flag0, ms, idAttr, silent, true);
      w.result.Failure? && w.ops == ops0 && (silent ==> w.suppress)
  {
  }

  /**
   * `remove` as written writes nothing and throws, leaving the flag raised
   * when `silent` (so the next child event is swallowed), where the intended
   * `remove` sets every child to null.
   */
  lemma RemoveAsWrittenWritesNothing(ref0: Option<Ref>, pushed0: nat, url: UrlProperty, ops0: seq<Op>, flag0: bool,
                                     ms: seq<Attrs>, idAttr: string, silent: bool)
    requires |ms| > 0 && Resolved(ref0, url).Some?
    ensures var b := BatchOutcome(ref0, pushed0, url, ops0, flag0, ms, idAttr, silent, false);
      b.result.Success? && |b.ops| == |ops0| + |ms|
    ensures var w := BatchAsWritten(ref0, pushed0, url, ops0, flag0, ms, idAttr, silent, false);
      w.result.Failure? && w.ops == ops0 && (silent ==> w.suppress)
  {
  }

  /**
   * `_childAdded` as written: Backbone's `add` runs and the flag is lowered,
   * then `this.get(model[this.idAttribute])` looks up `undefined`, finds no
   * record, and setting `_remoteAttributes` on that throws. Gives the
   * records, the flag and the outcome.
   */
  function ChildAddedAsWritten(models: seq<Record>, suppress: bool, snap: Snap, idAttr: string, autoSync: bool)
    : (seq<Record>, bool, Result<nat, Error>)
  {
    var c := CheckId(snap, idAttr);
    if c.Failure? then (models, suppress, Failure(c.error))
    else (AddRecord(models, NewRecord(c.value, autoSync), idAttr).0, false,
          Failure(ScriptError("cannot set _remoteAttributes of undefined")))
  }

  /** A new record is added without its remote shadow, and the event handler throws. */
  lemma ChildAddedAsWrittenLeavesNoShadow(models: seq<Record>, suppress: bool, snap: Snap, idAttr: string, autoSync: bool)
    requires !IsPrimitive(snap.value) && Find(models, Str(snap.key), idAttr).None?
    ensures var (after, flag, r) := ChildAddedAsWritten(models, suppress, snap, idAttr, autoSync);
      && r.Failure? && !flag
      && after == models + [NewRecord(CheckId(snap, idAttr).value, autoSync)]
      && after[|models|].remote.None?
  {
    var m := CheckId(snap, idAttr).value;
    assert IdOf(NewRecord(m, autoSync), idAttr) == Some(Str(snap.key));
  }

  /**
   * `_childChanged` and `_childRemoved` as written: `Backbonefire` is not
   * defined, so both throw before they look at the snapshot.
   */
  function RemoteChangeAsWritten(snap: Snap, idAttr: string): Result<Attrs, Error>
  {
    Failure(ScriptError("Backbonefire is not defined"))
  }

  /** Every remote change or removal throws, including those of snapshots the intended handlers accept. */
  lemma RemoteChangesAlwaysThrow(snap: Snap, idAttr: string)
    ensures RemoteChangeAsWritten(snap, idAttr).Failure?
    ensures CheckId(snap, idAttr).Success? <==> !IsPrimitive(snap.value)
  {
  }

  /**
   * `_removeModel` as written: the reference is resolved, then
   * `_setWithCheck`, which is not defined, throws. Gives the cache, the log
   * and the outcome.
   */
  function RemoveModelAsWritten(ref0: Option<Ref>, url: UrlProperty, ops0: seq<Op>): (Option<Ref>, seq<Op>, Result<Op, Error>)
  {
    var resolved := Resolved(ref0, url);
    if resolved.None? then (ref0, ops0, Failure(CollectionSetRef(url).error))
    else (resolved, ops0, Failure(ScriptError("_setWithCheck is not defined")))
  }

  /**
   * A destroyed record is never deleted remotely as written: nothing is
   * logged, where the intended write clears the record's child.
   */
  lemma DestroyNeverReachesStore(ref0: Option<Ref>, url: UrlProperty, ops0: seq<Op>, store: Store, model: Attrs, idAttr: string)
    requires Resolved(ref0, url).Some?
    ensures var (_, ops, r) := RemoveModelAsWritten(ref0, url, ops0); r.Failure? && ops == ops0
    ensures var root := Resolved(ref0, url).value;
      Child(root, IdIn(model, idAttr)) !in Apply(store, WriteOne(root, model, idAttr, false))
  {
  }
}
