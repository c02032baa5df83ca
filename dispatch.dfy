/**
 * The sync dispatcher (`FirebaseDBackbone.sync`) and the completion relay
 * (`_onCompleteCheck`): which remote operation each Backbone sync method
 * becomes, and which caller callback a completed operation fires.
 */
module Dispatch {
  import opened Wrappers
  import opened Attributes
  import opened Snapshot
  import opened Remote

  /** The `method` argument of `sync`; any other string is `OtherMethod`. */
  datatype SyncMethod = Read | Create | UpdateMethod | Delete | OtherMethod(name: string)

  /**
   * The operation `sync` issues at the entity's freshly refreshed reference,
   * with `json` its `toJSON()`: a value read, a full overwrite, a merge, or an
   * overwrite with null. Any other method issues nothing.
   */
  function DispatchOp(m: SyncMethod, at: Ref, json: Attrs): (r: Option<Op>)
    ensures r.None? <==> m.OtherMethod?
    ensures r.Some? ==> r.value.at == at
    ensures m == Read ==> r == Some(OnceValue(at))
    ensures m == Create ==> r == Some(Set(at, Some(json)))
    ensures m == UpdateMethod ==> r == Some(Update(at, json))
    ensures m == Delete ==> r == Some(Set(at, None))
  {
    match m
    case Read => Some(OnceValue(at))
    case Create => Some(Set(at, Some(json)))
    case UpdateMethod => Some(Update(at, json))
    case Delete => Some(Set(at, None))
    case OtherMethod(_) => None
  }

  /** Round trip through the dispatcher: create, then read and normalise. */
  lemma CreateThenReadRoundTrip(store: Store, at: Ref, json: Attrs, key: string, idAttr: string)
    ensures DispatchOp(Create, at, json).Some?
    ensures var after := Apply(store, DispatchOp(Create, at, json).value);
      CheckId(ReadAt(after, at, key), idAttr) == Success(StripNulls(json)[idAttr := Str(key)])
  {
    SetThenReadRoundTrip(store, at, json, key, idAttr);
  }

  /** A delete leaves nothing at the reference; other references are untouched. */
  lemma DeleteClears(store: Store, at: Ref, json: Attrs)
    ensures DispatchOp(Delete, at, json).Some?
    ensures var after := Apply(store, DispatchOp(Delete, at, json).value);
      at !in after && forall r :: r != at ==> (r in after <==> r in store) && (r in store ==> after[r] == store[r])
  {
  }

  /** An update merges the record into what is stored and deletes its null attributes. */
  lemma UpdateMergesRecord(store: Store, at: Ref, json: Attrs, k: string)
    requires DispatchOp(UpdateMethod, at, json).Some?
    requires k in json
    ensures var after := Apply(store, DispatchOp(UpdateMethod, at, json).value);
      if json[k] == Null then at !in after || k !in after[at]
      else at in after && k in after[at] && after[at][k] == json[k]
  {
    var node := if at in store then store[at] else map[];
    var merged := Merge(node, json);
    if json[k] != Null {
      assert k in merged;
    }
  }

  /** Which callbacks the caller's `options` holds. */
  datatype Callbacks = Callbacks(success: bool, error: bool)

  /** The callback a completion fires, if any. */
  datatype Fired = NothingFired | SuccessFired | ErrorFired

  /**
   * `_onCompleteCheck`: no options, no callback; an error reaches `error` only
   * when one was given, and otherwise `success` fires, even for an error.
   */
  function OnCompleteCheck(err: bool, options: Option<Callbacks>): (r: Fired)
    ensures options.None? ==> r == NothingFired
    ensures r == ErrorFired <==> options.Some? && err && options.value.error
    ensures r == SuccessFired <==> options.Some? && options.value.success && !(err && options.value.error)
  {
    if options.None? then NothingFired
    else if err && options.value.error then ErrorFired
    else if options.value.success then SuccessFired
    else NothingFired
  }

  /** The completion of a `read`: the value goes to `success`, a failure to `error`. */
  function ReadCompletion(failed: bool, options: Callbacks): (r: Fired)
    ensures r == ErrorFired <==> failed && options.error
    ensures r == SuccessFired <==> !failed && options.success
  {
    if failed then (if options.error then ErrorFired else NothingFired)
    else if options.success then SuccessFired else NothingFired
  }

  /**
   * A failed write with no error callback is reported to `success`; a failed
   * read never is.
   */
  lemma FailureReachesSuccessOnlyForWrites(options: Callbacks)
    requires options.success && !options.error
    ensures OnCompleteCheck(true, Some(options)) == SuccessFired
    ensures ReadCompletion(true, options) == NothingFired
  {
  }
}
