/**
 * A collection that auto-syncs (`SyncCollection`): local `add`, `remove`
 * and `reset` only write to the store, and the records change when the
 * store's child events come back; local changes to a record are written
 * back through `_updateModel`.
 */
module LiveSync {
  import opened Wrappers
  import opened Attributes
  import opened Snapshot
  import opened Remote
  import opened References
  import opened Diffing
  import opened RecordSync
  import opened Records
  import opened CollectionRefs

  /** The write `add` (a `set` of the record) or `remove` (a `set(null)`) issues for one record. */
  function WriteOne(root: Ref, m: Attrs, idAttr: string, write: bool): Op
  {
    Set(Child(root, IdIn(m, idAttr)), if write then Some(m) else None)
  }

  /** The writes for a batch of records, in order. */
  function Writes(root: Ref, ms: seq<Attrs>, idAttr: string, write: bool): (r: seq<Op>)
    ensures |r| == |ms|
  {
    if ms == [] then []
    else Writes(root, ms[..|ms| - 1], idAttr, write) + [WriteOne(root, ms[|ms| - 1], idAttr, write)]
  }

  /** The `i`-th write of a batch is the write of the `i`-th record. */
  lemma {:induction false} WritesIndex(root: Ref, ms: seq<Attrs>, idAttr: string, write: bool, i: nat)
    requires i < |ms|
    ensures Writes(root, ms, idAttr, write)[i] == WriteOne(root, ms[i], idAttr, write)
    decreases |ms|
  {
    if i < |ms| - 1 {
      WritesIndex(root, ms[..|ms| - 1], idAttr, write, i);
    }
  }

  /** The writes for a batch once the reference is resolved; an empty batch needs no reference. */
  function WritesVia(root: Option<Ref>, ms: seq<Attrs>, idAttr: string, write: bool): seq<Op>
  {
    if root.Some? then Writes(root.value, ms, idAttr, write) else []
  }

  /** What the store holds after a sequence of operations. */
  function ApplyAll(store: Store, ops: seq<Op>): Store
  {
    if ops == [] then store else Apply(ApplyAll(store, ops[..|ops| - 1]), ops[|ops| - 1])
  }

  /** The records of a batch have pairwise distinct identifiers. */
  ghost predicate DistinctIds(ms: seq<Attrs>, idAttr: string)
  {
    forall a, b :: 0 <= a < b < |ms| ==> IdIn(ms[a], idAttr) != IdIn(ms[b], idAttr)
  }

  /** A prefix of a batch with distinct identifiers has distinct identifiers. */
  lemma DistinctIdsPrefix(ms: seq<Attrs>, n: nat, idAttr: string)
    requires n <= |ms| && DistinctIds(ms, idAttr)
    ensures DistinctIds(ms[..n], idAttr)
  {
    forall a, b | 0 <= a < b < n
      ensures IdIn(ms[..n][a], idAttr) != IdIn(ms[..n][b], idAttr)
    {
      assert ms[..n][a] == ms[a] && ms[..n][b] == ms[b];
    }
  }

  /** A batch of writes leaves every other node as it was. */
  lemma {:induction false} WritesElsewhere(store: Store, root: Ref, ms: seq<Attrs>, idAttr: string, write: bool, at: Ref)
    requires forall i :: 0 <= i < |ms| ==> Child(root, IdIn(ms[i], idAttr)) != at
    ensures var after := ApplyAll(store, Writes(root, ms, idAttr, write));
      (at in after <==> at in store) && (at in store ==> after[at] == store[at])
    decreases |ms|
  {
    if ms != [] {
      var init := ms[..|ms| - 1];
      ApplyAllSnoc(store, root, ms, idAttr, write);
      WritesElsewhere(store, root, init, idAttr, write, at);
      SetElsewhere(ApplyAll(store, Writes(root, init, idAttr, write)), root, ms[|ms| - 1], idAttr, write, at);
    }
  }

  /** With distinct identifiers, each record's node ends as that record's own write leaves it. */
  lemma {:induction false} WritesAt(store: Store, root: Ref, ms: seq<Attrs>, idAttr: string, write: bool, i: nat)
    requires i < |ms| && DistinctIds(ms, idAttr)
    ensures var at := Child(root, IdIn(ms[i], idAttr));
      var after := ApplyAll(store, Writes(root, ms, idAttr, write));
      var single := Apply(store, WriteOne(root, ms[i], idAttr, write));
      (at in after <==> at in single) && (at in after ==> after[at] == single[at])
    decreases |ms|
  {
    var init := ms[..|ms| - 1];
    ApplyAllSnoc(store, root, ms, idAttr, write);
    if i < |ms| - 1 {
      assert init[i] == ms[i];
      DistinctIdsPrefix(ms, |ms| - 1, idAttr);
      WritesAt(store, root, init, idAttr, write, i);
      SetElsewhere(ApplyAll(store, Writes(root, init, idAttr, write)), root, ms[|ms| - 1], idAttr, write, Child(root, IdIn(ms[i], idAttr)));
    } else {
      SetAnywhere(ApplyAll(store, Writes(root, init, idAttr, write)), store, root, ms[i], idAttr, write);
    }
  }

  /** Storing a batch is storing all but the last record, then the last. */
  lemma ApplyAllSnoc(store: Store, root: Ref, ms: seq<Attrs>, idAttr: string, write: bool)
    requires ms != []
    ensures ApplyAll(store, Writes(root, ms, idAttr, write))
      == Apply(ApplyAll(store, Writes(root, ms[..|ms| - 1], idAttr, write)), WriteOne(root, ms[|ms| - 1], idAttr, write))
  {
    var w := Writes(root, ms, idAttr, write);
    assert w[..|w| - 1] == Writes(root, ms[..|ms| - 1], idAttr, write);
  }

  /** One record's write leaves every other node as it was. */
  lemma SetElsewhere(store: Store, root: Ref, m: Attrs, idAttr: string, write: bool, at: Ref)
    requires at != Child(root, IdIn(m, idAttr))
    ensures var after := Apply(store, WriteOne(root, m, idAttr, write));
      (at in after <==> at in store) && (at in store ==> after[at] == store[at])
  {
  }

  /** What one record's write leaves at its own node does not depend on what was there. */
  lemma SetAnywhere(s1: Store, s2: Store, root: Ref, m: Attrs, idAttr: string, write: bool)
    ensures var at := Child(root, IdIn(m, idAttr));
      var a1 := Apply(s1, WriteOne(root, m, idAttr, write));
      var a2 := Apply(s2, WriteOne(root, m, idAttr, write));
      (at in a1 <==> at in a2) && (at in a1 ==> a1[at] == a2[at])
  {
  }

  /**
   * Round trip of `add`: once the batch is stored, the child event for a
   * record delivers it back, without its null attributes.
   */
  lemma AddedRecordsReadBack(store: Store, root: Ref, ms: seq<Attrs>, idAttr: string, i: nat, key: string)
    requires i < |ms| && DistinctIds(ms, idAttr)
    requires idAttr in ms[i] && ms[i][idAttr] == Str(key)
    ensures var after := ApplyAll(store, Writes(root, ms, idAttr, true));
      CheckId(ReadAt(after, Child(root, Str(key)), key), idAttr) == Success(StripNulls(ms[i]))
  {
    var at := Child(root, Str(key));
    var after := ApplyAll(store, Writes(root, ms, idAttr, true));
    var single := Apply(store, Set(at, Some(ms[i])));
    assert ReadAt(after, at, key) == ReadAt(single, at, key) by {
      WritesAt(store, root, ms, idAttr, true, i);
    }
    SetThenReadRoundTrip(store, at, ms[i], key, idAttr);
    assert StripNulls(ms[i])[idAttr := Str(key)] == StripNulls(ms[i]);
  }

  /** After `remove` is stored, each removed record's node reads as null. */
  lemma RemovedRecordsReadNull(store: Store, root: Ref, ms: seq<Attrs>, idAttr: string, i: nat)
    requires i < |ms| && DistinctIds(ms, idAttr)
    ensures Child(root, IdIn(ms[i], idAttr)) !in ApplyAll(store, Writes(root, ms, idAttr, false))
  {
    WritesAt(store, root, ms, idAttr, false, i);
  }

  /**
   * What a batch `add` or `remove` changes besides the records: its outcome,
   * the cached reference, the push-id counter, the write log and the
   * suppression flag.
   */
  datatype Batch = Batch(result: Result<seq<Attrs>, Error>, ref: Option<Ref>, pushed: nat, ops: seq<Op>, suppress: bool)

  /**
   * The outcome of a batch `add` (`write`) or `remove` of `ms`, from the
   * cached reference `ref0`, the counter `pushed0`, the log `ops0` and the
   * flag `flag0`: push-ids for the records that lack an identifier, then one
   * write per record at its child. A non-empty batch fails exactly when the
   * reference cannot be resolved. `add` raises the flag before it asks for
   * the reference, so a failed `add` that needed no push-id has raised it.
   */
  function BatchOutcome(ref0: Option<Ref>, pushed0: nat, url: UrlProperty, ops0: seq<Op>, flag0: bool,
                        ms: seq<Attrs>, idAttr: string, silent: bool, write: bool): Batch
  {
    var resolved := if |ms| > 0 then Resolved(ref0, url) else ref0;
    if resolved.None? && |ms| > 0 then
      Batch(Failure(CollectionSetRef(url).error), ref0, pushed0, ops0,
            if write && silent && MissingIds(ms, idAttr) == 0 then true else flag0)
    else
      var ps := AssignIds(ms, pushed0, idAttr);
      Batch(Success(ps), resolved, pushed0 + MissingIds(ms, idAttr), ops0 + WritesVia(resolved, ps, idAttr, write),
            if silent && |ms| > 0 then true else flag0)
  }

  /** A batch fails exactly when it is not empty and the reference resolves to nothing. */
  lemma BatchFails(ref0: Option<Ref>, pushed0: nat, url: UrlProperty, ops0: seq<Op>, flag0: bool,
                   ms: seq<Attrs>, idAttr: string, silent: bool, write: bool)
    ensures var b := BatchOutcome(ref0, pushed0, url, ops0, flag0, ms, idAttr, silent, write);
      && (b.result.Failure? <==> |ms| > 0 && Resolved(ref0, url).None?)
      && (b.result.Failure? ==> b.ops == ops0 && b.pushed == pushed0 && b.ref == ref0 && b.result.error == InvalidUrlType)
  {
  }

  /**
   * A successful batch gives every record a truthy identifier, keeps the
   * identifiers records already had, and writes each record at the child its
   * identifier names.
   */
  lemma BatchIdentifies(ref0: Option<Ref>, pushed0: nat, url: UrlProperty, ops0: seq<Op>, flag0: bool,
                        ms: seq<Attrs>, idAttr: string, silent: bool, write: bool, i: nat)
    requires i < |ms|
    requires BatchOutcome(ref0, pushed0, url, ops0, flag0, ms, idAttr, silent, write).result.Success?
    ensures var b := BatchOutcome(ref0, pushed0, url, ops0, flag0, ms, idAttr, silent, write);
      && b.ref.Some? && |b.result.value| == |ms| && |b.ops| == |ops0| + |ms|
      && TruthyAt(b.result.value[i], idAttr)
      && (TruthyAt(ms[i], idAttr) ==> b.result.value[i] == ms[i])
      && b.ops[|ops0| + i] == WriteOne(b.ref.value, b.result.value[i], idAttr, write)
  {
    AssignIdsAt(ms, pushed0, idAttr, i);
    WritesIndex(Resolved(ref0, url).value, AssignIds(ms, pushed0, idAttr), idAttr, write, i);
  }

  /**
   * `reset`: everything held is removed silently, then `ms` is added
   * silently; a failed removal stops it.
   */
  function ResetOutcome(ref0: Option<Ref>, pushed0: nat, url: UrlProperty, ops0: seq<Op>, flag0: bool,
                        held: seq<Attrs>, ms: seq<Attrs>, idAttr: string): Batch
  {
    var removed := BatchOutcome(ref0, pushed0, url, ops0, flag0, held, idAttr, true, false);
    if removed.result.Failure? then removed
    else BatchOutcome(removed.ref, removed.pushed, url, removed.ops, removed.suppress, ms, idAttr, true, true)
  }

  /** `reset` fails exactly when something is held or added and the reference resolves to nothing. */
  lemma ResetFails(ref0: Option<Ref>, pushed0: nat, url: UrlProperty, ops0: seq<Op>, flag0: bool,
                   held: seq<Attrs>, ms: seq<Attrs>, idAttr: string)
    ensures var b := ResetOutcome(ref0, pushed0, url, ops0, flag0, held, ms, idAttr);
      && (b.result.Failure? <==> (|held| > 0 || |ms| > 0) && Resolved(ref0, url).None?)
      && b.ref == (if |held| > 0 || |ms| > 0 then Resolved(ref0, url) else ref0)
      && (b.result.Failure? ==> b.ops == ops0 && b.pushed == pushed0)
  {
    ResolvedIdempotent(ref0, url);
  }

  /**
   * A successful `reset` logs the removal of every held record, with push-ids
   * for those without one, then the writes of the new records, whose push-ids
   * continue the count; and it leaves the suppression flag raised when it
   * wrote anything.
   */
  lemma ResetWrites(ref0: Option<Ref>, pushed0: nat, url: UrlProperty, ops0: seq<Op>, flag0: bool,
                    held: seq<Attrs>, ms: seq<Attrs>, idAttr: string)
    requires ResetOutcome(ref0, pushed0, url, ops0, flag0, held, ms, idAttr).result.Success?
    ensures var b := ResetOutcome(ref0, pushed0, url, ops0, flag0, held, ms, idAttr);
      && b.result.value == AssignIds(ms, pushed0 + MissingIds(held, idAttr), idAttr)
      && b.pushed == pushed0 + MissingIds(held, idAttr) + MissingIds(ms, idAttr)
      && b.ops == ops0 + WritesVia(b.ref, AssignIds(held, pushed0, idAttr), idAttr, false) + WritesVia(b.ref, b.result.value, idAttr, true)
      && b.suppress == if |held| > 0 || |ms| > 0 then true else flag0
  {
    var removed := BatchOutcome(ref0, pushed0, url, ops0, flag0, held, idAttr, true, false);
    var added := BatchOutcome(removed.ref, removed.pushed, url, removed.ops, removed.suppress, ms, idAttr, true, true);
    assert removed.result.Success?;
    assert ResetOutcome(ref0, pushed0, url, ops0, flag0, held, ms, idAttr) == added;
    if |held| > 0 {
      ResolvedIdempotent(ref0, url);
      assert added.ref == removed.ref;
    } else {
      assert AssignIds(held, pushed0, idAttr) == [];
      assert WritesVia(added.ref, [], idAttr, false) == [] == WritesVia(removed.ref, [], idAttr, false);
    }
  }

  class LiveCollection {
    const idAttr: string
    /** `this.model.prototype._autoSync`, when the prototype has one. */
    const prototypeAutoSync: Option<bool>
    const reference: CollectionRef
    var models: seq<Record>
    /** `_suppressEvent`: swallow the next echoed child event. */
    var suppressEvent: bool
    var ops: seq<Op>
    var events: seq<Event>

    /** Every record has an identifier, and no two share one. */
    ghost predicate Valid()
      reads this
    {
      UniqueIds(models, idAttr)
    }

    constructor (idAttr: string, prototypeAutoSync: Option<bool>, url: UrlProperty)
      ensures Valid()
      ensures this.idAttr == idAttr && this.prototypeAutoSync == prototypeAutoSync
      ensures fresh(reference) && reference.url == url && reference.ref == None && reference.pushed == 0
      ensures models == [] && !suppressEvent && ops == [] && events == []
    {
      this.idAttr := idAttr;
      this.prototypeAutoSync := prototypeAutoSync;
      reference := new CollectionRef(url);
      models := [];
      suppressEvent := false;
      ops := [];
      events := [];
    }

    /**
     * `_parseModels`: the argument as an array, each record with a falsy
     * identifier given the next push-id. Taking a push-id resolves the
     * reference, and fails when it cannot be resolved; then no push-id has
     * been taken.
     */
    method ParseModels(arg: ModelsArg) returns (r: Result<seq<Attrs>, Error>)
      modifies reference
      ensures var missing := MissingIds(Wrap(arg), idAttr);
        reference.ref == if missing > 0 then Resolved(old(reference.ref), reference.url) else old(reference.ref)
      ensures r.Failure? <==> MissingIds(Wrap(arg), idAttr) > 0 && Resolved(old(reference.ref), reference.url).None?
      ensures r.Success? ==> r.value == AssignIds(Wrap(arg), old(reference.pushed), idAttr)
      ensures r.Success? ==> reference.pushed == old(reference.pushed) + MissingIds(Wrap(arg), idAttr)
      ensures r.Failure? ==> reference.pushed == old(reference.pushed) && r.error == CollectionSetRef(reference.url).error
    {
      var ms := Wrap(arg);
      ghost var ref0 := reference.ref;
      var start := reference.pushed;
      var out: seq<Attrs> := [];
      var i := 0;
      while i < |ms|
        invariant 0 <= i <= |ms|
        invariant out == AssignIds(ms[..i], start, idAttr)
        invariant reference.pushed == start + MissingIds(ms[..i], idAttr)
        invariant reference.ref == if MissingIds(ms[..i], idAttr) > 0 then Resolved(ref0, reference.url) else ref0
        invariant MissingIds(ms[..i], idAttr) > 0 ==> reference.ref.Some?
      {
        MissingIdsSnoc(ms, i, idAttr);
        AssignIdsSnoc(ms, i, start, idAttr);
        ResolvedIdempotent(ref0, reference.url);
        var m := reference.AssignId(ms[i], idAttr);
        if m.Failure? {
          MissingIdsPositive(ms, i, idAttr);
          return Failure(m.error);
        }
        out := out + [m.value];
        i := i + 1;
      }
      assert ms[..i] == ms;
      r := Success(out);
    }

    /**
     * The write loop of `add`: each record is written with `set` at the child
     * named by its identifier; with `silent`, the suppression flag is raised
     * before the reference is obtained.
     */
    method WriteAdded(ps: seq<Attrs>, silent: bool) returns (r: Result<(), Error>)
      modifies this, reference
      ensures models == old(models) && events == old(events) && reference.pushed == old(reference.pushed)
      ensures reference.ref == if |ps| > 0 then Resolved(old(reference.ref), reference.url) else old(reference.ref)
      ensures r.Failure? <==> |ps| > 0 && Resolved(old(reference.ref), reference.url).None?
      ensures r.Failure? ==> r.error == CollectionSetRef(reference.url).error
      ensures r.Success? ==> ops == old(ops) + WritesVia(reference.ref, ps, idAttr, true)
      ensures r.Failure? ==> ops == old(ops)
      ensures suppressEvent == if silent && |ps| > 0 then true else old(suppressEvent)
    {
      ghost var ops0 := ops;
      ghost var ref0 := reference.ref;
      var i := 0;
      while i < |ps|
        invariant 0 <= i <= |ps| && models == old(models) && events == old(events) && reference.pushed == old(reference.pushed)
        invariant i == 0 ==> ops == ops0 && suppressEvent == old(suppressEvent) && reference.ref == ref0
        invariant i > 0 ==> reference.ref == Resolved(ref0, reference.url) && reference.ref.Some?
        invariant i > 0 ==> ops == ops0 + Writes(reference.ref.value, ps[..i], idAttr, true)
        invariant i > 0 ==> suppressEvent == (silent || old(suppressEvent))
      {
        if silent {
          suppressEvent := true;
        }
        ResolvedIdempotent(ref0, reference.url);
        var at := reference.Ref(false);
        if at.Failure? {
          return Failure(at.error);
        }
        assert ps[..i + 1][..i] == ps[..i];
        ops := ops + [WriteOne(at.value, ps[i], idAttr, true)];
        i := i + 1;
      }
      assert ps[..i] == ps;
      r := Success(());
    }

    /**
     * The write loop of `remove`: each child is set to null; with `silent`,
     * the suppression flag is raised once the reference is obtained.
     */
    method WriteRemoved(ps: seq<Attrs>, silent: bool) returns (r: Result<(), Error>)
      modifies this, reference
      ensures models == old(models) && events == old(events) && reference.pushed == old(reference.pushed)
      ensures reference.ref == if |ps| > 0 then Resolved(old(reference.ref), reference.url) else old(reference.ref)
      ensures r.Failure? <==> |ps| > 0 && Resolved(old(reference.ref), reference.url).None?
      ensures r.Failure? ==> r.error == CollectionSetRef(reference.url).error
      ensures r.Success? ==> ops == old(ops) + WritesVia(reference.ref, ps, idAttr, false)
      ensures r.Failure? ==> ops == old(ops)
      ensures suppressEvent == if silent && r.Success? && |ps| > 0 then true else old(suppressEvent)
    {
      ghost var ops0 := ops;
      ghost var ref0 := reference.ref;
      var i := 0;
      while i < |ps|
        invariant 0 <= i <= |ps| && models == old(models) && events == old(events) && reference.pushed == old(reference.pushed)
        invariant i == 0 ==> ops == ops0 && suppressEvent == old(suppressEvent) && reference.ref == ref0
        invariant i > 0 ==> reference.ref == Resolved(ref0, reference.url) && reference.ref.Some?
        invariant i > 0 ==> ops == ops0 + Writes(reference.ref.value, ps[..i], idAttr, false)
        invariant i > 0 ==> suppressEvent == (silent || old(suppressEvent))
      {
        ResolvedIdempotent(ref0, reference.url);
        var at := reference.Ref(false);
        if at.Failure? {
          return Failure(at.error);
        }
        if silent {
          suppressEvent := true;
        }
        assert ps[..i + 1][..i] == ps[..i];
        ops := ops + [WriteOne(at.value, ps[i], idAttr, false)];
        i := i + 1;
      }
      assert ps[..i] == ps;
      r := Success(());
    }

    /**
     * `add`: the records are parsed, then written. Nothing changes locally
     * until the store echoes the records back.
     */
    method Add(arg: ModelsArg, silent: bool) returns (r: Result<seq<Attrs>, Error>)
      modifies this, reference
      ensures models == old(models) && events == old(events)
      ensures Batch(r, reference.ref, reference.pushed, ops, suppressEvent)
        == BatchOutcome(old(reference.ref), old(reference.pushed), reference.url, old(ops), old(suppressEvent),
                        Wrap(arg), idAttr, silent, true)
    {
      ghost var ms := Wrap(arg);
      var parsed := ParseModels(arg);
      if parsed.Failure? {
        return Failure(parsed.error);
      }
      ResolvedIdempotent(old(reference.ref), reference.url);
      var written := WriteAdded(parsed.value, silent);
      if written.Failure? {
        assert MissingIds(ms, idAttr) == 0 && Resolved(old(reference.ref), reference.url).None?;
        return Failure(written.error);
      }
      r := Success(parsed.value);
    }

    /** `create`: a falsy record is refused; otherwise it is added alone and returned. */
    method Create(model: Option<Attrs>, silent: bool) returns (r: Result<Option<Attrs>, Error>)
      modifies this, reference
      ensures models == old(models) && events == old(events)
      ensures model.None? ==> r == Success(None) && ops == old(ops) && suppressEvent == old(suppressEvent)
      ensures model.None? ==> reference.ref == old(reference.ref) && reference.pushed == old(reference.pushed)
      ensures model.Some? ==>
        var b := BatchOutcome(old(reference.ref), old(reference.pushed), reference.url, old(ops), old(suppressEvent),
                              [model.value], idAttr, silent, true);
        && reference.ref == b.ref && reference.pushed == b.pushed && ops == b.ops && suppressEvent == b.suppress
        && (r.Failure? ==> b.result == Failure(r.error))
        && (r.Success? ==> r.value.Some? && b.result == Success([r.value.value]))
      ensures model.Some? ==> (r.Failure? <==> Resolved(old(reference.ref), reference.url).None?)
      ensures model.Some? && r.Success? ==>
        var m := WithId(model.value, idAttr, PushKey(old(reference.pushed)));
        && r.value == Some(m)
        && reference.ref.Some?
        && ops == old(ops) + [Set(Child(reference.ref.value, IdIn(m, idAttr)), Some(m))]
    {
      if model.None? {
        return Success(None);
      }
      var added := Add(Single(model), silent);
      if added.Failure? {
        return Failure(added.error);
      }
      AssignIdsOne(model.value, old(reference.pushed), idAttr);
      r := Success(Some(added.value[0]));
    }

    /**
     * `remove`: the records are parsed (records without an identifier take
     * push-ids too), then each child is set to null.
     */
    method Remove(arg: ModelsArg, silent: bool) returns (r: Result<seq<Attrs>, Error>)
      modifies this, reference
      ensures models == old(models) && events == old(events)
      ensures Batch(r, reference.ref, reference.pushed, ops, suppressEvent)
        == BatchOutcome(old(reference.ref), old(reference.pushed), reference.url, old(ops), old(suppressEvent),
                        Wrap(arg), idAttr, silent, false)
    {
      ghost var ms := Wrap(arg);
      var parsed := ParseModels(arg);
      if parsed.Failure? {
        return Failure(parsed.error);
      }
      ResolvedIdempotent(old(reference.ref), reference.url);
      var written := WriteRemoved(parsed.value, silent);
      if written.Failure? {
        assert MissingIds(ms, idAttr) == 0 && Resolved(old(reference.ref), reference.url).None?;
        return Failure(written.error);
      }
      r := Success(parsed.value);
    }

    /**
     * `reset`: every held record is removed remotely and the new ones added
     * remotely, both silently; a reset notification follows unless `silent`.
     * The records themselves change only as the store echoes the writes.
     */
    method Reset(arg: ModelsArg, silent: bool) returns (r: Result<seq<Attrs>, Error>)
      modifies this, reference
      ensures models == old(models)
      ensures Batch(r, reference.ref, reference.pushed, ops, suppressEvent)
        == ResetOutcome(old(reference.ref), old(reference.pushed), reference.url, old(ops), old(suppressEvent),
                        AttrsOf(old(models)), Wrap(arg), idAttr)
      ensures events == old(events) + if r.Success? && !silent then [ResetEvent] else []
    {
      var current := AttrsOf(models);
      assert Wrap(Many(current)) == current;
      var removed := Remove(Many(current), true);
      if removed.Failure? {
        return Failure(removed.error);
      }
      r := Add(arg, true);
      if r.Failure? {
        return;
      }
      if !silent {
        events := events + [ResetEvent];
      }
    }

    /** `_preventSync`: sets the record's `_remoteChanging` guard. */
    method PreventSync(j: nat, state: bool)
      requires Valid() && j < |models|
      modifies this
      ensures Valid()
      ensures models == old(models)[j := old(models)[j].(remoteChanging := state)]
      ensures ops == old(ops) && events == old(events) && suppressEvent == old(suppressEvent)
    {
      ReplaceKeepsIds(models, j, models[j].(remoteChanging := state), idAttr);
      models := models[j := models[j].(remoteChanging := state)];
    }

    /**
     * `_childAdded`: the snapshot is normalised, and Backbone adds the record
     * unless one with its identifier is held, announcing it unless the
     * suppression flag was up (which this lowers). The held record's remote
     * shadow becomes the snapshot's record.
     */
    method ChildAdded(snap: Snap) returns (r: Result<nat, Error>)
      requires Valid()
      modifies this
      ensures Valid() && ops == old(ops)
      ensures r.Failure? <==> IsPrimitive(snap.value)
      ensures r.Failure? ==> models == old(models) && events == old(events) && suppressEvent == old(suppressEvent)
      ensures r.Success? ==> var m := CheckId(snap, idAttr).value;
        && !suppressEvent
        && Find(models, Str(snap.key), idAttr) == Some(r.value)
        && models[r.value].remote == Some(m)
        && (Find(old(models), Str(snap.key), idAttr).None? ==>
              && models == old(models) + [Record(m, Some(m), false, DetermineAutoSync(None, prototypeAutoSync))]
              && events == old(events) + (if old(suppressEvent) then [] else [Added(Str(snap.key))]))
        && (Find(old(models), Str(snap.key), idAttr).Some? ==>
              && r.value == Find(old(models), Str(snap.key), idAttr).value
              && models == old(models)[r.value := old(models)[r.value].(remote := Some(m))]
              && events == old(events))
    {
      var c := CheckId(snap, idAttr);
      if c.Failure? {
        return Failure(c.error);
      }
      var m := c.value;
      var silentAdd := suppressEvent;
      if suppressEvent {
        suppressEvent := false;
      }
      var rec := NewRecord(m, DetermineAutoSync(None, prototypeAutoSync));
      AddThenShadow(models, rec, idAttr, Some(m));
      var (after, j) := AddRecord(models, rec, idAttr);
      if !silentAdd && |after| == |models| + 1 {
        events := events + [Added(m[idAttr])];
      }
      models := after[j := after[j].(remote := Some(m))];
      r := Success(j);
    }

    /**
     * `_updateModel`, run on a record's change event: nothing while the
     * record's guard is up; otherwise the local attributes are compared with
     * the remote shadow (an empty object when there is none) and written to
     * the record's child.
     */
    method UpdateModel(j: nat) returns (r: Result<Option<Op>, Error>)
      requires j < |models|
      modifies this, reference
      ensures models == old(models) && events == old(events) && suppressEvent == old(suppressEvent)
      ensures reference.pushed == old(reference.pushed)
      ensures old(models[j].remoteChanging) ==> r == Success(None) && ops == old(ops) && reference.ref == old(reference.ref)
      ensures !old(models[j].remoteChanging) ==> reference.ref == Resolved(old(reference.ref), reference.url)
      ensures !old(models[j].remoteChanging) ==> (r.Failure? <==> Resolved(old(reference.ref), reference.url).None?)
      ensures r.Failure? ==> ops == old(ops)
      ensures !old(models[j].remoteChanging) && r.Success? ==>
        var shadow := if models[j].remote.Some? then models[j].remote.value else map[];
        var local := models[j].attrs;
        && r.value == Some(WriteFor(Diff(shadow, local), local, Child(reference.ref.value, IdIn(local, idAttr))))
        && ops == old(ops) + [r.value.value]
    {
      if models[j].remoteChanging {
        return Success(None);
      }
      var shadow := if models[j].remote.Some? then models[j].remote.value else map[];
      var local := models[j].attrs;
      var u := CompareAttributes(shadow, local);
      var at := reference.Ref(false);
      if at.Failure? {
        return Failure(at.error);
      }
      var op := WriteFor(u, local, Child(at.value, IdIn(local, idAttr)));
      ops := ops + [op];
      r := Success(Some(op));
    }

    /**
     * `_childChanged`: an unknown record is handled as an addition. A known
     * one is guarded, gets the snapshot's record as its shadow, loses the
     * attributes the snapshot lacks and takes the snapshot's values; its
     * change events reach `_updateModel` while the guard is up, so nothing is
     * written back through the collection. A sync notification follows and the guard is lowered.
     */
    method ChildChanged(snap: Snap) returns (r: Result<nat, Error>)
      requires Valid()
      modifies this, reference
      ensures Valid() && ops == old(ops)
      ensures r.Failure? <==> IsPrimitive(snap.value)
      ensures r.Failure? ==> models == old(models) && events == old(events) && suppressEvent == old(suppressEvent)
      ensures r.Success? ==> var m := CheckId(snap, idAttr).value;
        && Find(models, Str(snap.key), idAttr) == Some(r.value)
        && models[r.value].attrs == m
        && models[r.value].remote == Some(m)
        && !models[r.value].remoteChanging
        && (Find(old(models), Str(snap.key), idAttr).Some? ==>
              && r.value == Find(old(models), Str(snap.key), idAttr).value
              && models == old(models)[r.value := Record(m, Some(m), false, old(models)[r.value].autoSync)]
              && events == old(events) + [SyncEvent]
              && suppressEvent == old(suppressEvent))
        && (Find(old(models), Str(snap.key), idAttr).None? ==>
              && models == old(models) + [Record(m, Some(m), false, DetermineAutoSync(None, prototypeAutoSync))]
              && events == old(events) + (if old(suppressEvent) then [] else [Added(Str(snap.key))])
              && !suppressEvent)
      ensures reference.pushed == old(reference.pushed) && reference.ref == old(reference.ref)
    {
      var c := CheckId(snap, idAttr);
      if c.Failure? {
        return Failure(c.error);
      }
      var m := c.value;
      var item := Find(models, IdIn(m, idAttr), idAttr);
      if item.None? {
        r := ChildAdded(snap);
        return;
      }
      ApplyChange(item.value, m);
      SameIdsFind(old(models), models, Str(snap.key), idAttr);
      r := Success(item.value);
    }

    /** The known-record branch of `_childChanged`, for the record at `j` and the normalised snapshot `m`. */
    method ApplyChange(j: nat, m: Attrs)
      requires Valid() && j < |models| && IdOf(models[j], idAttr) == Lookup(m, idAttr)
      modifies this, reference
      ensures Valid() && ops == old(ops) && suppressEvent == old(suppressEvent)
      ensures models == old(models)[j := Record(m, Some(m), false, old(models)[j].autoSync)]
      ensures events == old(events) + [SyncEvent]
      ensures reference.pushed == old(reference.pushed) && reference.ref == old(reference.ref)
    {
      PreventSync(j, true);
      ReplaceKeepsIds(models, j, models[j].(remote := Some(m)), idAttr);
      models := models[j := models[j].(remote := Some(m))];
      var kept := UnsetMissing(models[j].attrs, m.Keys);
      assert kept + m == m;
      ReplaceKeepsIds(models, j, models[j].(attrs := m), idAttr);
      models := models[j := models[j].(attrs := m)];
      var _ := UpdateModel(j);
      events := events + [SyncEvent];
      PreventSync(j, false);
    }

    /**
     * `_childRemoved`: the snapshot is normalised and the record with its
     * identifier goes. Unless the suppression flag was up (which this
     * lowers), a sync notification comes first and the removal is announced.
     */
    method ChildRemoved(snap: Snap) returns (r: Result<bool, Error>)
      requires Valid()
      modifies this
      ensures Valid() && ops == old(ops)
      ensures r.Failure? <==> IsPrimitive(snap.value)
      ensures r.Failure? ==> models == old(models) && events == old(events) && suppressEvent == old(suppressEvent)
      ensures r.Success? ==>
        && r.value == Find(old(models), Str(snap.key), idAttr).Some?
        && models == RemoveRecord(old(models), Str(snap.key), idAttr)
        && Find(models, Str(snap.key), idAttr).None?
        && !suppressEvent
        && events == old(events) +
             if old(suppressEvent) then []
             else [SyncEvent] + (if r.value then [Removed(Str(snap.key))] else [])
    {
      var c := CheckId(snap, idAttr);
      if c.Failure? {
        return Failure(c.error);
      }
      var id := c.value[idAttr];
      var j := Find(models, id, idAttr);
      if suppressEvent {
        suppressEvent := false;
      } else {
        events := events + [SyncEvent] + (if j.Some? then [Removed(id)] else []);
      }
      RemoveRecordKeepsUnique(models, id, idAttr);
      models := RemoveRecord(models, id, idAttr);
      r := Success(j.Some?);
    }

    /** `_removeModel`, run on a record's destroy event: the record's child is set to null. */
    method RemoveModel(model: Attrs) returns (r: Result<Op, Error>)
      modifies this, reference
      ensures models == old(models) && events == old(events) && suppressEvent == old(suppressEvent)
      ensures reference.pushed == old(reference.pushed)
      ensures reference.ref == Resolved(old(reference.ref), reference.url)
      ensures r.Failure? <==> Resolved(old(reference.ref), reference.url).None?
      ensures r.Failure? ==> ops == old(ops)
      ensures r.Success? ==> r.value == Set(Child(reference.ref.value, IdIn(model, idAttr)), None) && ops == old(ops) + [r.value]
    {
      var at := reference.Ref(false);
      if at.Failure? {
        return Failure(at.error);
      }
      r := Success(WriteOne(at.value, model, idAttr, false));
      ops := ops + [r.value];
    }
  }
}
