/**
 * What both kinds of collection share (`FirebaseDBackbone.Collection`): the
 * identifier attribute, the cached collection reference, push-ids, and the
 * assignment of push-ids to records that have no identifier.
 */
module CollectionRefs {
  import opened Wrappers
  import opened Attributes
  import opened Remote
  import opened References

  /** `idAttribute()`: the model prototype's identifier attribute, or `'id'` when that is falsy. */
  function CollectionIdAttribute(prototypeId: Option<string>): (r: string)
    ensures r != ""
    ensures prototypeId.Some? && prototypeId.value != "" ==> r == prototypeId.value
  {
    if prototypeId.Some? && prototypeId.value != "" then prototypeId.value else "id"
  }

  /** The key of the `n`-th child reference `push()` creates; push-ids never repeat. */
  function PushKey(n: nat): (k: string)
    ensures |k| == n + 1 && k[0] == '-'
  {
    "-" + seq(n, _ => 'k')
  }

  /** Distinct pushes give distinct keys. */
  lemma PushKeysDistinct(m: nat, n: nat)
    requires m != n
    ensures PushKey(m) != PushKey(n)
  {
  }

  /** `m[idAttr] = m[idAttr] || key`: a falsy identifier is replaced by `key`. */
  function WithId(m: Attrs, idAttr: string, key: string): Attrs
  {
    if TruthyAt(m, idAttr) then m else m[idAttr := Str(key)]
  }

  /** How many of `ms` have a falsy identifier, and so take a push-id. */
  function MissingIds(ms: seq<Attrs>, idAttr: string): nat
  {
    if ms == [] then 0
    else MissingIds(ms[..|ms| - 1], idAttr) + (if TruthyAt(ms[|ms| - 1], idAttr) then 0 else 1)
  }

  /** Push-ids assigned in order, starting from the `next`-th one. */
  function AssignIds(ms: seq<Attrs>, next: nat, idAttr: string): (r: seq<Attrs>)
    ensures |r| == |ms|
    ensures forall i :: 0 <= i < |r| ==> TruthyAt(r[i], idAttr)
  {
    if ms == [] then []
    else
      var init := ms[..|ms| - 1];
      AssignIds(init, next, idAttr) + [WithId(ms[|ms| - 1], idAttr, PushKey(next + MissingIds(init, idAttr)))]
  }

  /**
   * Each record keeps its order and its other attributes; a truthy
   * identifier is kept, and a falsy one becomes the push-id numbered by the
   * falsy identifiers before it.
   */
  lemma {:induction false} AssignIdsAt(ms: seq<Attrs>, next: nat, idAttr: string, i: nat)
    requires i < |ms|
    ensures AssignIds(ms, next, idAttr)[i] == WithId(ms[i], idAttr, PushKey(next + MissingIds(ms[..i], idAttr)))
    ensures TruthyAt(AssignIds(ms, next, idAttr)[i], idAttr)
    decreases |ms|
  {
    var init := ms[..|ms| - 1];
    if i == |ms| - 1 {
      assert ms[..i] == init;
    } else {
      AssignIdsAt(init, next, idAttr, i);
      assert init[..i] == ms[..i];
      assert init[i] == ms[i];
    }
  }

  /** Counting falsy identifiers over a prefix one element longer. */
  lemma MissingIdsSnoc(ms: seq<Attrs>, i: nat, idAttr: string)
    requires i < |ms|
    ensures MissingIds(ms[..i + 1], idAttr) == MissingIds(ms[..i], idAttr) + (if TruthyAt(ms[i], idAttr) then 0 else 1)
  {
    assert ms[..i + 1][..i] == ms[..i];
  }

  /** Assigning push-ids to one more record extends the assignment by that record. */
  lemma AssignIdsSnoc(ms: seq<Attrs>, i: nat, next: nat, idAttr: string)
    requires i < |ms|
    ensures AssignIds(ms[..i + 1], next, idAttr)
      == AssignIds(ms[..i], next, idAttr) + [WithId(ms[i], idAttr, PushKey(next + MissingIds(ms[..i], idAttr)))]
  {
    assert ms[..i + 1][..i] == ms[..i];
  }

  /** A record with a falsy identifier means the batch needs a push-id. */
  lemma MissingIdsPositive(ms: seq<Attrs>, i: nat, idAttr: string)
    requires i < |ms| && !TruthyAt(ms[i], idAttr)
    ensures MissingIds(ms, idAttr) > 0
  {
    MissingIdsGrow(ms, i, |ms|, idAttr);
    assert ms[..|ms|] == ms;
  }

  /** Falsy identifiers before position `j` are at least those before an earlier `i`, plus `i` itself. */
  lemma {:induction false} MissingIdsGrow(ms: seq<Attrs>, i: nat, j: nat, idAttr: string)
    requires i < j <= |ms| && !TruthyAt(ms[i], idAttr)
    ensures MissingIds(ms[..j], idAttr) >= MissingIds(ms[..i], idAttr) + 1
    decreases j - i
  {
    MissingIdsSnoc(ms, j - 1, idAttr);
    if j - 1 > i {
      MissingIdsGrow(ms, i, j - 1, idAttr);
    }
  }

  /** With no falsy identifier in a prefix, its count is zero; a later falsy one is not counted yet. */
  lemma {:induction false} MissingIdsZero(ms: seq<Attrs>, i: nat, idAttr: string)
    requires i <= |ms|
    ensures MissingIds(ms[..i], idAttr) == 0 <==> forall k :: 0 <= k < i ==> TruthyAt(ms[k], idAttr)
    decreases i
  {
    if i > 0 {
      MissingIdsSnoc(ms, i - 1, idAttr);
      MissingIdsZero(ms, i - 1, idAttr);
    }
  }

  /** A single record keeps a truthy identifier or takes the `next`-th push-id. */
  lemma AssignIdsOne(m: Attrs, next: nat, idAttr: string)
    ensures AssignIds([m], next, idAttr) == [WithId(m, idAttr, PushKey(next))]
  {
    assert [m][..0] == [];
  }

  /** Records that take push-ids take distinct ones, numbered from `next`. */
  lemma AssignedIdsDistinct(ms: seq<Attrs>, next: nat, idAttr: string, i: nat, j: nat)
    requires i < j < |ms| && !TruthyAt(ms[i], idAttr) && !TruthyAt(ms[j], idAttr)
    ensures AssignIds(ms, next, idAttr)[i][idAttr] != AssignIds(ms, next, idAttr)[j][idAttr]
  {
    AssignIdsAt(ms, next, idAttr, i);
    AssignIdsAt(ms, next, idAttr, j);
    MissingIdsGrow(ms, i, j, idAttr);
    PushKeysDistinct(next + MissingIds(ms[..i], idAttr), next + MissingIds(ms[..j], idAttr));
  }

  /** The `models` argument of `add` and `remove`: one record (or a falsy value) or an array. */
  datatype ModelsArg = Single(model: Option<Attrs>) | Many(models: seq<Attrs>)

  /** Wrapping of `_parseModels`: one record in an array, a falsy one as none, an array copied. */
  function Wrap(arg: ModelsArg): (r: seq<Attrs>)
    ensures arg.Single? ==> |r| == (if arg.model.Some? then 1 else 0)
    ensures arg.Single? && arg.model.Some? ==> r == [arg.model.value]
    ensures arg.Many? ==> r == arg.models
  {
    match arg
    case Single(None) => []
    case Single(Some(m)) => [m]
    case Many(ms) => ms
  }

  /** The reference `ref()` ends with: the cached one, or else the one `url` resolves to. */
  function Resolved(cached: Option<Ref>, url: UrlProperty): (r: Option<Ref>)
    ensures cached.Some? ==> r == cached
    ensures cached.None? ==> (r.Some? <==> CollectionSetRef(url).Success?)
    ensures r.Some? ==> cached.Some? || CollectionSetRef(url) == Success(r.value)
  {
    if cached.Some? then cached else CollectionSetRef(url).ToOption()
  }

  /** Resolving again changes nothing, whether or not the first resolution succeeded. */
  lemma ResolvedIdempotent(cached: Option<Ref>, url: UrlProperty)
    ensures Resolved(Resolved(cached, url), url) == Resolved(cached, url)
  {
  }

  class CollectionRef {
    /** The collection's `url` property. */
    const url: UrlProperty
    /** `_ref`; None while it is still `undefined`. */
    var ref: Option<Ref>
    /** How many push-ids the collection reference has handed out. */
    var pushed: nat

    constructor (url: UrlProperty)
      ensures this.url == url && ref == None && pushed == 0
    {
      this.url := url;
      ref := None;
      pushed := 0;
    }

    /**
     * `ref(refresh)`: the cached reference unless there is none or a refresh
     * is asked for; then `_setRef` resolves `url`. The `_configureRef` call at
     * line 791 of the source names a method collections do not have; it is
     * taken to do nothing.
     */
    method Ref(refresh: bool) returns (r: Result<Ref, Error>)
      modifies this`ref
      ensures !refresh ==> ref == Resolved(old(ref), url) && (r.Success? <==> ref.Some?)
      ensures !refresh && r.Success? ==> r.value == ref.value
      ensures refresh ==> r == CollectionSetRef(url) && ref == (if r.Success? then Some(r.value) else old(ref))
      ensures r.Failure? ==> r.error == CollectionSetRef(url).error
    {
      if ref.None? || refresh {
        r := CollectionSetRef(url);
        if r.Success? {
          ref := Some(r.value);
        }
      } else {
        r := Success(ref.value);
      }
    }

    /** `_getKey(this.ref().push())`: resolves the reference if needed and takes the next push-id. */
    method Push() returns (r: Result<string, Error>)
      modifies this
      ensures ref == Resolved(old(ref), url) && (r.Success? <==> ref.Some?)
      ensures r.Success? ==> r.value == PushKey(old(pushed)) && pushed == old(pushed) + 1
      ensures r.Failure? ==> pushed == old(pushed) && r.error == CollectionSetRef(url).error
    {
      var at := Ref(false);
      if at.Failure? {
        return Failure(at.error);
      }
      r := Success(PushKey(pushed));
      pushed := pushed + 1;
    }

    /**
     * `model[idAttr] = model[idAttr] || _getKey(this.ref().push())`: a truthy
     * identifier is kept without touching the reference; otherwise the next
     * push-id is taken, which fails when the reference cannot be resolved.
     */
    method AssignId(model: Attrs, idAttr: string) returns (r: Result<Attrs, Error>)
      modifies this
      ensures ref == if TruthyAt(model, idAttr) then old(ref) else Resolved(old(ref), url)
      ensures r.Failure? <==> !TruthyAt(model, idAttr) && Resolved(old(ref), url).None?
      ensures r.Success? ==> r.value == WithId(model, idAttr, PushKey(old(pushed))) && TruthyAt(r.value, idAttr)
      ensures r.Success? ==> pushed == old(pushed) + if TruthyAt(model, idAttr) then 0 else 1
      ensures r.Failure? ==> pushed == old(pushed) && r.error == CollectionSetRef(url).error
    {
      if TruthyAt(model, idAttr) {
        return Success(model);
      }
      var key := Push();
      if key.Failure? {
        return Failure(key.error);
      }
      r := Success(model[idAttr := Str(key.value)]);
    }
  }
}
