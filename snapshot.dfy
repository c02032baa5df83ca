/**
 * The snapshot normaliser: `_isPrimitive` and `_checkId` turn the value and
 * key of a remote snapshot into the attribute map of a local record.
 */
module Snapshot {
  import opened Wrappers
  import opened Attributes

  /**
   * What `snap.val()` returns: a JSON scalar (`RawValue(Null)` is `null`) or
   * an object, given as its attribute map.
   */
  datatype Raw = RawValue(v: Val) | RawObject(fields: Attrs)

  /** A data snapshot: its value and its key (`snap.key`). */
  datatype Snap = Snap(value: Raw, key: string)

  /** `_isPrimitive`: neither an object nor null. */
  function IsPrimitive(raw: Raw): (r: bool)
    ensures r <==> raw.RawValue? && (raw.v.Bool? || raw.v.Num? || raw.v.Str?)
  {
    !raw.RawObject? && raw != RawValue(Null)
  }

  /**
   * `_checkId`: a primitive is refused, null becomes an empty record, and the
   * snapshot key is written over whatever the payload holds under `idAttr`.
   */
  function CheckId(snap: Snap, idAttr: string): (r: Result<Attrs, Error>)
    ensures r.Failure? <==> IsPrimitive(snap.value)
    ensures r.Failure? ==> r.error == InvalidIdException
    ensures snap.value == RawValue(Null) ==> r == Success(map[idAttr := Str(snap.key)])
    ensures snap.value.RawObject? ==>
      && r.Success?
      && r.value.Keys == snap.value.fields.Keys + {idAttr}
      && r.value[idAttr] == Str(snap.key)
      && (forall k :: k in snap.value.fields && k != idAttr ==> r.value[k] == snap.value.fields[k])
  {
    if IsPrimitive(snap.value) then
      Failure(InvalidIdException)
    else
      var model := if snap.value.RawObject? then snap.value.fields else map[];
      Success(model[idAttr := Str(snap.key)])
  }

  /** Normalising the snapshot of a normalised record gives the record back. */
  lemma NormaliseIdempotent(snap: Snap, idAttr: string)
    requires CheckId(snap, idAttr).Success?
    ensures CheckId(Snap(RawObject(CheckId(snap, idAttr).value), snap.key), idAttr)
            == CheckId(snap, idAttr)
  {
    var m := CheckId(snap, idAttr).value;
    assert m[idAttr := Str(snap.key)] == m;
  }
}
