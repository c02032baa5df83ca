/**
 * Attribute maps of records, the values they hold, and the few JavaScript
 * value rules the adapter relies on: truthiness (`a || b`), loose `!=`
 * between a present value and an absent key, and the errors it throws.
 */
module Attributes {
  import opened Wrappers

  /** An attribute value. Nested objects are not modelled; see README. */
  datatype Val = Null | Bool(b: bool) | Num(n: int) | Str(s: string)

  /** A record's attributes (also a JSON object sent to or read from the store). */
  type Attrs = map<string, Val>

  /** The errors the adapter throws synchronously. */
  datatype Error =
    | InvalidIdException   // a snapshot holds a primitive value
    | InvalidUrlType       // a `url` that is neither a string nor an object
    | ScriptError(cause: string)  // a ReferenceError or TypeError the script itself raises

  /** JavaScript truthiness of a value. */
  predicate Truthy(v: Val)
  {
    match v
    case Null => false
    case Bool(b) => b
    case Num(n) => n != 0
    case Str(s) => s != ""
  }

  /** `m[k]`, where an absent key reads as `undefined` (None). */
  function Lookup(m: Attrs, k: string): (r: Option<Val>)
    ensures r.Some? <==> k in m
    ensures r.Some? ==> r.value == m[k]
  {
    if k in m then Some(m[k]) else None
  }

  /** `m[k]` is truthy; `undefined` is falsy. */
  predicate TruthyAt(m: Attrs, k: string)
  {
    k in m && Truthy(m[k])
  }

  /**
   * `local != remote` under JavaScript's loose equality, where `remote` may be
   * `undefined`. Only `null == undefined` is modelled among the coercions.
   */
  predicate LooselyDiffers(local: Val, remote: Option<Val>)
  {
    match remote
    case None => local != Null
    case Some(r) => local != r
  }

  /** A map in which no key holds null: what the store keeps of a JSON object. */
  ghost predicate NoNulls(m: Attrs)
  {
    forall k :: k in m ==> m[k] != Null
  }

  /** The keys of `m` that do not hold null. */
  function StripNulls(m: Attrs): (r: Attrs)
    ensures NoNulls(r)
    ensures r.Keys <= m.Keys
    ensures forall k :: k in m && m[k] != Null ==> k in r && r[k] == m[k]
  {
    map k | k in m && m[k] != Null :: m[k]
  }
}
