/**
 * The records a collection holds, in order, and the parts of Backbone's
 * collection that the adapter relies on: lookup by identifier, insertion of a
 * record whose identifier is new, and removal by identifier.
 */
module Records {
  import opened Wrappers
  import opened Attributes

  /**
   * A record in a collection: its attributes, its remote shadow
   * (`_remoteAttributes`), its `_remoteChanging` guard, and whether the model
   * instance Backbone built for it auto-syncs.
   */
  datatype Record = Record(attrs: Attrs, remote: Option<Attrs>, remoteChanging: bool, autoSync: bool)

  /** A fresh record Backbone builds for `attrs`, with no remote shadow yet. */
  function NewRecord(attrs: Attrs, autoSync: bool): Record
  {
    Record(attrs, None, false, autoSync)
  }

  /**
   * The notifications a collection emits, in order. `SetEvent` stands for
   * the `add`, `remove` and `update` notifications Backbone's `set` fires
   * for a fetched listing, taken together.
   */
  datatype Event = Added(id: Val) | Removed(id: Val) | SyncEvent | ResetEvent | SetEvent

  /** A record's `id`: its identifier attribute. */
  function IdOf(r: Record, idAttr: string): Option<Val>
  {
    Lookup(r.attrs, idAttr)
  }

  /** The identifier `model[idAttr]` of a JSON object; null stands for `undefined`. */
  function IdIn(m: Attrs, idAttr: string): Val
  {
    if idAttr in m then m[idAttr] else Null
  }

  /** Every record has an identifier, and no two records share one. */
  ghost predicate UniqueIds(models: seq<Record>, idAttr: string)
  {
    && (forall i :: 0 <= i < |models| ==> IdOf(models[i], idAttr).Some?)
    && (forall i, j :: 0 <= i < j < |models| ==> IdOf(models[i], idAttr) != IdOf(models[j], idAttr))
  }

  /** The position of the first record with identifier `id`, if any. */
  function Find(models: seq<Record>, id: Val, idAttr: string): (r: Option<nat>)
    ensures r.Some? ==> r.value < |models| && IdOf(models[r.value], idAttr) == Some(id)
    ensures r.Some? ==> forall i :: 0 <= i < r.value ==> IdOf(models[i], idAttr) != Some(id)
    ensures r.None? ==> forall i :: 0 <= i < |models| ==> IdOf(models[i], idAttr) != Some(id)
    decreases |models|
  {
    if models == [] then None
    else if IdOf(models[0], idAttr) == Some(id) then Some(0)
    else
      var rest := Find(models[1..], id, idAttr);
      if rest.Some? then Some(rest.value + 1) else None
  }

  /** Appending a record whose identifier is new keeps identifiers unique. */
  lemma AppendKeepsUnique(models: seq<Record>, r: Record, idAttr: string)
    requires UniqueIds(models, idAttr)
    requires IdOf(r, idAttr).Some? && Find(models, IdOf(r, idAttr).value, idAttr).None?
    ensures UniqueIds(models + [r], idAttr)
  {
  }

  /** Removing a record keeps identifiers unique, and its identifier is gone. */
  lemma RemoveKeepsUnique(models: seq<Record>, j: nat, idAttr: string)
    requires UniqueIds(models, idAttr) && j < |models|
    ensures UniqueIds(models[..j] + models[j + 1..], idAttr)
    ensures Find(models[..j] + models[j + 1..], IdOf(models[j], idAttr).value, idAttr).None?
  {
    var rest := models[..j] + models[j + 1..];
    assert forall i :: 0 <= i < |rest| ==> rest[i] == if i < j then models[i] else models[i + 1];
  }

  /**
   * Backbone's `add` of one record, without merging: a record whose
   * identifier the collection already holds is not added again. The second
   * component is the position of the record that holds the identifier.
   */
  function AddRecord(models: seq<Record>, rec: Record, idAttr: string): (r: (seq<Record>, nat))
    ensures |models| <= |r.0| && r.1 < |r.0| && r.0[..|models|] == models
    ensures IdOf(rec, idAttr).Some? ==> IdOf(r.0[r.1], idAttr) == IdOf(rec, idAttr)
    ensures |r.0| == |models| + 1 <==> IdOf(rec, idAttr).None? || Find(models, IdOf(rec, idAttr).value, idAttr).None?
    ensures |r.0| == |models| + 1 ==> r.0[r.1] == rec && r.1 == |models|
    ensures |r.0| != |models| + 1 ==> r.0 == models
  {
    var id := IdOf(rec, idAttr);
    if id.Some? && Find(models, id.value, idAttr).Some? then
      (models, Find(models, id.value, idAttr).value)
    else
      (models + [rec], |models|)
  }

  /** Adding keeps identifiers unique, and looking the identifier up finds the added (or kept) record. */
  lemma AddRecordKeepsUnique(models: seq<Record>, rec: Record, idAttr: string)
    requires UniqueIds(models, idAttr) && IdOf(rec, idAttr).Some?
    ensures UniqueIds(AddRecord(models, rec, idAttr).0, idAttr)
    ensures Find(AddRecord(models, rec, idAttr).0, IdOf(rec, idAttr).value, idAttr) == Some(AddRecord(models, rec, idAttr).1)
  {
    var (after, j) := AddRecord(models, rec, idAttr);
    if |after| == |models| + 1 {
      AppendKeepsUnique(models, rec, idAttr);
    }
    var f := Find(after, IdOf(rec, idAttr).value, idAttr);
    assert IdOf(after[j], idAttr) == IdOf(rec, idAttr);
    if f.None? {
      assert false;
    }
  }

  /** Replacing a record by one with the same identifier keeps identifiers unique and lookups unchanged. */
  lemma ReplaceKeepsIds(models: seq<Record>, j: nat, rec: Record, idAttr: string)
    requires j < |models| && IdOf(rec, idAttr) == IdOf(models[j], idAttr)
    ensures forall id :: Find(models[j := rec], id, idAttr) == Find(models, id, idAttr)
    ensures UniqueIds(models[j := rec], idAttr) <==> UniqueIds(models, idAttr)
  {
    assert SameIds(models, models[j := rec], idAttr);
    forall id
      ensures Find(models[j := rec], id, idAttr) == Find(models, id, idAttr)
    {
      SameIdsFind(models, models[j := rec], id, idAttr);
    }
    SameIdsFind(models, models[j := rec], Null, idAttr);
  }

  /**
   * Adding a record and then giving the record that holds its identifier the
   * remote shadow `shadow`: identifiers stay unique, the identifier is found at
   * the returned position, and either the shadowed record was appended or the
   * record already held only gained the shadow.
   */
  lemma AddThenShadow(models: seq<Record>, rec: Record, idAttr: string, shadow: Option<Attrs>)
    requires UniqueIds(models, idAttr) && IdOf(rec, idAttr).Some?
    ensures var (after, j) := AddRecord(models, rec, idAttr);
      var s := after[j := after[j].(remote := shadow)];
      && UniqueIds(s, idAttr)
      && Find(s, IdOf(rec, idAttr).value, idAttr) == Some(j)
      && s[j].remote == shadow
      && (Find(models, IdOf(rec, idAttr).value, idAttr).None? ==> s == models + [rec.(remote := shadow)] && j == |models|)
      && (Find(models, IdOf(rec, idAttr).value, idAttr).Some? ==>
            j == Find(models, IdOf(rec, idAttr).value, idAttr).value && s == models[j := models[j].(remote := shadow)])
  {
    var (after, j) := AddRecord(models, rec, idAttr);
    var s := after[j := after[j].(remote := shadow)];
    AddRecordKeepsUnique(models, rec, idAttr);
    SameIdsFind(after, s, IdOf(rec, idAttr).value, idAttr);
  }

  /**
   * Backbone's `remove` of the record with identifier `id`: that record goes,
   * the others keep their order; an unknown identifier changes nothing.
   */
  function RemoveRecord(models: seq<Record>, id: Val, idAttr: string): (r: seq<Record>)
    ensures Find(models, id, idAttr).None? ==> r == models
    ensures Find(models, id, idAttr).Some? ==> |r| == |models| - 1
    ensures Find(models, id, idAttr).Some? ==> var j := Find(models, id, idAttr).value;
      forall i :: 0 <= i < |r| ==> r[i] == if i < j then models[i] else models[i + 1]
  {
    var j := Find(models, id, idAttr);
    if j.None? then models else models[..j.value] + models[j.value + 1..]
  }

  /** No two records share an identifier; records without one may be many. */
  ghost predicate DistinctIds(models: seq<Record>, idAttr: string)
  {
    forall i, j :: 0 <= i < j < |models| && IdOf(models[i], idAttr).Some? ==> IdOf(models[i], idAttr) != IdOf(models[j], idAttr)
  }

  /**
   * Backbone's `set` of one record, merging: a record whose identifier the
   * collection already holds takes the new attributes over its own and keeps
   * its place; any other record is appended.
   */
  function MergeRecord(models: seq<Record>, rec: Record, idAttr: string): (r: seq<Record>)
    ensures |r| == |models| + 1 <==> IdOf(rec, idAttr).None? || Find(models, IdOf(rec, idAttr).value, idAttr).None?
    ensures |r| == |models| + 1 ==> r == models + [rec]
    ensures |r| != |models| + 1 ==> var j := Find(models, IdOf(rec, idAttr).value, idAttr).value;
      && |r| == |models| && SameIds(models, r, idAttr)
      && r[j] == models[j].(attrs := models[j].attrs + rec.attrs)
      && forall i :: 0 <= i < |r| && i != j ==> r[i] == models[i]
  {
    var id := IdOf(rec, idAttr);
    if id.Some? && Find(models, id.value, idAttr).Some? then
      var j := Find(models, id.value, idAttr).value;
      models[j := models[j].(attrs := models[j].attrs + rec.attrs)]
    else
      models + [rec]
  }

  /** Backbone's `add` of the records `recs`, first to last, without merging. */
  function AddAll(models: seq<Record>, recs: seq<Record>, idAttr: string): seq<Record>
    decreases |recs|
  {
    if recs == [] then models
    else AddRecord(AddAll(models, recs[..|recs| - 1], idAttr), recs[|recs| - 1], idAttr).0
  }

  /** Backbone's `set` of the records `recs`, first to last, merging into held records. */
  function SetAll(models: seq<Record>, recs: seq<Record>, idAttr: string): seq<Record>
    decreases |recs|
  {
    if recs == [] then models
    else MergeRecord(SetAll(models, recs[..|recs| - 1], idAttr), recs[|recs| - 1], idAttr)
  }

  /** Appending to a list in which an identifier is found leaves its lookup unchanged. */
  lemma FindAppend(models: seq<Record>, rec: Record, id: Val, idAttr: string)
    requires Find(models, id, idAttr).Some?
    ensures Find(models + [rec], id, idAttr) == Find(models, id, idAttr)
  {
    var j := Find(models, id, idAttr).value;
    var f := Find(models + [rec], id, idAttr);
    assert (models + [rec])[j] == models[j];
  }

  /**
   * Adding one record keeps at most one record per identifier, keeps every
   * identifier found, and finds the added record's identifier.
   */
  lemma AddRecordKeepsDistinct(models: seq<Record>, rec: Record, idAttr: string)
    requires DistinctIds(models, idAttr)
    ensures var r := AddRecord(models, rec, idAttr).0;
      && DistinctIds(r, idAttr)
      && (forall id :: Find(models, id, idAttr).Some? ==> Find(r, id, idAttr).Some?)
      && (IdOf(rec, idAttr).Some? ==> Find(r, IdOf(rec, idAttr).value, idAttr).Some?)
  {
    var r := AddRecord(models, rec, idAttr).0;
    if |r| == |models| + 1 {
      forall i, j | 0 <= i < j < |r| && IdOf(r[i], idAttr).Some?
        ensures IdOf(r[i], idAttr) != IdOf(r[j], idAttr)
      {
        if j == |models| && IdOf(rec, idAttr).Some? {
          assert Find(models, IdOf(rec, idAttr).value, idAttr).None?;
        }
      }
      forall id | Find(models, id, idAttr).Some? ensures Find(r, id, idAttr).Some? {
        FindAppend(models, rec, id, idAttr);
      }
      if IdOf(rec, idAttr).Some? {
        assert r[|models|] == rec;
      }
    }
  }

  /**
   * `add` of a list keeps the held records in front and at most one record
   * per identifier; every record after them comes from the list, and every
   * identifier of the list is found. So a listing with a repeated identifier
   * yields one record for it.
   */
  lemma {:induction false} AddAllKeepsOnePerId(models: seq<Record>, recs: seq<Record>, idAttr: string)
    requires DistinctIds(models, idAttr)
    ensures var r := AddAll(models, recs, idAttr);
      && |models| <= |r| <= |models| + |recs| && r[..|models|] == models
      && DistinctIds(r, idAttr)
      && (forall i :: |models| <= i < |r| ==> r[i] in recs)
      && (forall i :: 0 <= i < |recs| && IdOf(recs[i], idAttr).Some? ==> Find(r, IdOf(recs[i], idAttr).value, idAttr).Some?)
    decreases |recs|
  {
    if recs != [] {
      var init := recs[..|recs| - 1];
      var last := recs[|recs| - 1];
      AddAllKeepsOnePerId(models, init, idAttr);
      var prev := AddAll(models, init, idAttr);
      AddRecordKeepsDistinct(prev, last, idAttr);
      var r := AddAll(models, recs, idAttr);
      assert r == AddRecord(prev, last, idAttr).0;
      assert r[..|models|] == models by {
        assert r[..|prev|] == prev;
      }
      forall i | 0 <= i < |recs| && IdOf(recs[i], idAttr).Some?
        ensures Find(r, IdOf(recs[i], idAttr).value, idAttr).Some?
      {
        if i < |init| {
          assert recs[i] == init[i];
        }
      }
      forall i | |models| <= i < |r| ensures r[i] in recs {
        if i < |prev| {
          assert r[i] == prev[i] && prev[i] in init;
        }
      }
    }
  }

  /**
   * Merging one record keeps at most one record per identifier, keeps every
   * identifier found, and finds the merged record's identifier.
   */
  lemma MergeRecordKeepsDistinct(models: seq<Record>, rec: Record, idAttr: string)
    requires DistinctIds(models, idAttr)
    ensures var r := MergeRecord(models, rec, idAttr);
      && DistinctIds(r, idAttr)
      && (forall id :: Find(models, id, idAttr).Some? ==> Find(r, id, idAttr).Some?)
      && (IdOf(rec, idAttr).Some? ==> Find(r, IdOf(rec, idAttr).value, idAttr).Some?)
  {
    var r := MergeRecord(models, rec, idAttr);
    if |r| == |models| + 1 {
      forall i, j | 0 <= i < j < |r| && IdOf(r[i], idAttr).Some?
        ensures IdOf(r[i], idAttr) != IdOf(r[j], idAttr)
      {
        if j == |models| && IdOf(rec, idAttr).Some? {
          assert Find(models, IdOf(rec, idAttr).value, idAttr).None?;
        }
      }
      forall id | Find(models, id, idAttr).Some? ensures Find(r, id, idAttr).Some? {
        FindAppend(models, rec, id, idAttr);
      }
      if IdOf(rec, idAttr).Some? {
        assert r[|models|] == rec;
      }
    } else {
      forall id ensures Find(models, id, idAttr) == Find(r, id, idAttr) {
        SameIdsFind(models, r, id, idAttr);
      }
    }
  }

  /**
   * `set` of a list (merging) keeps at most one record per identifier, adds
   * at most one record per listed record, and every identifier of the list
   * is found.
   */
  lemma {:induction false} SetAllKeepsOnePerId(models: seq<Record>, recs: seq<Record>, idAttr: string)
    requires DistinctIds(models, idAttr)
    ensures var r := SetAll(models, recs, idAttr);
      && |models| <= |r| <= |models| + |recs|
      && DistinctIds(r, idAttr)
      && (forall i :: 0 <= i < |recs| && IdOf(recs[i], idAttr).Some? ==> Find(r, IdOf(recs[i], idAttr).value, idAttr).Some?)
    decreases |recs|
  {
    if recs != [] {
      var init := recs[..|recs| - 1];
      var last := recs[|recs| - 1];
      SetAllKeepsOnePerId(models, init, idAttr);
      var prev := SetAll(models, init, idAttr);
      MergeRecordKeepsDistinct(prev, last, idAttr);
      var r := SetAll(models, recs, idAttr);
      assert r == MergeRecord(prev, last, idAttr);
      forall i | 0 <= i < |recs| && IdOf(recs[i], idAttr).Some?
        ensures Find(r, IdOf(recs[i], idAttr).value, idAttr).Some?
      {
        if i < |init| {
          assert recs[i] == init[i];
        }
      }
    }
  }

  /**
   * Two listed records with the same identifier: `add` keeps the first as it
   * is, `set` keeps one record carrying the second's attributes over the first's.
   */
  lemma RepeatedIdKeepsOne(a: Attrs, b: Attrs, autoSync: bool, idAttr: string)
    requires idAttr in a && idAttr in b && a[idAttr] == b[idAttr]
    ensures AddAll([], [NewRecord(a, autoSync), NewRecord(b, autoSync)], idAttr) == [NewRecord(a, autoSync)]
    ensures SetAll([], [NewRecord(a, autoSync), NewRecord(b, autoSync)], idAttr) == [NewRecord(a + b, autoSync)]
  {
    var ra, rb := NewRecord(a, autoSync), NewRecord(b, autoSync);
    var recs := [ra, rb];
    assert recs[..1] == [ra] && [ra][..0] == [];
    assert AddAll([], [ra], idAttr) == [ra];
    assert SetAll([], [ra], idAttr) == [ra];
    assert Find([ra], b[idAttr], idAttr) == Some(0);
  }

  /** Removing keeps identifiers unique, and afterwards the identifier is not found. */
  lemma RemoveRecordKeepsUnique(models: seq<Record>, id: Val, idAttr: string)
    requires UniqueIds(models, idAttr)
    ensures UniqueIds(RemoveRecord(models, id, idAttr), idAttr)
    ensures Find(RemoveRecord(models, id, idAttr), id, idAttr).None?
  {
    var j := Find(models, id, idAttr);
    if j.Some? {
      RemoveKeepsUnique(models, j.value, idAttr);
    }
  }

  /** The attributes of each record, in order (what `this.models` gives `_parseModels`). */
  function AttrsOf(models: seq<Record>): (r: seq<Attrs>)
    ensures |r| == |models| && forall i :: 0 <= i < |r| ==> r[i] == models[i].attrs
  {
    seq(|models|, i requires 0 <= i < |models| => models[i].attrs)
  }

  /** Two lists whose records carry the same identifiers, position by position. */
  ghost predicate SameIds(a: seq<Record>, b: seq<Record>, idAttr: string)
  {
    |a| == |b| && forall i :: 0 <= i < |a| ==> IdOf(a[i], idAttr) == IdOf(b[i], idAttr)
  }

  /** Lookup and uniqueness depend on the identifiers alone. */
  lemma {:induction false} SameIdsFind(a: seq<Record>, b: seq<Record>, id: Val, idAttr: string)
    requires SameIds(a, b, idAttr)
    ensures Find(a, id, idAttr) == Find(b, id, idAttr)
    ensures UniqueIds(a, idAttr) <==> UniqueIds(b, idAttr)
    decreases |a|
  {
    if a != [] {
      assert SameIds(a[1..], b[1..], idAttr) by {
        forall i | 0 <= i < |a| - 1 ensures IdOf(a[1..][i], idAttr) == IdOf(b[1..][i], idAttr) {
          assert a[1..][i] == a[i + 1] && b[1..][i] == b[i + 1];
        }
      }
      SameIdsFind(a[1..], b[1..], id, idAttr);
    }
  }
}
