/**
 * `createUpdateEntities`: the two lookups that `prepareEntityData` is given
 * (the target's copy of a media file, the target's copy of a related
 * entity) and the checks made before the entities are written: the batch
 * is reconciled with the target's default locale, an empty batch stops the
 * transfer, a batch whose size changed is reported.
 */
module Transfer {
  import opened Values
  import opened Collections
  import opened Schema
  import opened Prepare
  import opened Remote
  import opened Locales

  // ---------------------------------------------------------------------------
  // getNewMediaFile

  /** `_.matches({ [k]: target })`: equal under `k`, and an undefined target only matches a key that is present. */
  predicate MatchesProp(f: Value, k: string, target: Value)
  {
    Get(f, k) == target && (target != Undef || Has(f, k))
  }

  /** Only an object can match. */
  lemma MatchesObject(f: Value, k: string, target: Value)
    requires MatchesProp(f, k, target)
    ensures Has(f, k) && f.Obj? && Truthy(f)
  {
  }

  /** `_.find(files, { [k]: target })`: the first matching file, or undefined. */
  function FindByProp(files: seq<Value>, k: string, target: Value): (r: Value)
    ensures r != Undef ==> exists i :: 0 <= i < |files| && files[i] == r && MatchesProp(r, k, target)
                                      && forall j :: 0 <= j < i ==> !MatchesProp(files[j], k, target)
    ensures (forall i :: 0 <= i < |files| ==> !MatchesProp(files[i], k, target)) <==> r == Undef
  {
    if files == [] then Undef
    else if MatchesProp(files[0], k, target) then files[0]
    else
      var r := FindByProp(files[1..], k, target);
      assert forall i :: 1 <= i < |files| ==> files[i] == files[1..][i - 1];
      FirstMatchTail(files, f => MatchesProp(f, k, target), r);
      r
  }

  /** `getNewMediaFile(fileId, fileName)`: the uploaded or reused file recorded for the local id, else one with the same name. */
  function GetNewMediaFile(files: seq<Value>, fileId: Value, fileName: Value): (r: Value)
    ensures Truthy(FindByProp(files, "localId", fileId)) ==> r == FindByProp(files, "localId", fileId)
    ensures (forall i :: 0 <= i < |files| ==> !MatchesProp(files[i], "localId", fileId)) ==> r == FindByProp(files, "name", fileName)
    ensures r != Undef ==> r in files && (MatchesProp(r, "localId", fileId) || MatchesProp(r, "name", fileName))
  {
    var byId := FindByProp(files, "localId", fileId);
    if Truthy(byId) then byId else FindByProp(files, "name", fileName)
  }

  // ---------------------------------------------------------------------------
  // getNewRelation

  /** A new relation stands for `val` in the collection `uid`: `r.oldId === val.id && uid === r.modelId`. */
  predicate StandsFor(r: Value, uid: string, val: Value)
  {
    Get(r, "oldId") == Get(val, "id") && Get(r, "modelId") == Str(uid)
  }

  /** The first new relation standing for `val`, or undefined. */
  function FindRelation(newRelations: seq<Value>, uid: string, val: Value): (r: Value)
    ensures r != Undef ==> r in newRelations && StandsFor(r, uid, val)
    ensures (exists i :: 0 <= i < |newRelations| && StandsFor(newRelations[i], uid, val)) ==>
      exists i :: 0 <= i < |newRelations| && newRelations[i] == r && StandsFor(newRelations[i], uid, val) && forall j :: 0 <= j < i ==> !StandsFor(newRelations[j], uid, val)
    ensures (forall i :: 0 <= i < |newRelations| ==> !StandsFor(newRelations[i], uid, val)) ==> r == Undef
  {
    if newRelations == [] then Undef
    else if StandsFor(newRelations[0], uid, val) then newRelations[0]
    else
      var r := FindRelation(newRelations[1..], uid, val);
      assert forall i :: 1 <= i < |newRelations| ==> newRelations[i] == newRelations[1..][i - 1];
      FirstMatchTail(newRelations, x => StandsFor(x, uid, val), r);
      r
  }

  const Bookkeeping: set<string> := {"oldId", "modelId"}

  /**
   * `_.omit(res, ['oldId', 'modelId'])`: a record with neither bookkeeping
   * key that keeps every other key of the relation.
   */
  function Stripped(res: Value): (r: Value)
    ensures r.Obj? && !Has(r, "oldId") && !Has(r, "modelId")
    ensures forall k :: k !in Bookkeeping ==> Get(r, k) == Get(Obj(Spread(res)), k)
  {
    NoRemovedKey(Spread(res), Bookkeeping, "oldId");
    NoRemovedKey(Spread(res), Bookkeeping, "modelId");
    forall k | k !in Bookkeeping
      ensures Get(Obj(RemoveKeys(Spread(res), Bookkeeping)), k) == Get(Obj(Spread(res)), k)
    {
      RemoveKeysGet(Spread(res), Bookkeeping, k);
    }
    Obj(RemoveKeys(Spread(res), Bookkeeping))
  }

  lemma NoRemovedKey(fs: seq<Field>, ks: set<string>, k: string)
    requires k in ks
    ensures !Has(Obj(RemoveKeys(fs, ks)), k)
  {
  }

  /** The `_.reduce`: the stripped new relation of each value that has one, in order. */
  function ResolveValues(newRelations: seq<Value>, uid: string, vals: seq<Value>): (r: seq<Value>)
    ensures |r| <= |vals|
    decreases |vals|
  {
    if vals == [] then []
    else
      var rest := ResolveValues(newRelations, uid, vals[..|vals| - 1]);
      var res := FindRelation(newRelations, uid, vals[|vals| - 1]);
      if Truthy(res) then rest + [Stripped(res)] else rest
  }

  /** No relation is lost: every value that has a new relation contributes it, stripped. */
  lemma {:induction false} ResolveValuesHas(newRelations: seq<Value>, uid: string, vals: seq<Value>, i: nat)
    requires i < |vals| && Truthy(FindRelation(newRelations, uid, vals[i]))
    ensures Stripped(FindRelation(newRelations, uid, vals[i])) in ResolveValues(newRelations, uid, vals)
    decreases |vals|
  {
    var n := |vals| - 1;
    if i == n {
      ResolveValuesLast(newRelations, uid, vals);
      assert ResolveValues(newRelations, uid, vals) ==
        ResolveValues(newRelations, uid, vals[..n]) + [Stripped(FindRelation(newRelations, uid, vals[n]))];
    } else {
      var front := vals[..n];
      assert front[i] == vals[i];
      ResolveValuesHas(newRelations, uid, front, i);
      ResolveValuesKeepsFront(newRelations, uid, vals, Stripped(FindRelation(newRelations, uid, vals[i])));
    }
  }

  /** What the values before the last one resolve to stays in the result. */
  lemma ResolveValuesKeepsFront(newRelations: seq<Value>, uid: string, vals: seq<Value>, x: Value)
    requires vals != [] && x in ResolveValues(newRelations, uid, vals[..|vals| - 1])
    ensures x in ResolveValues(newRelations, uid, vals)
  {
    ResolveValuesLast(newRelations, uid, vals);
  }

  /**
   * `getNewRelation(relationField, value)`. The result has the shape of the
   * value: a list for a list (empty when nothing resolves), and for a single
   * value the first resolved relation or null, which is the single value's
   * own relation.
   */
  function GetNewRelation(newRelations: seq<Value>, rf: RelationField, v: Value): (r: Value)
    ensures v.Arr? ==> r.Arr? && |r.items| <= |v.items|
    ensures v.Arr? ==> forall x :: x in r.items ==>
      exists val, res :: val in v.items && res in newRelations && StandsFor(res, rf.uid, val) && x == Stripped(res)
    ensures v.Arr? ==> forall i :: 0 <= i < |v.items| && Truthy(FindRelation(newRelations, rf.uid, v.items[i])) ==>
      Stripped(FindRelation(newRelations, rf.uid, v.items[i])) in r.items
    ensures !v.Arr? ==> (r == Null <==> !Truthy(FindRelation(newRelations, rf.uid, v)))
    ensures !v.Arr? && r != Null ==>
      r == Stripped(FindRelation(newRelations, rf.uid, v)) && StandsFor(FindRelation(newRelations, rf.uid, v), rf.uid, v)
  {
    var vals := if v.Arr? then v.items else [v];
    var found := ResolveValues(newRelations, rf.uid, vals);
    if v.Arr? then
      forall i | 0 <= i < |v.items| && Truthy(FindRelation(newRelations, rf.uid, v.items[i]))
        ensures Stripped(FindRelation(newRelations, rf.uid, v.items[i])) in found
      {
        ResolveValuesHas(newRelations, rf.uid, v.items, i);
      }
      forall x | x in found
        ensures exists val, res :: val in v.items && res in newRelations && StandsFor(res, rf.uid, val) && x == Stripped(res)
      {
        ResolveValuesSound(newRelations, rf.uid, v.items, x);
      }
      if found == [] then Arr([]) else Arr(found)
    else
      assert [v][..0] == [];
      if found == [] then Null else found[0]
  }

  /**
   * Every value resolved is a new relation of the descriptor's collection,
   * recorded for that value, without its bookkeeping keys; a value with no
   * new relation is dropped.
   */
  lemma {:induction false} ResolveValuesSound(newRelations: seq<Value>, uid: string, vals: seq<Value>, x: Value)
    requires x in ResolveValues(newRelations, uid, vals)
    ensures exists val, res :: val in vals && res in newRelations && StandsFor(res, uid, val) && x == Stripped(res)
    decreases |vals|
  {
    var n := |vals| - 1;
    var rest := ResolveValues(newRelations, uid, vals[..n]);
    var res := FindRelation(newRelations, uid, vals[n]);
    ResolveValuesLast(newRelations, uid, vals);
    if x in rest {
      ResolveValuesSound(newRelations, uid, vals[..n], x);
      var val, r :| val in vals[..n] && r in newRelations && StandsFor(r, uid, val) && x == Stripped(r);
      assert val in vals;
    } else {
      assert Truthy(res) && x == Stripped(res);
      assert vals[n] in vals && res in newRelations && StandsFor(res, uid, vals[n]);
    }
  }

  /** The reduction's last step. */
  lemma ResolveValuesLast(newRelations: seq<Value>, uid: string, vals: seq<Value>)
    requires vals != []
    ensures var n := |vals| - 1;
      var res := FindRelation(newRelations, uid, vals[n]);
      ResolveValues(newRelations, uid, vals) ==
        if Truthy(res) then ResolveValues(newRelations, uid, vals[..n]) + [Stripped(res)] else ResolveValues(newRelations, uid, vals[..n])
  {
  }

  /**
   * The reduction maps in order: the values of `xs + ys` give the results
   * of `xs` followed by those of `ys`. With `ResolveValuesSingle` this
   * determines the result from the values one by one.
   */
  lemma {:induction false} ResolveValuesAppend(newRelations: seq<Value>, uid: string, xs: seq<Value>, ys: seq<Value>)
    ensures ResolveValues(newRelations, uid, xs + ys) == ResolveValues(newRelations, uid, xs) + ResolveValues(newRelations, uid, ys)
    decreases |ys|
  {
    if ys == [] {
      assert xs + ys == xs;
    } else {
      var n := |ys| - 1;
      var front := ys[..n];
      var res := FindRelation(newRelations, uid, ys[n]);
      assert (xs + ys)[..|xs + ys| - 1] == xs + front;
      assert (xs + ys)[|xs + ys| - 1] == ys[n];
      ResolveValuesLast(newRelations, uid, xs + ys);
      ResolveValuesLast(newRelations, uid, ys);
      ResolveValuesAppend(newRelations, uid, xs, front);
      var p, q := ResolveValues(newRelations, uid, xs), ResolveValues(newRelations, uid, front);
      if Truthy(res) {
        assert p + q + [Stripped(res)] == p + (q + [Stripped(res)]);
      }
    }
  }

  /** A single value gives its stripped relation when it has one, and nothing otherwise. */
  lemma ResolveValuesSingle(newRelations: seq<Value>, uid: string, v: Value)
    ensures ResolveValues(newRelations, uid, [v]) ==
            (if Truthy(FindRelation(newRelations, uid, v)) then [Stripped(FindRelation(newRelations, uid, v))] else [])
  {
    assert [v][..0] == [];
  }

  /** A list of values resolves to the concatenation, in order, of the resolutions of its parts. */
  lemma GetNewRelationAppend(newRelations: seq<Value>, rf: RelationField, xs: seq<Value>, ys: seq<Value>)
    ensures GetNewRelation(newRelations, rf, Arr(xs + ys)).items ==
      GetNewRelation(newRelations, rf, Arr(xs)).items + GetNewRelation(newRelations, rf, Arr(ys)).items
  {
    ResolveValuesAppend(newRelations, rf.uid, xs, ys);
  }

  /** When every value has a new relation, each is resolved in place: the i-th result stands for the i-th value. */
  lemma ResolveValuesComplete(newRelations: seq<Value>, uid: string, vals: seq<Value>)
    requires forall i :: 0 <= i < |vals| ==> Truthy(FindRelation(newRelations, uid, vals[i]))
    ensures var r := ResolveValues(newRelations, uid, vals);
      |r| == |vals| && forall i :: 0 <= i < |vals| ==> r[i] == Stripped(FindRelation(newRelations, uid, vals[i]))
  {
    ResolveValuesLength(newRelations, uid, vals);
    forall i | 0 <= i < |vals| ensures ResolveValues(newRelations, uid, vals)[i] == Stripped(FindRelation(newRelations, uid, vals[i])) {
      ResolveValuesAt(newRelations, uid, vals, i);
    }
  }

  lemma {:induction false} ResolveValuesLength(newRelations: seq<Value>, uid: string, vals: seq<Value>)
    requires forall i :: 0 <= i < |vals| ==> Truthy(FindRelation(newRelations, uid, vals[i]))
    ensures |ResolveValues(newRelations, uid, vals)| == |vals|
    decreases |vals|
  {
    if vals != [] {
      var front := vals[..|vals| - 1];
      FrontResolves(newRelations, uid, vals);
      ResolveValuesLength(newRelations, uid, front);
    }
  }

  lemma {:induction false} ResolveValuesAt(newRelations: seq<Value>, uid: string, vals: seq<Value>, i: nat)
    requires forall i :: 0 <= i < |vals| ==> Truthy(FindRelation(newRelations, uid, vals[i]))
    requires i < |vals|
    ensures |ResolveValues(newRelations, uid, vals)| == |vals|
    ensures ResolveValues(newRelations, uid, vals)[i] == Stripped(FindRelation(newRelations, uid, vals[i]))
    decreases |vals|
  {
    var n := |vals| - 1;
    var front := vals[..n];
    FrontResolves(newRelations, uid, vals);
    ResolveValuesLength(newRelations, uid, front);
    ResolveValuesLength(newRelations, uid, vals);
    var rest := ResolveValues(newRelations, uid, front);
    var r := rest + [Stripped(FindRelation(newRelations, uid, vals[n]))];
    assert ResolveValues(newRelations, uid, vals) == r;
    if i < n {
      ResolveValuesAt(newRelations, uid, front, i);
      assert front[i] == vals[i] && r[i] == rest[i];
    } else {
      assert i == n && r[i] == Stripped(FindRelation(newRelations, uid, vals[n]));
    }
  }

  /** With the last value resolved, the result is the front's result and that value's relation. */
  lemma FrontResolves(newRelations: seq<Value>, uid: string, vals: seq<Value>)
    requires vals != []
    requires forall i :: 0 <= i < |vals| ==> Truthy(FindRelation(newRelations, uid, vals[i]))
    ensures var front := vals[..|vals| - 1];
      && (forall i :: 0 <= i < |front| ==> Truthy(FindRelation(newRelations, uid, front[i])))
      && ResolveValues(newRelations, uid, vals) == ResolveValues(newRelations, uid, front) + [Stripped(FindRelation(newRelations, uid, vals[|vals| - 1]))]
  {
    var front := vals[..|vals| - 1];
    forall i | 0 <= i < |front| ensures Truthy(FindRelation(newRelations, uid, front[i])) {
      assert front[i] == vals[i];
    }
  }
  /** A list whose every value has a new relation is resolved in full, in order. */
  lemma GetNewRelationComplete(newRelations: seq<Value>, rf: RelationField, vals: seq<Value>)
    requires vals != []
    requires forall i :: 0 <= i < |vals| ==> Truthy(FindRelation(newRelations, rf.uid, vals[i]))
    ensures var r := GetNewRelation(newRelations, rf, Arr(vals));
      r.Arr? && |r.items| == |vals| && forall i :: 0 <= i < |vals| ==> r.items[i] == Stripped(FindRelation(newRelations, rf.uid, vals[i]))
  {
    ResolveValuesComplete(newRelations, rf.uid, vals);
  }

  // ---------------------------------------------------------------------------
  // The lookups given to prepareEntityData

  /** The rewrite environment of `createUpdateEntities`. */
  function TransferEnv(rf: map<string, RelationField>, files: seq<Value>, newRelations: seq<Value>): Env
  {
    Env(rf, (fileId: Value, fileName: Value) => GetNewMediaFile(files, fileId, fileName),
        (d: RelationField, v: Value) => GetNewRelation(newRelations, d, v))
  }

  /**
   * A media object whose local id was recorded with an uploaded or reused
   * file is replaced by that file; with no file recorded under its id or
   * name, it is kept with its id cleared.
   */
  lemma MediaSwapUploaded(rf: map<string, RelationField>, files: seq<Value>, newRelations: seq<Value>, v: Value)
    requires IsMedia(v)
    ensures var r := MediaSwap(TransferEnv(rf, files, newRelations), v);
      && ((exists i :: 0 <= i < |files| && MatchesProp(files[i], "localId", Get(v, "id"))) ==>
            r in files && MatchesProp(r, "localId", Get(v, "id")))
      && ((forall i :: 0 <= i < |files| ==> !MatchesProp(files[i], "localId", Get(v, "id")) && !MatchesProp(files[i], "name", Get(v, "name"))) ==>
            r == Obj(SetField(v.fields, "id", Undef)))
  {
    var byId := FindByProp(files, "localId", Get(v, "id"));
    if byId != Undef {
      MatchesObject(byId, "localId", Get(v, "id"));
    }
  }

  // ---------------------------------------------------------------------------
  // Before the upsert loop

  /** The payload of `createUpdateEntities` that stops before the loop. */
  datatype Start =
    | Stopped(data: seq<Value>, errors: seq<ErrorItem>)
    | Proceeding(batch: seq<Value>, errors: seq<ErrorItem>)

  const NoEntities: ErrorItem := ErrorItem("There are no entities to transfer after locale preparation", None)

  function Mismatch(originalLen: nat, remoteLocaleLen: nat): ErrorItem
  {
    ErrorItem("There was a mismatch between original entities and entities by default remote locale: there are "
      + NatText(originalLen) + " original entities and " + NatText(remoteLocaleLen) + " default remote locale entities.", None)
  }

  /** The locales, the reconciled batch, then the two checks. */
  function StartTransfer(server: Server, localDefault: Value, entities: seq<Value>): (r: Call<Start>)
    ensures r.sent == [LocalesRequest]
  {
    var locales := GetDefaultLocales(server, 0, localDefault);
    var batch := PrepareEntitiesByDefaultLocale(entities, locales.value);
    if IsEmpty(Arr(batch)) then Call(Stopped([], [NoEntities]), locales.sent)
    else Call(Proceeding(batch, if |batch| != |entities| then [Mismatch(|entities|, |batch|)] else []), locales.sent)
  }

  /**
   * The transfer goes on exactly when the reconciled batch is not empty;
   * stopping gives no data and one error; going on reports a mismatch
   * exactly when the reconciled batch has a different size, with both sizes.
   */
  lemma StartTransferChecks(server: Server, localDefault: Value, entities: seq<Value>)
    ensures var info := GetDefaultLocales(server, 0, localDefault).value;
      var batch := PrepareEntitiesByDefaultLocale(entities, info);
      var r := StartTransfer(server, localDefault, entities).value;
      && (r.Stopped? <==> batch == [])
      && (r.Stopped? ==> r.data == [] && r.errors == [NoEntities])
      && (r.Proceeding? ==> r.batch == batch && |r.errors| <= 1)
      && (r.Proceeding? ==> (r.errors == [] <==> |batch| == |entities|))
      && (r.Proceeding? && r.errors != [] ==> r.errors == [Mismatch(|entities|, |batch|)])
  {
    var batch := PrepareEntitiesByDefaultLocale(entities, GetDefaultLocales(server, 0, localDefault).value);
    assert IsEmpty(Arr(batch)) <==> batch == [];
  }

  /**
   * With the same default locale on both sides, or without the target's
   * locale list, nothing is lost: a non-empty batch proceeds whole and
   * without a mismatch error.
   */
  lemma StartTransferWhole(server: Server, localDefault: Value, entities: seq<Value>)
    requires entities != []
    requires server(0, LocalesRequest).Err? || GetDefaultLocales(server, 0, localDefault).value.remoteDefault == localDefault
    ensures var r := StartTransfer(server, localDefault, entities).value;
      r.Proceeding? && r.errors == [] && |r.batch| == |entities|
      && (server(0, LocalesRequest).Err? ==> r.batch == entities)
  {
    if server(0, LocalesRequest).Err? {
      DefaultLocalesFallback(server, 0, localDefault, entities);
    }
  }

  /**
   * With different default locales, the batch shrinks, and the mismatch is
   * reported, exactly when some entity has a locale but no translation in
   * the target's default locale.
   */
  lemma StartTransferPromoted(server: Server, localDefault: Value, entities: seq<Value>)
    requires GetDefaultLocales(server, 0, localDefault).value.remoteDefault != localDefault
    ensures var info := GetDefaultLocales(server, 0, localDefault).value;
      var r := StartTransfer(server, localDefault, entities).value;
      && (r.Proceeding? ==> (r.errors == [] <==> forall i :: 0 <= i < |entities| ==> Promotable(info, entities[i])))
      && (r.Stopped? && entities != [] ==> exists i :: 0 <= i < |entities| && !Promotable(info, entities[i]))
  {
    var info := GetDefaultLocales(server, 0, localDefault).value;
    assert info.localDefault == localDefault;
    StartTransferChecks(server, localDefault, entities);
  }
}
