/**
 * The two collectors that run before a transfer: every media file an entity
 * uses (`getAllEntityMedia`) and, per related content type, every related
 * entity a batch of entities points at (`getEntitiesRelationValues`).
 */
module Collect {
  import opened Values
  import opened Collections
  import opened Schema

  // ---------------------------------------------------------------------------
  // getAllEntityMedia

  /** What one entry contributes: itself when it is media, its own media when it is another non-scalar. */
  function MediaStep(v: Value): seq<Value>
    decreases Size(v), 2
  {
    if IsMedia(v) then [v] else if IsObject(v) then AllMedia(v) else []
  }

  /** The contributions of the entries, in order. */
  function CollectMedia(xs: seq<Value>): seq<Value>
    decreases ItemsSize(xs), 3
  {
    if xs == [] then [] else MediaStep(xs[0]) + CollectMedia(xs[1..])
  }

  /** `getAllEntityMedia(entity)`. */
  function AllMedia(v: Value): (r: seq<Value>)
    ensures UniqueBy(r, IdOf)
    decreases Size(v), 1
  {
    ElementsSize(v);
    var all := CollectMedia(Elements(v));
    UniqByUnique(all, IdOf);
    UniqBy(all, IdOf)
  }

  /** `m` is a media object reached from `v` through non-scalars that are not media. */
  ghost predicate HoldsMedia(v: Value, m: Value)
    decreases v, 0
  {
    match v
    case Obj(fs) => exists j :: 0 <= j < |fs| && MediaAt(fs[j].val, m)
    case Arr(xs) => exists j :: 0 <= j < |xs| && MediaAt(xs[j], m)
    case _ => false
  }

  ghost predicate MediaAt(e: Value, m: Value)
    decreases e, 1
  {
    if IsMedia(e) then e == m else HoldsMedia(e, m)
  }

  /** The entries of `v` that `HoldsMedia` looks at are the ones the reduction iterates over. */
  lemma HoldsMediaElements(v: Value, m: Value)
    ensures HoldsMedia(v, m) <==> exists j :: 0 <= j < |Elements(v)| && MediaAt(Elements(v)[j], m)
  {
    if v.Obj? {
      var es := Elements(v);
      assert forall j :: 0 <= j < |es| ==> es[j] == v.fields[j].val;
      if HoldsMedia(v, m) {
        var j :| 0 <= j < |v.fields| && MediaAt(v.fields[j].val, m);
        assert MediaAt(es[j], m);
      }
      if exists j :: 0 <= j < |es| && MediaAt(es[j], m) {
        var j :| 0 <= j < |es| && MediaAt(es[j], m);
        assert MediaAt(v.fields[j].val, m);
      }
    } else if v.Arr? {
      assert Elements(v) == v.items;
    } else {
      assert Elements(v) == [];
    }
  }

  lemma {:induction false} MediaStepSound(v: Value, x: Value)
    requires x in MediaStep(v)
    ensures IsMedia(x) && MediaAt(v, x)
    decreases Size(v), 2
  {
    if !IsMedia(v) {
      AllMediaSound(v, x);
    }
  }

  lemma {:induction false} CollectMediaSound(xs: seq<Value>, x: Value)
    requires x in CollectMedia(xs)
    ensures IsMedia(x) && exists j :: 0 <= j < |xs| && MediaAt(xs[j], x)
    decreases ItemsSize(xs), 3
  {
    if x in MediaStep(xs[0]) {
      MediaStepSound(xs[0], x);
    } else {
      CollectMediaSound(xs[1..], x);
      var j :| 0 <= j < |xs[1..]| && MediaAt(xs[1..][j], x);
      assert xs[1..][j] == xs[j + 1];
    }
  }

  /** Everything returned is a media object of the entity. */
  lemma {:induction false} AllMediaSound(v: Value, x: Value)
    requires x in AllMedia(v)
    ensures IsMedia(x) && HoldsMedia(v, x)
    decreases Size(v), 1
  {
    ElementsSize(v);
    CollectMediaSound(Elements(v), x);
    HoldsMediaElements(v, x);
  }

  lemma {:induction false} MediaStepComplete(v: Value, m: Value)
    requires MediaAt(v, m)
    ensures KeyIn(MediaStep(v), IdOf, IdOf(m))
    decreases Size(v), 2
  {
    if IsMedia(v) {
      assert MediaStep(v)[0] == m;
    } else {
      AllMediaComplete(v, m);
    }
  }

  lemma {:induction false} CollectMediaComplete(xs: seq<Value>, j: nat, m: Value)
    requires j < |xs| && MediaAt(xs[j], m)
    ensures KeyIn(CollectMedia(xs), IdOf, IdOf(m))
    decreases ItemsSize(xs), 3
  {
    KeyInConcat(MediaStep(xs[0]), CollectMedia(xs[1..]), IdOf, IdOf(m));
    if j == 0 {
      MediaStepComplete(xs[0], m);
    } else {
      assert xs[1..][j - 1] == xs[j];
      CollectMediaComplete(xs[1..], j - 1, m);
    }
  }

  /** Every media object of the entity is represented by one with its id. */
  lemma {:induction false} AllMediaComplete(v: Value, m: Value)
    requires HoldsMedia(v, m)
    ensures KeyIn(AllMedia(v), IdOf, IdOf(m))
    decreases Size(v), 1
  {
    ElementsSize(v);
    HoldsMediaElements(v, m);
    var j :| 0 <= j < |Elements(v)| && MediaAt(Elements(v)[j], m);
    CollectMediaComplete(Elements(v), j, m);
    UniqByKeys(CollectMedia(Elements(v)), IdOf, IdOf(m));
  }

  /** The collected media: exactly the entity's media objects, one per id. */
  lemma AllMediaExact(v: Value, id: Value)
    ensures forall x :: x in AllMedia(v) ==> IsMedia(x) && HoldsMedia(v, x)
    ensures KeyIn(AllMedia(v), IdOf, id) <==> exists m :: HoldsMedia(v, m) && IdOf(m) == id
    ensures UniqueBy(AllMedia(v), IdOf)
  {
    forall x | x in AllMedia(v) ensures IsMedia(x) && HoldsMedia(v, x) {
      AllMediaSound(v, x);
    }
    if KeyIn(AllMedia(v), IdOf, id) {
      var j :| 0 <= j < |AllMedia(v)| && IdOf(AllMedia(v)[j]) == id;
      AllMediaSound(v, AllMedia(v)[j]);
    }
    if exists m :: HoldsMedia(v, m) && IdOf(m) == id {
      var m :| HoldsMedia(v, m) && IdOf(m) == id;
      AllMediaComplete(v, m);
    }
  }

  // ---------------------------------------------------------------------------
  // getEntitiesRelationValues

  /** Related entities per target content type. */
  type RelationValues = map<string, seq<Value>>

  /** `acc[uid] ?? []` */
  function Lookup(m: RelationValues, uid: string): seq<Value>
  {
    if uid in m then m[uid] else []
  }

  /** `_.mergeWith(a, b, mergeVals)`: a key of `b` gets the union, by id, of both lists. */
  function Merge(a: RelationValues, b: RelationValues): (r: RelationValues)
    ensures r.Keys == a.Keys + b.Keys
  {
    map k | k in a.Keys + b.Keys :: if k in b then UniqBy(Lookup(a, k) + b[k], IdOf) else a[k]
  }

  /** `acc[uid] = _.uniqBy(_.concat(acc[uid] ?? [], vals), 'id')` */
  function Upsert(a: RelationValues, uid: string, vals: seq<Value>): (r: RelationValues)
    ensures r.Keys == a.Keys + {uid}
  {
    a[uid := UniqBy(Lookup(a, uid) + vals, IdOf)]
  }

  /** A relation value as a list: arrays as they are, a single entity wrapped. */
  function AsList(v: Value): seq<Value>
  {
    if v.Arr? then v.items else [v]
  }

  /** One entry of the reduction at path `full`. */
  function RelationEntry(rf: map<string, RelationField>, v: Value, full: string, acc: RelationValues): RelationValues
    decreases Size(v), 2
  {
    if !IsObject(v) then acc
    else if full != "" && full in rf then Upsert(acc, rf[full].uid, AsList(v))
    else Merge(acc, WalkValue(rf, v, ChildPath(full, v)))
  }

  /** The inner `recurDataFn(value, parentKey)`. */
  function WalkValue(rf: map<string, RelationField>, v: Value, path: string): RelationValues
    decreases Size(v), 1
  {
    match v
    case Obj(fs) => WalkFields(rf, fs, path, map[])
    case Arr(xs) => WalkItems(rf, xs, path, map[])
    case _ => map[]
  }

  function WalkFields(rf: map<string, RelationField>, fs: seq<Field>, path: string, acc: RelationValues): RelationValues
    decreases FieldsSize(fs), 3
  {
    if fs == [] then acc
    else WalkFields(rf, fs[1..], path, RelationEntry(rf, fs[0].val, JoinPath(path, fs[0].key), acc))
  }

  function WalkItems(rf: map<string, RelationField>, xs: seq<Value>, path: string, acc: RelationValues): RelationValues
    decreases ItemsSize(xs), 3
  {
    if xs == [] then acc
    else WalkItems(rf, xs[1..], path, RelationEntry(rf, xs[0], path, acc))
  }

  /** `val.localizations ?? []`, as the reduction iterates it. */
  function Locs(e: Value): (r: seq<Value>)
    ensures ItemsSize(r) < Size(e)
  {
    ElementsSize(Get(e, "localizations"));
    Elements(Get(e, "localizations"))
  }

  /** The outer reduction over the entities, from accumulator `acc`. */
  function RelationValuesFrom(rf: map<string, RelationField>, es: seq<Value>, acc: RelationValues): RelationValues
    decreases ItemsSize(es), 1, 0
  {
    if es == [] then acc
    else
      var own := Merge(WalkValue(rf, es[0], ""), EntitiesRelationValues(rf, Locs(es[0])));
      RelationValuesFrom(rf, es[1..], Merge(acc, own))
  }

  /** `getEntitiesRelationValues(entities, relationFields)`: no collected list holds two entities with the same id. */
  function EntitiesRelationValues(rf: map<string, RelationField>, es: seq<Value>): (r: RelationValues)
    ensures UniqueLists(r)
    decreases ItemsSize(es), 2
  {
    RelationValuesFromUnique(rf, es, map[]);
    RelationValuesFrom(rf, es, map[])
  }

  // The reference reading: which ids sit at relation paths for which target.

  /** Some entry of `v`, reached at `path`, refers to an entity of `uid` with id `id`. */
  ghost predicate RefersIn(rf: map<string, RelationField>, v: Value, path: string, uid: string, id: Value)
    decreases v, 0
  {
    match v
    case Obj(fs) => exists j :: 0 <= j < |fs| && RefersAt(rf, fs[j].val, JoinPath(path, fs[j].key), uid, id)
    case Arr(xs) => exists j :: 0 <= j < |xs| && RefersAt(rf, xs[j], path, uid, id)
    case _ => false
  }

  /** The entry `e` at path `full` is, or contains, such a reference; relation values are not looked into. */
  ghost predicate RefersAt(rf: map<string, RelationField>, e: Value, full: string, uid: string, id: Value)
    decreases e, 1
  {
    && IsObject(e)
    && if full != "" && full in rf then
         rf[full].uid == uid && (if e.Arr? then KeyIn(e.items, IdOf, id) else IdOf(e) == id)
       else RefersIn(rf, e, ChildPath(full, e), uid, id)
  }

  /** Some entity of `es`, or of their localizations at any depth, refers to `id` of `uid`. */
  ghost predicate EntitiesRefer(rf: map<string, RelationField>, es: seq<Value>, uid: string, id: Value)
    decreases ItemsSize(es), 1
  {
    ItemsBound(es);
    exists i :: 0 <= i < |es| && EntityRefers(rf, es[i], uid, id)
  }

  ghost predicate EntityRefers(rf: map<string, RelationField>, e: Value, uid: string, id: Value)
    decreases Size(e), 0
  {
    RefersIn(rf, e, "", uid, id) || EntitiesRefer(rf, Locs(e), uid, id)
  }

  // Lemmas

  lemma MergeKeyIn(a: RelationValues, b: RelationValues, uid: string, id: Value)
    ensures KeyIn(Lookup(Merge(a, b), uid), IdOf, id) <==> KeyIn(Lookup(a, uid), IdOf, id) || KeyIn(Lookup(b, uid), IdOf, id)
  {
    if uid in b {
      UniqByKeys(Lookup(a, uid) + b[uid], IdOf, id);
      KeyInConcat(Lookup(a, uid), b[uid], IdOf, id);
    }
  }

  lemma UpsertKeyIn(a: RelationValues, uid: string, vals: seq<Value>, k: string, id: Value)
    ensures KeyIn(Lookup(Upsert(a, uid, vals), k), IdOf, id) <==> KeyIn(Lookup(a, k), IdOf, id) || (k == uid && KeyIn(vals, IdOf, id))
  {
    if k == uid {
      UniqByKeys(Lookup(a, uid) + vals, IdOf, id);
      KeyInConcat(Lookup(a, uid), vals, IdOf, id);
    }
  }

  lemma {:induction false} RelationEntryRefers(rf: map<string, RelationField>, v: Value, full: string, acc: RelationValues, uid: string, id: Value)
    ensures KeyIn(Lookup(RelationEntry(rf, v, full, acc), uid), IdOf, id) <==> KeyIn(Lookup(acc, uid), IdOf, id) || RefersAt(rf, v, full, uid, id)
    decreases Size(v), 2
  {
    if IsObject(v) {
      if full != "" && full in rf {
        RelationEntryDirect(rf, v, full, acc, uid, id);
      } else {
        var inner := WalkValue(rf, v, ChildPath(full, v));
        assert RelationEntry(rf, v, full, acc) == Merge(acc, inner);
        MergeKeyIn(acc, inner, uid, id);
        WalkValueRefers(rf, v, ChildPath(full, v), uid, id);
      }
    }
  }

  /** A value at a relation path is itself the reference: a single entity, or an array of them. */
  lemma RelationEntryDirect(rf: map<string, RelationField>, v: Value, full: string, acc: RelationValues, uid: string, id: Value)
    requires IsObject(v) && full != "" && full in rf
    ensures KeyIn(Lookup(RelationEntry(rf, v, full, acc), uid), IdOf, id) <==> KeyIn(Lookup(acc, uid), IdOf, id) || RefersAt(rf, v, full, uid, id)
  {
    var d := rf[full];
    assert RelationEntry(rf, v, full, acc) == Upsert(acc, d.uid, AsList(v));
    UpsertKeyIn(acc, d.uid, AsList(v), uid, id);
    AsListKeyIn(v, id);
    assert RefersAt(rf, v, full, uid, id) <==> d.uid == uid && (if v.Arr? then KeyIn(v.items, IdOf, id) else IdOf(v) == id);
  }

  lemma AsListKeyIn(v: Value, id: Value)
    ensures KeyIn(AsList(v), IdOf, id) <==> if v.Arr? then KeyIn(v.items, IdOf, id) else IdOf(v) == id
  {
    if !v.Arr? {
      assert AsList(v)[0] == v;
    }
  }

  /** The inner walk finds exactly the references inside the value. */
  lemma {:induction false} WalkValueRefers(rf: map<string, RelationField>, v: Value, path: string, uid: string, id: Value)
    ensures KeyIn(Lookup(WalkValue(rf, v, path), uid), IdOf, id) <==> RefersIn(rf, v, path, uid, id)
    decreases Size(v), 1
  {
    match v
    case Obj(fs) => WalkFieldsRefers(rf, fs, path, map[], uid, id);
    case Arr(xs) => WalkItemsRefers(rf, xs, path, map[], uid, id);
    case _ =>
  }

  lemma {:induction false} WalkFieldsRefers(rf: map<string, RelationField>, fs: seq<Field>, path: string, acc: RelationValues, uid: string, id: Value)
    ensures KeyIn(Lookup(WalkFields(rf, fs, path, acc), uid), IdOf, id) <==>
      KeyIn(Lookup(acc, uid), IdOf, id) || exists j :: 0 <= j < |fs| && RefersAt(rf, fs[j].val, JoinPath(path, fs[j].key), uid, id)
    decreases FieldsSize(fs), 3
  {
    if fs != [] {
      var next := RelationEntry(rf, fs[0].val, JoinPath(path, fs[0].key), acc);
      RelationEntryRefers(rf, fs[0].val, JoinPath(path, fs[0].key), acc, uid, id);
      WalkFieldsRefers(rf, fs[1..], path, next, uid, id);
      assert forall j :: 0 <= j < |fs[1..]| ==> fs[1..][j] == fs[j + 1];
      if exists j :: 0 <= j < |fs| && RefersAt(rf, fs[j].val, JoinPath(path, fs[j].key), uid, id) {
        var j :| 0 <= j < |fs| && RefersAt(rf, fs[j].val, JoinPath(path, fs[j].key), uid, id);
        if j > 0 {
          assert fs[1..][j - 1] == fs[j];
        }
      }
    }
  }

  lemma {:induction false} WalkItemsRefers(rf: map<string, RelationField>, xs: seq<Value>, path: string, acc: RelationValues, uid: string, id: Value)
    ensures KeyIn(Lookup(WalkItems(rf, xs, path, acc), uid), IdOf, id) <==>
      KeyIn(Lookup(acc, uid), IdOf, id) || exists j :: 0 <= j < |xs| && RefersAt(rf, xs[j], path, uid, id)
    decreases ItemsSize(xs), 3
  {
    if xs != [] {
      var next := RelationEntry(rf, xs[0], path, acc);
      RelationEntryRefers(rf, xs[0], path, acc, uid, id);
      WalkItemsRefers(rf, xs[1..], path, next, uid, id);
      assert forall j :: 0 <= j < |xs[1..]| ==> xs[1..][j] == xs[j + 1];
      if exists j :: 0 <= j < |xs| && RefersAt(rf, xs[j], path, uid, id) {
        var j :| 0 <= j < |xs| && RefersAt(rf, xs[j], path, uid, id);
        if j > 0 {
          assert xs[1..][j - 1] == xs[j];
        }
      }
    }
  }

  /** What one entity contributes: its own references and those of its localizations. */
  lemma OwnRefers(rf: map<string, RelationField>, e: Value, uid: string, id: Value)
    ensures var own := Merge(WalkValue(rf, e, ""), EntitiesRelationValues(rf, Locs(e)));
      KeyIn(Lookup(own, uid), IdOf, id) <==> EntityRefers(rf, e, uid, id)
    decreases Size(e), 0
  {
    EntitiesRelationValuesRefers(rf, Locs(e), uid, id);
    WalkValueRefers(rf, e, "", uid, id);
    MergeKeyIn(WalkValue(rf, e, ""), EntitiesRelationValues(rf, Locs(e)), uid, id);
  }

  lemma EntitiesReferCons(rf: map<string, RelationField>, es: seq<Value>, uid: string, id: Value)
    requires es != []
    ensures EntitiesRefer(rf, es, uid, id) <==> EntityRefers(rf, es[0], uid, id) || EntitiesRefer(rf, es[1..], uid, id)
  {
    var rest := es[1..];
    assert forall j :: 0 <= j < |rest| ==> rest[j] == es[j + 1];
    if EntitiesRefer(rf, es, uid, id) {
      var i :| 0 <= i < |es| && EntityRefers(rf, es[i], uid, id);
      if i > 0 {
        assert rest[i - 1] == es[i];
      }
    }
  }

  lemma {:induction false} RelationValuesFromRefers(rf: map<string, RelationField>, es: seq<Value>, acc: RelationValues, uid: string, id: Value)
    ensures KeyIn(Lookup(RelationValuesFrom(rf, es, acc), uid), IdOf, id) <==>
      KeyIn(Lookup(acc, uid), IdOf, id) || EntitiesRefer(rf, es, uid, id)
    decreases ItemsSize(es), 1
  {
    if es != [] {
      var e := es[0];
      var own := Merge(WalkValue(rf, e, ""), EntitiesRelationValues(rf, Locs(e)));
      assert RelationValuesFrom(rf, es, acc) == RelationValuesFrom(rf, es[1..], Merge(acc, own));
      OwnRefers(rf, e, uid, id);
      MergeKeyIn(acc, own, uid, id);
      RelationValuesFromRefers(rf, es[1..], Merge(acc, own), uid, id);
      EntitiesReferCons(rf, es, uid, id);
    }
  }

  /** A target's list holds an entity with a given id exactly when some entity or localization refers to that id. */
  lemma {:induction false} EntitiesRelationValuesRefers(rf: map<string, RelationField>, es: seq<Value>, uid: string, id: Value)
    ensures KeyIn(Lookup(EntitiesRelationValues(rf, es), uid), IdOf, id) <==> EntitiesRefer(rf, es, uid, id)
    decreases ItemsSize(es), 2
  {
    RelationValuesFromRefers(rf, es, map[], uid, id);
  }

  /** Every list is unique by id. */
  predicate UniqueLists(m: RelationValues)
  {
    forall k :: k in m ==> UniqueBy(m[k], IdOf)
  }

  lemma MergeUnique(a: RelationValues, b: RelationValues)
    requires UniqueLists(a)
    ensures UniqueLists(Merge(a, b))
  {
    forall k | k in b {
      UniqByUnique(Lookup(a, k) + b[k], IdOf);
    }
  }

  lemma {:induction false} RelationEntryUnique(rf: map<string, RelationField>, v: Value, full: string, acc: RelationValues)
    requires UniqueLists(acc)
    ensures UniqueLists(RelationEntry(rf, v, full, acc))
  {
    if IsObject(v) {
      if full != "" && full in rf {
        UniqByUnique(Lookup(acc, rf[full].uid) + AsList(v), IdOf);
      } else {
        MergeUnique(acc, WalkValue(rf, v, ChildPath(full, v)));
      }
    }
  }

  lemma {:induction false} WalkFieldsUnique(rf: map<string, RelationField>, fs: seq<Field>, path: string, acc: RelationValues)
    requires UniqueLists(acc)
    ensures UniqueLists(WalkFields(rf, fs, path, acc))
    decreases |fs|
  {
    if fs != [] {
      RelationEntryUnique(rf, fs[0].val, JoinPath(path, fs[0].key), acc);
      WalkFieldsUnique(rf, fs[1..], path, RelationEntry(rf, fs[0].val, JoinPath(path, fs[0].key), acc));
    }
  }

  lemma {:induction false} WalkItemsUnique(rf: map<string, RelationField>, xs: seq<Value>, path: string, acc: RelationValues)
    requires UniqueLists(acc)
    ensures UniqueLists(WalkItems(rf, xs, path, acc))
    decreases |xs|
  {
    if xs != [] {
      RelationEntryUnique(rf, xs[0], path, acc);
      WalkItemsUnique(rf, xs[1..], path, RelationEntry(rf, xs[0], path, acc));
    }
  }

  lemma {:induction false} RelationValuesFromUnique(rf: map<string, RelationField>, es: seq<Value>, acc: RelationValues)
    requires UniqueLists(acc)
    ensures UniqueLists(RelationValuesFrom(rf, es, acc))
    decreases ItemsSize(es), 1, 1
  {
    if es != [] {
      var own := Merge(WalkValue(rf, es[0], ""), EntitiesRelationValues(rf, Locs(es[0])));
      MergeUnique(acc, own);
      RelationValuesFromUnique(rf, es[1..], Merge(acc, own));
    }
  }
}
