/**
 * Content-type schemas and the two walkers over them: the relation field map
 * (dotted path to relation descriptor) and the populate plan handed to the
 * local store. A schema is given with every component it uses already
 * resolved, so a component attribute carries the component's own model.
 */
module Schema {
  import opened Values

  datatype ModelType = CollectionType | ComponentType

  datatype Model = Model(modelType: ModelType, attributes: seq<Attribute>)

  datatype Attribute = Attribute(name: string, kind: Kind)

  datatype Kind =
    | Relation(target: string, relation: string)
    | Component(component: string, repeatable: bool, model: Model)
    | DynamicZone(zone: seq<ZoneComponent>)
    | Media
    | Plain(typeName: string)

  datatype ZoneComponent = ZoneComponent(uid: string, model: Model)

  /**
   * Relation descriptor `{uid, type, repeatable, dynamicZone}`. The two flags
   * are undefined (None) for relations declared on the collection itself.
   */
  datatype RelationField = RelationField(uid: string, relationType: string, repeatable: Option<bool>, dynamicZone: Option<bool>)

  /** `parentKey ? `${parentKey}.${key}` : key` */
  function SchemaPath(parent: string, key: string): string
  {
    if parent == "" then key else parent + "." + key
  }

  // Paths while walking an entity (as opposed to a schema).

  /** `_.join(_.compact([parentKey, key]), '.')`: empty parts are dropped. */
  function JoinPath(parent: string, key: string): string
  {
    if parent == "" then key else if key == "" then parent else parent + "." + key
  }

  /** Dynamic-zone items extend the path with their `__component`. */
  function ChildPath(full: string, v: Value): string
  {
    if Has(v, "__component") then full + "." + Text(Get(v, "__component")) else full
  }

  // ---------------------------------------------------------------------------
  // getRelationFields

  /** The relation field map of a model, for attributes reached under `parent`. */
  function RelationFields(m: Model, parent: string, rep: Option<bool>, dz: Option<bool>): (r: map<string, RelationField>)
    ensures forall path :: path in r ==> DeclaresUpTo(m, parent, rep, dz, path, r[path], |m.attributes|)
    ensures forall path, d :: DeclaresUpTo(m, parent, rep, dz, path, d, |m.attributes|) ==> path in r
    decreases m, 2
  {
    var r := RelationFieldsUpTo(m, parent, rep, dz, |m.attributes|);
    forall path | path in r
      ensures DeclaresUpTo(m, parent, rep, dz, path, r[path], |m.attributes|)
    {
      RelationFieldsSound(m, parent, rep, dz, |m.attributes|, path);
    }
    forall path, d | DeclaresUpTo(m, parent, rep, dz, path, d, |m.attributes|)
      ensures path in r
    {
      RelationFieldsComplete(m, parent, rep, dz, |m.attributes|, path, d);
    }
    r
  }

  /** The reduction over the first `n` attributes. */
  function RelationFieldsUpTo(m: Model, parent: string, rep: Option<bool>, dz: Option<bool>, n: nat): map<string, RelationField>
    requires n <= |m.attributes|
    decreases m, 1, n, 0
  {
    if n == 0 then map[]
    else
      var acc := RelationFieldsUpTo(m, parent, rep, dz, n - 1);
      var a := m.attributes[n - 1];
      var fullKey := SchemaPath(parent, a.name);
      match a.kind
      case Relation(target, relation) => acc[fullKey := RelationField(target, relation, rep, dz)]
      case Component(_, repeatable, sub) => acc + RelationFields(sub, fullKey, Some(repeatable), Some(false))
      case DynamicZone(zs) => acc + ZoneRelationFields(m, n - 1, fullKey, |zs|)
      case _ => acc
  }

  /** The reduction over the first `j` components of the dynamic zone at attribute `i`. */
  function ZoneRelationFields(m: Model, i: nat, fullKey: string, j: nat): map<string, RelationField>
    requires i < |m.attributes| && m.attributes[i].kind.DynamicZone?
    requires j <= |m.attributes[i].kind.zone|
    decreases m, 0, j, 0
  {
    if j == 0 then map[]
    else
      var z := m.attributes[i].kind.zone[j - 1];
      ZoneRelationFields(m, i, fullKey, j - 1) + RelationFields(z.model, fullKey + "." + z.uid, Some(false), Some(true))
  }

  /**
   * Independent reading of the walk: attribute `i` of `m` declares, directly
   * or through nested components and dynamic zones, a relation at `path`
   * described by `d`.
   */
  ghost predicate Declares(m: Model, i: nat, parent: string, rep: Option<bool>, dz: Option<bool>, path: string, d: RelationField)
    requires i < |m.attributes|
    decreases m, 0
  {
    var a := m.attributes[i];
    var fullKey := SchemaPath(parent, a.name);
    match a.kind
    case Relation(target, relation) => path == fullKey && d == RelationField(target, relation, rep, dz)
    case Component(_, repeatable, sub) => DeclaresUpTo(sub, fullKey, Some(repeatable), Some(false), path, d, |sub.attributes|)
    case DynamicZone(zs) =>
      exists j :: 0 <= j < |zs| && DeclaresUpTo(zs[j].model, fullKey + "." + zs[j].uid, Some(false), Some(true), path, d, |zs[j].model.attributes|)
    case _ => false
  }

  ghost predicate DeclaresUpTo(m: Model, parent: string, rep: Option<bool>, dz: Option<bool>, path: string, d: RelationField, n: nat)
    requires n <= |m.attributes|
    decreases m, 1
  {
    exists i :: 0 <= i < n && Declares(m, i, parent, rep, dz, path, d)
  }

  /** Every entry of the map is a relation the schema declares at that path with exactly those flags. */
  lemma {:induction false} RelationFieldsSound(m: Model, parent: string, rep: Option<bool>, dz: Option<bool>, n: nat, path: string)
    requires n <= |m.attributes|
    requires path in RelationFieldsUpTo(m, parent, rep, dz, n)
    ensures DeclaresUpTo(m, parent, rep, dz, path, RelationFieldsUpTo(m, parent, rep, dz, n)[path], n)
    decreases m, 1, n, 1
  {
    var r := RelationFieldsUpTo(m, parent, rep, dz, n);
    var acc := RelationFieldsUpTo(m, parent, rep, dz, n - 1);
    var a := m.attributes[n - 1];
    var fullKey := SchemaPath(parent, a.name);
    match a.kind
    case Relation(target, relation) =>
      if path == fullKey {
        assert Declares(m, n - 1, parent, rep, dz, path, r[path]);
      } else {
        RelationFieldsSound(m, parent, rep, dz, n - 1, path);
      }
    case Component(_, repeatable, sub) =>
      var add := RelationFields(sub, fullKey, Some(repeatable), Some(false));
      if path in add {
        RelationFieldsSound(sub, fullKey, Some(repeatable), Some(false), |sub.attributes|, path);
        assert Declares(m, n - 1, parent, rep, dz, path, r[path]);
      } else {
        RelationFieldsSound(m, parent, rep, dz, n - 1, path);
      }
    case DynamicZone(zs) =>
      var add := ZoneRelationFields(m, n - 1, fullKey, |zs|);
      if path in add {
        ZoneRelationFieldsSound(m, n - 1, fullKey, |zs|, path);
        assert Declares(m, n - 1, parent, rep, dz, path, r[path]);
      } else {
        RelationFieldsSound(m, parent, rep, dz, n - 1, path);
      }
    case Media =>
      RelationFieldsSound(m, parent, rep, dz, n - 1, path);
    case Plain(_) =>
      RelationFieldsSound(m, parent, rep, dz, n - 1, path);
  }

  lemma {:induction false} ZoneRelationFieldsSound(m: Model, i: nat, fullKey: string, j: nat, path: string)
    requires i < |m.attributes| && m.attributes[i].kind.DynamicZone?
    requires j <= |m.attributes[i].kind.zone|
    requires path in ZoneRelationFields(m, i, fullKey, j)
    ensures var zs := m.attributes[i].kind.zone;
      exists k :: 0 <= k < j && DeclaresUpTo(zs[k].model, fullKey + "." + zs[k].uid, Some(false), Some(true), path,
                                             ZoneRelationFields(m, i, fullKey, j)[path], |zs[k].model.attributes|)
    decreases m, 0, j, 1
  {
    var zs := m.attributes[i].kind.zone;
    var z := zs[j - 1];
    var add := RelationFields(z.model, fullKey + "." + z.uid, Some(false), Some(true));
    if path in add {
      RelationFieldsSound(z.model, fullKey + "." + z.uid, Some(false), Some(true), |z.model.attributes|, path);
    } else {
      ZoneRelationFieldsSound(m, i, fullKey, j - 1, path);
    }
  }

  /** Every relation the schema declares, at any depth, has an entry at its dotted path. */
  lemma {:induction false} RelationFieldsComplete(m: Model, parent: string, rep: Option<bool>, dz: Option<bool>, n: nat, path: string, d: RelationField)
    requires n <= |m.attributes|
    requires DeclaresUpTo(m, parent, rep, dz, path, d, n)
    ensures path in RelationFieldsUpTo(m, parent, rep, dz, n)
    decreases m, 1, n, 1
  {
    var i :| 0 <= i < n && Declares(m, i, parent, rep, dz, path, d);
    var a := m.attributes[n - 1];
    var fullKey := SchemaPath(parent, a.name);
    if i < n - 1 {
      RelationFieldsComplete(m, parent, rep, dz, n - 1, path, d);
    } else {
      match a.kind
      case Relation(_, _) =>
      case Component(_, repeatable, sub) =>
        RelationFieldsComplete(sub, fullKey, Some(repeatable), Some(false), |sub.attributes|, path, d);
      case DynamicZone(zs) =>
        var k :| 0 <= k < |zs| && DeclaresUpTo(zs[k].model, fullKey + "." + zs[k].uid, Some(false), Some(true), path, d, |zs[k].model.attributes|);
        ZoneRelationFieldsComplete(m, n - 1, fullKey, |zs|, k, path, d);
    }
  }

  lemma {:induction false} ZoneRelationFieldsComplete(m: Model, i: nat, fullKey: string, j: nat, k: nat, path: string, d: RelationField)
    requires i < |m.attributes| && m.attributes[i].kind.DynamicZone?
    requires k < j <= |m.attributes[i].kind.zone|
    requires var z := m.attributes[i].kind.zone[k];
      DeclaresUpTo(z.model, fullKey + "." + z.uid, Some(false), Some(true), path, d, |z.model.attributes|)
    ensures path in ZoneRelationFields(m, i, fullKey, j)
    decreases m, 0, j, 1
  {
    var z := m.attributes[i].kind.zone[j - 1];
    if k < j - 1 {
      ZoneRelationFieldsComplete(m, i, fullKey, j - 1, k, path, d);
    } else {
      RelationFieldsComplete(z.model, fullKey + "." + z.uid, Some(false), Some(true), |z.model.attributes|, path, d);
    }
  }

  /**
   * getRelationFields(getModel, collectionId): the walk from the collection,
   * with no parent path. Its keys are exactly the declared relation paths, and
   * every entry is the descriptor declared there.
   */
  function CollectionRelationFields(m: Model): (r: map<string, RelationField>)
    ensures forall path :: path in r ==> DeclaresUpTo(m, "", None, None, path, r[path], |m.attributes|)
    ensures forall path, d :: DeclaresUpTo(m, "", None, None, path, d, |m.attributes|) ==> path in r
  {
    RelationFields(m, "", None, None)
  }

  // ---------------------------------------------------------------------------
  // getCollectionPopulateSchema

  /** Attribute kinds the local store must be told to populate. */
  predicate Populated(k: Kind)
  {
    k.Component? || k.Relation? || k.Media? || k.DynamicZone?
  }

  /** The populate plan of a collection type or of a component. */
  function PopulatePlan(m: Model): (r: Value)
    ensures r.Obj?
    ensures forall k :: Has(Entries(m, r), k) <==>
      exists i :: 0 <= i < |m.attributes| && m.attributes[i].name == k && Populated(m.attributes[i].kind)
    ensures forall i :: 0 <= i < |m.attributes| && Populated(m.attributes[i].kind)
                        && (forall i2 :: i < i2 < |m.attributes| ==> m.attributes[i2].name != m.attributes[i].name) ==>
      Get(Entries(m, r), m.attributes[i].name) == PlanEntry(m, i)
    decreases m, 2
  {
    var r := PlanUpTo(m, |m.attributes|);
    PlanUpToShape(m, |m.attributes|);
    forall k
      ensures Has(Entries(m, r), k) <==>
        exists i :: 0 <= i < |m.attributes| && m.attributes[i].name == k && Populated(m.attributes[i].kind)
    {
      PlanCovers(m, |m.attributes|, k);
    }
    forall i | 0 <= i < |m.attributes| && Populated(m.attributes[i].kind)
               && (forall i2 :: i < i2 < |m.attributes| ==> m.attributes[i2].name != m.attributes[i].name)
      ensures Get(Entries(m, r), m.attributes[i].name) == PlanEntry(m, i)
    {
      PlanCovers(m, |m.attributes|, m.attributes[i].name);
    }
    r
  }

  /** The directive for one populated attribute: `true`, a nested plan, or `{on: {...}}`. */
  function PlanEntry(m: Model, i: nat): Value
    requires i < |m.attributes|
    decreases m, 0, 1
  {
    match m.attributes[i].kind
    case Component(_, _, sub) => PopulatePlan(sub)
    case DynamicZone(zs) => Obj([Field("on", Obj(ZonePlan(m, i, |zs|)))])
    case _ => Bool(true)
  }

  /** `{[zoneComponent]: plan}` for the first `j` components of the zone at attribute `i`. */
  function ZonePlan(m: Model, i: nat, j: nat): seq<Field>
    requires i < |m.attributes| && m.attributes[i].kind.DynamicZone?
    requires j <= |m.attributes[i].kind.zone|
    decreases m, 0, 0, j
  {
    if j == 0 then []
    else
      var z := m.attributes[i].kind.zone[j - 1];
      SetField(ZonePlan(m, i, j - 1), z.uid, PopulatePlan(z.model))
  }

  function PlanUpTo(m: Model, n: nat): Value
    requires n <= |m.attributes|
    decreases m, 1, n, 0
  {
    if n == 0 then Obj([])
    else
      var acc := PlanUpTo(m, n - 1);
      var a := m.attributes[n - 1];
      if !Populated(a.kind) then acc
      else if m.modelType == ComponentType then
        var prev := Get(acc, "populate");
        var prevFields := Spread(if Nullish(prev) then Obj([]) else prev);
        Obj([Field("populate", Obj(SetField(prevFields, a.name, PlanEntry(m, n - 1))))])
      else
        Obj(SetField(Spread(acc), a.name, PlanEntry(m, n - 1)))
  }

  lemma PlanUpToShape(m: Model, n: nat)
    requires n <= |m.attributes|
    ensures PlanUpTo(m, n).Obj?
    ensures m.modelType == ComponentType ==>
      PlanUpTo(m, n) == Obj([]) || (PlanUpTo(m, n).fields == [Field("populate", Get(PlanUpTo(m, n), "populate"))]
                                    && Get(PlanUpTo(m, n), "populate").Obj?)
    decreases m, 1, n, 1
  {
  }

  /** The entries of the plan (under `populate` for a component). */
  function Entries(m: Model, plan: Value): Value
  {
    if m.modelType == ComponentType then Get(plan, "populate") else plan
  }

  /**
   * The plan has an entry exactly for the populated attributes, and (names
   * being distinct, as object keys are) the entry of each is its directive.
   */
  lemma {:induction false} PlanCovers(m: Model, n: nat, k: string)
    requires n <= |m.attributes|
    ensures Has(Entries(m, PlanUpTo(m, n)), k) <==>
      exists i :: 0 <= i < n && m.attributes[i].name == k && Populated(m.attributes[i].kind)
    ensures forall i :: (0 <= i < n && m.attributes[i].name == k && Populated(m.attributes[i].kind)
                         && (forall i2 :: i < i2 < n ==> m.attributes[i2].name != k)) ==>
      Get(Entries(m, PlanUpTo(m, n)), k) == PlanEntry(m, i)
    decreases m, 1, n, 3
  {
    if n > 0 {
      PlanCovers(m, n - 1, k);
      PlanStep(m, n, k);
    }
  }

  /** One more attribute: a populated one sets its own entry and leaves the others as they were. */
  lemma PlanStep(m: Model, n: nat, k: string)
    requires 0 < n <= |m.attributes|
    ensures var a, before, after := m.attributes[n - 1], Entries(m, PlanUpTo(m, n - 1)), Entries(m, PlanUpTo(m, n));
      && (Has(after, k) <==> Has(before, k) || (a.name == k && Populated(a.kind)))
      && Get(after, k) == if a.name == k && Populated(a.kind) then PlanEntry(m, n - 1) else Get(before, k)
    decreases m, 1, n, 2
  {
    var acc := PlanUpTo(m, n - 1);
    var a := m.attributes[n - 1];
    PlanUpToShape(m, n - 1);
    if Populated(a.kind) {
      var prevFields := if m.modelType == ComponentType then Spread(if Nullish(Get(acc, "populate")) then Obj([]) else Get(acc, "populate")) else acc.fields;
      assert Entries(m, PlanUpTo(m, n)) == Obj(SetField(prevFields, a.name, PlanEntry(m, n - 1)));
      assert m.modelType == ComponentType ==> Obj(prevFields) == Entries(m, acc) || (Entries(m, acc) == Undef && prevFields == []);
      SetFieldGet(prevFields, a.name, PlanEntry(m, n - 1), k);
      SetFieldHas(prevFields, a.name, PlanEntry(m, n - 1), k);
    }
  }

  /** Each component of a dynamic zone gets its own plan under `on`. */
  lemma {:induction false} ZonePlanHas(m: Model, i: nat, j: nat, uid: string)
    requires i < |m.attributes| && m.attributes[i].kind.DynamicZone?
    requires j <= |m.attributes[i].kind.zone|
    ensures Has(Obj(ZonePlan(m, i, j)), uid) <==> exists k :: 0 <= k < j && m.attributes[i].kind.zone[k].uid == uid
    decreases j
  {
    if j > 0 {
      ZonePlanHas(m, i, j - 1, uid);
      var z := m.attributes[i].kind.zone[j - 1];
      SetFieldHas(ZonePlan(m, i, j - 1), z.uid, PopulatePlan(z.model), uid);
    }
  }

  lemma {:induction false} ZonePlanGet(m: Model, i: nat, j: nat, k: nat)
    requires i < |m.attributes| && m.attributes[i].kind.DynamicZone?
    requires k < j <= |m.attributes[i].kind.zone|
    requires forall k2 :: k < k2 < j ==> m.attributes[i].kind.zone[k2].uid != m.attributes[i].kind.zone[k].uid
    ensures Get(Obj(ZonePlan(m, i, j)), m.attributes[i].kind.zone[k].uid) == PopulatePlan(m.attributes[i].kind.zone[k].model)
    decreases j
  {
    var zs := m.attributes[i].kind.zone;
    var z := zs[j - 1];
    SetFieldGet(ZonePlan(m, i, j - 1), z.uid, PopulatePlan(z.model), zs[k].uid);
    if k < j - 1 {
      ZonePlanGet(m, i, j - 1, k);
    }
  }
}
