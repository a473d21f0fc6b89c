/**
 * `prepareEntityData`: turns a local entity into the payload sent to the
 * target instance. Ids and `localizations` are dropped, media objects are
 * swapped for the target's copy of the file, and values sitting at a
 * relation path are swapped for the target's copy of the related entity.
 * The two swaps are the caller's lookups, passed in as functions.
 */
module Prepare {
  import opened Values
  import opened Schema

  /** `getNewMediaFile(id, name)`: the target's file for a local one, or undefined. */
  type MediaLookup = (Value, Value) -> Value

  /** `getNewRelation(descriptor, value)`: the target's entities for a local relation value. */
  type RelationLookup = (RelationField, Value) -> Value

  /** A rewrite is parameterised by the relation field map and the two lookups. */
  datatype Env = Env(rf: map<string, RelationField>, media: MediaLookup, relation: RelationLookup)

  /** A non-scalar at a path the relation field map knows. */
  predicate IsRelationAt(env: Env, v: Value, full: string)
  {
    IsObject(v) && full != "" && full in env.rf
  }

  /** The walk descends into `v`: a non-scalar that is neither media nor a relation, under a key other than `id`. */
  predicate Visited(env: Env, v: Value, full: string, isId: bool)
  {
    IsObject(v) && !IsMedia(v) && !IsRelationAt(env, v, full) && !isId
  }

  /** Media swap: the target's file, or else the local file with its id cleared. */
  function MediaSwap(env: Env, v: Value): (r: Value)
    requires IsMedia(v)
  {
    var found := env.media(Get(v, "id"), Get(v, "name"));
    if Nullish(found) then Obj(SetField(v.fields, "id", Undef)) else found
  }

  const Localizations: set<string> := {"localizations"}

  /** The value written for an entry at path `full` that the walk keeps. */
  function Rewrite(env: Env, v: Value, full: string): Value
    decreases Size(v), 1
  {
    if IsMedia(v) then MediaSwap(env, v)
    else if IsRelationAt(env, v, full) then env.relation(env.rf[full], v)
    else if IsObject(v) then PrepareValue(env, v, ChildPath(full, v))
    else v
  }

  /** The recursive walk on an object or array reached at `path`. */
  function PrepareValue(env: Env, v: Value, path: string): (r: Value)
    requires IsObject(v)
    ensures r.Obj? <==> v.Obj?
    ensures v.Arr? ==> r.Arr? && |r.items| == |v.items|
    decreases Size(v), 0
  {
    if v.Obj? then
      RemoveKeysSize(v.fields, Localizations);
      Obj(PrepareFields(env, RemoveKeys(v.fields, Localizations), path, []))
    else
      Arr(PrepareItems(env, v.items, path))
  }

  /** Array items: the index does not extend the path and is never `id`. */
  function PrepareItems(env: Env, xs: seq<Value>, path: string): (r: seq<Value>)
    ensures |r| == |xs|
    decreases ItemsSize(xs), 2
  {
    if xs == [] then [] else [Rewrite(env, xs[0], path)] + PrepareItems(env, xs[1..], path)
  }

  /** An object entry is written unless its key is `id` and its value is neither media nor a relation. */
  predicate Kept(env: Env, key: string, v: Value, full: string)
  {
    IsMedia(v) || IsRelationAt(env, v, full) || key != "id"
  }

  /** The reduction over an object's entries into the accumulator `acc`. */
  function PrepareFields(env: Env, fs: seq<Field>, path: string, acc: seq<Field>): seq<Field>
    decreases FieldsSize(fs), 2
  {
    if fs == [] then acc
    else
      var full := JoinPath(path, fs[0].key);
      var next := if Kept(env, fs[0].key, fs[0].val, full) then SetField(acc, fs[0].key, Rewrite(env, fs[0].val, full)) else acc;
      PrepareFields(env, fs[1..], path, next)
  }

  /** `prepareEntityData(entity, relationFields, getNewMediaFile, getNewRelation)`. */
  function PrepareEntityData(env: Env, entity: seq<Field>): (r: seq<Field>)
    ensures DistinctKeys(entity) ==> forall k :: var v := Get(Obj(entity), k);
      && (Has(Obj(r), k) <==> k != "localizations" && Has(Obj(entity), k) && Kept(env, k, v, k))
      && (Has(Obj(r), k) ==> Get(Obj(r), k) == Rewrite(env, v, k))
  {
    var out := PrepareValue(env, Obj(entity), "");
    assert DistinctKeys(entity) ==> forall k :: var v := Get(Obj(entity), k);
      && (Has(out, k) <==> k != "localizations" && Has(Obj(entity), k) && Kept(env, k, v, k))
      && (Has(out, k) ==> Get(out, k) == Rewrite(env, v, k))
    by {
      if DistinctKeys(entity) {
        forall k {
          PrepareObjectEntries(env, entity, "", k);
        }
      }
    }
    out.fields
  }

  // ---------------------------------------------------------------------------
  // One level of the walk

  /** The reduction writes exactly the kept entries, each with its rewritten value. */
  lemma {:induction false} PrepareFieldsEntries(env: Env, fs: seq<Field>, path: string, acc: seq<Field>, k: string)
    requires DistinctKeys(fs)
    ensures var out, v := Obj(PrepareFields(env, fs, path, acc)), Get(Obj(fs), k);
      && (Has(out, k) <==> Has(Obj(acc), k) || (Has(Obj(fs), k) && Kept(env, k, v, JoinPath(path, k))))
      && (Has(Obj(fs), k) && Kept(env, k, v, JoinPath(path, k)) ==> Get(out, k) == Rewrite(env, v, JoinPath(path, k)))
      && (!(Has(Obj(fs), k) && Kept(env, k, v, JoinPath(path, k))) ==> Get(out, k) == Get(Obj(acc), k))
    decreases |fs|
  {
    if fs != [] {
      var f, rest := fs[0], fs[1..];
      var full := JoinPath(path, f.key);
      var next := if Kept(env, f.key, f.val, full) then SetField(acc, f.key, Rewrite(env, f.val, full)) else acc;
      assert PrepareFields(env, fs, path, acc) == PrepareFields(env, rest, path, next);
      PrepareFieldsEntries(env, rest, path, next, k);
      assert fs == [f] + rest;
      if Kept(env, f.key, f.val, full) {
        SetFieldGet(acc, f.key, Rewrite(env, f.val, full), k);
        SetFieldHas(acc, f.key, Rewrite(env, f.val, full), k);
      }
      if f.key == k {
        IndexOfFirst(fs, k, 0);
        assert !Has(Obj(rest), k) by {
          forall j | 0 <= j < |rest| ensures rest[j].key != k {
            assert fs[j + 1] == rest[j];
          }
        }
      } else {
        ConsIndexOf(f, rest, k);
      }
    }
  }

  /** What the walk writes for key `k` of an object. */
  lemma PrepareObjectEntries(env: Env, fs: seq<Field>, path: string, k: string)
    requires DistinctKeys(fs)
    ensures var out, v := PrepareValue(env, Obj(fs), path), Get(Obj(fs), k);
      && (Has(out, k) <==> k !in Localizations && Has(Obj(fs), k) && Kept(env, k, v, JoinPath(path, k)))
      && (Has(out, k) ==> Get(out, k) == Rewrite(env, v, JoinPath(path, k)))
  {
    var kept := RemoveKeys(fs, Localizations);
    RemoveKeysDistinct(fs, Localizations);
    PrepareFieldsEntries(env, kept, path, [], k);
    if k in Localizations {
      assert !Has(Obj(kept), k);
    } else {
      RemoveKeysGet(fs, Localizations, k);
    }
  }

  /** No object the walk builds carries `localizations`, nor `id` unless it holds media or a relation. */
  lemma PrepareDropsKeys(env: Env, fs: seq<Field>, path: string)
    requires DistinctKeys(fs)
    ensures !Has(PrepareValue(env, Obj(fs), path), "localizations")
    ensures var out, v := PrepareValue(env, Obj(fs), path), Get(Obj(fs), "id");
      Has(out, "id") <==> Has(Obj(fs), "id") && (IsMedia(v) || IsRelationAt(env, v, JoinPath(path, "id")))
  {
    PrepareObjectEntries(env, fs, path, "localizations");
    PrepareObjectEntries(env, fs, path, "id");
  }

  /** Every other scalar is copied unchanged. */
  lemma PrepareCopiesScalars(env: Env, fs: seq<Field>, path: string, k: string)
    requires DistinctKeys(fs) && Has(Obj(fs), k) && k != "id" && k != "localizations"
    requires !IsObject(Get(Obj(fs), k))
    ensures var out := PrepareValue(env, Obj(fs), path);
      Has(out, k) && Get(out, k) == Get(Obj(fs), k)
  {
    PrepareObjectEntries(env, fs, path, k);
  }

  /** A media object is replaced by the target's file, or by itself with `id` undefined; it is not descended into. */
  lemma PrepareSwapsMedia(env: Env, fs: seq<Field>, path: string, k: string)
    requires DistinctKeys(fs) && Has(Obj(fs), k) && k != "localizations"
    requires IsMedia(Get(Obj(fs), k))
    ensures var out, v := PrepareValue(env, Obj(fs), path), Get(Obj(fs), k);
      var found := env.media(Get(v, "id"), Get(v, "name"));
      && Has(out, k)
      && (!Nullish(found) ==> Get(out, k) == found)
      && (Nullish(found) ==> forall k2 :: Get(Get(out, k), k2) == if k2 == "id" then Undef else Get(v, k2))
  {
    PrepareObjectEntries(env, fs, path, k);
    var v := Get(Obj(fs), k);
    forall k2 {
      SetFieldGet(v.fields, "id", Undef, k2);
    }
  }

  /** A non-media non-scalar at a relation path is replaced by the relation lookup for that path's descriptor. */
  lemma PrepareSwapsRelations(env: Env, fs: seq<Field>, path: string, k: string)
    requires DistinctKeys(fs) && Has(Obj(fs), k) && k != "localizations"
    requires var v := Get(Obj(fs), k); !IsMedia(v) && IsRelationAt(env, v, JoinPath(path, k))
    ensures var out, v := PrepareValue(env, Obj(fs), path), Get(Obj(fs), k);
      Has(out, k) && Get(out, k) == env.relation(env.rf[JoinPath(path, k)], v)
  {
    PrepareObjectEntries(env, fs, path, k);
  }

  /** Any other non-scalar is walked in turn, arrays to arrays and objects to objects, at the extended path. */
  lemma PrepareDescends(env: Env, fs: seq<Field>, path: string, k: string)
    requires DistinctKeys(fs) && Has(Obj(fs), k) && k != "localizations" && k != "id"
    requires var v := Get(Obj(fs), k); Visited(env, v, JoinPath(path, k), false)
    ensures var out, v := PrepareValue(env, Obj(fs), path), Get(Obj(fs), k);
      && Has(out, k)
      && Get(out, k) == PrepareValue(env, v, ChildPath(JoinPath(path, k), v))
      && (Get(out, k).Arr? <==> v.Arr?)
  {
    PrepareObjectEntries(env, fs, path, k);
  }

  /** Array items are rewritten one by one at the array's own path. */
  lemma {:induction false} PrepareItemsAt(env: Env, xs: seq<Value>, path: string, i: nat)
    requires i < |xs|
    ensures PrepareItems(env, xs, path)[i] == Rewrite(env, xs[i], path)
    decreases |xs|
  {
    if i > 0 {
      PrepareItemsAt(env, xs[1..], path, i - 1);
    }
  }

  // ---------------------------------------------------------------------------
  // The whole tree

  /** No media, no `id`, no `localizations` and no repeated key, at any level. */
  predicate Bare(v: Value)
  {
    match v
    case Obj(fs) =>
      && !IsMedia(v) && DistinctKeys(fs) && !Has(v, "id") && !Has(v, "localizations")
      && forall j :: 0 <= j < |fs| ==> Bare(fs[j].val)
    case Arr(xs) => forall j :: 0 <= j < |xs| ==> Bare(xs[j])
    case _ => true
  }

  /** With no relation paths, a tree with nothing to strip or swap comes back unchanged. */
  lemma {:induction false} PrepareIdentity(env: Env, v: Value, path: string)
    requires env.rf == map[] && IsObject(v) && Bare(v)
    ensures PrepareValue(env, v, path) == v
    decreases Size(v), 0
  {
    if v.Obj? {
      assert forall j :: 0 <= j < |v.fields| ==> v.fields[j].key !in Localizations && v.fields[j].key != "id";
      RemoveKeysAbsent(v.fields, Localizations);
      PrepareFieldsIdentity(env, v.fields, path, []);
    } else {
      PrepareItemsIdentity(env, v.items, path);
    }
  }

  lemma {:induction false} RewriteIdentity(env: Env, v: Value, full: string)
    requires env.rf == map[] && Bare(v)
    ensures Rewrite(env, v, full) == v
    decreases Size(v), 1
  {
    if IsObject(v) {
      PrepareIdentity(env, v, ChildPath(full, v));
    }
  }

  lemma {:induction false} PrepareFieldsIdentity(env: Env, fs: seq<Field>, path: string, acc: seq<Field>)
    requires env.rf == map[] && DistinctKeys(fs)
    requires forall j :: 0 <= j < |fs| ==> Bare(fs[j].val) && fs[j].key != "id" && !Has(Obj(acc), fs[j].key)
    ensures PrepareFields(env, fs, path, acc) == acc + fs
    decreases FieldsSize(fs), 3
  {
    if fs != [] {
      IdentityTail(fs, acc);
      PrepareFieldsBare(env, fs, path, acc);
      PrepareFieldsIdentity(env, fs[1..], path, acc + [fs[0]]);
      AppendFirst(acc, fs);
    }
  }

  /** A bare first field other than `id` is appended unchanged. */
  lemma PrepareFieldsBare(env: Env, fs: seq<Field>, path: string, acc: seq<Field>)
    requires env.rf == map[] && fs != [] && Bare(fs[0].val) && fs[0].key != "id"
    requires SetField(acc, fs[0].key, fs[0].val) == acc + [fs[0]]
    ensures PrepareFields(env, fs, path, acc) == PrepareFields(env, fs[1..], path, acc + [fs[0]])
    decreases FieldsSize(fs), 2
  {
    RewriteIdentity(env, fs[0].val, JoinPath(path, fs[0].key));
  }

  lemma AppendFirst(acc: seq<Field>, fs: seq<Field>)
    requires fs != []
    ensures acc + [fs[0]] + fs[1..] == acc + fs
  {
    assert [fs[0]] + fs[1..] == fs;
  }

  /** The remaining fields still meet the identity's precondition once the first is appended. */
  lemma IdentityTail(fs: seq<Field>, acc: seq<Field>)
    requires fs != [] && DistinctKeys(fs)
    requires forall j :: 0 <= j < |fs| ==> Bare(fs[j].val) && fs[j].key != "id" && !Has(Obj(acc), fs[j].key)
    ensures SetField(acc, fs[0].key, fs[0].val) == acc + [fs[0]]
    ensures DistinctKeys(fs[1..])
    ensures forall j :: 0 <= j < |fs[1..]| ==> Bare(fs[1..][j].val) && fs[1..][j].key != "id" && !Has(Obj(acc + [fs[0]]), fs[1..][j].key)
  {
    var f, rest := fs[0], fs[1..];
    assert !Has(Obj(acc), f.key);
    assert IndexOf(acc, f.key).None?;
    forall j | 0 <= j < |rest| ensures Bare(rest[j].val) && rest[j].key != "id" && !Has(Obj(acc + [f]), rest[j].key) {
      assert rest[j] == fs[j + 1];
      SetFieldHas(acc, f.key, f.val, fs[j + 1].key);
    }
    assert DistinctKeys(rest) by {
      forall i, j | 0 <= i < j < |rest| ensures rest[i].key != rest[j].key {
        assert rest[i] == fs[i + 1] && rest[j] == fs[j + 1];
      }
    }
  }

  lemma {:induction false} PrepareItemsIdentity(env: Env, xs: seq<Value>, path: string)
    requires env.rf == map[] && forall j :: 0 <= j < |xs| ==> Bare(xs[j])
    ensures PrepareItems(env, xs, path) == xs
    decreases ItemsSize(xs), 2
  {
    if xs != [] {
      RewriteIdentity(env, xs[0], path);
      PrepareItemsIdentity(env, xs[1..], path);
      assert xs == [xs[0]] + xs[1..];
    }
  }

  /** No `localizations` key at any level, media objects aside. */
  predicate LocalizationFree(v: Value)
  {
    match v
    case Obj(fs) => IsMedia(v) || (!Has(v, "localizations") && forall j :: 0 <= j < |fs| ==> LocalizationFree(fs[j].val))
    case Arr(xs) => forall j :: 0 <= j < |xs| ==> LocalizationFree(xs[j])
    case _ => true
  }

  /** The lookups hand back values free of `localizations` (target files and entities are). */
  ghost predicate LookupsFree(env: Env)
  {
    && (forall a, b :: LocalizationFree(env.media(a, b)))
    && (forall d, x :: LocalizationFree(env.relation(d, x)))
  }

  /** The payload carries no `localizations` key at any level. */
  lemma {:induction false} PrepareLocalizationFree(env: Env, v: Value, path: string)
    requires LookupsFree(env) && IsObject(v)
    ensures LocalizationFree(PrepareValue(env, v, path))
    decreases Size(v), 0
  {
    if v.Obj? {
      RemoveKeysSize(v.fields, Localizations);
      var kept := RemoveKeys(v.fields, Localizations);
      PrepareFieldsFree(env, kept, path, []);
      var out := PrepareFields(env, kept, path, []);
      assert forall j :: 0 <= j < |out| ==> out[j] in out;
      assert IndexOf(out, "localizations").None?;
    } else {
      var out := PrepareItems(env, v.items, path);
      forall j | 0 <= j < |out| ensures LocalizationFree(out[j]) {
        ItemSmaller(v.items, j);
        PrepareItemsAt(env, v.items, path, j);
        RewriteFree(env, v.items[j], path);
      }
    }
  }

  lemma {:induction false} RewriteFree(env: Env, v: Value, full: string)
    requires LookupsFree(env)
    ensures LocalizationFree(Rewrite(env, v, full))
    decreases Size(v), 1
  {
    if IsMedia(v) {
      var found := env.media(Get(v, "id"), Get(v, "name"));
      if Nullish(found) {
        SetFieldHas(v.fields, "id", Undef, "mime");
        SetFieldHas(v.fields, "id", Undef, "url");
      }
    } else if IsRelationAt(env, v, full) {
    } else if IsObject(v) {
      PrepareLocalizationFree(env, v, ChildPath(full, v));
    }
  }

  lemma {:induction false} PrepareFieldsFree(env: Env, fs: seq<Field>, path: string, acc: seq<Field>)
    requires LookupsFree(env)
    requires forall j :: 0 <= j < |fs| ==> fs[j].key != "localizations"
    requires forall f :: f in acc ==> f.key != "localizations" && LocalizationFree(f.val)
    ensures forall f :: f in PrepareFields(env, fs, path, acc) ==> f.key != "localizations" && LocalizationFree(f.val)
    decreases FieldsSize(fs), 2
  {
    if fs != [] {
      var f := fs[0];
      var full := JoinPath(path, f.key);
      var next := if Kept(env, f.key, f.val, full) then SetField(acc, f.key, Rewrite(env, f.val, full)) else acc;
      if Kept(env, f.key, f.val, full) {
        RewriteFree(env, f.val, full);
        SetFieldFields(acc, f.key, Rewrite(env, f.val, full));
        forall g | g in next ensures g.key != "localizations" && LocalizationFree(g.val) {
          var j :| 0 <= j < |next| && next[j] == g;
        }
      }
      assert forall j :: 0 <= j < |fs[1..]| ==> fs[1..][j] == fs[j + 1];
      PrepareFieldsFree(env, fs[1..], path, next);
    }
  }

  // ---------------------------------------------------------------------------
  // The input after the call

  /** The entity after the call: every object the walk visits has lost `localizations` in place. */
  function Consumed(env: Env, v: Value, path: string): (r: Value)
    ensures IsObject(r) <==> IsObject(v)
    decreases Size(v), 0
  {
    match v
    case Obj(fs) =>
      RemoveKeysSize(fs, Localizations);
      Obj(ConsumedFields(env, RemoveKeys(fs, Localizations), path))
    case Arr(xs) => Arr(ConsumedItems(env, xs, path))
    case _ => v
  }

  function ConsumedEntry(env: Env, v: Value, full: string, isId: bool): Value
    decreases Size(v), 1
  {
    if Visited(env, v, full, isId) then Consumed(env, v, ChildPath(full, v)) else v
  }

  function ConsumedFields(env: Env, fs: seq<Field>, path: string): (r: seq<Field>)
    ensures |r| == |fs| && forall j :: 0 <= j < |fs| ==> r[j].key == fs[j].key
    decreases FieldsSize(fs), 2
  {
    if fs == [] then []
    else
      var full := JoinPath(path, fs[0].key);
      [Field(fs[0].key, ConsumedEntry(env, fs[0].val, full, fs[0].key == "id"))] + ConsumedFields(env, fs[1..], path)
  }

  function ConsumedItems(env: Env, xs: seq<Value>, path: string): (r: seq<Value>)
    ensures |r| == |xs|
    decreases ItemsSize(xs), 2
  {
    if xs == [] then [] else [ConsumedEntry(env, xs[0], path, false)] + ConsumedItems(env, xs[1..], path)
  }

  /** Same keys in the same order read the same way. */
  lemma {:induction false} SameKeysIndexOf(fs: seq<Field>, gs: seq<Field>, k: string)
    requires |fs| == |gs| && forall j :: 0 <= j < |fs| ==> fs[j].key == gs[j].key
    ensures IndexOf(fs, k) == IndexOf(gs, k)
  {
    if fs != [] {
      assert forall j :: 0 <= j < |fs[1..]| ==> fs[1..][j] == fs[j + 1] && gs[1..][j] == gs[j + 1];
      SameKeysIndexOf(fs[1..], gs[1..], k);
    }
  }

  /** The entity keeps every other key; only `localizations` goes. */
  lemma ConsumedKeys(env: Env, fs: seq<Field>, path: string, k: string)
    ensures Has(Consumed(env, Obj(fs), path), k) <==> Has(Obj(fs), k) && k != "localizations"
  {
    var kept := RemoveKeys(fs, Localizations);
    SameKeysIndexOf(ConsumedFields(env, kept, path), kept, k);
    if k != "localizations" {
      RemoveKeysGet(fs, Localizations, k);
    } else {
      assert IndexOf(kept, k).None?;
    }
  }

  /** An entity with no `localizations` anywhere (media aside) is left as it was. */
  lemma {:induction false} ConsumedIdentity(env: Env, v: Value, path: string)
    requires LocalizationFree(v) && !IsMedia(v)
    ensures Consumed(env, v, path) == v
    decreases Size(v), 0
  {
    match v
    case Obj(fs) =>
      assert forall j :: 0 <= j < |fs| ==> fs[j].key !in Localizations;
      RemoveKeysAbsent(fs, Localizations);
      ConsumedFieldsIdentity(env, fs, path);
    case Arr(xs) =>
      ConsumedItemsIdentity(env, xs, path);
    case _ =>
  }

  lemma {:induction false} ConsumedEntryIdentity(env: Env, v: Value, full: string, isId: bool)
    requires LocalizationFree(v)
    ensures ConsumedEntry(env, v, full, isId) == v
    decreases Size(v), 1
  {
    if Visited(env, v, full, isId) {
      ConsumedIdentity(env, v, ChildPath(full, v));
    }
  }

  lemma {:induction false} ConsumedFieldsIdentity(env: Env, fs: seq<Field>, path: string)
    requires forall j :: 0 <= j < |fs| ==> LocalizationFree(fs[j].val)
    ensures ConsumedFields(env, fs, path) == fs
    decreases FieldsSize(fs), 2
  {
    if fs != [] {
      ConsumedEntryIdentity(env, fs[0].val, JoinPath(path, fs[0].key), fs[0].key == "id");
      assert forall j :: 0 <= j < |fs[1..]| ==> fs[1..][j] == fs[j + 1];
      ConsumedFieldsIdentity(env, fs[1..], path);
      assert fs == [fs[0]] + fs[1..];
    }
  }

  lemma {:induction false} ConsumedItemsIdentity(env: Env, xs: seq<Value>, path: string)
    requires forall j :: 0 <= j < |xs| ==> LocalizationFree(xs[j])
    ensures ConsumedItems(env, xs, path) == xs
    decreases ItemsSize(xs), 2
  {
    if xs != [] {
      ConsumedEntryIdentity(env, xs[0], path, false);
      assert forall j :: 0 <= j < |xs[1..]| ==> xs[1..][j] == xs[j + 1];
      ConsumedItemsIdentity(env, xs[1..], path);
      assert xs == [xs[0]] + xs[1..];
    }
  }
}
