/**
 * JavaScript values as the transfer engine sees them: entities, remote
 * records, media files and populate plans are all plain JSON-like trees.
 * Objects keep their keys in insertion order (an association list), because
 * the engine's reductions and de-duplications depend on that order.
 */
module Values {

  datatype Value =
    | Undef
    | Null
    | Bool(b: bool)
    | Num(n: int)
    | Str(s: string)
    | Arr(items: seq<Value>)
    | Obj(fields: seq<Field>)

  datatype Field = Field(key: string, val: Value)

  datatype Option<+T> = None | Some(value: T)

  /** JavaScript truthiness. */
  predicate Truthy(v: Value)
  {
    match v
    case Undef => false
    case Null => false
    case Bool(b) => b
    case Num(n) => n != 0
    case Str(s) => s != ""
    case Arr(_) => true
    case Obj(_) => true
  }

  /** The operand of `??` falls through exactly for null and undefined. */
  predicate Nullish(v: Value)
  {
    v.Undef? || v.Null?
  }

  /** lodash `isObject`: arrays and objects. */
  predicate IsObject(v: Value)
  {
    v.Arr? || v.Obj?
  }

  /** lodash `isEmpty`: no elements, no own keys, the empty string, or a primitive. */
  predicate IsEmpty(v: Value)
  {
    match v
    case Arr(xs) => |xs| == 0
    case Obj(fs) => |fs| == 0
    case Str(s) => s == ""
    case _ => true
  }

  function Size(v: Value): (n: nat)
    ensures n >= 1
  {
    match v
    case Arr(xs) => 1 + ItemsSize(xs)
    case Obj(fs) => 1 + FieldsSize(fs)
    case _ => 1
  }

  function ItemsSize(xs: seq<Value>): nat
  {
    if xs == [] then 0 else Size(xs[0]) + ItemsSize(xs[1..])
  }

  function FieldsSize(fs: seq<Field>): nat
  {
    if fs == [] then 0 else Size(fs[0].val) + FieldsSize(fs[1..])
  }

  lemma {:induction false} ItemSmaller(xs: seq<Value>, i: nat)
    requires i < |xs|
    ensures Size(xs[i]) <= ItemsSize(xs)
  {
    if i > 0 {
      ItemSmaller(xs[1..], i - 1);
    }
  }

  lemma ItemsBound(xs: seq<Value>)
    ensures forall i :: 0 <= i < |xs| ==> Size(xs[i]) <= ItemsSize(xs)
  {
    forall i | 0 <= i < |xs| ensures Size(xs[i]) <= ItemsSize(xs) {
      ItemSmaller(xs, i);
    }
  }

  lemma {:induction false} FieldSmaller(fs: seq<Field>, i: nat)
    requires i < |fs|
    ensures Size(fs[i].val) <= FieldsSize(fs)
  {
    if i > 0 {
      FieldSmaller(fs[1..], i - 1);
    }
  }

  /** Index of the first field named `k`, if any. */
  function IndexOf(fs: seq<Field>, k: string): (r: Option<nat>)
    ensures r.Some? ==> r.value < |fs| && fs[r.value].key == k
    ensures r.Some? ==> forall j :: 0 <= j < r.value ==> fs[j].key != k
    ensures r.None? ==> forall j :: 0 <= j < |fs| ==> fs[j].key != k
  {
    if fs == [] then None
    else if fs[0].key == k then Some(0)
    else match IndexOf(fs[1..], k)
      case None => None
      case Some(j) => Some(j + 1)
  }

  /** `k in v` for an object. */
  predicate Has(v: Value, k: string)
  {
    v.Obj? && IndexOf(v.fields, k).Some?
  }

  /** Property read `v[k]`; anything that is not an object has no own keys here. */
  function Get(v: Value, k: string): (r: Value)
    ensures !Has(v, k) ==> r == Undef
    ensures Has(v, k) ==> Size(r) < Size(v)
  {
    if v.Obj? then
      match IndexOf(v.fields, k)
      case None => Undef
      case Some(i) => FieldSmaller(v.fields, i); v.fields[i].val
    else Undef
  }

  /** Property path read `v.k1.k2…` with optional chaining. */
  function At(v: Value, path: seq<string>): Value
    decreases |path|
  {
    if path == [] then v else At(Get(v, path[0]), path[1..])
  }

  /** Object spread `{...v}`: the own fields of an object, nothing for any other value. */
  function Spread(v: Value): seq<Field>
  {
    if v.Obj? then v.fields else []
  }

  /** Assignment `o[k] = x`: an existing key keeps its position, a new key goes last. */
  function SetField(fs: seq<Field>, k: string, x: Value): (r: seq<Field>)
    ensures IndexOf(fs, k).Some? ==> |r| == |fs|
    ensures IndexOf(fs, k).None? ==> r == fs + [Field(k, x)]
    ensures forall j :: 0 <= j < |fs| && fs[j].key != k ==> r[j] == fs[j]
  {
    match IndexOf(fs, k)
    case None => fs + [Field(k, x)]
    case Some(i) => fs[i := Field(k, x)]
  }

  lemma SetFieldGet(fs: seq<Field>, k: string, x: Value, k2: string)
    ensures Get(Obj(SetField(fs, k, x)), k2) == if k2 == k then x else Get(Obj(fs), k2)
  {
    var r := SetField(fs, k, x);
    match IndexOf(fs, k)
    case None =>
      if k2 != k {
        match IndexOf(fs, k2)
        case None =>
          assert IndexOf(r, k2).None? by {
            forall j | 0 <= j < |r| ensures r[j].key != k2 {
              if j < |fs| { } else { assert r[j] == Field(k, x); }
            }
          }
        case Some(i) =>
          assert IndexOf(r, k2) == Some(i) by {
            IndexOfFirst(r, k2, i);
          }
      } else {
        assert IndexOf(r, k) == Some(|fs|) by {
          assert r[|fs|].key == k;
          IndexOfFirst(r, k, |fs|);
        }
      }
    case Some(i) =>
      if k2 != k {
        match IndexOf(fs, k2)
        case None =>
          assert IndexOf(r, k2).None? by {
            forall j | 0 <= j < |r| ensures r[j].key != k2 {
              if j == i { } else { assert r[j] == fs[j]; }
            }
          }
        case Some(i2) =>
          IndexOfFirst(r, k2, i2);
      } else {
        IndexOfFirst(r, k, i);
      }
  }

  /** The first index carrying `k` determines IndexOf. */
  lemma IndexOfFirst(fs: seq<Field>, k: string, i: nat)
    requires i < |fs| && fs[i].key == k
    requires forall j :: 0 <= j < i ==> fs[j].key != k
    ensures IndexOf(fs, k) == Some(i)
  {
    match IndexOf(fs, k)
    case None =>
    case Some(i2) =>
      if i2 < i { } else if i < i2 { }
  }

  /** `_.omit(o, keys)` / `delete o[k]`: every field whose key is listed is removed. */
  function RemoveKeys(fs: seq<Field>, ks: set<string>): (r: seq<Field>)
    ensures forall j :: 0 <= j < |r| ==> r[j].key !in ks && r[j] in fs
    ensures forall f :: f in fs && f.key !in ks ==> f in r
    ensures |r| <= |fs|
  {
    if fs == [] then []
    else if fs[0].key in ks then RemoveKeys(fs[1..], ks)
    else [fs[0]] + RemoveKeys(fs[1..], ks)
  }

  lemma {:induction false} RemoveKeysSize(fs: seq<Field>, ks: set<string>)
    ensures FieldsSize(RemoveKeys(fs, ks)) <= FieldsSize(fs)
  {
    if fs != [] {
      RemoveKeysSize(fs[1..], ks);
    }
  }

  /** Removing other keys does not change what a read of `k` sees. */
  lemma {:induction false} RemoveKeysGet(fs: seq<Field>, ks: set<string>, k: string)
    requires k !in ks
    ensures Has(Obj(RemoveKeys(fs, ks)), k) <==> Has(Obj(fs), k)
    ensures Get(Obj(RemoveKeys(fs, ks)), k) == Get(Obj(fs), k)
  {
    if fs != [] {
      var rest := RemoveKeys(fs[1..], ks);
      RemoveKeysGet(fs[1..], ks, k);
      if fs[0].key == k {
        assert RemoveKeys(fs, ks) == [fs[0]] + rest;
        IndexOfFirst(fs, k, 0);
        IndexOfFirst(RemoveKeys(fs, ks), k, 0);
      } else {
        assert [fs[0]] + fs[1..] == fs;
        ConsIndexOf(fs[0], fs[1..], k);
        if fs[0].key !in ks {
          assert RemoveKeys(fs, ks) == [fs[0]] + rest;
          ConsIndexOf(fs[0], rest, k);
        } else {
          assert RemoveKeys(fs, ks) == rest;
        }
      }
    }
  }

  /** A head that does not carry `k` does not change a read of `k`. */
  lemma ConsIndexOf(f: Field, fs: seq<Field>, k: string)
    requires f.key != k
    ensures Has(Obj([f] + fs), k) <==> Has(Obj(fs), k)
    ensures Get(Obj([f] + fs), k) == Get(Obj(fs), k)
  {
    assert ([f] + fs)[1..] == fs;
  }

  lemma SetFieldHas(fs: seq<Field>, k: string, x: Value, k2: string)
    ensures Has(Obj(SetField(fs, k, x)), k2) <==> k2 == k || Has(Obj(fs), k2)
  {
    var r := SetField(fs, k, x);
    if k2 == k {
      match IndexOf(fs, k)
      case None => assert r[|fs|].key == k;
      case Some(i) => assert r[i].key == k;
    } else {
      if Has(Obj(fs), k2) {
        var i := IndexOf(fs, k2).value;
        assert r[i] == fs[i];
      }
      if Has(Obj(r), k2) {
        var i := IndexOf(r, k2).value;
        if i < |fs| { assert r[i] == fs[i]; }
      }
    }
  }

  /** A JavaScript object never carries the same key twice. */
  predicate DistinctKeys(fs: seq<Field>)
  {
    forall i, j :: 0 <= i < j < |fs| ==> fs[i].key != fs[j].key
  }

  /** Every field of an assignment's result is an old field or the new one. */
  lemma SetFieldFields(fs: seq<Field>, k: string, x: Value)
    ensures forall j :: 0 <= j < |SetField(fs, k, x)| ==> SetField(fs, k, x)[j] in fs || SetField(fs, k, x)[j] == Field(k, x)
  {
  }

  lemma {:induction false} RemoveKeysDistinct(fs: seq<Field>, ks: set<string>)
    requires DistinctKeys(fs)
    ensures DistinctKeys(RemoveKeys(fs, ks))
  {
    if fs != [] {
      RemoveKeysDistinct(fs[1..], ks);
      if fs[0].key !in ks {
        var r := RemoveKeys(fs[1..], ks);
        forall j | 0 <= j < |r| ensures r[j].key != fs[0].key {
          var i :| 0 <= i < |fs[1..]| && fs[1..][i] == r[j];
          assert fs[i + 1] == r[j];
        }
      }
    }
  }

  /** Removing keys an object does not carry changes nothing. */
  lemma {:induction false} RemoveKeysAbsent(fs: seq<Field>, ks: set<string>)
    requires forall j :: 0 <= j < |fs| ==> fs[j].key !in ks
    ensures RemoveKeys(fs, ks) == fs
  {
    if fs != [] {
      RemoveKeysAbsent(fs[1..], ks);
    }
  }

  /** `v[0]`: the first element of an array, the property "0" of an object, undefined otherwise. */
  function Index0(v: Value): (r: Value)
    ensures v.Arr? && v.items != [] ==> r == v.items[0]
    ensures !IsObject(v) ==> r == Undef
  {
    match v
    case Arr(xs) => if xs == [] then Undef else xs[0]
    case _ => Get(v, "0")
  }

  /** The values lodash iterates over for `_.map`, `_.find`, `_.filter`, `_.reduce`. */
  function Elements(v: Value): (r: seq<Value>)
    ensures v.Arr? ==> r == v.items
    ensures !IsObject(v) ==> r == []
  {
    match v
    case Arr(xs) => xs
    case Obj(fs) => FieldValues(fs)
    case _ => []
  }

  function FieldValues(fs: seq<Field>): (r: seq<Value>)
    ensures |r| == |fs| && forall i :: 0 <= i < |fs| ==> r[i] == fs[i].val
  {
    if fs == [] then [] else [fs[0].val] + FieldValues(fs[1..])
  }

  lemma {:induction false} FieldValuesSize(fs: seq<Field>)
    ensures ItemsSize(FieldValues(fs)) == FieldsSize(fs)
  {
    if fs != [] {
      FieldValuesSize(fs[1..]);
      assert FieldValues(fs)[1..] == FieldValues(fs[1..]);
    }
  }

  /** What a reduction iterates over is smaller than the value itself. */
  lemma ElementsSize(v: Value)
    ensures ItemsSize(Elements(v)) < Size(v)
  {
    if v.Obj? {
      FieldValuesSize(v.fields);
    }
  }

  /** A media object: any object carrying both `mime` and `url`. */
  predicate IsMedia(v: Value)
  {
    Has(v, "mime") && Has(v, "url")
  }

  function DigitText(d: nat): string
    requires d < 10
  {
    ["0123456789"[d]]
  }

  function NatText(n: nat): (r: string)
    ensures |r| >= 1
  {
    if n < 10 then DigitText(n) else NatText(n / 10) + DigitText(n % 10)
  }

  function IntText(n: int): string
  {
    if n < 0 then "-" + NatText(-n) else NatText(n)
  }

  /** `String(v)` for the values the engine interpolates into paths, queries and messages. */
  function Text(v: Value): string
  {
    match v
    case Undef => "undefined"
    case Null => "null"
    case Bool(b) => if b then "true" else "false"
    case Num(n) => IntText(n)
    case Str(s) => s
    case Obj(_) => "[object Object]"
    case Arr(xs) => JoinTexts(xs)
  }

  /** `Array.prototype.join(",")`, which prints null and undefined as "". */
  function JoinTexts(xs: seq<Value>): string
  {
    if xs == [] then ""
    else
      var head := if Nullish(xs[0]) then "" else Text(xs[0]);
      if |xs| == 1 then head else head + "," + JoinTexts(xs[1..])
  }
}
