/**
 * The lodash list operations the engine relies on, over sequences of values:
 * `uniqBy` / `uniq` (keep the first element of every key), `compact`,
 * `without` and keyed membership.
 */
module Collections {
  import opened Values

  /** Some element of `xs` has key `k`. */
  predicate KeyIn(xs: seq<Value>, key: Value -> Value, k: Value)
  {
    exists j :: 0 <= j < |xs| && key(xs[j]) == k
  }

  /** No two elements of `xs` share a key. */
  predicate UniqueBy(xs: seq<Value>, key: Value -> Value)
  {
    forall i, j :: 0 <= i < j < |xs| ==> key(xs[i]) != key(xs[j])
  }

  /** `_.uniqBy(xs, key)`: the first element of every key, in order. */
  function UniqBy(xs: seq<Value>, key: Value -> Value): (r: seq<Value>)
    ensures forall x :: x in r ==> x in xs
    ensures |r| <= |xs|
    decreases |xs|
  {
    if xs == [] then []
    else
      var r := UniqBy(xs[..|xs| - 1], key);
      if KeyIn(r, key, key(xs[|xs| - 1])) then r else r + [xs[|xs| - 1]]
  }

  lemma {:induction false} UniqByUnique(xs: seq<Value>, key: Value -> Value)
    ensures UniqueBy(UniqBy(xs, key), key)
    decreases |xs|
  {
    if xs != [] {
      UniqByUnique(xs[..|xs| - 1], key);
    }
  }

  /** The first index holding `true`, if any. */
  function FirstTrue(bs: seq<bool>): (r: Option<nat>)
    ensures r.Some? ==> r.value < |bs| && bs[r.value]
    ensures r.Some? ==> forall j :: 0 <= j < r.value ==> !bs[j]
    ensures r.None? ==> forall j :: 0 <= j < |bs| ==> !bs[j]
    decreases |bs|
  {
    if bs == [] then None
    else if bs[0] then Some(0)
    else
      assert forall i :: 1 <= i < |bs| ==> bs[i] == bs[1..][i - 1];
      match FirstTrue(bs[1..])
      case None => None
      case Some(j) => Some(j + 1)
  }

  /** Nothing is lost: every key of the input is still represented. */
  lemma {:induction false} UniqByKeys(xs: seq<Value>, key: Value -> Value, k: Value)
    ensures KeyIn(UniqBy(xs, key), key, k) <==> KeyIn(xs, key, k)
    decreases |xs|
  {
    if xs != [] {
      var p, last := xs[..|xs| - 1], xs[|xs| - 1];
      UniqByKeys(p, key, k);
      var r := UniqBy(p, key);
      assert xs == p + [last];
      KeyInConcat(p, [last], key, k);
      KeyInConcat(r, [last], key, k);
      KeyInSingle(last, key, k);
      if KeyIn(r, key, key(last)) && key(last) == k {
        assert KeyIn(r, key, k);
      }
    }
  }

  lemma KeyInSingle(x: Value, key: Value -> Value, k: Value)
    ensures KeyIn([x], key, k) <==> key(x) == k
  {
    if key(x) == k {
      assert [x][0] == x;
    }
  }

  lemma KeyInConcat(xs: seq<Value>, ys: seq<Value>, key: Value -> Value, k: Value)
    ensures KeyIn(xs + ys, key, k) <==> KeyIn(xs, key, k) || KeyIn(ys, key, k)
  {
    if KeyIn(xs + ys, key, k) {
      var j :| 0 <= j < |xs + ys| && key((xs + ys)[j]) == k;
      if j >= |xs| { assert (xs + ys)[j] == ys[j - |xs|]; }
    }
    if KeyIn(ys, key, k) {
      var j :| 0 <= j < |ys| && key(ys[j]) == k;
      assert (xs + ys)[|xs| + j] == ys[j];
    }
    if KeyIn(xs, key, k) {
      var j :| 0 <= j < |xs| && key(xs[j]) == k;
      assert (xs + ys)[j] == xs[j];
    }
  }

  /** Input whose keys are already distinct comes back unchanged. */
  lemma {:induction false} UniqByIdentity(xs: seq<Value>, key: Value -> Value)
    requires UniqueBy(xs, key)
    ensures UniqBy(xs, key) == xs
    decreases |xs|
  {
    if xs != [] {
      var p := xs[..|xs| - 1];
      UniqByIdentity(p, key);
    }
  }

  /** The representative kept for a key is the first element that has it. */
  lemma {:induction false} UniqByFirst(xs: seq<Value>, key: Value -> Value, i: nat)
    requires i < |xs|
    requires forall j :: 0 <= j < i ==> key(xs[j]) != key(xs[i])
    ensures xs[i] in UniqBy(xs, key)
    decreases |xs|
  {
    var p := xs[..|xs| - 1];
    if i < |xs| - 1 {
      UniqByFirst(p, key, i);
    } else {
      UniqByKeys(p, key, key(xs[i]));
    }
  }

  function Identity(v: Value): Value { v }

  /** Key of lodash's `uniqBy(list, 'id')`: the `id` property (undefined for non-objects). */
  function IdOf(v: Value): Value { Get(v, "id") }

  /** `_.uniq(xs)`: first occurrence of every value. */
  function Uniq(xs: seq<Value>): (r: seq<Value>)
    ensures forall x :: x in r ==> x in xs
  {
    UniqBy(xs, Identity)
  }

  /**
   * The step that makes a search return the first match: if the search of
   * the tail returns its first match and the head does not match, the
   * result is the first match of the whole sequence.
   */
  lemma FirstMatchTail(xs: seq<Value>, p: Value -> bool, r: Value)
    requires xs != [] && !p(xs[0])
    requires (exists i :: 0 <= i < |xs[1..]| && p(xs[1..][i])) ==>
      exists i :: 0 <= i < |xs[1..]| && xs[1..][i] == r && p(xs[1..][i]) && forall j :: 0 <= j < i ==> !p(xs[1..][j])
    ensures (exists i :: 0 <= i < |xs| && p(xs[i])) ==>
      exists i :: 0 <= i < |xs| && xs[i] == r && p(xs[i]) && forall j :: 0 <= j < i ==> !p(xs[j])
  {
    if exists i :: 0 <= i < |xs| && p(xs[i]) {
      var i :| 0 <= i < |xs| && p(xs[i]);
      assert xs[1..][i - 1] == xs[i];
      var k :| 0 <= k < |xs[1..]| && xs[1..][k] == r && p(xs[1..][k]) && forall j :: 0 <= j < k ==> !p(xs[1..][j]);
      assert xs[k + 1] == r;
      assert forall j :: 1 <= j <= k ==> xs[j] == xs[1..][j - 1];
    }
  }

  /** `_.compact(xs)`: the truthy elements, in order. */
  function Compact(xs: seq<Value>): (r: seq<Value>)
    ensures forall x :: x in r <==> x in xs && Truthy(x)
    ensures |r| <= |xs|
  {
    if xs == [] then []
    else if Truthy(xs[0]) then [xs[0]] + Compact(xs[1..])
    else Compact(xs[1..])
  }

  /** `_.find(xs, x => x.<path> === target)`: the first such element, or undefined. */
  function FindAt(xs: seq<Value>, path: seq<string>, target: Value): (r: Value)
    ensures r != Undef ==> r in xs && At(r, path) == target
    ensures (exists i :: 0 <= i < |xs| && At(xs[i], path) == target) ==>
      exists i :: 0 <= i < |xs| && xs[i] == r && At(xs[i], path) == target && forall j :: 0 <= j < i ==> At(xs[j], path) != target
    ensures (forall i :: 0 <= i < |xs| ==> At(xs[i], path) != target) ==> r == Undef
  {
    if xs == [] then Undef
    else if At(xs[0], path) == target then xs[0]
    else
      var r := FindAt(xs[1..], path, target);
      assert forall i :: 1 <= i < |xs| ==> xs[i] == xs[1..][i - 1];
      assert (exists i :: 0 <= i < |xs| && At(xs[i], path) == target) ==>
        exists i :: 0 <= i < |xs| && xs[i] == r && At(xs[i], path) == target && forall j :: 0 <= j < i ==> At(xs[j], path) != target by {
        if exists i :: 0 <= i < |xs| && At(xs[i], path) == target {
          var i :| 0 <= i < |xs| && At(xs[i], path) == target;
          assert At(xs[1..][i - 1], path) == target;
          var k :| 0 <= k < |xs| - 1 && xs[1..][k] == r && At(xs[1..][k], path) == target
                   && forall j :: 0 <= j < k ==> At(xs[1..][j], path) != target;
          assert xs[k + 1] == r;
        }
      }
      r
  }

  /** `_.without(xs, v)`: the elements other than `v`, in order. */
  function Without(xs: seq<Value>, v: Value): (r: seq<Value>)
    ensures forall x :: x in r <==> x in xs && x != v
    ensures |r| <= |xs|
  {
    if xs == [] then []
    else if xs[0] == v then Without(xs[1..], v)
    else [xs[0]] + Without(xs[1..], v)
  }

  /** `_.difference(xs, ys)`: the elements of `xs` that are not in `ys`, in order. */
  function Difference(xs: seq<Value>, ys: seq<Value>): (r: seq<Value>)
    ensures forall x :: x in r <==> x in xs && x !in ys
    ensures |r| <= |xs|
  {
    if xs == [] then []
    else if xs[0] in ys then Difference(xs[1..], ys)
    else [xs[0]] + Difference(xs[1..], ys)
  }

  /** Dropping falsy elements keeps keys distinct. */
  lemma {:induction false} CompactUnique(xs: seq<Value>, key: Value -> Value)
    requires UniqueBy(xs, key)
    ensures UniqueBy(Compact(xs), key)
  {
    if xs != [] {
      assert UniqueBy(xs[1..], key) by {
        forall i, j | 0 <= i < j < |xs[1..]| ensures key(xs[1..][i]) != key(xs[1..][j]) {
          assert xs[1..][i] == xs[i + 1] && xs[1..][j] == xs[j + 1];
        }
      }
      CompactUnique(xs[1..], key);
      if Truthy(xs[0]) {
        var c := Compact(xs[1..]);
        forall j | 0 <= j < |c| ensures key(xs[0]) != key(c[j]) {
          assert c[j] in xs[1..];
          var k :| 0 <= k < |xs[1..]| && xs[1..][k] == c[j];
          assert xs[k + 1] == c[j];
        }
      }
    }
  }

  /** `_.map(xs, x => x.id)` */
  function IdsOf(xs: seq<Value>): (r: seq<Value>)
    ensures |r| == |xs| && forall i :: 0 <= i < |xs| ==> r[i] == Get(xs[i], "id")
  {
    if xs == [] then [] else [Get(xs[0], "id")] + IdsOf(xs[1..])
  }
}
