/**
 * Locale reconciliation between the local and the target instance: which
 * remote entities are translations of local ones (`getConnectedLocalizations`),
 * which entity of each translation group is sent as the default-locale entity
 * (`prepareEntitiesByDefaultLocale`), and the target's locale settings
 * (`getDefaultLocales`).
 */
module Locales {
  import opened Values
  import opened Collections
  import opened Remote

  // ---------------------------------------------------------------------------
  // getConnectedLocalizations

  /** The accumulator `{ localizations, mainLocaleParent }`. */
  datatype Connected = Connected(localizations: seq<Value>, mainLocaleParent: Value)

  /** A local translation and a remote entity's attributes agree on locale and main field. */
  predicate SameTranslation(local: Value, attributes: Value, mainField: string)
  {
    Get(local, "locale") == Get(attributes, "locale") && Get(local, mainField) == Get(attributes, mainField)
  }

  /** The first local translation matching a remote entity's attributes, or undefined. */
  function FindTranslation(locals: seq<Value>, attributes: Value, mainField: string): (r: Value)
    ensures r != Undef ==> r in locals && SameTranslation(r, attributes, mainField)
    ensures (exists i :: 0 <= i < |locals| && SameTranslation(locals[i], attributes, mainField)) ==>
      exists i :: 0 <= i < |locals| && locals[i] == r && SameTranslation(locals[i], attributes, mainField) && forall j :: 0 <= j < i ==> !SameTranslation(locals[j], attributes, mainField)
    ensures (forall i :: 0 <= i < |locals| ==> !SameTranslation(locals[i], attributes, mainField)) ==> r == Undef
  {
    if locals == [] then Undef
    else if SameTranslation(locals[0], attributes, mainField) then locals[0]
    else
      var r := FindTranslation(locals[1..], attributes, mainField);
      assert forall i :: 1 <= i < |locals| ==> locals[i] == locals[1..][i - 1];
      FirstMatchTail(locals, x => SameTranslation(x, attributes, mainField), r);
      r
  }


  /** A remote entity is connected when a local translation matches it. */
  predicate IsConnected(locals: seq<Value>, remote: Value, mainField: string)
  {
    Truthy(FindTranslation(locals, Get(remote, "attributes"), mainField))
  }

  /** Among a remote entity's own localizations (`attributes.localizations.data`), the one in `mainLocale`, or undefined. */
  function MainLocaleEntity(remote: Value, mainLocale: Value): Value
  {
    FindAt(Elements(At(remote, ["attributes", "localizations", "data"])), ["attributes", "locale"], mainLocale)
  }

  /** `mainLocaleEntity ?? null` */
  function OrNull(v: Value): Value
  {
    if Nullish(v) then Null else v
  }

  /** One step of the reduction. */
  function ConnectStep(locals: seq<Value>, mainField: string, mainLocale: Value, acc: Connected, r: Value): Connected
  {
    if !IsConnected(locals, r, mainField) then acc
    else Connected(acc.localizations + [Get(r, "id")],
      if Truthy(acc.mainLocaleParent) then acc.mainLocaleParent else OrNull(MainLocaleEntity(r, mainLocale)))
  }

  function ConnectedFrom(remotes: seq<Value>, locals: seq<Value>, mainField: string, mainLocale: Value, acc: Connected): Connected
    decreases |remotes|
  {
    if remotes == [] then acc
    else ConnectedFrom(remotes[1..], locals, mainField, mainLocale, ConnectStep(locals, mainField, mainLocale, acc, remotes[0]))
  }

  /**
   * `getConnectedLocalizations(remoteLocalizations, localLocalizations, mainField, mainLocale)`:
   * the connected ids are those of the remote entities matching a local
   * translation, in order; the parent is the main-locale localization of the
   * first connected remote entity that has one, and is falsy when none has.
   */
  function GetConnectedLocalizations(remotes: seq<Value>, locals: seq<Value>, mainField: string, mainLocale: Value): (r: Connected)
    ensures var fi := FirstOffer(remotes, locals, mainField, mainLocale);
      && r.localizations == ConnectedIds(remotes, locals, mainField)
      && (Truthy(r.mainLocaleParent) <==> fi.Some?)
      && (Truthy(r.mainLocaleParent) ==> r.localizations != [])
      && (fi.Some? ==> r.mainLocaleParent == MainLocaleEntity(remotes[fi.value], mainLocale)
                       && At(r.mainLocaleParent, ["attributes", "locale"]) == mainLocale)
  {
    ConnectedFromIds(remotes, locals, mainField, mainLocale, Connected([], Null));
    ConnectedFromParent(remotes, locals, mainField, mainLocale, Connected([], Null));
    var fi := FirstOffer(remotes, locals, mainField, mainLocale);
    FirstOfferSpec(remotes, locals, mainField, mainLocale);
    assert fi.Some? ==> Get(remotes[fi.value], "id") in ConnectedIds(remotes, locals, mainField);
    ConnectedFrom(remotes, locals, mainField, mainLocale, Connected([], Null))
  }

  /** The ids of the connected remote entities, in order. */
  function ConnectedIds(remotes: seq<Value>, locals: seq<Value>, mainField: string): (r: seq<Value>)
    ensures forall x :: x in r <==> exists i :: 0 <= i < |remotes| && IsConnected(locals, remotes[i], mainField) && Get(remotes[i], "id") == x
    ensures |r| <= |remotes|
  {
    if remotes == [] then []
    else
      var rest := ConnectedIds(remotes[1..], locals, mainField);
      assert forall i :: 1 <= i < |remotes| ==> remotes[i] == remotes[1..][i - 1];
      (if IsConnected(locals, remotes[0], mainField) then [Get(remotes[0], "id")] else []) + rest
  }

  /** The remote entities that can supply the parent: connected, with a main-locale localization. */
  predicate OffersParent(locals: seq<Value>, mainField: string, mainLocale: Value, r: Value)
  {
    IsConnected(locals, r, mainField) && Truthy(MainLocaleEntity(r, mainLocale))
  }

  /** Which remote entities offer a parent, in order. */
  function Offers(remotes: seq<Value>, locals: seq<Value>, mainField: string, mainLocale: Value): (r: seq<bool>)
    ensures |r| == |remotes|
  {
    if remotes == [] then [] else [OffersParent(locals, mainField, mainLocale, remotes[0])] + Offers(remotes[1..], locals, mainField, mainLocale)
  }

  lemma {:induction false} OffersAt(remotes: seq<Value>, locals: seq<Value>, mainField: string, mainLocale: Value, j: nat)
    requires j < |remotes|
    ensures Offers(remotes, locals, mainField, mainLocale)[j] == OffersParent(locals, mainField, mainLocale, remotes[j])
    decreases j
  {
    if j > 0 {
      OffersAt(remotes[1..], locals, mainField, mainLocale, j - 1);
      assert remotes[1..][j - 1] == remotes[j];
    }
  }

  /** The first remote entity that can supply the parent. */
  function FirstOffer(remotes: seq<Value>, locals: seq<Value>, mainField: string, mainLocale: Value): Option<nat>
  {
    FirstTrue(Offers(remotes, locals, mainField, mainLocale))
  }

  /** `FirstOffer` finds the first remote entity offering a parent, and finds none only when no entity offers one. */
  lemma FirstOfferSpec(remotes: seq<Value>, locals: seq<Value>, mainField: string, mainLocale: Value)
    ensures var r := FirstOffer(remotes, locals, mainField, mainLocale);
      && (r.Some? ==> r.value < |remotes| && OffersParent(locals, mainField, mainLocale, remotes[r.value]))
      && (r.Some? ==> forall j :: 0 <= j < r.value ==> !OffersParent(locals, mainField, mainLocale, remotes[j]))
      && (r.None? ==> forall j :: 0 <= j < |remotes| ==> !OffersParent(locals, mainField, mainLocale, remotes[j]))
  {
    forall j | 0 <= j < |remotes| ensures Offers(remotes, locals, mainField, mainLocale)[j] == OffersParent(locals, mainField, mainLocale, remotes[j]) {
      OffersAt(remotes, locals, mainField, mainLocale, j);
    }
  }

  /** The search looks at the first remote entity, then at the rest. */
  lemma FirstOfferCons(remotes: seq<Value>, locals: seq<Value>, mainField: string, mainLocale: Value)
    requires remotes != []
    ensures FirstOffer(remotes, locals, mainField, mainLocale) ==
      if OffersParent(locals, mainField, mainLocale, remotes[0]) then Some(0)
      else match FirstOffer(remotes[1..], locals, mainField, mainLocale)
        case None => None
        case Some(j) => Some(j + 1)
  {
    var bs, rest := Offers(remotes, locals, mainField, mainLocale), Offers(remotes[1..], locals, mainField, mainLocale);
    assert bs == [OffersParent(locals, mainField, mainLocale, remotes[0])] + rest;
    assert bs[0] == OffersParent(locals, mainField, mainLocale, remotes[0]) && bs[1..] == rest;
    assert FirstOffer(remotes, locals, mainField, mainLocale) == FirstTrue(bs);
    assert FirstOffer(remotes[1..], locals, mainField, mainLocale) == FirstTrue(rest);
  }

  lemma {:induction false} ConnectedFromIds(remotes: seq<Value>, locals: seq<Value>, mainField: string, mainLocale: Value, acc: Connected)
    ensures ConnectedFrom(remotes, locals, mainField, mainLocale, acc).localizations == acc.localizations + ConnectedIds(remotes, locals, mainField)
    decreases |remotes|
  {
    if remotes != [] {
      var next := ConnectStep(locals, mainField, mainLocale, acc, remotes[0]);
      ConnectedFromIds(remotes[1..], locals, mainField, mainLocale, next);
    }
  }

  lemma ConnectStepParent(locals: seq<Value>, mainField: string, mainLocale: Value, acc: Connected, r: Value)
    ensures var p := ConnectStep(locals, mainField, mainLocale, acc, r).mainLocaleParent;
      && (Truthy(acc.mainLocaleParent) ==> p == acc.mainLocaleParent)
      && (!Truthy(acc.mainLocaleParent) && OffersParent(locals, mainField, mainLocale, r) ==> p == MainLocaleEntity(r, mainLocale))
      && (!Truthy(acc.mainLocaleParent) && !OffersParent(locals, mainField, mainLocale, r) ==> !Truthy(p))
  {
  }

  /** Once a parent is found, the rest of the reduction keeps it. */
  lemma {:induction false} ConnectedFromKeeps(remotes: seq<Value>, locals: seq<Value>, mainField: string, mainLocale: Value, acc: Connected)
    requires Truthy(acc.mainLocaleParent)
    ensures ConnectedFrom(remotes, locals, mainField, mainLocale, acc).mainLocaleParent == acc.mainLocaleParent
    decreases |remotes|
  {
    if remotes != [] {
      ConnectStepParent(locals, mainField, mainLocale, acc, remotes[0]);
      ConnectedFromKeeps(remotes[1..], locals, mainField, mainLocale, ConnectStep(locals, mainField, mainLocale, acc, remotes[0]));
    }
  }

  lemma {:induction false} ConnectedFromParent(remotes: seq<Value>, locals: seq<Value>, mainField: string, mainLocale: Value, acc: Connected)
    requires !Truthy(acc.mainLocaleParent)
    ensures var p := ConnectedFrom(remotes, locals, mainField, mainLocale, acc).mainLocaleParent;
      var fi := FirstOffer(remotes, locals, mainField, mainLocale);
      && (Truthy(p) <==> fi.Some?)
      && (fi.Some? ==> p == MainLocaleEntity(remotes[fi.value], mainLocale))
    decreases |remotes|
  {
    if remotes != [] {
      var next := ConnectStep(locals, mainField, mainLocale, acc, remotes[0]);
      ConnectStepParent(locals, mainField, mainLocale, acc, remotes[0]);
      FirstOfferCons(remotes, locals, mainField, mainLocale);
      if OffersParent(locals, mainField, mainLocale, remotes[0]) {
        ConnectedFromKeeps(remotes[1..], locals, mainField, mainLocale, next);
      } else {
        ConnectedFromParent(remotes[1..], locals, mainField, mainLocale, next);
        match FirstOffer(remotes[1..], locals, mainField, mainLocale)
        case None =>
        case Some(j) => assert remotes[1..][j] == remotes[j + 1];
      }
    }
  }

  // ---------------------------------------------------------------------------
  // prepareEntitiesByDefaultLocale

  /** `{ localDefaultLocale, remoteDefaultLocale, availableRemoteLocales }` */
  datatype LocalesInfo = LocalesInfo(localDefault: Value, remoteDefault: Value, available: seq<Value>)

  /** A translation in one of the target's locales. */
  predicate Available(available: seq<Value>, loc: Value)
  {
    Get(loc, "locale") in available
  }

  /** `_.filter(xs, loc => _.includes(available, loc.locale))` */
  function FilterAvailable(xs: seq<Value>, available: seq<Value>): (r: seq<Value>)
    ensures forall x :: x in r <==> x in xs && Available(available, x)
    ensures |r| <= |xs|
  {
    if xs == [] then []
    else if Available(available, xs[0]) then [xs[0]] + FilterAvailable(xs[1..], available)
    else FilterAvailable(xs[1..], available)
  }

  /** Equal default locales: the translations the target does not offer are dropped. */
  function KeepAvailable(available: seq<Value>, e: Value): Value
  {
    var locs := Get(e, "localizations");
    if IsEmpty(locs) || !Truthy(Get(e, "locale")) then e
    else Obj(SetField(Spread(e), "localizations", Arr(FilterAvailable(Elements(locs), available))))
  }

  /** `_.map(entities, …)` with `KeepAvailable`. */
  function KeepAvailableAll(available: seq<Value>, es: seq<Value>): (r: seq<Value>)
    ensures |r| == |es| && forall i :: 0 <= i < |es| ==> r[i] == KeepAvailable(available, es[i])
  {
    seq(|es|, i requires 0 <= i < |es| => KeepAvailable(available, es[i]))
  }

  /** `_.isEmpty(val.localizations) ? [] : val.localizations`, as iterated. */
  function LocalizationList(e: Value): seq<Value>
  {
    if IsEmpty(Get(e, "localizations")) then [] else Elements(Get(e, "localizations"))
  }

  /** The translation of `e` in the target's default locale, or undefined. */
  function DefaultVariant(info: LocalesInfo, e: Value): Value
  {
    FindAt(LocalizationList(e), ["locale"], info.remoteDefault)
  }

  /** `{ ...e, localizations: undefined }` */
  function Unlinked(e: Value): Value
  {
    Obj(SetField(Spread(e), "localizations", Undef))
  }

  /** Different default locales: the default-locale translation stands for `e`, or nothing does. */
  function Promote(info: LocalesInfo, e: Value): seq<Value>
  {
    if !Truthy(Get(e, "locale")) then [e]
    else
      var d := DefaultVariant(info, e);
      if !Truthy(d) then []
      else
        var others := Without(LocalizationList(e), d) + [Unlinked(e)];
        var kept := if info.available == [] then others else FilterAvailable(others, info.available);
        [Obj(SetField(Spread(d), "localizations", Arr(kept)))]
  }

  function PromoteAll(info: LocalesInfo, es: seq<Value>): seq<Value>
  {
    if es == [] then [] else Promote(info, es[0]) + PromoteAll(info, es[1..])
  }

  /**
   * `x` is what the reduction sends for the localized entity `e`: every field
   * of its translation `d` in the target's default locale but
   * `localizations`, and as localizations the other translations of `e` and
   * `e` itself unlinked, limited to the target's locales when those are known.
   */
  ghost predicate PromotedFrom(info: LocalesInfo, e: Value, x: Value)
  {
    var d := DefaultVariant(info, e);
    && (forall k :: k != "localizations" ==> Get(x, k) == Get(d, k))
    && Get(x, "localizations").Arr?
    && forall y :: y in Elements(Get(x, "localizations")) <==>
         ((y in LocalizationList(e) && y != d) || y == Unlinked(e)) && (info.available == [] || Available(info.available, y))
  }

  /** What one entity becomes when the default locales differ. */
  lemma PromoteExact(info: LocalesInfo, e: Value)
    ensures !Truthy(Get(e, "locale")) ==> Promote(info, e) == [e]
    ensures Truthy(Get(e, "locale")) && !Truthy(DefaultVariant(info, e)) ==> Promote(info, e) == []
    ensures Truthy(Get(e, "locale")) && Truthy(DefaultVariant(info, e)) ==>
      && DefaultVariant(info, e) in LocalizationList(e) && Get(DefaultVariant(info, e), "locale") == info.remoteDefault
      && |Promote(info, e)| == 1 && PromotedFrom(info, e, Promote(info, e)[0])
  {
    var d := DefaultVariant(info, e);
    if Truthy(Get(e, "locale")) && Truthy(d) {
      assert At(d, ["locale"]) == Get(d, "locale");
      var others := Without(LocalizationList(e), d) + [Unlinked(e)];
      var kept := if info.available == [] then others else FilterAvailable(others, info.available);
      var x := Obj(SetField(Spread(d), "localizations", Arr(kept)));
      assert Promote(info, e) == [x];
      SetFieldGet(Spread(d), "localizations", Arr(kept), "localizations");
      forall k | k != "localizations" ensures Get(x, k) == Get(d, k) {
        SetFieldGet(Spread(d), "localizations", Arr(kept), k);
      }
    }
  }

  /** Every entity without a locale is sent as it is, and every promotable localized one is sent as its promotion. */
  lemma {:induction false} PromoteAllCovers(info: LocalesInfo, es: seq<Value>)
    ensures forall i :: 0 <= i < |es| && !Truthy(Get(es[i], "locale")) ==> es[i] in PromoteAll(info, es)
    ensures forall i :: 0 <= i < |es| && Truthy(Get(es[i], "locale")) && Truthy(DefaultVariant(info, es[i])) ==>
      exists x :: x in PromoteAll(info, es) && PromotedFrom(info, es[i], x)
  {
    if es != [] {
      var rest := es[1..];
      var head, tail := Promote(info, es[0]), PromoteAll(info, rest);
      PromoteExact(info, es[0]);
      PromoteAllCovers(info, rest);
      forall i | 0 <= i < |es|
        ensures !Truthy(Get(es[i], "locale")) ==> es[i] in head + tail
        ensures Truthy(Get(es[i], "locale")) && Truthy(DefaultVariant(info, es[i])) ==>
          exists x :: x in head + tail && PromotedFrom(info, es[i], x)
      {
        if i == 0 {
          if Truthy(Get(es[0], "locale")) && Truthy(DefaultVariant(info, es[0])) {
            assert head[0] in head + tail;
          }
        } else {
          assert es[i] == rest[i - 1];
          if Truthy(Get(es[i], "locale")) && Truthy(DefaultVariant(info, es[i])) {
            var x :| x in tail && PromotedFrom(info, rest[i - 1], x);
            assert x in head + tail;
          }
        }
      }
    }
  }

  /** Nothing else is sent: an entity without a locale, or the promotion of a localized entity. */
  lemma {:induction false} PromoteAllSound(info: LocalesInfo, es: seq<Value>, x: Value)
    requires x in PromoteAll(info, es)
    ensures (x in es && !Truthy(Get(x, "locale"))) ||
            exists i :: 0 <= i < |es| && Truthy(Get(es[i], "locale")) && PromotedFrom(info, es[i], x)
  {
    var rest := es[1..];
    var head, tail := Promote(info, es[0]), PromoteAll(info, rest);
    PromoteExact(info, es[0]);
    if x in head {
      if Truthy(Get(es[0], "locale")) {
        assert x == head[0] && PromotedFrom(info, es[0], x);
      }
    } else {
      PromoteAllSound(info, rest, x);
      if x in rest && !Truthy(Get(x, "locale")) {
        assert x in es;
      } else {
        var j :| 0 <= j < |rest| && Truthy(Get(rest[j], "locale")) && PromotedFrom(info, rest[j], x);
        assert es[j + 1] == rest[j];
      }
    }
  }

  /** When every entity is promotable, the i-th entity sent stands for the i-th entity. */
  lemma PromoteAllInOrder(info: LocalesInfo, es: seq<Value>, i: nat)
    requires |PromoteAll(info, es)| == |es| && i < |es|
    ensures !Truthy(Get(es[i], "locale")) ==> PromoteAll(info, es)[i] == es[i]
    ensures Truthy(Get(es[i], "locale")) ==> PromotedFrom(info, es[i], PromoteAll(info, es)[i])
  {
    PromoteAllAt(info, es, i);
    PromoteExact(info, es[i]);
  }

  /** When every entity is promotable, the i-th entity sent is the promotion of the i-th entity. */
  lemma {:induction false} PromoteAllAt(info: LocalesInfo, es: seq<Value>, i: nat)
    requires |PromoteAll(info, es)| == |es| && i < |es|
    ensures Promote(info, es[i]) == [PromoteAll(info, es)[i]]
  {
    var rest := es[1..];
    var head, tail := Promote(info, es[0]), PromoteAll(info, rest);
    assert PromoteAll(info, es) == head + tail;
    PromoteAllCount(info, rest);
    assert |head| <= 1;
    assert |head| == 1 && |tail| == |rest|;
    if i == 0 {
      assert head == [head[0]];
    } else {
      assert PromoteAll(info, es)[i] == tail[i - 1] && es[i] == rest[i - 1];
      PromoteAllAt(info, rest, i - 1);
    }
  }

  /**
   * `prepareEntitiesByDefaultLocale(entities, localesInfo)`. Same default
   * locale: the same entities, in order, each keeping every field but
   * `localizations`. Different default locales: at most one entity per local
   * entity, exactly one for each when all are promotable, and what is sent is
   * an entity without locale or one in the target's default locale.
   */
  function PrepareEntitiesByDefaultLocale(es: seq<Value>, info: LocalesInfo): (r: seq<Value>)
    ensures info.localDefault == info.remoteDefault ==>
      && |r| == |es|
      && (info.available == [] ==> r == es)
      && forall i, k :: 0 <= i < |es| && k != "localizations" ==> Get(r[i], k) == Get(es[i], k)
    ensures info.localDefault != info.remoteDefault ==>
      && |r| <= |es|
      && (|r| == |es| <==> forall i :: 0 <= i < |es| ==> Promotable(info, es[i]))
      && forall x :: x in r ==> (x in es && !Truthy(Get(x, "locale"))) || Get(x, "locale") == info.remoteDefault
    ensures info.localDefault != info.remoteDefault ==>
      && (forall i :: 0 <= i < |es| && !Truthy(Get(es[i], "locale")) ==> es[i] in r)
      && (forall i :: 0 <= i < |es| && Truthy(Get(es[i], "locale")) && Truthy(DefaultVariant(info, es[i])) ==>
            exists x :: x in r && PromotedFrom(info, es[i], x))
      && (forall x :: x in r ==>
            (x in es && !Truthy(Get(x, "locale"))) || exists i :: 0 <= i < |es| && Truthy(Get(es[i], "locale")) && PromotedFrom(info, es[i], x))
      && (|r| == |es| ==> forall i :: 0 <= i < |es| ==>
            (!Truthy(Get(es[i], "locale")) ==> r[i] == es[i]) && (Truthy(Get(es[i], "locale")) ==> PromotedFrom(info, es[i], r[i])))
  {
    if info.localDefault == info.remoteDefault then
      if info.available == [] then es
      else
        var r := KeepAvailableAll(info.available, es);
        forall i, k | 0 <= i < |es| && k != "localizations" ensures Get(r[i], k) == Get(es[i], k) {
          var e := es[i];
          var locs := Get(e, "localizations");
          if !(IsEmpty(locs) || !Truthy(Get(e, "locale"))) {
            SetFieldGet(Spread(e), "localizations", Arr(FilterAvailable(Elements(locs), info.available)), k);
          }
        }
        r
    else
      var r := PromoteAll(info, es);
      PromoteAllCount(info, es);
      PromoteAllLocale(info, es);
      PromoteAllCovers(info, es);
      forall x | x in r
        ensures (x in es && !Truthy(Get(x, "locale"))) || exists i :: 0 <= i < |es| && Truthy(Get(es[i], "locale")) && PromotedFrom(info, es[i], x)
      {
        PromoteAllSound(info, es, x);
      }
      assert |r| == |es| ==> forall i :: 0 <= i < |es| ==>
        (!Truthy(Get(es[i], "locale")) ==> r[i] == es[i]) && (Truthy(Get(es[i], "locale")) ==> PromotedFrom(info, es[i], r[i])) by {
        if |r| == |es| {
          forall i | 0 <= i < |es|
            ensures (!Truthy(Get(es[i], "locale")) ==> r[i] == es[i]) && (Truthy(Get(es[i], "locale")) ==> PromotedFrom(info, es[i], r[i]))
          {
            PromoteAllInOrder(info, es, i);
          }
        }
      }
      r
  }

  /** An entity that survives the reduction: no locale, or a translation in the target's default locale. */
  predicate Promotable(info: LocalesInfo, e: Value)
  {
    !Truthy(Get(e, "locale")) || Truthy(DefaultVariant(info, e))
  }

  /** Same default locale, target locales known: the translations kept are those in a target locale. */
  lemma SameDefaultLocaleFilters(es: seq<Value>, info: LocalesInfo, i: nat)
    requires info.localDefault == info.remoteDefault && info.available != []
    requires i < |es| && Truthy(Get(es[i], "locale")) && !IsEmpty(Get(es[i], "localizations"))
    ensures var r := PrepareEntitiesByDefaultLocale(es, info);
      forall loc :: loc in Elements(Get(r[i], "localizations")) <==> loc in Elements(Get(es[i], "localizations")) && Available(info.available, loc)
  {
    var e := es[i];
    SetFieldGet(Spread(e), "localizations", Arr(FilterAvailable(Elements(Get(e, "localizations")), info.available)), "localizations");
  }

  lemma {:induction false} PromoteAllCount(info: LocalesInfo, es: seq<Value>)
    ensures |PromoteAll(info, es)| <= |es|
    ensures |PromoteAll(info, es)| == |es| <==> forall i :: 0 <= i < |es| ==> Promotable(info, es[i])
  {
    if es != [] {
      PromoteAllCount(info, es[1..]);
      assert forall i :: 1 <= i < |es| ==> es[i] == es[1..][i - 1];
    }
  }

  lemma PromoteLocale(info: LocalesInfo, e: Value)
    ensures forall x :: x in Promote(info, e) ==> (x == e && !Truthy(Get(e, "locale"))) || Get(x, "locale") == info.remoteDefault
  {
    if Truthy(Get(e, "locale")) {
      var d := DefaultVariant(info, e);
      if Truthy(d) {
        var others := Without(LocalizationList(e), d) + [Unlinked(e)];
        var kept := if info.available == [] then others else FilterAvailable(others, info.available);
        SetFieldGet(Spread(d), "localizations", Arr(kept), "locale");
        assert At(d, ["locale"]) == Get(d, "locale");
      }
    }
  }

  lemma {:induction false} PromoteAllLocale(info: LocalesInfo, es: seq<Value>)
    ensures forall x :: x in PromoteAll(info, es) ==> (x in es && !Truthy(Get(x, "locale"))) || Get(x, "locale") == info.remoteDefault
  {
    if es != [] {
      PromoteLocale(info, es[0]);
      PromoteAllLocale(info, es[1..]);
    }
  }

  /** The promoted translation lists the original entity, unlinked, among its localizations. */
  lemma PromoteKeepsOriginal(info: LocalesInfo, e: Value)
    requires Truthy(Get(e, "locale")) && Truthy(DefaultVariant(info, e))
    requires info.available == [] || Get(e, "locale") in info.available
    ensures |Promote(info, e)| == 1
    ensures Unlinked(e) in Elements(Get(Promote(info, e)[0], "localizations"))
  {
    var d := DefaultVariant(info, e);
    var others := Without(LocalizationList(e), d) + [Unlinked(e)];
    var kept := if info.available == [] then others else FilterAvailable(others, info.available);
    SetFieldGet(Spread(d), "localizations", Arr(kept), "localizations");
    SetFieldGet(Spread(e), "localizations", Undef, "locale");
    assert Unlinked(e) in others;
    assert Get(Unlinked(e), "locale") == Get(e, "locale");
  }

  // ---------------------------------------------------------------------------
  // getDefaultLocales

  /** `l.isDefault` */
  predicate Flagged(l: Value)
  {
    Truthy(Get(l, "isDefault"))
  }

  /** `_.find(locales, l => l.isDefault)` */
  function FlaggedDefault(locales: seq<Value>): (r: Value)
    ensures r != Undef ==> r in locales && Flagged(r)
    ensures (exists i :: 0 <= i < |locales| && Flagged(locales[i])) ==>
      exists i :: 0 <= i < |locales| && locales[i] == r && Flagged(locales[i]) && forall j :: 0 <= j < i ==> !Flagged(locales[j])
    ensures (forall i :: 0 <= i < |locales| ==> !Flagged(locales[i])) ==> r == Undef
  {
    if locales == [] then Undef
    else if Flagged(locales[0]) then locales[0]
    else
      var r := FlaggedDefault(locales[1..]);
      assert forall i :: 1 <= i < |locales| ==> locales[i] == locales[1..][i - 1];
      FirstMatchTail(locales, Flagged, r);
      r
  }

  /** `_.map(locales, l => l.code)` */
  function Codes(locales: seq<Value>): (r: seq<Value>)
    ensures |r| == |locales| && forall i :: 0 <= i < |locales| ==> r[i] == Get(locales[i], "code")
  {
    seq(|locales|, i requires 0 <= i < |locales| => Get(locales[i], "code"))
  }

  /** The request for the target's locales. */
  const LocalesRequest: Request := Request(Fetch, Root, "/i18n/locales", Undef)

  /** `getDefaultLocales`: the local default, read from the plugin store, is a parameter. */
  function GetDefaultLocales(server: Server, t: nat, localDefault: Value): (r: Call<LocalesInfo>)
    ensures r.sent == [LocalesRequest] && r.value.localDefault == localDefault
  {
    match server(t, LocalesRequest)
    case Err(_) => Call(LocalesInfo(localDefault, localDefault, []), [LocalesRequest])
    case Ok(body) =>
      var locales := Elements(body);
      var code := Get(FlaggedDefault(locales), "code");
      Call(LocalesInfo(localDefault, if Nullish(code) then localDefault else code, Codes(locales)), [LocalesRequest])
  }

  /** Without the target's locale list, nothing is filtered or promoted: the entities go as they are. */
  lemma DefaultLocalesFallback(server: Server, t: nat, localDefault: Value, es: seq<Value>)
    requires server(t, LocalesRequest).Err?
    ensures var info := GetDefaultLocales(server, t, localDefault).value;
      info.remoteDefault == localDefault && info.available == [] && PrepareEntitiesByDefaultLocale(es, info) == es
  {
  }

  /**
   * The target's default locale is the code of the first locale flagged
   * default, or the local default when that code is nullish or no locale is
   * flagged; the available locales are all the codes.
   */
  lemma DefaultLocalesFound(server: Server, t: nat, localDefault: Value)
    requires server(t, LocalesRequest).Ok?
    ensures var locales := Elements(server(t, LocalesRequest).body);
      var info := GetDefaultLocales(server, t, localDefault).value;
      && info.available == Codes(locales)
      && ((forall i :: 0 <= i < |locales| ==> !Flagged(locales[i])) ==> info.remoteDefault == localDefault)
      && (forall i :: 0 <= i < |locales| && Flagged(locales[i]) && (forall j :: 0 <= j < i ==> !Flagged(locales[j])) ==>
            info.remoteDefault == if Nullish(Get(locales[i], "code")) then localDefault else Get(locales[i], "code"))
  {
    var locales := Elements(server(t, LocalesRequest).body);
    forall i | 0 <= i < |locales| && Flagged(locales[i]) && (forall j :: 0 <= j < i ==> !Flagged(locales[j]))
      ensures FlaggedDefault(locales) == locales[i]
    {
      FlaggedDefaultFirst(locales, i);
    }
  }

  /** The first flagged locale is the one `_.find` returns. */
  lemma FlaggedDefaultFirst(locales: seq<Value>, i: nat)
    requires i < |locales| && Flagged(locales[i])
    requires forall j :: 0 <= j < i ==> !Flagged(locales[j])
    ensures FlaggedDefault(locales) == locales[i]
  {
    var k :| 0 <= k < |locales| && locales[k] == FlaggedDefault(locales) && Flagged(locales[k])
             && forall j :: 0 <= j < k ==> !Flagged(locales[j]);
    assert k == i;
  }
}
