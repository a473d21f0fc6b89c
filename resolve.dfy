/**
 * `getCreateRelations`: the entities the transferred entities point to are
 * resolved to remote entities, one relation collection at a time. The
 * relations of a collection are split by locale; translations are resolved
 * first, each attached to a parent in the target's default locale, then the
 * default-locale relations, which reuse a parent created for a translation,
 * an existing remote entity, or `createParentRelation`.
 */
module Resolve {
  import opened Values
  import opened Collections
  import opened Remote
  import opened Query
  import opened Locales
  import opened Crud
  import opened Parents

  /** `strapi.entityService.findOne(uid, id, { populate: { localizations: true }, locale: 'all' })`. */
  type LocalStore = (string, Value) -> Value

  // ---------------------------------------------------------------------------
  // The locale split

  /** Relations the target can take: it lists no locales, has the relation's locale, or the relation has none. */
  predicate Transferable(available: seq<Value>, r: Value)
  {
    available == [] || Get(r, "locale") in available || !Truthy(Get(r, "locale"))
  }

  /** Relations resolved in the target's default locale: that locale, or none. */
  predicate DefaultLang(remoteDefault: Value, r: Value)
  {
    Get(r, "locale") == remoteDefault || !Truthy(Get(r, "locale"))
  }

  /** `filteredRelations` */
  function KeepTransferable(xs: seq<Value>, available: seq<Value>): (r: seq<Value>)
    ensures forall x :: x in r <==> x in xs && Transferable(available, x)
    ensures |r| <= |xs|
  {
    if xs == [] then []
    else if Transferable(available, xs[0]) then [xs[0]] + KeepTransferable(xs[1..], available)
    else KeepTransferable(xs[1..], available)
  }

  /** `defaultLangRelations` */
  function KeepDefaultLang(xs: seq<Value>, remoteDefault: Value): (r: seq<Value>)
    ensures forall x :: x in r <==> x in xs && DefaultLang(remoteDefault, x)
    ensures |r| <= |xs|
  {
    if xs == [] then []
    else if DefaultLang(remoteDefault, xs[0]) then [xs[0]] + KeepDefaultLang(xs[1..], remoteDefault)
    else KeepDefaultLang(xs[1..], remoteDefault)
  }

  /** The transferable relations, split into default-locale ones and translations (`_.difference`). */
  datatype Split = Split(filtered: seq<Value>, defaults: seq<Value>, localized: seq<Value>)

  /**
   * Every relation the target can take is resolved by exactly one of the two
   * loops: the default-locale loop takes those in the target's default locale
   * or without locale, the translation loop takes the rest. With no target
   * locales nothing is filtered out.
   */
  function SplitRelations(relations: seq<Value>, info: LocalesInfo): (r: Split)
    ensures forall x :: x in r.defaults <==> x in relations && Transferable(info.available, x) && DefaultLang(info.remoteDefault, x)
    ensures forall x :: x in r.localized <==> x in relations && Transferable(info.available, x) && !DefaultLang(info.remoteDefault, x)
    ensures info.available == [] ==> r.filtered == relations
  {
    assert info.available == [] ==> KeepTransferable(relations, info.available) == relations by {
      if info.available == [] {
        KeepAllTransferable(relations, info.available);
      }
    }
    var filtered := KeepTransferable(relations, info.available);
    var defaults := KeepDefaultLang(filtered, info.remoteDefault);
    Split(filtered, defaults, Difference(filtered, defaults))
  }

  lemma {:induction false} KeepAllTransferable(xs: seq<Value>, available: seq<Value>)
    requires available == []
    ensures KeepTransferable(xs, available) == xs
  {
    if xs != [] {
      KeepAllTransferable(xs[1..], available);
    }
  }

  // ---------------------------------------------------------------------------
  // Records and messages

  /** `{ ...remote.attributes, id: remote.id, oldId, modelId }` */
  function RemoteRecord(remote: Value, oldId: Value, modelId: string): Value
  {
    Obj(SetField(SetField(SetField(Spread(Get(remote, "attributes")), "id", Get(remote, "id")), "oldId", oldId), "modelId", Str(modelId)))
  }

  /** A remote record says which remote entity stands for which local one, of which collection. */
  lemma RemoteRecordFields(remote: Value, oldId: Value, modelId: string, k: string)
    ensures var r := RemoteRecord(remote, oldId, modelId);
      && Get(r, "id") == Get(remote, "id") && Get(r, "oldId") == oldId && Get(r, "modelId") == Str(modelId)
      && (k != "id" && k != "oldId" && k != "modelId" ==> Get(r, k) == Get(Get(remote, "attributes"), k))
  {
    var a := Spread(Get(remote, "attributes"));
    var b := SetField(a, "id", Get(remote, "id"));
    var c := SetField(b, "oldId", oldId);
    SetFieldGet(c, "modelId", Str(modelId), "modelId");
    SetFieldGet(c, "modelId", Str(modelId), "oldId");
    SetFieldGet(c, "modelId", Str(modelId), "id");
    SetFieldGet(c, "modelId", Str(modelId), k);
    SetFieldGet(b, "oldId", oldId, "oldId");
    SetFieldGet(b, "oldId", oldId, "id");
    SetFieldGet(b, "oldId", oldId, k);
    SetFieldGet(a, "id", Get(remote, "id"), "id");
    SetFieldGet(a, "id", Get(remote, "id"), k);
    SpreadGet(Get(remote, "attributes"), k);
  }

  /** A remote entity is a translation of the relation: same main field and locale in its attributes. */
  predicate RemoteTranslationOf(relation: Value, mainField: string, remote: Value)
  {
    SameTranslation(relation, Get(remote, "attributes"), mainField)
  }

  /** The first remote translation with the relation's main field and locale, or undefined. */
  function FindRemoteTranslation(remotes: seq<Value>, relation: Value, mainField: string): (r: Value)
    ensures r != Undef ==> r in remotes && RemoteTranslationOf(relation, mainField, r)
    ensures (exists i :: 0 <= i < |remotes| && RemoteTranslationOf(relation, mainField, remotes[i])) ==>
      exists i :: 0 <= i < |remotes| && remotes[i] == r && RemoteTranslationOf(relation, mainField, remotes[i])
        && forall j :: 0 <= j < i ==> !RemoteTranslationOf(relation, mainField, remotes[j])
    ensures (forall i :: 0 <= i < |remotes| ==> !RemoteTranslationOf(relation, mainField, remotes[i])) ==> r == Undef
  {
    if remotes == [] then Undef
    else if RemoteTranslationOf(relation, mainField, remotes[0]) then remotes[0]
    else
      var r := FindRemoteTranslation(remotes[1..], relation, mainField);
      assert forall i :: 1 <= i < |remotes| ==> remotes[i] == remotes[1..][i - 1];
      FirstMatchTail(remotes, x => RemoteTranslationOf(relation, mainField, x), r);
      r
  }

  /**
   * One relation collection as `getCreateRelations` works on it. Its server
   * is the instance shifted to the collection's start, so that the time of
   * a request is the number of requests the collection sent before it.
   */
  datatype Scope = Scope(
    server: Server, enc: Encoder, client: Client, key: string, apiName: string, mainField: string,
    createMissing: bool, info: LocalesInfo, findOne: LocalStore,
    defaults: seq<Value>, remotes: seq<Value>)

  function MissingDefault(c: Scope, relation: Value): ErrorItem
  {
    var detail := "Default remote locale " + Text(c.info.remoteDefault) + " has no entity for " + Text(Get(relation, c.mainField))
      + " (" + Text(Get(relation, "locale")) + ") in " + c.apiName;
    ErrorItem("Failed to find default locale relation", Some(Arr([DetailItem(Str(detail), "Relation error")])))
  }

  function NotCreated(c: Scope, relation: Value): ErrorItem
  {
    ErrorItem("Failed to create localized relation in locale " + Text(Get(relation, "locale")) + " for " + c.key + ": locale parent was not created.", None)
  }

  function FetchRelationFailed(key: string, f: Fault): ErrorItem
  {
    ErrorItem("Failed to fetch relation " + key + ": " + f.text, Some(GetErrorDetails(f)))
  }

  /** `relationEntity?.localizations ?? null` for the local entity of a relation. */
  function LocalTranslations(c: Scope, relation: Value): Value
  {
    OrNull(Get(c.findOne(c.key, Get(relation, "id")), "localizations"))
  }

  // ---------------------------------------------------------------------------
  // The translation loop

  /**
   * The loops' variables: the shared `errors`, `newRelations`,
   * `createdLocaleParentRelations`, the requests sent, and what was thrown.
   */
  datatype Run = Run(errors: seq<ErrorItem>, newRelations: seq<Value>, created: seq<Value>, sent: seq<Request>, fault: Option<Fault>)

  /**
   * `createdParentRelation ?? remoteDefaultLangRelation` for a default-locale
   * parent: a parent created earlier with the same main field wins; else the
   * remote default-locale entity with that main field, flattened; else none.
   */
  function ExistingParent(c: Scope, created: seq<Value>, parent: Value): (r: Value)
    ensures var createdParent := FindAt(created, [c.mainField], Get(parent, c.mainField));
      !Nullish(createdParent) ==> r in created && Get(r, c.mainField) == Get(parent, c.mainField)
    ensures var createdParent := FindAt(created, [c.mainField], Get(parent, c.mainField));
      var remoteParent := FindAt(c.defaults, ["attributes", c.mainField], Get(parent, c.mainField));
      Nullish(createdParent) && Truthy(remoteParent) ==>
        && remoteParent in c.defaults && Get(Get(remoteParent, "attributes"), c.mainField) == Get(parent, c.mainField)
        && r == Flattened(remoteParent) && Get(r, "id") == Get(remoteParent, "id")
    ensures var createdParent := FindAt(created, [c.mainField], Get(parent, c.mainField));
      var remoteParent := FindAt(c.defaults, ["attributes", c.mainField], Get(parent, c.mainField));
      Nullish(createdParent) && !Truthy(remoteParent) ==> r == Undef
  {
    var createdParent := FindAt(created, [c.mainField], Get(parent, c.mainField));
    var remoteParent := FindAt(c.defaults, ["attributes", c.mainField], Get(parent, c.mainField));
    AtTwo(createdParent, c.mainField, "");
    AtTwo(remoteParent, "attributes", c.mainField);
    if !Nullish(createdParent) then createdParent
    else if Truthy(remoteParent) then Flattened(remoteParent)
    else Undef
  }

  /** Reading a path of one or two keys. */
  lemma AtTwo(v: Value, k1: string, k2: string)
    ensures At(v, [k1]) == Get(v, k1)
    ensures At(v, [k1, k2]) == Get(Get(v, k1), k2)
  {
    AtOne(v, k1);
    AtOne(Get(v, k1), k2);
    assert [k1, k2][0] == k1 && [k1, k2][1..] == [k2];
  }

  lemma AtOne(v: Value, k: string)
    ensures At(v, [k]) == Get(v, k)
  {
    assert [k][0] == k && [k][1..] == [];
  }

  /**
   * A translation written under its parent: updated under the remote id of
   * the parent's localization in its locale when there is one, created as a
   * localization of the parent otherwise. At most one request, and either
   * data or a single error.
   */
  function Translate(c: Scope, now: nat, parent: Value, relation: Value): (r: Call<Util>)
    ensures |r.sent| <= 1
    ensures !c.createMissing ==> r == Call(Skipped, [])
    ensures var existing := FindAt(Elements(Get(parent, "localizations")), ["attributes", "locale"], Get(relation, "locale"));
      c.createMissing && Truthy(existing) ==>
        && existing in Elements(Get(parent, "localizations")) && Get(Get(existing, "attributes"), "locale") == Get(relation, "locale")
        && r.sent == [UpdateRequest(c.client, Get(existing, "id"), relation)]
    ensures var existing := FindAt(Elements(Get(parent, "localizations")), ["attributes", "locale"], Get(relation, "locale"));
      c.createMissing && !Truthy(existing) && Truthy(Get(parent, "id")) ==>
        r.sent == [LocalizationRequest(c.client, Get(parent, "id"), relation, IdsOf(Elements(Get(Get(parent, "localizations"), "data"))))]
    ensures var existing := FindAt(Elements(Get(parent, "localizations")), ["attributes", "locale"], Get(relation, "locale"));
      c.createMissing && !Truthy(existing) && !Truthy(Get(parent, "id")) ==> r.sent == [] && |r.value.errors| == 1
    ensures |r.value.errors| <= 1 && (r.value.errors != [] ==> r.value.data == Null)
  {
    var existing := FindAt(Elements(Get(parent, "localizations")), ["attributes", "locale"], Get(relation, "locale"));
    if Truthy(existing) then UpdateEntity(c.server, now, c.createMissing, c.key, relation, c.mainField, c.client, Get(existing, "id"))
    else
      var ids := IdsOf(Elements(Get(Get(parent, "localizations"), "data")));
      CreateEntityLocalization(c.server, now, c.createMissing, c.key, relation, c.mainField, c.client, Get(parent, "id"), ids)
  }

  /** `[data]` when `data` is truthy: what `if (data) newRelations.push(data)` adds. */
  function Pushed(data: Value): seq<Value>
  {
    if Truthy(data) then [data] else []
  }

  /** `_.find(currentLocaleLocalizations, l => l.locale === remoteDefaultLocale)` */
  function DefaultParent(c: Scope, relation: Value): Value
  {
    FindAt(Elements(LocalTranslations(c, relation)), ["locale"], c.info.remoteDefault)
  }

  /** `getCreateLocaleParent` for a translation's default-locale parent, at time `|s.sent|` of the collection's server. */
  function ParentCall(c: Scope, s: Run, relation: Value): Call<Outcome<Util>>
  {
    var parent := DefaultParent(c, relation);
    GetCreateLocaleParent(c.server, |s.sent|, c.client, parent, c.mainField, c.createMissing, c.key,
      c.remotes, Elements(LocalTranslations(c, relation)), ExistingParent(c, s.created, parent))
  }

  /**
   * What follows the parent's resolution `p`. Its errors are kept in every
   * case; the translation's own write reports into a local `errors` that
   * shadows the shared one, so its errors are lost.
   */
  function Attach(c: Scope, s: Run, relation: Value, p: Call<Outcome<Util>>): (r: Run)
    ensures |s.errors| <= |r.errors| && r.errors[..|s.errors|] == s.errors
    ensures |s.newRelations| <= |r.newRelations| <= |s.newRelations| + 1 && r.newRelations[..|s.newRelations|] == s.newRelations
    ensures |s.sent| <= |r.sent| && r.sent[..|s.sent|] == s.sent
  {
    var sent := s.sent + p.sent;
    match p.value
    case Threw(f) => s.(sent := sent, fault := Some(f))
    case Returned(u) =>
      if !Truthy(u.data) then s.(errors := s.errors + u.errors + [NotCreated(c, relation)], sent := sent)
      else
        Linked(s, u, sent, Translate(c, |sent|, u.data, relation))
  }

  /** The run after a truthy parent `u` and the translation's write `w`. */
  function Linked(s: Run, u: Util, sent: seq<Request>, w: Call<Util>): (r: Run)
    requires |s.sent| <= |sent| && sent[..|s.sent|] == s.sent
    ensures |s.errors| <= |r.errors| && r.errors[..|s.errors|] == s.errors
    ensures |s.newRelations| <= |r.newRelations| <= |s.newRelations| + 1 && r.newRelations[..|s.newRelations|] == s.newRelations
    ensures |s.sent| <= |r.sent| && r.sent[..|s.sent|] == s.sent
  {
    var errors, newRelations := s.errors + u.errors, s.newRelations + Pushed(w.value.data);
    assert errors[..|s.errors|] == s.errors && newRelations[..|s.newRelations|] == s.newRelations;
    assert (sent + w.sent)[..|s.sent|] == s.sent;
    Run(errors, newRelations, s.created + [u.data], sent + w.sent, None)
  }

  /** One iteration of the translation loop, at time `|s.sent|` of the collection's server. */
  function LocalizedStep(c: Scope, s: Run, relation: Value): (r: Run)
    ensures |s.errors| <= |r.errors| && r.errors[..|s.errors|] == s.errors
    ensures |s.newRelations| <= |r.newRelations| <= |s.newRelations| + 1 && r.newRelations[..|s.newRelations|] == s.newRelations
    ensures |s.sent| <= |r.sent| && r.sent[..|s.sent|] == s.sent
    ensures s.fault.Some? ==> r == s
  {
    if s.fault.Some? then s
    else
      var found := FindRemoteTranslation(c.remotes, relation, c.mainField);
      if Truthy(found) then s.(newRelations := s.newRelations + [RemoteRecord(found, Get(relation, "id"), c.key)])
      else if !Truthy(DefaultParent(c, relation)) then s.(errors := s.errors + [MissingDefault(c, relation)])
      else Attach(c, s, relation, ParentCall(c, s, relation))
  }

  /** The translation loop after the relations `xs`. */
  function LocalizedUpTo(c: Scope, s: Run, xs: seq<Value>): (r: Run)
    ensures |s.errors| <= |r.errors| && r.errors[..|s.errors|] == s.errors
    ensures |s.newRelations| <= |r.newRelations| <= |s.newRelations| + |xs| && r.newRelations[..|s.newRelations|] == s.newRelations
    ensures |s.sent| <= |r.sent| && r.sent[..|s.sent|] == s.sent
    decreases |xs|
  {
    if xs == [] then s else LocalizedStep(c, LocalizedUpTo(c, s, xs[..|xs| - 1]), xs[|xs| - 1])
  }

  /** The translation loop (`for (const localeRelation of localizedRelations)`). */
  method ResolveLocalized(c: Scope, s0: Run, localized: seq<Value>) returns (s: Run)
    ensures s == LocalizedUpTo(c, s0, localized)
  {
    s := s0;
    for i := 0 to |localized|
      invariant s == LocalizedUpTo(c, s0, localized[..i])
    {
      s := LocalizedStep(c, s, localized[i]);
      assert localized[..i + 1][..i] == localized[..i];
    }
    assert localized[..|localized|] == localized;
  }

  /** A translation the target already has is recorded under its remote id, with nothing sent. */
  lemma LocalizedFound(c: Scope, s: Run, relation: Value)
    requires s.fault.None?
    requires Truthy(FindRemoteTranslation(c.remotes, relation, c.mainField))
    ensures var found := FindRemoteTranslation(c.remotes, relation, c.mainField);
      var r := LocalizedStep(c, s, relation);
      && found in c.remotes && SameTranslation(relation, Get(found, "attributes"), c.mainField)
      && r == s.(newRelations := s.newRelations + [RemoteRecord(found, Get(relation, "id"), c.key)])
      && Get(r.newRelations[|s.newRelations|], "oldId") == Get(relation, "id")
      && Get(r.newRelations[|s.newRelations|], "modelId") == Str(c.key)
  {
    var found := FindRemoteTranslation(c.remotes, relation, c.mainField);
    RemoteRecordFields(found, Get(relation, "id"), c.key, "id");
  }

  /** A translation whose local entity has no translation in the target's default locale is one error, with nothing sent. */
  lemma LocalizedOrphan(c: Scope, s: Run, relation: Value)
    requires s.fault.None?
    requires !Truthy(FindRemoteTranslation(c.remotes, relation, c.mainField))
    requires !Truthy(DefaultParent(c, relation))
    ensures LocalizedStep(c, s, relation) == s.(errors := s.errors + [MissingDefault(c, relation)])
  {
  }

  /**
   * A parent created or found for an earlier translation of the same entity
   * is reused: no lookup is sent for it, and the translation is written
   * under it.
   */
  lemma LocalizedReusesParent(c: Scope, s: Run, relation: Value)
    requires s.fault.None?
    requires !Truthy(FindRemoteTranslation(c.remotes, relation, c.mainField))
    requires Truthy(DefaultParent(c, relation))
    requires Truthy(FindAt(s.created, [c.mainField], Get(DefaultParent(c, relation), c.mainField)))
    ensures var reused := FindAt(s.created, [c.mainField], Get(DefaultParent(c, relation), c.mainField));
      var w := Translate(c, |s.sent|, reused, relation);
      && reused in s.created
      && ParentCall(c, s, relation) == Call(Returned(Util(reused, [])), [])
      && LocalizedStep(c, s, relation) == Run(s.errors, s.newRelations + Pushed(w.value.data), s.created + [reused], s.sent + w.sent, None)
  {
    var reused := FindAt(s.created, [c.mainField], Get(DefaultParent(c, relation), c.mainField));
    assert ExistingParent(c, s.created, DefaultParent(c, relation)) == reused;
    assert s.sent + [] == s.sent && s.errors + [] == s.errors;
  }

  /**
   * A translation with a default-locale parent: the errors of the parent's
   * resolution are kept and the errors of writing the translation are not.
   * A thrown resolution stops the loop; a parent that was not created adds
   * one error; otherwise the parent is remembered and the written
   * translation recorded when there is one.
   */
  lemma LocalizedWriteErrorsDropped(c: Scope, s: Run, relation: Value, p: Call<Outcome<Util>>)
    requires s.fault.None?
    ensures var r := Attach(c, s, relation, p);
      && (p.value.Threw? ==> r == s.(sent := s.sent + p.sent, fault := Some(p.value.fault)))
      && (p.value.Returned? && !Truthy(p.value.value.data) ==>
            r.errors == s.errors + p.value.value.errors + [NotCreated(c, relation)] && r.newRelations == s.newRelations && r.created == s.created
            && r.fault.None?)
      && (p.value.Returned? && Truthy(p.value.value.data) ==>
            var w := Translate(c, |s.sent + p.sent|, p.value.value.data, relation);
            && r.errors == s.errors + p.value.value.errors
            && r.newRelations == s.newRelations + Pushed(w.value.data)
            && r.created == s.created + [p.value.value.data]
            && r.fault.None?)
  {
    match p.value
    case Threw(f) =>
    case Returned(u) =>
      if Truthy(u.data) {
        var w := Translate(c, |s.sent + p.sent|, u.data, relation);
        assert Attach(c, s, relation, p) == Run(s.errors + u.errors, s.newRelations + Pushed(w.value.data), s.created + [u.data], s.sent + p.sent + w.sent, None);
      }
  }

  /** Once something was thrown, the loop does nothing more. */
  lemma {:induction false} LocalizedFaultStops(c: Scope, s: Run, xs: seq<Value>)
    requires s.fault.Some?
    ensures LocalizedUpTo(c, s, xs) == s
    decreases |xs|
  {
    if xs != [] {
      LocalizedFaultStops(c, s, xs[..|xs| - 1]);
    }
  }

  // ---------------------------------------------------------------------------
  // The default-locale loop

  /** One iteration of the default-locale loop, at time `|s.sent|` of the collection's server. Nothing here throws. */
  function DefaultStep(c: Scope, s: Run, relation: Value): (r: Run)
    ensures |s.errors| <= |r.errors| && r.errors[..|s.errors|] == s.errors
    ensures |s.newRelations| <= |r.newRelations| <= |s.newRelations| + 1 && r.newRelations[..|s.newRelations|] == s.newRelations
    ensures |s.sent| <= |r.sent| && r.sent[..|s.sent|] == s.sent
    ensures r.created == s.created && r.fault == s.fault
  {
    var createdParent := FindAt(s.created, [c.mainField], Get(relation, c.mainField));
    if Truthy(createdParent) then s.(newRelations := s.newRelations + [createdParent])
    else
      var existing := FindAt(c.defaults, ["attributes", c.mainField], Get(relation, c.mainField));
      if Truthy(existing) then s.(newRelations := s.newRelations + [RemoteRecord(existing, Get(relation, "id"), c.key)])
      else CreateDefault(c, s, relation)
  }

  /** A default-locale relation the target does not have: its translations are looked up, then `createParentRelation`. */
  function CreateDefault(c: Scope, s: Run, relation: Value): (r: Run)
    ensures |s.errors| <= |r.errors| && r.errors[..|s.errors|] == s.errors
    ensures |s.newRelations| <= |r.newRelations| <= |s.newRelations| + 1 && r.newRelations[..|s.newRelations|] == s.newRelations
    ensures |s.sent| <= |r.sent| && r.sent[..|s.sent|] == s.sent
    ensures r.created == s.created && r.fault == s.fault
  {
    var locals := Elements(LocalTranslations(c, relation));
    var remotes := RemoteFilteredEntities(c.server, |s.sent|, c.client, c.enc, locals, c.mainField, "locale=all");
    var n := CreateParentRelation(c.server, |s.sent + remotes.sent|, c.client, c.createMissing, relation, remotes.value, locals, c.key, c.mainField);
    s.(errors := s.errors + n.value.errors, newRelations := s.newRelations + Pushed(n.value.data), sent := s.sent + remotes.sent + n.sent)
  }

  function DefaultUpTo(c: Scope, s: Run, xs: seq<Value>): (r: Run)
    ensures |s.errors| <= |r.errors| && r.errors[..|s.errors|] == s.errors
    ensures |s.newRelations| <= |r.newRelations| <= |s.newRelations| + |xs| && r.newRelations[..|s.newRelations|] == s.newRelations
    ensures |s.sent| <= |r.sent| && r.sent[..|s.sent|] == s.sent
    ensures r.created == s.created && r.fault == s.fault
    decreases |xs|
  {
    if xs == [] then s else DefaultStep(c, DefaultUpTo(c, s, xs[..|xs| - 1]), xs[|xs| - 1])
  }

  /** The default-locale loop (`for (const oldRelation of defaultLangRelations)`). */
  method ResolveDefaults(c: Scope, s0: Run, defaults: seq<Value>) returns (s: Run)
    ensures s == DefaultUpTo(c, s0, defaults)
  {
    s := s0;
    for i := 0 to |defaults|
      invariant s == DefaultUpTo(c, s0, defaults[..i])
    {
      s := DefaultStep(c, s, defaults[i]);
      assert defaults[..i + 1][..i] == defaults[..i];
    }
    assert defaults[..|defaults|] == defaults;
  }

  /**
   * The order in which a default-locale relation is resolved: a parent
   * created for one of its translations, as it is; else the remote entity
   * with the same main field, recorded under the relation's local id; else
   * the outcome of `createParentRelation`, whose errors are kept.
   */
  lemma DefaultOrder(c: Scope, s: Run, relation: Value)
    ensures var createdParent := FindAt(s.created, [c.mainField], Get(relation, c.mainField));
      var existing := FindAt(c.defaults, ["attributes", c.mainField], Get(relation, c.mainField));
      var r := DefaultStep(c, s, relation);
      && (Truthy(createdParent) ==> createdParent in s.created && r == s.(newRelations := s.newRelations + [createdParent]))
      && (!Truthy(createdParent) && Truthy(existing) ==>
            && existing in c.defaults
            && r == s.(newRelations := s.newRelations + [RemoteRecord(existing, Get(relation, "id"), c.key)])
            && Get(r.newRelations[|s.newRelations|], "oldId") == Get(relation, "id")
            && Get(r.newRelations[|s.newRelations|], "id") == Get(existing, "id"))
      && (!Truthy(createdParent) && !Truthy(existing) ==> r == CreateDefault(c, s, relation))
  {
    var createdParent := FindAt(s.created, [c.mainField], Get(relation, c.mainField));
    var existing := FindAt(c.defaults, ["attributes", c.mainField], Get(relation, c.mainField));
    if !Truthy(createdParent) && Truthy(existing) {
      RemoteRecordFields(existing, Get(relation, "id"), c.key, "id");
    }
  }

  /** The new relation `createParentRelation` returns is recorded when there is one, and its errors are kept. */
  lemma CreateDefaultOutcome(c: Scope, s: Run, relation: Value)
    ensures var locals := Elements(LocalTranslations(c, relation));
      var remotes := RemoteFilteredEntities(c.server, |s.sent|, c.client, c.enc, locals, c.mainField, "locale=all");
      var n := CreateParentRelation(c.server, |s.sent + remotes.sent|, c.client, c.createMissing, relation, remotes.value, locals, c.key, c.mainField);
      var r := CreateDefault(c, s, relation);
      && r.errors == s.errors + n.value.errors
      && r.newRelations == s.newRelations + Pushed(n.value.data)
      && r.sent == s.sent + remotes.sent + n.sent
      && |r.sent| <= |s.sent| + 2
  {
  }

  // ---------------------------------------------------------------------------
  // One relation collection

  /** The collection's settings from the core store: its plural API name and main field. */
  datatype Settings = Settings(apiName: string, mainField: string)

  /** What a collection's callback leaves: its return value (the new relations, or null), the errors it pushed, the requests it sent. */
  datatype Resolved = Resolved(value: Value, errors: seq<ErrorItem>, sent: seq<Request>)

  /**
   * The collection's scope after its two lookups: the remote entities of the
   * default-locale relations, then, when locales are transferred, those of
   * the translations (`locale=all`).
   */
  function Opening(server: Server, t: nat, enc: Encoder, createMissing: bool, transferLocales: bool, info: LocalesInfo,
                   findOne: LocalStore, key: string, settings: Settings, split: Split): (r: Call<Scope>)
    ensures |r.sent| <= 2
    ensures !transferLocales ==> r.value.remotes == []
  {
    var client := Client.Collection(settings.apiName);
    var d := RemoteFilteredEntities(server, t, client, enc, split.defaults, settings.mainField, "");
    var l := if transferLocales then RemoteFilteredEntities(server, t + |d.sent|, client, enc, split.localized, settings.mainField, "locale=all") else Call([], []);
    Call(Scope(Shifted(server, t), enc, client, key, settings.apiName, settings.mainField, createMissing, info, findOne, d.value, l.value), d.sent + l.sent)
  }

  /** The `try`: something thrown becomes the "Failed to fetch relation" error and a null result. */
  function Closing(key: string, c: Scope, s: Run, defaults: seq<Value>): Resolved
  {
    match s.fault
    case Some(f) => Resolved(Null, s.errors + [FetchRelationFailed(key, f)], s.sent)
    case None =>
      var s2 := DefaultUpTo(c, s, defaults);
      Resolved(Arr(s2.newRelations), s2.errors, s2.sent)
  }

  /**
   * The callback of one relation collection: the split, the two lookups, the
   * translation loop, the default-locale loop. A rejected parent lookup in
   * the translation loop loses the collection's relations: the result is null
   * and the last error reports the rejection, after every error pushed before
   * it. Otherwise each relation gives at most one new relation.
   */
  function ResolveKey(server: Server, t: nat, enc: Encoder, createMissing: bool, transferLocales: bool, info: LocalesInfo,
                      findOne: LocalStore, key: string, settings: Settings, relations: seq<Value>): (r: Resolved)
    ensures var split := SplitRelations(relations, info);
      && (r.value == Null || r.value.Arr?)
      && (!transferLocales ==> r.value.Arr?)
      && (r.value == Null ==> |r.errors| > 0 && "Failed to fetch relation" <= r.errors[|r.errors| - 1].message)
      && (r.value.Arr? ==> |r.value.items| <= |split.localized| + |split.defaults|)
  {
    var split := SplitRelations(relations, info);
    var o := Opening(server, t, enc, createMissing, transferLocales, info, findOne, key, settings, split);
    var s0 := Run([], [], [], o.sent, None);
    var s1 := if transferLocales then LocalizedUpTo(o.value, s0, split.localized) else s0;
    ClosingOutcome(key, o.value, s1, split.defaults);
    Closing(key, o.value, s1, split.defaults)
  }

  /** The `try` gives null after a throw, reported last, and otherwise at most one new relation per default-locale relation more. */
  lemma ClosingOutcome(key: string, c: Scope, s: Run, defaults: seq<Value>)
    ensures var r := Closing(key, c, s, defaults);
      && (r.value == Null || r.value.Arr?)
      && (r.value == Null ==> |r.errors| > 0 && "Failed to fetch relation" <= r.errors[|r.errors| - 1].message)
      && (s.fault.None? ==> r.value.Arr? && |r.value.items| <= |s.newRelations| + |defaults|)
  {
    if s.fault.Some? {
      var m := FetchRelationFailed(key, s.fault.value).message;
      assert m == "Failed to fetch relation " + key + ": " + s.fault.value.text;
      assert m[..24] == "Failed to fetch relation";
      assert "Failed to fetch relation" <= m;
    }
  }

  /** The callback for one relation collection, with its two loops. */
  method ResolveRelationKey(server: Server, t: nat, enc: Encoder, createMissing: bool, transferLocales: bool, info: LocalesInfo,
                            findOne: LocalStore, key: string, settings: Settings, relations: seq<Value>)
    returns (value: Value, errors: seq<ErrorItem>, sent: seq<Request>)
    ensures Resolved(value, errors, sent) == ResolveKey(server, t, enc, createMissing, transferLocales, info, findOne, key, settings, relations)
  {
    var split := SplitRelations(relations, info);
    var o := Opening(server, t, enc, createMissing, transferLocales, info, findOne, key, settings, split);
    var s := Run([], [], [], o.sent, None);
    if transferLocales {
      s := ResolveLocalized(o.value, s, split.localized);
    }
    if s.fault.Some? {
      return Null, s.errors + [FetchRelationFailed(key, s.fault.value)], s.sent;
    }
    s := ResolveDefaults(o.value, s, split.defaults);
    return Arr(s.newRelations), s.errors, s.sent;
  }

  /**
   * Without transferring locales no translation is looked up or written: the
   * run is the default-locale loop alone, after the one lookup of the
   * default-locale relations.
   */
  lemma ResolveKeyWithoutLocales(server: Server, t: nat, enc: Encoder, createMissing: bool, info: LocalesInfo,
                                 findOne: LocalStore, key: string, settings: Settings, relations: seq<Value>)
    ensures var split := SplitRelations(relations, info);
      var o := Opening(server, t, enc, createMissing, false, info, findOne, key, settings, split);
      var s := DefaultUpTo(o.value, Run([], [], [], o.sent, None), split.defaults);
      && o.sent == RemoteFilteredEntities(server, t, Client.Collection(settings.apiName), enc, split.defaults, settings.mainField, "").sent
      && o.value.remotes == []
      && ResolveKey(server, t, enc, createMissing, false, info, findOne, key, settings, relations) == Resolved(Arr(s.newRelations), s.errors, s.sent)
  {
    var split := SplitRelations(relations, info);
    var d := RemoteFilteredEntities(server, t, Client.Collection(settings.apiName), enc, split.defaults, settings.mainField, "");
    assert d.sent + [] == d.sent;
  }

  // ---------------------------------------------------------------------------
  // getCreateRelations

  /** The relations of one collection, keyed by its uid. */
  datatype RelationGroup = RelationGroup(key: string, relations: seq<Value>)

  /** `{ errors, newRelations }` */
  datatype Relations = Relations(errors: seq<ErrorItem>, newRelations: seq<Value>)

  /** One callback's part of `_.flatten(resp)`: an array is spliced in, null stays an element. */
  function Spliced(v: Value): seq<Value>
  {
    if v.Arr? then v.items else [v]
  }

  /** The callbacks over the groups, one after the other, from server time `t`: their results, errors and requests. */
  function ResolveGroups(server: Server, t: nat, enc: Encoder, createMissing: bool, transferLocales: bool, info: LocalesInfo,
                         findOne: LocalStore, settings: string -> Option<Settings>, groups: seq<RelationGroup>): (r: Call<Relations>)
    ensures groups == [] ==> r == Call(Relations([], []), [])
    ensures (forall i :: 0 <= i < |groups| ==> settings(groups[i].key).None?) ==>
      && r.sent == [] && r.value.errors == []
      && |r.value.newRelations| == |groups| && forall x :: x in r.value.newRelations ==> x == Null
    decreases |groups|
  {
    if groups == [] then Call(Relations([], []), [])
    else
      var g := groups[0];
      var here := match settings(g.key)
        case None => Resolved(Null, [], [])
        case Some(s) => ResolveKey(server, t, enc, createMissing, transferLocales, info, findOne, g.key, s, g.relations);
      var rest := ResolveGroups(server, t + |here.sent|, enc, createMissing, transferLocales, info, findOne, settings, groups[1..]);
      assert forall i :: 1 <= i < |groups| ==> groups[1..][i - 1] == groups[i];
      Call(Relations(here.errors + rest.value.errors, Spliced(here.value) + rest.value.newRelations), here.sent + rest.sent)
  }

  /**
   * `getCreateRelations({ relations, createMissingRelations, apiClient,
   * transferLocales })`: the target's locales first, then the collections;
   * the results are flattened and compacted.
   */
  function GetCreateRelations(server: Server, enc: Encoder, localDefault: Value, createMissing: bool, transferLocales: bool,
                              findOne: LocalStore, settings: string -> Option<Settings>, groups: seq<RelationGroup>): (r: Call<Relations>)
    ensures forall x :: x in r.value.newRelations ==> Truthy(x)
    ensures r.sent != [] && r.sent[0] == LocalesRequest
  {
    var locales := GetDefaultLocales(server, 0, localDefault);
    var all := ResolveGroups(server, 1, enc, createMissing, transferLocales, locales.value, findOne, settings, groups);
    Call(Relations(all.value.errors, Compact(all.value.newRelations)), locales.sent + all.sent)
  }

  /** A collection without stored settings contributes nothing and sends nothing. */
  lemma UnsetCollectionSkipped(server: Server, t: nat, enc: Encoder, createMissing: bool, transferLocales: bool, info: LocalesInfo,
                               findOne: LocalStore, settings: string -> Option<Settings>, g: RelationGroup, groups: seq<RelationGroup>)
    requires settings(g.key).None?
    ensures var r := ResolveGroups(server, t, enc, createMissing, transferLocales, info, findOne, settings, [g] + groups);
      var rest := ResolveGroups(server, t, enc, createMissing, transferLocales, info, findOne, settings, groups);
      r.sent == rest.sent && r.value.errors == rest.value.errors && Compact(r.value.newRelations) == Compact(rest.value.newRelations)
  {
    var gs := [g] + groups;
    assert gs != [] && gs[0] == g && gs[1..] == groups;
    var rest := ResolveGroups(server, t, enc, createMissing, transferLocales, info, findOne, settings, groups);
    var r := ResolveGroups(server, t, enc, createMissing, transferLocales, info, findOne, settings, gs);
    assert r == Call(Relations([] + rest.value.errors, [Null] + rest.value.newRelations), [] + rest.sent);
    assert ([Null] + rest.value.newRelations)[1..] == rest.value.newRelations;
  }
}
