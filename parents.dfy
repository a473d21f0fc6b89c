/**
 * Resolving a locale parent (`createParentRelation`, `getCreateLocaleParent`):
 * the remote translations already connected to the local ones decide whether
 * the remote default-locale entity is updated, a localization is attached to
 * an existing remote entity, or a new entity is created.
 */
module Parents {
  import opened Values
  import opened Remote
  import opened Locales
  import opened Crud

  /** The three actions `createParentRelation` can take. */
  datatype ParentAction =
    | UpdateParent(remoteId: Value)
    | Localize(parentId: Value, ids: seq<Value>)
    | CreateNew(ids: seq<Value>)

  /**
   * The decision, from the connected localizations computed with the
   * relation's own locale as the main locale.
   */
  function Decide(remotes: seq<Value>, locals: seq<Value>, mainField: string, current: Value): (a: ParentAction)
    ensures var c := GetConnectedLocalizations(remotes, locals, mainField, Get(current, "locale"));
      && (Truthy(c.mainLocaleParent) <==> a.UpdateParent?)
      && (a.UpdateParent? ==> a.remoteId == Get(c.mainLocaleParent, "id"))
      && (a.Localize? <==> !Truthy(c.mainLocaleParent) && c.localizations != [])
      && (a.Localize? ==> a.parentId == c.localizations[0] && a.ids == c.localizations)
      && (a.CreateNew? ==> a.ids == [])
  {
    var c := GetConnectedLocalizations(remotes, locals, mainField, Get(current, "locale"));
    if Truthy(c.mainLocaleParent) then UpdateParent(Get(c.mainLocaleParent, "id"))
    else if !IsEmpty(Arr(c.localizations)) then Localize(c.localizations[0], c.localizations)
    else CreateNew([])
  }

  /**
   * The decision in terms of the remote translations themselves: update the
   * main-locale localization of the first connected remote entity that has
   * one; otherwise attach to the first connected remote entity; otherwise create.
   */
  lemma DecideExact(remotes: seq<Value>, locals: seq<Value>, mainField: string, current: Value)
    ensures var locale := Get(current, "locale");
      var a := Decide(remotes, locals, mainField, current);
      var fi := FirstOffer(remotes, locals, mainField, locale);
      && (fi.Some? ==> a == UpdateParent(Get(MainLocaleEntity(remotes[fi.value], locale), "id")))
      && (fi.None? && ConnectedIds(remotes, locals, mainField) != [] ==>
            a == Localize(ConnectedIds(remotes, locals, mainField)[0], ConnectedIds(remotes, locals, mainField)))
      && (ConnectedIds(remotes, locals, mainField) == [] ==> a == CreateNew([]))
  {
    var locale := Get(current, "locale");
    var fi := FirstOffer(remotes, locals, mainField, locale);
    FirstOfferSpec(remotes, locals, mainField, locale);
    if fi.Some? {
      assert remotes[fi.value] in remotes;
      assert Get(remotes[fi.value], "id") in ConnectedIds(remotes, locals, mainField);
    }
  }

  /**
   * Carrying out an action with the write helpers: at most one request, the
   * one the action names, and either data or a single error.
   */
  function Perform(server: Server, t: nat, createMissing: bool, modelId: string, current: Value, mainField: string, client: Client, a: ParentAction): (r: Call<Util>)
    ensures |r.sent| <= 1
    ensures !createMissing ==> r == Call(Skipped, [])
    ensures createMissing && a.UpdateParent? ==> r.sent == [UpdateRequest(client, a.remoteId, current)]
    ensures createMissing && a.Localize? && Truthy(a.parentId) ==> r.sent == [LocalizationRequest(client, a.parentId, current, a.ids)]
    ensures createMissing && a.Localize? && !Truthy(a.parentId) ==> r.sent == [] && r.value.data == Null && |r.value.errors| == 1
    ensures createMissing && a.CreateNew? ==> r.sent == [CreateRequest(client, current, a.ids)]
    ensures |r.value.errors| <= 1 && (r.value.errors != [] ==> r.value.data == Null)
  {
    match a
    case UpdateParent(id) => UpdateEntity(server, t, createMissing, modelId, current, mainField, client, id)
    case Localize(parentId, ids) => CreateEntityLocalization(server, t, createMissing, modelId, current, mainField, client, parentId, ids)
    case CreateNew(ids) => CreateEntity(server, t, createMissing, modelId, current, mainField, client, ids)
  }

  /** `createParentRelation(payload)`. */
  function CreateParentRelation(server: Server, t: nat, client: Client, createMissing: bool, current: Value, remotes: seq<Value>, locals: seq<Value>, modelId: string, mainField: string): (r: Call<Util>)
    ensures r == Perform(server, t, createMissing, modelId, current, mainField, client, Decide(remotes, locals, mainField, current))
    ensures |r.sent| <= 1
  {
    Perform(server, t, createMissing, modelId, current, mainField, client, Decide(remotes, locals, mainField, current))
  }

  /**
   * When the connected translations include the parent, the parent is
   * updated under its remote id; a connected translation without a parent
   * gets the new entity as a localization; nothing connected creates a new
   * entity linked to nothing.
   */
  lemma CreateParentRelationRequests(server: Server, t: nat, client: Client, current: Value, remotes: seq<Value>, locals: seq<Value>, modelId: string, mainField: string)
    ensures var c := GetConnectedLocalizations(remotes, locals, mainField, Get(current, "locale"));
      var r := CreateParentRelation(server, t, client, true, current, remotes, locals, modelId, mainField);
      && (Truthy(c.mainLocaleParent) ==> r.sent == [UpdateRequest(client, Get(c.mainLocaleParent, "id"), current)])
      && (!Truthy(c.mainLocaleParent) && c.localizations != [] && Truthy(c.localizations[0]) ==>
            r.sent == [LocalizationRequest(client, c.localizations[0], current, c.localizations)])
      && (c.localizations == [] ==> r.sent == [CreateRequest(client, current, [])])
  {
  }

  // ---------------------------------------------------------------------------
  // getCreateLocaleParent

  /** `filters[<mainField>][$eq]=<value>&locale=<locale>&publicationState=preview`, not encoded. */
  function ParentQuery(mainField: string, current: Value): string
  {
    "filters[" + mainField + "][$eq]=" + Text(Get(current, mainField)) + "&locale=" + Text(Get(current, "locale")) + "&publicationState=preview"
  }

  function ParentLookup(client: Client, mainField: string, current: Value): Request
  {
    Request(Fetch, client, "/?" + ParentQuery(mainField, current), Undef)
  }

  /** `remoteParentResp ? remoteParentResp[0] : null` */
  function FirstOfResponse(resp: Value): Value
  {
    if !Truthy(resp) then Null else Index0(resp)
  }

  /**
   * `{ ...remoteParent.attributes, id: remoteParent.id, localizations: remoteParent.attributes?.localizations?.data }`:
   * the remote id and the linked localizations over the remote attributes.
   */
  function Flattened(remote: Value): (r: Value)
    ensures Get(r, "id") == Get(remote, "id")
    ensures Get(r, "localizations") == Get(Get(Get(remote, "attributes"), "localizations"), "data")
    ensures forall k :: k != "id" && k != "localizations" ==> Get(r, k) == Get(Get(remote, "attributes"), k)
  {
    var attributes := Get(remote, "attributes");
    var locs := Get(Get(attributes, "localizations"), "data");
    var a := SetField(Spread(attributes), "id", Get(remote, "id"));
    SetFieldGet(a, "localizations", locs, "id");
    SetFieldGet(a, "localizations", locs, "localizations");
    SetFieldGet(Spread(attributes), "id", Get(remote, "id"), "id");
    forall k | k != "id" && k != "localizations" ensures Get(Obj(SetField(a, "localizations", locs)), k) == Get(attributes, k) {
      SetFieldGet(a, "localizations", locs, k);
      SetFieldGet(Spread(attributes), "id", Get(remote, "id"), k);
      SpreadGet(attributes, k);
    }
    Obj(SetField(a, "localizations", locs))
  }

  /**
   * `getCreateLocaleParent(data)`. The lookup is not guarded: a rejected
   * lookup, or an answer that cannot be destructured, propagates to the caller.
   */
  function GetCreateLocaleParent(server: Server, t: nat, client: Client, current: Value, mainField: string, createMissing: bool, modelId: string, remotes: seq<Value>, locals: seq<Value>, existing: Value): (r: Call<Outcome<Util>>)
    ensures Truthy(existing) ==> r == Call(Returned(Util(existing, [])), [])
  {
    if Truthy(existing) then Call(Returned(Util(existing, [])), [])
    else
      var req := ParentLookup(client, mainField, current);
      match server(t, req)
      case Err(f) => Call(Threw(f), [req])
      case Ok(body) =>
        if Nullish(body) then Call(Threw(MissingPayload), [req])
        else
          var remoteParent := FirstOfResponse(Get(body, "data"));
          if Truthy(remoteParent) then Call(Returned(Util(Flattened(remoteParent), [])), [req])
          else
            var created := CreateParentRelation(server, t + 1, client, createMissing, current, remotes, locals, modelId, mainField);
            Call(Returned(created.value), [req] + created.sent)
  }

  /**
   * Without an existing parent, the lookup is sent first; a remote parent
   * found there is returned flattened with its remote id, and only when none
   * is found is `createParentRelation` consulted, its data and errors
   * returned as they are.
   */
  lemma LocaleParentResolution(server: Server, t: nat, client: Client, current: Value, mainField: string, createMissing: bool, modelId: string, remotes: seq<Value>, locals: seq<Value>, existing: Value)
    requires !Truthy(existing)
    ensures var r := GetCreateLocaleParent(server, t, client, current, mainField, createMissing, modelId, remotes, locals, existing);
      var resp := server(t, ParentLookup(client, mainField, current));
      && r.sent[0] == ParentLookup(client, mainField, current)
      && (resp.Err? ==> r == Call(Threw(resp.fault), [ParentLookup(client, mainField, current)]))
      && (resp.Ok? && !Nullish(resp.body) && Truthy(FirstOfResponse(Get(resp.body, "data"))) ==>
            var p := FirstOfResponse(Get(resp.body, "data"));
            && r.value.Returned? && r.value.value.errors == [] && |r.sent| == 1
            && Get(r.value.value.data, "id") == Get(p, "id")
            && Get(r.value.value.data, "localizations") == Get(Get(Get(p, "attributes"), "localizations"), "data"))
      && (resp.Ok? && !Nullish(resp.body) && !Truthy(FirstOfResponse(Get(resp.body, "data"))) ==>
            var c := CreateParentRelation(server, t + 1, client, createMissing, current, remotes, locals, modelId, mainField);
            r == Call(Returned(c.value), [ParentLookup(client, mainField, current)] + c.sent))
  {
  }
}
