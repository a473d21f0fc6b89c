/**
 * The three write helpers `updateEntity`, `createEntity` and
 * `createEntityLocalization`: a guard, one request to a collection client,
 * and a fresh `{ data, errors }` result. A rejected request, or an answer
 * without the payload the helper reads, becomes exactly one error.
 */
module Crud {
  import opened Values
  import opened Remote

  /** `GenericUtilResponse`: `{ data, errors }`. */
  datatype Util = Util(data: Value, errors: seq<ErrorItem>)

  /** What every helper returns when missing relations may not be created. */
  const Skipped: Util := Util(Null, [])

  /** `{ ...entity, id: undefined }` */
  function Unidentified(entity: Value): seq<Field>
  {
    SetField(Spread(entity), "id", Undef)
  }

  /** `{ ...entity, id: undefined, localizations: otherLocaleIds }` */
  function Linked(entity: Value, ids: seq<Value>): seq<Field>
  {
    SetField(Unidentified(entity), "localizations", Arr(ids))
  }

  /** Reading a spread copy reads the original. */
  lemma SpreadGet(v: Value, k: string)
    ensures Get(Obj(Spread(v)), k) == Get(v, k)
  {
  }

  /**
   * `{ ...attributes, modelId, id, oldId }`: a record carries the three
   * bookkeeping keys and otherwise the attributes.
   */
  function Record(attributes: Value, modelId: string, id: Value, oldId: Value): (r: Value)
    ensures Get(r, "modelId") == Str(modelId) && Get(r, "id") == id && Get(r, "oldId") == oldId
    ensures forall k :: k != "modelId" && k != "id" && k != "oldId" ==> Get(r, k) == Get(attributes, k)
  {
    var a := Spread(attributes);
    var b := SetField(a, "modelId", Str(modelId));
    var c := SetField(b, "id", id);
    SetFieldGet(c, "oldId", oldId, "id");
    SetFieldGet(c, "oldId", oldId, "modelId");
    SetFieldGet(c, "oldId", oldId, "oldId");
    SetFieldGet(b, "id", id, "modelId");
    SetFieldGet(b, "id", id, "id");
    SetFieldGet(a, "modelId", Str(modelId), "modelId");
    forall k | k != "modelId" && k != "id" && k != "oldId" ensures Get(Obj(SetField(c, "oldId", oldId)), k) == Get(attributes, k) {
      SetFieldGet(c, "oldId", oldId, k);
      SetFieldGet(b, "id", id, k);
      SetFieldGet(a, "modelId", Str(modelId), k);
      SpreadGet(attributes, k);
    }
    Obj(SetField(c, "oldId", oldId))
  }

  // ---------------------------------------------------------------------------
  // Requests

  function UpdateRequest(client: Client, remoteId: Value, entity: Value): Request
  {
    Request(Update, client, "/" + Text(remoteId), Obj([Field("data", Obj(Unidentified(entity)))]))
  }

  function CreateRequest(client: Client, entity: Value, ids: seq<Value>): Request
  {
    Request(Create, client, "", Obj([Field("data", Obj(Linked(entity, ids)))]))
  }

  /** The localization body is posted as is, not under `data`. */
  function LocalizationRequest(client: Client, parentId: Value, entity: Value, ids: seq<Value>): Request
  {
    Request(Create, client, "/" + Text(parentId) + "/localizations", Obj(Linked(entity, ids)))
  }

  /** A payload never carries the local id; every other field of the entity is sent as it is. */
  lemma UnidentifiedFields(entity: Value, k: string)
    ensures Get(Obj(Unidentified(entity)), "id") == Undef
    ensures k != "id" ==> Get(Obj(Unidentified(entity)), k) == Get(entity, k)
  {
    SetFieldGet(Spread(entity), "id", Undef, "id");
    SetFieldGet(Spread(entity), "id", Undef, k);
  }

  /** A create payload also links the other locales' ids. */
  lemma LinkedFields(entity: Value, ids: seq<Value>, k: string)
    ensures Get(Obj(Linked(entity, ids)), "id") == Undef
    ensures Get(Obj(Linked(entity, ids)), "localizations") == Arr(ids)
    ensures k != "id" && k != "localizations" ==> Get(Obj(Linked(entity, ids)), k) == Get(entity, k)
  {
    SetFieldGet(Unidentified(entity), "localizations", Arr(ids), "id");
    SetFieldGet(Unidentified(entity), "localizations", Arr(ids), "localizations");
    SetFieldGet(Unidentified(entity), "localizations", Arr(ids), k);
    UnidentifiedFields(entity, k);
  }

  // ---------------------------------------------------------------------------
  // Answers

  /** An answer the update and create helpers can read: `resp.data.data` exists. */
  predicate Stored(resp: Response)
  {
    resp.Ok? && !Nullish(resp.body) && !Nullish(Get(resp.body, "data"))
  }

  /** What the helper catches when the answer cannot be read. */
  function FaultOf(resp: Response): Fault
  {
    if resp.Err? then resp.fault else MissingPayload
  }

  function Failure(message: string, resp: Response): Util
  {
    Util(Null, [ErrorItem(message, Some(GetErrorDetails(FaultOf(resp))))])
  }

  /** `{ ...resp.data.attributes, modelId, id: resp.data.id, oldId: entity.id }`, or the error. */
  function ReadSaved(resp: Response, modelId: string, entity: Value, message: string): Util
  {
    if Stored(resp) then
      var saved := Get(resp.body, "data");
      Util(Record(Get(saved, "attributes"), modelId, Get(saved, "id"), Get(entity, "id")), [])
    else Failure(message, resp)
  }

  /** A saved record as the helpers return it, for the answer `resp`. */
  ghost predicate SavedRecord(u: Util, attributes: Value, modelId: string, id: Value, entity: Value)
  {
    && u.errors == []
    && Get(u.data, "id") == id
    && Get(u.data, "oldId") == Get(entity, "id")
    && Get(u.data, "modelId") == Str(modelId)
    && forall k :: k != "modelId" && k != "id" && k != "oldId" ==> Get(u.data, k) == Get(attributes, k)
  }

  /** A failed write: no data and exactly one error, whose details are read from what was thrown. */
  predicate FailedWith(u: Util, message: string, f: Fault)
  {
    u.data == Null && |u.errors| == 1 && u.errors[0].message == message && u.errors[0].details == Some(GetErrorDetails(f))
  }

  function ModelEntity(modelId: string, entity: Value, mainField: string): string
  {
    modelId + " entity " + Text(Get(entity, mainField)) + " (" + Text(Get(entity, "locale")) + ")"
  }

  function UpdateFailed(modelId: string, entity: Value, mainField: string): string
  {
    "Failed to update " + ModelEntity(modelId, entity, mainField)
  }

  function CreateFailed(modelId: string, entity: Value, mainField: string): string
  {
    "Failed to create " + ModelEntity(modelId, entity, mainField)
  }

  function LocalizationFailed(modelId: string, entity: Value, mainField: string): string
  {
    "Failed to create localized entity " + modelId + " for " + Text(Get(entity, mainField)) + " with locale " + Text(Get(entity, "locale"))
  }

  function NoParent(entity: Value, mainField: string): string
  {
    "Failed to create localized entity " + Text(Get(entity, mainField)) + ": Parent id cannot be empty"
  }

  // ---------------------------------------------------------------------------
  // The helpers

  /** `updateEntity(payload)`. */
  function UpdateEntity(server: Server, t: nat, createMissing: bool, modelId: string, entity: Value, mainField: string, client: Client, remoteId: Value): (r: Call<Util>)
    ensures !createMissing ==> r == Call(Skipped, [])
    ensures createMissing ==> r.sent == [UpdateRequest(client, remoteId, entity)]
    ensures createMissing && Stored(server(t, r.sent[0])) ==>
      var saved := Get(server(t, r.sent[0]).body, "data");
      SavedRecord(r.value, Get(saved, "attributes"), modelId, Get(saved, "id"), entity)
    ensures createMissing && !Stored(server(t, r.sent[0])) ==>
      FailedWith(r.value, UpdateFailed(modelId, entity, mainField), FaultOf(server(t, r.sent[0])))
  {
    if !createMissing then Call(Skipped, [])
    else
      var req := UpdateRequest(client, remoteId, entity);
      var resp := server(t, req);
      SavedShape(resp, modelId, entity, UpdateFailed(modelId, entity, mainField));
      Call(ReadSaved(resp, modelId, entity, UpdateFailed(modelId, entity, mainField)), [req])
  }

  /** `createEntity(payload)`. */
  function CreateEntity(server: Server, t: nat, createMissing: bool, modelId: string, entity: Value, mainField: string, client: Client, ids: seq<Value>): (r: Call<Util>)
    ensures !createMissing ==> r == Call(Skipped, [])
    ensures createMissing ==> r.sent == [CreateRequest(client, entity, ids)]
    ensures createMissing && Stored(server(t, r.sent[0])) ==>
      var saved := Get(server(t, r.sent[0]).body, "data");
      SavedRecord(r.value, Get(saved, "attributes"), modelId, Get(saved, "id"), entity)
    ensures createMissing && !Stored(server(t, r.sent[0])) ==>
      FailedWith(r.value, CreateFailed(modelId, entity, mainField), FaultOf(server(t, r.sent[0])))
  {
    if !createMissing then Call(Skipped, [])
    else
      var req := CreateRequest(client, entity, ids);
      var resp := server(t, req);
      SavedShape(resp, modelId, entity, CreateFailed(modelId, entity, mainField));
      Call(ReadSaved(resp, modelId, entity, CreateFailed(modelId, entity, mainField)), [req])
  }

  lemma SavedShape(resp: Response, modelId: string, entity: Value, message: string)
    ensures Stored(resp) ==>
      var saved := Get(resp.body, "data");
      SavedRecord(ReadSaved(resp, modelId, entity, message), Get(saved, "attributes"), modelId, Get(saved, "id"), entity)
    ensures !Stored(resp) ==> FailedWith(ReadSaved(resp, modelId, entity, message), message, FaultOf(resp))
  {
  }

  /** An answer `createEntityLocalization` can read: the body itself is the new localization. */
  predicate Localized(resp: Response)
  {
    resp.Ok? && !Nullish(resp.body)
  }

  /** `createEntityLocalization(payload)`. */
  function CreateEntityLocalization(server: Server, t: nat, createMissing: bool, modelId: string, entity: Value, mainField: string, client: Client, parentId: Value, ids: seq<Value>): (r: Call<Util>)
    ensures !createMissing ==> r == Call(Skipped, [])
    ensures createMissing && !Truthy(parentId) ==> r == Call(Util(Null, [ErrorItem(NoParent(entity, mainField), None)]), [])
    ensures createMissing && Truthy(parentId) ==> r.sent == [LocalizationRequest(client, parentId, entity, ids)]
    ensures createMissing && Truthy(parentId) && Localized(server(t, r.sent[0])) ==>
      var body := server(t, r.sent[0]).body;
      SavedRecord(r.value, body, modelId, Get(body, "id"), entity)
    ensures createMissing && Truthy(parentId) && !Localized(server(t, r.sent[0])) ==>
      FailedWith(r.value, LocalizationFailed(modelId, entity, mainField), FaultOf(server(t, r.sent[0])))
  {
    if !createMissing then Call(Skipped, [])
    else if !Truthy(parentId) then Call(Util(Null, [ErrorItem(NoParent(entity, mainField), None)]), [])
    else
      var req := LocalizationRequest(client, parentId, entity, ids);
      var resp := server(t, req);
      if Localized(resp) then
        var body := resp.body;
        Call(Util(Record(body, modelId, Get(body, "id"), Get(entity, "id")), []), [req])
      else Call(Failure(LocalizationFailed(modelId, entity, mainField), resp), [req])
  }

  /** Every helper sends at most one request, and a write never leaves both data and errors empty-handed. */
  lemma HelpersSendAtMostOne(server: Server, t: nat, createMissing: bool, modelId: string, entity: Value, mainField: string, client: Client, remoteId: Value, ids: seq<Value>)
    ensures |UpdateEntity(server, t, createMissing, modelId, entity, mainField, client, remoteId).sent| <= 1
    ensures |CreateEntity(server, t, createMissing, modelId, entity, mainField, client, ids).sent| <= 1
    ensures |CreateEntityLocalization(server, t, createMissing, modelId, entity, mainField, client, remoteId, ids).sent| <= 1
    ensures createMissing ==>
      var u := UpdateEntity(server, t, createMissing, modelId, entity, mainField, client, remoteId).value;
      (u.errors == [] <==> Stored(server(t, UpdateRequest(client, remoteId, entity))))
  {
  }
}
