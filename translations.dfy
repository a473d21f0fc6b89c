/**
 * `createUpdateEntityLocalizations`: the translations of an entity that was
 * just written are sent one by one. A translation that already has a remote
 * id is updated under it; any other is created as a localization of the
 * parent and linked to every known translation: the remote ids given up
 * front, the parent, and the ones created before it in this run. A failure
 * becomes one error and the next translation is still sent.
 */
module Translations {
  import opened Values
  import opened Collections
  import opened Remote
  import opened Crud

  /** The error of one translation. */
  function LocaleFailed(localization: Value, mainField: string): string
  {
    "Failed to create/update locale " + Text(Get(localization, "locale")) + " for entity " + Text(Get(localization, mainField))
  }

  /** `{ ...localization, localizations: links }`, posted under the parent. */
  function LinkRequest(client: Client, parentId: Value, localization: Value, links: seq<Value>): Request
  {
    Request(Create, client, "/" + Text(parentId) + "/localizations", Obj(SetField(Spread(localization), "localizations", Arr(links))))
  }

  /** The ids a request links the new translation to. */
  function Links(req: Request): seq<Value>
  {
    Elements(Get(req.body, "localizations"))
  }

  /** `{ ...data.attributes, id: data.id }` for an updated translation. */
  function Updated(data: Value): Value
  {
    Obj(SetField(Spread(Get(data, "attributes")), "id", Get(data, "id")))
  }

  /** What the loop has done so far: `results`, `errors`, `createdLocalizationIds`, and the requests sent. */
  datatype Progress = Progress(results: seq<Value>, errors: seq<ErrorItem>, created: seq<Value>, sent: seq<Request>)

  /**
   * The loop's parameters: the instance as seen from the loop's start, the
   * client, the parent, the remote ids known up front.
   */
  datatype Batch = Batch(server: Server, client: Client, parentId: Value, known: seq<Value>, mainField: string)

  /** One translation, at server time `|p.sent|` from the loop's start. */
  function LocalizeStep(b: Batch, p: Progress, localization: Value): (q: Progress)
    ensures |q.sent| == |p.sent| + 1 && q.sent[..|p.sent|] == p.sent
    ensures |q.results| + |q.errors| == |p.results| + |p.errors| + 1
    ensures |p.results| <= |q.results| && q.results[..|p.results|] == p.results
    ensures |p.errors| <= |q.errors| && q.errors[..|p.errors|] == p.errors
    ensures |p.created| <= |q.created| && q.created[..|p.created|] == p.created
  {
    var now := |p.sent|;
    if Truthy(Get(localization, "id")) then
      var req := UpdateRequest(b.client, Get(localization, "id"), localization);
      var resp := b.server(now, req);
      if Stored(resp) then p.(results := p.results + [Updated(Get(resp.body, "data"))], sent := p.sent + [req])
      else p.(errors := p.errors + [ErrorItem(LocaleFailed(localization, b.mainField), Some(GetErrorDetails(FaultOf(resp))))], sent := p.sent + [req])
    else
      var req := LinkRequest(b.client, b.parentId, localization, Uniq(b.known + p.created));
      var resp := b.server(now, req);
      if Localized(resp) then
        Progress(p.results + [resp.body], p.errors, p.created + [Get(resp.body, "id")], p.sent + [req])
      else p.(errors := p.errors + [ErrorItem(LocaleFailed(localization, b.mainField), Some(GetErrorDetails(FaultOf(resp))))], sent := p.sent + [req])
  }

  /** The state after the loop has handled the translations `xs`, starting with the parent as the only created translation. */
  function LocalizeUpTo(b: Batch, xs: seq<Value>): (q: Progress)
    ensures |q.sent| == |xs|
    ensures |q.results| + |q.errors| == |xs|
    ensures q.created != [] && q.created[0] == b.parentId
    decreases |xs|
  {
    if xs == [] then Progress([], [], [b.parentId], [])
    else LocalizeStep(b, LocalizeUpTo(b, xs[..|xs| - 1]), xs[|xs| - 1])
  }

  /** `createUpdateEntityLocalizations({ parentId, localizations, collectionApiClient, collectionMainField })`. */
  method CreateUpdateEntityLocalizations(server: Server, t: nat, client: Client, parentId: Value, localizations: seq<Value>, mainField: string)
    returns (data: seq<Value>, errors: seq<ErrorItem>, sent: seq<Request>)
    ensures var q := LocalizeUpTo(Batch(Shifted(server, t), client, parentId, Compact(IdsOf(localizations)), mainField), localizations);
      data == q.results && errors == q.errors && sent == q.sent
  {
    data, errors, sent := SendLocalizations(Shifted(server, t), client, parentId, Compact(IdsOf(localizations)), localizations, mainField);
  }

  /** The loop, with the remote ids known up front already computed; `server` is seen from the loop's start. */
  method SendLocalizations(server: Server, client: Client, parentId: Value, known: seq<Value>, localizations: seq<Value>, mainField: string)
    returns (data: seq<Value>, errors: seq<ErrorItem>, sent: seq<Request>)
    ensures var q := LocalizeUpTo(Batch(server, client, parentId, known, mainField), localizations);
      data == q.results && errors == q.errors && sent == q.sent
  {
    ghost var b := Batch(server, client, parentId, known, mainField);
    var created := [parentId];
    data, errors, sent := [], [], [];
    for i := 0 to |localizations|
      invariant Progress(data, errors, created, sent) == LocalizeUpTo(b, localizations[..i])
    {
      data, errors, created, sent := SendLocalization(server, client, parentId, known, mainField, data, errors, created, sent, localizations[i]);
      LocalizeUpToNext(b, localizations, i);
    }
    assert localizations[..|localizations|] == localizations;
  }

  /** The fold over one more translation is one more step. */
  lemma LocalizeUpToNext(b: Batch, xs: seq<Value>, i: nat)
    requires i < |xs|
    ensures LocalizeUpTo(b, xs[..i + 1]) == LocalizeStep(b, LocalizeUpTo(b, xs[..i]), xs[i])
  {
    assert xs[..i + 1][..i] == xs[..i];
  }

  /** The body of the loop: one translation updated or created, at server time `|sent|` from the loop's start. */
  method SendLocalization(server: Server, client: Client, parentId: Value, known: seq<Value>, mainField: string,
                          data: seq<Value>, errors: seq<ErrorItem>, created: seq<Value>, sent: seq<Request>, localization: Value)
    returns (data': seq<Value>, errors': seq<ErrorItem>, created': seq<Value>, sent': seq<Request>)
    ensures Progress(data', errors', created', sent') ==
      LocalizeStep(Batch(server, client, parentId, known, mainField), Progress(data, errors, created, sent), localization)
  {
    data', errors', created' := data, errors, created;
    var now := |sent|;
    if Truthy(Get(localization, "id")) {
      var req := UpdateRequest(client, Get(localization, "id"), localization);
      var resp := server(now, req);
      sent' := sent + [req];
      if Stored(resp) {
        data' := data + [Updated(Get(resp.body, "data"))];
      } else {
        errors' := errors + [ErrorItem(LocaleFailed(localization, mainField), Some(GetErrorDetails(FaultOf(resp))))];
      }
    } else {
      var req := LinkRequest(client, parentId, localization, Uniq(known + created));
      var resp := server(now, req);
      sent' := sent + [req];
      if Localized(resp) {
        created' := created + [Get(resp.body, "id")];
        data' := data + [resp.body];
      } else {
        errors' := errors + [ErrorItem(LocaleFailed(localization, mainField), Some(GetErrorDetails(FaultOf(resp))))];
      }
    }
  }

  /** `_.uniq` keeps every value it is given. */
  lemma UniqMembers(xs: seq<Value>, x: Value)
    ensures x in Uniq(xs) <==> x in xs
  {
    UniqByKeys(xs, Identity, x);
    if x in xs {
      var j :| 0 <= j < |xs| && xs[j] == x;
      assert Identity(xs[j]) == x;
    }
    if KeyIn(Uniq(xs), Identity, x) {
      var j :| 0 <= j < |Uniq(xs)| && Identity(Uniq(xs)[j]) == x;
      assert Uniq(xs)[j] == x;
    }
  }

  /** A link list holds every known remote id and every translation created so far, the parent first among them. */
  lemma LinksCover(client: Client, parentId: Value, localization: Value, known: seq<Value>, created: seq<Value>)
    ensures var links := Links(LinkRequest(client, parentId, localization, Uniq(known + created)));
      forall x :: x in links <==> x in known || x in created
  {
    var links := Uniq(known + created);
    SetFieldGet(Spread(localization), "localizations", Arr(links), "localizations");
    forall x ensures x in links <==> x in known || x in created {
      UniqMembers(known + created, x);
    }
  }

  /**
   * Each translation sends exactly one request: an update under its own id
   * when it has one, otherwise a localization of the parent that links the
   * parent, every known id and every translation created before it.
   */
  lemma LocalizeStepRequest(b: Batch, p: Progress, localization: Value)
    ensures var q := LocalizeStep(b, p, localization);
      var req := q.sent[|p.sent|];
      && (Truthy(Get(localization, "id")) ==> req == UpdateRequest(b.client, Get(localization, "id"), localization) && q.created == p.created)
      && (!Truthy(Get(localization, "id")) ==>
            && req.verb == Create && req.path == "/" + Text(b.parentId) + "/localizations"
            && (forall x :: x in Links(req) <==> x in b.known || x in p.created))
  {
    if !Truthy(Get(localization, "id")) {
      LinksCover(b.client, b.parentId, localization, b.known, p.created);
    }
  }

  /** One translation ends in a result or in exactly one error naming it; a created one is added to the links of the next. */
  lemma LocalizeStepOutcome(b: Batch, p: Progress, localization: Value)
    ensures var q := LocalizeStep(b, p, localization);
      var resp := b.server(|p.sent|, q.sent[|p.sent|]);
      && (q.errors == p.errors <==> |q.results| == |p.results| + 1)
      && (q.errors != p.errors ==> q.errors == p.errors + [ErrorItem(LocaleFailed(localization, b.mainField), Some(GetErrorDetails(FaultOf(resp))))])
      && (Truthy(Get(localization, "id")) ==> (q.errors == p.errors <==> Stored(resp)))
      && (!Truthy(Get(localization, "id")) ==> (q.errors == p.errors <==> Localized(resp)))
      && (!Truthy(Get(localization, "id")) && Localized(resp) ==> q.created == p.created + [Get(resp.body, "id")] && q.results == p.results + [resp.body])
  {
  }

  /**
   * Over the whole loop: the i-th request belongs to the i-th translation,
   * and every translation created links the parent and every known remote id.
   */
  lemma {:induction false} LocalizeUpToRequest(b: Batch, xs: seq<Value>, i: nat)
    requires i < |xs|
    ensures var req := LocalizeUpTo(b, xs).sent[i];
      && (Truthy(Get(xs[i], "id")) ==> req == UpdateRequest(b.client, Get(xs[i], "id"), xs[i]))
      && (!Truthy(Get(xs[i], "id")) ==> b.parentId in Links(req) && forall x :: x in b.known ==> x in Links(req))
    decreases |xs|
  {
    var n := |xs| - 1;
    var p := LocalizeUpTo(b, xs[..n]);
    if i == n {
      LocalizeStepRequest(b, p, xs[n]);
      assert p.created[0] in p.created;
    } else {
      LocalizeUpToRequest(b, xs[..n], i);
      assert xs[..n][i] == xs[i];
      assert LocalizeUpTo(b, xs).sent[i] == LocalizeUpTo(b, xs).sent[..n][i];
    }
  }
}
