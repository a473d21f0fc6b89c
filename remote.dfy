/**
 * The target instance as the engine sees it. Every HTTP exchange goes through
 * a client bound to `/api` or to `/api/<plural api name>`; the instance is an
 * oracle that answers the n-th request of a run, so a run's behaviour is a
 * function of the answers it gets. Failures carry what `getErrorDetails`
 * reads from an axios error.
 */
module Remote {
  import opened Values

  /** `new RemoteStrapiClient(url, token)` or `createCollectionClient(apiName)`; `External` is a plain `axios.get` of a file URL. */
  datatype Client = Root | Collection(apiName: string) | External

  /** `fetch` is GET, `create` is POST, `update` is PUT. */
  datatype Verb = Fetch | Create | Update

  datatype Request = Request(verb: Verb, client: Client, path: string, body: Value)

  /**
   * Something thrown: its `String(err)` text and, for an HTTP error, the
   * response body (`error.response.data`). Errors raised by the engine's own
   * code (a property read on undefined) have no response.
   */
  datatype Fault = Fault(text: string, response: Option<Value>)

  /** The response body on success (axios' `resp.data`), or the rejection. */
  datatype Response = Ok(body: Value) | Err(fault: Fault)

  /** The instance answers the request sent after `n` earlier ones. */
  type Server = (nat, Request) -> Response

  /** A computation that talks to the instance: its value and the requests it sent, in order. */
  datatype Call<T> = Call(value: T, sent: seq<Request>)

  /** A computation that may throw: the engine lets some rejections propagate to its caller. */
  datatype Outcome<T> = Returned(value: T) | Threw(fault: Fault)

  /** The TypeError raised when the engine reads a property of a missing response payload. */
  const MissingPayload: Fault := Fault("TypeError: Cannot read properties of undefined", None)

  /** `{ message, details? }` as collected in `errors`. */
  datatype ErrorItem = ErrorItem(message: string, details: Option<Value>)

  function DetailItem(message: Value, name: string): Value
  {
    Obj([Field("message", message), Field("name", Str(name))])
  }

  /**
   * `getErrorDetails(error)`: empty exactly when there was no response;
   * otherwise the generic item, the request-error item with the server's
   * message or the error text, or the server's own `details.errors`, and only
   * in the last case more than one item.
   */
  function GetErrorDetails(f: Fault): (r: Value)
    ensures r == Arr([]) <==> f.response.None?
    ensures f.response.Some? && !StrapiError(f) ==> r == Arr([DetailItem(Str(f.text), "Axios error")])
    ensures StrapiError(f) && !DetailedError(f) ==>
      var message := Get(Get(f.response.value, "error"), "message");
      r == Arr([DetailItem(if Truthy(message) then message else Str(f.text), "Request error")])
    ensures DetailedError(f) ==> r == Get(Get(Get(f.response.value, "error"), "details"), "errors")
    ensures !DetailedError(f) ==> |Elements(r)| <= 1
  {
    match f.response
    case None => Arr([])
    case Some(data) =>
      var generic := Arr([DetailItem(Str(f.text), "Axios error")]);
      if !Truthy(data) then generic
      else
        var dataErr := Get(data, "error");
        if !Truthy(dataErr) then generic
        else if IsEmpty(Get(dataErr, "details")) || IsEmpty(Get(Get(dataErr, "details"), "errors")) then
          var message := Get(dataErr, "message");
          Arr([DetailItem(if Truthy(message) then message else Str(f.text), "Request error")])
        else Get(Get(dataErr, "details"), "errors")
  }

  /** A Strapi error response: a truthy `error` inside a truthy body. */
  predicate StrapiError(f: Fault)
  {
    f.response.Some? && Truthy(f.response.value) && Truthy(Get(f.response.value, "error"))
  }

  /** A Strapi error whose `details.errors` lists something. */
  predicate DetailedError(f: Fault)
  {
    && StrapiError(f)
    && var dataErr := Get(f.response.value, "error");
    !IsEmpty(Get(dataErr, "details")) && !IsEmpty(Get(Get(dataErr, "details"), "errors"))
  }

  /** The instance as seen from server time `t` on. */
  function Shifted(server: Server, t: nat): (r: Server)
    ensures forall n: nat, req :: r(n, req) == server(t + n, req)
  {
    (n: nat, req: Request) => server(t + n, req)
  }
}
