/** The two response decorators of the older server: one turns a handler's
    result into an HTTP response, the other serialises it to JSON first. */
module Http {
  import opened Wrappers

  /** The Python values a decorated handler can return. */
  datatype PyValue =
    | PyNone
    | PyBool(b: bool)
    | PyInt(i: int)
    | PyStr(s: string)
    | PyList(items: seq<PyValue>)
    | PyDict(entries: map<string, PyValue>)

  /** Python truthiness: `None`, `False`, `0` and empty containers are false. */
  predicate Truthy(v: PyValue)
  {
    match v
    case PyNone => false
    case PyBool(b) => b
    case PyInt(i) => i != 0
    case PyStr(s) => s != []
    case PyList(items) => items != []
    case PyDict(entries) => entries != map[]
  }

  datatype Response = Response(status: int, text: string)

  /** The exception raised for a truthy value that is not a string. */
  datatype NotAString = NotAString

  /** `send_as_http_response`: a non-empty string is sent with status 200, any
      falsy value becomes a 404 "Not found", and any other value raises. */
  function SendAsHttpResponse(data: PyValue): (r: Result<Response, NotAString>)
    ensures r.Failure? <==> Truthy(data) && !data.PyStr?
    ensures r.Success? && r.value.status == 200 <==> data.PyStr? && data.s != []
    ensures r.Success? && r.value.status == 200 ==> r.value.text == data.s
    ensures !Truthy(data) ==> r == Success(Response(404, "Not found"))
  {
    if Truthy(data) && data.PyStr? then Success(Response(200, data.s))
    else if Truthy(data) then Failure(NotAString)
    else Success(Response(404, "Not found"))
  }

  /** `serialize_as_json_string`: a truthy value is serialised with `dumps`,
      which stands for `json.dumps`; a falsy one gives `None`. */
  function SerializeAsJsonString(data: PyValue, dumps: PyValue -> string): (r: PyValue)
    ensures r == PyNone <==> !Truthy(data)
    ensures Truthy(data) ==> r == PyStr(dumps(data))
  {
    if Truthy(data) then PyStr(dumps(data)) else PyNone
  }

  /** Stacking the two decorators, as the JSON routes do: a truthy result is
      sent as its JSON text with status 200 whenever the serialiser produces
      text, and a falsy one is a 404; the stack never raises. */
  lemma StackedDecorators(data: PyValue, dumps: PyValue -> string)
    requires dumps(data) != []
    ensures var r := SendAsHttpResponse(SerializeAsJsonString(data, dumps));
      && r.Success?
      && (Truthy(data) ==> r.value == Response(200, dumps(data)))
      && (!Truthy(data) ==> r.value == Response(404, "Not found"))
  {
  }
}
