/** Requests and replies as the library sees them, after the transport and the XML parser. */
module Http {
  import opened Wrappers
  import opened Exceptions
  import opened Values
  import opened Dicts

  /** One element of a parsed XML reply: its attributes, its text (None when empty) and its children. */
  datatype Element = Element(attrib: map<string, string>, text: Option<string>, children: seq<Element>)

  /** `element.text` as a Python value. */
  function TextValue(e: Element): Value
  {
    match e.text
    case None => Null
    case Some(t) => Str(t)
  }

  /** Element `i` of `items` carries the attribute `Name="name"`. */
  ghost predicate Reports(items: seq<Element>, i: int, name: string)
  {
    0 <= i < |items| && "Name" in items[i].attrib && items[i].attrib["Name"] == name
  }

  /** Element `i` is the last of `items` named `name`. */
  ghost predicate LastNamed(items: seq<Element>, i: int, name: string)
  {
    Reports(items, i, name) && forall j :: i < j < |items| ==> !Reports(items, j, name)
  }

  /** The query parameters of a request: a dict from parameter name to value. */
  type Params = Dict<Value>

  /** A call to `send_request(extension, payload)`. */
  datatype Request = Request(extension: string, payload: Option<Params>)

  /** A reply: its status code and the children of its root element. */
  datatype Response = Response(status: int, body: seq<Element>)

  /** `response.raise_for_status()`: requests raises HTTPError for every 4xx and 5xx status. */
  function RaiseForStatus(r: Response): (o: Outcome<Response>)
    ensures o.Ok? <==> !(400 <= r.status < 600)
    ensures o.Ok? ==> o.value == r
    ensures o.Err? ==> o.error == HttpError(r.status)
  {
    if 400 <= r.status < 600 then Err(HttpError(r.status)) else Ok(r)
  }

  /** `"1" if flag else "0"`, the way boolean parameters are sent. */
  function Flag(flag: bool): Value
  {
    Str(if flag then "1" else "0")
  }
}
