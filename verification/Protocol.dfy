/** The HTTP data model shared by recording and replay. */
module Protocol {
  import opened Json
  import opened Sorting

  datatype BodyContent = JsonBody(value: Value) | TextBody(text: string) | BinaryBody(bytes: seq<nat>) | NoBody

  datatype Header = Header(name: string, values: seq<string>)

  function Names(headers: seq<Header>): (r: seq<string>)
    ensures |r| == |headers| && forall i :: 0 <= i < |r| ==> r[i] == headers[i].name
  {
    seq(|headers|, i requires 0 <= i < |headers| => headers[i].name)
  }

  /** A hash map of headers in its iteration order. */
  type Headers = h: seq<Header> | Distinct(Names(h))

  datatype HttpRequest = HttpRequest(method_: string, uri: string, headers: Headers, body: BodyContent)
  datatype HttpResponse = HttpResponse(status: nat, headers: Headers, body: BodyContent)
  datatype HttpInteraction = HttpInteraction(request: HttpRequest, response: HttpResponse, recordedAt: string)
}
