/**
 * `Web`: the parts of a Spark request and response the filters and
 * controllers read and write. Header names are matched exactly.
 */
module Web {
  import opened Common

  /** How a filter or route ends: it returns normally, or `halt(status, body)` stops the request. */
  datatype Outcome = Continue | Halt(status: int, body: string)

  /** `request.headers(name)`, or a query parameter: `None` when absent. */
  function Lookup(m: map<string, string>, name: string): (v: Option<string>)
    ensures v.Some? <==> name in m
    ensures v.Some? ==> v.value == m[name]
  {
    if name in m then Some(m[name]) else None
  }

  /**
   * A request: its method, headers and query parameters, which the code
   * only reads, and the attributes filters set for later filters.
   */
  class Request {
    const requestMethod: string
    const headers: map<string, string>
    const queryParams: map<string, string>
    var attributes: map<string, string>

    constructor (requestMethod: string, headers: map<string, string>, queryParams: map<string, string>,
                 attributes: map<string, string>)
      ensures this.requestMethod == requestMethod && this.headers == headers && this.queryParams == queryParams
      ensures this.attributes == attributes
    {
      this.requestMethod := requestMethod;
      this.headers := headers;
      this.queryParams := queryParams;
      this.attributes := attributes;
    }
  }

  /** A response: the headers set on it so far. */
  class Response {
    var headers: map<string, string>

    constructor ()
      ensures headers == map[]
    {
      headers := map[];
    }
  }
}
