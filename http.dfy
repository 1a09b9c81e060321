/** The shape of an HTTP exchange with the EDGAR service, as the model sees it. */
module Http {

  /** A request parameter value, as the HTTP layer receives it. */
  datatype ParamValue = Str(s: string) | Int(n: int)

  /** Request parameters in insertion order. */
  type Query = seq<(string, ParamValue)>

  /** What the code reads from a `requests` response: `r.ok` and `r.text`. */
  datatype Response = Response(ok: bool, text: string)

  /** The parameter names of a query, in order. */
  function Keys(q: Query): seq<string>
  {
    seq(|q|, k requires 0 <= k < |q| => q[k].0)
  }
}
