/** The uniform endpoint records the REST normaliser produces
    (src/types/endpoint.ts), extended by the fields the normaliser writes
    beyond the declared type: the `trace` verb, `preferredResponse` and
    `deprecated`. */
module EndpointTypes {
  import opened Wrappers
  import opened JsonSchema

  /** Where a parameter is sent. */
  datatype Location = InPath | InQuery | InHeader | InCookie

  /** The value of a parameter's `in` field. */
  function LocationName(l: Location): string
  {
    match l
    case InPath => "path"
    case InQuery => "query"
    case InHeader => "header"
    case InCookie => "cookie"
  }

  /** A parameter object as the document declares it; `required` may be absent. */
  datatype RawParam = RawParam(name: string, location: Location, required: Option<bool>, schema: Option<Schema>)

  /** A merged parameter's schema: the declared one or, without one, the
      parameter object itself. */
  datatype ParamSchema = Declared(schema: Schema) | WholeParam(param: RawParam)

  datatype Param = Param(name: string, location: Location, required: bool, schema: ParamSchema)

  /** The outcome of content negotiation; both fields are undefined when the
      content map is empty. */
  datatype Body = Body(contentType: Option<string>, schema: Option<Schema>)

  datatype Response = Response(status: string, contentType: Option<string>, schema: Option<Schema>)

  datatype Endpoint = Endpoint(
    id: string,
    name: string,
    httpMethod: string,
    path: string,
    summary: Option<string>,
    description: Option<string>,
    params: seq<Param>,
    requestBody: Option<Body>,
    responses: seq<Response>,
    preferredResponse: Option<Response>,
    deprecated: bool)
}
