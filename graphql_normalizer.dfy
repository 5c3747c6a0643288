/** `normalizeGraphQLSchema` (src/normalizers/graphql.ts): one
    `GraphQLEndpoint` per root field, carrying the field's raw arguments and
    type rather than JSON schemas. */
module GraphQLNormalizer {
  import opened Wrappers
  import opened GraphQLSchema
  import GraphQLParser

  /** The `graphql` part: the root kind and the field name. */
  datatype GraphQLRef = GraphQLRef(kind: OperationKind, field: string)

  /** `request`: the type `"object"` and the argument list. */
  datatype RequestPart = RequestPart(partType: string, schema: seq<Arg>)

  /** `response`: the type's text and the type itself. */
  datatype ResponsePart = ResponsePart(partType: string, schema: Option<GqlType>)

  datatype GraphQLEndpoint = GraphQLEndpoint(
    name: string,
    operationId: string,
    httpMethod: string,
    path: string,
    operationType: OperationKind,
    operationName: string,
    graphql: GraphQLRef,
    requestSchema: Option<seq<Arg>>,
    responseSchema: Option<GqlType>,
    request: RequestPart,
    response: ResponsePart)

  /** The endpoint pushed for field `field` of the root of kind `kind`;
      `field.args ?? []` and `field.type?.toString() ?? "any"` fill in a
      missing argument list or type. */
  function EndpointOf(kind: OperationKind, field: Field): GraphQLEndpoint
  {
    GraphQLEndpoint(
      field.name,
      field.name,
      "POST",
      "/graphql",
      kind,
      field.name,
      GraphQLRef(kind, field.name),
      field.args,
      field.fieldType,
      RequestPart("object", field.args.GetOr([])),
      ResponsePart(if field.fieldType.Some? then TypeString(field.fieldType.value) else "any", field.fieldType))
  }

  /** The endpoint of each site, in site order. */
  function EndpointsOf(sites: seq<(OperationKind, Field)>): (r: seq<GraphQLEndpoint>)
    ensures |r| == |sites|
  {
    seq(|sites|, i requires 0 <= i < |sites| => EndpointOf(sites[i].0, sites[i].1))
  }

  /** The endpoints of every field of every present root. */
  function Normalized(schema: GqlSchema): seq<GraphQLEndpoint>
  {
    EndpointsOf(FieldSites(schema))
  }

  lemma EndpointsOfAppend(a: seq<(OperationKind, Field)>, b: seq<(OperationKind, Field)>)
    ensures EndpointsOf(a + b) == EndpointsOf(a) + EndpointsOf(b)
  {
    assert forall i :: 0 <= i < |a + b| ==> (a + b)[i] == if i < |a| then a[i] else b[i - |a|];
  }

  /** One more root is its sites after those of the roots before it. */
  lemma SitesOfSnoc(roots: seq<(Option<seq<Field>>, OperationKind)>, r: nat)
    requires r < |roots|
    ensures SitesOf(roots[..r + 1]) == SitesOf(roots[..r]) + RootSites(roots[r].0, roots[r].1)
  {
    assert roots[..r + 1][..r] == roots[..r];
  }

  /** One more field of a root is one more site. */
  lemma RootSitesSnoc(fields: seq<Field>, kind: OperationKind, j: nat)
    requires j < |fields|
    ensures RootSites(Some(fields[..j + 1]), kind) == RootSites(Some(fields[..j]), kind) + [(kind, fields[j])]
  {
  }

  /** `normalizeGraphQLSchema(schema)`: for each of the query, mutation and
      subscription roots that is present, push one endpoint per field. */
  method NormalizeGraphQLSchema(schema: GqlSchema) returns (endpoints: seq<GraphQLEndpoint>)
    ensures endpoints == Normalized(schema)
  {
    var types := Roots(schema);
    endpoints := [];
    for r := 0 to |types|
      invariant endpoints == EndpointsOf(SitesOf(types[..r]))
    {
      var root, kind := types[r].0, types[r].1;
      SitesOfSnoc(types, r);
      if root.None? {
        continue;
      }
      var fields := root.value;
      for j := 0 to |fields|
        invariant endpoints == EndpointsOf(SitesOf(types[..r]) + RootSites(Some(fields[..j]), kind))
      {
        RootSitesSnoc(fields, kind, j);
        EndpointsOfAppend(SitesOf(types[..r]) + RootSites(Some(fields[..j]), kind), [(kind, fields[j])]);
        endpoints := endpoints + [EndpointOf(kind, fields[j])];
      }
      assert fields[..|fields|] == fields;
    }
    assert types[..|types|] == types;
  }

  /** One endpoint per field of each present root. */
  lemma NormalizedCount(schema: GqlSchema)
    ensures |Normalized(schema)|
         == FieldCount(schema.query) + FieldCount(schema.mutation) + FieldCount(schema.subscription)
  {
    FieldSitesShape(schema);
  }

  /** Query endpoints come first, then mutation, then subscription ones, and
      an endpoint of a kind exists only when that root is present. */
  lemma NormalizedOrder(schema: GqlSchema)
    ensures var r := Normalized(schema);
      forall i, j :: 0 <= i < j < |r| ==> KindRank(r[i].operationType) <= KindRank(r[j].operationType)
    ensures forall e :: e in Normalized(schema) ==>
      match e.operationType
      case Query => schema.query.Some?
      case Mutation => schema.mutation.Some?
      case Subscription => schema.subscription.Some?
  {
    FieldSitesOrdered(schema);
    var sites := FieldSites(schema);
    forall e | e in Normalized(schema)
      ensures match e.operationType
        case Query => schema.query.Some?
        case Mutation => schema.mutation.Some?
        case Subscription => schema.subscription.Some?
    {
      var i :| 0 <= i < |sites| && Normalized(schema)[i] == e;
      assert sites[i] in sites;
    }
  }

  /** What every endpoint holds: the field name as name, operation id and
      operation name, the root kind twice, a POST to `/graphql`, the raw
      arguments (or none) and the type's text (or `any`). */
  lemma NormalizedEndpointAt(schema: GqlSchema, i: nat)
    requires i < |FieldSites(schema)|
    ensures var (kind, field) := FieldSites(schema)[i];
      var e := Normalized(schema)[i];
      && e.name == field.name && e.operationId == field.name && e.operationName == field.name
      && e.graphql == GraphQLRef(kind, field.name)
      && e.operationType == kind
      && e.httpMethod == "POST" && e.path == "/graphql"
      && e.requestSchema == field.args && e.responseSchema == field.fieldType
      && e.request.partType == "object"
      && (field.args.Some? ==> e.request.schema == field.args.value)
      && (field.args.None? ==> e.request.schema == [])
      && (field.fieldType.Some? ==> e.response.partType == TypeString(field.fieldType.value))
      && (field.fieldType.None? ==> e.response.partType == "any")
      && e.response.schema == field.fieldType
  {
  }

  /** The two GraphQL front ends visit the same fields in the same order: the
      REST-shaped endpoint at each position is for the same root kind and
      field, and its id is that kind and field name joined by `_`. */
  lemma FrontEndsAgree(schema: GqlSchema, path: Option<string>)
    requires GraphQLParser.SchemaArgsPresent(schema)
    ensures var n := Normalized(schema);
      var p := GraphQLParser.ParsedEndpoints(schema, path);
      && |n| == |p|
      && forall i :: 0 <= i < |n| ==>
           && p[i].name == n[i].name
           && p[i].graphql.operationType == n[i].operationType
           && p[i].graphql.operationName == n[i].operationName
           && p[i].id == KindName(n[i].operationType) + "_" + n[i].operationName
  {
    var n := Normalized(schema);
    var p := GraphQLParser.ParsedEndpoints(schema, path);
    forall i | 0 <= i < |n|
      ensures && p[i].name == n[i].name
              && p[i].graphql.operationType == n[i].operationType
              && p[i].graphql.operationName == n[i].operationName
              && p[i].id == KindName(n[i].operationType) + "_" + n[i].operationName
    {
      GraphQLParser.ParsedEndpointAt(schema, path, i);
    }
  }
}
