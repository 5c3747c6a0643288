/** `parseGraphQLSchema` (src/parsers/graphql.ts): one REST-shaped endpoint
    per root field, posted to a single path, carrying JSON schemas for the
    request body (`query` plus `variables`) and for the response envelope. */
module GraphQLParser {
  import opened Wrappers
  import opened Text
  import opened JsObject
  import opened JsonSchema
  import opened EndpointTypes
  import opened GraphQLSchema
  import Generators

  // ---------------------------------------------------------------------
  // Type mapping
  // ---------------------------------------------------------------------

  /** `mapGraphQLTypeToJSONType`: non-null wrappers are looked through, lists
      are arrays, object types and non-scalar named types are objects, `Int`
      and `Float` are numbers, `Boolean` is a boolean and every other scalar
      is a string. */
  function MapTypeToJson(t: GqlType): (r: string)
    ensures r == "string" || r == "number" || r == "boolean" || r == "array" || r == "object"
  {
    match t
    case NonNull(inner) => MapTypeToJson(inner)
    case ListOf(_) => "array"
    case ObjectType(_) => "object"
    case ScalarType(n) =>
      if n == "Int" || n == "Float" then "number"
      else if n == "Boolean" then "boolean"
      else "string"
    case OtherType(_) => "object"
  }

  /** The type under all non-null wrappers. */
  function Nullable(t: GqlType): (r: GqlType)
    ensures !r.NonNull?
  {
    match t
    case NonNull(inner) => Nullable(inner)
    case _ => t
  }

  /** Only the type under the non-null wrappers decides the JSON type, and
      each kind of named type maps as described. */
  lemma {:induction false} MapTypeLooksThroughNonNull(t: GqlType)
    ensures MapTypeToJson(t) == MapTypeToJson(Nullable(t))
    ensures Nullable(t).ListOf? ==> MapTypeToJson(t) == "array"
    ensures Nullable(t).ObjectType? || Nullable(t).OtherType? ==> MapTypeToJson(t) == "object"
    ensures Nullable(t).ScalarType? ==>
      var n := Nullable(t).name;
      && (MapTypeToJson(t) == "number" <==> n == "Int" || n == "Float")
      && (MapTypeToJson(t) == "boolean" <==> n == "Boolean")
      && (MapTypeToJson(t) == "string" <==> n != "Int" && n != "Float" && n != "Boolean")
  {
    if t.NonNull? {
      MapTypeLooksThroughNonNull(t.ofType);
    }
  }

  /** Every JSON type the mapping produces is one the TypeScript mapper
      renders as something other than `any`. */
  lemma MappedTypesAreRendered(t: GqlType, typeName: string)
    ensures Generators.NodeToTS(TypeOnly(MapTypeToJson(t)), typeName) != "any"
  {
    Generators.TsAnyExactly(TypeOnly(MapTypeToJson(t)), typeName);
  }

  // ---------------------------------------------------------------------
  // Schemas
  // ---------------------------------------------------------------------

  /** `field.args.filter(a => isNonNullType(a.type)).map(a => a.name)`. */
  function NonNullNames(args: seq<Arg>): (r: seq<string>)
    ensures |r| <= |args|
  {
    if args == [] then []
    else
      var last := args[|args| - 1];
      NonNullNames(args[..|args| - 1]) + (if last.argType.NonNull? then [last.name] else [])
  }

  /** A name is required exactly when some argument of that name is non-null. */
  lemma {:induction false} NonNullNamesExactly(args: seq<Arg>, n: string)
    ensures n in NonNullNames(args) <==> exists i :: 0 <= i < |args| && args[i].name == n && args[i].argType.NonNull?
  {
    if args != [] {
      var init := args[..|args| - 1];
      NonNullNamesExactly(init, n);
      if exists i :: 0 <= i < |args| && args[i].name == n && args[i].argType.NonNull? {
        var i :| 0 <= i < |args| && args[i].name == n && args[i].argType.NonNull?;
        if i < |args| - 1 {
          assert init[i] == args[i];
        }
      }
      if exists i :: 0 <= i < |init| && init[i].name == n && init[i].argType.NonNull? {
        var i :| 0 <= i < |init| && init[i].name == n && init[i].argType.NonNull?;
        assert args[i] == init[i];
      }
    }
  }

  /** `[arg.name, { type: mapGraphQLTypeToJSONType(arg.type) }]` per argument. */
  function ArgEntries(args: seq<Arg>): (r: Entries<Schema>)
    ensures |r| == |args|
    ensures forall i :: 0 <= i < |args| ==> r[i].0 == args[i].name
  {
    seq(|args|, i requires 0 <= i < |args| => (args[i].name, TypeOnly(MapTypeToJson(args[i].argType))))
  }

  /** The `variables` schema: an object with one property per argument and
      the non-null arguments required. */
  function VariablesSchema(args: seq<Arg>): Schema
  {
    Schema(Some("object"), None, None, Properties(FromEntries(ArgEntries(args))), Some(NonNullNames(args)))
  }

  /** The request body schema: a required `query` string and the variables. */
  function RequestSchema(args: seq<Arg>): Schema
  {
    Schema(Some("object"), None, None,
      Properties([("query", TypeOnly("string")), ("variables", VariablesSchema(args))]),
      Some(["query"]))
  }

  /** The response envelope: `data` an object, `errors` an array of objects. */
  function ResponseSchema(): Schema
  {
    Schema(Some("object"), None, None,
      Properties([("data", TypeOnly("object")),
                  ("errors", Schema(Some("array"), None, Some(TypeOnly("object")), NoProperties, None))]),
      None)
  }

  predicate DistinctArgNames(args: seq<Arg>) {
    forall i, j :: 0 <= i < j < |args| ==> args[i].name != args[j].name
  }

  /** With distinct argument names the variables schema lists one property
      per argument, in argument order. */
  lemma VariablesOnePropertyPerArg(args: seq<Arg>)
    requires DistinctArgNames(args)
    ensures Generators.PropsOf(VariablesSchema(args)) == ArgEntries(args)
  {
    FromEntriesDistinct(ArgEntries(args));
  }

  /** Whatever the names, the variables schema has a property for exactly the
      argument names, and requires exactly the names of non-null arguments. */
  lemma VariablesKeys(args: seq<Arg>, n: string)
    ensures n in Keys(Generators.PropsOf(VariablesSchema(args))) <==> exists i :: 0 <= i < |args| && args[i].name == n
    ensures n in Generators.RequiredOf(VariablesSchema(args))
      <==> exists i :: 0 <= i < |args| && args[i].name == n && args[i].argType.NonNull?
  {
    PutAllKeys([], ArgEntries(args), n);
    NonNullNamesExactly(args, n);
    if n in Keys(ArgEntries(args)) {
      var i :| 0 <= i < |args| && Keys(ArgEntries(args))[i] == n;
      assert args[i].name == n;
    }
    if exists i :: 0 <= i < |args| && args[i].name == n {
      var i :| 0 <= i < |args| && args[i].name == n;
      assert Keys(ArgEntries(args))[i] == n;
    }
  }

  /** In the generated TypeScript for the variables, an argument is optional
      (`?`) exactly when its GraphQL type is not non-null, and the Zod
      validator agrees (`.optional()`). */
  lemma VariablesOptionalMarkers(args: seq<Arg>, typeName: string, varName: string, i: nat)
    requires DistinctArgNames(args) && i < |args|
    ensures var vars := VariablesSchema(args);
      && i < |Generators.PropsOf(vars)|
      && |Generators.TsPropertyLines(vars, typeName)[i]| > 2 + |args[i].name|
      && (Generators.TsPropertyLines(vars, typeName)[i][2 + |args[i].name|] == '?' <==> !args[i].argType.NonNull?)
      && (EndsWith(Generators.ZodPropertyLines(vars, varName)[i], ".optional()") <==> !args[i].argType.NonNull?)
  {
    var vars := VariablesSchema(args);
    VariablesOnePropertyPerArg(args);
    Generators.OptionalMarkersAgree(vars, typeName, varName, i);
    VariablesKeys(args, args[i].name);
  }

  // ---------------------------------------------------------------------
  // Endpoints
  // ---------------------------------------------------------------------

  /** The `graphql` extension of an endpoint. */
  datatype GraphQLInfo = GraphQLInfo(
    operationType: OperationKind,
    operationName: string,
    requestSchema: Schema,
    responseSchema: Schema)

  /** An `Endpoint` as this front end builds it, with its `graphql` part. */
  datatype ParsedEndpoint = ParsedEndpoint(
    id: string,
    name: string,
    httpMethod: string,
    path: string,
    description: string,
    params: seq<Param>,
    requestBody: Option<Body>,
    responses: seq<Response>,
    graphql: GraphQLInfo)

  /** The description prefix of each root kind. */
  function DescriptionPrefix(kind: OperationKind): string
  {
    match kind
    case Query => "Fetch a query"
    case Mutation => "Execute a mutation"
    case Subscription => "Open a subscription"
  }

  /** `fieldToEndpoint(kind, field, path, descriptionPrefix)`; the field's
      argument list is read directly, so it must be present. */
  function FieldToEndpoint(kind: OperationKind, field: Field, path: string, descriptionPrefix: string): ParsedEndpoint
    requires field.args.Some?
  {
    ParsedEndpoint(
      KindName(kind) + "_" + field.name,
      field.name,
      "post",
      path,
      descriptionPrefix + ": " + field.name,
      [],
      None,
      [],
      GraphQLInfo(kind, field.name, RequestSchema(field.args.value), ResponseSchema()))
  }

  predicate ArgsPresent(fields: seq<Field>) {
    forall j :: 0 <= j < |fields| ==> fields[j].args.Some?
  }

  /** `mapFieldsToEndpoints(kind, type, path, prefix)`. */
  function MapFieldsToEndpoints(kind: OperationKind, fields: seq<Field>, path: string, descriptionPrefix: string): (r: seq<ParsedEndpoint>)
    requires ArgsPresent(fields)
    ensures |r| == |fields|
  {
    seq(|fields|, j requires 0 <= j < |fields| => FieldToEndpoint(kind, fields[j], path, descriptionPrefix))
  }

  /** Every field of every present root carries its argument list. */
  predicate SchemaArgsPresent(schema: GqlSchema) {
    && (schema.query.Some? ==> ArgsPresent(schema.query.value))
    && (schema.mutation.Some? ==> ArgsPresent(schema.mutation.value))
    && (schema.subscription.Some? ==> ArgsPresent(schema.subscription.value))
  }

  /** `opts.path ?? "/graphql"`. */
  function EndpointPath(path: Option<string>): string {
    path.GetOr("/graphql")
  }

  /** The endpoints of one root, or none when it is absent. */
  function RootEndpoints(root: Option<seq<Field>>, kind: OperationKind, path: string): seq<ParsedEndpoint>
    requires root.Some? ==> ArgsPresent(root.value)
  {
    match root
    case None => []
    case Some(fields) => MapFieldsToEndpoints(kind, fields, path, DescriptionPrefix(kind))
  }

  predicate SitesArgsPresent(sites: seq<(OperationKind, Field)>) {
    forall i :: 0 <= i < |sites| ==> sites[i].1.args.Some?
  }

  lemma FieldSitesArgs(schema: GqlSchema)
    requires SchemaArgsPresent(schema)
    ensures SitesArgsPresent(FieldSites(schema))
  {
    FieldSitesOrdered(schema);
    forall i | 0 <= i < |FieldSites(schema)| ensures FieldSites(schema)[i].1.args.Some? {
      assert FieldSites(schema)[i] in FieldSites(schema);
    }
  }

  /** The endpoint of each site, in site order. */
  function SiteEndpoints(sites: seq<(OperationKind, Field)>, path: string): (r: seq<ParsedEndpoint>)
    requires SitesArgsPresent(sites)
    ensures |r| == |sites|
  {
    seq(|sites|, i requires 0 <= i < |sites| =>
      FieldToEndpoint(sites[i].0, sites[i].1, path, DescriptionPrefix(sites[i].0)))
  }

  /** The endpoint of every field site of the schema, in site order. */
  function ParsedEndpoints(schema: GqlSchema, path: Option<string>): seq<ParsedEndpoint>
    requires SchemaArgsPresent(schema)
  {
    FieldSitesArgs(schema);
    SiteEndpoints(FieldSites(schema), EndpointPath(path))
  }

  lemma SiteEndpointsAppend(a: seq<(OperationKind, Field)>, b: seq<(OperationKind, Field)>, path: string)
    requires SitesArgsPresent(a) && SitesArgsPresent(b)
    ensures SitesArgsPresent(a + b)
    ensures SiteEndpoints(a + b, path) == SiteEndpoints(a, path) + SiteEndpoints(b, path)
  {
    assert forall i :: 0 <= i < |a + b| ==> (a + b)[i] == if i < |a| then a[i] else b[i - |a|];
  }

  lemma RootSiteEndpoints(root: Option<seq<Field>>, kind: OperationKind, path: string)
    requires root.Some? ==> ArgsPresent(root.value)
    ensures SitesArgsPresent(RootSites(root, kind))
    ensures SiteEndpoints(RootSites(root, kind), path) == RootEndpoints(root, kind, path)
  {
  }

  /** Site by site is root by root. */
  lemma ParsedByRoot(schema: GqlSchema, path: Option<string>)
    requires SchemaArgsPresent(schema)
    ensures ParsedEndpoints(schema, path)
         == RootEndpoints(schema.query, Query, EndpointPath(path))
          + RootEndpoints(schema.mutation, Mutation, EndpointPath(path))
          + RootEndpoints(schema.subscription, Subscription, EndpointPath(path))
  {
    FieldSitesShape(schema);
    var p := EndpointPath(path);
    var q, m, u := RootSites(schema.query, Query), RootSites(schema.mutation, Mutation),
      RootSites(schema.subscription, Subscription);
    RootSiteEndpoints(schema.query, Query, p);
    RootSiteEndpoints(schema.mutation, Mutation, p);
    RootSiteEndpoints(schema.subscription, Subscription, p);
    SiteEndpointsAppend(q, m, p);
    SiteEndpointsAppend(q + m, u, p);
  }

  /** `parseGraphQLSchema(schema, opts)`: pushes the endpoints of the query,
      mutation and subscription roots, each when present. */
  method ParseGraphQLSchema(schema: GqlSchema, path: Option<string>) returns (endpoints: seq<ParsedEndpoint>)
    requires SchemaArgsPresent(schema)
    ensures endpoints == ParsedEndpoints(schema, path)
  {
    var p := EndpointPath(path);
    endpoints := [];
    if schema.query.Some? {
      endpoints := endpoints + MapFieldsToEndpoints(Query, schema.query.value, p, "Fetch a query");
    }
    assert endpoints == RootEndpoints(schema.query, Query, p);
    ghost var afterQuery := endpoints;
    if schema.mutation.Some? {
      endpoints := endpoints + MapFieldsToEndpoints(Mutation, schema.mutation.value, p, "Execute a mutation");
    }
    assert endpoints == afterQuery + RootEndpoints(schema.mutation, Mutation, p);
    ghost var afterMutation := endpoints;
    if schema.subscription.Some? {
      endpoints := endpoints + MapFieldsToEndpoints(Subscription, schema.subscription.value, p, "Open a subscription");
    }
    assert endpoints == afterMutation + RootEndpoints(schema.subscription, Subscription, p);
    ParsedByRoot(schema, path);
  }

  /** One endpoint per field of each present root. */
  lemma ParsedCount(schema: GqlSchema, path: Option<string>)
    requires SchemaArgsPresent(schema)
    ensures |ParsedEndpoints(schema, path)|
         == FieldCount(schema.query) + FieldCount(schema.mutation) + FieldCount(schema.subscription)
  {
    FieldSitesShape(schema);
  }

  /** What every endpoint holds: a POST to the configured path (default
      `/graphql`), no parameters, body or responses, the id `kind_field`,
      and the fixed request and response schemas around the field's
      variables. */
  lemma ParsedEndpointAt(schema: GqlSchema, path: Option<string>, i: nat)
    requires SchemaArgsPresent(schema) && i < |FieldSites(schema)|
    ensures var (kind, field) := FieldSites(schema)[i];
      var e := ParsedEndpoints(schema, path)[i];
      && e.httpMethod == "post"
      && e.path == (if path.Some? then path.value else "/graphql")
      && e.params == [] && e.requestBody.None? && e.responses == []
      && e.id == KindName(kind) + "_" + field.name
      && e.name == field.name && e.graphql.operationName == field.name
      && e.graphql.operationType == kind
      && e.description == DescriptionPrefix(kind) + ": " + field.name
      && field.args.Some?
      && e.graphql.requestSchema.required == Some(["query"])
      && Generators.PropsOf(e.graphql.requestSchema)
         == [("query", TypeOnly("string")), ("variables", VariablesSchema(field.args.value))]
      && e.graphql.responseSchema == ResponseSchema()
  {
    FieldSitesOrdered(schema);
    assert FieldSites(schema)[i] in FieldSites(schema);
  }

  /** The field names of a root are pairwise distinct. */
  predicate DistinctFieldNames(root: Option<seq<Field>>) {
    root.Some? ==> forall a, b :: 0 <= a < b < |root.value| ==> root.value[a].name != root.value[b].name
  }

  /** Endpoint ids are unique when the field names within each root are:
      roots differ in the first letter of their kind. */
  lemma ParsedIdsDistinct(schema: GqlSchema, path: Option<string>)
    requires SchemaArgsPresent(schema)
    requires DistinctFieldNames(schema.query) && DistinctFieldNames(schema.mutation)
    requires DistinctFieldNames(schema.subscription)
    ensures var r := ParsedEndpoints(schema, path);
      forall i, j :: 0 <= i < j < |r| ==> r[i].id != r[j].id
  {
    var r := ParsedEndpoints(schema, path);
    var sites := FieldSites(schema);
    FieldSitesShape(schema);
    var q, m, u := RootSites(schema.query, Query), RootSites(schema.mutation, Mutation),
      RootSites(schema.subscription, Subscription);
    forall i, j | 0 <= i < j < |r| ensures r[i].id != r[j].id {
      ParsedEndpointAt(schema, path, i);
      ParsedEndpointAt(schema, path, j);
      var k1, f1 := sites[i].0, sites[i].1;
      var k2, f2 := sites[j].0, sites[j].1;
      if k1 == k2 {
        SameKindDistinctNames(schema, i, j);
        assert r[i].id == KindName(k1) + "_" + f1.name;
        assert r[j].id == KindName(k1) + "_" + f2.name;
        assert r[i].id[|KindName(k1)| + 1..] == f1.name;
      } else {
        assert r[i].id[0] == KindName(k1)[0];
        assert r[j].id[0] == KindName(k2)[0];
      }
    }
  }

  /** Two sites of the same kind are two fields of that root. */
  lemma SameKindDistinctNames(schema: GqlSchema, i: nat, j: nat)
    requires DistinctFieldNames(schema.query) && DistinctFieldNames(schema.mutation)
    requires DistinctFieldNames(schema.subscription)
    requires i < j < |FieldSites(schema)| && FieldSites(schema)[i].0 == FieldSites(schema)[j].0
    ensures FieldSites(schema)[i].1.name != FieldSites(schema)[j].1.name
  {
    var sites := FieldSites(schema);
    FieldSitesShape(schema);
    FieldSitesOrdered(schema);
    var q, m, u := RootSites(schema.query, Query), RootSites(schema.mutation, Mutation),
      RootSites(schema.subscription, Subscription);
    if i < |q| {
      assert sites[i] == q[i];
      if j < |q| {
        assert sites[j] == q[j];
      }
    } else if i < |q| + |m| {
      assert sites[i] == m[i - |q|];
      if j < |q| + |m| {
        assert sites[j] == m[j - |q|];
      }
    } else {
      assert sites[i] == u[i - |q| - |m|];
      assert sites[j] == u[j - |q| - |m|];
    }
  }
}
