# xapi core, modelled in Dafny

This project models the core of xapi, a TypeScript tool that reads an OpenAPI
or GraphQL schema and generates a typed client. It covers the part that does
the reading and the type mapping:

- **REST helpers** (`src/utils/normalizers.ts`, module `RestHelpers`):
  - the HTTP verb filter;
  - `safeName`, collision-free naming against a shared set of used names. It is a class `NameSet` whose method updates the set in place;
  - `mkName`, the derived operation name;
  - `pickContent`, content negotiation;
  - `mergeParameters`, the path/operation parameter merge. It is a method with two loops over an insertion-ordered map.
- **OpenAPI normaliser** (`src/normalizers/openapi.ts`, module `OpenApiNormalizer`):
  - a method with nested loops over paths and path-item entries;
  - it is proved equal to a specification function over the list of "sites" (kept path/verb pairs);
  - properties proved about that function: unique names, verbs only, deprecated operations dropped or kept, and the response preference order.
- **Schema mappers** (`src/utils/generators.ts`, module `Generators`):
  - `simpleSchemaToTS`, `schemaToZodCode` and the archived `schemaToTS`;
  - `capitalize` (in `Text`), `sanitizeBase` and `makeTypeName`.
- **GraphQL parser** (`src/parsers/graphql.ts`, module `GraphQLParser`):
  - `parseGraphQLSchema` as a method, proved equal to a specification function;
  - `mapFieldsToEndpoints`, `fieldToEndpoint` and `mapGraphQLTypeToJSONType`.
- **GraphQL normaliser** (`src/normalizers/graphql.ts`, module `GraphQLNormalizer`):
  - `normalizeGraphQLSchema`, a method with nested loops;
  - it is proved to visit the same fields in the same order as the parser.
- **Plugin registry** (`src/core/pluginSystem.ts`, module `PluginSystem`):
  - the registry is a class over a `seq` of plugins, and `registerPlugin` refuses duplicate names;
  - `detectPlugin` is a pure choice from the lower-cased extension;
  - of `runPlugins`, only its dispatch decision is modelled.
- **File helpers** (`src/utils/file.ts`, module `FileUtils`):
  - `isUrl`;
  - `getExtension`, with Node's POSIX `path.extname` and the part of WHATWG URL parsing that yields a pathname.

Shared modules:

- `Wrappers`: `Option` and `Result`. A thrown error is a `Failure`, and `undefined` is `None`.
- `Text`: ASCII case mapping, `\s` white space, joining and decimal numerals.
- `JsObject`: a JavaScript object or `Map` as the sequence of its entries in enumeration order, with `set`, `get` and `Object.fromEntries`.
- `Json`: JSON literals with `JSON.stringify` and a parser proved to invert it.
- `JsonSchema`: the JSON-schema nodes the mappers read.
- `EndpointTypes`: the endpoint records of `src/types/endpoint.ts`.
- `GraphQLSchema`: root types, fields, arguments and type expressions.

## Model

| member | source | states |
|---|---|---|
| Text.Lower | src/normalizers/openapi.ts:24 | `toLowerCase`: same length, every character ASCII-folded, and no upper-case letter left |
| Text.LowerIdempotent | src/normalizers/openapi.ts:24 | lower-casing a lower-cased string changes nothing |
| Text.Capitalize | src/utils/generators.ts:43-45 | same length; the first character upper-cased and the rest unchanged; the empty string is kept |
| Text.CapitalizeIdempotent | src/utils/generators.ts:43-45 | capitalising twice is capitalising once |
| Text.DecimalRoundTrip | src/utils/normalizers.ts:19 | the numeral written into a `base_i` suffix reads back as `i` |
| Text.DecimalInjective | src/utils/normalizers.ts:19 | distinct counters give distinct suffixes |
| JsObject.Put | src/utils/normalizers.ts:56 | `Map.set`: an existing key keeps its place, a new key goes last, and the key then maps to the new value |
| JsObject.PutGetOther | src/utils/normalizers.ts:59 | setting one key leaves every other key's value alone |
| JsObject.PutDistinct | src/utils/normalizers.ts:56 | a map never holds a key twice |
| JsObject.PutAllGet | src/utils/normalizers.ts:55-60 | after a run of `set`s, a key holds its last value in the run, or its earlier value if the run does not set it |
| JsObject.PutAllKeys | src/utils/normalizers.ts:55-60 | the keys after a run of `set`s are the earlier keys plus those of the run |
| JsObject.FromEntriesOrder | src/utils/normalizers.ts:61 | keys enumerate in order of their first insertion |
| JsObject.FromEntriesDistinct | src/parsers/graphql.ts:81-86 | `Object.fromEntries` of entries with distinct keys is those entries in order |
| Json.ParseStringify | src/utils/generators.ts:12 | every literal `JSON.stringify` writes reads back as the same value |
| Json.UnescapeEscape | src/utils/generators.ts:12 | string escaping is undone by unescaping |
| RestHelpers.CandidateInjective | src/utils/normalizers.ts:19 | the names tried for one base are pairwise distinct |
| RestHelpers.FreshIndexFrom | src/utils/normalizers.ts:18-20 | the loop stops at the first counter whose name is unused, and every earlier counter's name is used |
| RestHelpers.FreshNameOfFreeBase | src/utils/normalizers.ts:16-18 | an unused base is returned as it is |
| RestHelpers.FreshNameLeast | src/utils/normalizers.ts:15-22 | `FreshName`, the loop of `safeName` as a function: the name is unused; for a used base it is `base_k` for the least `k >= 1` that is unused |
| RestHelpers.FreshIndexBound | src/utils/normalizers.ts:18-20 | the loop ends within as many steps as there are used names |
| RestHelpers.NameSet.SafeName | src/utils/normalizers.ts:15-23 | returns the fresh name for `base` and adds it to the set, and nothing else |
| RestHelpers.NameSet.constructor | src/normalizers/openapi.ts:17 | the set of used names starts empty |
| RestHelpers.MkNameOperationId | src/utils/normalizers.ts:26 | a non-empty operation id is the name |
| RestHelpers.MkNameShape | src/utils/normalizers.ts:25-34 | `MkName`, which is `mkName`: without an operation id, the lower-cased verb, then each white-space-separated word of the path with `/`, `{`, `}` blanked, capitalised |
| RestHelpers.MkNameIsIdentifierSafe | src/utils/normalizers.ts:27-33 | a derived name has no white space, `/`, `{` or `}` |
| RestHelpers.WordsTrim | src/utils/normalizers.ts:27-28 | trimming before splitting on `\s+` and dropping empties changes no word |
| RestHelpers.WordsAreWords | src/utils/normalizers.ts:28 | each word is non-empty and free of white space |
| RestHelpers.MkNameExample | src/utils/normalizers.ts:25-34 | `get` on `/pets/{id}` is named `getPetsId` |
| RestHelpers.PickContent | src/utils/normalizers.ts:36-50 | null exactly for a missing holder or missing content; `application/json` wins whenever present |
| RestHelpers.PickContentPrefersJson | src/utils/normalizers.ts:39-44 | the `application/json` entry is picked wherever it stands, with its schema |
| RestHelpers.PickContentFallback | src/utils/normalizers.ts:45-49 | otherwise the first entry is picked, and empty content gives a body with no type and no schema |
| RestHelpers.ParamKeyInjective | src/utils/normalizers.ts:56 | the key `name::in` determines name and location |
| RestHelpers.ToParam | src/utils/normalizers.ts:61-66 | name and location copied, `required` only when it is `true`, the declared schema or else the whole parameter |
| RestHelpers.MergeParameters | src/utils/normalizers.ts:52-67 | the two loops of `map.set` and the final map yield `MergedParams` |
| RestHelpers.MergedParamsDistinct | src/utils/normalizers.ts:52-67 | `MergedParams`, the value of `mergeParameters`: no two merged parameters share name and location |
| RestHelpers.MergedOperationWins | src/utils/normalizers.ts:58-60 | the last operation-level declaration of a name and location is in the output |
| RestHelpers.MergedPathKept | src/utils/normalizers.ts:55-57 | a path-level parameter that the operation does not redeclare is in the output |
| RestHelpers.MergedParamsFromInputs | src/utils/normalizers.ts:61-66 | every output parameter comes from one of the inputs |
| RestHelpers.MergedParamsOrder | src/utils/normalizers.ts:61 | output order is first-insertion order of the keys |
| RestHelpers.MergeOverridesInPlace | src/utils/normalizers.ts:53 | an override takes the overridden parameter's place |
| RestHelpers.MergeExample | tests/normalizers/openapi.test.ts:5-55 | the redeclared `id` is optional and an integer, and `verbose` is kept |
| OpenApiNormalizer.ResponseOf | src/normalizers/openapi.ts:37-44 | a response record carries its status and the negotiated type and schema, or neither |
| OpenApiNormalizer.Responses | src/normalizers/openapi.ts:37-44 | one record per declared status, in the object's enumeration order (integer-like statuses ascending, then the rest as declared) |
| OpenApiNormalizer.CollectResponses | src/normalizers/openapi.ts:36-44 | the response loop yields `Responses` |
| OpenApiNormalizer.FirstMatch | src/normalizers/openapi.ts:47-51 | `find`: the first response of the rank, and none before it matches |
| OpenApiNormalizer.PreferredOrder | src/normalizers/openapi.ts:46-52 | `Preferred`, the `preferred` response: the first `200`, else the first `2xx`, else the first `default`, else the first response; none only when there are no responses |
| OpenApiNormalizer.PreferredExample | tests/normalizers/openapi.test.ts:87-121 | declared `default`, `201`, `200` are enumerated `200`, `201`, `default`, and `200` is preferred; without a `200`, `201` and `204` before `default` prefer `201` |
| OpenApiNormalizer.EntrySitesShape | src/normalizers/openapi.ts:23-27 | the sites of one path item are exactly its kept entries, in order |
| OpenApiNormalizer.PathSitesShape | src/normalizers/openapi.ts:19-27 | the sites of a document are exactly its kept (path, entry) pairs, path-major, in enumeration order |
| OpenApiNormalizer.AssignNamesAt | src/normalizers/openapi.ts:54-55 | each endpoint's name is the fresh name of its base against the names given before it |
| OpenApiNormalizer.AssignNamesDistinct | src/normalizers/openapi.ts:55 | the names given in one run are pairwise distinct |
| OpenApiNormalizer.EndpointAtFields | src/normalizers/openapi.ts:54-70 | `EndpointAt`, the object pushed for one site: each endpoint field: name, path, verb, operation id or name, merged parameters, negotiated body, responses, preferred response, deprecation |
| OpenApiNormalizer.EmitEndpoint | src/normalizers/openapi.ts:54-70 | builds the endpoint for a site with a fresh name, and adds that name to the used set |
| OpenApiNormalizer.WalkPathItem | src/normalizers/openapi.ts:21-71 | the inner loop extends the endpoints and the used names by one path item's sites |
| OpenApiNormalizer.NormalizeOpenApi | src/normalizers/openapi.ts:12-75 | the nested loops yield `Normalized(doc, skipDeprecated)`, the specification function that the `Normalized…` lemmas below characterise |
| OpenApiNormalizer.NormalizedSites | src/normalizers/openapi.ts:19-27 | one endpoint per kept path-item entry |
| OpenApiNormalizer.NormalizedNames | src/normalizers/openapi.ts:54-56 | each name is fresh against the earlier ones, a free base is used as it is, and the id is the operation id or the name |
| OpenApiNormalizer.NormalizedNamesDistinct | tests/normalizers/openapi.test.ts:123-146 | endpoint names are pairwise distinct, even when operation ids collide |
| OpenApiNormalizer.NormalizedVerbs | src/normalizers/openapi.ts:24-25 | every endpoint's method is in `HttpMethods`, the eight verbs of `HTTP_METHODS` (src/utils/normalizers.ts:4-13) |
| OpenApiNormalizer.NormalizedSkipsDeprecated | src/normalizers/openapi.ts:27 | with `skipDeprecated`, no endpoint is deprecated |
| OpenApiNormalizer.NormalizedKeepsDeprecated | tests/normalizers/openapi.test.ts:148-164 | without it, every verb entry has its endpoint, with its deprecation flag |
| Generators.SanitizeBase | src/utils/generators.ts:47-49 | same length; every character is a word character; word characters are kept and only the others change |
| Generators.SanitizeBaseFixes | src/utils/generators.ts:47-49 | a name of word characters is left as it is |
| Generators.SanitizeBaseIdempotent | src/utils/generators.ts:47-49 | sanitising twice is sanitising once |
| Generators.MakeTypeName | src/utils/generators.ts:51-55 | the suffix ends the name; before it, each character of the base is kept when it is a word character and is `_` otherwise, and the first of them is upper-cased |
| Generators.MakeTypeNameOfWord | src/utils/generators.ts:43-55 | sanitising the base first changes nothing, and a base of word characters gives `capitalize(base) + suffix` |
| Generators.TsAnyExactly | src/utils/generators.ts:78-106 | `SimpleSchemaToTS` and its node mapper `NodeToTS`, which are `simpleSchemaToTS`: `any` exactly for a missing schema or an unrecognised node |
| Generators.ZodAnyExactly | src/utils/generators.ts:112-140 | `SchemaToZodCode` and its node mapper `NodeToZod`, which are `schemaToZodCode`: `z.any()` exactly for a missing schema or an unrecognised node |
| Generators.AnyAgrees | src/utils/generators.ts:105 | the two mappers give up on the same nodes |
| Generators.EnumUnionNotAny | src/utils/generators.ts:80-81 | a union of literals is never `any` |
| Generators.EnumFirst | src/utils/generators.ts:80-81 | `enum` wins over `type` in both mappers |
| Generators.SingleEnumReadsBack | src/utils/generators.ts:80-81 | a one-value enum maps to that value's JSON literal |
| Generators.Scalars | src/utils/generators.ts:83-85 | `string`, `number`/`integer` and `boolean` map to the matching TypeScript and Zod types |
| Generators.TsHintFree | src/utils/generators.ts:78-106 | the type-name hint does not change the TypeScript text |
| Generators.ZodHintFree | src/utils/generators.ts:112-140 | the variable-name hint does not change the Zod text |
| Generators.ArraySuffix | src/utils/generators.ts:86-91 | an array maps to its items' text plus `[]` or `.array()`, and to `any` items when it has none |
| Generators.TsLineMarker | src/utils/generators.ts:100-101 | a property line has `?` after its key exactly when the key is not required |
| Generators.ZodLineMarker | src/utils/generators.ts:133-135 | a Zod property line ends in `.optional()` exactly when the key is not required |
| Generators.PropertyLineKeys | src/utils/generators.ts:95-101 | the i-th line of either mapper names the i-th property |
| Generators.OptionalMarkersAgree | src/utils/generators.ts:132-135 | both mappers mark the same properties optional |
| Generators.ObjectShape | src/utils/generators.ts:92-104 | an object node is its property lines inside braces, or inside `z.object`, one line per property |
| Generators.ArchivedAgrees | src/utils/generators.ts:7-41 | the archived `schemaToTS` (`SchemaToTS` with its node mapper `ArchivedNodeToTS`) gives the same text as `simpleSchemaToTS` on every node whose `properties` is absent or an object |
| Generators.ArchivedAgreesOnOptions | src/utils/generators.ts:7-9 | the same holds for a missing schema |
| Generators.PetTsLines | src/utils/generators.ts:95-101 | the test's required `id: integer` property (tests/generators/typescript.test.ts:26-31) gives the line `  id: number;` |
| Generators.PetZodLines | src/utils/generators.ts:132-136 | the same property (tests/generators/typescript.test.ts:60-64) gives the Zod line `  "id": z.number()` |
| Generators.PetTs | src/utils/generators.ts:92-104 | `simpleSchemaToTS` of the test's item schema (tests/generators/typescript.test.ts:27-31) is `{`, the line `  id: number;`, and `}`, one per line: `"{\n  id: number;\n}"` |
| Generators.PetsResponseTs | src/utils/generators.ts:78-106 | `simpleSchemaToTS` of the test's `getPets` response schema (tests/generators/typescript.test.ts:21-41) is `"{\n  id: number;\n}[]"` |
| Generators.PetZod | src/utils/generators.ts:130-138 | `schemaToZodCode` of the test's item schema (tests/generators/typescript.test.ts:58-73) is `z.object({`, the line `  "id": z.number()`, and `})`, one per line: `"z.object({\n  \"id\": z.number()\n})"` |
| Generators.PetsResponseZod | src/utils/generators.ts:112-140 | `schemaToZodCode` of the test's `getPets` response schema (tests/generators/typescript.test.ts:45-74) is the item's validator followed by `.array()` |
| GraphQLSchema.RootSites | src/normalizers/graphql.ts:16-18 | an absent root has no fields; a present one has each field with its kind |
| GraphQLSchema.FieldSitesShape | src/parsers/graphql.ts:23-51 | the fields of the query, mutation and subscription roots, in that order |
| GraphQLSchema.FieldSitesOrdered | src/normalizers/graphql.ts:9-16 | kinds never go backwards, and a kind appears only when its root is present |
| GraphQLParser.MapTypeToJson | src/parsers/graphql.ts:130-148 | always one of `string`, `number`, `boolean`, `array`, `object` |
| GraphQLParser.MapTypeLooksThroughNonNull | src/parsers/graphql.ts:131-147 | non-null is looked through: lists are arrays; object and other named types are objects; `Int` and `Float` are numbers; `Boolean` is boolean; all other scalars are strings |
| GraphQLParser.MappedTypesAreRendered | src/parsers/graphql.ts:84 | every mapped argument type renders as something other than `any` |
| GraphQLParser.NonNullNamesExactly | src/parsers/graphql.ts:87-89 | a name is required exactly when an argument of that name is non-null |
| GraphQLParser.ArgEntries | src/parsers/graphql.ts:82-85 | one property per argument, keyed by its name |
| GraphQLParser.VariablesOnePropertyPerArg | src/parsers/graphql.ts:79-86 | with distinct argument names, the variables' properties are the arguments in order |
| GraphQLParser.VariablesKeys | src/parsers/graphql.ts:79-90 | a name is a property exactly when it is an argument, and required exactly when that argument is non-null |
| GraphQLParser.VariablesOptionalMarkers | src/parsers/graphql.ts:87-89 | the generated types mark exactly the nullable arguments optional |
| GraphQLParser.MapFieldsToEndpoints | src/parsers/graphql.ts:57-67 | one endpoint per field |
| GraphQLParser.ParsedByRoot | src/parsers/graphql.ts:26-50 | the query endpoints, then the mutation ones, then the subscription ones |
| GraphQLParser.ParseGraphQLSchema | src/parsers/graphql.ts:17-52 | the three `push` steps yield `ParsedEndpoints` |
| GraphQLParser.ParsedCount | src/parsers/graphql.ts:17-52 | one endpoint per field of each present root |
| GraphQLParser.ParsedEndpointAt | src/parsers/graphql.ts:72-125 | `ParsedEndpoints` at each position is `FieldToEndpoint` (`fieldToEndpoint`) of that field: each endpoint field: id `kind_name`, POST to the path or `/graphql`, no params, body or responses, the description, and the request and response schemas |
| GraphQLParser.ParsedIdsDistinct | src/parsers/graphql.ts:78 | ids are pairwise distinct when field names are distinct within each root |
| GraphQLParser.SameKindDistinctNames | src/parsers/graphql.ts:63-64 | two fields of the same root have different names |
| GraphQLNormalizer.NormalizeGraphQLSchema | src/normalizers/graphql.ts:4-45 | the nested loops yield `Normalized(schema)`, the specification function that the lemmas below characterise |
| GraphQLNormalizer.NormalizedCount | src/normalizers/graphql.ts:15-18 | one endpoint per field of each present root |
| GraphQLNormalizer.NormalizedOrder | src/normalizers/graphql.ts:9-16 | query, then mutation, then subscription endpoints, each only when its root is present |
| GraphQLNormalizer.NormalizedEndpointAt | src/normalizers/graphql.ts:19-40 | `Normalized` at each position is `EndpointOf` that field: each endpoint field, with `[]` for missing arguments and `any` for a missing type |
| GraphQLNormalizer.FrontEndsAgree | src/normalizers/graphql.ts:18-29 | both front ends produce endpoints for the same fields in the same order, and the parser's id is the kind and the name |
| FileUtils.IsUrlByLowerCase | src/utils/file.ts:16-18 | `IsUrl`, which is `isUrl`: the case-insensitive test is a prefix test on the lower-cased text |
| FileUtils.LocalPathsAreNotUrls | src/utils/file.ts:16-18 | absolute POSIX paths and drive-letter paths are not URLs |
| FileUtils.IsUrlExamples | tests/utils/file.test.ts:5-13 | the URLs and local paths of the tests are classified as there |
| FileUtils.CapitalSchemeIsUrl | src/utils/file.ts:17 | the scheme may be written in capitals |
| FileUtils.ExtnameShape | src/utils/file.ts:29 | `Extname`, which is POSIX `path.extname`: an extension is empty, or a dot and then no dot or slash, and it ends the last segment |
| FileUtils.PathOfTail | src/utils/file.ts:23-24 | the pathname starts with `/` and holds no query, fragment or back-slash |
| FileUtils.UrlPathname | src/utils/file.ts:23-24 | a pathname starts with `/` and holds no `?` or `#` |
| FileUtils.GetExtension | src/utils/file.ts:20-30 | the result has no upper-case letter; its value on URLs and local paths is stated by the `UrlExtension`, `UrlWithoutHost`, `UrlQueryIgnored`, `UrlFragmentIgnored` and `LocalPathExtension` rows |
| FileUtils.GetExtensionLowered | src/utils/file.ts:24 | lower-casing the result again changes nothing |
| FileUtils.SchemeKept | src/utils/file.ts:17 | appending text keeps a URL a URL, with the same scheme |
| FileUtils.UrlPathnameSuffix | src/utils/file.ts:23-24 | a query string or a fragment does not change the pathname |
| FileUtils.UrlQueryIgnored | src/utils/file.ts:21-25 | a query string does not change the extension of a URL |
| FileUtils.UrlFragmentIgnored | src/utils/file.ts:21-25 | a fragment does not change the extension of a URL |
| FileUtils.UrlWithoutHost | src/utils/file.ts:21-27 | a URL with an empty host, whatever slashes follow its scheme, does not parse, and its extension is `""` |
| FileUtils.UrlPathnameOf | src/utils/file.ts:23-24 | for a non-empty host after any number of extra slashes, and a clean path, the pathname is that path |
| FileUtils.UrlExtension | src/utils/file.ts:21-25 | a URL path ending in `stem.ext` has extension `.ext`, lower-cased, however many slashes follow the scheme |
| FileUtils.LocalPathExtension | tests/utils/file.test.ts:15-19 | a POSIX or Windows path ending in `stem.ext` has extension `.ext`, lower-cased |
| FileUtils.ExtnameOfName | src/utils/file.ts:29 | `extname` of `dir/stem.ext` is `.ext` |
| FileUtils.LastDotOf | src/utils/file.ts:29 | the dot before a dot-free extension is the last dot |
| PluginSystem.Find | src/core/pluginSystem.ts:23 | none exactly when no plugin has the name; otherwise a registered plugin with that name |
| PluginSystem.FindDistinct | src/core/pluginSystem.ts:23 | with distinct names, the plugin found is the one plugin with that name |
| PluginSystem.DetectGraphQL | src/core/pluginSystem.ts:20-26 | `DetectIn`, which is `detectPlugin`: `.graphql` and `.gql` in any case select the `graphql` plugin, and fail exactly when it is missing |
| PluginSystem.DetectRest | src/core/pluginSystem.ts:28-32 | `.yaml`, `.yml` and `.json` select the `rest` plugin, and fail exactly when it is missing |
| PluginSystem.DetectUnknown | src/core/pluginSystem.ts:34 | any other extension, the empty one included, is an error naming it |
| PluginSystem.DetectChoosesByName | src/core/pluginSystem.ts:19-35 | a chosen plugin is registered and matches the extension's class by name |
| PluginSystem.DetectOrderIrrelevant | src/core/pluginSystem.ts:19-35 | registries with distinct names and the same plugins dispatch alike |
| PluginSystem.FindAfterAppend | src/core/pluginSystem.ts:16 | appending a new name finds the new plugin under it and changes no other lookup |
| PluginSystem.RegisteredIsFound | src/core/pluginSystem.ts:12-17 | after a registration, names stay distinct and the plugin is found under its name |
| PluginSystem.Registry.constructor | src/core/pluginSystem.ts:10 | the registry starts empty |
| PluginSystem.Registry.RegisterPlugin | src/core/pluginSystem.ts:12-17 | a taken name is an error and leaves the registry unchanged; otherwise the plugin is appended; names stay distinct |
| PluginSystem.Registry.RunPlugins | src/core/pluginSystem.ts:19-43 | the `graphql` plugin runs for `.graphql`/`.gql` and the `rest` plugin for `.yaml`/`.yml`/`.json`, in any case; a missing plugin gives its error, any other extension the unknown-extension error naming it; a plugin runs exactly when it is registered under the name its extension selects |

## Left out

- Case mapping is ASCII-only. `toLowerCase` and `toUpperCase` on other letters are not modelled.
- JavaScript enumerates integer-like object keys (`"200"`, `"404"`) first, in ascending order. The model takes the entry sequence as the enumeration order as given.
- JSON numbers are integers. Floating-point values in `enum` are not modelled.
- Json.Stringify: writes every integer in full. JavaScript writes integers of 10^21 or more in exponent form (`1e+21`) and loses precision above 2^53.
- Generators.ArchivedAgrees: a schema's `properties` is absent or an object. A truthy non-object `properties` (a string, say) makes the source's two mappers differ: `simpleSchemaToTS` lists its indices as optional `any` keys, the archived `schemaToTS` gives `any`.
- Strings are sequences of code points, not UTF-16 code units.
- `FileUtils.UrlPathname` is a simplified WHATWG URL parser:
  - there is no percent-encoding, no dot-segment removal and no port or credential checks;
  - it reads the host as the text up to the first `/`, `\`, `?` or `#`;
  - an empty host is the only parse error;
  - it does not strip trailing spaces and control characters, nor remove tabs and newlines, as WHATWG does first: for `"https://example.com/schema.json\n"` the source gives `.json`, the model `.json\n`.
- `FileUtils.Extname` follows Node's POSIX `path.extname` only. On Windows, Node's `path` would also split on `\`.
- `OpenApiNormalizer` reads every non-`parameters` entry of a path item as an operation. A non-object value is read as an operation with no fields.
- `p.in` is one of the four OpenAPI locations (path, query, header, cookie). Any other string is not modelled.
- The `?? p` and `?? []` fallbacks that the types make unreachable are kept only where a value can be missing.
- `PluginSystem.Plugin`: `match` and `run` are represented by an opaque handler number. `run` is not called, and the `console.log` line of `runPlugins` is left out.
- Thrown errors are modelled as `Failure` values.
- `jsonSchemaToTS` (src/utils/generators.ts:57-75) dynamically imports another package. It is not part of this model.
- `rawDocument` of a parsed GraphQL endpoint is always undefined in the source. It is left out.
- The GraphQL fields of a root are a sequence of fields. The source's field map is keyed by field name, so `DistinctFieldNames` is a precondition only where it matters.
- `GraphQLParser.ParseGraphQLSchema` requires every field's argument list to be present. The source throws when `field.args` is missing, since it calls `map` on it.
- The file-utility examples with concrete strings are stated for all inputs of their shape (`UrlExtension`, `LocalPathExtension`) instead of for the literal test strings.
