# CDK templates: REST API construct, Zod model converter, DynamoDB update builder

This project is a Dafny model of three parts of the CDKTemplates repository, with
proofs about each part:

- **`RestApiConstruct`** (`lib/constructs/rest-api-construct.ts`). This AWS CDK
  construct turns a map of routes into an API Gateway REST API.
  - For each configured path, in order, it splits the path into trimmed, non-empty
    segments. It walks them down the API's resource tree, reusing a child resource
    when one exists and adding it when not.
  - On the leaf resource it registers either a proxy, or one method per HTTP verb the
    route defines (`get`, `post`, `put`, `delete`, in that order).
  - Each method receives:
    - a CORS preflight when CORS is configured;
    - an integration from the resolver. The resolver returns a given integration or
      builds a Lambda integration with request-parameter renaming and a JSON request
      template.
    - request and response models converted from Zod schemas;
    - path and query-string request parameters;
    - a validator name derived from the verb and path;
    - the authorizer that `createMethodAuthDef` chooses.
  - Any throw (an invalid definition, an unsupported schema) ends the construction.
- **`convertZodSchemaToApiGatewayModel`** (`lib/utils/validation.ts`). It turns a Zod
  object schema into a JSON Schema draft-04 document:
  - literals, strings, numbers and booleans become typed leaves, and only literals
    carry an `enum`;
  - unions become `oneOf` and arrays become `items`;
  - nested objects recurse;
  - every key whose schema does not accept `undefined` is listed in `required`.
- **`build_update_parameters`** (`lib/constructs/dynamo/lambda/update.py`). From the
  attributes of a request body it builds a DynamoDB update expression and its `#name`
  and `:value` placeholder maps.
  - The partition and sort keys are skipped.
  - `null` becomes `REMOVE`.
  - A list becomes `list_append`.
  - An object sets each of its entries one level down.
  - Anything else becomes a plain `SET`.

## Structure and approach

The model follows the source's own structure.

- **Loops become methods.** Code that loops and mutates in the source is a method with
  loop invariants:
  - `Validation.ConvertObjectToSchema`, `Validation.ConvertOptions`;
  - `DynamoUpdate.BuildUpdateParameters`;
  - the methods of the class `RestApiAssembly.RestApiConstruct`.
- **Each method is proved equal to a specification function:** `ObjectDoc`, `OptionDocs`,
  `Update`/`Expression`, `Assemble`, `MethodsRegistrations` and `RouteRegistrations`.
  The source's promises are then proved as lemmas about those functions.
- **The construct's state.** The class holds the resource tree as an arena of nodes
  (node 0 is the root), a map from (parent, path part) to child, and a log.
- **CDK calls become log entries.** Each CDK call the constructor makes (`addProxy`,
  `addCorsPreflight`, `addModel`, `addMethod`) is appended to the log as a descriptor
  instead of being performed.
- **Throws become outcomes.** Exceptions are `Fail` outcomes and `Failure` results, and
  they stop the loops exactly where the source would stop.

Modules:

| module | file | contents |
|---|---|---|
| `Wrappers` | wrappers.dfy | `Option`, `Result`, `Outcome` |
| `Text` | text.dfy | the string built-ins the code uses: `split`, `join`, `trim`, `filter(Boolean)`, `toUpperCase`/`toLowerCase` on ASCII letters, `String(n)` |
| `Validation` | validation.dfy | the Zod-to-JSON-Schema converter |
| `ValidationExamples` | validation_examples.dfy | the schemas that appear in the repository, as worked lemmas |
| `RestApi` | rest_api.dfy | path segmentation, path parameters, artifact names, the resolver, the authorizer choice, and what one route registers |
| `ResourceTree` | resource_tree.dfy | the resource tree and its get-or-add walk |
| `RestApiAssembly` | rest_api_assembly.dfy | the constructor: the class and the fold over the paths |
| `DynamoUpdate` | dynamo_update.dfy | the update-expression builder |

## Model

| member | source | states |
|---|---|---|
| Validation.ScalarDocTable | lib/utils/validation.ts:10-31 | A literal becomes a string type whose `enum` holds its one value. A string, number or boolean becomes its type with no `enum`. Every union, array, object or other node is rejected with "Unsupported field type" naming that node. |
| Validation.ConvertScalarValueToSchema | lib/utils/validation.ts:10-31 | The if-chain and its throw compute the scalar table of `ScalarDocTable`. |
| Validation.ElementDoc | lib/utils/validation.ts:66-72 | A union option or array element converts only as an object (to an object-typed document) or as a scalar (to its scalar document). Every error names a node that is neither. |
| Validation.ConvertScalarOrObjectTypeToSchema | lib/utils/validation.ts:66-72 | The dispatcher computes `ElementDoc`. |
| Validation.OptionDocs | lib/utils/validation.ts:43-45 | The `oneOf` of the first `n` options holds one document per option, in order, each that option's own conversion. It succeeds exactly when every one of those options converts. |
| Validation.ConvertOptions | lib/utils/validation.ts:44 | The `map` over the options, stopping at the first throw, computes `OptionDocs` over all options. |
| Validation.FieldDoc | lib/utils/validation.ts:42-55 | A union gives a document holding only `oneOf`, one entry per option, and succeeds exactly when every option converts. An array gives `{type: array, items}` and succeeds exactly when its element converts. An object recurses. Anything else takes the scalar path. |
| Validation.ConvertField | lib/utils/validation.ts:42-55 | The branch chain of the loop body computes `FieldDoc`. |
| Validation.ShapeDocs | lib/utils/validation.ts:37-56 | After `n` entries, the `properties` keys are exactly those entries' keys and `required` is `RequiredKeys` of those entries. The loop gets this far exactly when each of those fields converts. |
| Validation.ObjectDoc | lib/utils/validation.ts:33-64 | An object converts exactly when every field converts. The result is a draft-04 object document whose `properties` keys are exactly the shape's keys and whose `required` is `RequiredKeys` of the shape. It has no `enum`, `oneOf` or `items`. |
| Validation.ConvertObjectToSchema | lib/utils/validation.ts:33-64 | The loop that pushes onto `required` and assigns `properties[key]` computes `ObjectDoc`. |
| Validation.ConvertZodSchemaToApiGatewayModel | lib/utils/validation.ts:7-75 | The entry point computes the object conversion. A non-object input has no shape and fails. |
| Validation.ShapeDocsFailureStays | lib/utils/validation.ts:37-56 | A throw on one field ends the loop: every longer prefix of the shape fails with the same error. |
| Validation.OptionDocsFailureStays | lib/utils/validation.ts:44 | A throw on one union option ends the `map` with that error. |
| Validation.ShapeDocsFields | lib/utils/validation.ts:37-56 | With distinct keys, after `n` entries each of them maps to its own field's document. |
| Validation.ObjectDocFields | lib/utils/validation.ts:42-55 | With distinct keys (as a JavaScript object has), each property holds the document of its own field. |
| Validation.ObjectDocField | lib/utils/validation.ts:42-55 | The same, for one given property. |
| Validation.RequiredKeysExactly | lib/utils/validation.ts:38-40 | A key is in `required` exactly when some entry with that key does not accept `undefined`. |
| Validation.RequiredKeysAllMandatory | lib/utils/validation.ts:38-40 | When no field accepts `undefined`, `required` is every key, in declaration order. |
| Validation.RequiredKeysDistinct | lib/utils/validation.ts:38-40 | With distinct keys, `required` has no duplicates. |
| Validation.RequiredWithinProperties | lib/utils/validation.ts:37-63 | Every key in `required` is a key of `properties`. |
| Validation.ObjectConvertsIff | lib/utils/validation.ts:33-64 | An object converts exactly when it satisfies the independent grammar `ConvertibleObject`: its fields are scalars, objects, or unions and arrays of scalars and objects, all the way down. |
| Validation.ElementConvertsIff | lib/utils/validation.ts:66-72 | A union option or array element converts exactly when it is `ConvertibleElement`. |
| Validation.FieldConvertsIff | lib/utils/validation.ts:42-55 | A field converts exactly when it is `ConvertibleField`. |
| Validation.ConversionSucceedsIff | lib/utils/validation.ts:7-75 | The whole conversion succeeds exactly when the schema is `ConvertibleObject`. For an object input, every failure is "Unsupported field type". |
| ValidationExamples.ExampleUserConvertible | lib/utils/validation.ts:81-85 | The `users` element schema satisfies the grammar. |
| ValidationExamples.ExampleUserConverts | lib/utils/validation.ts:81-85 | The `users` element converts and requires `name`, `email` and `type`. |
| ValidationExamples.ExampleUsersConverts | lib/utils/validation.ts:80-86 | `users` becomes an array whose `items` is the converted user object. |
| ValidationExamples.ExamplePayloadConvertible | lib/utils/validation.ts:87-90 | The `payload` union satisfies the grammar. |
| ValidationExamples.ExamplePayloadConverts | lib/utils/validation.ts:87-90 | `payload` becomes a `oneOf` with two entries. |
| ValidationExamples.ExampleRequestConvertible | lib/utils/validation.ts:77-92 | The example request schema satisfies the grammar. |
| ValidationExamples.ExampleRequestRequiredKeys | lib/utils/validation.ts:77-92 | Its `required` keys are `name`, `users`, `payload`, in that order. |
| ValidationExamples.ExampleRequestKeys | lib/utils/validation.ts:77-92 | Its keys are `name`, `users` and `payload`. |
| ValidationExamples.ExampleRequestConverts | lib/utils/validation.ts:77-92 | The example converts. Its `required` is `[name, users, payload]` and its `properties` keys are those three. |
| ValidationExamples.ExampleShapeProperties | lib/utils/validation.ts:42-63 | For any three convertible fields under the keys `name`, `users`, `payload`, each property holds its own field's document. |
| ValidationExamples.ExampleRequestProperties | lib/utils/validation.ts:78-91 | The example is that shape, with `name` a plain string (`{type: string}`) and the other two convertible. |
| ValidationExamples.TemplateLambdaRequestFails | lambdas/template-lambda/infra.ts:15-18 | The template Lambda's request schema, whose union is wrapped in `.optional()`, is rejected as an unsupported `ZodOptional`. |
| Text.Split | lib/constructs/rest-api-construct.ts:28 | `split` gives at least one piece. No piece holds the separator, and joining the pieces with it gives back the string. |
| Text.SplitJoin | lib/constructs/rest-api-construct.ts:28 | Splitting undoes joining when no part holds the separator. |
| Text.TrimStart | lib/constructs/rest-api-construct.ts:29 | `trimStart` removes exactly the leading JavaScript whitespace. |
| Text.TrimEnd | lib/constructs/rest-api-construct.ts:29 | `trimEnd` removes exactly the trailing JavaScript whitespace. |
| Text.DropEmpty | lib/constructs/rest-api-construct.ts:30 | `filter(Boolean)` keeps only non-empty strings, each taken from the input, and their concatenation is unchanged. Every non-empty string occurs as often in the result as in the input. |
| Text.DropEmptyAppend | lib/constructs/rest-api-construct.ts:30 | Filtering `a + b` is filtering `a`, then `b`: the kept strings stay in their input order. |
| Text.NatToString | lib/constructs/rest-api-construct.ts:211 | `String(statusCode)` is a non-empty run of decimal digits whose decimal value is the status code. It starts with `0` only for zero. |
| RestApi.TrimEach | lib/constructs/rest-api-construct.ts:29 | Each segment is trimmed, and none is added or lost. |
| RestApi.PathSegments | lib/constructs/rest-api-construct.ts:26-30 | Every segment is non-empty, holds no `/`, and has no surrounding whitespace. |
| RestApi.PathSegmentsOfJoin | lib/constructs/rest-api-construct.ts:26-30 | Proper segments joined with `/` split back into exactly those segments. |
| RestApi.PathSegmentsOfRoute | lib/constructs/rest-api-construct.ts:26-30 | The same with a leading `/`, as routes are written (`/a/b` gives `[a, b]`). |
| RestApi.PathSegmentsSkipEmpty | lib/constructs/rest-api-construct.ts:26-30 | Doubled and trailing slashes leave no empty segment: `/a//b/` gives `[a, b]`. |
| RestApi.PathSegmentsOfEmpty | lib/constructs/rest-api-construct.ts:26-30 | The empty path has no segments. |
| RestApi.PathSegmentsOfSlash | lib/constructs/rest-api-construct.ts:26-30 | `/` has no segments, so it is the root. |
| RestApi.EnsurePathIdentifier | lib/constructs/rest-api-construct.ts:32 | At most one character is removed, and only from the front. It is removed exactly when the path starts with `/`. |
| RestApi.SegmentIsIdentifier | lib/constructs/rest-api-construct.ts:32 | A proper segment is left unchanged. |
| RestApi.PathSegmentsAreIdentifiers | lib/constructs/rest-api-construct.ts:129-131 | The `map(ensurePathIdentifier)` after segmentation changes no segment. |
| RestApi.Unbrace | lib/constructs/rest-api-construct.ts:154 | `slice(1, -1)` of a braced segment is its inside: bracing it again gives back the segment. |
| RestApi.PathParams | lib/constructs/rest-api-construct.ts:152-154 | There are no more parameters than segments, and each parameter's braced form is one of the segments. |
| RestApi.PathParamsSnoc | lib/constructs/rest-api-construct.ts:152-154 | Appending a segment appends its inner name exactly when it is braced, keeping path order. |
| RestApi.PathParamsExactly | lib/constructs/rest-api-construct.ts:152-154 | `p` is a path parameter exactly when `{p}` is a segment. |
| RestApi.ToPascalCase | lib/constructs/rest-api-construct.ts:92 | The length is kept and the text is equal up to case. A leading letter is upper-cased. No later character is upper case. An alphanumeric input gives an alphanumeric output. |
| RestApi.ReplaceNonAlphanumeric | lib/constructs/rest-api-construct.ts:96 | Each character outside `[a-zA-Z0-9]` becomes `-`, and the others are kept. |
| RestApi.PascalEach | lib/constructs/rest-api-construct.ts:99 | `toPascalCase` is applied to each word, in order. |
| RestApi.StringToAlphanumericName | lib/constructs/rest-api-construct.ts:94-100 | The replace-split-filter-map-join pipeline equals the independent one-pass definition `CapitaliseRuns`. |
| RestApi.CapitaliseRunsContent | lib/constructs/rest-api-construct.ts:94-100 | A name holds only ASCII letters and digits: as many as the input has, and equal to them up to case. |
| RestApi.CapitaliseReplaced | lib/constructs/rest-api-construct.ts:96 | Replacing non-alphanumerics by `-` does not change the resulting name. |
| RestApi.PiecesCapitalise | lib/constructs/rest-api-construct.ts:97-100 | On `-`-joined alphanumeric words, split-filter-map-join agrees with the one-pass definition. |
| RestApi.AlphanumericNames | lib/constructs/rest-api-construct.ts:105 | `map(stringToAlphanumericName)` over the three parts, in order. |
| RestApi.NamespacedName | lib/constructs/rest-api-construct.ts:102-105 | The name maker's value for a verb, path and name. No contract of its own; see `NamespacedNameRuns` and `NamespacedNameContent`. |
| RestApi.NameCreator | lib/constructs/rest-api-construct.ts:167 | `buildNamespacedNameCreator` for one path, applied per verb. No contract of its own; its names are those of `NamespacedName`. |
| RestApi.NamespacedNameRuns | lib/constructs/rest-api-construct.ts:102-105 | An artifact name is the capitalised runs of the verb, then of the path, then of the name. |
| RestApi.NamespacedNameContent | lib/constructs/rest-api-construct.ts:102-105 | Every validator and model name holds only ASCII letters and digits: those of verb, path and name, up to case. |
| RestApi.FromEntries | lib/constructs/rest-api-construct.ts:54-60 | `Object.fromEntries` has exactly the entries' keys. |
| RestApi.FromEntriesReadBack | lib/constructs/rest-api-construct.ts:54-60 | When equal keys carry equal values, every entry can be read back from the object. |
| RestApi.RenamingEntries | lib/constructs/rest-api-construct.ts:55-59 | One renaming pair per name, from one prefix to the other, in order. |
| RestApi.IsProxyResourceDef | lib/constructs/rest-api-construct.ts:89-90 | A route is a proxy when its `proxy` field is set. No contract of its own; `ProxyRouteIgnoresMethods` and `RouteRegistrations` state what follows from it. |
| RestApi.Resolve | lib/constructs/rest-api-construct.ts:34-87 | The resolver fails ("Invalid resource definition") exactly when the definition is not an integration, has no `integration`, and has no `function`. It returns a definition that is itself an integration, and otherwise its `integration`. Otherwise it builds a Lambda integration on the function that keeps the other options, and keeps the options unchanged when request templates are skipped. |
| RestApi.IntegrationRequestParameters | lib/constructs/rest-api-construct.ts:54-60 | The integration's renaming map from `Object.fromEntries`. No contract of its own; see `IntegrationRequestParametersKeys` and `IntegrationRequestParametersValues`. |
| RestApi.IntegrationRequestParametersKeys | lib/constructs/rest-api-construct.ts:54-60 | The integration's `requestParameters` keys are exactly `integration.request.path.p` for each path parameter and `integration.request.querystring.q` for each query key. |
| RestApi.IntegrationRequestParametersValues | lib/constructs/rest-api-construct.ts:54-60 | Each maps to its `method.request.path.p` or `method.request.querystring.q` counterpart. |
| RestApi.TemplateLookups | lib/constructs/rest-api-construct.ts:61-66 | The template's `params` or `query` object. No contract of its own; see `TemplateLookupsExactly`. |
| RestApi.TemplateLookupsExactly | lib/constructs/rest-api-construct.ts:61-66 | The template's `params` and `query` objects have exactly the given names, each mapped to its own `$input.params()` lookup. |
| RestApi.ResolveTemplating | lib/constructs/rest-api-construct.ts:52-78 | For a function-backed definition resolved with path parameters: `requestParameters` is the renaming map, and `requestTemplates` has the one key `application/json`, holding the envelope with `params`, `query` and the body passthrough. |
| RestApi.CreateMethodAuthDef | lib/constructs/rest-api-construct.ts:243-268 | The result is `null` exactly when a non-integration definition has `auth: false`. A raw integration gets only the global authorizer. Otherwise a route authorizer beats the global one, and the route's scopes are passed through. |
| RestApi.RouteAuthorizerOverridesGlobal | lib/constructs/rest-api-construct.ts:253-262 | When a route sets `auth`, whether an authorizer or `false`, the global authorizer does not matter. |
| RestApi.RawIntegrationIgnoresRouteAuth | lib/constructs/rest-api-construct.ts:247-251 | A raw integration's own `auth` and scopes are never read. |
| RestApi.MethodVerbIsUpperKey | lib/constructs/rest-api-construct.ts:188 | The verb passed to `addMethod` is the route key upper-cased. |
| RestApi.MethodPathEntries | lib/constructs/rest-api-construct.ts:156-158 | For each path parameter `p`, in order, one entry `method.request.path.p` set to `true`. |
| RestApi.MethodQueryEntries | lib/constructs/rest-api-construct.ts:169-177 | For each declared query parameter `q`, in order, one entry `method.request.querystring.q` that keeps its flag. |
| RestApi.MethodRequestParameters | lib/constructs/rest-api-construct.ts:156-198 | The spread of the path entries, then the query-string entries. No contract of its own; see `MethodRequestParametersKeys` and `MethodRequestParametersValues`. |
| RestApi.MethodRequestParametersKeys | lib/constructs/rest-api-construct.ts:195-198 | The method's `requestParameters` hold `method.request.path.p` for each path parameter and `method.request.querystring.q` for each declared query parameter, and no other key. |
| RestApi.MethodRequestParametersValues | lib/constructs/rest-api-construct.ts:156-198 | Each path parameter is declared required (`true`), and each query parameter keeps its own flag. A path entry is never overridden by a query entry. |
| RestApi.NormalisedResponses | lib/constructs/rest-api-construct.ts:205-209 | A lone schema is answered with status 200, and a list is taken as given. |
| RestApi.ModelRegistration | lib/constructs/rest-api-construct.ts:228-241 | `addModelFromZodSchema` registers the converted document as `application/json` under the given name, exactly when the conversion succeeds. Otherwise it throws with the conversion's error. |
| RestApi.ResponseModels | lib/constructs/rest-api-construct.ts:205-216 | When every response schema converts, the result is one model registration and one `methodResponses` entry per response, in order. Each entry carries the decimal status code and the model name. Otherwise it fails. Only models are registered. |
| RestApi.MethodModels | lib/constructs/rest-api-construct.ts:199-216 | Only models are registered. A method's models succeed exactly when its request and responses convert, giving a request model exactly when `request` is set and responses exactly when `responses` is set. |
| RestApi.MethodModelsContents | lib/constructs/rest-api-construct.ts:199-216 | A request schema that does not convert throws before anything is registered. Otherwise the request model (the converted document as `application/json` under the request-model name) comes first, followed by exactly the response models. A response throw is the method's error. On success `requestModels` names the request model exactly when `request` is set, and `methodResponses` is the declared responses' list exactly when `responses` is set. |
| RestApi.MethodRegistrations | lib/constructs/rest-api-construct.ts:167-222 | One method's iteration completes exactly when the resolver and all its schemas succeed, and an invalid definition throws "Invalid resource definition". A preflight on the leaf comes first exactly when CORS is configured. `addMethod` comes last and only on success. |
| RestApi.MethodRegistrationsLog | lib/constructs/rest-api-construct.ts:179-222 | A resolver throw leaves only the preflight (when CORS is configured). A schema throw leaves the preflight, then the models registered before it, and is the outcome. A completed method logs the preflight, then its models, then `addMethod`. |
| RestApi.MethodRegistrationsPass | lib/constructs/rest-api-construct.ts:184-222 | The added method sits on the leaf under the upper-cased verb, with the resolved integration, the method's request parameters, the validator name, body and parameter validation on, and the `createMethodAuthDef` authorizer. `requestModels` is the request-model name exactly when `request` is set, and `methodResponses` is the declared responses' list exactly when `responses` is set. |
| RestApi.MethodRegistrationsAdded | lib/constructs/rest-api-construct.ts:188 | Any method a step adds sits on the leaf under the upper-cased verb. |
| RestApi.MethodRegistrationsCounts | lib/constructs/rest-api-construct.ts:179-222 | An accepted method adds exactly one method, and one preflight when CORS is configured (none otherwise). |
| RestApi.DefinedMethods | lib/constructs/rest-api-construct.ts:151-165 | Among the first `k` verbs, the loop visits each verb the route defines, with its own definition, and no other verb. |
| RestApi.VerbIndex | lib/constructs/rest-api-construct.ts:151 | The position of a verb in `["get", "post", "put", "delete"]`. |
| RestApi.DefinedMethodsOrdered | lib/constructs/rest-api-construct.ts:151-165 | The visited definitions are in strictly increasing verb order (`get`, `post`, `put`, `delete`), so no verb is visited twice. |
| RestApi.DefinedMethodsPrefix | lib/constructs/rest-api-construct.ts:151-165 | The definitions visited so far are a prefix of those visited later. |
| RestApi.MethodNames | lib/constructs/rest-api-construct.ts:188 | The verbs `addMethod` receives for a list of definitions, in order. |
| RestApi.MethodsRegistrations | lib/constructs/rest-api-construct.ts:160-223 | The method loop fails only with an invalid definition or an unsupported schema. Every preflight and method it registers sits on the route's leaf. |
| RestApi.MethodsRegistrationsOutcome | lib/constructs/rest-api-construct.ts:160-223 | The loop completes exactly when every defined method is accepted. |
| RestApi.MethodsRegistrationsCounts | lib/constructs/rest-api-construct.ts:160-223 | A completed loop added one method per definition, in the verb order, and one CORS preflight per method when CORS is configured (none otherwise). |
| RestApi.MethodsRegistrationsFailureStays | lib/constructs/rest-api-construct.ts:160-223 | After a throw, the later methods register nothing. |
| RestApi.MethodsRegistrationsNext | lib/constructs/rest-api-construct.ts:160-223 | One more verb is skipped when the route does not define it (`continue`). Otherwise its registrations are appended and its outcome is taken. |
| RestApi.MethodsRegistrationsStopAt | lib/constructs/rest-api-construct.ts:160-223 | A throw among the first `k` verbs is the outcome of the whole loop. |
| RestApi.ProxyRouteIgnoresMethods | lib/constructs/rest-api-construct.ts:142-149 | A proxy route registers the same thing whatever its method keys and the global CORS and authorizer options. |
| RestApi.RouteRegistrations | lib/constructs/rest-api-construct.ts:142-224 | A route fails only with an invalid definition or an unsupported schema. A proxy route registers at most one thing, a proxy, and does so exactly when it completes. See `RouteRegistrationsAtLeaf` and `RouteRegistrationsOutcome` for the rest. |
| RestApi.RouteRegistrationsAtLeaf | lib/constructs/rest-api-construct.ts:142-224 | Everything a route registers, models aside, sits on its leaf resource. |
| RestApi.RouteRegistrationsOutcome | lib/constructs/rest-api-construct.ts:142-224 | A route completes exactly when it is accepted: its proxy resolves, or each defined method is accepted. |
| ResourceTree.GetOrAdd | lib/constructs/rest-api-construct.ts:133-139 | The `reduce` step. No contract of its own; see `GetOrAddValid`. |
| ResourceTree.Walk | lib/constructs/rest-api-construct.ts:130-140 | The `reduce` over the segments. No contract of its own; see `WalkValid`, `WalkAppend`, `WalkExisting` and `WalkAgain`. |
| ResourceTree.GetOrAddValid | lib/constructs/rest-api-construct.ts:133-139 | Get-or-add keeps the tree valid and only grows it. It reuses the registered child when there is one (adding nothing), and otherwise appends exactly one node. The resource returned has the parent's path plus the part. |
| ResourceTree.ExtendsPathOf | lib/constructs/rest-api-construct.ts:133-139 | A grown tree keeps the path of every node it had. |
| ResourceTree.WalkValid | lib/constructs/rest-api-construct.ts:130-140 | The walk keeps the tree valid and only grows it. The resource reached has the start's path followed by the walked segments. |
| ResourceTree.WalkAppend | lib/constructs/rest-api-construct.ts:130-140 | Walking `a + b` is walking `a`, then `b` from where `a` ended. |
| ResourceTree.PathOfInjective | lib/constructs/rest-api-construct.ts:133-139 | Distinct resources have distinct paths: at most one resource is created per path. |
| ResourceTree.WalkExisting | lib/constructs/rest-api-construct.ts:133-139 | Walking a path that already exists reaches its resource and adds nothing. |
| ResourceTree.WalkAgain | lib/constructs/rest-api-construct.ts:130-140 | Walking the same segments again creates nothing and reaches the same resource. |
| ResourceTree.ExistingAfterGrowth | lib/constructs/rest-api-construct.ts:128-140 | A path that exists still leads to the same resource after the tree grows. |
| ResourceTree.SharedPrefix | lib/constructs/rest-api-construct.ts:128-140 | Once `a + b` has been walked, walking `a` again, however the tree has grown since, ends at the resource `a` first reached, and adds nothing. |
| ResourceTree.EmptyPathIsRoot | lib/constructs/rest-api-construct.ts:140 | The empty path is the root, and the root alone has the empty path. |
| RestApiAssembly.Identifiers | lib/constructs/rest-api-construct.ts:131 | `ensurePathIdentifier` is applied to each segment, in order. |
| RestApiAssembly.IdentifiersOfPath | lib/constructs/rest-api-construct.ts:129-131 | The identifiers of a path's segments are the segments themselves. |
| RestApiAssembly.RestApiConstruct.constructor | lib/constructs/rest-api-construct.ts:115-124 | A new API holds only the root resource and has registered nothing. |
| RestApiAssembly.RestApiConstruct.GetOrAddResource | lib/constructs/rest-api-construct.ts:133-139 | Updates the tree in place as `GetOrAdd` does (see `GetOrAddValid`), and leaves the log alone. |
| RestApiAssembly.RestApiConstruct.ResourceFor | lib/constructs/rest-api-construct.ts:130-140 | The `reduce` from the root updates the tree and returns the leaf as `Walk` does (see `WalkValid`), and leaves the log alone. |
| RestApiAssembly.RestApiConstruct.AddRoute | lib/constructs/rest-api-construct.ts:142-224 | Registering a route on its leaf leaves the tree alone. It appends exactly the route's registrations (proxy, or method loop) to the log and returns their outcome. |
| RestApiAssembly.RestApiConstruct.AddMethods | lib/constructs/rest-api-construct.ts:160-223 | The loop over the verbs appends exactly the registrations of the defined methods and returns their outcome, stopping at a throw. |
| RestApiAssembly.RestApiConstruct.AddMethodAt | lib/constructs/rest-api-construct.ts:161-222 | One loop pass for the `k`-th verb extends the log from `k` verbs' registrations to `k + 1` verbs'. An undefined verb adds nothing. |
| RestApiAssembly.RestApiConstruct.AddMethod | lib/constructs/rest-api-construct.ts:167-222 | One defined method appends its preflight, then its models, then its method, each when it happens, and returns its outcome. The log ends as `MethodRegistrations` gives and the tree is unchanged. |
| RestApiAssembly.RestApiConstruct.RegisterPaths | lib/constructs/rest-api-construct.ts:128-225 | The loop over the paths leaves the construct valid, with the tree, log and outcome that `Assemble` gives from the old state. |
| RestApiAssembly.ResourceOfPath | lib/constructs/rest-api-construct.ts:129-140 | The resource a configured path leads to has that path's segments as its path, in a valid, grown tree. |
| RestApiAssembly.Assemble | lib/constructs/rest-api-construct.ts:128-225 | The loop over the paths as a fold, stopping at the first throw. No contract of its own; see the `Assemble…` lemmas and `RegisterPaths`. |
| RestApiAssembly.AssembleGrows | lib/constructs/rest-api-construct.ts:128-225 | Construction keeps the tree valid, never removes or changes a resource, and only appends to the log. |
| RestApiAssembly.AssembleOutcome | lib/constructs/rest-api-construct.ts:128-225 | Construction completes exactly when every route is accepted. |
| RestApiAssembly.AssembleAppend | lib/constructs/rest-api-construct.ts:128-225 | Routes are registered in path order: `a + b` is `a`, then `b` from the API that `a` built, unless `a` threw. |
| RestApiAssembly.AssemblePlaced | lib/constructs/rest-api-construct.ts:128-225 | Every proxy, preflight and method in the log sits on the resource whose path is the segments of one of the configured paths. |
| RestApiAssembly.AssembleResources | lib/constructs/rest-api-construct.ts:128-225 | A completed construction has a resource for every configured path. |
| RestApiAssembly.BuildResources | lib/constructs/rest-api-construct.ts:110-226 | The same for the constructor from scratch, path by path. |
| RestApiAssembly.BuildNothing | lib/constructs/rest-api-construct.ts:110-226 | With no paths, the API has only its root and registers nothing. |
| DynamoUpdate.FieldUpdate | lib/constructs/dynamo/lambda/update.py:33-54 | What one non-key attribute adds. No contract of its own; see `NullField`, `ListField`, `ScalarField` and `DictField`. |
| DynamoUpdate.NestedUpdate | lib/constructs/dynamo/lambda/update.py:44-49 | The inner loop over an object's entries. No contract of its own; see `NestedClauses`, `NestedKeys` and `NestedEntries`. |
| DynamoUpdate.UpdateFrom | lib/constructs/dynamo/lambda/update.py:29-54 | The outer loop's state after some attributes. No contract of its own; see `UpdateFromAppend`, `UpdateFromClauses` and `TableKeyIgnored`. |
| DynamoUpdate.Update | lib/constructs/dynamo/lambda/update.py:22-54 | The outer loop from empty lists and maps. No contract of its own; see `ClauseCountMatches`, `PlaceholderKeys` and `OnlyTableKeys`. |
| DynamoUpdate.Expression | lib/constructs/dynamo/lambda/update.py:57 | The clauses joined with `, `. No contract of its own; see `ExpressionAppend`. |
| DynamoUpdate.BuildUpdateParameters | lib/constructs/dynamo/lambda/update.py:22-58 | The nested loops compute the expression and the two placeholder maps that the fold `Update` and `Expression` give. |
| DynamoUpdate.UpdateFromAppend | lib/constructs/dynamo/lambda/update.py:29-54 | Attributes are processed in order: the fold over `a + b` is the fold over `b` after `a`. |
| DynamoUpdate.NestedClauses | lib/constructs/dynamo/lambda/update.py:43-49 | An object attribute adds one `SET #k.n = :k.n` clause per entry, in order, after what was there. |
| DynamoUpdate.UpdateFromClauses | lib/constructs/dynamo/lambda/update.py:29-54 | The clauses an attribute adds do not depend on the earlier ones. |
| DynamoUpdate.ClausesAppend | lib/constructs/dynamo/lambda/update.py:29-54 | Clauses appear in the order of the attributes they come from. |
| DynamoUpdate.ExpressionAppend | lib/constructs/dynamo/lambda/update.py:57 | The expression for `a + b` is that for `a`, then `, `, then that for `b`. |
| DynamoUpdate.TableKeyIgnored | lib/constructs/dynamo/lambda/update.py:31 | The partition or sort key attribute, wherever it stands, changes nothing. |
| DynamoUpdate.OnlyTableKeys | lib/constructs/dynamo/lambda/update.py:29-58 | With no attribute besides the table keys, the expression is empty and both maps are empty. |
| DynamoUpdate.ClauseCountMatches | lib/constructs/dynamo/lambda/update.py:29-54 | The number of clauses is one per non-key attribute, except that an object counts once per entry. |
| DynamoUpdate.NestedKeys | lib/constructs/dynamo/lambda/update.py:43-49 | An object attribute adds exactly the `:k.n` and `#k.n` placeholders of its entries. |
| DynamoUpdate.PlaceholderKeys | lib/constructs/dynamo/lambda/update.py:29-54 | The keys of the value and name maps are exactly the placeholders that some non-key attribute writes. |
| DynamoUpdate.LaterFieldsKeep | lib/constructs/dynamo/lambda/update.py:29-54 | A placeholder that no later attribute writes keeps its value: the last writer wins. |
| DynamoUpdate.NestedEntries | lib/constructs/dynamo/lambda/update.py:44-49 | Entries with distinct keys each get their own `:k.n` value and `#k.n` name. |
| DynamoUpdate.NullField | lib/constructs/dynamo/lambda/update.py:33-35 | `null` gives `REMOVE #k` and `#k` names `k`. No value placeholder is written. |
| DynamoUpdate.ListField | lib/constructs/dynamo/lambda/update.py:37-41 | A list gives `SET #k = list_append(#k, :k)`, with `:k` holding the list and `#k` naming `k`. |
| DynamoUpdate.ScalarField | lib/constructs/dynamo/lambda/update.py:51-54 | A number, string or boolean gives `SET #k = :k`, with `:k` holding the value and `#k` naming `k`. |
| DynamoUpdate.DictField | lib/constructs/dynamo/lambda/update.py:43-49 | An object gives one `SET #k.n = :k.n` per entry, in order. `:k.n` holds the entry's value and `#k.n` names `n`, not `k`. An empty object adds nothing. |

## Left out

- **CDK internals.** `RestApi`, `addResource`, `addProxy`, `addCorsPreflight`, `addMethod` and `addModel` are recorded as descriptors in a log rather than executed.
  - The `RestApi` options (`restApiName`, stage `dev`, `retainDeployments`) are not modelled.
  - The log records every `addCorsPreflight` call the code makes, one per method when CORS is configured, and does not model how the CDK handles a second preflight on the same resource.
  - `getResource` is modelled by the tree's child map.
- **Zod internals.** A schema is reduced to the classes tested with `instanceof`, and `isOptional()` is a flag on each node.
  - Zod string checks such as `.email()`, `.min()` and `.max()` keep the node a `ZodString`, so they do not change the conversion and are not modelled.
  - `.refine()`, `.superRefine()` and `.transform()` wrap the schema in `ZodEffects`, which passes none of the `instanceof` tests. It is an `Other` node, and the conversion rejects it with "Unsupported field type".
  - Wrappers such as `ZodOptional` and `ZodNullable` are `Other` nodes, as the converter sees them.
- **JSON numbers** in literals and in request bodies are integers. Floating point is not modelled.
- **`JSON.stringify`** of the request template is kept as a structured envelope rather than as text.
- **Key order.** `Object.entries` and Python's `dict.items()` are sequences in iteration order.
  - JavaScript's reordering of integer-like keys is not modelled.
  - Where distinct keys matter, they are a lemma premise (`DistinctKeys`, `KeysAgree`) rather than a type invariant.
- RestApiAssembly.RestApiConstruct.constructor: the source's constructor is split into the constructor (the new `RestApi`) and `RegisterPaths` (the loop over the paths). The two run one after the other.
- **Throws are outcomes.** A throw becomes a `Fail` outcome that ends construction, with the registrations made before it kept in the log.
  - `console.error` before a throw is left out.
  - The entry conversion of a non-object schema (which would throw a `TypeError` on `Object.entries(undefined)`) is the `MissingShape` error.
- **Status codes** are natural numbers, rendered in decimal by `String`.
- **Case mapping.** `toUpperCase` and `toLowerCase` are modelled on ASCII letters only, and other characters are left unchanged. JavaScript maps the whole of Unicode, and some characters change length under it (`ß` becomes `SS`). `toPascalCase` only receives the `[a-zA-Z0-9]` words of `stringToAlphanumericName`, and the upper-cased verbs are ASCII, so the two agree on every input the constructor passes. They are not claimed to agree elsewhere.
- RestApiAssembly.RestApiConstruct.AddMethod: the request model and the response models of one method are appended to the log in one step, after the resolver, rather than one `addModel` call at a time. The order of the log and its final content are those of the source.
- **Global `auth: false`.** `globalParams.auth` is an optional authorizer. The type also admits `false` there, which `createMethodAuthDef` would pass on as the authorizer. That case is not modelled.
- **Artifact names.** Names are stated generally (`NamespacedNameRuns`, `NamespacedNameContent`). No concrete name such as the one for `/lambda/params/{paramId}` is computed as an example.
- **`lambda_handler`** in update.py (boto3 and the table call, reading the body and the path parameters, the environment variables) is not part of this model. `partition_key` and `sort_key` are parameters of `BuildUpdateParameters`.
- **`../../types`**, imported by lambdas/template-lambda/infra.ts, is not part of this model. That file's request schema is restated from its text.
