# ApiStudio HTTP-operation defaults, modelled in Dafny

The ApiStudio designer is a Visual Studio DSL designer for HTTP APIs. When it
seeds an HTTP operation (`HttpApi`) with defaults it applies two small rule
tables:

* **Default response status codes.** The auto-generated status codes are
  removed from the operation. A new list of auto-generated codes is then built:
  the verb's configured success code; 422 (Unprocessable Content, section
  15.5.21 of RFC 9110) for PUT and POST when 422 is a configured standard code;
  404 when a document resource (`ResourceInstance`) lies on the operation's
  first-source resource chain and 404 is configured; then every other
  configured standard code, in configuration order.
* **Default headers.** The auto-generated request and response headers are
  removed. Each configured request-header default becomes an auto-generated
  request header. The response headers are an optional `Location` header
  (section 10.2.2 of RFC 9110), added when the operation's response status
  codes meet {201, 301, 302, 303, 307}, followed by one auto-generated header
  per configured response-header default.

The designer's store elements become immutable records, and the user-settings
store becomes plain input records (`DefaultResponseCodes`,
`DefaultHeaderSettings`). Each operation is a pure function. It returns the
items left on the operation and the list handed to
`ApiStudioComponentTransactionManager.Save`.

Files:

* `sequences.dfy` (`Sequences`): order-preserving removal of the elements that
  satisfy a predicate. All "remove the auto-generated items" steps use it, and
  so does the exclusion of 404 and 422 from the standard-code loop.
* `http_api.dfy` (`HttpApiModel`): verbs, resources, status codes, headers and
  the `HttpApi` record.
* `default_responses.dfy` (`DefaultResponses`): the response status-code rules.
* `default_headers.dfy` (`DefaultHeaders`): the header rules.

Modelling choices:

* The verb is the concrete `HttpApi` subtype. `Other` stands for a subtype that
  the `switch` does not name; such an operation gets no success-code entry.
* A `Resource` holds its kind and its `SourceResource` list. The walk follows
  the first element of `Resourced`, then the first element of each
  `SourceResource` list. Because `Resource` is a datatype, every chain is finite
  and acyclic.
* The operation exposes `HttpApiResponseStatusCodes`, which the response rules
  clear, and `ResponseStatusCodes`, which the `Location` rule reads. The model
  keeps them as two separate fields. How the two collections relate is not
  part of this model.
* The comment above the `Location` code list mentions 308, but the array
  omits it. The model follows the array, so 308 alone earns no `Location`
  header.
* The configured header defaults (`DefaultHeaders.Request.Values` and
  `DefaultHeaders.Response.Values`) are keyed collections. The model takes
  their enumeration order as the order of its input sequences, so "in order"
  for the copied headers means the collections' enumeration order.
* `HttpTypeHeaderOnResponse` is modelled as `OnSuccess`, which the rules use,
  plus `OtherIncludeOn(name)` for its other members. Those members are not
  part of this model.

## Model

| member | source | states |
|---|---|---|
| `Sequences.RemoveWhere` | src/api-studio.designer/CustomCode/ApiStudioDiagram/HttpApiDefaults/WithDefaultResponses.cs:27-30 | The filtered list keeps no element the predicate selects and is never longer than the input. The companion lemmas state membership, multiplicity, order and concatenation. |
| `DefaultResponses.ClearAutoGeneratedDefaults` | src/api-studio.designer/CustomCode/ApiStudioDiagram/HttpApiDefaults/WithDefaultResponses.cs:22-33 | No status code left on the operation is auto-generated, and the list does not grow. |
| `DefaultResponses.ClearKeepsExactlyUserCodes` | src/api-studio.designer/CustomCode/ApiStudioDiagram/HttpApiDefaults/WithDefaultResponses.cs:27-30 | A code survives clearing iff it was present and not auto-generated. A user-authored code keeps its multiplicity; an auto-generated one drops to zero. |
| `DefaultResponses.ClearKeepsOrder` | src/api-studio.designer/CustomCode/ApiStudioDiagram/HttpApiDefaults/WithDefaultResponses.cs:27-30 | A user-authored code stays between what survives before it and what survives after it, so relative order is kept. |
| `DefaultResponses.ClearLeavesUserListAlone` | src/api-studio.designer/CustomCode/ApiStudioDiagram/HttpApiDefaults/WithDefaultResponses.cs:22-33 | A list with no auto-generated code is unchanged by clearing, so clearing twice equals clearing once. |
| `DefaultResponses.HasDocumentResourceInPath` | src/api-studio.designer/CustomCode/ApiStudioDiagram/HttpApiDefaults/WithDefaultResponses.cs:93-105 | The early-exit walk returns true iff the first-source chain holds a `ResourceInstance`, and false for an operation with no resource. |
| `DefaultResponses.SuccessCode` | src/api-studio.designer/CustomCode/ApiStudioDiagram/HttpApiDefaults/WithDefaultResponses.cs:42-79 | The switch yields a success code exactly for the eight named verbs and none for any other subtype. |
| `DefaultResponses.VerbCodes` | src/api-studio.designer/CustomCode/ApiStudioDiagram/HttpApiDefaults/WithDefaultResponses.cs:42-79 | The switch contributes [named verb] + [PUT/POST and 422 configured] entries. The first is the verb's success code; the second is 422 iff the verb is PUT or POST and 422 is configured. |
| `DefaultResponses.NotFoundCodes` | src/api-studio.designer/CustomCode/ApiStudioDiagram/HttpApiDefaults/WithDefaultResponses.cs:81-82 | At most one entry, always 404, present iff a document is on the chain and 404 is configured. |
| `DefaultResponses.StandardCodes` | src/api-studio.designer/CustomCode/ApiStudioDiagram/HttpApiDefaults/WithDefaultResponses.cs:84-87 | Neither 404 nor 422 comes out of the standard-code loop. |
| `DefaultResponses.DefaultCodes` | src/api-studio.designer/CustomCode/ApiStudioDiagram/HttpApiDefaults/WithDefaultResponses.cs:37-88 | The built status list has as many entries as the switch, the optional 404 and the standard-code loop contribute together. |
| `DefaultResponses.ConvertResponseStatusCode` | src/api-studio.designer/CustomCode/ApiStudioDiagram/HttpApiDefaults/WithDefaultResponses.cs:108-116 | A converted entry carries the given status and is marked auto-generated. |
| `DefaultResponses.CreateDefaults` | src/api-studio.designer/CustomCode/ApiStudioDiagram/HttpApiDefaults/WithDefaultResponses.cs:35-89 | Every entry handed to the save is auto-generated and carries the status it was built from, in build order. |
| `DefaultResponses.CreateDefaultsOpensWithSuccessCode` | src/api-studio.designer/CustomCode/ApiStudioDiagram/HttpApiDefaults/WithDefaultResponses.cs:42-79 | For each of GET, PUT, POST, DELETE, PATCH, TRACE, HEAD and OPTIONS, the first entry is that verb's configured success code. |
| `DefaultResponses.CreateDefaultsOtherHasNoSuccessCode` | src/api-studio.designer/CustomCode/ApiStudioDiagram/HttpApiDefaults/WithDefaultResponses.cs:42-87 | For a subtype the switch does not name, every entry is a configured standard code, so no success code is added. |
| `DefaultResponses.CreateDefaultsUnprocessableSecond` | src/api-studio.designer/CustomCode/ApiStudioDiagram/HttpApiDefaults/WithDefaultResponses.cs:48-58 | The second entry is 422 iff the verb is PUT or POST and 422 is a configured standard code. |
| `DefaultResponses.CreateDefaultsNotFoundAfterVerb` | src/api-studio.designer/CustomCode/ApiStudioDiagram/HttpApiDefaults/WithDefaultResponses.cs:81-82 | The entry right after the verb's entries is 404 iff a document is on the resource chain and 404 is configured. |
| `DefaultResponses.CreateDefaultsEndsWithStandardCodes` | src/api-studio.designer/CustomCode/ApiStudioDiagram/HttpApiDefaults/WithDefaultResponses.cs:84-87 | After the verb entries and the optional 404, the list is exactly the standard codes other than 404 and 422, in configuration order. None of those entries is 404 or 422. |
| `DefaultResponses.StandardCodesLength` | src/api-studio.designer/CustomCode/ApiStudioDiagram/HttpApiDefaults/WithDefaultResponses.cs:84-87 | The standard-code loop drops exactly the occurrences of 404 and 422. |
| `DefaultResponses.StandardCodesOffered` | src/api-studio.designer/CustomCode/ApiStudioDiagram/HttpApiDefaults/WithDefaultResponses.cs:84-87 | A code comes out of the standard-code loop iff it is configured and is neither 404 nor 422. |
| `DefaultResponses.CreateDefaultsLength` | src/api-studio.designer/CustomCode/ApiStudioDiagram/HttpApiDefaults/WithDefaultResponses.cs:37-89 | Length = [named verb] + [PUT/POST and 422 configured] + [document and 404 configured] + number of standard codes minus the occurrences of 404 and 422. |
| `DefaultResponses.CreateDefaultsKeepsDuplicateSuccessCode` | src/api-studio.designer/CustomCode/ApiStudioDiagram/HttpApiDefaults/WithDefaultResponses.cs:42-87 | There is no de-duplication: a success code that is also an ordinary standard code appears twice. |
| `DefaultResponses.WithDefaultResponses` | src/api-studio.designer/CustomCode/ApiStudioDiagram/HttpApiDefaults/WithDefaultResponses.cs:13-20 | The retained codes are all user-authored and never longer than the operation's list. The codes handed to the save are the built defaults, all auto-generated, so the two lists share no entry. |
| `DefaultResponses.WithDefaultResponsesContents` | src/api-studio.designer/CustomCode/ApiStudioDiagram/HttpApiDefaults/WithDefaultResponses.cs:13-89 | A code is retained iff the operation carried it and it is user-authored, with its multiplicity. The saved list's length is [named verb] + [PUT/POST and 422 configured] + [document and 404 configured] + the standard codes minus the occurrences of 404 and 422. |
| `DefaultResponses.ReseedingIsStable` | src/api-studio.designer/CustomCode/ApiStudioDiagram/HttpApiDefaults/WithDefaultResponses.cs:13-33 | Suppose the saved codes are inserted as one block among the retained ones. Seeding that operation again gives the same result. |
| `DefaultHeaders.ClearAutoGeneratedDefaults` | src/api-studio.designer/CustomCode/ApiStudioDiagram/HttpApiDefaults/WithDefaultHeaders.cs:23-40 | No request header and no response header left on the operation is auto-generated, and neither list grows. |
| `DefaultHeaders.ClearKeepsExactlyUserHeaders` | src/api-studio.designer/CustomCode/ApiStudioDiagram/HttpApiDefaults/WithDefaultHeaders.cs:28-36 | A request or response header survives iff it was present and not auto-generated, with its multiplicity. |
| `DefaultHeaders.ClearKeepsRequestOrder` | src/api-studio.designer/CustomCode/ApiStudioDiagram/HttpApiDefaults/WithDefaultHeaders.cs:28-31 | User-authored request headers keep their relative order. |
| `DefaultHeaders.ClearKeepsResponseOrder` | src/api-studio.designer/CustomCode/ApiStudioDiagram/HttpApiDefaults/WithDefaultHeaders.cs:33-36 | User-authored response headers keep their relative order. |
| `DefaultHeaders.ToRequestHeader` | src/api-studio.designer/CustomCode/ApiStudioDiagram/HttpApiDefaults/WithDefaultHeaders.cs:47-54 | A copied request header is auto-generated and projects back onto the default it was copied from. |
| `DefaultHeaders.ToResponseHeader` | src/api-studio.designer/CustomCode/ApiStudioDiagram/HttpApiDefaults/WithDefaultHeaders.cs:66-74 | A copied response header is auto-generated and projects back onto its default, `IncludeOn` included. |
| `DefaultHeaders.CopiedHeadersRoundTrip` | src/api-studio.designer/CustomCode/ApiStudioDiagram/HttpApiDefaults/WithDefaultHeaders.cs:47-74 | An auto-generated header is exactly the copy of the default it projects to, so copying loses nothing. |
| `DefaultHeaders.CreateDefaultRequestHeader` | src/api-studio.designer/CustomCode/ApiStudioDiagram/HttpApiDefaults/WithDefaultHeaders.cs:42-57 | There is one request header per configured request default, in enumeration order. Each is auto-generated and copies name, description, IsRequired and AllowEmptyValue. |
| `DefaultHeaders.LocationHeader` | src/api-studio.designer/CustomCode/ApiStudioDiagram/HttpApiDefaults/WithDefaultHeaders.cs:89-98 | The `Location` header is named `Location`, is required, does not allow an empty value, is auto-generated and is sent on success. |
| `DefaultHeaders.AddResponseHeaderLocation` | src/api-studio.designer/CustomCode/ApiStudioDiagram/HttpApiDefaults/WithDefaultHeaders.cs:79-100 | At most one header comes out. There is one iff some response status is 201, 301, 302, 303 or 307, and it is the `Location` header. |
| `DefaultHeaders.PermanentRedirectGetsNoLocation` | src/api-studio.designer/CustomCode/ApiStudioDiagram/HttpApiDefaults/WithDefaultHeaders.cs:84-88 | Statuses that are all 308 earn no `Location` header. |
| `DefaultHeaders.CreateDefaultResponseHeader` | src/api-studio.designer/CustomCode/ApiStudioDiagram/HttpApiDefaults/WithDefaultHeaders.cs:59-77 | The list is the optional `Location` header first, then one auto-generated copy of each configured response default, in order with `IncludeOn`. Its length is the number of defaults plus [Location]. |
| `DefaultHeaders.AtMostOneLocationHeader` | src/api-studio.designer/CustomCode/ApiStudioDiagram/HttpApiDefaults/WithDefaultHeaders.cs:59-98 | If no configured default is named `Location`, at most one response header in the list is named `Location`, however many statuses match. |
| `DefaultHeaders.ConfiguredLocationIsKept` | src/api-studio.designer/CustomCode/ApiStudioDiagram/HttpApiDefaults/WithDefaultHeaders.cs:59-77 | There is no de-duplication: a configured default named `Location` sits beside the generated one. |
| `DefaultHeaders.WithDefaultHeaders` | src/api-studio.designer/CustomCode/ApiStudioDiagram/HttpApiDefaults/WithDefaultHeaders.cs:13-20 | Retained headers are user-authored and saved headers are auto-generated. The i-th saved request header is the copy of the i-th request default. The saved response headers are `Location` first when a status is 201, 301, 302, 303 or 307, then the copy of each response default in enumeration order. |
| `DefaultHeaders.WithDefaultHeadersRetainsUserHeaders` | src/api-studio.designer/CustomCode/ApiStudioDiagram/HttpApiDefaults/WithDefaultHeaders.cs:13-40 | A request or response header is retained iff the operation carried it and it is user-authored, with its multiplicity. |
| `DefaultHeaders.ReseedingIsStable` | src/api-studio.designer/CustomCode/ApiStudioDiagram/HttpApiDefaults/WithDefaultHeaders.cs:13-40 | Suppose each saved header list is inserted as one block among the retained headers. Seeding that operation again gives the same result. |

## Left out

- `ApiStudioComponentTransactionManager.Save` is not modelled: its body is not part of this model. Each operation returns the list handed to it, and nothing is claimed about how it merges that list into the operation.
- Store transactions (`BeginTransaction`, `Commit`) and undo/redo belong to the host modelling framework.
- Loading the user settings (`VsOptionStoreLoad`) is I/O. The settings are inputs to the model.
- Cycles in the live source-resource graph are not modelled. The `while` loop of `HasDocumentResourceInPath` would not end on a cycle; the model's resource chains are finite by construction.
- The null-conditional access `httpApi?.` on the header collections is not modelled: an operation is always present.
- Other properties of status-code and header elements that these rules neither read nor set are not modelled.
- `DefaultResponses.ReseedingIsStable` and `DefaultHeaders.ReseedingIsStable` assume a save that inserts the generated items as one block. Other merges are not covered, because the save's behaviour is not part of this model.
- `ApiStudioIODeleteClosure.cs`: both visitor overrides return the framework's base result unchanged, so there is no logic of its own to model.
- `User-CreateUsers.HttpTrigger.cs` is a generated Azure Functions HTTP stub (I/O, logging, host pipeline) and is not part of this model.
