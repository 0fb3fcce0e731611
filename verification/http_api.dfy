/**
 The part of the ApiStudio designer's domain model that the default-seeding
 rules read and write: an HTTP operation (`HttpApi`) of some verb, the
 resources it hangs off, its response status codes and its request and
 response headers. Elements of the designer's store become immutable records.
 */
module HttpApiModel {

  datatype Option<T> = None | Some(value: T)

  /**
   The concrete `HttpApi` subtype. `Other` stands for any subtype that the
   verb switch of the response defaults does not name.
   */
  datatype Verb = Get | Put | Post | Delete | Patch | Trace | Head | Options | Other

  /** A resource is either a document (`ResourceInstance`) or some other kind. */
  datatype ResourceKind = ResourceInstance | OtherResource

  /**
   A resource with the resources it is sourced from. Being a datatype, a
   chain of source links is finite and acyclic.
   */
  datatype Resource = Resource(kind: ResourceKind, sourceResource: seq<Resource>)

  /** One response status code of an operation (`HttpResourceResponseStatusCode`). */
  datatype ResponseStatusCode = ResponseStatusCode(httpStatus: int, isAutoGenerated: bool)

  /**
   When a response header is sent (`HttpTypeHeaderOnResponse`). Only
   `OnSuccess` is used by the seeding rules; the enumeration's other members
   are carried by name.
   */
  datatype IncludeOn = OnSuccess | OtherIncludeOn(name: string)

  /** A request header of an operation (`HttpResourceHeaderRequest`). */
  datatype HeaderRequest = HeaderRequest(
    name: string,
    description: string,
    isRequired: bool,
    allowEmptyValue: bool,
    isAutoGenerated: bool)

  /** A response header of an operation (`HttpResourceHeaderResponse`). */
  datatype HeaderResponse = HeaderResponse(
    name: string,
    description: string,
    isRequired: bool,
    allowEmptyValue: bool,
    isAutoGenerated: bool,
    includeOn: IncludeOn)

  /**
   An HTTP operation as the seeding rules see it. `httpApiResponseStatusCodes`
   is the collection the response defaults clear; `responseStatusCodes` is the
   collection the `Location` rule reads. The designer exposes them as two
   properties and they are kept apart here.
   */
  datatype HttpApi = HttpApi(
    verb: Verb,
    resourced: seq<Resource>,
    httpApiResponseStatusCodes: seq<ResponseStatusCode>,
    responseStatusCodes: seq<ResponseStatusCode>,
    httpApiHeaderRequests: seq<HeaderRequest>,
    httpApiHeaderResponses: seq<HeaderResponse>)

  /** The status values of a list of response status codes, in order. */
  function Statuses(codes: seq<ResponseStatusCode>): (r: seq<int>)
    ensures |r| == |codes|
    ensures forall i :: 0 <= i < |codes| ==> r[i] == codes[i].httpStatus
  {
    seq(|codes|, i requires 0 <= i < |codes| => codes[i].httpStatus)
  }
}
