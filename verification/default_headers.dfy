/**
 Seeding an HTTP operation with default request and response headers. The
 auto-generated headers already on the operation are removed; every
 configured request-header default becomes an auto-generated request header;
 the response headers are an optional `Location` header (section 10.2.2 of
 RFC 9110) followed by one auto-generated header per configured
 response-header default. The two lists are what the designer hands to its
 transaction manager to save; how the save merges them is not modelled.
 */
module DefaultHeaders {
  import opened HttpApiModel
  import Sequences

  /** A configured request-header default from the user's settings. */
  datatype RequestHeaderDefault = RequestHeaderDefault(
    name: string,
    description: string,
    isRequired: bool,
    allowEmptyValue: bool)

  /** A configured response-header default from the user's settings. */
  datatype ResponseHeaderDefault = ResponseHeaderDefault(
    name: string,
    description: string,
    isRequired: bool,
    allowEmptyValue: bool,
    includeOn: IncludeOn)

  /** The user's default-header settings, in enumeration order. */
  datatype DefaultHeaderSettings = DefaultHeaderSettings(
    request: seq<RequestHeaderDefault>,
    response: seq<ResponseHeaderDefault>)

  /** What seeding produces: the headers left on the operation and the lists handed to the save. */
  datatype HeaderDefaults = HeaderDefaults(
    retainedRequests: seq<HeaderRequest>,
    retainedResponses: seq<HeaderResponse>,
    requestsToSave: seq<HeaderRequest>,
    responsesToSave: seq<HeaderResponse>)

  /**
   The status codes whose responses carry a `Location` header: 201 Created
   and the redirections 301, 302, 303 and 307. 308 is not among them.
   */
  const LocationStatusCodes: seq<int> := [201, 301, 302, 303, 307]

  const LocationName: string := "Location"
  const LocationDescription: string :=
    "The Location response header indicates the URL to redirect a page to. It only provides a meaning when served with a 3xx (redirection) or 201 (created) status response. In cases of resource creation (201), it indicates the URL to the newly created resource."

  predicate IsAutoGeneratedRequest(h: HeaderRequest) {
    h.isAutoGenerated
  }

  predicate IsAutoGeneratedResponse(h: HeaderResponse) {
    h.isAutoGenerated
  }

  /** True when some response status of the operation asks for a `Location` header. */
  predicate HasLocationStatus(statuses: seq<int>) {
    exists i :: 0 <= i < |statuses| && statuses[i] in LocationStatusCodes
  }

  /**
   Removes the auto-generated request headers and the auto-generated
   response headers; the user-authored ones stay, in order.
   */
  function ClearAutoGeneratedDefaults(api: HttpApi): (r: (seq<HeaderRequest>, seq<HeaderResponse>))
    ensures forall i :: 0 <= i < |r.0| ==> !r.0[i].isAutoGenerated
    ensures forall i :: 0 <= i < |r.1| ==> !r.1[i].isAutoGenerated
    ensures |r.0| <= |api.httpApiHeaderRequests| && |r.1| <= |api.httpApiHeaderResponses|
  {
    (Sequences.RemoveWhere(api.httpApiHeaderRequests, IsAutoGeneratedRequest),
     Sequences.RemoveWhere(api.httpApiHeaderResponses, IsAutoGeneratedResponse))
  }

  /** Clearing keeps a header exactly when it was present and user-authored, as often as it occurred. */
  lemma ClearKeepsExactlyUserHeaders(api: HttpApi, q: HeaderRequest, s: HeaderResponse)
    ensures var (requests, responses) := ClearAutoGeneratedDefaults(api);
      && (q in requests <==> q in api.httpApiHeaderRequests && !q.isAutoGenerated)
      && (s in responses <==> s in api.httpApiHeaderResponses && !s.isAutoGenerated)
      && multiset(requests)[q] == (if q.isAutoGenerated then 0 else multiset(api.httpApiHeaderRequests)[q])
      && multiset(responses)[s] == (if s.isAutoGenerated then 0 else multiset(api.httpApiHeaderResponses)[s])
  {
    Sequences.RemoveWhereMembers(api.httpApiHeaderRequests, IsAutoGeneratedRequest, q);
    Sequences.RemoveWhereMembers(api.httpApiHeaderResponses, IsAutoGeneratedResponse, s);
    Sequences.RemoveWhereCounts(api.httpApiHeaderRequests, IsAutoGeneratedRequest, q);
    Sequences.RemoveWhereCounts(api.httpApiHeaderResponses, IsAutoGeneratedResponse, s);
  }

  /** Clearing keeps the user-authored request headers in their original relative order. */
  lemma ClearKeepsRequestOrder(api: HttpApi, k: nat)
    requires k < |api.httpApiHeaderRequests| && !api.httpApiHeaderRequests[k].isAutoGenerated
    ensures var hs := api.httpApiHeaderRequests;
      ClearAutoGeneratedDefaults(api).0
      == Sequences.RemoveWhere(hs[..k], IsAutoGeneratedRequest) + [hs[k]]
         + Sequences.RemoveWhere(hs[k+1..], IsAutoGeneratedRequest)
  {
    Sequences.RemoveWhereSplit(api.httpApiHeaderRequests, IsAutoGeneratedRequest, k);
  }

  /** Clearing keeps the user-authored response headers in their original relative order. */
  lemma ClearKeepsResponseOrder(api: HttpApi, k: nat)
    requires k < |api.httpApiHeaderResponses| && !api.httpApiHeaderResponses[k].isAutoGenerated
    ensures var hs := api.httpApiHeaderResponses;
      ClearAutoGeneratedDefaults(api).1
      == Sequences.RemoveWhere(hs[..k], IsAutoGeneratedResponse) + [hs[k]]
         + Sequences.RemoveWhere(hs[k+1..], IsAutoGeneratedResponse)
  {
    Sequences.RemoveWhereSplit(api.httpApiHeaderResponses, IsAutoGeneratedResponse, k);
  }

  /** The configured default a request header was copied from. */
  function RequestDefaultOf(h: HeaderRequest): RequestHeaderDefault {
    RequestHeaderDefault(h.name, h.description, h.isRequired, h.allowEmptyValue)
  }

  /** The configured default a response header was copied from. */
  function ResponseDefaultOf(h: HeaderResponse): ResponseHeaderDefault {
    ResponseHeaderDefault(h.name, h.description, h.isRequired, h.allowEmptyValue, h.includeOn)
  }

  /** An auto-generated request header copied from a configured default. */
  function ToRequestHeader(d: RequestHeaderDefault): (h: HeaderRequest)
    ensures h.isAutoGenerated && RequestDefaultOf(h) == d
  {
    HeaderRequest(d.name, d.description, d.isRequired, d.allowEmptyValue, true)
  }

  /** An auto-generated response header copied from a configured default, `IncludeOn` included. */
  function ToResponseHeader(d: ResponseHeaderDefault): (h: HeaderResponse)
    ensures h.isAutoGenerated && ResponseDefaultOf(h) == d
  {
    HeaderResponse(d.name, d.description, d.isRequired, d.allowEmptyValue, true, d.includeOn)
  }

  /** Copying is lossless: an auto-generated header is the copy of the default it projects to. */
  lemma CopiedHeadersRoundTrip(q: HeaderRequest, s: HeaderResponse)
    ensures q.isAutoGenerated ==> ToRequestHeader(RequestDefaultOf(q)) == q
    ensures s.isAutoGenerated ==> ToResponseHeader(ResponseDefaultOf(s)) == s
  {
  }

  /**
   One auto-generated request header per configured request default, in
   order, each copying the default's name, description, required flag and
   empty-value flag.
   */
  function CreateDefaultRequestHeader(defaults: seq<RequestHeaderDefault>): (r: seq<HeaderRequest>)
    ensures |r| == |defaults|
    ensures forall i :: 0 <= i < |r| ==> r[i].isAutoGenerated && RequestDefaultOf(r[i]) == defaults[i]
  {
    seq(|defaults|, i requires 0 <= i < |defaults| => ToRequestHeader(defaults[i]))
  }

  /** The `Location` header: required, never empty, auto-generated, sent on success. */
  function LocationHeader(): (h: HeaderResponse)
    ensures h.name == LocationName
    ensures h.isRequired && !h.allowEmptyValue && h.isAutoGenerated
    ensures h.includeOn == OnSuccess
  {
    HeaderResponse(LocationName, LocationDescription, true, false, true, OnSuccess)
  }

  /**
   A single `Location` header when the operation's response statuses meet
   {201, 301, 302, 303, 307}, and none otherwise, however many statuses
   match.
   */
  function AddResponseHeaderLocation(statuses: seq<int>): (r: seq<HeaderResponse>)
    ensures |r| <= 1
    ensures |r| == 1 <==>
      exists i :: 0 <= i < |statuses|
        && (statuses[i] == 201 || statuses[i] == 301 || statuses[i] == 302
            || statuses[i] == 303 || statuses[i] == 307)
    ensures forall i :: 0 <= i < |r| ==> r[i] == LocationHeader()
  {
    if HasLocationStatus(statuses) then [LocationHeader()] else []
  }

  /** Permanent Redirect (308) alone does not earn a `Location` header. */
  lemma PermanentRedirectGetsNoLocation(statuses: seq<int>)
    requires forall i :: 0 <= i < |statuses| ==> statuses[i] == 308
    ensures AddResponseHeaderLocation(statuses) == []
  {
  }

  /**
   The optional `Location` header, then one auto-generated copy of each
   configured response default in order, `IncludeOn` included.
   */
  function CreateDefaultResponseHeader(statuses: seq<int>, defaults: seq<ResponseHeaderDefault>)
    : (r: seq<HeaderResponse>)
    ensures var k := if HasLocationStatus(statuses) then 1 else 0;
      && |r| == k + |defaults|
      && (k == 1 ==> r[0] == LocationHeader())
      && forall i :: 0 <= i < |defaults| ==>
           r[k + i].isAutoGenerated && ResponseDefaultOf(r[k + i]) == defaults[i]
  {
    var location := AddResponseHeaderLocation(statuses);
    location + seq(|defaults|, i requires 0 <= i < |defaults| => ToResponseHeader(defaults[i]))
  }

  /**
   Unless a configured response default is itself named `Location`, at most
   one response header in the list is named `Location`.
   */
  lemma AtMostOneLocationHeader(statuses: seq<int>, defaults: seq<ResponseHeaderDefault>)
    requires forall i :: 0 <= i < |defaults| ==> defaults[i].name != LocationName
    ensures var r := CreateDefaultResponseHeader(statuses, defaults);
      forall i, j :: 0 <= i < |r| && 0 <= j < |r| && r[i].name == LocationName && r[j].name == LocationName
        ==> i == j
  {
    var r := CreateDefaultResponseHeader(statuses, defaults);
    var k := if HasLocationStatus(statuses) then 1 else 0;
    forall i | k <= i < |r|
      ensures r[i].name != LocationName
    {
      assert ResponseDefaultOf(r[k + (i - k)]) == defaults[i - k];
    }
  }

  /**
   The list is not de-duplicated: a configured default named `Location`
   sits beside the generated one when a creation or redirection status is
   present.
   */
  lemma ConfiguredLocationIsKept(statuses: seq<int>, defaults: seq<ResponseHeaderDefault>, j: nat)
    requires HasLocationStatus(statuses)
    requires j < |defaults| && defaults[j].name == LocationName
    ensures var r := CreateDefaultResponseHeader(statuses, defaults);
      r[0].name == LocationName && r[1 + j].name == LocationName
  {
  }

  /**
   The whole seeding step for headers: the headers left on the operation
   once the auto-generated ones are cleared, and the two lists handed to the
   save. The `Location` rule reads the operation's response status codes.
   */
  function WithDefaultHeaders(api: HttpApi, settings: DefaultHeaderSettings): (r: HeaderDefaults)
    ensures forall i :: 0 <= i < |r.retainedRequests| ==> !r.retainedRequests[i].isAutoGenerated
    ensures forall i :: 0 <= i < |r.retainedResponses| ==> !r.retainedResponses[i].isAutoGenerated
    ensures forall i :: 0 <= i < |r.requestsToSave| ==> r.requestsToSave[i].isAutoGenerated
    ensures forall i :: 0 <= i < |r.responsesToSave| ==> r.responsesToSave[i].isAutoGenerated
    ensures |r.requestsToSave| == |settings.request|
    ensures forall i :: 0 <= i < |r.requestsToSave| ==> RequestDefaultOf(r.requestsToSave[i]) == settings.request[i]
    ensures var k := if HasLocationStatus(Statuses(api.responseStatusCodes)) then 1 else 0;
      && |r.responsesToSave| == k + |settings.response|
      && (k == 1 ==> r.responsesToSave[0] == LocationHeader())
      && forall i :: 0 <= i < |settings.response| ==> ResponseDefaultOf(r.responsesToSave[k + i]) == settings.response[i]
    ensures |r.retainedRequests| <= |api.httpApiHeaderRequests|
    ensures |r.retainedResponses| <= |api.httpApiHeaderResponses|
  {
    var (requests, responses) := ClearAutoGeneratedDefaults(api);
    HeaderDefaults(
      requests,
      responses,
      CreateDefaultRequestHeader(settings.request),
      CreateDefaultResponseHeader(Statuses(api.responseStatusCodes), settings.response))
  }

  /**
   Seeding again after the save yields the same headers, wherever the save
   placed each generated list, as one block, among the user-authored ones.
   */
  lemma ReseedingIsStable(
    api: HttpApi, settings: DefaultHeaderSettings,
    beforeRequests: seq<HeaderRequest>, afterRequests: seq<HeaderRequest>,
    beforeResponses: seq<HeaderResponse>, afterResponses: seq<HeaderResponse>)
    requires beforeRequests + afterRequests == WithDefaultHeaders(api, settings).retainedRequests
    requires beforeResponses + afterResponses == WithDefaultHeaders(api, settings).retainedResponses
    ensures var first := WithDefaultHeaders(api, settings);
      var saved := api.(
        httpApiHeaderRequests := beforeRequests + first.requestsToSave + afterRequests,
        httpApiHeaderResponses := beforeResponses + first.responsesToSave + afterResponses);
      WithDefaultHeaders(saved, settings) == first
  {
    var first := WithDefaultHeaders(api, settings);
    Sequences.RemoveWhereIgnoresDropped(beforeRequests, first.requestsToSave, afterRequests, IsAutoGeneratedRequest);
    Sequences.RemoveWhereIgnoresDropped(beforeResponses, first.responsesToSave, afterResponses, IsAutoGeneratedResponse);
    Sequences.RemoveWhereKeepsAll(first.retainedRequests, IsAutoGeneratedRequest);
    Sequences.RemoveWhereKeepsAll(first.retainedResponses, IsAutoGeneratedResponse);
  }

  /**
   What header seeding keeps: a request or response header is retained
   exactly when the operation carried it and it was user-authored, as often
   as it occurred.
   */
  lemma WithDefaultHeadersRetainsUserHeaders(
    api: HttpApi, settings: DefaultHeaderSettings, q: HeaderRequest, s: HeaderResponse)
    ensures var r := WithDefaultHeaders(api, settings);
      && (q in r.retainedRequests <==> q in api.httpApiHeaderRequests && !q.isAutoGenerated)
      && (s in r.retainedResponses <==> s in api.httpApiHeaderResponses && !s.isAutoGenerated)
      && multiset(r.retainedRequests)[q]
         == (if q.isAutoGenerated then 0 else multiset(api.httpApiHeaderRequests)[q])
      && multiset(r.retainedResponses)[s]
         == (if s.isAutoGenerated then 0 else multiset(api.httpApiHeaderResponses)[s])
  {
    ClearKeepsExactlyUserHeaders(api, q, s);
  }
}
