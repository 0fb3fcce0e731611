/**
 Seeding an HTTP operation with default response status codes. The
 auto-generated codes already on the operation are removed, and a fresh list
 of auto-generated codes is built from the verb, the resources the operation
 hangs off and the user's default-response settings. That list is what the
 designer hands to its transaction manager to save; how the save merges it
 into the operation is not part of this model.
 */
module DefaultResponses {
  import opened HttpApiModel
  import Sequences

  /** Not Found: the document addressed by the operation does not exist. */
  const NotFound: int := 404
  /** Unprocessable Content (section 15.5.21 of RFC 9110), offered for PUT and POST. */
  const UnprocessableContent: int := 422

  /** The user's default-response settings: one success code per verb and the standard codes. */
  datatype DefaultResponseCodes = DefaultResponseCodes(
    successGet: int,
    successPut: int,
    successPost: int,
    successDelete: int,
    successPatch: int,
    successTrace: int,
    successHead: int,
    successOptions: int,
    standardResponseCodes: seq<int>)

  /** What seeding produces: the codes left on the operation and the list handed to the save. */
  datatype ResponseDefaults = ResponseDefaults(
    retained: seq<ResponseStatusCode>,
    toSave: seq<ResponseStatusCode>)

  predicate IsAutoGenerated(code: ResponseStatusCode) {
    code.isAutoGenerated
  }

  /** 404 and 422 are placed by their own rules, never by the loop over the standard codes. */
  predicate IsTechnicalCode(code: int) {
    code == NotFound || code == UnprocessableContent
  }

  predicate IsPutOrPost(verb: Verb) {
    verb == Put || verb == Post
  }

  /** Removes the auto-generated codes; the user-authored ones stay, in order. */
  function ClearAutoGeneratedDefaults(codes: seq<ResponseStatusCode>): (r: seq<ResponseStatusCode>)
    ensures forall i :: 0 <= i < |r| ==> !r[i].isAutoGenerated
    ensures |r| <= |codes|
  {
    Sequences.RemoveWhere(codes, IsAutoGenerated)
  }

  /** Clearing keeps a code exactly when it was present and user-authored. */
  lemma ClearKeepsExactlyUserCodes(codes: seq<ResponseStatusCode>, c: ResponseStatusCode)
    ensures c in ClearAutoGeneratedDefaults(codes) <==> c in codes && !c.isAutoGenerated
    ensures multiset(ClearAutoGeneratedDefaults(codes))[c]
         == if c.isAutoGenerated then 0 else multiset(codes)[c]
  {
    Sequences.RemoveWhereMembers(codes, IsAutoGenerated, c);
    Sequences.RemoveWhereCounts(codes, IsAutoGenerated, c);
  }

  /** Clearing keeps the user-authored codes in their original relative order. */
  lemma ClearKeepsOrder(codes: seq<ResponseStatusCode>, k: nat)
    requires k < |codes| && !codes[k].isAutoGenerated
    ensures ClearAutoGeneratedDefaults(codes)
         == ClearAutoGeneratedDefaults(codes[..k]) + [codes[k]] + ClearAutoGeneratedDefaults(codes[k+1..])
  {
    Sequences.RemoveWhereSplit(codes, IsAutoGenerated, k);
  }

  /** A list without auto-generated codes is left as it is; in particular clearing twice is clearing once. */
  lemma ClearLeavesUserListAlone(codes: seq<ResponseStatusCode>)
    requires forall i :: 0 <= i < |codes| ==> !codes[i].isAutoGenerated
    ensures ClearAutoGeneratedDefaults(codes) == codes
  {
    Sequences.RemoveWhereKeepsAll(codes, IsAutoGenerated);
  }

  /** The success code configured for a verb; no code for a verb the switch does not name. */
  function SuccessCode(verb: Verb, settings: DefaultResponseCodes): (r: Option<int>)
    ensures r.Some? <==> verb != Other
  {
    match verb
    case Get => Some(settings.successGet)
    case Put => Some(settings.successPut)
    case Post => Some(settings.successPost)
    case Delete => Some(settings.successDelete)
    case Patch => Some(settings.successPatch)
    case Trace => Some(settings.successTrace)
    case Head => Some(settings.successHead)
    case Options => Some(settings.successOptions)
    case Other => None
  }

  /** The kinds met when following first-source links from the operation's first resource. */
  function FirstSourceChain(resources: seq<Resource>): seq<ResourceKind>
    decreases resources
  {
    if |resources| == 0 then []
    else [resources[0].kind] + FirstSourceChain(resources[0].sourceResource)
  }

  /**
   Walks first-source links from the operation's first resource and stops at
   the first document. True exactly when the chain holds a document.
   */
  function HasDocumentResourceInPath(resources: seq<Resource>): (r: bool)
    ensures r <==> ResourceInstance in FirstSourceChain(resources)
    ensures |resources| == 0 ==> !r
    decreases resources
  {
    if |resources| == 0 then false
    else if resources[0].kind == ResourceInstance then true
    else HasDocumentResourceInPath(resources[0].sourceResource)
  }

  /** A fresh auto-generated entry for one status code. */
  function ConvertResponseStatusCode(httpStatus: int): (r: ResponseStatusCode)
    ensures r.httpStatus == httpStatus && r.isAutoGenerated
  {
    ResponseStatusCode(httpStatus, true)
  }

  /** The codes contributed by the verb switch: the success code, then 422 for PUT and POST. */
  function VerbCodes(verb: Verb, settings: DefaultResponseCodes): (r: seq<int>)
    ensures |r| == VerbCodeCount(verb, settings.standardResponseCodes)
    ensures verb != Other ==> r[0] == SuccessCode(verb, settings).value
    ensures (IsPutOrPost(verb) && UnprocessableContent in settings.standardResponseCodes)
            <==> (|r| == 2 && r[1] == UnprocessableContent)
  {
    (match SuccessCode(verb, settings) case Some(c) => [c] case None => [])
    + (if IsPutOrPost(verb) && UnprocessableContent in settings.standardResponseCodes
       then [UnprocessableContent] else [])
  }

  /** The 404 entry, offered when a document is on the resource chain. */
  function NotFoundCodes(hasDocument: bool, standard: seq<int>): (r: seq<int>)
    ensures |r| <= 1
    ensures forall i :: 0 <= i < |r| ==> r[i] == NotFound
    ensures |r| == 1 <==> hasDocument && NotFound in standard
  {
    if hasDocument && NotFound in standard then [NotFound] else []
  }

  /** The standard codes other than 404 and 422, in configuration order. */
  function StandardCodes(standard: seq<int>): (r: seq<int>)
    ensures forall i :: 0 <= i < |r| ==> !IsTechnicalCode(r[i])
  {
    Sequences.RemoveWhere(standard, IsTechnicalCode)
  }

  /** The loop over the standard codes drops exactly the occurrences of 404 and 422. */
  lemma {:induction false} StandardCodesLength(standard: seq<int>)
    ensures |StandardCodes(standard)|
         == |standard| - multiset(standard)[NotFound] - multiset(standard)[UnprocessableContent]
    decreases standard
  {
    if |standard| > 0 {
      StandardCodesLength(standard[1..]);
      assert standard == [standard[0]] + standard[1..];
    }
  }

  /** Every non-technical standard code is offered by the loop. */
  lemma StandardCodesOffered(standard: seq<int>, c: int)
    ensures c in StandardCodes(standard) <==> c in standard && !IsTechnicalCode(c)
  {
    Sequences.RemoveWhereMembers(standard, IsTechnicalCode, c);
  }

  /** The status values of the list, in the order the designer builds it. */
  function DefaultCodes(verb: Verb, resourced: seq<Resource>, settings: DefaultResponseCodes): (r: seq<int>)
    ensures var std := settings.standardResponseCodes;
      |r| == VerbCodeCount(verb, std)
             + (if HasDocumentResourceInPath(resourced) && NotFound in std then 1 else 0)
             + |StandardCodes(std)|
  {
    VerbCodes(verb, settings)
    + NotFoundCodes(HasDocumentResourceInPath(resourced), settings.standardResponseCodes)
    + StandardCodes(settings.standardResponseCodes)
  }

  /** The number of entries the verb switch contributes. */
  function VerbCodeCount(verb: Verb, standard: seq<int>): nat
  {
    (if verb == Other then 0 else 1)
    + (if IsPutOrPost(verb) && UnprocessableContent in standard then 1 else 0)
  }

  /**
   The list of auto-generated status codes the designer builds for an
   operation and hands to the save.
   */
  function CreateDefaults(verb: Verb, resourced: seq<Resource>, settings: DefaultResponseCodes)
    : (r: seq<ResponseStatusCode>)
    ensures |r| == |DefaultCodes(verb, resourced, settings)|
    ensures forall i :: 0 <= i < |r| ==>
      r[i].isAutoGenerated && r[i].httpStatus == DefaultCodes(verb, resourced, settings)[i]
  {
    var codes := DefaultCodes(verb, resourced, settings);
    seq(|codes|, i requires 0 <= i < |codes| => ConvertResponseStatusCode(codes[i]))
  }

  /**
   The length of the list: one success code for a named verb, one 422 for
   PUT/POST when configured, one 404 when a document is on the chain and 404
   is configured, and every standard code except the occurrences of 404 and
   422. Nothing is de-duplicated.
   */
  lemma CreateDefaultsLength(verb: Verb, resourced: seq<Resource>, settings: DefaultResponseCodes)
    ensures var std := settings.standardResponseCodes;
      |CreateDefaults(verb, resourced, settings)|
      == VerbCodeCount(verb, std)
         + (if HasDocumentResourceInPath(resourced) && NotFound in std then 1 else 0)
         + |std| - multiset(std)[NotFound] - multiset(std)[UnprocessableContent]
  {
    StandardCodesLength(settings.standardResponseCodes);
  }

  /** Splits the built list at the end of the verb switch's entries. */
  lemma DefaultCodesLayout(verb: Verb, resourced: seq<Resource>, settings: DefaultResponseCodes)
    ensures var std := settings.standardResponseCodes;
      var codes := DefaultCodes(verb, resourced, settings);
      var n := VerbCodeCount(verb, std);
      && |VerbCodes(verb, settings)| == n
      && n <= |codes|
      && codes[..n] == VerbCodes(verb, settings)
      && codes[n..] == NotFoundCodes(HasDocumentResourceInPath(resourced), std) + StandardCodes(std)
  {
    var vc := VerbCodes(verb, settings);
    var nf := NotFoundCodes(HasDocumentResourceInPath(resourced), settings.standardResponseCodes);
    var sc := StandardCodes(settings.standardResponseCodes);
    assert DefaultCodes(verb, resourced, settings) == vc + (nf + sc);
  }

  /** After the verb switch's entries only 404 (from the document rule) or non-technical codes follow. */
  lemma TailHasNo422(hasDocument: bool, standard: seq<int>)
    ensures var tail := NotFoundCodes(hasDocument, standard) + StandardCodes(standard);
      forall i :: 0 <= i < |tail| ==> tail[i] != UnprocessableContent
  {
  }

  /** A configured success code opens the built list. */
  lemma DefaultCodesOpenWithSuccessCode(
    verb: Verb, resourced: seq<Resource>, settings: DefaultResponseCodes, success: int)
    requires SuccessCode(verb, settings) == Some(success)
    ensures var codes := DefaultCodes(verb, resourced, settings);
      |codes| > 0 && codes[0] == success
  {
    var vc := VerbCodes(verb, settings);
    assert vc[0] == success;
    var rest := NotFoundCodes(HasDocumentResourceInPath(resourced), settings.standardResponseCodes)
                + StandardCodes(settings.standardResponseCodes);
    assert DefaultCodes(verb, resourced, settings) == vc + rest;
  }

  /** For each named verb the list opens with that verb's configured success code. */
  lemma CreateDefaultsOpensWithSuccessCode(verb: Verb, resourced: seq<Resource>, settings: DefaultResponseCodes)
    ensures var r := CreateDefaults(verb, resourced, settings);
      && (verb == Get ==> |r| > 0 && r[0].httpStatus == settings.successGet)
      && (verb == Put ==> |r| > 0 && r[0].httpStatus == settings.successPut)
      && (verb == Post ==> |r| > 0 && r[0].httpStatus == settings.successPost)
      && (verb == Delete ==> |r| > 0 && r[0].httpStatus == settings.successDelete)
      && (verb == Patch ==> |r| > 0 && r[0].httpStatus == settings.successPatch)
      && (verb == Trace ==> |r| > 0 && r[0].httpStatus == settings.successTrace)
      && (verb == Head ==> |r| > 0 && r[0].httpStatus == settings.successHead)
      && (verb == Options ==> |r| > 0 && r[0].httpStatus == settings.successOptions)
  {
    if verb != Other {
      DefaultCodesOpenWithSuccessCode(verb, resourced, settings, SuccessCode(verb, settings).value);
    }
  }

  /**
   An operation subtype the verb switch does not name gets no success-code
   entry: every entry is one of the configured standard codes.
   */
  lemma CreateDefaultsOtherHasNoSuccessCode(resourced: seq<Resource>, settings: DefaultResponseCodes)
    ensures var r := CreateDefaults(Other, resourced, settings);
      forall i :: 0 <= i < |r| ==> r[i].httpStatus in settings.standardResponseCodes
  {
    var std := settings.standardResponseCodes;
    var codes := DefaultCodes(Other, resourced, settings);
    var nf := NotFoundCodes(HasDocumentResourceInPath(resourced), std);
    var sc := StandardCodes(std);
    assert codes == nf + sc;
    forall k | 0 <= k < |sc|
      ensures sc[k] in std
    {
      StandardCodesOffered(std, sc[k]);
    }
  }

  /**
   422 follows the success code directly exactly when the verb is PUT or
   POST and 422 is a configured standard code.
   */
  lemma CreateDefaultsUnprocessableSecond(verb: Verb, resourced: seq<Resource>, settings: DefaultResponseCodes)
    ensures var r := CreateDefaults(verb, resourced, settings);
      (IsPutOrPost(verb) && UnprocessableContent in settings.standardResponseCodes)
      <==> (|r| > 1 && r[1].httpStatus == UnprocessableContent)
  {
    var std := settings.standardResponseCodes;
    var r := CreateDefaults(verb, resourced, settings);
    var codes := DefaultCodes(verb, resourced, settings);
    var n := VerbCodeCount(verb, std);
    DefaultCodesLayout(verb, resourced, settings);
    if |r| > 1 {
      assert r[1].httpStatus == codes[1];
      if !(IsPutOrPost(verb) && UnprocessableContent in std) {
        TailHasNo422(HasDocumentResourceInPath(resourced), std);
        if n == 1 {
          assert codes[1] == codes[n..][0];
        } else {
          assert codes[1] == codes[n..][1];
        }
      }
    }
  }

  /**
   404 follows the verb switch's entries exactly when a document is on the
   resource chain and 404 is a configured standard code.
   */
  lemma CreateDefaultsNotFoundAfterVerb(verb: Verb, resourced: seq<Resource>, settings: DefaultResponseCodes)
    ensures var r := CreateDefaults(verb, resourced, settings);
      var n := VerbCodeCount(verb, settings.standardResponseCodes);
      (HasDocumentResourceInPath(resourced) && NotFound in settings.standardResponseCodes)
      <==> (|r| > n && r[n].httpStatus == NotFound)
  {
    var std := settings.standardResponseCodes;
    var r := CreateDefaults(verb, resourced, settings);
    var codes := DefaultCodes(verb, resourced, settings);
    var n := VerbCodeCount(verb, std);
    DefaultCodesLayout(verb, resourced, settings);
    if |r| > n {
      assert r[n].httpStatus == codes[n] == codes[n..][0];
    }
  }

  /** The built list ends with the standard-code loop's output. */
  lemma DefaultCodesEndWithStandardCodes(verb: Verb, resourced: seq<Resource>, settings: DefaultResponseCodes)
    ensures var std := settings.standardResponseCodes;
      var codes := DefaultCodes(verb, resourced, settings);
      var m := VerbCodeCount(verb, std)
               + (if HasDocumentResourceInPath(resourced) && NotFound in std then 1 else 0);
      m <= |codes| && codes[m..] == StandardCodes(std)
  {
    var std := settings.standardResponseCodes;
    var vc := VerbCodes(verb, settings);
    var nf := NotFoundCodes(HasDocumentResourceInPath(resourced), std);
    assert |vc| == VerbCodeCount(verb, std);
    assert DefaultCodes(verb, resourced, settings) == (vc + nf) + StandardCodes(std);
  }

  /**
   After the verb's entries and the optional 404, the list holds exactly the
   standard codes other than 404 and 422, in configuration order; neither
   404 nor 422 is among them.
   */
  lemma CreateDefaultsEndsWithStandardCodes(verb: Verb, resourced: seq<Resource>, settings: DefaultResponseCodes)
    ensures var std := settings.standardResponseCodes;
      var r := CreateDefaults(verb, resourced, settings);
      var m := VerbCodeCount(verb, std)
               + (if HasDocumentResourceInPath(resourced) && NotFound in std then 1 else 0);
      && m <= |r|
      && Statuses(r[m..]) == StandardCodes(std)
      && forall i :: m <= i < |r| ==> !IsTechnicalCode(r[i].httpStatus)
  {
    var std := settings.standardResponseCodes;
    var r := CreateDefaults(verb, resourced, settings);
    var codes := DefaultCodes(verb, resourced, settings);
    var sc := StandardCodes(std);
    var m := VerbCodeCount(verb, std)
             + (if HasDocumentResourceInPath(resourced) && NotFound in std then 1 else 0);
    DefaultCodesEndWithStandardCodes(verb, resourced, settings);
    StatusesOfSuffix(r, codes, m);
    forall i | m <= i < |r|
      ensures !IsTechnicalCode(r[i].httpStatus)
    {
      assert r[i].httpStatus == sc[i - m];
    }
  }

  /** The statuses of a suffix of entries are the matching suffix of their status values. */
  lemma StatusesOfSuffix(r: seq<ResponseStatusCode>, codes: seq<int>, m: nat)
    requires |r| == |codes| && m <= |r|
    requires forall i :: 0 <= i < |r| ==> r[i].httpStatus == codes[i]
    ensures Statuses(r[m..]) == codes[m..]
    ensures forall i :: m <= i < |r| ==> Statuses(r[m..])[i - m] == r[i].httpStatus
  {
    var st := Statuses(r[m..]);
    forall i | 0 <= i < |st|
      ensures st[i] == codes[m..][i]
    {
      assert r[m..][i] == r[m + i];
    }
  }

  /**
   The list is not de-duplicated: a success code that is also an ordinary
   standard code appears twice.
   */
  lemma CreateDefaultsKeepsDuplicateSuccessCode(
    verb: Verb, resourced: seq<Resource>, settings: DefaultResponseCodes, success: int)
    requires SuccessCode(verb, settings) == Some(success)
    requires success in settings.standardResponseCodes && !IsTechnicalCode(success)
    ensures var r := CreateDefaults(verb, resourced, settings);
      exists i, j :: 0 <= i < j < |r| && r[i].httpStatus == success && r[j].httpStatus == success
  {
    var codes := DefaultCodes(verb, resourced, settings);
    DefaultCodesOpenWithSuccessCode(verb, resourced, settings, success);
    DefaultCodesRepeatStandardSuccessCode(verb, resourced, settings, success);
    var j :| 0 < j < |codes| && codes[j] == success;
    var r := CreateDefaults(verb, resourced, settings);
    assert r[0].httpStatus == codes[0];
    assert r[j].httpStatus == codes[j];
  }

  /** A success code that is an ordinary standard code comes back from the standard-code loop. */
  lemma DefaultCodesRepeatStandardSuccessCode(
    verb: Verb, resourced: seq<Resource>, settings: DefaultResponseCodes, success: int)
    requires SuccessCode(verb, settings) == Some(success)
    requires success in settings.standardResponseCodes && !IsTechnicalCode(success)
    ensures var codes := DefaultCodes(verb, resourced, settings);
      exists j :: 0 < j < |codes| && codes[j] == success
  {
    var std := settings.standardResponseCodes;
    var codes := DefaultCodes(verb, resourced, settings);
    var m := VerbCodeCount(verb, std)
             + (if HasDocumentResourceInPath(resourced) && NotFound in std then 1 else 0);
    DefaultCodesEndWithStandardCodes(verb, resourced, settings);
    var sc := StandardCodes(std);
    StandardCodesOffered(std, success);
    var k :| 0 <= k < |sc| && sc[k] == success;
    assert codes[m + k] == codes[m..][k];
  }

  /**
   The whole seeding step for response status codes: the codes left on the
   operation once the auto-generated ones are cleared, and the list handed
   to the save. User-authored and generated codes never mix.
   */
  function WithDefaultResponses(api: HttpApi, settings: DefaultResponseCodes): (r: ResponseDefaults)
    ensures forall i :: 0 <= i < |r.retained| ==> !r.retained[i].isAutoGenerated
    ensures forall i :: 0 <= i < |r.toSave| ==> r.toSave[i].isAutoGenerated
    ensures forall c :: c in r.retained ==> c !in r.toSave
    ensures r.toSave == CreateDefaults(api.verb, api.resourced, settings)
    ensures |r.retained| <= |api.httpApiResponseStatusCodes|
  {
    ResponseDefaults(
      ClearAutoGeneratedDefaults(api.httpApiResponseStatusCodes),
      CreateDefaults(api.verb, api.resourced, settings))
  }

  /**
   Seeding again after the save yields the same result, wherever the save
   placed the generated codes, as one block, among the user-authored ones.
   */
  lemma ReseedingIsStable(
    api: HttpApi, settings: DefaultResponseCodes,
    before: seq<ResponseStatusCode>, after: seq<ResponseStatusCode>)
    requires before + after == WithDefaultResponses(api, settings).retained
    ensures var saved := api.(httpApiResponseStatusCodes :=
                                before + WithDefaultResponses(api, settings).toSave + after);
      WithDefaultResponses(saved, settings) == WithDefaultResponses(api, settings)
  {
    var first := WithDefaultResponses(api, settings);
    Sequences.RemoveWhereIgnoresDropped(before, first.toSave, after, IsAutoGenerated);
    ClearLeavesUserListAlone(first.retained);
  }

  /**
   What seeding keeps and what it hands to the save: a code is retained
   exactly when the operation carried it and it was user-authored, as often
   as it occurred, and the saved list has the length of the built defaults.
   */
  lemma WithDefaultResponsesContents(api: HttpApi, settings: DefaultResponseCodes, c: ResponseStatusCode)
    ensures var r := WithDefaultResponses(api, settings);
      && (c in r.retained <==> c in api.httpApiResponseStatusCodes && !c.isAutoGenerated)
      && multiset(r.retained)[c]
         == (if c.isAutoGenerated then 0 else multiset(api.httpApiResponseStatusCodes)[c])
    ensures var std := settings.standardResponseCodes;
      |WithDefaultResponses(api, settings).toSave|
      == VerbCodeCount(api.verb, std)
         + (if HasDocumentResourceInPath(api.resourced) && NotFound in std then 1 else 0)
         + |std| - multiset(std)[NotFound] - multiset(std)[UnprocessableContent]
  {
    ClearKeepsExactlyUserCodes(api.httpApiResponseStatusCodes, c);
    CreateDefaultsLength(api.verb, api.resourced, settings);
  }
}
