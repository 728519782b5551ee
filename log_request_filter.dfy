/** The request-logging global filter of the gateway: the content-type
    dispatch of `filter`, its place in the filter chain (`getOrder`), the
    header copy handed to the cached body and the framing headers of the
    request decorator that forwards a captured body. */
module LogRequestGlobalFilter {
  import opened Headers
  import opened RequestLog

  /** The class the body is decoded to: Object.class on the JSON path,
      String.class on the form path. */
  datatype BodyClass = ObjectClass | StringClass

  /** The request handed down the chain: the exchange's own request, or a
      decorator replaying the body decoded as the given class. */
  datatype Forwarded = Original | Decorated(bodyClass: BodyClass)

  /** What one pass through `filter` does: the bodies recordLog is called
      with, in order, and the request that goes down the chain. */
  datatype Outcome = Outcome(logged: seq<Body>, forwarded: Forwarded)

  /** `MediaType.X.isCompatibleWith(mediaType)`: a missing Content-Type
      (null) is compatible with nothing. */
  predicate Compatible<M>(mediaType: Option<M>, compatible: M -> bool) {
    mediaType.Some? && compatible(mediaType.value)
  }

  /** The bodies logged on a decoding path: the body when the reader
      produced one, nothing when its Mono completed empty. */
  function LoggedOnPath(decoded: Option<Body>): seq<Body> {
    match decoded
    case None => []
    case Some(b) => [b]
  }

  /** filter(exchange, chain). `jsonBody` and `formBody` are what Spring's
      message readers make of the body as Object.class and String.class
      (None for an empty body); the compatibility tests are
      `MediaType.APPLICATION_JSON.isCompatibleWith` and
      `MediaType.APPLICATION_FORM_URLENCODED.isCompatibleWith`. */
  function Filter<M>(mediaType: Option<M>, jsonCompatible: M -> bool, formCompatible: M -> bool,
                     jsonBody: Option<JsonValue>, formBody: Option<string>): (o: Outcome)
    ensures Compatible(mediaType, jsonCompatible) ==>
      && o.forwarded == Decorated(ObjectClass)
      && (o.logged == [] <==> jsonBody.None?)
      && (jsonBody.Some? ==> o.logged == [Json(jsonBody.value)])
    ensures !Compatible(mediaType, jsonCompatible) && Compatible(mediaType, formCompatible) ==>
      && o.forwarded == Decorated(StringClass)
      && (o.logged == [] <==> formBody.None?)
      && (formBody.Some? ==> o.logged == [Text(formBody.value)])
    ensures o.forwarded == Original <==>
      !Compatible(mediaType, jsonCompatible) && !Compatible(mediaType, formCompatible)
    ensures o.forwarded == Original ==> o.logged == [Text("")]
    ensures |o.logged| <= 1
  {
    if Compatible(mediaType, jsonCompatible) then
      Outcome(LoggedOnPath(if jsonBody.Some? then Some(Json(jsonBody.value)) else None), Decorated(ObjectClass))
    else if Compatible(mediaType, formCompatible) then
      Outcome(LoggedOnPath(if formBody.Some? then Some(Text(formBody.value)) else None), Decorated(StringClass))
    else
      Outcome([Text("")], Original)
  }

  /** The JSON test comes first: a media type that is also compatible with
      forms takes the JSON path, whatever the form test says. */
  lemma JsonBeforeForm<M>(mediaType: Option<M>, jsonCompatible: M -> bool,
                          formCompatible: M -> bool, otherForm: M -> bool,
                          jsonBody: Option<JsonValue>, formBody: Option<string>, otherBody: Option<string>)
    requires Compatible(mediaType, jsonCompatible)
    ensures Filter(mediaType, jsonCompatible, formCompatible, jsonBody, formBody)
         == Filter(mediaType, jsonCompatible, otherForm, jsonBody, otherBody)
  {
  }

  /** A request of no supported type is logged once with the empty body
      and forwarded unchanged, and its body is never read: the outcome is
      the same whatever the readers would have made of it. */
  lemma PassThroughReadsNoBody<M>(mediaType: Option<M>, jsonCompatible: M -> bool,
                                  formCompatible: M -> bool,
                                  jsonBody: Option<JsonValue>, formBody: Option<string>,
                                  otherJson: Option<JsonValue>, otherForm: Option<string>)
    requires !Compatible(mediaType, jsonCompatible) && !Compatible(mediaType, formCompatible)
    ensures Filter(mediaType, jsonCompatible, formCompatible, jsonBody, formBody)
         == Filter(mediaType, jsonCompatible, formCompatible, otherJson, otherForm)
         == Outcome([Text("")], Original)
  {
  }

  /** A request without a Content-Type header takes the pass-through path. */
  lemma NoMediaTypePassesThrough<M>(jsonCompatible: M -> bool, formCompatible: M -> bool,
                                    jsonBody: Option<JsonValue>, formBody: Option<string>)
    ensures Filter(None, jsonCompatible, formCompatible, jsonBody, formBody) == Outcome([Text("")], Original)
  {
  }

  /** Java's 32-bit `int`, the type of a filter's order. */
  newtype int32 = x: int | -0x8000_0000 <= x < 0x8000_0000

  /** `Ordered.HIGHEST_PRECEDENCE`, which is `Integer.MIN_VALUE`. */
  const HIGHEST_PRECEDENCE: int32 := -0x8000_0000

  /** Filters run in ascending order of their order value. */
  predicate RunsNoLaterThan(a: int32, b: int32) {
    a <= b
  }

  /** getOrder(): no order value a filter can return puts it ahead of this one. */
  function GetOrder(): (r: int32)
    ensures forall o: int32 :: RunsNoLaterThan(r, o)
  {
    HIGHEST_PRECEDENCE
  }

  /** The headers given to the cached body message: a copy of the request
      headers without Content-Length. */
  function CachedBodyHeaders(request: HeaderMap): (copy: HeaderMap)
    ensures Lookup(copy, CONTENT_LENGTH) == None
    ensures forall n :: n != CONTENT_LENGTH ==> Lookup(copy, n) == Lookup(request, n)
    ensures |copy| == if Lookup(request, CONTENT_LENGTH).Some? then |request| - 1 else |request|
    ensures Subsequence(copy, request)
  {
    CopyIsIdentity(request);
    Without(PutAllEntries([], request), CONTENT_LENGTH)
  }

  /** getVoidMono, lines 78-82: `new HttpHeaders()`, `putAll` of the
      request's headers and `remove(CONTENT_LENGTH)`. */
  method CopyForCachedBody(request: HttpHeaders) returns (headers: HttpHeaders)
    ensures fresh(headers)
    ensures headers.entries == CachedBodyHeaders(request.entries)
  {
    headers := new HttpHeaders();
    headers.PutAll(request.entries);
    headers.Remove(CONTENT_LENGTH);
  }

  /** The decorator's getHeaders(): the content length held by the cached
      body's headers is read (a NumberFormatException when it does not
      parse); the original request's headers are copied, and then either
      Content-Length is set to that length, when it is positive, or
      Transfer-Encoding is set to chunked. */
  function ForwardedHeaders(cached: HeaderMap, original: HeaderMap): (r: Result<HeaderMap, NumberFormatException>)
    ensures ContentLength(cached).Failure? <==> r.Failure?
    ensures r.Failure? ==> r.error == ContentLength(cached).error
    ensures ContentLength(cached).Success? && ContentLength(cached).value > 0 ==>
      r == Success(Upsert(original, CONTENT_LENGTH, [LongToString(ContentLength(cached).value)]))
    ensures ContentLength(cached).Success? && ContentLength(cached).value <= 0 ==>
      r == Success(Upsert(original, TRANSFER_ENCODING, ["chunked"]))
    ensures ContentLength(cached).Success? && ContentLength(cached).value > 0 ==>
      && Lookup(r.value, CONTENT_LENGTH) == Some([LongToString(ContentLength(cached).value)])
      && forall n :: n != CONTENT_LENGTH ==> Lookup(r.value, n) == Lookup(original, n)
    ensures ContentLength(cached).Success? && ContentLength(cached).value <= 0 ==>
      && Lookup(r.value, TRANSFER_ENCODING) == Some(["chunked"])
      && forall n :: n != TRANSFER_ENCODING ==> Lookup(r.value, n) == Lookup(original, n)
  {
    CopyIsIdentity(original);
    match ContentLength(cached)
    case Failure(e) => Failure(e)
    case Success(len) =>
      var copy := PutAllEntries([], original);
      if len > 0 then Success(Upsert(copy, CONTENT_LENGTH, [LongToString(len)]))
      else Success(Upsert(copy, TRANSFER_ENCODING, ["chunked"]))
  }

  /** Length branch: the forwarded headers report the length the cached
      body's headers hold, and Transfer-Encoding is left as it came. */
  lemma LengthBranch(cached: HeaderMap, original: HeaderMap)
    requires ContentLength(cached).Success? && ContentLength(cached).value > 0
    ensures var r := ForwardedHeaders(cached, original);
      && r.Success?
      && ContentLength(r.value) == ContentLength(cached)
      && Lookup(r.value, TRANSFER_ENCODING) == Lookup(original, TRANSFER_ENCODING)
  {
    CopyIsIdentity(original);
    SetContentLengthReadsBack(original, ContentLength(cached).value);
  }

  /** The cached copy has no Content-Length, so as long as the body
      inserter sets none the decorator takes the chunked branch, and any
      Content-Length of the original request is forwarded beside it. */
  lemma UntouchedCopyIsChunked(original: HeaderMap)
    ensures var r := ForwardedHeaders(CachedBodyHeaders(original), original);
      && ContentLength(CachedBodyHeaders(original)) == Success(-1)
      && r == Success(Upsert(original, TRANSFER_ENCODING, ["chunked"]))
      && Lookup(r.value, CONTENT_LENGTH) == Lookup(original, CONTENT_LENGTH)
  {
    CopyIsIdentity(original);
  }

  /** The request handed down the chain when a body was captured. It
      answers getHeaders() from the original request's headers
      (super.getHeaders()) and the headers of the cached body message,
      which it shares with the body inserter. */
  class RequestDecorator {
    const original: HttpHeaders
    const cached: HttpHeaders

    constructor (original: HttpHeaders, cached: HttpHeaders)
      ensures this.original == original && this.cached == cached
    {
      this.original := original;
      this.cached := cached;
    }

    /** getHeaders(), lines 90-101: each call builds a new HttpHeaders
        object and changes neither the original headers nor the cached
        ones. */
    method GetHeaders() returns (r: Result<HttpHeaders, NumberFormatException>)
      ensures ForwardedHeaders(cached.entries, original.entries).Failure? <==> r.Failure?
      ensures r.Failure? ==> r.error == ForwardedHeaders(cached.entries, original.entries).error
      ensures r.Success? ==>
        fresh(r.value) && r.value.entries == ForwardedHeaders(cached.entries, original.entries).value
    {
      var contentLength := cached.GetContentLength();
      match contentLength
      case Failure(e) =>
        r := Failure(e);
      case Success(len) =>
        var httpHeaders := new HttpHeaders();
        httpHeaders.PutAll(original.entries);
        CopyIsIdentity(original.entries);
        if len > 0 {
          httpHeaders.SetContentLength(len);
        } else {
          httpHeaders.Set(TRANSFER_ENCODING, "chunked");
        }
        r := Success(httpHeaders);
    }
  }
}
