# Request logging filter of the gateway, modelled in Dafny

The gateway's `LogRequestGlobalFilter` has the highest precedence
(`Ordered.HIGHEST_PRECEDENCE`): no filter is ordered before it.
For each request it does three things:

- It picks a path from the request's `Content-Type`:
  - a JSON-compatible body is decoded as an object;
  - a form-urlencoded body is decoded as a string;
  - any other body is not read at all.
- It writes at most one log record: an SLF4J template built line by line
  in a `StringBuilder`, plus a parallel argument list.
- When a body has been captured, it forwards a request decorator. The
  decorator's headers say how the replayed body is framed: either
  `Content-Length` or `Transfer-Encoding: chunked`.

The model has three modules:

- `Headers` (`headers.dfy`): the parts of Spring's `HttpHeaders` the filter uses.
  - An insertion-ordered map from header name to value list, with distinct
    names (`HeaderMap`).
  - Its `put`/`set` (`Upsert`), `remove` (`Without`) and `putAll`
    (`PutAllEntries`).
  - `getContentLength`, which reads the first `Content-Length` value with
    `Long.parseLong` and returns -1 when there is none. `ParseLong` and
    `LongToString` model parsing and formatting on Java's 64-bit range.
  - The class `HttpHeaders`, whose methods update its `entries` field in place.
- `RequestLog` (`request_log.dfy`): `recordLog`.
  - The method `BuildLog` appends the lines and the arguments in the order
    the source does. The two `for` loops over
    `entrySet()` both go through `AppendEntries`.
  - One function states what the lines and arguments are (`LogLines`,
    `LogArgs`). Another renders the lines into the template string
    (`Render`).
  - The lemmas prove the template's shape. The main one is that the
    template has exactly as many `{}` anchors as there are arguments.
- `LogRequestGlobalFilter` (`log_request_filter.dfy`):
  - the content-type dispatch of `filter`;
  - `getOrder`;
  - the header copy made in `getVoidMono`;
  - the decorator's `getHeaders`. Its class `RequestDecorator` builds a new
    `HttpHeaders` object on every call.

Behaviour that lives in libraries not shown here is taken as a parameter:

- the two media-type compatibility tests, as functions `M -> bool` over an
  abstract media type;
- `StringUtils.join`, as `join: seq<string> -> string`;
- what the message readers decode from the body, as `jsonBody` and `formBody`;
- the decoded JSON object, as the abstract type `JsonValue`.

Where the code does something a reader might not expect, the model
follows the code:

- **Forwarded headers are copied from the original request.** The decorator
  copies `super.getHeaders()` (`LogRequestGlobalFilter.java:93`). It does not
  copy the header set from which `Content-Length` was removed at line 82.
  - In the chunked branch, a `Content-Length` the original request carried
    is therefore forwarded beside `Transfer-Encoding: chunked`
    (`UntouchedCopyIsChunked`).
  - In the length branch, a `Transfer-Encoding` the original request carried
    is forwarded unchanged (`LengthBranch`).
  - The copy whose `Content-Length` was removed is only the source of the
    length, through `getContentLength` at line 91.
- **The joining separator is not fixed.** Header values are joined by
  `StringUtils.join` called on a single `List`. No comma separator is
  visible in the code, so none is assumed.
- **A request is logged at most once, not exactly once.** On the JSON and
  form paths, `recordLog` runs inside the `flatMap` over the decoded body
  (`LogRequestGlobalFilter.java:43-46`, `:54-57`). A body that decodes to
  nothing, or fails to decode, is never logged (`Filter`: the log is empty
  exactly when the reader produced no body).
- **The one error path the model carries is number parsing.** The code has
  no size limit or stream-abort paths of its own. The model carries the
  `NumberFormatException` that `getContentLength` can throw on a malformed
  `Content-Length`, as a `Failure`. Two other error paths are listed under
  "## Left out":
  - a `Content-Type` that cannot be parsed (`InvalidMediaTypeException`,
    line 37);
  - a failed decode, which ends the filter's `Mono` with an error, so that
    nothing is logged or forwarded.

## Model

| member | source | states |
|---|---|---|
| Headers.Upsert | mate-gateway/src/main/java/vip/mate/gateway/filter/LogRequestGlobalFilter.java:95-98 | `put`/`set`: afterwards the name maps to the new values and every other name keeps its values; a name already present keeps its place, a new one is appended |
| Headers.Without | mate-gateway/src/main/java/vip/mate/gateway/filter/LogRequestGlobalFilter.java:82 | `remove`: the name is gone, every other name keeps its values, the map shrinks by one exactly when the name was present, and the remaining entries keep their order |
| Headers.PutAllFresh | mate-gateway/src/main/java/vip/mate/gateway/filter/LogRequestGlobalFilter.java:79 | `putAll` of entries whose names are all new appends them in their iteration order |
| Headers.CopyIsIdentity | mate-gateway/src/main/java/vip/mate/gateway/filter/LogRequestGlobalFilter.java:92-93 | `new HttpHeaders()` followed by `putAll(src)` is exactly `src`, in order |
| Headers.Decimal | mate-gateway/src/main/java/vip/mate/gateway/filter/LogRequestGlobalFilter.java:95 | the numeral that `Long.toString` writes: ASCII digits only, denoting the number, with no leading zero (a numeral of two or more digits never starts with `0`, so 0 is written `"0"`) |
| Headers.ParseLong | mate-gateway/src/main/java/vip/mate/gateway/filter/LogRequestGlobalFilter.java:91 | `Long.parseLong`: it succeeds exactly on an optionally signed string of ASCII digits whose value lies in the 64-bit range, and then returns that value; otherwise it fails with a `NumberFormatException` carrying the input |
| Headers.ParseFormatRoundTrip | mate-gateway/src/main/java/vip/mate/gateway/filter/LogRequestGlobalFilter.java:91-95 | parsing what `Long.toString` wrote gives back every 64-bit number |
| Headers.MalformedNumeralsFail | mate-gateway/src/main/java/vip/mate/gateway/filter/LogRequestGlobalFilter.java:91 | `""`, `"+"`, `"-"`, `"12a"`, `"1 2"` and `"--1"` are refused, and `"+7"` reads as 7 |
| Headers.OutOfRangeFails | mate-gateway/src/main/java/vip/mate/gateway/filter/LogRequestGlobalFilter.java:91 | the numeral of any number outside the 64-bit range is refused |
| Headers.ContentLength | mate-gateway/src/main/java/vip/mate/gateway/filter/LogRequestGlobalFilter.java:91 | `getContentLength`: -1 when there is no `Content-Length` or its value list is empty, otherwise the parse of its first value (which may fail) |
| Headers.SetContentLengthReadsBack | mate-gateway/src/main/java/vip/mate/gateway/filter/LogRequestGlobalFilter.java:95 | after `setContentLength(n)`, `getContentLength` returns n |
| Headers.HttpHeaders.PutAll | mate-gateway/src/main/java/vip/mate/gateway/filter/LogRequestGlobalFilter.java:79 | the loop that puts each source entry in turn leaves the map equal to `PutAllEntries` of the old map and the source |
| Headers.HttpHeaders.Remove | mate-gateway/src/main/java/vip/mate/gateway/filter/LogRequestGlobalFilter.java:82 | the new entries are the old ones without the name |
| Headers.HttpHeaders.Set | mate-gateway/src/main/java/vip/mate/gateway/filter/LogRequestGlobalFilter.java:98 | the name's list becomes the single value; nothing else changes |
| Headers.HttpHeaders.SetContentLength | mate-gateway/src/main/java/vip/mate/gateway/filter/LogRequestGlobalFilter.java:95 | `Content-Length` becomes the single decimal numeral of the length |
| RequestLog.GetBranchCondition | mate-gateway/src/main/java/vip/mate/gateway/filter/LogRequestGlobalFilter.java:141-154 | a query line and a Body line are logged exactly when the method is not a resolved GET (a method Spring does not know, null, included); per-parameter lines are logged only for a resolved GET |
| RequestLog.LogLinesLayout | mate-gateway/src/main/java/vip/mate/gateway/filter/LogRequestGlobalFilter.java:122-156 | the lines are: the start banner, the route line, one Headers line per header, then for GET one Params line per query parameter and otherwise one query line and one Body line, and the end banner last |
| RequestLog.LogArgsLayout | mate-gateway/src/main/java/vip/mate/gateway/filter/LogRequestGlobalFilter.java:126-153 | the arguments are: the method value, the raw path, each header's name and joined values in iteration order, then for GET each query parameter's name and joined values, and otherwise the query (null when absent) and the body |
| RequestLog.EntryArgs | mate-gateway/src/main/java/vip/mate/gateway/filter/LogRequestGlobalFilter.java:134-138 | each entry gives two arguments, its name at position 2i and its joined values at 2i+1 |
| RequestLog.TextAnchors | mate-gateway/src/main/java/vip/mate/gateway/filter/LogRequestGlobalFilter.java:122-156 | every literal the builder appends ends in a newline; the banners carry no `{}`, the route, Headers and Params lines two, and the query and Body lines one |
| RequestLog.LineCounts | mate-gateway/src/main/java/vip/mate/gateway/filter/LogRequestGlobalFilter.java:134-154 | one Headers line per header; for GET one Params line per query parameter and no Body or query line; otherwise exactly one query line, one Body line and no per-parameter line; one start and one end banner |
| RequestLog.TemplateFramed | mate-gateway/src/main/java/vip/mate/gateway/filter/LogRequestGlobalFilter.java:122-156 | the template string starts with the start banner and ends with the end banner |
| RequestLog.PlaceholdersMatchArgs | mate-gateway/src/main/java/vip/mate/gateway/filter/LogRequestGlobalFilter.java:119-158 | the number of `{}` anchors in the template equals the number of arguments handed to `log.info` |
| RequestLog.AppendEntries | mate-gateway/src/main/java/vip/mate/gateway/filter/LogRequestGlobalFilter.java:134-138 | a `for` loop over `entrySet()` adds one line of the given kind per entry and the entries' arguments, in entry order, after what was there |
| RequestLog.BuildLog | mate-gateway/src/main/java/vip/mate/gateway/filter/LogRequestGlobalFilter.java:119-156 | the lines and arguments built step by step are exactly `LogLines` and `LogArgs` of the request |
| RequestLog.RecordLog | mate-gateway/src/main/java/vip/mate/gateway/filter/LogRequestGlobalFilter.java:117-159 | the template is the rendering of `LogLines`, the arguments are `LogArgs`, and the template's anchors match the arguments in number |
| LogRequestGlobalFilter.Filter | mate-gateway/src/main/java/vip/mate/gateway/filter/LogRequestGlobalFilter.java:35-66 | the JSON test comes first and forwards a decorator over the object body; the form test is second and forwards one over the string body; the original request is forwarded exactly when neither holds, and then the log gets the body `""`; recordLog runs at most once |
| LogRequestGlobalFilter.JsonBeforeForm | mate-gateway/src/main/java/vip/mate/gateway/filter/LogRequestGlobalFilter.java:41-51 | for a JSON-compatible type the outcome does not depend on the form test or on the form reading |
| LogRequestGlobalFilter.PassThroughReadsNoBody | mate-gateway/src/main/java/vip/mate/gateway/filter/LogRequestGlobalFilter.java:63-65 | for a type neither test accepts, the outcome is the empty-body log and the original request, whatever the body would decode to |
| LogRequestGlobalFilter.NoMediaTypePassesThrough | mate-gateway/src/main/java/vip/mate/gateway/filter/LogRequestGlobalFilter.java:37-65 | a request without `Content-Type` takes the pass-through path |
| LogRequestGlobalFilter.GetOrder | mate-gateway/src/main/java/vip/mate/gateway/filter/LogRequestGlobalFilter.java:72-74 | no 32-bit order value sorts before the filter's order, `Ordered.HIGHEST_PRECEDENCE` |
| LogRequestGlobalFilter.CachedBodyHeaders | mate-gateway/src/main/java/vip/mate/gateway/filter/LogRequestGlobalFilter.java:78-82 | the copy has no `Content-Length`, every other header of the request with the same values, one entry fewer exactly when the request had a `Content-Length`, and the request's order |
| LogRequestGlobalFilter.CopyForCachedBody | mate-gateway/src/main/java/vip/mate/gateway/filter/LogRequestGlobalFilter.java:78-82 | `new HttpHeaders()`, `putAll` and `remove` give a fresh object holding `CachedBodyHeaders` of the request's headers |
| LogRequestGlobalFilter.ForwardedHeaders | mate-gateway/src/main/java/vip/mate/gateway/filter/LogRequestGlobalFilter.java:90-101 | a malformed length fails with its `NumberFormatException`; a positive length gives the original headers with `Content-Length` put to its numeral, and otherwise the original headers with `Transfer-Encoding` put to exactly `chunked` (`Upsert`, so each header keeps its place, a new one goes last, and every other header keeps its values, `Content-Length` included in the chunked case) |
| LogRequestGlobalFilter.LengthBranch | mate-gateway/src/main/java/vip/mate/gateway/filter/LogRequestGlobalFilter.java:91-95 | in the length branch the forwarded headers report the same content length, and `Transfer-Encoding` is the original's |
| LogRequestGlobalFilter.UntouchedCopyIsChunked | mate-gateway/src/main/java/vip/mate/gateway/filter/LogRequestGlobalFilter.java:82-99 | the copy made at line 82 reports -1, so unless the body inserter sets a length the decorator adds `Transfer-Encoding: chunked` to the original headers and keeps their `Content-Length` |
| LogRequestGlobalFilter.RequestDecorator.GetHeaders | mate-gateway/src/main/java/vip/mate/gateway/filter/LogRequestGlobalFilter.java:90-101 | each call returns a newly allocated header object holding `ForwardedHeaders` of the cached body's headers and the original request's headers, or the parse failure |

## Left out

- Reactor plumbing. This covers `Mono`/`Flux` composition, `bodyToMono`,
  `BodyInserters.fromPublisher`, `CachedBodyOutputMessage`,
  `exchange.mutate()` and the decorator's `getBody` replay.
  - They are asynchronous stream code in libraries not shown.
  - The model does not say that the replayed body is byte-identical to the
    original.
  - It does not say whether the body inserter writes a `Content-Length` into
    the cached headers. `RequestDecorator` reads those headers at call time,
    whatever the inserter left there.
- The decoding done by Spring's message readers, and what happens when it
  fails (the filter's `Mono` ends with that error and nothing is forwarded).
  The decoded body is a parameter, and `JsonValue` is opaque.
- `MediaType.isCompatibleWith` (wildcards, `+json` suffixes, parameters):
  uninterpreted predicates. A `Content-Type` that cannot be parsed
  (`InvalidMediaTypeException`) is not modelled.
- `StringUtils.join`, log output and SLF4J substitution:
  - `StringUtils.join` is an opaque function. No separator is assumed.
  - For `log.info`, only the template and argument pair handed over is
    modelled, not the rendered message or its output.
- How Spring derives `getMethod()` from `getMethodValue()`. The two are
  separate fields of `Request`, because `HttpMethod.resolve` is not shown.
- Headers.Upsert, Headers.Without, Headers.ContentLength,
  LogRequestGlobalFilter.CachedBodyHeaders, LogRequestGlobalFilter.ForwardedHeaders:
  header names are compared exactly, but `HttpHeaders` matches them
  case-insensitively. In the model, a `content-length` in another spelling
  therefore survives the copy at line 82 and is not read by
  `getContentLength`. In the length branch it is forwarded beside the new
  `Content-Length`.
- Headers.ParseLong: accepts ASCII digits only. `Long.parseLong` also
  accepts other Unicode decimal digits.
- Headers.HttpHeaders.PutAll: value lists are copied as values. Java's
  `putAll` shares the list objects between the two maps.
- RequestLog.BuildLog: the `StringBuilder` is held as the sequence of lines
  appended to it, and `RequestLog.RecordLog` renders them once at the end
  (`toString`). Appending the literal strings one by one is not modelled
  step by step.
- `SysUserProvider`: two one-line lookups that delegate to a data-access
  service not shown. It has no logic of its own.
