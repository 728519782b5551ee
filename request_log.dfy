/** recordLog: the log template the filter builds line by line and the
    argument list that runs beside it, handed together to the log sink. */
module RequestLog {
  import opened Headers

  /** A request body decoded as a JSON object; the filter never looks inside. */
  type JsonValue(==)

  /** What the filter passes to recordLog as the body: the decoded JSON
      object, or a string (the form body, or "" when nothing was read). */
  datatype Body = Json(value: JsonValue) | Text(text: string)

  /** An element of the log argument list: a string, Java's null (the
      query of a URI without one) or the decoded JSON object. */
  datatype Arg = Str(s: string) | Nil | Object(value: JsonValue)

  datatype HttpMethod = GET | HEAD | POST | PUT | PATCH | DELETE | OPTIONS | TRACE

  /** The parts of the incoming request that recordLog reads: the method
      as sent (getMethodValue), the method Spring resolved from it
      (getMethod, null for a name it does not know), the raw path and the
      decoded query of the URI (getQuery, null when there is none), the headers and the decoded query parameters. */
  datatype Request = Request(
    methodValue: string,
    httpMethod: Option<HttpMethod>,
    rawPath: string,
    query: Option<string>,
    headers: HeaderMap,
    queryParams: HeaderMap)

  /** `null != method && HttpMethod.GET.matches(method.name())` */
  predicate IsGet(request: Request) {
    request.httpMethod.Some? && request.httpMethod.value == GET
  }

  /** Which branch line 141 takes, seen in what is logged: a query line and
      a Body line appear exactly when the method is not a resolved GET (an
      unknown method name, null, among them), and per-parameter lines only
      for a resolved GET. */
  lemma GetBranchCondition(request: Request)
    ensures (Query in LogLines(request)) <==> request.httpMethod != Some(GET)
    ensures (BodyLine in LogLines(request)) <==> request.httpMethod != Some(GET)
    ensures (Param in LogLines(request)) ==> request.httpMethod == Some(GET)
  {
    LineCounts(request);
  }

  const BAR: string := "================"
  const TWO_SLOTS: string := "{}: {}\n"
  const ONE_SLOT: string := "{}\n"
  const START_TITLE: string := " Gateway Request Start  "
  const END_TITLE: string := "  Gateway Request End  "
  const ROUTE_LABEL: string := "===> "
  const HEADER_LABEL: string := "===Headers===  "
  const PARAM_LABEL: string := "===Params===  "
  const QUERY_LABEL: string := "===Params=== "
  const BODY_LABEL: string := "===Body=== "

  const START_LINE: string := "\n\n" + BAR + START_TITLE + BAR + "\n"
  const ROUTE_LINE: string := ROUTE_LABEL + TWO_SLOTS
  const HEADER_LINE: string := HEADER_LABEL + TWO_SLOTS
  const PARAM_LINE: string := PARAM_LABEL + TWO_SLOTS
  const QUERY_LINE: string := QUERY_LABEL + ONE_SLOT
  const BODY_LINE: string := BODY_LABEL + ONE_SLOT
  const END_LINE: string := BAR + END_TITLE + BAR + "=\n"

  /** The kinds of line recordLog appends, in the order it may append them. */
  datatype Line = Start | Route | Header | Param | Query | BodyLine | End

  /** The literal appended for each kind of line. */
  function LineText(line: Line): string {
    match line
    case Start => START_LINE
    case Route => ROUTE_LINE
    case Header => HEADER_LINE
    case Param => PARAM_LINE
    case Query => QUERY_LINE
    case BodyLine => BODY_LINE
    case End => END_LINE
  }

  /** How many `{}` anchors each kind of line carries. */
  function Slots(line: Line): nat {
    match line
    case Start => 0
    case End => 0
    case Query => 1
    case BodyLine => 1
    case _ => 2
  }

  function Repeat(line: Line, n: nat): (r: seq<Line>)
    ensures |r| == n && forall i :: 0 <= i < n ==> r[i] == line
  {
    seq(n, _ => line)
  }

  /** The lines appended to the builder, in order. */
  function LogLines(request: Request): seq<Line> {
    [Start, Route] + Repeat(Header, |request.headers|)
    + (if IsGet(request) then Repeat(Param, |request.queryParams|) else [Query, BodyLine])
    + [End]
  }

  /** The start line, the route line, one Headers line per header, then for
      GET one Params line per query parameter and otherwise the query
      line and the body line, and the end line last. */
  lemma LogLinesLayout(request: Request)
    ensures var lines := LogLines(request);
      && |lines| == 3 + |request.headers| + (if IsGet(request) then |request.queryParams| else 2)
      && lines[0] == Start && lines[1] == Route && lines[|lines| - 1] == End
      && (forall i :: 2 <= i < 2 + |request.headers| ==> lines[i] == Header)
      && (IsGet(request) ==>
            forall j :: 2 + |request.headers| <= j < |lines| - 1 ==> lines[j] == Param)
      && (!IsGet(request) ==>
            lines[2 + |request.headers|] == Query && lines[3 + |request.headers|] == BodyLine)
  {
  }

  /** Two arguments per entry, name first and then its joined values. */
  function EntryArgs(e: seq<Entry>, join: seq<string> -> string): (args: seq<Arg>)
    ensures |args| == 2 * |e|
    ensures forall i :: 0 <= i < |e| ==> args[2 * i] == Str(e[i].0) && args[2 * i + 1] == Str(join(e[i].1))
  {
    if e == [] then []
    else
      var last := |e| - 1;
      EntryArgs(e[..last], join) + [Str(e[last].0), Str(join(e[last].1))]
  }

  function QueryArg(query: Option<string>): Arg {
    match query
    case None => Nil
    case Some(q) => Str(q)
  }

  function BodyArg(body: Body): Arg {
    match body
    case Json(v) => Object(v)
    case Text(s) => Str(s)
  }

  /** The argument list handed to the log sink beside the template. */
  function LogArgs(request: Request, body: Body, join: seq<string> -> string): seq<Arg> {
    [Str(request.methodValue), Str(request.rawPath)] + EntryArgs(request.headers, join)
    + (if IsGet(request) then EntryArgs(request.queryParams, join)
       else [QueryArg(request.query), BodyArg(body)])
  }

  /** The method and the path, then each header's name and joined values,
      then for GET each query parameter's name and joined values and
      otherwise the query (null when the URI has none) and the body. */
  lemma LogArgsLayout(request: Request, body: Body, join: seq<string> -> string)
    ensures var args := LogArgs(request, body, join);
      && |args| == 2 + 2 * |request.headers| + (if IsGet(request) then 2 * |request.queryParams| else 2)
      && args[0] == Str(request.methodValue) && args[1] == Str(request.rawPath)
      && (forall i :: 0 <= i < |request.headers| ==>
            args[2 + 2 * i] == Str(request.headers[i].0) && args[3 + 2 * i] == Str(join(request.headers[i].1)))
      && (IsGet(request) ==>
            forall j :: 0 <= j < |request.queryParams| ==>
              args[2 + 2 * |request.headers| + 2 * j] == Str(request.queryParams[j].0) &&
              args[3 + 2 * |request.headers| + 2 * j] == Str(join(request.queryParams[j].1)))
      && (!IsGet(request) ==>
            args[|args| - 2] == QueryArg(request.query) && args[|args| - 1] == BodyArg(body))
  {
    var args := LogArgs(request, body, join);
    var head := [Str(request.methodValue), Str(request.rawPath)] + EntryArgs(request.headers, join);
    assert args[..|head|] == head;
    assert forall i :: 0 <= i < |request.headers| ==> args[2 + 2 * i] == head[2 + 2 * i];
  }

  /** Strings written one after another, as a StringBuilder holds them. */
  function Join(parts: seq<string>): string {
    if parts == [] then "" else Join(parts[..|parts| - 1]) + parts[|parts| - 1]
  }

  lemma JoinSnoc(parts: seq<string>, part: string)
    ensures Join(parts + [part]) == Join(parts) + part
  {
    assert (parts + [part])[..|parts|] == parts;
  }

  lemma {:induction false} JoinAppend(a: seq<string>, b: seq<string>)
    ensures Join(a + b) == Join(a) + Join(b)
    decreases |b|
  {
    if b == [] {
      assert a + b == a;
    } else {
      var init, last := b[..|b| - 1], b[|b| - 1];
      JoinAppend(a, init);
      assert a + b == (a + init) + [last];
      JoinSnoc(a + init, last);
      JoinSnoc(init, last);
      assert init + [last] == b;
    }
  }

  /** The literal of each line, in order. */
  function Texts(lines: seq<Line>): (parts: seq<string>)
    ensures |parts| == |lines| && forall i :: 0 <= i < |lines| ==> parts[i] == LineText(lines[i])
  {
    seq(|lines|, i requires 0 <= i < |lines| => LineText(lines[i]))
  }

  /** The template string: the literals of the lines, one after another. */
  function Render(lines: seq<Line>): string {
    Join(Texts(lines))
  }

  /** The number of SLF4J `{}` anchors in a template. */
  function Placeholders(s: string): nat {
    if |s| < 2 then 0
    else (if s[0] == '{' && s[1] == '}' then 1 else 0) + Placeholders(s[1..])
  }

  /** Joining two texts adds their anchors when no `{}` straddles the seam. */
  lemma {:induction false} PlaceholdersAppend(a: string, b: string)
    requires a == [] || a[|a| - 1] != '{'
    ensures Placeholders(a + b) == Placeholders(a) + Placeholders(b)
    decreases |a|
  {
    if |a| == 0 {
      assert a + b == b;
    } else if |a| == 1 {
      assert (a + b)[1..] == b;
    } else {
      PlaceholdersAppend(a[1..], b);
      assert (a + b)[1..] == a[1..] + b;
    }
  }

  predicate NoBrace(s: string) {
    forall i :: 0 <= i < |s| ==> s[i] != '{'
  }

  lemma {:induction false} NoBraceNoAnchors(s: string)
    requires NoBrace(s)
    ensures Placeholders(s) == 0
    decreases |s|
  {
    if |s| >= 2 {
      NoBraceNoAnchors(s[1..]);
    }
  }

  /** A text without braces followed by slots has the slots' anchors. */
  lemma LabelledAnchors(text: string, slots: string)
    requires NoBrace(text)
    ensures Placeholders(text + slots) == Placeholders(slots)
  {
    NoBraceNoAnchors(text);
    PlaceholdersAppend(text, slots);
  }

  /** The start and end banners hold no braces at all. */
  lemma BannerAnchors()
    ensures Placeholders(START_LINE) == 0 && Placeholders(END_LINE) == 0
  {
    assert NoBrace(BAR) && NoBrace(START_TITLE) && NoBrace(END_TITLE);
    NoBraceConcat("\n\n" + BAR, START_TITLE);
    NoBraceConcat("\n\n" + BAR + START_TITLE, BAR);
    NoBraceConcat("\n\n" + BAR + START_TITLE + BAR, "\n");
    NoBraceConcat(BAR, END_TITLE);
    NoBraceConcat(BAR + END_TITLE, BAR);
    NoBraceConcat(BAR + END_TITLE + BAR, "=\n");
    NoBraceNoAnchors(START_LINE);
    NoBraceNoAnchors(END_LINE);
  }

  lemma NoBraceConcat(a: string, b: string)
    requires NoBrace(a) && NoBrace(b)
    ensures NoBrace(a + b)
  {
  }

  /** Each literal carries the anchors its kind of line is meant to. */
  lemma TextAnchors(line: Line)
    ensures Placeholders(LineText(line)) == Slots(line)
    ensures |LineText(line)| > 0 && LineText(line)[|LineText(line)| - 1] == '\n'
  {
    match line
    case Start => BannerAnchors();
    case End => BannerAnchors();
    case Route =>
      assert Placeholders(TWO_SLOTS) == 2;
      LabelledAnchors(ROUTE_LABEL, TWO_SLOTS);
    case Header =>
      assert Placeholders(TWO_SLOTS) == 2;
      LabelledAnchors(HEADER_LABEL, TWO_SLOTS);
    case Param =>
      assert Placeholders(TWO_SLOTS) == 2;
      LabelledAnchors(PARAM_LABEL, TWO_SLOTS);
    case Query =>
      assert Placeholders(ONE_SLOT) == 1;
      LabelledAnchors(QUERY_LABEL, ONE_SLOT);
    case BodyLine =>
      assert Placeholders(ONE_SLOT) == 1;
      LabelledAnchors(BODY_LABEL, ONE_SLOT);
  }

  predicate LineEnded(s: string) {
    |s| > 0 && s[|s| - 1] == '\n'
  }

  function SumPlaceholders(parts: seq<string>): nat {
    if parts == [] then 0 else SumPlaceholders(parts[..|parts| - 1]) + Placeholders(parts[|parts| - 1])
  }

  /** The anchors of joined lines are those of the lines: each line ends
      with a newline, so no `{}` is formed across two lines. */
  lemma {:induction false} PlaceholdersJoin(parts: seq<string>)
    requires forall i :: 0 <= i < |parts| ==> LineEnded(parts[i])
    ensures Placeholders(Join(parts)) == SumPlaceholders(parts)
    ensures parts != [] ==> LineEnded(Join(parts))
    decreases |parts|
  {
    if parts != [] {
      var init, last := parts[..|parts| - 1], parts[|parts| - 1];
      PlaceholdersJoin(init);
      PlaceholdersAppend(Join(init), last);
    }
  }

  function SumSlots(lines: seq<Line>): nat {
    if lines == [] then 0 else SumSlots(lines[..|lines| - 1]) + Slots(lines[|lines| - 1])
  }

  /** Every rendered line ends with a newline and carries its slots. */
  lemma {:induction false} TextsAnchors(lines: seq<Line>)
    ensures forall i :: 0 <= i < |lines| ==> LineEnded(Texts(lines)[i])
    ensures SumPlaceholders(Texts(lines)) == SumSlots(lines)
    decreases |lines|
  {
    forall i | 0 <= i < |lines| ensures LineEnded(Texts(lines)[i]) {
      TextAnchors(lines[i]);
    }
    if lines != [] {
      var init, last := lines[..|lines| - 1], lines[|lines| - 1];
      TextsAnchors(init);
      TextAnchors(last);
      assert Texts(lines)[..|lines| - 1] == Texts(init);
    }
  }

  lemma {:induction false} SumAppend(a: seq<Line>, b: seq<Line>)
    ensures SumSlots(a + b) == SumSlots(a) + SumSlots(b)
    decreases |b|
  {
    if b == [] {
      assert a + b == a;
    } else {
      var init := b[..|b| - 1];
      SumAppend(a, init);
      assert (a + b)[..|a + b| - 1] == a + init;
      assert init + [b[|b| - 1]] == b;
    }
  }

  lemma {:induction false} SumRepeat(line: Line, n: nat)
    ensures SumSlots(Repeat(line, n)) == n * Slots(line)
    decreases n
  {
    if n > 0 {
      SumRepeat(line, n - 1);
      assert Repeat(line, n)[..n - 1] == Repeat(line, n - 1);
    }
  }

  /** The template carries one `{}` per slot of its lines. */
  lemma RenderAnchors(lines: seq<Line>)
    ensures Placeholders(Render(lines)) == SumSlots(lines)
  {
    TextsAnchors(lines);
    PlaceholdersJoin(Texts(lines));
  }

  lemma FixedSlots()
    ensures SumSlots([Start, Route]) == 2 && SumSlots([Query, BodyLine]) == 2 && SumSlots([End]) == 0
  {
    assert [Start, Route][..1] == [Start];
    assert [Start][..0] == [];
    assert [Query, BodyLine][..1] == [Query];
    assert [Query][..0] == [];
    assert [End][..0] == [];
  }

  lemma SumFour(a: seq<Line>, b: seq<Line>, c: seq<Line>, d: seq<Line>)
    ensures SumSlots(a + b + c + d) == SumSlots(a) + SumSlots(b) + SumSlots(c) + SumSlots(d)
  {
    SumAppend(a + b + c, d);
    SumAppend(a + b, c);
    SumAppend(a, b);
  }

  /** The slots of the lines add up to the length of the argument list. */
  lemma LogLinesSlots(request: Request)
    ensures SumSlots(LogLines(request)) ==
      2 + 2 * |request.headers| + (if IsGet(request) then 2 * |request.queryParams| else 2)
  {
    var h := Repeat(Header, |request.headers|);
    var tail := if IsGet(request) then Repeat(Param, |request.queryParams|) else [Query, BodyLine];
    assert LogLines(request) == [Start, Route] + h + tail + [End];
    SumFour([Start, Route], h, tail, [End]);
    FixedSlots();
    SumRepeat(Header, |request.headers|);
    SumRepeat(Param, |request.queryParams|);
  }

  /** SLF4J's contract with the caller: the template has exactly as many
      `{}` anchors as there are arguments, so every argument is printed and
      none is missing. */
  lemma PlaceholdersMatchArgs(request: Request, body: Body, join: seq<string> -> string)
    ensures Placeholders(Render(LogLines(request))) == |LogArgs(request, body, join)|
  {
    RenderAnchors(LogLines(request));
    LogLinesSlots(request);
  }

  /** Joined parts start with the first part and end with the last. */
  lemma JoinEnds(parts: seq<string>)
    requires |parts| >= 2
    ensures var t, first, last := Join(parts), parts[0], parts[|parts| - 1];
      |t| >= |first| + |last| && t[..|first|] == first && t[|t| - |last|..] == last
  {
    var first, inner, last := parts[0], parts[1..|parts| - 1], parts[|parts| - 1];
    assert parts == [first] + inner + [last];
    JoinAppend([first], inner);
    JoinSnoc([first] + inner, last);
    JoinSnoc([], first);
    assert [] + [first] == [first];
    var t := first + Join(inner) + last;
    assert t[..|first|] == first;
    assert t[|t| - |last|..] == last;
  }

  /** The template opens with the start banner and closes with the end banner. */
  lemma TemplateFramed(request: Request)
    ensures var t := Render(LogLines(request));
      |t| >= |START_LINE| + |END_LINE| && t[..|START_LINE|] == START_LINE && t[|t| - |END_LINE|..] == END_LINE
  {
    LogLinesLayout(request);
    JoinEnds(Texts(LogLines(request)));
  }

  lemma {:induction false} MultisetRepeat(line: Line, n: nat)
    ensures multiset(Repeat(line, n)) == multiset{}[line := n]
    decreases n
  {
    if n > 0 {
      MultisetRepeat(line, n - 1);
      assert Repeat(line, n) == Repeat(line, n - 1) + [line];
    }
  }

  /** One Headers line per header; for GET one Params line per query
      parameter and no Body line; otherwise exactly one Params line (the
      query, null when absent) and one Body line. */
  lemma LineCounts(request: Request)
    ensures multiset(LogLines(request))[Header] == |request.headers|
    ensures multiset(LogLines(request))[Start] == 1 && multiset(LogLines(request))[End] == 1
    ensures IsGet(request) ==>
      multiset(LogLines(request))[Param] == |request.queryParams| &&
      BodyLine !in LogLines(request) && Query !in LogLines(request)
    ensures !IsGet(request) ==>
      multiset(LogLines(request))[Query] == 1 && multiset(LogLines(request))[BodyLine] == 1 &&
      Param !in LogLines(request)
  {
    var h := Repeat(Header, |request.headers|);
    var tail := if IsGet(request) then Repeat(Param, |request.queryParams|) else [Query, BodyLine];
    assert LogLines(request) == [Start, Route] + h + tail + [End];
    assert multiset(LogLines(request)) == multiset([Start, Route]) + multiset(h) + multiset(tail) + multiset([End]);
    MultisetRepeat(Header, |request.headers|);
    MultisetRepeat(Param, |request.queryParams|);
    if IsGet(request) {
      assert BodyLine !in multiset(LogLines(request)) && Query !in multiset(LogLines(request));
    } else {
      assert Param !in multiset(LogLines(request));
    }
  }

  /** One of the two `for` loops over `entrySet()` in recordLog: a line of
      the given kind and two arguments for every entry, in the order of the
      entries. */
  method AppendEntries(lines: seq<Line>, args: seq<Arg>, entries: seq<Entry>, line: Line,
                       join: seq<string> -> string)
    returns (newLines: seq<Line>, newArgs: seq<Arg>)
    ensures newLines == lines + Repeat(line, |entries|)
    ensures newArgs == args + EntryArgs(entries, join)
  {
    newLines, newArgs := lines, args;
    var i := 0;
    while i < |entries|
      invariant 0 <= i <= |entries|
      invariant newLines == lines + Repeat(line, i)
      invariant newArgs == args + EntryArgs(entries[..i], join)
    {
      newLines := newLines + [line];
      newArgs := newArgs + [Str(entries[i].0)];
      newArgs := newArgs + [Str(join(entries[i].1))];
      assert entries[..i + 1][..i] == entries[..i];
      i := i + 1;
    }
    assert entries[..i] == entries;
  }

  /** The body of recordLog up to the call of `log.info`: the lines
      appended to the StringBuilder, held as their kinds, beside the
      argument list. */
  method BuildLog(request: Request, body: Body, join: seq<string> -> string)
    returns (builder: seq<Line>, args: seq<Arg>)
    ensures builder == LogLines(request)
    ensures args == LogArgs(request, body, join)
  {
    builder := [Start, Route];
    args := [Str(request.methodValue), Str(request.rawPath)];
    builder, args := AppendEntries(builder, args, request.headers, Header, join);
    if IsGet(request) {
      builder, args := AppendEntries(builder, args, request.queryParams, Param, join);
    } else {
      builder := builder + [Query];
      args := args + [QueryArg(request.query)];
      builder := builder + [BodyLine];
      args := args + [BodyArg(body)];
    }
    builder := builder + [End];
  }

  /** recordLog(request, body): the template (the builder's toString()) and
      the argument list handed to `log.info`. */
  method RecordLog(request: Request, body: Body, join: seq<string> -> string)
    returns (template: string, args: seq<Arg>)
    ensures template == Render(LogLines(request))
    ensures args == LogArgs(request, body, join)
    ensures Placeholders(template) == |args|
  {
    var builder;
    builder, args := BuildLog(request, body, join);
    template := Render(builder);
    PlaceholdersMatchArgs(request, body, join);
  }
}
