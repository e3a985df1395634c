/**
 * utils/HttpUtil.java: the request payload sent to the AI backend, and the way a
 * response (or a failure) becomes the answer string the CompletableFuture
 * completes with.
 *
 * JSON is an abstract value; what Gson's parser made of the body is an input
 * (`ParseResult`). The configuration lookups `getString(key, default)` are
 * `Option<string>` parameters: `None` when the key is not set.
 */
module Http {
  import opened JavaLang

  // ---------------------------------------------------------------------------
  // JSON values (RFC 8259) as Gson's JsonElement tree holds them

  datatype Json =
    | JNull
    | JBool(b: bool)
    | JNumber(literal: string)
    | JString(s: string)
    | JArray(elements: seq<Json>)
    | JObject(fields: map<string, Json>)

  /**
   * JsonElement.getAsString: a primitive gives its text, a one-element array
   * gives its element's; JsonNull, an object or any other array throws (`None`).
   */
  function AsString(j: Json): (r: Option<string>)
    ensures j.JString? ==> r == Some(j.s)
    ensures j.JNull? || j.JObject? ==> r == None
    ensures j.JArray? && |j.elements| != 1 ==> r == None
  {
    match j
    case JNull => None
    case JBool(b) => Some(if b then "true" else "false")
    case JNumber(literal) => Some(literal)
    case JString(s) => Some(s)
    case JArray(es) => if |es| == 1 then AsString(es[0]) else None
    case JObject(_) => None
  }

  /** What `gson.fromJson(body, JsonElement.class)` produced. */
  datatype ParseResult =
    | Parsed(element: Option<Json>)   // None: fromJson returned null
    | SyntaxError                     // JsonSyntaxException
    | ParseFailed                     // any other exception from the parser

  /** The way the CompletableFuture ends. */
  datatype Completion = Completed(answer: string) | CompletedExceptionally

  /** The result of extractResponse: a string, or an exception thrown inside it. */
  datatype Extraction = Extracted(text: string) | Threw

  // ---------------------------------------------------------------------------
  // prepareJsonPayload

  /** The folder filter with a trailing `/` added when missing. */
  function NormalizeFolder(folder: string): (r: string)
    requires folder != []
    ensures EndsWith(r, "/") && StartsWith(r, folder)
    ensures |r| == if EndsWith(folder, "/") then |folder| else |folder| + 1
  {
    if EndsWith(folder, "/") then folder else folder + "/"
  }

  /** ``String.format("contains(path, `%s`)", folder)``. */
  function FilterExpression(folder: string): string {
    "contains(path, `" + folder + "`)"
  }

  /** The properties of the request object, in the order they are added. */
  function PreparePayload(question: string, folderFilter: string): seq<(string, string)>
  {
    (if question != [] then [("prompt", question)] else [])
    + (if folderFilter != [] then
         var f := FilterExpression(NormalizeFolder(folderFilter));
         [("filters", f), ("metadata_filter", f)]
       else [])
  }

  predicate HasKey(payload: seq<(string, string)>, key: string) {
    exists i | 0 <= i < |payload| :: payload[i].0 == key
  }

  /** The question is sent as `prompt`, verbatim, exactly when it is non-empty. */
  lemma PromptIffQuestion(question: string, folderFilter: string)
    ensures HasKey(PreparePayload(question, folderFilter), "prompt") <==> question != []
    ensures question != [] ==> PreparePayload(question, folderFilter)[0] == ("prompt", question)
  {
    var p := PreparePayload(question, folderFilter);
    if question != [] {
      assert p[0].0 == "prompt";
    }
  }

  /**
   * Both filter keys are present exactly when the folder filter is non-empty, and
   * both carry the same expression over the folder ending in exactly one added `/`.
   */
  lemma FiltersIffFolder(question: string, folderFilter: string)
    ensures HasKey(PreparePayload(question, folderFilter), "filters") <==> folderFilter != []
    ensures HasKey(PreparePayload(question, folderFilter), "metadata_filter") <==> folderFilter != []
    ensures folderFilter != [] ==>
      var p := PreparePayload(question, folderFilter);
      var f := FilterExpression(NormalizeFolder(folderFilter));
      p[|p| - 2] == ("filters", f) && p[|p| - 1] == ("metadata_filter", f)
  {
    var p := PreparePayload(question, folderFilter);
    if folderFilter != [] {
      assert p[|p| - 2].0 == "filters";
      assert p[|p| - 1].0 == "metadata_filter";
    }
  }

  /** "docs" and "docs/" select the same folder; normalising twice changes nothing. */
  lemma {:induction false} NormalizeFolderIdempotent(folder: string)
    requires folder != []
    ensures NormalizeFolder(NormalizeFolder(folder)) == NormalizeFolder(folder)
    ensures !EndsWith(folder, "/") ==> NormalizeFolder(folder + "/") == NormalizeFolder(folder)
  {
    var r := NormalizeFolder(folder);
    assert EndsWith(r, "/");
    if !EndsWith(folder, "/") {
      assert EndsWith(folder + "/", "/") by {
        assert (folder + "/")[|folder + "/"| - 1..] == "/";
      }
    }
  }

  /** getDocuments sends the empty question: the payload carries no prompt. */
  lemma DocumentsRequestHasNoPrompt(folderFilter: string)
    ensures !HasKey(PreparePayload("", folderFilter), "prompt")
  {
    PromptIffQuestion("", folderFilter);
  }

  // ---------------------------------------------------------------------------
  // extractResponse

  /** What the loop does with one array element. */
  datatype PathEntry = Skip | Path(text: string) | Fails

  function EntryOf(e: Json): PathEntry {
    if e.JObject? && "path" in e.fields && !e.fields["path"].JNull? then
      match AsString(e.fields["path"])
      case Some(s) => Path(s)
      case None => Fails
    else
      Skip
  }

  /** The StringBuilder after the loop has visited `es`: each usable path followed by "\n". */
  function PathsText(es: seq<Json>): Extraction
    decreases |es|
  {
    if es == [] then Extracted("")
    else
      match PathsText(es[..|es| - 1])
      case Threw => Threw
      case Extracted(t) =>
        match EntryOf(es[|es| - 1])
        case Skip => Extracted(t)
        case Path(p) => Extracted(t + p + "\n")
        case Fails => Threw
  }

  /** extractResponse(element, fallback). */
  function Extract(element: Option<Json>, fallback: string): Extraction {
    match element
    case None => Extracted(fallback)
    case Some(JObject(fields)) =>
      if "response" in fields then
        match AsString(fields["response"])
        case Some(s) => Extracted(s)
        case None => Threw
      else Extracted(fallback)
    case Some(JArray(es)) => PathsText(es)
    case Some(_) => Extracted(fallback)
  }

  /** The StringBuilder loop of extractResponse. */
  method ExtractResponse(element: Option<Json>, fallback: string) returns (r: Extraction)
    ensures r == Extract(element, fallback)
  {
    if element.None? {
      return Extracted(fallback);
    }
    var j := element.value;
    if j.JObject? {
      if "response" in j.fields {
        var s := AsString(j.fields["response"]);
        if s.None? {
          return Threw;
        }
        return Extracted(s.value);
      }
      return Extracted(fallback);
    } else if j.JArray? {
      var es := j.elements;
      var result := "";
      var i := 0;
      while i < |es|
        invariant 0 <= i <= |es|
        invariant PathsText(es[..i]) == Extracted(result)
      {
        assert es[..i + 1][..i] == es[..i];
        var entry := EntryOf(es[i]);
        if entry.Fails? {
          ThrowStaysThrown(es, i + 1);
          return Threw;
        }
        if entry.Path? {
          result := result + entry.text + "\n";
        }
        i := i + 1;
      }
      assert es[..i] == es;
      return Extracted(result);
    } else {
      return Extracted(fallback);
    }
  }

  /** Once an element has thrown, the rest of the array cannot undo it. */
  lemma {:induction false} ThrowStaysThrown(es: seq<Json>, n: nat)
    requires n <= |es| && PathsText(es[..n]) == Threw
    ensures PathsText(es) == Threw
    decreases |es| - n
  {
    if n < |es| {
      assert es[..n + 1][..n] == es[..n];
      ThrowStaysThrown(es, n + 1);
    } else {
      assert es[..n] == es;
    }
  }

  /** The text of a list of paths, each followed by "\n". */
  function Lines(paths: seq<string>): string {
    if paths == [] then "" else Lines(paths[..|paths| - 1]) + paths[|paths| - 1] + "\n"
  }

  /** A document object `{"path": p}` as the list endpoint returns it. */
  function Document(p: string): Json {
    JObject(map["path" := JString(p)])
  }

  /** An array of documents yields each path, in order, each followed by "\n" (the last one too). */
  lemma {:induction false} DocumentsYieldLines(paths: seq<string>)
    ensures PathsText(seq(|paths|, i requires 0 <= i < |paths| => Document(paths[i]))) == Extracted(Lines(paths))
    decreases |paths|
  {
    var es := seq(|paths|, i requires 0 <= i < |paths| => Document(paths[i]));
    if paths != [] {
      var init := paths[..|paths| - 1];
      DocumentsYieldLines(init);
      assert es[..|es| - 1] == seq(|init|, i requires 0 <= i < |init| => Document(init[i]));
      assert EntryOf(es[|es| - 1]) == Path(paths[|paths| - 1]);
    }
  }

  /** Elements that contribute nothing can be inserted anywhere without changing the answer. */
  lemma {:induction false} SkippedElementsInvisible(a: seq<Json>, e: Json, b: seq<Json>)
    requires EntryOf(e) == Skip
    ensures PathsText(a + [e] + b) == PathsText(a + b)
    decreases |b|
  {
    if b == [] {
      assert (a + [e] + b)[..|a + [e] + b| - 1] == a;
      assert a + b == a;
    } else {
      var b' := b[..|b| - 1];
      SkippedElementsInvisible(a, e, b');
      assert (a + [e] + b)[..|a + [e] + b| - 1] == a + [e] + b';
      assert (a + b)[..|a + b| - 1] == a + b';
      assert (a + [e] + b)[|a + [e] + b| - 1] == b[|b| - 1];
      assert (a + b)[|a + b| - 1] == b[|b| - 1];
    }
  }

  /** Splitting the answer at "\n" gives the paths back, when no path holds a "\n" itself. */
  function SplitLines(s: string): seq<string>
    decreases |s|
  {
    if s == [] then []
    else
      var k := AfterLast(s[..|s| - 1], '\n');
      SplitLines(s[..k]) + [s[k..|s| - 1]]
  }

  predicate NoNewline(p: string) {
    forall i | 0 <= i < |p| :: p[i] != '\n'
  }

  lemma {:induction false} LinesEndInNewline(paths: seq<string>)
    ensures Lines(paths) == [] || Lines(paths)[|Lines(paths)| - 1] == '\n'
  {
  }

  /** Reading the document list back: the answer's lines are exactly the paths. */
  lemma {:induction false} SplitLinesRoundTrip(paths: seq<string>)
    requires forall i | 0 <= i < |paths| :: NoNewline(paths[i])
    ensures SplitLines(Lines(paths)) == paths
    decreases |paths|
  {
    if paths != [] {
      var init := paths[..|paths| - 1];
      var p := paths[|paths| - 1];
      var prefix := Lines(init);
      var s := Lines(paths);
      assert s == prefix + p + "\n";
      assert s[..|s| - 1] == prefix + p;
      LinesEndInNewline(init);
      AfterLastOf(prefix, p, '\n');
      assert s[..|prefix|] == prefix;
      assert s[|prefix|..|s| - 1] == p;
      SplitLinesRoundTrip(init);
      assert init + [p] == paths;
    }
  }

  // ---------------------------------------------------------------------------
  // parseAndCompleteResponse and the error handlers

  /** parseAndCompleteResponse(body): blank gives "", unparsable gives the body itself. */
  function ResponseCompletion(body: Option<string>, parse: ParseResult): (r: Completion)
    ensures body.None? || IsBlank(body.value) ==> r == Completed("")
    ensures body.Some? && !IsBlank(body.value) && parse.SyntaxError? ==> r == Completed(body.value)
    ensures body.Some? && !IsBlank(body.value) && parse.ParseFailed? ==> r.CompletedExceptionally?
  {
    if body.None? || Trim(body.value) == [] then Completed("")
    else
      match parse
      case SyntaxError => Completed(body.value)
      case ParseFailed => CompletedExceptionally
      case Parsed(element) =>
        match Extract(element, body.value)
        case Extracted(text) => Completed(text)
        case Threw => CompletedExceptionally
  }

  /** The future's outcome, by the shape of the parsed document. */
  lemma ParsedOutcomes(body: string, element: Option<Json>)
    requires !IsBlank(body)
    ensures var r := ResponseCompletion(Some(body), Parsed(element));
      && (element.None? ==> r == Completed(body))
      && (element.Some? && (element.value.JNull? || element.value.JBool? || element.value.JNumber? || element.value.JString?) ==>
            r == Completed(body))
      && (element.Some? && element.value.JObject? && "response" !in element.value.fields ==> r == Completed(body))
      && (element.Some? && element.value.JObject? && "response" in element.value.fields ==>
            (r.Completed? <==> AsString(element.value.fields["response"]).Some?)
            && (r.Completed? ==> r.answer == AsString(element.value.fields["response"]).value))
      && (element.Some? && element.value.JArray? && element.value.elements == [] ==> r == Completed(""))
  {
  }

  /** A `response` field that holds JSON null makes the future complete exceptionally, not with the fallback. */
  lemma NullResponseIsExceptional(body: string)
    requires !IsBlank(body)
    ensures ResponseCompletion(Some(body), Parsed(Some(JObject(map["response" := JNull])))) == CompletedExceptionally
  {
    var fields := map["response" := JNull];
    assert "response" in fields && fields["response"] == JNull;
    assert Extract(Some(JObject(fields)), body) == Threw;
  }

  /** `getString(key, default)`. */
  function ConfigString(configured: Option<string>, default: string): string
  {
    match configured
    case Some(s) => s
    case None => default
  }

  /** handleHttpRequestFailure: the `cant_process` message. */
  function HandleHttpRequestFailure(cantProcess: Option<string>): Completion
  {
    Completed(ConfigString(cantProcess, "Can't process request"))
  }

  /** handleUnsuccessfulResponse: the `cant_process` message (other default) with the status code appended. */
  function HandleUnsuccessfulResponse(cantProcess: Option<string>, code: nat): Completion
  {
    Completed(ConfigString(cantProcess, "Service unavailable, Error: ") + NatToString(code))
  }

  /** The message ends with the status code, written in decimal, after the configured text. */
  lemma {:induction false} UnsuccessfulMessageCarriesCode(cantProcess: Option<string>, code: nat)
    ensures var m := HandleUnsuccessfulResponse(cantProcess, code).answer;
      var prefix := ConfigString(cantProcess, "Service unavailable, Error: ");
      StartsWith(m, prefix) && ParseDigits(m[|prefix|..]) == code
  {
    var m := HandleUnsuccessfulResponse(cantProcess, code).answer;
    var prefix := ConfigString(cantProcess, "Service unavailable, Error: ");
    assert m[|prefix|..] == NatToString(code);
    assert m[..|prefix|] == prefix;
    NatToStringRoundTrip(code);
  }

  /** handleRequestPreparationError: the `internal_error` message. */
  function HandleRequestPreparationError(internalError: Option<string>): Completion
  {
    Completed(ConfigString(internalError, "Internal Error"))
  }

  /** The configured messages the handlers read. */
  datatype Messages = Messages(cantProcess: Option<string>, internalError: Option<string>)

  /** How one request went: the preparation threw, the transport failed, or a response arrived. */
  datatype Exchange =
    | PreparationFailed
    | TransportFailed
    | Responded(successful: bool, code: nat, body: Option<string>, parse: ParseResult)

  /** coordinateRequest through handleHttpResponse: the completion of the returned future. */
  function Outcome(x: Exchange, msgs: Messages): Completion {
    match x
    case PreparationFailed => HandleRequestPreparationError(msgs.internalError)
    case TransportFailed => HandleHttpRequestFailure(msgs.cantProcess)
    case Responded(successful, code, body, parse) =>
      if !successful || body.None? then HandleUnsuccessfulResponse(msgs.cantProcess, code)
      else ResponseCompletion(body, parse)
  }

  /**
   * The two failures that never reach a response: a preparation error (coordinateRequest's
   * catch) completes with `internal_error`, a transport failure with `cant_process`, each
   * with its own default, and neither completes exceptionally.
   */
  lemma FailureMessages(msgs: Messages)
    ensures Outcome(PreparationFailed, msgs) == Completed(ConfigString(msgs.internalError, "Internal Error"))
    ensures Outcome(TransportFailed, msgs) == Completed(ConfigString(msgs.cantProcess, "Can't process request"))
    ensures msgs.internalError.None? ==> Outcome(PreparationFailed, msgs).answer == "Internal Error"
    ensures msgs.cantProcess.Some? ==> Outcome(TransportFailed, msgs).answer == msgs.cantProcess.value
  {
  }

  /**
   * handleHttpResponse: an unsuccessful status or a missing body completes normally,
   * whatever the body would have parsed to; only a parsed body can end exceptionally.
   */
  lemma ResponseRouting(x: Exchange, msgs: Messages)
    requires x.Responded?
    ensures !x.successful || x.body.None? ==> Outcome(x, msgs) == HandleUnsuccessfulResponse(msgs.cantProcess, x.code)
    ensures !x.successful || x.body.None? ==>
      forall p: ParseResult :: Outcome(x.(parse := p), msgs) == Outcome(x, msgs) && Outcome(x, msgs).Completed?
    ensures x.successful && x.body.Some? ==> Outcome(x, msgs) == ResponseCompletion(x.body, x.parse)
    ensures Outcome(x, msgs).CompletedExceptionally? ==> x.successful && x.body.Some? && !IsBlank(x.body.value)
  {
  }
}
