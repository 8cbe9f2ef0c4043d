/**
 * What the language-model service (src/services/gemini.ts) does with the
 * outcome of a remote call: the clean-up of a response before it is parsed
 * as JSON, the fallback that extracts the outermost braces, and the mapping
 * of a failure message to the error the service rethrows.
 *
 * The remote call itself is a parameter: a `Reply` holds either the text the
 * model answered or the message of the error the call raised. `JSON.parse`
 * is a parameter too: a function that gives the parsed value, or nothing
 * when it would throw.
 */
module Responses {
  import opened Wrappers
  import opened Text
  import opened Sequences

  const JsonFence: string := "```json"
  const Fence: string := "```"

  /** The message of the error thrown inside the parsing `try` when neither the
      cleaned text nor its braces parse. */
  const InvalidJsonMessage: string := "Invalid JSON " + "response from " + "Gemini. " + "Please try again."

  /** The errors the service raises. */
  datatype ServiceError =
    | KeyNotFound
    | NotInitialized
    | InvalidApiKey
    | QuotaExceeded
    | AccessDenied
    | AnalysisFailed
    | ImprovementFailed

  /** The message each error carries. */
  function Message(e: ServiceError): string {
    match e
    case KeyNotFound => "Gemini API key not found. Please set VITE_GEMINI_API_KEY in your .env file."
    case NotInitialized => "Gemini service not initialized"
    case InvalidApiKey => "Invalid Gemini API key. Please check your API key in settings."
    case QuotaExceeded => "Gemini API quota exceeded. Please check your usage limits."
    case AccessDenied => "Gemini API access denied. Please check your API key permissions."
    case AnalysisFailed => "Failed to analyze resume. Please check your internet connection and try again."
    case ImprovementFailed => "Failed to generate improved resume. Please try again."
  }

  /** What the remote call produced. */
  datatype Reply = Answered(text: string) | Raised(message: string)

  // ---------------------------------------------------------------------------
  // Response clean-up
  // ---------------------------------------------------------------------------

  /** `replace(/^<fence>\s*\/, '')` guarded by `startsWith(<fence>)`: drop an
      opening fence and the white space after it. */
  function StripOpening(s: string, fence: string): string {
    if StartsWith(s, fence) then TrimStart(s[|fence|..]) else s
  }

  /** `replace(/\s*```$/, '')` guarded by `endsWith('```')`: drop the closing
      fence and the white space before it. */
  function StripClosing(s: string): string {
    if EndsWith(s, Fence) then TrimEnd(s[..|s| - |Fence|]) else s
  }

  /** The text that the parser is first given: trimmed, a "```json" or "```"
      opening fence removed, a closing fence removed, trimmed again. */
  function CleanResponse(text: string): (cleaned: string)
    ensures Trimmed(cleaned)
  {
    Trim(StripClosing(StripOpening(StripOpening(Trim(text), JsonFence), Fence)))
  }

  /** `match(/\{[\s\S]*\}/)`: from the first `{` to the last `}`, provided some
      `}` follows that first `{`. */
  function ExtractBraces(s: string): (r: Option<string>)
    ensures r.Some? <==> '{' in s && '}' in s[IndexOf(s, '{') + 1..]
    ensures r.Some? ==>
      var i := IndexOf(s, '{');
      var v := r.value;
      && |v| >= 2 && i + |v| <= |s| && v == s[i..i + |v|]
      && v[0] == '{' && v[|v| - 1] == '}'
      && '{' !in s[..i] && '}' !in s[i + |v|..]
  {
    if '{' !in s then None
    else
      var i := IndexOf(s, '{');
      if '}' !in s[i + 1..] then None
      else
        var k := IndexOf(s[i + 1..], '}');
        assert s[i + 1 + k] == '}';
        var j := LastIndexOf(s, '}');
        Some(s[i..j + 1])
  }

  /** A "```json" fence and the white space after it are dropped, and the
      plain-fence strip that follows finds no second fence. */
  lemma JsonFenceDropped(ws1: string, y: string)
    requires AllSpace(ws1) && y != [] && y[0] == '{'
    ensures StripOpening(StripOpening(JsonFence + ws1 + y, JsonFence), Fence) == y
  {
    var t := JsonFence + ws1 + y;
    assert t[..|JsonFence|] == JsonFence;
    assert t[|JsonFence|..] == ws1 + y;
    TrimStartPadded(ws1, y);
    assert !StartsWith(y, Fence) by {
      assert Fence[0] == '`';
    }
  }

  /** A plain "```" fence is not taken for a "```json" one when an object
      follows it, and is dropped with the white space after it. */
  lemma PlainFenceDropped(ws1: string, y: string)
    requires AllSpace(ws1) && y != [] && y[0] == '{'
    ensures StripOpening(StripOpening(Fence + ws1 + y, JsonFence), Fence) == y
  {
    var t := Fence + ws1 + y;
    assert t[|Fence|] == (ws1 + y)[0];
    assert !StartsWith(t, JsonFence) by {
      assert JsonFence[|Fence|] == 'j';
    }
    assert t[..|Fence|] == Fence;
    assert t[|Fence|..] == ws1 + y;
    TrimStartPadded(ws1, y);
  }

  /** Dropping the closing fence and the white space before it leaves a
      trimmed object as it was. */
  lemma ClosingFenceDropped(body: string, ws2: string)
    requires AllSpace(ws2) && Trimmed(body) && body != []
    ensures StripClosing(body + ws2 + Fence) == body
  {
    var y := body + ws2 + Fence;
    assert y[|y| - |Fence|..] == Fence;
    assert y[..|y| - |Fence|] == body + ws2;
    TrimEndPadded(body, ws2);
  }

  /** What the strips and the final trim leave of a code block holding an object. */
  lemma BlockContentsKept(open: string, ws1: string, body: string, ws2: string)
    requires open == JsonFence || open == Fence
    requires AllSpace(ws1) && AllSpace(ws2)
    requires Trimmed(body) && body != [] && body[0] == '{'
    ensures Trim(StripClosing(StripOpening(StripOpening(open + ws1 + body + ws2 + Fence, JsonFence), Fence))) == body
  {
    var y := body + ws2 + Fence;
    assert open + ws1 + body + ws2 + Fence == open + ws1 + y;
    if open == JsonFence {
      JsonFenceDropped(ws1, y);
    } else {
      PlainFenceDropped(ws1, y);
    }
    ClosingFenceDropped(body, ws2);
    TrimKeepsTrimmed(body);
  }

  /** A JSON object wrapped in a "```json" or "```" code block, with any white
      space around the block and inside it, is cleaned back to the object. */
  lemma FencedObjectCleaned(pre: string, open: string, ws1: string, body: string, ws2: string, post: string)
    requires open == JsonFence || open == Fence
    requires AllSpace(pre) && AllSpace(ws1) && AllSpace(ws2) && AllSpace(post)
    requires Trimmed(body) && body != [] && body[0] == '{'
    ensures CleanResponse(pre + open + ws1 + body + ws2 + Fence + post) == body
  {
    var t := open + ws1 + body + ws2 + Fence;
    assert t[0] == '`' && t[|t| - 1] == '`';
    assert pre + open + ws1 + body + ws2 + Fence + post == pre + t + post;
    TrimPadded(pre, t, post);
    BlockContentsKept(open, ws1, body, ws2);
  }

  /** A bare JSON object, padded only with white space, reaches the parser
      unchanged. */
  lemma BareObjectCleaned(pre: string, body: string, post: string)
    requires AllSpace(pre) && AllSpace(post)
    requires Trimmed(body) && body != [] && body[0] == '{' && body[|body| - 1] == '}'
    ensures CleanResponse(pre + body + post) == body
  {
    TrimPadded(pre, body, post);
    assert !StartsWith(body, JsonFence) && !StartsWith(body, Fence) by {
      assert JsonFence[0] == '`' && Fence[0] == '`';
    }
    assert !EndsWith(body, Fence) by {
      assert Fence[|Fence| - 1] == '`';
    }
    TrimKeepsTrimmed(body);
  }

  /** A response whose trimmed form neither starts nor ends with a fence is
      only trimmed before it is parsed, whatever it holds. */
  lemma UnfencedOnlyTrimmed(text: string)
    requires !StartsWith(Trim(text), Fence) && !EndsWith(Trim(text), Fence)
    ensures CleanResponse(text) == Trim(text)
  {
    var t := Trim(text);
    NoFenceNoJsonFence(t);
    assert StripOpening(StripOpening(t, JsonFence), Fence) == t;
    assert StripClosing(t) == t;
    TrimKeepsTrimmed(t);
  }

  /** A text that does not start with "```" does not start with "```json". */
  lemma NoFenceNoJsonFence(t: string)
    requires !StartsWith(t, Fence)
    ensures !StartsWith(t, JsonFence)
  {
    assert JsonFence[..|Fence|] == Fence;
    assert |JsonFence| <= |t| ==> t[..|Fence|] == t[..|JsonFence|][..|Fence|];
  }

  /** The fallback finds an object embedded in prose: with no `{` before it and
      no `}` after it, it is extracted exactly. */
  lemma EmbeddedObjectExtracted(before: string, v: string, after: string)
    requires |v| >= 2 && v[0] == '{' && v[|v| - 1] == '}'
    requires '{' !in before && '}' !in after
    ensures ExtractBraces(before + v + after) == Some(v)
  {
    var s := before + v + after;
    var i := |before|;
    assert s[i] == '{' && s[..i] == before;
    IndexOfUnique(s, i, '{');
    assert s[i + |v| - 1] == '}';
    assert s[i + 1..][|v| - 2] == '}';
    var j := i + |v| - 1;
    assert s[j + 1..] == after;
    var r := ExtractBraces(s).value;
    assert s[i..j + 1] == v;
  }

  // ---------------------------------------------------------------------------
  // Error mapping
  // ---------------------------------------------------------------------------

  /** The `catch` of `analyzeResume`: the first keyword found decides. */
  function ClassifyAnalyzeError(message: string): (e: ServiceError)
    ensures e in {InvalidApiKey, QuotaExceeded, AccessDenied, AnalysisFailed}
    ensures Contains(message, "API_KEY_INVALID") ==> e == InvalidApiKey
    ensures !Contains(message, "API_KEY_INVALID") && Contains(message, "QUOTA_EXCEEDED") ==> e == QuotaExceeded
    ensures !Contains(message, "API_KEY_INVALID") && !Contains(message, "QUOTA_EXCEEDED") && Contains(message, "PERMISSION_DENIED") ==> e == AccessDenied
    ensures e == AnalysisFailed <==>
      !Contains(message, "API_KEY_INVALID") && !Contains(message, "QUOTA_EXCEEDED") && !Contains(message, "PERMISSION_DENIED")
  {
    if Contains(message, "API_KEY_INVALID") then InvalidApiKey
    else if Contains(message, "QUOTA_EXCEEDED") then QuotaExceeded
    else if Contains(message, "PERMISSION_DENIED") then AccessDenied
    else AnalysisFailed
  }

  /** The `catch` of `generateImprovedResume`: no access-denied case. */
  function ClassifyImproveError(message: string): (e: ServiceError)
    ensures e in {InvalidApiKey, QuotaExceeded, ImprovementFailed}
    ensures Contains(message, "API_KEY_INVALID") ==> e == InvalidApiKey
    ensures !Contains(message, "API_KEY_INVALID") && Contains(message, "QUOTA_EXCEEDED") ==> e == QuotaExceeded
    ensures e == ImprovementFailed <==> !Contains(message, "API_KEY_INVALID") && !Contains(message, "QUOTA_EXCEEDED")
  {
    if Contains(message, "API_KEY_INVALID") then InvalidApiKey
    else if Contains(message, "QUOTA_EXCEEDED") then QuotaExceeded
    else ImprovementFailed
  }

  /** The invalid-JSON error is caught by the outer handler of
      `analyzeResume` and, naming none of the keywords, is rethrown as the
      generic analysis failure. */
  lemma InvalidJsonBecomesGenericFailure()
    ensures ClassifyAnalyzeError(InvalidJsonMessage) == AnalysisFailed
  {
    ContainsNeedsChar(InvalidJsonMessage, "API_KEY_INVALID", '_');
    ContainsNeedsChar(InvalidJsonMessage, "QUOTA_EXCEEDED", '_');
    ContainsNeedsChar(InvalidJsonMessage, "PERMISSION_DENIED", '_');
  }

  // ---------------------------------------------------------------------------
  // What a call returns
  // ---------------------------------------------------------------------------

  /** The two parse attempts on a cleaned response: the whole text, then the
      text from its first `{` to its last `}`. */
  function ParseCleaned<J>(cleaned: string, parse: string -> Option<J>): Option<J> {
    if parse(cleaned).Some? then parse(cleaned)
    else
      var embedded := ExtractBraces(cleaned);
      if embedded.Some? then parse(embedded.value) else None
  }

  /** The result of `analyzeResume` once the service is initialised. */
  function AnalysisOutcome<J>(reply: Reply, parse: string -> Option<J>): Result<J, ServiceError> {
    match reply
    case Raised(message) => Err(ClassifyAnalyzeError(message))
    case Answered(text) =>
      match ParseCleaned(CleanResponse(text), parse)
      case Some(value) => Ok(value)
      case None => Err(ClassifyAnalyzeError(InvalidJsonMessage))
  }

  /** The result of `generateImprovedResume` once the service is initialised. */
  function ImprovementOutcome(reply: Reply): Result<string, ServiceError> {
    match reply
    case Raised(message) => Err(ClassifyImproveError(message))
    case Answered(text) => Ok(Trim(text))
  }

  /** A reply that is a fenced JSON object which parses yields that parsed object. */
  lemma FencedObjectParsed<J>(pre: string, open: string, ws1: string, body: string, ws2: string, post: string,
                              parse: string -> Option<J>)
    requires open == JsonFence || open == Fence
    requires AllSpace(pre) && AllSpace(ws1) && AllSpace(ws2) && AllSpace(post)
    requires Trimmed(body) && body != [] && body[0] == '{'
    requires parse(body).Some?
    ensures AnalysisOutcome(Answered(pre + open + ws1 + body + ws2 + Fence + post), parse) == Ok(parse(body).value)
  {
    FencedObjectCleaned(pre, open, ws1, body, ws2, post);
  }

  /** When the cleaned text does not parse but is an object embedded in prose
      that does, the fallback recovers the object. */
  lemma EmbeddedObjectParsed<J>(text: string, before: string, v: string, after: string, parse: string -> Option<J>)
    requires CleanResponse(text) == before + v + after
    requires |v| >= 2 && v[0] == '{' && v[|v| - 1] == '}'
    requires '{' !in before && '}' !in after
    requires parse(before + v + after).None? && parse(v).Some?
    ensures AnalysisOutcome(Answered(text), parse) == Ok(parse(v).value)
  {
    EmbeddedObjectExtracted(before, v, after);
  }

  /** A reply that parses neither whole nor from its braces is reported as the
      generic failure, never as the invalid-JSON message. */
  lemma UnparsableReplyFails<J>(text: string, parse: string -> Option<J>)
    requires parse(CleanResponse(text)).None?
    requires var e := ExtractBraces(CleanResponse(text)); e.None? || parse(e.value).None?
    ensures AnalysisOutcome(Answered(text), parse) == Err(AnalysisFailed)
  {
    InvalidJsonBecomesGenericFailure();
  }

  /** Every failure of `analyzeResume` after initialisation is one of the four
      errors its handler produces. */
  lemma AnalysisErrors<J>(reply: Reply, parse: string -> Option<J>)
    ensures var r := AnalysisOutcome(reply, parse);
      r.Err? ==> r.error in {InvalidApiKey, QuotaExceeded, AccessDenied, AnalysisFailed}
  {
  }

  /** The two handlers agree on key and quota failures; a permission failure is
      named only by `analyzeResume`. */
  lemma HandlersDifferOnPermission(message: string)
    ensures ClassifyAnalyzeError(message) in {InvalidApiKey, QuotaExceeded}
        <==> ClassifyImproveError(message) in {InvalidApiKey, QuotaExceeded}
    ensures ClassifyAnalyzeError(message) in {InvalidApiKey, QuotaExceeded} ==>
      ClassifyAnalyzeError(message) == ClassifyImproveError(message)
    ensures ClassifyAnalyzeError(message) == AccessDenied ==> ClassifyImproveError(message) == ImprovementFailed
  {
  }
}
