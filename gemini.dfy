/**
 * The service object of src/services/gemini.ts: its one client slot, filled
 * by `initialize` when a usable key is supplied, and the two calls that need
 * it, each of which fails with "not initialized" while the slot is empty.
 */
module Gemini {
  import opened Wrappers
  import opened Text
  import opened Responses

  /** The example value shipped in the environment template, refused as a key. */
  const Placeholder: string := "your_gemini_api_key_here"

  /** The client kept once the service is initialised, with the key it was made from. */
  datatype Client = Client(apiKey: string)

  /** A key is usable when it is present, non-empty and not the placeholder. */
  predicate UsableKey(apiKey: Option<string>) {
    apiKey.Some? && apiKey.value != [] && apiKey.value != Placeholder
  }

  /** The two guarded opening strips of the clean-up: a "```json" fence, then
      a plain "```" fence, each with the white space after it. */
  method DropOpeningFences(trimmed: string) returns (cleaned: string)
    ensures cleaned == StripOpening(StripOpening(trimmed, JsonFence), Fence)
  {
    cleaned := trimmed;
    if StartsWith(cleaned, JsonFence) {
      cleaned := TrimStart(cleaned[|JsonFence|..]);
    }
    if StartsWith(cleaned, Fence) {
      cleaned := TrimStart(cleaned[|Fence|..]);
    }
  }

  /** The guarded closing strip of the clean-up: a "```" fence at the end,
      with the white space before it. */
  method DropClosingFence(unfenced: string) returns (cleaned: string)
    ensures cleaned == StripClosing(unfenced)
  {
    cleaned := unfenced;
    if EndsWith(cleaned, Fence) {
      cleaned := TrimEnd(cleaned[..|cleaned| - |Fence|]);
    }
  }

  /** The clean-up as the source performs it, reassigning the text step by
      step: trim, drop the opening fences, drop a closing fence, trim again. */
  method Clean(text: string) returns (cleaned: string)
    ensures cleaned == CleanResponse(text)
  {
    cleaned := Trim(text);
    cleaned := DropOpeningFences(cleaned);
    cleaned := DropClosingFence(cleaned);
    cleaned := Trim(cleaned);
  }

  /** The service: one client slot, empty until a usable key is supplied. */
  class GeminiService {
    var instance: Option<Client>

    constructor ()
      ensures instance == None
    {
      instance := None;
    }

    /** `initialize`: refuses a missing, empty or placeholder key and then
        leaves the state as it was; otherwise creates the client. */
    method Initialize(apiKey: Option<string>) returns (outcome: Result<(), ServiceError>)
      modifies this
      ensures outcome.Ok? <==> UsableKey(apiKey)
      ensures !UsableKey(apiKey) ==> outcome == Err(KeyNotFound) && instance == old(instance)
      ensures UsableKey(apiKey) ==> instance == Some(Client(apiKey.value))
    {
      if apiKey.None? || apiKey.value == [] || apiKey.value == Placeholder {
        return Err(KeyNotFound);
      }
      instance := Some(Client(apiKey.value));
      outcome := Ok(());
    }

    /** `isInitialized`. */
    method IsInitialized() returns (initialized: bool)
      ensures initialized <==> instance.Some?
    {
      initialized := instance.Some?;
    }

    /** `analyzeResume` after the remote call: the response is cleaned step by
        step, parsed, parsed again from its outermost braces if need be, and
        any failure is mapped to the error the service rethrows. */
    method AnalyzeResume<J>(reply: Reply, parse: string -> Option<J>) returns (result: Result<J, ServiceError>)
      ensures instance.None? ==> result == Err(NotInitialized)
      ensures instance.Some? ==> result == AnalysisOutcome(reply, parse)
    {
      if instance.None? {
        return Err(NotInitialized);
      }
      match reply {
        case Raised(message) =>
          result := Err(ClassifyAnalyzeError(message));
        case Answered(text) =>
          var cleaned := Clean(text);
          var parsed := parse(cleaned);
          if parsed.Some? {
            return Ok(parsed.value);
          }
          var embedded := ExtractBraces(cleaned);
          if embedded.Some? {
            var reparsed := parse(embedded.value);
            if reparsed.Some? {
              return Ok(reparsed.value);
            }
          }
          result := Err(ClassifyAnalyzeError(InvalidJsonMessage));
      }
    }

    /** `generateImprovedResume` after the remote call. */
    method GenerateImprovedResume(reply: Reply) returns (result: Result<string, ServiceError>)
      ensures instance.None? ==> result == Err(NotInitialized)
      ensures instance.Some? ==> result == ImprovementOutcome(reply)
    {
      if instance.None? {
        return Err(NotInitialized);
      }
      match reply {
        case Raised(message) =>
          result := Err(ClassifyImproveError(message));
        case Answered(text) =>
          result := Ok(Trim(text));
      }
    }
  }
}
