/**
 * The `source` tag every reply of the prompt and reflection routes carries:
 * it says whether the payload came from the generator or from one of the
 * local fallbacks, and which failure led to the fallback.
 */
module Provenance {

  datatype Source =
    | Generated       // the generator answered
    | MissingKey      // no API key configured
    | GeneratorError  // the generator answered with a non-2xx status
    | ParseError      // the generator's reflection was not valid JSON
    | Exception       // the call threw
    | NoEntries       // no entry falls in the current month
  {
    predicate IsFallback() {
      !Generated?
    }

    /** The tag as it appears in the JSON reply. */
    function Tag(): (t: string)
      ensures |t| > 0
      ensures IsFallback() <==> FallbackPrefix <= t
    {
      match this
      case Generated => "openai"
      case MissingKey => FallbackPrefix + "missing_key"
      case GeneratorError => FallbackPrefix + "openai_error"
      case ParseError => FallbackPrefix + "parse_error"
      case Exception => FallbackPrefix + "exception"
      case NoEntries => FallbackPrefix + "no_entries"
    }
  }

  const FallbackPrefix := "fallback:"

  /** Different provenances never share a tag, so a client can tell them apart. */
  lemma TagInjective(a: Source, b: Source)
    ensures a.Tag() == b.Tag() ==> a == b
  {
    if a != b {
      var ta, tb := a.Tag(), b.Tag();
      if a.IsFallback() && b.IsFallback() {
        assert ta[|FallbackPrefix|] != tb[|FallbackPrefix|];
      } else {
        assert ta[0] != tb[0];
      }
    }
  }
}
