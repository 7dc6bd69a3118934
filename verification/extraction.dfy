/** The result object both extraction services resolve to, and the `JSON.parse`
    they call. */
module Extraction {
  import opened Wrappers
  import opened Json

  /** `JSON.parse`: the parsed value, or Failure with the SyntaxError's message.
      It is library code, so the model takes it as a parameter and assumes
      nothing about it. */
  type Parser = string -> Result<Json, string>

  /** `{ success: true, data, rawResponse }` or `{ success: false, error,
      rawResponse: null }`. */
  datatype Envelope = Succeeded(data: Json, rawResponse: string) | Failed(error: string) {

    /** The `success` flag. */
    predicate Success() {
      Succeeded?
    }

    /** The `rawResponse` field, None standing for `null`. */
    function RawResponse(): (r: Option<string>)
      ensures r.Some? <==> Succeeded?
    {
      if Succeeded? then Some(rawResponse) else None
    }
  }

  /** The envelope for a text that reached `JSON.parse`. */
  function ParseEnvelope(parse: Parser, slice: string, text: string): (e: Envelope)
    ensures e.Succeeded? <==> parse(slice).Success?
    ensures e.Succeeded? ==> e.data == parse(slice).value && e.rawResponse == text
    ensures e.Failed? ==> e.error == parse(slice).error
  {
    match parse(slice)
    case Success(v) => Succeeded(v, text)
    case Failure(msg) => Failed(msg)
  }
}
